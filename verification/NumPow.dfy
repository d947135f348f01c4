/** Modular exponentiation by repeated squaring. */
module NumPow {
  import opened Powers
  import opened Words
  import opened Bits
  import opened NumCore
  import opened NumMul
  import opened NumDiv

  function Power(x: nat, e: nat): nat {
    if e == 0 then 1 else x * Power(x, e - 1)
  }

  lemma ModTimes(a: nat, b: nat, m: nat)
    requires m > 0
    ensures Times(a % m, b) % m == Times(a, b) % m
  {
    var q := a / m;
    ModTimesArith(a, q, m, a % m, b);
    DivModAddMul(Times(a % m, b), Times(q, b), m);
  }

  lemma ModTimesArith(a: nat, q: nat, m: nat, r: nat, b: nat)
    requires a == q * m + r
    ensures Times(a, b) == Times(r, b) + Times(q, b) * m
    ensures Times(q, b) >= 0 && Times(r, b) >= 0
  {
    MulAssoc(q, m, b);
    MulAssoc(q, b, m);
    MulComm(m, b);
  }

  lemma TimesFacts(a: nat, b: nat, c: nat)
    ensures Times(a, b) == Times(b, a) >= 0
    ensures Times(Times(a, b), c) == Times(a, Times(b, c))
    ensures Times(a, 1) == a && Times(1, a) == a
  {
    MulAssoc(a, b, c);
  }

  /** Reducing one factor anywhere in a product. */
  lemma ModFactor(a: nat, b: nat, c: nat, m: nat)
    requires m > 0 && b % m == c % m
    ensures Times(a, b) % m == Times(a, c) % m
  {
    ModTimes(b, a, m);
    ModTimes(c, a, m);
    TimesFacts(a, b, 0);
    TimesFacts(a, c, 0);
  }

  lemma {:induction false} PowerMod(x: nat, y: nat, e: nat, m: nat)
    requires m > 0 && x % m == y % m
    ensures Power(x, e) % m == Power(y, e) % m
  {
    if e > 0 {
      PowerMod(x, y, e - 1, m);
      ModFactor(x, Power(x, e - 1), Power(y, e - 1), m);
      ModFactor(Power(y, e - 1), x, y, m);
      TimesFacts(x, Power(y, e - 1), 0);
      TimesFacts(y, Power(y, e - 1), 0);
      PowerStep(x, e);
      PowerStep(y, e);
    }
  }

  lemma PowerStep(x: nat, e: nat)
    requires e > 0
    ensures Power(x, e) == Times(x, Power(x, e - 1))
  {
  }

  lemma {:induction false} PowerSquare(x: nat, k: nat)
    ensures Times(x, x) >= 0 && Power(x, 2 * k) == Power(Times(x, x), k)
  {
    TimesFacts(x, x, 0);
    if k > 0 {
      PowerSquare(x, k - 1);
      MulAssoc(x, x, Power(x, 2 * k - 2));
    }
  }

  /** What the loop keeps: result * base^e is congruent to the power asked for. */
  ghost predicate PowState(result: nat, base: nat, e: nat, x: nat, e0: nat, m: nat)
    requires m > 0
  {
    Times(result, Power(base, e)) % m == Power(x, e0) % m
  }

  lemma PowStateStart(x: nat, e0: nat, m: nat)
    requires m > 0
    ensures PowState(1, x % m, e0, x, e0, m)
  {
    ModIdem(x, m);
    PowerMod(x % m, x, e0, m);
  }

  lemma ModIdem(x: nat, m: nat)
    requires m > 0
    ensures (x % m) % m == x % m
  {
    DivModUnique(x % m, m, 0, x % m);
  }

  /** One round halves the exponent and squares the base. */
  lemma PowStateStep(result: nat, base: nat, e: nat, x: nat, e0: nat, m: nat)
    requires m > 0 && PowState(result, base, e, x, e0, m)
    ensures Times(base, base) >= 0 && Times(result, base) >= 0
    ensures e % 2 == 1 ==> PowState(Times(result, base) % m, Times(base, base) % m, e / 2, x, e0, m)
    ensures e % 2 == 0 ==> PowState(result, Times(base, base) % m, e / 2, x, e0, m)
  {
    var k := e / 2;
    TimesFacts(base, base, 0);
    TimesFacts(result, base, Power(base, 2 * k));
    var square := Times(base, base);
    PowerSquare(base, k);
    ModIdem(square, m);
    PowerMod(square % m, square, k, m);
    var p := Power(square % m, k);
    ModFactor(result, p, Power(base, 2 * k), m);
    if e % 2 == 1 {
      var rb := Times(result, base);
      ModFactor(rb, p, Power(base, 2 * k), m);
      ModTimes(rb, p, m);
      PowerStep(base, e);
    }
  }

  lemma PowStateEnd(result: nat, base: nat, x: nat, e0: nat, m: nat)
    requires m > 0 && PowState(result, base, 0, x, e0, m)
    ensures result % m == Power(x, e0) % m
    ensures result < m ==> result == Power(x, e0) % m
  {
    TimesFacts(result, 1, 0);
    if result < m { DivModUnique(result, m, 0, result); }
  }

  /** A bound on the bits of a product of two numbers below m. */
  lemma ProductBits(a: nat, b: nat, m: nat)
    requires a <= m && b <= m
    ensures Times(a, b) >= 0 && BitLengthOf(Times(a, b)) <= 2 * BitLengthOf(m)
  {
    var l := BitLengthOf(m);
    Pow2Add(l, l);
    BelowSquare(a, b, m, Pow2(l));
    BitsBelow(Times(a, b), 2 * l);
  }

  lemma BelowSquare(a: nat, b: nat, m: nat, p: nat)
    requires a <= m && b <= m && m < p
    ensures 0 <= Times(a, b) < p * p
  {
    ProductBelow(a, b, m);
    ProductBelow(m, m, p - 1);
    assert (p - 1) * (p - 1) == p * p - 2 * p + 1;
  }

  lemma ProductBelow(x: nat, y: nat, m: nat)
    requires x <= m && y <= m
    ensures 0 <= x * y <= m * m
  {
    MulMono(x, y, m);
    MulMono(m, x, m);
  }

  lemma BitsBelow(v: nat, l: nat)
    requires v < Pow2(l)
    ensures BitLengthOf(v) <= l
  {
    var r := BitLengthOf(v);
    Pow2Mono(l, if r > l then r - 1 else l);
  }

  /** The words of a number whose bits an `int` can count fit in a vector. */
  lemma WordsOfBits(ws: seq<word>, n: nat)
    requires Canonical(ws) && BitLengthOf(Val(ws)) <= 64 * n
    ensures |ws| <= n
  {
    Pow2Mono(BitLengthOf(Val(ws)), 64 * n);
    WeightIsPow2(n);
    CanonicalSize(ws, n);
  }

  /** (a * b) % m: the residue of the magnitudes, with the sign of the product that
      `mul` gives. */
  method MulMod(a: Num, b: Num, m: Num) returns (c: Num)
    requires a.Valid() && b.Valid() && m.Valid() && m.Mag() > 0
    requires a.Mag() <= m.Mag() && b.Mag() <= m.Mag() && BitLengthOf(m.Mag()) < 0x8000_0000
    ensures fresh(c) && c.Valid()
    ensures Times(a.Mag(), b.Mag()) >= 0 && c.Mag() == Times(a.Mag(), b.Mag()) % m.Mag()
    ensures MulResult(|a.words|, |b.words|, a.Value(), b.Value()) >= 0 ==> c.Value() >= 0
    ensures MulResult(|a.words|, |b.words|, a.Value(), b.Value()) <= 0 ==> c.Value() <= 0
  {
    hide Val, BitLengthOf, IsBitLength, MulResult, Signed, Times;
    BitsMono(a.Mag(), m.Mag());
    BitsMono(b.Mag(), m.Mag());
    WordsOfBits(a.words, 0x200_0000);
    WordsOfBits(b.words, 0x200_0000);
    MulResultMag(a, b);
    ProductBits(a.Mag(), b.Mag(), m.Mag());
    var product := Mul(a, b);
    MagIsAbs(product.neg, product.Mag());
    c := Mod(product, m);
    RemainderSign(product.neg, product.Mag(), m.Mag());
  }

  lemma MulResultMag(a: Num, b: Num)
    requires a.Valid() && b.Valid()
    ensures Abs(MulResult(|a.words|, |b.words|, a.Value(), b.Value())) == Times(a.Mag(), b.Mag())
  {
    hide Val, MulResult;
    CanonicalZero(a.words);
    CanonicalZero(b.words);
    MulResultIsProduct(|a.words|, |b.words|, a.Value(), b.Value());
  }

  lemma MagIsAbs(neg: bool, mag: nat)
    ensures Abs(Signed(neg, mag)) == mag
  {
  }

  lemma RemainderSign(neg: bool, mag: nat, m: nat)
    requires m > 0
    ensures Signed(neg, mag) >= 0 ==> Signed(neg, mag % m) >= 0
    ensures Signed(neg, mag) <= 0 ==> Signed(neg, mag % m) <= 0
  {
    if mag == 0 { DivModUnique(0, m, 0, 0); }
  }

  /** The sign of what `mul` returns. */
  lemma MulResultSign(na: nat, nb: nat, x: int, y: int)
    ensures MulResult(na, na, x, x) >= 0
    ensures x >= 0 && y >= 0 ==> MulResult(na, nb, x, y) >= 0
    ensures na <= KARATSUBA_THRESHOLD && x <= 0 <= y ==> MulResult(na, nb, x, y) <= 0
    ensures na <= KARATSUBA_THRESHOLD && y <= 0 <= x ==> MulResult(na, nb, x, y) <= 0
  {
    SignOfProduct(x, x);
    SignOfProduct(x, y);
    SignOfProduct(Abs(x), Abs(y));
    SignOfProduct(Abs(x), Abs(x));
  }

  lemma SignOfProduct(x: int, y: int)
    ensures (x >= 0 && y >= 0) || (x <= 0 && y <= 0) ==> x * y >= 0
    ensures x <= 0 <= y || y <= 0 <= x ==> x * y <= 0
  {
  }

  lemma BitsMono(a: nat, m: nat)
    requires a <= m
    ensures BitLengthOf(a) <= BitLengthOf(m)
  {
    BitsBelow(a, BitLengthOf(m));
  }

  /** What `mod_pow` returns: the initial 1 is never reduced. */
  function ModPowResult(x: nat, e: nat, m: nat): int
    requires m > 0
  {
    if e == 0 then 1 else Power(x, e) % m
  }

  /** `mod_pow` is the residue of the power except at exponent 0 with modulus 1. */
  lemma ModPowIsResidue(x: nat, e: nat, m: nat)
    requires m > 0
    ensures ModPowResult(x, e, m) == Power(x, e) % m <==> !(e == 0 && m == 1)
  {
    if m > 1 { DivModUnique(1, m, 0, 1); }
  }

  lemma HalfExponent(e: nat)
    ensures Bit(e, 0) == e % 2 && e / Pow2(1) == e / 2
  {
    assert Pow2(0) == 1 && Pow2(1) == 2;
  }

  /** The signs in the loop of `mod_pow`, for the numbers result and base, a base x and
      an exponent that is odd or not; small: `mul` does not take the Karatsuba branch. */
  ghost predicate PowSigns(started: bool, r: int, b: int, x: int, odd: bool, small: bool) {
    && (!started ==> r == 1)
    && (if x >= 0 then r >= 0 && b >= 0
        else if started then b >= 0 && (!odd ==> r >= 0) && (odd && small ==> r <= 0)
        else b <= 0)
  }

  lemma PowSignsStep(started: bool, r: int, b: int, x: int, odd: bool, small: bool, nr: nat, nb: nat,
                     r': int, b': int, bit: bool)
    requires PowSigns(started, r, b, x, odd, small) && (!started ==> bit == odd && nr <= KARATSUBA_THRESHOLD)
    requires small ==> nr <= KARATSUBA_THRESHOLD
    requires MulResult(nb, nb, b, b) >= 0 ==> b' >= 0
    requires if bit then (MulResult(nr, nb, r, b) >= 0 ==> r' >= 0) && (MulResult(nr, nb, r, b) <= 0 ==> r' <= 0)
             else r' == r
    ensures PowSigns(true, r', b', x, odd, small)
  {
    hide MulResult;
    MulResultSign(nb, nb, b, b);
    MulResultSign(nr, nb, r, b);
  }

  /** The body of the loop of `mod_pow`. */
  method PowRound(result0: Num, base0: Num, exponent: Num, modulus: Num, ghost x: int, ghost e0: nat)
    returns (result: Num, base: Num)
    requires result0.Valid() && base0.Valid() && exponent.Valid() && modulus.Valid()
    requires exponent != result0 && exponent != base0 && exponent != modulus
    requires result0.Mag() <= modulus.Mag() && base0.Mag() <= modulus.Mag()
    requires modulus.Mag() > 0 && BitLengthOf(modulus.Mag()) < 0x8000_0000
    requires PowState(result0.Mag(), base0.Mag(), exponent.Mag(), Abs(x), e0, modulus.Mag())
    requires PowSigns(exponent.Mag() < e0, result0.Value(), base0.Value(), x, e0 % 2 == 1, IsSmall(modulus))
    requires 0 < exponent.Mag() <= e0
    modifies exponent`words
    ensures exponent.Valid() && exponent.Mag() == old(exponent.Mag()) / 2 < e0
    ensures fresh(base) && base.Valid() && base.Mag() <= modulus.Mag()
    ensures result.Valid() && result.Mag() <= modulus.Mag()
    ensures result == result0 || fresh(result)
    ensures old(exponent.Mag()) % 2 == 1 ==> result.Mag() < modulus.Mag()
    ensures PowState(result.Mag(), base.Mag(), exponent.Mag(), Abs(x), e0, modulus.Mag())
    ensures PowSigns(true, result.Value(), base.Value(), x, e0 % 2 == 1, IsSmall(modulus))
  {
    hide Val, BitLengthOf, PowState, Times, Pow2, Bit, MulResult, PowSigns;
    PowStateStep(result0.Mag(), base0.Mag(), exponent.Mag(), Abs(x), e0, modulus.Mag());
    HalfExponent(exponent.Mag());
    NotLonger(result0, modulus);
    ghost var started := exponent.Mag() < e0;
    if !started { OneWord(result0, base0.Value(), x, e0 % 2 == 1, IsSmall(modulus)); }
    result := result0;
    var bit := exponent.GetBit(0);
    if bit != 0 {
      result := MulMod(result0, base0, modulus);
    }
    base := MulMod(base0, base0, modulus);
    PowSignsStep(started, result0.Value(), base0.Value(), x, e0 % 2 == 1, IsSmall(modulus),
                 |result0.words|, |base0.words|, result.Value(), base.Value(), bit != 0);
    exponent.ShiftRight(1);
  }

  ghost predicate IsSmall(m: Num)
    reads m
  {
    |m.words| <= KARATSUBA_THRESHOLD
  }

  lemma NotLonger(a: Num, m: Num)
    requires a.Valid() && m.Valid() && a.Mag() <= m.Mag()
    ensures |a.words| <= |m.words|
  {
    hide Val;
    ValBound(m.words);
    CanonicalSize(a.words, |m.words|);
  }

  lemma OneWord(r: Num, b: int, x: int, odd: bool, small: bool)
    requires r.Valid() && PowSigns(false, r.Value(), b, x, odd, small)
    ensures |r.words| <= KARATSUBA_THRESHOLD
  {
    assert r.Mag() == 1 < Weight(1);
    CanonicalSize(r.words, 1);
  }

  /** `mod_pow`: the magnitude is that of the power of the magnitudes; a negative base
      gives the sign of the truncated remainder, except that the product of long
      numbers drops signs. */
  method ModPow(x: Num, exponent0: Num, modulus: Num) returns (result: Num)
    requires x.Valid() && exponent0.Valid() && modulus.Valid() && modulus.Mag() > 0
    requires BitLengthOf(x.Mag()) < 0x8000_0000 && BitLengthOf(modulus.Mag()) < 0x8000_0000
    ensures fresh(result) && result.Valid()
    ensures result.Mag() == ModPowResult(x.Mag(), exponent0.Mag(), modulus.Mag())
    ensures x.Value() >= 0 || exponent0.Mag() % 2 == 0 ==> result.Value() >= 0
    ensures x.Value() < 0 && exponent0.Mag() % 2 == 1 && IsSmall(modulus) ==> result.Value() <= 0
  {
    hide Val, BitLengthOf, PowLoop, Power, Times, Pow2, Bit, ModPowResult, PowSigns;
    ghost var m, e0, small, xm := modulus.Mag(), exponent0.Mag(), IsSmall(modulus), x.Mag();
    ghost var xv := x.Value();
    var exponent, base;
    exponent, result, base := PowSetup(x, exponent0, modulus);
    CanonicalZero(exponent.words);
    while |exponent.words| > 0
      invariant exponent.Valid() && result.Valid() && base.Valid()
      invariant fresh(exponent) && fresh(result) && exponent != result && exponent != base
      invariant exponent.Mag() <= e0
      invariant PowLoop(result.Mag(), base.Mag(), exponent.Mag(), xm, e0, m)
      invariant PowSigns(exponent.Mag() < e0, result.Value(), base.Value(), xv, e0 % 2 == 1, small)
      invariant |exponent.words| > 0 <==> exponent.Mag() > 0
      decreases exponent.Mag()
    {
      PowLoopFacts(result.Mag(), base.Mag(), exponent.Mag(), xm, e0, m);
      ghost var e := exponent.Mag();
      result, base := PowRound(result, base, exponent, modulus, xv, e0);
      PowLoopStep(e, result.Mag(), base.Mag(), xm, e0, m);
      CanonicalZero(exponent.words);
    }
    PowLoopEnd(result.Mag(), base.Mag(), xm, e0, m);
    PowSignsEnd(e0, result.Value(), base.Value(), xv, small);
  }

  lemma PowSignsEnd(e0: nat, r: int, b: int, x: int, small: bool)
    requires PowSigns(0 < e0, r, b, x, e0 % 2 == 1, small)
    ensures x >= 0 || e0 % 2 == 0 ==> r >= 0
    ensures x < 0 && e0 % 2 == 1 && small ==> r <= 0
  {
  }

  method PowSetup(x: Num, exponent0: Num, modulus: Num) returns (exponent: Num, result: Num, base: Num)
    requires x.Valid() && exponent0.Valid() && modulus.Valid() && modulus.Mag() > 0
    requires BitLengthOf(x.Mag()) < 0x8000_0000 && BitLengthOf(modulus.Mag()) < 0x8000_0000
    ensures exponent.Valid() && result.Valid() && base.Valid()
    ensures fresh(exponent) && fresh(result) && exponent != result && exponent != base
    ensures exponent.Mag() == exponent0.Mag()
    ensures PowLoop(result.Mag(), base.Mag(), exponent.Mag(), x.Mag(), exponent0.Mag(), modulus.Mag())
    ensures PowSigns(false, result.Value(), base.Value(), x.Value(), exponent0.Mag() % 2 == 1, IsSmall(modulus))
  {
    hide Val, BitLengthOf, PowLoop, PowSigns, IsBitLength;
    exponent := new Num.Copy(exponent0);
    result := new Num.Filled(1, 1, false);
    assert result.words == [1];
    ValSmall(1);
    base := Mod(x, modulus);
    PowLoopStart(x.Mag(), exponent0.Mag(), modulus.Mag());
    PowSignsStart(x.neg, x.Mag(), modulus.Mag(), exponent0.Mag() % 2 == 1, IsSmall(modulus));
  }

  lemma PowSignsStart(neg: bool, mag: nat, m: nat, odd: bool, small: bool)
    requires m > 0
    ensures PowSigns(false, 1, Signed(neg, mag % m), Signed(neg, mag), odd, small)
  {
    RemainderSign(neg, mag, m);
  }

  /** The state of the loop: the result is reduced as soon as a bit has been seen. */
  ghost predicate PowLoop(r: nat, b: nat, e: nat, x: nat, e0: nat, m: nat) {
    && m > 0 && b <= m && r <= m && PowState(r, b, e, x, e0, m)
    && (e0 > 0 ==> r < m || e > 0)
    && (e0 == 0 ==> r == 1 && e == 0)
  }

  lemma PowLoopStart(x: nat, e0: nat, m: nat)
    requires m > 0
    ensures PowLoop(1, x % m, e0, x, e0, m)
  {
    PowStateStart(x, e0, m);
    hide PowState;
  }

  lemma PowLoopFacts(r: nat, b: nat, e: nat, x: nat, e0: nat, m: nat)
    requires PowLoop(r, b, e, x, e0, m)
    ensures m > 0 && b <= m && r <= m && PowState(r, b, e, x, e0, m) && (e > 0 ==> e0 > 0)
  {
    hide PowState;
  }

  lemma PowLoopStep(e: nat, r: nat, b: nat, x: nat, e0: nat, m: nat)
    requires m > 0 && e > 0 && e0 > 0 && r <= m && b <= m
    requires PowState(r, b, e / 2, x, e0, m) && (e % 2 == 1 ==> r < m)
    ensures PowLoop(r, b, e / 2, x, e0, m)
  {
    hide PowState;
  }

  lemma PowLoopEnd(r: nat, b: nat, x: nat, e0: nat, m: nat)
    requires PowLoop(r, b, 0, x, e0, m)
    ensures r == ModPowResult(x, e0, m)
  {
    PowStateEnd(r, b, x, e0, m);
    hide PowState, Power;
  }
}
