/** Greatest common divisors: the mathematical one, and the binary algorithm. */
module NumGcd {
  import opened Powers
  import opened Words
  import opened Bits
  import opened NumCore

  ghost predicate Divides(d: nat, n: nat) {
    exists k: nat :: Times(k, d) == n
  }

  /** g is the greatest common divisor of a and b, in the order of divisibility. */
  ghost predicate IsGcd(g: nat, a: nat, b: nat) {
    && Divides(g, a) && Divides(g, b)
    && forall d: nat :: Divides(d, a) && Divides(d, b) ==> Divides(d, g)
  }

  lemma DividesSum(d: nat, a: nat, b: nat)
    requires Divides(d, a) && Divides(d, b)
    ensures Divides(d, a + b)
  {
    var k: nat :| Times(k, d) == a;
    var l: nat :| Times(l, d) == b;
    assert Times(k + l, d) == a + b;
  }

  lemma DividesDifference(d: nat, a: nat, b: nat)
    requires Divides(d, a) && Divides(d, b) && a <= b
    ensures Divides(d, b - a)
  {
    var k: nat :| Times(k, d) == a;
    var l: nat :| Times(l, d) == b;
    if d == 0 || k <= l {
      if d == 0 { assert Times(0, d) == b - a; } else { TimesDifference(l, k, d); assert Times(l - k, d) == b - a; }
    } else {
      MulMono(d, l + 1, k);
      assert false;
    }
  }

  lemma TimesDifference(l: int, k: int, d: int)
    ensures Times(l - k, d) == Times(l, d) - Times(k, d)
  {
  }

  lemma DividesMultiple(d: nat, a: nat, m: nat)
    requires Divides(d, a)
    ensures Divides(d, Times(m, a))
  {
    var k: nat :| Times(k, d) == a;
    MulAssoc(m, k, d);
    assert Times(m * k, d) == Times(m, a);
  }

  /** An odd divisor of twice a number divides the number. */
  lemma OddDivides(d: nat, a: nat)
    requires Divides(d, 2 * a) && d % 2 == 1
    ensures Divides(d, a)
  {
    var k: nat :| Times(k, d) == 2 * a;
    EvenCofactor(k, d, a);
    assert Times(k / 2, d) == a;
  }

  lemma EvenCofactor(k: nat, d: nat, a: nat)
    requires k * d == 2 * a && d % 2 == 1
    ensures k % 2 == 0 && (k / 2) * d == a
  {
    var h := k / 2;
    var e := d / 2;
    if k % 2 == 1 {
      assert k * d == (2 * h + 1) * (2 * e + 1) == 2 * (2 * (h * e) + h + e) + 1 by {
        OddProduct(h, e);
      }
      assert false;
    } else {
      MulAssoc(2, h, d);
    }
  }

  lemma OddProduct(h: int, e: int)
    ensures (2 * h + 1) * (2 * e + 1) == 2 * (2 * (h * e) + h + e) + 1
  {
  }

  lemma OddDivisor(d: nat, a: nat)
    requires Divides(d, a) && a % 2 == 1
    ensures d % 2 == 1
  {
    var k: nat :| Times(k, d) == a;
    if d % 2 == 0 {
      EvenTimes(k, d / 2);
    }
  }

  lemma EvenTimes(k: int, e: int)
    ensures k * (2 * e) == 2 * (k * e)
  {
  }

  lemma DividesZero(d: nat)
    ensures Divides(d, 0) && Divides(d, d)
  {
    assert Times(0, d) == 0 && Times(1, d) == d;
  }

  lemma DividesAntisym(a: nat, b: nat)
    requires Divides(a, b) && Divides(b, a)
    ensures a == b
  {
    var k: nat :| Times(k, a) == b;
    var l: nat :| Times(l, b) == a;
    if a != 0 && b != 0 {
      if a < b { if l > 0 { MulMono(b, 1, l); } }
      if b < a { if k > 0 { MulMono(a, 1, k); } }
    }
  }

  lemma GcdUnique(g: nat, h: nat, a: nat, b: nat)
    requires IsGcd(g, a, b) && IsGcd(h, a, b)
    ensures g == h
  {
    DividesAntisym(g, h);
  }

  lemma GcdSwap(g: nat, a: nat, b: nat)
    requires IsGcd(g, a, b)
    ensures IsGcd(g, b, a)
  {
  }

  lemma GcdZero(a: nat)
    ensures IsGcd(a, a, 0) && IsGcd(a, 0, a)
  {
    DividesZero(a);
  }

  /** Subtracting one argument from the other keeps the common divisors. */
  lemma GcdOfDifference(g: nat, a: nat, b: nat)
    requires IsGcd(g, a, b)
    ensures IsGcd(g, a, b + a)
  {
    DividesSum(g, b, a);
    forall d: nat | Divides(d, a) && Divides(d, b + a) ensures Divides(d, g) {
      DividesDifference(d, a, b + a);
    }
  }

  /** Next to an odd number, a factor two is no common one. */
  lemma GcdOfDouble(g: nat, a: nat, b: nat)
    requires IsGcd(g, a, b) && a % 2 == 1
    ensures IsGcd(g, a, 2 * b)
  {
    DividesSum(g, b, b);
    forall d: nat | Divides(d, a) && Divides(d, 2 * b) ensures Divides(d, g) {
      OddDivisor(d, a);
      OddDivides(d, b);
    }
  }

  lemma {:induction false} GcdOfShifted(g: nat, a: nat, b: nat, k: nat)
    requires IsGcd(g, a, b) && a % 2 == 1
    ensures IsGcd(g, a, b * Pow2(k))
  {
    if k > 0 {
      GcdOfShifted(g, a, b, k - 1);
      GcdOfDouble(g, a, b * Pow2(k - 1));
      MulAssoc(b, 2, Pow2(k - 1));
      MulAssoc(2, b, Pow2(k - 1));
    }
  }

  /** Twice the greatest common divisor is that of the doubled numbers. */
  lemma GcdOfDoubles(g: nat, a: nat, b: nat)
    requires IsGcd(g, a, b)
    ensures IsGcd(2 * g, 2 * a, 2 * b)
  {
    DoubleDivides(g, a);
    DoubleDivides(g, b);
    forall d: nat | Divides(d, 2 * a) && Divides(d, 2 * b) ensures Divides(d, 2 * g) {
      if d % 2 == 1 {
        OddDivides(d, a);
        OddDivides(d, b);
        DividesSum(d, g, g);
      } else {
        HalveDivides(d / 2, a);
        HalveDivides(d / 2, b);
        DoubleDivides(d / 2, g);
      }
    }
  }

  lemma DoubleDivides(d: nat, a: nat)
    requires Divides(d, a)
    ensures Divides(2 * d, 2 * a)
  {
    var k: nat :| Times(k, d) == a;
    assert Times(k, 2 * d) == 2 * a;
  }

  lemma HalveDivides(d: nat, a: nat)
    requires Divides(2 * d, 2 * a)
    ensures Divides(d, a)
  {
    var k: nat :| Times(k, 2 * d) == 2 * a;
    assert k * (2 * d) == 2 * (k * d);
    assert Times(k, d) == a;
  }

  lemma {:induction false} GcdOfShiftedBoth(g: nat, a: nat, b: nat, k: nat)
    requires IsGcd(g, a, b)
    ensures IsGcd(g * Pow2(k), a * Pow2(k), b * Pow2(k))
  {
    if k > 0 {
      GcdOfShiftedBoth(g, a, b, k - 1);
      GcdOfDoubles(g * Pow2(k - 1), a * Pow2(k - 1), b * Pow2(k - 1));
      DoublePower(g, k);
      DoublePower(a, k);
      DoublePower(b, k);
    }
  }

  lemma DoublePower(x: nat, k: nat)
    requires k > 0
    ensures 2 * (x * Pow2(k - 1)) == x * Pow2(k)
  {
    MulAssoc(x, 2, Pow2(k - 1));
    MulAssoc(2, x, Pow2(k - 1));
  }

  /** Whatever is the greatest common divisor of a and b is that of c and d. */
  ghost predicate GcdCarries(a: nat, b: nat, c: nat, d: nat) {
    forall g: nat :: IsGcd(g, a, b) ==> IsGcd(g, c, d)
  }

  /** Reducing one argument modulo the other. */
  lemma GcdOfMod(g: nat, a: nat, b: nat)
    requires a > 0 && IsGcd(g, a, b % a)
    ensures IsGcd(g, a, b)
  {
    var q, r := b / a, b % a;
    assert b == Times(q, a) + r;
    DividesMultiple(g, a, q);
    DividesSum(g, Times(q, a), r);
    forall d: nat | Divides(d, a) && Divides(d, b) ensures Divides(d, g) {
      DividesMultiple(d, a, q);
      DividesDifference(d, Times(q, a), b);
    }
  }

  lemma GcdCarriesMod(a: nat, b: nat, c: nat, d: nat)
    requires GcdCarries(a, b, c, d) && a > 0
    ensures GcdCarries(a, b % a, c, d) && GcdCarries(b % a, a, d, c)
  {
    forall g: nat | IsGcd(g, a, b % a) ensures IsGcd(g, c, d) { GcdOfMod(g, a, b); }
    forall g: nat | IsGcd(g, b % a, a) ensures IsGcd(g, d, c) { GcdSwap(g, b % a, a); GcdSwap(g, c, d); }
  }

  /** `word_gcd`: the single-word shortcut. */
  method WordGcd(a0: word, b0: word) returns (r: word)
    ensures IsGcd(r, a0, b0)
  {
    hide IsGcd;
    var a, b := a0, b0;
    while true
      invariant GcdCarries(a, b, a0, b0)
      decreases a
    {
      if a == 0 { GcdZero(b); return b; }
      GcdCarriesMod(a, b, a0, b0);
      ModSmaller(b, a);
      b := b % a;
      if b == 0 { GcdZero(a); return a; }
      GcdCarriesMod(b, a, b0, a0);
      ModSmaller(a, b);
      a := a % b;
    }
  }

  lemma ModSmaller(x: nat, y: nat)
    requires y > 0
    ensures 0 <= x % y < y && x % y <= x
  {
    if x < y { DivModUnique(x, y, 0, x); }
  }

  /** Removing the trailing zero bits of v divides it exactly, leaving an odd number. */
  lemma StripZeros(v: nat, r: nat)
    requires IsLowestBit(v, r)
    ensures v == (v / Pow2(r)) * Pow2(r) && (v / Pow2(r)) % 2 == 1
  {
  }

  lemma StripFewer(v: nat, r: nat, s: nat)
    requires IsLowestBit(v, r) && s <= r
    ensures v == (v / Pow2(s)) * Pow2(s) && v / Pow2(s) > 0
  {
    Pow2Add(r - s, s);
    var h := v / Pow2(r);
    StripZeros(v, r);
    MulAssoc(h, Pow2(r - s), Pow2(s));
    DivModUnique(v, Pow2(s), h * Pow2(r - s), 0);
    MulMono(Pow2(r - s), 1, h);
  }

  /** One round of the loop: strip b, order the two, subtract. */
  lemma GcdCarriesRound(a: nat, b: nat, k: nat, c: nat, d: nat)
    requires a % 2 == 1 && IsLowestBit(b, k) && GcdCarries(a, b, c, d)
    ensures var s := b / Pow2(k);
      && s % 2 == 1 && 0 < s <= b
      && (a <= s ==> GcdCarries(a, s - a, c, d))
      && (a > s ==> GcdCarries(s, a - s, c, d))
  {
    StripZeros(b, k);
    var s := b / Pow2(k);
    MulMono(s, 1, Pow2(k));
    forall g: nat | IsGcd(g, a, s) ensures IsGcd(g, c, d) { GcdOfShifted(g, a, s, k); }
    if a <= s {
      forall g: nat | IsGcd(g, a, s - a) ensures IsGcd(g, c, d) { GcdOfDifference(g, a, s - a); }
    } else {
      forall g: nat | IsGcd(g, s, a - s) ensures IsGcd(g, c, d) {
        GcdOfDifference(g, s, a - s);
        GcdSwap(g, s, a);
      }
    }
  }

  lemma GcdCarriesSelf(a: nat, b: nat)
    ensures GcdCarries(a, b, a, b)
  {
  }

  lemma GcdCarriesEnd(a: nat, c: nat, d: nat, n: nat)
    requires GcdCarries(a, 0, c, d)
    ensures IsGcd(a * Pow2(n), c * Pow2(n), d * Pow2(n))
  {
    GcdZero(a);
    GcdOfShiftedBoth(a, c, d, n);
  }

  /** `gcd`: the single-word shortcut, the zero cases, and the binary algorithm. */
  method Gcd(a0: Num, b0: Num) returns (a: Num)
    requires a0.Valid() && b0.Valid()
    ensures fresh(a) && a.Valid() && IsGcd(a.Mag(), a0.Mag(), b0.Mag())
    ensures a0.Mag() != 0 && b0.Mag() != 0 ==> !a.neg
    ensures a0.Mag() == 0 ==> a.Value() == b0.Value()
    ensures b0.Mag() == 0 && a0.Mag() != 0 ==> a.Value() == a0.Value()
  {
    hide Val, Pow2, IsGcd, GcdCarries, IsLowestBit;
    CanonicalZero(a0.words);
    CanonicalZero(b0.words);
    if |a0.words| == 1 && |b0.words| == 1 {
      var w := WordGcd(a0.words[0], b0.words[0]);
      a := new Num.Filled(1, w, false);
      assert a.words == [w] && a0.words == [a0.words[0]] && b0.words == [b0.words[0]];
      ValSmall(w);
      ValSmall(a0.words[0]);
      ValSmall(b0.words[0]);
      GcdNonzero(w, a0.Mag(), b0.Mag());
      return;
    }
    if |a0.words| == 0 { GcdZero(b0.Mag()); a := new Num.Copy(b0); return; }
    if |b0.words| == 0 { GcdZero(a0.Mag()); a := new Num.Copy(a0); return; }
    a := BinaryGcd(a0, b0);
  }

  lemma GcdNonzero(g: nat, a: nat, b: nat)
    requires IsGcd(g, a, b) && a > 0
    ensures g > 0
  {
    if g == 0 {
      var k: nat :| Times(k, g) == a;
    }
  }

  method BinaryGcd(a0: Num, b0: Num) returns (a: Num)
    requires a0.Valid() && b0.Valid() && a0.Mag() > 0 && b0.Mag() > 0
    ensures fresh(a) && a.Valid() && !a.neg && IsGcd(a.Mag(), a0.Mag(), b0.Mag())
  {
    hide Val, Pow2, IsGcd, GcdCarries, IsLowestBit;
    a := new Num.Copy(a0);
    var b := new Num.Copy(b0);
    a.neg, b.neg := false, false;
    var n := a.CountTrailingZeros();
    var m := b.CountTrailingZeros();
    ghost var swapped := n > m;
    if n > m {
      n, m := m, n;
      a.words, b.words := b.words, a.words;
    }
    StripZeros(a.Mag(), n);
    StripFewer(b.Mag(), m, n);
    a.ShiftRight(n);
    b.ShiftRight(n);
    ghost var c, d := a.Mag(), b.Mag();
    OddGcd(a, b);
    GcdCarriesEnd(a.Mag(), c, d, n);
    a.ShiftLeft(n);
    if swapped { GcdSwap(a.Mag(), b0.Mag(), a0.Mag()); }
  }

  /** The loop of `gcd`: a stays odd, and b is used up. */
  method OddGcd(a: Num, b: Num)
    requires a != b && a.Valid() && b.Valid() && a.Mag() % 2 == 1 && b.Mag() > 0
    modifies a`words, b`words
    ensures a.Valid() && GcdCarries(a.Mag(), 0, old(a.Mag()), old(b.Mag()))
  {
    hide Val, Pow2, IsGcd, GcdCarries, IsLowestBit;
    ghost var c, d := a.Mag(), b.Mag();
    GcdCarriesSelf(c, d);
    while true
      invariant a.Valid() && b.Valid()
      invariant a.Mag() % 2 == 1 && b.Mag() > 0
      invariant GcdCarries(a.Mag(), b.Mag(), c, d)
      decreases a.Mag() + b.Mag()
    {
      var k := b.CountTrailingZeros();
      GcdCarriesRound(a.Mag(), b.Mag(), k, c, d);
      b.ShiftRight(k);
      var order := Num.CmpAbs(a, b);
      if order > 0 { a.words, b.words := b.words, a.words; }
      Num.SubUnsignedOverwrite(b, a);
      CanonicalZero(b.words);
      if |b.words| == 0 { break; }
    }
  }
}
