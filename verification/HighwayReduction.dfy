/** The last step of the 256-bit hash as polynomial arithmetic over GF(2). A
    polynomial is the set of exponents whose coefficient is one; a word stands for
    the polynomial whose coefficients are its bits. */
module HighwayReduction {
  import opened HighwayLanes

  // Bits of a word, by shifting one position at a time.

  function Half(x: bv64): bv64 { x >> 1 }

  function Double(x: bv64): bv64 { x << 1 }

  function LowBit(x: bv64): bool { x & 1 == 1 }

  function Down(x: bv64, n: nat): bv64
    decreases n
  {
    if n == 0 then x else Down(Half(x), n - 1)
  }

  function Up(x: bv64, n: nat): bv64
    decreases n
  {
    if n == 0 then x else Up(Double(x), n - 1)
  }

  function Bit(x: bv64, i: nat): bool { LowBit(Down(x, i)) }

  lemma {:induction false} DownJoin(x: bv64, a: nat, b: nat)
    ensures Down(Down(x, a), b) == Down(x, a + b)
    decreases a
  {
    hide Half;
    if a > 0 { DownJoin(Half(x), a - 1, b); }
  }

  lemma {:induction false} UpJoin(x: bv64, a: nat, b: nat)
    ensures Up(Up(x, a), b) == Up(x, a + b)
    decreases a
  {
    hide Double;
    if a > 0 { UpJoin(Double(x), a - 1, b); }
  }

  lemma {:induction false} ZeroStays(n: nat)
    ensures Up(0, n) == 0 && Down(0, n) == 0
  {
    assert Double(0) == 0 && Half(0) == 0;
    hide Double, Half;
    if n > 0 { ZeroStays(n - 1); }
  }

  // Shifts by powers of two, and the long shifts composed of them.

  function Shr2(x: bv64): bv64 { x >> 2 }
  function Shr4(x: bv64): bv64 { x >> 4 }
  function Shr8(x: bv64): bv64 { x >> 8 }
  function Shr16(x: bv64): bv64 { x >> 16 }
  function Shr32(x: bv64): bv64 { x >> 32 }
  function Shr62(x: bv64): bv64 { x >> 62 }
  function Shr63(x: bv64): bv64 { x >> 63 }
  function Shl2(x: bv64): bv64 { x << 2 }
  function Shl4(x: bv64): bv64 { x << 4 }
  function Shl8(x: bv64): bv64 { x << 8 }
  function Shl16(x: bv64): bv64 { x << 16 }
  function Shl32(x: bv64): bv64 { x << 32 }
  function Shl63(x: bv64): bv64 { x << 63 }

  lemma Shr2Is(x: bv64)
    ensures Half(Half(x)) == Shr2(x)
  {
  }

  lemma Shr4Is(x: bv64)
    ensures Shr2(Shr2(x)) == Shr4(x)
  {
  }

  lemma Shr8Is(x: bv64)
    ensures Shr4(Shr4(x)) == Shr8(x)
  {
  }

  lemma Shr16Is(x: bv64)
    ensures Shr8(Shr8(x)) == Shr16(x)
  {
  }

  lemma Shr32Is(x: bv64)
    ensures Shr16(Shr16(x)) == Shr32(x)
  {
  }

  lemma Shr63Is(x: bv64)
    ensures Half(Shr62(x)) == Shr63(x)
  {
  }

  lemma ShiftRight62(x: bv64)
    ensures Shr2(Shr4(Shr8(Shr16(Shr32(x))))) == Shr62(x)
  {
  }

  lemma Shl2Is(x: bv64)
    ensures Double(Double(x)) == Shl2(x)
  {
  }

  lemma Shl4Is(x: bv64)
    ensures Shl2(Shl2(x)) == Shl4(x)
  {
  }

  lemma Shl8Is(x: bv64)
    ensures Shl4(Shl4(x)) == Shl8(x)
  {
  }

  lemma Shl16Is(x: bv64)
    ensures Shl8(Shl8(x)) == Shl16(x)
  {
  }

  lemma Shl32Is(x: bv64)
    ensures Shl16(Shl16(x)) == Shl32(x)
  {
  }

  lemma ShiftLeft63(x: bv64)
    ensures Double(Shl2(Shl4(Shl8(Shl16(Shl32(x)))))) == Shl63(x)
  {
  }

  lemma Down4(x: bv64)
    ensures Down(x, 2) == Shr2(x) && Down(x, 4) == Shr4(x)
  {
    hide Half, Shr2, Shr4;
    Shr2Is(x);
    Shr4Is(x);
    Shr2Is(Shr2(x));
    DownJoin(x, 2, 2);
    assert Down(x, 2) == Half(Half(x)) && Down(Shr2(x), 2) == Half(Half(Shr2(x)));
  }

  lemma Down16(x: bv64)
    ensures Down(x, 8) == Shr8(x) && Down(x, 16) == Shr16(x)
  {
    hide *;
    Shr8Is(x);
    Shr16Is(x);
    DownJoin(x, 4, 4);
    Down4(x);
    Down4(Shr4(x));
    DownJoin(x, 8, 8);
    DownJoin(Shr8(x), 4, 4);
    Down4(Shr8(x));
    Down4(Shr4(Shr8(x)));
    Shr8Is(Shr8(x));
  }

  lemma Down32(x: bv64)
    ensures Down(x, 32) == Shr32(x)
  {
    hide *;
    Shr32Is(x);
    DownJoin(x, 16, 16);
    Down16(x);
    Down16(Shr16(x));
  }

  /** Shifting right by 62 and by 63 places, one place at a time. */
  lemma DownMany(x: bv64)
    ensures Down(x, 62) == Shr62(x) && Down(x, 63) == Shr63(x)
  {
    hide *;
    var a := Shr32(x);
    var b := Shr16(a);
    var c := Shr8(b);
    var d := Shr4(c);
    Down32(x);
    DownJoin(x, 32, 16);
    Down16(a);
    DownJoin(x, 48, 8);
    Down16(b);
    DownJoin(x, 56, 4);
    Down4(c);
    DownJoin(x, 60, 2);
    Down4(d);
    ShiftRight62(x);
    DownJoin(x, 62, 1);
    DownOne(Shr62(x));
    Shr63Is(x);
  }

  lemma DownOne(x: bv64)
    ensures Down(x, 1) == Half(x) && Up(x, 1) == Double(x)
  {
  }

  lemma Up4(x: bv64)
    ensures Up(x, 2) == Shl2(x) && Up(x, 4) == Shl4(x)
  {
    hide Double, Shl2, Shl4;
    Shl2Is(x);
    Shl4Is(x);
    Shl2Is(Shl2(x));
    UpJoin(x, 2, 2);
    assert Up(x, 2) == Double(Double(x)) && Up(Shl2(x), 2) == Double(Double(Shl2(x)));
  }

  lemma Up16(x: bv64)
    ensures Up(x, 8) == Shl8(x) && Up(x, 16) == Shl16(x)
  {
    hide *;
    Shl8Is(x);
    Shl16Is(x);
    UpJoin(x, 4, 4);
    Up4(x);
    Up4(Shl4(x));
    UpJoin(x, 8, 8);
    UpJoin(Shl8(x), 4, 4);
    Up4(Shl8(x));
    Up4(Shl4(Shl8(x)));
    Shl8Is(Shl8(x));
  }

  lemma Up32(x: bv64)
    ensures Up(x, 32) == Shl32(x)
  {
    hide *;
    Shl32Is(x);
    UpJoin(x, 16, 16);
    Up16(x);
    Up16(Shl16(x));
  }

  lemma UpMany(x: bv64)
    ensures Up(x, 63) == Shl63(x)
  {
    hide *;
    var a := Shl32(x);
    var b := Shl16(a);
    var c := Shl8(b);
    var d := Shl4(c);
    Up32(x);
    UpJoin(x, 32, 16);
    Up16(a);
    UpJoin(x, 48, 8);
    Up16(b);
    UpJoin(x, 56, 4);
    Up4(c);
    UpJoin(x, 60, 2);
    Up4(d);
    UpJoin(x, 62, 1);
    DownOne(Shl2(d));
    ShiftLeft63(x);
  }

  /** A word has no bit from 64 on. */
  lemma NoHighBit(x: bv64, i: nat)
    requires i >= 64
    ensures !Bit(x, i)
  {
    DownMany(x);
    assert Half(Shr63(x)) == 0;
    assert !LowBit(0);
    hide Half, LowBit, Shr63;
    DownJoin(x, 63, 1);
    DownOne(Shr63(x));
    DownJoin(x, 64, i - 64);
    ZeroStays(i - 64);
  }

  lemma XorStep(x: bv64, y: bv64)
    ensures Half(Xor64(x, y)) == Xor64(Half(x), Half(y))
    ensures LowBit(Xor64(x, y)) == (LowBit(x) != LowBit(y))
  {
  }

  lemma OrHalf(x: bv64, y: bv64)
    ensures Half(Or64(x, y)) == Or64(Half(x), Half(y))
  {
    assert (x | y) >> 1 == (x >> 1) | (y >> 1);
  }

  lemma OrLow(x: bv64, y: bv64)
    ensures LowBit(Or64(x, y)) == (LowBit(x) || LowBit(y))
  {
    assert (x | y) & 1 == (x & 1) | (y & 1);
  }

  lemma {:induction false} BitOfXor(x: bv64, y: bv64, i: nat)
    ensures Bit(Xor64(x, y), i) == (Bit(x, i) != Bit(y, i))
    decreases i
  {
    hide Half, LowBit, Xor64;
    XorStep(x, y);
    if i > 0 { BitOfXor(Half(x), Half(y), i - 1); }
  }

  lemma {:induction false} BitOfOr(x: bv64, y: bv64, i: nat)
    ensures Bit(Or64(x, y), i) == (Bit(x, i) || Bit(y, i))
    decreases i
  {
    hide Half, LowBit, Or64;
    OrHalf(x, y);
    OrLow(x, y);
    if i > 0 { BitOfOr(Half(x), Half(y), i - 1); }
  }

  lemma ShiftedOut(d: bv64)
    ensures Shl63(d) == 0 ==> !LowBit(d)
  {
  }

  /** The lowest bit survives up to 63 shifts to the left. */
  lemma LowBitSurvives(d: bv64, m: nat)
    requires m <= 63 && Up(d, m) == 0
    ensures !LowBit(d)
  {
    hide *;
    UpJoin(d, m, 63 - m);
    ZeroStays(63 - m);
    UpMany(d);
    assert Shl63(d) == 0;
    ShiftedOut(d);
  }

  lemma EvenHalf(d: bv64)
    requires !LowBit(d)
    ensures Double(Half(d)) == d
  {
  }

  /** Words whose difference has its n lowest bits clear agree on those bits. */
  lemma {:induction false} AgreeBelow(x: bv64, y: bv64, n: nat, i: nat)
    requires i < n <= 64 && Up(Xor64(x, y), 64 - n) == 0
    ensures Bit(x, i) == Bit(y, i)
    decreases i
  {
    hide Half, LowBit, Xor64, Double;
    var d := Xor64(x, y);
    LowBitSurvives(d, 64 - n);
    XorStep(x, y);
    if i > 0 {
      EvenHalf(d);
      AgreeBelow(Half(x), Half(y), n - 1, i - 1);
    }
  }

  lemma ShiftCycle(x: bv64)
    ensures !LowBit(Double(x)) && Double(Xor64(Half(Double(x)), x)) == 0
  {
  }

  /** Shifting left by one position. */
  lemma BitOfShift1(x: bv64, i: nat)
    requires i < 64
    ensures Bit(Double(x), i) == (i >= 1 && Bit(x, i - 1))
  {
    ShiftCycle(x);
    hide Half, LowBit, Xor64, Double;
    if i > 0 {
      var y := Half(Double(x));
      assert Up(Xor64(y, x), 1) == Double(Xor64(y, x));
      AgreeBelow(y, x, 63, i - 1);
    }
  }

  lemma BitOfShift2(x: bv64, i: nat)
    requires i < 64
    ensures Bit(Shl2(x), i) == (i >= 2 && Bit(x, i - 2))
  {
    hide *;
    Shl2Is(x);
    BitOfShift1(Double(x), i);
    if i >= 1 { BitOfShift1(x, i - 1); }
  }

  /** The bits that leave a word at the top. */
  lemma BitOfTop(x: bv64, i: nat)
    ensures Bit(Shr63(x), i) == (i == 0 && Bit(x, 63))
    ensures Bit(Shr62(x), i) == (i <= 1 && Bit(x, 62 + i))
  {
    hide LowBit, Half, Shr62, Shr63;
    DownMany(x);
    DownJoin(x, 63, i);
    DownJoin(x, 62, i);
    if i >= 1 { NoHighBit(x, 63 + i); }
    if i >= 2 { NoHighBit(x, 62 + i); }
  }

  function Cleared(x: bv64): bv64 { x & 0x3FFF_FFFF_FFFF_FFFF }

  lemma ClearedFacts(x: bv64)
    ensures Double(Double(Xor64(Cleared(x), x))) == 0
    ensures !LowBit(Shr62(Cleared(x))) && !LowBit(Shr63(Cleared(x)))
  {
  }

  /** Clearing the two top bits. */
  lemma BitOfCleared(x: bv64, i: nat)
    requires i < 64
    ensures Bit(Cleared(x), i) == (i < 62 && Bit(x, i))
  {
    ClearedFacts(x);
    hide Half, LowBit, Xor64, Double, Cleared, Shr62, Shr63;
    var y := Cleared(x);
    if i < 62 {
      assert Up(Xor64(y, x), 2) == Double(Double(Xor64(y, x)));
      AgreeBelow(y, x, 62, i);
    } else {
      DownMany(y);
    }
  }

  // Polynomials over GF(2).

  type Poly = set<nat>

  /** Sum: the exponents in exactly one of the two. */
  ghost function Plus(a: Poly, b: Poly): Poly { (a - b) + (b - a) }

  /** Multiplication by x^k. */
  ghost function Shift(a: Poly, k: nat): Poly { set i | i in a :: i + k }

  ghost function Pick(a: Poly): (i: nat)
    requires a != {}
    ensures i in a
  {
    var i :| i in a;
    i
  }

  /** The product, one term of the first factor at a time. */
  ghost function Product(a: Poly, b: Poly): Poly
    decreases |a|
  {
    if a == {} then {} else Plus(Shift(b, Pick(a)), Product(a - {Pick(a)}, b))
  }

  /** The modulus x^128 + x^2 + x. */
  const MODULUS: Poly := {128, 2, 1}

  /** a and b leave the same remainder modulo p. */
  ghost predicate Congruent(a: Poly, b: Poly, p: Poly) {
    exists q: Poly :: Plus(a, b) == Product(q, p)
  }

  ghost predicate DegreeBelow(a: Poly, n: nat) { forall i :: i in a ==> i < n }

  /** The polynomial of a number held in 64-bit words, least significant first. */
  ghost function PolyOf(w: seq<bv64>): Poly {
    set i: nat | i < 64 * |w| && Bit(w[i / 64], i % 64)
  }

  /** A product with the modulus is three shifts. */
  lemma {:induction false} TimesModulus(q: Poly)
    ensures Product(q, MODULUS) == Plus(Shift(q, 128), Plus(Shift(q, 2), Shift(q, 1)))
    decreases |q|
  {
    hide Shift;
    if q == {} {
      ShiftEmpty(128);
      ShiftEmpty(2);
      ShiftEmpty(1);
    } else {
      var i := Pick(q);
      TimesModulus(q - {i});
      ShiftOfModulus(i);
      ShiftInsert(q, i, 128);
      ShiftInsert(q, i, 2);
      ShiftInsert(q, i, 1);
    }
  }

  /** The modulus has no constant term: it is x * (x^127 + x + 1), not irreducible. */
  lemma ModulusFactors()
    ensures Product({1}, {127, 1, 0}) == MODULUS
  {
    var q: Poly := {127, 1, 0};
    assert Pick({1}) == 1 && {1} - {1} == {};
    assert 127 in q && 1 in q && 0 in q;
    assert Shift(q, 1) == {128, 2, 1};
  }

  lemma ShiftEmpty(k: nat)
    ensures Shift({}, k) == {}
  {
  }

  lemma ShiftOfModulus(i: nat)
    ensures Shift(MODULUS, i) == {i + 128, i + 2, i + 1}
  {
    assert 128 in MODULUS && 2 in MODULUS && 1 in MODULUS;
  }

  lemma ShiftInsert(q: Poly, i: nat, k: nat)
    requires i in q
    ensures Shift(q, k) == Shift(q - {i}, k) + {i + k} && i + k !in Shift(q - {i}, k)
  {
    var r := q - {i};
    forall j | j in Shift(q, k) ensures j in Shift(r, k) + {i + k} {
      var h :| h in q && j == h + k;
      if h != i { assert h in r; }
    }
  }

  lemma {:induction false} PlusOfPolys(a1: bv64, a0: bv64, b1: bv64, b0: bv64)
    ensures PolyOf([Xor64(a1, b1), Xor64(a0, b0)]) == Plus(PolyOf([a1, a0]), PolyOf([b1, b0]))
  {
    hide Bit, Xor64;
    forall i: nat | i < 64
      ensures Bit(Xor64(a1, b1), i) == (Bit(a1, i) != Bit(b1, i))
      ensures Bit(Xor64(a0, b0), i) == (Bit(a0, i) != Bit(b0, i))
    {
      BitOfXor(a1, b1, i);
      BitOfXor(a0, b0, i);
    }
  }

  lemma InTwoWords(x0: bv64, x1: bv64, i: nat)
    ensures i in PolyOf([x0, x1]) <==> i < 128 && if i < 64 then Bit(x0, i) else Bit(x1, i - 64)
  {
    hide Bit;
    if i >= 64 { assert i < 128 ==> i / 64 == 1 && i % 64 == i - 64; }
  }

  /** Bit i of two words (y1, y0) is bit i - k of (x1, x0). */
  predicate Moved(x0: bv64, x1: bv64, y0: bv64, y1: bv64, k: nat, i: nat)
    requires k < 64
  {
    && Bit(y0, i) == (i >= k && Bit(x0, i - k))
    && Bit(y1, i) == (if i >= k then Bit(x1, i - k) else Bit(x0, 64 - k + i))
    && (i >= 64 - k ==> !Bit(x1, i))
  }

  ghost predicate AllMoved(x0: bv64, x1: bv64, y0: bv64, y1: bv64, k: nat)
    requires k < 64
  {
    forall i: nat :: i < 64 ==> Moved(x0, x1, y0, y1, k, i)
  }

  lemma OnceIs(a3: bv64, a2: bv64)
    ensures High1(a3, a2) == Or64(Double(Cleared(a3)), Shr63(a2)) && Low1(a2) == Double(a2)
  {
  }

  lemma TwiceIs(a3: bv64, a2: bv64)
    ensures High2(a3, a2) == Or64(Shl2(Cleared(a3)), Shr62(a2)) && Low2(a2) == Shl2(a2)
  {
  }

  lemma MovedOnce(a3: bv64, a2: bv64, i: nat)
    requires i < 64
    ensures Moved(a2, Cleared(a3), Low1(a2), High1(a3, a2), 1, i)
  {
    hide Bit, Or64, Double, Shr63, Cleared, High1, Low1;
    OnceIs(a3, a2);
    BitOfShift1(a2, i);
    BitOfShift1(Cleared(a3), i);
    BitOfTop(a2, i);
    BitOfOr(Double(Cleared(a3)), Shr63(a2), i);
    BitOfCleared(a3, i);
  }

  lemma MovedTwice(a3: bv64, a2: bv64, i: nat)
    requires i < 64
    ensures Moved(a2, Cleared(a3), Low2(a2), High2(a3, a2), 2, i)
  {
    hide Bit, Or64, Shl2, Shr62, Cleared, High2, Low2;
    TwiceIs(a3, a2);
    BitOfShift2(a2, i);
    BitOfShift2(Cleared(a3), i);
    BitOfTop(a2, i);
    BitOfOr(Shl2(Cleared(a3)), Shr62(a2), i);
    BitOfCleared(a3, i);
  }

  lemma MovedExponent(x0: bv64, x1: bv64, y0: bv64, y1: bv64, k: nat, i: nat)
    requires k < 64
    requires AllMoved(x0, x1, y0, y1, k)
    ensures i in PolyOf([y0, y1]) <==> i >= k && i - k in PolyOf([x0, x1])
  {
    InTwoWords(y0, y1, i);
    if i >= k { InTwoWords(x0, x1, i - k); }
    hide PolyOf, Bit;
    if i < 128 {
      assert Moved(x0, x1, y0, y1, k, if i < 64 then i else i - 64);
    } else {
      assert i - k >= 64 && (i - k < 128 ==> Moved(x0, x1, y0, y1, k, i - k - 64));
    }
  }

  /** Two words whose bits moved up by k places, none leaving at the top, stand for
      the polynomial multiplied by x^k. */
  lemma ShiftedWords(x0: bv64, x1: bv64, y0: bv64, y1: bv64, k: nat)
    requires k < 64
    requires AllMoved(x0, x1, y0, y1, k)
    ensures PolyOf([y0, y1]) == Shift(PolyOf([x0, x1]), k)
  {
    hide *;
    var x, y := PolyOf([x0, x1]), PolyOf([y0, y1]);
    forall i | i in y ensures i in Shift(x, k) {
      MovedExponent(x0, x1, y0, y1, k, i);
      InShift(x, k, i);
    }
    forall i | i in Shift(x, k) ensures i in y {
      MovedExponent(x0, x1, y0, y1, k, i);
      InShift(x, k, i);
    }
  }

  lemma InShift(x: Poly, k: nat, i: nat)
    ensures i in Shift(x, k) <==> i >= k && i - k in x
  {
    if i >= k { assert i == (i - k) + k; }
  }

  /** One position to the left, and two, across the two words of the upper half. */
  lemma ShiftedUpper(a3: bv64, a2: bv64)
    ensures PolyOf([Low1(a2), High1(a3, a2)]) == Shift(PolyOf([a2, Cleared(a3)]), 1)
    ensures PolyOf([Low2(a2), High2(a3, a2)]) == Shift(PolyOf([a2, Cleared(a3)]), 2)
  {
    hide Low1, Low2, High1, High2, Cleared, Moved, PolyOf, Shift;
    forall i: nat | i < 64
      ensures Moved(a2, Cleared(a3), Low1(a2), High1(a3, a2), 1, i)
      ensures Moved(a2, Cleared(a3), Low2(a2), High2(a3, a2), 2, i)
    {
      MovedOnce(a3, a2, i);
      MovedTwice(a3, a2, i);
    }
    ShiftedWords(a2, Cleared(a3), Low1(a2), High1(a3, a2), 1);
    ShiftedWords(a2, Cleared(a3), Low2(a2), High2(a3, a2), 2);
  }

  /** Reduction as sums and shifts of polynomials. */
  lemma ReduceIsSum(a3: bv64, a2: bv64, a1: bv64, a0: bv64)
    ensures var (m1, m0) := Reduce(a3, a2, a1, a0); var h := PolyOf([a2, Cleared(a3)]);
            PolyOf([m0, m1]) == Plus(Plus(PolyOf([a0, a1]), Shift(h, 1)), Shift(h, 2))
  {
    hide PolyOf, Plus, Shift, High1, High2, Low1, Low2, Xor64, Cleared;
    ShiftedUpper(a3, a2);
    PlusOfPolys(a0, a1, Low1(a2), High1(a3, a2));
    PlusOfPolys(Xor64(a0, Low1(a2)), Xor64(a1, High1(a3, a2)), Low2(a2), High2(a3, a2));
  }

  /** Four words as two polynomials, the upper one multiplied by x^128. */
  lemma SplitPoly(a3: bv64, a2: bv64, a1: bv64, a0: bv64)
    ensures PolyOf([a0, a1, a2, a3]) == Plus(PolyOf([a0, a1]), Shift(PolyOf([a2, a3]), 128))
  {
    hide Bit;
    var w, lo, hi := PolyOf([a0, a1, a2, a3]), PolyOf([a0, a1]), PolyOf([a2, a3]);
    forall i: nat ensures i in w <==> i in lo || (i >= 128 && i - 128 in hi) {
    }
    forall i: nat ensures i in Shift(hi, 128) <==> i >= 128 && i - 128 in hi {
      InShift(hi, 128, i);
    }
  }

  ghost function Top(q: Poly): (m: nat)
    requires q != {}
    ensures m in q && forall i :: i in q ==> i <= m
    decreases |q|
  {
    var i := Pick(q);
    assert forall j :: j in q ==> j == i || j in q - {i};
    if q - {i} == {} then i else
      var t := Top(q - {i});
      if t < i then i else t
  }

  /** A multiple of the modulus other than zero has a degree of at least 128. */
  lemma MultipleIsHigh(q: Poly)
    requires q != {}
    ensures Top(q) + 128 in Product(q, MODULUS)
  {
    TimesModulus(q);
    var m := Top(q);
    assert m + 128 in Shift(q, 128);
    assert m + 128 !in Shift(q, 2) && m + 128 !in Shift(q, 1);
  }

  lemma ShiftOfPlus(a: Poly, b: Poly, k: nat)
    ensures Shift(Plus(a, b), k) == Plus(Shift(a, k), Shift(b, k))
  {
    forall i ensures i in Shift(Plus(a, b), k) <==> i in Plus(Shift(a, k), Shift(b, k)) {
      InShift(a, k, i);
      InShift(b, k, i);
      InShift(Plus(a, b), k, i);
    }
  }

  lemma MultiplesAdd(q: Poly, r: Poly)
    ensures Product(Plus(q, r), MODULUS) == Plus(Product(q, MODULUS), Product(r, MODULUS))
  {
    TimesModulus(q);
    TimesModulus(r);
    TimesModulus(Plus(q, r));
    ShiftOfPlus(q, r, 128);
    ShiftOfPlus(q, r, 2);
    ShiftOfPlus(q, r, 1);
    hide Shift;
  }

  /** Remainders of degree below 128 are unique. */
  lemma RemainderUnique(a: Poly, r: Poly, s: Poly)
    requires DegreeBelow(r, 128) && DegreeBelow(s, 128)
    requires Congruent(r, a, MODULUS) && Congruent(s, a, MODULUS)
    ensures r == s
  {
    var q :| Plus(r, a) == Product(q, MODULUS);
    var p :| Plus(s, a) == Product(p, MODULUS);
    MultiplesAdd(q, p);
    assert Plus(Plus(r, a), Plus(s, a)) == Plus(r, s);
    if Plus(q, p) != {} { MultipleIsHigh(Plus(q, p)); }
    assert q == p by {
      forall i ensures i in q <==> i in p {
        assert i !in Plus(q, p);
      }
    }
    forall i ensures i in r <==> i in s {
      assert i in Plus(r, a) <==> i in Plus(s, a);
    }
  }

  /** `ModularReduction` returns the one polynomial of degree below 128 that is
      congruent, modulo x^128 + x^2 + x over GF(2), to the 256-bit input with its top
      two bits cleared. */
  lemma ReductionIsRemainder(a3: bv64, a2: bv64, a1: bv64, a0: bv64)
    ensures var (m1, m0) := Reduce(a3, a2, a1, a0); var input := PolyOf([a0, a1, a2, Cleared(a3)]);
            && DegreeBelow(PolyOf([m0, m1]), 128)
            && Congruent(PolyOf([m0, m1]), input, MODULUS)
            && forall r: Poly :: DegreeBelow(r, 128) && Congruent(r, input, MODULUS) ==> r == PolyOf([m0, m1])
  {
    var (m1, m0) := Reduce(a3, a2, a1, a0);
    var h, low := PolyOf([a2, Cleared(a3)]), PolyOf([a0, a1]);
    var input, rest := PolyOf([a0, a1, a2, Cleared(a3)]), PolyOf([m0, m1]);
    assert DegreeBelow(rest, 128);
    ReduceIsSum(a3, a2, a1, a0);
    SplitPoly(Cleared(a3), a2, a1, a0);
    TimesModulus(h);
    hide PolyOf, Shift, Reduce, Cleared;
    assert Plus(rest, input) == Product(h, MODULUS);
    forall r: Poly | DegreeBelow(r, 128) && Congruent(r, input, MODULUS) ensures r == rest {
      RemainderUnique(input, r, rest);
    }
  }
}
