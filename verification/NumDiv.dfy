/** Shift-subtract division and division by a half word. */
module NumDiv {
  import opened Powers
  import opened Words
  import opened Bits
  import opened NumCore

  /** `int`: the bit counts of `div_mod` and `sqrt` are kept in one. */
  type int32 = x: int | -0x8000_0000 <= x < 0x8000_0000

  /** d shifted left by n bits; proofs about the loop keep the product folded. */
  function Scaled(d: nat, n: nat): (s: nat)
  {
    d * Pow2(n)
  }

  lemma ScaledStep(d: nat, n: nat)
    ensures Scaled(d, n + 1) == 2 * Scaled(d, n)
    ensures Scaled(d, n + 1) / Pow2(1) == Scaled(d, n)
    ensures Scaled(d, 0) == d && (d == 0 ==> Scaled(d, n) == 0)
  {
    assert Pow2(1) == 2;
  }

  /** The highest shift of d that can still be taken from v. */
  lemma TopShift(v: nat, d: nat, r: nat, s: nat)
    requires IsBitLength(v, r) && IsBitLength(d, s) && v >= d
    ensures r >= s
    ensures d > 0 ==> v < Scaled(d, r - s + 1)
  {
    if r < s { Pow2Mono(r, s - 1); }
    if d > 0 {
      var n := r - s;
      Pow2Add(s - 1, n + 1);
      MulMono(Pow2(n + 1), Pow2(s - 1), d);
    }
  }

  /** Taking d * 2^n from the remainder and setting quotient bit n. */
  lemma QuotientBit(q: nat, d: nat, n: nat)
    requires q % Pow2(n + 1) == 0
    ensures Bit(q, n) == 0 && q % Pow2(n) == 0 && (q + Pow2(n)) % Pow2(n) == 0
    ensures Times(q + Pow2(n), d) == Times(q, d) + Scaled(d, n)
  {
    BitStep(q, n);
    BitOfMultiple(Bit(q, n), Pow2(n), q % Pow2(n));
    DivModAddMul(q, 1, Pow2(n));
    MulComm(Pow2(n), d);
    SumTimes(q, Pow2(n), d);
  }

  lemma SumTimes(x: int, y: int, d: int)
    ensures Times(x + y, d) == Times(x, d) + y * d
  {
  }

  lemma BitOfMultiple(b: nat, p: nat, m: nat)
    requires b * p + m == 0 && p > 0
    ensures b == 0 && m == 0
  {
    if b > 0 { MulMono(p, 1, b); }
  }

  lemma SignedDivision(n: nat, d: nat, q: nat, r: nat, nNeg: bool, dNeg: bool)
    requires n == Times(q, d) + r
    ensures Signed(nNeg, n) == Times(Signed(nNeg != dNeg, q), Signed(dNeg, d)) + Signed(nNeg, r)
  {
  }

  /** What the loop of `div_mod` keeps: q and r are the quotient so far and what is
      left of n0 once bits above n are decided. */
  ghost predicate DivState(q: nat, r: nat, den: nat, n: int, n0: nat, d: nat)
    requires n >= -1
  {
    && (n >= 0 ==> den == Scaled(d, n))
    && Times(q, d) + r == n0
    && (d > 0 ==> r < Scaled(d, n + 1))
    && (d == 0 ==> r == n0)
    && q % Pow2(n + 1) == 0
  }

  lemma DivStateStart(n0: nat, d: nat, nl: nat, dl: nat)
    requires IsBitLength(n0, nl) && IsBitLength(d, dl) && n0 >= d
    ensures nl >= dl && DivState(0, n0, d * Pow2(nl - dl), nl - dl, n0, d)
  {
    TopShift(n0, d, nl, dl);
    DivModUnique(0, Pow2(nl - dl + 1), 0, 0);
    assert Times(0, d) == 0;
  }

  /** One round: the trial subtraction decides bit n of the quotient. */
  lemma DivStateStep(q: nat, r: nat, den: nat, n: nat, n0: nat, d: nat)
    requires DivState(q, r, den, n, n0, d)
    ensures Bit(q, n) == 0
    ensures r >= den ==> DivState(q + Pow2(n), r - den, den / Pow2(1), n - 1, n0, d)
    ensures r < den ==> DivState(q, r, den / Pow2(1), n - 1, n0, d)
  {
    hide Scaled, Times, Bit;
    ScaledStep(d, n);
    if n > 0 { ScaledStep(d, n - 1); }
    QuotientBit(q, d, n);
  }

  lemma DivStateEnd(q: nat, r: nat, den: nat, n0: nat, d: nat)
    requires DivState(q, r, den, -1, n0, d)
    ensures Times(q, d) + r == n0 && (if d > 0 then r < d else r == n0)
  {
    ScaledStep(d, 0);
  }

  /** The body of the loop of `div_mod`. */
  method DivRound(quotient: Num, remainder: Num, den: Num, n: nat, ghost n0: nat, ghost d: nat)
    requires quotient.Valid() && remainder.Valid() && den.Valid()
    requires quotient != remainder && quotient != den && remainder != den
    requires DivState(quotient.Mag(), remainder.Mag(), den.Mag(), n, n0, d)
    modifies quotient`words, remainder`words, den`words
    ensures quotient.Valid() && remainder.Valid() && den.Valid()
    ensures DivState(quotient.Mag(), remainder.Mag(), den.Mag(), n - 1, n0, d)
  {
    hide Val, Pow2, Bit, DivState;
    DivStateStep(quotient.Mag(), remainder.Mag(), den.Mag(), n, n0, d);
    var order := Num.CmpAbs(remainder, den);
    if order >= 0 {
      Num.SubUnsignedOverwrite(remainder, den);
      quotient.SetBit(n);
    }
    den.ShiftRight(1);
  }

  /** `div_mod`. The denominator is passed by value; the remainder may be the
      numerator object itself, the quotient may not. A zero denominator is not
      refused: the loop then leaves the numerator as remainder. */
  method DivMod(numerator: Num, denominator: Num, quotient: Num, remainder: Num)
    requires numerator.Valid() && denominator.Valid()
    requires quotient != numerator && quotient != remainder
    requires BitLengthOf(numerator.Mag()) - BitLengthOf(denominator.Mag()) < 0x8000_0000
    modifies quotient, remainder
    ensures quotient.Valid() && remainder.Valid()
    ensures old(numerator.Mag()) == Times(quotient.Mag(), old(denominator.Mag())) + remainder.Mag()
    ensures old(numerator.Value()) == Times(quotient.Value(), old(denominator.Value())) + remainder.Value()
    ensures remainder.neg == old(numerator.neg)
    ensures if old(denominator.Mag()) == 0 then remainder.Mag() == old(numerator.Mag())
            else remainder.Mag() < old(denominator.Mag())
  {
    hide Val, Pow2, Times, BitLengthOf, IsBitLength, Bit, DivState;
    var den := new Num.Copy(denominator);
    ghost var n0, d := numerator.Mag(), denominator.Mag();
    ghost var nNeg, dNeg := numerator.neg, denominator.neg;
    quotient.words, quotient.neg := [], false;
    remainder.words, remainder.neg := numerator.words, numerator.neg;
    ValSmall(0);
    var order := Num.CmpAbs(remainder, den);
    if order >= 0 {
      var nl := numerator.BitLength();
      var dl := den.BitLength();
      BitLengthUnique(n0, nl, BitLengthOf(n0));
      BitLengthUnique(d, dl, BitLengthOf(d));
      DivStateStart(n0, d, nl, dl);
      var n: int32 := nl - dl;
      den.ShiftLeft(n);
      while n >= 0
        invariant quotient.Valid() && remainder.Valid() && den.Valid() && n >= -1
        invariant den.neg == dNeg && numerator.neg == nNeg
        invariant DivState(quotient.Mag(), remainder.Mag(), den.Mag(), n, n0, d)
        decreases n
      {
        DivRound(quotient, remainder, den, n, n0, d);
        n := n - 1;
      }
      DivStateEnd(quotient.Mag(), remainder.Mag(), den.Mag(), n0, d);
    } else {
      assert Times(0, d) == 0 by { ZeroTimes(d); }
    }
    SignedDivision(n0, d, quotient.Mag(), remainder.Mag(), nNeg, dNeg);
    quotient.neg := numerator.neg != den.neg;
    remainder.neg := numerator.neg;
  }

  lemma ZeroTimes(d: nat)
    ensures Times(0, d) == 0
  {
  }

  /** `mod`: the remainder of the magnitudes, with the numerator's sign. */
  method Mod(numerator: Num, denominator: Num) returns (remainder: Num)
    requires numerator.Valid() && denominator.Valid() && denominator.Mag() > 0
    requires BitLengthOf(numerator.Mag()) - BitLengthOf(denominator.Mag()) < 0x8000_0000
    ensures fresh(remainder) && remainder.Valid()
    ensures remainder.neg == numerator.neg && remainder.Mag() == numerator.Mag() % denominator.Mag()
  {
    hide Val, BitLengthOf, Times;
    var quotient := new Num();
    remainder := new Num();
    DivMod(numerator, denominator, quotient, remainder);
    TimesMod(numerator.Mag(), denominator.Mag(), quotient.Mag(), remainder.Mag());
  }

  lemma TimesMod(x: nat, d: nat, q: nat, r: nat)
    requires d > 0 && r < d && x == Times(q, d) + r
    ensures x % d == r && x / d == q
  {
    DivModUnique(x, d, q, r);
  }
}
