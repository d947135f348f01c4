/** The high half of a 64 x 64 bit product, from 32-bit halves. */
module WordMul {
  import opened Powers
  import opened Words

  function LowHalf(w: word): (l: word)
    ensures l == w % HALF
  {
    BaseIsPow2();
    AndMask(w, 32);
    And(w, HALF - 1)
  }

  function HighHalf(w: word): (h: word)
    ensures h == w / HALF && h < HALF
  {
    BaseIsPow2();
    Shr64(w, 32)
  }

  /** `word_mul_hi`, every operation wrapping at 64 bits. */
  function WordMulHi(a: word, b: word): word {
    var aHi, aLo, bHi, bLo := HighHalf(a), LowHalf(a), HighHalf(b), LowHalf(b);
    var t := Add64(HighHalf(Mul64(aLo, bLo)), Mul64(aHi, bLo));
    var u := Add64(HighHalf(t), HighHalf(Add64(Mul64(aLo, bHi), LowHalf(t))));
    Add64(u, Mul64(aHi, bHi))
  }

  lemma HalfProduct(x: word, y: word)
    requires x < HALF && y < HALF
    ensures Mul64(x, y) == x * y <= (HALF - 1) * (HALF - 1)
  {
    ProductBound(x, y, HALF - 1);
    assert (HALF - 1) * (HALF - 1) < BASE;
    DivModUnique(x * y, BASE, 0, x * y);
  }

  lemma ProductBound(x: nat, y: nat, m: nat)
    requires x <= m && y <= m
    ensures x * y <= m * m
  {
    MulMono(x, y, m);
    MulMono(m, x, m);
  }

  lemma AddExact(x: word, y: word)
    requires x + y < BASE
    ensures Add64(x, y) == x + y
  {
  }

  /** No intermediate sum overflows, and the result is the exact high word. */
  lemma WordMulHiExact(a: word, b: word)
    ensures WordMulHi(a, b) == (a * b) / BASE
    ensures a * b == Mul64(a, b) + BASE * WordMulHi(a, b)
  {
    var aHi, aLo, bHi, bLo := HighHalf(a), LowHalf(a), HighHalf(b), LowHalf(b);
    HalfProduct(aLo, bLo);
    HalfProduct(aHi, bLo);
    HalfProduct(aLo, bHi);
    HalfProduct(aHi, bHi);
    var ll, hl, lh, hh := Mul64(aLo, bLo), Mul64(aHi, bLo), Mul64(aLo, bHi), Mul64(aHi, bHi);
    MulHiArith(a, b, aHi, aLo, bHi, bLo, ll, hl, lh, hh);
    assert WordMulHi(a, b) == (a * b) / BASE by {
      hide Mul64, Or, And, Pow2, Shr64;
      AddExact(HighHalf(ll), hl);
      var t := Add64(HighHalf(ll), hl);
      AddExact(lh, LowHalf(t));
      AddExact(HighHalf(t), HighHalf(Add64(lh, LowHalf(t))));
      AddExact(Add64(HighHalf(t), HighHalf(Add64(lh, LowHalf(t)))), hh);
    }
  }

  lemma MulHiArith(a: word, b: word, aHi: nat, aLo: nat, bHi: nat, bLo: nat,
                   ll: nat, hl: nat, lh: nat, hh: nat)
    requires a == aHi * HALF + aLo && b == bHi * HALF + bLo
    requires ll == aLo * bLo && hl == aHi * bLo && lh == aLo * bHi && hh == aHi * bHi
    requires ll <= (HALF - 1) * (HALF - 1) && hl <= (HALF - 1) * (HALF - 1)
    requires lh <= (HALF - 1) * (HALF - 1) && hh <= (HALF - 1) * (HALF - 1)
    ensures var t := ll / HALF + hl; var u := t / HALF + (lh + t % HALF) / HALF;
      && t < BASE && lh + t % HALF < BASE && u + hh < BASE
      && u + hh == (a * b) / BASE
  {
    var t := ll / HALF + hl;
    var u := t / HALF + (lh + t % HALF) / HALF;
    var v := (lh + t % HALF) % HALF;
    assert a * b == hh * BASE + (hl + lh) * HALF + ll by {
      Expand(aHi, aLo, bHi, bLo);
    }
    assert a * b == (u + hh) * BASE + (v * HALF + ll % HALF);
    DivModUnique(a * b, BASE, u + hh, v * HALF + ll % HALF);
  }

  lemma Expand(aHi: nat, aLo: nat, bHi: nat, bLo: nat)
    ensures (aHi * HALF + aLo) * (bHi * HALF + bLo)
         == (aHi * bHi) * BASE + (aHi * bLo + aLo * bHi) * HALF + aLo * bLo
  {
  }
}
