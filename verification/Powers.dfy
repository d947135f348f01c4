/** Powers of two, the machine-word operators written out on naturals, and the
    arithmetic facts the big-integer proofs share. */
module Powers {

  function Pow2(n: nat): (p: nat)
    ensures p > 0
  {
    if n == 0 then 1 else 2 * Pow2(n - 1)
  }

  lemma {:induction false} Pow2Add(a: nat, b: nat)
    ensures Pow2(a + b) == Pow2(a) * Pow2(b)
  {
    if a == 0 {
    } else {
      Pow2Add(a - 1, b);
      MulAssoc(2, Pow2(a - 1), Pow2(b));
    }
  }

  lemma {:induction false} Pow2Mono(a: nat, b: nat)
    requires a <= b
    ensures Pow2(a) <= Pow2(b)
  {
    if a < b { Pow2Mono(a, b - 1); }
  }

  lemma MulAssoc(x: int, y: int, z: int)
    ensures (x * y) * z == x * (y * z)
  {
  }

  /** A product that proofs about several steps keep folded. */
  function Times(x: int, y: int): int { x * y }

  lemma MulComm(x: int, y: int)
    ensures x * y == y * x
  {
  }

  lemma DivLt(w: nat, p: nat, q: nat)
    requires q > 0 && w < p * q
    ensures w / q < p
  {
    if w / q >= p { MulMono(q, p, w / q); }
  }

  lemma MulMono(k: nat, x: int, y: int)
    requires x <= y
    ensures k * x <= k * y && x * k <= y * k
  {
  }

  /** Quotient and remainder are determined by the division equation. */
  lemma DivModUnique(x: int, d: int, q: int, r: int)
    requires d > 0 && 0 <= r < d && x == q * d + r
    ensures x / d == q && x % d == r
  {
    var q', r' := x / d, x % d;
    assert x == q' * d + r';
    if q < q' {
      MulMono(d, q + 1, q');
      assert false;
    } else if q' < q {
      MulMono(d, q' + 1, q);
      assert false;
    }
  }

  /** Dividing out one factor after another. */
  lemma DivDiv(x: nat, a: nat, b: nat)
    requires a > 0 && b > 0
    ensures a * b > 0 && (x / a) / b == x / (a * b)
    ensures x % (a * b) == (x / a) % b * a + x % a
  {
    var q, r := x / a, x % a;
    var p, s := q / b, q % b;
    assert x == (p * b + s) * a + r;
    MulAssoc(p, b, a);
    assert a * b == b * a;
    MulMono(a, s, b - 1);
    assert a * b > 0 by { MulMono(a, 1, b); }
    DivModUnique(x, a * b, p, s * a + r);
  }

  /** A multiple of d added to x shifts the quotient and leaves the remainder. */
  lemma DivModAddMul(x: nat, k: nat, d: nat)
    requires d > 0
    ensures (x + k * d) / d == x / d + k && (x + k * d) % d == x % d
  {
    DivModUnique(x + k * d, d, x / d + k, x % d);
  }

  /** Bitwise OR of two unsigned words, one bit at a time. */
  function Or(a: nat, b: nat): (r: nat)
    decreases a + b
  {
    if a == 0 then b
    else if b == 0 then a
    else (if a % 2 == 1 || b % 2 == 1 then 1 else 0) + 2 * Or(a / 2, b / 2)
  }

  /** Bitwise AND of two unsigned words, one bit at a time. */
  function And(a: nat, b: nat): (r: nat)
  {
    if a == 0 || b == 0 then 0
    else (if a % 2 == 1 && b % 2 == 1 then 1 else 0) + 2 * And(a / 2, b / 2)
  }

  /** OR joins a high part and a low part that share no bit. */
  lemma {:induction false} OrDisjoint(hi: nat, lo: nat, k: nat)
    requires lo < Pow2(k)
    ensures Or(hi * Pow2(k), lo) == hi * Pow2(k) + lo
  {
    if k == 0 {
    } else {
      var p := Pow2(k - 1);
      assert hi * Pow2(k) == 2 * (hi * p);
      OrDisjoint(hi, lo / 2, k - 1);
    }
  }

  /** OR works on the fields above and below bit k separately. */
  lemma {:induction false} OrFields(a1: nat, a0: nat, b1: nat, b0: nat, k: nat)
    requires a0 < Pow2(k) && b0 < Pow2(k)
    ensures Or(a1 * Pow2(k) + a0, b1 * Pow2(k) + b0) == Or(a1, b1) * Pow2(k) + Or(a0, b0)
    decreases k
  {
    if k > 0 {
      OrFields(a1, a0 / 2, b1, b0 / 2, k - 1);
      OrFieldsStep(a1, a0, b1, b0, Pow2(k - 1));
      assert Pow2(k) == 2 * Pow2(k - 1);
    } else {
      OrStep(a1, b1);
    }
  }

  lemma OrFieldsStep(a1: nat, a0: nat, b1: nat, b0: nat, p: nat)
    requires Or(a1 * p + a0 / 2, b1 * p + b0 / 2) == Or(a1, b1) * p + Or(a0 / 2, b0 / 2)
    ensures Or(a1 * (2 * p) + a0, b1 * (2 * p) + b0) == Or(a1, b1) * (2 * p) + Or(a0, b0)
  {
    hide Or;
    HalfField(a1, a0, p);
    HalfField(b1, b0, p);
    OrStep(a1 * (2 * p) + a0, b1 * (2 * p) + b0);
    OrStep(a0, b0);
    DoubleField(Or(a1, b1), Or(a0 / 2, b0 / 2), p);
  }

  lemma HalfField(x1: nat, x0: nat, p: nat)
    ensures (x1 * (2 * p) + x0) / 2 == x1 * p + x0 / 2 && (x1 * (2 * p) + x0) % 2 == x0 % 2
  {
    assert x1 * (2 * p) == 2 * (x1 * p);
  }

  lemma DoubleField(x1: nat, x0: nat, p: nat)
    ensures 2 * (x1 * p + x0) == x1 * (2 * p) + 2 * x0
  {
  }

  lemma OrStep(a: nat, b: nat)
    ensures Or(a, b) == (if a % 2 == 1 || b % 2 == 1 then 1 else 0) + 2 * Or(a / 2, b / 2)
  {
  }

  lemma {:induction false} OrAtLeast(a: nat, b: nat)
    ensures Or(a, b) >= a && Or(a, b) >= b
    decreases a + b
  {
    if a > 0 && b > 0 { OrAtLeast(a / 2, b / 2); }
  }

  /** OR with a single bit adds that bit exactly when it was clear. */
  lemma {:induction false} OrBit(a: nat, k: nat)
    ensures Or(a, Pow2(k)) == if (a / Pow2(k)) % 2 == 0 then a + Pow2(k) else a
  {
    if k == 0 {
      assert a / 1 == a;
      assert a % 2 == 0 ==> Or(a, 1) == a + 1;
      if a > 0 { assert Or(a / 2, 0) == a / 2; }
    } else {
      OrBit(a / 2, k - 1);
      DivDiv(a, 2, Pow2(k - 1));
    }
  }

  /** AND with a low mask keeps the low bits. */
  lemma {:induction false} AndMask(a: nat, k: nat)
    ensures And(a, Pow2(k) - 1) == a % Pow2(k)
  {
    if k == 0 {
    } else if a == 0 {
      DivModUnique(0, Pow2(k), 0, 0);
    } else {
      var p := Pow2(k - 1);
      assert Pow2(k) == 2 * p;
      AndMask(a / 2, k - 1);
      DivDiv(a, 2, p);
      AndStep(a, p);
    }
  }

  lemma AndStep(a: nat, p: nat)
    requires a > 0 && p > 0
    ensures And(a, 2 * p - 1) == a % 2 + 2 * And(a / 2, p - 1)
  {
    var m := 2 * p - 1;
    assert m % 2 == 1 && m / 2 == p - 1;
  }
}
