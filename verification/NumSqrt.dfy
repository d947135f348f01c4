/** The digit-by-digit integer square root. */
module NumSqrt {
  import opened Powers
  import opened Words
  import opened Bits
  import opened NumCore
  import opened NumMul
  import opened NumDiv

  /** After the root bits from j on are decided: `root` is the root so far, `rest`
      what is left of n, and `res` the scaled root the code keeps instead of it. */
  ghost predicate SqrtState(rest: int, res: nat, root: nat, j: nat, n: nat) {
    && root % Pow2(j) == 0
    && res == Times(root, Pow2(j))
    && rest == n - Times(root, root)
    && 0 <= rest < 2 * res + Pow2(2 * j)
  }

  lemma SqrtStateStart(n: nat, l: nat, j: nat)
    requires IsBitLength(n, l) && l <= 2 * j
    ensures SqrtState(n, 0, 0, j, n)
  {
    Pow2Mono(l, 2 * j);
    DivModUnique(0, Pow2(j), 0, 0);
  }

  /** The two bits the code sets are clear beforehand. */
  lemma RootBitsClear(rest: int, res: nat, root: nat, j: nat, n: nat)
    requires SqrtState(rest, res, root, j + 1, n)
    ensures Bit(res, 2 * j) == 0 && Bit(res, 2 * j + 1) == 0
  {
    var h := root / Pow2(j + 1);
    assert root == h * Pow2(j + 1);
    Pow2Add(j + 1, j + 1);
    MulAssoc(h, Pow2(j + 1), Pow2(j + 1));
    assert res == h * Pow2(2 * j + 2);
    LowBitsClear(h, 2 * j);
  }

  lemma LowBitsClear(h: nat, i: nat)
    ensures Bit(h * Pow2(i + 2), i) == 0 && Bit(h * Pow2(i + 2), i + 1) == 0
  {
    var p := Pow2(i);
    FourTimes(h, p);
    assert h * Pow2(i + 2) == (4 * h) * p;
    assert h * Pow2(i + 2) == (2 * h) * (2 * p);
    DivModUnique(h * Pow2(i + 2), p, 4 * h, 0);
    DivModUnique(h * Pow2(i + 2), 2 * p, 2 * h, 0);
  }

  lemma FourTimes(h: int, p: int)
    ensures h * (2 * (2 * p)) == (4 * h) * p == (2 * h) * (2 * p)
  {
  }

  /** One round decides root bit j: with p = 2^j the trial value is
      (root + p)^2 - root^2 = 2 * root * p + p^2. */
  lemma SqrtStateStep(rest: int, res: nat, root: nat, j: nat, n: nat)
    requires SqrtState(rest, res, root, j + 1, n)
    ensures var trial := res + Pow2(2 * j);
      && (rest >= trial ==>
           SqrtState(rest - trial, (res + Pow2(2 * j + 1)) / Pow2(1), root + Pow2(j), j, n))
      && (rest < trial ==> SqrtState(rest, res / Pow2(1), root, j, n))
  {
    var p := Pow2(j);
    Pow2Add(j, j);
    assert Pow2(j + 1) == 2 * p && Pow2(1) == 2;
    assert Pow2(2 * j + 1) == 2 * Pow2(2 * j) && Pow2(2 * (j + 1)) == 4 * Pow2(2 * j);
    StepArith(root, p);
    RootMultiple(root, p);
  }

  lemma RootMultiple(root: nat, p: nat)
    requires p > 0 && root % (2 * p) == 0
    ensures root % p == 0 && (root + p) % p == 0
  {
    var h := root / (2 * p);
    assert root == (2 * h) * p by { FourTimes(h, p); MulAssoc(h, 2, p); }
    DivModUnique(root, p, 2 * h, 0);
    DivModUnique(root + p, p, 2 * h + 1, 0);
  }

  lemma StepArith(root: nat, p: nat)
    ensures Times(root, 2 * p) == 2 * Times(root, p)
    ensures Times(root + p, p) == Times(root, p) + p * p
    ensures Times(root + p, root + p) == Times(root, root) + 2 * Times(root, p) + p * p
  {
  }

  lemma SqrtStateEnd(rest: int, res: nat, root: nat, n: nat)
    requires SqrtState(rest, res, root, 0, n)
    ensures Times(res, res) <= n < Times(res + 1, res + 1)
  {
    assert Pow2(0) == 1;
    StepArith(root, 1);
  }

  /** The body of the loop of `sqrt`: the trial subtraction decides one root bit. */
  method SqrtRound(n0: Num, result: Num, bit: nat, ghost root0: nat, ghost j: nat, ghost x: nat)
    returns (n: Num, ghost root: nat)
    requires n0.Valid() && result.Valid() && !result.neg && n0 != result && bit == 2 * j
    requires SqrtState(n0.Value(), result.Mag(), root0, j + 1, x)
    modifies result`words
    ensures n.Valid() && result.Valid() && (n == n0 || fresh(n))
    ensures SqrtState(n.Value(), result.Mag(), root, j, x)
  {
    hide Val, Pow2, SqrtState, Times;
    RootBitsClear(n0.Value(), result.Mag(), root0, j, x);
    SqrtStateStep(n0.Value(), result.Mag(), root0, j, x);
    n, root := n0, root0;
    var tmp := new Num.Copy(result);
    tmp.SetBit(bit);
    var order := Num.Cmp(n, tmp);
    if order >= 0 {
      n := Sub(n, tmp);
      result.SetBit(bit + 1);
      root := root + Pow2(j);
    }
    result.ShiftRight(1);
  }

  /** `sqrt` of a number that is not negative. */
  method Sqrt(x: Num) returns (result: Num)
    requires x.Valid() && x.Value() >= 0 && BitLengthOf(x.Mag()) < 0x8000_0000
    ensures fresh(result) && result.Valid() && !result.neg
    ensures Times(result.Mag(), result.Mag()) <= x.Mag() < Times(result.Mag() + 1, result.Mag() + 1)
  {
    hide Val, Pow2, SqrtState, BitLengthOf, IsBitLength, Times;
    var n := new Num.Copy(x);
    var l := x.BitLength();
    BitLengthUnique(x.Mag(), l, BitLengthOf(x.Mag()));
    var bit: int32 := l;
    if bit % 2 == 1 { bit := bit - 1; }
    result := new Num();
    ghost var root: nat, j: nat := 0, bit / 2 + 1;
    SqrtStateStart(x.Mag(), l, j);
    ValSmall(0);
    while bit >= 0
      invariant bit == 2 * (j as int) - 2
      invariant n != result && n.Valid() && result.Valid() && !result.neg
      invariant SqrtState(n.Value(), result.Mag(), root, j, x.Mag())
      decreases bit
    {
      j := j - 1;
      n, root := SqrtRound(n, result, bit, root, j, x.Mag());
      bit := bit - 2;
    }
    SqrtStateEnd(n.Value(), result.Mag(), root, x.Mag());
  }
}
