/** Signed addition and subtraction, schoolbook and Karatsuba multiplication. */
module NumMul {
  import opened Powers
  import opened Words
  import opened WordMul
  import opened NumCore
  import opened Shifts

  const KARATSUBA_THRESHOLD: nat := 20

  /** `std::vector<uint64_t>::max_size()`: no vector is longer. */
  const MAX_WORDS: nat := 0x0FFF_FFFF_FFFF_FFFF

  method AddUnsigned(a: Num, b: Num) returns (c: Num)
    ensures fresh(c) && c.Valid() && c.Mag() == a.Mag() + b.Mag()
  {
    c := new Num.Copy(a);
    Num.AddUnsignedOverwrite(c, b);
  }

  method SubUnsigned(a: Num, b: Num) returns (c: Num)
    requires a.Valid() && b.Valid() && a.Mag() >= b.Mag()
    ensures fresh(c) && c.Valid() && c.Mag() == a.Mag() - b.Mag()
  {
    c := new Num.Copy(a);
    Num.SubUnsignedOverwrite(c, b);
  }

  method AddSigned(a: Num, aNeg: bool, b: Num, bNeg: bool) returns (c: Num)
    requires a.Valid() && b.Valid()
    ensures fresh(c) && c.Valid()
    ensures c.Value() == Signed(aNeg, a.Mag()) + Signed(bNeg, b.Mag())
  {
    if aNeg == bNeg {
      c := AddUnsigned(a, b);
      c.neg := aNeg;
      return;
    }
    var order := Num.CmpAbs(a, b);
    if order >= 0 {
      c := SubUnsigned(a, b);
      c.neg := aNeg;
    } else {
      c := SubUnsigned(b, a);
      c.neg := bNeg;
    }
  }

  method Add(a: Num, b: Num) returns (c: Num)
    requires a.Valid() && b.Valid()
    ensures fresh(c) && c.Valid() && c.Value() == a.Value() + b.Value()
  {
    c := AddSigned(a, a.neg, b, b.neg);
  }

  method Sub(a: Num, b: Num) returns (c: Num)
    requires a.Valid() && b.Valid()
    ensures fresh(c) && c.Valid() && c.Value() == a.Value() - b.Value()
  {
    c := AddSigned(a, a.neg, b, !b.neg);
  }

  /** Adding x at word i of c, with the carry counted at word i + 1 of k, adds
      x * BASE^i to the sum of the two vectors. */
  lemma AddInto(c: seq<word>, k: seq<word>, i: nat, x: word)
    requires i < |c| && i + 1 < |k| && k[i + 1] + 1 < BASE
    ensures var (s, carry) := AddCarry(c[i], x);
      Val(c[i := s]) + Val(k[i + 1 := k[i + 1] + carry]) == Val(c) + Val(k) + At(x, i)
  {
    hide At, Val;
    var (s, carry) := AddCarry(c[i], x);
    ValSet(c, i, s);
    ValSet(k, i + 1, k[i + 1] + carry);
    AtStep(c[i], 0, x, s, carry, i);
    AtSum(0, 0, i);
    AtSum(k[i + 1], carry, i + 1);
  }

  /** How far the carry counter at word j can have grown after ib steps of row ia. */
  function CarryBound(j: nat, ia: nat, ib: nat): nat {
    2 * ia + if j <= ia + ib then 2 else if j == ia + ib + 1 then 1 else 0
  }

  /** One step of the schoolbook loop: the two halves of x * y are added at words
      i and i + 1 of c, and the two carries are only counted. */
  method MulStep(c: Num, carries: Num, i: nat, x: word, y: word)
    requires c != carries && i + 2 < |c.words| == |carries.words|
    requires carries.words[i + 1] + 1 < BASE && carries.words[i + 2] + 1 < BASE
    modifies c`words, carries`words
    ensures |c.words| == |carries.words| == old(|c.words|)
    ensures c.Mag() + carries.Mag() == old(c.Mag() + carries.Mag()) + At(x * y, i)
    ensures forall k :: 0 <= k < |carries.words| ==>
      carries.words[k] <= old(carries.words)[k] + if k == i + 1 || k == i + 2 then 1 else 0
  {
    hide Val, Weight, At, WordMulHi, Mul64;
    var j := i + 1;
    var (lo, cl) := AddCarry(c.words[i], Mul64(x, y));
    AddInto(c.words, carries.words, i, Mul64(x, y));
    c.words := c.words[i := lo];
    carries.words := carries.words[i + 1 := carries.words[i + 1] + cl];
    var (hi, ch) := AddCarry(c.words[j], WordMulHi(x, y));
    AddInto(c.words, carries.words, j, WordMulHi(x, y));
    c.words := c.words[j := hi];
    carries.words := carries.words[j + 1 := carries.words[j + 1] + ch];
    WordMulHiExact(x, y);
    AtBase(WordMulHi(x, y), i);
    AtSum(Mul64(x, y), BASE * WordMulHi(x, y), i);
  }

  /** The part of the product that row ia has contributed after ib steps. */
  function Row(x: word, b: seq<word>, ia: nat, ib: nat): int
    requires ib <= |b|
  {
    At(x * Val(b[..ib]), ia)
  }

  /** The part of the product that the first ia rows contribute. */
  function Rows(a: seq<word>, b: seq<word>, ia: nat): int
    requires ia <= |a|
  {
    Val(a[..ia]) * Val(b)
  }

  method MulLong(a: Num, b: Num) returns (c: Num)
    requires |a.words| <= MAX_WORDS
    ensures fresh(c) && c.Valid() && c.Mag() == a.Mag() * b.Mag() && c.neg == (a.neg != b.neg)
  {
    RowsEnds(a.words, b.words);
    hide Val, Weight, At, Row, Rows;
    var na, nb := |a.words|, |b.words|;
    var nc := na + nb + 1;
    c := new Num.Filled(nc, 0, a.neg != b.neg);
    var carries := new Num.Filled(nc, 0, false);
    ValZeros(c.words);
    for ia := 0 to na
      invariant |c.words| == nc && |carries.words| == nc && c.neg == (a.neg != b.neg)
      invariant forall j :: 0 <= j < nc ==> carries.words[j] <= 2 * ia
      invariant c.Mag() + carries.Mag() == Rows(a.words, b.words, ia)
    {
      RowEnds(a.words, b.words, ia);
      for ib := 0 to nb
        invariant |c.words| == nc && |carries.words| == nc && c.neg == (a.neg != b.neg)
        invariant forall j :: 0 <= j < nc ==> carries.words[j] <= CarryBound(j, ia, ib)
        invariant c.Mag() + carries.Mag() == Rows(a.words, b.words, ia) + Row(a.words[ia], b.words, ia, ib)
      {
        MulStep(c, carries, ia + ib, a.words[ia], b.words[ib]);
        RowStep(a.words[ia], b.words, ia, ib);
      }
    }
    Num.AddUnsignedOverwrite(c, carries);
    c.Truncate();
  }

  lemma RowsEnds(a: seq<word>, b: seq<word>)
    ensures Rows(a, b, 0) == 0 && Rows(a, b, |a|) == Val(a) * Val(b)
  {
    assert a[..0] == [] && a[..|a|] == a;
  }

  lemma RowEnds(a: seq<word>, b: seq<word>, ia: nat)
    requires ia < |a|
    ensures Row(a[ia], b, ia, 0) == 0
    ensures Rows(a, b, ia + 1) == Rows(a, b, ia) + Row(a[ia], b, ia, |b|)
  {
    assert b[..0] == [] && b[..|b|] == b;
    assert a[..ia + 1] == a[..ia] + [a[ia]];
    ValLast(a[..ia], a[ia]);
    RowArith(a[ia], Val(b), Val(a[..ia]), ia);
  }

  lemma RowArith(x: int, m: int, v: int, i: nat)
    ensures (v + At(x, i)) * m == v * m + At(x * m, i)
    ensures At(x * 0, i) == 0
  {
    MulAssoc(x, Weight(i), m);
    MulAssoc(x, m, Weight(i));
    MulComm(m, Weight(i));
  }

  lemma RowStep(x: word, b: seq<word>, ia: nat, ib: nat)
    requires ib < |b|
    ensures Row(x, b, ia, ib + 1) == Row(x, b, ia, ib) + At(x * b[ib], ia + ib)
  {
    assert b[..ib + 1] == b[..ib] + [b[ib]];
    ValLast(b[..ib], b[ib]);
    RowStepArith(x, b[ib], Val(b[..ib]), ia, ib);
  }

  lemma RowStepArith(x: int, y: int, v: int, i: nat, j: nat)
    ensures At(x * (v + At(y, j)), i) == At(x * v, i) + At(x * y, i + j)
  {
    WeightAdd(i, j);
    MulComm(Weight(i), Weight(j));
    MulAssoc(x, y, Weight(j));
    MulAssoc(x * y, Weight(j), Weight(i));
    AtSum(x * v, x * At(y, j), i);
  }

  /** Words lo .. lo + n of a vector, as far as it goes. */
  function Piece(ws: seq<word>, lo: nat, n: nat): seq<word> {
    if lo >= |ws| then [] else if lo + n >= |ws| then ws[lo..] else ws[lo..lo + n]
  }

  lemma PieceVal(ws: seq<word>, lo: nat, n: nat)
    ensures Val(Piece(ws, lo, n)) == (Val(ws) / Weight(lo)) % Weight(n)
  {
    if lo >= |ws| {
      ValBound(ws);
      WeightMono(|ws|, lo);
      DivModUnique(Val(ws), Weight(lo), 0, Val(ws));
      DivModUnique(0, Weight(n), 0, 0);
      ValSmall(0);
    } else {
      DropWords(ws, lo);
      var up := ws[lo..];
      if lo + n >= |ws| {
        ValBound(up);
        WeightMono(|up|, n);
        DivModUnique(Val(up), Weight(n), 0, Val(up));
      } else {
        DropWords(up, n);
        assert up[..n] == ws[lo..lo + n];
      }
    }
  }

  /** Where part k starts, and the number it holds. */
  function PartStart(size: nat, n: nat, k: nat): (i: nat)
    ensures i <= size
  {
    if n * k < size then n * k else size
  }

  function PartVal(ws: seq<word>, n: nat, k: nat): nat {
    (Val(ws) / Weight(n * k)) % Weight(n)
  }

  function Part(ws: seq<word>, n: nat, k: nat): seq<word> {
    Piece(ws, n * k, n)
  }

  lemma PartStep(ws: seq<word>, n: nat, k: nat)
    ensures PartStart(|ws|, n, 0) == 0
    ensures PartStart(|ws|, n, k + 1) == PartStart(|ws|, n, k) + |Part(ws, n, k)|
    ensures |Part(ws, n, k)| <= n
    ensures |Part(ws, n, k)| < n ==> PartStart(|ws|, n, k + 1) == |ws|
    ensures forall j :: 0 <= j < |Part(ws, n, k)| ==> Part(ws, n, k)[j] == ws[PartStart(|ws|, n, k) + j]
    ensures Val(Resize(Part(ws, n, k), n)) == PartVal(ws, n, k)
  {
    assert n * (k + 1) == n * k + n;
    ValResizeUp(Part(ws, n, k), n);
    PieceVal(ws, n * k, n);
  }

  /** `split`: part k receives words k * n up to (k + 1) * n. The parts come in as
      fresh zeros, and no sign is copied. */
  method Split(a: Num, parts: seq<Num>, n: nat)
    requires a !in parts
    requires forall k :: 0 <= k < |parts| ==> parts[k].words == []
    requires forall k, l :: 0 <= k < l < |parts| ==> parts[k] != parts[l]
    modifies set k | 0 <= k < |parts| :: parts[k]`words
    ensures forall k :: 0 <= k < |parts| ==> parts[k].Valid() && parts[k].Mag() == PartVal(a.words, n, k)
  {
    hide Val, PartStart, PartVal, Part;
    PartStep(a.words, n, 0);
    var i := 0;
    for k := 0 to |parts|
      invariant i == PartStart(|a.words|, n, k)
      invariant forall l :: k <= l < |parts| ==> parts[l].words == []
      invariant forall l :: 0 <= l < k ==> parts[l].Valid() && parts[l].Mag() == PartVal(a.words, n, l)
    {
      var part := parts[k];
      PartStep(a.words, n, k);
      i := FillPart(a, part, n, i, Part(a.words, n, k));
      part.Truncate();
    }
  }

  /** The inner loop of `split`: up to n words of a, from word i on. */
  method FillPart(a: Num, part: Num, n: nat, i0: nat, ghost piece: seq<word>) returns (i: nat)
    requires a != part && part.words == []
    requires i0 + |piece| <= |a.words| && |piece| <= n
    requires |piece| < n ==> i0 + |piece| == |a.words|
    requires forall j :: 0 <= j < |piece| ==> piece[j] == a.words[i0 + j]
    modifies part`words
    ensures i == i0 + |piece| && part.words == Resize(piece, n)
  {
    part.words := Resize(part.words, n);
    i := i0;
    var j := 0;
    while j < n && i < |a.words|
      invariant i == i0 + j && j <= |piece| && |part.words| == n
      invariant forall l :: 0 <= l < n ==> part.words[l] == if l < j then piece[l] else 0
    {
      part.words := part.words[j := a.words[i]];
      j := j + 1;
      i := i + 1;
    }
  }

  /** The product that `mul` returns: past the threshold the operands' signs are
      dropped. */
  function MulResult(na: nat, nb: nat, x: int, y: int): int {
    if na > KARATSUBA_THRESHOLD && nb > KARATSUBA_THRESHOLD then Abs(x) * Abs(y) else x * y
  }

  /** `mul` computes the signed product exactly when it does not take the Karatsuba
      branch on operands of opposite sign. */
  lemma MulResultIsProduct(na: nat, nb: nat, x: int, y: int)
    requires na > 0 ==> x != 0
    requires nb > 0 ==> y != 0
    ensures MulResult(na, nb, x, y) == x * y <==>
            !(na > KARATSUBA_THRESHOLD && nb > KARATSUBA_THRESHOLD && (x < 0) != (y < 0))
    ensures x >= 0 && y >= 0 ==> MulResult(na, nb, x, y) == x * y
    ensures Abs(MulResult(na, nb, x, y)) == Abs(x) * Abs(y)
  {
    AbsProduct(x, y);
    if x != 0 && y != 0 { ProductPositive(Abs(x), Abs(y)); }
  }

  /** The concrete case: -v times v, where v has twenty zero words below a one. */
  lemma MulDropsSigns()
    ensures var words: seq<word> := seq(20, _ => 0) + [1];
      var v: int := Val(words);
      Canonical(words) && MulResult(|words|, |words|, -v, v) == v * v > -v * v
  {
    var words: seq<word> := seq(20, _ => 0) + [1];
    CanonicalZero(words);
    ProductPositive(Val(words), Val(words));
  }

  lemma AbsProduct(x: int, y: int)
    ensures x * y == if (x < 0) == (y < 0) then Abs(x) * Abs(y) else -(Abs(x) * Abs(y))
  {
  }

  lemma ProductPositive(x: nat, y: nat)
    requires x > 0 && y > 0
    ensures x * y > 0
  {
  }

  /** The middle term that the three products give is the sum of the two mixed ones,
      and so never negative. */
  lemma KaratsubaMiddle(a0: nat, a1: nat, b0: nat, b1: nat)
    ensures Times(a0 + a1, b0 + b1) - Times(a1, b1) - Times(a0, b0) == Times(a0, b1) + Times(a1, b0) >= 0
  {
    Foil(a0, a1, b0, b1);
  }

  /** Karatsuba's identity, for operands cut at word m. */
  lemma KaratsubaIdentity(m: nat, a: int, a0: int, a1: int, b: int, b0: int, b1: int,
                          z0: int, z1: int, z2: int)
    requires a == a0 + At(a1, m) && b == b0 + At(b1, m)
    requires z0 == Times(a0, b0) && z1 == Times(a0 + a1, b0 + b1) && z2 == Times(a1, b1)
    ensures At(At(z2, m) + (z1 - z2 - z0), m) + z0 == Times(a, b)
  {
    var x := Weight(m);
    var s, t := a0 * b1, a1 * b0;
    Foil(a0, a1, b0, b1);
    Foil(a0, a1 * x, b0, b1 * x);
    MulAssoc(a0, b1, x);
    MulAssoc(a1, b0, x);
    MulAssoc(a1, x, b0);
    MulComm(x, b0);
    Regroup(a1, b1, x);
    Distrib3(z2 * x, s, t, x);
  }

  lemma Foil(a: int, p: int, b: int, q: int)
    ensures (a + p) * (b + q) == a * b + a * q + p * b + p * q
  {
  }

  lemma Distrib3(u: int, s: int, t: int, x: int)
    ensures (u + (s + t)) * x == u * x + s * x + t * x
  {
  }

  lemma Regroup(a1: int, b1: int, x: int)
    ensures (a1 * x) * (b1 * x) == ((a1 * b1) * x) * x
  {
    MulAssoc(a1, x, b1 * x);
    MulAssoc(x, b1, x);
    MulComm(x, b1);
    MulAssoc(a1, b1 * x, x);
    MulAssoc(a1, b1, x);
  }

  /** A number of at most 2 * m words is its two parts. */
  lemma HalvesOf(ws: seq<word>, m: nat)
    requires |ws| <= 2 * m
    ensures Val(ws) == PartVal(ws, m, 0) + At(PartVal(ws, m, 1), m)
    ensures PartVal(ws, m, 0) < Weight(m) && PartVal(ws, m, 1) < Weight(m)
  {
    ValBound(ws);
    WeightMono(|ws|, m + m);
    WeightAdd(m, m);
    assert m * 1 == m && m * 0 == 0;
    HalvesArith(Val(ws), Weight(m));
  }

  lemma HalvesArith(v: nat, w: nat)
    requires w > 0 && v < w * w
    ensures (v / 1) % w + (v / w) % w * w == v && (v / w) % w < w && (v / 1) % w < w
  {
    DivLt(v, w, w);
    DivModUnique(v / w, w, 0, v / w);
    DivModUnique(v, 1, v, 0);
  }

  /** Sizes of the operands of the three half-size products. */
  lemma PartSizes(ws: seq<word>, m: nat)
    requires Canonical(ws)
    ensures Val(ws) < Weight(m) ==> |ws| <= m
    ensures Val(ws) < 2 * Weight(m) ==> |ws| <= m + 1
  {
    if Val(ws) < Weight(m) { CanonicalSize(ws, m); }
    if Val(ws) < 2 * Weight(m) { CanonicalSize(ws, m + 1); }
  }

  /** Shifting left by m words, seen on the signed value. */
  lemma SignedShift(neg: bool, mag: nat, m: nat)
    ensures Signed(neg, mag * Pow2(m * 64)) == At(Signed(neg, mag), m)
  {
    WeightIsPow2(m);
  }

  function Max(x: nat, y: nat): nat { if x < y then y else x }

  method Mul(a: Num, b: Num) returns (c: Num)
    requires a.Valid() && b.Valid() && |a.words| <= MAX_WORDS && |b.words| <= MAX_WORDS
    ensures fresh(c) && c.Valid()
    ensures c.Value() == MulResult(|a.words|, |b.words|, a.Value(), b.Value())
    decreases Max(|a.words|, |b.words|), 1
  {
    if |a.words| > KARATSUBA_THRESHOLD && |b.words| > KARATSUBA_THRESHOLD {
      c := MulKaratsuba(a, b);
      return;
    }
    c := MulLong(a, b);
    AbsProduct(a.Value(), b.Value());
  }

  method MulKaratsuba(a: Num, b: Num) returns (result: Num)
    requires a.Valid() && b.Valid() && |a.words| <= MAX_WORDS && |b.words| <= MAX_WORDS
    requires |a.words| > KARATSUBA_THRESHOLD && |b.words| > KARATSUBA_THRESHOLD
    ensures fresh(result) && result.Valid() && result.Value() == Times(a.Mag(), b.Mag())
    decreases Max(|a.words|, |b.words|), 0
  {
    hide Val, Weight, At, PartVal, MulResult, Times;
    var na, nb := |a.words|, |b.words|;
    var n := if na < nb then nb else na;
    var m2 := n / 2 + n % 2;
    var a0 := new Num();
    var a1 := new Num();
    var b0 := new Num();
    var b1 := new Num();
    Split(a, [a0, a1], m2);
    Split(b, [b0, b1], m2);
    HalvesOf(a.words, m2);
    HalvesOf(b.words, m2);
    ghost var parts := [a0, a1];
    assert parts[0] == a0 && parts[1] == a1;
    ghost var parts' := [b0, b1];
    assert parts'[0] == b0 && parts'[1] == b1;
    result := MulParts(a0, a1, b0, b1, m2, n);
  }

  /** The product of a1 * X + a0 and b1 * X + b0 for X = BASE^m from three products
      of the parts, all of them non-negative. */
  method MulParts(a0: Num, a1: Num, b0: Num, b1: Num, m: nat, ghost n: nat) returns (result: Num)
    requires a0.Valid() && a1.Valid() && b0.Valid() && b1.Valid()
    requires !a0.neg && !a1.neg && !b0.neg && !b1.neg && m + 1 < n && m < MAX_WORDS
    requires a0.Mag() < Weight(m) && a1.Mag() < Weight(m) && b0.Mag() < Weight(m) && b1.Mag() < Weight(m)
    ensures fresh(result) && result.Valid()
    ensures result.Value() == Times(a0.Mag() + At(a1.Mag(), m), b0.Mag() + At(b1.Mag(), m))
    decreases n, 0, 1
  {
    hide Val, Weight, At, MulResult, Times;
    var z0 := HalfMul(a0, b0, m, n);
    var sa := Add(a0, a1);
    var sb := Add(b0, b1);
    var z1 := HalfMul(sa, sb, m, n);
    var z2 := HalfMul(a1, b1, m, n);
    KaratsubaMiddle(a0.Mag(), a1.Mag(), b0.Mag(), b1.Mag());
    assert z1.Value() - z2.Value() - z0.Value() >= 0;
    result := Combine(z0, z1, z2, m);
    KaratsubaIdentity(m, a0.Mag() + At(a1.Mag(), m), a0.Mag(), a1.Mag(),
                      b0.Mag() + At(b1.Mag(), m), b0.Mag(), b1.Mag(),
                      z0.Value(), z1.Value(), z2.Value());
  }

  /** The product of two non-negative parts, each below twice the weight of m words. */
  method HalfMul(x: Num, y: Num, m: nat, ghost n: nat) returns (z: Num)
    requires x.Valid() && y.Valid() && x.Value() >= 0 && y.Value() >= 0
    requires x.Mag() < 2 * Weight(m) && y.Mag() < 2 * Weight(m) && m + 1 < n && m < MAX_WORDS
    ensures fresh(z) && z.Valid() && z.Value() == Times(x.Value(), y.Value())
    decreases n, 0, 0
  {
    PartSizes(x.words, m);
    PartSizes(y.words, m);
    CanonicalZero(x.words);
    CanonicalZero(y.words);
    MulResultIsProduct(|x.words|, |y.words|, x.Value(), y.Value());
    z := Mul(x, y);
  }

  /** z2 * X^2 + (z1 - z2 - z0) * X + z0 for X = BASE^m, by shifts and additions. */
  method Combine(z0: Num, z1: Num, z2: Num, m: nat) returns (result: Num)
    requires z0.Valid() && z1.Valid() && z2.Valid()
    ensures fresh(result) && result.Valid()
    ensures result.Value() == At(At(z2.Value(), m) + (z1.Value() - z2.Value() - z0.Value()), m) + z0.Value()
  {
    hide Val, At, Pow2;
    result := new Num.Copy(z2);
    SignedShift(result.neg, result.Mag(), m);
    result.ShiftLeft(m * 64);
    var middle := Sub(z1, z2);
    middle := Sub(middle, z0);
    result := Add(result, middle);
    SignedShift(result.neg, result.Mag(), m);
    result.ShiftLeft(m * 64);
    result := Add(result, z0);
  }
}
