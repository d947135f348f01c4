/** Single-word multiplication, addition and division, and the conversion to and
    from text that is built on them. */
module NumText {
  import opened Powers
  import opened Words
  import opened WordMul
  import opened NumCore

  /** One word of `mul_word`: the low word, and a carry that cannot overflow. */
  lemma MulWordStep(a: word, b: word, carry: word, tmp: word, c: word)
    requires (tmp, c) == AddCarry(Mul64(a, b), carry)
    ensures c + WordMulHi(a, b) < BASE
    ensures tmp + (c + WordMulHi(a, b)) * BASE == a * b + carry
  {
    WordMulHiExact(a, b);
    hide WordMulHi, Mul64;
    ProductBound(a, b, BASE - 1);
  }

  lemma MulWordPrefix(ws: seq<word>, rs: seq<word>, i: nat, b: word, carry: word, tmp: word, carry': word)
    requires i < |ws| && |rs| == i
    requires tmp + carry' * BASE == ws[i] * b + carry
    requires Val(rs) + At(carry, i) == Times(Val(ws[..i]), b)
    ensures Val(rs + [tmp]) + At(carry', i + 1) == Times(Val(ws[..i + 1]), b)
  {
    assert ws[..i + 1] == ws[..i] + [ws[i]];
    ValLast(ws[..i], ws[i]);
    hide Val;
    ValLast(rs, tmp);
    AtStep(ws[i] * b, 0, carry, tmp, carry', i);
    AtSum(0, 0, i);
    MulWordArith(Val(ws[..i]), ws[i], i, b);
  }

  lemma MulWordArith(v: int, w: int, i: nat, b: int)
    ensures Times(v + At(w, i), b) == Times(v, b) + At(w * b, i)
  {
    MulAssoc(w, Weight(i), b);
    MulAssoc(w, b, Weight(i));
    MulComm(Weight(i), b);
  }

  /** `mul_word`. */
  method MulWord(n: Num, b: word)
    modifies n`words
    ensures n.Valid() && n.Mag() == Times(old(n.Mag()), b)
  {
    hide Val, At, Times, WordMulHi, Mul64, AddCarry;
    ghost var ws := n.words;
    ValSmall(0);
    ZeroStart(b);
    assert ws[..0] == [] && n.words[..0] == [];
    var carry: word := 0;
    for i := 0 to |n.words|
      invariant |n.words| == |ws|
      invariant forall j :: i <= j < |ws| ==> n.words[j] == ws[j]
      invariant Val(n.words[..i]) + At(carry, i) == Times(Val(ws[..i]), b)
    {
      var a := n.words[i];
      var (tmp, c) := AddCarry(Mul64(a, b), carry);
      MulWordStep(a, b, carry, tmp, c);
      MulWordPrefix(ws, n.words[..i], i, b, carry, tmp, c + WordMulHi(a, b));
      carry := c + WordMulHi(a, b);
      n.words := n.words[i := tmp];
      assert n.words[..i + 1] == n.words[..i] + [tmp];
    }
    assert n.words[..|ws|] == n.words && ws[..|ws|] == ws;
    AtZero(0, |ws|);
    if carry != 0 {
      ValLast(n.words, carry);
      n.words := n.words + [carry];
    }
    n.Truncate();
  }

  lemma ZeroStart(b: int)
    ensures Times(0, b) == 0 && At(0, 0) == 0
  {
  }

  /** `add_word`, at word i0. */
  method AddWord(n: Num, w: word, i0: nat := 0)
    modifies n`words
    ensures n.Valid() && n.Mag() == old(n.Mag()) + At(w, i0)
  {
    hide Val, At, AddCarry;
    if i0 >= |n.words| {
      ValResizeUp(n.words, i0 + 1);
      n.words := Resize(n.words, i0 + 1);
    }
    var carry := w;
    var i := i0;
    while i < |n.words| && carry != 0
      invariant i0 <= i <= |n.words|
      invariant n.Mag() + At(carry, i) == old(n.Mag()) + At(w, i0)
    {
      var (s, c) := AddCarry(n.words[i], carry);
      CarryStep(n.words, i, carry, s, c);
      n.words := n.words[i := s];
      carry := c;
      i := i + 1;
    }
    AtZero(0, i);
    if carry != 0 {
      ValLast(n.words, carry);
      n.words := n.words + [carry];
    }
    n.Truncate();
  }

  /** Shifting a half word in below a remainder that fits in a half word. */
  lemma HalfIn(r: word, p: word)
    requires r < HALF && p < HALF
    ensures Or64(Shl64(r, 32), p) == r * HALF + p
  {
    BaseIsPow2();
    DivModUnique(r * HALF, BASE, 0, r * HALF);
    OrDisjoint(r, p, 32);
  }

  lemma HalfDivideArith(r: nat, p: nat, d: nat, h: nat)
    requires r < d <= h && p < h
    ensures r * h + p < h * h
    ensures (r * h + p) / d < h
  {
    MulMono(h, r + 1, h);
    MulMono(h, r + 1, d);
    DivLt(r * h + p, h, d);
  }

  function Div64(x: word, d: word): word
    requires d > 0
  {
    DivLe(x, d);
    x / d
  }

  function Mod64(x: word, d: word): word
    requires d > 0
  {
    x % d
  }

  lemma HalfDivide(r: word, p: word, d: word, x: word)
    requires 0 < d <= HALF && r < d && p < HALF && x == r * HALF + p
    ensures x == Div64(x, d) * d + Mod64(x, d)
    ensures Mod64(x, d) < d && Div64(x, d) < HALF
  {
    HalfDivideArith(r, p, d, HALF);
  }

  /** One round of long division by half words. */
  method HalfStep(r: word, p: word, d: word) returns (q: word, r': word)
    requires 0 < d <= HALF && r < d && p < HALF
    ensures r * HALF + p == q * d + r' && r' < d && q < HALF
  {
    HalfIn(r, p);
    hide Or64, Shl64, Div64, Mod64;
    var x := Or64(Shl64(r, 32), p);
    HalfDivide(r, p, d, x);
    q, r' := Div64(x, d), Mod64(x, d);
  }

  lemma LongDivStep(w: word, p0: word, p1: word, r: word, q0: word, r0: word, q1: word, r1: word, d: word)
    requires p0 == HighHalf(w) && p1 == LowHalf(w)
    requires r * HALF + p0 == q0 * d + r0 && r0 * HALF + p1 == q1 * d + r1
    ensures w + BASE * r == (q0 * HALF + q1) * d + r1
  {
    assert w == p0 * HALF + p1;
    MulAssoc(q0, HALF, d);
    MulAssoc(q0, d, HALF);
  }

  lemma LongDivAbove(w: nat, r: nat, q: nat, r': nat, v: nat, u: nat, d: nat)
    requires w + BASE * r == q * d + r' && v == Times(u, d) + r
    ensures w + BASE * v == Times(q + BASE * u, d) + r'
  {
    MulAssoc(BASE, u, d);
  }

  /** `div_mod_half_word`; the quotient may be the numerator object itself. */
  method DivModHalfWord(numerator: Num, d: word, quotient: Num) returns (remainder: word)
    requires 0 < d <= HALF
    modifies quotient
    ensures quotient.Valid() && remainder < d && quotient.neg == old(numerator.neg)
    ensures old(numerator.Mag()) == Times(quotient.Mag(), d) + remainder
  {
    hide Val, Times, HighHalf, LowHalf, Or64, Shl64;
    remainder := 0;
    ghost var ws := numerator.words;
    var dst := new Num.Filled(|numerator.words|, 0, false);
    var i := |numerator.words|;
    ValSmall(0);
    ZeroStart(d);
    assert ws[i..] == [] && dst.words[i..] == [];
    while i > 0
      invariant 0 <= i <= |ws| && |dst.words| == |ws| && remainder < d
      invariant numerator.words == ws && numerator.neg == old(numerator.neg)
      invariant Val(ws[i..]) == Times(Val(dst.words[i..]), d) + remainder
    {
      i := i - 1;
      ghost var r := remainder;
      var w := numerator.words[i];
      var p0, p1 := HighHalf(w), LowHalf(w);
      LowHalfSmall(w);
      var q0, q1;
      q0, remainder := HalfStep(remainder, p0, d);
      ghost var r0 := remainder;
      q1, remainder := HalfStep(remainder, p1, d);
      HalfIn(q0, q1);
      LongDivStep(w, p0, p1, r, q0, r0, q1, remainder, d);
      var q := Or64(Shl64(q0, 32), q1);
      LongDivAbove(w, r, q, remainder, Val(ws[i + 1..]), Val(dst.words[i + 1..]), d);
      ghost var up := dst.words[i + 1..];
      dst.words := dst.words[i := q];
      assert ws[i..] == [w] + ws[i + 1..] && dst.words[i..] == [q] + up;
      ValOne(w, ws[i + 1..]);
      ValOne(q, up);
    }
    assert ws[0..] == ws && dst.words[0..] == dst.words;
    dst.Truncate();
    quotient.words, quotient.neg := dst.words, numerator.neg;
  }

  lemma LowHalfSmall(w: word)
    ensures LowHalf(w) < HALF
  {
  }
}
