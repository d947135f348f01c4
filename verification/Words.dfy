/** Little-endian vectors of 64-bit words and the natural number they stand for. */
module Words {
  import opened Powers

  const BASE: nat := 0x1_0000_0000_0000_0000
  const HALF: nat := 0x1_0000_0000

  /** `uint64_t`: arithmetic on it is written out modulo BASE. */
  type word = w: int | 0 <= w < 0x1_0000_0000_0000_0000

  function Add64(a: word, b: word): word { (a + b) % BASE }
  function Sub64(a: word, b: word): word { (a - b) % BASE }
  function Mul64(a: word, b: word): word { (a * b) % BASE }
  function Shl64(a: word, k: nat): word { (a * Pow2(k)) % BASE }
  function Shr64(a: word, k: nat): word { DivLe(a, Pow2(k)); a / Pow2(k) }

  function Or64(a: word, b: word): (r: word)
    ensures r == Or(a, b)
  {
    BaseIsPow2();
    OrBound(a, b, 64);
    Or(a, b)
  }

  lemma DivLe(a: nat, d: nat)
    requires d > 0
    ensures 0 <= a / d <= a
  {
    if a / d > a { MulMono(d, a + 1, a / d); MulMono(a + 1, 1, d); }
  }

  lemma BaseIsPow2()
    ensures Pow2(64) == BASE && Pow2(32) == HALF && HALF * HALF == BASE
  {
    assert Pow2(8) == 256;
    Pow2Add(8, 8);
    assert Pow2(16) == 65536;
    Pow2Add(16, 16);
    assert Pow2(32) == 65536 * 65536 == HALF;
    Pow2Add(32, 32);
  }

  /** The number a word vector stands for, least significant word first. */
  function Val(ws: seq<word>): nat {
    if ws == [] then 0 else ws[0] + BASE * Val(ws[1..])
  }

  /** The weight of word i: BASE to the power i. */
  function Weight(i: nat): (p: nat)
    ensures p > 0
  {
    if i == 0 then 1 else BASE * Weight(i - 1)
  }

  lemma {:induction false} WeightIsPow2(i: nat)
    ensures Weight(i) == Pow2(64 * i)
  {
    if i > 0 {
      WeightIsPow2(i - 1);
      BaseIsPow2();
      Pow2Add(64, 64 * (i - 1));
    }
  }

  lemma {:induction false} WeightAdd(i: nat, j: nat)
    ensures Weight(i + j) == Weight(i) * Weight(j)
  {
    if i > 0 {
      WeightAdd(i - 1, j);
      MulAssoc(BASE, Weight(i - 1), Weight(j));
    }
  }

  lemma {:induction false} WeightMono(i: nat, j: nat)
    requires i <= j
    ensures Weight(i) <= Weight(j)
  {
    if i < j { WeightMono(i, j - 1); }
  }

  /** v placed at word i: v * BASE^i. Proofs about loops keep this product folded. */
  function At(v: int, i: nat): (r: int)
    ensures v >= 0 ==> r >= 0
  {
    AtSign(v, Weight(i));
    v * Weight(i)
  }

  lemma AtSign(v: int, w: nat)
    ensures v >= 0 ==> v * w >= 0
  {
  }

  lemma AtSum(x: int, y: int, i: nat)
    ensures At(x + y, i) == At(x, i) + At(y, i)
    ensures At(-x, i) == -At(x, i)
    ensures At(0, i) == 0
  {
  }

  lemma AtBase(v: int, i: nat)
    ensures At(BASE * v, i) == At(v, i + 1)
  {
    MulAssoc(v, BASE, Weight(i));
  }

  /** A word-level equation with a carry, read at word i. */
  lemma AtStep(x: int, y: int, c: int, w: int, c': int, i: nat)
    requires w + c' * BASE == x + y + c
    ensures At(w, i) + At(c', i + 1) == At(x, i) + At(y, i) + At(c, i)
  {
    hide At;
    AtBase(c', i);
    AtSum(w, BASE * c', i);
    AtSum(x, y + c, i);
    AtSum(y, c, i);
  }

  lemma {:induction false} ValAppend(a: seq<word>, b: seq<word>)
    ensures Val(a + b) == Val(a) + At(Val(b), |a|)
  {
    if a == [] {
      assert a + b == b;
    } else {
      assert (a + b)[1..] == a[1..] + b;
      ValAppend(a[1..], b);
      AtUp(Val(b), |a| - 1);
    }
  }

  lemma AtUp(v: int, i: nat)
    ensures At(v, i + 1) == BASE * At(v, i)
  {
    MulAssoc(BASE, v, Weight(i));
    MulAssoc(v, BASE, Weight(i));
  }

  /** The value of a vector cut at word i. */
  lemma ValSplit(a: seq<word>, i: nat)
    requires i <= |a|
    ensures Val(a) == Val(a[..i]) + At(Val(a[i..]), i)
  {
    assert a == a[..i] + a[i..];
    hide *;
    ValAppend(a[..i], a[i..]);
  }

  lemma ValSmall(w: word)
    ensures Val([]) == 0 && Val([w]) == w
  {
  }

  lemma ValOne(w: word, rest: seq<word>)
    ensures Val([w] + rest) == w + BASE * Val(rest)
  {
    assert ([w] + rest)[1..] == rest;
  }

  lemma ValLast(a: seq<word>, w: word)
    ensures Val(a + [w]) == Val(a) + At(w, |a|)
  {
    hide *;
    ValSmall(w);
    ValAppend(a, [w]);
  }

  /** The words from i on, at their place, are word i and the words above it. */
  lemma ValTail(a: seq<word>, i: nat)
    requires i < |a|
    ensures At(Val(a[i..]), i) == At(a[i], i) + At(Val(a[i + 1..]), i + 1)
  {
    assert a[i..] == [a[i]] + a[i + 1..];
    ValOne(a[i], a[i + 1..]);
    hide *;
    AtSum(a[i], BASE * Val(a[i + 1..]), i);
    AtBase(Val(a[i + 1..]), i);
  }

  /** Overwriting word i changes the value by the difference, at word i. */
  lemma ValSet(a: seq<word>, i: nat, w: word)
    requires i < |a|
    ensures Val(a[i := w]) == Val(a) + At(w, i) - At(a[i], i)
  {
    hide *;
    var b := a[i := w];
    ValSplit(a, i);
    ValSplit(b, i);
    ValTail(a, i);
    ValTail(b, i);
    assert b[..i] == a[..i] && b[i + 1..] == a[i + 1..];
  }

  lemma {:induction false} ValBound(a: seq<word>)
    ensures Val(a) < Weight(|a|)
  {
    if a != [] { ValBound(a[1..]); }
  }

  function Zeros(n: nat): (z: seq<word>)
    ensures |z| == n && forall i :: 0 <= i < n ==> z[i] == 0
  {
    seq(n, _ => 0)
  }

  lemma {:induction false} ValZeros(a: seq<word>)
    requires forall i :: 0 <= i < |a| ==> a[i] == 0
    ensures Val(a) == 0
  {
    if a != [] { ValZeros(a[1..]); }
  }

  lemma ValPadded(a: seq<word>, n: nat)
    ensures Val(a + Zeros(n)) == Val(a)
  {
    ValAppend(a, Zeros(n));
    ValZeros(Zeros(n));
    AtSum(0, 0, |a|);
  }

  /** `vector::resize`: cut off the top or pad with zero words. */
  function Resize(a: seq<word>, n: nat): (r: seq<word>)
    ensures |r| == n
    ensures forall i :: 0 <= i < n ==> r[i] == if i < |a| then a[i] else 0
  {
    if n <= |a| then a[..n] else a + Zeros(n - |a|)
  }

  lemma ValResizeUp(a: seq<word>, n: nat)
    requires |a| <= n
    ensures Val(Resize(a, n)) == Val(a)
  {
    if n == |a| { assert a[..n] == a; } else { ValPadded(a, n - |a|); }
  }

  /** The canonical form every public operation leaves: no leading zero word. */
  predicate Canonical(a: seq<word>) {
    a != [] ==> a[|a| - 1] != 0
  }

  lemma CanonicalBound(a: seq<word>)
    requires Canonical(a) && a != []
    ensures Weight(|a| - 1) <= Val(a) < Weight(|a|)
  {
    ValBound(a);
    var n := |a| - 1;
    assert a == a[..n] + [a[n]];
    ValLast(a[..n], a[n]);
    MulMono(Weight(n), 1, a[n]);
  }

  /** A canonical vector is no longer than its value needs. */
  lemma CanonicalSize(a: seq<word>, n: nat)
    requires Canonical(a) && Val(a) < Weight(n)
    ensures |a| <= n
  {
    if |a| > n {
      CanonicalBound(a);
      WeightMono(n, |a| - 1);
      assert false;
    }
  }

  /** Vectors of the same length with the same value are the same vector. */
  lemma {:induction false} ValInjective(a: seq<word>, b: seq<word>)
    requires |a| == |b| && Val(a) == Val(b)
    ensures a == b
  {
    if a != [] {
      assert a[0] == b[0] && Val(a[1..]) == Val(b[1..]);
      ValInjective(a[1..], b[1..]);
      assert a == [a[0]] + a[1..] && b == [b[0]] + b[1..];
    }
  }

  /** The canonical form is unique, so a value fixes the words that stand for it. */
  lemma CanonicalUnique(a: seq<word>, b: seq<word>)
    requires Canonical(a) && Canonical(b) && Val(a) == Val(b)
    ensures a == b
  {
    ValBound(a);
    ValBound(b);
    CanonicalSize(a, |b|);
    CanonicalSize(b, |a|);
    ValInjective(a, b);
  }

  lemma CanonicalZero(a: seq<word>)
    requires Canonical(a)
    ensures Val(a) == 0 <==> a == []
  {
    if a != [] { CanonicalBound(a); }
  }

  /** `add_carry`: the wrapped sum and the carry read off the comparison. */
  function AddCarry(a: word, b: word): (r: (word, word))
    ensures r.0 + r.1 * BASE == a + b && r.1 <= 1
  {
    var s := Add64(a, b);
    (s, if s < b then 1 else 0)
  }

  /** `sub_carry`: the wrapped difference and the borrow read off the comparison. */
  function SubCarry(a: word, b: word): (r: (word, word))
    ensures r.0 - r.1 * BASE == a - b && r.1 <= 1
  {
    var s := Sub64(a, b);
    (s, if s > a then 1 else 0)
  }

  lemma {:induction false} OrBound(a: nat, b: nat, k: nat)
    requires a < Pow2(k) && b < Pow2(k)
    ensures Or(a, b) < Pow2(k)
  {
    if k > 0 && a > 0 && b > 0 { OrBound(a / 2, b / 2, k - 1); }
  }
}
