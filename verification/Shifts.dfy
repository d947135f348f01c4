/** What one word of a shifted vector is, and why those words together stand
    for the shifted number. */
module Shifts {
  import opened Powers
  import opened Words

  /** Word i of `ws >> k`, for 0 < k < 64: the low bits of the next word over the
      high bits of this one. */
  function ShrWord(ws: seq<word>, i: nat, k: nat): word
    requires i < |ws| && 0 < k < 64
  {
    if i + 1 < |ws| then Or64(Shl64(ws[i + 1], 64 - k), Shr64(ws[i], k)) else Shr64(ws[i], k)
  }

  /** Word i of `ws << k`, for 0 < k < 64; the result is one word longer. */
  function ShlWord(ws: seq<word>, i: nat, k: nat): word
    requires i <= |ws| && 0 < k < 64
  {
    var hi := if i < |ws| then ws[i] else 0;
    var lo := if i > 0 then ws[i - 1] else 0;
    Or64(Shl64(hi, k), Shr64(lo, 64 - k))
  }

  /** Cutting a word in two: the high part that a left shift pushes out and the
      low part it keeps. */
  lemma WordCut(w: word, k: nat)
    requires 0 < k < 64
    ensures Pow2(k) * Pow2(64 - k) == BASE
    ensures w * Pow2(k) == BASE * (w / Pow2(64 - k)) + (w % Pow2(64 - k)) * Pow2(k)
    ensures Shl64(w, k) == (w % Pow2(64 - k)) * Pow2(k)
    ensures w / Pow2(64 - k) < Pow2(k)
  {
    BaseIsPow2();
    Pow2Add(k, 64 - k);
    CutArith(w, Pow2(k), Pow2(64 - k));
  }

  lemma CutArith(w: nat, p: nat, q: nat)
    requires p > 0 && q > 0 && w < p * q
    ensures w * p == (p * q) * (w / q) + (w % q) * p
    ensures (w * p) % (p * q) == (w % q) * p
    ensures w / q < p
  {
    var h, l := w / q, w % q;
    DivLt(w, p, q);
    assert w * p == (h * q) * p + l * p;
    MulAssoc(h, q, p);
    MulMono(p, l + 1, q);
    DivModUnique(w * p, p * q, h, l * p);
  }

  lemma ShrWordVal(ws: seq<word>, i: nat, k: nat)
    requires i < |ws| && 0 < k < 64
    ensures ShrWord(ws, i, k) ==
            (if i + 1 < |ws| then (ws[i + 1] % Pow2(k)) * Pow2(64 - k) else 0) + ws[i] / Pow2(k)
  {
    if i + 1 < |ws| {
      WordCut(ws[i + 1], 64 - k);
      WordCut(ws[i], 64 - k);
      OrDisjoint(ws[i + 1] % Pow2(k), ws[i] / Pow2(k), 64 - k);
    }
  }

  lemma ShlWordVal(ws: seq<word>, i: nat, k: nat)
    requires i <= |ws| && 0 < k < 64
    ensures ShlWord(ws, i, k) ==
            (if i < |ws| then (ws[i] % Pow2(64 - k)) * Pow2(k) else 0)
            + (if i > 0 then ws[i - 1] / Pow2(64 - k) else 0)
  {
    var hi: word := if i < |ws| then ws[i] else 0;
    var lo: word := if i > 0 then ws[i - 1] else 0;
    WordCut(hi, k);
    WordCut(lo, k);
    DivModUnique(0, Pow2(64 - k), 0, 0);
    OrDisjoint(hi % Pow2(64 - k), lo / Pow2(64 - k), k);
  }

  /** A vector of `ShrWord`s is the quotient by 2^k. */
  lemma {:induction false} ShrFrom(ws: seq<word>, rs: seq<word>, k: nat, i: nat)
    requires 0 < k < 64 && |rs| == |ws| && i <= |ws|
    requires forall j :: 0 <= j < |ws| ==> rs[j] == ShrWord(ws, j, k)
    ensures Val(rs[i..]) == Val(ws[i..]) / Pow2(k)
    decreases |ws| - i
  {
    if i == |ws| {
      DivModUnique(0, Pow2(k), 0, 0);
    } else {
      ShrFrom(ws, rs, k, i + 1);
      ShrWordVal(ws, i, k);
      assert rs[i..] == [rs[i]] + rs[i + 1..] && ws[i..] == [ws[i]] + ws[i + 1..];
      ValOne(rs[i], rs[i + 1..]);
      ValOne(ws[i], ws[i + 1..]);
      BaseIsPow2();
      Pow2Add(k, 64 - k);
      var v := Val(ws[i + 1..]);
      var low := if i + 1 < |ws| then ws[i + 1] % Pow2(k) else 0;
      assert v % Pow2(k) == low by {
        if i + 1 < |ws| { LowBits(ws[i + 1..], k); } else { DivModUnique(0, Pow2(k), 0, 0); }
      }
      ShrArith(ws[i], v, Pow2(k), Pow2(64 - k));
    }
  }

  /** The bits of the lowest word below 2^k are those of the number. */
  lemma LowBits(ws: seq<word>, k: nat)
    requires ws != [] && k <= 64
    ensures Val(ws) % Pow2(k) == ws[0] % Pow2(k)
  {
    BaseIsPow2();
    Pow2Add(k, 64 - k);
    LowBitsArith(Val(ws), ws[0], Pow2(k), Pow2(64 - k), Val(ws[1..]));
  }

  lemma LowBitsArith(x: nat, w: nat, p: nat, q: nat, v: nat)
    requires p > 0 && p * q == BASE && x == w + BASE * v
    ensures x % p == w % p
  {
    MulAssoc(p, q, v);
    DivModAddMul(w, q * v, p);
  }

  lemma ShrArith(w: nat, v: nat, p: nat, q: nat)
    requires p > 0 && q > 0 && p * q == BASE
    ensures (w + BASE * v) / p == w / p + (v % p) * q + BASE * (v / p)
  {
    MulAssoc(q, v, p);
    assert (q * v) * p == BASE * v by { MulAssoc(p, q, v); }
    DivModAddMul(w, q * v, p);
    var h, l := v / p, v % p;
    assert v == h * p + l;
    assert q * v == q * (h * p) + q * l;
    MulAssoc(q, p, h);
  }

  /** A vector of `ShlWord`s is the product with 2^k. */
  lemma {:induction false} ShlFrom(ws: seq<word>, rs: seq<word>, k: nat, i: nat)
    requires 0 < k < 64 && |rs| == |ws| + 1 && i <= |ws|
    requires forall j :: 0 <= j <= |ws| ==> rs[j] == ShlWord(ws, j, k)
    ensures Val(rs[i..]) == Val(ws[i..]) * Pow2(k) + if i > 0 then ws[i - 1] / Pow2(64 - k) else 0
    decreases |ws| - i
  {
    ShlWordVal(ws, i, k);
    assert rs[i..] == [rs[i]] + rs[i + 1..];
    ValOne(rs[i], rs[i + 1..]);
    if i < |ws| {
      ShlFrom(ws, rs, k, i + 1);
      assert ws[i..] == [ws[i]] + ws[i + 1..];
      ValOne(ws[i], ws[i + 1..]);
      WordCut(ws[i], k);
      ShlArith(ws[i], Val(ws[i + 1..]), Pow2(k));
    }
  }

  lemma ShlArith(w: nat, v: nat, p: nat)
    ensures (w + BASE * v) * p == w * p + BASE * (v * p)
  {
    MulAssoc(BASE, v, p);
  }

  /** Dropping the n lowest words divides by their weight. */
  lemma DropWords(ws: seq<word>, n: nat)
    requires n <= |ws|
    ensures Val(ws[n..]) == Val(ws) / Weight(n) && Val(ws[..n]) == Val(ws) % Weight(n)
  {
    ValSplit(ws, n);
    ValBound(ws[..n]);
    DivModUnique(Val(ws), Weight(n), Val(ws[n..]), Val(ws[..n]));
  }

  lemma ShiftSplit(n: nat, k: nat)
    ensures Pow2(64 * n + k) == Weight(n) * Pow2(k)
  {
    WeightIsPow2(n);
    Pow2Add(64 * n, k);
  }
}
