/** Single bits of a number and where they sit in its words. */
module Bits {
  import opened Powers
  import opened Words
  import opened Shifts

  /** Bit i of v. */
  function Bit(v: nat, i: nat): (b: nat)
    ensures b <= 1
  {
    DivLe(v, Pow2(i));
    (v / Pow2(i)) % 2
  }

  /** r is the number of bits of v: one more than the position of the highest
      one bit, and 0 for 0. */
  predicate IsBitLength(v: nat, r: nat) {
    v < Pow2(r) && (r > 0 ==> Pow2(r - 1) <= v)
  }

  /** r is the position of the lowest one bit of v. */
  predicate IsLowestBit(v: nat, r: nat) {
    v % Pow2(r) == 0 && Bit(v, r) == 1
  }

  /** The number of bits of v. */
  function BitLengthOf(v: nat): (r: nat)
    ensures IsBitLength(v, r)
  {
    if v == 0 then 0 else 1 + BitLengthOf(v / 2)
  }

  lemma BitStep(v: nat, i: nat)
    ensures v % Pow2(i + 1) == Bit(v, i) * Pow2(i) + v % Pow2(i)
  {
    DivDiv(v, Pow2(i), 2);
  }

  /** Bit i of the number is a bit of word i / 64. */
  lemma BitOfWord(ws: seq<word>, i: nat)
    ensures Bit(Val(ws), i) == if i / 64 < |ws| then Bit(ws[i / 64], i % 64) else 0
  {
    var n, k := i / 64, i % 64;
    assert i == 64 * n + k;
    ShiftSplit(n, k);
    if n < |ws| {
      BitInside(ws, n, k);
    } else {
      ShiftOut(ws, n, k);
    }
  }

  lemma BitInside(ws: seq<word>, n: nat, k: nat)
    requires n < |ws| && k < 64
    ensures Val(ws) / (Weight(n) * Pow2(k)) % 2 == ws[n] / Pow2(k) % 2
  {
    hide Val, Weight, Pow2;
    DropWords(ws, n);
    DivDiv(Val(ws), Weight(n), Pow2(k));
    assert ws[n..] == [ws[n]] + ws[n + 1..];
    ValOne(ws[n], ws[n + 1..]);
    BitOfFirst(ws[n], Val(ws[n + 1..]), k);
  }

  lemma BitOfFirst(w: nat, v: nat, k: nat)
    requires k < 64
    ensures (w + BASE * v) / Pow2(k) % 2 == w / Pow2(k) % 2
  {
    BaseIsPow2();
    Pow2Add(k, 64 - k);
    BitArith(w, v, Pow2(k), Pow2(63 - k));
  }

  lemma BitArith(w: nat, v: nat, p: nat, h: nat)
    requires p > 0 && p * (2 * h) == BASE
    ensures ((w + BASE * v) / p) % 2 == (w / p) % 2
  {
    MulAssoc(p, 2 * h, v);
    MulAssoc(2, h, v);
    DivModAddMul(w, 2 * (h * v), p);
    DivModAddMul(w / p, h * v, 2);
  }

  lemma ShiftOut(ws: seq<word>, n: nat, k: nat)
    requires |ws| <= n
    ensures Val(ws) / (Weight(n) * Pow2(k)) == 0
  {
    ValBound(ws);
    WeightMono(|ws|, n);
    MulMono(Weight(n), 1, Pow2(k));
    DivModUnique(Val(ws), Weight(n) * Pow2(k), 0, Val(ws));
  }

  lemma Pow2BelowBase(k: nat)
    requires k < 64
    ensures Pow2(k) < BASE
    ensures Shl64(1, k) == Pow2(k)
  {
    BaseIsPow2();
    Pow2Mono(k, 63);
    assert Pow2(64) == 2 * Pow2(63);
  }

  /** ORing the bit 1 << (i % 64) into word i / 64 adds 2^i exactly when that bit
      was clear. */
  lemma SetBitVal(ws: seq<word>, i: nat)
    requires i / 64 < |ws|
    ensures var n, k := i / 64, i % 64;
      Val(ws[n := Or64(ws[n], Shl64(1, k))]) ==
      Val(ws) + if Bit(Val(ws), i) == 0 then Pow2(i) else 0
  {
    var n, k := i / 64, i % 64;
    BitOfWord(ws, i);
    Pow2BelowBase(k);
    OrBit(ws[n], k);
    ValSet(ws, n, Or64(ws[n], Shl64(1, k)));
    ShiftSplit(n, k);
    SetBitArith(ws[n], k, n);
  }

  lemma SetBitArith(w: nat, k: nat, n: nat)
    ensures At(w + Pow2(k), n) - At(w, n) == Weight(n) * Pow2(k)
  {
    AtSum(w, Pow2(k), n);
    MulComm(Weight(n), Pow2(k));
  }

  lemma OrKeepsNonzero(a: nat, b: nat)
    requires b > 0
    ensures Or(a, b) > 0
  {
  }

  /** The length in bits of a whole vector from that of its top word. */
  lemma BitLengthOfTop(ws: seq<word>, b: nat)
    requires ws != [] && ws[|ws| - 1] != 0 && IsBitLength(ws[|ws| - 1], b)
    ensures IsBitLength(Val(ws), b + 64 * (|ws| - 1))
  {
    hide Val, Weight, At;
    var n := |ws| - 1;
    var w := ws[n];
    assert ws == ws[..n] + [w];
    ValLast(ws[..n], w);
    ValBound(ws[..n]);
    ShiftSplit(n, b);
    ShiftSplit(n, b - 1);
    TopArith(Val(ws[..n]), w, n, Pow2(b), Pow2(b - 1));
  }

  lemma TopArith(lo: nat, w: nat, n: nat, hi: nat, h: nat)
    requires lo < Weight(n) && h <= w < hi
    ensures Weight(n) * h <= lo + At(w, n) < Weight(n) * hi
  {
    MulMono(Weight(n), w + 1, hi);
    MulMono(Weight(n), h, w);
  }

  lemma BitLengthUnique(v: nat, r: nat, s: nat)
    requires IsBitLength(v, r) && IsBitLength(v, s)
    ensures r == s
  {
    if r < s { Pow2Mono(r, s - 1); }
    if s < r { Pow2Mono(s, r - 1); }
  }

  /** The lowest one bit of a vector whose n lowest words are zero. */
  lemma LowestBitOfWord(ws: seq<word>, n: nat, b: nat)
    requires n < |ws| && b < 64 && (forall j :: 0 <= j < n ==> ws[j] == 0)
    requires IsLowestBit(ws[n], b)
    ensures IsLowestBit(Val(ws), b + 64 * n)
  {
    BitOfWord(ws, b + 64 * n);
    ValZeros(ws[..n]);
    DropWords(ws, n);
    LowBits(ws[n..], b);
    DivDiv(Val(ws), Weight(n), Pow2(b));
    ShiftSplit(n, b);
  }
}
