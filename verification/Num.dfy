/** The arbitrary-precision integer: a vector of words and a sign flag, and the
    operations that update it in place. */
module NumCore {
  import opened Powers
  import opened Words
  import opened Shifts
  import opened Bits

  function Abs(x: int): nat { if x < 0 then -x else x }

  function Signed(neg: bool, mag: nat): int { if neg then 0 - mag else mag }

  function Sign(x: int): int { if x < 0 then -1 else if x > 0 then 1 else 0 }

  class Num {
    var words: seq<word>
    var neg: bool

    ghost function Mag(): nat
      reads `words
    {
      Val(words)
    }

    ghost function Value(): int
      reads this
    {
      Signed(neg, Val(words))
    }

    ghost predicate Valid()
      reads `words
    {
      Canonical(words)
    }

    constructor ()
      ensures words == [] && !neg
    {
      words, neg := [], false;
    }

    constructor Filled(n: nat, w: word, neg: bool)
      ensures words == seq(n, _ => w) && this.neg == neg
    {
      this.words := seq(n, _ => w);
      this.neg := neg;
    }

    constructor Copy(a: Num)
      ensures words == a.words && neg == a.neg
    {
      words, neg := a.words, a.neg;
    }

    method Truncate()
      modifies `words
      ensures Valid() && Mag() == old(Mag())
      ensures words <= old(words)
    {
      while |words| > 0 && words[|words| - 1] == 0
        invariant words <= old(words) && Val(words) == old(Val(words))
      {
        var n := |words| - 1;
        assert words == words[..n] + [words[n]];
        ValLast(words[..n], words[n]);
        AtSum(0, 0, n);
        words := words[..n];
      }
    }

    static method CmpAbs(a: Num, b: Num) returns (c: int)
      requires a.Valid() && b.Valid()
      ensures c == Sign(a.Mag() - b.Mag())
    {
      var na, nb := |a.words|, |b.words|;
      if na != nb {
        if na < nb { SizeOrder(a.words, b.words); } else { SizeOrder(b.words, a.words); }
        return if na < nb then -1 else 1;
      }
      var i := na;
      while i > 0
        invariant 0 <= i <= na
        invariant a.words[i..] == b.words[i..]
      {
        i := i - 1;
        var wa, wb := a.words[i], b.words[i];
        if wa != wb {
          if wa < wb { WordOrder(a.words, b.words, i); } else { WordOrder(b.words, a.words, i); }
          return if wa < wb then -1 else 1;
        }
        assert a.words[i..] == [wa] + a.words[i + 1..] && b.words[i..] == [wb] + b.words[i + 1..];
      }
      assert a.words[0..] == a.words && b.words[0..] == b.words;
      return 0;
    }

    static method Cmp(a: Num, b: Num) returns (c: int)
      requires a.Valid() && b.Valid()
      ensures c == Sign(a.Value() - b.Value())
    {
      CanonicalZero(a.words);
      CanonicalZero(b.words);
      if |a.words| == 0 && |b.words| == 0 { return 0; }
      c := CmpAbs(a, b);
      if !a.neg && !b.neg { return c; }
      if a.neg && b.neg { return -c; }
      return if a.neg && !b.neg then -1 else 1;
    }

    /** a += b on magnitudes, a word at a time with a running carry. */
    static method AddUnsignedOverwrite(a: Num, b: Num)
      requires a != b
      modifies a`words
      ensures a.Valid() && a.Mag() == old(a.Mag()) + b.Mag()
    {
      hide At, Val, Weight, AddCarry;
      assert b.words[0..] == b.words;
      AtZero(b.Mag(), |b.words|);
      var na, nb := |a.words|, |b.words|;
      var n := if na < nb then nb else na;
      ValResizeUp(a.words, n);
      a.words := Resize(a.words, n);
      var carry: word := 0;
      var i := 0;
      while i < nb
        invariant i <= nb && |a.words| == n
        invariant a.Mag() + At(carry, i) + At(Val(b.words[i..]), i) == old(a.Mag()) + b.Mag()
      {
        var (w1, c1) := AddCarry(a.words[i], carry);
        var (w2, c2) := AddCarry(w1, b.words[i]);
        AddStep(a.words, b.words, i, carry, w1, w2, c1, c2);
        a.words := a.words[i := w2];
        carry := c1 + c2;
        i := i + 1;
      }
      assert b.words[nb..] == [];
      while i < n && carry != 0
        invariant nb <= i <= n && |a.words| == n
        invariant a.Mag() + At(carry, i) == old(a.Mag()) + b.Mag()
        invariant i < nb ==> carry == 0
      {
        var (w, c) := AddCarry(a.words[i], carry);
        CarryStep(a.words, i, carry, w, c);
        a.words := a.words[i := w];
        carry := c;
        i := i + 1;
      }
      AtZero(0, i);
      if carry != 0 {
        ValLast(a.words, carry);
        a.words := a.words + [carry];
      }
      a.Truncate();
    }

    /** a -= b on magnitudes; the caller promises that a is not the smaller. */
    static method SubUnsignedOverwrite(a: Num, b: Num)
      requires a != b && a.Valid() && b.Valid() && a.Mag() >= b.Mag()
      modifies a`words
      ensures a.Valid() && a.Mag() == old(a.Mag()) - b.Mag()
    {
      hide At, Val, Weight, SubCarry;
      assert b.words[0..] == b.words;
      AtZero(b.Mag(), |b.words|);
      var na, nb := |a.words|, |b.words|;
      if nb > na { SizeOrder(a.words, b.words); }
      var carry: word := 0;
      var i := 0;
      while i < nb
        invariant i <= nb && |a.words| == na
        invariant a.Mag() - At(carry, i) - At(Val(b.words[i..]), i) == old(a.Mag()) - b.Mag()
      {
        var (w1, c1) := SubCarry(a.words[i], carry);
        var (w2, c2) := SubCarry(w1, b.words[i]);
        SubStep(a.words, b.words, i, carry, w1, w2, c1, c2);
        a.words := a.words[i := w2];
        carry := c1 + c2;
        i := i + 1;
      }
      assert b.words[nb..] == [];
      while i < na && carry != 0
        invariant nb <= i <= na && |a.words| == na
        invariant a.Mag() - At(carry, i) == old(a.Mag()) - b.Mag()
      {
        var (w, c) := SubCarry(a.words[i], carry);
        BorrowStep(a.words, i, carry, w, c);
        a.words := a.words[i := w];
        carry := c;
        i := i + 1;
      }
      AtZero(0, i);
      NoBorrowLeft(a.words, carry, i);
      a.Truncate();
    }

    /** The whole-word loop of `>>=`. */
    method MoveDown(n: nat)
      requires n < |words|
      modifies `words
      ensures |words| == old(|words|)
      ensures forall j :: 0 <= j < |words| - n ==> words[j] == old(words)[n..][j]
    {
      ghost var ws := words;
      for i := 0 to |words| - n
        invariant |words| == |ws|
        invariant forall j :: i <= j < |ws| ==> words[j] == ws[j]
        invariant forall j :: 0 <= j < i ==> words[j] == ws[n..][j]
      {
        words := words[i := words[i + n]];
      }
    }

    /** The loop of `>>=` that joins the bits of neighbouring words. */
    method MoveDownBits(n: nat, k: nat)
      requires n < |words| && 0 < k < 64
      modifies `words
      ensures |words| == old(|words|)
      ensures forall j :: 0 <= j < |words| - n ==> words[j] == ShrWord(old(words)[n..], j, k)
    {
      hide Or64, Shl64, Shr64, ShrWord;
      ghost var ws := words;
      ghost var up := ws[n..];
      var last := |words| - n - 1;
      var lo := words[n];
      for i := 0 to last
        invariant |words| == |ws| && lo == ws[i + n]
        invariant forall j :: i <= j < |ws| ==> words[j] == ws[j]
        invariant forall j :: 0 <= j < i ==> words[j] == ShrWord(up, j, k)
      {
        var hi := words[i + n + 1];
        ShrWordParts(up, i, k, hi, lo);
        words := words[i := Or64(Shl64(hi, 64 - k), Shr64(lo, k))];
        lo := hi;
      }
      ShrWordParts(up, last, k, 0, lo);
      words := words[last := Shr64(lo, k)];
    }

    method ShiftRight(nBits: nat)
      requires Valid()
      modifies `words
      ensures Valid() && Mag() == old(Mag()) / Pow2(nBits)
    {
      assert Pow2(0) == 1;
      hide Val, Pow2, ShrWord;
      ghost var ws := words;
      if nBits == 0 { return; }
      var nWords := nBits / 64;
      var k := nBits % 64;
      if nWords >= |words| {
        ShiftOut(words, nWords, k);
        ShiftSplit(nWords, k);
        ValSmall(0);
        words := [];
        return;
      }
      if k == 0 { MoveDown(nWords); } else { MoveDownBits(nWords, k); }
      words := words[..|words| - nWords];
      ShrWhole(ws, words, nBits);
      Truncate();
    }

    /** The whole-word loop of `<<=`, on a vector already resized. */
    method MoveUp(n: nat)
      requires n <= |words|
      modifies `words
      ensures |words| == old(|words|)
      ensures forall j :: n <= j < |words| ==> words[j] == old(words)[j - n]
    {
      ghost var ws := words;
      var i := |words|;
      while i > n
        invariant n <= i <= |ws| == |words|
        invariant forall j :: 0 <= j < i ==> words[j] == ws[j]
        invariant forall j :: i <= j < |ws| ==> words[j] == ws[j - n]
      {
        i := i - 1;
        words := words[i := words[i - n]];
      }
    }

    /** The loop of `<<=` that joins the bits of neighbouring words; `ws` is the
        vector before it was resized by n words and one more. */
    method MoveUpBits(n: nat, k: nat, ghost ws: seq<word>)
      requires 0 < k < 64 && words == Resize(ws, |ws| + n + 1)
      modifies `words
      ensures |words| == |ws| + n + 1
      ensures forall j :: n <= j < |words| ==> words[j] == ShlWord(ws, j - n, k)
    {
      ShlBottom(ws, k);
      hide Or64, Shl64, Shr64, ShlWord;
      var hi: word := 0;
      var i := |words| - 1;
      while i > n
        invariant n <= i <= |ws| + n && |words| == |ws| + n + 1
        invariant hi == if i == |ws| + n then 0 else ws[i - n]
        invariant forall j :: 0 <= j < i && j < |ws| ==> words[j] == ws[j]
        invariant forall j :: i < j < |words| ==> words[j] == ShlWord(ws, j - n, k)
      {
        var lo := words[i - n - 1];
        ShlWordParts(ws, i - n, k, hi, lo);
        words := words[i := Or64(Shl64(hi, k), Shr64(lo, 64 - k))];
        hi := lo;
        i := i - 1;
      }
      words := words[n := Shl64(hi, k)];
    }

    method ShiftLeft(nBits: nat)
      requires Valid()
      modifies `words
      ensures Valid() && Mag() == old(Mag()) * Pow2(nBits)
    {
      assert Pow2(0) == 1;
      hide Val, Pow2, ShlWord;
      ghost var ws := words;
      if nBits == 0 { return; }
      var nWords := nBits / 64;
      var k := nBits % 64;
      words := Resize(words, |words| + nWords + if k != 0 then 1 else 0);
      if k == 0 { MoveUp(nWords); } else { MoveUpBits(nWords, k, ws); }
      ghost var shifted := words;
      for i := 0 to nWords
        invariant |words| == |shifted|
        invariant forall j :: nWords <= j < |words| ==> words[j] == shifted[j]
        invariant forall j :: 0 <= j < i ==> words[j] == 0
      {
        words := words[i := 0];
      }
      ShlWhole(ws, words, nBits);
      Truncate();
    }

    static method WordBitLength(a: word) returns (r: nat)
      ensures r <= 64 && IsBitLength(a, r)
    {
      BaseIsPow2();
      var i := 63;
      while i >= 0
        invariant -1 <= i <= 63 && a < Pow2(i + 1)
      {
        TopBit(a, i);
        if And(Shr64(a, i), 1) != 0 { return i + 1; }
        i := i - 1;
      }
      return 0;
    }

    static method WordCountTrailingZeros(a: word) returns (r: nat)
      ensures r <= 64 && a % Pow2(r) == 0 && (a != 0 ==> r < 64 && Bit(a, r) == 1)
    {
      BaseIsPow2();
      var i := 0;
      while i < 64
        invariant 0 <= i <= 64 && a % Pow2(i) == 0
      {
        BitStep(a, i);
        AndMask(Shr64(a, i), 1);
        if And(Shr64(a, i), 1) != 0 { return i; }
        i := i + 1;
      }
      return 64;
    }

    method BitLength() returns (r: nat)
      requires Valid()
      ensures IsBitLength(Mag(), r)
    {
      if |words| == 0 { return 0; }
      var last := |words| - 1;
      r := WordBitLength(words[last]);
      BitLengthOfTop(words, r);
      r := r + last * 64;
    }

    method CountTrailingZeros() returns (r: nat)
      ensures if Mag() == 0 then r == 0 else IsLowestBit(Mag(), r)
    {
      for i := 0 to |words|
        invariant forall j :: 0 <= j < i ==> words[j] == 0
      {
        var w := words[i];
        if w != 0 {
          r := WordCountTrailingZeros(w);
          LowestBitOfWord(words, i, r);
          r := r + i * 64;
          LowestBitPositive(Mag(), r);
          return;
        }
      }
      ValZeros(words);
      return 0;
    }

    method SetBit(i: nat)
      requires Valid()
      modifies `words
      ensures Valid() && Mag() == old(Mag()) + if old(Bit(Mag(), i)) == 0 then Pow2(i) else 0
    {
      var iWord, iBit := i / 64, i % 64;
      if |words| <= iWord {
        ValResizeUp(words, iWord + 1);
        words := Resize(words, iWord + 1);
      }
      SetBitVal(words, i);
      Pow2BelowBase(iBit);
      OrKeepsNonzero(words[iWord], Shl64(1, iBit));
      words := words[iWord := Or64(words[iWord], Shl64(1, iBit))];
    }

    method GetBit(i: nat) returns (b: word)
      ensures b == Bit(Mag(), i)
    {
      var iWord, iBit := i / 64, i % 64;
      BitOfWord(words, i);
      if iWord >= |words| { return 0; }
      AndMask(Shr64(words[iWord], iBit), 1);
      b := And(Shr64(words[iWord], iBit), 1);
    }
  }

  lemma TopBit(a: word, i: nat)
    requires i < 64 && a < Pow2(i + 1)
    ensures And(Shr64(a, i), 1) == if a < Pow2(i) then 0 else 1
  {
    AndMask(Shr64(a, i), 1);
    var p := Pow2(i);
    assert Pow2(i + 1) == 2 * p;
    if a < p { DivModUnique(a, p, 0, a); } else { DivModUnique(a, p, 1, a - p); }
  }

  lemma LowestBitPositive(v: nat, r: nat)
    requires IsLowestBit(v, r)
    ensures v > 0
  {
    if v == 0 { DivModUnique(0, Pow2(r), 0, 0); }
  }

  /** The words a right shift leaves, put together. */
  lemma ShrWhole(ws: seq<word>, rs: seq<word>, nBits: nat)
    requires var n, k := nBits / 64, nBits % 64;
      && |rs| + n == |ws|
      && (forall j :: 0 <= j < |rs| ==> rs[j] == if k == 0 then ws[n..][j] else ShrWord(ws[n..], j, k))
    ensures Val(rs) == Val(ws) / Pow2(nBits)
  {
    hide *;
    var n, k := nBits / 64, nBits % 64;
    assert nBits == 64 * n + k;
    ShiftSplit(n, k);
    DropWords(ws, n);
    DivDiv(Val(ws), Weight(n), Pow2(k));
    ShrTop(ws[n..], rs, k);
  }

  lemma ShrTop(ws: seq<word>, rs: seq<word>, k: nat)
    requires k < 64 && |rs| == |ws|
    requires forall j :: 0 <= j < |rs| ==> rs[j] == if k == 0 then ws[j] else ShrWord(ws, j, k)
    ensures Val(rs) == Val(ws) / Pow2(k)
  {
    if k == 0 {
      assert rs == ws;
      assert Pow2(0) == 1;
    } else {
      ShrFrom(ws, rs, k, 0);
      assert ws[0..] == ws && rs[0..] == rs;
    }
  }

  lemma ShrWordParts(ws: seq<word>, i: nat, k: nat, hi: word, lo: word)
    requires i < |ws| && 0 < k < 64 && lo == ws[i]
    requires i + 1 < |ws| ==> hi == ws[i + 1]
    ensures ShrWord(ws, i, k) == if i + 1 < |ws| then Or64(Shl64(hi, 64 - k), Shr64(lo, k)) else Shr64(lo, k)
  {
  }

  lemma ShlWordParts(ws: seq<word>, i: nat, k: nat, hi: word, lo: word)
    requires 0 < i <= |ws| && 0 < k < 64 && lo == ws[i - 1]
    requires hi == if i < |ws| then ws[i] else 0
    ensures ShlWord(ws, i, k) == Or64(Shl64(hi, k), Shr64(lo, 64 - k))
  {
  }

  /** The words a left shift leaves, put together. */
  lemma ShlWhole(ws: seq<word>, rs: seq<word>, nBits: nat)
    requires var n, k := nBits / 64, nBits % 64;
      && |rs| == |ws| + n + (if k != 0 then 1 else 0)
      && (forall j :: 0 <= j < n ==> rs[j] == 0)
      && (forall j :: n <= j < |rs| ==> rs[j] == if k == 0 then ws[j - n] else ShlWord(ws, j - n, k))
    ensures Val(rs) == Val(ws) * Pow2(nBits)
  {
    hide *;
    var n, k := nBits / 64, nBits % 64;
    ShiftSplit(n, k);
    ValSplit(rs, n);
    ValZeros(rs[..n]);
    ShlTop(ws, rs[n..], k);
    assert nBits == 64 * n + k;
    ShiftLeftArith(Val(rs[n..]), n, Val(ws), Pow2(k), Pow2(nBits));
  }

  lemma ShlTop(ws: seq<word>, top: seq<word>, k: nat)
    requires k < 64 && |top| == |ws| + if k != 0 then 1 else 0
    requires forall j :: 0 <= j < |top| ==> top[j] == if k == 0 then ws[j] else ShlWord(ws, j, k)
    ensures Val(top) == Val(ws) * Pow2(k)
  {
    if k == 0 {
      assert top == ws;
      assert Pow2(0) == 1;
    } else {
      ShlFrom(ws, top, k, 0);
      assert ws[0..] == ws && top[0..] == top;
    }
  }

  lemma ShiftLeftArith(t: nat, n: nat, v: nat, p: nat, q: nat)
    requires t == v * p && q == Weight(n) * p
    ensures At(t, n) == v * q
  {
    MulAssoc(v, p, Weight(n));
    MulComm(p, Weight(n));
  }

  lemma ShlBottom(ws: seq<word>, k: nat)
    requires 0 < k < 64
    ensures ShlWord(ws, 0, k) == Shl64(if ws == [] then 0 else ws[0], k)
  {
    DivModUnique(0, Pow2(64 - k), 0, 0);
  }

  lemma SizeOrder(a: seq<word>, b: seq<word>)
    requires Canonical(a) && Canonical(b) && |a| < |b|
    ensures Val(a) < Val(b)
  {
    ValBound(a);
    CanonicalBound(b);
    WeightMono(|a|, |b| - 1);
  }

  lemma WordOrder(a: seq<word>, b: seq<word>, i: nat)
    requires i < |a| == |b| && a[i] < b[i] && a[i + 1..] == b[i + 1..]
    ensures Val(a) < Val(b)
  {
    ValSplit(a, i);
    ValSplit(b, i);
    ValTail(a, i);
    ValTail(b, i);
    ValBound(a[..i]);
    WordOrderArith(i, a[i], b[i], Val(a[..i]));
  }

  lemma WordOrderArith(i: nat, x: nat, y: nat, low: nat)
    requires x < y && low < Weight(i)
    ensures low + At(x, i) < At(y, i)
  {
    MulMono(Weight(i), x + 1, y);
  }

  /** Nothing is left at the end of a vector, and word 0 has weight 1. */
  lemma AtZero(v: int, i: nat)
    ensures At(v, 0) == v && At(0, i) == 0 && At(0, 0) == 0 && Val([]) == 0
  {
    AtSum(0, 0, i);
  }

  lemma AddStep(a: seq<word>, b: seq<word>, i: nat, carry: word, w1: word, w2: word, c1: word, c2: word)
    requires i < |a| && i < |b|
    requires (w1, c1) == AddCarry(a[i], carry) && (w2, c2) == AddCarry(w1, b[i])
    ensures c1 + c2 < BASE
    ensures Val(a[i := w2]) + At(c1 + c2, i + 1) + At(Val(b[i + 1..]), i + 1)
         == Val(a) + At(carry, i) + At(Val(b[i..]), i)
  {
    hide At, Val;
    ValSet(a, i, w2);
    ValTail(b, i);
    AtStep(a[i], b[i], carry, w2, c1 + c2, i);
  }

  lemma CarryStep(a: seq<word>, i: nat, carry: word, w: word, c: word)
    requires i < |a| && (w, c) == AddCarry(a[i], carry)
    ensures Val(a[i := w]) + At(c, i + 1) == Val(a) + At(carry, i)
  {
    hide At, Val;
    ValSet(a, i, w);
    AtStep(a[i], 0, carry, w, c, i);
    AtSum(0, 0, i);
  }

  lemma SubStep(a: seq<word>, b: seq<word>, i: nat, carry: word, w1: word, w2: word, c1: word, c2: word)
    requires i < |a| && i < |b|
    requires (w1, c1) == SubCarry(a[i], carry) && (w2, c2) == SubCarry(w1, b[i])
    ensures c1 + c2 < BASE
    ensures Val(a[i := w2]) - At(c1 + c2, i + 1) - At(Val(b[i + 1..]), i + 1)
         == Val(a) - At(carry, i) - At(Val(b[i..]), i)
  {
    hide At, Val;
    ValSet(a, i, w2);
    ValTail(b, i);
    AtStep(b[i], w2, carry, a[i], c1 + c2, i);
  }

  lemma BorrowStep(a: seq<word>, i: nat, carry: word, w: word, c: word)
    requires i < |a| && (w, c) == SubCarry(a[i], carry)
    ensures Val(a[i := w]) - At(c, i + 1) == Val(a) - At(carry, i)
  {
    hide At, Val;
    ValSet(a, i, w);
    AtStep(w, 0, carry, a[i], c, i);
    AtSum(0, 0, i);
  }

  /** A borrow out of the top word would make the difference negative. */
  lemma NoBorrowLeft(a: seq<word>, carry: word, i: nat)
    requires i <= |a| && (i < |a| ==> carry == 0)
    requires Val(a) - At(carry, i) >= 0
    ensures At(carry, i) == 0
  {
    AtSum(0, 0, i);
    if i == |a| && carry > 0 {
      ValBound(a);
      MulMono(Weight(i), 1, carry);
      assert false;
    }
  }
}
