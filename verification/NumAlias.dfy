/** The in-place sum when both operands are the same object: the running carry is added
    to a word before the word is added to itself. */
module NumAlias {
  import opened Words
  import opened NumCore

  const HALF: nat := 0x8000_0000_0000_0000

  /** The words that the loop leaves, from an incoming carry on. */
  function SelfSum(ws: seq<word>, carry: word): seq<word> {
    if ws == [] then if carry != 0 then [carry] else []
    else
      var (w1, c1) := AddCarry(ws[0], carry);
      var (w2, c2) := AddCarry(w1, w1);
      [w2] + SelfSum(ws[1..], c1 + c2)
  }

  /** No word but the last has its highest bit set. */
  predicate AllLow(ws: seq<word>) { forall j :: 0 <= j < |ws| - 1 ==> ws[j] < HALF }

  lemma NoneIsLow()
    ensures AllLow([])
  {
  }

  lemma AllLowRest(ws: seq<word>)
    requires ws != []
    ensures AllLow(ws) <==> AllLow(ws[1..]) && (ws[1..] != [] ==> ws[0] < HALF)
  {
    assert forall j :: 0 <= j < |ws| - 1 ==> ws[j + 1] == ws[1..][j];
    if AllLow(ws[1..]) && (ws[1..] != [] ==> ws[0] < HALF) {
      forall j | 0 <= j < |ws| - 1 ensures ws[j] < HALF {
        if j > 0 { assert ws[j] == ws[1..][j - 1]; }
      }
    }
  }

  /** `add_unsigned_overwrite` of a number and itself: the number is doubled exactly when
      no word below the top one has its highest bit set. */
  method AddToItself(a: Num)
    modifies a`words
    ensures a.Valid() && a.Mag() == Val(SelfSum(old(a.words), 0))
    ensures a.Mag() == 2 * old(a.Mag()) <==> AllLow(old(a.words))
  {
    hide Val, AddCarry, SelfSum;
    SelfSumDoubles(a.words);
    var n := |a.words|;
    ghost var before := a.words;
    var carry: word := 0;
    var i := 0;
    assert before[0..] == before;
    while i < n
      invariant i <= n && |a.words| == n && a.words[i..] == before[i..]
      invariant a.words[..i] + SelfSum(before[i..], carry) == SelfSum(before, 0)
    {
      ghost var done, carried := a.words[..i], carry;
      assert a.words[i] == a.words[i..][0] == before[i];
      var (w1, c1) := AddCarry(a.words[i], carry);
      a.words := a.words[i := w1];
      var (w2, c2) := AddCarry(a.words[i], a.words[i]);
      a.words := a.words[i := w2];
      carry := c1 + c2;
      SelfSumStep(done, before, i, carried);
      assert a.words[..i + 1] == done + [w2];
      i := i + 1;
    }
    assert a.words[..n] == a.words;
    SelfSumEnd(carry);
    assert before[n..] == [];
    if carry != 0 { a.words := a.words + [carry]; }
    assert a.words == SelfSum(before, 0);
    a.Truncate();
  }

  lemma SelfSumStep(done: seq<word>, ws: seq<word>, i: nat, carry: word)
    requires i < |ws|
    ensures var (w1, c1) := AddCarry(ws[i], carry); var (w2, c2) := AddCarry(w1, w1);
      done + SelfSum(ws[i..], carry) == done + [w2] + SelfSum(ws[i + 1..], c1 + c2)
  {
    hide AddCarry;
    assert ws[i..][1..] == ws[i + 1..];
  }

  lemma SelfSumEnd(carry: word)
    ensures SelfSum([], carry) == if carry != 0 then [carry] else []
  {
  }

  /** After a carry the lowest word comes out even, where the double plus one is odd. */
  lemma {:induction false} SelfSumDoubles(ws: seq<word>)
    ensures Val(SelfSum(ws, 0)) == 2 * Val(ws) <==> AllLow(ws)
    decreases |ws|
  {
    if ws == [] {
      ValSmall(0);
    } else {
      hide Val, SelfSum, AddCarry, AllLow;
      AllLowRest(ws);
      NoneIsLow();
      var rest := ws[1..];
      var (w, c) := AddCarry(ws[0], ws[0]);
      HighestBit(ws[0]);
      SelfSumHead(ws);
      if c == 0 {
        SelfSumDoubles(rest);
      } else if rest != [] {
        EvenAfterCarry(rest);
      } else {
        SelfSumEnd(c);
        ValSmall(1);
      }
    }
  }

  /** Whether the sum is exact is decided behind the first word. */
  lemma SelfSumHead(ws: seq<word>)
    requires ws != []
    ensures var c := AddCarry(ws[0], ws[0]).1;
      Val(SelfSum(ws, 0)) == 2 * Val(ws) <==> Val(SelfSum(ws[1..], c)) == 2 * Val(ws[1..]) + c
  {
    hide Val, AddCarry;
    var (w, c) := AddCarry(ws[0], ws[0]);
    SelfSumFirst(ws);
    assert ws == [ws[0]] + ws[1..];
    ValOne(w, SelfSum(ws[1..], c));
    ValOne(ws[0], ws[1..]);
    HeadArith(ws[0], w, c, Val(ws[1..]), Val(SelfSum(ws[1..], c)));
  }

  lemma SelfSumFirst(ws: seq<word>)
    requires ws != []
    ensures var (w, c) := AddCarry(ws[0], ws[0]); SelfSum(ws, 0) == [w] + SelfSum(ws[1..], c)
  {
    hide AddCarry;
    NoCarryIn(ws[0]);
    HighestBit(ws[0]);
  }

  lemma NoCarryIn(x: word)
    ensures AddCarry(x, 0) == (x, 0)
  {
  }

  lemma HighestBit(x: word)
    ensures AddCarry(x, x).1 == if x < HALF then 0 else 1
  {
    hide Add64;
  }

  lemma HeadArith(x: nat, w: nat, c: nat, v: nat, sum: nat)
    requires w + c * BASE == x + x
    ensures w + BASE * sum == 2 * (x + BASE * v) <==> sum == 2 * v + c
  {
  }

  lemma EvenAfterCarry(ws: seq<word>)
    requires ws != []
    ensures Val(SelfSum(ws, 1)) != 2 * Val(ws) + 1
  {
    var (w1, c1) := AddCarry(ws[0], 1);
    var (w2, c2) := AddCarry(w1, w1);
    ValOne(w2, SelfSum(ws[1..], c1 + c2));
  }

  /** The concrete case: two words, the lower one with its highest bit set. */
  lemma CarryIsDoubled()
    ensures var words: seq<word> := [HALF, 1]; Val(SelfSum(words, 0)) == 4 * BASE && 2 * Val(words) == 3 * BASE
  {
    var words: seq<word> := [HALF, 1];
    assert words == [HALF] + [1] && words[1..] == [1] && [1][1..] == [];
    assert SelfSum(words, 0) == [0, 4];
    ValOne(HALF, [1]);
    ValSmall(1);
    ValOne(0, [4]);
    ValSmall(4);
    assert [0] + [4] == [0, 4];
  }
}
