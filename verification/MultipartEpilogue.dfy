/** What follows the closing delimiter of a multipart body: exactly when the way the
    input is cut into `parse` calls decides where the parser ends up. */
module MultipartEpilogue {
  import opened Multipart
  import opened MultipartSplit

  /** A receiver that never refuses. */
  ghost predicate Accepting(accepts: Receiver) { forall content, piece :: accepts(content, piece) }

  ghost predicate IsSuffix(s: string, t: string) { |s| <= |t| && t[|t| - |s|..] == s }

  /** Behind the closing delimiter: what is pending ends the epilogue, and so does the
      line break that led to the header state. */
  ghost predicate InEpilogue(epilogue: string, p: Parser) {
    && p.valid
    && (p.phase == Boundary || p.phase == Headers)
    && IsSuffix(if p.phase == Headers then CRLF + p.pending else p.pending, epilogue)
  }

  /** The input holds a delimiter with "--" behind it. */
  ghost predicate IsClosed(b: string, all: string) {
    Occurs(all, Delimiter(b)) && DASH <= AfterDelimiter(b, all)
  }

  lemma {:induction false} LoopAccepts(b: string, p: Parser, accepts: Receiver)
    requires Accepting(accepts)
    ensures Loop(b, p, accepts).1
    decreases Rank(p.phase), |p.pending|
  {
    hide Find, FindFrom, Delimiter, Opening;
    if p.pending != [] {
      var (q, verdict) := Turn(b, p, accepts);
      if verdict == Again { LoopAccepts(b, q, accepts); }
    }
  }

  lemma {:induction false} AllAccepted(b: string, pieces: seq<string>, accepts: Receiver)
    requires Accepting(accepts)
    ensures ParseAll(b, START, pieces, accepts).1
    decreases |pieces|
  {
    if pieces != [] {
      var before := pieces[..|pieces| - 1];
      AllAccepted(b, before, accepts);
      var p := ParseAll(b, START, before, accepts).0;
      LoopAccepts(b, p.(pending := p.pending + pieces[|pieces| - 1]), accepts);
    }
  }

  /** The call that makes the form valid drops whatever it holds behind the "--". */
  lemma {:induction false} ClosingDropsRest(b: string, p: Parser, accepts: Receiver)
    requires !p.valid
    ensures var q := Loop(b, p, accepts).0; q.valid ==> q.phase == Boundary && q.pending == []
    decreases Rank(p.phase), |p.pending|
  {
    hide Find, FindFrom, Delimiter, Opening;
    if p.pending != [] {
      var (q, verdict) := Turn(b, p, accepts);
      if verdict == Again && !q.valid { ClosingDropsRest(b, q, accepts); }
    }
  }

  /** One parse call behind the closing delimiter. */
  lemma EpilogueCall(b: string, epilogue: string, p: Parser, data: string, accepts: Receiver)
    requires InEpilogue(epilogue, p)
    ensures InEpilogue(epilogue + data, ParseOne(b, p, data, accepts).0)
  {
    var s := p.(pending := p.pending + data);
    var ending := if p.phase == Headers then CRLF + p.pending else p.pending;
    assert IsSuffix(ending + data, epilogue + data);
    if p.phase == Headers {
      HeadersKeep(b, s, accepts);
      assert (CRLF + p.pending) + data == CRLF + s.pending;
    } else if s.pending != [] {
      var (q, verdict) := Turn(b, s, accepts);
      assert CRLF <= s.pending ==> s.pending == CRLF + s.pending[2..];
      if verdict == Again { assert Loop(b, q, accepts) == (q, true); }
    }
  }

  /** However the input is cut: once it is closed, what is pending is a part of the
      epilogue's end, and the header state is reached only over a line break in it. */
  lemma {:induction false} EpilogueKeeps(b: string, pieces: seq<string>, accepts: Receiver)
    requires Accepting(accepts) && IsClosed(b, Concat(pieces))
    ensures InEpilogue(AfterDelimiter(b, Concat(pieces))[2..], ParseAll(b, START, pieces, accepts).0)
    decreases |pieces|
  {
    hide Delimiter, ParseOne, AfterDelimiter, Find, Occurs, Closed, Loop, InBody;
    NotEmpty(b, pieces);
    var before, last := pieces[..|pieces| - 1], pieces[|pieces| - 1];
    var p := ParseAll(b, START, before, accepts).0;
    AllAccepted(b, before, accepts);
    AllAccepted(b, pieces, accepts);
    if IsClosed(b, Concat(before)) {
      EpilogueKeeps(b, before, accepts);
      EpilogueGrows(b, Concat(before), p, last, accepts);
    } else {
      BodyDelivers(b, before, accepts);
      BodyDelivers(b, pieces, accepts);
      ClosingCall(b, Concat(before) + last, Concat(before), p, last, accepts);
    }
  }

  lemma NotEmpty(b: string, pieces: seq<string>)
    requires IsClosed(b, Concat(pieces))
    ensures pieces != []
  {
  }

  lemma EpilogueGrows(b: string, was: string, p: Parser, data: string, accepts: Receiver)
    requires IsClosed(b, was) && InEpilogue(AfterDelimiter(b, was)[2..], p)
    ensures IsClosed(b, was + data)
    ensures InEpilogue(AfterDelimiter(b, was + data)[2..], ParseOne(b, p, data, accepts).0)
  {
    hide Delimiter, ParseOne, AfterDelimiter, Find, Occurs, InEpilogue;
    RestGrows(b, was, data);
    var rest := AfterDelimiter(b, was);
    assert (rest + data)[2..] == rest[2..] + data;
    EpilogueCall(b, rest[2..], p, data, accepts);
  }

  lemma ClosingCall(b: string, all: string, was: string, p: Parser, data: string, accepts: Receiver)
    requires IsClosed(b, all) && !IsClosed(b, was)
    requires Delivered(b, was, p) && Delivered(b, all, ParseOne(b, p, data, accepts).0)
    ensures InEpilogue(AfterDelimiter(b, all)[2..], ParseOne(b, p, data, accepts).0)
  {
    assert !p.valid;
    ClosingDropsRest(b, p.(pending := p.pending + data), accepts);
  }

  /** A closed input that comes in one call. */
  lemma ClosedAtOnce(b: string, s: string, accepts: Receiver)
    requires Accepting(accepts) && IsClosed(b, s)
    ensures Concat([s]) == s && ParseAll(b, START, [s], accepts).1
    ensures var p := ParseAll(b, START, [s], accepts).0; p.phase == Boundary && p.pending == [] && p.valid
  {
    assert [s][..0] == [] && Concat([s]) == s;
    AllAccepted(b, [s], accepts);
    BodyDelivers(b, [s], accepts);
    assert ParseAll(b, START, [s], accepts) == ParseOne(b, START, s, accepts);
    ClosingDropsRest(b, START.(pending := START.pending + s), accepts);
  }

  /** A closed input, and then one more call. */
  lemma ClosedAndMore(b: string, s: string, t: string, accepts: Receiver)
    requires Accepting(accepts) && IsClosed(b, s)
    ensures Concat([s, t]) == s + t
    ensures var q := ParseAll(b, START, [s, t], accepts).0;
            && (CRLF <= t ==> q.phase == Headers)
            && (|t| == 1 ==> q.phase == Boundary && q.pending == t)
  {
    ClosedAtOnce(b, s, accepts);
    assert [s, t][..1] == [s];
    var p := ParseAll(b, START, [s], accepts).0;
    assert p.pending + t == t;
    assert ParseAll(b, START, [s, t], accepts) == ParseOne(b, p, t, accepts);
    if CRLF <= t {
      HeadersKeep(b, BoundaryTurn(p.(pending := t)).0, accepts);
    }
  }

  /** A closed input can be cut anywhere behind the closing "--". */
  lemma CutBehind(b: string, all: string, i: nat)
    requires IsClosed(b, all) && 2 + i <= |AfterDelimiter(b, all)|
    ensures var k := |all| - |AfterDelimiter(b, all)| + 2 + i;
            && 0 <= k <= |all|
            && IsClosed(b, all[..k]) && all[..k] + all[k..] == all
            && all[k..] == AfterDelimiter(b, all)[2 + i..]
  {
    var d, rest := Delimiter(b), AfterDelimiter(b, all);
    var at := Find(all, d);
    assert OccursAt(all, d, at) by { assert |rest| > 0; }
    var k := |all| - |rest| + 2 + i;
    var front := all[..k];
    assert front[at..at + |d|] == all[at..at + |d|];
    OccursFrom(front, d, at);
    assert front + all[k..] == all;
    RestGrows(b, front, all[k..]);
    assert AfterDelimiter(b, front) == rest[..2 + i];
  }

  /** Some way of cutting the input ends in the header state. */
  ghost predicate CanReachHeaders(b: string, all: string, accepts: Receiver) {
    exists pieces :: Concat(pieces) == all && ParseAll(b, START, pieces, accepts).0.phase == Headers
  }

  lemma ReachesHeaders(b: string, all: string, pieces: seq<string>, accepts: Receiver)
    requires Concat(pieces) == all && ParseAll(b, START, pieces, accepts).0.phase == Headers
    ensures CanReachHeaders(b, all, accepts)
  {
  }

  /** Some cut of the input makes the parser go on to the headers of a part exactly
      when a line break follows the delimiter, or the epilogue holds one anywhere: the
      closing delimiter does not end the parsing. */
  lemma HeadersIff(b: string, all: string, accepts: Receiver)
    requires Accepting(accepts)
    ensures CanReachHeaders(b, all, accepts) <==>
      Occurs(all, Delimiter(b)) &&
      (CRLF <= AfterDelimiter(b, all) || (IsClosed(b, all) && Occurs(AfterDelimiter(b, all)[2..], CRLF)))
  {
    if CanReachHeaders(b, all, accepts) {
      var pieces :| Concat(pieces) == all && ParseAll(b, START, pieces, accepts).0.phase == Headers;
      HeadersOverLineBreak(b, pieces, accepts);
    }
    if Occurs(all, Delimiter(b)) {
      var rest := AfterDelimiter(b, all);
      if CRLF <= rest {
        HeadersAtOnce(b, all, accepts);
      } else if IsClosed(b, all) && Occurs(rest[2..], CRLF) {
        var i :| OccursAt(rest[2..], CRLF, i);
        HeadersByCut(b, all, i, accepts);
      }
    }
  }

  lemma HeadersOverLineBreak(b: string, pieces: seq<string>, accepts: Receiver)
    requires Accepting(accepts) && ParseAll(b, START, pieces, accepts).0.phase == Headers
    ensures var all := Concat(pieces);
      Occurs(all, Delimiter(b)) &&
      (CRLF <= AfterDelimiter(b, all) || (IsClosed(b, all) && Occurs(AfterDelimiter(b, all)[2..], CRLF)))
  {
    var all := Concat(pieces);
    var p := ParseAll(b, START, pieces, accepts).0;
    AllAccepted(b, pieces, accepts);
    BodyDelivers(b, pieces, accepts);
    hide ParseAll, Delimiter, Find, AfterDelimiter, Concat;
    if IsClosed(b, all) {
      EpilogueKeeps(b, pieces, accepts);
      var epilogue := AfterDelimiter(b, all)[2..];
      var i := |epilogue| - |CRLF + p.pending|;
      assert epilogue[i..][..2] == CRLF;
      OccursFrom(epilogue, CRLF, i);
    }
  }

  lemma HeadersAtOnce(b: string, all: string, accepts: Receiver)
    requires Accepting(accepts) && Occurs(all, Delimiter(b)) && CRLF <= AfterDelimiter(b, all)
    ensures CanReachHeaders(b, all, accepts)
  {
    assert [all][..0] == [] && Concat([all]) == all;
    AllAccepted(b, [all], accepts);
    BodyDelivers(b, [all], accepts);
    assert AfterDelimiter(b, all)[0] == CRLF[0];
    ReachesHeaders(b, all, [all], accepts);
  }

  lemma HeadersByCut(b: string, all: string, i: nat, accepts: Receiver)
    requires Accepting(accepts) && IsClosed(b, all) && OccursAt(AfterDelimiter(b, all)[2..], CRLF, i)
    ensures CanReachHeaders(b, all, accepts)
  {
    var rest := AfterDelimiter(b, all);
    CutBehind(b, all, i);
    var k := |all| - |rest| + 2 + i;
    assert rest[2 + i..][..2] == rest[2..][i..i + 2];
    ClosedAndMore(b, all[..k], all[k..], accepts);
    ReachesHeaders(b, all, [all[..k], all[k..]], accepts);
  }

  /** All ways of cutting the input leave the parser in the same state. */
  ghost predicate CutsNeverMatter(b: string, all: string, accepts: Receiver) {
    forall pieces, others :: Concat(pieces) == all && Concat(others) == all ==>
      ParseAll(b, START, pieces, accepts) == ParseAll(b, START, others, accepts)
  }

  /** The state depends on the cuts exactly when a byte follows the closing "--". */
  lemma CutsMatterIff(b: string, all: string, accepts: Receiver)
    requires Accepting(accepts)
    ensures CutsNeverMatter(b, all, accepts) <==> !(IsClosed(b, all) && |AfterDelimiter(b, all)| > 2)
  {
    if IsClosed(b, all) && |AfterDelimiter(b, all)| > 2 {
      LastByteMatters(b, all, accepts);
    } else {
      forall pieces, others | Concat(pieces) == all && Concat(others) == all
        ensures ParseAll(b, START, pieces, accepts) == ParseAll(b, START, others, accepts)
      {
        SameState(b, pieces, others, accepts);
      }
    }
  }

  lemma LastByteMatters(b: string, all: string, accepts: Receiver)
    requires Accepting(accepts) && IsClosed(b, all) && |AfterDelimiter(b, all)| > 2
    ensures !CutsNeverMatter(b, all, accepts)
  {
    var rest := AfterDelimiter(b, all);
    CutBehind(b, all, |rest| - 3);
    var k := |all| - 1;
    ClosedAtOnce(b, all, accepts);
    ClosedAndMore(b, all[..k], all[k..], accepts);
    var whole, cut := [all], [all[..k], all[k..]];
    assert Concat(whole) == all && Concat(cut) == all;
    assert ParseAll(b, START, whole, accepts) != ParseAll(b, START, cut, accepts);
  }

  lemma SameState(b: string, pieces: seq<string>, others: seq<string>, accepts: Receiver)
    requires Accepting(accepts) && Concat(pieces) == Concat(others)
    requires !(IsClosed(b, Concat(pieces)) && |AfterDelimiter(b, Concat(pieces))| > 2)
    ensures ParseAll(b, START, pieces, accepts) == ParseAll(b, START, others, accepts)
  {
    AllAccepted(b, pieces, accepts);
    AllAccepted(b, others, accepts);
    CutsAgree(b, pieces, others, accepts);
    BodyDelivers(b, pieces, accepts);
    if IsClosed(b, Concat(pieces)) {
      EpilogueKeeps(b, pieces, accepts);
      EpilogueKeeps(b, others, accepts);
    }
  }
}
