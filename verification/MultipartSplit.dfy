/** What the multipart parser delivers does not depend on how its input is cut into
    `parse` calls, from the body state on; where it does depend on it, exactly when. */
module MultipartSplit {
  import opened Multipart

  /** While no delimiter has arrived: nothing is lost or repeated, and all but the
      last bytes, as many as the delimiter has, are delivered. */
  ghost predicate InBody(b: string, all: string, p: Parser) {
    && p.phase == Body && !p.valid
    && !Occurs(all, Delimiter(b))
    && all == p.content + p.pending
    && |p.pending| == if |all| < |Delimiter(b)| then |all| else |Delimiter(b)|
  }

  /** What follows the first delimiter. */
  ghost function AfterDelimiter(b: string, all: string): string
    requires Occurs(all, Delimiter(b))
  {
    all[Find(all, Delimiter(b)) + |Delimiter(b)|..]
  }

  /** Once it has arrived: the content is what precedes the first delimiter, "--"
      behind it makes the form valid, a line break hands the rest to the headers. */
  ghost predicate Closed(b: string, all: string, p: Parser)
    requires Occurs(all, Delimiter(b))
  {
    var rest := AfterDelimiter(b, all);
    && p.content == all[..Find(all, Delimiter(b))]
    && (p.phase == Boundary || p.phase == Headers)
    && (p.valid <==> DASH <= rest)
    && (!p.valid && p.phase == Boundary ==> p.pending == rest && !(CRLF <= rest))
    && (!p.valid && p.phase == Headers ==> rest == CRLF + p.pending)
  }

  ghost predicate Delivered(b: string, all: string, p: Parser) {
    if Occurs(all, Delimiter(b)) then Closed(b, all, p) else InBody(b, all, p)
  }

  lemma OccursFrom(s: string, d: string, p: int)
    requires OccursAt(s, d, p)
    ensures Occurs(s, d)
  {
  }

  /** More input keeps the first occurrence. */
  lemma FirstStays(s: string, t: string, d: string)
    requires d != [] && Occurs(s, d)
    ensures Occurs(s + t, d) && Find(s + t, d) == Find(s, d)
  {
    var p := Find(s, d);
    forall i | i <= p ensures OccursAt(s + t, d, i) <==> OccursAt(s, d, i) {
      if 0 <= i && i + |d| <= |s| { assert (s + t)[i..i + |d|] == s[i..i + |d|]; }
    }
    OccursFrom(s + t, d, p);
    FirstIsUnique(s + t, d, p, Find(s + t, d));
  }

  lemma OccursBehind(c: string, s: string, d: string, i: nat)
    ensures OccursAt(s, d, i) <==> OccursAt(c + s, d, |c| + i)
  {
    if i + |d| <= |s| { assert (c + s)[|c| + i..|c| + i + |d|] == s[i..i + |d|]; }
  }

  /** Where delivered bytes contain no occurrence, the search in the rest finds the
      first occurrence in the whole. */
  lemma FindBehind(c: string, s: string, d: string)
    requires d != []
    requires forall i :: i < |c| ==> !OccursAt(c + s, d, i)
    ensures Occurs(s, d) <==> Occurs(c + s, d)
    ensures Find(c + s, d) == |c| + Find(s, d)
  {
    hide FindFrom, Find;
    if Occurs(s, d) {
      var i :| OccursAt(s, d, i);
      OccursBehind(c, s, d, i);
      OccursFrom(c + s, d, |c| + i);
    }
    if Occurs(c + s, d) {
      var j :| OccursAt(c + s, d, j);
      OccursBehind(c, s, d, j - |c|);
      OccursFrom(s, d, j - |c|);
    }
    var p := |c| + Find(s, d);
    forall j | j < p ensures !OccursAt(c + s, d, j) {
      if j >= |c| { OccursBehind(c, s, d, j - |c|); }
    }
    if Find(s, d) < |s| { OccursBehind(c, s, d, Find(s, d)); }
    assert IsFirst(c + s, d, p);
    FirstIsUnique(c + s, d, p, Find(c + s, d));
  }

  /** Nothing delivered so far can begin a delimiter. */
  lemma DeliveredIsClear(b: string, all: string, p: Parser, data: string)
    requires InBody(b, all, p)
    ensures forall i :: i < |p.content| ==> !OccursAt(p.content + (p.pending + data), Delimiter(b), i)
  {
    var d := Delimiter(b);
    assert p.content + (p.pending + data) == all + data;
    forall i | i < |p.content| ensures !OccursAt(all + data, d, i) {
      if OccursAt(all + data, d, i) {
        assert (all + data)[i..i + |d|] == all[i..i + |d|];
        OccursFrom(all, d, i);
      }
    }
  }

  /** State 4, entered with the bytes behind the delimiter. */
  lemma CloseBoundary(b: string, all: string, p: Parser, accepts: Receiver)
    requires Occurs(all, Delimiter(b)) && p.phase == Boundary && !p.valid
    requires p.content == all[..Find(all, Delimiter(b))] && p.pending == AfterDelimiter(b, all)
    ensures Loop(b, p, accepts).1 && Closed(b, all, Loop(b, p, accepts).0)
  {
    var rest := p.pending;
    hide AfterDelimiter, Find, Delimiter;
    if |rest| >= 2 {
      assert CRLF <= rest ==> rest[0] == CRLF[0];
      assert DASH <= rest ==> rest[0] == DASH[0];
      assert CRLF <= rest ==> rest == CRLF + rest[2..];
      var (q, verdict) := Turn(b, p, accepts);
      if verdict == Again {
        assert q.phase == Headers || q.pending == [];
        assert Loop(b, q, accepts) == (q, true);
      }
    }
  }

  lemma FoundTurn(b: string, p: Parser, accepts: Receiver)
    requires p.phase == Body && Occurs(p.pending, Delimiter(b)) && Loop(b, p, accepts).1
    ensures var pos := Find(p.pending, Delimiter(b));
            && pos + |Delimiter(b)| <= |p.pending|
            && Loop(b, p, accepts) == Loop(b, Parser(Boundary, p.pending[pos + |Delimiter(b)|..],
                                                     p.content + p.pending[..pos], p.valid), accepts)
  {
    assert OccursAt(p.pending, Delimiter(b), Find(p.pending, Delimiter(b)));
    hide FindFrom, Delimiter, IsFirst, Occurs, BoundaryTurn;
    var (q, verdict) := BodyTurn(b, p, accepts);
  }

  /** The delimiter is complete in this call. */
  lemma BodyFound(b: string, all: string, p: Parser, data: string, accepts: Receiver)
    requires InBody(b, all, p) && ParseOne(b, p, data, accepts).1
    requires Occurs(p.pending + data, Delimiter(b))
    requires Occurs(all + data, Delimiter(b))
    requires Find(all + data, Delimiter(b)) == |p.content| + Find(p.pending + data, Delimiter(b))
    ensures Closed(b, all + data, ParseOne(b, p, data, accepts).0)
  {
    hide FindFrom, Delimiter, IsFirst, Occurs, OccursAt, Closed, Loop, Find;
    var d := Delimiter(b);
    var now := p.pending + data;
    var pos := Find(now, d);
    assert all + data == p.content + now;
    FoundTurn(b, p.(pending := now), accepts);
    var q := Parser(Boundary, now[pos + |d|..], p.content + now[..pos], p.valid);
    assert q.content == (all + data)[..|p.content| + pos];
    assert q.pending == AfterDelimiter(b, all + data);
    CloseBoundary(b, all + data, q, accepts);
  }

  /** The delimiter is not complete yet. */
  lemma BodyContinues(b: string, all: string, p: Parser, data: string, accepts: Receiver)
    requires InBody(b, all, p) && ParseOne(b, p, data, accepts).1
    requires !Occurs(p.pending + data, Delimiter(b)) && !Occurs(all + data, Delimiter(b))
    ensures InBody(b, all + data, ParseOne(b, p, data, accepts).0)
  {
    var d := Delimiter(b);
    var now := p.pending + data;
    assert Find(now, d) == |now|;
    hide FindFrom, Delimiter, OccursAt, Occurs, Find, IsFirst;
    assert all + data == p.content + now;
    if |now| < |d| {
      assert p.content == [];
    } else {
      var (q, verdict) := BodyTurn(b, p.(pending := now), accepts);
      assert q.content + q.pending == all + data;
    }
  }

  lemma TooShort(s: string, d: string)
    requires |s| < |d|
    ensures !Occurs(s, d)
  {
  }

  /** One parse call in the body state. */
  lemma BodyCall(b: string, all: string, p: Parser, data: string, accepts: Receiver)
    requires InBody(b, all, p) && ParseOne(b, p, data, accepts).1
    ensures Delivered(b, all + data, ParseOne(b, p, data, accepts).0)
  {
    var d := Delimiter(b);
    var now := p.pending + data;
    assert all + data == p.content + now;
    DeliveredIsClear(b, all, p, data);
    FindBehind(p.content, now, d);
    if Occurs(now, d) {
      BodyFound(b, all, p, data, accepts);
    } else {
      BodyContinues(b, all, p, data, accepts);
    }
  }

  /** More input only appends to what follows the delimiter. */
  lemma RestGrows(b: string, all: string, data: string)
    requires Occurs(all, Delimiter(b))
    ensures Occurs(all + data, Delimiter(b)) && Find(all + data, Delimiter(b)) == Find(all, Delimiter(b))
    ensures AfterDelimiter(b, all + data) == AfterDelimiter(b, all) + data
    ensures (all + data)[..Find(all, Delimiter(b))] == all[..Find(all, Delimiter(b))]
  {
    FirstStays(all, data, Delimiter(b));
    assert Find(all, Delimiter(b)) + |Delimiter(b)| <= |all|;
    hide FindFrom, Delimiter, OccursAt, IsFirst, Occurs, Find;
  }

  /** One parse call after the delimiter. */
  lemma ClosedCall(b: string, all: string, p: Parser, data: string, accepts: Receiver)
    requires Occurs(all, Delimiter(b)) && Closed(b, all, p)
    ensures ParseOne(b, p, data, accepts).1
    ensures Delivered(b, all + data, ParseOne(b, p, data, accepts).0)
  {
    hide FindFrom, Delimiter, OccursAt, IsFirst, Occurs, Find, Turn, AfterDelimiter, Loop;
    var s := p.(pending := p.pending + data);
    RestGrows(b, all, data);
    var rest := AfterDelimiter(b, all);
    assert DASH <= rest ==> DASH <= rest + data;
    if !p.valid && p.phase == Boundary {
      CloseBoundary(b, all + data, s, accepts);
    } else if p.phase == Headers {
      HeadersKeep(b, s, accepts);
      if !p.valid {
        assert CRLF + s.pending == (CRLF + p.pending) + data;
        assert (rest + data)[0] == CRLF[0];
      }
    } else {
      ValidStays(b, s, accepts);
    }
  }

  lemma HeadersKeep(b: string, p: Parser, accepts: Receiver)
    requires p.phase == Headers
    ensures Loop(b, p, accepts) == (p, true)
  {
  }

  lemma ValidStays(b: string, p: Parser, accepts: Receiver)
    requires p.phase == Boundary && p.valid
    ensures Loop(b, p, accepts).1
    ensures var q := Loop(b, p, accepts).0;
            q.valid && q.content == p.content && (q.phase == Boundary || q.phase == Headers)
  {
    if p.pending != [] {
      var (q, verdict) := Turn(b, p, accepts);
      if verdict == Again { assert Loop(b, q, accepts) == (q, true); }
    }
  }

  const START := Parser(Body, [], [], false)

  /** From the body state, however the input is cut into calls: while the delimiter is
      not complete the parser stays in the body state, having delivered all but the
      last bytes; from then on the content is exactly what precedes the first one. */
  lemma {:induction false} BodyDelivers(b: string, pieces: seq<string>, accepts: Receiver)
    requires ParseAll(b, START, pieces, accepts).1
    ensures Delivered(b, Concat(pieces), ParseAll(b, START, pieces, accepts).0)
    decreases |pieces|
  {
    var all := Concat(pieces);
    if pieces == [] {
      assert !Occurs([], Delimiter(b));
    } else {
      var before := pieces[..|pieces| - 1];
      var last := pieces[|pieces| - 1];
      BodyDelivers(b, before, accepts);
      var p := ParseAll(b, START, before, accepts).0;
      hide Delimiter, ParseOne, Closed, InBody;
      if Occurs(Concat(before), Delimiter(b)) {
        ClosedCall(b, Concat(before), p, last, accepts);
      } else {
        BodyCall(b, Concat(before), p, last, accepts);
      }
    }
  }

  /** Two ways of cutting the same input deliver the same content, leave the body
      state together, agree on validity, and agree on everything else too unless the
      closing delimiter has been read. */
  lemma CutsAgree(b: string, pieces: seq<string>, others: seq<string>, accepts: Receiver)
    requires Concat(pieces) == Concat(others)
    requires ParseAll(b, START, pieces, accepts).1 && ParseAll(b, START, others, accepts).1
    ensures var p, q := ParseAll(b, START, pieces, accepts).0, ParseAll(b, START, others, accepts).0;
            && (p.phase == Body <==> q.phase == Body)
            && p.content == q.content && p.valid == q.valid
            && (!p.valid ==> p == q)
  {
    BodyDelivers(b, pieces, accepts);
    BodyDelivers(b, others, accepts);
    hide ParseAll, Concat;
    var all := Concat(pieces);
    var p, q := ParseAll(b, START, pieces, accepts).0, ParseAll(b, START, others, accepts).0;
    if Occurs(all, Delimiter(b)) {
      if !p.valid && p.phase == Headers && q.phase == Headers {
        assert (CRLF + p.pending)[2..] == p.pending && (CRLF + q.pending)[2..] == q.pending;
      }
    } else {
      assert p.content == all[..|all| - |p.pending|] && q.content == all[..|all| - |q.pending|];
      assert p.pending == all[|p.content|..] && q.pending == all[|q.content|..];
    }
  }

  lemma FirstCall(b: string, rest: string, accepts: Receiver)
    requires accepts([], [])
    ensures ParseOne(b, START, Delimiter(b) + rest, accepts) == Loop(b, Parser(Boundary, rest, [], false), accepts)
  {
    var d := Delimiter(b);
    var data := d + rest;
    assert data[0..|d|] == d;
    OccursFrom(data, d, 0);
    assert Find(data, d) == 0;
    assert START.pending + data == data && data[0 + |d|..] == rest && START.content + data[..0] == [];
    hide FindFrom, Find, Delimiter, BoundaryTurn;
  }

  /** After the closing delimiter the cuts do matter: a line break that arrives in a
      call of its own is read as the start of another part. */
  lemma EpilogueDependsOnCuts(b: string, accepts: Receiver)
    requires accepts([], [])
    ensures var whole, cut := [Delimiter(b) + DASH + CRLF], [Delimiter(b) + DASH, CRLF];
            && Concat(whole) == Concat(cut)
            && ParseAll(b, START, whole, accepts).0.phase == Boundary
            && ParseAll(b, START, cut, accepts).0.phase == Headers
  {
    var d := Delimiter(b);
    var whole, cut := [d + DASH + CRLF], [d + DASH, CRLF];
    hide Delimiter;
    assert whole[..0] == [] && cut[..1] == [d + DASH] && cut[..1][..0] == [];
    assert d + DASH + CRLF == d + (DASH + CRLF);
    FirstCall(b, DASH + CRLF, accepts);
    FirstCall(b, DASH, accepts);
    hide ParseOne;
    var p := Parser(Boundary, [], [], true);
    LastCalls(b, accepts);
    assert ParseAll(b, START, cut[..1], accepts) == (p, true);
    assert ParseAll(b, START, whole, accepts) == (p, true);
  }

  lemma NotPrefix(s: string, t: string)
    requires s != [] && t != [] && s[0] != t[0]
    ensures !(s <= t)
  {
  }

  lemma LastCalls(b: string, accepts: Receiver)
    ensures Loop(b, Parser(Boundary, DASH, [], false), accepts) == (Parser(Boundary, [], [], true), true)
    ensures Loop(b, Parser(Boundary, DASH + CRLF, [], false), accepts) == (Parser(Boundary, [], [], true), true)
    ensures ParseOne(b, Parser(Boundary, [], [], true), CRLF, accepts).0.phase == Headers
  {
    assert (DASH + CRLF)[0] == DASH[0] && CRLF[0] != DASH[0];
    NotPrefix(CRLF, DASH + CRLF);
    var p := Parser(Boundary, [] + CRLF, [], true);
    assert [] + CRLF == CRLF;
    assert BoundaryTurn(p).0.phase == Headers;
  }

  /** What is delivered when the callback refuses in the middle of a body. */
  ghost predicate Stopped(b: string, all: string, p: Parser) {
    && !p.valid && p.phase == Body && p.content <= all
    && (forall i :: i < |p.content| ==> !OccursAt(all, Delimiter(b), i))
    && (p.content == [] || |p.content| + |Delimiter(b)| <= |all|)
  }

  /** A refusal by the callback leaves the form invalid and in the body state, with
      only content from before the first delimiter delivered. */
  lemma {:induction false} RefusalStops(b: string, pieces: seq<string>, accepts: Receiver)
    requires !ParseAll(b, START, pieces, accepts).1
    ensures Stopped(b, Concat(pieces), ParseAll(b, START, pieces, accepts).0)
    decreases |pieces|
  {
    var before := pieces[..|pieces| - 1];
    var last := pieces[|pieces| - 1];
    var all := Concat(before);
    var (p, ok) := ParseAll(b, START, before, accepts);
    if ok {
      BodyDelivers(b, before, accepts);
      if Occurs(all, Delimiter(b)) {
        ClosedCall(b, all, p, last, accepts);
      } else {
        RefusedCall(b, all, p, last, accepts);
      }
    } else {
      RefusalStops(b, before, accepts);
      StoppedStays(b, all, p, last);
    }
  }

  lemma RefusedCall(b: string, all: string, p: Parser, data: string, accepts: Receiver)
    requires InBody(b, all, p) && !ParseOne(b, p, data, accepts).1
    ensures Stopped(b, all + data, ParseOne(b, p, data, accepts).0)
  {
    DeliveredIsClear(b, all, p, data);
    assert all + data == p.content + (p.pending + data);
    hide Find, FindFrom, Delimiter, OccursAt;
    var s := p.(pending := p.pending + data);
    var (q, verdict) := BodyTurn(b, s, accepts);
    if verdict == Again { BoundaryAccepts(b, q, accepts); }
  }

  lemma BoundaryAccepts(b: string, p: Parser, accepts: Receiver)
    requires p.phase == Boundary
    ensures Loop(b, p, accepts).1
  {
    if p.pending != [] {
      var (q, verdict) := Turn(b, p, accepts);
      if verdict == Again { assert Loop(b, q, accepts) == (q, true); }
    }
  }

  lemma StoppedStays(b: string, all: string, p: Parser, data: string)
    requires Stopped(b, all, p)
    ensures Stopped(b, all + data, p)
  {
    var d := Delimiter(b);
    forall i | i < |p.content| ensures !OccursAt(all + data, d, i) {
      if OccursAt(all + data, d, i) {
        assert (all + data)[i..i + |d|] == all[i..i + |d|];
        assert OccursAt(all, d, i);
      }
    }
  }

  /** State 0 finds the opening boundary exactly when one single call holds all of
      it: what a call leaves unmatched is dropped. */
  lemma {:induction false} PreambleNeedsOnePiece(b: string, pieces: seq<string>, accepts: Receiver)
    ensures var (p, ok) := ParseAll(b, Parser(Preamble, [], [], false), pieces, accepts);
            && ok && !p.valid && p.content == []
            && (p.phase == Preamble || p.phase == Headers)
            && (p.phase == Preamble ==> p.pending == [])
            && (p.phase == Headers <==> exists k :: 0 <= k < |pieces| && Occurs(pieces[k], Opening(b)))
    decreases |pieces|
  {
    if pieces != [] {
      var before := pieces[..|pieces| - 1];
      var last := pieces[|pieces| - 1];
      PreambleNeedsOnePiece(b, before, accepts);
      var (p, ok) := ParseAll(b, Parser(Preamble, [], [], false), before, accepts);
      assert forall k :: 0 <= k < |before| ==> before[k] == pieces[k];
      if p.phase == Headers {
        HeadersKeep(b, p.(pending := p.pending + last), accepts);
      } else {
        assert p.pending + last == last;
        PreambleCall(b, p.(pending := last), accepts);
      }
    }
  }

  lemma PreambleCall(b: string, p: Parser, accepts: Receiver)
    requires p.phase == Preamble
    ensures var (q, ok) := Loop(b, p, accepts);
            && ok && q.valid == p.valid && q.content == p.content
            && (if Occurs(p.pending, Opening(b)) then q.phase == Headers else q.phase == Preamble && q.pending == [])
  {
    var d := Opening(b);
    var at := Find(p.pending, d);
    if Occurs(p.pending, d) {
      assert OccursAt(p.pending, d, at);
      HeadersKeep(b, PreambleTurn(b, p).0, accepts);
    }
  }

  /** A boundary that is there, but cut in two, is not found. */
  lemma CutPreambleIsLost(accepts: Receiver)
    ensures Occurs(Concat(["--B", "\r\n"]), Opening("B"))
    ensures ParseAll("B", Parser(Preamble, [], [], false), ["--B", "\r\n"], accepts).0.phase == Preamble
  {
    var pieces := ["--B", "\r\n"];
    assert pieces[..1] == ["--B"] && pieces[..1][..0] == [];
    assert Concat(pieces) == Opening("B");
    assert OccursAt(Opening("B"), Opening("B"), 0);
    TooShort(pieces[0], Opening("B"));
    TooShort(pieces[1], Opening("B"));
    PreambleNeedsOnePiece("B", pieces, accepts);
  }
}
