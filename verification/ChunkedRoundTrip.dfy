/** What the chunked writer sends, the chunked reader gives back. */
module ChunkedRoundTrip {
  import opened ChunkedText
  import opened Options
  import opened ChunkedReader
  import opened ChunkedWriter

  /** Everything written before the first Finish. */
  function Written(ops: seq<Op>): string {
    if ops == [] || ops[0].Finish? then [] else ops[0].data + Written(ops[1..])
  }

  /** The operations behind the first Finish. */
  function Behind(ops: seq<Op>): seq<Op> {
    if ops == [] then [] else if ops[0].Finish? then ops[1..] else Behind(ops[1..])
  }

  /** Every write is of a size that the reader can tell from an overflow. */
  predicate Sized(ops: seq<Op>) { forall op :: op in ops && op.Write? ==> |op.data| < ULONG_MAX }

  lemma BlankLine(t: string, eof: bool)
    ensures TakeLine(CRLF + t, eof) == Some((CRLF, t))
  {
    assert [] + CRLF + t == CRLF + t && [] + CRLF == CRLF;
    TakeLineIs([], t, eof);
  }

  lemma BlankIsBlank()
    ensures CString(CRLF) == CRLF
  {
    CStringKeeps(CRLF);
  }

  lemma SizeLine(n: nat, t: string, eof: bool)
    ensures TakeLine(Hex(n) + CRLF + t, eof) == Some((Hex(n) + CRLF, t))
  {
    TakeLineIs(Hex(n), t, eof);
  }

  /** One chunk in front of anything is read as its payload, whatever the payload. */
  lemma OneChunk(content: string, payload: string, t: string, eof: bool)
    requires 0 < |payload| < ULONG_MAX
    ensures Decode(content, Chunk(payload) + t, eof) == Decode(content + payload, t, eof)
  {
    hide TakeLine, Strtoul, CString, Hex, StartTrailers;
    var n := |payload|;
    var rest := payload + (CRLF + t);
    assert Chunk(payload) + t == Hex(n) + CRLF + rest;
    SizeLine(n, rest, eof);
    SizeLineRoundTrip(n);
    assert rest[..n] == payload && rest[n..] == CRLF + t;
    BlankLine(t, eof);
    BlankIsBlank();
  }

  /** The last chunk and an empty trailer section end the body, and nothing behind
      them is read. */
  lemma LastChunk(content: string, t: string, eof: bool)
    ensures Decode(content, Encode(Op.Finish) + t, eof) == Done(content, [], t)
  {
    hide TakeLine, Strtoul, CString;
    assert Hex(0) == "0";
    assert Encode(Op.Finish) + t == Hex(0) + CRLF + (CRLF + t);
    SizeLine(0, CRLF + t, eof);
    SizeLineRoundTrip(0);
    BlankLine(t, eof);
    BlankIsBlank();
  }

  /** Reading back any sequence of operations: with a Finish among them, the content
      written before the first one, and the stream is left behind exactly there;
      without one, the body is incomplete and reading it fails. */
  lemma {:induction false} RoundTrip(content: string, ops: seq<Op>, t: string, eof: bool)
    requires Sized(ops)
    ensures Op.Finish in ops ==>
              Decode(content, EncodeAll(ops) + t, eof) == Done(content + Written(ops), [], EncodeAll(Behind(ops)) + t)
    ensures Op.Finish !in ops ==> Decode(content, EncodeAll(ops), eof) == Failed
    decreases |ops|
  {
    hide Decode, Chunk;
    if ops == [] {
      NothingToRead(content, eof);
    } else {
      assert ops == [ops[0]] + ops[1..];
      var more := EncodeAll(ops[1..]);
      assert EncodeAll(ops) + t == Encode(ops[0]) + (more + t);
      match ops[0]
      case Finish =>
        LastChunk(content, more + t, eof);
        assert content + [] == content;
      case Write(data) =>
        RoundTrip(content + data, ops[1..], t, eof);
        WriteStep(content, data, more, t, eof);
        assert content + data + Written(ops[1..]) == content + (data + Written(ops[1..]));
    }
  }

  lemma WriteStep(content: string, data: string, more: string, t: string, eof: bool)
    requires |data| < ULONG_MAX
    ensures Decode(content, Encode(Op.Write(data)) + (more + t), eof) == Decode(content + data, more + t, eof)
    ensures Decode(content, Encode(Op.Write(data)) + more, eof) == Decode(content + data, more, eof)
  {
    hide Decode, Chunk;
    if data == [] {
      assert content + data == content && [] + (more + t) == more + t && [] + more == more;
    } else {
      OneChunk(content, data, more + t, eof);
      OneChunk(content, data, more, eof);
    }
  }

  lemma NothingToRead(content: string, eof: bool)
    ensures Decode(content, [], eof) == Failed
  {
  }

  predicate AllSized(calls: seq<Call>) { forall call :: call in calls ==> Sized(call.ops) }

  lemma {:induction false} ServedSized(calls: seq<Call>, i: nat, available: bool, shuttingDown: nat -> bool)
    requires i <= |calls| && AllSized(calls) && Served(calls, i, available, shuttingDown).Some?
    ensures Sized(Served(calls, i, available, shuttingDown).value)
    decreases |calls| - i
  {
    if available && !shuttingDown(i) {
      assert calls[i] in calls;
      ServedSized(calls, i + 1, Expecting(calls[i].ops, available), shuttingDown);
    }
  }

  /** When the writer gets to its end, what it has sent decodes exactly when a `done`
      was among the operations served: success alone does not mean that the body is
      complete. */
  lemma SentDecodesIff(calls: seq<Call>, shuttingDown: nat -> bool, eof: bool)
    requires AllSized(calls) && Served(calls, 0, true, shuttingDown).Some?
    ensures var ops := Served(calls, 0, true, shuttingDown).value;
            Decode([], EncodeAll(ops), eof).Done? <==> Op.Finish in ops
  {
    hide Decode, EncodeAll;
    ServedSized(calls, 0, true, shuttingDown);
    var ops := Served(calls, 0, true, shuttingDown).value;
    RoundTrip([], ops, [], eof);
    assert EncodeAll(ops) + [] == EncodeAll(ops);
  }

  /** The concrete cases: an empty write takes the place of `done`, or the server is
      shutting down before the first call. */
  lemma EmptyWriteEndsBody(running: nat -> bool, eof: bool)
    requires forall i :: !running(i)
    ensures var ops := [Op.Write("a"), Op.Write("")];
            Served([Call(ops, true)], 0, true, running) == Some(ops) && Decode([], EncodeAll(ops), eof) == Failed
  {
    hide Decode, EncodeAll;
    var ops := [Op.Write("a"), Op.Write("")];
    assert Served([Call(ops, true)], 1, false, running) == Some([]);
    assert ops + [] == ops;
    RoundTrip([], ops, [], eof);
  }

  lemma ShutdownSendsNothing(calls: seq<Call>, shuttingDown: nat -> bool, eof: bool)
    requires shuttingDown(0)
    ensures Served(calls, 0, true, shuttingDown) == Some([]) && Decode([], EncodeAll([]), eof) == Failed
  {
    EncodeNone();
    NothingToRead([], eof);
  }

  /** Writer and reader together, for any provider: with room, sending succeeds exactly
      when the provider serves to the end; then receiving succeeds exactly when a `done`
      was served, and gives what was written before it. */
  method TransferCalls(calls: seq<Call>, shuttingDown: nat -> bool, portion: nat -> nat,
                       available: nat -> nat, room: nat)
      returns (sent: bool, received: bool, content: string, rest: string)
    requires AllSized(calls)
    ensures |EncodeAll(AllOps(calls))| <= room ==> (sent <==> Served(calls, 0, true, shuttingDown).Some?)
    ensures sent ==> Served(calls, 0, true, shuttingDown).Some?
                     && (received <==> Op.Finish in Served(calls, 0, true, shuttingDown).value)
    ensures sent && received ==>
              var ops := Served(calls, 0, true, shuttingDown).value;
              content == Written(ops) && rest == EncodeAll(Behind(ops))
  {
    hide EncodeAll, Decode, Served, AllOps, Written;
    var output := new OutputStream(room, _ => true, portion);
    var error;
    sent, error := WriteContentChunked(output, calls, shuttingDown);
    received, content, rest := false, [], [];
    if sent {
      ghost var ops := Served(calls, 0, true, shuttingDown).value;
      assert output.sent == EncodeAll(ops);
      SentDecodesIff(calls, shuttingDown, true);
      ServedSized(calls, 0, true, shuttingDown);
      RoundTrip([], ops, [], true);
      assert EncodeAll(ops) + [] == EncodeAll(ops) && [] + Written(ops) == Written(ops);
      assert EncodeAll(Behind(ops)) + [] == EncodeAll(Behind(ops));
      var input := new InputStream(output.sent, available, true);
      var out := new ContentReceiver((_, _) => true);
      received, content, rest := Receive(input, out);
    }
  }

  function Concat(writes: seq<string>): string {
    if writes == [] then [] else writes[0] + Concat(writes[1..])
  }

  /** A provider that makes some writes and then is done, in one call. */
  function Writes(writes: seq<string>): seq<Op> {
    if writes == [] then [Op.Finish] else [Op.Write(writes[0])] + Writes(writes[1..])
  }

  lemma {:induction false} WritesFacts(writes: seq<string>)
    ensures Written(Writes(writes)) == Concat(writes) && Behind(Writes(writes)) == []
  {
    if writes != [] {
      WritesFacts(writes[1..]);
      assert Writes(writes)[1..] == Writes(writes[1..]);
    }
  }

  lemma {:induction false} WritesAre(writes: seq<string>)
    ensures var ops := Writes(writes);
            |ops| == |writes| + 1 && ops[|writes|] == Op.Finish
            && forall i :: 0 <= i < |writes| ==> ops[i] == Op.Write(writes[i])
  {
    if writes != [] { WritesAre(writes[1..]); }
  }

  lemma WritesFit(writes: seq<string>)
    requires forall w :: w in writes ==> |w| < ULONG_MAX
    ensures Op.Finish in Writes(writes) && Sized(Writes(writes)) && !Expecting(Writes(writes), true)
  {
    WritesAre(writes);
    hide Writes;
  }

  lemma ServedOnce(writes: seq<string>, running: nat -> bool)
    requires forall i :: !running(i)
    requires forall w :: w in writes ==> |w| < ULONG_MAX
    ensures var calls := [Call(Writes(writes), true)];
            Served(calls, 0, true, running) == Some(Writes(writes)) && AllOps(calls) == Writes(writes)
  {
    WritesFit(writes);
    hide Writes, Expecting;
    var ops := Writes(writes);
    var calls := [Call(ops, true)];
    assert Served(calls, 1, false, running) == Some([]);
    assert ops + [] == ops && [] + ops == ops && calls[..0] == [];
  }

  /** One body across a connection: written in any pieces, received in whatever portions
      the transport delivers, with more data waiting behind it. */
  method Transfer(writes: seq<string>, behind: string, portion: nat -> nat, available: nat -> nat, room: nat)
      returns (sent: bool, received: bool, content: string, rest: string)
    requires forall w :: w in writes ==> |w| < ULONG_MAX
    ensures |EncodeAll(Writes(writes))| <= room ==> sent
    ensures sent ==> received && content == Concat(writes) && rest == behind
  {
    hide EncodeAll, Decode, Writes, Served, Concat, AllOps;
    var output := new OutputStream(room, _ => true, portion);
    var stop := (_: nat) => false;
    var calls := [Call(Writes(writes), true)];
    ServedOnce(writes, stop);
    WritesFacts(writes);
    WritesFit(writes);
    ghost var ops := Writes(writes);
    var error;
    sent, error := WriteContentChunked(output, calls, stop);
    received, content, rest := false, [], [];
    if sent {
      assert output.sent == EncodeAll(ops);
      RoundTrip([], ops, behind, true);
      assert [] + Written(ops) == Written(ops);
      var input := new InputStream(output.sent + behind, available, true);
      var out := new ContentReceiver((_, _) => true);
      received, content, rest := Receive(input, out);
      assert EncodeAll(Behind(ops)) + behind == behind by { EncodeNone(); }
    }
  }

  method Receive(input: InputStream, out: ContentReceiver) returns (received: bool, content: string, rest: string)
    requires input.pos == 0 && out.content == [] && !out.refused
    requires forall c, p :: out.accepts(c, p)
    modifies input, out
    ensures received <==> Decode([], input.bytes, input.endsCleanly).Done?
    ensures received ==> exists trailers :: Decode([], input.bytes, input.endsCleanly) == Done(content, trailers, rest)
  {
    hide Decode;
    assert input.Rest() == input.bytes;
    var trailers;
    received, trailers := ReadContentChunked(input, out);
    content := out.content;
    rest := input.bytes[input.pos..];
  }
}
