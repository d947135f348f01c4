/** Writing a chunked body (httplib): a data sink that emits one chunk per write, and
    the loop that asks the content provider for more. No compression, no trailers. */
module ChunkedWriter {
  import opened ChunkedText
  import opened Options

  /** The output side of a stream: it may take only so many bytes, and only a few of
      them at a time. */
  class OutputStream {
    const room: nat
    const ready: nat -> bool
    const portion: nat -> nat
    var sent: string

    constructor (room: nat, ready: nat -> bool, portion: nat -> nat)
      ensures this.room == room && this.ready == ready && this.portion == portion && sent == []
    {
      this.room, this.ready, this.portion, sent := room, ready, portion, [];
    }

    predicate IsWritable()
      reads this
    {
      ready(|sent|)
    }

    /** Always ready, with room for that many bytes more. */
    ghost predicate Takes(bytes: nat)
      reads this
    {
      (forall n :: ready(n)) && |sent| + bytes <= room
    }

    /** Sends between 1 and |data| bytes from the front of data; -1 without room. */
    method Write(data: string) returns (length: int)
      requires data != []
      modifies this
      ensures if |old(sent)| >= room then length == -1 && sent == old(sent)
              else 0 < length <= |data| && sent == old(sent) + data[..length] && |sent| <= room
    {
      if |sent| >= room { return -1; }
      var most := if |data| < room - |sent| then |data| else room - |sent|;
      length := if 0 < portion(|sent|) < most then portion(|sent|) else most;
      sent := sent + data[..length];
    }

    /** `write_data`: all of data, in as many portions as it takes. */
    method WriteData(data: string) returns (ok: bool)
      modifies this
      ensures ok ==> sent == old(sent) + data
      ensures !ok ==> |old(sent)| + |data| > room
    {
      var offset := 0;
      while offset < |data|
        invariant 0 <= offset <= |data| && sent == old(sent) + data[..offset]
      {
        var length := Write(data[offset..]);
        if length < 0 { return false; }
        assert data[..offset] + data[offset..][..length] == data[..offset + length];
        offset := offset + length;
      }
      return true;
    }
  }

  /** What a content provider does with the sink, in the order in which it does it. */
  datatype Op = Write(data: string) | Finish

  /** One call of the provider: its operations, and whether it reports success. */
  datatype Call = Call(ops: seq<Op>, succeeds: bool)

  function Chunk(payload: string): string { Hex(|payload|) + CRLF + payload + CRLF }

  /** The bytes that an operation puts on the wire. */
  function Encode(op: Op): string {
    match op
    case Write(data) => if data == [] then [] else Chunk(data)
    case Finish => "0\r\n" + CRLF
  }

  function EncodeAll(ops: seq<Op>): string {
    if ops == [] then [] else Encode(ops[0]) + EncodeAll(ops[1..])
  }

  /** More operations put more bytes on the wire. */
  lemma {:induction false} EncodePrefix(ops: seq<Op>, i: nat)
    requires i < |ops|
    ensures EncodeAll(ops[..i + 1]) == EncodeAll(ops[..i]) + Encode(ops[i])
    ensures |EncodeAll(ops[..i + 1])| <= |EncodeAll(ops)|
  {
    assert ops[..i + 1] == ops[..i] + [ops[i]];
    EncodeJoin(ops[..i], [ops[i]]);
    assert [ops[i]][1..] == [];
    assert EncodeAll([ops[i]]) == Encode(ops[i]) + EncodeAll([]);
    assert ops == ops[..i + 1] + ops[i + 1..];
    EncodeJoin(ops[..i + 1], ops[i + 1..]);
  }

  /** Whether the sink still counts on more data after some operations. */
  function Expecting(ops: seq<Op>, before: bool): bool {
    if ops == [] then before
    else match ops[|ops| - 1]
      case Write(data) => data != []
      case Finish => false
  }

  lemma {:induction false} EncodeJoin(a: seq<Op>, b: seq<Op>)
    ensures EncodeAll(a + b) == EncodeAll(a) + EncodeAll(b)
  {
    if a == [] {
      assert a + b == b;
    } else {
      assert (a + b)[0] == a[0] && (a + b)[1..] == a[1..] + b;
      EncodeJoin(a[1..], b);
    }
  }

  class DataSink {
    const strm: OutputStream
    var offset: nat
    var dataAvailable: bool
    var ok: bool

    constructor (strm: OutputStream)
      ensures this.strm == strm && offset == 0 && dataAvailable && ok
    {
      this.strm, offset, dataAvailable, ok := strm, 0, true, true;
    }

    /** `data_sink.write`: one chunk; an empty write only says that there is no more. */
    method Write(data: string)
      modifies this, strm
      ensures ok ==> old(ok) && strm.sent == old(strm.sent) + Encode(Op.Write(data))
      ensures ok ==> dataAvailable == (data != []) && offset == old(offset) + |data|
      ensures old(ok) && old(strm.Takes(|Encode(Op.Write(data))|)) ==> ok
    {
      if ok {
        dataAvailable := |data| > 0;
        offset := offset + |data|;
        if data != [] {
          var size := FromIToHex(|data|);
          var chunk := size + CRLF + data + CRLF;
          var sent := strm.IsWritable();
          if sent { sent := strm.WriteData(chunk); }
          if !sent { ok := false; }
        }
      }
    }

    /** `data_sink.done`. */
    method Finish()
      modifies this, strm
      ensures ok ==> old(ok) && strm.sent == old(strm.sent) + Encode(Op.Finish) && !dataAvailable
      ensures ok ==> offset == old(offset)
      ensures old(ok) && old(strm.Takes(|Encode(Op.Finish)|)) ==> ok
    {
      if !ok { return; }
      dataAvailable := false;
      var marker := "0\r\n";
      var sent := strm.WriteData(marker);
      if !sent { ok := false; }
      sent := strm.WriteData(CRLF);
      if !sent { ok := false; }
    }

    /** One call of the provider. */
    method Serve(ops: seq<Op>)
      modifies this, strm
      ensures ok ==> old(ok) && strm.sent == old(strm.sent) + EncodeAll(ops)
      ensures ok ==> dataAvailable == Expecting(ops, old(dataAvailable))
      ensures old(ok) && old(strm.Takes(|EncodeAll(ops)|)) ==> ok
    {
      hide Encode, EncodeAll;
      ghost var sent := strm.sent;
      ghost var taken := ok && strm.Takes(|EncodeAll(ops)|);
      var i := 0;
      EncodeNone();
      while i < |ops|
        invariant i <= |ops|
        invariant ok ==> old(ok) && strm.sent == sent + EncodeAll(ops[..i])
        invariant ok ==> dataAvailable == Expecting(ops[..i], old(dataAvailable))
        invariant taken ==> ok
      {
        EncodePrefix(ops, i);
        match ops[i] {
          case Write(data) => Write(data);
          case Finish => Finish();
        }
        i := i + 1;
      }
      assert ops[..i] == ops;
    }
  }

  lemma EncodeNone()
    ensures EncodeAll([]) == []
  {
  }

  datatype Error = Success | WriteError | Canceled

  /** The operations that the loop gets through from call i on, if no call of the
      provider fails; a provider that is out of calls fails. */
  function Served(calls: seq<Call>, i: nat, available: bool, shuttingDown: nat -> bool): Option<seq<Op>>
    requires i <= |calls|
    decreases |calls| - i
  {
    if !available || shuttingDown(i) then Some([])
    else if i == |calls| || !calls[i].succeeds then None
    else
      match Served(calls, i + 1, Expecting(calls[i].ops, available), shuttingDown)
      case None => None
      case Some(later) => Some(calls[i].ops + later)
  }

  /** All operations of all calls. */
  function AllOps(calls: seq<Call>): seq<Op>
    decreases |calls|
  {
    if calls == [] then [] else AllOps(calls[..|calls| - 1]) + calls[|calls| - 1].ops
  }

  lemma {:induction false} AllOpsPrefix(calls: seq<Call>, i: nat)
    requires i <= |calls|
    ensures |EncodeAll(AllOps(calls[..i]))| <= |EncodeAll(AllOps(calls))|
    ensures i < |calls| ==> AllOps(calls[..i + 1]) == AllOps(calls[..i]) + calls[i].ops
    decreases |calls| - i
  {
    hide EncodeAll;
    if i < |calls| {
      assert calls[..i + 1][..i] == calls[..i];
      EncodeJoin(AllOps(calls[..i]), calls[i].ops);
      AllOpsPrefix(calls, i + 1);
    } else {
      assert calls[..i] == calls;
    }
  }

  ghost function Prepend(done: seq<Op>, later: Option<seq<Op>>): Option<seq<Op>> {
    match later
    case None => None
    case Some(ops) => Some(done + ops)
  }

  lemma ServedStep(calls: seq<Call>, i: nat, available: bool, shuttingDown: nat -> bool, done: seq<Op>)
    requires i < |calls| && available && !shuttingDown(i) && calls[i].succeeds
    ensures Prepend(done, Served(calls, i, available, shuttingDown))
            == Prepend(done + calls[i].ops,
                       Served(calls, i + 1, Expecting(calls[i].ops, available), shuttingDown))
  {
    var later := Served(calls, i + 1, Expecting(calls[i].ops, available), shuttingDown);
    if later.Some? { assert done + (calls[i].ops + later.value) == (done + calls[i].ops) + later.value; }
  }

  lemma ServedStart(later: Option<seq<Op>>)
    ensures Prepend([], later) == later
  {
    if later.Some? { assert [] + later.value == later.value; }
  }

  /** `write_content_chunked`. */
  method WriteContentChunked(strm: OutputStream, calls: seq<Call>, shuttingDown: nat -> bool)
      returns (ok: bool, error: Error)
    modifies strm
    ensures ok <==> error == Success
    ensures ok ==> Served(calls, 0, true, shuttingDown).Some?
                   && strm.sent == old(strm.sent) + EncodeAll(Served(calls, 0, true, shuttingDown).value)
    ensures error == Canceled ==> Served(calls, 0, true, shuttingDown).None?
    ensures old(strm.Takes(|EncodeAll(AllOps(calls))|)) ==>
              error != WriteError && (ok <==> Served(calls, 0, true, shuttingDown).Some?)
  {
    hide EncodeAll, Expecting;
    var sink := new DataSink(strm);
    ghost var sent := strm.sent;
    ghost var target := Served(calls, 0, true, shuttingDown);
    ghost var taken := strm.Takes(|EncodeAll(AllOps(calls))|);
    var i := 0;
    EncodeNone();
    ServedStart(target);
    while sink.dataAvailable && !shuttingDown(i)
      invariant i <= |calls| && sink.ok && sink.strm == strm && fresh(sink)
      invariant strm.sent == sent + EncodeAll(AllOps(calls[..i]))
      invariant target == Prepend(AllOps(calls[..i]), Served(calls, i, sink.dataAvailable, shuttingDown))
      decreases |calls| - i
    {
      ghost var done := AllOps(calls[..i]);
      AllOpsPrefix(calls, i);
      if !strm.IsWritable() { return false, WriteError; }
      if i == |calls| { return false, Canceled; }
      AllOpsPrefix(calls, i + 1);
      EncodeJoin(done, calls[i].ops);
      if calls[i].succeeds { ServedStep(calls, i, sink.dataAvailable, shuttingDown, done); }
      sink.Serve(calls[i].ops);
      if !calls[i].succeeds { return false, Canceled; }
      if !sink.ok { return false, WriteError; }
      i := i + 1;
    }
    ghost var done := AllOps(calls[..i]);
    assert done + [] == done;
    return true, Success;
  }
}
