/** Reading a chunked body (httplib): a line reader over a small fixed buffer, reads
    that may return less than asked for, and the loop over chunks. */
module ChunkedReader {
  import opened ChunkedText
  import opened Options

  /** The input side of a stream. How many bytes one read returns is up to the
      transport; at the end it reports the end or an error. */
  class InputStream {
    const bytes: string
    const available: nat -> nat
    const endsCleanly: bool
    var pos: nat

    constructor (bytes: string, available: nat -> nat, endsCleanly: bool)
      ensures this.bytes == bytes && this.available == available
      ensures this.endsCleanly == endsCleanly && pos == 0
    {
      this.bytes, this.available, this.endsCleanly, pos := bytes, available, endsCleanly, 0;
    }

    ghost predicate Valid()
      reads this
    {
      pos <= |bytes|
    }

    ghost function Rest(): string
      requires Valid()
      reads this
    {
      bytes[pos..]
    }

    /** Reads between 1 and size bytes; 0 at the end, -1 on an error. */
    method Read(size: nat) returns (n: int, data: string)
      requires Valid() && size > 0
      modifies this
      ensures Valid() && data + Rest() == old(Rest())
      ensures if old(Rest()) == [] then n == (if endsCleanly then 0 else -1) && data == []
              else 0 < n == |data| <= size
    {
      if pos == |bytes| { return if endsCleanly then 0 else -1, []; }
      var most := if size < |bytes| - pos then size else |bytes| - pos;
      var k := if 0 < available(pos) < most then available(pos) else most;
      n, data := k, bytes[pos..pos + k];
      pos := pos + k;
    }
  }

  /** The callback that takes the content; it may refuse a piece. */
  class ContentReceiver {
    const accepts: (string, string) -> bool
    var content: string
    var refused: bool

    constructor (accepts: (string, string) -> bool)
      ensures this.accepts == accepts && content == [] && !refused
    {
      this.accepts, content, refused := accepts, [], false;
    }

    ghost predicate Honest()
      reads this
    {
      refused ==> exists c, p :: !accepts(c, p)
    }

    method Take(piece: string) returns (ok: bool)
      requires Honest()
      modifies this
      ensures Honest()
      ensures ok == accepts(old(content), piece)
      ensures content == if ok then old(content) + piece else old(content)
      ensures refused == (old(refused) || !ok)
    {
      ok := accepts(content, piece);
      if ok { content := content + piece; } else { refused := true; }
    }
  }

  /** `stream_line_reader`: a line lives in the fixed buffer until it outgrows it. */
  class LineReader {
    const strm: InputStream
    const fixed: array<char>
    var used: nat
    var growable: string

    constructor (strm: InputStream, fixed: array<char>)
      requires fixed.Length >= 2
      ensures this.strm == strm && this.fixed == fixed && Valid()
    {
      this.strm, this.fixed, used, growable := strm, fixed, 0, [];
    }

    /** The fixed part is terminated by NUL; a grown line has left it full. */
    ghost predicate Valid()
      reads this, fixed
    {
      && 2 <= fixed.Length && used < fixed.Length
      && (used > 0 ==> fixed[used] == '\0')
      && (growable != [] ==> used == fixed.Length - 1)
    }

    /** `ptr()` and `size()`: the line. */
    function Line(): string
      requires Valid()
      reads this, fixed
    {
      if growable == [] then fixed[..used] else growable
    }

    method Append(c: char)
      requires Valid()
      modifies this, fixed
      ensures Valid() && Line() == old(Line()) + [c]
    {
      if used < fixed.Length - 1 {
        fixed[used] := c;
        used := used + 1;
        fixed[used] := '\0';
        assert fixed[..used] == old(fixed[..used]) + [c];
      } else {
        if growable == [] {
          assert fixed[used] == '\0';
          growable := fixed[..used];
        }
        growable := growable + [c];
      }
    }

    /** Moves one byte from the stream to the line. */
    method NextByte() returns (n: int, byte: char)
      requires Valid() && strm.Valid()
      modifies this, fixed, strm
      ensures Valid() && strm.Valid()
      ensures if old(strm.Rest()) == [] then
                n == (if strm.endsCleanly then 0 else -1) && strm.Rest() == [] && Line() == old(Line())
              else
                n == 1 && byte == old(strm.Rest()[0]) && strm.Rest() == old(strm.Rest()[1..])
                && Line() == old(Line()) + [byte]
    {
      ghost var was := strm.Rest();
      var data;
      n, data := strm.Read(1);
      byte := '\0';
      if n == 1 {
        byte := data[0];
        assert data == [byte];
        assert was[0] == byte && was[1..] == strm.Rest();
        Append(byte);
      }
    }

    /** Reads byte by byte up to a line break or the end of the stream. */
    method GetLine() returns (ok: bool)
      requires Valid() && strm.Valid()
      modifies this, fixed, strm
      ensures Valid() && strm.Valid()
      ensures ok == TakeLine(old(strm.Rest()), strm.endsCleanly).Some?
      ensures ok ==> (Line(), strm.Rest()) == TakeLine(old(strm.Rest()), strm.endsCleanly).value
    {
      hide Scanned, LineEnd, TakeLine, EndsLine;
      used := 0;
      growable := [];
      ghost var all := strm.Rest();
      var prev := '\0';
      var i := 0;
      StartScan(all);
      while true
        invariant Valid() && strm.Valid()
        invariant i <= |all| && Scanned(all, i, prev) && Line() == all[..i] && strm.Rest() == all[i..]
        decreases |all| - i
      {
        SplitAt(all, i, prev);
        if i < |all| { SplitSlices(all, i); }
        var n, byte := NextByte();
        if n < 0 {
          AtTheEnd(all, i, prev, false);
          return false;
        } else if n == 0 {
          AtTheEnd(all, i, prev, true);
          if i == 0 { return false; }
          break;
        }
        i := i + 1;
        if prev == '\r' && byte == '\n' {
          LineFound(all, i, strm.endsCleanly);
          break;
        }
        prev := byte;
      }
      return true;
    }
  }

  /** The first i bytes hold no line break; prev is the last of them. */
  ghost predicate Scanned(all: string, i: nat, prev: char) {
    && i <= |all| && LineEnd(all, 0) == LineEnd(all, i) && !EndsLine(all[..i])
    && prev == if i == 0 then '\0' else all[i - 1]
  }

  lemma StartScan(all: string)
    ensures Scanned(all, 0, '\0') && all[..0] == [] && all[0..] == all
  {
  }

  /** One more byte either completes a line break or not. */
  lemma SplitAt(all: string, i: nat, prev: char)
    requires i <= |all| && Scanned(all, i, prev)
    ensures i < |all| ==>
              if prev == '\r' && all[i] == '\n' then LineEnd(all, 0) == i + 1 && EndsLine(all[..i + 1])
              else Scanned(all, i + 1, all[i])
  {
    hide LineEnd;
    if i < |all| {
      ScanOn(all, i);
    }
  }

  lemma SplitSlices(all: string, i: nat)
    requires i < |all|
    ensures all[i..][0] == all[i] && all[i..][1..] == all[i + 1..] && all[..i] + [all[i]] == all[..i + 1]
  {
  }

  lemma ScanOn(all: string, i: nat)
    requires i < |all|
    ensures LineEnd(all, i) == if i > 0 && all[i - 1] == '\r' && all[i] == '\n' then i + 1 else LineEnd(all, i + 1)
  {
  }

  lemma AtTheEnd(all: string, i: nat, prev: char, eof: bool)
    requires Scanned(all, i, prev) && all[i..] == []
    ensures TakeLine(all, eof) == if eof && i > 0 then Some((all[..i], all[i..])) else None
  {
    assert i == |all| && all[..i] == all;
  }

  lemma LineFound(all: string, i: nat, eof: bool)
    requires i <= |all| && LineEnd(all, 0) == i && EndsLine(all[..i])
    ensures TakeLine(all, eof) == Some((all[..i], all[i..]))
  {
  }

  // Content.

  const RECV_BUFSIZ := 16384
  const HEADER_MAX_LENGTH := 8192

  /** `read_content_with_length`: the next len bytes, in as many reads as it takes. */
  method ReadContentWithLength(strm: InputStream, len: nat, out: ContentReceiver) returns (ok: bool)
    requires strm.Valid() && !out.refused
    modifies strm, out
    ensures strm.Valid()
    ensures ok ==> len <= |old(strm.Rest())| && strm.Rest() == old(strm.Rest())[len..]
    ensures ok ==> out.content == old(out.content) + old(strm.Rest())[..len] && !out.refused
    ensures !ok ==> out.refused || |old(strm.Rest())| < len
    ensures out.Honest()
  {
    ghost var all := strm.Rest();
    ghost var before := out.content;
    var r := 0;
    while r < len
      invariant strm.Valid() && !out.refused && out.Honest()
      invariant r <= len && r <= |all| && strm.Rest() == all[r..] && out.content == before + all[..r]
    {
      var n, buf := strm.Read(if len - r < RECV_BUFSIZ then len - r else RECV_BUFSIZ);
      if n <= 0 { return false; }
      ReadMore(all, r, buf, strm.Rest(), before);
      var taken := out.Take(buf);
      if !taken { return false; }
      r := r + n;
    }
    return true;
  }

  lemma ReadMore(all: string, r: nat, data: string, rest: string, before: string)
    requires r <= |all| && data + rest == all[r..]
    ensures r + |data| <= |all| && rest == all[r + |data|..]
    ensures before + all[..r] + data == before + all[..r + |data|]
  {
    assert all[..r + |data|] == all[..r] + data by {
      assert all[r..][..|data|] == data;
    }
  }

  /** The result of reading a chunked body: the content, the trailer lines, and what
      is left in the stream. */
  datatype Outcome = Done(content: string, trailers: seq<string>, rest: string) | Failed

  /** The trailer section, its first line already read. */
  function Trailers(content: string, lines: seq<string>, line: string, rest: string, eof: bool): Outcome
    decreases |rest|
  {
    if CString(line) == CRLF then Done(content, lines, rest)
    else if |line| > HEADER_MAX_LENGTH then Failed
    else
      match TakeLine(rest, eof)
      case None => Failed
      case Some((next, after)) => Trailers(content, lines + [line], next, after, eof)
  }

  function StartTrailers(content: string, rest: string, eof: bool): Outcome {
    match TakeLine(rest, eof)
    case None => Failed
    case Some((line, after)) => Trailers(content, [], line, after, eof)
  }

  /** The chunks, the first size line already read. */
  function Chunks(content: string, line: string, rest: string, eof: bool): Outcome
    decreases |rest|
  {
    match Strtoul(CString(line))
    case None => Failed
    case Some(n) =>
      if n == ULONG_MAX then Failed
      else if n == 0 then StartTrailers(content, rest, eof)
      else if |rest| < n then Failed
      else
        match TakeLine(rest[n..], eof)
        case None => Failed
        case Some((end, after)) =>
          if CString(end) != CRLF then Failed
          else
            match TakeLine(after, eof)
            case None => Failed
            case Some((next, tail)) => Chunks(content + rest[..n], next, tail, eof)
  }

  /** A chunked body at the front of s (section 7.1 of RFC 9112, as the code reads it). */
  function Decode(content: string, s: string, eof: bool): Outcome {
    match TakeLine(s, eof)
    case None => Failed
    case Some((line, rest)) => Chunks(content, line, rest, eof)
  }

  /** `read_content_chunked`, on a stream and with a line buffer of 16 bytes. */
  method ReadContentChunked(strm: InputStream, out: ContentReceiver) returns (ok: bool, trailers: seq<string>)
    requires strm.Valid() && !out.refused
    modifies strm, out
    ensures strm.Valid()
    ensures ok ==> Decode(old(out.content), old(strm.Rest()), strm.endsCleanly)
                   == Done(out.content, trailers, strm.Rest())
    ensures !ok ==> out.refused || Decode(old(out.content), old(strm.Rest()), strm.endsCleanly) == Failed
    ensures out.Honest()
  {
    hide TakeLine, Strtoul, CString, HexValue, HexRun;
    ghost var eof := strm.endsCleanly;
    ghost var target := Decode(out.content, strm.Rest(), eof);
    trailers := [];
    var buf := new char[16];
    var reader := new LineReader(strm, buf);
    var got := reader.GetLine();
    if !got { return false, []; }
    while true
      invariant reader.Valid() && strm.Valid() && !out.refused && fresh(reader) && fresh(buf)
      invariant Chunks(out.content, reader.Line(), strm.Rest(), eof) == target
      decreases |strm.Rest()|
    {
      var size := Strtoul(CString(reader.Line()));
      if size.None? || size.value == ULONG_MAX { return false, []; }
      if size.value == 0 { break; }
      ok := ReadContentWithLength(strm, size.value, out);
      if !ok { return false, []; }
      got := reader.GetLine();
      if !got || CString(reader.Line()) != CRLF { return false, []; }
      got := reader.GetLine();
      if !got { return false, []; }
    }
    ok, trailers := ReadTrailers(reader, out.content);
  }

  /** The trailer section of `read_content_chunked`. What the header parser makes of a
      line is not modelled: the lines are collected. */
  method ReadTrailers(reader: LineReader, ghost content: string) returns (ok: bool, lines: seq<string>)
    requires reader.Valid() && reader.strm.Valid()
    modifies reader, reader.fixed, reader.strm
    ensures reader.strm.Valid()
    ensures ok ==> StartTrailers(content, old(reader.strm.Rest()), reader.strm.endsCleanly)
                   == Done(content, lines, reader.strm.Rest())
    ensures !ok ==> StartTrailers(content, old(reader.strm.Rest()), reader.strm.endsCleanly) == Failed
  {
    hide TakeLine, CString;
    ghost var eof := reader.strm.endsCleanly;
    ghost var target := StartTrailers(content, reader.strm.Rest(), eof);
    lines := [];
    var got := reader.GetLine();
    if !got { return false, []; }
    while CString(reader.Line()) != CRLF
      invariant reader.Valid() && reader.strm.Valid()
      invariant Trailers(content, lines, reader.Line(), reader.strm.Rest(), eof) == target
      decreases |reader.strm.Rest()|
    {
      if |reader.Line()| > HEADER_MAX_LENGTH { return false, []; }
      lines := lines + [reader.Line()];
      got := reader.GetLine();
      if !got { return false, []; }
    }
    ok := true;
  }
}
