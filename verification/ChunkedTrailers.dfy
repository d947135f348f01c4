/** Chunked bodies written out: trailer sections, chunks without their line break, and
    the texts of sizes. */
module ChunkedTrailers {
  import opened ChunkedText
  import opened Options
  import opened ChunkedReader
  import opened ChunkedWriter
  import opened ChunkedRoundTrip

  /** What a line that is not blank holds in front of its line break. */
  predicate TextLine(l: string) { l != [] && Unbroken(l) }

  predicate TextLines(lines: seq<string>) { forall l :: l in lines ==> TextLine(l) }

  function Broken(lines: seq<string>): seq<string> {
    if lines == [] then [] else [lines[0] + "\r\n"] + Broken(lines[1..])
  }

  function Joined(lines: seq<string>): string {
    if lines == [] then [] else lines[0] + "\r\n" + Joined(lines[1..])
  }

  /** No line with its line break exceeds the limit of a header line. */
  predicate Short(lines: seq<string>) { forall l :: l in lines ==> |l| + 2 <= 8192 }

  lemma BreaksOff(l: string)
    requires TextLine(l)
    ensures CString(l + "\r\n") != "\r\n"
  {
    var s := l + "\r\n";
    assert s[0] == l[0] && s[1] == if |l| == 1 then '\r' else l[1];
    CStringFront(s);
  }

  /** Behind the size line of the last chunk: the lines up to the blank one are
      collected, and what follows is left, unless one of them is too long. */
  lemma {:induction false} TrailersRead(content: string, before: seq<string>, lines: seq<string>, t: string, eof: bool)
    requires TextLines(lines)
    ensures var (line, rest) := FirstLine(lines, t);
            Trailers(content, before, line, rest, eof)
            == if Short(lines) then Done(content, before + Broken(lines), t) else Failed
    decreases |lines|
  {
    hide TakeLine, CString, Joined;
    if lines == [] {
      BlankIsBlank();
      assert before + [] == before;
    } else {
      var l, more := lines[0], lines[1..];
      ShortParts(lines);
      BreaksOff(l);
      FirstLineIs(more, t, eof);
      TrailersRead(content, before + [l + "\r\n"], more, t, eof);
      assert before + [l + "\r\n"] + Broken(more) == before + Broken(lines);
    }
  }

  lemma ShortParts(lines: seq<string>)
    requires TextLines(lines) && lines != []
    ensures TextLine(lines[0]) && TextLines(lines[1..])
    ensures Short(lines) <==> |lines[0]| + 2 <= 8192 && Short(lines[1..])
  {
    hide TextLine;
    assert lines == [lines[0]] + lines[1..];
  }

  /** The first line of a trailer section that ends with a blank line, and the rest. */
  function FirstLine(lines: seq<string>, t: string): (string, string) {
    if lines == [] then ("\r\n", t) else (lines[0] + "\r\n", Joined(lines[1..]) + "\r\n" + t)
  }

  lemma FirstLineIs(lines: seq<string>, t: string, eof: bool)
    requires TextLines(lines)
    ensures TakeLine(Joined(lines) + "\r\n" + t, eof) == Some(FirstLine(lines, t))
  {
    hide TakeLine;
    if lines == [] {
      BlankLine(t, eof);
      assert [] + "\r\n" + t == "\r\n" + t;
    } else {
      hide Joined;
      assert TextLine(lines[0]) by { ShortParts(lines); }
      TakeLineIs(lines[0], Joined(lines[1..]) + "\r\n" + t, eof);
      JoinedFirst(lines, t);
    }
  }

  lemma JoinedFirst(lines: seq<string>, t: string)
    requires lines != []
    ensures Joined(lines) + "\r\n" + t == lines[0] + "\r\n" + (Joined(lines[1..]) + "\r\n" + t)
  {
    assert Joined(lines) == lines[0] + "\r\n" + Joined(lines[1..]);
    hide Joined;
    Regrouped(lines[0] + "\r\n", Joined(lines[1..]), "\r\n", t);
  }

  lemma Regrouped(a: string, b: string, c: string, d: string)
    ensures a + b + c + d == a + (b + c + d)
  {
  }

  lemma SmallSizes()
    ensures Hex(0) == "0" && Hex(3) == "3"
  {
  }

  lemma LastSize(content: string, rest: string, eof: bool)
    ensures Decode(content, "0\r\n" + rest, eof) == StartTrailers(content, rest, eof)
  {
    hide TakeLine, Strtoul, CString, Hex, StartTrailers;
    SmallSizes();
    SizeLine(0, rest, eof);
    SizeLineRoundTrip(0);
    assert "0\r\n" == Hex(0) + CRLF;
  }

  /** The end of a body with any trailer section. */
  lemma LastChunkWithTrailers(content: string, lines: seq<string>, t: string, eof: bool)
    requires TextLines(lines)
    ensures Decode(content, "0\r\n" + (Joined(lines) + "\r\n" + t), eof)
            == if Short(lines) then Done(content, Broken(lines), t) else Failed
  {
    hide TakeLine, Joined, Hex, Trailers, Broken, Decode;
    var rest := Joined(lines) + "\r\n" + t;
    LastSize(content, rest, eof);
    FirstLineIs(lines, t, eof);
    TrailersRead(content, [], lines, t, eof);
    assert [] + Broken(lines) == Broken(lines);
  }

  /** A body of chunks with a trailer section behind it. */
  lemma {:induction false} BodyWithTrailers(
    content: string, payloads: seq<string>, lines: seq<string>, t: string, eof: bool)
    requires TextLines(lines) && forall p :: p in payloads ==> 0 < |p| < ULONG_MAX
    ensures Decode(content, ChunksOf(payloads) + ("0\r\n" + (Joined(lines) + "\r\n" + t)), eof)
            == if Short(lines) then Done(content + Flat(payloads), Broken(lines), t) else Failed
    decreases |payloads|
  {
    hide Decode, TextLine, Hex;
    var last := "0\r\n" + (Joined(lines) + "\r\n" + t);
    if payloads == [] {
      assert ChunksOf(payloads) + last == last && content + Flat(payloads) == content;
      LastChunkWithTrailers(content, lines, t, eof);
    } else {
      var p, more := payloads[0], payloads[1..];
      assert p in payloads;
      ChunkIs(p);
      assert ChunksOf(payloads) + last == Chunk(p) + (ChunksOf(more) + last);
      OneChunk(content, p, ChunksOf(more) + last, eof);
      BodyWithTrailers(content + p, more, lines, t, eof);
      assert content + p + Flat(more) == content + Flat(payloads);
    }
  }

  function ChunksOf(payloads: seq<string>): string {
    if payloads == [] then []
    else Hex(|payloads[0]|) + "\r\n" + payloads[0] + "\r\n" + ChunksOf(payloads[1..])
  }

  function Flat(payloads: seq<string>): string { if payloads == [] then [] else payloads[0] + Flat(payloads[1..]) }

  lemma ChunkIs(p: string)
    ensures Chunk(p) == Hex(|p|) + "\r\n" + p + "\r\n"
  {
  }

  /** A chunk is accepted exactly when a line break follows its payload. */
  lemma ChunkEnds(content: string, payload: string, x: string, eof: bool)
    requires 0 < |payload| < ULONG_MAX
    ensures Decode(content, Hex(|payload|) + "\r\n" + (payload + x), eof)
            == if "\r\n" <= x then Decode(content + payload, x[2..], eof) else Failed
  {
    hide TakeLine, Strtoul, CString, Hex, StartTrailers;
    var n, rest := |payload|, payload + x;
    SizeLine(n, rest, eof);
    SizeLineRoundTrip(n);
    assert rest[..n] == payload && rest[n..] == x;
    if "\r\n" <= x {
      assert x == "\r\n" + x[2..];
      BlankLine(x[2..], eof);
      BlankIsBlank();
    } else if TakeLine(x, eof).Some? {
      NotBlank(x, eof);
    }
  }

  /** A first line that is not blank does not read as blank either. */
  lemma NotBlank(x: string, eof: bool)
    requires TakeLine(x, eof).Some? && !("\r\n" <= x)
    ensures CString(TakeLine(x, eof).value.0) != "\r\n"
  {
    hide TakeLine;
    var (line, rest) := TakeLine(x, eof).value;
    CStringFront(line);
    assert line + rest == x;
  }

  lemma {:induction false} CStringFront(s: string)
    ensures CString(s) <= s
  {
    if s != [] && s[0] != '\0' { CStringFront(s[1..]); }
  }

  /** What the writer sends, written out. */
  lemma SentText()
    ensures Encode(Op.Write("abc")) == "3" + "\r\n" + "abc" + "\r\n" && Encode(Op.Write("")) == ""
    ensures Encode(Op.Finish) == "0\r\n\r\n"
  {
    hide Hex;
    SmallSizes();
    assert |"abc"| == 3;
  }

  /** Sizes are in small letters. */
  lemma SizeWritten()
    ensures Hex(0x9A_BCDE) == "9abcde" && Hex(0xF0) == "f0"
  {
    assert Hex(0xF) == "f";
    assert Hex(0x9A) == "9a" && Hex(0x9_ABCD) == "9abcd";
  }

  /** A last line without a line break is one where the stream ends, and none where it
      breaks. */
  lemma LineAtTheEnd(s: string)
    requires s != [] && Unbroken(s)
    ensures TakeLine(s, true) == Some((s, [])) && TakeLine(s, false) == None
  {
    NoLineEnd(s, 0);
    assert s[..|s|] == s && s[|s|..] == [];
  }

  lemma {:induction false} NoLineEnd(s: string, i: nat)
    requires i <= |s| && Unbroken(s)
    ensures LineEnd(s, i) == |s|
    decreases |s| - i
  {
    if i < |s| { NoLineEnd(s, i + 1); }
  }

  /** Three bytes, one trailer line, and what belongs to the next message. */
  lemma ReadAbc(eof: bool)
    ensures Decode([], "3" + "\r\n" + "abc" + "\r\n" + ("0\r\n" + ("A: b\r\n" + "\r\n" + "GET")), eof)
            == Done("abc", ["A: b\r\n"], "GET")
  {
    hide Decode, Joined, Broken, ChunksOf, Flat, Hex;
    SmallSizes();
    OneLine("A: b");
    OneChunkOf("abc");
    assert |"abc"| == 3 && TextLine("A: b") && |"A: b"| == 4;
    assert TextLines(["A: b"]) && Short(["A: b"]);
    BodyWithTrailers([], ["abc"], ["A: b"], "GET", eof);
    assert ChunksOf(["abc"]) == "3" + "\r\n" + "abc" + "\r\n";
    assert Joined(["A: b"]) == "A: b\r\n";
    assert [] + "abc" == "abc";
  }

  lemma OneLine(l: string)
    ensures Joined([l]) == l + "\r\n" && Broken([l]) == [l + "\r\n"]
  {
    assert [l][1..] == [] && Joined([]) == [] && Broken([]) == [];
    assert l + "\r\n" + [] == l + "\r\n" && [l + "\r\n"] + [] == [l + "\r\n"];
  }

  lemma OneChunkOf(p: string)
    ensures ChunksOf([p]) == Hex(|p|) + "\r\n" + p + "\r\n" && Flat([p]) == p
  {
    hide Hex;
    assert [p][1..] == [] && ChunksOf([]) == [] && Flat([]) == [];
    var chunk := Hex(|p|) + "\r\n" + p + "\r\n";
    assert chunk + [] == chunk && p + [] == p;
  }

  /** The same with a byte too many in the chunk. */
  lemma RefuseAbcd(eof: bool)
    ensures Decode([], "3" + "\r\n" + ("abc" + "d\r\n0\r\n\r\n"), eof) == Failed
  {
    hide Decode, Hex;
    SmallSizes();
    assert |"abc"| == 3 && "d\r\n0\r\n\r\n"[0] == 'd';
    ChunkEnds([], "abc", "d\r\n0\r\n\r\n", eof);
  }

  predicate AllSpace(s: string) { forall i :: 0 <= i < |s| ==> IsSpace(s[i]) }

  predicate Sign(s: string) { s == "" || s == "+" || s == "-" }

  predicate Prefix(s: string) { s == "" || s == "0x" || s == "0X" }

  /** A size as any program may write it: spaces, a sign, a prefix, digits of either
      case, and whatever follows them. */
  lemma SizeText(spaces: string, sign: string, prefix: string, h: string, t: string)
    requires AllSpace(spaces) && Sign(sign) && Prefix(prefix)
    requires AllHex(h) && h != [] && t != [] && !IsHex(t[0])
    requires prefix == "" ==> h[0] != '0' || |h| > 1 || (t[0] != 'x' && t[0] != 'X')
    ensures Strtoul(spaces + (sign + (prefix + (h + t))))
            == Some(if HexValue(h) > 0xFFFF_FFFF_FFFF_FFFF then 0xFFFF_FFFF_FFFF_FFFF
                    else if sign == "-" && HexValue(h) > 0 then 0x1_0000_0000_0000_0000 - HexValue(h)
                    else HexValue(h))
  {
    hide HexValue, HexRun, SkipSpace, WithoutPrefix, AllSpace, Prefix, IsHex, Sign, StartsWithSpace;
    var digits := prefix + (h + t);
    RunOfHex(h, t);
    PrefixSkipped(prefix, h, t);
    SignTaken(sign, digits);
    SpaceSkipped(spaces, sign + digits);
  }

  predicate StartsWithSpace(s: string) { s != [] && IsSpace(s[0]) }

  lemma SignTaken(sign: string, digits: string)
    requires Sign(sign) && digits != [] && IsHex(digits[0])
    ensures var s := sign + digits;
            && !StartsWithSpace(s) && (s[0] == '-' <==> sign == "-")
            && digits == (if s[0] == '+' || s[0] == '-' then s[1..] else s)
  {
  }

  lemma PrefixSkipped(prefix: string, h: string, t: string)
    requires Prefix(prefix) && AllHex(h) && h != [] && t != [] && !IsHex(t[0])
    requires prefix == "" ==> h[0] != '0' || |h| > 1 || (t[0] != 'x' && t[0] != 'X')
    ensures WithoutPrefix(prefix + (h + t)) == h + t && IsHex((prefix + (h + t))[0])
  {
    var s := h + t;
    assert s[0] == h[0] && s[1] == if |h| > 1 then h[1] else t[0];
    if prefix == "" {
      assert prefix + s == s;
    } else {
      assert (prefix + s)[2] == s[0] && (prefix + s)[2..] == s;
    }
  }

  lemma {:induction false} SpaceSkipped(spaces: string, t: string)
    requires AllSpace(spaces) && t != [] && !StartsWithSpace(t)
    ensures SkipSpace(spaces + t) == t
  {
    if spaces == [] {
      assert spaces + t == t;
    } else {
      assert (spaces + t)[1..] == spaces[1..] + t;
      SpaceSkipped(spaces[1..], t);
    }
  }

  /** Digits of either case. */
  lemma DigitsRead()
    ensures HexValue("1F") == 31 && HexValue("0a9") == 169
  {
    assert "1F"[..1] == "1" && "1"[..0] == "" && "0a9"[..2] == "0a" && "0a"[..1] == "0" && "0"[..0] == "";
    assert HexValue("1") == 1 && HexValue("0") == 0;
    assert HexValue("0a") == 10;
  }
}
