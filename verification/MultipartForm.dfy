/** What the parser delivers for text that is written out: content, delimiter and what
    follows it, whatever the cuts. */
module MultipartForm {
  import opened Multipart
  import opened MultipartSplit
  import opened MultipartEpilogue

  /** The two delimiters of section 5.1.1 of RFC 2046, character by character. */
  lemma DelimitersWrittenOut(b: string)
    ensures Delimiter(b) == "\r\n--" + b
    ensures Opening(b) == "--" + b + "\r\n"
  {
  }

  /** d begins nowhere in the text before it, not even where it would end in d itself. */
  predicate NotBefore(before: string, d: string) {
    forall i :: 0 <= i < |before| ==> !OccursAt(before + d, d, i)
  }

  lemma FoundBehind(before: string, d: string, behind: string)
    requires d != [] && NotBefore(before, d)
    ensures var all := before + d + behind; Occurs(all, d) && Find(all, d) == |before|
  {
    hide Find, FindFrom;
    var all := before + d + behind;
    assert all[|before|..|before| + |d|] == d;
    OccursFrom(all, d, |before|);
    forall i | i < |before| ensures !OccursAt(all, d, i) {
      if i >= 0 {
        assert all[i..i + |d|] == (before + d)[i..i + |d|];
        assert !OccursAt(before + d, d, i);
      }
    }
    assert IsFirst(all, d, |before|);
    FirstIsUnique(all, d, |before|, Find(all, d));
  }

  /** Where the content ends in the whole text. */
  lemma ContentEnds(b: string, c: string, behind: string)
    requires NotBefore(c, "\r\n--" + b)
    ensures var all := c + ("\r\n--" + b) + behind;
            Occurs(all, Delimiter(b)) && all[..Find(all, Delimiter(b))] == c && AfterDelimiter(b, all) == behind
  {
    DelimitersWrittenOut(b);
    FoundBehind(c, Delimiter(b), behind);
    hide Find, FindFrom, Delimiter, Occurs;
  }

  /** A last part, cut anywhere: exactly its content is delivered, and the form is
      valid; a receiver that never refuses sees the parser come to rest. */
  lemma LastPart(b: string, c: string, pieces: seq<string>, accepts: Receiver)
    requires NotBefore(c, "\r\n--" + b) && Concat(pieces) == c + ("\r\n--" + b) + "--"
    ensures var (p, ok) := ParseAll(b, START, pieces, accepts); ok ==> p.content == c && p.valid
    ensures Accepting(accepts) ==> ParseAll(b, START, pieces, accepts) == (Parser(Boundary, [], c, true), true)
  {
    var all := c + ("\r\n--" + b) + "--";
    ContentEnds(b, c, "--");
    hide Delimiter, Occurs, Find, AfterDelimiter, NotBefore;
    var (p, ok) := ParseAll(b, START, pieces, accepts);
    if ok { BodyDelivers(b, pieces, accepts); }
    if Accepting(accepts) {
      AllAccepted(b, pieces, accepts);
      EpilogueKeeps(b, pieces, accepts);
    }
  }

  /** A part with another one behind it: its content is delivered, and what follows the
      line break is kept for the header state. */
  lemma PartBeforeAnother(b: string, c: string, rest: string, pieces: seq<string>, accepts: Receiver)
    requires NotBefore(c, "\r\n--" + b) && Concat(pieces) == c + ("\r\n--" + b) + ("\r\n" + rest)
    ensures var (p, ok) := ParseAll(b, START, pieces, accepts); ok ==> p == Parser(Headers, rest, c, false)
  {
    var behind := "\r\n" + rest;
    var all := c + ("\r\n--" + b) + behind;
    ContentEnds(b, c, behind);
    assert behind[0] == CRLF[0] && CRLF <= behind;
    hide Delimiter, Occurs, Find, AfterDelimiter, NotBefore;
    var (p, ok) := ParseAll(b, START, pieces, accepts);
    if ok {
      BodyDelivers(b, pieces, accepts);
      assert (CRLF + p.pending)[2..] == p.pending && behind[2..] == rest;
    }
  }

  /** The concrete case. */
  lemma Hello(pieces: seq<string>, accepts: Receiver)
    requires Concat(pieces) == "hello\r\n--B--" && Accepting(accepts)
    ensures ParseAll("B", START, pieces, accepts) == (Parser(Boundary, [], "hello", true), true)
  {
    var text := "hello\r\n--B";
    assert "hello" + ("\r\n--" + "B") == text && text + "--" == "hello\r\n--B--";
    forall i | 0 <= i < 5 ensures !OccursAt(text, "\r\n--" + "B", i) {
      assert text[i..i + 5][0] == text[i] != '\r';
    }
    LastPart("B", "hello", pieces, accepts);
  }

  /** The opening boundary, once a call holds all of it: what precedes it is dropped,
      what follows it is kept for the header state. */
  lemma OpeningFound(b: string, before: string, rest: string, accepts: Receiver)
    requires NotBefore(before, "--" + b + "\r\n")
    ensures ParseOne(b, Parser(Preamble, [], [], false), before + ("--" + b + "\r\n") + rest, accepts)
            == (Parser(Headers, rest, [], false), true)
  {
    DelimitersWrittenOut(b);
    FoundBehind(before, Opening(b), rest);
    hide Opening, Occurs, Find, FindFrom;
    var all := before + Opening(b) + rest;
    assert [] + all == all;
    assert all[|before|..][|Opening(b)|..] == rest;
    HeadersKeep(b, PreambleTurn(b, Parser(Preamble, all, [], false)).0, accepts);
  }
}
