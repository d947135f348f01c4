/** The multipart form-data parser of httplib: a state machine over a buffer that is
    compacted as it is refilled. The header state is outside the model: the parser
    stops there and keeps the bytes that the header code would read. */
module Multipart {

  const DASH := "--"
  const CRLF := "\r\n"

  /** The delimiter that ends the content of a part (section 5.1.1 of RFC 2046). */
  function Delimiter(boundary: string): (d: string)
    ensures |d| == |boundary| + 4
  {
    CRLF + DASH + boundary
  }

  /** The delimiter that opens the first part. */
  function Opening(boundary: string): (d: string)
    ensures |d| == |boundary| + 4
  {
    DASH + boundary + CRLF
  }

  predicate OccursAt(s: string, d: string, i: int) {
    0 <= i && i + |d| <= |s| && s[i..i + |d|] == d
  }

  ghost predicate Occurs(s: string, d: string) { exists i :: OccursAt(s, d, i) }

  /** p is the first place where d occurs in s, or the length of s if there is none. */
  ghost predicate IsFirst(s: string, d: string, p: int) {
    && 0 <= p <= |s|
    && (forall i :: i < p ==> !OccursAt(s, d, i))
    && (p < |s| ==> OccursAt(s, d, p))
    && (p == |s| ==> !Occurs(s, d))
  }

  /** The search as a function, scanning from i. */
  function FindFrom(s: string, d: string, i: nat): (p: nat)
    requires d != [] && i <= |s|
    ensures i <= p <= |s|
    ensures forall j :: i <= j < p ==> !OccursAt(s, d, j)
    ensures if p < |s| then OccursAt(s, d, p) else forall j :: i <= j ==> !OccursAt(s, d, j)
    decreases |s| - i
  {
    if i + |d| > |s| then |s|
    else if s[i..i + |d|] == d then i
    else FindFrom(s, d, i + 1)
  }

  function Find(s: string, d: string): (p: nat)
    requires d != []
    ensures p <= |s| && IsFirst(s, d, p)
  {
    FindFrom(s, d, 0)
  }

  lemma FirstIsUnique(s: string, d: string, p: int, q: int)
    requires d != [] && IsFirst(s, d, p) && IsFirst(s, d, q)
    ensures p == q
  {
  }

  /** States 0, 1 and 2 together, 3 and 4 of the parser. */
  datatype Phase = Preamble | Headers | Body | Boundary

  /** The parser as a value: the unread bytes, and the content accepted so far. */
  datatype Parser = Parser(phase: Phase, pending: string, content: string, valid: bool)

  /** Decides, from the content accepted so far and a further piece, whether the
      content callback accepts the piece. */
  type Receiver = (string, string) -> bool

  function Rank(phase: Phase): nat {
    match phase
    case Preamble => 3
    case Body => 2
    case Boundary => 1
    case Headers => 0
  }

  /** What one turn of the loop of `parse` decides. */
  datatype Verdict = Again | Wait | Refused

  /** Later states, or fewer pending bytes in the same state. */
  predicate Progress(p: Parser, q: Parser) {
    Rank(q.phase) < Rank(p.phase) || (q.phase == p.phase && |q.pending| < |p.pending|)
  }

  /** State 0: whatever precedes the opening boundary is dropped. */
  function PreambleTurn(b: string, p: Parser): (Parser, Verdict) {
    var rest := p.pending[Find(p.pending, Opening(b))..];
    if |Opening(b)| > |rest| then (p.(pending := rest), Wait)
    else (p.(pending := rest[|Opening(b)|..], phase := Headers), Again)
  }

  /** State 3. Without the delimiter, the last bytes are held back: they may be the
      start of it. */
  function BodyTurn(b: string, p: Parser, accepts: Receiver): (Parser, Verdict) {
    if |Delimiter(b)| > |p.pending| then (p, Wait)
    else
      var pos := Find(p.pending, Delimiter(b));
      var len := |p.pending| - |Delimiter(b)|;
      if pos < |p.pending| then
        if accepts(p.content, p.pending[..pos]) then
          (p.(content := p.content + p.pending[..pos],
              pending := p.pending[pos + |Delimiter(b)|..], phase := Boundary), Again)
        else (p.(valid := false), Refused)
      else if len == 0 then (p, Wait)
      else if accepts(p.content, p.pending[..len]) then
        (p.(content := p.content + p.pending[..len], pending := p.pending[len..]), Wait)
      else (p.(valid := false), Refused)
  }

  /** State 4. */
  function BoundaryTurn(p: Parser): (Parser, Verdict) {
    if |p.pending| < 2 then (p, Wait)
    else if CRLF <= p.pending then (p.(pending := p.pending[2..], phase := Headers), Again)
    else if DASH <= p.pending then (p.(pending := [], valid := true), Again)
    else (p, Wait)
  }

  function Turn(b: string, p: Parser, accepts: Receiver): (r: (Parser, Verdict))
    ensures r.1 == Again && p.pending != [] ==> Progress(p, r.0)
  {
    match p.phase
    case Preamble => PreambleTurn(b, p)
    case Headers => (p, Wait)
    case Body => BodyTurn(b, p, accepts)
    case Boundary => BoundaryTurn(p)
  }

  /** The loop of `parse` over the pending bytes; false when the callback refuses. */
  function Loop(b: string, p: Parser, accepts: Receiver): (Parser, bool)
    decreases Rank(p.phase), |p.pending|
  {
    if p.pending == [] then (p, true)
    else
      var (q, verdict) := Turn(b, p, accepts);
      match verdict
      case Again => Loop(b, q, accepts)
      case Wait => (q, true)
      case Refused => (q, false)
  }

  function ParseOne(b: string, p: Parser, data: string, accepts: Receiver): (Parser, bool) {
    Loop(b, p.(pending := p.pending + data), accepts)
  }

  /** One parse call per piece, stopping at a refusal. */
  function ParseAll(b: string, p: Parser, pieces: seq<string>, accepts: Receiver): (Parser, bool)
    decreases |pieces|
  {
    if pieces == [] then (p, true)
    else
      var (q, ok) := ParseAll(b, p, pieces[..|pieces| - 1], accepts);
      if ok then ParseOne(b, q, pieces[|pieces| - 1], accepts) else (q, false)
  }

  function Concat(pieces: seq<string>): string
    decreases |pieces|
  {
    if pieces == [] then [] else Concat(pieces[..|pieces| - 1]) + pieces[|pieces| - 1]
  }

  class MultipartFormDataParser {
    var boundary: string
    var dashBoundaryCrlf: string
    var crlfDashBoundary: string
    var phase: Phase
    var valid: bool
    var buf: string
    var spos: nat
    var epos: nat
    // Everything the content callback accepted.
    var content: string

    ghost predicate Valid()
      reads this
    {
      && spos <= epos <= |buf|
      && dashBoundaryCrlf == Opening(boundary)
      && crlfDashBoundary == Delimiter(boundary)
    }

    ghost function Data(): string
      requires Valid()
      reads this
    {
      buf[spos..epos]
    }

    ghost function View(): Parser
      requires Valid()
      reads this
    {
      Parser(phase, Data(), content, valid)
    }

    constructor ()
      ensures Valid() && boundary == [] && View() == Parser(Preamble, [], [], false)
    {
      boundary := [];
      dashBoundaryCrlf := Opening([]);
      crlfDashBoundary := Delimiter([]);
      phase, valid, buf, spos, epos, content := Preamble, false, [], 0, 0, [];
    }

    method SetBoundary(b: string)
      requires Valid()
      modifies this
      ensures Valid() && boundary == b && View() == old(View())
      ensures crlfDashBoundary == "\r\n--" + b && dashBoundaryCrlf == "--" + b + "\r\n"
    {
      boundary := b;
      dashBoundaryCrlf := DASH + b + CRLF;
      crlfDashBoundary := CRLF + DASH + b;
    }

    static method StartWith(a: string, from: nat, to: nat, b: string) returns (yes: bool)
      requires from <= to <= |a|
      ensures yes <==> b <= a[from..to]
    {
      if to - from < |b| { return false; }
      var i := 0;
      while i < |b|
        invariant i <= |b|
        invariant forall k :: 0 <= k < i ==> a[from + k] == b[k]
      {
        if a[i + from] != b[i] { return false; }
        i := i + 1;
      }
      assert a[from..to][..|b|] == b;
      return true;
    }

    method BufSize() returns (n: nat)
      requires Valid()
      ensures n == |Data()|
    {
      n := epos - spos;
    }

    method BufStartWith(s: string) returns (yes: bool)
      requires Valid()
      ensures yes <==> s <= Data()
    {
      yes := StartWith(buf, spos, epos, s);
    }

    /** The first place where s occurs in the unread bytes, or their number. */
    method BufFind(s: string) returns (p: nat)
      requires Valid() && s != []
      ensures p == Find(Data(), s)
    {
      p := Scan(s);
      FirstIsUnique(Data(), s, p, Find(Data(), s));
    }

    method Scan(s: string) returns (p: nat)
      requires Valid() && s != []
      ensures IsFirst(Data(), s, p)
    {
      var c := s[0];
      var off := spos;
      while off < epos
        invariant spos <= off <= epos
        invariant forall j :: j < off - spos ==> !OccursAt(Data(), s, j)
      {
        var pos := off;
        while true
          invariant off <= pos <= epos
          invariant forall j :: j < pos - spos ==> !OccursAt(Data(), s, j)
          decreases epos - pos
        {
          if pos == epos { return epos - spos; }
          if buf[pos] == c { break; }
          assert Data()[pos - spos] != s[0];
          pos := pos + 1;
        }
        if |s| > epos - pos { return epos - spos; }
        var here := StartWith(buf, pos, epos, s);
        HereOccurs(buf, spos, epos, pos, s);
        if here { return pos - spos; }
        off := pos + 1;
      }
      return epos - spos;
    }

    /** Copies the unread bytes to the front of the buffer. */
    method Compact()
      requires Valid()
      modifies this`buf
      ensures Valid() && |buf| == old(|buf|) && buf[..epos - spos] == old(Data())
    {
      var remaining := epos - spos;
      ghost var was := buf;
      var i := 0;
      while i < remaining
        invariant i <= remaining && |buf| == |was|
        invariant forall k :: 0 <= k < i ==> buf[k] == was[spos + k]
        invariant forall k :: i <= k < |buf| ==> buf[k] == was[k]
      {
        buf := buf[i := buf[spos + i]];
        i := i + 1;
      }
    }

    /** Refills the buffer: the unread bytes move to its front. */
    method BufAppend(data: string)
      requires Valid()
      modifies this`buf, this`spos, this`epos
      ensures Valid() && Data() == old(Data()) + data && spos == 0
    {
      var remaining := epos - spos;
      if remaining > 0 && spos > 0 { Compact(); }
      spos := 0;
      epos := remaining;
      if remaining + |data| > |buf| { buf := buf + seq(remaining + |data| - |buf|, _ => '\0'); }
      var i := 0;
      while i < |data|
        invariant i <= |data| && epos == remaining && remaining + |data| <= |buf| && spos == 0
        invariant buf[..remaining] == old(Data())
        invariant forall k :: 0 <= k < i ==> buf[remaining + k] == data[k]
      {
        buf := buf[epos + i := data[i]];
        i := i + 1;
      }
      epos := epos + |data|;
      assert buf[remaining..epos] == data;
    }

    method BufErase(n: nat)
      requires Valid() && n <= |Data()|
      modifies this`spos
      ensures Valid() && Data() == old(Data())[n..]
    {
      spos := spos + n;
    }

    /** `parse` on one piece of input, up to the header state. */
    method Parse(data: string, accepts: Receiver) returns (ok: bool)
      requires Valid()
      modifies this
      ensures Valid() && boundary == old(boundary)
      ensures (View(), ok) == ParseOne(boundary, old(View()), data, accepts)
    {
      hide Turn, Progress;
      ghost var b := boundary;
      ghost var target := ParseOne(b, View(), data, accepts);
      BufAppend(data);
      assert View() == old(View()).(pending := old(Data()) + data);
      var size := BufSize();
      while size > 0
        invariant Valid() && boundary == b && size == |Data()|
        invariant Loop(b, View(), accepts) == target
        decreases Rank(phase), size
      {
        ghost var before := View();
        var verdict := OneTurn(accepts);
        if verdict == Wait { return true; }
        if verdict == Refused { return false; }
        ProgressDecreases(before, View());
        size := BufSize();
      }
      return true;
    }

    method OneTurn(accepts: Receiver) returns (verdict: Verdict)
      requires Valid()
      modifies this
      ensures Valid() && boundary == old(boundary)
      ensures (View(), verdict) == Turn(boundary, old(View()), accepts)
    {
      hide PreambleTurn, BodyTurn, BoundaryTurn;
      match phase {
        case Preamble => verdict := PreambleState();
        case Headers => verdict := Wait;
        case Body => verdict := BodyState(accepts);
        case Boundary => verdict := BoundaryState();
      }
    }

    method PreambleState() returns (verdict: Verdict)
      requires Valid() && phase == Preamble
      modifies this
      ensures Valid() && boundary == old(boundary)
      ensures (View(), verdict) == PreambleTurn(boundary, old(View()))
    {
      hide FindFrom, Find, Opening, IsFirst;
      var at := BufFind(dashBoundaryCrlf);
      BufErase(at);
      var size := BufSize();
      if |dashBoundaryCrlf| > size { return Wait; }
      var found := BufStartWith(dashBoundaryCrlf);
      RestStarts(old(Data()), dashBoundaryCrlf);
      assert found;
      BufErase(|dashBoundaryCrlf|);
      phase := Headers;
      return Again;
    }

    method BodyState(accepts: Receiver) returns (verdict: Verdict)
      requires Valid() && phase == Body
      modifies this
      ensures Valid() && boundary == old(boundary)
      ensures (View(), verdict) == BodyTurn(boundary, old(View()), accepts)
    {
      hide Opening, IsFirst;
      var size := BufSize();
      if |crlfDashBoundary| > size { return Wait; }
      var pos := BufFind(crlfDashBoundary);
      if pos < size {
        assert pos + |crlfDashBoundary| <= size;
        var taken := Content(pos, accepts);
        if !taken { return Refused; }
        BufErase(pos + |crlfDashBoundary|);
        phase := Boundary;
        return Again;
      }
      var len := size - |crlfDashBoundary|;
      if len > 0 {
        var taken := Content(len, accepts);
        if !taken { return Refused; }
        BufErase(len);
      }
      return Wait;
    }

    method BoundaryState() returns (verdict: Verdict)
      requires Valid() && phase == Boundary
      modifies this
      ensures Valid() && boundary == old(boundary)
      ensures (View(), verdict) == BoundaryTurn(old(View()))
    {
      hide Opening, Delimiter;
      var size := BufSize();
      if |CRLF| > size { return Wait; }
      var next := BufStartWith(CRLF);
      if next {
        BufErase(|CRLF|);
        phase := Headers;
        return Again;
      }
      var last := BufStartWith(DASH);
      if !last { return Wait; }
      BufErase(|DASH|);
      valid := true;
      size := BufSize();
      BufErase(size);
      return Again;
    }

    /** Hands the first n unread bytes to the content callback. */
    method Content(n: nat, accepts: Receiver) returns (ok: bool)
      requires Valid() && n <= |Data()|
      modifies this`content, this`valid
      ensures Valid() && ok == accepts(old(content), Data()[..n])
      ensures content == if ok then old(content) + Data()[..n] else old(content)
      ensures valid == (ok && old(valid))
    {
      var piece := buf[spos..spos + n];
      assert piece == Data()[..n];
      ok := accepts(content, piece);
      if ok { content := content + piece; } else { valid := false; }
    }
  }

  lemma ProgressDecreases(p: Parser, q: Parser)
    requires Progress(p, q)
    ensures Rank(q.phase) < Rank(p.phase) || (Rank(q.phase) == Rank(p.phase) && |q.pending| < |p.pending|)
  {
  }

  /** What was searched for is at the front of what is left, if enough is left. */
  lemma RestStarts(s: string, d: string)
    requires d != [] && |d| <= |s| - Find(s, d)
    ensures d <= s[Find(s, d)..]
  {
    assert OccursAt(s, d, Find(s, d));
  }

  lemma HereOccurs(buf: string, spos: nat, epos: nat, pos: nat, s: string)
    requires spos <= pos <= epos <= |buf|
    ensures s <= buf[pos..epos] <==> OccursAt(buf[spos..epos], s, pos - spos)
  {
    var i := pos - spos;
    if i + |s| <= epos - spos {
      assert buf[spos..epos][i..i + |s|] == buf[pos..epos][..|s|];
    }
  }
}
