/** The text of chunk-size lines: writing a size in hexadecimal, and reading it back
    with strtoul as the C standard defines it. */
module ChunkedText {
  import opened Options

  const CRLF := "\r\n"

  // Hexadecimal digits.

  function Digit(d: nat): char
    requires d < 16
  {
    "0123456789abcdef"[d]
  }

  predicate IsHex(c: char) { '0' <= c <= '9' || 'a' <= c <= 'f' || 'A' <= c <= 'F' }

  function DigitValue(c: char): (d: nat)
    requires IsHex(c)
    ensures d < 16
  {
    if '0' <= c <= '9' then (c - '0') as nat
    else if 'a' <= c <= 'f' then (c - 'a') as nat + 10
    else (c - 'A') as nat + 10
  }

  predicate AllHex(s: string) { forall i :: 0 <= i < |s| ==> IsHex(s[i]) }

  function HexValue(s: string): nat
    requires AllHex(s)
  {
    if s == [] then 0 else 16 * HexValue(s[..|s| - 1]) + DigitValue(s[|s| - 1])
  }

  /** A number in hexadecimal, without leading zeros. */
  function Hex(n: nat): (s: string)
    ensures s != [] && AllHex(s)
  {
    if n < 16 then [Digit(n)] else Hex(n / 16) + [Digit(n % 16)]
  }

  lemma DigitRoundTrip(d: nat)
    requires d < 16
    ensures IsHex(Digit(d)) && DigitValue(Digit(d)) == d
  {
  }

  lemma {:induction false} HexRoundTrip(n: nat)
    ensures HexValue(Hex(n)) == n
    ensures n != 0 ==> Hex(n)[0] != '0'
  {
    if n < 16 {
      DigitRoundTrip(n);
      assert Hex(n)[..0] == [];
    } else {
      HexRoundTrip(n / 16);
      DigitRoundTrip(n % 16);
      assert Hex(n)[..|Hex(n)| - 1] == Hex(n / 16);
    }
  }

  method FromIToHex(n: nat) returns (ret: string)
    ensures ret == Hex(n)
  {
    var rest := n;
    ret := [Digit(rest % 16)];
    rest := rest / 16;
    while rest > 0
      invariant Hex(n) == if rest == 0 then ret else Hex(rest) + ret
    {
      ret := [Digit(rest % 16)] + ret;
      rest := rest / 16;
    }
  }

  // strtoul with base 16, on a NUL-terminated string; unsigned long has 64 bits.

  const ULONG_MAX := 0xFFFF_FFFF_FFFF_FFFF

  predicate IsSpace(c: char) { c == ' ' || '\t' <= c <= '\r' }

  /** What a C function sees of a buffer: the part before the first NUL. */
  function CString(s: string): string {
    if s == [] || s[0] == '\0' then [] else [s[0]] + CString(s[1..])
  }

  function SkipSpace(s: string): string {
    if s != [] && IsSpace(s[0]) then SkipSpace(s[1..]) else s
  }

  /** The hexadecimal digits at the front. */
  function HexRun(s: string): (r: string)
    ensures AllHex(r) && r <= s
  {
    if s != [] && IsHex(s[0]) then [s[0]] + HexRun(s[1..]) else []
  }

  function WithoutPrefix(s: string): string {
    if |s| > 2 && s[0] == '0' && (s[1] == 'x' || s[1] == 'X') && IsHex(s[2]) then s[2..] else s
  }

  /** The value read, if any digit is. A minus sign negates within the type. */
  function Strtoul(s: string): (r: Option<nat>)
    ensures r.Some? ==> r.value <= ULONG_MAX
  {
    var t := SkipSpace(s);
    var signed := t != [] && (t[0] == '+' || t[0] == '-');
    var digits := HexRun(WithoutPrefix(if signed then t[1..] else t));
    if digits == [] then None
    else if HexValue(digits) > ULONG_MAX then Some(ULONG_MAX)
    else if signed && t[0] == '-' then Some((ULONG_MAX + 1 - HexValue(digits)) % (ULONG_MAX + 1))
    else Some(HexValue(digits))
  }

  lemma {:induction false} RunOfHex(h: string, t: string)
    requires AllHex(h) && t != [] && !IsHex(t[0])
    ensures HexRun(h + t) == h
  {
    if h == [] {
      assert h + t == t;
    } else {
      assert (h + t)[1..] == h[1..] + t;
      RunOfHex(h[1..], t);
    }
  }

  lemma {:induction false} CStringKeeps(s: string)
    requires '\0' !in s
    ensures CString(s) == s
  {
    if s != [] {
      CStringKeeps(s[1..]);
    }
  }

  /** Digits that do not start with "0x" are read up to their end. */
  lemma DigitsAreRead(h: string)
    requires h != [] && AllHex(h) && HexValue(h) <= ULONG_MAX
    ensures Strtoul(h + CRLF) == Some(HexValue(h))
  {
    hide HexValue;
    var line := h + CRLF;
    assert IsHex(line[0]) && line[0] == h[0];
    assert SkipSpace(line) == line;
    assert |line| > 2 && |h| == 1 ==> line[1] == CRLF[0];
    assert |h| > 1 ==> IsHex(h[1]) && line[1] == h[1];
    assert WithoutPrefix(line) == line;
    RunOfHex(h, CRLF);
  }

  /** A size line is read back as the size. */
  lemma SizeLineRoundTrip(n: nat)
    requires n <= ULONG_MAX
    ensures Strtoul(CString(Hex(n) + CRLF)) == Some(n)
  {
    hide Strtoul, CString, Hex, HexValue;
    CStringKeeps(Hex(n) + CRLF);
    HexRoundTrip(n);
    DigitsAreRead(Hex(n));
  }

  // Lines.

  /** The end of the first line of s, its line break included, scanning from i. */
  function LineEnd(s: string, i: nat): (e: nat)
    requires i <= |s|
    ensures i <= e <= |s|
    ensures i < |s| ==> i < e
    decreases |s| - i
  {
    if i == |s| then i
    else if i > 0 && s[i - 1] == '\r' && s[i] == '\n' then i + 1
    else LineEnd(s, i + 1)
  }

  predicate EndsLine(s: string) { |s| >= 2 && s[|s| - 2] == '\r' && s[|s| - 1] == '\n' }

  /** One line and what follows it. A last line without a line break is a line if the
      stream ends there (eof), and none if it breaks. */
  function TakeLine(s: string, eof: bool): (r: Option<(string, string)>)
    ensures r.Some? ==> r.value.0 + r.value.1 == s && |r.value.1| < |s|
  {
    var line := s[..LineEnd(s, 0)];
    if s == [] || (!eof && !EndsLine(line)) then None else Some((line, s[LineEnd(s, 0)..]))
  }

  /** No line break in a text. */
  predicate Unbroken(h: string) { forall k :: 0 < k < |h| ==> h[k - 1] != '\r' || h[k] != '\n' }

  /** A line break behind text without one ends the line. */
  lemma {:induction false} LineEndIs(h: string, t: string, i: nat)
    requires i <= |h| && Unbroken(h)
    ensures LineEnd(h + CRLF + t, i) == |h| + 2
    decreases |h| - i
  {
    var s := h + CRLF + t;
    assert s[|h|] == '\r' && s[|h| + 1] == '\n';
    assert forall k :: 0 <= k < |h| ==> s[k] == h[k];
    if i < |h| { LineEndIs(h, t, i + 1); } else { assert LineEnd(s, i + 1) == i + 2; }
  }

  lemma TakeLineIs(h: string, t: string, eof: bool)
    requires Unbroken(h)
    ensures TakeLine(h + CRLF + t, eof) == Some((h + CRLF, t))
  {
    var s := h + CRLF + t;
    LineEndIs(h, t, 0);
    assert s[..|h| + 2] == h + CRLF && s[|h| + 2..] == t;
  }
}
