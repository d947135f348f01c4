/** Printing in a base from 2 to 36 and reading back. */
module NumPrint {
  import opened Powers
  import opened Words
  import opened NumCore
  import opened NumText

  const NUL := '\0'

  /** The default alphabet of `print`. */
  function DigitChar(d: nat): (c: char)
    requires d < 36
    ensures CharToWord(c) == d && c != NUL && c != '-'
  {
    if d < 10 then ('0' as int + d) as char else ('a' as int + (d - 10)) as char
  }

  /** `char_to_word`: the digit value, or all ones for any other character. */
  function CharToWord(c: char): word {
    if '0' <= c <= '9' then c as int - '0' as int
    else if 'a' <= c <= 'z' then c as int - 'a' as int + 10
    else if 'A' <= c <= 'Z' then c as int - 'A' as int + 10
    else BASE - 1
  }

  /** The digits written out; capital letters are read like small ones. */
  lemma DigitsAre(d: nat)
    requires d < 36
    ensures DigitChar(d) == ("0123456789" + "abcdefghijklmnopqrstuvwxyz")[d]
    ensures CharToWord(("0123456789" + "ABCDEFGHIJKLMNOPQRSTUVWXYZ")[d]) == d
  {
    hide CharToWord, DigitChar;
    if d < 10 { FirstDigits(d); } else {
      LetterDigits(d - 10);
      CapitalDigits(d - 10);
    }
  }

  lemma FirstDigits(d: nat)
    requires d < 10
    ensures DigitChar(d) == "0123456789"[d] && CharToWord("0123456789"[d]) == d
  {
  }

  lemma LetterDigits(d: nat)
    requires d < 26
    ensures DigitChar(10 + d) == "abcdefghijklmnopqrstuvwxyz"[d]
  {
    hide CharToWord;
  }

  lemma CapitalDigits(d: nat)
    requires d < 26
    ensures CharToWord("ABCDEFGHIJKLMNOPQRSTUVWXYZ"[d]) == 10 + d
  {
  }

  function Reversed(s: seq<char>): (r: seq<char>)
    ensures |r| == |s|
  {
    seq(|s|, i requires 0 <= i < |s| => s[|s| - 1 - i])
  }

  /** The digits of v, least significant first. */
  function Digits(v: nat, base: nat): (s: seq<char>)
    requires 2 <= base <= 36
    decreases v
  {
    if v == 0 then [] else
      DigitSmaller(v, base);
      [DigitChar(v % base)] + Digits(v / base, base)
  }

  lemma DigitSmaller(v: nat, base: nat)
    requires v > 0 && base >= 2
    ensures v / base < v
  {
    if v / base >= v { MulMono(v / base, 2, base); }
  }

  /** What `print` leaves in the vector `text` it is given: it reverses all of it. */
  function Printed(text: seq<char>, v: nat, neg: bool, base: nat): seq<char>
    requires 2 <= base <= 36
  {
    (if v == 0 then text + ['0']
     else Reversed(text + Digits(v, base) + if neg then ['-'] else [])) + [NUL]
  }

  method Print(n: Num, text0: seq<char>, base: word) returns (text: seq<char>)
    requires n.Valid() && 2 <= base <= 36
    ensures text == Printed(text0, n.Mag(), n.neg, base)
  {
    hide Val;
    CanonicalZero(n.words);
    text := text0;
    if |n.words| == 0 {
      text := text + ['0'];
    } else {
      var tmp := new Num.Copy(n);
      while |tmp.words| > 0
        invariant tmp.Valid()
        invariant text + Digits(tmp.Mag(), base) == text0 + Digits(n.Mag(), base)
        decreases tmp.Mag()
      {
        CanonicalZero(tmp.words);
        ghost var v := tmp.Mag();
        var remainder := DivModHalfWord(tmp, base, tmp);
        DivModUnique(v, base, tmp.Mag(), remainder);
        DigitSmaller(v, base);
        ghost var before := text;
        text := text + [DigitChar(remainder)];
        assert before + ([DigitChar(remainder)] + Digits(tmp.Mag(), base)) == text + Digits(tmp.Mag(), base);
      }
      CanonicalZero(tmp.words);
      assert text + [] == text;
      if n.neg { text := text + ['-']; }
      assert text == text0 + Digits(n.Mag(), base) + if n.neg then ['-'] else [];
      text := Reversed(text);
    }
    text := text + [NUL];
  }

  /** Minus 48879 in base 16. */
  lemma PrintedInHex()
    ensures Printed([], 48879, true, 16) == "-beef\0"
  {
    hide CharToWord;
    assert Digits(48879, 16) == "feeb";
  }

  /** `print` adds the text of a number to what the vector already holds. */
  ghost predicate Appends(text: seq<char>, base: nat)
    requires 2 <= base <= 36
  {
    forall v: nat, neg: bool :: Printed(text, v, neg, base) == text + Printed([], v, neg, base)
  }

  /** It does so for every number exactly when the vector was empty. */
  lemma PrintAppendsIff(text: seq<char>, base: nat)
    requires 2 <= base <= 36
    ensures Appends(text, base) <==> text == []
  {
    if text != [] {
      // A first character that is not the one the text begins with.
      var neg := text[0] != '-';
      PrintedOne(text, neg, base);
      assert Printed(text, 1, neg, base)[0] != (text + Printed([], 1, neg, base))[0];
    }
  }

  lemma ReversedSum(s: seq<char>, t: seq<char>)
    ensures Reversed(s + t) == Reversed(t) + Reversed(s)
  {
  }

  lemma PrintedOne(text: seq<char>, neg: bool, base: nat)
    requires 2 <= base <= 36
    ensures Printed(text, 1, neg, base) == (if neg then ['-'] else []) + ['1'] + Reversed(text) + [NUL]
  {
    hide Digits, Reversed;
    DigitsOfOne(base);
    var sign := if neg then ['-'] else [];
    ReversedSum(text + ['1'], sign);
    ReversedSum(text, ['1']);
    ReversedShort(sign);
    ReversedShort(['1']);
    assert sign + (['1'] + Reversed(text)) == sign + ['1'] + Reversed(text);
  }

  lemma DigitsOfOne(base: nat)
    requires 2 <= base <= 36
    ensures Digits(1, base) == ['1']
  {
    assert 1 / base == 0;
  }

  lemma ReversedShort(s: seq<char>)
    requires |s| <= 1
    ensures Reversed(s) == s
  {
  }

  /** The concrete case: printing 1 behind "a" leaves "1a". */
  lemma PrintReversesEarlierText()
    ensures Printed(['a'], 1, false, 10) == ['1', 'a', NUL] && Printed([], 1, false, 10) == ['1', NUL]
  {
    PrintedOne([], false, 10);
    PrintedOne(['a'], false, 10);
  }

  /** The number that a run of digits stands for, most significant first. */
  function Horner(s: seq<char>, base: nat): nat {
    if s == [] then 0 else Horner(s[..|s| - 1], base) * base + CharToWord(s[|s| - 1])
  }

  /** Where the digits that start at i end. */
  function DigitsEnd(text: seq<char>, base: nat, i: nat): (e: nat)
    requires i <= |text|
    ensures i <= e <= |text|
    ensures forall j :: i <= j < e ==> text[j] != NUL && CharToWord(text[j]) < base
    ensures e < |text| ==> text[e] == NUL || CharToWord(text[e]) >= base
    decreases |text| - i
  {
    if i == |text| || text[i] == NUL || CharToWord(text[i]) >= base then i
    else DigitsEnd(text, base, i + 1)
  }

  /** Where the digits start: after a minus sign. */
  function DigitsStart(text: seq<char>): (i: nat)
    ensures i <= |text|
  {
    if text != [] && text[0] == '-' then 1 else 0
  }

  /** The magnitude the string constructor builds. It multiplies by the base before
      it looks at the next character, so a character that is no digit leaves the
      number scaled by the base once too often. */
  function ParsedMag(text: seq<char>, base: nat): nat {
    var i := DigitsStart(text);
    var e := DigitsEnd(text, base, i);
    var v := Horner(text[i..e], base);
    if e < |text| && text[e] != NUL then Times(v, base) else v
  }

  lemma DigitsEndStep(text: seq<char>, base: nat, i: nat, j: nat)
    requires i <= j < |text| && j <= DigitsEnd(text, base, i)
    ensures DigitsEnd(text, base, i) == DigitsEnd(text, base, j)
    decreases j - i
  {
    if i < j { DigitsEndStep(text, base, i + 1, j); }
  }

  /** The string constructor, reading a NUL-terminated string. */
  method Parse(text: seq<char>, base: word) returns (n: Num, end: nat)
    requires exists k :: 0 <= k < |text| && text[k] == NUL
    ensures fresh(n) && n.Valid()
    ensures end == DigitsEnd(text, base, DigitsStart(text))
    ensures n.neg == (text[0] == '-') && n.Mag() == ParsedMag(text, base)
  {
    hide Val, At, Horner, CharToWord, Times;
    HornerEmpty(base);
    n := new Num();
    var c := 0;
    if text[0] == '-' {
      c := c + 1;
      n.neg := true;
    }
    ghost var start := c;
    ghost var nul :| 0 <= nul < |text| && text[nul] == NUL;
    ValSmall(0);
    assert text[start..c] == [];
    while text[c] != NUL
      invariant start <= c <= nul && n.Valid() && n.neg == (text[0] == '-')
      invariant c <= DigitsEnd(text, base, start)
      invariant n.Mag() == Horner(text[start..c], base)
      invariant fresh(n)
      decreases nul - c
    {
      DigitsEndStep(text, base, start, c);
      MulWord(n, base);
      var b := CharToWord(text[c]);
      if b >= base { break; }
      AddWord(n, b);
      AtZero(b, 0);
      assert text[start..c + 1] == text[start..c] + [text[c]];
      HornerTimes(text[start..c + 1], text[start..c], text[c], base);
      c := c + 1;
    }
    DigitsEndStep(text, base, start, c);
    end := c;
  }

  lemma HornerTimes(s: seq<char>, t: seq<char>, c: char, base: nat)
    requires s == t + [c]
    ensures Horner(s, base) == Times(Horner(t, base), base) + CharToWord(c)
  {
    HornerLast(s, t, c, base);
  }

  lemma HornerEmpty(base: nat)
    ensures Horner([], base) == 0
  {
  }

  lemma {:induction false} HornerOfDigits(v: nat, base: nat)
    requires 2 <= base <= 36
    ensures Horner(Reversed(Digits(v, base)), base) == v
    decreases v
  {
    if v > 0 {
      DigitSmaller(v, base);
      HornerOfDigits(v / base, base);
      var s, t := Digits(v, base), Digits(v / base, base);
      assert s == [DigitChar(v % base)] + t;
      HornerLast(Reversed(s), Reversed(t), DigitChar(v % base), base);
      DivModIs(v, base);
    }
  }

  lemma HornerLast(s: seq<char>, t: seq<char>, c: char, base: nat)
    requires s == t + [c]
    ensures Horner(s, base) == Horner(t, base) * base + CharToWord(c)
  {
    assert s[..|s| - 1] == t;
  }

  lemma DivModIs(x: nat, d: nat)
    requires d > 0
    ensures x == (x / d) * d + x % d
  {
  }

  lemma {:induction false} DigitsAreDigits(v: nat, base: nat)
    requires 2 <= base <= 36
    ensures v > 0 ==> Digits(v, base) != []
    ensures forall c :: c in Digits(v, base) ==> c != NUL && c != '-' && CharToWord(c) < base
    decreases v
  {
    if v > 0 {
      DigitSmaller(v, base);
      DigitsAreDigits(v / base, base);
    }
  }

  lemma DigitsEndIs(text: seq<char>, base: nat, i: nat, e: nat)
    requires i <= e < |text| && text[e] == NUL
    requires forall j :: i <= j < e ==> text[j] != NUL && CharToWord(text[j]) < base
    ensures DigitsEnd(text, base, i) == e
    decreases e - i
  {
  }

  /** Printing into an empty vector and reading the text back gives the same
      integer, sign included; minus zero comes back as zero. */
  lemma PrintParse(v: nat, neg: bool, base: nat)
    requires 2 <= base <= 36
    ensures var text := Printed([], v, neg, base);
      && ParsedMag(text, base) == v
      && (text[0] == '-') == (neg && v != 0)
      && DigitsEnd(text, base, DigitsStart(text)) == |text| - 1
  {
    if v == 0 { PrintParseZero(neg, base); } else { PrintParsePositive(v, neg, base); }
  }

  lemma PrintParseZero(neg: bool, base: nat)
    requires 2 <= base <= 36
    ensures var text := Printed([], 0, neg, base);
      text == ['0', NUL] && ParsedMag(text, base) == 0 && DigitsEnd(text, base, DigitsStart(text)) == 1
  {
    var text := Printed([], 0, neg, base);
    assert text == ['0', NUL];
    assert text[0..0 + 1] == ['0'];
    ParsedIs(text, ['0'], base, 0);
    HornerLast(['0'], [], '0', base);
  }

  lemma PrintParsePositive(v: nat, neg: bool, base: nat)
    requires 2 <= base <= 36 && v > 0
    ensures var text := Printed([], v, neg, base);
      && ParsedMag(text, base) == v
      && (text[0] == '-') == neg
      && DigitsEnd(text, base, DigitsStart(text)) == |text| - 1
  {
    DigitsAreDigits(v, base);
    HornerOfDigits(v, base);
    hide Digits, DigitsEnd, ParsedMag, Horner;
    var d := Digits(v, base);
    var sign := if neg then ['-'] else [];
    var text := Printed([], v, neg, base);
    assert [] + d + sign == d + sign;
    ReversedSum(d, sign);
    ReversedSame(d);
    assert Reversed(sign) == sign;
    hide Reversed;
    var r := Reversed(d);
    assert text == sign + r + [NUL];
    assert text[|sign|] == r[0];
    assert r[0] in d;
    assert text[|sign|..|sign| + |r|] == r;
    ParsedIs(text, r, base, |sign|);
  }

  lemma ReversedSame(s: seq<char>)
    ensures forall c :: c in Reversed(s) ==> c in s
  {
  }

  lemma ParsedIs(text: seq<char>, s: seq<char>, base: nat, start: nat)
    requires |text| == start + |s| + 1 && text[start..start + |s|] == s && text[start + |s|] == NUL
    requires start == DigitsStart(text)
    requires forall c :: c in s ==> c != NUL && CharToWord(c) < base
    ensures ParsedMag(text, base) == Horner(s, base)
    ensures DigitsEnd(text, base, start) == |text| - 1
  {
    forall j | start <= j < start + |s| ensures text[j] in s {
      assert text[start..start + |s|][j - start] == text[j] == s[j - start];
    }
    DigitsEndIs(text, base, start, |text| - 1);
  }

  /** Reading stops at the first character that is no digit. The number is that of
      the digits read exactly when the text ends there or those digits are all zero. */
  lemma ParseStopsIff(text: seq<char>, base: nat)
    requires base >= 2
    ensures var i := DigitsStart(text);
      var e := DigitsEnd(text, base, i);
      ParsedMag(text, base) == Horner(text[i..e], base) <==>
      (e == |text| || text[e] == NUL || forall j :: i <= j < e ==> text[j] == '0')
  {
    var i := DigitsStart(text);
    var e := DigitsEnd(text, base, i);
    HornerZero(text[i..e], base);
    var v := Horner(text[i..e], base);
    if e < |text| && text[e] != NUL {
      if v > 0 { MulMono(v, 2, base); }
      if v == 0 {
        forall j | i <= j < e ensures text[j] == '0' { assert text[j] == text[i..e][j - i]; }
      } else {
        var j :| 0 <= j < |text[i..e]| && text[i..e][j] != '0';
        assert text[i + j] != '0';
      }
    }
  }

  lemma {:induction false} HornerZero(s: seq<char>, base: nat)
    requires base >= 2
    requires forall j :: 0 <= j < |s| ==> CharToWord(s[j]) < base
    ensures Horner(s, base) == 0 <==> forall j :: 0 <= j < |s| ==> s[j] == '0'
  {
    if s != [] {
      var t := s[..|s| - 1];
      HornerZero(t, base);
      if Horner(t, base) > 0 { MulMono(base, 1, Horner(t, base)); }
      assert forall j :: 0 <= j < |t| ==> t[j] == s[j];
    }
  }

  /** The concrete case: "12x" in base 10 reads as 120. */
  lemma ParseScalesTwelve()
    ensures ParsedMag(['1', '2', 'x', NUL], 10) == 120
  {
    var text := ['1', '2', 'x', NUL];
    assert DigitsEnd(text, 10, 2) == 2;
    assert DigitsEnd(text, 10, 1) == 2;
    assert text[0..2] == ['1', '2'];
    assert ['1', '2'][..1] == ['1'] && ['1'][..0] == [];
    assert Horner(['1'], 10) == 1;
  }
}
