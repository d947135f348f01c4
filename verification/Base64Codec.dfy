/** The block codec of base64.hpp, which writes into a preallocated buffer, and the
    bit-accumulating encoder of httplib. */
module Base64Codec {
  import opened Base64
  import opened Options
  import opened Powers

  /** The text of whole groups of three, then of what is left. */
  lemma {:induction false} EncodeAppend(whole: seq<byte>, rest: seq<byte>)
    requires |whole| % 3 == 0
    ensures Encode(whole + rest) == Encode(whole) + Encode(rest)
    decreases |whole|
  {
    hide First, Second, Third, Fourth;
    if whole == [] {
      assert whole + rest == rest;
    } else {
      assert (whole + rest)[3..] == whole[3..] + rest;
      EncodeAppend(whole[3..], rest);
    }
  }

  function Group(t1: byte, t2: byte, t3: byte): string { [First(t1), Second(t1, t2), Third(t2, t3), Fourth(t3)] }

  lemma EncodeNext(data: seq<byte>, i: nat)
    requires i % 3 == 0 && i + 3 <= |data|
    ensures Encode(data[..i + 3]) == Encode(data[..i]) + Group(data[i], data[i + 1], data[i + 2])
  {
    hide First, Second, Third, Fourth;
    var three := data[i..i + 3];
    assert data[..i + 3] == data[..i] + three && three[3..] == [];
    EncodeAppend(data[..i], three);
  }

  lemma EncodeLast(data: seq<byte>, i: nat)
    requires i % 3 == 0 && i <= |data|
    ensures Encode(data) == Encode(data[..i]) + Encode(data[i..])
  {
    hide Encode;
    assert data == data[..i] + data[i..];
    EncodeAppend(data[..i], data[i..]);
  }

  lemma EncodedSize(data: seq<byte>)
    ensures |Encode(data)| == (|data| / 3 + (if |data| % 3 > 0 then 1 else 0)) * 4
  {
    EncodeIsCore(data);
  }

  function Paddings(n: nat): string { seq(n, _ => PADDING) }

  lemma AllPaddings(s: string)
    requires forall i :: 0 <= i < |s| ==> s[i] == PADDING
    ensures s == Paddings(|s|)
  {
  }

  lemma PaddingsDrop(n: nat, k: nat)
    requires k <= n
    ensures Paddings(n)[k..] == Paddings(n - k)
  {
  }

  /** `encode_into`: the buffer starts out full of padding. */
  method EncodeInto(data: seq<byte>) returns (encoded: array<char>)
    ensures fresh(encoded) && encoded[..] == Encode(data)
  {
    hide Encode, Paddings;
    var groups := |data| / 3;
    var size := (groups + (if |data| % 3 > 0 then 1 else 0)) * 4;
    encoded := new char[size](_ => PADDING);
    assert encoded[..] == Paddings(size) by { AllPaddings(encoded[..]); }
    EncodeGroups(data, groups, encoded);
    EncodeLast(data, 3 * groups);
    PutTail(encoded, 4 * groups, data[3 * groups..]);
    assert encoded[..] == encoded[..4 * groups] + encoded[4 * groups..];
  }

  /** The groups of three bytes in front. */
  method EncodeGroups(data: seq<byte>, groups: nat, encoded: array<char>)
    requires 3 * groups <= |data| && 4 * groups <= encoded.Length && encoded[..] == Paddings(encoded.Length)
    modifies encoded
    ensures encoded[..4 * groups] == Encode(data[..3 * groups])
    ensures encoded[4 * groups..] == Paddings(encoded.Length - 4 * groups)
  {
    hide Encode, First, Second, Third, Fourth, Paddings;
    EncodedSize(data[..0]);
    var bytes, curr := 0, 0;
    var i := groups;
    while i > 0
      invariant 0 <= i <= groups && bytes == 3 * (groups - i) && curr == 4 * (groups - i)
      invariant encoded[..curr] == Encode(data[..bytes])
      invariant encoded[curr..] == Paddings(encoded.Length - curr)
    {
      EncodeNext(data, bytes);
      PaddingsDrop(encoded.Length - curr, 4);
      assert encoded[curr + 4..] == encoded[curr..][4..];
      PutGroup(encoded, curr, data[bytes], data[bytes + 1], data[bytes + 2]);
      bytes := bytes + 3;
      curr := curr + 4;
      i := i - 1;
    }
  }

  /** The one or two bytes behind the last group; the padding is there already. */
  method PutTail(encoded: array<char>, curr: nat, rest: seq<byte>)
    requires |rest| < 3 && encoded.Length == curr + (if rest == [] then 0 else 4)
    requires encoded[curr..] == Paddings(encoded.Length - curr)
    modifies encoded
    ensures encoded[..curr] == old(encoded[..curr]) && encoded[curr..] == Encode(rest)
  {
    hide Encode, First, Second, Third, Fourth, Letter, Or;
    EncodeTail(rest);
    assert rest != [] ==> encoded[curr..][2] == encoded[curr..][3] == PADDING;
    if |rest| == 1 {
      JoinedLetters(rest[0], 0);
      encoded[curr] := First(rest[0]);
      encoded[curr + 1] := Letter(rest[0] % 4 * 16);
    } else if |rest| == 2 {
      JoinedLetters(rest[0], rest[1]);
      JoinedLetters(rest[1], 0);
      encoded[curr] := First(rest[0]);
      encoded[curr + 1] := Letter(Or(rest[0] % 4 * 16, rest[1] / 16));
      encoded[curr + 2] := Letter(rest[1] % 16 * 4);
    }
  }

  method PutGroup(encoded: array<char>, curr: nat, t1: byte, t2: byte, t3: byte)
    requires curr + 4 <= encoded.Length
    modifies encoded
    ensures encoded[..curr + 4] == old(encoded[..curr]) + Group(t1, t2, t3)
    ensures encoded[curr + 4..] == old(encoded[curr + 4..])
  {
    hide First, Second, Third, Fourth, Letter, Or;
    JoinedLetters(t1, t2);
    JoinedLetters(t2, t3);
    encoded[curr] := First(t1);
    encoded[curr + 1] := Letter(Or(t1 % 4 * 16, t2 / 16));
    encoded[curr + 2] := Letter(Or(t2 % 16 * 4, t3 / 64));
    encoded[curr + 3] := Fourth(t3);
  }

  lemma EncodeTail(rest: seq<byte>)
    requires |rest| < 3
    ensures rest == [] ==> Encode(rest) == []
    ensures |rest| == 1 ==> Encode(rest) == [First(rest[0]), Second(rest[0], 0), PADDING, PADDING]
    ensures |rest| == 2 ==>
              Encode(rest) == [First(rest[0]), Second(rest[0], rest[1]), Third(rest[1], 0), PADDING]
  {
  }

  /** `base64_encode` of httplib: bits wait in a 32-bit accumulator, of which valb + 6
      are not yet written. */
  method EncodeBits(data: seq<byte>) returns (out: string)
    ensures out == Encode(data)
  {
    hide Encode, First, Second, Third, Fourth, Pending;
    out := [];
    var val: nat := 0;
    var valb := -6;
    var i := 0;
    StartBits(data);
    while i < |data|
      invariant i <= |data| && Pending(data, i, out, val, valb)
    {
      val, valb, out := AddByte(data, i, out, val, valb);
      i := i + 1;
    }
    out := FlushBits(data, out, val, valb);
  }

  /** After i bytes: whole groups are written, of a started group the letters that are
      complete, and the accumulator ends in the bits that are left. */
  ghost predicate Pending(data: seq<byte>, i: nat, out: string, val: nat, valb: int)
    requires i <= |data|
  {
    match i % 3
    case 0 => valb == -6 && out == Encode(data[..i])
    case 1 => valb == -4 && out == Encode(data[..i - 1]) + [First(data[i - 1])] && val % 4 == data[i - 1] % 4
    case _ => valb == -2 && val % 16 == data[i - 1] % 16
              && out == Encode(data[..i - 2]) + [First(data[i - 2]), Second(data[i - 2], data[i - 1])]
  }

  lemma StartBits(data: seq<byte>)
    ensures Pending(data, 0, [], 0, -6)
  {
  }

  /** Shifting a 32-bit number left by eight bits, and shifting right. */
  function ShiftIn(val: nat, c: byte): nat { (val * 256 + c) % 0x1_0000_0000 }

  function ShiftOut(val: nat, count: nat): nat
    requires count < 8
  {
    if count == 0 then val else if count == 2 then val / 4 else if count == 4 then val / 16
    else if count == 6 then val / 64 else val / 128
  }

  /** Writes the letters that are complete: one, or two when six bits are left over. */
  method Emit(v: nat, start: int, out: string) returns (b: int, o: string)
    requires start == 2 || start == 4 || start == 6
    ensures start < 6 ==> b == start - 6 && o == out + [Letter(ShiftOut(v, start) % 64)]
    ensures start == 6 ==> b == -6 && o == out + [Letter(ShiftOut(v, 6) % 64), Letter(v % 64)]
  {
    hide Letter;
    b, o := start, out;
    while b >= 0
      invariant b == start || b == start - 6 || (start == 6 && b == -6)
      invariant b == start ==> o == out
      invariant b == start - 6 ==> o == out + [Letter(ShiftOut(v, start) % 64)]
      invariant b == start - 12 ==> o == out + [Letter(ShiftOut(v, 6) % 64), Letter(v % 64)]
    {
      o := o + [Letter(ShiftOut(v, b) % 64)];
      b := b - 6;
    }
  }

  /** One byte and the letters that it completes. */
  method AddByte(data: seq<byte>, i: nat, out: string, val: nat, valb: int) returns (v: nat, b: int, o: string)
    requires i < |data| && Pending(data, i, out, val, valb)
    ensures Pending(data, i + 1, o, v, b)
  {
    hide Encode, Letter, Pending, ShiftOut, ShiftIn;
    PendingStart(data, i, out, val, valb);
    v := ShiftIn(val, data[i]);
    b, o := Emit(v, valb + 8, out);
    PendingNext(data, i, out, val, valb, b, o);
  }

  lemma PendingStart(data: seq<byte>, i: nat, out: string, val: nat, valb: int)
    requires i <= |data| && Pending(data, i, out, val, valb)
    ensures valb == -6 || valb == -4 || valb == -2
  {
  }

  lemma PendingNext(data: seq<byte>, i: nat, out: string, val: nat, valb: int, b: int, o: string)
    requires i < |data| && Pending(data, i, out, val, valb)
    requires valb < -2 ==> b == valb + 2 && o == out + [Letter(ShiftOut(ShiftIn(val, data[i]), valb + 8) % 64)]
    requires valb == -2 ==> b == -6 && o == out + [Letter(ShiftOut(ShiftIn(val, data[i]), 6) % 64),
                                                  Letter(ShiftIn(val, data[i]) % 64)]
    ensures Pending(data, i + 1, o, ShiftIn(val, data[i]), b)
  {
    hide Encode, Letter, ShiftIn;
    BitsOf(val, data[i]);
    if i % 3 == 2 { EncodeNext(data, i - 2); }
  }

  // Reading a field of six bits needs no more than the bits up to its top.

  lemma FieldAt2(q: nat, r: nat)
    requires r < 256
    ensures (256 * q + r) / 4 % 64 == r / 4 && (256 * q + r) % 4 == r % 4
  {
    assert 256 * q + r == 4 * (64 * q + r / 4) + r % 4;
    assert (256 * q + r) / 4 == 64 * q + r / 4;
  }

  lemma FieldAt4(q: nat, r: nat)
    requires r < 1024
    ensures (1024 * q + r) / 16 % 64 == r / 16 && (1024 * q + r) % 16 == r % 16
  {
    assert 1024 * q + r == 16 * (64 * q + r / 16) + r % 16;
    assert (1024 * q + r) / 16 == 64 * q + r / 16;
  }

  lemma FieldAt6(q: nat, r: nat)
    requires r < 4096
    ensures (4096 * q + r) / 64 % 64 == r / 64 && (4096 * q + r) % 64 == r % 64
  {
    assert 4096 * q + r == 64 * (64 * q + r / 64) + r % 64;
    assert (4096 * q + r) / 64 == 64 * q + r / 64;
  }

  /** What wraps around is never read: the new number ends in c, below the bits that
      were at the end before. */
  lemma ShiftInIs(val: nat, c: byte, q: nat, r: nat, wrapped: nat)
    requires wrapped == (val * 256 + c) / 0x1_0000_0000
    ensures val == 4 * q + r ==> ShiftIn(val, c) == 1024 * (q - 0x40_0000 * wrapped) + (r * 256 + c)
    ensures val == 16 * q + r ==> ShiftIn(val, c) == 4096 * (q - 0x10_0000 * wrapped) + (r * 256 + c)
    ensures ShiftIn(val, c) == 256 * (val - 0x100_0000 * wrapped) + c
  {
  }

  lemma BitsAt2(val: nat, c: byte)
    ensures ShiftIn(val, c) / 4 % 64 == c / 4 && ShiftIn(val, c) % 4 == c % 4
  {
    var wrapped := (val * 256 + c) / 0x1_0000_0000;
    ShiftInIs(val, c, 0, 0, wrapped);
    hide ShiftIn;
    FieldAt2(val - 0x100_0000 * wrapped, c);
  }

  lemma BitsAt4(val: nat, c: byte)
    ensures ShiftIn(val, c) / 16 % 64 == val % 4 * 16 + c / 16 && ShiftIn(val, c) % 16 == c % 16
  {
    var wrapped := (val * 256 + c) / 0x1_0000_0000;
    var r := val % 4 * 256 + c;
    ShiftInIs(val, c, val / 4, val % 4, wrapped);
    hide ShiftIn;
    FieldAt4(val / 4 - 0x40_0000 * wrapped, r);
    assert r == 16 * (val % 4 * 16 + c / 16) + c % 16;
  }

  lemma BitsAt6(val: nat, c: byte)
    ensures ShiftIn(val, c) / 64 % 64 == val % 16 * 4 + c / 64 && ShiftIn(val, c) % 64 == c % 64
  {
    var wrapped := (val * 256 + c) / 0x1_0000_0000;
    var r := val % 16 * 256 + c;
    ShiftInIs(val, c, val / 16, val % 16, wrapped);
    hide ShiftIn;
    FieldAt6(val / 16 - 0x10_0000 * wrapped, r);
    assert r == 64 * (val % 16 * 4 + c / 64) + c % 64;
  }

  lemma BitsOf(val: nat, c: byte)
    ensures var v := ShiftIn(val, c);
            && v / 4 % 64 == c / 4 && v % 4 == c % 4
            && v / 16 % 64 == val % 4 * 16 + c / 16 && v % 16 == c % 16
            && v / 64 % 64 == val % 16 * 4 + c / 64 && v % 64 == c % 64
  {
    hide ShiftIn;
    BitsAt2(val, c);
    BitsAt4(val, c);
    BitsAt6(val, c);
  }

  /** The bits that are left, and padding up to a multiple of four. */
  method FlushBits(data: seq<byte>, out: string, val: nat, valb: int) returns (o: string)
    requires Pending(data, |data|, out, val, valb)
    ensures o == Encode(data)
  {
    hide Encode, Letter, Pending, Finished;
    PendingEnd(data, out, val, valb);
    o := out;
    if valb > -6 {
      o := o + [Letter(ShiftOut(ShiftIn(val, 0), valb + 8) % 64)];
    }
    FinishedNext(data, o);
    while |o| % 4 != 0
      invariant Finished(data, o) && |o| <= |Encode(data)|
      decreases |Encode(data)| - |o|
    {
      FinishedNext(data, o);
      o := o + [PADDING];
      FinishedNext(data, o);
    }
    FinishedNext(data, o);
  }

  /** All but the padding is written. */
  ghost predicate Finished(data: seq<byte>, o: string) {
    && |o| <= |Encode(data)| < |o| + 4 && |Encode(data)| % 4 == 0
    && o == Encode(data)[..|o|] && Encode(data)[|o|..] == Paddings(|Encode(data)| - |o|)
  }

  /** One more padding character, as long as the length is no multiple of four. */
  lemma FinishedNext(data: seq<byte>, o: string)
    requires Finished(data, o)
    ensures |o| <= |Encode(data)|
    ensures |o| % 4 != 0 ==> Finished(data, o + [PADDING])
    ensures |o| % 4 == 0 ==> o == Encode(data)
  {
    hide Encode;
    var e := Encode(data);
    UpToFour(|o|, |e|);
    if |o| % 4 != 0 {
      assert e[|o|..][0] == e[|o|] == PADDING;
      assert e[..|o| + 1] == e[..|o|] + [PADDING];
      PaddingsDrop(|e| - |o|, 1);
      assert e[|o| + 1..] == e[|o|..][1..];
    }
  }

  lemma UpToFour(n: nat, m: nat)
    requires n <= m < n + 4 && m % 4 == 0
    ensures n < m <==> n % 4 != 0
  {
  }

  /** What remains to be written at the end of the input. */
  lemma PendingEnd(data: seq<byte>, out: string, val: nat, valb: int)
    requires Pending(data, |data|, out, val, valb)
    ensures valb == -6 || valb == -4 || valb == -2
    ensures Finished(data, if valb == -6 then out else out + [Letter(ShiftOut(ShiftIn(val, 0), valb + 8) % 64)])
  {
    hide Encode, Letter, ShiftIn, ShiftOut, First, Second, Third, Fourth, Finished;
    if |data| % 3 == 0 {
      assert data[..|data|] == data;
      EndAtGroup(data);
    } else if |data| % 3 == 1 {
      EndAfterOne(data, val);
    } else {
      EndAfterTwo(data, val);
    }
  }

  lemma EndAtGroup(data: seq<byte>)
    requires |data| % 3 == 0
    ensures Finished(data, Encode(data))
  {
    EncodedSize(data);
    hide Encode, Paddings;
    TailIs(Encode(data), Encode(data), []);
  }

  lemma EndAfterOne(data: seq<byte>, val: nat)
    requires |data| % 3 == 1 && val % 4 == data[|data| - 1] % 4
    ensures var n := |data| - 1;
            Finished(data, Encode(data[..n]) + [First(data[n])] + [Letter(ShiftOut(ShiftIn(val, 0), 4) % 64)])
  {
    hide Encode, Letter, ShiftIn, ShiftOut, First, Second, Paddings;
    var n := |data| - 1;
    LastOfOne(val, data[n]);
    EncodeLast(data, n);
    EncodeTail(data[n..]);
    EncodedSize(data);
    TailIs(Encode(data), Encode(data[..n]) + [First(data[n])] + [Second(data[n], 0)], [PADDING, PADDING]);
  }

  lemma EndAfterTwo(data: seq<byte>, val: nat)
    requires |data| % 3 == 2 && val % 16 == data[|data| - 1] % 16
    ensures var n := |data| - 2;
            Finished(data, Encode(data[..n]) + [First(data[n]), Second(data[n], data[n + 1])]
                           + [Letter(ShiftOut(ShiftIn(val, 0), 6) % 64)])
  {
    hide Encode, Letter, ShiftIn, ShiftOut, First, Second, Third, Paddings;
    var n := |data| - 2;
    LastOfTwo(val, data[n + 1]);
    EncodeLast(data, n);
    EncodeTail(data[n..]);
    EncodedSize(data);
    TailIs(Encode(data), Encode(data[..n]) + [First(data[n]), Second(data[n], data[n + 1])] + [Third(data[n + 1], 0)],
           [PADDING]);
  }

  lemma TailIs(whole: string, written: string, pads: string)
    requires whole == written + pads && forall i :: 0 <= i < |pads| ==> pads[i] == PADDING
    ensures written == whole[..|written|] && whole[|written|..] == Paddings(|whole| - |written|)
  {
  }

  lemma LastOfOne(val: nat, t: byte)
    requires val % 4 == t % 4
    ensures Letter(ShiftOut(ShiftIn(val, 0), 4) % 64) == Second(t, 0)
  {
    hide Letter, ShiftIn;
    BitsAt4(val, 0);
  }

  lemma LastOfTwo(val: nat, t: byte)
    requires val % 16 == t % 16
    ensures Letter(ShiftOut(ShiftIn(val, 0), 6) % 64) == Third(t, 0)
  {
    hide Letter, ShiftIn;
    BitsAt6(val, 0);
  }

  // Decoding.

  lemma LettersJoin(a: string, b: string)
    ensures AllLetters(a + b) <==> AllLetters(a) && AllLetters(b)
  {
    hide IsLetter;
    assert forall i :: 0 <= i < |a| ==> a[i] == (a + b)[i];
    assert forall i :: 0 <= i < |b| ==> b[i] == (a + b)[|a| + i];
  }

  lemma {:induction false} DecodeAppend(whole: string, rest: string)
    requires AllLetters(whole) && AllLetters(rest) && |whole| % 4 == 0 && |rest| % 4 != 1
    ensures AllLetters(whole + rest)
    ensures DecodeLetters(whole + rest) == DecodeLetters(whole) + DecodeLetters(rest)
    decreases |whole|
  {
    hide GroupBytes, IsLetter;
    LettersJoin(whole, rest);
    if whole == [] {
      assert whole + rest == rest;
    } else {
      var head, tail := whole[..4], whole[4..];
      assert whole + rest == head + (tail + rest);
      assert whole == head + tail;
      LettersJoin(head, tail);
      DecodeAppend(tail, rest);
      DecodeFirst(head, tail + rest);
      DecodeFirst(head, tail);
      hide DecodeLetters, AllLetters;
    }
  }

  lemma DecodeFirst(head: string, tail: string)
    requires AllLetters(head) && AllLetters(tail) && |head| == 4 && |tail| % 4 != 1
    ensures AllLetters(head + tail) && DecodeLetters(head + tail) == GroupBytes(head) + DecodeLetters(tail)
  {
    hide GroupBytes, IsLetter;
    LettersJoin(head, tail);
    assert (head + tail)[..4] == head && (head + tail)[4..] == tail;
  }

  /** The letters up to i and one more group. */
  lemma DecodeNext(text: string, i: nat, size: nat)
    requires i % 4 == 0 && 2 <= size <= 4 && i + size <= |text| && AllLetters(text[..i])
    requires AllLetters(text[i..i + size])
    ensures AllLetters(text[..i + size])
    ensures DecodeLetters(text[..i + size]) == DecodeLetters(text[..i]) + GroupBytes(text[i..i + size])
  {
    hide GroupBytes, IsLetter;
    var group := text[i..i + size];
    assert text[..i + size] == text[..i] + group;
    DecodeAppend(text[..i], group);
    assert size == 4 ==> group[..4] == group && group[4..] == [];
  }

  /** A character that is no letter, before the padding, makes text malformed. */
  lemma BadLetter(text: string, i: nat)
    requires |text| % 4 == 0 && Padding(text) <= 2 && i < |text| - Padding(text) && !IsLetter(text[i])
    ensures Decode(text) == None
  {
    hide IsLetter, Padding;
    assert text[..|text| - Padding(text)][i] == text[i];
  }

  lemma GroupOfThree(c1: char, c2: char, c3: char)
    ensures var g := Or(Or(Table0(c1), Table1(c2)), Table2(c3));
            if IsLetter(c1) && IsLetter(c2) && IsLetter(c3) then
              g < BAD_CHAR && LowByte(g) == Byte0(Value(c1), Value(c2)) && MiddleByte(g) == Byte1(Value(c2), Value(c3))
            else g >= BAD_CHAR
  {
    assert IsLetter('A') && Table3('A') == 0;
    hide Or, Table0, Table1, Table2, IsLetter, Value, Byte0, Byte1, Byte2, LowByte, MiddleByte, HighByte;
    GroupOfFour(c1, c2, c3, 'A');
    OrNothing(Or(Or(Table0(c1), Table1(c2)), Table2(c3)));
  }

  lemma GroupOfTwo(c1: char, c2: char)
    ensures var g := Or(Table0(c1), Table1(c2));
            if IsLetter(c1) && IsLetter(c2) then g < BAD_CHAR && LowByte(g) == Byte0(Value(c1), Value(c2))
            else g >= BAD_CHAR
  {
    assert IsLetter('A') && Table2('A') == 0;
    hide Or, Table0, Table1, IsLetter, Value, Byte0, Byte1, LowByte, MiddleByte;
    GroupOfThree(c1, c2, 'A');
    OrNothing(Or(Table0(c1), Table1(c2)));
  }

  /** Looks up two to four characters and writes the bytes that they hold. */
  method PutBytes(text: string, at: nat, size: nat, decoded: array<byte>, curr: nat) returns (ok: bool)
    requires 2 <= size <= 4 && at + size <= |text| && curr + size - 1 <= decoded.Length
    modifies decoded
    ensures ok <==> AllLetters(text[at..at + size])
    ensures ok ==> decoded[..curr + size - 1] == old(decoded[..curr]) + GroupBytes(text[at..at + size])
  {
    hide Or, Table0, Table1, Table2, Table3, IsLetter, Value, Byte0, Byte1, Byte2, LowByte, MiddleByte, HighByte;
    LettersAre(text, at, size);
    var t1, t2 := text[at], text[at + 1];
    var group := Or(Table0(t1), Table1(t2));
    if size == 2 {
      GroupOfTwo(t1, t2);
    } else if size == 3 {
      group := Or(group, Table2(text[at + 2]));
      GroupOfThree(t1, t2, text[at + 2]);
    } else {
      group := Or(Or(group, Table2(text[at + 2])), Table3(text[at + 3]));
      GroupOfFour(t1, t2, text[at + 2], text[at + 3]);
    }
    if group >= BAD_CHAR { return false; }
    decoded[curr] := LowByte(group);
    if size >= 3 { decoded[curr + 1] := MiddleByte(group); }
    if size >= 4 { decoded[curr + 2] := HighByte(group); }
    return true;
  }

  lemma LettersAre(text: string, at: nat, size: nat)
    requires 2 <= size <= 4 && at + size <= |text|
    ensures AllLetters(text[at..at + size])
            <==> IsLetter(text[at]) && IsLetter(text[at + 1]) && (size >= 3 ==> IsLetter(text[at + 2]))
                 && (size >= 4 ==> IsLetter(text[at + 3]))
  {
    hide IsLetter;
    var group := text[at..at + size];
    assert group[0] == text[at] && group[1] == text[at + 1];
    assert size >= 3 ==> group[2] == text[at + 2];
    assert size >= 4 ==> group[3] == text[at + 3];
  }

  lemma BadGroup(text: string, at: nat, size: nat)
    requires |text| % 4 == 0 && Padding(text) <= 2 && at + size <= |text| - Padding(text)
    requires !AllLetters(text[at..at + size])
    ensures Decode(text) == None
  {
    hide IsLetter, Padding;
    var group := text[at..at + size];
    var k :| 0 <= k < |group| && !IsLetter(group[k]);
    BadLetter(text, at + k);
  }

  lemma GoodText(text: string)
    requires |text| % 4 == 0 && Padding(text) <= 2 && AllLetters(text[..|text| - Padding(text)])
    ensures Decode(text) == Some(DecodeLetters(text[..|text| - Padding(text)]))
  {
  }

  lemma EmptyText()
    ensures Decode([]) == Some([])
  {
  }

  /** `decode_into`; an exception of the original is None. */
  method DecodeInto(text: string) returns (result: Option<array<byte>>)
    ensures result.Some? <==> Decode(text).Some?
    ensures result.Some? ==> fresh(result.value) && result.value[..] == Decode(text).value
  {
    hide GroupBytes, IsLetter, Padding, DecodeLetters, AllLetters;
    if text == [] {
      EmptyText();
      var nothing := new byte[0];
      return Some(nothing);
    }
    if |text| % 4 != 0 { return None; }
    var padding := Padding(text);
    if padding > 2 { return None; }
    var decoded := new byte[|text| * 3 / 4 - padding];
    var groups := |text| / 4 - (if padding != 0 then 1 else 0);
    var ok := DecodeGroups(text, groups, decoded);
    if !ok { return None; }
    if padding != 0 {
      ok := PutBytes(text, 4 * groups, 4 - padding, decoded, 3 * groups);
      if !ok {
        BadGroup(text, 4 * groups, 4 - padding);
        return None;
      }
      DecodeNext(text, 4 * groups, 4 - padding);
    }
    GoodText(text);
    assert decoded[..] == decoded[..decoded.Length];
    result := Some(decoded);
  }

  /** The groups of four letters in front. */
  method DecodeGroups(text: string, groups: nat, decoded: array<byte>) returns (ok: bool)
    requires |text| % 4 == 0 && Padding(text) <= 2 && 4 * groups <= |text| - Padding(text)
    requires 3 * groups <= decoded.Length
    modifies decoded
    ensures ok ==> AllLetters(text[..4 * groups])
                   && decoded[..3 * groups] == DecodeLetters(text[..4 * groups])
    ensures !ok ==> Decode(text) == None
  {
    hide GroupBytes, IsLetter, Padding, DecodeLetters, AllLetters;
    NoLetters();
    assert text[..0] == [];
    var bytes, curr := 0, 0;
    var i := groups;
    while i > 0
      invariant 0 <= i <= groups && bytes == 4 * (groups - i) && curr == 3 * (groups - i)
      invariant AllLetters(text[..bytes]) && decoded[..curr] == DecodeLetters(text[..bytes])
    {
      ok := PutBytes(text, bytes, 4, decoded, curr);
      if !ok {
        BadGroup(text, bytes, 4);
        return false;
      }
      DecodeNext(text, bytes, 4);
      bytes := bytes + 4;
      curr := curr + 3;
      i := i - 1;
    }
    return true;
  }

  lemma NoLetters()
    ensures AllLetters([]) && DecodeLetters([]) == []
  {
  }
}
