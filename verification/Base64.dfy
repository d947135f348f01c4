/** Base64 (section 4 of RFC 4648) as functions on bytes: what the block codec and the
    bit-accumulating encoder are proved against. */
module Base64 {
  import opened Options
  import opened Powers

  type byte = x: nat | x < 256

  const PADDING := '='

  /** The alphabet: A to Z, a to z, 0 to 9, plus and slash. */
  function Letter(v: nat): (c: char)
    requires v < 64
    ensures IsLetter(c)
  {
    if v < 26 then (v + 65) as char
    else if v < 52 then (v + 71) as char
    else if v < 62 then (v - 4) as char
    else if v == 62 then '+'
    else '/'
  }

  predicate IsLetter(c: char) {
    'A' <= c <= 'Z' || 'a' <= c <= 'z' || '0' <= c <= '9' || c == '+' || c == '/'
  }

  function Value(c: char): (v: nat)
    requires IsLetter(c)
    ensures v < 64
  {
    if 'A' <= c <= 'Z' then (c - 'A') as nat
    else if 'a' <= c <= 'z' then (c - 'a') as nat + 26
    else if '0' <= c <= '9' then (c - '0') as nat + 52
    else if c == '+' then 62
    else 63
  }

  lemma LetterValue(v: nat)
    requires v < 64
    ensures IsLetter(Letter(v)) && Value(Letter(v)) == v
  {
  }

  lemma ValueLetter(c: char)
    requires IsLetter(c)
    ensures Letter(Value(c)) == c
  {
  }

  /** The alphabet written out (table 1 of RFC 4648). */
  lemma LettersAre(v: nat)
    requires v < 64
    ensures Letter(v) == ("ABCDEFGHIJKLMNOPQRSTUVWXYZ" + "abcdefghijklmnopqrstuvwxyz" + "0123456789+/")[v]
  {
    hide Letter;
    if v < 26 { UpperLetters(v); } else if v < 52 { LowerLetters(v - 26); } else { OtherLetters(v - 52); }
  }

  lemma UpperLetters(v: nat)
    requires v < 26
    ensures Letter(v) == "ABCDEFGHIJKLMNOPQRSTUVWXYZ"[v]
  {
  }

  lemma LowerLetters(v: nat)
    requires v < 26
    ensures Letter(26 + v) == "abcdefghijklmnopqrstuvwxyz"[v]
  {
  }

  lemma OtherLetters(v: nat)
    requires v < 12
    ensures Letter(52 + v) == "0123456789+/"[v]
  {
  }

  // The bytes that two neighbouring values make.

  function Byte0(v1: nat, v2: nat): byte
    requires v1 < 64 && v2 < 64
  {
    v1 * 4 + v2 / 16
  }

  function Byte1(v2: nat, v3: nat): byte
    requires v2 < 64 && v3 < 64
  {
    v2 % 16 * 16 + v3 / 4
  }

  function Byte2(v3: nat, v4: nat): byte
    requires v3 < 64 && v4 < 64
  {
    v3 % 4 * 64 + v4
  }

  // The tables of the decoder: a letter's value moved to its place in a 24-bit group
  // whose low byte comes first, and a marker above 24 bits for everything else.

  const BAD_CHAR := 0x01FF_FFFF

  function Table0(c: char): nat { if IsLetter(c) then Value(c) * 4 else BAD_CHAR }

  function Table1(c: char): nat { if IsLetter(c) then Value(c) / 16 + Value(c) % 16 * 0x1000 else BAD_CHAR }

  function Table2(c: char): nat {
    if IsLetter(c) then Value(c) / 4 * 0x100 + Value(c) % 4 * 0x40_0000 else BAD_CHAR
  }

  function Table3(c: char): nat { if IsLetter(c) then Value(c) * 0x1_0000 else BAD_CHAR }

  function LowByte(group: nat): byte { group % 256 }

  function MiddleByte(group: nat): byte { group / 0x100 % 256 }

  function HighByte(group: nat): byte { group / 0x1_0000 % 256 }

  /** A group is rejected exactly when one of its letters is none; otherwise its bytes
      are the 24 bits of the four values in order. */
  lemma GroupOfFour(c1: char, c2: char, c3: char, c4: char)
    ensures var g := Or(Or(Or(Table0(c1), Table1(c2)), Table2(c3)), Table3(c4));
            if IsLetter(c1) && IsLetter(c2) && IsLetter(c3) && IsLetter(c4) then
              && g < BAD_CHAR
              && LowByte(g) == Byte0(Value(c1), Value(c2))
              && MiddleByte(g) == Byte1(Value(c2), Value(c3))
              && HighByte(g) == Byte2(Value(c3), Value(c4))
            else g >= BAD_CHAR
  {
    hide Or;
    if IsLetter(c1) && IsLetter(c2) && IsLetter(c3) && IsLetter(c4) {
      TablesJoin(Value(c1), Value(c2), Value(c3), Value(c4));
      FieldsOfFour(Value(c1), Value(c2), Value(c3), Value(c4));
    } else {
      hide Table0, Table1, Table2, Table3, IsLetter;
      BadStays(c1, c2, c3, c4);
    }
  }

  lemma BadStays(c1: char, c2: char, c3: char, c4: char)
    requires !(IsLetter(c1) && IsLetter(c2) && IsLetter(c3) && IsLetter(c4))
    ensures Or(Or(Or(Table0(c1), Table1(c2)), Table2(c3)), Table3(c4)) >= BAD_CHAR
  {
    hide Or;
    OrAtLeast(Table0(c1), Table1(c2));
    OrAtLeast(Or(Table0(c1), Table1(c2)), Table2(c3));
    OrAtLeast(Or(Or(Table0(c1), Table1(c2)), Table2(c3)), Table3(c4));
  }

  lemma SmallPowers()
    ensures Pow2(2) == 4 && Pow2(4) == 16 && Pow2(6) == 64 && Pow2(8) == 0x100 && Pow2(16) == 0x1_0000
  {
    Pow2Add(2, 2);
    Pow2Add(4, 2);
    Pow2Add(4, 4);
    Pow2Add(8, 8);
  }

  lemma OrNothing(x: nat)
    ensures Or(x, 0) == x && Or(0, x) == x
  {
  }

  /** Fields that leave each other room: OR is their sum. */
  lemma OrApart(a1: nat, a0: nat, b1: nat, b0: nat, k: nat)
    requires a0 < Pow2(k) && b0 < Pow2(k) && (a0 == 0 || b0 == 0)
    ensures Or(a1 * Pow2(k) + a0, b1 * Pow2(k) + b0) == Or(a1, b1) * Pow2(k) + a0 + b0
  {
    OrFields(a1, a0, b1, b0, k);
    OrNothing(a0);
    OrNothing(b0);
  }

  /** No two of the four table values share a bit. */
  lemma TablesJoin(v1: nat, v2: nat, v3: nat, v4: nat)
    requires v1 < 64 && v2 < 64 && v3 < 64 && v4 < 64
    ensures var (t1, t2) := (v2 / 16 + v2 % 16 * 0x1000, v3 / 4 * 0x100 + v3 % 4 * 0x40_0000);
            Or(Or(Or(v1 * 4, t1), t2), v4 * 0x1_0000) == v1 * 4 + t1 + t2 + v4 * 0x1_0000
  {
    hide Or;
    var x, y, z, w := v2 / 16, v2 % 16, v3 / 4, v3 % 4;
    var low := v1 * 4 + x;
    JoinOne(v1, x, y);
    JoinTwo(low, y, z, w);
    JoinThree(low + 0x1000 * y + 0x100 * z, w, v4);
  }

  lemma JoinOne(v1: nat, x: nat, y: nat)
    requires v1 < 64 && x < 4 && y < 16
    ensures Or(v1 * 4, x + y * 0x1000) == v1 * 4 + x + y * 0x1000
  {
    hide Or, Pow2;
    SmallPowers();
    OrApart(v1, 0, y * 0x400, x, 2);
    OrApart(0, v1, y * 0x10, 0, 6);
    OrNothing(y * 0x10);
  }

  lemma JoinTwo(low: nat, y: nat, z: nat, w: nat)
    requires low < 0x100 && y < 16 && z < 16 && w < 4
    ensures Or(low + y * 0x1000, z * 0x100 + w * 0x40_0000) == low + y * 0x1000 + z * 0x100 + w * 0x40_0000
  {
    hide Or, Pow2;
    SmallPowers();
    OrApart(y * 0x10, low, z + w * 0x4000, 0, 8);
    OrApart(y, 0, w * 0x400, z, 4);
    OrApart(0, y, w * 0x40, 0, 4);
    OrNothing(w * 0x40);
  }

  lemma JoinThree(low: nat, w: nat, v4: nat)
    requires low < 0x1_0000 && w < 4 && v4 < 64
    ensures Or(low + w * 0x40_0000, v4 * 0x1_0000) == low + w * 0x40_0000 + v4 * 0x1_0000
  {
    hide Or, Pow2;
    SmallPowers();
    OrApart(w * 0x40, low, v4, 0, 16);
    OrApart(w, 0, 0, v4, 6);
    OrNothing(w);
  }

  lemma FieldsOfFour(v1: nat, v2: nat, v3: nat, v4: nat)
    requires v1 < 64 && v2 < 64 && v3 < 64 && v4 < 64
    ensures var g := v1 * 4 + (v2 / 16 + v2 % 16 * 0x1000) + (v3 / 4 * 0x100 + v3 % 4 * 0x40_0000) + v4 * 0x1_0000;
            && g < BAD_CHAR
            && g % 256 == v1 * 4 + v2 / 16
            && g / 0x100 % 256 == v2 % 16 * 16 + v3 / 4
            && g / 0x1_0000 % 256 == v3 % 4 * 64 + v4
  {
    var b0, b1, b2 := v1 * 4 + v2 / 16, v2 % 16 * 16 + v3 / 4, v3 % 4 * 64 + v4;
    var g := v1 * 4 + (v2 / 16 + v2 % 16 * 0x1000) + (v3 / 4 * 0x100 + v3 % 4 * 0x40_0000) + v4 * 0x1_0000;
    assert g == b0 + b1 * 0x100 + b2 * 0x1_0000;
    ThreeBytes(b0, b1, b2);
  }

  lemma ThreeBytes(b0: nat, b1: nat, b2: nat)
    requires b0 < 256 && b1 < 256 && b2 < 256
    ensures var g := b0 + b1 * 0x100 + b2 * 0x1_0000;
            g < BAD_CHAR && g % 256 == b0 && g / 0x100 % 256 == b1 && g / 0x1_0000 % 256 == b2
  {
  }

  // Encoding, three bytes at a time.

  function First(t1: byte): char { Letter(t1 / 4) }

  function Second(t1: byte, t2: byte): char { Letter(t1 % 4 * 16 + t2 / 16) }

  function Third(t2: byte, t3: byte): char { Letter(t2 % 16 * 4 + t3 / 64) }

  function Fourth(t3: byte): char { Letter(t3 % 64) }

  /** The two letters that hold bits of two bytes, as the encoder joins those bits. */
  lemma JoinedLetters(t: byte, u: byte)
    ensures Or(t % 4 * 16, u / 16) < 64 && Letter(Or(t % 4 * 16, u / 16)) == Second(t, u)
    ensures Or(t % 16 * 4, u / 64) < 64 && Letter(Or(t % 16 * 4, u / 64)) == Third(t, u)
    ensures Letter(t % 4 * 16) == Second(t, 0) && Letter(t % 16 * 4) == Third(t, 0)
  {
    hide Or, Pow2, Letter;
    SmallPowers();
    OrApart(t % 4, 0, 0, u / 16, 4);
    OrApart(t % 16, 0, 0, u / 64, 2);
    OrNothing(t % 4);
    OrNothing(t % 16);
  }

  function Encode(data: seq<byte>): string
    decreases |data|
  {
    if data == [] then []
    else if |data| == 1 then [First(data[0]), Second(data[0], 0), PADDING, PADDING]
    else if |data| == 2 then [First(data[0]), Second(data[0], data[1]), Third(data[1], 0), PADDING]
    else [First(data[0]), Second(data[0], data[1]), Third(data[1], data[2]), Fourth(data[2])] + Encode(data[3..])
  }

  /** The texts of section 10 of RFC 4648. */
  lemma EncodeFoobar()
    ensures Encode([]) == "" && Encode([102]) == "Zg==" && Encode([102, 111]) == "Zm8="
    ensures Encode([102, 111, 111]) == "Zm9v" && Encode([102, 111, 111, 98]) == "Zm9vYg=="
    ensures Encode([102, 111, 111, 98, 97]) == "Zm9vYmE="
    ensures Encode([102, 111, 111, 98, 97, 114]) == "Zm9vYmFy"
  {
    hide IsLetter, Value;
  }

  /** The last two letters. */
  lemma EncodePlusSlash()
    ensures Encode([0xFB, 0xEF, 0xBE]) == "++++" && Encode([0xFF, 0xFF, 0xFF]) == "////"
  {
    hide IsLetter, Value;
  }

  // Decoding, four letters at a time.

  predicate AllLetters(s: string) { forall i :: 0 <= i < |s| ==> IsLetter(s[i]) }

  /** The bytes of two to four letters; the bits left over are ignored. */
  function GroupBytes(s: string): (r: seq<byte>)
    requires 2 <= |s| <= 4 && AllLetters(s)
    ensures |r| == |s| - 1
  {
    var first := Byte0(Value(s[0]), Value(s[1]));
    if |s| == 2 then [first]
    else
      var second := Byte1(Value(s[1]), Value(s[2]));
      if |s| == 3 then [first, second] else [first, second, Byte2(Value(s[2]), Value(s[3]))]
  }

  /** How many of the last four characters are padding. */
  function Padding(s: string): (n: nat)
    ensures n <= 4
  {
    if |s| < 4 then 0
    else
      (if s[|s| - 1] == PADDING then 1 else 0) + (if s[|s| - 2] == PADDING then 1 else 0)
      + (if s[|s| - 3] == PADDING then 1 else 0) + (if s[|s| - 4] == PADDING then 1 else 0)
  }

  /** Letters in groups of four, the last of which may lack one or two. */
  predicate WellFormed(s: string) {
    && |s| % 4 == 0 && Padding(s) <= 2
    && AllLetters(s[..|s| - Padding(s)])
  }

  function DecodeLetters(s: string): (r: seq<byte>)
    requires AllLetters(s) && |s| % 4 != 1
    ensures |r| == |s| / 4 * 3 + (if |s| % 4 == 0 then 0 else |s| % 4 - 1)
    decreases |s|
  {
    if s == [] then []
    else if |s| < 4 then GroupBytes(s)
    else GroupBytes(s[..4]) + DecodeLetters(s[4..])
  }

  function Decode(s: string): Option<seq<byte>> {
    if WellFormed(s) then Some(DecodeLetters(s[..|s| - Padding(s)])) else None
  }

  // Round trips.

  /** Encoded text without its padding. */
  function Core(data: seq<byte>): string
    decreases |data|
  {
    if data == [] then []
    else if |data| == 1 then [First(data[0]), Second(data[0], 0)]
    else if |data| == 2 then [First(data[0]), Second(data[0], data[1]), Third(data[1], 0)]
    else [First(data[0]), Second(data[0], data[1]), Third(data[1], data[2]), Fourth(data[2])] + Core(data[3..])
  }

  function Pad(count: nat): string
    requires count <= 2
  {
    if count == 0 then [] else if count == 1 then [PADDING] else [PADDING, PADDING]
  }

  function Missing(count: nat): (n: nat)
    ensures n <= 2 && (count + n) % 3 == 0
  {
    (3 - count % 3) % 3
  }

  lemma {:induction false} EncodeIsCore(data: seq<byte>)
    ensures Encode(data) == Core(data) + Pad(Missing(|data|))
    ensures |Core(data)| == |data| / 3 * 4 + (if |data| % 3 == 0 then 0 else |data| % 3 + 1)
    decreases |data|
  {
    hide Letter;
    if |data| >= 3 { EncodeIsCore(data[3..]); }
  }

  /** Cutting three bytes into four values and putting them together again. */
  lemma FieldsOfBytes(t1: byte, t2: byte, t3: byte)
    ensures Byte0(t1 / 4, t1 % 4 * 16 + t2 / 16) == t1
    ensures Byte1(t1 % 4 * 16 + t2 / 16, t2 % 16 * 4 + t3 / 64) == t2
    ensures Byte2(t2 % 16 * 4 + t3 / 64, t3 % 64) == t3
  {
    assert (t1 % 4 * 16 + t2 / 16) / 16 == t1 % 4 && (t1 % 4 * 16 + t2 / 16) % 16 == t2 / 16;
    assert (t2 % 16 * 4 + t3 / 64) / 4 == t2 % 16 && (t2 % 16 * 4 + t3 / 64) % 4 == t3 / 64;
  }

  lemma ThreeRoundTrip(t1: byte, t2: byte, t3: byte)
    ensures var s := [First(t1), Second(t1, t2), Third(t2, t3), Fourth(t3)];
            AllLetters(s) && GroupBytes(s) == [t1, t2, t3]
  {
    hide Letter, IsLetter, Value, Byte0, Byte1, Byte2;
    LetterValue(t1 / 4);
    LetterValue(t1 % 4 * 16 + t2 / 16);
    LetterValue(t2 % 16 * 4 + t3 / 64);
    LetterValue(t3 % 64);
    FieldsOfBytes(t1, t2, t3);
  }

  lemma TwoRoundTrip(t1: byte, t2: byte)
    ensures var s := [First(t1), Second(t1, t2), Third(t2, 0)]; AllLetters(s) && GroupBytes(s) == [t1, t2]
  {
    ThreeRoundTrip(t1, t2, 0);
    hide Letter, IsLetter, Value, First, Second, Third, Fourth;
    var s := [First(t1), Second(t1, t2), Third(t2, 0), Fourth(0)];
    assert IsLetter(s[0]) && IsLetter(s[1]) && IsLetter(s[2]);
  }

  lemma OneRoundTrip(t1: byte)
    ensures var s := [First(t1), Second(t1, 0)]; AllLetters(s) && GroupBytes(s) == [t1]
  {
    TwoRoundTrip(t1, 0);
    hide Letter, IsLetter, Value, First, Second, Third;
    var s := [First(t1), Second(t1, 0), Third(0, 0)];
    assert IsLetter(s[0]) && IsLetter(s[1]);
  }

  lemma {:induction false} CoreRoundTrip(data: seq<byte>)
    ensures AllLetters(Core(data)) && |Core(data)| % 4 != 1 && DecodeLetters(Core(data)) == data
    decreases |data|
  {
    hide Letter, IsLetter, Value, First, Second, Third, Fourth, GroupBytes;
    if data == [] {
    } else if |data| == 1 {
      OneRoundTrip(data[0]);
    } else if |data| == 2 {
      TwoRoundTrip(data[0], data[1]);
    } else {
      ThreeRoundTrip(data[0], data[1], data[2]);
      CoreRoundTrip(data[3..]);
      var head := [First(data[0]), Second(data[0], data[1]), Third(data[1], data[2]), Fourth(data[2])];
      assert Core(data) == head + Core(data[3..]);
      LettersAfterFour(head, Core(data[3..]));
      assert data == [data[0], data[1], data[2]] + data[3..];
    }
  }

  lemma LettersAfterFour(head: string, tail: string)
    requires |head| == 4 && AllLetters(head) && AllLetters(tail) && |tail| % 4 != 1
    ensures AllLetters(head + tail) && |head + tail| % 4 != 1
    ensures DecodeLetters(head + tail) == GroupBytes(head) + DecodeLetters(tail)
  {
    hide IsLetter, GroupBytes;
    var s := head + tail;
    assert s[..4] == head && s[4..] == tail;
  }

  /** Letters followed by padding up to a multiple of four are well-formed, and the
      padding is what is counted. */
  lemma PaddingIs(letters: string, count: nat)
    requires AllLetters(letters) && count <= 2 && (|letters| + count) % 4 == 0
    ensures var s := letters + Pad(count); Padding(s) == count && s[..|s| - count] == letters && WellFormed(s)
  {
    assert forall i :: 0 <= i < |letters| ==> letters[i] != PADDING;
  }

  /** Decoding undoes encoding, for every byte string. */
  lemma RoundTrip(data: seq<byte>)
    ensures Decode(Encode(data)) == Some(data)
  {
    EncodeIsCore(data);
    CoreRoundTrip(data);
    hide Encode, Core, DecodeLetters, IsLetter, Letter;
    PaddingIs(Core(data), Missing(|data|));
  }

  /** Whether the last letter of an incomplete group has zeros where no byte looks. */
  predicate SpareBitsZero(letters: string)
    requires AllLetters(letters)
  {
    && (|letters| % 4 == 2 ==> Value(letters[|letters| - 1]) % 16 == 0)
    && (|letters| % 4 == 3 ==> Value(letters[|letters| - 1]) % 4 == 0)
  }

  lemma {:induction false} CoreOfDecoded(letters: string)
    requires AllLetters(letters) && |letters| % 4 != 1
    ensures Core(DecodeLetters(letters)) == letters <==> SpareBitsZero(letters)
    decreases |letters|
  {
    hide *;
    if |letters| < 4 {
      ShortLetters(letters);
    } else {
      var head, tail := letters[..4], letters[4..];
      LettersSplit(letters);
      SpareSplit(letters);
      GroupBack(head);
      CoreOfDecoded(tail);
      var data := DecodeLetters(letters);
      CoreOfFirst(data);
      assert Core(data)[..4] == Core(data[..3]) && Core(data)[4..] == Core(data[3..]);
    }
  }

  lemma ShortLetters(letters: string)
    requires AllLetters(letters) && |letters| % 4 != 1 && |letters| < 4
    ensures Core(DecodeLetters(letters)) == letters <==> SpareBitsZero(letters)
  {
    hide GroupBytes, Letter, IsLetter, Value;
    if letters != [] {
      GroupBack(letters);
      hide Core;
    }
  }

  lemma LettersSplit(letters: string)
    requires AllLetters(letters) && |letters| % 4 != 1 && |letters| >= 4
    ensures letters == letters[..4] + letters[4..] && AllLetters(letters[..4]) && AllLetters(letters[4..])
    ensures DecodeLetters(letters)[..3] == GroupBytes(letters[..4])
    ensures DecodeLetters(letters)[3..] == DecodeLetters(letters[4..])
  {
    hide GroupBytes, IsLetter, Value;
  }

  lemma SpareSplit(letters: string)
    requires AllLetters(letters) && |letters| >= 4
    ensures AllLetters(letters[..4]) && AllLetters(letters[4..])
    ensures SpareBitsZero(letters) <==> SpareBitsZero(letters[4..])
    ensures SpareBitsZero(letters[..4])
  {
    hide IsLetter, Value;
    var tail := letters[4..];
    assert |tail| % 4 == |letters| % 4;
    assert tail != [] ==> tail[|tail| - 1] == letters[|letters| - 1];
  }

  lemma CoreOfFirst(data: seq<byte>)
    requires |data| >= 3
    ensures Core(data) == Core(data[..3]) + Core(data[3..]) && |Core(data[..3])| == 4
  {
    hide First, Second, Third, Fourth;
    assert data[..3][3..] == [];
  }

  /** Cutting bytes made of four values gives the values back; where a byte is missing,
      without the bits that it would hold. */
  lemma LettersBack(v1: nat, v2: nat, v3: nat, v4: nat)
    requires v1 < 64 && v2 < 64 && v3 < 64 && v4 < 64
    ensures First(Byte0(v1, v2)) == Letter(v1)
    ensures Second(Byte0(v1, v2), Byte1(v2, v3)) == Letter(v2)
    ensures Third(Byte1(v2, v3), Byte2(v3, v4)) == Letter(v3)
    ensures Fourth(Byte2(v3, v4)) == Letter(v4)
    ensures Second(Byte0(v1, v2), 0) == Letter(v2 / 16 * 16)
    ensures Third(Byte1(v2, v3), 0) == Letter(v3 / 4 * 4)
  {
    hide Letter;
    assert (v1 * 4 + v2 / 16) / 4 == v1 && (v1 * 4 + v2 / 16) % 4 == v2 / 16;
    assert (v2 % 16 * 16 + v3 / 4) / 16 == v2 % 16 && (v2 % 16 * 16 + v3 / 4) % 16 == v3 / 4;
    assert (v3 % 4 * 64 + v4) / 64 == v3 % 4 && (v3 % 4 * 64 + v4) % 64 == v4;
  }

  lemma SameLetter(v: nat, w: nat)
    requires v < 64 && w < 64
    ensures Letter(v) == Letter(w) <==> v == w
  {
    LetterValue(v);
    LetterValue(w);
  }

  /** One group of letters, decoded and encoded again. */
  lemma GroupBack(s: string)
    requires 2 <= |s| <= 4 && AllLetters(s)
    ensures Core(GroupBytes(s)) == s <==> SpareBitsZero(s)
  {
    hide Letter, IsLetter, Value, Core, GroupBytes;
    if |s| == 2 {
      TwoBack(s);
    } else if |s| == 3 {
      ThreeBack(s);
    } else {
      FourBack(s);
    }
  }

  lemma TwoBack(s: string)
    requires |s| == 2 && AllLetters(s)
    ensures Core(GroupBytes(s)) == s <==> Value(s[1]) % 16 == 0
  {
    hide Letter, IsLetter, Value, First, Second, Byte0;
    var v1, v2 := Value(s[0]), Value(s[1]);
    ValueLetter(s[0]);
    ValueLetter(s[1]);
    LettersBack(v1, v2, 0, 0);
    SameLetter(v2 / 16 * 16, v2);
    assert Core(GroupBytes(s)) == [Letter(v1), Letter(v2 / 16 * 16)];
  }

  lemma ThreeBack(s: string)
    requires |s| == 3 && AllLetters(s)
    ensures Core(GroupBytes(s)) == s <==> Value(s[2]) % 4 == 0
  {
    hide Letter, IsLetter, Value, First, Second, Third, Byte0, Byte1;
    var v1, v2, v3 := Value(s[0]), Value(s[1]), Value(s[2]);
    ValueLetter(s[0]);
    ValueLetter(s[1]);
    ValueLetter(s[2]);
    LettersBack(v1, v2, v3, 0);
    SameLetter(v3 / 4 * 4, v3);
    assert Core(GroupBytes(s)) == [Letter(v1), Letter(v2), Letter(v3 / 4 * 4)];
  }

  lemma FourBack(s: string)
    requires |s| == 4 && AllLetters(s)
    ensures Core(GroupBytes(s)) == s
  {
    hide Letter, IsLetter, Value, First, Second, Third, Fourth, Byte0, Byte1, Byte2;
    var v1, v2, v3, v4 := Value(s[0]), Value(s[1]), Value(s[2]), Value(s[3]);
    ValueLetter(s[0]);
    ValueLetter(s[1]);
    ValueLetter(s[2]);
    ValueLetter(s[3]);
    LettersBack(v1, v2, v3, v4);
    CoreOfThree(GroupBytes(s));
  }

  lemma CoreOfThree(data: seq<byte>)
    requires |data| == 3
    ensures Core(data) == [First(data[0]), Second(data[0], data[1]), Third(data[1], data[2]), Fourth(data[2])]
  {
    hide First, Second, Third, Fourth;
    assert data[3..] == [];
  }

  lemma SameEnd(a: string, b: string, t: string)
    ensures a + t == b + t <==> a == b
  {
    if a + t == b + t {
      assert |a| == |b|;
      assert a == (a + t)[..|a|] && b == (b + t)[..|b|];
    }
  }

  lemma MissingIsPadding(letters: nat, bytes: nat, padding: nat)
    requires (letters + padding) % 4 == 0 && padding <= 2
    requires bytes == letters / 4 * 3 + (if letters % 4 == 0 then 0 else letters % 4 - 1)
    ensures Missing(bytes) == padding
  {
  }

  /** Encoding undoes decoding exactly when the spare bits are zero. */
  lemma RoundTripBack(s: string)
    requires WellFormed(s)
    ensures Encode(Decode(s).value) == s <==> SpareBitsZero(s[..|s| - Padding(s)])
  {
    var letters := s[..|s| - Padding(s)];
    PaddingAtEnd(s);
    hide Padding, Encode, Core, DecodeLetters, Letter, IsLetter, Value, SpareBitsZero, Pad, Missing;
    var data := DecodeLetters(letters);
    CoreOfDecoded(letters);
    EncodeIsCore(data);
    MissingIsPadding(|letters|, |data|, Padding(s));
    SameEnd(Core(data), letters, Pad(Padding(s)));
  }

  /** The counted padding stands at the end. */
  lemma PaddingAtEnd(s: string)
    requires WellFormed(s)
    ensures s == s[..|s| - Padding(s)] + Pad(Padding(s))
  {
    var letters := s[..|s| - Padding(s)];
    forall i | 0 <= i < |letters| ensures s[i] != PADDING {
      assert IsLetter(letters[i]);
    }
  }
}
