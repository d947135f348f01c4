/** The SSE4.1 implementation: two 128-bit halves, and the instructions it uses. */
module HighwaySse41 {
  import opened HighwayLanes
  import opened HighwayPortable

  /** A 128-bit vector of two 64-bit lanes (`V2x64U`). */
  datatype V2x64 = V(lo: bv64, hi: bv64)

  function AddV(a: V2x64, b: V2x64): V2x64 { V(Plus64(a.lo, b.lo), Plus64(a.hi, b.hi)) }

  function XorV(a: V2x64, b: V2x64): V2x64 { V(Xor64(a.lo, b.lo), Xor64(a.hi, b.hi)) }

  /** `_mm_mul_epu32`: the low halves of the lanes. */
  function MulEpu32(a: V2x64, b: V2x64): V2x64 {
    V(Times64(Low32(a.lo), Low32(b.lo)), Times64(Low32(a.hi), Low32(b.hi)))
  }

  /** `_mm_srli_epi64` by 32. */
  function ShiftRight32V(a: V2x64): V2x64 { V(High32(a.lo), High32(a.hi)) }

  /** `_mm_shuffle_epi32` with control (2, 3, 0, 1): every lane swaps its halves. */
  function Rotate64By32V(v: V2x64): V2x64 {
    V(Join(HighHalf(v.lo), LowHalf(v.lo)), Join(HighHalf(v.hi), LowHalf(v.hi)))
  }

  lemma RotateIs(x: bv64)
    ensures Join(HighHalf(x), LowHalf(x)) == Rotate64By32(x)
  {
  }

  lemma RotateLow(x: bv64)
    ensures Low32(Rotate64By32(x)) == High32(x)
  {
    assert ((x >> 32) | (x << 32)) & 0xFFFF_FFFF == x >> 32;
  }

  lemma ShiftLow(x: bv64)
    ensures Low32(High32(x)) == High32(x)
  {
  }

  /** Byte `c & 15` of a vector, or zero if the top bit of c is set. */
  function SelectByte(v: V2x64, c: bv64): bv64 {
    if c & 0x80 != 0 then 0
    else if c & 8 == 0 then ByteAt(v.lo, c & 7) else ByteAt(v.hi, c & 7)
  }

  function ByteAt(x: bv64, k: bv64): bv64 {
    if k == 0 then Byte(x, 0) else if k == 1 then Byte(x, 1) else if k == 2 then Byte(x, 2)
    else if k == 3 then Byte(x, 3) else if k == 4 then Byte(x, 4) else if k == 5 then Byte(x, 5)
    else if k == 6 then Byte(x, 6) else Byte(x, 7)
  }

  function SelectLane(v: V2x64, c: bv64): bv64 {
    Pack(SelectByte(v, Byte(c, 0)), SelectByte(v, Byte(c, 1)), SelectByte(v, Byte(c, 2)), SelectByte(v, Byte(c, 3)),
         SelectByte(v, Byte(c, 4)), SelectByte(v, Byte(c, 5)), SelectByte(v, Byte(c, 6)), SelectByte(v, Byte(c, 7)))
  }

  /** `_mm_shuffle_epi8`. */
  function ShuffleEpi8(v: V2x64, control: V2x64): V2x64 {
    V(SelectLane(v, control.lo), SelectLane(v, control.hi))
  }

  const ZIP_LO: bv64 := 0x000F010E05020C03
  const ZIP_HI: bv64 := 0x070806090D0A040B

  function ZipperMerge(v: V2x64): V2x64 { ShuffleEpi8(v, V(ZIP_LO, ZIP_HI)) }

  lemma ControlBytes()
    ensures Byte(ZIP_LO, 0) == 0x03 && Byte(ZIP_LO, 1) == 0x0C && Byte(ZIP_LO, 2) == 0x02 && Byte(ZIP_LO, 3) == 0x05
    ensures Byte(ZIP_LO, 4) == 0x0E && Byte(ZIP_LO, 5) == 0x01 && Byte(ZIP_LO, 6) == 0x0F && Byte(ZIP_LO, 7) == 0x00
    ensures Byte(ZIP_HI, 0) == 0x0B && Byte(ZIP_HI, 1) == 0x04 && Byte(ZIP_HI, 2) == 0x0A && Byte(ZIP_HI, 3) == 0x0D
    ensures Byte(ZIP_HI, 4) == 0x09 && Byte(ZIP_HI, 5) == 0x06 && Byte(ZIP_HI, 6) == 0x08 && Byte(ZIP_HI, 7) == 0x07
  {
  }

  lemma SelectedLow(v: V2x64)
    ensures SelectByte(v, 0) == Byte(v.lo, 0) && SelectByte(v, 1) == Byte(v.lo, 1)
    ensures SelectByte(v, 2) == Byte(v.lo, 2) && SelectByte(v, 3) == Byte(v.lo, 3)
    ensures SelectByte(v, 4) == Byte(v.lo, 4) && SelectByte(v, 5) == Byte(v.lo, 5)
    ensures SelectByte(v, 6) == Byte(v.lo, 6) && SelectByte(v, 7) == Byte(v.lo, 7)
  {
    hide Byte;
  }

  lemma SelectedHigh(v: V2x64)
    ensures SelectByte(v, 8) == Byte(v.hi, 0) && SelectByte(v, 9) == Byte(v.hi, 1)
    ensures SelectByte(v, 10) == Byte(v.hi, 2) && SelectByte(v, 11) == Byte(v.hi, 3)
    ensures SelectByte(v, 12) == Byte(v.hi, 4) && SelectByte(v, 13) == Byte(v.hi, 5)
    ensures SelectByte(v, 14) == Byte(v.hi, 6) && SelectByte(v, 15) == Byte(v.hi, 7)
  {
    hide Byte;
  }

  /** The byte shuffle is the zipper merge. */
  lemma ShuffleIsZip(v: V2x64)
    ensures ZipperMerge(v) == V(ZipLow(v.hi, v.lo), ZipHigh(v.hi, v.lo))
  {
    hide Byte, SelectByte, Pack;
    ControlBytes();
    SelectedLow(v);
    SelectedHigh(v);
  }

  // `_mm_sll_epi32` and `_mm_srl_epi32`, for counts below 32.
  function ShiftLeftEpi32(v: V2x64, count: nat): V2x64
    requires 0 < count < 32
  {
    V(Join(ShiftLeft32(LowHalf(v.lo), count), ShiftLeft32(HighHalf(v.lo), count)),
      Join(ShiftLeft32(LowHalf(v.hi), count), ShiftLeft32(HighHalf(v.hi), count)))
  }

  function ShiftRightEpi32(v: V2x64, count: nat): V2x64
    requires 0 < count < 32
  {
    V(Join(ShiftRight32(LowHalf(v.lo), count), ShiftRight32(HighHalf(v.lo), count)),
      Join(ShiftRight32(LowHalf(v.hi), count), ShiftRight32(HighHalf(v.hi), count)))
  }

  function And64(a: bv64, b: bv64): bv64 { a & b }

  function OrV(a: V2x64, b: V2x64): V2x64 { V(Or64(a.lo, b.lo), Or64(a.hi, b.hi)) }

  function AndV(a: V2x64, b: V2x64): V2x64 { V(And64(a.lo, b.lo), And64(a.hi, b.hi)) }

  /** `Rotate32By` on one vector. */
  function Rotate32ByV(v: V2x64, count: nat): V2x64
    requires 0 < count < 32
  {
    OrV(ShiftLeftEpi32(v, count), ShiftRightEpi32(v, 32 - count))
  }

  lemma JoinOr(a: bv32, b: bv32, c: bv32, d: bv32)
    ensures Or64(Join(a, b), Join(c, d)) == Join(Or32(a, c), Or32(b, d))
  {
  }

  lemma RotateHalvesIs(v: V2x64, count: nat)
    requires 0 < count < 32
    ensures Rotate32ByV(v, count) == V(RotateHalves(v.lo, count), RotateHalves(v.hi, count))
  {
    hide Join, LowHalf, HighHalf, Or64, Or32, ShiftLeft32, ShiftRight32;
    var l, h := LowHalf(v.lo), HighHalf(v.lo);
    JoinOr(ShiftLeft32(l, count), ShiftLeft32(h, count), ShiftRight32(l, 32 - count), ShiftRight32(h, 32 - count));
    var m, k := LowHalf(v.hi), HighHalf(v.hi);
    JoinOr(ShiftLeft32(m, count), ShiftLeft32(k, count), ShiftRight32(m, 32 - count), ShiftRight32(k, 32 - count));
  }

  /** `_mm_slli_si128` by eight bytes. */
  function ShiftLanes(v: V2x64): V2x64 { V(0, v.lo) }

  /** `_mm_shuffle_epi32` with control 0 of a single word. */
  function BroadcastWord(w: bv32): V2x64 { V(Join(w, w), Join(w, w)) }

  /** `LoadMultipleOfFour`: the multiple-of-four part below 16 bytes, zero-extended. */
  method LoadMultipleOfFour(bytes: seq<bv8>, size: nat) returns (ret: V2x64)
    requires size < 32 && size % 16 / 4 * 4 <= |bytes|
    ensures ret == V(Join(WordAt(bytes, 0, size), WordAt(bytes, 1, size)), Join(WordAt(bytes, 2, size), 0))
  {
    hide Join, Little32, Little64, Or64, And64;
    var words := bytes;
    var mask4 := V(0xFFFF_FFFF, 0);
    ret := V(0, 0);
    JoinFacts(0, 0);
    if size / 8 % 2 == 1 {
      ret := V(Little64(words[..8]), 0);
      Little64Is(words[..8]);
      assert words[..8][..4] == bytes[0..4] && words[..8][4..] == bytes[4..8];
      mask4 := ShiftLanes(mask4);
      words := words[8..];
    }
    if size / 4 % 2 == 1 {
      var word2 := Little32(words[..4]);
      assert words[..4] == if size / 8 % 2 == 1 then bytes[8..12] else bytes[0..4];
      JoinFacts(word2, word2);
      JoinFacts(word2, 0);
      OrZero(ret.lo);
      OrZero(Join(word2, 0));
      AndZero(Join(word2, word2));
      ret := OrV(ret, AndV(BroadcastWord(word2), mask4));
    }
  }

  /** Word k of the multiple-of-four part of `size` bytes below 16, or zero. */
  function WordAt(bytes: seq<bv8>, k: nat, size: nat): bv32
    requires size % 16 / 4 * 4 <= |bytes|
  {
    if k < size % 16 / 4 then Little32(bytes[4 * k..4 * k + 4]) else 0
  }

  lemma JoinFacts(a: bv32, b: bv32)
    ensures Join(0, 0) == 0
    ensures And64(Join(a, b), 0xFFFF_FFFF) == Join(a, 0)
  {
  }

  lemma OrZero(x: bv64)
    ensures Or64(x, 0) == x && Or64(0, x) == x
  {
  }

  lemma AndZero(x: bv64)
    ensures And64(x, 0) == 0
  {
  }

  lemma Little64Is(s: seq<bv8>)
    requires |s| == 8
    ensures Little64(s) == Join(Little32(s[..4]), Little32(s[4..]))
  {
    PackIs(s[0], s[1], s[2], s[3], s[4], s[5], s[6], s[7]);
    assert s[4..] == [s[4], s[5], s[6], s[7]] && s[..4] == [s[0], s[1], s[2], s[3]];
    hide Pack, Join;
  }

  lemma PackIs(a: bv8, b: bv8, c: bv8, d: bv8, e: bv8, f: bv8, g: bv8, h: bv8)
    ensures Pack(a as bv64, b as bv64, c as bv64, d as bv64, e as bv64, f as bv64, g as bv64, h as bv64)
         == Join(Little32([a, b, c, d]), Little32([e, f, g, h]))
  {
    hide Little32, Left, Or64, Join, Widen;
    LowWord(a, b, c, d);
    HighWord(e, f, g, h);
    OrFour(Widen(Little32([a, b, c, d])), Left(e as bv64, 32), Left(f as bv64, 40), Left(g as bv64, 48),
           Left(h as bv64, 56));
    JoinIs(Little32([a, b, c, d]), Little32([e, f, g, h]));
  }

  function Widen(x: bv32): bv64 { x as bv64 }

  lemma WidenOr(x: bv32, y: bv32)
    ensures Widen(Or32(x, y)) == Or64(Widen(x), Widen(y))
  {
  }

  lemma WidenByte(b: bv8)
    ensures Widen(b as bv32) == b as bv64
  {
  }

  lemma WidenShift8(b: bv8)
    ensures Widen(ShiftLeft32(b as bv32, 8)) == Left(b as bv64, 8)
  {
    assert ((b as bv32) << 8) as bv64 == (b as bv64) << 8;
  }

  lemma WidenShift16(b: bv8)
    ensures Widen(ShiftLeft32(b as bv32, 16)) == Left(b as bv64, 16)
  {
    assert ((b as bv32) << 16) as bv64 == (b as bv64) << 16;
  }

  lemma WidenShift24(b: bv8)
    ensures Widen(ShiftLeft32(b as bv32, 24)) == Left(b as bv64, 24)
  {
    assert ((b as bv32) << 24) as bv64 == (b as bv64) << 24;
  }

  lemma LeftOr(x: bv64, y: bv64)
    ensures Left(Or64(x, y), 32) == Or64(Left(x, 32), Left(y, 32))
  {
    assert (x | y) << 32 == (x << 32) | (y << 32);
  }

  lemma LeftLeft8(x: bv64)
    ensures Left(Left(x, 8), 32) == Left(x, 40)
  {
    assert (x << 8) << 32 == x << 40;
  }

  lemma LeftLeft16(x: bv64)
    ensures Left(Left(x, 16), 32) == Left(x, 48)
  {
    assert (x << 16) << 32 == x << 48;
  }

  lemma LeftLeft24(x: bv64)
    ensures Left(Left(x, 24), 32) == Left(x, 56)
  {
    assert (x << 24) << 32 == x << 56;
  }

  lemma ShiftIs(x: bv32)
    ensures ShiftLeft32(x, 8) == x << 8 && ShiftLeft32(x, 16) == x << 16 && ShiftLeft32(x, 24) == x << 24
  {
  }

  lemma WordIsOr(a: bv8, b: bv8, c: bv8, d: bv8)
    ensures Word32(a, b, c, d)
         == Or32(Or32(Or32(a as bv32, ShiftLeft32(b as bv32, 8)), ShiftLeft32(c as bv32, 16)),
                 ShiftLeft32(d as bv32, 24))
  {
    hide ShiftLeft32;
    ShiftIs(b as bv32);
    ShiftIs(c as bv32);
    ShiftIs(d as bv32);
  }

  lemma LowWord(a: bv8, b: bv8, c: bv8, d: bv8)
    ensures Or64(Or64(Or64(a as bv64, Left(b as bv64, 8)), Left(c as bv64, 16)), Left(d as bv64, 24))
         == Widen(Little32([a, b, c, d]))
  {
    hide Word32, Or32, ShiftLeft32, Or64, Left, Widen;
    WordIsOr(a, b, c, d);
    WidenByte(a);
    WidenShift8(b);
    WidenShift16(c);
    WidenShift24(d);
    var ab := Or32(a as bv32, ShiftLeft32(b as bv32, 8));
    var abc := Or32(ab, ShiftLeft32(c as bv32, 16));
    WidenOr(a as bv32, ShiftLeft32(b as bv32, 8));
    WidenOr(ab, ShiftLeft32(c as bv32, 16));
    WidenOr(abc, ShiftLeft32(d as bv32, 24));
  }

  lemma HighWord(a: bv8, b: bv8, c: bv8, d: bv8)
    ensures Or64(Or64(Or64(Left(a as bv64, 32), Left(b as bv64, 40)), Left(c as bv64, 48)), Left(d as bv64, 56))
         == Left(Widen(Little32([a, b, c, d])), 32)
  {
    hide Little32, Or64, Left, Widen;
    LowWord(a, b, c, d);
    var ab := Or64(a as bv64, Left(b as bv64, 8));
    var abc := Or64(ab, Left(c as bv64, 16));
    LeftOr(a as bv64, Left(b as bv64, 8));
    LeftOr(ab, Left(c as bv64, 16));
    LeftOr(abc, Left(d as bv64, 24));
    LeftLeft8(b as bv64);
    LeftLeft16(c as bv64);
    LeftLeft24(d as bv64);
  }

  lemma OrFour(x: bv64, a: bv64, b: bv64, c: bv64, d: bv64)
    ensures Or64(Or64(Or64(Or64(x, a), b), c), d) == Or64(x, Or64(Or64(Or64(a, b), c), d))
  {
    assert (((x | a) | b) | c) | d == x | (((a | b) | c) | d);
  }

  lemma JoinIs(lo: bv32, hi: bv32)
    ensures Join(lo, hi) == Or64(Widen(lo), Left(Widen(hi), 32))
  {
    hide Or64, Left, Widen, Join;
    RawJoin(lo, hi);
    WidenIs(lo);
    WidenIs(hi);
  }

  lemma RawJoin(lo: bv32, hi: bv32)
    ensures Join(lo, hi) == Or64(lo as bv64, Left(hi as bv64, 32))
  {
    assert Left(hi as bv64, 32) == (hi as bv64) << 32;
  }

  lemma WidenIs(x: bv32)
    ensures Widen(x) == x as bv64
  {
  }

  /** Word k of a padded packet. */
  lemma PaddedWord(bytes: seq<bv8>, k: nat)
    requires 0 < |bytes| < 32 && k < 8
    ensures var w := Little32(PaddedPacket(bytes)[4 * k..4 * k + 4]);
      && (k < |bytes| / 4 && k < 7 ==> w == Little32(bytes[4 * k..4 * k + 4]))
      && (|bytes| >= 16 && k == 7 ==> w == Little32(bytes[|bytes| - 4..]))
      && (|bytes| >= 16 && |bytes| / 4 <= k < 7 ==> w == 0)
      && (|bytes| < 16 && |bytes| / 4 <= k && k != 4 ==> w == 0)
      && (|bytes| < 16 && k == 4 ==> w == UnorderedWord(bytes))
  {
    hide Little32;
    var p := PaddedPacket(bytes);
    var q := p[4 * k..4 * k + 4];
    ZeroWord();
    if k < |bytes| / 4 && k < 7 {
      assert q == bytes[4 * k..4 * k + 4];
    } else if |bytes| >= 16 && k == 7 {
      assert q == bytes[|bytes| - 4..];
    } else if |bytes| < 16 && k == 4 {
      var m := |bytes| % 4;
      if m == 0 { assert q == [0, 0, 0, 0]; } else {
        assert q == [bytes[|bytes| - m], bytes[|bytes| - m + m / 2], bytes[|bytes| - 1], 0];
      }
    } else {
      assert q == [0, 0, 0, 0];
    }
  }

  lemma ZeroWord()
    ensures Little32([0, 0, 0, 0]) == 0
  {
  }

  /** Up to three tail bytes as `Load3` orders them. */
  function UnorderedWord(bytes: seq<bv8>): bv32
  {
    var m := |bytes| % 4;
    if m == 0 then 0
    else Little32([bytes[|bytes| - m], bytes[|bytes| - m + m / 2], bytes[|bytes| - 1], 0])
  }

  lemma UnorderedIs(bytes: seq<bv8>, size: nat)
    requires 0 < size < 16 && size <= |bytes|
    ensures Load3Unordered(bytes, size - size % 4, size % 4) == Join(UnorderedWord(bytes[..size]), 0)
  {
    hide Join, ThreeBytes, Little32;
    JoinFacts(0, 0);
    var m, r := size % 4, size - size % 4;
    if m > 0 { ThreeWord(bytes[r], bytes[r + m / 2], bytes[r + m - 1]); }
  }

  lemma ThreeWord(a: bv8, b: bv8, c: bv8)
    ensures ThreeBytes(a, b, c) == Join(Little32([a, b, c, 0]), 0)
  {
  }

  /** The lanes of a packet from its words. */
  lemma LanesFromWords(p: seq<bv8>)
    requires |p| == 32
    ensures LanesOf(p) == Lanes(Join(Little32(p[0..4]), Little32(p[4..8])),
                                Join(Little32(p[8..12]), Little32(p[12..16])),
                                Join(Little32(p[16..20]), Little32(p[20..24])),
                                Join(Little32(p[24..28]), Little32(p[28..32])))
  {
    hide Join, Little32, Little64;
    Little64Is(p[..8]);
    Little64Is(p[8..16]);
    Little64Is(p[16..24]);
    Little64Is(p[24..]);
    assert p[..8][..4] == p[0..4] && p[..8][4..] == p[4..8];
    assert p[8..16][..4] == p[8..12] && p[8..16][4..] == p[12..16];
    assert p[16..24][..4] == p[16..20] && p[16..24][4..] == p[20..24];
    assert p[24..][..4] == p[24..28] && p[24..][4..] == p[28..32];
  }

  /** `_mm_insert_epi32` into the top word of a lane. */
  function InsertTop(x: bv64, w: bv32): bv64 { (x & 0xFFFF_FFFF) | ((w as bv64) << 32) }

  lemma InsertTopIs(a: bv32, b: bv32, w: bv32)
    ensures InsertTop(Join(a, b), w) == Join(a, w)
  {
  }

  /** The words of the packet of 16 or more bytes, as the loads see them. */
  lemma LongWords(bytes: seq<bv8>, size: nat)
    requires 16 <= size < 32 && size <= |bytes|
    ensures var p := PaddedPacket(bytes[..size]);
      && Little32(p[0..4]) == Little32(bytes[..size][0..4]) && Little32(p[4..8]) == Little32(bytes[..size][4..8])
      && Little32(p[8..12]) == Little32(bytes[..size][8..12]) && Little32(p[12..16]) == Little32(bytes[..size][12..16])
      && Little32(p[16..20]) == WordAt(bytes[16..], 0, size) && Little32(p[20..24]) == WordAt(bytes[16..], 1, size)
      && Little32(p[24..28]) == WordAt(bytes[16..], 2, size)
      && Little32(p[28..32]) == Load3ReadBefore(bytes, size - size % 4, size % 4)
  {
    hide Little32, PaddedPacket;
    var b := bytes[..size];
    PaddedWord(b, 0);
    PaddedWord(b, 1);
    PaddedWord(b, 2);
    PaddedWord(b, 3);
    UpperWord(bytes, size, 0);
    UpperWord(bytes, size, 1);
    UpperWord(bytes, size, 2);
    PaddedWord(b, 7);
    assert bytes[size - 4..size] == b[|b| - 4..];
  }

  lemma UpperWord(bytes: seq<bv8>, size: nat, k: nat)
    requires 16 <= size < 32 && size <= |bytes| && k < 3
    ensures Little32(PaddedPacket(bytes[..size])[4 * (4 + k)..4 * (4 + k) + 4]) == WordAt(bytes[16..], k, size)
  {
    hide Little32, PaddedPacket;
    var b := bytes[..size];
    PaddedWord(b, 4 + k);
    if k < size % 16 / 4 {
      assert b[4 * (4 + k)..4 * (4 + k) + 4] == bytes[16..][4 * k..4 * k + 4];
    }
  }

  /** The words of the packet of fewer than 16 bytes. */
  lemma ShortWords(bytes: seq<bv8>, size: nat)
    requires 0 < size < 16 && size <= |bytes|
    ensures var p := PaddedPacket(bytes[..size]);
      && Little32(p[0..4]) == WordAt(bytes, 0, size) && Little32(p[4..8]) == WordAt(bytes, 1, size)
      && Little32(p[8..12]) == WordAt(bytes, 2, size) && Little32(p[12..16]) == 0
      && Little32(p[16..20]) == UnorderedWord(bytes[..size]) && Little32(p[20..24]) == 0
      && Little32(p[24..28]) == 0 && Little32(p[28..32]) == 0
  {
    hide Little32, PaddedPacket, UnorderedWord;
    var b := bytes[..size];
    LowerWord(bytes, size, 0);
    LowerWord(bytes, size, 1);
    LowerWord(bytes, size, 2);
    PaddedWord(b, 3);
    PaddedWord(b, 4);
    PaddedWord(b, 5);
    PaddedWord(b, 6);
    PaddedWord(b, 7);
  }

  lemma LowerWord(bytes: seq<bv8>, size: nat, k: nat)
    requires 0 < size < 16 && size <= |bytes| && k < 3
    ensures Little32(PaddedPacket(bytes[..size])[4 * k..4 * k + 4]) == WordAt(bytes, k, size)
  {
    hide Little32, PaddedPacket;
    PaddedWord(bytes[..size], k);
    if k < size % 16 / 4 {
      assert bytes[..size][4 * k..4 * k + 4] == bytes[4 * k..4 * k + 4];
    }
  }

  /** The four-byte parts of eight bytes, inside a longer slice. */
  lemma SliceOfSlice(s: seq<bv8>, a: nat, b: nat, lo: nat, hi: nat)
    requires lo <= a && a + 8 == b <= hi <= |s|
    ensures s[a..b][..4] == s[lo..hi][a - lo..a - lo + 4] && s[a..b][4..] == s[lo..hi][a - lo + 4..b - lo]
  {
    var l, r := s[a..b], s[lo..hi];
    forall k | 0 <= k < 8 ensures l[k] == r[a - lo + k] {
    }
  }

  /** The two vectors that `UpdateRemainder` loads. */
  method RemainderVectors(bytes: seq<bv8>, size: nat) returns (packetL: V2x64, packetH: V2x64)
    requires 0 < size < 32 && size <= |bytes|
    ensures Lanes(packetL.lo, packetL.hi, packetH.lo, packetH.hi) == LanesOf(PaddedPacket(bytes[..size]))
  {
    hide Join, Little32, Little64, PaddedPacket, InsertTop, Load3Unordered, UnorderedWord;
    var sizeMod4 := size % 4;
    var remainder := size - sizeMod4;
    ghost var b := bytes[..size];
    LanesFromWords(PaddedPacket(b));
    if size >= 16 {
      packetL := V(Little64(bytes[..8]), Little64(bytes[8..16]));
      Little64Is(bytes[..8]);
      Little64Is(bytes[8..16]);
      SliceOfSlice(bytes, 0, 8, 0, size);
      SliceOfSlice(bytes, 8, 16, 0, size);
      packetH := LoadMultipleOfFour(bytes[16..], size);
      LongWords(bytes, size);
      var last4 := Load3ReadBefore(bytes, remainder, sizeMod4);
      InsertTopIs(WordAt(bytes[16..], 2, size), 0, last4);
      packetH := V(packetH.lo, InsertTop(packetH.hi, last4));
    } else {
      packetL := LoadMultipleOfFour(bytes, size);
      ShortWords(bytes, size);
      var last4 := Load3Unordered(bytes, remainder, sizeMod4);
      UnorderedIs(bytes, size);
      JoinFacts(0, 0);
      packetH := V(last4, 0);
    }
  }

  function TopBits2(x: bv64): bv64 { x >> 62 }
  function TopBits1(x: bv64): bv64 { x >> 63 }
  function Shifted1(x: bv64, signBit: bv64): bv64 { !signBit & (x + x) }
  function Shifted2(x: bv64): bv64 { (x + x) + (x + x) }
  function Xor5(a: bv64, b: bv64, c: bv64, d: bv64, e: bv64): bv64 {
    Xor64(Xor64(Xor64(Xor64(a, b), c), d), e)
  }

  /** `XorByShift128Left12`: x << 1 and x << 2, the top two bits of x cleared, are
      added to `out`. Shifts work on each 64-bit lane separately, so the bits that
      leave the lower lane are inserted into the upper one. */
  function XorByShift128Left12(x: V2x64, out: V2x64): V2x64 {
    V(Xor5(out.lo, Shifted2(x.lo), 0, Shifted1(x.lo, 0), 0),
      Xor5(out.hi, Shifted2(x.hi), TopBits2(x.lo), Shifted1(x.hi, 0x8000_0000_0000_0000), TopBits1(x.lo)))
  }

  lemma Xor5Is(a: bv64, b: bv64, c: bv64, d: bv64, e: bv64)
    ensures Xor5(a, b, c, d, e) == Xor3(a, Xor64(d, e), Xor64(b, c))
  {
    hide Xor64;
    XorAssoc(a, b, c);
    XorAssoc(Xor64(a, Xor64(b, c)), d, e);
    XorAssoc(a, Xor64(b, c), Xor64(d, e));
    XorAssoc(a, Xor64(d, e), Xor64(b, c));
    XorSwap(Xor64(b, c), Xor64(d, e));
  }

  lemma XorAssoc(a: bv64, b: bv64, c: bv64)
    ensures Xor64(Xor64(a, b), c) == Xor64(a, Xor64(b, c))
  {
    assert (a ^ b) ^ c == a ^ (b ^ c);
  }

  lemma LowShifts(x: bv64)
    ensures Xor64(Shifted1(x, 0), 0) == Low1(x) && Xor64(Shifted2(x), 0) == Low2(x)
  {
  }

  lemma HighShift1(x: bv64, y: bv64)
    ensures Xor64(Shifted1(x, 0x8000_0000_0000_0000), TopBits1(y)) == High1(x, y)
  {
  }

  lemma HighShift2(x: bv64, y: bv64)
    ensures Xor64(Shifted2(x), TopBits2(y)) == High2(x, y)
  {
  }

  /** Lane-wise shifting computes the same reduction as 128-bit shifting. */
  lemma ReductionIs(a32: V2x64, a10: V2x64)
    ensures (XorByShift128Left12(a32, a10).hi, XorByShift128Left12(a32, a10).lo)
         == Reduce(a32.hi, a32.lo, a10.hi, a10.lo)
  {
    hide Xor3, Xor5, Xor64, Shifted1, Shifted2, TopBits1, TopBits2, High1, High2, Low1, Low2;
    Xor5Is(a10.lo, Shifted2(a32.lo), 0, Shifted1(a32.lo, 0), 0);
    LowShifts(a32.lo);
    Xor5Is(a10.hi, Shifted2(a32.hi), TopBits2(a32.lo), Shifted1(a32.hi, 0x8000_0000_0000_0000), TopBits1(a32.lo));
    HighShift1(a32.hi, a32.lo);
    HighShift2(a32.hi, a32.lo);
  }

  class HHStateSSE41 {
    var v0L: V2x64
    var v0H: V2x64
    var v1L: V2x64
    var v1H: V2x64
    var mul0L: V2x64
    var mul0H: V2x64
    var mul1L: V2x64
    var mul1H: V2x64

    /** The four lanes that the pairs of vectors hold. */
    function View(): HHState
      reads this
    {
      HHState(Both(v0L, v0H), Both(v1L, v1H), Both(mul0L, mul0H), Both(mul1L, mul1H))
    }

    constructor (key: Lanes)
      ensures View() == Start(key)
    {
      new;
      Reset(key);
    }

    constructor From(s: HHStateSSE41)
      ensures View() == s.View()
    {
      v0L, v0H, v1L, v1H := s.v0L, s.v0H, s.v1L, s.v1H;
      mul0L, mul0H, mul1L, mul1H := s.mul0L, s.mul0H, s.mul1L, s.mul1H;
    }

    method Reset(key: Lanes)
      modifies this
      ensures View() == Start(key)
    {
      hide Xor64, Join, Rotate64By32, LowHalf, HighHalf;
      RotateIs(key.a);
      RotateIs(key.b);
      RotateIs(key.c);
      RotateIs(key.d);
      XorSwap(INIT0.a, key.a);
      var init0L, init0H := V(INIT0.a, INIT0.b), V(INIT0.c, INIT0.d);
      var init1L, init1H := V(INIT1.a, INIT1.b), V(INIT1.c, INIT1.d);
      var keyL, keyH := V(key.a, key.b), V(key.c, key.d);
      XorVSwap(keyL, init0L);
      XorVSwap(keyH, init0H);
      XorVSwap(Rotate64By32V(keyL), init1L);
      XorVSwap(Rotate64By32V(keyH), init1H);
      v0L := XorV(keyL, init0L);
      v0H := XorV(keyH, init0H);
      v1L := XorV(Rotate64By32V(keyL), init1L);
      v1H := XorV(Rotate64By32V(keyH), init1H);
      mul0L := init0L;
      mul0H := init0H;
      mul1L := init1L;
      mul1H := init1H;
    }

    method UpdateVectors(packetH: V2x64, packetL: V2x64)
      modifies this
      ensures View() == Mix(old(View()), Both(packetL, packetH))
    {
      hide Plus64, Xor64, Times64, Low32, High32, ZipLow, ZipHigh, ZipperMerge, MulEpu32, Rotate64By32V, ShiftRight32V;
      v1L := AddV(v1L, packetL);
      v1H := AddV(v1H, packetH);
      v1L := AddV(v1L, mul0L);
      v1H := AddV(v1H, mul0H);
      MulRotated(v1L, v0L);
      MulShifted(v1H, v0H);
      mul0L := XorV(mul0L, MulEpu32(v1L, Rotate64By32V(v0L)));
      mul0H := XorV(mul0H, MulEpu32(v1H, ShiftRight32V(v0H)));
      v0L := AddV(v0L, mul1L);
      v0H := AddV(v0H, mul1H);
      MulRotated(v0L, v1L);
      MulShifted(v0H, v1H);
      mul1L := XorV(mul1L, MulEpu32(v0L, Rotate64By32V(v1L)));
      mul1H := XorV(mul1H, MulEpu32(v0H, ShiftRight32V(v1H)));
      ShuffleIsZip(v1L);
      ShuffleIsZip(v1H);
      v0L := AddV(v0L, ZipperMerge(v1L));
      v0H := AddV(v0H, ZipperMerge(v1H));
      ShuffleIsZip(v0L);
      ShuffleIsZip(v0H);
      v1L := AddV(v1L, ZipperMerge(v0L));
      v1H := AddV(v1H, ZipperMerge(v0H));
    }

    method Update(packet: seq<bv8>)
      requires |packet| == 32
      modifies this
      ensures View() == Mix(old(View()), LanesOf(packet))
    {
      hide Mix, Little64;
      var packetL := V(Little64(packet[..8]), Little64(packet[8..16]));
      var packetH := V(Little64(packet[16..24]), Little64(packet[24..]));
      UpdateVectors(packetH, packetL);
    }

    method UpdateRemainder(bytes: seq<bv8>, sizeMod32: nat)
      requires 0 < sizeMod32 < 32 && sizeMod32 <= |bytes|
      modifies this
      ensures View() == AbsorbRemainder(old(View()), bytes[..sizeMod32])
    {
      hide Mix, Plus64, PaddedPacket, LanesOf, RotateHalves, SizePair, Rotate32ByV, Join, Or64;
      var vsizeMod32 := V(SizePair(sizeMod32), SizePair(sizeMod32));
      v0L := AddV(v0L, vsizeMod32);
      v0H := AddV(v0H, vsizeMod32);
      RotateHalvesIs(v1L, sizeMod32);
      RotateHalvesIs(v1H, sizeMod32);
      v1L := Rotate32ByV(v1L, sizeMod32);
      v1H := Rotate32ByV(v1H, sizeMod32);
      var packetL, packetH := RemainderVectors(bytes, sizeMod32);
      UpdateVectors(packetH, packetL);
    }

    method PermuteAndUpdate()
      modifies this
      ensures View() == PermuteAndMix(old(View()))
    {
      hide Mix, Rotate64By32, Join, LowHalf, HighHalf;
      RotateIs(v0L.lo);
      RotateIs(v0L.hi);
      RotateIs(v0H.lo);
      RotateIs(v0H.hi);
      UpdateVectors(Rotate64By32V(v0L), Rotate64By32V(v0H));
    }

    method PermuteTimes(n: nat)
      modifies this
      ensures View() == Permuted(old(View()), n)
    {
      hide PermuteAndMix;
      for k := 0 to n
        invariant View() == Permuted(old(View()), k)
      {
        PermuteAndUpdate();
      }
    }

    method Finalize64() returns (result: bv64)
      modifies this
      ensures result == Final64(old(View()))
    {
      hide Sum4, Permuted;
      PermuteTimes(4);
      result := Sum4(v0L.lo, mul0L.lo, v1L.lo, mul1L.lo);
    }

    method Finalize128() returns (result: (bv64, bv64))
      modifies this
      ensures result == Final128(old(View()))
    {
      hide Sum4, Permuted;
      PermuteTimes(6);
      result := (Sum4(v0L.lo, mul0L.lo, v1H.lo, mul1H.lo), Sum4(v0L.hi, mul0L.hi, v1H.hi, mul1H.hi));
    }

    method Finalize256() returns (result: (bv64, bv64, bv64, bv64))
      modifies this
      ensures result == Final256(old(View()))
    {
      hide Plus64, Permuted, Reduce, XorByShift128Left12;
      PermuteTimes(10);
      var sum0L, sum1L := AddV(v0L, mul0L), AddV(v1L, mul1L);
      var sum0H, sum1H := AddV(v0H, mul0H), AddV(v1H, mul1H);
      ReductionIs(sum1L, sum0L);
      ReductionIs(sum1H, sum0H);
      var hashL := XorByShift128Left12(sum1L, sum0L);
      var hashH := XorByShift128Left12(sum1H, sum0H);
      result := (hashL.lo, hashL.hi, hashH.lo, hashH.hi);
    }
  }

  function Both(l: V2x64, h: V2x64): Lanes { Lanes(l.lo, l.hi, h.lo, h.hi) }

  lemma XorSwap(a: bv64, b: bv64)
    ensures Xor64(a, b) == Xor64(b, a)
  {
  }

  lemma XorVSwap(a: V2x64, b: V2x64)
    ensures XorV(a, b) == XorV(b, a)
  {
    XorSwap(a.lo, b.lo);
    XorSwap(a.hi, b.hi);
    hide Xor64;
  }

  lemma MulRotated(x: V2x64, y: V2x64)
    ensures MulEpu32(x, Rotate64By32V(y))
         == V(Times64(Low32(x.lo), High32(y.lo)), Times64(Low32(x.hi), High32(y.hi)))
  {
    hide Times64, Low32, High32, Join, LowHalf, HighHalf, Rotate64By32;
    RotateIs(y.lo);
    RotateIs(y.hi);
    RotateLow(y.lo);
    RotateLow(y.hi);
  }

  lemma MulShifted(x: V2x64, y: V2x64)
    ensures MulEpu32(x, ShiftRight32V(y))
         == V(Times64(Low32(x.lo), High32(y.lo)), Times64(Low32(x.hi), High32(y.hi)))
  {
    hide Times64, Low32, High32;
    ShiftLow(y.lo);
    ShiftLow(y.hi);
  }
}
