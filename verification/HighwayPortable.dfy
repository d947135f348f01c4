/** The portable implementation: lane arrays updated in loops. */
module HighwayPortable {
  import opened HighwayLanes

  // `MASK(v, k)`: all bits cleared except byte k.
  function Mask0(v: bv64): bv64 { v & 0xFF }
  function Mask1(v: bv64): bv64 { v & 0xFF00 }
  function Mask2(v: bv64): bv64 { v & 0xFF_0000 }
  function Mask3(v: bv64): bv64 { v & 0xFF00_0000 }
  function Mask4(v: bv64): bv64 { v & 0xFF_0000_0000 }
  function Mask5(v: bv64): bv64 { v & 0xFF00_0000_0000 }
  function Mask6(v: bv64): bv64 { v & 0xFF_0000_0000_0000 }
  function Mask7(v: bv64): bv64 { v & 0xFF00_0000_0000_0000 }

  function Sum6(a: bv64, b: bv64, c: bv64, d: bv64, e: bv64, f: bv64): bv64 {
    Plus64(Plus64(Plus64(Plus64(Plus64(a, b), c), d), e), f)
  }

  function Sum7(a: bv64, b: bv64, c: bv64, d: bv64, e: bv64, f: bv64, g: bv64): bv64 {
    Plus64(Plus64(Plus64(Plus64(Plus64(Plus64(a, b), c), d), e), f), g)
  }

  // The shifts of `ZipperMergeAndAdd`.
  function Down34(x: bv64, y: bv64): bv64 { (Mask3(x) + Mask4(y)) >> 24 }
  function Down56(x: bv64, y: bv64): bv64 { (Mask5(x) + Mask6(y)) >> 16 }
  function Right(x: bv64, k: nat): bv64
    requires k <= 64
  {
    x >> k
  }

  /** What `ZipperMergeAndAdd` adds to the lower lane. */
  function MaskLow(v1: bv64, v0: bv64): bv64 {
    Sum6(Down34(v0, v1), Down56(v0, v1), Mask2(v0), Left(Mask1(v0), 32), Right(Mask7(v1), 8), Left(v0, 56))
  }

  /** What `ZipperMergeAndAdd` adds to the upper lane. */
  function MaskHigh(v1: bv64, v0: bv64): bv64 {
    Sum7(Down34(v1, v0), Mask2(v1), Right(Mask5(v1), 16), Left(Mask1(v1), 24), Right(Mask6(v0), 8),
         Left(Mask0(v1), 48), Mask7(v0))
  }

  // A byte at its place in a lane.
  function Put01(a: bv64, b: bv64): bv64 { Or64(a, Left(b, 8)) }
  function Put34(a: bv64, b: bv64): bv64 { Or64(Left(a, 24), Left(b, 32)) }

  predicate IsByte(b: bv64) { b <= 0xFF }

  /** Every addend is a byte, or two, at their new place. */
  lemma LowParts(v1: bv64, v0: bv64)
    ensures Down34(v0, v1) == Put01(Byte(v0, 3), Byte(v1, 4))
    ensures Down56(v0, v1) == Put34(Byte(v0, 5), Byte(v1, 6))
    ensures Mask2(v0) == Left(Byte(v0, 2), 16) && Left(Mask1(v0), 32) == Left(Byte(v0, 1), 40)
    ensures Right(Mask7(v1), 8) == Left(Byte(v1, 7), 48) && Left(v0, 56) == Left(Byte(v0, 0), 56)
  {
  }

  lemma HighParts(v1: bv64, v0: bv64)
    ensures Mask2(v1) == Left(Byte(v1, 2), 16) && Right(Mask5(v1), 16) == Left(Byte(v1, 5), 24)
    ensures Left(Mask1(v1), 24) == Left(Byte(v1, 1), 32) && Right(Mask6(v0), 8) == Left(Byte(v0, 6), 40)
    ensures Left(Mask0(v1), 48) == Left(Byte(v1, 0), 48) && Mask7(v0) == Left(Byte(v0, 7), 56)
  {
  }

  lemma BytesAreBytes(x: bv64)
    ensures IsByte(Byte(x, 0)) && IsByte(Byte(x, 1)) && IsByte(Byte(x, 2)) && IsByte(Byte(x, 3))
    ensures IsByte(Byte(x, 4)) && IsByte(Byte(x, 5)) && IsByte(Byte(x, 6)) && IsByte(Byte(x, 7))
  {
  }

  function And2(x: bv64, y: bv64): bv64 { x & y }

  /** x has ones only where m has. */
  predicate Inside(x: bv64, m: bv64) { And2(x, m) == x }

  /** Numbers in disjoint places: adding them is joining them. */
  lemma JoinPlaces(x: bv64, m: bv64, y: bv64, n: bv64)
    requires Inside(x, m) && Inside(y, n) && And2(m, n) == 0
    ensures Plus64(x, y) == Or64(x, y) && Inside(Or64(x, y), Or64(m, n))
  {
    hide And2, Or64, Plus64;
    MeetOfMeets(x, m, y, n);
    MeetZero(And2(x, y));
    NoCarry(x, y);
    JoinInJoin(x, m, y, n);
  }

  lemma MeetOfMeets(x: bv64, m: bv64, y: bv64, n: bv64)
    ensures And2(And2(x, m), And2(y, n)) == And2(And2(x, y), And2(m, n))
  {
    assert (x & m) & (y & n) == (x & y) & (m & n);
  }

  lemma MeetZero(x: bv64)
    ensures And2(x, 0) == 0
  {
  }

  lemma JoinInJoin(x: bv64, m: bv64, y: bv64, n: bv64)
    ensures And2(Or64(And2(x, m), And2(y, n)), Or64(m, n)) == Or64(And2(x, m), And2(y, n))
  {
    assert ((x & m) | (y & n)) & (m | n) == (x & m) | (y & n);
  }

  lemma NoCarry(x: bv64, y: bv64)
    requires And2(x, y) == 0
    ensures Plus64(x, y) == Or64(x, y)
  {
    RawNoCarry(x, y);
  }

  lemma RawNoCarry(x: bv64, y: bv64)
    requires x & y == 0
    ensures x + y == x | y
  {
  }

  lemma Places(b: bv64)
    requires IsByte(b)
    ensures Inside(Left(b, 8), 0xFF00)
    ensures Inside(Left(b, 16), 0xFF0000)
    ensures Inside(Left(b, 24), 0xFF000000)
    ensures Inside(Left(b, 32), 0xFF00000000)
    ensures Inside(Left(b, 40), 0xFF0000000000)
    ensures Inside(Left(b, 48), 0xFF000000000000)
    ensures Inside(Left(b, 56), 0xFF00000000000000)
  {
    hide Inside, Left, IsByte;
    Place8(b);
    Place16(b);
    Place24(b);
    Place32(b);
    Place40(b);
    Place48(b);
    Place56(b);
  }

  lemma Place16(b: bv64)
    requires IsByte(b)
    ensures Inside(Left(b, 16), 0xFF0000)
  {
    assert (b << 16) & 0xFF0000 == b << 16;
  }

  lemma Place24(b: bv64)
    requires IsByte(b)
    ensures Inside(Left(b, 24), 0xFF000000)
  {
    assert (b << 24) & 0xFF000000 == b << 24;
  }

  lemma Place32(b: bv64)
    requires IsByte(b)
    ensures Inside(Left(b, 32), 0xFF00000000)
  {
    assert (b << 32) & 0xFF00000000 == b << 32;
  }

  lemma Place40(b: bv64)
    requires IsByte(b)
    ensures Inside(Left(b, 40), 0xFF0000000000)
  {
    assert (b << 40) & 0xFF0000000000 == b << 40;
  }

  lemma Place48(b: bv64)
    requires IsByte(b)
    ensures Inside(Left(b, 48), 0xFF000000000000)
  {
    assert (b << 48) & 0xFF000000000000 == b << 48;
  }

  lemma Place56(b: bv64)
    requires IsByte(b)
    ensures Inside(Left(b, 56), 0xFF00000000000000)
  {
    assert (b << 56) & 0xFF00000000000000 == b << 56;
  }

  lemma Pairs(a: bv64, b: bv64)
    requires IsByte(a) && IsByte(b)
    ensures Inside(Put01(a, b), 0xFFFF) && Inside(Put34(a, b), 0xFF_FF00_0000)
  {
    PairMasks();
    Place0(a);
    hide Left, Or64, And2, Inside, IsByte;
    Places(a);
    Places(b);
    JoinPlaces(a, 0xFF, Left(b, 8), 0xFF00);
    JoinPlaces(Left(a, 24), 0xFF00_0000, Left(b, 32), 0xFF_0000_0000);
  }

  lemma PairMasks()
    ensures And2(0xFF, 0xFF00) == 0 && Or64(0xFF, 0xFF00) == 0xFFFF
    ensures And2(0xFF00_0000, 0xFF_0000_0000) == 0 && Or64(0xFF00_0000, 0xFF_0000_0000) == 0xFF_FF00_0000
  {
  }

  lemma Place0(b: bv64)
    requires IsByte(b)
    ensures Inside(b, 0xFF)
  {
  }

  lemma Place8(b: bv64)
    requires IsByte(b)
    ensures Inside(Left(b, 8), 0xFF00)
  {
    assert (b << 8) & 0xFF00 == b << 8;
  }

  // Sums of disjoint bytes are their packing, one addend after the other.

  lemma MoveIn(x: bv64, a: bv64, b: bv64, c: bv64)
    ensures Or64(Or64(x, Or64(b, c)), a) == Or64(Or64(Or64(x, a), b), c)
  {
    assert (x | (b | c)) | a == ((x | a) | b) | c;
  }

  lemma MasksSumOfSix()
    ensures And2(0xFFFF, 0xFFFF000000) == 0 && Or64(0xFFFF, 0xFFFF000000) == 0xFFFF00FFFF
    ensures And2(0xFFFF00FFFF, 0xFF0000) == 0 && Or64(0xFFFF00FFFF, 0xFF0000) == 0xFFFFFFFFFF
    ensures And2(0xFFFFFFFFFF, 0xFF0000000000) == 0 && Or64(0xFFFFFFFFFF, 0xFF0000000000) == 0xFFFFFFFFFFFF
    ensures And2(0xFFFFFFFFFFFF, 0xFF000000000000) == 0 && Or64(0xFFFFFFFFFFFF, 0xFF000000000000) == 0xFFFFFFFFFFFFFF
    ensures And2(0xFFFFFFFFFFFFFF, 0xFF00000000000000) == 0
    ensures Or64(0xFFFFFFFFFFFFFF, 0xFF00000000000000) == 0xFFFFFFFFFFFFFFFF
  {
  }

  lemma SumOfSix(b0: bv64, b1: bv64, b2: bv64, b3: bv64, b4: bv64, b5: bv64, b6: bv64, b7: bv64)
    requires IsByte(b0) && IsByte(b1) && IsByte(b2) && IsByte(b3)
    requires IsByte(b4) && IsByte(b5) && IsByte(b6) && IsByte(b7)
    ensures Sum6(Put01(b0, b1), Put34(b3, b4), Left(b2, 16), Left(b5, 40), Left(b6, 48), Left(b7, 56))
         == Pack(b0, b1, b2, b3, b4, b5, b6, b7)
  {
    hide Left, Plus64, Or64, And2, Inside, IsByte;
    Pairs(b0, b1);
    Pairs(b3, b4);
    Places(b2);
    Places(b3);
    Places(b4);
    Places(b5);
    Places(b6);
    Places(b7);
    MasksSumOfSix();
    MoveIn(Put01(b0, b1), Left(b2, 16), Left(b3, 24), Left(b4, 32));
    var p0 := Put01(b0, b1);
    var p1 := Or64(p0, Put34(b3, b4));
    var p2 := Or64(p1, Left(b2, 16));
    var p3 := Or64(p2, Left(b5, 40));
    var p4 := Or64(p3, Left(b6, 48));
    var p5 := Or64(p4, Left(b7, 56));
    JoinPlaces(p0, 0xFFFF, Put34(b3, b4), 0xFFFF000000);
    JoinPlaces(p1, 0xFFFF00FFFF, Left(b2, 16), 0xFF0000);
    JoinPlaces(p2, 0xFFFFFFFFFF, Left(b5, 40), 0xFF0000000000);
    JoinPlaces(p3, 0xFFFFFFFFFFFF, Left(b6, 48), 0xFF000000000000);
    JoinPlaces(p4, 0xFFFFFFFFFFFFFF, Left(b7, 56), 0xFF00000000000000);
  }

  lemma MasksSumOfSeven()
    ensures And2(0xFFFF, 0xFF0000) == 0 && Or64(0xFFFF, 0xFF0000) == 0xFFFFFF
    ensures And2(0xFFFFFF, 0xFF000000) == 0 && Or64(0xFFFFFF, 0xFF000000) == 0xFFFFFFFF
    ensures And2(0xFFFFFFFF, 0xFF00000000) == 0 && Or64(0xFFFFFFFF, 0xFF00000000) == 0xFFFFFFFFFF
    ensures And2(0xFFFFFFFFFF, 0xFF0000000000) == 0 && Or64(0xFFFFFFFFFF, 0xFF0000000000) == 0xFFFFFFFFFFFF
    ensures And2(0xFFFFFFFFFFFF, 0xFF000000000000) == 0 && Or64(0xFFFFFFFFFFFF, 0xFF000000000000) == 0xFFFFFFFFFFFFFF
    ensures And2(0xFFFFFFFFFFFFFF, 0xFF00000000000000) == 0
    ensures Or64(0xFFFFFFFFFFFFFF, 0xFF00000000000000) == 0xFFFFFFFFFFFFFFFF
  {
  }

  lemma SumOfSeven(b0: bv64, b1: bv64, b2: bv64, b3: bv64, b4: bv64, b5: bv64, b6: bv64, b7: bv64)
    requires IsByte(b0) && IsByte(b1) && IsByte(b2) && IsByte(b3)
    requires IsByte(b4) && IsByte(b5) && IsByte(b6) && IsByte(b7)
    ensures Sum7(Put01(b0, b1), Left(b2, 16), Left(b3, 24), Left(b4, 32), Left(b5, 40), Left(b6, 48), Left(b7, 56))
         == Pack(b0, b1, b2, b3, b4, b5, b6, b7)
  {
    hide Left, Plus64, Or64, And2, Inside, IsByte;
    Pairs(b0, b1);
    Pairs(b3, b4);
    Places(b2);
    Places(b3);
    Places(b4);
    Places(b5);
    Places(b6);
    Places(b7);
    MasksSumOfSeven();
    var p0 := Put01(b0, b1);
    var p1 := Or64(p0, Left(b2, 16));
    var p2 := Or64(p1, Left(b3, 24));
    var p3 := Or64(p2, Left(b4, 32));
    var p4 := Or64(p3, Left(b5, 40));
    var p5 := Or64(p4, Left(b6, 48));
    var p6 := Or64(p5, Left(b7, 56));
    JoinPlaces(p0, 0xFFFF, Left(b2, 16), 0xFF0000);
    JoinPlaces(p1, 0xFFFFFF, Left(b3, 24), 0xFF000000);
    JoinPlaces(p2, 0xFFFFFFFF, Left(b4, 32), 0xFF00000000);
    JoinPlaces(p3, 0xFFFFFFFFFF, Left(b5, 40), 0xFF0000000000);
    JoinPlaces(p4, 0xFFFFFFFFFFFF, Left(b6, 48), 0xFF000000000000);
    JoinPlaces(p5, 0xFFFFFFFFFFFFFF, Left(b7, 56), 0xFF00000000000000);
  }

  /** Shifting, masking and adding is the byte permutation. */
  lemma MaskIsZip(v1: bv64, v0: bv64)
    ensures MaskLow(v1, v0) == ZipLow(v1, v0)
    ensures MaskHigh(v1, v0) == ZipHigh(v1, v0)
  {
    hide Byte, Pack, Sum6, Sum7, Down34, Down56, Put01, Put34, Left, Right, IsByte;
    hide Mask0, Mask1, Mask2, Mask3, Mask4, Mask5, Mask6, Mask7;
    LowParts(v1, v0);
    LowParts(v0, v1);
    HighParts(v1, v0);
    BytesAreBytes(v0);
    BytesAreBytes(v1);
    SumOfSix(Byte(v0, 3), Byte(v1, 4), Byte(v0, 2), Byte(v0, 5), Byte(v1, 6), Byte(v0, 1), Byte(v1, 7), Byte(v0, 0));
    SumOfSeven(Byte(v1, 3), Byte(v0, 4), Byte(v1, 2), Byte(v1, 5), Byte(v1, 1), Byte(v0, 6), Byte(v1, 0), Byte(v0, 7));
  }

  /** `Load3` that may read before `from`: the last four bytes as a word. */
  function Load3ReadBefore(bytes: seq<bv8>, from: nat, sizeMod4: nat): bv32
    requires sizeMod4 < 4 && 4 <= from + sizeMod4 <= |bytes|
  {
    Little32(bytes[from + sizeMod4 - 4..from + sizeMod4])
  }

  function ThreeBytes(a: bv8, b: bv8, c: bv8): bv64 {
    (a as bv64) + ((b as bv64) << 8) + ((c as bv64) << 16)
  }

  /** `Load3` of up to three bytes in no particular order. */
  function Load3Unordered(bytes: seq<bv8>, from: nat, sizeMod4: nat): bv64
    requires sizeMod4 < 4 && from + sizeMod4 <= |bytes|
  {
    if sizeMod4 == 0 then 0
    else ThreeBytes(bytes[from], bytes[from + sizeMod4 / 2], bytes[from + sizeMod4 - 1])
  }

  function Byte8(x: bv64, k: nat): bv8
    requires k < 8
  {
    (Byte(x, k) & 0xFF) as bv8
  }

  function BytesOf32(x: bv32): seq<bv8> {
    [Byte8(x as bv64, 0), Byte8(x as bv64, 1), Byte8(x as bv64, 2), Byte8(x as bv64, 3)]
  }

  function BytesOf64(x: bv64): seq<bv8> {
    [Byte8(x, 0), Byte8(x, 1), Byte8(x, 2), Byte8(x, 3), Byte8(x, 4), Byte8(x, 5), Byte8(x, 6), Byte8(x, 7)]
  }

  /** Storing a loaded word gives the bytes back. */
  lemma StoreLoad32(s: seq<bv8>)
    requires |s| == 4
    ensures BytesOf32(Little32(s)) == s
  {
    StoreFour(s[0], s[1], s[2], s[3]);
    assert s == [s[0], s[1], s[2], s[3]];
  }

  lemma StoreByte0(a: bv8, b: bv8, c: bv8, d: bv8)
    ensures Byte8(Word32(a, b, c, d) as bv64, 0) == a
  {
    assert (((((a as bv32) | ((b as bv32) << 8) |
              ((c as bv32) << 16) | ((d as bv32) << 24)) as bv64) & 0xFF) & 0xFF) as bv8 == a;
  }

  lemma StoreByte1(a: bv8, b: bv8, c: bv8, d: bv8)
    ensures Byte8(Word32(a, b, c, d) as bv64, 1) == b
  {
    assert ((((((a as bv32) | ((b as bv32) << 8) |
              ((c as bv32) << 16) | ((d as bv32) << 24)) as bv64) >> 8) & 0xFF) & 0xFF) as bv8 == b;
  }

  lemma StoreByte2(a: bv8, b: bv8, c: bv8, d: bv8)
    ensures Byte8(Word32(a, b, c, d) as bv64, 2) == c
  {
    assert ((((((a as bv32) | ((b as bv32) << 8) |
              ((c as bv32) << 16) | ((d as bv32) << 24)) as bv64) >> 16) & 0xFF) & 0xFF) as bv8 == c;
  }

  lemma StoreByte3(a: bv8, b: bv8, c: bv8, d: bv8)
    ensures Byte8(Word32(a, b, c, d) as bv64, 3) == d
  {
    assert ((((((a as bv32) | ((b as bv32) << 8) |
              ((c as bv32) << 16) | ((d as bv32) << 24)) as bv64) >> 24) & 0xFF) & 0xFF) as bv8 == d;
  }

  lemma StoreFour(a: bv8, b: bv8, c: bv8, d: bv8)
    ensures BytesOf32(Little32([a, b, c, d])) == [a, b, c, d]
  {
    hide Byte8, Word32;
    StoreByte0(a, b, c, d);
    StoreByte1(a, b, c, d);
    StoreByte2(a, b, c, d);
    StoreByte3(a, b, c, d);
  }

  lemma StoreThree(a: bv8, b: bv8, c: bv8)
    ensures BytesOf64(ThreeBytes(a, b, c)) == [a, b, c, 0, 0, 0, 0, 0]
    ensures BytesOf64(0) == [0, 0, 0, 0, 0, 0, 0, 0]
  {
  }

  lemma StoreUnordered(bytes: seq<bv8>, from: nat, m: nat)
    requires m < 4 && from + m <= |bytes|
    ensures IsUnordered(BytesOf64(Load3Unordered(bytes, from, m)), bytes, from, m)
  {
    hide ThreeBytes, BytesOf64;
    if m > 0 { StoreThree(bytes[from], bytes[from + m / 2], bytes[from + m - 1]); } else { StoreThree(0, 0, 0); }
  }

  function Overwrite(s: seq<bv8>, t: seq<bv8>, at: nat): seq<bv8>
    requires at + |t| <= |s|
  {
    s[..at] + t + s[at + |t|..]
  }

  /** The packet that `UpdateRemainder` builds from the first `size` bytes at `bytes`. */
  method RemainderPacket(bytes: seq<bv8>, size: nat) returns (packet: array<bv8>)
    requires 0 < size < 32 && size <= |bytes|
    ensures fresh(packet) && packet.Length == 32 && packet[..] == PaddedPacket(bytes[..size])
  {
    hide BytesOf32, BytesOf64, Load3Unordered, Little32, Overwrite, PaddedPacket, IsUnordered;
    var sizeMod4 := size % 4;
    var remainder := size - sizeMod4;
    packet := new bv8[32](_ => 0);
    assert packet[..] == Zero(32);
    CopyPartial(bytes, remainder, packet, 0);
    if size >= 16 {
      var last4 := Load3ReadBefore(bytes, remainder, sizeMod4);
      StoreLoad32(bytes[size - 4..size]);
      var tail := BytesOf32(last4);
      CopyPartial(tail, 4, packet, 28);
      assert tail[..4] == tail;
      PacketIs(packet[..], bytes, size, tail);
    } else {
      var last4 := Load3Unordered(bytes, remainder, sizeMod4);
      StoreUnordered(bytes, remainder, sizeMod4);
      var tail := BytesOf64(last4);
      BytesLength(last4);
      CopyPartial(tail, 8, packet, 16);
      assert tail[..8] == tail;
      PacketIs(packet[..], bytes, size, tail);
    }
  }

  lemma BytesLength(x: bv64)
    ensures |BytesOf64(x)| == 8
  {
  }

  /** The packet from its two parts: the multiple-of-four part and the tail bytes. */
  lemma PacketIs(p: seq<bv8>, bytes: seq<bv8>, size: nat, tail: seq<bv8>)
    requires 0 < size < 32 && size <= |bytes|
    requires |tail| == if size >= 16 then 4 else 8
    requires p == Overwrite(Overwrite(Zero(32), bytes[..size - size % 4], 0), tail, if size >= 16 then 28 else 16)
    requires size >= 16 ==> tail == bytes[size - 4..size]
    requires size < 16 ==> IsUnordered(tail, bytes, size - size % 4, size % 4)
    ensures p == PaddedPacket(bytes[..size])
  {
    var q := PaddedPacket(bytes[..size]);
    forall i | 0 <= i < 32 ensures p[i] == q[i] {
      if size >= 16 && i >= 28 { assert p[i] == tail[i - 28] == bytes[size - 4..size][i - 28]; }
    }
  }

  function Zero(n: nat): (z: seq<bv8>)
    ensures |z| == n && forall i :: 0 <= i < n ==> z[i] == 0
  {
    seq(n, _ => 0)
  }

  /** Up to three bytes, some repeated, then zeros. */
  ghost predicate IsUnordered(t: seq<bv8>, bytes: seq<bv8>, from: nat, m: nat) {
    && m < 4 && from + m <= |bytes| && |t| == 8
    && t[3] == 0 && t[4] == 0 && t[5] == 0 && t[6] == 0 && t[7] == 0
    && (m == 0 ==> t[0] == 0 && t[1] == 0 && t[2] == 0)
    && (m > 0 ==> t[0] == bytes[from] && t[1] == bytes[from + m / 2] && t[2] == bytes[from + m - 1])
  }

  /** `CopyPartial`, to an offset in the buffer. */
  method CopyPartial(from: seq<bv8>, n: nat, to: array<bv8>, at: nat)
    requires n <= |from| && at + n <= to.Length
    modifies to
    ensures to[..] == Overwrite(old(to[..]), from[..n], at)
  {
    for i := 0 to n
      invariant forall j :: 0 <= j < to.Length ==>
        to[j] == if at <= j < at + i then from[j - at] else old(to[j])
    {
      to[at + i] := from[i];
    }
  }

  /** A lane array read as four lanes. */
  function LanesIn(a: array<bv64>): Lanes
    requires a.Length == 4
    reads a
  {
    Lanes(a[0], a[1], a[2], a[3])
  }

  method Add(source: array<bv64>, dest: array<bv64>)
    requires source.Length == 4 && dest.Length == 4 && source != dest
    modifies dest
    ensures LanesIn(dest) == AddLanes(old(LanesIn(dest)), LanesIn(source))
  {
    hide Plus64;
    for lane := 0 to 4
      invariant forall k :: 0 <= k < 4 ==>
        dest[k] == if k < lane then Plus64(old(dest[k]), source[k]) else old(dest[k])
    {
      dest[lane] := Plus64(dest[lane], source[lane]);
    }
  }

  method NewLanes(l: Lanes) returns (a: array<bv64>)
    ensures fresh(a) && a.Length == 4 && LanesIn(a) == l
  {
    a := new bv64[4] [l.a, l.b, l.c, l.d];
  }

  method Copy(source: array<bv64>, dest: array<bv64>)
    requires source.Length == 4 && dest.Length == 4 && source != dest
    modifies dest
    ensures LanesIn(dest) == LanesIn(source)
  {
    for lane := 0 to 4
      invariant forall k :: 0 <= k < lane ==> dest[k] == source[k]
    {
      dest[lane] := source[lane];
    }
  }

  method Xor(op1: array<bv64>, op2: array<bv64>, dest: array<bv64>)
    requires op1.Length == 4 && op2.Length == 4 && dest.Length == 4 && dest != op1 && dest != op2
    modifies dest
    ensures LanesIn(dest) == XorLanes(LanesIn(op1), LanesIn(op2))
  {
    hide Xor64;
    for lane := 0 to 4
      invariant forall k :: 0 <= k < lane ==> dest[k] == Xor64(op1[k], op2[k])
    {
      dest[lane] := Xor64(op1[lane], op2[lane]);
    }
  }

  /** `ZipperMergeAndAdd`, from lanes i and i + 1 of `from` into the same of `to`. */
  method ZipperMergeAndAdd(from: array<bv64>, to: array<bv64>, i: nat)
    requires from.Length == 4 && to.Length == 4 && from != to && i + 1 < 4
    modifies to
    ensures to[i] == Plus64(old(to[i]), ZipLow(from[i + 1], from[i]))
    ensures to[i + 1] == Plus64(old(to[i + 1]), ZipHigh(from[i + 1], from[i]))
    ensures forall k :: 0 <= k < 4 && k != i && k != i + 1 ==> to[k] == old(to[k])
  {
    hide Plus64, ZipLow, ZipHigh, MaskLow, MaskHigh;
    MaskIsZip(from[i + 1], from[i]);
    to[i] := Plus64(to[i], MaskLow(from[i + 1], from[i]));
    to[i + 1] := Plus64(to[i + 1], MaskHigh(from[i + 1], from[i]));
  }

  method Rotate(v: array<bv64>, rotated: array<bv64>)
    requires v.Length == 4 && rotated.Length == 4 && v != rotated
    modifies rotated
    ensures LanesIn(rotated) == RotateLanes(LanesIn(v))
  {
    hide Rotate64By32;
    for i := 0 to 4
      invariant forall k :: 0 <= k < i ==> rotated[k] == Rotate64By32(v[k])
    {
      rotated[i] := Rotate64By32(v[i]);
    }
  }

  /** m ^= low half of x times high half of y. */
  function MulAdd(m: bv64, x: bv64, y: bv64): bv64 {
    Xor64(m, Times64(Low32(x), High32(y)))
  }

  /** A lane before its multiplications, or after. */
  ghost predicate LaneState(done: bool, m0: bv64, w: bv64, m1: bv64, x: bv64, m0': bv64, w': bv64, m1': bv64) {
    if done then m0' == MulAdd(m0, x, w) && w' == Plus64(w, m1) && m1' == MulAdd(m1, w', x)
    else m0' == m0 && w' == w && m1' == m1
  }

  class HHStatePortable {
    const v0: array<bv64>
    const v1: array<bv64>
    const mul0: array<bv64>
    const mul1: array<bv64>

    ghost predicate Valid()
      reads {}
    {
      && v0.Length == 4 && v1.Length == 4 && mul0.Length == 4 && mul1.Length == 4
      && v0 != v1 && v0 != mul0 && v0 != mul1 && v1 != mul0 && v1 != mul1 && mul0 != mul1
    }

    function View(): HHState
      requires Valid()
      reads v0, v1, mul0, mul1
    {
      HHState(LanesIn(v0), LanesIn(v1), LanesIn(mul0), LanesIn(mul1))
    }

    constructor (key: Lanes)
      ensures Valid() && fresh(v0) && fresh(v1) && fresh(mul0) && fresh(mul1)
      ensures View() == Start(key)
    {
      v0 := new bv64[4](_ => 0);
      v1 := new bv64[4](_ => 0);
      mul0 := new bv64[4](_ => 0);
      mul1 := new bv64[4](_ => 0);
      new;
      Reset(key);
    }

    constructor From(s: HHStatePortable)
      requires s.Valid()
      ensures Valid() && fresh(v0) && fresh(v1) && fresh(mul0) && fresh(mul1)
      ensures View() == s.View()
    {
      var a := NewLanes(LanesIn(s.v0));
      var b := NewLanes(LanesIn(s.v1));
      var c := NewLanes(LanesIn(s.mul0));
      var d := NewLanes(LanesIn(s.mul1));
      v0, v1, mul0, mul1 := a, b, c, d;
    }

    method Reset(key: Lanes)
      requires Valid()
      modifies v0, v1, mul0, mul1
      ensures View() == Start(key)
    {
      hide Xor64, Rotate64By32;
      hide XorLanes, RotateLanes, LanesIn;
      var keys := NewLanes(key);
      var rotatedKeys := NewLanes(key);
      Rotate(keys, rotatedKeys);
      var init0 := NewLanes(INIT0);
      var init1 := NewLanes(INIT1);
      ResetTo(init0, init1, keys, rotatedKeys);
    }

    method ResetTo(init0: array<bv64>, init1: array<bv64>, keys: array<bv64>, rotatedKeys: array<bv64>)
      requires Valid() && init0.Length == 4 && init1.Length == 4 && keys.Length == 4 && rotatedKeys.Length == 4
      requires {init0, init1, keys, rotatedKeys} !! {v0, v1, mul0, mul1}
      modifies v0, v1, mul0, mul1
      ensures View() == HHState(XorLanes(LanesIn(init0), LanesIn(keys)),
                                XorLanes(LanesIn(init1), LanesIn(rotatedKeys)), LanesIn(init0), LanesIn(init1))
    {
      hide XorLanes;
      Copy(init0, mul0);
      Copy(init1, mul1);
      Xor(init0, keys, v0);
      Xor(init1, rotatedKeys, v1);
    }

    /** The multiplication loop of `Update`. */
    method MultiplyLoop()
      requires Valid()
      modifies v0, mul0, mul1
      ensures forall k :: 0 <= k < 4 ==>
        LaneState(true, old(mul0[k]), old(v0[k]), old(mul1[k]), v1[k], mul0[k], v0[k], mul1[k])
    {
      hide LaneState;
      for lane := 0 to 4
        invariant forall k :: lane <= k < 4 ==>
          mul0[k] == old(mul0[k]) && v0[k] == old(v0[k]) && mul1[k] == old(mul1[k])
        invariant forall k :: 0 <= k < lane ==>
          LaneState(true, old(mul0[k]), old(v0[k]), old(mul1[k]), v1[k], mul0[k], v0[k], mul1[k])
      {
        MultiplyLane(lane);
      }
    }

    method MultiplyLanes()
      requires Valid()
      modifies v0, mul0, mul1
      ensures LanesIn(mul0) == XorLanes(old(LanesIn(mul0)), MulLanes(LanesIn(v1), old(LanesIn(v0))))
      ensures LanesIn(v0) == AddLanes(old(LanesIn(v0)), old(LanesIn(mul1)))
      ensures LanesIn(mul1) == XorLanes(old(LanesIn(mul1)), MulLanes(LanesIn(v0), LanesIn(v1)))
    {
      hide Plus64, Times64, Xor64, Low32, High32;
      MultiplyLoop();
      assert LaneState(true, old(mul0[0]), old(v0[0]), old(mul1[0]), v1[0], mul0[0], v0[0], mul1[0]);
      assert LaneState(true, old(mul0[3]), old(v0[3]), old(mul1[3]), v1[3], mul0[3], v0[3], mul1[3]);
    }

    method MultiplyLane(lane: nat)
      requires Valid() && lane < 4
      modifies v0, mul0, mul1
      ensures LaneState(true, old(mul0[lane]), old(v0[lane]), old(mul1[lane]), v1[lane],
                        mul0[lane], v0[lane], mul1[lane])
      ensures forall k :: 0 <= k < 4 && k != lane ==>
        mul0[k] == old(mul0[k]) && v0[k] == old(v0[k]) && mul1[k] == old(mul1[k])
    {
      hide Plus64, MulAdd;
      mul0[lane] := MulAdd(mul0[lane], v1[lane], v0[lane]);
      v0[lane] := Plus64(v0[lane], mul1[lane]);
      mul1[lane] := MulAdd(mul1[lane], v0[lane], v1[lane]);
    }

    method UpdateLanes(packet: array<bv64>)
      requires Valid() && packet.Length == 4
      requires packet != v0 && packet != v1 && packet != mul0 && packet != mul1
      modifies v0, v1, mul0, mul1
      ensures View() == Mix(old(View()), LanesIn(packet))
    {
      hide Plus64, ZipLow, ZipHigh, MulLanes, XorLanes;
      Add(packet, v1);
      Add(mul0, v1);
      MultiplyLanes();
      ZipperMergeAndAdd(v1, v0, 0);
      ZipperMergeAndAdd(v1, v0, 2);
      ZipperMergeAndAdd(v0, v1, 0);
      ZipperMergeAndAdd(v0, v1, 2);
    }

    method Update(packet: seq<bv8>)
      requires Valid() && |packet| == 32
      modifies v0, v1, mul0, mul1
      ensures View() == Mix(old(View()), LanesOf(packet))
    {
      hide Mix, Little64;
      var packetLanes := new bv64[4];
      for lane := 0 to 4
        invariant View() == old(View())
        invariant forall k :: 0 <= k < lane ==> packetLanes[k] == Little64(packet[8 * k..8 * k + 8])
      {
        packetLanes[lane] := Little64(packet[8 * lane..8 * lane + 8]);
      }
      assert packet[0..8] == packet[..8] && packet[24..32] == packet[24..];
      assert packetLanes[0] == Little64(packet[8 * 0..8 * 0 + 8]);
      assert packetLanes[3] == Little64(packet[8 * 3..8 * 3 + 8]);
      UpdateLanes(packetLanes);
    }

    method Rotate32By(count: nat)
      requires Valid() && 0 < count < 32
      modifies v1
      ensures LanesIn(v1) == RotateHalvesLanes(old(LanesIn(v1)), count)
    {
      hide RotateHalves;
      for lane := 0 to 4
        invariant forall k :: 0 <= k < 4 ==>
          v1[k] == if k < lane then RotateHalves(old(v1[k]), count) else old(v1[k])
      {
        v1[lane] := RotateHalves(v1[lane], count);
      }
    }

    method UpdateRemainder(bytes: seq<bv8>, sizeMod32: nat)
      requires Valid() && 0 < sizeMod32 < 32 && sizeMod32 <= |bytes|
      modifies v0, v1, mul0, mul1
      ensures View() == AbsorbRemainder(old(View()), bytes[..sizeMod32])
    {
      hide Mix, Plus64, PaddedPacket, LanesOf, RotateHalvesLanes, SizePair;
      var mod32Pair := SizePair(sizeMod32);
      for lane := 0 to 4
        modifies v0
        invariant forall k :: 0 <= k < 4 ==>
          v0[k] == if k < lane then Plus64(old(v0[k]), mod32Pair) else old(v0[k])
      {
        v0[lane] := Plus64(v0[lane], mod32Pair);
      }
      Rotate32By(sizeMod32);
      var packet := RemainderPacket(bytes, sizeMod32);
      Update(packet[..]);
    }

    method PermuteAndUpdate()
      requires Valid()
      modifies v0, v1, mul0, mul1
      ensures View() == PermuteAndMix(old(View()))
    {
      hide Mix, Rotate64By32;
      var permuted := NewLanes(
        Lanes(Rotate64By32(v0[2]), Rotate64By32(v0[3]), Rotate64By32(v0[0]), Rotate64By32(v0[1])));
      UpdateLanes(permuted);
    }

    method PermuteTimes(n: nat)
      requires Valid()
      modifies v0, v1, mul0, mul1
      ensures View() == Permuted(old(View()), n)
    {
      hide PermuteAndMix;
      for k := 0 to n
        invariant View() == Permuted(old(View()), k)
      {
        PermuteAndUpdate();
      }
    }

    method Finalize64() returns (result: bv64)
      requires Valid()
      modifies v0, v1, mul0, mul1
      ensures result == Final64(old(View()))
    {
      hide Mix, Plus64, Sum4, Permuted;
      PermuteTimes(4);
      result := Sum(v0[0], v1[0], mul0[0], mul1[0]);
      SumOrder(v0[0], v1[0], mul0[0], mul1[0]);
    }

    method Finalize128() returns (result: (bv64, bv64))
      requires Valid()
      modifies v0, v1, mul0, mul1
      ensures result == Final128(old(View()))
    {
      hide Mix, Plus64, Sum4, Permuted;
      PermuteTimes(6);
      result := (Sum(v0[0], mul0[0], v1[2], mul1[2]), Sum(v0[1], mul0[1], v1[3], mul1[3]));
      SumOrder(v0[0], mul0[0], v1[2], mul1[2]);
      SumOrder(v0[1], mul0[1], v1[3], mul1[3]);
    }

    method Finalize256() returns (result: (bv64, bv64, bv64, bv64))
      requires Valid()
      modifies v0, v1, mul0, mul1
      ensures result == Final256(old(View()))
    {
      hide Mix, Plus64, Permuted, Reduce;
      PermuteTimes(10);
      var (m1, m0) := Reduce(Plus64(v1[1], mul1[1]), Plus64(v1[0], mul1[0]),
                                       Plus64(v0[1], mul0[1]), Plus64(v0[0], mul0[0]));
      var (m3, m2) := Reduce(Plus64(v1[3], mul1[3]), Plus64(v1[2], mul1[2]),
                                       Plus64(v0[3], mul0[3]), Plus64(v0[2], mul0[2]));
      result := (m0, m1, m2, m3);
    }
  }

  /** The sum of four lanes, from left to right. */
  function Sum(a: bv64, b: bv64, c: bv64, d: bv64): bv64 { a + b + c + d }

  /** Sums of lanes do not depend on the order. */
  lemma SumOrder(a: bv64, b: bv64, c: bv64, d: bv64)
    ensures Sum(a, b, c, d) == Sum4(a, c, b, d) && Sum(a, b, c, d) == Sum4(a, b, c, d)
  {
  }
}
