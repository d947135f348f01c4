/** HighwayHash on its four 64-bit lanes: the definition that both implementations
    are proved against. */
module HighwayLanes {

  /** A product that proofs keep folded, so that it is never expanded into bits. */
  function Times64(a: bv64, b: bv64): bv64 { a * b }

  function Plus64(a: bv64, b: bv64): bv64 { a + b }

  function Xor64(a: bv64, b: bv64): bv64 { a ^ b }

  function Or64(x: bv64, y: bv64): bv64 { x | y }

  function Left(x: bv64, k: nat): bv64
    requires k <= 64
  {
    x << k
  }

  function Low32(x: bv64): bv64 { x & 0xFFFF_FFFF }

  function High32(x: bv64): bv64 { x >> 32 }

  /** Swaps the 32-bit halves of a lane. */
  function Rotate64By32(x: bv64): bv64 { (x >> 32) | (x << 32) }

  function Join(lo: bv32, hi: bv32): bv64 { (lo as bv64) | ((hi as bv64) << 32) }

  function LowHalf(x: bv64): bv32 { (x & 0xFFFF_FFFF) as bv32 }

  function HighHalf(x: bv64): bv32 { (x >> 32) as bv32 }

  function Or32(a: bv32, b: bv32): bv32 { a | b }

  function ShiftLeft32(x: bv32, count: nat): bv32
    requires count < 32
  {
    x << count
  }

  function ShiftRight32(x: bv32, count: nat): bv32
    requires count < 32
  {
    x >> count
  }

  function Rotl32(x: bv32, count: nat): bv32
    requires 0 < count < 32
  {
    Or32(ShiftLeft32(x, count), ShiftRight32(x, 32 - count))
  }

  /** Rotates both 32-bit halves of a lane. */
  function RotateHalves(x: bv64, count: nat): bv64
    requires 0 < count < 32
  {
    Join(Rotl32(LowHalf(x), count), Rotl32(HighHalf(x), count))
  }

  /** Byte k of a lane, least significant first. */
  function Byte(x: bv64, k: nat): bv64
    requires k < 8
  {
    if k == 0 then x & 0xFF else if k == 1 then (x >> 8) & 0xFF
    else if k == 2 then (x >> 16) & 0xFF else if k == 3 then (x >> 24) & 0xFF
    else if k == 4 then (x >> 32) & 0xFF else if k == 5 then (x >> 40) & 0xFF
    else if k == 6 then (x >> 48) & 0xFF else x >> 56
  }

  function Pack(b0: bv64, b1: bv64, b2: bv64, b3: bv64, b4: bv64, b5: bv64, b6: bv64, b7: bv64): bv64 {
    Or64(Or64(Or64(Or64(Or64(Or64(Or64(b0, Left(b1, 8)), Left(b2, 16)), Left(b3, 24)), Left(b4, 32)),
                   Left(b5, 40)), Left(b6, 48)), Left(b7, 56))
  }

  /** The zipper merge of a pair of lanes (v1, v0), byte by byte: lower lane. */
  function ZipLow(v1: bv64, v0: bv64): bv64 {
    Pack(Byte(v0, 3), Byte(v1, 4), Byte(v0, 2), Byte(v0, 5), Byte(v1, 6), Byte(v0, 1), Byte(v1, 7), Byte(v0, 0))
  }

  /** The zipper merge, upper lane. */
  function ZipHigh(v1: bv64, v0: bv64): bv64 {
    Pack(Byte(v1, 3), Byte(v0, 4), Byte(v1, 2), Byte(v1, 5), Byte(v1, 1), Byte(v0, 6), Byte(v1, 0), Byte(v0, 7))
  }

  datatype Lanes = Lanes(a: bv64, b: bv64, c: bv64, d: bv64)

  function AddLanes(x: Lanes, y: Lanes): Lanes {
    Lanes(Plus64(x.a, y.a), Plus64(x.b, y.b), Plus64(x.c, y.c), Plus64(x.d, y.d))
  }

  function XorLanes(x: Lanes, y: Lanes): Lanes {
    Lanes(Xor64(x.a, y.a), Xor64(x.b, y.b), Xor64(x.c, y.c), Xor64(x.d, y.d))
  }

  /** Low half of x times high half of y, lane by lane. */
  function MulLanes(x: Lanes, y: Lanes): Lanes {
    Lanes(Times64(Low32(x.a), High32(y.a)), Times64(Low32(x.b), High32(y.b)),
          Times64(Low32(x.c), High32(y.c)), Times64(Low32(x.d), High32(y.d)))
  }

  function ZipLanes(x: Lanes): Lanes {
    Lanes(ZipLow(x.b, x.a), ZipHigh(x.b, x.a), ZipLow(x.d, x.c), ZipHigh(x.d, x.c))
  }

  function RotateLanes(x: Lanes): Lanes {
    Lanes(Rotate64By32(x.a), Rotate64By32(x.b), Rotate64By32(x.c), Rotate64By32(x.d))
  }

  datatype HHState = HHState(v0: Lanes, v1: Lanes, mul0: Lanes, mul1: Lanes)

  const INIT0 := Lanes(0xdbe6d5d5fe4cce2f, 0xa4093822299f31d0, 0x13198a2e03707344, 0x243f6a8885a308d3)
  const INIT1 := Lanes(0x3bd39e10cb0ef593, 0xc0acf169b5f18a8c, 0xbe5466cf34e90c6c, 0x452821e638d01377)

  function Start(key: Lanes): HHState {
    HHState(XorLanes(INIT0, key), XorLanes(INIT1, RotateLanes(key)), INIT0, INIT1)
  }

  function Mix(s: HHState, packet: Lanes): HHState {
    var v1 := AddLanes(AddLanes(s.v1, packet), s.mul0);
    var mul0 := XorLanes(s.mul0, MulLanes(v1, s.v0));
    var v0 := AddLanes(s.v0, s.mul1);
    var mul1 := XorLanes(s.mul1, MulLanes(v0, v1));
    var z0 := AddLanes(v0, ZipLanes(v1));
    HHState(z0, AddLanes(v1, ZipLanes(z0)), mul0, mul1)
  }

  function Word32(a: bv8, b: bv8, c: bv8, d: bv8): bv32 {
    (a as bv32) | ((b as bv32) << 8) | ((c as bv32) << 16) | ((d as bv32) << 24)
  }

  function Little32(s: seq<bv8>): bv32
    requires |s| == 4
  {
    Word32(s[0], s[1], s[2], s[3])
  }

  /** A lane from eight bytes, on a little-endian host. */
  function Little64(s: seq<bv8>): bv64
    requires |s| == 8
  {
    Pack(s[0] as bv64, s[1] as bv64, s[2] as bv64, s[3] as bv64,
         s[4] as bv64, s[5] as bv64, s[6] as bv64, s[7] as bv64)
  }

  function LanesOf(packet: seq<bv8>): Lanes
    requires |packet| == 32
  {
    Lanes(Little64(packet[..8]), Little64(packet[8..16]), Little64(packet[16..24]), Little64(packet[24..]))
  }

  /** The packet that stands for 1 to 31 remaining bytes (the length padding). Its
      multiple-of-four part comes first; with 16 bytes or more the last four bytes
      fill the top, otherwise up to three bytes, partly repeated, start the upper half. */
  function PaddedPacket(bytes: seq<bv8>): (p: seq<bv8>)
    requires 0 < |bytes| < 32
    ensures |p| == 32
  {
    var m := |bytes| % 4;
    var whole := |bytes| - m;
    seq(32, i requires 0 <= i < 32 =>
      if i < whole then bytes[i]
      else if |bytes| >= 16 then (if i >= 28 then bytes[|bytes| - 32 + i] else 0)
      else if m > 0 && i == 16 then bytes[whole]
      else if m > 0 && i == 17 then bytes[whole + m / 2]
      else if m > 0 && i == 18 then bytes[whole + m - 1]
      else 0)
  }

  function Broadcast(x: bv64): Lanes { Lanes(x, x, x, x) }

  function RotateHalvesLanes(x: Lanes, count: nat): Lanes
    requires 0 < count < 32
  {
    Lanes(RotateHalves(x.a, count), RotateHalves(x.b, count), RotateHalves(x.c, count), RotateHalves(x.d, count))
  }

  /** The size in both 32-bit halves of a lane. */
  function SizePair(size: nat): bv64
    requires size < 32
  {
    ((size as bv64) << 32) + (size as bv64)
  }

  function AbsorbRemainder(s: HHState, bytes: seq<bv8>): HHState
    requires 0 < |bytes| < 32
  {
    Mix(s.(v0 := AddLanes(s.v0, Broadcast(SizePair(|bytes|))), v1 := RotateHalvesLanes(s.v1, |bytes|)),
        LanesOf(PaddedPacket(bytes)))
  }

  function PermuteAndMix(s: HHState): HHState {
    var r := RotateLanes(s.v0);
    Mix(s, Lanes(r.c, r.d, r.a, r.b))
  }

  function Permuted(s: HHState, n: nat): HHState {
    if n == 0 then s else PermuteAndMix(Permuted(s, n - 1))
  }

  function Sum4(a: bv64, b: bv64, c: bv64, d: bv64): bv64 { (a + b) + (c + d) }

  function Final64(s: HHState): bv64 {
    var t := Permuted(s, 4);
    Sum4(t.v0.a, t.mul0.a, t.v1.a, t.mul1.a)
  }

  function Final128(s: HHState): (bv64, bv64) {
    var t := Permuted(s, 6);
    (Sum4(t.v0.a, t.mul0.a, t.v1.c, t.mul1.c), Sum4(t.v0.b, t.mul0.b, t.v1.d, t.mul1.d))
  }

  function Xor3(a: bv64, b: bv64, c: bv64): bv64 { Xor64(Xor64(a, b), c) }

  // The lanes of the upper half (a3, a2), its top two bits cleared, shifted left by
  // one bit and by two bits (`Shift128Left`).
  function High1(a3Unmasked: bv64, a2: bv64): bv64 { ((a3Unmasked & 0x3FFF_FFFF_FFFF_FFFF) << 1) | (a2 >> 63) }
  function High2(a3Unmasked: bv64, a2: bv64): bv64 { ((a3Unmasked & 0x3FFF_FFFF_FFFF_FFFF) << 2) | (a2 >> 62) }
  function Low1(a2: bv64): bv64 { a2 << 1 }
  function Low2(a2: bv64): bv64 { a2 << 2 }

  /** `ModularReduction` of the 256-bit number (a3, a2, a1, a0) to (m1, m0). */
  function Reduce(a3: bv64, a2: bv64, a1: bv64, a0: bv64): (bv64, bv64) {
    (Xor3(a1, High1(a3, a2), High2(a3, a2)), Xor3(a0, Low1(a2), Low2(a2)))
  }

  function Final256(s: HHState): (bv64, bv64, bv64, bv64) {
    var t := Permuted(s, 10);
    var (m1, m0) := Reduce(Plus64(t.v1.b, t.mul1.b), Plus64(t.v1.a, t.mul1.a),
                           Plus64(t.v0.b, t.mul0.b), Plus64(t.v0.a, t.mul0.a));
    var (m3, m2) := Reduce(Plus64(t.v1.d, t.mul1.d), Plus64(t.v1.c, t.mul1.c),
                           Plus64(t.v0.d, t.mul0.d), Plus64(t.v0.c, t.mul0.c));
    (m0, m1, m2, m3)
  }

  /** The state after the whole packets at the front of a byte string. */
  function AbsorbPackets(s: HHState, bytes: seq<bv8>): HHState
    decreases |bytes|
  {
    if |bytes| < 32 then s else AbsorbPackets(Mix(s, LanesOf(bytes[..32])), bytes[32..])
  }

  /** The state after a whole byte string, before finalization: HighwayHashT. */
  function Absorb(key: Lanes, bytes: seq<bv8>): HHState {
    var s := AbsorbPackets(Start(key), bytes);
    var r := |bytes| % 32;
    if r == 0 then s else AbsorbRemainder(s, bytes[|bytes| - r..])
  }

  lemma {:induction false} AbsorbJoin(s: HHState, a: seq<bv8>, b: seq<bv8>)
    requires |a| % 32 == 0
    ensures AbsorbPackets(s, a + b) == AbsorbPackets(AbsorbPackets(s, a), b)
    decreases |a|
  {
    hide Mix;
    if a == [] {
      assert a + b == b;
    } else {
      assert (a + b)[..32] == a[..32] && (a + b)[32..] == a[32..] + b;
      AbsorbJoin(Mix(s, LanesOf(a[..32])), a[32..], b);
    }
  }
}
