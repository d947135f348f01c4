/** XXH64: the algorithm on a whole message (after the algorithm description of the
    xxHash specification), on a little-endian host. */
module XxHash {

  const PRIME1: bv64 := 11400714785074694791
  const PRIME2: bv64 := 14029467366897019727
  const PRIME3: bv64 := 1609587929392839161
  const PRIME4: bv64 := 9650029242287828579
  const PRIME5: bv64 := 2870177450012600261

  const STRIPE := 32

  function RotateLeft(x: bv64, bits: nat): bv64
    requires 0 < bits < 64
  {
    (x << bits) | (x >> (64 - bits))
  }

  function ProcessSingle(previous: bv64, input: bv64): bv64 {
    RotateLeft(previous + input * PRIME2, 31) * PRIME1
  }

  function Load64(s: seq<bv8>): bv64
    requires |s| == 8
  {
    (s[0] as bv64) | ((s[1] as bv64) << 8) | ((s[2] as bv64) << 16) | ((s[3] as bv64) << 24) |
    ((s[4] as bv64) << 32) | ((s[5] as bv64) << 40) | ((s[6] as bv64) << 48) | ((s[7] as bv64) << 56)
  }

  function Load32(s: seq<bv8>): bv64
    requires |s| == 4
  {
    (s[0] as bv64) | ((s[1] as bv64) << 8) | ((s[2] as bv64) << 16) | ((s[3] as bv64) << 24)
  }

  datatype Accumulators = Accumulators(s0: bv64, s1: bv64, s2: bv64, s3: bv64)

  function Start(seed: bv64): Accumulators {
    Accumulators(seed + PRIME1 + PRIME2, seed + PRIME2, seed, seed - PRIME1)
  }

  function Process(a: Accumulators, block: seq<bv8>): Accumulators
    requires |block| == STRIPE
  {
    Accumulators(ProcessSingle(a.s0, Load64(block[..8])), ProcessSingle(a.s1, Load64(block[8..16])),
                 ProcessSingle(a.s2, Load64(block[16..24])), ProcessSingle(a.s3, Load64(block[24..])))
  }

  /** All complete stripes of a message. */
  function Stripes(a: Accumulators, message: seq<bv8>): Accumulators
    decreases |message|
  {
    if |message| < STRIPE then a else Stripes(Process(a, message[..STRIPE]), message[STRIPE..])
  }

  /** What the stripes leave over. */
  function Leftover(message: seq<bv8>): (r: seq<bv8>)
    ensures |r| == |message| % 32
  {
    message[|message| - |message| % 32..]
  }

  function MergeOne(result: bv64, s: bv64): bv64 { (result ^ ProcessSingle(0, s)) * PRIME1 + PRIME4 }

  function Converge(a: Accumulators): bv64 {
    var sum := RotateLeft(a.s0, 1) + RotateLeft(a.s1, 7) + RotateLeft(a.s2, 12) + RotateLeft(a.s3, 18);
    MergeOne(MergeOne(MergeOne(MergeOne(sum, a.s0), a.s1), a.s2), a.s3)
  }

  function Eat8(result: bv64, word: bv64): bv64 {
    RotateLeft(result ^ ProcessSingle(0, word), 27) * PRIME1 + PRIME4
  }

  function Eat4(result: bv64, word: bv64): bv64 { RotateLeft(result ^ (word * PRIME1), 23) * PRIME2 + PRIME3 }

  function Eat1(result: bv64, byte: bv8): bv64 { RotateLeft(result ^ ((byte as bv64) * PRIME5), 11) * PRIME1 }

  function EatBytes(result: bv64, rest: seq<bv8>): bv64
    decreases |rest|
  {
    if rest == [] then result else EatBytes(Eat1(result, rest[0]), rest[1..])
  }

  /** The bytes behind the last stripe: by eights, then at most one four, then one by one. */
  function EatRest(result: bv64, rest: seq<bv8>): bv64
    decreases |rest|
  {
    if |rest| >= 8 then EatRest(Eat8(result, Load64(rest[..8])), rest[8..])
    else if |rest| >= 4 then EatBytes(Eat4(result, Load32(rest[..4])), rest[4..])
    else EatBytes(result, rest)
  }

  function MixShift(x: bv64, bits: nat): bv64
    requires bits < 64
  {
    x ^ (x >> bits)
  }

  function Avalanche(x: bv64): bv64 {
    MixShift(MixShift(MixShift(x, 33) * PRIME2, 29) * PRIME3, 32)
  }

  function AddLength(x: bv64, length: nat): bv64
    requires length < 0x1_0000_0000_0000_0000
  {
    x + (length as bv64)
  }

  function ShortStart(seed: bv64): bv64 { seed + PRIME5 }

  /** The hash of a message. */
  function XXH64(seed: bv64, message: seq<bv8>): bv64
    requires |message| < 0x1_0000_0000_0000_0000
  {
    var head := if |message| >= STRIPE then Converge(Stripes(Start(seed), message)) else ShortStart(seed);
    Avalanche(EatRest(AddLength(head, |message|), Leftover(message)))
  }

  /** Stripes of a message in two parts, the first of whole stripes. */
  lemma {:induction false} StripesJoin(a: Accumulators, m: seq<bv8>, n: seq<bv8>)
    requires |m| % 32 == 0
    ensures Stripes(a, m + n) == Stripes(Stripes(a, m), n)
    decreases |m|
  {
    hide Process;
    if m == [] {
      assert m + n == n;
    } else {
      assert (m + n)[..32] == m[..32] && (m + n)[32..] == m[32..] + n;
      StripesJoin(Process(a, m[..32]), m[32..], n);
    }
  }

  /** What has been processed and what is left over, when more arrives. */
  lemma MoreStripes(a: Accumulators, message: seq<bv8>, data: seq<bv8>)
    ensures Stripes(a, message + data) == Stripes(Stripes(a, message), Leftover(message) + data)
    ensures Leftover(message + data) == Leftover(Leftover(message) + data)
  {
    hide Process, Stripes;
    var k := |message| - |message| % 32;
    var m, r := message[..k], message[k..];
    assert message == m + r && message + data == m + (r + data);
    StripesJoin(a, m, r + data);
    StripesJoin(a, m, r);
    NoStripe(Stripes(a, m), r);
    LeftoverJoin(m, r + data);
  }

  lemma LeftoverJoin(m: seq<bv8>, n: seq<bv8>)
    requires |m| % 32 == 0
    ensures Leftover(m + n) == Leftover(n)
  {
    assert (|m| + |n|) % 32 == |n| % 32;
  }

  lemma NoStripe(a: Accumulators, m: seq<bv8>)
    requires |m| < 32
    ensures Stripes(a, m) == a && Leftover(m) == m
  {
  }

  /** The first stripe of m. */
  lemma OneStripe(a: Accumulators, m: seq<bv8>)
    requires |m| >= 32
    ensures Stripes(a, m) == Stripes(Process(a, m[..32]), m[32..]) && Leftover(m) == Leftover(m[32..])
  {
    hide Process;
  }
}
