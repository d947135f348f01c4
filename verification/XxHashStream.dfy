/** The streaming hasher: a message may be added in any pieces. */
module XxHashStream {
  import opened XxHash

  /** The accumulators and the buffered bytes that a message leaves behind. */
  ghost predicate Tied(seed: bv64, message: seq<bv8>, a: Accumulators, buffered: seq<bv8>) {
    a == Stripes(Start(seed), message) && buffered == Leftover(message)
  }

  lemma TiedMore(seed: bv64, message: seq<bv8>, a: Accumulators, buffered: seq<bv8>, data: seq<bv8>)
    requires Tied(seed, message, a, buffered)
    ensures Tied(seed, message + data, Stripes(a, buffered + data), Leftover(buffered + data))
  {
    hide Stripes, Leftover, Start;
    MoreStripes(Start(seed), message, data);
  }

  class XXHash64 {
    const state: array<bv64>
    const buffer: array<bv8>
    var bufferSize: nat
    var totalLength: nat
    // The seed and everything added so far.
    ghost const seed: bv64
    ghost var message: seq<bv8>

    constructor (seed: bv64)
      ensures Valid() && this.seed == seed && message == [] && fresh(state) && fresh(buffer)
    {
      state := new bv64[4];
      buffer := new bv8[32];
      bufferSize, totalLength := 0, 0;
      this.seed := seed;
      message := [];
      new;
      state[0] := seed + PRIME1 + PRIME2;
      state[1] := seed + PRIME2;
      state[2] := seed;
      state[3] := seed - PRIME1;
      hide ProcessSingle, Load64, Process;
    }

    ghost function Current(): Accumulators
      requires state.Length == 4
      reads state
    {
      Accumulators(state[0], state[1], state[2], state[3])
    }

    /** The buffer holds what the complete stripes leave over, less than a stripe. */
    ghost predicate Valid()
      reads this, state, buffer
    {
      && state.Length == 4 && buffer.Length == 32 && bufferSize < 32
      && totalLength == |message| < 0x1_0000_0000_0000_0000
      && Tied(seed, message, Current(), buffer[..bufferSize])
    }

    /** `process`: one stripe, four lanes. */
    static method ProcessBlock(data: array<bv8>, at: nat, s0: bv64, s1: bv64, s2: bv64, s3: bv64)
        returns (t0: bv64, t1: bv64, t2: bv64, t3: bv64)
      requires at + 32 <= data.Length
      ensures Accumulators(t0, t1, t2, t3) == Process(Accumulators(s0, s1, s2, s3), data[at..at + 32])
    {
      hide ProcessSingle, Load64;
      var block := data[at..at + 32];
      t0 := ProcessSingle(s0, Load64(block[..8]));
      t1 := ProcessSingle(s1, Load64(block[8..16]));
      t2 := ProcessSingle(s2, Load64(block[16..24]));
      t3 := ProcessSingle(s3, Load64(block[24..]));
    }

    /** `add`. The input is not the hasher's own buffer. */
    method Add(input: array?<bv8>, length: nat) returns (ok: bool)
      requires Valid() && (input != null ==> length <= input.Length && input != buffer)
      requires |message| + length < 0x1_0000_0000_0000_0000
      modifies this, state, buffer
      ensures Valid() && ok == (input != null && length > 0)
      ensures message == if ok then old(message) + old(input[..length]) else old(message)
    {
      hide Process, Stripes, Leftover, Start, Tied;
      if input == null || length == 0 { return false; }
      ghost var data := input[..length];
      TiedMore(seed, message, Current(), buffer[..bufferSize], data);
      totalLength := totalLength + length;
      Consume(input, length);
      message := message + data;
      return true;
    }

    /** What fits joins the buffer; otherwise stripes are processed. */
    method Consume(input: array<bv8>, length: nat)
      requires state.Length == 4 && buffer.Length == 32 && bufferSize < 32
      requires length <= input.Length && input != buffer
      modifies this`bufferSize, state, buffer
      ensures bufferSize < 32
      ensures Current() == Stripes(old(Current()), old(buffer[..bufferSize]) + old(input[..length]))
      ensures buffer[..bufferSize] == Leftover(old(buffer[..bufferSize]) + old(input[..length]))
    {
      hide Process, Stripes, Leftover;
      if bufferSize + length < 32 {
        NoStripe(Current(), buffer[..bufferSize] + input[..length]);
        Keep(input, length);
      } else {
        Overflow(input, length);
      }
    }

    /** Enough bytes for at least one stripe. */
    method Overflow(input: array<bv8>, length: nat)
      requires state.Length == 4 && buffer.Length == 32 && bufferSize < 32 <= bufferSize + length
      requires length <= input.Length && input != buffer
      modifies this`bufferSize, state, buffer
      ensures bufferSize < 32
      ensures Current() == Stripes(old(Current()), old(buffer[..bufferSize]) + old(input[..length]))
      ensures buffer[..bufferSize] == Leftover(old(buffer[..bufferSize]) + old(input[..length]))
    {
      hide Process, Stripes, Leftover;
      ghost var data := input[..length];
      ghost var was, kept := Current(), buffer[..bufferSize];
      var at := 0;
      if bufferSize > 0 {
        FirstStripe(was, kept, data, 32 - bufferSize);
        at := Fill(input, length);
        assert input[..at] == data[..at];
      } else {
        assert kept + data == data[0..];
      }
      assert input[at..length] == data[at..];
      AddStripes(input, at, length);
    }

    /** Few bytes: they only join the buffer. */
    method Keep(input: array<bv8>, length: nat)
      requires buffer.Length == 32 && bufferSize + length < 32 && length <= input.Length && input != buffer
      modifies this`bufferSize, buffer
      ensures bufferSize == old(bufferSize) + length
      ensures buffer[..bufferSize] == old(buffer[..bufferSize]) + input[..length]
    {
      ghost var start := bufferSize;
      var i := 0;
      while i < length
        invariant i <= length && bufferSize == start + i
        invariant buffer[..bufferSize] == old(buffer[..bufferSize]) + input[..i]
      {
        buffer[bufferSize] := input[i];
        bufferSize := bufferSize + 1;
        i := i + 1;
      }
    }

    /** Fills the buffer up and processes it. */
    method Fill(input: array<bv8>, length: nat) returns (at: nat)
      requires state.Length == 4 && buffer.Length == 32 && 0 < bufferSize < 32 <= bufferSize + length
      requires length <= input.Length && input != buffer
      modifies this`bufferSize, state, buffer
      ensures at == 32 - old(bufferSize)
      ensures Current() == Process(old(Current()), old(buffer[..bufferSize]) + input[..at])
    {
      hide Process;
      at := 0;
      while bufferSize < 32
        invariant bufferSize == old(bufferSize) + at <= 32 && at <= length && Current() == old(Current())
        invariant buffer[..bufferSize] == old(buffer[..bufferSize]) + input[..at]
      {
        buffer[bufferSize] := input[at];
        bufferSize := bufferSize + 1;
        at := at + 1;
      }
      assert buffer[0..0 + 32] == buffer[..bufferSize];
      var s0, s1, s2, s3 := ProcessBlock(buffer, 0, state[0], state[1], state[2], state[3]);
      state[0], state[1], state[2], state[3] := s0, s1, s2, s3;
    }

    /** Whole stripes of the input, then the remainder into the buffer. */
    method AddStripes(input: array<bv8>, from: nat, length: nat)
      requires state.Length == 4 && buffer.Length == 32 && from <= length <= input.Length && input != buffer
      modifies this`bufferSize, state, buffer
      ensures bufferSize < 32
      ensures Current() == Stripes(old(Current()), input[from..length])
      ensures buffer[..bufferSize] == Leftover(input[from..length])
    {
      hide Process, Stripes, Leftover;
      var s0, s1, s2, s3 := state[0], state[1], state[2], state[3];
      var at := from;
      while at <= length - 32
        invariant from <= at <= length
        invariant Stripes(Accumulators(s0, s1, s2, s3), input[at..length])
                  == Stripes(old(Current()), input[from..length])
        invariant Leftover(input[at..length]) == Leftover(input[from..length])
      {
        OneStripe(Accumulators(s0, s1, s2, s3), input[at..length]);
        assert input[at..length][..32] == input[at..at + 32] && input[at..length][32..] == input[at + 32..length];
        s0, s1, s2, s3 := ProcessBlock(input, at, s0, s1, s2, s3);
        at := at + 32;
      }
      NoStripe(Accumulators(s0, s1, s2, s3), input[at..length]);
      state[0], state[1], state[2], state[3] := s0, s1, s2, s3;
      bufferSize := length - at;
      var i := 0;
      while i < bufferSize
        invariant i <= bufferSize && bufferSize == length - at < 32 && Current() == Accumulators(s0, s1, s2, s3)
        invariant buffer[..i] == input[at..at + i]
      {
        buffer[i] := input[at + i];
        i := i + 1;
      }
    }

    /** `hash`: the hash of everything added so far; adding may go on afterwards. */
    method Hash() returns (result: bv64)
      requires Valid()
      ensures result == XXH64(seed, message)
    {
      hide Converge, Avalanche, AddLength, Eat8, Eat4, Eat1, Stripes, EatBytes, EatRest, Leftover, Load64, Load32;
      if totalLength >= 32 {
        result := Converge(Accumulators(state[0], state[1], state[2], state[3]));
      } else {
        NoStripe(Start(seed), message);
        result := ShortStart(state[2]);
      }
      result := AddLength(result, totalLength);
      result := Remaining(result);
      result := Avalanche(result);
    }

    /** The bytes in the buffer. */
    method Remaining(start: bv64) returns (result: bv64)
      requires buffer.Length == 32 && bufferSize <= 32
      ensures result == EatRest(start, buffer[..bufferSize])
    {
      hide Eat8, Eat4, Eat1, Load64, Load32;
      result := start;
      var data := 0;
      while data + 8 <= bufferSize
        invariant data <= bufferSize
        invariant EatRest(result, buffer[data..bufferSize]) == EatRest(start, buffer[..bufferSize])
      {
        ghost var rest := buffer[data..bufferSize];
        assert rest[..8] == buffer[data..data + 8] && rest[8..] == buffer[data + 8..bufferSize];
        result := Eat8(result, Load64(buffer[data..data + 8]));
        data := data + 8;
      }
      if data + 4 <= bufferSize {
        ghost var rest := buffer[data..bufferSize];
        assert rest[..4] == buffer[data..data + 4] && rest[4..] == buffer[data + 4..bufferSize];
        result := Eat4(result, Load32(buffer[data..data + 4]));
        data := data + 4;
      }
      while data != bufferSize
        invariant data <= bufferSize
        invariant EatBytes(result, buffer[data..bufferSize]) == EatRest(start, buffer[..bufferSize])
      {
        ghost var rest := buffer[data..bufferSize];
        assert rest[0] == buffer[data] && rest[1..] == buffer[data + 1..bufferSize];
        result := Eat1(result, buffer[data]);
        data := data + 1;
      }
    }
  }

  lemma FirstStripe(a: Accumulators, kept: seq<bv8>, data: seq<bv8>, at: nat)
    requires |kept| + at == 32 && at <= |data|
    ensures Stripes(a, kept + data) == Stripes(Process(a, kept + data[..at]), data[at..])
    ensures Leftover(kept + data) == Leftover(data[at..])
  {
    hide Process, Stripes, Leftover;
    OneStripe(a, kept + data);
    assert (kept + data)[..32] == kept + data[..at] && (kept + data)[32..] == data[at..];
  }

  /** `hash` in one call. */
  method HashOnce(input: array?<bv8>, length: nat, seed: bv64) returns (result: bv64)
    requires (input != null ==> length <= input.Length) && length < 0x1_0000_0000_0000_0000
    ensures result == XXH64(seed, if input == null then [] else input[..length])
  {
    hide XXH64, Tied;
    var hasher := new XXHash64(seed);
    var ok := hasher.Add(input, length);
    assert input != null ==> [] + input[..length] == input[..length];
    result := hasher.Hash();
  }

  function Concat(pieces: seq<seq<bv8>>): seq<bv8>
    decreases |pieces|
  {
    if pieces == [] then [] else Concat(pieces[..|pieces| - 1]) + pieces[|pieces| - 1]
  }

  lemma {:induction false} ConcatPrefix(pieces: seq<seq<bv8>>, i: nat)
    requires i <= |pieces|
    ensures |Concat(pieces[..i])| <= |Concat(pieces)|
    ensures i < |pieces| ==> Concat(pieces[..i + 1]) == Concat(pieces[..i]) + pieces[i]
    decreases |pieces| - i
  {
    if i < |pieces| {
      assert pieces[..i + 1][..i] == pieces[..i];
      ConcatPrefix(pieces, i + 1);
    } else {
      assert pieces[..i] == pieces;
    }
  }

  method AddPiece(hasher: XXHash64, piece: seq<bv8>)
    requires hasher.Valid() && |hasher.message| + |piece| < 0x1_0000_0000_0000_0000
    modifies hasher, hasher.state, hasher.buffer
    ensures hasher.Valid() && hasher.message == old(hasher.message) + piece
  {
    hide Tied;
    var input := new bv8[|piece|](k requires 0 <= k < |piece| => piece[k]);
    assert input[..|piece|] == piece;
    var ok := hasher.Add(input, |piece|);
    assert !ok ==> hasher.message + piece == hasher.message;
  }

  /** A message added in pieces, empty ones included, has the hash of the whole. */
  method HashPieces(pieces: seq<seq<bv8>>, seed: bv64) returns (result: bv64)
    requires |Concat(pieces)| < 0x1_0000_0000_0000_0000
    ensures result == XXH64(seed, Concat(pieces))
  {
    hide XXH64, Tied, Concat;
    var hasher := new XXHash64(seed);
    NoPieces();
    assert pieces[..0] == [];
    var i := 0;
    while i < |pieces|
      invariant i <= |pieces| && hasher.Valid() && hasher.seed == seed && hasher.message == Concat(pieces[..i])
      invariant fresh(hasher) && fresh(hasher.state) && fresh(hasher.buffer)
    {
      ConcatPrefix(pieces, i);
      ConcatPrefix(pieces, i + 1);
      AddPiece(hasher, pieces[i]);
      i := i + 1;
    }
    assert pieces[..i] == pieces;
    result := hasher.Hash();
  }

  lemma NoPieces()
    ensures Concat([]) == []
  {
  }
}
