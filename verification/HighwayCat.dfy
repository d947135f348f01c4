/** One-shot hashing with either implementation, and incremental hashing of a
    series of fragments. */
module HighwayCat {
  import opened HighwayLanes
  import opened HighwayPortable
  import opened HighwaySse41

  datatype Results = Results(h64: bv64, h128: (bv64, bv64), h256: (bv64, bv64, bv64, bv64))

  /** The 64-, 128- and 256-bit results for a key and a byte string. */
  function HighwayHash(key: Lanes, bytes: seq<bv8>): Results {
    var s := Absorb(key, bytes);
    Results(Final64(s), Final128(s), Final256(s))
  }

  /** One more whole packet after a whole number of packets. */
  lemma AbsorbOne(s: HHState, bytes: seq<bv8>, n: nat)
    requires n % 32 == 0 && n + 32 <= |bytes|
    ensures AbsorbPackets(s, bytes[..n + 32]) == Mix(AbsorbPackets(s, bytes[..n]), LanesOf(bytes[n..n + 32]))
  {
    hide Mix, LanesOf;
    var p := bytes[n..n + 32];
    assert bytes[..n + 32] == bytes[..n] + p;
    AbsorbJoin(s, bytes[..n], p);
    assert p[..32] == p && p[32..] == [];
  }

  /** Bytes after the last whole packet are not absorbed yet. */
  lemma AbsorbTail(s: HHState, bytes: seq<bv8>, n: nat)
    requires n % 32 == 0 && n <= |bytes| < n + 32
    ensures AbsorbPackets(s, bytes) == AbsorbPackets(s, bytes[..n])
  {
    assert bytes == bytes[..n] + bytes[n..];
    AbsorbJoin(s, bytes[..n], bytes[n..]);
  }

  lemma AbsorbNone(s: HHState)
    ensures AbsorbPackets(s, []) == s
  {
  }

  /** The implementations that a hasher can be compiled for. */
  datatype Target = Portable | SSE41

  /** `HHStateT`: the state of the target's implementation. */
  datatype HHStateT = PortableState(portable: HHStatePortable) | SSE41State(sse41: HHStateSSE41) {

    ghost function Repr(): set<object> {
      match this
      case PortableState(p) => {p.v0, p.v1, p.mul0, p.mul1}
      case SSE41State(q) => {q}
    }

    ghost predicate Valid() { PortableState? ==> portable.Valid() }

    ghost predicate Is(target: Target) { PortableState? <==> target == Portable }

    ghost function View(): HHState
      requires Valid()
      reads Repr()
    {
      match this
      case PortableState(p) => p.View()
      case SSE41State(q) => q.View()
    }

    static method New(target: Target, key: Lanes) returns (s: HHStateT)
      ensures s.Valid() && s.Is(target) && fresh(s.Repr()) && s.View() == Start(key)
    {
      if target == Portable {
        var p := new HHStatePortable(key);
        s := PortableState(p);
      } else {
        var q := new HHStateSSE41(key);
        s := SSE41State(q);
      }
    }

    /** The assignment of a state to a local one. */
    method Copy() returns (s: HHStateT)
      requires Valid()
      ensures s.Valid() && s.PortableState? == PortableState? && fresh(s.Repr()) && s.View() == View()
    {
      if PortableState? {
        var p := new HHStatePortable.From(portable);
        s := PortableState(p);
      } else {
        var q := new HHStateSSE41.From(sse41);
        s := SSE41State(q);
      }
    }

    method Reset(key: Lanes)
      requires Valid()
      modifies Repr()
      ensures View() == Start(key)
    {
      match this {
        case PortableState(p) => p.Reset(key);
        case SSE41State(q) => q.Reset(key);
      }
    }

    method Update(packet: seq<bv8>)
      requires Valid() && |packet| == 32
      modifies Repr()
      ensures View() == Mix(old(View()), LanesOf(packet))
    {
      hide Mix, LanesOf;
      match this {
        case PortableState(p) => p.Update(packet);
        case SSE41State(q) => q.Update(packet);
      }
    }

    method UpdateRemainder(bytes: seq<bv8>, sizeMod32: nat)
      requires Valid() && 0 < sizeMod32 < 32 && sizeMod32 <= |bytes|
      modifies Repr()
      ensures View() == AbsorbRemainder(old(View()), bytes[..sizeMod32])
    {
      hide AbsorbRemainder;
      match this {
        case PortableState(p) => p.UpdateRemainder(bytes, sizeMod32);
        case SSE41State(q) => q.UpdateRemainder(bytes, sizeMod32);
      }
    }

    /** A packet from the buffer, which is only read, and new bytes. */
    method AppendAndUpdate(from: seq<bv8>, n: nat, buffer: array<bv8>, valid: nat)
      requires Valid() && n <= |from| && buffer.Length == 32 && valid + n == 32
      modifies Repr()
      ensures View() == Mix(old(View()), LanesOf(old(buffer[..valid]) + from[..n]))
    {
      hide Mix, LanesOf, View;
      var tmp := new bv8[32];
      CopyPartial(buffer[..], valid, tmp, 0);
      CopyPartial(from, n, tmp, valid);
      assert tmp[..] == buffer[..valid] + from[..n];
      Update(tmp[..]);
    }

    method Finalize64() returns (result: bv64)
      requires Valid()
      modifies Repr()
      ensures result == Final64(old(View()))
    {
      hide Final64;
      match this {
        case PortableState(p) => result := p.Finalize64();
        case SSE41State(q) => result := q.Finalize64();
      }
    }

    method Finalize128() returns (result: (bv64, bv64))
      requires Valid()
      modifies Repr()
      ensures result == Final128(old(View()))
    {
      hide Final128;
      match this {
        case PortableState(p) => result := p.Finalize128();
        case SSE41State(q) => result := q.Finalize128();
      }
    }

    method Finalize256() returns (result: (bv64, bv64, bv64, bv64))
      requires Valid()
      modifies Repr()
      ensures result == Final256(old(View()))
    {
      hide Final256;
      match this {
        case PortableState(p) => result := p.Finalize256();
        case SSE41State(q) => result := q.Finalize256();
      }
    }
  }

  /** `HighwayHashT` up to finalization, on a state that has just been given a key. */
  method AbsorbBytes(state: HHStateT, ghost key: Lanes, bytes: seq<bv8>)
    requires state.Valid() && state.View() == Start(key)
    modifies state.Repr()
    ensures state.View() == Absorb(key, bytes)
  {
    hide Mix, LanesOf, AbsorbRemainder, Start, AbsorbPackets, HHStateT.View, HHStateT.Repr;
    AbsorbNone(Start(key));
    assert bytes[..0] == [];
    var remainder := |bytes| % 32;
    var truncated := |bytes| - remainder;
    var offset := 0;
    while offset < truncated
      invariant offset % 32 == 0 && 0 <= offset <= truncated
      invariant state.View() == AbsorbPackets(Start(key), bytes[..offset])
      decreases truncated - offset
    {
      AbsorbOne(Start(key), bytes, offset);
      state.Update(bytes[offset..offset + 32]);
      offset := offset + 32;
    }
    AbsorbTail(Start(key), bytes, truncated);
    if remainder != 0 {
      state.UpdateRemainder(bytes[truncated..], remainder);
      assert bytes[truncated..][..remainder] == bytes[|bytes| - remainder..];
    }
  }

  /** Hashing with one implementation: the results are those of the definition, for
      every key and string, and so the same for both targets. */
  method HashOnce(target: Target, key: Lanes, bytes: seq<bv8>) returns (result: Results)
    ensures result == HighwayHash(key, bytes)
  {
    hide Absorb, Final64, Final128, Final256, Start;
    var state := HHStateT.New(target, key);
    AbsorbBytes(state, key, bytes);
    var h64 := state.Finalize64();
    state := HHStateT.New(target, key);
    AbsorbBytes(state, key, bytes);
    var h128 := state.Finalize128();
    state := HHStateT.New(target, key);
    AbsorbBytes(state, key, bytes);
    var h256 := state.Finalize256();
    result := Results(h64, h128, h256);
  }

  /** Both implementations give the same three results for every key and string. */
  method HashBoth(key: Lanes, bytes: seq<bv8>) returns (portable: Results, sse41: Results)
    ensures portable == sse41 == HighwayHash(key, bytes)
  {
    portable := HashOnce(Portable, key, bytes);
    sse41 := HashOnce(SSE41, key, bytes);
  }

  lemma RestSize(n: nat, k: nat)
    requires n % 32 == 0 && k < 32
    ensures (n + k) % 32 == k
  {
  }

  /** A packet that begins in the buffer and ends in the new bytes. */
  lemma PacketAcross(a: seq<bv8>, b: seq<bv8>, n: nat)
    requires n <= |a| && n <= 32 <= n + |b|
    ensures a[|a| - n..] + b[..32 - n] == (a + b)[|a| - n..|a| - n + 32]
  {
    var l, r := a[|a| - n..] + b[..32 - n], (a + b)[|a| - n..|a| - n + 32];
    forall k | 0 <= k < 32 ensures l[k] == r[k] {
    }
  }

  /** The state has taken the whole packets of what was appended, the buffer starts with
      the rest; what else is in the buffer is left from before. */
  ghost predicate Holds(view: HHState, buffer: seq<bv8>, usage: nat, key: Lanes, absorbed: seq<bv8>) {
    && usage == |absorbed| % 32 && |buffer| == 32
    && view == AbsorbPackets(Start(key), absorbed)
    && buffer[..usage] == absorbed[|absorbed| - usage..]
  }

  lemma HoldsNothing(key: Lanes, buffer: seq<bv8>)
    requires |buffer| == 32
    ensures Holds(Start(key), buffer, 0, key, [])
  {
    hide Start, AbsorbPackets;
    AbsorbNone(Start(key));
  }

  /** A few more bytes behind those in the buffer. */
  lemma HoldsMore(view: HHState, buffer: seq<bv8>, usage: nat, key: Lanes, absorbed: seq<bv8>,
                  buffer': seq<bv8>, bytes: seq<bv8>)
    requires Holds(view, buffer, usage, key, absorbed) && usage + |bytes| < 32
    requires |buffer'| == 32 && buffer'[..usage + |bytes|] == buffer[..usage] + bytes
    ensures Holds(view, buffer', usage + |bytes|, key, absorbed + bytes)
  {
    hide Start, AbsorbPackets;
    var total, whole := absorbed + bytes, |absorbed| - usage;
    AbsorbTail(Start(key), absorbed, whole);
    AbsorbTail(Start(key), total, whole);
    assert total[..whole] == absorbed[..whole];
    RestSize(whole, usage + |bytes|);
  }

  /** All whole packets taken, and the rest at the front of the buffer. */
  lemma HoldsRest(view: HHState, buffer: seq<bv8>, key: Lanes, total: seq<bv8>, n: nat)
    requires n % 32 == 0 && n <= |total| < n + 32 && view == AbsorbPackets(Start(key), total[..n])
    requires |buffer| == 32 && buffer[..|total| - n] == total[n..]
    ensures Holds(view, buffer, |total| - n, key, total)
  {
    hide Start, AbsorbPackets;
    AbsorbTail(Start(key), total, n);
    RestSize(n, |total| - n);
  }

  /** Only the rest counts at the end, whatever is behind it in the buffer. */
  lemma HoldsAll(view: HHState, buffer: seq<bv8>, usage: nat, key: Lanes, absorbed: seq<bv8>)
    requires Holds(view, buffer, usage, key, absorbed)
    ensures Absorb(key, absorbed) == if usage == 0 then view else AbsorbRemainder(view, buffer[..usage])
  {
    hide Start, AbsorbPackets, AbsorbRemainder;
  }

  class HighwayHashCat {
    const buffer: array<bv8>
    var state: HHStateT
    var bufferUsage: nat
    ghost const target: Target
    ghost var key: Lanes
    ghost var absorbed: seq<bv8>

    ghost function Repr(): set<object>
      reads this
    {
      {this, buffer} + state.Repr()
    }

    ghost predicate Valid()
      reads Repr()
    {
      && buffer.Length == 32 && bufferUsage < 32
      && {this, buffer} !! state.Repr() && state.Valid() && state.Is(target)
      && Holds(state.View(), buffer[..], bufferUsage, key, absorbed)
    }

    constructor (target: Target, key: Lanes)
      ensures Valid() && fresh(Repr()) && this.target == target && this.key == key && absorbed == []
    {
      hide Start, Holds, HHStateT.View;
      buffer := new bv8[32](_ => 0);
      var start := HHStateT.New(target, key);
      state := start;
      bufferUsage := 0;
      this.target := target;
      this.key := key;
      absorbed := [];
      new;
      HoldsNothing(key, buffer[..]);
    }

    /** The buffer keeps its stale bytes. */
    method Reset(key: Lanes)
      requires Valid()
      modifies Repr()
      ensures Valid() && state == old(state) && buffer[..] == old(buffer[..])
      ensures this.key == key && absorbed == []
    {
      hide Start, Holds, HHStateT.View, HHStateT.Repr;
      state.Reset(key);
      bufferUsage := 0;
      this.key := key;
      absorbed := [];
      HoldsNothing(key, buffer[..]);
    }

    method Append(bytes: seq<bv8>)
      requires Valid()
      modifies this, buffer
      ensures Valid() && fresh(state.Repr() - old(state.Repr()))
      ensures key == old(key) && absorbed == old(absorbed) + bytes
    {
      hide Holds, HHStateT.View, HHStateT.Repr;
      var capacity := 32 - bufferUsage;
      if |bytes| < capacity {
        AppendSmall(bytes);
      } else {
        AppendLarge(bytes, capacity);
      }
    }

    /** New bytes that fill the buffer: flush it, take whole packets, keep the rest. */
    method AppendLarge(bytes: seq<bv8>, capacity: nat)
      requires Valid() && capacity == 32 - bufferUsage <= |bytes|
      modifies this, buffer
      ensures Valid() && fresh(state.Repr())
      ensures key == old(key) && absorbed == old(absorbed) + bytes
    {
      hide Holds, Start, AbsorbPackets, HHStateT.View;
      ghost var total := absorbed + bytes;
      var stateCopy := state.Copy();
      var at := FlushBuffer(stateCopy, bytes, capacity);
      at := UpdatePackets(stateCopy, bytes, at, Start(key), absorbed);
      assert total[|absorbed| + at..] == bytes[at..];
      state := stateCopy;
      StoreRest(bytes, at);
      HoldsRest(state.View(), buffer[..], key, total, |absorbed| + at);
      absorbed := total;
    }

    /** Prior bytes in the buffer and enough new ones make a packet. */
    method FlushBuffer(stateCopy: HHStateT, bytes: seq<bv8>, capacity: nat) returns (at: nat)
      requires Valid() && capacity == 32 - bufferUsage <= |bytes|
      requires stateCopy.Valid() && stateCopy.Repr() !! Repr() && stateCopy.View() == state.View()
      modifies stateCopy.Repr()
      ensures at <= |bytes| && (|absorbed| + at) % 32 == 0
      ensures stateCopy.View() == AbsorbPackets(Start(key), (absorbed + bytes)[..|absorbed| + at])
    {
      hide Mix, LanesOf, Start, AbsorbPackets, HHStateT.View;
      ghost var total, whole := absorbed + bytes, |absorbed| - bufferUsage;
      AbsorbTail(Start(key), absorbed, whole);
      assert total[..whole] == absorbed[..whole];
      at := 0;
      if bufferUsage != 0 {
        stateCopy.AppendAndUpdate(bytes, capacity, buffer, bufferUsage);
        PacketAcross(absorbed, bytes, bufferUsage);
        AbsorbOne(Start(key), total, whole);
        at := capacity;
      } else {
        assert total[..|absorbed|] == absorbed;
      }
    }

    /** What is left of the new bytes goes to the front of the buffer. */
    method StoreRest(bytes: seq<bv8>, at: nat)
      requires buffer.Length == 32 && at <= |bytes| < at + 32
      modifies this`bufferUsage, buffer
      ensures bufferUsage == |bytes| - at && buffer[..bufferUsage] == bytes[at..]
    {
      bufferUsage := |bytes| - at;
      if bufferUsage != 0 {
        CopyPartial(bytes[at..], bufferUsage, buffer, 0);
      }
    }

    /** New bytes that fit in the buffer and do not fill it. */
    method AppendSmall(bytes: seq<bv8>)
      requires Valid() && bufferUsage + |bytes| < 32
      modifies this, buffer
      ensures Valid() && state == old(state)
      ensures key == old(key) && absorbed == old(absorbed) + bytes
    {
      hide Holds, HHStateT.View;
      ghost var before := buffer[..];
      AppendPartial(bytes, |bytes|, bufferUsage);
      HoldsMore(state.View(), before, bufferUsage, key, absorbed, buffer[..], bytes);
      bufferUsage := bufferUsage + |bytes|;
      absorbed := absorbed + bytes;
    }

    /** The loop of `Append` over whole packets of the new bytes, from `at` on. */
    static method UpdatePackets(stateCopy: HHStateT, bytes: seq<bv8>, at0: nat,
                                ghost start: HHState, ghost before: seq<bv8>) returns (at: nat)
      requires stateCopy.Valid() && at0 <= |bytes| && (|before| + at0) % 32 == 0
      requires stateCopy.View() == AbsorbPackets(start, (before + bytes)[..|before| + at0])
      modifies stateCopy.Repr()
      ensures at <= |bytes| < at + 32 && (|before| + at) % 32 == 0
      ensures stateCopy.View() == AbsorbPackets(start, (before + bytes)[..|before| + at])
    {
      hide Mix, LanesOf, AbsorbPackets, HHStateT.View;
      at := at0;
      while |bytes| - at >= 32
        invariant at <= |bytes| && (|before| + at) % 32 == 0
        invariant stateCopy.View() == AbsorbPackets(start, (before + bytes)[..|before| + at])
        decreases |bytes| - at
      {
        AbsorbOne(start, before + bytes, |before| + at);
        assert (before + bytes)[|before| + at..|before| + at + 32] == bytes[at..at + 32];
        stateCopy.Update(bytes[at..at + 32]);
        at := at + 32;
      }
    }

    /** `AppendPartial`. */
    method AppendPartial(from: seq<bv8>, n: nat, valid: nat)
      requires n <= |from| && buffer.Length == 32 && valid + n <= 32
      modifies buffer
      ensures buffer[..][..valid + n] == old(buffer[..])[..valid] + from[..n]
    {
      CopyPartial(from, n, buffer, valid);
    }

    /** The state to be finalized: a copy that has taken the rest, from the whole
        buffer, of which only the first bytes are the rest. */
    method FinalState() returns (stateCopy: HHStateT)
      requires Valid()
      ensures stateCopy.Valid() && fresh(stateCopy.Repr()) && stateCopy.View() == Absorb(key, absorbed)
    {
      hide Holds, Absorb, AbsorbRemainder, HHStateT.View;
      HoldsAll(state.View(), buffer[..], bufferUsage, key, absorbed);
      stateCopy := state.Copy();
      if bufferUsage != 0 {
        stateCopy.UpdateRemainder(buffer[..], bufferUsage);
      }
    }

    /** The hash of everything appended since construction or the last Reset. */
    method Finalize() returns (result: Results)
      requires Valid()
      ensures result == HighwayHash(key, absorbed)
    {
      hide Final64, Final128, Final256, Absorb, Holds, HHStateT.View;
      var stateCopy := FinalState();
      var h64 := stateCopy.Finalize64();
      stateCopy := FinalState();
      var h128 := stateCopy.Finalize128();
      stateCopy := FinalState();
      var h256 := stateCopy.Finalize256();
      result := Results(h64, h128, h256);
    }
  }

  function Concat(fragments: seq<seq<bv8>>): seq<bv8> {
    if fragments == [] then [] else Concat(fragments[..|fragments| - 1]) + fragments[|fragments| - 1]
  }

  /** Any list of fragments, on a hasher of either target that may have been used
      before. */
  method HashFragments(hasher: HighwayHashCat, key: Lanes, fragments: seq<seq<bv8>>) returns (result: Results)
    requires hasher.Valid()
    modifies hasher.Repr()
    ensures hasher.Valid() && result == HighwayHash(key, Concat(fragments))
  {
    hide HighwayHash, Holds, HHStateT.View;
    hasher.Reset(key);
    for i := 0 to |fragments|
      invariant hasher.Valid() && fresh(hasher.state.Repr() - old(hasher.state.Repr()))
      invariant hasher.key == key && hasher.absorbed == Concat(fragments[..i])
    {
      hasher.Append(fragments[i]);
      assert fragments[..i + 1][..i] == fragments[..i];
    }
    assert fragments[..|fragments|] == fragments;
    result := hasher.Finalize();
  }

  /** Hashers of both targets, whatever the fragments, agree with each other and with
      hashing the concatenation in one go. */
  method HashFragmentsBoth(key: Lanes, fragments: seq<seq<bv8>>) returns (portable: Results, sse41: Results)
    ensures portable == sse41 == HighwayHash(key, Concat(fragments))
  {
    hide HighwayHash, Holds, HHStateT.View;
    var hasher := new HighwayHashCat(Portable, key);
    portable := HashFragments(hasher, key, fragments);
    hasher := new HighwayHashCat(SSE41, key);
    sse41 := HashFragments(hasher, key, fragments);
  }
}
