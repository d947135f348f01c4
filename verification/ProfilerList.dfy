/** The profiler's packed values and its self-organising list of accumulators. */
module ProfilerList {

  const WORD := 0x1_0000_0000_0000_0000

  // A packet and the first word of an accumulator share a layout: 25 bits of offset
  // above 39 bits of timestamp or of call count.

  const LOW_PART := 0x80_0000_0000
  const MAX_OFFSET := 0x200_0000
  const OFFSET_BIAS := 0x100_0000
  const MAX_DEPTH := 64
  const MAX_ZONES := 256

  function High(word: nat): nat { word / 0x80_0000_0000 }

  function Low(word: nat): nat { word % 0x80_0000_0000 }

  function Pack(high: nat, low: nat): nat { high * 0x80_0000_0000 + low }

  lemma PackParts(high: nat, low: nat)
    requires low < LOW_PART
    ensures High(Pack(high, low)) == high && Low(Pack(high, low)) == low
    ensures high < MAX_OFFSET ==> Pack(high, low) < WORD
  {
  }

  lemma PackAgain(word: nat)
    ensures Pack(High(word), Low(word)) == word && Low(word) < LOW_PART
  {
  }

  /** Statistics of a zone: its offset packed with its number of calls, and its time. */
  datatype Accumulator = Accumulator(packed: nat, total: nat) {
    function Offset(): nat { High(packed) }
    function NumCalls(): nat { Low(packed) }
  }

  function NewZone(offset: nat, calls: nat, duration: nat): Accumulator {
    Accumulator(Pack(offset, calls), duration)
  }

  /** 64-bit additions to both words. */
  function Bump(z: Accumulator, calls: nat, duration: nat): Accumulator {
    Accumulator((z.packed + calls) % 0x1_0000_0000_0000_0000, (z.total + duration) % 0x1_0000_0000_0000_0000)
  }

  /** Equal as 64-bit words. */
  predicate SameWord(a: int, b: int) { a % 0x1_0000_0000_0000_0000 == b % 0x1_0000_0000_0000_0000 }

  lemma SameWordAdd(a: int, x: int, y: int)
    requires x == y || SameWord(x, y)
    ensures SameWord(a + x, a + y)
  {
  }

  /** As long as the call counts fit, adding calls never reaches the offset. */
  lemma BumpParts(z: Accumulator, calls: nat, duration: nat)
    requires z.Offset() < MAX_OFFSET && z.NumCalls() + calls < LOW_PART
    ensures Bump(z, calls, duration).Offset() == z.Offset()
    ensures Bump(z, calls, duration).NumCalls() == z.NumCalls() + calls
    ensures SameWord(Bump(z, calls, duration).total, z.total + duration)
  {
    hide High, Low;
    PackAgain(z.packed);
    PackParts(z.Offset(), z.NumCalls() + calls);
    PackedSum(z.Offset(), z.NumCalls(), calls);
    hide Pack;
    WordAgain(z.total + duration);
  }

  lemma PackedSum(high: nat, low: nat, calls: nat)
    requires high < MAX_OFFSET && low + calls < LOW_PART
    ensures (Pack(high, low) + calls) % 0x1_0000_0000_0000_0000 == Pack(high, low + calls)
  {
    var word := Pack(high, low) + calls;
    assert word == Pack(high, low + calls) < 0x1_0000_0000_0000_0000;
    SmallWord(word);
  }

  lemma SmallWord(word: nat)
    requires word < 0x1_0000_0000_0000_0000
    ensures word % 0x1_0000_0000_0000_0000 == word
  {
  }

  lemma WordAgain(sum: nat)
    ensures SameWord(sum % 0x1_0000_0000_0000_0000, sum)
  {
  }

  /** The calls recorded for the chosen offsets. */
  ghost function Calls(zones: seq<Accumulator>, chosen: nat -> bool): nat {
    if zones == [] then 0
    else Calls(zones[..|zones| - 1], chosen)
         + if chosen(zones[|zones| - 1].Offset()) then zones[|zones| - 1].NumCalls() else 0
  }

  ghost function Being(offset: nat): nat -> bool { (o: nat) => o == offset }

  ghost function CallsOf(zones: seq<Accumulator>, offset: nat): nat { Calls(zones, Being(offset)) }

  /** The time recorded for the chosen offsets. */
  ghost function Time(zones: seq<Accumulator>, chosen: nat -> bool): nat {
    if zones == [] then 0
    else Time(zones[..|zones| - 1], chosen)
         + if chosen(zones[|zones| - 1].Offset()) then zones[|zones| - 1].total else 0
  }

  lemma {:induction false} SumsJoin(a: seq<Accumulator>, b: seq<Accumulator>, chosen: nat -> bool)
    ensures Calls(a + b, chosen) == Calls(a, chosen) + Calls(b, chosen)
    ensures Time(a + b, chosen) == Time(a, chosen) + Time(b, chosen)
    decreases |b|
  {
    if b == [] {
      assert a + b == a;
    } else {
      assert (a + b)[..|a + b| - 1] == a + b[..|b| - 1];
      SumsJoin(a, b[..|b| - 1], chosen);
    }
  }

  lemma SumsOfOne(z: Accumulator, chosen: nat -> bool)
    ensures Calls([z], chosen) == if chosen(z.Offset()) then z.NumCalls() else 0
    ensures Time([z], chosen) == if chosen(z.Offset()) then z.total else 0
  {
    assert [z][..0] == [];
  }

  ghost predicate Distinct(zones: seq<Accumulator>) {
    forall i, j :: 0 <= i < j < |zones| ==> zones[i].Offset() != zones[j].Offset()
  }

  predicate Bounded(zones: seq<Accumulator>) {
    forall z :: z in zones ==> z.Offset() < MAX_OFFSET
  }

  ghost function Offsets(zones: seq<Accumulator>): set<nat> { set z | z in zones :: z.Offset() }

  function Find(zones: seq<Accumulator>, offset: nat): (i: nat)
    ensures i <= |zones| && (i < |zones| ==> zones[i].Offset() == offset)
    ensures forall j :: 0 <= j < i ==> zones[j].Offset() != offset
  {
    if zones == [] || zones[0].Offset() == offset then 0 else 1 + Find(zones[1..], offset)
  }

  /** One update of the list: the entry for the offset is increased and moves one place
      towards the front; without an entry, one is appended. */
  function Updated(zones: seq<Accumulator>, offset: nat, calls: nat, duration: nat): seq<Accumulator> {
    var i := Find(zones, offset);
    if i == |zones| then zones + [NewZone(offset, calls, duration)]
    else if i == 0 then zones[0 := Bump(zones[0], calls, duration)]
    else zones[i - 1 := Bump(zones[i], calls, duration)][i := zones[i - 1]]
  }

  ghost function Before(zones: seq<Accumulator>, i: nat): seq<Accumulator>
    requires i < |zones|
  {
    if i == 0 then [] else zones[..i - 1]
  }

  ghost function Previous(zones: seq<Accumulator>, i: nat): seq<Accumulator>
    requires i < |zones|
  {
    if i == 0 then [] else [zones[i - 1]]
  }

  /** An update of an existing entry, as a rearrangement. */
  lemma UpdateShape(zones: seq<Accumulator>, offset: nat, calls: nat, duration: nat)
    requires Find(zones, offset) < |zones|
    ensures var i := Find(zones, offset);
            && zones == Before(zones, i) + Previous(zones, i) + [zones[i]] + zones[i + 1..]
            && Updated(zones, offset, calls, duration)
               == Before(zones, i) + [Bump(zones[i], calls, duration)] + Previous(zones, i) + zones[i + 1..]
  {
    hide Bump;
  }

  /** An update adds exactly its calls and its duration under its offset, and nothing
      anywhere else, whatever moved. */
  lemma UpdateAdds(zones: seq<Accumulator>, offset: nat, calls: nat, duration: nat, chosen: nat -> bool)
    requires Bounded(zones) && offset < MAX_OFFSET && calls < LOW_PART
    requires CallsOf(zones, offset) + calls < LOW_PART
    ensures var next := Updated(zones, offset, calls, duration);
            && Calls(next, chosen) == Calls(zones, chosen) + (if chosen(offset) then calls else 0)
            && SameWord(Time(next, chosen), Time(zones, chosen) + if chosen(offset) then duration else 0)
  {
    if Find(zones, offset) == |zones| {
      hide Find, High, Low, Pack, Calls, Time;
      SumsJoin(zones, [NewZone(offset, calls, duration)], chosen);
      SumsOfOne(NewZone(offset, calls, duration), chosen);
      PackParts(offset, calls);
    } else {
      hide *;
      UpdateAddsToEntry(zones, offset, calls, duration, chosen);
    }
  }

  lemma BumpFits(zones: seq<Accumulator>, offset: nat, calls: nat, duration: nat)
    requires Bounded(zones) && Find(zones, offset) < |zones|
    requires CallsOf(zones, offset) + calls < LOW_PART
    ensures var z := zones[Find(zones, offset)]; var bumped := Bump(z, calls, duration);
            && z.Offset() == bumped.Offset() == offset && z in zones
            && bumped.NumCalls() == z.NumCalls() + calls && SameWord(bumped.total, z.total + duration)
  {
    var i := Find(zones, offset);
    hide Calls, Find;
    assert zones[i] in zones;
    EntryFits(zones, i);
    BumpParts(zones[i], calls, duration);
  }

  lemma UpdateAddsToEntry(zones: seq<Accumulator>, offset: nat, calls: nat, duration: nat, chosen: nat -> bool)
    requires Bounded(zones) && Find(zones, offset) < |zones|
    requires CallsOf(zones, offset) + calls < LOW_PART
    ensures var next := Updated(zones, offset, calls, duration);
            && Calls(next, chosen) == Calls(zones, chosen) + (if chosen(offset) then calls else 0)
            && SameWord(Time(next, chosen), Time(zones, chosen) + if chosen(offset) then duration else 0)
  {
    hide *;
    var i := Find(zones, offset);
    var bumped := Bump(zones[i], calls, duration);
    BumpFits(zones, offset, calls, duration);
    UpdateShape(zones, offset, calls, duration);
    SumsOfFour(Before(zones, i), Previous(zones, i), [zones[i]], zones[i + 1..], chosen);
    SumsOfFour(Before(zones, i), [bumped], Previous(zones, i), zones[i + 1..], chosen);
    SumsOfOne(zones[i], chosen);
    SumsOfOne(bumped, chosen);
    if chosen(offset) {
      SameWordAdd(Time(zones, chosen) - zones[i].total, bumped.total, zones[i].total + duration);
    } else {
      SameWordAdd(Time(zones, chosen), 0, 0);
    }
  }

  lemma SumsOfFour(a: seq<Accumulator>, b: seq<Accumulator>, c: seq<Accumulator>, d: seq<Accumulator>,
                   chosen: nat -> bool)
    ensures Calls(a + b + c + d, chosen)
            == Calls(a, chosen) + Calls(b, chosen) + Calls(c, chosen) + Calls(d, chosen)
    ensures Time(a + b + c + d, chosen) == Time(a, chosen) + Time(b, chosen) + Time(c, chosen) + Time(d, chosen)
  {
    SumsJoin(a, b, chosen);
    SumsJoin(a + b, c, chosen);
    SumsJoin(a + b + c, d, chosen);
  }

  /** An entry holds no more calls than are recorded for its offset. */
  lemma EntryFits(zones: seq<Accumulator>, i: nat)
    requires i < |zones|
    ensures zones[i].NumCalls() <= CallsOf(zones, zones[i].Offset())
  {
    var chosen := Being(zones[i].Offset());
    assert zones == zones[..i] + [zones[i]] + zones[i + 1..];
    SumsJoin(zones[..i] + [zones[i]], zones[i + 1..], chosen);
    SumsJoin(zones[..i], [zones[i]], chosen);
    SumsOfOne(zones[i], chosen);
  }

  /** An update keeps one entry per offset, and adds no other offset than its own. */
  lemma UpdateKeepsDistinct(zones: seq<Accumulator>, offset: nat, calls: nat, duration: nat)
    requires Distinct(zones) && Bounded(zones) && offset < MAX_OFFSET
    requires CallsOf(zones, offset) + calls < LOW_PART
    ensures var next := Updated(zones, offset, calls, duration);
            Distinct(next) && Bounded(next) && Offsets(next) == Offsets(zones) + {offset}
  {
    var i := Find(zones, offset);
    if i == |zones| {
      PackParts(offset, calls);
      hide High, Low, Pack, Calls;
      AppendOffset(zones, NewZone(offset, calls, duration));
    } else {
      assert zones[i] in zones;
      EntryFits(zones, i);
      BumpParts(zones[i], calls, duration);
      hide Bump, High, Low, Pack, Calls;
      var z := Bump(zones[i], calls, duration);
      if i == 0 {
        ReplaceOffset(zones, 0, z);
      } else {
        ReplaceOffset(zones, i, z);
        SwapOffsets(zones[i := z], i);
        assert zones[i - 1 := z][i := zones[i - 1]] == Swapped(zones[i := z], i);
      }
    }
  }

  lemma AppendOffset(zones: seq<Accumulator>, z: Accumulator)
    requires Distinct(zones) && Bounded(zones) && z.Offset() < MAX_OFFSET
    requires forall k :: 0 <= k < |zones| ==> zones[k].Offset() != z.Offset()
    ensures Distinct(zones + [z]) && Bounded(zones + [z])
    ensures Offsets(zones + [z]) == Offsets(zones) + {z.Offset()}
  {
    hide High;
    assert (zones + [z])[|zones|] in zones + [z];
    forall y | y in zones ensures y in zones + [z] {
    }
  }

  lemma ReplaceOffset(zones: seq<Accumulator>, i: nat, z: Accumulator)
    requires Distinct(zones) && Bounded(zones) && i < |zones| && zones[i].Offset() == z.Offset()
    ensures Distinct(zones[i := z]) && Bounded(zones[i := z])
    ensures Offsets(zones[i := z]) == Offsets(zones) && z.Offset() in Offsets(zones)
  {
    hide High;
    var next := zones[i := z];
    assert forall k :: 0 <= k < |zones| ==> next[k].Offset() == zones[k].Offset();
    SameOffsets(zones, next);
    SameOffsets(next, zones);
    assert zones[i] in zones;
  }

  lemma SameOffsets(zones: seq<Accumulator>, next: seq<Accumulator>)
    requires |zones| == |next|
    requires forall k :: 0 <= k < |zones| ==> next[k].Offset() == zones[k].Offset()
    ensures Offsets(next) <= Offsets(zones) && (Bounded(zones) ==> Bounded(next))
  {
    hide High;
    forall z | z in next ensures z.Offset() in Offsets(zones) && (Bounded(zones) ==> z.Offset() < MAX_OFFSET) {
      var k :| 0 <= k < |next| && next[k] == z;
      assert zones[k] in zones;
    }
  }

  ghost function Swapped(zones: seq<Accumulator>, i: nat): seq<Accumulator>
    requires 0 < i < |zones|
  {
    zones[i - 1 := zones[i]][i := zones[i - 1]]
  }

  lemma SwapOffsets(zones: seq<Accumulator>, i: nat)
    requires Distinct(zones) && Bounded(zones) && 0 < i < |zones|
    ensures Distinct(Swapped(zones, i)) && Bounded(Swapped(zones, i)) && Offsets(Swapped(zones, i)) == Offsets(zones)
  {
    hide High;
    var next := Swapped(zones, i);
    forall z ensures z in next <==> z in zones {
      if z in zones {
        var k :| 0 <= k < |zones| && zones[k] == z;
        assert next[if k == i then i - 1 else if k == i - 1 then i else k] == z;
      }
    }
  }

  /** With one entry per offset, the length is the number of offsets. */
  lemma {:induction false} DistinctLength(zones: seq<Accumulator>)
    requires Distinct(zones)
    ensures |Offsets(zones)| == |zones|
  {
    if zones != [] {
      var n := |zones| - 1;
      var rest := zones[..n];
      DistinctLength(rest);
      assert zones == rest + [zones[n]];
      assert Offsets(zones) == Offsets(rest) + {zones[n].Offset()} by {
        forall z | z in zones ensures z in rest || z == zones[n] {
        }
        assert zones[n] in zones;
      }
      assert zones[n].Offset() !in Offsets(rest);
    }
  }

  lemma FindIs(zones: seq<Accumulator>, offset: nat, i: nat)
    requires i <= |zones| && (i < |zones| ==> zones[i].Offset() == offset)
    requires forall j :: 0 <= j < i ==> zones[j].Offset() != offset
    ensures Find(zones, offset) == i
  {
    hide High;
  }

  /** One entry of another list after the other. */
  function Absorbed(zones: seq<Accumulator>, others: seq<Accumulator>): seq<Accumulator>
    decreases |others|
  {
    if others == [] then zones
    else
      var z := others[|others| - 1];
      Updated(Absorbed(zones, others[..|others| - 1]), z.Offset(), z.NumCalls(), z.total)
  }

  /** The counts of two lists fit together, offset by offset. */
  ghost predicate Fits(zones: seq<Accumulator>, others: seq<Accumulator>) {
    forall offset :: CallsOf(zones, offset) + CallsOf(others, offset) < LOW_PART
  }

  lemma FitsPrefix(zones: seq<Accumulator>, others: seq<Accumulator>)
    requires Fits(zones, others) && others != []
    ensures Fits(zones, others[..|others| - 1])
    ensures var z := others[|others| - 1]; var rest := others[..|others| - 1];
            CallsOf(zones, z.Offset()) + CallsOf(rest, z.Offset()) + z.NumCalls() < LOW_PART
  {
    var z := others[|others| - 1];
    var rest := others[..|others| - 1];
    assert others == rest + [z];
    forall offset ensures CallsOf(rest, offset) <= CallsOf(others, offset) {
      SumsJoin(rest, [z], Being(offset));
    }
    SumsJoin(rest, [z], Being(z.Offset()));
    SumsOfOne(z, Being(z.Offset()));
    hide Calls;
    assert CallsOf(zones, z.Offset()) + CallsOf(others, z.Offset()) < LOW_PART;
  }

  /** Absorbing a list adds its calls and times pointwise, keeps one entry per offset,
      and unites the offsets. */
  lemma {:induction false} AbsorbAdds(zones: seq<Accumulator>, others: seq<Accumulator>, chosen: nat -> bool)
    requires Distinct(zones) && Bounded(zones) && Bounded(others) && Fits(zones, others)
    ensures var next := Absorbed(zones, others);
            && Distinct(next) && Bounded(next) && Offsets(next) == Offsets(zones) + Offsets(others)
            && Calls(next, chosen) == Calls(zones, chosen) + Calls(others, chosen)
            && SameWord(Time(next, chosen), Time(zones, chosen) + Time(others, chosen))
    decreases |others|
  {
    if others != [] {
      var n := |others| - 1;
      var z := others[n];
      var rest := others[..n];
      FitsPrefix(zones, others);
      assert others == rest + [z] && z in others;
      assert Bounded(rest);
      hide Distinct, Bounded, Fits, Updated, High, Low, SameWord;
      AbsorbAdds(zones, rest, chosen);
      AbsorbAdds(zones, rest, Being(z.Offset()));
      var between := Absorbed(zones, rest);
      assert CallsOf(between, z.Offset()) == CallsOf(zones, z.Offset()) + CallsOf(rest, z.Offset());
      AbsorbStep(zones, rest, between, z, chosen);
    }
  }

  lemma AbsorbStep(zones: seq<Accumulator>, rest: seq<Accumulator>, between: seq<Accumulator>, z: Accumulator,
                   chosen: nat -> bool)
    requires Distinct(between) && Bounded(between) && z.Offset() < MAX_OFFSET
    requires Offsets(between) == Offsets(zones) + Offsets(rest)
    requires CallsOf(between, z.Offset()) + z.NumCalls() < LOW_PART
    requires Calls(between, chosen) == Calls(zones, chosen) + Calls(rest, chosen)
    requires SameWord(Time(between, chosen), Time(zones, chosen) + Time(rest, chosen))
    ensures var next := Updated(between, z.Offset(), z.NumCalls(), z.total);
            && Distinct(next) && Bounded(next) && Offsets(next) == Offsets(zones) + Offsets(rest + [z])
            && Calls(next, chosen) == Calls(zones, chosen) + Calls(rest + [z], chosen)
            && SameWord(Time(next, chosen), Time(zones, chosen) + Time(rest + [z], chosen))
  {
    hide *;
    PackAgain(z.packed);
    UpdateAdds(between, z.Offset(), z.NumCalls(), z.total, chosen);
    UpdateKeepsDistinct(between, z.Offset(), z.NumCalls(), z.total);
    OffsetsOfJoin(rest, z);
    SumsJoin(rest, [z], chosen);
    SumsOfOne(z, chosen);
    var added := if chosen(z.Offset()) then z.total else 0;
    var next := Updated(between, z.Offset(), z.NumCalls(), z.total);
    SameWordAdd(added, Time(between, chosen), Time(zones, chosen) + Time(rest, chosen));
    SameWordTrans(Time(next, chosen), Time(between, chosen) + added,
                  Time(zones, chosen) + Time(rest, chosen) + added);
  }

  lemma SameWordTrans(a: int, b: int, c: int)
    requires SameWord(a, b) && SameWord(b, c)
    ensures SameWord(a, c)
  {
  }

  lemma OffsetsOfJoin(zones: seq<Accumulator>, z: Accumulator)
    ensures Offsets(zones + [z]) == Offsets(zones) + {z.Offset()}
  {
    hide High;
    assert (zones + [z])[|zones|] in zones + [z];
    forall y | y in zones ensures y in zones + [z] {
    }
  }
}
