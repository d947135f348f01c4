/** Merging accumulators whose zones have the same name: several offsets may lead to
    equal strings. */
module ProfilerMerge {
  import opened ProfilerList

  ghost function Having(name: nat -> string, s: string): nat -> bool { (o: nat) => name(o) == s }

  ghost function CallsNamed(zones: seq<Accumulator>, name: nat -> string, s: string): nat {
    Calls(zones, Having(name, s))
  }

  ghost function TimeNamed(zones: seq<Accumulator>, name: nat -> string, s: string): nat {
    Time(zones, Having(name, s))
  }

  /** The same calls and times under every name. */
  ghost predicate SameByName(a: seq<Accumulator>, b: seq<Accumulator>, name: nat -> string) {
    forall s ::
      CallsNamed(a, name, s) == CallsNamed(b, name, s) && SameWord(TimeNamed(a, name, s), TimeNamed(b, name, s))
  }

  ghost predicate CountsFit(zones: seq<Accumulator>, name: nat -> string) {
    forall s :: CallsNamed(zones, name, s) < LOW_PART
  }

  ghost predicate NamesDiffer(zones: seq<Accumulator>, name: nat -> string, i: nat) {
    forall a, b :: 0 <= a < b < |zones| && a < i ==> name(zones[a].Offset()) != name(zones[b].Offset())
  }

  function Merged(x: Accumulator, y: Accumulator): Accumulator {
    Accumulator(Pack(x.Offset(), x.NumCalls() + y.NumCalls()), (x.total + y.total) % 0x1_0000_0000_0000_0000)
  }

  /** y's entry goes into x's, and the last entry takes its place. */
  function MergedAt(zones: seq<Accumulator>, i: nat, j: nat): seq<Accumulator>
    requires i < j < |zones|
  {
    zones[i := Merged(zones[i], zones[j])][j := zones[|zones| - 1]][..|zones| - 1]
  }

  ghost function CallsIn(z: Accumulator, chosen: nat -> bool): nat { if chosen(z.Offset()) then z.NumCalls() else 0 }

  ghost function TimeIn(z: Accumulator, chosen: nat -> bool): nat { if chosen(z.Offset()) then z.total else 0 }

  lemma SumsSplit(zones: seq<Accumulator>, i: nat, chosen: nat -> bool)
    requires i < |zones|
    ensures Calls(zones, chosen)
            == Calls(zones[..i], chosen) + CallsIn(zones[i], chosen) + Calls(zones[i + 1..], chosen)
    ensures Time(zones, chosen) == Time(zones[..i], chosen) + TimeIn(zones[i], chosen) + Time(zones[i + 1..], chosen)
  {
    assert zones == zones[..i] + [zones[i]] + zones[i + 1..];
    SumsJoin(zones[..i] + [zones[i]], zones[i + 1..], chosen);
    SumsJoin(zones[..i], [zones[i]], chosen);
    SumsOfOne(zones[i], chosen);
  }

  lemma SumsOfUpdate(zones: seq<Accumulator>, i: nat, z: Accumulator, chosen: nat -> bool)
    requires i < |zones|
    ensures Calls(zones[i := z], chosen) == Calls(zones, chosen) - CallsIn(zones[i], chosen) + CallsIn(z, chosen)
    ensures Time(zones[i := z], chosen) == Time(zones, chosen) - TimeIn(zones[i], chosen) + TimeIn(z, chosen)
  {
    SumsSplit(zones, i, chosen);
    SumsSplit(zones[i := z], i, chosen);
    assert zones[i := z][..i] == zones[..i] && zones[i := z][i + 1..] == zones[i + 1..];
  }

  lemma SumsOfNone(chosen: nat -> bool)
    ensures Calls([], chosen) == 0 && Time([], chosen) == 0
  {
  }

  lemma SumsOfMerge(zones: seq<Accumulator>, i: nat, j: nat, chosen: nat -> bool)
    requires i < j < |zones|
    ensures Calls(MergedAt(zones, i, j), chosen) + CallsIn(zones[i], chosen) + CallsIn(zones[j], chosen)
            == Calls(zones, chosen) + CallsIn(Merged(zones[i], zones[j]), chosen)
    ensures Time(MergedAt(zones, i, j), chosen) + TimeIn(zones[i], chosen) + TimeIn(zones[j], chosen)
            == Time(zones, chosen) + TimeIn(Merged(zones[i], zones[j]), chosen)
  {
    SumsOfNone(chosen);
    hide Merged, CallsIn, TimeIn, Calls, Time;
    var n := |zones| - 1;
    var a := zones[i := Merged(zones[i], zones[j])];
    var b := a[j := zones[n]];
    SumsOfUpdate(zones, i, Merged(zones[i], zones[j]), chosen);
    SumsOfUpdate(a, j, zones[n], chosen);
    SumsSplit(b, n, chosen);
    assert a[j] == zones[j] && b[n] == zones[n] && b[n + 1..] == [] && MergedAt(zones, i, j) == b[..n];
  }

  /** Two entries of one name hold no more than what is recorded under it. */
  lemma PairFits(zones: seq<Accumulator>, i: nat, j: nat, name: nat -> string)
    requires i < j < |zones| && name(zones[i].Offset()) == name(zones[j].Offset())
    ensures zones[i].NumCalls() + zones[j].NumCalls() <= CallsNamed(zones, name, name(zones[i].Offset()))
  {
    var chosen := Having(name, name(zones[i].Offset()));
    SumsSplit(zones, i, chosen);
    SumsSplit(zones[i + 1..], j - i - 1, chosen);
  }

  /** Merging an entry into an earlier one of the same name keeps all sums by name. */
  lemma MergeKeeps(zones: seq<Accumulator>, i: nat, j: nat, name: nat -> string)
    requires i < j < |zones| && name(zones[i].Offset()) == name(zones[j].Offset())
    requires CountsFit(zones, name)
    ensures SameByName(MergedAt(zones, i, j), zones, name)
    ensures Merged(zones[i], zones[j]).Offset() == zones[i].Offset()
    ensures Merged(zones[i], zones[j]).NumCalls() == zones[i].NumCalls() + zones[j].NumCalls() < LOW_PART
  {
    PairFits(zones, i, j, name);
    PackParts(zones[i].Offset(), zones[i].NumCalls() + zones[j].NumCalls());
    hide MergedAt, Calls, Time, High, Low, Pack, CountsFit;
    forall s
      ensures CallsNamed(MergedAt(zones, i, j), name, s) == CallsNamed(zones, name, s)
      ensures SameWord(TimeNamed(MergedAt(zones, i, j), name, s), TimeNamed(zones, name, s))
    {
      SumsOfMerge(zones, i, j, Having(name, s));
    }
  }

  lemma SameTrans(a: seq<Accumulator>, b: seq<Accumulator>, c: seq<Accumulator>, name: nat -> string)
    requires SameByName(a, b, name) && SameByName(b, c, name)
    ensures SameByName(a, c, name)
    ensures CountsFit(c, name) ==> CountsFit(a, name)
  {
    hide CallsNamed, TimeNamed;
  }

  /** Nothing left to merge: one entry per name is one entry per offset. */
  lemma NamesMakeDistinct(zones: seq<Accumulator>, name: nat -> string)
    requires NamesDiffer(zones, name, |zones|)
    ensures Distinct(zones)
  {
    hide High;
  }

  /** Restarting with the next entry. */
  lemma NextName(zones: seq<Accumulator>, name: nat -> string, i: nat)
    requires NamesDiffer(zones, name, i) && i < |zones|
    requires forall b :: i < b < |zones| ==> name(zones[b].Offset()) != name(zones[i].Offset())
    ensures NamesDiffer(zones, name, i + 1)
  {
    hide High;
  }

  /** What a merge does not touch. */
  lemma MergeShape(zones: seq<Accumulator>, i: nat, j: nat, name: nat -> string)
    requires i < j < |zones| && Bounded(zones) && NamesDiffer(zones, name, i)
    requires Merged(zones[i], zones[j]).Offset() == zones[i].Offset()
    ensures var next := MergedAt(zones, i, j);
            && |next| == |zones| - 1 && Bounded(next) && NamesDiffer(next, name, i)
            && next[i] == Merged(zones[i], zones[j])
            && (j < |next| ==> next[j] == zones[|zones| - 1])
            && forall k :: 0 <= k < |next| && k != i && k != j ==> next[k] == zones[k]
  {
    hide High, Merged;
    var next := MergedAt(zones, i, j);
    forall k | 0 <= k < |next| ensures next[k].Offset() < MAX_OFFSET {
      assert zones[k] in zones && zones[|zones| - 1] in zones;
    }
    forall a, b | 0 <= a < b < |next| && a < i ensures name(next[a].Offset()) != name(next[b].Offset()) {
      assert next[a] == zones[a];
      assert next[b].Offset() == zones[if b == j then |zones| - 1 else b].Offset();
    }
  }
}
