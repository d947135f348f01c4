/** A thread's profile: the stack of active zones and the list of retired ones. */
module ProfilerResults {
  import opened ProfilerList
  import opened ProfilerMerge

  /** 25 bits of biased offset and 39 bits of timestamp; the bias itself marks an exit. */
  type Packet = nat

  function MakePacket(offset: nat, timestamp: nat): Packet { Pack(offset, timestamp % 0x80_0000_0000) }

  /** An active zone: its entry packet and the time of its finished children. */
  datatype Node = Node(packet: Packet, childTotal: nat)

  /** spare is the first accumulator as long as the list is empty: it has offset zero. */
  datatype Profile = Profile(stack: seq<Node>, zones: seq<Accumulator>, spare: Accumulator,
                             selfOverhead: nat, childOverhead: nat)

  const UNUSED := Accumulator(0, 0)

  function ClampedSubtract(minuend: nat, subtrahend: nat): nat {
    if subtrahend > minuend then 0 else minuend - subtrahend
  }

  /** The time between two packets, across a wrap-around of the timestamp. */
  function Elapsed(from: Packet, to: Packet): nat { (Low(to) - Low(from)) % 0x80_0000_0000 }

  function SelfTime(s: Profile, node: Node, duration: nat): nat {
    ClampedSubtract(duration, (s.selfOverhead + s.childOverhead + node.childTotal) % 0x1_0000_0000_0000_0000)
  }

  function Credit(stack: seq<Node>, time: nat): seq<Node> {
    if stack == [] then []
    else
      var top := stack[|stack| - 1];
      stack[|stack| - 1 := top.(childTotal := (top.childTotal + time) % 0x1_0000_0000_0000_0000)]
  }

  /** Retiring a zone. With an empty list, offset zero is counted in the spare
      accumulator, which the first entry replaces. */
  function Recorded(s: Profile, offset: nat, calls: nat, duration: nat): Profile {
    if s.zones == [] && offset == 0 then s.(spare := Bump(s.spare, calls, duration))
    else s.(zones := Updated(s.zones, offset, calls, duration), spare := UNUSED)
  }

  /** The effect of one packet. */
  function Step(s: Profile, p: Packet): Profile {
    if High(p) != OFFSET_BIAS then s.(stack := s.stack + [Node(p, 0)])
    else if s.stack == [] then s
    else
      var node := s.stack[|s.stack| - 1];
      var duration := Elapsed(node.packet, p);
      Recorded(s, High(node.packet), 1, SelfTime(s, node, duration))
        .(stack := Credit(s.stack[..|s.stack| - 1], duration + s.childOverhead))
  }

  /** What the assertions of the program demand of a packet. */
  ghost predicate Accepts(s: Profile, p: Packet) {
    if High(p) != OFFSET_BIAS then |s.stack| < MAX_DEPTH && High(p) < MAX_OFFSET
    else
      && s.stack != []
      && var offset := High(s.stack[|s.stack| - 1].packet);
         HasPlace(s, offset, 1)
  }

  ghost predicate HasPlace(s: Profile, offset: nat, calls: nat) {
    if s.zones == [] && offset == 0 then s.spare.NumCalls() + calls < LOW_PART
    else HasRoom(s.zones, offset, calls)
  }

  /** An update of this offset fits into the list and into the call count. */
  ghost predicate HasRoom(zones: seq<Accumulator>, offset: nat, calls: nat) {
    && (offset in Offsets(zones) || |zones| < MAX_ZONES)
    && CallsOf(zones, offset) + calls < LOW_PART
  }

  function Run(s: Profile, packets: seq<Packet>): Profile
    decreases |packets|
  {
    if packets == [] then s else Run(Step(s, packets[0]), packets[1..])
  }

  ghost predicate AcceptsAll(s: Profile, packets: seq<Packet>)
    decreases |packets|
  {
    packets == [] || (Accepts(s, packets[0]) && AcceptsAll(Step(s, packets[0]), packets[1..]))
  }

  /** A trace may be analysed in batches, cut anywhere. */
  lemma {:induction false} RunJoin(s: Profile, a: seq<Packet>, b: seq<Packet>)
    ensures Run(s, a + b) == Run(Run(s, a), b)
    ensures AcceptsAll(s, a + b) <==> AcceptsAll(s, a) && AcceptsAll(Run(s, a), b)
    decreases |a|
  {
    hide Step, Accepts;
    if a == [] {
      assert a + b == b;
    } else {
      assert (a + b)[0] == a[0] && (a + b)[1..] == a[1..] + b;
      RunJoin(Step(s, a[0]), a[1..], b);
    }
  }

  ghost predicate GoodList(zones: seq<Accumulator>) { Distinct(zones) && Bounded(zones) && |zones| <= MAX_ZONES }

  ghost predicate GoodStack(stack: seq<Node>) {
    |stack| <= MAX_DEPTH && forall node :: node in stack ==> High(node.packet) < MAX_OFFSET
  }

  lemma UpdateIsGood(zones: seq<Accumulator>, offset: nat, calls: nat, duration: nat)
    requires GoodList(zones) && HasRoom(zones, offset, calls) && offset < MAX_OFFSET
    ensures GoodList(Updated(zones, offset, calls, duration))
  {
    UpdateKeepsDistinct(zones, offset, calls, duration);
    hide Updated, Distinct, Bounded, High, CallsOf;
    var next := Updated(zones, offset, calls, duration);
    DistinctLength(zones);
    DistinctLength(next);
    if offset in Offsets(zones) { assert Offsets(zones) + {offset} == Offsets(zones); }
  }

  /** An update whose place has been found. */
  lemma UpdateAt(zones: seq<Accumulator>, i: nat, offset: nat, calls: nat, duration: nat)
    requires i <= |zones| && (i < |zones| ==> zones[i].Offset() == offset)
    requires forall j :: 0 <= j < i ==> zones[j].Offset() != offset
    ensures Updated(zones, offset, calls, duration)
            == if i == |zones| then zones + [NewZone(offset, calls, duration)]
               else if i == 0 then zones[0 := Bump(zones[0], calls, duration)]
               else zones[i - 1 := Bump(zones[i], calls, duration)][i := zones[i - 1]]
    ensures i == |zones| ==> offset !in Offsets(zones)
  {
    FindIs(zones, offset, i);
  }

  class Results {
    const nodes: array<Node>
    const zones: array<Accumulator>
    var depth: nat
    var numZones: nat
    var selfOverhead: nat
    var childOverhead: nat

    constructor ()
      ensures Valid() && View() == Profile([], [], UNUSED, 0, 0) && fresh(nodes) && fresh(zones)
    {
      nodes := new Node[MAX_DEPTH](_ => Node(0, 0));
      zones := new Accumulator[MAX_ZONES](_ => UNUSED);
      depth, numZones, selfOverhead, childOverhead := 0, 0, 0, 0;
    }

    /** The first accumulator has offset zero as long as the list is empty. */
    ghost predicate Valid()
      reads this, nodes, zones
    {
      && nodes.Length == MAX_DEPTH && zones.Length == MAX_ZONES
      && depth <= MAX_DEPTH && numZones <= MAX_ZONES
      && GoodList(Zones()) && GoodStack(nodes[..depth])
      && (numZones == 0 ==> zones[0].Offset() == 0)
    }

    ghost function Zones(): seq<Accumulator>
      requires numZones <= zones.Length
      reads this, zones
    {
      zones[..numZones]
    }

    ghost function View(): Profile
      requires Valid()
      reads this, nodes, zones
    {
      Profile(nodes[..depth], Zones(), if numZones == 0 then zones[0] else UNUSED, selfOverhead, childOverhead)
    }

    /** `UpdateOrAdd`. With an empty list, offset zero is counted in the unused first
        accumulator, and lost. */
    method UpdateOrAdd(offset: nat, calls: nat, duration: nat)
      requires Valid() && offset < MAX_OFFSET && calls < LOW_PART
      requires HasPlace(View(), offset, calls)
      modifies this`numZones, zones
      ensures Valid() && View() == Recorded(old(View()), offset, calls, duration)
    {
      hide Updated, High, Low, GoodStack, GoodList, CallsOf;
      ghost var before := Zones();
      if before != [] || offset != 0 {
        UpdateIsGood(before, offset, calls, duration);
        FirstFits(before, offset, calls);
      }
      var prev := zones[0];
      if prev.Offset() == offset {
        BumpParts(prev, calls, duration);
        if before != [] { UpdateAt(before, 0, offset, calls, duration); }
        zones[0] := Bump(prev, calls, duration);
        return;
      }
      var i := 1;
      while i < numZones
        invariant 1 <= i && (i <= numZones || numZones == 0) && zones[..] == old(zones[..]) && Zones() == before
        invariant i <= numZones ==> forall j :: 0 <= j < i ==> zones[j].Offset() != offset
        invariant i <= numZones ==> prev == zones[i - 1]
      {
        var zone := zones[i];
        if zone.Offset() == offset {
          UpdateAt(before, i, offset, calls, duration);
          assert zone == before[i] && prev == before[i - 1];
          zones[i - 1] := Bump(zone, calls, duration);
          zones[i] := prev;
          return;
        }
        prev := zone;
        i := i + 1;
      }
      UpdateAt(before, |before|, offset, calls, duration);
      zones[numZones] := NewZone(offset, calls, duration);
      numZones := numZones + 1;
      assert numZones <= MAX_ZONES;
      assert GoodStack(nodes[..depth]);
      assert Zones() == before + [NewZone(offset, calls, duration)];
      assert GoodList(Zones());
    }

    /** `AnalyzePackets`. */
    method AnalyzePackets(packets: seq<Packet>)
      requires Valid() && AcceptsAll(View(), packets)
      modifies this, nodes, zones
      ensures Valid() && View() == Run(old(View()), packets)
    {
      hide Accepts, Step;
      ghost var target := Run(View(), packets);
      var i := 0;
      assert packets[0..] == packets;
      while i < |packets|
        invariant i <= |packets| && Valid()
        invariant Run(View(), packets[i..]) == target && AcceptsAll(View(), packets[i..])
      {
        assert packets[i..][0] == packets[i] && packets[i..][1..] == packets[i + 1..];
        if High(packets[i]) != OFFSET_BIAS { Enter(packets[i]); } else { Exit(packets[i]); }
        i := i + 1;
      }
    }

    method Enter(p: Packet)
      requires Valid() && High(p) != OFFSET_BIAS && Accepts(View(), p)
      modifies this`depth, nodes
      ensures Valid() && View() == Step(old(View()), p)
    {
      hide High, GoodList;
      nodes[depth] := Node(p, 0);
      depth := depth + 1;
      assert nodes[..depth] == old(nodes[..depth]) + [Node(p, 0)];
    }

    method Exit(p: Packet)
      requires Valid() && High(p) == OFFSET_BIAS && Accepts(View(), p)
      modifies this`depth, this`numZones, nodes, zones
      ensures Valid() && View() == Step(old(View()), p)
    {
      hide High, Low, Updated, GoodList, GoodStack, HasPlace, ClampedSubtract, Bump;
      ghost var was := View();
      var node := nodes[depth - 1];
      NodeIsGood(nodes[..depth], depth - 1);
      var duration := Elapsed(node.packet, p);
      var total := (selfOverhead + childOverhead + node.childTotal) % 0x1_0000_0000_0000_0000;
      UpdateOrAdd(High(node.packet), 1, ClampedSubtract(duration, total));
      depth := depth - 1;
      assert nodes[..depth] == was.stack[..|was.stack| - 1];
      CreditIsGood(nodes[..depth + 1], duration + childOverhead);
      if depth != 0 {
        var top := nodes[depth - 1];
        nodes[depth - 1] := top.(childTotal := (top.childTotal + duration + childOverhead) % 0x1_0000_0000_0000_0000);
      }
      assert nodes[..depth] == Credit(was.stack[..|was.stack| - 1], duration + childOverhead);
    }

    /** `Assimilate`: another thread's list, once both are outside any zone. */
    method Assimilate(other: Results)
      requires Valid() && other.Valid() && zones != other.zones && depth == 0 && other.depth == 0
      requires Fits(Zones(), other.Zones()) && |Offsets(Zones()) + Offsets(other.Zones())| <= MAX_ZONES
      requires LosesFirst(View(), other.Zones()) ==>
                 zones[0].NumCalls() + other.zones[0].NumCalls() < LOW_PART
      modifies this`numZones, zones
      ensures Valid() && View() == RecordAll(old(View()), other.Zones())
    {
      hide GoodList, GoodStack, HasPlace, Fits, Updated, Low, High, Recorded;
      ghost var before, others := View(), other.Zones();
      var i := 0;
      assert others[..0] == [];
      while i < other.numZones
        invariant i <= other.numZones && Valid() && other.Zones() == others && zones != other.zones
        invariant View() == RecordAll(before, others[..i])
      {
        var zone := other.zones[i];
        RecordNext(before, others, i);
        UpdateOrAdd(zone.Offset(), zone.NumCalls(), zone.total);
        i := i + 1;
      }
      assert others[..i] == others;
    }

    /** `MergeDuplicates`: entries of one name become one entry. name gives the string
        that an offset leads to. */
    method MergeDuplicates(name: nat -> string)
      requires Valid() && CountsFit(Zones(), name)
      modifies this`numZones, zones
      ensures Valid() && SameByName(Zones(), old(Zones()), name)
      ensures NamesDiffer(Zones(), name, numZones)
    {
      hide High, Low, Pack, SameByName, CountsFit, NamesDiffer, GoodStack, Distinct, Bounded, Merged;
      ghost var before := Zones();
      var i := 0;
      StartMerge(before, name);
      while i < numZones
        invariant nodes.Length == MAX_DEPTH && zones.Length == MAX_ZONES && i <= numZones <= MAX_ZONES
        invariant numZones == 0 ==> zones[0].Offset() == 0
        invariant Bounded(Zones()) && SameByName(Zones(), before, name) && CountsFit(Zones(), name)
        invariant NamesDiffer(Zones(), name, i)
        decreases numZones - i
      {
        ghost var list := Zones();
        MergeInto(i, name);
        SameTrans(Zones(), list, before, name);
        i := i + 1;
      }
      NamesMakeDistinct(Zones(), name);
    }

    /** Merges all later entries of the name of entry i into it. */
    method MergeInto(i: nat, name: nat -> string)
      requires zones.Length == MAX_ZONES && i < numZones <= MAX_ZONES
      requires Bounded(Zones()) && CountsFit(Zones(), name) && NamesDiffer(Zones(), name, i)
      modifies this`numZones, zones
      ensures i < numZones <= old(numZones) && Bounded(Zones()) && CountsFit(Zones(), name)
      ensures SameByName(Zones(), old(Zones()), name) && NamesDiffer(Zones(), name, i + 1)
    {
      hide High, Low, Pack, SameByName, CountsFit, NamesDiffer, Bounded, Merged, MergedAt;
      ghost var before := Zones();
      var offset := zones[i].Offset();
      var calls: nat := zones[i].NumCalls();
      // The list as it will be once entry i has been packed again.
      ghost var list := before;
      StartMerge(before, name);
      PackAgain(zones[i].packed);
      var j := i + 1;
      while j < numZones
        invariant i < j <= numZones <= old(numZones)
        invariant |list| == numZones && list[i] == Accumulator(Pack(offset, calls), zones[i].total)
        invariant list[i].Offset() == offset && list[i].NumCalls() == calls
        invariant forall k :: 0 <= k < numZones && k != i ==> list[k] == zones[k]
        invariant Bounded(list) && CountsFit(list, name) && SameByName(list, before, name)
        invariant NamesDiffer(list, name, i)
        invariant forall b :: i < b < j ==> name(list[b].Offset()) != name(offset)
        decreases numZones - j
      {
        if name(offset) == name(zones[j].Offset()) {
          MergeKeeps(list, i, j, name);
          MergeShape(list, i, j, name);
          SameTrans(MergedAt(list, i, j), list, before, name);
          StartMerge(list, name);
          SameTrans(MergedAt(list, i, j), list, list, name);
          MergedIs(list[i], list[j]);
          list := MergedAt(list, i, j);
          calls := calls + zones[j].NumCalls();
          zones[i] := Accumulator(zones[i].packed, (zones[i].total + zones[j].total) % 0x1_0000_0000_0000_0000);
          numZones := numZones - 1;
          zones[j] := zones[numZones];
        } else {
          j := j + 1;
        }
      }
      zones[i] := Accumulator(Pack(offset, calls), zones[i].total);
      assert Zones() == list;
      NextName(list, name, i);
    }
  }

  lemma StartMerge(zones: seq<Accumulator>, name: nat -> string)
    ensures NamesDiffer(zones, name, 0) && SameByName(zones, zones, name)
  {
    hide CallsNamed, TimeNamed;
  }

  lemma MergedIs(x: Accumulator, y: Accumulator)
    ensures Merged(x, y) == Accumulator(Pack(x.Offset(), x.NumCalls() + y.NumCalls()),
                                        (x.total + y.total) % 0x1_0000_0000_0000_0000)
  {
  }

  lemma NodeIsGood(stack: seq<Node>, i: nat)
    requires GoodStack(stack) && i < |stack|
    ensures High(stack[i].packet) < MAX_OFFSET
  {
    assert stack[i] in stack;
  }

  lemma CreditIsGood(stack: seq<Node>, time: nat)
    requires GoodStack(stack) && stack != []
    ensures GoodStack(Credit(stack[..|stack| - 1], time))
  {
    hide High;
    var rest := stack[..|stack| - 1];
    var next := Credit(rest, time);
    forall node | node in next ensures High(node.packet) < MAX_OFFSET {
      var k :| 0 <= k < |next| && next[k] == node;
      assert node.packet == stack[k].packet && stack[k] in stack;
    }
  }

  /** What is recorded for an offset bounds the first entry's count. */
  lemma FirstFits(zones: seq<Accumulator>, offset: nat, calls: nat)
    requires HasRoom(zones, offset, calls)
    ensures zones != [] && zones[0].Offset() == offset ==> zones[0].NumCalls() + calls < LOW_PART
  {
    if zones != [] { EntryFits(zones, 0); }
  }

  /** Another list, entry by entry. */
  function RecordAll(s: Profile, others: seq<Accumulator>): Profile
    decreases |others|
  {
    if others == [] then s
    else
      var z := others[|others| - 1];
      Recorded(RecordAll(s, others[..|others| - 1]), z.Offset(), z.NumCalls(), z.total)
  }

  /** Offset zero comes first, and to an empty list. */
  predicate LosesFirst(s: Profile, others: seq<Accumulator>) {
    s.zones == [] && others != [] && others[0].Offset() == 0
  }

  /** The list afterwards: everything absorbed, but for the first entry in that case. */
  lemma {:induction false} RecordAllIs(s: Profile, others: seq<Accumulator>)
    requires Distinct(others)
    ensures RecordAll(s, others).zones
            == if LosesFirst(s, others) then Absorbed([], others[1..]) else Absorbed(s.zones, others)
    ensures others == [] ==> RecordAll(s, others).spare == s.spare
    decreases |others|
  {
    hide Updated, High, Low, Bump;
    if |others| > 1 {
      var n := |others| - 1;
      var rest := others[..n];
      assert rest[0] == others[0] && others[1..][..n - 1] == rest[1..];
      RecordAllIs(s, rest);
      assert others[n].Offset() == 0 ==> others[0].Offset() != 0;
      AbsorbedNotEmpty(s.zones, rest);
    } else if |others| == 1 {
      assert others[..0] == [] && others[1..] == [];
      assert RecordAll(s, []) == s;
    }
  }

  lemma AbsorbedNotEmpty(zones: seq<Accumulator>, others: seq<Accumulator>)
    requires others != []
    ensures Absorbed(zones, others) != []
  {
  }

  /** Nothing is lost exactly when offset zero does not come first to an empty list. */
  lemma AssimilateKeepsIff(s: Profile, others: seq<Accumulator>)
    requires GoodList(s.zones) && GoodList(others) && Fits(s.zones, others)
    ensures RecordAll(s, others).zones == Absorbed(s.zones, others) <==> !LosesFirst(s, others)
  {
    RecordAllIs(s, others);
    if LosesFirst(s, others) {
      RestIsGood(others);
      RestFits(others);
      hide Updated, High, Low, Distinct, Bounded, Fits;
      AbsorbAdds([], others, Being(0));
      AbsorbAdds([], others[1..], Being(0));
    }
  }

  lemma RestIsGood(others: seq<Accumulator>)
    requires GoodList(others) && others != []
    ensures GoodList(others[1..]) && others[0].Offset() !in Offsets(others[1..])
  {
  }

  lemma RestFits(others: seq<Accumulator>)
    requires Fits([], others) && others != []
    ensures Fits([], others[1..])
  {
    assert others == [others[0]] + others[1..];
    forall offset ensures CallsOf([], offset) + CallsOf(others[1..], offset) < LOW_PART {
      SumsJoin([others[0]], others[1..], Being(offset));
      assert CallsOf([], offset) + CallsOf(others, offset) < LOW_PART;
    }
  }

  lemma RecordNext(s: Profile, others: seq<Accumulator>, i: nat)
    requires GoodList(s.zones) && GoodList(others) && i < |others| && Fits(s.zones, others)
    requires |Offsets(s.zones) + Offsets(others)| <= MAX_ZONES
    requires LosesFirst(s, others) ==> s.spare.NumCalls() + others[0].NumCalls() < LOW_PART
    ensures var between := RecordAll(s, others[..i]); var z := others[i];
            && z.Offset() < MAX_OFFSET && z.NumCalls() < LOW_PART
            && HasPlace(between, z.Offset(), z.NumCalls())
            && RecordAll(s, others[..i + 1]) == Recorded(between, z.Offset(), z.NumCalls(), z.total)
  {
    hide Updated, High, Low, Bounded, Fits, HasRoom, Recorded;
    var z := others[i];
    assert others[..i + 1][..i] == others[..i] && others[..i + 1][i] == z;
    AbsorbNext(s.zones, others, i);
    RecordAllIs(s, others[..i]);
    if i > 0 {
      assert others[..i][0] == others[0];
      if LosesFirst(s, others) {
        RestIsGood(others);
        RestFits(others);
        assert others[..i][1..] == others[1..][..i - 1] && others[1..][i - 1] == z;
        OffsetsFit(others[1..]);
        AbsorbNext([], others[1..], i - 1);
      } else {
        AbsorbedNotEmpty(s.zones, others[..i]);
      }
    }
  }

  lemma OffsetsFit(others: seq<Accumulator>)
    requires GoodList(others)
    ensures GoodList([]) && |Offsets([]) + Offsets(others)| <= MAX_ZONES
  {
    DistinctLength(others);
    assert Offsets([]) + Offsets(others) == Offsets(others);
  }

  /** One more entry of the other list finds room. */
  lemma AbsorbNext(zones: seq<Accumulator>, others: seq<Accumulator>, i: nat)
    requires GoodList(zones) && GoodList(others) && i < |others| && Fits(zones, others)
    requires |Offsets(zones) + Offsets(others)| <= MAX_ZONES
    ensures var between := Absorbed(zones, others[..i]); var z := others[i];
            && GoodList(between) && z.Offset() < MAX_OFFSET && z.NumCalls() < LOW_PART
            && HasRoom(between, z.Offset(), z.NumCalls())
            && Absorbed(zones, others[..i + 1]) == Updated(between, z.Offset(), z.NumCalls(), z.total)
  {
    hide *;
    var z := others[i];
    OffsetsOfPart(others, i);
    AbsorbPart(zones, others, i);
    var between := Absorbed(zones, others[..i]);
    var all := Offsets(zones) + Offsets(others);
    SubsetSize(Offsets(between), all);
    if z.Offset() !in Offsets(between) {
      SubsetSize(Offsets(between) + {z.Offset()}, all);
    }
    RoomIs(between, z, all);
  }

  lemma RoomIs(between: seq<Accumulator>, z: Accumulator, all: set<nat>)
    requires Distinct(between) && Bounded(between) && |all| <= MAX_ZONES
    requires |Offsets(between)| <= |all|
    requires z.Offset() !in Offsets(between) ==> |Offsets(between) + {z.Offset()}| <= |all|
    requires CallsOf(between, z.Offset()) + z.NumCalls() < LOW_PART
    ensures GoodList(between) && HasRoom(between, z.Offset(), z.NumCalls())
  {
    DistinctLength(between);
    hide High, Low, CallsOf;
  }

  lemma AbsorbPart(zones: seq<Accumulator>, others: seq<Accumulator>, i: nat)
    requires GoodList(zones) && GoodList(others) && i < |others| && Fits(zones, others)
    ensures var between := Absorbed(zones, others[..i]); var z := others[i];
            && Distinct(between) && Bounded(between)
            && Offsets(between) == Offsets(zones) + Offsets(others[..i])
            && z.Offset() < MAX_OFFSET && z.NumCalls() < LOW_PART
            && CallsOf(between, z.Offset()) + z.NumCalls() < LOW_PART
            && Absorbed(zones, others[..i + 1]) == Updated(between, z.Offset(), z.NumCalls(), z.total)
  {
    hide Updated, High, Low, Distinct, Fits;
    var z := others[i];
    assert z in others && others[..i + 1][..i] == others[..i];
    OffsetsOfPart(others, i);
    FitsPart(zones, others, i + 1);
    FitsPrefix(zones, others[..i + 1]);
    PackAgain(z.packed);
    AbsorbAdds(zones, others[..i], Being(z.Offset()));
    var between := Absorbed(zones, others[..i]);
    assert CallsOf(between, z.Offset()) == CallsOf(zones, z.Offset()) + CallsOf(others[..i], z.Offset());
  }

  lemma {:induction false} FitsPart(zones: seq<Accumulator>, others: seq<Accumulator>, i: nat)
    requires Fits(zones, others) && i <= |others|
    ensures Fits(zones, others[..i])
    decreases |others| - i
  {
    if i < |others| {
      FitsPart(zones, others, i + 1);
      assert others[..i + 1][..i] == others[..i];
      FitsPrefix(zones, others[..i + 1]);
    } else {
      assert others[..i] == others;
    }
  }

  lemma OffsetsOfPart(zones: seq<Accumulator>, i: nat)
    requires i < |zones|
    ensures Offsets(zones[..i]) <= Offsets(zones) && zones[i].Offset() in Offsets(zones)
  {
    hide High;
    forall z | z in zones[..i] ensures z in zones {
    }
    assert zones[i] in zones;
  }

  lemma SubsetSize(a: set<nat>, b: set<nat>)
    requires a <= b
    ensures |a| <= |b|
  {
    assert b == a + (b - a) && a !! (b - a);
  }
}
