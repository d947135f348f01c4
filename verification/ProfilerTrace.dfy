/** Well-nested traces: what the profiler records of them, and where the time goes. */
module ProfilerTrace {
  import opened ProfilerList
  import opened ProfilerResults

  /** Sibling zones in order: one with the zones inside it, then the rest. Times are
      those of the clock; packets keep 39 bits of them. */
  datatype Trace = Nothing | Zone(offset: nat, enter: nat, inner: Trace, exit: nat, rest: Trace)

  function Packets(t: Trace): seq<Packet> {
    if t.Nothing? then []
    else [MakePacket(t.offset, t.enter)] + Packets(t.inner) + [MakePacket(OFFSET_BIAS, t.exit)] + Packets(t.rest)
  }

  /** Monotone times between two instants, every zone shorter than 39 bits can count. */
  predicate Within(t: Trace, from: nat, to: nat) {
    if t.Nothing? then from <= to
    else
      && t.offset < MAX_OFFSET && t.offset != OFFSET_BIAS
      && from <= t.enter && t.exit - t.enter < LOW_PART
      && Within(t.inner, t.enter, t.exit) && Within(t.rest, t.exit, to)
  }

  /** The offset of the zone that is left first. */
  function FirstRetired(t: Trace): nat
    requires t.Zone?
  {
    if t.inner.Nothing? then t.offset else FirstRetired(t.inner)
  }

  /** With an empty list, a first zone of offset zero is not recorded. */
  predicate LosesZone(zones: seq<Accumulator>, t: Trace) { zones == [] && t.Zone? && FirstRetired(t) == 0 }

  /** The time inside the outermost zones. */
  function Outer(t: Trace): int {
    if t.Nothing? then 0 else t.exit - t.enter + Outer(t.rest)
  }

  lemma {:induction false} OuterFits(t: Trace, from: nat, to: nat)
    requires Within(t, from, to)
    ensures 0 <= Outer(t) <= to - from
  {
    if t.Zone? {
      OuterFits(t.inner, t.enter, t.exit);
      OuterFits(t.rest, t.exit, to);
    }
  }

  /** What a visit costs in itself: within its own zone, and in the zone around it. */
  datatype Overheads = Overheads(own: nat, child: nat)

  function OverheadsOf(s: Profile): Overheads { Overheads(s.selfOverhead, s.childOverhead) }

  /** What outermost zones cost the zone around them. */
  function Credited(t: Trace, child: nat): int {
    if t.Nothing? then 0 else t.exit - t.enter + child + Credited(t.rest, child)
  }

  /** The time of a zone that does not belong to itself. */
  function Deducted(t: Trace, o: Overheads): int
    requires t.Zone?
  {
    o.own + o.child + Credited(t.inner, o.child)
  }

  /** The self time of a zone: what is left of its time, if anything. */
  function Own(t: Trace, o: Overheads): nat
    requires t.Zone?
  {
    var left := t.exit - t.enter - Deducted(t, o);
    if left < 0 then 0 else left
  }

  /** Every deduction is below 64 bits, or still covers the zone when it wraps around. */
  predicate Deducts(t: Trace, o: Overheads) {
    t.Zone? ==>
      && (Deducted(t, o) < WORD || Deducted(t, o) % WORD >= t.exit - t.enter)
      && Deducts(t.inner, o) && Deducts(t.rest, o)
  }

  lemma {:induction false} CreditedIs(t: Trace, child: nat)
    ensures Credited(t, child) == Outer(t) + child * Siblings(t)
  {
    if t.Zone? { CreditedIs(t.rest, child); }
  }

  /** Visits to the outermost zones. */
  function Siblings(t: Trace): nat {
    if t.Nothing? then 0 else 1 + Siblings(t.rest)
  }

  function Zones(t: Trace): nat {
    if t.Nothing? then 0 else 1 + Zones(t.inner) + Zones(t.rest)
  }

  /** Overheads of 32 bits, as the program measures them, and fewer than 2^31 visits. */
  lemma {:induction false} SmallOverheadsFit(t: Trace, from: nat, to: nat, o: Overheads)
    requires Within(t, from, to) && Zones(t) < 0x8000_0000 && o.own < 0x1_0000_0000 && o.child < 0x1_0000_0000
    ensures Deducts(t, o)
  {
    if t.Zone? {
      OuterFits(t.inner, t.enter, t.exit);
      CreditedIs(t.inner, o.child);
      SiblingsAmong(t.inner);
      ProductFits(o.child, Siblings(t.inner));
      SmallOverheadsFit(t.inner, t.enter, t.exit, o);
      SmallOverheadsFit(t.rest, t.exit, to, o);
    }
  }

  lemma {:induction false} SiblingsAmong(t: Trace)
    ensures Siblings(t) <= Zones(t)
  {
    if t.Zone? { SiblingsAmong(t.rest); }
  }

  lemma {:induction false} GrowingFactor(a: nat, c: nat, b: nat)
    requires a <= c
    ensures a * b <= c * b
  {
    if b != 0 { GrowingFactor(a, c, b - 1); }
  }

  lemma ProductFits(a: nat, b: nat)
    requires a < 0x1_0000_0000 && b < 0x8000_0000
    ensures a * b <= 0x1_0000_0000 * 0x8000_0000
  {
    GrowingFactor(a, 0x1_0000_0000, b);
  }

  /** Visits to the chosen zones. */
  ghost function Visits(t: Trace, chosen: nat -> bool): nat {
    if t.Nothing? then 0
    else (if chosen(t.offset) then 1 else 0) + Visits(t.inner, chosen) + Visits(t.rest, chosen)
  }

  /** The self times of the chosen zones. */
  ghost function Self(t: Trace, o: Overheads, chosen: nat -> bool): int {
    if t.Nothing? then 0
    else (if chosen(t.offset) then Own(t, o) else 0) + Self(t.inner, o, chosen) + Self(t.rest, o, chosen)
  }

  /** Every zone is at least as long as what is deducted from it. */
  predicate Long(t: Trace, o: Overheads) {
    t.Zone? ==> t.exit - t.enter >= Deducted(t, o) && Long(t.inner, o) && Long(t.rest, o)
  }

  /** The time that n visits, k of them outermost, cost altogether. */
  function Cost(o: Overheads, n: nat, k: int): int { n * (o.own + o.child) + (n - k) * o.child }

  /** All self times together are the time of the outermost zones less the cost of the
      visits, exactly when no zone is shorter than its deduction: otherwise they exceed it. */
  lemma {:induction false} SelfTimesSum(t: Trace, o: Overheads, all: nat -> bool)
    requires forall offset :: all(offset)
    ensures Self(t, o, all) + Cost(o, Zones(t), Siblings(t)) >= Outer(t)
    ensures Self(t, o, all) + Cost(o, Zones(t), Siblings(t)) == Outer(t) <==> Long(t, o)
  {
    if t.Zone? {
      SelfTimesSum(t.inner, o, all);
      SelfTimesSum(t.rest, o, all);
      CreditedIs(t.inner, o.child);
      CostAdds(o, Zones(t.inner), Siblings(t.inner), Zones(t.rest), Siblings(t.rest));
    }
  }

  lemma CostAdds(o: Overheads, n: nat, k: nat, m: nat, j: nat)
    ensures Cost(o, 1 + n + m, 1 + j) == o.own + o.child + o.child * k + Cost(o, n, k) + Cost(o, m, j)
  {
  }

  /** Without overheads nothing is lost. */
  lemma {:induction false} FreeIsLong(t: Trace, from: nat, to: nat)
    requires Within(t, from, to)
    ensures Long(t, Overheads(0, 0)) && Deducts(t, Overheads(0, 0))
  {
    if t.Zone? {
      OuterFits(t.inner, t.enter, t.exit);
      CreditedIs(t.inner, 0);
      FreeIsLong(t.inner, t.enter, t.exit);
      FreeIsLong(t.rest, t.exit, to);
    }
  }

  lemma {:induction false} VisitsAreZones(t: Trace, all: nat -> bool)
    requires forall offset :: all(offset)
    ensures Visits(t, all) == Zones(t)
  {
    if t.Zone? {
      VisitsAreZones(t.inner, all);
      VisitsAreZones(t.rest, all);
    }
  }

  function Depth(t: Trace): nat {
    if t.Nothing? then 0
    else if Depth(t.inner) + 1 > Depth(t.rest) then Depth(t.inner) + 1 else Depth(t.rest)
  }

  function OffsetsIn(t: Trace): set<nat> {
    if t.Nothing? then {} else {t.offset} + OffsetsIn(t.inner) + OffsetsIn(t.rest)
  }

  ghost function VisitsOf(t: Trace, offset: nat): nat { Visits(t, Being(offset)) }

  /** The limits of the tables: stack depth, number of zones, bits of the call count. */
  ghost predicate Capacity(stack: seq<Node>, zones: seq<Accumulator>, t: Trace) {
    && |stack| + Depth(t) <= MAX_DEPTH
    && |Offsets(zones) + OffsetsIn(t)| <= MAX_ZONES
    && forall offset :: CallsOf(zones, offset) + VisitsOf(t, offset) < LOW_PART
  }

  ghost predicate GainedSums(before: seq<Accumulator>, after: seq<Accumulator>, t: Trace, o: Overheads,
                             chosen: nat -> bool) {
    && Calls(after, chosen) == Calls(before, chosen) + Visits(t, chosen)
    && SameWord(Time(after, chosen), Time(before, chosen) + Self(t, o, chosen))
  }

  /** The list has gained exactly the visits and the self times of a trace, under any
      choice of zones, and still has one entry per offset. */
  ghost predicate Gained(before: seq<Accumulator>, after: seq<Accumulator>, t: Trace, o: Overheads) {
    && GoodList(after) && Offsets(after) == Offsets(before) + OffsetsIn(t)
    && forall chosen :: GainedSums(before, after, t, o, chosen)
  }

  lemma GainedNothing(zones: seq<Accumulator>, o: Overheads)
    requires GoodList(zones)
    ensures Gained(zones, zones, Nothing, o)
  {
    hide Calls, Time, GoodList;
  }

  /** A zone: what happened inside, its own retirement, what follows. */
  lemma GainedZone(a: seq<Accumulator>, b: seq<Accumulator>, d: seq<Accumulator>, t: Trace, o: Overheads)
    requires t.Zone? && t.offset < MAX_OFFSET
    requires Gained(a, b, t.inner, o) && HasRoom(b, t.offset, 1)
    requires Gained(Updated(b, t.offset, 1, Own(t, o)), d, t.rest, o)
    ensures Gained(a, d, t, o)
  {
    var own := Own(t, o);
    var c := Updated(b, t.offset, 1, own);
    UpdateKeepsDistinct(b, t.offset, 1, own);
    hide Updated, Distinct, Bounded, GainedSums, CallsOf, Own;
    forall chosen ensures GainedSums(a, d, t, o, chosen) {
      assert GainedSums(a, b, t.inner, o, chosen) && GainedSums(c, d, t.rest, o, chosen);
      GainedZoneSums(a, b, d, t, o, chosen);
    }
  }

  lemma GainedZoneSums(a: seq<Accumulator>, b: seq<Accumulator>, d: seq<Accumulator>, t: Trace,
                       o: Overheads, chosen: nat -> bool)
    requires t.Zone? && t.offset < MAX_OFFSET
    requires GainedSums(a, b, t.inner, o, chosen) && Bounded(b) && CallsOf(b, t.offset) + 1 < LOW_PART
    requires GainedSums(Updated(b, t.offset, 1, Own(t, o)), d, t.rest, o, chosen)
    ensures GainedSums(a, d, t, o, chosen)
  {
    hide Updated, Own, Calls, Time, CallsOf, Bounded, SameWord;
    var own := Own(t, o);
    var c := Updated(b, t.offset, 1, own);
    UpdateAdds(b, t.offset, 1, own, chosen);
    AddWords(Time(a, chosen), Time(b, chosen), Time(c, chosen), Time(d, chosen), Self(t.inner, o, chosen),
             if chosen(t.offset) then own else 0, Self(t.rest, o, chosen));
  }

  lemma AddWords(a: int, b: int, c: int, d: int, x: int, y: int, z: int)
    requires SameWord(b, a + x) && SameWord(c, b + y) && SameWord(d, c + z)
    ensures SameWord(d, a + (y + x + z))
  {
    SameWordAdd(y + z, b, a + x);
    SameWordAdd(z, c, b + y);
    hide SameWord;
    SameWordTrans(d, c + z, b + y + z);
    SameWordTrans(d, b + y + z, a + x + y + z);
  }

  /** The state after a trace: time credited to the zone around it, list updated. */
  ghost predicate Analysed(s: Profile, r: Profile, t: Trace) {
    && Credited(t, s.childOverhead) >= 0
    && r == s.(stack := Credit(s.stack, Credited(t, s.childOverhead)), zones := r.zones, spare := r.spare)
    && Gained(s.zones, r.zones, t, OverheadsOf(s))
  }

  ghost predicate Ready(s: Profile) {
    GoodList(s.zones) && forall node :: node in s.stack ==> node.childTotal < WORD
  }

  lemma CreditNothing(stack: seq<Node>)
    requires forall node :: node in stack ==> node.childTotal < WORD
    ensures Credit(stack, 0) == stack
  {
  }

  lemma CreditTwice(stack: seq<Node>, a: nat, b: nat)
    ensures Credit(Credit(stack, a), b) == Credit(stack, a + b)
    ensures (forall node :: node in stack ==> node.childTotal < WORD) ==>
              forall node :: node in Credit(stack, a) ==> node.childTotal < WORD
  {
  }

  /** Entering and leaving: the packets of a zone and what they leave behind. */
  lemma ElapsedIs(offset: nat, enter: nat, exit: nat)
    requires enter <= exit && exit - enter < LOW_PART
    ensures Elapsed(MakePacket(offset, enter), MakePacket(OFFSET_BIAS, exit)) == exit - enter
    ensures High(MakePacket(offset, enter)) == offset && High(MakePacket(OFFSET_BIAS, exit)) == OFFSET_BIAS
  {
    PackParts(offset, enter % LOW_PART);
    PackParts(OFFSET_BIAS, exit % LOW_PART);
  }

  /** The exit packet of a zone whose inner zones have been credited. */
  lemma ExitStep(s: Profile, below: seq<Node>, t: Trace)
    requires t.Zone? && t.enter <= t.exit && t.exit - t.enter < LOW_PART && Deducts(t, OverheadsOf(s))
    requires Credited(t.inner, s.childOverhead) >= 0
    requires s.stack == below + [Node(MakePacket(t.offset, t.enter), Credited(t.inner, s.childOverhead) % WORD)]
    requires HasRoom(s.zones, t.offset, 1) && (s.zones != [] || t.offset != 0)
    ensures Accepts(s, MakePacket(OFFSET_BIAS, t.exit))
    ensures Step(s, MakePacket(OFFSET_BIAS, t.exit))
            == s.(stack := Credit(below, t.exit - t.enter + s.childOverhead), spare := UNUSED,
                  zones := Updated(s.zones, t.offset, 1, Own(t, OverheadsOf(s))))
  {
    hide Elapsed, MakePacket, High, Updated, Credit, HasRoom, SelfTime, Own, Credited;
    ElapsedIs(t.offset, t.enter, t.exit);
    assert s.stack[..|s.stack| - 1] == below;
    SelfTimeIs(s, s.stack[|s.stack| - 1], t);
  }

  lemma SelfTimeIs(s: Profile, node: Node, t: Trace)
    requires t.Zone? && t.enter <= t.exit && t.exit - t.enter < LOW_PART && Deducts(t, OverheadsOf(s))
    requires Credited(t.inner, s.childOverhead) >= 0
    requires node.childTotal == Credited(t.inner, s.childOverhead) % WORD
    ensures SelfTime(s, node, t.exit - t.enter) == Own(t, OverheadsOf(s))
  {
    hide Credited;
    var both := s.selfOverhead + s.childOverhead;
    WrapTwice(both, Credited(t.inner, s.childOverhead));
    DeductionIff(t.exit - t.enter, Deducted(t, OverheadsOf(s)));
  }

  lemma WrapTwice(a: nat, b: nat)
    ensures (a + b % WORD) % WORD == (a + b) % WORD
  {
  }

  /** A deduction in 64 bits leaves what is right exactly when it does not wrap around,
      or still covers the time it is deducted from. */
  lemma DeductionIff(time: nat, deduction: nat)
    requires time < WORD
    ensures ClampedSubtract(time, deduction % WORD) == (if deduction > time then 0 else time - deduction)
            <==> deduction < WORD || deduction % WORD >= time
  {
  }

  /** While the union of offsets is small enough, one of them has room. */
  lemma RoomFor(zones: seq<Accumulator>, offset: nat, all: set<nat>)
    requires GoodList(zones) && offset in all && Offsets(zones) <= all && |all| <= MAX_ZONES
    requires CallsOf(zones, offset) + 1 < LOW_PART
    ensures HasRoom(zones, offset, 1)
  {
    DistinctLength(zones);
    hide Distinct, Bounded, CallsOf;
    if offset !in Offsets(zones) {
      SubsetSize(Offsets(zones) + {offset}, all);
    }
  }

  /** A zone counts if one of the zones inside it does, or if it does itself. */
  lemma ZoneCounts(t: Trace, before: seq<Accumulator>, between: seq<Accumulator>, o: Overheads)
    requires t.Zone? && !LosesZone(before, t) && Gained(before, between, t.inner, o)
    ensures between != [] || t.offset != 0
  {
    hide GoodList, GainedSums;
    assert between == [] ==> Offsets(between) == {};
    assert t.inner.Zone? ==> t.inner.offset in OffsetsIn(t.inner);
    assert before != [] ==> before[0].Offset() in Offsets(before);
  }

  /** Analysing a well-nested trace: every assertion of the program holds, the zones
      around it are credited with the time and the overhead of its outermost zones, and the
      list gains exactly its visits and self times, unless an empty list loses the first
      zone. */
  lemma {:induction false} RunTrace(s: Profile, t: Trace, from: nat, to: nat)
    requires Ready(s) && Within(t, from, to) && Capacity(s.stack, s.zones, t)
    requires !LosesZone(s.zones, t) && Deducts(t, OverheadsOf(s))
    ensures AcceptsAll(s, Packets(t)) && Analysed(s, Run(s, Packets(t)), t)
    decreases t
  {
    if t.Nothing? {
      CreditNothing(s.stack);
      GainedNothing(s.zones, OverheadsOf(s));
    } else {
      hide *;
      RunZone(s, t, from, to);
    }
  }

  lemma RunZone(s: Profile, t: Trace, from: nat, to: nat)
    requires t.Zone? && Ready(s) && Within(t, from, to) && Capacity(s.stack, s.zones, t)
    requires !LosesZone(s.zones, t) && Deducts(t, OverheadsOf(s))
    ensures AcceptsAll(s, Packets(t)) && Analysed(s, Run(s, Packets(t)), t)
    decreases t, 0
  {
    hide Within, Capacity, Ready, Analysed, Packets, Run, AcceptsAll, Step, Accepts, MakePacket, Gained, HasRoom,
      Own, Credited;
    WithinParts(t, from, to, s.childOverhead);
    var s1 := s.(stack := s.stack + [Node(MakePacket(t.offset, t.enter), 0)]);
    EnterZone(s, t);
    assert !LosesZone(s.zones, t.inner);
    RunTrace(s1, t.inner, t.enter, t.exit);
    var s2 := Run(s1, Packets(t.inner));
    LeaveZone(s, t, s2);
    var s3 := Step(s2, MakePacket(OFFSET_BIAS, t.exit));
    RunTrace(s3, t.rest, t.exit, to);
    var s4 := Run(s3, Packets(t.rest));
    FinishZone(s, t, s2, s3, s4);
    RunParts(s, t);
  }

  lemma WithinParts(t: Trace, from: nat, to: nat, child: nat)
    requires t.Zone? && Within(t, from, to)
    ensures t.offset < MAX_OFFSET && t.offset != OFFSET_BIAS
    ensures Within(t.inner, t.enter, t.exit) && Within(t.rest, t.exit, to)
    ensures 0 <= Credited(t.inner, child) && 0 <= Credited(t.rest, child) && 0 <= t.exit - t.enter < LOW_PART
    ensures Credited(t, child) == t.exit - t.enter + child + Credited(t.rest, child)
  {
    OuterFits(t.inner, t.enter, t.exit);
    OuterFits(t.rest, t.exit, to);
    CreditedIs(t.inner, child);
    CreditedIs(t.rest, child);
  }

  /** The packets of a zone, one part after the other. */
  lemma RunParts(s: Profile, t: Trace)
    requires t.Zone?
    ensures var enter, leave := MakePacket(t.offset, t.enter), MakePacket(OFFSET_BIAS, t.exit);
            var s1 := Step(s, enter); var s2 := Run(s1, Packets(t.inner)); var s3 := Step(s2, leave);
            && Run(s, Packets(t)) == Run(s3, Packets(t.rest))
            && (AcceptsAll(s, Packets(t)) <==>
                Accepts(s, enter) && AcceptsAll(s1, Packets(t.inner)) && Accepts(s2, leave)
                && AcceptsAll(s3, Packets(t.rest)))
  {
    var enter, leave := MakePacket(t.offset, t.enter), MakePacket(OFFSET_BIAS, t.exit);
    var inner, rest := Packets(t.inner), Packets(t.rest);
    assert Packets(t) == ([enter] + inner + [leave]) + rest;
    hide Step, Accepts, MakePacket, Packets;
    RunOne(s, enter);
    var s1 := Step(s, enter);
    RunJoin(s, [enter], inner);
    var s2 := Run(s1, inner);
    RunJoin(s, [enter] + inner, [leave]);
    RunOne(s2, leave);
    RunJoin(s, [enter] + inner + [leave], rest);
  }

  lemma RunOne(s: Profile, p: Packet)
    ensures Run(s, [p]) == Step(s, p) && (AcceptsAll(s, [p]) <==> Accepts(s, p))
  {
    hide Step, Accepts;
    assert [p][1..] == [];
  }

  lemma EnterZone(s: Profile, t: Trace)
    requires t.Zone? && Ready(s) && Capacity(s.stack, s.zones, t)
    requires t.offset < MAX_OFFSET && t.offset != OFFSET_BIAS
    ensures var enter := MakePacket(t.offset, t.enter);
            var s1 := s.(stack := s.stack + [Node(enter, 0)]);
            && Accepts(s, enter) && Step(s, enter) == s1
            && Ready(s1) && Capacity(s1.stack, s1.zones, t.inner)
  {
    PackParts(t.offset, t.enter % LOW_PART);
    hide High, Low, GoodList, CallsOf, Visits;
    var all := Offsets(s.zones) + OffsetsIn(t);
    SubsetSize(Offsets(s.zones) + OffsetsIn(t.inner), all);
    forall offset ensures CallsOf(s.zones, offset) + VisitsOf(t.inner, offset) < LOW_PART {
      VisitsParts(t, offset);
      assert CallsOf(s.zones, offset) + VisitsOf(t, offset) < LOW_PART;
    }
  }

  lemma VisitsParts(t: Trace, offset: nat)
    requires t.Zone?
    ensures VisitsOf(t, offset)
            == (if t.offset == offset then 1 else 0) + VisitsOf(t.inner, offset) + VisitsOf(t.rest, offset)
  {
    var chosen := Being(offset);
    assert VisitsOf(t, offset) == Visits(t, chosen);
  }

  lemma GainedOf(before: seq<Accumulator>, after: seq<Accumulator>, t: Trace, o: Overheads, offset: nat)
    requires Gained(before, after, t, o)
    ensures CallsOf(after, offset) == CallsOf(before, offset) + VisitsOf(t, offset)
  {
    hide Calls, Visits, GoodList, Time, Self, GainedSums, Being;
    assert GainedSums(before, after, t, o, Being(offset));
    VisitsGained(before, after, t, o, Being(offset));
  }

  lemma VisitsGained(before: seq<Accumulator>, after: seq<Accumulator>, t: Trace, o: Overheads,
                     chosen: nat -> bool)
    requires GainedSums(before, after, t, o, chosen)
    ensures Calls(after, chosen) == Calls(before, chosen) + Visits(t, chosen)
  {
    hide Calls, Visits, Time, Self, SameWord;
  }

  /** Back in the enclosing zone. */
  lemma LeaveZone(s: Profile, t: Trace, s2: Profile)
    requires t.Zone? && Ready(s) && Capacity(s.stack, s.zones, t) && t.offset < MAX_OFFSET
    requires !LosesZone(s.zones, t) && Deducts(t, OverheadsOf(s))
    requires Credited(t.inner, s.childOverhead) >= 0 && 0 <= t.exit - t.enter < LOW_PART
    requires Analysed(s.(stack := s.stack + [Node(MakePacket(t.offset, t.enter), 0)]), s2, t.inner)
    ensures var leave := MakePacket(OFFSET_BIAS, t.exit); var s3 := Step(s2, leave);
            && Gained(s.zones, s2.zones, t.inner, OverheadsOf(s))
            && HasRoom(s2.zones, t.offset, 1) && Accepts(s2, leave) && s3.zones != []
            && s3 == s.(stack := Credit(s.stack, t.exit - t.enter + s.childOverhead), spare := UNUSED,
                        zones := Updated(s2.zones, t.offset, 1, Own(t, OverheadsOf(s))))
            && Ready(s3) && Capacity(s3.stack, s3.zones, t.rest)
  {
    hide Credit, Updated, GoodList, HasRoom, CallsOf, Credited, Gained, Capacity, MakePacket, Step, Accepts, Ready,
      Own, Deducts;
    var own, credit: nat := Own(t, OverheadsOf(s)), t.exit - t.enter + s.childOverhead;
    CreditTop(s.stack, Node(MakePacket(t.offset, t.enter), 0), Credited(t.inner, s.childOverhead));
    ZoneRoom(s, t, s2);
    ZoneCounts(t, s.zones, s2.zones, OverheadsOf(s));
    UpdatedNotEmpty(s2.zones, t.offset, own);
    ExitStep(s2, s.stack, t);
    RestCapacity(s, t, s2.zones, own, credit);
    RestReady(s, t, s2.zones, own, credit);
  }

  lemma UpdatedNotEmpty(zones: seq<Accumulator>, offset: nat, own: nat)
    ensures Updated(zones, offset, 1, own) != []
  {
    hide High, Low, Pack;
  }

  lemma RestReady(s: Profile, t: Trace, zones: seq<Accumulator>, own: nat, credit: nat)
    requires t.Zone? && Ready(s) && t.offset < MAX_OFFSET
    requires Gained(s.zones, zones, t.inner, OverheadsOf(s)) && HasRoom(zones, t.offset, 1)
    ensures Ready(s.(stack := Credit(s.stack, credit), spare := UNUSED, zones := Updated(zones, t.offset, 1, own)))
  {
    UpdateIsGood(zones, t.offset, 1, own);
    CreditTwice(s.stack, credit, 0);
    hide Updated, GoodList, HasRoom, Credit, Gained;
  }

  lemma CreditTop(stack: seq<Node>, node: Node, time: nat)
    requires node.childTotal == 0
    ensures Credit(stack + [node], time) == stack + [Node(node.packet, time % WORD)]
  {
  }

  lemma ZoneRoom(s: Profile, t: Trace, s2: Profile)
    requires t.Zone? && Capacity(s.stack, s.zones, t) && Gained(s.zones, s2.zones, t.inner, OverheadsOf(s))
    ensures HasRoom(s2.zones, t.offset, 1)
  {
    GainedOf(s.zones, s2.zones, t.inner, OverheadsOf(s), t.offset);
    VisitsParts(t, t.offset);
    assert CallsOf(s.zones, t.offset) + VisitsOf(t, t.offset) < LOW_PART;
    hide CallsOf, VisitsOf, GoodList, GainedSums;
    RoomFor(s2.zones, t.offset, Offsets(s.zones) + OffsetsIn(t));
  }

  lemma RestCapacity(s: Profile, t: Trace, zones: seq<Accumulator>, own: nat, credit: nat)
    requires t.Zone? && Capacity(s.stack, s.zones, t) && Gained(s.zones, zones, t.inner, OverheadsOf(s))
    requires HasRoom(zones, t.offset, 1) && t.offset < MAX_OFFSET
    ensures Capacity(Credit(s.stack, credit), Updated(zones, t.offset, 1, own), t.rest)
  {
    var next := Updated(zones, t.offset, 1, own);
    hide Updated, GainedSums, GoodList, CallsOf, VisitsOf, HasRoom;
    forall offset ensures CallsOf(next, offset) + VisitsOf(t.rest, offset) < LOW_PART {
      RestCalls(s, t, zones, own, offset);
    }
    RestOffsets(s, t, zones, own);
    SubsetSize(Offsets(next) + OffsetsIn(t.rest), Offsets(s.zones) + OffsetsIn(t));
  }

  lemma RestOffsets(s: Profile, t: Trace, zones: seq<Accumulator>, own: nat)
    requires t.Zone? && Gained(s.zones, zones, t.inner, OverheadsOf(s))
    requires HasRoom(zones, t.offset, 1) && t.offset < MAX_OFFSET
    ensures Offsets(Updated(zones, t.offset, 1, own)) + OffsetsIn(t.rest) <= Offsets(s.zones) + OffsetsIn(t)
  {
    hide Updated, GainedSums, Distinct, Bounded, CallsOf;
    UpdateKeepsDistinct(zones, t.offset, 1, own);
  }

  lemma RestCalls(s: Profile, t: Trace, zones: seq<Accumulator>, own: nat, offset: nat)
    requires t.Zone? && Capacity(s.stack, s.zones, t) && Gained(s.zones, zones, t.inner, OverheadsOf(s))
    requires HasRoom(zones, t.offset, 1) && t.offset < MAX_OFFSET
    ensures CallsOf(Updated(zones, t.offset, 1, own), offset) + VisitsOf(t.rest, offset) < LOW_PART
  {
    hide Updated, Visits, Calls, GainedSums, Distinct, Bounded, Offsets, OffsetsIn, SameWord, Time;
    GainedOf(s.zones, zones, t.inner, OverheadsOf(s), offset);
    VisitsParts(t, offset);
    UpdateAdds(zones, t.offset, 1, own, Being(offset));
    assert CallsOf(s.zones, offset) + VisitsOf(t, offset) < LOW_PART;
  }

  lemma FinishZone(s: Profile, t: Trace, s2: Profile, s3: Profile, s4: Profile)
    requires t.Zone? && t.offset < MAX_OFFSET && t.enter <= t.exit
    requires Credited(t, s.childOverhead) == t.exit - t.enter + s.childOverhead + Credited(t.rest, s.childOverhead)
    requires Credited(t.rest, s.childOverhead) >= 0
    requires Gained(s.zones, s2.zones, t.inner, OverheadsOf(s))
    requires HasRoom(s2.zones, t.offset, 1)
    requires s3 == s.(stack := Credit(s.stack, t.exit - t.enter + s.childOverhead), spare := UNUSED,
                      zones := Updated(s2.zones, t.offset, 1, Own(t, OverheadsOf(s))))
    requires Analysed(s3, s4, t.rest)
    ensures Analysed(s, s4, t)
  {
    hide Gained, Own, Credited, HasRoom, Updated, Credit;
    GainedZone(s.zones, s2.zones, s4.zones, t, OverheadsOf(s));
    CreditTwice(s.stack, t.exit - t.enter + s.childOverhead, Credited(t.rest, s.childOverhead));
  }

  function Started(o: Overheads): Profile { Profile([], [], UNUSED, o.own, o.child) }

  /** Conservation: from an empty profile, the times in the list are the self times of
      the trace (as 64-bit numbers), the counts its visits, there is one entry per zone,
      and the stack is empty again. Unless a zone is shorter than its deduction, the
      times and the costs of all visits add up to the time of the outermost zones. */
  lemma Conservation(t: Trace, from: nat, to: nat, o: Overheads, all: nat -> bool)
    requires Within(t, from, to) && Capacity([], [], t) && forall offset :: all(offset)
    requires !LosesZone([], t) && Deducts(t, o)
    ensures var r := Run(Started(o), Packets(t));
            && r.stack == [] && Distinct(r.zones) && Offsets(r.zones) == OffsetsIn(t)
            && SameWord(Time(r.zones, all), Self(t, o, all))
            && (Long(t, o) ==> SameWord(Time(r.zones, all) + Cost(o, Visits(t, all), Siblings(t)), Outer(t)))
            && forall offset :: CallsOf(r.zones, offset) == VisitsOf(t, offset)
  {
    hide Run, Packets, Visits, Outer, OffsetsIn, CallsOf, VisitsOf, Within, Capacity, Cost, Own, Deducts, Credited,
      Deducted, Zones, Siblings;
    var s := Started(o);
    RunTrace(s, t, from, to);
    var r := Run(s, Packets(t));
    assert GainedSums([], r.zones, t, o, all);
    if Long(t, o) {
      SelfTimesSum(t, o, all);
      VisitsAreZones(t, all);
      SameWordAdd(Cost(o, Zones(t), Siblings(t)), Time(r.zones, all), Self(t, o, all));
    }
    forall offset ensures CallsOf(r.zones, offset) == VisitsOf(t, offset) {
      GainedOf([], r.zones, t, o, offset);
      NoCalls(offset);
    }
  }

  lemma NoCalls(offset: nat)
    ensures CallsOf([], offset) == 0
  {
  }

  function Exits(packets: seq<Packet>): nat {
    if packets == [] then 0 else (if High(packets[0]) == OFFSET_BIAS then 1 else 0) + Exits(packets[1..])
  }

  lemma {:induction false} ExitsJoin(a: seq<Packet>, b: seq<Packet>)
    ensures Exits(a + b) == Exits(a) + Exits(b)
  {
    hide High;
    if a == [] {
      assert a + b == b;
    } else {
      assert (a + b)[0] == a[0] && (a + b)[1..] == a[1..] + b;
      ExitsJoin(a[1..], b);
    }
  }

  /** One exit packet for each visit. */
  lemma {:induction false} ExitsAreVisits(t: Trace, from: nat, to: nat, all: nat -> bool)
    requires Within(t, from, to) && forall o :: all(o)
    ensures Exits(Packets(t)) == Visits(t, all)
  {
    if t.Zone? {
      OuterFits(t.inner, t.enter, t.exit);
      ElapsedIs(t.offset, t.enter, t.exit);
      hide High, MakePacket;
      var enter, leave := [MakePacket(t.offset, t.enter)], [MakePacket(OFFSET_BIAS, t.exit)];
      assert Exits(enter) == 0 by { assert enter[1..] == []; }
      assert Exits(leave) == 1 by { assert leave[1..] == []; }
      ExitsJoin(enter, Packets(t.inner));
      ExitsJoin(enter + Packets(t.inner), leave);
      ExitsJoin(enter + Packets(t.inner) + leave, Packets(t.rest));
      ExitsAreVisits(t.inner, t.enter, t.exit, all);
      ExitsAreVisits(t.rest, t.exit, to, all);
    }
  }

  /** The offset of the zone that the first exit packet leaves, if there is one. */
  function FirstExit(stack: seq<Node>, packets: seq<Packet>): int
    decreases |packets|
  {
    if packets == [] then -1
    else if High(packets[0]) != OFFSET_BIAS then FirstExit(stack + [Node(packets[0], 0)], packets[1..])
    else if stack == [] then -1
    else High(stack[|stack| - 1].packet)
  }

  lemma {:induction false} FirstExitIs(stack: seq<Node>, t: Trace, more: seq<Packet>, from: nat, to: nat)
    requires t.Zone? && Within(t, from, to)
    ensures FirstExit(stack, Packets(t) + more) == FirstRetired(t)
    decreases t
  {
    OuterFits(t.inner, t.enter, t.exit);
    ElapsedIs(t.offset, t.enter, t.exit);
    hide High, MakePacket;
    var enter, leave := MakePacket(t.offset, t.enter), MakePacket(OFFSET_BIAS, t.exit);
    var tail := [leave] + Packets(t.rest) + more;
    assert Packets(t) + more == [enter] + (Packets(t.inner) + tail);
    var above := stack + [Node(enter, 0)];
    assert ([enter] + (Packets(t.inner) + tail))[1..] == Packets(t.inner) + tail;
    if t.inner.Nothing? {
      assert Packets(t.inner) + tail == tail;
    } else {
      FirstExitIs(above, t.inner, tail, t.enter, t.exit);
    }
  }

  /** No packet records more than one call. */
  lemma StepAtMost(s: Profile, p: Packet, all: nat -> bool)
    requires GoodList(s.zones) && GoodStack(s.stack) && Accepts(s, p) && forall o :: all(o)
    ensures GoodList(Step(s, p).zones) && GoodStack(Step(s, p).stack)
    ensures Calls(Step(s, p).zones, all) <= Calls(s.zones, all) + Exits([p])
  {
    hide Updated, Calls, High, Low, Distinct, Bounded, SelfTime, CallsOf, Credit, Bump;
    assert [p][1..] == [];
    if High(p) == OFFSET_BIAS {
      var node := s.stack[|s.stack| - 1];
      NodeIsGood(s.stack, |s.stack| - 1);
      var duration := Elapsed(node.packet, p);
      CreditIsGood(s.stack, duration + s.childOverhead);
      if s.zones != [] || High(node.packet) != 0 {
        UpdateIsGood(s.zones, High(node.packet), 1, SelfTime(s, node, duration));
        UpdateAdds(s.zones, High(node.packet), 1, SelfTime(s, node, duration), all);
      }
    }
  }

  lemma {:induction false} CallsAtMost(s: Profile, packets: seq<Packet>, all: nat -> bool)
    requires GoodList(s.zones) && GoodStack(s.stack) && AcceptsAll(s, packets) && forall o :: all(o)
    ensures Calls(Run(s, packets).zones, all) <= Calls(s.zones, all) + Exits(packets)
    decreases |packets|
  {
    hide GoodList, GoodStack, Step, Accepts, Calls, High;
    if packets != [] {
      StepAtMost(s, packets[0], all);
      CallsAtMost(Step(s, packets[0]), packets[1..], all);
      assert [packets[0]][1..] == [];
    }
  }

  lemma {:induction false} FirstIsLost(s: Profile, packets: seq<Packet>, all: nat -> bool)
    requires s.zones == [] && GoodStack(s.stack) && AcceptsAll(s, packets) && forall o :: all(o)
    requires FirstExit(s.stack, packets) == 0
    ensures Calls(Run(s, packets).zones, all) < Exits(packets)
    decreases |packets|
  {
    hide High, Elapsed, SelfTime, Bump, Updated;
    var p := packets[0];
    var next := Step(s, p);
    NothingIsGood(all);
    StepAtMost(s, p, all);
    assert next.zones == [];
    hide GoodStack, Accepts, Step, Calls, Credit;
    if High(p) != OFFSET_BIAS {
      FirstIsLost(next, packets[1..], all);
    } else {
      CallsAtMost(next, packets[1..], all);
    }
  }

  lemma NothingIsGood(all: nat -> bool)
    ensures GoodList([]) && Calls([], all) == 0
  {
  }

  /** A trace that the program's assertions accept is recorded in full exactly when an
      empty list does not lose its first zone; where it does not, they all hold. */
  lemma RecordedIff(s: Profile, t: Trace, from: nat, to: nat)
    requires Ready(s) && GoodStack(s.stack) && Within(t, from, to) && Capacity(s.stack, s.zones, t)
    requires Deducts(t, OverheadsOf(s))
    ensures !LosesZone(s.zones, t) ==> AcceptsAll(s, Packets(t))
    ensures AcceptsAll(s, Packets(t)) ==>
              (Gained(s.zones, Run(s, Packets(t)).zones, t, OverheadsOf(s)) <==> !LosesZone(s.zones, t))
  {
    hide Packets, GoodStack, Calls, Visits, Exits, AcceptsAll, Run, Within, Capacity, GainedSums;
    if LosesZone(s.zones, t) {
      if AcceptsAll(s, Packets(t)) {
        var all := (o: nat) => true;
        assert Packets(t) + [] == Packets(t);
        FirstExitIs(s.stack, t, [], from, to);
        FirstIsLost(s, Packets(t), all);
        ExitsAreVisits(t, from, to, all);
        NothingIsGood(all);
        NotGained(s.zones, Run(s, Packets(t)).zones, t, OverheadsOf(s), all);
      }
    } else {
      RunTrace(s, t, from, to);
    }
  }

  lemma NotGained(before: seq<Accumulator>, after: seq<Accumulator>, t: Trace, o: Overheads, all: nat -> bool)
    requires Calls(after, all) < Calls(before, all) + Visits(t, all)
    ensures !Gained(before, after, t, o)
  {
    hide Calls, Visits, GoodList;
    assert !GainedSums(before, after, t, o, all);
  }

  /** The concrete case: one visit to a zone of offset zero leaves the list empty. */
  lemma LostVisit()
    ensures var t := Zone(0, 0, Nothing, 5, Nothing);
            Run(Profile([], [], UNUSED, 0, 0), Packets(t)).zones == [] && OffsetsIn(t) == {0}
  {
    var t := Zone(0, 0, Nothing, 5, Nothing);
    var s := Profile([], [], UNUSED, 0, 0);
    ElapsedIs(0, 0, 5);
    var enter, leave := MakePacket(0, 0), MakePacket(OFFSET_BIAS, 5);
    assert Packets(t) == [enter] + [leave];
    hide High, Low, MakePacket, Bump, SelfTime, Elapsed;
    RunOne(s, enter);
    RunJoin(s, [enter], [leave]);
    RunOne(Step(s, enter), leave);
  }

  /** Worked figures for overheads of 30 and 20, with packets and entries written out. A
      zone from 0 to 100 records 50. */
  lemma OneVisit()
    ensures Run(Profile([], [], UNUSED, 30, 20), [0x80_0000_0000, 0x8000_0000_0000_0064]).zones
            == [Accumulator(0x80_0000_0001, 50)]
  {
    var s := Profile([], [], UNUSED, 30, 20);
    ElapsedIs(1, 0, 100);
    var enter, leave := MakePacket(1, 0), MakePacket(OFFSET_BIAS, 100);
    assert [0x80_0000_0000, 0x8000_0000_0000_0064] == [enter] + [leave];
    hide High, Low, MakePacket, Elapsed;
    RunOne(s, enter);
    RunJoin(s, [enter], [leave]);
    RunOne(Step(s, enter), leave);
  }

  /** A zone from 50 to 90 is shorter than its deduction and records nothing, and of the
      200 around it 90 remain. */
  lemma ShortVisit()
    ensures var t := Zone(1, 0, Zone(2, 50, Nothing, 90, Nothing), 200, Nothing);
            Run(Started(Overheads(30, 20)), Packets(t)).zones
            == [Accumulator(0x100_0000_0001, 0), Accumulator(0x80_0000_0001, 90)]
  {
    var s := Started(Overheads(30, 20));
    var inner := Zone(2, 50, Nothing, 90, Nothing);
    ElapsedIs(2, 50, 90);
    ElapsedIs(1, 0, 200);
    assert Pack(2, 1) == 0x100_0000_0001 && Pack(1, 1) == 0x80_0000_0001;
    PackParts(2, 1);
    var a, b, c, d := MakePacket(1, 0), MakePacket(2, 50), MakePacket(OFFSET_BIAS, 90), MakePacket(OFFSET_BIAS, 200);
    assert Packets(inner) == [b] + [c];
    assert Packets(Zone(1, 0, inner, 200, Nothing)) == [a] + ([b] + [c]) + [d];
    hide High, Low, MakePacket, Elapsed, Pack, Run, Packets;
    RunFour(s, a, b, c, d);
    var s2 := Step(Step(s, a), b);
    assert s2.stack == [Node(a, 0), Node(b, 0)];
    var s3 := Step(s2, c);
    assert s3.zones == [Accumulator(Pack(2, 1), 0)] && s3.stack == [Node(a, 60)];
  }

  lemma RunFour(s: Profile, a: Packet, b: Packet, c: Packet, d: Packet)
    ensures Run(s, [a] + ([b] + [c]) + [d]) == Step(Step(Step(Step(s, a), b), c), d)
  {
    hide Step, Run;
    var s1 := Step(s, a);
    var s2 := Step(s1, b);
    RunOne(s, a);
    RunOne(s1, b);
    RunOne(s2, c);
    RunOne(Step(s2, c), d);
    RunJoin(s1, [b], [c]);
    RunJoin(s, [a], [b] + [c]);
    RunJoin(s, [a] + ([b] + [c]), [d]);
  }
}
