/** The counter and the chunk bounds are C++ `int`s. Exactly which calls keep them
    in range under every schedule. */
module PoolOverflow {
  import opened Powers
  import opened PoolModel
  import opened PoolSafety
  import opened PoolBound

  /** A schedule leads from s to s'. */
  ghost predicate Steps(s: State, steps: seq<Step>, s': State)
    decreases |steps|
  {
    if steps == [] then s == s'
    else |s.workers| > 0 && Enabled(s, steps[0]) && Steps(Apply(s, steps[0]), steps[1..], s')
  }

  ghost predicate Leads(s: State, s': State) {
    exists steps :: Steps(s, steps, s')
  }

  lemma {:induction false} StepsJoin(s: State, a: seq<Step>, m: State, b: seq<Step>, s': State)
    requires Steps(s, a, m) && Steps(m, b, s')
    ensures Steps(s, a + b, s')
    decreases |a|
  {
    if a == [] {
      assert a + b == b;
    } else {
      assert (a + b)[1..] == a[1..] + b;
      StepsJoin(Apply(s, a[0]), a[1..], m, b, s');
    }
  }

  lemma LeadsJoin(s: State, m: State, s': State)
    requires Leads(s, m) && Leads(m, s')
    ensures Leads(s, s')
  {
    var a :| Steps(s, a, m);
    var b :| Steps(m, b, s');
    StepsJoin(s, a, m, b, s');
  }

  lemma LeadsSelf(s: State)
    ensures Leads(s, s)
  {
    assert Steps(s, [], s);
  }

  lemma LeadsStep(s: State, step: Step, s': State)
    requires |s.workers| > 0 && Enabled(s, step) && Leads(Apply(s, step), s')
    ensures Leads(s, s')
  {
    var a :| Steps(Apply(s, step), a, s');
    assert ([step] + a)[1..] == a;
    assert Steps(s, [step] + a, s');
  }

  /** The sums RunRange forms from the counter fit in an `int`. */
  ghost predicate SumsFit(s: State) {
    forall t :: 0 <= t < |s.workers| && s.workers[t].Reserve? ==>
      s.workers[t].begin + s.reserved + s.workers[t].size <= INT_MAX
  }

  /** While no new call is made the range stays, and the counter invariant with it. */
  lemma {:induction false} SameCall(s: State, steps: seq<Step>, s': State)
    requires CounterInv(s) && Steps(s, steps, s')
    ensures CounterInv(s') && |s'.workers| == |s.workers| && |s'.runs| >= |s.runs|
    ensures |s'.runs| == |s.runs| ==> s'.range == s.range
    decreases |steps|
  {
    hide CounterInv, Apply, Enabled;
    if steps != [] {
      StepBounded(s, steps[0]);
      StepFrame(s, steps[0]);
      SameCall(Apply(s, steps[0]), steps[1..], s');
    }
  }

  /** Only a new call adds to the runs, and only a new call changes the range. */
  lemma StepFrame(s: State, step: Step)
    requires |s.workers| > 0 && Enabled(s, step)
    ensures var s' := Apply(s, step);
      && |s'.workers| == |s.workers| && |s'.runs| >= |s.runs|
      && (|s'.runs| == |s.runs| ==> s'.range == s.range)
  {
  }

  lemma BoundedSumsFit(s: State)
    requires CounterInv(s) && s.range.0 + CounterMax(s) <= INT_MAX
    ensures SumsFit(s)
  {
    forall t | 0 <= t < |s.workers| && s.workers[t].Reserve?
      ensures s.workers[t].begin + s.reserved + s.workers[t].size <= INT_MAX
    {
      assert Enabled(s, FetchAdd(t));
      StepBounded(s, FetchAdd(t));
      assert WorkerOk(s, s.workers[t]);
      assert Bounded(Apply(s, FetchAdd(t)));
      CounterMaxPositive(s);
    }
  }

  /** All the workers from n on read the command. */
  lemma {:induction false} WakeRest(s: State, n: nat, b: int, e: int)
    requires 0 <= b < e <= INT_MAX && n <= |s.workers| && |s.workers| > 0 && s.command == Encode(b, e)
    requires forall t :: n <= t < |s.workers| ==> s.workers[t].Woken?
    ensures Leads(s, s.(workers := s.workers[..n] + seq(|s.workers| - n, _ => Load(b, e))))
    decreases |s.workers| - n
  {
    var goal := s.(workers := s.workers[..n] + seq(|s.workers| - n, _ => Load(b, e)));
    if n == |s.workers| {
      assert goal.workers == s.workers;
      LeadsSelf(s);
    } else {
      EncodeFacts(b, e);
      var s1 := Apply(s, Wake(n));
      WakeRest(s1, n + 1, b, e);
      assert s1.workers[..n + 1] + seq(|s1.workers| - (n + 1), _ => Load(b, e)) == goal.workers;
      LeadsStep(s, Wake(n), goal);
    }
  }

  /** All the workers from n on load the counter while it is still zero. */
  lemma {:induction false} LoadRest(s: State, n: nat, b: int, e: int)
    requires b < e && n <= |s.workers| && |s.workers| > 0 && s.reserved == 0
    requires forall t :: n <= t < |s.workers| ==> s.workers[t] == Load(b, e)
    ensures Leads(s, s.(workers := s.workers[..n] +
              seq(|s.workers| - n, _ => Reserve(b, e, ChunkSize(e - b, 0, |s.workers|)))))
    decreases |s.workers| - n
  {
    var w := Reserve(b, e, ChunkSize(e - b, 0, |s.workers|));
    var goal := s.(workers := s.workers[..n] + seq(|s.workers| - n, _ => w));
    if n == |s.workers| {
      assert goal.workers == s.workers;
      LeadsSelf(s);
    } else {
      var s1 := Apply(s, LoadReserved(n));
      LoadRest(s1, n + 1, b, e);
      assert s1.workers[..n + 1] + seq(|s1.workers| - (n + 1), _ => w) == goal.workers;
      LeadsStep(s, LoadReserved(n), goal);
    }
  }

  /** Worker 0 executes the chunk it holds. */
  lemma {:induction false} RunChunk(s: State) returns (s': State)
    requires |s.workers| > 0 && s.workers[0].Task? && s.workers[0].i < s.workers[0].myEnd
    ensures Leads(s, s')
    ensures s' == s.(executed := s'.executed, workers := s.workers[0 := Load(s.workers[0].begin, s.workers[0].end)])
    decreases s.workers[0].myEnd - s.workers[0].i
  {
    var s1 := Apply(s, RunTask(0));
    if s1.workers[0].Load? {
      s' := s1;
      LeadsSelf(s1);
    } else {
      s' := RunChunk(s1);
    }
    LeadsStep(s, RunTask(0), s');
  }

  /** Worker 0 alone uses the range up, never asking for more than is left. */
  lemma {:induction false} Solo(s: State, b: int, e: int) returns (s': State)
    requires |s.workers| > 0 && s.workers[0] == Load(b, e) && 0 <= s.reserved <= e - b
    ensures Leads(s, s') && s' == s.(executed := s'.executed, reserved := e - b)
    decreases e - b - s.reserved
  {
    if s.reserved == e - b {
      s' := s;
      LeadsSelf(s);
    } else {
      ChunkAtMost(e - b, s.reserved, |s.workers|);
      var s1 := Apply(s, LoadReserved(0));
      var s2 := Apply(s1, FetchAdd(0));
      var s3 := RunChunk(s2);
      assert s3.workers == s.workers;
      s' := Solo(s3, b, e);
      LeadsJoin(s2, s3, s');
      LeadsStep(s1, FetchAdd(0), s');
      LeadsStep(s, LoadReserved(0), s');
    }
  }

  /** The workers from n on reserve with their stale sizes after the range is used up. */
  lemma {:induction false} FetchRest(s: State, n: nat, b: int, e: int, m: int)
    requires n <= |s.workers| && |s.workers| > 0 && s.reserved >= e - b && m >= 1
    requires forall t :: n <= t < |s.workers| ==> s.workers[t] == Reserve(b, e, m)
    ensures Leads(s, s.(workers := s.workers[..n] + seq(|s.workers| - n, _ => Start),
                        reserved := s.reserved + Times(|s.workers| - n, m)))
    decreases |s.workers| - n
  {
    var goal := s.(workers := s.workers[..n] + seq(|s.workers| - n, _ => Start),
                   reserved := s.reserved + Times(|s.workers| - n, m));
    OneMore(|s.workers| - n - 1, m);
    OneMore(-1, m);
    hide Leads, Times;
    if n == |s.workers| {
      assert goal.workers == s.workers;
      LeadsSelf(s);
    } else {
      var s1 := Apply(s, FetchAdd(n));
      FetchRest(s1, n + 1, b, e, m);
      assert s1.workers[..n + 1] + seq(|s1.workers| - (n + 1), _ => Start) == goal.workers;
      LeadsStep(s, FetchAdd(n), goal);
    }
  }

  /** Everyone is told, and everyone but worker 0 loads the counter at zero. */
  lemma WorstStart(s: State, b: int, e: int) returns (s': State)
    requires Inv(s) && s.main.Idle? && 0 <= b < e <= INT_MAX
    ensures Leads(Apply(s, CallRun(b, e)), s') && s'.runs == s.runs + [(b, e)] && s'.reserved == 0
    ensures |s'.workers| == |s.workers| && s'.workers[0] == Load(b, e)
    ensures forall t :: 1 <= t < |s'.workers| ==>
      s'.workers[t] == Reserve(b, e, ChunkSize(e - b, 0, |s.workers|))
  {
    hide Leads;
    var T := |s.workers|;
    EncodeFacts(b, e);
    var s0 := Apply(s, CallRun(b, e));
    var s1 := Apply(s0, Publish);
    var s2 := Apply(s1, Notify);
    WakeRest(s2, 0, b, e);
    var s3 := s2.(workers := s2.workers[..0] + seq(T, _ => Load(b, e)));
    LoadRest(s3, 1, b, e);
    s' := s3.(workers := s3.workers[..1] + seq(T - 1, _ => Reserve(b, e, ChunkSize(e - b, 0, T))));
    LeadsJoin(s2, s3, s');
    LeadsStep(s1, Notify, s');
    LeadsStep(s0, Publish, s');
  }

  /** Worker 0 does all the work, the others then add their stale chunks, and worker
      0 is about to add one more. */
  lemma WorstEnd(s: State, b: int, e: int, m: int) returns (s': State)
    requires |s.workers| > 0 && s.workers[0] == Load(b, e) && s.reserved == 0 && b < e && m >= 1
    requires forall t :: 1 <= t < |s.workers| ==> s.workers[t] == Reserve(b, e, m)
    ensures Leads(s, s') && s'.runs == s.runs && |s'.workers| == |s.workers|
    ensures s'.workers[0] == Reserve(b, e, 1) && s'.reserved == e - b + Times(|s.workers| - 1, m)
  {
    hide Leads;
    var T := |s.workers|;
    var s5 := Solo(s, b, e);
    FetchRest(s5, 1, b, e, m);
    var s6 := s5.(workers := s5.workers[..1] + seq(T - 1, _ => Start), reserved := s5.reserved + Times(T - 1, m));
    TimesSign(T - 1, m);
    ChunkWhenUsedUp(e - b, s6.reserved, T);
    s' := Apply(s6, LoadReserved(0));
    LeadsSelf(s');
    LeadsStep(s6, LoadReserved(0), s');
    LeadsJoin(s5, s6, s');
    LeadsJoin(s, s5, s');
  }

  lemma TimesSign(k: nat, m: nat)
    ensures Times(k, m) >= 0
  {
  }

  /** The schedule that reaches the bound. */
  lemma WorstSchedule(s: State, b: int, e: int) returns (s': State)
    requires Inv(s) && s.main.Idle? && 0 <= b < e <= INT_MAX
    ensures Leads(Apply(s, CallRun(b, e)), s') && s'.runs == s.runs + [(b, e)]
    ensures |s'.workers| == |s.workers| && s'.workers[0] == Reserve(b, e, 1)
    ensures s'.reserved == e - b + Times(|s.workers| - 1, ChunkSize(e - b, 0, |s.workers|))
  {
    var s4 := WorstStart(s, b, e);
    s' := WorstEnd(s4, b, e, ChunkSize(e - b, 0, |s.workers|));
    LeadsJoin(Apply(s, CallRun(b, e)), s4, s');
  }

  /** No schedule of the call Run(b, e), made in state s, overflows a sum. */
  ghost predicate SumsAlwaysFit(s: State, b: int, e: int)
    requires |s.workers| > 0 && Enabled(s, CallRun(b, e))
  {
    forall steps, s' ::
      Steps(Apply(s, CallRun(b, e)), steps, s') && s'.runs == s.runs + [(b, e)] ==> SumsFit(s')
  }

  /** A call of Run keeps its sums in range under every schedule exactly when
      end + (T - 1) * M + 1 does, with M the chunk size of a load at the start. */
  lemma NoOverflowIff(s: State, b: int, e: int)
    requires Inv(s) && s.main.Idle? && 0 <= b < e <= INT_MAX
    ensures SumsAlwaysFit(s, b, e)
       <==> e + Times(|s.workers| - 1, ChunkSize(e - b, 0, |s.workers|)) + 1 <= INT_MAX
  {
    var s0 := Apply(s, CallRun(b, e));
    StepKeeps(s, CallRun(b, e));
    CounterMaxPositive(s0);
    assert MaxChunk(s0) == ChunkSize(e - b, 0, |s.workers|);
    if e + Times(|s.workers| - 1, ChunkSize(e - b, 0, |s.workers|)) + 1 <= INT_MAX {
      forall steps, s' | Steps(s0, steps, s') && s'.runs == s.runs + [(b, e)] ensures SumsFit(s') {
        SameCall(s0, steps, s');
        BoundedSumsFit(s');
      }
    } else {
      var s' := WorstSchedule(s, b, e);
      var steps :| Steps(s0, steps, s');
      assert s'.workers[0].Reserve?;
      assert !SumsFit(s');
    }
  }

  /** Two threads and the two topmost tasks an `int` can name are already too much. */
  lemma OverflowExample(s: State)
    requires Inv(s) && s.main.Idle? && |s.workers| == 2
    ensures !SumsAlwaysFit(s, INT_MAX - 2, INT_MAX)
  {
    NoOverflowIff(s, INT_MAX - 2, INT_MAX);
  }
}
