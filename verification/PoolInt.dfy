/** The pool with its counter and bounds in 32-bit `int`s: what is proved for unbounded
    integers holds for every call whose sums cannot leave that range. */
module PoolInt {
  import opened Powers
  import opened PoolModel
  import opened PoolSafety
  import opened PoolProgress
  import opened PoolBound
  import opened PoolOverflow

  /** Two's complement. The atomic counter wraps; for the other sums of RunRange this
      stands for whatever the compiler makes of an overflow. */
  function Int32(x: int): int { (x + 0x8000_0000) % SHIFT32 - 0x8000_0000 }

  function ApplyInt(s: State, step: Step): State
    requires Enabled(s, step) && |s.workers| > 0
  {
    match step
    case LoadReserved(t) =>
      var w := s.workers[t];
      var remaining := Int32(Int32(w.end - w.begin) - s.reserved);
      s.(workers := s.workers[t := Reserve(w.begin, w.end, Max(Quot(remaining, |s.workers| * 2), 1))])
    case FetchAdd(t) =>
      var w := s.workers[t];
      var myBegin := Int32(w.begin + s.reserved);
      var myEnd := Min(Int32(myBegin + w.size), Int32(w.begin + Int32(w.end - w.begin)));
      s.(reserved := Int32(s.reserved + w.size),
         workers := s.workers[t := if myBegin >= myEnd then Start else Task(w.begin, w.end, myBegin, myEnd)])
    case _ => Apply(s, step)
  }

  ghost predicate NextInt(s: State, s': State) {
    |s.workers| > 0 && exists step :: Enabled(s, step) && s' == ApplyInt(s, step)
  }

  /** Any interleaving, with fewer than 2^30 threads. */
  ghost predicate IsIntRun(states: seq<State>) {
    && states != [] && Initial(states[0]) && |states[0].workers| * 2 <= INT_MAX
    && forall i :: 0 <= i < |states| - 1 ==> NextInt(states[i], states[i + 1])
  }

  /** The exact condition under which no schedule of the call overflows. */
  predicate CallFits(range: (int, int), threads: nat)
    requires threads > 0
  {
    range.0 < range.1 ==>
      range.1 + Times(threads - 1, ChunkSize(range.1 - range.0, 0, threads)) + 1 <= INT_MAX
  }

  ghost predicate CallsFit(s: State) {
    |s.workers| > 0 && forall range :: range in s.runs ==> CallFits(range, |s.workers|)
  }

  ghost predicate RangeFits(s: State) {
    |s.workers| > 0 && s.range.0 + CounterMax(s) <= INT_MAX
  }

  lemma Int32Is(x: int)
    requires -0x8000_0000 <= x <= INT_MAX
    ensures Int32(x) == x
  {
  }

  /** No worker runs a range except during a call. */
  lemma DuringCall(s: State, t: nat)
    requires CounterInv(s) && t < |s.workers| && (s.workers[t].Load? || s.workers[t].Reserve?)
    ensures RangeOk(s) && WorkerOk(s, s.workers[t]) && Bounded(s)
  {
  }

  lemma LoadSame(s: State, t: nat)
    requires CounterInv(s) && RangeFits(s) && Enabled(s, LoadReserved(t))
    ensures ApplyInt(s, LoadReserved(t)) == Apply(s, LoadReserved(t))
  {
    DuringCall(s, t);
    CounterMaxPositive(s);
    hide CounterInv, CounterMax, MaxChunk, Quot, Int32;
    Int32Is(NumTasks(s));
    Int32Is(NumTasks(s) - s.reserved);
  }

  lemma FetchSame(s: State, t: nat)
    requires CounterInv(s) && RangeFits(s) && Enabled(s, FetchAdd(t))
    ensures ApplyInt(s, FetchAdd(t)) == Apply(s, FetchAdd(t))
  {
    hide CounterInv, CounterMax, MaxChunk, Quot, Int32, Bounded, SumsFit, RangeFits;
    FetchBounds(s, t);
    var w := s.workers[t];
    Int32Is(w.end - w.begin);
    Int32Is(w.end);
    Int32Is(w.begin + s.reserved);
    Int32Is(w.begin + s.reserved + w.size);
    Int32Is(s.reserved + w.size);
  }

  lemma FetchBounds(s: State, t: nat)
    requires CounterInv(s) && RangeFits(s) && Enabled(s, FetchAdd(t))
    ensures var w := s.workers[t];
            && 0 <= w.begin <= w.end <= INT_MAX && 0 <= s.reserved && 1 <= w.size
            && w.begin + s.reserved + w.size <= INT_MAX
  {
    hide CounterInv, CounterMax, MaxChunk, Quot, Bounded;
    DuringCall(s, t);
    BoundedSumsFit(s);
  }

  lemma StepSame(s: State, step: Step)
    requires CounterInv(s) && RangeFits(s) && Enabled(s, step)
    ensures ApplyInt(s, step) == Apply(s, step)
  {
    hide CounterInv, RangeFits;
    match step
    case LoadReserved(t) => LoadSame(s, t);
    case FetchAdd(t) => FetchSame(s, t);
    case _ =>
  }

  /** Calls are only added, and one that fits keeps the range within bounds. */
  lemma StepFits(s: State, step: Step)
    requires |s.workers| > 0 && Enabled(s, step)
    ensures CallsFit(Apply(s, step)) ==> CallsFit(s)
    ensures CallsFit(Apply(s, step)) && RangeFits(s) ==> RangeFits(Apply(s, step))
  {
    hide Times, Quot;
    var s' := Apply(s, step);
    if step.CallRun? {
      assert forall range :: range in s.runs ==> range in s'.runs;
      assert (step.begin, step.end) in s'.runs;
    }
  }

  /** As long as every call fits, the wrapped sums are the exact ones: the run is one
      of the machine with unbounded integers. */
  lemma {:induction false} IntRunIsRun(states: seq<State>, n: nat)
    requires IsIntRun(states) && n < |states| && CallsFit(states[n])
    ensures IsRun(states[..n + 1]) && CounterInv(states[n]) && RangeFits(states[n])
  {
    hide CounterInv, CallsFit, Apply, ApplyInt, Enabled, RangeFits;
    var run := states[..n + 1];
    if n == 0 {
      InitialCounter(states[0]);
      InitialFits(states[0]);
    } else {
      var s, s' := states[n - 1], states[n];
      assert NextInt(states[n - 1], states[n - 1 + 1]);
      PreviousFits(states, n);
      IntRunIsRun(states, n - 1);
      var step :| Enabled(s, step) && s' == ApplyInt(s, step);
      StepSame(s, step);
      StepBounded(s, step);
      StepFits(s, step);
      assert Next(s, s');
      ExtendRun(states[..n], run);
    }
  }

  /** The step before the n-th state made no call that does not fit. */
  lemma PreviousFits(states: seq<State>, n: nat)
    requires IsIntRun(states) && 0 < n < |states| && CallsFit(states[n])
    ensures CallsFit(states[n - 1])
  {
    hide CallFits;
    assert NextInt(states[n - 1], states[n - 1 + 1]);
    var step :| Enabled(states[n - 1], step) && states[n] == ApplyInt(states[n - 1], step);
    forall range | range in states[n - 1].runs ensures range in states[n].runs {
    }
  }

  lemma ExtendRun(run: seq<State>, longer: seq<State>)
    requires IsRun(run) && |longer| == |run| + 1 && longer[..|run|] == run
    requires Next(run[|run| - 1], longer[|run|])
    ensures IsRun(longer)
  {
    hide Next, Initial;
    assert longer[0] == run[0];
    forall i | 0 <= i < |longer| - 1 ensures Next(longer[i], longer[i + 1]) {
      assert longer[i] == run[i];
      if i + 1 < |run| { assert longer[i + 1] == run[i + 1] && Next(run[i], run[i + 1]); }
    }
  }

  lemma InitialFits(s: State)
    requires Initial(s) && |s.workers| * 2 <= INT_MAX
    ensures RangeFits(s)
  {
    assert Quot(0, |s.workers| * 2) == 0;
    TimesIs(|s.workers| - 1, 1);
  }

  /** Each task of every call exactly once, with 32-bit arithmetic. */
  lemma ExactlyOnceInt(states: seq<State>, n: nat, k: nat, i: int)
    requires IsIntRun(states) && n < |states| && CallsFit(states[n]) && states[n].main.Idle?
    ensures forall t :: 0 <= t < |states[n].workers| ==> states[n].workers[t].Waiting?
    ensures k < |states[n].runs| ==> states[n].executed[(k, i)] == InRange(states[n].runs[k], i)
    ensures k >= |states[n].runs| ==> states[n].executed[(k, i)] == 0
  {
    IntRunIsRun(states, n);
    hide IsRun, IsIntRun, CallsFit;
    ExactlyOnce(states[..n + 1], n, k, i);
  }

  /** Never twice and never out of range, with 32-bit arithmetic. */
  lemma NeverTwiceInt(states: seq<State>, n: nat, k: nat, i: int)
    requires IsIntRun(states) && n < |states| && CallsFit(states[n])
    ensures states[n].executed[(k, i)] <= if k < |states[n].runs| then InRange(states[n].runs[k], i) else 0
  {
    IntRunIsRun(states, n);
    hide IsRun, IsIntRun, CallsFit;
    NeverTwice(states[..n + 1], n, k, i);
  }

  /** A call that fits returns within Measure steps, with 32-bit arithmetic. */
  lemma CallsReturnInt(states: seq<State>, m: nat, n: nat)
    requires IsIntRun(states) && m <= n < |states| && CallsFit(states[n])
    requires forall i :: m <= i <= n ==> !states[i].main.Idle?
    ensures n - m <= Measure(states[m])
  {
    IntRunIsRun(states, n);
    RunKeeps(states[..n + 1], m);
    hide IsIntRun, CallsFit, CounterInv, Inv, Next, Measure, Initial;
    var stretch := states[m..n + 1];
    forall i | 0 <= i < |stretch| - 1 ensures Next(stretch[i], stretch[i + 1]) {
      assert stretch[i] == states[..n + 1][m + i] && stretch[i + 1] == states[..n + 1][m + i + 1];
      assert Next(states[..n + 1][m + i], states[..n + 1][m + i + 1]);
    }
    CallsReturn(stretch);
  }
}
