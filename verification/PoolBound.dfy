/** How far past the end the shared counter can run when chunk sizes come from stale
    loads: the exact maximum over all schedules. */
module PoolBound {
  import opened Powers
  import opened Words
  import opened PoolModel
  import opened PoolSafety

  /** What a worker can still add once the range is used up. */
  function Pending(w: Worker): nat {
    match w
    case Woken => 1
    case Load(_, _) => 1
    case Task(_, _, _, _) => 1
    case Reserve(_, _, size) => if size >= 0 then size else 0
    case _ => 0
  }

  /** The largest value the counter reaches in a call. */
  function CounterMax(s: State): int
    requires |s.workers| > 0
  {
    NumTasks(s) + Times(|s.workers| - 1, MaxChunk(s)) + 1
  }

  /** Worker t cannot by itself push the counter past the range. */
  ghost predicate Harmless(s: State, t: nat)
    requires t < |s.workers|
  {
    s.workers[t].Reserve? ==> s.reserved + s.workers[t].size <= NumTasks(s)
  }

  ghost predicate Bounded(s: State)
    requires |s.workers| > 0
  {
    if s.reserved < NumTasks(s) then exists t :: 0 <= t < |s.workers| && Harmless(s, t)
    else s.reserved + Sum(Pending, s.workers) <= CounterMax(s)
  }

  ghost predicate CounterInv(s: State) {
    && Inv(s)
    && (if s.main.Barrier? || s.main.Asleep? then Bounded(s) else s.reserved <= CounterMax(s))
  }

  lemma CounterMaxPositive(s: State)
    requires |s.workers| > 0 && NumTasks(s) >= 0
    ensures CounterMax(s) >= NumTasks(s) + 1
  {
    MulMono(|s.workers| - 1, 0, MaxChunk(s));
  }

  /** When everyone can still add at most m, and worker t no more than it does. */
  lemma {:induction false} SumExceptOne(ws: seq<Worker>, m: nat, t: nat)
    requires t < |ws|
    requires forall v :: 0 <= v < |ws| ==> Pending(ws[v]) <= m
    ensures Sum(Pending, ws) <= Times(|ws| - 1, m) + Pending(ws[t])
  {
    if t == 0 {
      SumAtMost(Pending, ws[1..], m);
      TimesIs(|ws| - 1, m);
    } else {
      SumExceptOne(ws[1..], m, t - 1);
      OneMore(|ws| - 2, m);
    }
  }

  lemma {:induction false} SumExceptTwo(ws: seq<Worker>, m: nat, t: nat, u: nat)
    requires t < u < |ws|
    requires forall v :: 0 <= v < |ws| ==> Pending(ws[v]) <= m
    ensures Sum(Pending, ws) <= Times(|ws| - 2, m) + Pending(ws[t]) + Pending(ws[u])
  {
    if t == 0 {
      SumExceptOne(ws[1..], m, u - 1);
    } else {
      SumExceptTwo(ws[1..], m, t - 1, u - 1);
      OneMore(|ws| - 3, m);
    }
  }

  lemma TimesIs(k: int, m: int)
    ensures Times(k, m) == k * m
  {
  }

  lemma OneMore(k: int, m: int)
    ensures Times(k + 1, m) == Times(k, m) + m
  {
  }

  /** The step that uses up the range: of the others one is harmless, so only T - 1
      of the chunks in flight can be as large as the first. */
  lemma CrossingBound(s: State, t: nat)
    requires CounterInv(s) && Enabled(s, FetchAdd(t)) && s.reserved < NumTasks(s)
    requires Apply(s, FetchAdd(t)).reserved >= NumTasks(s)
    ensures Bounded(Apply(s, FetchAdd(t)))
  {
    var s' := Apply(s, FetchAdd(t));
    var m := MaxChunk(s);
    var u :| 0 <= u < |s.workers| && Harmless(s, u);
    assert forall v :: 0 <= v < |s.workers| ==> WorkerOk(s, s.workers[v]);
    assert s'.workers[t].Task?;
    OneMore(|s.workers| - 2, m);
    if u == t {
      SumExceptOne(s'.workers, m, t);
    } else {
      if u < t { SumExceptTwo(s'.workers, m, u, t); } else { SumExceptTwo(s'.workers, m, t, u); }
    }
  }

  lemma OtherStepBounded(s: State, step: Step)
    requires CounterInv(s) && Enabled(s, step) && (s.main.Barrier? || s.main.Asleep?)
    requires step.Report? || step.Wake? || step.LoadReserved? || step.RunTask?
    ensures Bounded(Apply(s, step))
  {
    var s' := Apply(s, step);
    var t := step.t;
    assert WorkerOk(s, s.workers[t]);
    EncodeFactsOr(s);
    ChunkAtMost(NumTasks(s), s.reserved, |s.workers|);
    if s.reserved < NumTasks(s) {
      var u :| 0 <= u < |s.workers| && Harmless(s, u);
      assert Harmless(s', u);
    } else {
      ChunkWhenUsedUp(NumTasks(s), s.reserved, |s.workers|);
      SumSet(Pending, s.workers, t, s'.workers[t]);
    }
  }

  lemma FetchBounded(s: State, t: nat)
    requires CounterInv(s) && Enabled(s, FetchAdd(t)) && (s.main.Barrier? || s.main.Asleep?)
    ensures Bounded(Apply(s, FetchAdd(t)))
  {
    var s' := Apply(s, FetchAdd(t));
    assert WorkerOk(s, s.workers[t]);
    if s.reserved < NumTasks(s) <= s'.reserved {
      CrossingBound(s, t);
    } else if s'.reserved < NumTasks(s) {
      assert Harmless(s', t);
    } else {
      SumSet(Pending, s.workers, t, s'.workers[t]);
    }
  }

  lemma ChunkWhenUsedUp(n: int, loaded: int, threads: nat)
    requires threads > 0 && loaded >= n
    ensures ChunkSize(n, loaded, threads) == 1
  {
    if loaded > n {
      var x := loaded - n;
      DivLe(x, threads * 2);
    } else {
      DivModUnique(0, threads * 2, 0, 0);
    }
  }

  lemma StepBounded(s: State, step: Step)
    requires CounterInv(s) && Enabled(s, step)
    ensures CounterInv(Apply(s, step))
  {
    var s' := Apply(s, step);
    StepKeeps(s, step);
    if step.FetchAdd? {
      FetchBounded(s, step.t);
    } else if (s.main.Barrier? || s.main.Asleep?) && !step.CheckReady? {
      OtherStepBounded(s, step);
    } else {
      hide Sum, Times;
      match step
      case CallRun(begin, end) => if begin < end { CounterMaxPositive(s'); }
      case Notify =>
        if s.command != EXIT {
          assert Harmless(s', 0);
        }
      case CheckReady =>
        assert WorkerOk(s, s.workers[0]);
        if s'.main.Idle? {
          SumAtMost(IsWaiting, s.workers, 1);
          SumFull(IsWaiting, s.workers, 0);
        } else if s.reserved < NumTasks(s) {
          var u :| 0 <= u < |s.workers| && Harmless(s, u);
          assert Harmless(s', u);
        }
      case _ =>
    }
  }

  lemma InitialCounter(s: State)
    requires Initial(s)
    ensures CounterInv(s)
  {
    InitialInv(s);
    StartPendingNothing(s.workers);
    CounterMaxPositive(s);
  }

  lemma {:induction false} StartPendingNothing(ws: seq<Worker>)
    requires forall t :: 0 <= t < |ws| ==> ws[t].Start?
    ensures Sum(Pending, ws) == 0
  {
    if ws != [] { StartPendingNothing(ws[1..]); }
  }

  lemma {:induction false} RunBounded(states: seq<State>, n: nat)
    requires IsRun(states) && n < |states|
    ensures CounterInv(states[n])
  {
    hide CounterInv, Apply, Enabled, Initial;
    if n == 0 {
      InitialCounter(states[0]);
    } else {
      RunBounded(states, n - 1);
      assert Next(states[n - 1], states[n - 1 + 1]);
      var step :| Enabled(states[n - 1], step) && states[n] == Apply(states[n - 1], step);
      StepBounded(states[n - 1], step);
    }
  }

  /** In every interleaving the counter stays within N + (T - 1) * M + 1 for N tasks,
      T threads and M the chunk size of the first load. */
  lemma CounterBound(states: seq<State>, n: nat)
    requires IsRun(states) && n < |states|
    ensures |states[n].workers| > 0 && states[n].reserved <= CounterMax(states[n])
    ensures CounterMax(states[n]) <= NumTasks(states[n]) + Times(|states[n].workers|, MaxChunk(states[n]))
  {
    RunBounded(states, n);
    var s := states[n];
    OneMore(|s.workers| - 1, MaxChunk(s));
    if s.main.Barrier? || s.main.Asleep? { CounterMaxPositive(s); }
  }
}
