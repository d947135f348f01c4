/** Every call returns: no state of a call in progress is stuck, and every step
    makes one number smaller, whatever the schedule. */
module PoolProgress {
  import opened PoolModel
  import opened PoolSafety

  /** How many steps a worker can still take by itself. */
  function Weight(w: Worker): nat {
    match w
    case Start => 2
    case Waiting => 0
    case Woken => 5
    case Load(_, _) => 4
    case Reserve(_, _, _) => 3
    case Task(_, _, i, myEnd) => 4 + if myEnd > i then myEnd - i else 0
    case Exited => 0
  }

  function Unreserved(s: State): nat {
    if s.reserved < NumTasks(s) then NumTasks(s) - s.reserved else 0
  }

  function Measure(s: State): nat {
    var T := |s.workers|;
    match s.main
    case Idle => 0
    case SetCommand(_) => 5 * T + 3 * Unreserved(s) + 3
    case NotifyAll => 5 * T + 3 * Unreserved(s) + 2
    case Barrier => Sum(Weight, s.workers) + 3 * Unreserved(s) + 1
    case Asleep => Sum(Weight, s.workers) + 3 * Unreserved(s)
    case Joining => Sum(Weight, s.workers) + 1
    case Destroyed => 0
  }

  /** No deadlock: in particular the wake-up of the main thread is never lost. */
  lemma CanStep(s: State)
    requires Inv(s) && !s.main.Destroyed?
    ensures exists step :: Enabled(s, step)
  {
    match s.main
    case Idle => assert Enabled(s, CallDestructor);
    case SetCommand(_) => assert Enabled(s, Publish);
    case NotifyAll => assert Enabled(s, Notify);
    case Barrier => assert Enabled(s, CheckReady);
    case Joining =>
      if t :| 0 <= t < |s.workers| && s.workers[t].Woken? { assert Enabled(s, Wake(t)); }
      else { assert Enabled(s, Join); }
    case Asleep =>
      if t :| 0 <= t < |s.workers| && !s.workers[t].Waiting? {
        assert WorkerOk(s, s.workers[t]);
        match s.workers[t]
        case Start => assert Enabled(s, Report(t));
        case Woken => assert Enabled(s, Wake(t));
        case Load(_, _) => assert Enabled(s, LoadReserved(t));
        case Reserve(_, _, _) => assert Enabled(s, FetchAdd(t));
        case Task(_, _, _, _) => assert Enabled(s, RunTask(t));
      } else {
        SumOnes(IsWaiting, s.workers);
        assert false;
      }
  }

  lemma {:induction false} SumOnes(f: Worker -> nat, ws: seq<Worker>)
    requires forall t :: 0 <= t < |ws| ==> f(ws[t]) == 1
    ensures Sum(f, ws) == |ws|
  {
    if ws != [] { SumOnes(f, ws[1..]); }
  }

  /** Waking everyone gives each worker the five steps of a fruitless round. */
  lemma {:induction false} SumAll(ws: seq<Worker>, c: nat)
    requires forall t :: 0 <= t < |ws| ==> Weight(ws[t]) == c
    ensures Sum(Weight, ws) == c * |ws|
  {
    if ws != [] { SumAll(ws[1..], c); }
  }

  lemma WorkerStepDecreases(s: State, step: Step)
    requires Inv(s) && Enabled(s, step)
    requires step.Report? || step.Wake? || step.LoadReserved? || step.FetchAdd? || step.RunTask?
    ensures Measure(Apply(s, step)) < Measure(s)
  {
    var s' := Apply(s, step);
    var t := step.t;
    SumSet(Weight, s.workers, t, s'.workers[t]);
    if s.main.Barrier? || s.main.Asleep? {
      assert WorkerOk(s, s.workers[t]);
      EncodeFactsOr(s);
    }
  }

  lemma StepDecreases(s: State, step: Step)
    requires Inv(s) && Enabled(s, step) && !s.main.Idle?
    ensures Apply(s, step).main.Idle? || Measure(Apply(s, step)) < Measure(s)
  {
    var s' := Apply(s, step);
    if step.Notify? {
      SumAll(s'.workers, 5);
    } else if !(step.CheckReady? || step.Publish? || step.Join?) {
      WorkerStepDecreases(s, step);
    }
  }

  /** Any stretch of a run in which a call is in progress is short: the call returns
      after at most Measure steps, fair scheduler or not. */
  lemma {:induction false} CallsReturn(states: seq<State>)
    requires states != [] && Inv(states[0])
    requires forall i :: 0 <= i < |states| - 1 ==> Next(states[i], states[i + 1])
    requires forall i :: 0 <= i < |states| ==> !states[i].main.Idle?
    ensures |states| - 1 <= Measure(states[0])
    decreases |states|
  {
    if |states| > 1 {
      var s := states[0];
      assert Next(states[0], states[1]);
      var step :| Enabled(s, step) && states[1] == Apply(s, step);
      StepKeeps(s, step);
      StepDecreases(s, step);
      var rest := states[1..];
      forall i | 0 <= i < |rest| - 1 ensures Next(rest[i], rest[i + 1]) {
        assert Next(states[i + 1], states[i + 2]);
      }
      CallsReturn(rest);
    }
  }
}
