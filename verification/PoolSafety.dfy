/** What every interleaving of the pool keeps, and what it guarantees. */
module PoolSafety {
  import opened PoolModel
  import opened Powers
  import opened Words

  /** A quantity summed over the workers. */
  function Sum(f: Worker -> nat, ws: seq<Worker>): nat {
    if ws == [] then 0 else f(ws[0]) + Sum(f, ws[1..])
  }

  lemma {:induction false} SumSet(f: Worker -> nat, ws: seq<Worker>, t: nat, w: Worker)
    requires t < |ws|
    ensures Sum(f, ws[t := w]) + f(ws[t]) == Sum(f, ws) + f(w)
  {
    var r := ws[t := w];
    if t == 0 {
      assert r[1..] == ws[1..];
    } else {
      assert r[1..] == ws[1..][t - 1 := w];
      SumSet(f, ws[1..], t - 1, w);
    }
  }

  lemma {:induction false} SumAtMost(f: Worker -> nat, ws: seq<Worker>, m: nat)
    requires forall t :: 0 <= t < |ws| ==> f(ws[t]) <= m
    ensures Sum(f, ws) <= |ws| * m
  {
    if ws != [] { SumAtMost(f, ws[1..], m); }
  }

  lemma {:induction false} SumZero(f: Worker -> nat, ws: seq<Worker>)
    requires forall t :: 0 <= t < |ws| ==> f(ws[t]) == 0
    ensures Sum(f, ws) == 0
  {
    if ws != [] { SumZero(f, ws[1..]); }
  }

  /** All of a counted property means every worker has it. */
  lemma {:induction false} SumFull(f: Worker -> nat, ws: seq<Worker>, t: nat)
    requires t < |ws| && Sum(f, ws) == |ws|
    requires forall u :: 0 <= u < |ws| ==> f(ws[u]) <= 1
    ensures f(ws[t]) == 1
  {
    SumAtMost(f, ws[1..], 1);
    if t > 0 { SumFull(f, ws[1..], t - 1); }
  }

  function IsWaiting(w: Worker): nat { if w.Waiting? then 1 else 0 }

  /** Does the worker hold task i, reserved and not yet executed? */
  function Holds(i: int): Worker -> nat {
    (w: Worker) => if w.Task? && w.i <= i < w.myEnd then 1 else 0
  }

  function InRange(r: (int, int), i: int): nat { if r.0 <= i < r.1 then 1 else 0 }

  function NumTasks(s: State): int { s.range.1 - s.range.0 }

  /** The largest chunk any load can ask for. */
  function MaxChunk(s: State): (m: nat)
    requires |s.workers| > 0
    ensures m >= 1
  {
    Max(Quot(NumTasks(s), |s.workers| * 2), 1)
  }

  /** The tasks of the current range that have been reserved so far. */
  function Taken(s: State): (int, int) {
    (s.range.0, s.range.0 + Min(s.reserved, NumTasks(s)))
  }

  ghost predicate WorkerOk(s: State, w: Worker)
    requires |s.workers| > 0
  {
    match w
    case Start => s.reserved >= NumTasks(s)
    case Waiting => s.reserved >= NumTasks(s)
    case Woken => NumTasks(s) > 0 && 0 <= s.range.0 && s.command == Encode(s.range.0, s.range.1)
    case Load(b, e) => (b, e) == s.range
    case Reserve(b, e, size) => (b, e) == s.range && 1 <= size <= MaxChunk(s)
    case Task(b, e, i, myEnd) => (b, e) == s.range && b <= i < myEnd <= Taken(s).1
    case Exited => false
  }

  /** Every earlier call is complete: each task of its range once, no other task. */
  ghost predicate RunDone(s: State, k: nat) {
    forall i :: s.executed[(k, i)] == if k < |s.runs| then InRange(s.runs[k], i) else 0
  }

  /** Each reserved task has been executed or is held by one worker; no other has. */
  ghost predicate RunGoing(s: State) {
    forall i :: s.executed[(s.task, i)] + Sum(Holds(i), s.workers) == InRange(Taken(s), i)
  }

  ghost predicate AllWaiting(s: State) {
    s.ready == 0 && forall t :: 0 <= t < |s.workers| ==> s.workers[t].Waiting?
  }

  ghost predicate RangeOk(s: State) {
    && 0 <= s.range.0 <= s.range.1 <= INT_MAX && 0 <= s.reserved
    && (s.task < |s.runs| ==> s.runs[s.task] == s.range)
    && (s.task >= |s.runs| ==> NumTasks(s) == 0)
  }

  /** Between the notification and the end of the barrier. */
  ghost predicate Running(s: State)
    requires |s.workers| > 0
  {
    && RangeOk(s)
    && (forall t :: 0 <= t < |s.workers| ==> WorkerOk(s, s.workers[t]))
    && s.ready == Sum(IsWaiting, s.workers)
    && (s.main.Asleep? ==> s.ready < |s.workers|)
    && (forall k: nat :: k != s.task ==> RunDone(s, k))
    && RunGoing(s)
  }

  /** Run has stored the task and the counter, and the workers have not been told. */
  ghost predicate Armed(s: State) {
    && AllWaiting(s) && RangeOk(s) && NumTasks(s) > 0 && s.reserved == 0
    && (forall k: nat :: k != s.task ==> RunDone(s, k))
    && forall i :: s.executed[(s.task, i)] == 0
  }

  ghost predicate AllDone(s: State) { forall k: nat :: RunDone(s, k) }

  ghost predicate Inv(s: State) {
    && |s.workers| > 0
    && match s.main
       case Barrier => Running(s)
       case Asleep => Running(s)
       case Idle => AllWaiting(s) && AllDone(s)
       case SetCommand(w) =>
         AllWaiting(s) && (w != EXIT ==> Armed(s) && w == Encode(s.range.0, s.range.1)) && (w == EXIT ==> AllDone(s))
       case NotifyAll =>
         && AllWaiting(s)
         && (s.command != EXIT ==> Armed(s) && s.command == Encode(s.range.0, s.range.1))
         && (s.command == EXIT ==> AllDone(s))
       case Joining =>
         && AllDone(s) && s.command == EXIT
         && forall t :: 0 <= t < |s.workers| ==> s.workers[t].Woken? || s.workers[t].Exited?
       case Destroyed =>
         AllDone(s) && forall t :: 0 <= t < |s.workers| ==> s.workers[t].Exited?
  }

  lemma InitialInv(s: State)
    requires Initial(s)
    ensures Inv(s)
  {
    SumZero(IsWaiting, s.workers);
    forall i ensures Sum(Holds(i), s.workers) == 0 { SumZero(Holds(i), s.workers); }
  }

  /** Replacing a worker that holds no task by another that holds none. */
  lemma HoldsUnchanged(s: State, s': State, t: nat)
    requires t < |s.workers| == |s'.workers| && s'.workers == s.workers[t := s'.workers[t]]
    requires !s.workers[t].Task? && !s'.workers[t].Task?
    ensures forall i :: Sum(Holds(i), s'.workers) == Sum(Holds(i), s.workers)
  {
    forall i ensures Sum(Holds(i), s'.workers) == Sum(Holds(i), s.workers) {
      SumSet(Holds(i), s.workers, t, s'.workers[t]);
    }
  }

  lemma ReportKeeps(s: State, t: nat)
    requires Inv(s) && Enabled(s, Report(t))
    ensures Inv(Apply(s, Report(t)))
  {
    var s' := Apply(s, Report(t));
    SumSet(IsWaiting, s.workers, t, Waiting);
    SumAtMost(IsWaiting, s'.workers, 1);
    HoldsUnchanged(s, s', t);
    assert forall k: nat :: RunDone(s, k) ==> RunDone(s', k);
  }

  lemma WakeKeeps(s: State, t: nat)
    requires Inv(s) && Enabled(s, Wake(t))
    ensures Inv(Apply(s, Wake(t)))
  {
    var s' := Apply(s, Wake(t));
    if s.main.Joining? {
      assert forall k: nat :: RunDone(s, k) ==> RunDone(s', k);
    } else {
      EncodeFacts(s.range.0, s.range.1);
      SumSet(IsWaiting, s.workers, t, s'.workers[t]);
      HoldsUnchanged(s, s', t);
      assert forall k: nat :: RunDone(s, k) ==> RunDone(s', k);
    }
  }

  /** A worker that moves on without a task leaves every count as it is. */
  lemma QuietStep(s: State, t: nat, w: Worker)
    requires Inv(s) && Running(s) && t < |s.workers| && !s.workers[t].Task? && !w.Task?
    ensures var s' := s.(workers := s.workers[t := w]);
            RunGoing(s') && forall k: nat :: k != s.task ==> RunDone(s', k)
  {
    var s' := s.(workers := s.workers[t := w]);
    HoldsUnchanged(s, s', t);
    assert forall k: nat :: RunDone(s, k) ==> RunDone(s', k);
  }

  lemma LoadKeeps(s: State, t: nat)
    requires Inv(s) && Enabled(s, LoadReserved(t))
    ensures Inv(Apply(s, LoadReserved(t)))
  {
    var s' := Apply(s, LoadReserved(t));
    assert Running(s);
    QuietStep(s, t, s'.workers[t]);
    hide RunGoing, RunDone;
    ChunkAtMost(NumTasks(s), s.reserved, |s.workers|);
    hide ChunkSize, MaxChunk;
    SumSet(IsWaiting, s.workers, t, s'.workers[t]);
  }

  lemma ChunkAtMost(n: int, loaded: int, threads: nat)
    requires threads > 0 && loaded >= 0 && n >= 0
    ensures ChunkSize(n, loaded, threads) <= Max(Quot(n, threads * 2), 1)
    ensures loaded < n ==> ChunkSize(n, loaded, threads) <= n - loaded
  {
    DivMonotone(n - loaded, n, threads * 2);
  }

  lemma DivMonotone(a: int, b: int, d: int)
    requires d > 0 && a <= b
    ensures a >= 0 ==> 0 <= a / d <= b / d && a / d <= a
  {
    if a >= 0 {
      DivLe(a, d);
      var p, q := a / d, b / d;
      if p > q { MulMono(d, q + 1, p); }
    }
  }

  /** A successful reservation hands exactly the newly taken tasks to worker t. */
  lemma FetchGoing(s: State, t: nat)
    requires Inv(s) && Enabled(s, FetchAdd(t))
    ensures RunGoing(Apply(s, FetchAdd(t)))
  {
    var s' := Apply(s, FetchAdd(t));
    assert Running(s) && WorkerOk(s, s.workers[t]);
    forall i ensures s'.executed[(s'.task, i)] + Sum(Holds(i), s'.workers) == InRange(Taken(s'), i) {
      SumSet(Holds(i), s.workers, t, s'.workers[t]);
      assert s.executed[(s.task, i)] + Sum(Holds(i), s.workers) == InRange(Taken(s), i);
    }
  }

  lemma FetchKeeps(s: State, t: nat)
    requires Inv(s) && Enabled(s, FetchAdd(t))
    ensures Inv(Apply(s, FetchAdd(t)))
  {
    var s' := Apply(s, FetchAdd(t));
    FetchGoing(s, t);
    hide RunGoing;
    SumSet(IsWaiting, s.workers, t, s'.workers[t]);
    assert forall k: nat :: RunDone(s, k) ==> RunDone(s', k);
  }

  /** Executing task i moves it from worker t to the history. */
  lemma TaskGoing(s: State, t: nat)
    requires Inv(s) && Enabled(s, RunTask(t))
    ensures RunGoing(Apply(s, RunTask(t)))
    ensures forall k: nat :: k != s.task && RunDone(s, k) ==> RunDone(Apply(s, RunTask(t)), k)
  {
    var s' := Apply(s, RunTask(t));
    assert Running(s);
    forall i ensures s'.executed[(s'.task, i)] + Sum(Holds(i), s'.workers) == InRange(Taken(s'), i) {
      SumSet(Holds(i), s.workers, t, s'.workers[t]);
      assert s.executed[(s.task, i)] + Sum(Holds(i), s.workers) == InRange(Taken(s), i);
    }
    forall k: nat | k != s.task && RunDone(s, k) ensures RunDone(s', k) {
      assert forall i :: s'.executed[(k, i)] == s.executed[(k, i)];
    }
  }

  lemma TaskKeeps(s: State, t: nat)
    requires Inv(s) && Enabled(s, RunTask(t))
    ensures Inv(Apply(s, RunTask(t)))
  {
    var s' := Apply(s, RunTask(t));
    TaskGoing(s, t);
    hide RunGoing, RunDone;
    SumSet(IsWaiting, s.workers, t, s'.workers[t]);
  }

  lemma CallKeeps(s: State, begin: int, end: int)
    requires Inv(s) && Enabled(s, CallRun(begin, end))
    ensures Inv(Apply(s, CallRun(begin, end)))
  {
    var s' := Apply(s, CallRun(begin, end));
    forall k: nat | begin == end || k != |s.runs| ensures RunDone(s', k) {
      assert RunDone(s, k);
    }
    assert RunDone(s, |s.runs|);
    if begin < end { EncodeFacts(begin, end); }
  }

  lemma NotifyKeeps(s: State)
    requires Inv(s) && Enabled(s, Notify)
    ensures Inv(Apply(s, Notify))
  {
    var s' := Apply(s, Notify);
    assert forall k: nat :: RunDone(s, k) ==> RunDone(s', k);
    if s.command != EXIT {
      SumZero(IsWaiting, s'.workers);
      forall i ensures Sum(Holds(i), s'.workers) == 0 { SumZero(Holds(i), s'.workers); }
    }
  }

  /** The barrier opens only when every worker waits, and then the call is done. */
  lemma CheckKeeps(s: State)
    requires Inv(s) && Enabled(s, CheckReady)
    ensures Inv(Apply(s, CheckReady))
  {
    var s' := Apply(s, CheckReady);
    assert forall k: nat :: RunDone(s, k) ==> RunDone(s', k);
    SumAtMost(IsWaiting, s.workers, 1);
    if s.ready == |s.workers| {
      forall t | 0 <= t < |s.workers| ensures s.workers[t].Waiting? { SumFull(IsWaiting, s.workers, t); }
      forall i ensures Sum(Holds(i), s.workers) == 0 { SumZero(Holds(i), s.workers); }
      assert WorkerOk(s, s.workers[0]);
      assert RunDone(s', s.task);
    }
  }

  lemma MainKeeps(s: State, step: Step)
    requires Inv(s) && Enabled(s, step) && (step.CallDestructor? || step.Publish? || step.Join?)
    ensures Inv(Apply(s, step))
  {
    var s' := Apply(s, step);
    assert forall k: nat :: RunDone(s, k) ==> RunDone(s', k);
    if step.Publish? && s.main.word != EXIT { assert Armed(s'); }
  }

  lemma StepKeeps(s: State, step: Step)
    requires Inv(s) && Enabled(s, step)
    ensures Inv(Apply(s, step))
  {
    match step
    case Report(t) => ReportKeeps(s, t);
    case Wake(t) => WakeKeeps(s, t);
    case LoadReserved(t) => LoadKeeps(s, t);
    case FetchAdd(t) => FetchKeeps(s, t);
    case RunTask(t) => TaskKeeps(s, t);
    case CallRun(begin, end) => CallKeeps(s, begin, end);
    case Notify => NotifyKeeps(s);
    case CheckReady => CheckKeeps(s);
    case _ => MainKeeps(s, step);
  }

  lemma {:induction false} RunKeeps(states: seq<State>, n: nat)
    requires IsRun(states) && n < |states|
    ensures Inv(states[n])
  {
    if n == 0 {
      InitialInv(states[0]);
    } else {
      RunKeeps(states, n - 1);
      var step :| Enabled(states[n - 1], step) && states[n] == Apply(states[n - 1], step);
      StepKeeps(states[n - 1], step);
    }
  }

  /** In every interleaving, whenever no call of Run is in progress, every worker is
      waiting for the next command, and each task of every call so far has been
      executed exactly once and nothing else has. */
  lemma ExactlyOnce(states: seq<State>, n: nat, k: nat, i: int)
    requires IsRun(states) && n < |states| && states[n].main.Idle?
    ensures forall t :: 0 <= t < |states[n].workers| ==> states[n].workers[t].Waiting?
    ensures k < |states[n].runs| ==> states[n].executed[(k, i)] == InRange(states[n].runs[k], i)
    ensures k >= |states[n].runs| ==> states[n].executed[(k, i)] == 0
  {
    RunKeeps(states, n);
    assert RunDone(states[n], k);
  }

  /** Even while a call is in progress no task is executed twice or out of range. */
  lemma NeverTwice(states: seq<State>, n: nat, k: nat, i: int)
    requires IsRun(states) && n < |states|
    ensures states[n].executed[(k, i)] <= if k < |states[n].runs| then InRange(states[n].runs[k], i) else 0
  {
    RunKeeps(states, n);
    var s := states[n];
    if s.main.Barrier? || s.main.Asleep? {
      assert s.executed[(s.task, i)] + Sum(Holds(i), s.workers) == InRange(Taken(s), i);
      assert k != s.task ==> RunDone(s, k);
    } else if (s.main.SetCommand? && s.main.word != EXIT) || (s.main.NotifyAll? && s.command != EXIT) {
      assert k != s.task ==> RunDone(s, k);
    } else {
      assert RunDone(s, k);
    }
  }
}
