/** What each atomic section achieves, beyond keeping the invariant. */
module PoolMeaning {
  import opened PoolModel
  import opened PoolSafety

  lemma {:induction false} SumAtLeast(f: Worker -> nat, ws: seq<Worker>, t: nat)
    requires t < |ws|
    ensures f(ws[t]) <= Sum(f, ws)
  {
    if t > 0 { SumAtLeast(f, ws[1..], t - 1); }
  }

  lemma {:induction false} SumOfTwo(f: Worker -> nat, ws: seq<Worker>, t: nat, u: nat)
    requires t < u < |ws|
    ensures f(ws[t]) + f(ws[u]) <= Sum(f, ws)
  {
    if t > 0 { SumOfTwo(f, ws[1..], t - 1, u - 1); } else { SumAtLeast(f, ws[1..], u - 1); }
  }

  predicate EveryoneWaits(s: State) { forall u :: 0 <= u < |s.workers| ==> s.workers[u].Waiting? }

  /** The ready count is the number of waiting workers exactly when all of them wait. */
  lemma ReadyMeansAll(s: State)
    requires |s.workers| > 0 && s.ready == Sum(IsWaiting, s.workers)
    ensures s.ready == |s.workers| <==> EveryoneWaits(s)
  {
    if s.ready == |s.workers| {
      forall u | 0 <= u < |s.workers| ensures s.workers[u].Waiting? { SumFull(IsWaiting, s.workers, u); }
    } else if EveryoneWaits(s) {
      AllWaitSum(s.workers);
    }
  }

  lemma {:induction false} AllWaitSum(ws: seq<Worker>)
    requires forall u :: 0 <= u < |ws| ==> ws[u].Waiting?
    ensures Sum(IsWaiting, ws) == |ws|
  {
    if ws != [] { AllWaitSum(ws[1..]); }
  }

  /** The report that makes everyone wait, and no other, wakes the main thread. */
  lemma ReportMeans(s: State, t: nat)
    requires Inv(s) && Enabled(s, Report(t))
    ensures var s' := Apply(s, Report(t));
            && s'.ready == Sum(IsWaiting, s'.workers)
            && (s.main.Asleep? ==> (s'.main.Barrier? <==> EveryoneWaits(s')))
  {
    var s' := Apply(s, Report(t));
    assert Running(s);
    SumSet(IsWaiting, s.workers, t, Waiting);
    ReadyMeansAll(s');
  }

  /** A worker woken by a call gets exactly the range of that call, and one woken by the
      destructor leaves: the command word is never read before it is written. */
  lemma WakeMeans(s: State, t: nat)
    requires Inv(s) && Enabled(s, Wake(t))
    ensures var w := Apply(s, Wake(t)).workers[t];
            if s.main.Joining? then w.Exited?
            else w == Load(s.range.0, s.range.1) && 0 <= s.range.0 < s.range.1
  {
    if !s.main.Joining? {
      assert Running(s) && WorkerOk(s, s.workers[t]);
      EncodeFactsOr(s);
    }
  }

  /** A load never asks for more than is left at that moment; it asks for the largest
      whole number of tasks within a fair share of it, or a single task. */
  lemma LoadMeans(s: State, t: nat)
    requires Inv(s) && Enabled(s, LoadReserved(t))
    ensures var w := Apply(s, LoadReserved(t)).workers[t];
            && w.Reserve? && 1 <= w.size <= MaxChunk(s)
            && (s.reserved < NumTasks(s) ==> w.size <= NumTasks(s) - s.reserved)
            && (w.size > 1 ==> w.size * (2 * |s.workers|) <= NumTasks(s) - s.reserved)
            && NumTasks(s) - s.reserved < (w.size + 1) * (2 * |s.workers|)
  {
    assert Running(s) && WorkerOk(s, s.workers[t]);
    ChunkAtMost(NumTasks(s), s.reserved, |s.workers|);
    FairShare(NumTasks(s) - s.reserved, 2 * |s.workers|);
  }

  lemma FairShare(left: int, d: int)
    requires d > 0
    ensures Max(Quot(left, d), 1) > 1 ==> Max(Quot(left, d), 1) * d <= left
    ensures left < (Max(Quot(left, d), 1) + 1) * d
  {
    if left >= d {
      assert left == left / d * d + left % d;
      assert left / d >= 1;
    } else {
      assert Quot(left, d) <= 0;
    }
  }

  /** A reservation gives worker t the next tasks, clipped to the range, if any are
      left: no other worker holds one of them, and none has been executed. Otherwise the
      worker leaves the range. */
  lemma FetchMeans(s: State, t: nat)
    requires Inv(s) && Enabled(s, FetchAdd(t))
    ensures var w := s.workers[t]; var v := Apply(s, FetchAdd(t)).workers[t];
            var first := s.range.0 + s.reserved; var last := Min(first + w.size, s.range.1);
            && (s.reserved >= NumTasks(s) <==> v.Start?)
            && (s.reserved < NumTasks(s) ==> first < last && v == Task(s.range.0, s.range.1, first, last))
            && (forall u :: 0 <= u < |s.workers| && s.workers[u].Task? ==> s.workers[u].myEnd <= first)
            && forall i :: first <= i ==> s.executed[(s.task, i)] == 0
  {
    assert Running(s) && WorkerOk(s, s.workers[t]);
    var first := s.range.0 + s.reserved;
    forall u | 0 <= u < |s.workers| && s.workers[u].Task? ensures s.workers[u].myEnd <= first {
      assert WorkerOk(s, s.workers[u]);
    }
    forall i | first <= i ensures s.executed[(s.task, i)] == 0 {
      assert s.executed[(s.task, i)] + Sum(Holds(i), s.workers) == InRange(Taken(s), i);
    }
  }

  /** A task that is executed is in range, has not been executed in this call, and is
      held by no other worker. */
  lemma TaskMeans(s: State, t: nat)
    requires Inv(s) && Enabled(s, RunTask(t))
    ensures var i := s.workers[t].i;
            && s.range.0 <= i < s.range.1
            && s.executed[(s.task, i)] == 0
            && Apply(s, RunTask(t)).executed == s.executed[(s.task, i) := 1]
            && forall u :: 0 <= u < |s.workers| && u != t ==> Holds(i)(s.workers[u]) == 0
  {
    var i := s.workers[t].i;
    assert Running(s) && WorkerOk(s, s.workers[t]);
    assert s.executed[(s.task, i)] + Sum(Holds(i), s.workers) == InRange(Taken(s), i);
    SumAtLeast(Holds(i), s.workers, t);
    forall u | 0 <= u < |s.workers| && u != t ensures Holds(i)(s.workers[u]) == 0 {
      SumOfTwo(Holds(i), s.workers, if t < u then t else u, if t < u then u else t);
    }
  }

  /** Until the command is published nothing of the call has begun: every worker waits,
      no task is reserved or executed, and the word stands for the range. */
  lemma ArmedMeans(s: State)
    requires Inv(s) && s.main.SetCommand? && s.main.word != EXIT
    ensures EveryoneWaits(s) && s.reserved == 0 && s.range.0 < s.range.1
    ensures s.main.word % SHIFT32 == s.range.0 && s.main.word / SHIFT32 == s.range.1
    ensures forall i :: s.executed[(s.task, i)] == 0
  {
    EncodeFacts(s.range.0, s.range.1);
  }

  /** The barrier opens if and only if every worker waits, and then the call is done. */
  lemma CheckMeans(s: State)
    requires Inv(s) && Enabled(s, CheckReady)
    ensures var s' := Apply(s, CheckReady);
            && (s'.main.Idle? <==> EveryoneWaits(s))
            && (s'.main.Idle? ==> forall i :: s.executed[(s.task, i)] == InRange(s.range, i))
  {
    assert Running(s);
    ReadyMeansAll(s);
    if EveryoneWaits(s) {
      assert WorkerOk(s, s.workers[0]);
      forall i ensures s.executed[(s.task, i)] == InRange(s.range, i) {
        SumZero(Holds(i), s.workers);
        assert s.executed[(s.task, i)] + Sum(Holds(i), s.workers) == InRange(Taken(s), i);
      }
    }
  }
}
