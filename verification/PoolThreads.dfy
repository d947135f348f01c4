/** The pool as an object: each atomic section of the workers and of the main thread
    updates the shared fields as one step of the model, and `Run` puts the sections
    together under an arbitrary scheduler. */
module PoolThreads {
  import opened PoolModel
  import opened PoolSafety
  import opened PoolMeaning
  import opened PoolProgress
  import opened Powers

  class ThreadPool {
    const numThreads: nat
    var workersReady: int
    var workerStartCommand: nat
    var numReserved: int
    var threads: seq<Worker>
    var main: Main
    ghost var task: nat
    ghost var range: (int, int)
    ghost var runs: seq<(int, int)>
    ghost var executed: multiset<(nat, int)>

    ghost function View(): State
      reads this
    {
      State(threads, workersReady, workerStartCommand, numReserved, task, range, main, runs, executed)
    }

    ghost predicate Valid()
      reads this
    {
      Inv(View()) && |threads| == numThreads
    }

    /** The constructor up to its barrier; the command word is left unwritten. */
    constructor (n: nat, garbage: nat)
      requires n > 0
      ensures Initial(View()) && Valid() && numThreads == n
    {
      numThreads := n;
      workersReady, numReserved, task := 0, 0, 0;
      workerStartCommand := garbage;
      threads := seq(n, _ => Start);
      main := Barrier;
      range, runs, executed := (0, 0), [], multiset{};
      new;
      InitialInv(View());
    }

    /** ThreadFunc under the mutex: report ready, wake the main thread if last, wait.
        The count is that of the waiting workers; a sleeping main thread is woken by the
        report that makes everyone wait, and by no other. */
    method ReportReady(t: nat)
      requires Valid() && Enabled(View(), Report(t))
      modifies this
      ensures Valid() && View() == Apply(old(View()), Report(t))
      ensures workersReady == Sum(IsWaiting, threads)
      ensures old(main.Asleep?) ==> (main.Barrier? <==> EveryoneWaits(View()))
    {
      StepKeeps(View(), Report(t));
      ReportMeans(View(), t);
      workersReady := workersReady + 1;
      if workersReady == numThreads {
        if main.Asleep? { main := Barrier; }
      }
      threads := threads[t := Waiting];
    }

    /** ThreadFunc after a notification: read the command and act on it. During a call
        the worker gets exactly the range of the call; otherwise it exits. */
    method ReadCommand(t: nat)
      requires Valid() && Enabled(View(), Wake(t))
      modifies this
      ensures Valid() && View() == Apply(old(View()), Wake(t))
      ensures if main.Joining? then threads[t].Exited?
              else threads[t] == Load(range.0, range.1) && 0 <= range.0 < range.1
    {
      StepKeeps(View(), Wake(t));
      WakeMeans(View(), t);
      var command := workerStartCommand;
      threads := threads[t := if command == WAIT then Waiting
                              else if command == EXIT then Exited
                              else Load(command % SHIFT32, command / SHIFT32)];
    }

    /** RunRange: load the counter and choose a chunk size, never more than is left at
        that moment, and more than one task only as a fair share of it. */
    method LoadCounter(t: nat)
      requires Valid() && Enabled(View(), LoadReserved(t))
      modifies this
      ensures Valid() && View() == Apply(old(View()), LoadReserved(t))
      ensures var left := range.1 - range.0 - numReserved;
              && threads[t].Reserve? && threads[t].size >= 1
              && (left > 0 ==> threads[t].size <= left)
              && (threads[t].size > 1 ==> threads[t].size * (2 * numThreads) <= left)
              && left < (threads[t].size + 1) * (2 * numThreads)
    {
      StepKeeps(View(), LoadReserved(t));
      LoadMeans(View(), t);
      var begin, end := threads[t].begin, threads[t].end;
      var numRemaining := end - begin - numReserved;
      var mySize := Max(Quot(numRemaining, numThreads * 2), 1);
      threads := threads[t := Reserve(begin, end, mySize)];
    }

    /** RunRange: reserve the chunk, clip it, leave if nothing is left. The worker leaves
        if and only if every task was reserved before; otherwise it holds the next tasks,
        which nobody has executed and no other worker holds. */
    method ReserveChunk(t: nat)
      requires Valid() && Enabled(View(), FetchAdd(t))
      modifies this
      ensures Valid() && View() == Apply(old(View()), FetchAdd(t))
      ensures threads[t].Start? <==> old(numReserved) >= range.1 - range.0
      ensures threads[t].Task? ==>
                && threads[t].i == range.0 + old(numReserved) < threads[t].myEnd
                && threads[t].myEnd == Min(range.0 + numReserved, range.1)
      ensures forall u :: 0 <= u < numThreads && u != t && threads[u].Task? ==>
                threads[u].myEnd <= range.0 + old(numReserved)
      ensures forall i :: range.0 + old(numReserved) <= i ==> executed[(task, i)] == 0
    {
      hide Inv;
      StepKeeps(View(), FetchAdd(t));
      FetchMeans(View(), t);
      var begin, end, mySize := threads[t].begin, threads[t].end, threads[t].size;
      var numTasks := end - begin;
      var myBegin := begin + numReserved;
      numReserved := numReserved + mySize;
      var myEnd := Min(myBegin + mySize, begin + numTasks);
      threads := threads[t := if myBegin >= myEnd then Start else Task(begin, end, myBegin, myEnd)];
    }

    /** RunRange: one call of the task function, on an index of the range that this call
        of Run has not passed to it yet, and that no other worker holds. */
    method CallTask(t: nat)
      requires Valid() && Enabled(View(), RunTask(t))
      modifies this
      ensures Valid() && View() == Apply(old(View()), RunTask(t))
      ensures var i := old(threads[t].i);
              && range.0 <= i < range.1
              && old(executed[(task, i)]) == 0 && executed == old(executed)[(task, i) := 1]
              && forall u :: 0 <= u < numThreads && u != t ==> Holds(i)(threads[u]) == 0
    {
      hide Inv;
      StepKeeps(View(), RunTask(t));
      TaskMeans(View(), t);
      var w := threads[t];
      executed := executed + multiset{(task, w.i)};
      threads := threads[t := if w.i + 1 < w.myEnd then w.(i := w.i + 1) else Load(w.begin, w.end)];
    }

    /** Run up to StartWorkers: store the task and clear the counter. An empty range
        needs nothing; otherwise the word to be published stands for the range, and while
        it is not published every worker waits and nothing is reserved or executed. */
    method BeginRun(begin: int, end: int)
      requires Valid() && Enabled(View(), CallRun(begin, end))
      modifies this
      ensures Valid() && View() == Apply(old(View()), CallRun(begin, end))
      ensures begin == end ==> main.Idle?
      ensures begin < end ==>
                && main.SetCommand? && main.word != EXIT
                && main.word % SHIFT32 == begin && main.word / SHIFT32 == end
                && EveryoneWaits(View()) && numReserved == 0
                && forall i :: executed[(task, i)] == 0
    {
      StepKeeps(View(), CallRun(begin, end));
      if begin < end { EncodeFacts(begin, end); }
      runs := runs + [(begin, end)];
      if begin == end { return; }
      task := |runs| - 1;
      range := (begin, end);
      numReserved := 0;
      main := SetCommand(end * SHIFT32 + begin);
      ArmedMeans(View());
    }

    /** The destructor up to StartWorkers. */
    method BeginExit()
      requires Valid() && Enabled(View(), CallDestructor)
      modifies this
      ensures Valid() && View() == Apply(old(View()), CallDestructor)
      ensures EveryoneWaits(View()) && forall k: nat :: RunDone(View(), k)
    {
      StepKeeps(View(), CallDestructor);
      main := SetCommand(EXIT);
    }

    /** StartWorkers under the mutex: publish the command word, while every worker waits. */
    method PublishCommand()
      requires Valid() && Enabled(View(), Publish)
      modifies this
      ensures Valid() && View() == Apply(old(View()), Publish)
      ensures EveryoneWaits(View())
      ensures workerStartCommand != EXIT ==>
                workerStartCommand % SHIFT32 == range.0 && workerStartCommand / SHIFT32 == range.1
    {
      StepKeeps(View(), Publish);
      if main.word != EXIT { ArmedMeans(View()); }
      workerStartCommand := main.word;
      main := NotifyAll;
    }

    /** StartWorkers after the mutex: wake every waiting worker, in a loop over them.
        All of them were waiting, so the notification reaches every one. */
    method NotifyWorkers()
      requires Valid() && Enabled(View(), Notify)
      modifies this
      ensures Valid() && View() == Apply(old(View()), Notify)
      ensures forall t :: 0 <= t < numThreads ==> threads[t].Woken?
    {
      StepKeeps(View(), Notify);
      ghost var before := View();
      for t := 0 to numThreads
        invariant |threads| == numThreads && View() == before.(workers := threads)
        invariant forall u :: 0 <= u < t ==> threads[u] == WakeAll(before.workers)[u]
        invariant forall u :: t <= u < numThreads ==> threads[u] == before.workers[u]
      {
        if threads[t].Waiting? { threads := threads[t := Woken]; }
      }
      assert threads == WakeAll(before.workers);
      main := if workerStartCommand == EXIT then Joining else Barrier;
    }

    /** WorkersReadyBarrier under the mutex: pass if everyone is ready, else sleep. It
        opens if and only if every worker waits, and then the call is complete. */
    method CheckBarrier()
      requires Valid() && Enabled(View(), CheckReady)
      modifies this
      ensures Valid() && View() == Apply(old(View()), CheckReady)
      ensures main.Idle? <==> EveryoneWaits(View())
      ensures main.Idle? ==> forall i :: executed[(task, i)] == InRange(range, i)
    {
      StepKeeps(View(), CheckReady);
      CheckMeans(View());
      if workersReady == numThreads {
        workersReady := 0;
        main := Idle;
      } else {
        main := Asleep;
      }
    }

    /** One section of worker t, whichever comes next for it. */
    method Advance(t: nat)
      requires Valid() && (main.Barrier? || main.Asleep?) && t < numThreads && !threads[t].Waiting?
      modifies this
      ensures Valid() && (main.Barrier? || main.Asleep?) && runs == old(runs)
      ensures Measure(View()) < old(Measure(View()))
    {
      assert Running(View()) && WorkerOk(View(), threads[t]);
      ghost var s := View();
      ghost var step := NextStep(threads[t], t);
      StepDecreases(s, step);
      match threads[t] {
        case Start => ReportReady(t);
        case Woken => ReadCommand(t);
        case Load(_, _) => LoadCounter(t);
        case Reserve(_, _, _) => ReserveChunk(t);
        case Task(_, _, _, _) => CallTask(t);
      }
    }

    /** Run, under an arbitrary scheduler: at every point `schedule` names the thread that
        the search for one that can go on starts with; numThreads is the main thread. On
        return every worker waits, and every index of every call so far has been passed to
        the task exactly once. */
    method Run(begin: int, end: int, schedule: nat -> nat)
      requires Valid() && main.Idle? && 0 <= begin <= end <= INT_MAX
      modifies this
      ensures Valid() && main.Idle? && EveryoneWaits(View())
      ensures runs == old(runs) + [(begin, end)]
      ensures forall k: nat, i: int ::
                executed[(k, i)] == if k < |runs| then InRange(runs[k], i) else 0
    {
      hide Inv, Measure;
      BeginRun(begin, end);
      if begin < end {
        PublishCommand();
        NotifyWorkers();
        AwaitWorkers(schedule);
      }
      AllCallsDone(View());
    }

    /** The rest of a call: the workers' loops and the barrier, interleaved. */
    method AwaitWorkers(schedule: nat -> nat)
      requires Valid() && (main.Barrier? || main.Asleep?)
      modifies this
      ensures Valid() && main.Idle? && runs == old(runs)
    {
      hide Inv, Measure;
      var clock := 0;
      while !main.Idle?
        invariant Valid() && (main.Barrier? || main.Asleep? || main.Idle?) && runs == old(runs)
        decreases Measure(View())
      {
        var agent := Choose(schedule(clock));
        if agent == numThreads {
          CheckDecreases(View());
          CheckBarrier();
        } else {
          Advance(agent);
        }
        clock := clock + 1;
      }
    }

    /** The first thread from `start` on, cyclically, that can go on: some thread can. */
    method Choose(start: nat) returns (agent: nat)
      requires Valid() && (main.Barrier? || main.Asleep?)
      ensures agent == numThreads ==> main.Barrier?
      ensures agent <= numThreads && (agent < numThreads ==> !threads[agent].Waiting?)
    {
      hide Inv;
      SomeoneCan(View());
      var n := numThreads + 1;
      var k := 0;
      agent := From(start, 0, n);
      while if agent == numThreads then !main.Barrier? else threads[agent].Waiting?
        invariant k <= numThreads && agent == From(start, k, n)
        invariant forall j :: 0 <= j < k ==> !CanGoOn(View(), From(start, j, n))
        decreases numThreads - k
      {
        NotYetAll(View(), start, k, n);
        k := k + 1;
        agent := From(start, k, n);
      }
    }
  }

  lemma CheckDecreases(s: State)
    requires Inv(s) && Enabled(s, CheckReady)
    ensures Measure(Apply(s, CheckReady)) < Measure(s)
  {
    hide Inv;
    StepDecreases(s, CheckReady);
  }

  /** The k-th of n threads after `start`, cyclically. */
  function From(start: nat, k: nat, n: nat): (a: nat)
    requires n > 0
    ensures a < n
  {
    (start + k) % n
  }

  /** As long as no thread seen can go on, there are more to see. */
  lemma NotYetAll(s: State, start: nat, k: nat, n: nat)
    requires k <= |s.workers| && n == |s.workers| + 1
    requires exists agent :: 0 <= agent <= |s.workers| && CanGoOn(s, agent)
    requires forall j :: 0 <= j <= k ==> !CanGoOn(s, From(start, j, n))
    ensures k < |s.workers|
  {
    var a :| 0 <= a <= |s.workers| && CanGoOn(s, a);
    var j := BackAt(start, a, n);
    assert !(j <= k);
  }

  lemma BackAt(start: nat, a: nat, n: nat) returns (j: nat)
    requires a < n
    ensures j < n && From(start, j, n) == a
  {
    var q := (a - start) / n;
    j := (a - start) % n;
    assert start + j == (-q) * n + a;
    DivModUnique(start + j, n, -q, a);
  }

  ghost predicate CanGoOn(s: State, agent: int) {
    if agent == |s.workers| then s.main.Barrier? else 0 <= agent < |s.workers| && !s.workers[agent].Waiting?
  }

  /** Whoever waits for the barrier, someone can go on. */
  lemma SomeoneCan(s: State)
    requires Inv(s) && (s.main.Barrier? || s.main.Asleep?)
    ensures exists agent :: 0 <= agent <= |s.workers| && CanGoOn(s, agent)
  {
    if s.main.Barrier? {
      assert CanGoOn(s, |s.workers|);
    } else {
      assert Running(s);
      ReadyMeansAll(s);
      var u :| 0 <= u < |s.workers| && !s.workers[u].Waiting?;
      assert CanGoOn(s, u);
    }
  }

  /** The step that a worker inside a call takes next. */
  function NextStep(w: Worker, t: nat): Step {
    match w
    case Start => Report(t)
    case Woken => Wake(t)
    case Load(_, _) => LoadReserved(t)
    case Reserve(_, _, _) => FetchAdd(t)
    case _ => RunTask(t)
  }

  lemma AllCallsDone(s: State)
    requires Inv(s) && s.main.Idle?
    ensures EveryoneWaits(s)
    ensures forall k: nat, i: int :: s.executed[(k, i)] == if k < |s.runs| then InRange(s.runs[k], i) else 0
  {
    forall k: nat, i: int ensures s.executed[(k, i)] == if k < |s.runs| then InRange(s.runs[k], i) else 0 {
      assert RunDone(s, k);
    }
  }

  const U32: nat := 0x1_0000_0000

  /** `RunRanges`: the static split of [begin, end) into at most 128 ranges, in
      32-bit arithmetic. Ranges longer than 2^32 - 128 make the rounding wrap, and
      the split then degenerates to single values. */
  method StaticRanges(begin: nat, end: nat) returns (ranges: seq<(nat, nat)>)
    requires begin <= end < U32
    ensures Tiles(ranges, begin, end)
    ensures |ranges| <= 128 <==> end - begin <= U32 - 128
  {
    hide Tiles, Times, RangeChunk;
    TilesNone(begin);
    var length := end - begin;
    var chunk := RangeChunk(length);
    ranges := [];
    var i := 0;
    ghost var k := 0;
    while i < length
      invariant i == Times(k, chunk) && |ranges| == k && (k > 0 ==> Times(k - 1, chunk) < length)
      invariant Tiles(ranges, begin, begin + if i < length then i else length)
      decreases length - i
    {
      ChunkFits(length, k);
      var hi := if i + chunk < length then i + chunk else length;
      TilesMore(ranges, begin, begin + i, begin + hi);
      ranges := ranges + [(begin + i, begin + hi)];
      i := (i + chunk) % U32;
      k := k + 1;
    }
    RangeCount(length, k);
  }

  /** The chunk length, with the wrap of the 32-bit sum. */
  function RangeChunk(length: nat): (c: nat)
    ensures c >= 1
  {
    var q := (length + 127) % U32 / 128;
    if q > 1 then q else 1
  }

  /** The loop variable never wraps. */
  lemma ChunkFits(length: nat, k: nat)
    requires length < U32 && Times(k, RangeChunk(length)) < length
    ensures Times(k + 1, RangeChunk(length)) == Times(k, RangeChunk(length)) + RangeChunk(length) < U32
  {
    var c := RangeChunk(length);
    if c > 1 {
      assert length <= 128 * c <= length + 127;
      if k >= 128 { MulMono(c, 128, k); }
      MulMono(c, k + 1, 128);
    }
  }

  lemma RangeCount(length: nat, k: nat)
    requires length < U32 && Times(k, RangeChunk(length)) >= length
    requires k > 0 ==> Times(k - 1, RangeChunk(length)) < length
    ensures k <= 128 <==> length <= U32 - 128
  {
    var c := RangeChunk(length);
    if c > 1 {
      assert length <= 128 * c <= length + 127;
      if k > 128 { MulMono(c, 128, k - 1); }
    }
  }

  lemma TilesNone(begin: nat)
    ensures Tiles([], begin, begin) && Times(0, RangeChunk(0)) == 0 && forall c :: Times(0, c) == 0
  {
  }

  lemma TilesMore(ranges: seq<(nat, nat)>, begin: nat, lo: nat, hi: nat)
    requires Tiles(ranges, begin, lo) && lo < hi
    ensures Tiles(ranges + [(lo, hi)], begin, hi)
  {
    assert (ranges + [(lo, hi)])[..|ranges|] == ranges;
  }

  /** Consecutive non-empty ranges from begin to end. */
  ghost predicate Tiles(ranges: seq<(nat, nat)>, begin: nat, end: nat) {
    if ranges == [] then begin == end
    else
      var last := ranges[|ranges| - 1];
      last.0 < last.1 == end && Tiles(ranges[..|ranges| - 1], begin, last.0)
  }
}
