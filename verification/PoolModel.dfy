/** The fork-join thread pool as a state machine: one step is one atomic action of
    a worker or of the main thread. A section under the mutex is one step; loads
    and fetch_adds of the task counter are steps of their own. */
module PoolModel {

  const INT_MAX: int := 0x7FFF_FFFF
  const SHIFT32: nat := 0x1_0000_0000
  const WAIT: nat := 0
  const EXIT: nat := 0xFFFF_FFFF_FFFF_FFFF

  /** Where a worker is. `Start` is the top of ThreadFunc's loop; `Waiting` has
      reported ready and sleeps on the start condition; `Woken` has been notified;
      the next three are inside RunRange. */
  datatype Worker =
    | Start
    | Waiting
    | Woken
    | Load(begin: int, end: int)
    | Reserve(begin: int, end: int, size: int)
    | Task(begin: int, end: int, i: int, myEnd: int)
    | Exited

  /** Where the main thread is. */
  datatype Main =
    | Barrier
    | Asleep
    | Idle
    | SetCommand(word: nat)
    | NotifyAll
    | Joining
    | Destroyed

  /** The shared fields, the program counters, and two histories: the ranges of the
      calls to Run, and how often task i of call k has been executed. */
  datatype State = State(
    workers: seq<Worker>,
    ready: int,
    command: nat,
    reserved: int,
    task: nat,
    range: (int, int),
    main: Main,
    runs: seq<(int, int)>,
    executed: multiset<(nat, int)>)

  datatype Step =
    | Report(t: nat)
    | Wake(t: nat)
    | LoadReserved(t: nat)
    | FetchAdd(t: nat)
    | RunTask(t: nat)
    | CallRun(begin: int, end: int)
    | CallDestructor
    | Publish
    | Notify
    | CheckReady
    | Join

  /** The command word of a range, and the worker's decoding of it. */
  function Encode(begin: int, end: int): nat
    requires 0 <= begin && 0 <= end
  {
    end * SHIFT32 + begin
  }

  lemma EncodeFacts(begin: int, end: int)
    requires 0 <= begin < end <= INT_MAX
    ensures Encode(begin, end) % SHIFT32 == begin && Encode(begin, end) / SHIFT32 == end
    ensures Encode(begin, end) != WAIT && Encode(begin, end) != EXIT
  {
  }

  /** The command of a range that has tasks. */
  lemma EncodeFactsOr(s: State)
    requires 0 <= s.range.0 <= s.range.1 <= INT_MAX
    ensures s.range.0 < s.range.1 ==>
      && Encode(s.range.0, s.range.1) != WAIT && Encode(s.range.0, s.range.1) != EXIT
      && Encode(s.range.0, s.range.1) % SHIFT32 == s.range.0
      && Encode(s.range.0, s.range.1) / SHIFT32 == s.range.1
  {
    if s.range.0 < s.range.1 { EncodeFacts(s.range.0, s.range.1); }
  }

  function Max(a: int, b: int): int { if a < b then b else a }

  function Min(a: int, b: int): int { if a < b then a else b }

  /** C++ integer division, which truncates toward zero. */
  function Quot(a: int, b: int): int
    requires b > 0
  {
    if a < 0 then -((-a) / b) else a / b
  }

  /** The guided chunk size for a loaded counter value. */
  function ChunkSize(numTasks: int, loaded: int, threads: nat): (s: int)
    requires threads > 0
    ensures s >= 1
  {
    Max(Quot(numTasks - loaded, threads * 2), 1)
  }

  predicate Enabled(s: State, step: Step)
  {
    match step
    case Report(t) => t < |s.workers| && s.workers[t].Start?
    case Wake(t) => t < |s.workers| && s.workers[t].Woken?
    case LoadReserved(t) => t < |s.workers| && s.workers[t].Load?
    case FetchAdd(t) => t < |s.workers| && s.workers[t].Reserve?
    case RunTask(t) => t < |s.workers| && s.workers[t].Task?
    case CallRun(begin, end) => s.main.Idle? && 0 <= begin <= end <= INT_MAX
    case CallDestructor => s.main.Idle?
    case Publish => s.main.SetCommand?
    case Notify => s.main.NotifyAll?
    case CheckReady => s.main.Barrier?
    case Join => s.main.Joining? && forall t :: 0 <= t < |s.workers| ==> s.workers[t].Exited?
  }

  /** notify_all: every waiter is released. */
  function WakeAll(ws: seq<Worker>): (r: seq<Worker>)
    ensures |r| == |ws|
    ensures forall t :: 0 <= t < |ws| ==> r[t] == if ws[t].Waiting? then Woken else ws[t]
  {
    seq(|ws|, t requires 0 <= t < |ws| => if ws[t].Waiting? then Woken else ws[t])
  }

  function Apply(s: State, step: Step): State
    requires Enabled(s, step) && |s.workers| > 0
  {
    match step
    case Report(t) =>
      var ready := s.ready + 1;
      s.(workers := s.workers[t := Waiting], ready := ready,
         main := if ready == |s.workers| && s.main.Asleep? then Barrier else s.main)
    case Wake(t) =>
      var w := if s.command == WAIT then Waiting
               else if s.command == EXIT then Exited
               else Load(s.command % SHIFT32, s.command / SHIFT32);
      s.(workers := s.workers[t := w])
    case LoadReserved(t) =>
      var w := s.workers[t];
      s.(workers := s.workers[t := Reserve(w.begin, w.end, ChunkSize(w.end - w.begin, s.reserved, |s.workers|))])
    case FetchAdd(t) =>
      var w := s.workers[t];
      var myBegin := w.begin + s.reserved;
      var myEnd := Min(myBegin + w.size, w.begin + (w.end - w.begin));
      s.(reserved := s.reserved + w.size,
         workers := s.workers[t := if myBegin >= myEnd then Start else Task(w.begin, w.end, myBegin, myEnd)])
    case RunTask(t) =>
      var w := s.workers[t];
      s.(executed := s.executed + multiset{(s.task, w.i)},
         workers := s.workers[t := if w.i + 1 < w.myEnd then w.(i := w.i + 1) else Load(w.begin, w.end)])
    case CallRun(begin, end) =>
      if begin == end then s.(runs := s.runs + [(begin, end)])
      else s.(runs := s.runs + [(begin, end)], range := (begin, end), task := |s.runs|, reserved := 0,
              main := SetCommand(Encode(begin, end)))
    case CallDestructor => s.(main := SetCommand(EXIT))
    case Publish => s.(command := s.main.word, main := NotifyAll)
    case Notify =>
      s.(workers := WakeAll(s.workers), main := if s.command == EXIT then Joining else Barrier)
    case CheckReady =>
      if s.ready == |s.workers| then s.(ready := 0, main := Idle) else s.(main := Asleep)
    case Join => s.(main := Destroyed)
  }

  ghost predicate Next(s: State, s': State) {
    |s.workers| > 0 && exists step :: Enabled(s, step) && s' == Apply(s, step)
  }

  /** The state when the constructor has created the threads; the command word has
      not been written yet. */
  ghost predicate Initial(s: State) {
    && |s.workers| > 0
    && (forall t :: 0 <= t < |s.workers| ==> s.workers[t].Start?)
    && s.ready == 0 && s.reserved == 0 && s.task == 0 && s.range == (0, 0)
    && s.main == Barrier && s.runs == [] && s.executed == multiset{}
  }

  /** A run: any interleaving of the workers and the main thread. */
  ghost predicate IsRun(states: seq<State>) {
    && states != [] && Initial(states[0])
    && forall i :: 0 <= i < |states| - 1 ==> Next(states[i], states[i + 1])
  }
}
