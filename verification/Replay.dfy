/**
  Replaying files through a playbook (lib/pyro-daemon/src/data/replay.rs): one row at a time, or with
  at most `concurrency` calls in flight.

  The parallel replay is a transition system whose only freedom is which finished task is joined
  next, when the cancel signal is seen, and how each task ends. The methods run the source's loops;
  the parallel one carries a trace of the transition system along.
*/
module Replay {
  import opened Prelude

  /** A row's payload; what the playbook makes of it is the environment's business. */
  type Row = string

  /** A data file: its name and its batches of rows. */
  datatype DataFile = DataFile(name: string, batches: seq<seq<Row>>)

  function ConcatBatches(batches: seq<seq<Row>>): seq<Row> {
    if batches == [] then [] else ConcatBatches(batches[..|batches| - 1]) + batches[|batches| - 1]
  }

  /** All rows in file, batch, index order. */
  function AllRows(files: seq<DataFile>): seq<Row> {
    if files == [] then [] else AllRows(files[..|files| - 1]) + ConcatBatches(files[|files| - 1].batches)
  }

  datatype TaskResult = Succeeded | Errored | Panicked

  /**
    What does not change during a replay: the rows, the bound, how the task for each row ends, and
    which rows cannot be brought into the playbook's input schema.
  */
  datatype Setup = Setup(rows: seq<Row>, concurrency: nat, task: nat -> TaskResult, repairs: Row -> bool)

  datatype Phase =
    | Checking                      // before looking at the cancel signal for the next row
    | Waiting                       // for a free slot
    | Draining(cancelled: bool)
    | Done(wasCancelled: bool)
    | Failed                        // a row could not be repaired

  datatype Progress = Progress(
    next: nat,
    inFlight: set<nat>,
    completed: nat,
    successes: nat,
    errors: nat,
    panicked: nat,
    phase: Phase
  )

  const INITIAL := Progress(0, {}, 0, 0, 0, 0, Checking)

  /** Joining a finished task; a panicked one is not counted as completed. */
  function Joined(cfg: Setup, s: Progress, i: nat): Progress {
    var rest := s.(inFlight := s.inFlight - {i});
    match cfg.task(i)
    case Succeeded => rest.(completed := s.completed + 1, successes := s.successes + 1)
    case Errored => rest.(completed := s.completed + 1, errors := s.errors + 1)
    case Panicked => rest.(panicked := s.panicked + 1)
  }

  datatype Action = SeeCancel | SeeNoCancel | Join(i: nat) | Spawn | RepairFails | RunOut | Finish

  predicate Enabled(cfg: Setup, s: Progress, a: Action) {
    match a
    case SeeCancel => s.phase == Checking && s.next < |cfg.rows|
    case SeeNoCancel => s.phase == Checking && s.next < |cfg.rows|
    case Join(i) =>
      && i in s.inFlight
      && ((s.phase == Waiting && |s.inFlight| >= cfg.concurrency) || s.phase.Draining?)
    case Spawn =>
      s.phase == Waiting && |s.inFlight| < cfg.concurrency && s.next < |cfg.rows| && cfg.repairs(cfg.rows[s.next])
    case RepairFails =>
      s.phase == Waiting && |s.inFlight| < cfg.concurrency && s.next < |cfg.rows| && !cfg.repairs(cfg.rows[s.next])
    case RunOut => s.phase == Checking && s.next == |cfg.rows|
    case Finish => s.phase.Draining? && s.inFlight == {}
  }

  function After(cfg: Setup, s: Progress, a: Action): Progress
    requires Enabled(cfg, s, a)
  {
    match a
    case SeeCancel => s.(phase := Draining(true))
    case SeeNoCancel => s.(phase := Waiting)
    case Join(i) => Joined(cfg, s, i)
    case Spawn => s.(inFlight := s.inFlight + {s.next}, next := s.next + 1, phase := Checking)
    case RepairFails => s.(phase := Failed)
    case RunOut => s.(phase := Draining(false))
    case Finish => s.(phase := Done(s.phase.cancelled))
  }

  ghost predicate Step(cfg: Setup, s: Progress, s': Progress) {
    exists a :: Enabled(cfg, s, a) && s' == After(cfg, s, a)
  }

  ghost predicate IsRun(cfg: Setup, run: seq<Progress>) {
    && run != [] && run[0] == INITIAL
    && forall i :: 0 < i < |run| ==> Step(cfg, run[i - 1], run[i])
  }

  function Last(run: seq<Progress>): Progress
    requires run != []
  {
    run[|run| - 1]
  }

  lemma RunExtends(cfg: Setup, run: seq<Progress>, a: Action)
    requires IsRun(cfg, run) && Enabled(cfg, Last(run), a)
    ensures IsRun(cfg, run + [After(cfg, Last(run), a)])
  {
    assert Step(cfg, Last(run), After(cfg, Last(run), a));
  }

  // ---------------------------------------------------------------------------
  // Every reachable state
  // ---------------------------------------------------------------------------

  /** How many of the first n tasks, those still in flight left out, end with `r`. */
  function Count(task: nat -> TaskResult, n: nat, inFlight: set<nat>, r: TaskResult): nat {
    if n == 0 then 0
    else Count(task, n - 1, inFlight, r) + if n - 1 !in inFlight && task(n - 1) == r then 1 else 0
  }

  ghost predicate Invariant(cfg: Setup, s: Progress) {
    && s.next <= |cfg.rows|
    && (forall i :: i in s.inFlight ==> i < s.next)
    && |s.inFlight| <= cfg.concurrency
    && s.successes == Count(cfg.task, s.next, s.inFlight, Succeeded)
    && s.errors == Count(cfg.task, s.next, s.inFlight, Errored)
    && s.panicked == Count(cfg.task, s.next, s.inFlight, Panicked)
    && s.completed == s.successes + s.errors
    && s.next == s.completed + s.panicked + |s.inFlight|
    && (s.phase == Waiting ==> s.next < |cfg.rows|)
    && (s.phase.Done? ==> s.inFlight == {})
    && (s.phase in {Draining(false), Done(false)} ==> s.next == |cfg.rows|)
  }

  lemma {:induction false} CountJoined(task: nat -> TaskResult, n: nat, inFlight: set<nat>, i: nat, r: TaskResult)
    requires i in inFlight
    ensures Count(task, n, inFlight - {i}, r) ==
            Count(task, n, inFlight, r) + if i < n && task(i) == r then 1 else 0
  {
    if n > 0 {
      CountJoined(task, n - 1, inFlight, i, r);
    }
  }

  lemma {:induction false} CountSpawned(task: nat -> TaskResult, n: nat, inFlight: set<nat>, i: nat, r: TaskResult)
    requires n <= i
    ensures Count(task, n, inFlight + {i}, r) == Count(task, n, inFlight, r)
  {
    if n > 0 {
      CountSpawned(task, n - 1, inFlight, i, r);
    }
  }

  lemma StepKeepsInvariant(cfg: Setup, s: Progress, a: Action)
    requires cfg.concurrency >= 1 && Invariant(cfg, s) && Enabled(cfg, s, a)
    ensures Invariant(cfg, After(cfg, s, a))
  {
    match a {
      case Join(i) =>
        CountJoined(cfg.task, s.next, s.inFlight, i, Succeeded);
        CountJoined(cfg.task, s.next, s.inFlight, i, Errored);
        CountJoined(cfg.task, s.next, s.inFlight, i, Panicked);
      case Spawn =>
        CountSpawned(cfg.task, s.next, s.inFlight, s.next, Succeeded);
        CountSpawned(cfg.task, s.next, s.inFlight, s.next, Errored);
        CountSpawned(cfg.task, s.next, s.inFlight, s.next, Panicked);
      case _ =>
    }
  }

  /**
    In every reachable state: no more in flight than allowed; completed is successes plus errors;
    dispatched is completed plus panicked plus in flight; the counts are those of the joined tasks.
  */
  lemma {:induction false} ReachableStates(cfg: Setup, run: seq<Progress>)
    requires cfg.concurrency >= 1 && IsRun(cfg, run)
    ensures Invariant(cfg, Last(run))
    decreases |run|
  {
    if |run| > 1 {
      var before := run[..|run| - 1];
      ReachableStates(cfg, before);
      assert Step(cfg, Last(before), Last(run));
      var a :| Enabled(cfg, Last(before), a) && Last(run) == After(cfg, Last(before), a);
      StepKeepsInvariant(cfg, Last(before), a);
    }
  }

  predicate Terminal(s: Progress) {
    s.phase.Done? || s.phase == Failed
  }

  /** Work left, counting a little for each phase. */
  function Remaining(cfg: Setup, s: Progress): nat {
    var phase := if s.phase == Checking then 2 else if Terminal(s) then 0 else 1;
    (if s.next < |cfg.rows| then 3 * (|cfg.rows| - s.next) else 0) + |s.inFlight| + phase
  }

  /**
    The replay neither loops nor gets stuck: every step leaves less to do, and short of the end some
    step is possible. The second half is where a bound of at least one is needed: with none, the
    wait for a slot would join from an empty set for ever.
  */
  lemma ReplayEnds(cfg: Setup, s: Progress)
    requires cfg.concurrency >= 1 && Invariant(cfg, s)
    ensures forall a :: Enabled(cfg, s, a) ==> Remaining(cfg, After(cfg, s, a)) < Remaining(cfg, s)
    ensures Terminal(s) <==> forall a :: !Enabled(cfg, s, a)
  {
    if !Terminal(s) {
      match s.phase {
        case Checking => assert Enabled(cfg, s, if s.next < |cfg.rows| then SeeNoCancel else RunOut);
        case Waiting =>
          if |s.inFlight| < cfg.concurrency {
            assert Enabled(cfg, s, if cfg.repairs(cfg.rows[s.next]) then Spawn else RepairFails);
          } else {
            var i :| i in s.inFlight;
            assert Enabled(cfg, s, Join(i));
          }
        case Draining(_) =>
          if s.inFlight == {} {
            assert Enabled(cfg, s, Finish);
          } else {
            var i :| i in s.inFlight;
            assert Enabled(cfg, s, Join(i));
          }
      }
    }
  }

  lemma ZeroConcurrencyStalls(cfg: Setup)
    requires cfg.concurrency == 0 && cfg.rows != []
    ensures var s := INITIAL.(phase := Waiting);
            Step(cfg, INITIAL, s) && !Terminal(s) && forall a :: !Enabled(cfg, s, a)
  {
    assert Enabled(cfg, INITIAL, SeeNoCancel);
  }

  // ---------------------------------------------------------------------------
  // Refinement of the sequential replay
  // ---------------------------------------------------------------------------

  /** How many of the rows the playbook accepts. */
  function Accepted(rows: seq<Row>, call: Row -> bool): nat {
    if rows == [] then 0
    else Accepted(rows[..|rows| - 1], call) + if call(rows[|rows| - 1]) then 1 else 0
  }

  lemma {:induction false} CountIsAccepted(rows: seq<Row>, call: Row -> bool, task: nat -> TaskResult)
    requires forall i :: 0 <= i < |rows| ==> task(i) == if call(rows[i]) then Succeeded else Errored
    ensures Count(task, |rows|, {}, Succeeded) == Accepted(rows, call)
    ensures Count(task, |rows|, {}, Errored) == |rows| - Accepted(rows, call)
    ensures Count(task, |rows|, {}, Panicked) == 0
  {
    if rows != [] {
      CountIsAccepted(rows[..|rows| - 1], call, task);
    }
  }

  /**
    Whatever the order in which tasks finish, a parallel replay that is not cancelled, whose tasks
    end as the playbook's answer to their row says, ends with the sequential replay's counts.
  */
  lemma ParallelRefinesSequential(cfg: Setup, run: seq<Progress>, call: Row -> bool)
    requires cfg.concurrency >= 1 && IsRun(cfg, run)
    requires forall i :: 0 <= i < |cfg.rows| ==> cfg.task(i) == if call(cfg.rows[i]) then Succeeded else Errored
    requires Last(run).phase == Done(false)
    ensures Last(run).completed == |cfg.rows|
    ensures Last(run).successes == Accepted(cfg.rows, call)
    ensures Last(run).errors == |cfg.rows| - Accepted(cfg.rows, call)
  {
    ReachableStates(cfg, run);
    CountIsAccepted(cfg.rows, call, cfg.task);
  }

  /** A cancelled replay has joined everything it dispatched. */
  lemma CancelLeavesNothingInFlight(cfg: Setup, run: seq<Progress>)
    requires cfg.concurrency >= 1 && IsRun(cfg, run) && Last(run).phase.Done?
    ensures var s := Last(run);
            s.inFlight == {} && s.next == s.completed + s.panicked && s.completed == s.successes + s.errors
  {
    ReachableStates(cfg, run);
  }
}
