/** The replay loops as the daemon runs them, over a shared status object. */
module ReplayLoops {
  import opened Prelude
  import opened Replay

  class ReplayStatus {
    var running: bool
    var totalRows: nat
    var rowsCompleted: nat
    var successes: nat
    var errors: nat
    var currentFile: string

    constructor (totalRows: nat)
      ensures running && this.totalRows == totalRows
      ensures rowsCompleted == successes == errors == 0 && currentFile == ""
    {
      running := true;
      this.totalRows := totalRows;
      rowsCompleted, successes, errors := 0, 0, 0;
      currentFile := "";
    }
  }

  datatype Ending = Completed | Cancelled | RepairError

  function PhaseAt(ending: Ending): Phase {
    match ending
    case Completed => Done(false)
    case Cancelled => Done(true)
    case RepairError => Failed
  }

  // ---------------------------------------------------------------------------
  // Rows by file, batch and index
  // ---------------------------------------------------------------------------

  lemma {:induction false} AllRowsPrefix(files: seq<DataFile>, f: nat)
    requires f <= |files|
    ensures AllRows(files[..f]) <= AllRows(files)
    decreases |files|
  {
    if f < |files| {
      assert files[..|files| - 1][..f] == files[..f];
      AllRowsPrefix(files[..|files| - 1], f);
    } else {
      assert files[..f] == files;
    }
  }

  lemma {:induction false} ConcatPrefix(batches: seq<seq<Row>>, b: nat)
    requires b <= |batches|
    ensures ConcatBatches(batches[..b]) <= ConcatBatches(batches)
    decreases |batches|
  {
    if b < |batches| {
      assert batches[..|batches| - 1][..b] == batches[..b];
      ConcatPrefix(batches[..|batches| - 1], b);
    } else {
      assert batches[..b] == batches;
    }
  }

  /** The rows before row i of batch b of file f. */
  function Before(files: seq<DataFile>, f: nat, b: nat, i: nat): seq<Row>
    requires f < |files| && b < |files[f].batches| && i <= |files[f].batches[b]|
  {
    AllRows(files[..f]) + ConcatBatches(files[f].batches[..b]) + files[f].batches[b][..i]
  }

  /** The position of a row in the replay is the number of rows before it. */
  lemma RowAt(files: seq<DataFile>, f: nat, b: nat, i: nat)
    requires f < |files| && b < |files[f].batches| && i < |files[f].batches[b]|
    ensures var n := |Before(files, f, b, i)|;
            n < |AllRows(files)| && AllRows(files)[n] == files[f].batches[b][i]
  {
    var batches := files[f].batches;
    AllRowsPrefix(files, f + 1);
    assert files[..f + 1][..f] == files[..f];
    ConcatPrefix(batches, b + 1);
    assert batches[..b + 1][..b] == batches[..b];
    var upToFile, upToBatch := AllRows(files[..f]), ConcatBatches(batches[..b]);
    assert AllRows(files[..f + 1]) == upToFile + ConcatBatches(batches);
    assert ConcatBatches(batches[..b + 1]) == upToBatch + batches[b];
    var n := |upToFile| + |upToBatch| + i;
    assert ConcatBatches(batches)[|upToBatch| + i] == batches[b][i];
    assert AllRows(files[..f + 1])[n] == batches[b][i];
  }

  lemma BatchEnds(files: seq<DataFile>, f: nat, b: nat)
    requires f < |files| && b < |files[f].batches|
    ensures |AllRows(files[..f])| + |ConcatBatches(files[f].batches[..b + 1])| ==
            |Before(files, f, b, |files[f].batches[b]|)|
  {
    assert files[f].batches[..b + 1][..b] == files[f].batches[..b];
  }

  lemma FileEnds(files: seq<DataFile>, f: nat)
    requires f < |files|
    ensures |AllRows(files[..f + 1])| ==
            |AllRows(files[..f])| + |ConcatBatches(files[f].batches[..|files[f].batches|])|
  {
    assert files[..f + 1][..f] == files[..f];
    assert files[f].batches[..|files[f].batches|] == files[f].batches;
  }

  /** The row at position n of the replay lies in file f. */
  ghost predicate InFile(files: seq<DataFile>, f: nat, n: nat) {
    f < |files| && |AllRows(files[..f])| <= n < |AllRows(files[..f + 1])|
  }

  lemma RowInFile(files: seq<DataFile>, f: nat, b: nat, i: nat)
    requires f < |files| && b < |files[f].batches| && i < |files[f].batches[b]|
    ensures InFile(files, f, |Before(files, f, b, i)|)
  {
    var batches := files[f].batches;
    FileEnds(files, f);
    BatchEnds(files, f, b);
    ConcatPrefix(batches, b + 1);
    assert batches[..|batches|] == batches;
  }

  /** The file shown at the end: the last one, or the one whose row stopped the replay. */
  ghost predicate ShowsFile(files: seq<DataFile>, current: string, ending: Ending, n: nat) {
    if ending == Completed then files != [] ==> current == files[|files| - 1].name
    else exists f: nat :: InFile(files, f, n) && current == files[f].name
  }

  lemma NothingYet(files: seq<DataFile>, call: Row -> bool)
    ensures AllRows(files[..0]) == [] && Accepted(AllRows(files)[..0], call) == 0
  {
  }

  lemma NothingOfFile(batches: seq<seq<Row>>)
    ensures ConcatBatches(batches[..0]) == []
  {
  }

  /** A supported file of the folder; its batches, unless it cannot be read and parsed. */
  datatype StoredFile = StoredFile(name: string, batches: Option<seq<seq<Row>>>)

  /** The supported files are in name order. */
  datatype Folder = NotADirectory | Unlistable | Listed(files: seq<StoredFile>)

  predicate AllReadable(files: seq<StoredFile>) {
    forall f :: f in files ==> f.batches.Some?
  }

  function Parsed(files: seq<StoredFile>): (r: seq<DataFile>)
    requires AllReadable(files)
    ensures |r| == |files|
  {
    seq(|files|, i requires 0 <= i < |files| =>
      assert files[i] in files; DataFile(files[i].name, files[i].batches.value))
  }

  /** The folder holds at least one row and every file in it can be read. */
  predicate Replayable(folder: Folder) {
    folder.Listed? && AllReadable(folder.files) && AllRows(Parsed(folder.files)) != []
  }

  /** The scan of prepare_replay: read the files and count their rows. */
  method LoadFolder(folder: Folder) returns (r: Option<(seq<DataFile>, nat)>)
    ensures r == if !Replayable(folder) then None
                 else Some((Parsed(folder.files), |AllRows(Parsed(folder.files))|))
  {
    if !folder.Listed? {
      return None;
    }
    if folder.files == [] {
      assert Parsed(folder.files) == [];
      return None;
    }
    var files, n := [], 0;
    var f := 0;
    while f < |folder.files|
      invariant f <= |folder.files| && AllReadable(folder.files[..f])
      invariant files == Parsed(folder.files[..f]) && n == |AllRows(files)|
    {
      var stored := folder.files[f];
      assert stored in folder.files && folder.files[..f + 1] == folder.files[..f] + [stored];
      if stored.batches.None? {
        return None;
      }
      var batches := stored.batches.value;
      var fileRows := 0;
      var b := 0;
      while b < |batches|
        invariant b <= |batches| && fileRows == |ConcatBatches(batches[..b])|
      {
        assert batches[..b + 1][..b] == batches[..b];
        fileRows := fileRows + |batches[b]|;
        b := b + 1;
      }
      assert batches[..b] == batches;
      assert (files + [DataFile(stored.name, batches)])[..f] == files;
      files := files + [DataFile(stored.name, batches)];
      assert files == Parsed(folder.files[..f + 1]);
      n := n + fileRows;
      f := f + 1;
    }
    assert folder.files[..f] == folder.files;
    r := if n == 0 then None else Some((files, n));
  }

  // ---------------------------------------------------------------------------
  // One row at a time
  // ---------------------------------------------------------------------------

  /** One turn of the inner loop: check for cancel, repair the row, call the playbook. */
  method ReplayRow(ghost rows: seq<Row>, ghost done: nat, row: Row, call: Row -> bool, repairs: Row -> bool,
                   cancels: nat -> bool, status: ReplayStatus) returns (stop: Option<Ending>)
    requires done < |rows| && rows[done] == row
    requires Tallied(rows, call, repairs, cancels, done, status.rowsCompleted, status.successes, status.errors)
    modifies status
    ensures stop == if cancels(done) then Some(Cancelled) else if !repairs(row) then Some(RepairError) else None
    ensures Tallied(rows, call, repairs, cancels, if stop.None? then done + 1 else done,
                    status.rowsCompleted, status.successes, status.errors)
    ensures status.totalRows == old(status.totalRows) && status.running == old(status.running)
    ensures status.currentFile == old(status.currentFile)
  {
    if cancels(status.rowsCompleted) {
      return Some(Cancelled);
    }
    if !repairs(row) {
      return Some(RepairError);
    }
    status.rowsCompleted := status.rowsCompleted + 1;
    if call(row) {
      status.successes := status.successes + 1;
    } else {
      status.errors := status.errors + 1;
    }
    assert rows[..done + 1][..done] == rows[..done];
    stop := None;
  }

  /**
    run_replay_loop, without its delays. `call` is the playbook's answer to a row and `cancels` the
    cancel signal as seen before each row.
  */
  method RunReplayLoop(files: seq<DataFile>, call: Row -> bool, repairs: Row -> bool, cancels: nat -> bool,
                       status: ReplayStatus) returns (ending: Ending, ghost done: nat)
    requires status.rowsCompleted == status.successes == status.errors == 0
    modifies status
    ensures done <= |AllRows(files)|
    ensures ending == Completed ==> done == |AllRows(files)|
    ensures ending == Cancelled ==> done < |AllRows(files)| && cancels(done)
    ensures ending == RepairError ==> done < |AllRows(files)| && !repairs(AllRows(files)[done])
    ensures forall n :: 0 <= n < done ==> !cancels(n) && repairs(AllRows(files)[n])
    ensures status.rowsCompleted == done
    ensures status.successes == Accepted(AllRows(files)[..done], call)
    ensures status.errors == done - Accepted(AllRows(files)[..done], call)
    ensures status.totalRows == old(status.totalRows) && status.running == old(status.running)
    ensures ShowsFile(files, status.currentFile, ending, done)
  {
    hide AllRows, ConcatBatches, Accepted;
    ghost var rows := AllRows(files);
    done := 0;
    NothingYet(files, call);
    var f := 0;
    while f < |files|
      invariant f <= |files| && done == |AllRows(files[..f])|
      invariant Tallied(rows, call, repairs, cancels, done, status.rowsCompleted, status.successes, status.errors)
      invariant status.totalRows == old(status.totalRows) && status.running == old(status.running)
      invariant f > 0 ==> status.currentFile == files[f - 1].name
    {
      status.currentFile := files[f].name;
      var batches := files[f].batches;
      var b := 0;
      NothingOfFile(batches);
      while b < |batches|
        invariant b <= |batches| && done == |AllRows(files[..f])| + |ConcatBatches(batches[..b])|
        invariant Tallied(rows, call, repairs, cancels, done, status.rowsCompleted, status.successes, status.errors)
        invariant status.totalRows == old(status.totalRows) && status.running == old(status.running)
        invariant status.currentFile == files[f].name
      {
        var batch := batches[b];
        var i := 0;
        while i < |batch|
          invariant i <= |batch| && done == |Before(files, f, b, i)|
          invariant Tallied(rows, call, repairs, cancels, done, status.rowsCompleted, status.successes, status.errors)
          invariant status.totalRows == old(status.totalRows) && status.running == old(status.running)
          invariant status.currentFile == files[f].name
        {
          RowAt(files, f, b, i);
          RowInFile(files, f, b, i);
          var stop := ReplayRow(rows, done, batch[i], call, repairs, cancels, status);
          if stop.Some? {
            return stop.value, done;
          }
          done := done + 1;
          i := i + 1;
        }
        BatchEnds(files, f, b);
        b := b + 1;
      }
      FileEnds(files, f);
      f := f + 1;
    }
    assert files[..f] == files;
    ending := Completed;
  }

  ghost predicate Tallied(rows: seq<Row>, call: Row -> bool, repairs: Row -> bool, cancels: nat -> bool, done: nat,
                          completed: nat, successes: nat, errors: nat)
  {
    && done <= |rows|
    && completed == done
    && successes == Accepted(rows[..done], call)
    && errors == done - Accepted(rows[..done], call)
    && forall n :: 0 <= n < done ==> !cancels(n) && repairs(rows[n])
  }

  // ---------------------------------------------------------------------------
  // In parallel
  // ---------------------------------------------------------------------------

  /** The status shows the last state of the run, and the join set its tasks in flight. */
  ghost predicate Shows(cfg: Setup, run: seq<Progress>, joinSet: set<nat>, completed: nat, successes: nat,
                        errors: nat)
  {
    && IsRun(cfg, run)
    && var s := Last(run);
       s.inFlight == joinSet && s.completed == completed && s.successes == successes && s.errors == errors
  }

  ghost predicate AtRow(run: seq<Progress>, n: nat)
    requires run != []
  {
    Last(run).phase == Checking && Last(run).next == n
  }

  /** Joining one finished task, any of those in the set. */
  method JoinNext(cfg: Setup, joinSet: set<nat>, status: ReplayStatus, ghost run: seq<Progress>)
    returns (rest: set<nat>, ghost run': seq<Progress>)
    requires joinSet != {}
    requires Shows(cfg, run, joinSet, status.rowsCompleted, status.successes, status.errors)
    requires Last(run).phase.Draining? || (Last(run).phase == Waiting && |joinSet| >= cfg.concurrency)
    modifies status
    ensures |rest| < |joinSet|
    ensures Shows(cfg, run', rest, status.rowsCompleted, status.successes, status.errors)
    ensures Last(run').phase == Last(run).phase && Last(run').next == Last(run).next
    ensures status.totalRows == old(status.totalRows) && status.running == old(status.running)
    ensures status.currentFile == old(status.currentFile)
  {
    var i :| i in joinSet;
    rest := joinSet - {i};
    RunExtends(cfg, run, Join(i));
    run' := run + [After(cfg, Last(run), Join(i))];
    match cfg.task(i) {
      case Succeeded =>
        status.rowsCompleted := status.rowsCompleted + 1;
        status.successes := status.successes + 1;
      case Errored =>
        status.rowsCompleted := status.rowsCompleted + 1;
        status.errors := status.errors + 1;
      case Panicked =>
    }
  }

  /** The drain loops. */
  method Drain(cfg: Setup, joinSet: set<nat>, status: ReplayStatus, ghost run: seq<Progress>)
    returns (ghost run': seq<Progress>)
    requires Shows(cfg, run, joinSet, status.rowsCompleted, status.successes, status.errors)
    requires Last(run).phase.Draining?
    modifies status
    ensures Shows(cfg, run', {}, status.rowsCompleted, status.successes, status.errors)
    ensures Last(run').phase == Done(Last(run).phase.cancelled) && Last(run').next == Last(run).next
    ensures status.totalRows == old(status.totalRows) && status.running == old(status.running)
    ensures status.currentFile == old(status.currentFile)
  {
    var left := joinSet;
    run' := run;
    while left != {}
      invariant Shows(cfg, run', left, status.rowsCompleted, status.successes, status.errors)
      invariant Last(run').phase == Last(run).phase && Last(run').next == Last(run).next
      invariant status.totalRows == old(status.totalRows) && status.running == old(status.running)
      invariant status.currentFile == old(status.currentFile)
      decreases |left|
    {
      left, run' := JoinNext(cfg, left, status, run');
    }
    RunExtends(cfg, run', Finish);
    run' := run' + [After(cfg, Last(run'), Finish)];
  }

  /** One turn of the inner loop: check for cancel, wait for a slot, dispatch row n. */
  method DispatchRow(cfg: Setup, n: nat, row: Row, cancelled: bool, joinSet: set<nat>, status: ReplayStatus,
                     ghost run: seq<Progress>)
    returns (stop: Option<Ending>, joinSet': set<nat>, ghost run': seq<Progress>)
    requires n < |cfg.rows| && cfg.rows[n] == row && cfg.concurrency >= 1
    requires Shows(cfg, run, joinSet, status.rowsCompleted, status.successes, status.errors) && AtRow(run, n)
    modifies status
    ensures Shows(cfg, run', joinSet', status.rowsCompleted, status.successes, status.errors)
    ensures stop == if cancelled then Some(Cancelled) else if !cfg.repairs(row) then Some(RepairError) else None
    ensures stop == None ==> AtRow(run', n + 1)
    ensures stop == Some(Cancelled) ==> Last(run').phase == Done(true) && Last(run').next == n
    ensures stop == Some(RepairError) ==> Last(run').phase == Failed && Last(run').next == n
    ensures status.totalRows == old(status.totalRows) && status.running == old(status.running)
    ensures status.currentFile == old(status.currentFile)
  {
    joinSet' := joinSet;
    run' := run;
    if cancelled {
      RunExtends(cfg, run', SeeCancel);
      run' := run' + [After(cfg, Last(run'), SeeCancel)];
      run' := Drain(cfg, joinSet', status, run');
      return Some(Cancelled), {}, run';
    }
    RunExtends(cfg, run', SeeNoCancel);
    run' := run' + [After(cfg, Last(run'), SeeNoCancel)];
    while |joinSet'| >= cfg.concurrency
      invariant Shows(cfg, run', joinSet', status.rowsCompleted, status.successes, status.errors)
      invariant Last(run').phase == Waiting && Last(run').next == n
      invariant status.totalRows == old(status.totalRows) && status.running == old(status.running)
      invariant status.currentFile == old(status.currentFile)
      decreases |joinSet'|
    {
      joinSet', run' := JoinNext(cfg, joinSet', status, run');
    }
    if !cfg.repairs(row) {
      RunExtends(cfg, run', RepairFails);
      run' := run' + [After(cfg, Last(run'), RepairFails)];
      return Some(RepairError), joinSet', run';
    }
    RunExtends(cfg, run', Spawn);
    run' := run' + [After(cfg, Last(run'), Spawn)];
    joinSet' := joinSet' + {n};
    stop := None;
  }

  /**
    run_replay_parallel. The run handed back is one of the transition system's, dispatching the rows
    in file, batch, index order, and the status shows where it ended.
  */
  method RunReplayParallel(files: seq<DataFile>, concurrency: nat, task: nat -> TaskResult, repairs: Row -> bool,
                           cancels: nat -> bool, status: ReplayStatus)
    returns (ending: Ending, ghost run: seq<Progress>)
    requires concurrency >= 1
    requires status.rowsCompleted == status.successes == status.errors == 0
    modifies status
    ensures var cfg := Setup(AllRows(files), concurrency, task, repairs);
            && IsRun(cfg, run)
            && Last(run).phase == PhaseAt(ending)
            && Last(run).completed == status.rowsCompleted
            && Last(run).successes == status.successes
            && Last(run).errors == status.errors
    ensures ending == RepairError ==> Last(run).next < |AllRows(files)| && !repairs(AllRows(files)[Last(run).next])
    ensures ending == Cancelled ==> Last(run).next < |AllRows(files)| && cancels(Last(run).next)
    ensures Last(run).next <= |AllRows(files)|
    ensures forall n :: 0 <= n < Last(run).next ==> !cancels(n) && repairs(AllRows(files)[n])
    ensures status.totalRows == old(status.totalRows) && status.running == old(status.running)
    ensures ShowsFile(files, status.currentFile, ending, Last(run).next)
  {
    ghost var cfg := Setup(AllRows(files), concurrency, task, repairs);
    run := [INITIAL];
    ending, run := ParallelLoop(files, Setup(AllRows(files), concurrency, task, repairs), cancels, status, run);
  }

  method ParallelLoop(files: seq<DataFile>, cfg: Setup, cancels: nat -> bool, status: ReplayStatus,
                      ghost start: seq<Progress>)
    returns (ending: Ending, ghost run: seq<Progress>)
    requires cfg.concurrency >= 1 && cfg.rows == AllRows(files)
    requires Shows(cfg, start, {}, status.rowsCompleted, status.successes, status.errors) && AtRow(start, 0)
    modifies status
    ensures exists inFlight :: Shows(cfg, run, inFlight, status.rowsCompleted, status.successes, status.errors)
    ensures Last(run).phase == PhaseAt(ending)
    ensures ending == RepairError ==> Last(run).next < |cfg.rows| && !cfg.repairs(cfg.rows[Last(run).next])
    ensures ending == Cancelled ==> Last(run).next < |cfg.rows| && cancels(Last(run).next)
    ensures Last(run).next <= |cfg.rows|
    ensures forall n :: 0 <= n < Last(run).next ==> !cancels(n) && cfg.repairs(cfg.rows[n])
    ensures status.totalRows == old(status.totalRows) && status.running == old(status.running)
    ensures ShowsFile(files, status.currentFile, ending, Last(run).next)
  {
    hide AllRows, ConcatBatches, InFile;
    var joinSet: set<nat> := {};
    run := start;
    NothingYet(files, _ => true);
    var n := 0;
    var f := 0;
    while f < |files|
      invariant f <= |files| && n == |AllRows(files[..f])|
      invariant Shows(cfg, run, joinSet, status.rowsCompleted, status.successes, status.errors) && AtRow(run, n)
      invariant n <= |cfg.rows| && forall j :: 0 <= j < n ==> !cancels(j) && cfg.repairs(cfg.rows[j])
      invariant status.totalRows == old(status.totalRows) && status.running == old(status.running)
      invariant f > 0 ==> status.currentFile == files[f - 1].name
    {
      status.currentFile := files[f].name;
      var batches := files[f].batches;
      var b := 0;
      NothingOfFile(batches);
      while b < |batches|
        invariant b <= |batches| && n == |AllRows(files[..f])| + |ConcatBatches(batches[..b])|
        invariant Shows(cfg, run, joinSet, status.rowsCompleted, status.successes, status.errors) && AtRow(run, n)
        invariant n <= |cfg.rows| && forall j :: 0 <= j < n ==> !cancels(j) && cfg.repairs(cfg.rows[j])
        invariant status.totalRows == old(status.totalRows) && status.running == old(status.running)
        invariant status.currentFile == files[f].name
      {
        var batch := batches[b];
        var i := 0;
        while i < |batch|
          invariant i <= |batch| && n == |Before(files, f, b, i)|
          invariant Shows(cfg, run, joinSet, status.rowsCompleted, status.successes, status.errors) && AtRow(run, n)
          invariant n <= |cfg.rows| && forall j :: 0 <= j < n ==> !cancels(j) && cfg.repairs(cfg.rows[j])
          invariant status.totalRows == old(status.totalRows) && status.running == old(status.running)
          invariant status.currentFile == files[f].name
        {
          RowAt(files, f, b, i);
          RowInFile(files, f, b, i);
          var stop: Option<Ending>;
          stop, joinSet, run := DispatchRow(cfg, n, batch[i], cancels(n), joinSet, status, run);
          if stop.Some? {
            return stop.value, run;
          }
          n := n + 1;
          i := i + 1;
        }
        BatchEnds(files, f, b);
        b := b + 1;
      }
      FileEnds(files, f);
      f := f + 1;
    }
    assert files[..f] == files;
    RunExtends(cfg, run, RunOut);
    run := run + [After(cfg, Last(run), RunOut)];
    run := Drain(cfg, joinSet, status, run);
    ending := Completed;
  }

  // ---------------------------------------------------------------------------
  // The table of replays
  // ---------------------------------------------------------------------------

  /** What the manager knows of the playbook to be replayed to. */
  datatype Target = NotRunning | SessionPlaybook | Ordinary

  /** Whether a request is refused: a replay running already, an unsuitable playbook, or an unsuitable folder. */
  predicate Refused(replays: map<string, ReplayStatus>, running: set<string>, playbook: string, target: Target,
                    folder: Folder)
  {
    (playbook in replays && playbook in running) || target != Ordinary || !Replayable(folder)
  }

  ghost predicate NeverInterrupted(files: seq<DataFile>, repairs: Row -> bool, cancels: nat -> bool) {
    forall n :: 0 <= n < |AllRows(files)| ==> !cancels(n) && repairs(AllRows(files)[n])
  }

  /** No task panics, and the outcome of each is the outcome of the call on its row. */
  ghost predicate OutcomesFollow(files: seq<DataFile>, task: nat -> TaskResult, call: Row -> bool) {
    forall n :: 0 <= n < |AllRows(files)| ==> task(n) == if call(AllRows(files)[n]) then Succeeded else Errored
  }

  ghost predicate ShowsAll(status: ReplayStatus, files: seq<DataFile>, call: Row -> bool)
    reads status
  {
    && status.rowsCompleted == status.totalRows == |AllRows(files)|
    && status.successes == Accepted(AllRows(files), call)
    && status.errors == |AllRows(files)| - Accepted(AllRows(files), call)
  }

  class ReplayTable {
    var replays: map<string, ReplayStatus>

    function Running(): set<string>
      reads this, replays.Values
    {
      set p | p in replays && replays[p].running
    }

    constructor ()
      ensures replays == map[]
    {
      replays := map[];
    }

    /** prepare_replay: register a fresh status, unless one of the source's checks refuses. */
    method Prepare(playbook: string, target: Target, folder: Folder) returns (r: Option<(ReplayStatus, seq<DataFile>)>)
      modifies this
      ensures r == None <==> Refused(old(replays), old(Running()), playbook, target, folder)
      ensures r == None ==> replays == old(replays)
      ensures r.Some? ==>
                var (status, files) := r.value;
                && files == Parsed(folder.files)
                && fresh(status) && status.running && status.totalRows == |AllRows(files)| > 0
                && status.rowsCompleted == status.successes == status.errors == 0
                && replays == old(replays)[playbook := status]
      ensures forall p :: p in old(replays) && old(replays)[p].running ==> p in replays && replays[p] == old(replays)[p]
    {
      if playbook in replays && replays[playbook].running {
        return None;
      }
      if target != Ordinary {
        return None;
      }
      var loaded := LoadFolder(folder);
      if loaded.None? {
        return None;
      }
      var (files, total) := loaded.value;
      var status := new ReplayStatus(total);
      replays := replays[playbook := status];
      r := Some((status, files));
    }

    /**
      start_replay, its task run to the end. Unless it is cancelled or a row cannot be repaired, every
      row counted beforehand is completed, as a success exactly where the call succeeds.
    */
    method StartReplay(playbook: string, target: Target, folder: Folder, call: Row -> bool, repairs: Row -> bool,
                       cancels: nat -> bool)
      returns (total: Option<nat>)
      modifies this
      ensures total == if Refused(old(replays), old(Running()), playbook, target, folder) then None
                       else Some(|AllRows(Parsed(folder.files))|)
      ensures total == None ==> replays == old(replays)
      ensures total.Some? ==>
                var files := Parsed(folder.files);
                && playbook in replays && replays == old(replays)[playbook := replays[playbook]]
                && fresh(replays[playbook]) && !replays[playbook].running
                && (NeverInterrupted(files, repairs, cancels) ==> ShowsAll(replays[playbook], files, call))
    {
      var prepared := Prepare(playbook, target, folder);
      if prepared.None? {
        return None;
      }
      var (status, files) := prepared.value;
      var ending, done := RunReplayLoop(files, call, repairs, cancels, status);
      assert AllRows(files)[..|AllRows(files)|] == AllRows(files);
      status.running := false;
      total := Some(status.totalRows);
    }

    /** start_parallel_replay, its task run to the end; a concurrency of zero counts as one. */
    method StartParallelReplay(playbook: string, target: Target, folder: Folder, concurrency: nat,
                               task: nat -> TaskResult, repairs: Row -> bool, cancels: nat -> bool,
                               ghost call: Row -> bool)
      returns (total: Option<nat>)
      modifies this
      ensures total == if Refused(old(replays), old(Running()), playbook, target, folder) then None
                       else Some(|AllRows(Parsed(folder.files))|)
      ensures total == None ==> replays == old(replays)
      ensures total.Some? ==>
                var files := Parsed(folder.files);
                && playbook in replays && replays == old(replays)[playbook := replays[playbook]]
                && fresh(replays[playbook]) && !replays[playbook].running
                && (NeverInterrupted(files, repairs, cancels) && OutcomesFollow(files, task, call) ==>
                      ShowsAll(replays[playbook], files, call))
    {
      var prepared := Prepare(playbook, target, folder);
      if prepared.None? {
        return None;
      }
      var (status, files) := prepared.value;
      var bound := Max(concurrency, 1);
      var ending, run := RunReplayParallel(files, bound, task, repairs, cancels, status);
      if NeverInterrupted(files, repairs, cancels) && OutcomesFollow(files, task, call) {
        ParallelRefinesSequential(Setup(AllRows(files), bound, task, repairs), run, call);
      }
      status.running := false;
      total := Some(status.totalRows);
    }

    /** What the spawned task does when its replay is over and the polling delay has passed. */
    method CleanUp(playbook: string)
      modifies this
      ensures replays == if playbook in old(replays) && !old(replays)[playbook].running
                         then old(replays) - {playbook} else old(replays)
      ensures forall p :: p in old(replays) && old(replays)[p].running ==> p in replays && replays[p] == old(replays)[p]
    {
      if playbook in replays && !replays[playbook].running {
        replays := replays - {playbook};
      }
    }
  }
}
