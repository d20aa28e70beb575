/**
  resume_active_playbooks: after a daemon restart, playbooks recorded as running are resumed in
  passes, a failed one being tried again as long as some other made progress.

  First as a scheduler alone: a resume attempt is a condition on the set of running playbooks,
  `can(name, running)`; it only gets easier as more run, and a failed attempt changes nothing.
  `ResumeIsAnAttempt` shows that resume_playbook is such an attempt whenever no dependency comes up for
  it. Then, without that restriction, what the manager's own loop, ResumeActivePlaybooks, keeps and
  which playbooks it can have running.
*/
module StartupResume {
  import opened Prelude
  import opened Playbooks
  import opened PlaybookFrames
  import opened PlaybookInvariants
  import opened PlaybookCallbacks
  import opened PlaybookLaunches
  import opened PlaybookReach

  type Attempt = (string, set<string>) -> bool

  ghost predicate Monotone(can: Attempt) {
    forall n, s, t {:trigger can(n, s), can(n, t)} :: s <= t && can(n, s) ==> can(n, t)
  }

  /** Nothing listed is left resumable. */
  ghost predicate Settled(can: Attempt, names: seq<string>, running: set<string>) {
    forall n :: n in names && can(n, running) ==> n in running
  }

  ghost predicate LeastSettled(can: Attempt, names: seq<string>, before: set<string>, running: set<string>) {
    && before <= running
    && Settled(can, names, running)
    && forall t :: before <= t && Settled(can, names, t) ==> running <= t
  }

  /**
    The source's loop, with its bound of `len + 1` passes. It reaches the least settled set above
    what was running, so it stops only when nothing left can be resumed, and the bound never cuts
    it short.
  */
  method ResumeActive(can: Attempt, names: seq<string>, before: set<string>)
    returns (running: set<string>, left: seq<string>)
    requires Monotone(can) && Distinct(names)
    ensures LeastSettled(can, names, before, running)
    ensures forall n :: n in names ==> n in running || n in left
    ensures forall n :: n in left ==> n in names && (n in before || !can(n, running))
  {
    running := before;
    left := names;
    var attempts := 0;
    var maxAttempts := |names| + 1;
    while left != [] && attempts < maxAttempts
      invariant attempts + |left| <= |names|
      invariant Progress(can, names, before, running, left)
      decreases maxAttempts - attempts
    {
      ghost var atStart := running;
      var failed: seq<string> := [];
      var succeededAny := false;
      var i := 0;
      while i < |left|
        invariant 0 <= i <= |left|
        invariant |failed| <= i && (succeededAny ==> |failed| < i)
        invariant Progress(can, names, before, running, failed + left[i..])
        invariant !succeededAny ==> running == atStart && failed == left[..i]
        invariant !succeededAny ==> forall n :: n in failed ==> n in running || !can(n, running)
      {
        var name := left[i];
        assert left[i..] == [name] + left[i + 1..];
        assert left[..i + 1] == left[..i] + [name];
        if name !in running && can(name, running) {
          ResumedIsNeeded(can, names, before, running, name);
          running := running + {name};
          succeededAny := true;
          DropResumed(can, names, before, running, failed, left[i + 1..], name);
        } else {
          failed := failed + [name];
          assert failed + left[i + 1..] == (failed[..|failed| - 1] + [name]) + left[i + 1..];
          assert failed + left[i + 1..] == failed[..|failed| - 1] + left[i..];
        }
        i := i + 1;
      }
      assert failed + left[i..] == failed;
      assert left[..i] == left;
      left := failed;
      attempts := attempts + 1;
      if !succeededAny && left != [] {
        break;
      }
    }
  }

  /** Every listed name is running or still to be tried; only what must run is running. */
  ghost predicate Progress(can: Attempt, names: seq<string>, before: set<string>, running: set<string>,
                           left: seq<string>)
  {
    && before <= running
    && Distinct(left)
    && (forall n :: n in left ==> n in names && (n in running ==> n in before))
    && (forall n :: n in names ==> n in running || n in left)
    && (forall t :: before <= t && Settled(can, names, t) ==> running <= t)
  }

  lemma ResumedIsNeeded(can: Attempt, names: seq<string>, before: set<string>, running: set<string>, name: string)
    requires Monotone(can) && name in names && can(name, running)
    requires forall t :: before <= t && Settled(can, names, t) ==> running <= t
    ensures forall t :: before <= t && Settled(can, names, t) ==> running + {name} <= t
  {
    forall t | before <= t && Settled(can, names, t)
      ensures running + {name} <= t
    {
      assert can(name, t);
    }
  }

  lemma DropResumed(can: Attempt, names: seq<string>, before: set<string>, running: set<string>,
                    failed: seq<string>, rest: seq<string>, name: string)
    requires name in running && name !in before
    requires Progress(can, names, before, running - {name}, failed + ([name] + rest))
    requires forall t :: before <= t && Settled(can, names, t) ==> running <= t
    ensures Progress(can, names, before, running, failed + rest)
  {
    var longer := failed + ([name] + rest);
    assert longer[|failed|] == name;
    forall i | 0 <= i < |failed + rest|
      ensures (failed + rest)[i] != name && (failed + rest)[i] in longer
    {
      var j := if i < |failed| then i else i + 1;
      assert longer[j] == (failed + rest)[i];
    }
    forall i, j | 0 <= i < j < |failed + rest|
      ensures (failed + rest)[i] != (failed + rest)[j]
    {
      var i', j' := if i < |failed| then i else i + 1, if j < |failed| then j else j + 1;
      assert longer[i'] == (failed + rest)[i] && longer[j'] == (failed + rest)[j];
    }
  }

  /**
    For such attempts, what ends up running does not depend on the order in which the table lists the
    playbooks. When dependencies are launched the order does matter: see OrderDecidesWorkers.
  */
  lemma ListingOrderIrrelevant(can: Attempt, names: seq<string>, names': seq<string>, before: set<string>,
                               running: set<string>, running': set<string>)
    requires multiset(names) == multiset(names')
    requires LeastSettled(can, names, before, running) && LeastSettled(can, names', before, running')
    ensures running == running'
  {
    forall n ensures n in names <==> n in names' {
      assert n in multiset(names) <==> n in multiset(names');
    }
    assert Settled(can, names', running) && Settled(can, names, running');
  }

  // ---------------------------------------------------------------------------
  // resume_playbook as an attempt
  // ---------------------------------------------------------------------------

  /** A start of `ident` under this name fails before it changes anything. */
  predicate CannotStart(cat: Catalog, env: Env, recorded: set<string>, name: string, ident: Ident) {
    || !env.io(name, ReadRow)
    || (name !in recorded
        && (ident !in cat
            || !env.io(name, PrepareDirectories) || !env.io(name, LoadBinary) || !env.io(name, ValidateConfigurations)))
  }

  /** A server for each dependency is there, or cannot be had by starting it. */
  ghost predicate FoundOrUnstartable(cat: Catalog, env: Env, s: State, main: string, deps: seq<(string, Ident)>) {
    forall k :: 0 <= k < |deps| ==>
      Hosts(s, deps[k].1) != {} || CannotStart(cat, env, s.rows.Keys, SubName(main, deps[k].1), deps[k].1)
  }

  /** During an attempt to resume `main` no dependency comes up for it. */
  ghost predicate NoLaunches(cat: Catalog, env: Env, s: State, main: string) {
    main in s.rows && s.rows[main].config.playbook in cat ==>
      FoundOrUnstartable(cat, env, s, main, cat[s.rows[main].config.playbook].interconnect)
  }

  /** One of the running playbooks is recorded as running `ident`. */
  ghost predicate Provided(rows: map<string, Row>, running: set<string>, ident: Ident) {
    exists m :: m in running && m in rows && rows[m].config.playbook == ident
  }

  /** The playbook's own I/O succeeds and all its dependencies are running. */
  ghost predicate Resumable(cat: Catalog, env: Env, rows: map<string, Row>, n: string, running: set<string>) {
    && n in rows && rows[n].config.playbook in cat
    && env.io(n, ReadRow) && env.io(n, LoadBinary) && env.io(n, UpdateStatus)
    && Spawns(env, n, rows[n].socket, rows[n].http)
    && forall i :: 0 <= i < |cat[rows[n].config.playbook].interconnect| ==>
         Provided(rows, running, cat[rows[n].config.playbook].interconnect[i].1)
  }

  lemma ResumableIsMonotone(cat: Catalog, env: Env, rows: map<string, Row>, n: string, s: set<string>, t: set<string>)
    requires s <= t && Resumable(cat, env, rows, n, s)
    ensures Resumable(cat, env, rows, n, t)
  {
    var deps := cat[rows[n].config.playbook].interconnect;
    forall i | 0 <= i < |deps| ensures Provided(rows, t, deps[i].1) {
      assert Provided(rows, s, deps[i].1);
      var m :| m in s && m in rows && rows[m].config.playbook == deps[i].1;
    }
  }

  /** Rows that differ in status only, which is all a resume changes of them. */
  ghost predicate SameButStatus(rows: map<string, Row>, rows': map<string, Row>) {
    rows.Keys == rows'.Keys && forall n :: n in rows ==> rows'[n] == rows[n].(status := rows'[n].status)
  }

  /** So the condition of a later attempt can be read off the rows of any earlier one. */
  lemma ResumableIgnoresStatus(cat: Catalog, env: Env, rows: map<string, Row>, rows': map<string, Row>, n: string,
                               running: set<string>)
    requires SameButStatus(rows, rows') && Resumable(cat, env, rows, n, running)
    ensures Resumable(cat, env, rows', n, running)
  {
    var deps := cat[rows[n].config.playbook].interconnect;
    forall i | 0 <= i < |deps| ensures Provided(rows', running, deps[i].1) {
      assert Provided(rows, running, deps[i].1);
      var m :| m in running && m in rows && rows[m].config.playbook == deps[i].1;
    }
  }

  lemma HostsAreProvided(cat: Catalog, s: State, ident: Ident)
    requires CatalogValid(cat) && Consistent(cat, s)
    ensures Hosts(s, ident) != {} <==> Provided(s.rows, s.workers.Keys, ident)
  {
    forall n | n in s.workers ensures n in s.rows && s.rows[n].config.playbook == s.workers[n].spec.ident {
      assert Recorded(cat, s, n);
    }
    if Hosts(s, ident) != {} {
      var n :| n in Hosts(s, ident);
    }
    if Provided(s.rows, s.workers.Keys, ident) {
      var m :| m in s.workers.Keys && m in s.rows && s.rows[m].config.playbook == ident;
      assert m in Hosts(s, ident);
    }
  }

  lemma {:induction false} BuildWithoutLaunches(cat: Catalog, env: Env, fuel: nat, s: State, main: string,
                                                deps: seq<(string, Ident)>)
    requires fuel > 0 && FoundOrUnstartable(cat, env, s, main, deps)
    ensures var o := Build(cat, env, fuel, s, main, deps);
            o.Finished? && o.state == s && (o.value.Some? <==> DependenciesRunning(s, deps))
    decreases |deps|
  {
    if deps != [] {
      var ident := deps[0].1;
      if Hosts(s, ident) == {} {
        assert !Prepared(cat, env, s, SubName(main, ident), ident).1;
        assert Start(cat, env, fuel, s, SubName(main, ident), DefaultArgs(ident)) == Finished(s, None);
        assert FindOrLaunch(cat, env, fuel, s, main, ident) == Finished(s, None);
      } else {
        assert FindOrLaunch(cat, env, fuel, s, main, ident).value.Some?;
      }
      assert forall k :: 0 <= k < |deps[1..]| ==> deps[1..][k] == deps[k + 1];
      BuildWithoutLaunches(cat, env, fuel, s, main, deps[1..]);
      assert DependenciesRunning(s, deps) <==> Hosts(s, ident) != {} && DependenciesRunning(s, deps[1..]) by {
        assert forall i :: 1 <= i < |deps| ==> deps[i] == deps[1..][i - 1];
        assert forall i :: 0 <= i < |deps[1..]| ==> deps[1..][i] == deps[i + 1];
      }
    }
  }

  /**
    Without launches, resume_playbook succeeds exactly when the playbook is not running and can be
    resumed over the running set; success adds the name to that set, and failure changes nothing.
  */
  lemma ResumeIsAnAttempt(cat: Catalog, env: Env, fuel: nat, s: State, n: string)
    requires CatalogValid(cat) && Consistent(cat, s) && fuel > 0 && NoLaunches(cat, env, s, n)
    ensures var o := Resume(cat, env, fuel, s, n);
            && o.Finished?
            && (o.value.Some? <==> n !in s.workers && Resumable(cat, env, s.rows, n, s.workers.Keys))
            && (o.value.Some? ==> o.state.workers.Keys == s.workers.Keys + {n})
            && (o.value.None? ==> o.state == s)
            && SameButStatus(s.rows, o.state.rows)
  {
    if n !in s.workers && n in s.rows && s.rows[n].config.playbook in cat {
      var deps := cat[s.rows[n].config.playbook].interconnect;
      BuildWithoutLaunches(cat, env, fuel, s, n, deps);
      forall i | 0 <= i < |deps|
        ensures Hosts(s, deps[i].1) != {} <==> Provided(s.rows, s.workers.Keys, deps[i].1)
      {
        HostsAreProvided(cat, s, deps[i].1);
      }
    }
  }

  /** Each playbook's attempts have an environment of their own. */
  type Environments = string -> Env

  /** Whether a playbook can be resumed, by the rows as they were when the daemon came up. */
  ghost function CanResume(cat: Catalog, envs: Environments, rows: map<string, Row>): (can: Attempt)
    ensures Monotone(can)
  {
    ResumableAlwaysMonotone(cat, envs, rows);
    (n: string, running: set<string>) => Resumable(cat, envs(n), rows, n, running)
  }

  lemma ResumableAlwaysMonotone(cat: Catalog, envs: Environments, rows: map<string, Row>)
    ensures forall n, s, t ::
              s <= t && Resumable(cat, envs(n), rows, n, s) ==> Resumable(cat, envs(n), rows, n, t)
  {
    forall n, s, t | s <= t && Resumable(cat, envs(n), rows, n, s) ensures Resumable(cat, envs(n), rows, n, t) {
      ResumableIsMonotone(cat, envs(n), rows, n, s, t);
    }
  }

  lemma SameButStatusComposes(rows: map<string, Row>, rows': map<string, Row>, rows'': map<string, Row>)
    requires SameButStatus(rows, rows') && SameButStatus(rows', rows'')
    ensures SameButStatus(rows, rows'') && SameButStatus(rows', rows)
  {
  }

  /** One turn of the manager's own loop: the playbook leaves the list or goes to the failed ones. */
  lemma ResumeTurn(cat: Catalog, envs: Environments, fuel: nat, rows: map<string, Row>, names: seq<string>,
                   before: set<string>, s: State, failed: seq<string>, name: string, rest: seq<string>)
    requires CatalogValid(cat) && Consistent(cat, s) && fuel > 0 && NoLaunches(cat, envs(name), s, name)
    requires SameButStatus(rows, s.rows)
    requires Progress(CanResume(cat, envs, rows), names, before, s.workers.Keys, failed + ([name] + rest))
    ensures var (can, o) := (CanResume(cat, envs, rows), Resume(cat, envs(name), fuel, s, name));
            && o.Finished? && SameButStatus(rows, o.state.rows)
            && (o.value.Some? ==> Progress(can, names, before, o.state.workers.Keys, failed + rest))
            && (o.value.None? ==>
                  o.state == s && Progress(can, names, before, s.workers.Keys, (failed + [name]) + rest))
  {
    var (can, o, running) := (CanResume(cat, envs, rows), Resume(cat, envs(name), fuel, s, name), s.workers.Keys);
    ResumeIsAnAttempt(cat, envs(name), fuel, s, name);
    SameButStatusComposes(rows, s.rows, o.state.rows);
    assert (failed + ([name] + rest))[|failed|] == name;
    if Resumable(cat, envs(name), s.rows, name, running) {
      ResumableIgnoresStatus(cat, envs(name), s.rows, rows, name, running);
    }
    if o.value.Some? {
      ResumedIsNeeded(can, names, before, running, name);
      assert running + {name} - {name} == running;
      DropResumed(can, names, before, running + {name}, failed, rest, name);
    } else {
      assert (failed + [name]) + rest == failed + ([name] + rest);
    }
  }

  /** None of the listed playbooks has a dependency launched for it. */
  ghost predicate Quiet(cat: Catalog, envs: Environments, s: State, names: seq<string>) {
    forall n :: n in names ==> NoLaunches(cat, envs(n), s, n)
  }

  lemma NoLaunchesPersists(cat: Catalog, env: Env, s: State, s': State, n: string)
    requires NoLaunches(cat, env, s, n) && Grows(s, s') && SameButStatus(s.rows, s'.rows)
    ensures NoLaunches(cat, env, s', n)
  {
    if n in s.rows && s.rows[n].config.playbook in cat {
      var deps := cat[s.rows[n].config.playbook].interconnect;
      forall k | 0 <= k < |deps|
        ensures Hosts(s', deps[k].1) != {} ||
                CannotStart(cat, env, s'.rows.Keys, SubName(n, deps[k].1), deps[k].1)
      {
        HostsPersist(s, s', deps[k].1);
      }
    }
  }

  ghost predicate AllReadCallbacks(envs: Environments, names: seq<string>) {
    forall n :: n in names ==> ReadsCallbacks(envs(n))
  }

  // ---------------------------------------------------------------------------
  // The playbooks that run
  // ---------------------------------------------------------------------------

  /** What the listed names are recorded to run. */
  function ListedIdents(s: State, names: seq<string>): set<Ident> {
    set n | n in names && n in s.rows :: s.rows[n].config.playbook
  }

  ghost predicate Within(s: State, names: seq<string>, idents: set<Ident>) {
    RunningIdents(s) <= idents && ListedIdents(s, names) <= idents
  }

  /** Nothing runs or is listed but what ran or was listed at the start, or is needed by that. */
  ghost predicate OnlyNeeded(cat: Catalog, start: State, names: seq<string>, s: State) {
    forall idents :: ClosedUnder(cat, idents) && Within(start, names, idents) ==> Within(s, names, idents)
  }

  lemma ResumeStaysWithin(cat: Catalog, env: Env, fuel: nat, s: State, name: string, names: seq<string>,
                          idents: set<Ident>)
    requires CatalogValid(cat) && Consistent(cat, s) && Resume(cat, env, fuel, s, name).Finished?
    requires name in names && ClosedUnder(cat, idents) && Within(s, names, idents)
    ensures Within(Resume(cat, env, fuel, s, name).state, names, idents)
  {
    hide Resume, LaunchedAs, LaunchName;
    var s' := Resume(cat, env, fuel, s, name).state;
    ResumeTouches(cat, env, fuel, s, name);
    ResumeKeepsConsistent(cat, env, fuel, s, name);
    if name in s.rows {
      var i := s.rows[name].config.playbook;
      assert i in ListedIdents(s, names);
      forall n | n in s'.workers ensures IdentOf(s', n) in idents {
        if n in s.workers {
          assert IdentOf(s, n) in RunningIdents(s);
        } else {
          assert Launched(s, s', n);
          LaunchedStaysWithin(cat, idents, name, i, n, IdentOf(s', n));
        }
      }
      forall n | n in names && n in s'.rows ensures s'.rows[n].config.playbook in idents {
        if n in s.rows && s'.rows[n] == s.rows[n] {
          assert s.rows[n].config.playbook in ListedIdents(s, names);
        } else {
          assert n in s'.workers && Recorded(cat, s', n);
        }
      }
    }
  }

  lemma ResumeKeepsOnlyNeeded(cat: Catalog, env: Env, fuel: nat, start: State, names: seq<string>, s: State,
                              name: string)
    requires CatalogValid(cat) && Consistent(cat, s) && Resume(cat, env, fuel, s, name).Finished?
    requires name in names && OnlyNeeded(cat, start, names, s)
    ensures OnlyNeeded(cat, start, names, Resume(cat, env, fuel, s, name).state)
  {
    hide Resume, Within, ClosedUnder, Consistent;
    forall idents | ClosedUnder(cat, idents) && Within(start, names, idents)
      ensures Within(Resume(cat, env, fuel, s, name).state, names, idents)
    {
      ResumeStaysWithin(cat, env, fuel, s, name, names, idents);
    }
  }

  /**
    Once all that was listed runs, the running playbooks are exactly those that ran or were listed, and
    what they need: the least such set.
  */
  lemma ListedRunningIsLeast(cat: Catalog, start: State, names: seq<string>, s: State)
    requires CatalogValid(cat) && Consistent(cat, s) && Closed(s) && Grows(start, s) && OnlyNeeded(cat, start, names, s)
    requires ListedIdents(start, names) <= RunningIdents(s)
    ensures LeastClosed(cat, RunningIdents(start) + ListedIdents(start, names), RunningIdents(s))
  {
    RunningIsClosed(cat, s);
    forall i | i in RunningIdents(start) ensures i in RunningIdents(s) {
      var n :| n in start.workers && IdentOf(start, n) == i;
      assert IdentOf(s, n) == i;
    }
  }

  /** Idle rows are old rows. */
  ghost predicate IdleRowsKept(s: State, s': State) {
    Grows(s, s') && forall n :: n in s'.rows && n !in s'.workers ==> n in s.rows && s'.rows[n] == s.rows[n]
  }

  lemma TouchesKeepIdleRows(cat: Catalog, own: bool, main: string, i: Ident, s: State, s': State)
    requires Touches(cat, own, main, i, s, s')
    ensures IdleRowsKept(s, s')
  {
    hide LaunchName, LaunchedAs;
  }

  lemma IdleRowsKeptCompose(s: State, s1: State, s2: State)
    requires IdleRowsKept(s, s1) && IdleRowsKept(s1, s2)
    ensures IdleRowsKept(s, s2)
  {
  }

  lemma ResumeKeepsIdleRows(cat: Catalog, env: Env, fuel: nat, s: State, n: string)
    requires CatalogValid(cat) && Resume(cat, env, fuel, s, n).Finished?
    ensures IdleRowsKept(s, Resume(cat, env, fuel, s, n).state)
  {
    hide Resume;
    ResumeTouches(cat, env, fuel, s, n);
    if n in s.rows {
      TouchesKeepIdleRows(cat, true, n, s.rows[n].config.playbook, s, Resume(cat, env, fuel, s, n).state);
    }
  }

  /** What holds between the attempts, from `start` on; more of it if nothing is launched on the side. */
  ghost predicate Resuming(cat: Catalog, envs: Environments, start: State, names: seq<string>, s: State,
                           left: seq<string>)
  {
    && Consistent(cat, s) && Closed(s) && (AllReadCallbacks(envs, names) ==> Synced(s))
    && Grows(start, s)
    && (forall n :: n in left ==> n in names)
    && (forall n :: n in names ==> n in s.workers || n in left)
    && OnlyNeeded(cat, start, names, s) && IdleRowsKept(start, s)
    && (Quiet(cat, envs, start, names) ==>
          && Progress(CanResume(cat, envs, start.rows), names, start.workers.Keys, s.workers.Keys, left)
          && SameButStatus(start.rows, s.rows))
  }

  // ---------------------------------------------------------------------------
  // Passes
  // ---------------------------------------------------------------------------

  /** One pass over the names: the state it leaves and the names it failed to resume. */
  function Pass(cat: Catalog, envs: Environments, fuel: nat, s: State, names: seq<string>): (State, seq<string>)
    decreases |names|
  {
    if names == [] then (s, [])
    else
      match Resume(cat, envs(names[0]), fuel, s, names[0])
      case Diverges => (s, names)
      case Finished(s1, resumed) =>
        var (s2, failed) := Pass(cat, envs, fuel, s1, names[1..]);
        (s2, if resumed.Some? then failed else [names[0]] + failed)
  }

  /** Some attempt of the pass fails and still changes something, by what it launched or cleaned up first. */
  predicate Disturbed(cat: Catalog, envs: Environments, fuel: nat, s: State, names: seq<string>)
    decreases |names|
  {
    names != [] &&
    match Resume(cat, envs(names[0]), fuel, s, names[0])
    case Diverges => false
    case Finished(s1, resumed) => (resumed.None? && s1 != s) || Disturbed(cat, envs, fuel, s1, names[1..])
  }

  lemma PassOverNothing(cat: Catalog, envs: Environments, fuel: nat, s: State)
    ensures Pass(cat, envs, fuel, s, []) == (s, []) && !Disturbed(cat, envs, fuel, s, [])
  {
  }

  /** The attempt at position i, with those already failed. */
  lemma PassTurn(cat: Catalog, envs: Environments, fuel: nat, s: State, names: seq<string>, i: nat, failed: seq<string>)
    requires i < |names| && Resume(cat, envs(names[i]), fuel, s, names[i]).Finished?
    ensures var o := Resume(cat, envs(names[i]), fuel, s, names[i]);
            var (here, rest) := (Pass(cat, envs, fuel, s, names[i..]), Pass(cat, envs, fuel, o.state, names[i + 1..]));
            && here.0 == rest.0
            && failed + here.1 == (if o.value.Some? then failed else failed + [names[i]]) + rest.1
            && (Disturbed(cat, envs, fuel, s, names[i..]) <==>
                (o.value.None? && o.state != s) || Disturbed(cat, envs, fuel, o.state, names[i + 1..]))
  {
    hide Resume;
    assert names[i..][0] == names[i] && names[i..][1..] == names[i + 1..];
    var o := Resume(cat, envs(names[i]), fuel, s, names[i]);
    var rest := Pass(cat, envs, fuel, o.state, names[i + 1..]).1;
    assert failed + ([names[i]] + rest) == (failed + [names[i]]) + rest;
  }

  lemma PassFailsAtMost(cat: Catalog, envs: Environments, fuel: nat, s: State, names: seq<string>)
    ensures |Pass(cat, envs, fuel, s, names).1| <= |names|
    decreases |names|
  {
  }

  lemma {:induction false} PassGrows(cat: Catalog, envs: Environments, fuel: nat, s: State, names: seq<string>)
    ensures Grows(s, Pass(cat, envs, fuel, s, names).0)
    decreases |names|
  {
    hide Resume;
    if names != [] {
      var o := Resume(cat, envs(names[0]), fuel, s, names[0]);
      if o.Finished? {
        ResumeFrames(cat, envs(names[0]), fuel, s, names[0]);
        PassGrows(cat, envs, fuel, o.state, names[1..]);
      }
    }
  }

  lemma {:induction false} PassKeepsDistinct(cat: Catalog, envs: Environments, fuel: nat, s: State, names: seq<string>)
    requires Distinct(names)
    ensures var failed := Pass(cat, envs, fuel, s, names).1;
            Distinct(failed) && forall n :: n in failed ==> n in names
    decreases |names|
  {
    hide Resume;
    if names != [] {
      var o := Resume(cat, envs(names[0]), fuel, s, names[0]);
      assert forall n :: n in names[1..] ==> n in names && n != names[0];
      if o.Finished? {
        PassKeepsDistinct(cat, envs, fuel, o.state, names[1..]);
        var rest := Pass(cat, envs, fuel, o.state, names[1..]).1;
        assert names[0] !in rest;
        var longer := [names[0]] + rest;
        assert forall i :: 0 < i < |longer| ==> longer[i] == rest[i - 1] && longer[i] in rest;
      }
    }
  }

  /** After an undisturbed pass without success, every name would be refused again. */
  lemma {:induction false} UndisturbedPassIsStuck(cat: Catalog, envs: Environments, fuel: nat, s: State,
                                                  names: seq<string>)
    requires forall n :: n in names ==> Resume(cat, envs(n), fuel, s, n).Finished?
    requires |Pass(cat, envs, fuel, s, names).1| == |names| && !Disturbed(cat, envs, fuel, s, names)
    ensures Pass(cat, envs, fuel, s, names) == (s, names) && Stuck(cat, envs, fuel, s, names)
    decreases |names|
  {
    if names != [] {
      var o := Resume(cat, envs(names[0]), fuel, s, names[0]);
      assert names[0] in names && o.Finished?;
      PassFailsAtMost(cat, envs, fuel, o.state, names[1..]);
      assert o.value.None?;
      UndisturbedPassIsStuck(cat, envs, fuel, s, names[1..]);
      assert names == [names[0]] + names[1..];
    }
  }

  /** Every one of these would be refused again. */
  ghost predicate Stuck(cat: Catalog, envs: Environments, fuel: nat, s: State, failed: seq<string>) {
    forall n :: n in failed ==>
      var o := Resume(cat, envs(n), fuel, s, n);
      o.Finished? && o.value.None?
  }

  lemma AttemptKeepsResuming(cat: Catalog, envs: Environments, fuel: nat, rank: Ident -> nat, start: State,
                             names: seq<string>, s: State, failed: seq<string>, name: string, rest: seq<string>)
    requires CatalogValid(cat) && Acyclic(cat, rank) && fuel > 0 && forall i :: i in cat ==> rank(i) <= fuel
    requires Resuming(cat, envs, start, names, s, failed + ([name] + rest))
    ensures var o := Resume(cat, envs(name), fuel, s, name);
            && o.Finished?
            && (o.value.Some? ==> Resuming(cat, envs, start, names, o.state, failed + rest))
            && (o.value.None? ==>
                  && Resuming(cat, envs, start, names, o.state, (failed + [name]) + rest)
                  && (Quiet(cat, envs, start, names) ==> o.state == s))
  {
    hide Resume, Progress, SameButStatus, Consistent, Closed, Synced, CanResume, OnlyNeeded, NoLaunches,
         IdleRowsKept;
    var env := envs(name);
    var o := Resume(cat, env, fuel, s, name);
    ResumeEnds(cat, env, fuel, s, name, rank);
    ResumeKeepsConsistent(cat, env, fuel, s, name);
    ResumeKeepsClosed(cat, env, fuel, s, name);
    assert (failed + ([name] + rest))[|failed|] == name;
    if AllReadCallbacks(envs, names) {
      ResumeKeepsSynced(cat, env, fuel, s, name);
    }
    ResumeFrames(cat, env, fuel, s, name);
    ResumeKeepsOnlyNeeded(cat, env, fuel, start, names, s, name);
    ResumeKeepsIdleRows(cat, env, fuel, s, name);
    IdleRowsKeptCompose(start, s, o.state);
    if Quiet(cat, envs, start, names) {
      NoLaunchesPersists(cat, env, start, s, name);
      ResumeTurn(cat, envs, fuel, start.rows, names, start.workers.Keys, s, failed, name, rest);
    }
  }

  lemma ResumingStarts(cat: Catalog, envs: Environments, s: State, names: seq<string>)
    requires Consistent(cat, s) && Closed(s) && Synced(s) && Distinct(names)
    ensures Resuming(cat, envs, s, names, s, names)
  {
  }

  lemma StuckNowhere(cat: Catalog, envs: Environments, fuel: nat, s: State)
    ensures Stuck(cat, envs, fuel, s, [])
  {
  }

  lemma NothingListed(s: State)
    ensures ListedIdents(s, []) == {}
  {
  }

  lemma ResumingNames(cat: Catalog, envs: Environments, start: State, names: seq<string>, s: State, left: seq<string>)
    requires Resuming(cat, envs, start, names, s, left)
    ensures IdleRowsKept(start, s) && forall n :: n in left ==> n in names
  {
  }

  lemma ResumingEnds(cat: Catalog, envs: Environments, fuel: nat, start: State, names: seq<string>, s: State,
                     left: seq<string>)
    requires CatalogValid(cat) && fuel > 0
    requires Resuming(cat, envs, start, names, s, left)
    ensures OnlyNeeded(cat, start, names, s) && IdleRowsKept(start, s)
    ensures Consistent(cat, s) && Closed(s) && (AllReadCallbacks(envs, names) ==> Synced(s)) && Grows(start, s)
    ensures forall n :: n in names ==> n in s.workers || n in left
    ensures Quiet(cat, envs, start, names) && Stuck(cat, envs, fuel, s, left) ==>
              var can := CanResume(cat, envs, start.rows);
              && LeastSettled(can, names, start.workers.Keys, s.workers.Keys)
              && (forall n :: n in left ==> n in names && (n in start.workers || !can(n, s.workers.Keys)))
  {
    hide Resume;
    if Quiet(cat, envs, start, names) && Stuck(cat, envs, fuel, s, left) {
      forall n | n in left ensures n in s.workers || !CanResume(cat, envs, start.rows)(n, s.workers.Keys) {
        NoLaunchesPersists(cat, envs(n), start, s, n);
        ResumeIsAnAttempt(cat, envs(n), fuel, s, n);
        if Resumable(cat, envs(n), start.rows, n, s.workers.Keys) {
          ResumableIgnoresStatus(cat, envs(n), start.rows, s.rows, n, s.workers.Keys);
        }
      }
    }
  }
}
