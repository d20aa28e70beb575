/**
  When a pass of the startup loop without success is a dead end. A failed attempt may have launched
  dependencies, which can help another playbook, or cleaned up a recorded name, which can help itself.
  If the listed playbooks share no dependency that is not running, and no name that a launch would
  take is recorded, neither can happen, whatever fails.
*/
module StartupDeadEnds {
  import opened Prelude
  import opened Playbooks
  import opened PlaybookFrames
  import opened PlaybookInvariants
  import opened PlaybookLaunches
  import opened PlaybookReach
  import opened StartupResume

  /** Every recorded name under which something may be launched for `main` is running already. */
  ghost predicate NoIdleRows(cat: Catalog, own: bool, main: string, i: Ident, s: State) {
    forall n :: LaunchName(cat, own, main, i, n) && n in s.rows ==> n in s.workers
  }

  /** Nothing that `i` needs has come up between the two states. */
  ghost predicate Unhelped(cat: Catalog, i: Ident, s: State, t: State) {
    Grows(s, t) && forall n :: Launched(s, t, n) ==> !Needs(cat, i, IdentOf(t, n))
  }

  lemma NeededNext(cat: Catalog, i: Ident, d: Ident)
    requires NeedsNext(cat, i, d)
    ensures Needs(cat, i, d) && forall j :: Needs(cat, d, j) ==> Needs(cat, i, j)
  {
    assert Chain(cat, d, []);
    ChainPrepend(cat, i, d, []);
    assert EndOf(i, [d] + []) == d;
    forall j | Needs(cat, d, j) ensures Needs(cat, i, j) {
      var path :| path != [] && Chain(cat, d, path) && EndOf(d, path) == j;
      ChainPrepend(cat, i, d, path);
    }
  }

  lemma NoIdleRowsForDependency(cat: Catalog, main: string, i: Ident, d: Ident, s: State)
    requires NeedsNext(cat, i, d) && NoIdleRows(cat, false, main, i, s)
    ensures NoIdleRows(cat, true, SubName(main, d), d, s)
  {
    hide LaunchedAs;
    forall n, j | LaunchedAs(cat, true, SubName(main, d), d, n, j) ensures LaunchedAs(cat, false, main, i, n, j) {
      LaunchedForDependency(cat, main, i, d, n, j);
    }
  }

  lemma NoIdleRowsOfNeeds(cat: Catalog, main: string, i: Ident, s: State)
    requires NoIdleRows(cat, true, main, i, s)
    ensures NoIdleRows(cat, false, main, i, s) && (main in s.rows ==> main in s.workers)
  {
    hide LaunchedAs;
    OwnLaunch(cat, main, i);
    forall n, j | LaunchedAs(cat, false, main, i, n, j) ensures LaunchedAs(cat, true, main, i, n, j) {
      LaunchedOwnToo(cat, main, i, n, j);
    }
  }

  lemma NoIdleRowsPersist(cat: Catalog, own: bool, main: string, i: Ident, s: State, s': State)
    requires NoIdleRows(cat, own, main, i, s) && IdleRowsKept(s, s')
    ensures NoIdleRows(cat, own, main, i, s')
  {
    hide LaunchName;
  }

  // ---------------------------------------------------------------------------
  // A failed start fails again
  // ---------------------------------------------------------------------------

  /** A start that failed fails again in any later state in which nothing it needs has come up since. */
  lemma {:induction false} StartFailsAgain(cat: Catalog, env: Env, fuel: nat, rank: Ident -> nat, s: State, t: State,
                                           name: string, args: StartArgs)
    requires CatalogValid(cat) && Acyclic(cat, rank) && fuel > rank(args.playbook)
    requires var o := Start(cat, env, fuel, s, name, args);
             o.Finished? && o.value.None? && Unhelped(cat, args.playbook, o.state, t)
    requires NoIdleRows(cat, true, name, args.playbook, s) && NoIdleRows(cat, true, name, args.playbook, t)
    ensures var o := Start(cat, env, fuel, t, name, args); o.Finished? && o.value.None?
    decreases fuel, 0
  {
    hide NoIdleRows, Needs, LaunchName;
    var i := args.playbook;
    StartTerminates(cat, env, fuel, t, name, args, rank);
    StartFrames(cat, env, fuel, s, name, args);
    NoIdleRowsOfNeeds(cat, name, i, s);
    NoIdleRowsOfNeeds(cat, name, i, t);
    if name !in t.workers {
      var ready := Prepared(cat, env, s, name, i);
      assert name !in s.workers && ready.0 == s;
      assert Prepared(cat, env, t, name, i) == (t, ready.1);
      if ready.1 {
        var deps := cat[i].interconnect;
        assert DependenciesBelow(deps, rank, rank(i));
        var built := Build(cat, env, fuel - 1, s, name, deps);
        if built.value.None? {
          BuildFailsAgain(cat, env, fuel - 1, rank, s, t, name, i, deps);
        }
      }
    }
  }

  lemma {:induction false} BuildFailsAgain(cat: Catalog, env: Env, fuel: nat, rank: Ident -> nat, s: State, t: State,
                                           main: string, i: Ident, deps: seq<(string, Ident)>)
    requires CatalogValid(cat) && Acyclic(cat, rank) && DependenciesBelow(deps, rank, fuel)
    requires i in cat && forall k :: 0 <= k < |deps| ==> deps[k] in cat[i].interconnect
    requires var o := Build(cat, env, fuel, s, main, deps);
             o.Finished? && o.value.None? && Unhelped(cat, i, o.state, t)
    requires NoIdleRows(cat, false, main, i, s) && NoIdleRows(cat, false, main, i, t)
    ensures var o := Build(cat, env, fuel, t, main, deps); o.Finished? && o.value.None?
    decreases fuel, 2, |deps|
  {
    hide NoIdleRows, Needs, LaunchName, Start, Hosts;
    var s' := Build(cat, env, fuel, s, main, deps).state;
    var (d, rest, sub) := (deps[0].1, deps[1..], SubName(main, deps[0].1));
    assert deps[0] in cat[i].interconnect;
    assert NeedsNext(cat, i, d);
    assert forall k :: 0 <= k < |rest| ==> rest[k] == deps[k + 1];
    BuildFrames(cat, env, fuel, s, main, deps);
    var first := FindOrLaunch(cat, env, fuel, s, main, d);
    if Hosts(s, d) != {} {
      HostsPersist(s, t, d);
      BuildFailsAgain(cat, env, fuel, rank, s, t, main, i, rest);
    } else if first.value.Some? {
      LaunchedServes(cat, env, fuel, s, main, d);
      BuildFrames(cat, env, fuel, first.state, main, rest);
      HostsPersist(first.state, t, d);
      StartTouches(cat, env, fuel, s, sub, DefaultArgs(d));
      TouchesKeepIdleRows(cat, true, sub, d, s, first.state);
      NoIdleRowsPersist(cat, false, main, i, s, first.state);
      BuildFailsAgain(cat, env, fuel, rank, first.state, t, main, i, rest);
    } else {
      StillMissing(cat, env, fuel, rank, s, t, main, i, d);
      NeededNext(cat, i, d);
      NoIdleRowsForDependency(cat, main, i, d, s);
      NoIdleRowsForDependency(cat, main, i, d, t);
      StartedOrNot(cat, env, fuel, s, main, d);
      StartFailsAgain(cat, env, fuel, rank, s, t, sub, DefaultArgs(d));
      assert FindOrLaunch(cat, env, fuel, t, main, d).value.None?;
    }
  }

  lemma StartedOrNot(cat: Catalog, env: Env, fuel: nat, s: State, main: string, d: Ident)
    requires Hosts(s, d) == {}
    requires var first := FindOrLaunch(cat, env, fuel, s, main, d); first.Finished? && first.value.None?
    ensures var o := Start(cat, env, fuel, s, SubName(main, d), DefaultArgs(d));
            o.Finished? && o.value.None? && o.state == FindOrLaunch(cat, env, fuel, s, main, d).state
  {
    StartFrames(cat, env, fuel, s, SubName(main, d), DefaultArgs(d));
  }

  lemma LaunchedServes(cat: Catalog, env: Env, fuel: nat, s: State, main: string, d: Ident)
    requires CatalogValid(cat) && Hosts(s, d) == {}
    requires var first := FindOrLaunch(cat, env, fuel, s, main, d); first.Finished? && first.value.Some?
    ensures var first := FindOrLaunch(cat, env, fuel, s, main, d);
            && Hosts(first.state, d) != {}
            && first.state == Start(cat, env, fuel, s, SubName(main, d), DefaultArgs(d)).state
  {
    FoundServerMatches(cat, env, fuel, s, main, d);
  }

  /** What a failed launch brought up is below the dependency, so the dependency itself is still missing. */
  lemma StillMissing(cat: Catalog, env: Env, fuel: nat, rank: Ident -> nat, s: State, t: State, main: string, i: Ident,
                     d: Ident)
    requires CatalogValid(cat) && Acyclic(cat, rank) && NeedsNext(cat, i, d) && Hosts(s, d) == {}
    requires var first := FindOrLaunch(cat, env, fuel, s, main, d);
             first.Finished? && first.value.None? && Unhelped(cat, i, first.state, t)
    ensures Hosts(t, d) == {}
  {
    hide Start, Needs;
    var s' := FindOrLaunch(cat, env, fuel, s, main, d).state;
    StartedOrNot(cat, env, fuel, s, main, d);
    var sub := SubName(main, d);
    StartLaunchesOnce(cat, env, fuel, s, sub, DefaultArgs(d), rank);
    NeededNext(cat, i, d);
    if sub !in s.workers {
      FailureLeavesNoWorker(cat, env, fuel, s, sub, DefaultArgs(d));
    }
    forall n | n in t.workers ensures IdentOf(t, n) != d {
      if n in s.workers {
        assert n !in Hosts(s, d);
      } else if n in s'.workers {
        assert Launched(s, s', n);
      } else {
        assert Launched(s', t, n);
      }
    }
  }

  lemma ResumeFailsAgain(cat: Catalog, env: Env, fuel: nat, rank: Ident -> nat, s: State, t: State, n: string)
    requires CatalogValid(cat) && Acyclic(cat, rank) && forall i :: i in cat ==> rank(i) <= fuel
    requires var o := Resume(cat, env, fuel, s, n); o.Finished? && o.value.None? && IdleRowsKept(o.state, t)
    requires n in s.rows && n !in s.workers ==>
               var i := s.rows[n].config.playbook;
               && Unhelped(cat, i, Resume(cat, env, fuel, s, n).state, t)
               && NoIdleRows(cat, false, n, i, s) && NoIdleRows(cat, false, n, i, t)
    ensures var o := Resume(cat, env, fuel, t, n); o.Finished? && o.value.None?
  {
    hide NoIdleRows, Needs, LaunchName;
    ResumeEnds(cat, env, fuel, t, n, rank);
    var s' := Resume(cat, env, fuel, s, n).state;
    ResumeFrames(cat, env, fuel, s, n);
    if n !in t.workers && n in t.rows {
      assert n !in s'.workers && n !in s.workers;
      assert RowKept(s, s', n) && t.rows[n] == s.rows[n];
      var i := s.rows[n].config.playbook;
      if env.io(n, ReadRow) && env.io(n, LoadBinary) && i in cat {
        var deps := cat[i].interconnect;
        var built := Build(cat, env, fuel, s, n, deps);
        BuildFrames(cat, env, fuel, s, n, deps);
        BuildFrames(cat, env, fuel, t, n, deps);
        if built.value.None? {
          assert DependenciesBelow(deps, rank, rank(i));
          BuildFailsAgain(cat, env, fuel, rank, s, t, n, i, deps);
        }
      }
    }
  }

  // ---------------------------------------------------------------------------
  // Passes
  // ---------------------------------------------------------------------------

  /** What two idle playbooks of the listing both need, directly or not, is running. */
  ghost predicate SharedRun(cat: Catalog, s: State, names: seq<string>) {
    forall n, m, j :: n in names && m in names && n != m && Idle(s, n) && Idle(s, m) &&
                      Needs(cat, s.rows[n].config.playbook, j) && Needs(cat, s.rows[m].config.playbook, j) ==>
                        Hosts(s, j) != {}
  }

  predicate Idle(s: State, n: string) {
    n in s.rows && n !in s.workers
  }

  /** No name that would be taken by a launch for an idle playbook of the listing is recorded and idle. */
  ghost predicate LaunchNamesFree(cat: Catalog, s: State, names: seq<string>) {
    forall n :: n in names && Idle(s, n) ==> NoIdleRows(cat, false, n, s.rows[n].config.playbook, s)
  }

  /** The listed playbooks cannot help each other, nor themselves. */
  ghost predicate Independent(cat: Catalog, s: State, names: seq<string>) {
    SharedRun(cat, s, names) && LaunchNamesFree(cat, s, names)
  }

  lemma IndependencePersists(cat: Catalog, s: State, s': State, names: seq<string>, names': seq<string>)
    requires Independent(cat, s, names) && IdleRowsKept(s, s') && forall n :: n in names' ==> n in names
    ensures Independent(cat, s', names')
  {
    hide NoIdleRows, Needs, Hosts;
    forall n, m, j | n in names' && m in names' && n != m && Idle(s', n) && Idle(s', m) &&
                     Needs(cat, s'.rows[n].config.playbook, j) && Needs(cat, s'.rows[m].config.playbook, j)
      ensures Hosts(s', j) != {}
    {
      assert Hosts(s, j) != {};
      HostsPersist(s, s', j);
    }
    forall n | n in names' && Idle(s', n) ensures NoIdleRows(cat, false, n, s'.rows[n].config.playbook, s') {
      NoIdleRowsPersist(cat, false, n, s.rows[n].config.playbook, s, s');
    }
  }

  /** What came up during the pass: for each, an idle playbook of the listing that needs it. */
  ghost predicate CameUpFor(cat: Catalog, s: State, t: State, names: seq<string>) {
    forall x :: Launched(s, t, x) ==>
      && Hosts(s, IdentOf(t, x)) == {}
      && exists m :: m in names && Idle(s, m) && Needs(cat, s.rows[m].config.playbook, IdentOf(t, x))
  }

  lemma FailedResumeLaunches(cat: Catalog, env: Env, fuel: nat, rank: Ident -> nat, s: State, n: string)
    requires CatalogValid(cat) && Acyclic(cat, rank)
    requires var o := Resume(cat, env, fuel, s, n); o.Finished? && o.value.None?
    ensures CameUpFor(cat, s, Resume(cat, env, fuel, s, n).state, [n])
  {
    hide Needs, LaunchedAs;
    var s' := Resume(cat, env, fuel, s, n).state;
    ResumeTouches(cat, env, fuel, s, n);
    ResumeFrames(cat, env, fuel, s, n);
    forall x | Launched(s, s', x)
      ensures Hosts(s, IdentOf(s', x)) == {} && Idle(s, n) && Needs(cat, s.rows[n].config.playbook, IdentOf(s', x))
    {
      var i := s.rows[n].config.playbook;
      LaunchedIsNeeded(cat, true, n, i, x, IdentOf(s', x));
      var deps := cat[i].interconnect;
      assert DependenciesBelow(deps, rank, rank(i));
      BuildLaunchesOnce(cat, env, fuel, s, n, deps, rank, rank(i));
      assert Launched(s, Build(cat, env, fuel, s, n, deps).state, x);
    }
    assert n in [n];
  }

  lemma {:induction false} FailedPassLaunches(cat: Catalog, envs: Environments, fuel: nat, rank: Ident -> nat, s: State,
                                              names: seq<string>)
    requires CatalogValid(cat) && Acyclic(cat, rank) && forall i :: i in cat ==> rank(i) <= fuel
    requires |Pass(cat, envs, fuel, s, names).1| == |names|
    ensures var t := Pass(cat, envs, fuel, s, names).0;
            IdleRowsKept(s, t) && CameUpFor(cat, s, t, names)
    decreases |names|
  {
    hide Resume, Needs;
    if names != [] {
      var (n, rest) := (names[0], names[1..]);
      var o := Resume(cat, envs(n), fuel, s, n);
      ResumeEnds(cat, envs(n), fuel, s, n, rank);
      PassFailsAtMost(cat, envs, fuel, o.state, rest);
      assert o.value.None?;
      FailedResumeLaunches(cat, envs(n), fuel, rank, s, n);
      ResumeKeepsIdleRows(cat, envs(n), fuel, s, n);
      FailedPassLaunches(cat, envs, fuel, rank, o.state, rest);
      var t := Pass(cat, envs, fuel, o.state, rest).0;
      CameUpCompose(cat, s, o.state, t, n, rest);
      assert names == [n] + rest;
    }
  }

  lemma CameUpCompose(cat: Catalog, s: State, s1: State, t: State, n: string, rest: seq<string>)
    requires IdleRowsKept(s, s1) && IdleRowsKept(s1, t)
    requires CameUpFor(cat, s, s1, [n]) && CameUpFor(cat, s1, t, rest)
    ensures CameUpFor(cat, s, t, [n] + rest)
  {
    hide Needs, Hosts;
    var names := [n] + rest;
    forall x | Launched(s, t, x)
      ensures Hosts(s, IdentOf(t, x)) == {}
      ensures exists m :: m in names && Idle(s, m) && Needs(cat, s.rows[m].config.playbook, IdentOf(t, x))
    {
      if x in s1.workers {
        assert Launched(s, s1, x);
        var m :| m in [n] && Idle(s, m) && Needs(cat, s.rows[m].config.playbook, IdentOf(s1, x));
        assert m in names;
      } else {
        assert Launched(s1, t, x);
        HostsPersist(s, s1, IdentOf(t, x));
        var m :| m in rest && Idle(s1, m) && Needs(cat, s1.rows[m].config.playbook, IdentOf(t, x));
        assert m in names && Idle(s, m);
      }
    }
  }

  /**
    The condition under which a pass without success is a dead end, whatever its environments: all that
    was listed would be refused again.
  */
  lemma {:induction false} PassIsDeadEnd(cat: Catalog, envs: Environments, fuel: nat, rank: Ident -> nat, s: State,
                                         names: seq<string>)
    requires CatalogValid(cat) && Acyclic(cat, rank) && forall i :: i in cat ==> rank(i) <= fuel
    requires Distinct(names) && Independent(cat, s, names)
    requires |Pass(cat, envs, fuel, s, names).1| == |names|
    ensures Stuck(cat, envs, fuel, Pass(cat, envs, fuel, s, names).0, names)
    decreases |names|
  {
    hide Resume, Needs, NoIdleRows, Independent;
    if names != [] {
      var (n, rest) := (names[0], names[1..]);
      var o := Resume(cat, envs(n), fuel, s, n);
      ResumeEnds(cat, envs(n), fuel, s, n, rank);
      PassFailsAtMost(cat, envs, fuel, o.state, rest);
      assert o.value.None?;
      ResumeKeepsIdleRows(cat, envs(n), fuel, s, n);
      assert names == [n] + rest && forall m :: m in rest ==> m in names;
      IndependencePersists(cat, s, o.state, names, rest);
      PassIsDeadEnd(cat, envs, fuel, rank, o.state, rest);
      FailedPassLaunches(cat, envs, fuel, rank, o.state, rest);
      var t := Pass(cat, envs, fuel, o.state, rest).0;
      RestDoesNotHelp(cat, s, o.state, t, names, n, rest);
      ResumeFailsAgain(cat, envs(n), fuel, rank, s, t, n);
    }
  }

  lemma RestDoesNotHelp(cat: Catalog, s: State, s1: State, t: State, names: seq<string>, n: string, rest: seq<string>)
    requires Independent(cat, s, names) && names == [n] + rest && n !in rest
    requires IdleRowsKept(s, s1) && IdleRowsKept(s1, t) && CameUpFor(cat, s1, t, rest)
    ensures Idle(s, n) ==>
              var i := s.rows[n].config.playbook;
              Unhelped(cat, i, s1, t) && NoIdleRows(cat, false, n, i, s) && NoIdleRows(cat, false, n, i, t)
  {
    hide Needs, NoIdleRows, Hosts;
    if Idle(s, n) {
      var i := s.rows[n].config.playbook;
      assert n in names && forall m :: m in rest ==> m in names;
      IdleRowsKeptCompose(s, s1, t);
      NoIdleRowsPersist(cat, false, n, i, s, t);
      forall x | Launched(s1, t, x) ensures !Needs(cat, i, IdentOf(t, x)) {
        var m :| m in rest && Idle(s1, m) && Needs(cat, s1.rows[m].config.playbook, IdentOf(t, x));
        HostsPersist(s, s1, IdentOf(t, x));
        assert Idle(s, m) && m != n;
      }
    }
  }
}
