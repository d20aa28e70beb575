/** The launches of one start: which playbooks they run, and when they end. */
module PlaybookLaunches {
  import opened Prelude
  import opened Playbooks
  import opened PlaybookFrames
  import opened PlaybookInvariants

  /** Interconnects only lead downwards in `rank`; an acyclic catalog is one that has a rank. */
  ghost predicate Acyclic(cat: Catalog, rank: Ident -> nat) {
    forall i :: i in cat ==> DependenciesBelow(cat[i].interconnect, rank, rank(i))
  }

  ghost predicate DependenciesBelow(deps: seq<(string, Ident)>, rank: Ident -> nat, bound: nat) {
    forall k :: 0 <= k < |deps| ==> rank(deps[k].1) < bound
  }

  // ---------------------------------------------------------------------------
  // Distinct launches
  // ---------------------------------------------------------------------------

  ghost predicate Launched(s: State, s': State, n: string) {
    n in s'.workers && n !in s.workers
  }

  function IdentOf(s: State, n: string): Ident
    requires n in s.workers
  {
    s.workers[n].spec.ident
  }

  /** Nothing launched was running, and no two launches run the same playbook. */
  ghost predicate FreshLaunches(s: State, s': State) {
    && (forall n :: Launched(s, s', n) ==> Hosts(s, IdentOf(s', n)) == {})
    && (forall m, n :: Launched(s, s', m) && Launched(s, s', n) && m != n ==> IdentOf(s', m) != IdentOf(s', n))
  }

  ghost predicate LaunchesBelow(s: State, s': State, rank: Ident -> nat, bound: nat) {
    forall n :: Launched(s, s', n) ==> rank(IdentOf(s', n)) < bound
  }

  ghost predicate Grows(s: State, s': State) {
    forall n :: n in s.workers ==> n in s'.workers && s'.workers[n] == s.workers[n]
  }

  lemma LaunchesCompose(s: State, s1: State, s2: State, rank: Ident -> nat, bound: nat)
    requires Grows(s, s1) && Grows(s1, s2)
    requires FreshLaunches(s, s1) && FreshLaunches(s1, s2)
    requires LaunchesBelow(s, s1, rank, bound) && LaunchesBelow(s1, s2, rank, bound)
    ensures Grows(s, s2) && FreshLaunches(s, s2) && LaunchesBelow(s, s2, rank, bound)
  {
    forall n | Launched(s, s2, n)
      ensures Hosts(s, IdentOf(s2, n)) == {} && rank(IdentOf(s2, n)) < bound
    {
      if n in s1.workers {
        assert Launched(s, s1, n);
      } else {
        assert Launched(s1, s2, n);
        HostsPersist(s, s1, IdentOf(s2, n));
      }
    }
    forall m, n | Launched(s, s2, m) && Launched(s, s2, n) && m != n
      ensures IdentOf(s2, m) != IdentOf(s2, n)
    {
      if m in s1.workers && n in s1.workers {
        assert Launched(s, s1, m) && Launched(s, s1, n);
      } else if m in s1.workers {
        assert Launched(s1, s2, n);
        assert m in Hosts(s1, IdentOf(s2, m));
      } else if n in s1.workers {
        assert Launched(s1, s2, m);
        assert n in Hosts(s1, IdentOf(s2, n));
      } else {
        assert Launched(s1, s2, m) && Launched(s1, s2, n);
      }
    }
  }

  /**
    On an acyclic catalog the workers a start launches for its interconnect were not running before
    and run pairwise different playbooks, none of them the playbook started: a dependency shared by
    two others is launched once.
  */
  lemma {:induction false} StartLaunchesOnce(cat: Catalog, env: Env, fuel: nat, s: State, name: string, args: StartArgs,
                                             rank: Ident -> nat)
    requires CatalogValid(cat) && Acyclic(cat, rank)
    requires Start(cat, env, fuel, s, name, args).Finished?
    ensures var s' := Start(cat, env, fuel, s, name, args).state;
            && Grows(s, s')
            && (forall n :: Launched(s, s', n) && n != name ==>
                  rank(IdentOf(s', n)) < rank(args.playbook) && Hosts(s, IdentOf(s', n)) == {})
            && (forall m, n :: Launched(s, s', m) && Launched(s, s', n) && m != n ==> IdentOf(s', m) != IdentOf(s', n))
            && (Launched(s, s', name) ==> IdentOf(s', name) == args.playbook)
    decreases fuel, 0
  {
    var s' := Start(cat, env, fuel, s, name, args).state;
    var (ready, ok) := Prepared(cat, env, s, name, args.playbook);
    PreparedFrames(cat, env, s, name, args.playbook);
    if ok {
      var deps := cat[args.playbook].interconnect;
      BuildLaunchesOnce(cat, env, fuel - 1, ready, name, deps, rank, rank(args.playbook));
      BuildFrames(cat, env, fuel - 1, ready, name, deps);
      var built := Build(cat, env, fuel - 1, ready, name, deps).state;
      forall n | Launched(s, s', n) && n != name
        ensures rank(IdentOf(s', n)) < rank(args.playbook) && Hosts(s, IdentOf(s', n)) == {}
      {
        assert Launched(ready, built, n);
        assert Hosts(ready, IdentOf(s', n)) == Hosts(s, IdentOf(s', n));
      }
      forall m, n | Launched(s, s', m) && Launched(s, s', n) && m != n
        ensures IdentOf(s', m) != IdentOf(s', n)
      {
        if m != name && n != name {
          assert Launched(ready, built, m) && Launched(ready, built, n);
        }
      }
    }
  }

  lemma {:induction false} BuildLaunchesOnce(cat: Catalog, env: Env, fuel: nat, s: State, main: string,
                                             deps: seq<(string, Ident)>, rank: Ident -> nat, bound: nat)
    requires CatalogValid(cat) && Acyclic(cat, rank) && DependenciesBelow(deps, rank, bound)
    requires Build(cat, env, fuel, s, main, deps).Finished?
    ensures var s' := Build(cat, env, fuel, s, main, deps).state;
            Grows(s, s') && FreshLaunches(s, s') && LaunchesBelow(s, s', rank, bound)
    decreases fuel, 2, |deps|
  {
    if deps != [] {
      var ident := deps[0].1;
      var first := FindOrLaunch(cat, env, fuel, s, main, ident);
      assert Grows(s, first.state) && FreshLaunches(s, first.state) && LaunchesBelow(s, first.state, rank, bound) by {
        if Hosts(s, ident) == {} {
          StartLaunchesOnce(cat, env, fuel, s, SubName(main, ident), DefaultArgs(ident), rank);
        }
      }
      if first.value.Some? {
        forall k | 0 <= k < |deps[1..]| ensures rank(deps[1..][k].1) < bound {
          assert deps[1..][k] == deps[k + 1];
        }
        BuildLaunchesOnce(cat, env, fuel, first.state, main, deps[1..], rank, bound);
        LaunchesCompose(s, first.state, Build(cat, env, fuel, first.state, main, deps[1..]).state, rank, bound);
      }
    }
  }

  // ---------------------------------------------------------------------------
  // Termination
  // ---------------------------------------------------------------------------

  /** On an acyclic catalog every start returns, whatever fails on the way. */
  lemma {:induction false} StartTerminates(cat: Catalog, env: Env, fuel: nat, s: State, name: string, args: StartArgs,
                                           rank: Ident -> nat)
    requires Acyclic(cat, rank) && fuel > rank(args.playbook)
    ensures Start(cat, env, fuel, s, name, args).Finished?
    decreases fuel, 0
  {
    var (ready, ok) := Prepared(cat, env, s, name, args.playbook);
    if ok {
      BuildTerminates(cat, env, fuel - 1, ready, name, cat[args.playbook].interconnect, rank);
    }
  }

  lemma {:induction false} BuildTerminates(cat: Catalog, env: Env, fuel: nat, s: State, main: string,
                                           deps: seq<(string, Ident)>, rank: Ident -> nat)
    requires Acyclic(cat, rank) && DependenciesBelow(deps, rank, fuel)
    ensures Build(cat, env, fuel, s, main, deps).Finished?
    decreases fuel, 2, |deps|
  {
    if deps != [] {
      var ident := deps[0].1;
      if Hosts(s, ident) == {} {
        StartTerminates(cat, env, fuel, s, SubName(main, ident), DefaultArgs(ident), rank);
      }
      var first := FindOrLaunch(cat, env, fuel, s, main, ident);
      if first.value.Some? {
        forall k | 0 <= k < |deps[1..]| ensures rank(deps[1..][k].1) < fuel {
          assert deps[1..][k] == deps[k + 1];
        }
        BuildTerminates(cat, env, fuel, first.state, main, deps[1..], rank);
      }
    }
  }

  /** So does every resume. */
  lemma ResumeEnds(cat: Catalog, env: Env, fuel: nat, s: State, name: string, rank: Ident -> nat)
    requires Acyclic(cat, rank) && forall i :: i in cat ==> rank(i) <= fuel
    ensures Resume(cat, env, fuel, s, name).Finished?
  {
    if name in s.rows && s.rows[name].config.playbook in cat {
      var deps := cat[s.rows[name].config.playbook].interconnect;
      assert DependenciesBelow(deps, rank, fuel);
      BuildTerminates(cat, env, fuel, s, name, deps, rank);
    }
  }

  /** Once a start returns, more fuel changes nothing: the fuel is only a device. */
  lemma {:induction false} FuelIrrelevant(cat: Catalog, env: Env, fuel: nat, more: nat, s: State, name: string,
                                          args: StartArgs)
    requires fuel <= more && Start(cat, env, fuel, s, name, args).Finished?
    ensures Start(cat, env, more, s, name, args) == Start(cat, env, fuel, s, name, args)
    decreases fuel, 0
  {
    var (ready, ok) := Prepared(cat, env, s, name, args.playbook);
    if ok {
      FuelIrrelevantToBuild(cat, env, fuel - 1, more - 1, ready, name, cat[args.playbook].interconnect);
    }
  }

  lemma {:induction false} FuelIrrelevantToBuild(cat: Catalog, env: Env, fuel: nat, more: nat, s: State, main: string,
                                                 deps: seq<(string, Ident)>)
    requires fuel <= more && Build(cat, env, fuel, s, main, deps).Finished?
    ensures Build(cat, env, more, s, main, deps) == Build(cat, env, fuel, s, main, deps)
    decreases fuel, 2, |deps|
  {
    if deps != [] {
      var ident := deps[0].1;
      if Hosts(s, ident) == {} {
        FuelIrrelevant(cat, env, fuel, more, s, SubName(main, ident), DefaultArgs(ident));
      }
      var first := FindOrLaunch(cat, env, fuel, s, main, ident);
      if first.value.Some? {
        FuelIrrelevantToBuild(cat, env, fuel, more, first.state, main, deps[1..]);
      }
    }
  }
}
