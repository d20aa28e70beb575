/**
  The startup loop when nothing fails: one pass brings up every listed playbook, unless two launches
  want one name.
*/
module StartupSuccess {
  import opened Prelude
  import opened Playbooks
  import opened PlaybookFrames
  import opened PlaybookInvariants
  import opened PlaybookLaunches
  import opened PlaybookCycles
  import opened PlaybookReach
  import opened PlaybookSuccess
  import opened StartupResume

  function RootsOf(s: State, names: seq<string>): Roots {
    map n | n in names && n in s.rows :: s.rows[n].config.playbook
  }

  /** No I/O fails, everything listed or needed is stored, nothing is cyclic, and no name is wanted twice. */
  ghost predicate NothingCanFail(cat: Catalog, envs: Environments, rank: Ident -> nat, base: State,
                                 names: seq<string>)
  {
    && Sound(cat, rank, RootsOf(base, names), base)
    && (forall n :: n in names ==> NeverFails(envs(n)) && n in base.rows && base.rows[n].config.playbook in cat)
  }

  /** Each root runs, or is recorded as it was. */
  ghost predicate Supplying(cat: Catalog, roots: Roots, base: State, s: State) {
    && Named(cat, roots, base, s)
    && forall n :: n in roots ==> n in s.workers || (n in s.rows && s.rows[n].config.playbook == roots[n])
  }

  lemma ResumeSupplies(cat: Catalog, envs: Environments, fuel: nat, rank: Ident -> nat, base: State,
                       names: seq<string>, s: State, n: string)
    requires NothingCanFail(cat, envs, rank, base, names) && forall i :: i in cat ==> rank(i) <= fuel
    requires n in names && Supplying(cat, RootsOf(base, names), base, s)
    ensures var o := Resume(cat, envs(n), fuel, s, n);
            && o.Finished? && n in o.state.workers
            && Grows(s, o.state) && Supplying(cat, RootsOf(base, names), base, o.state)
  {
    hide Named, NamesTell, LaunchedForRoots, LaunchedAs, LaunchName;
    var roots := RootsOf(base, names);
    if n !in s.workers {
      ResumeSucceeds(cat, envs(n), fuel, rank, roots, base, s, n);
      var o := Resume(cat, envs(n), fuel, s, n);
      ResumeTouches(cat, envs(n), fuel, s, n);
      ResumeFrames(cat, envs(n), fuel, s, n);
      forall m | m in roots && m !in o.state.workers
        ensures m in o.state.rows && o.state.rows[m].config.playbook == roots[m]
      {
        assert m !in s.workers && m in s.rows;
        assert !Launched(s, o.state, m);
      }
    }
  }

  lemma {:induction false} PassSupplies(cat: Catalog, envs: Environments, fuel: nat, rank: Ident -> nat, base: State,
                                        names: seq<string>, s: State, left: seq<string>)
    requires NothingCanFail(cat, envs, rank, base, names) && forall i :: i in cat ==> rank(i) <= fuel
    requires (forall n :: n in left ==> n in names) && Supplying(cat, RootsOf(base, names), base, s)
    ensures var s' := Pass(cat, envs, fuel, s, left).0;
            && Supplying(cat, RootsOf(base, names), base, s') && Grows(s, s')
            && forall n :: n in left ==> n in s'.workers
    decreases |left|
  {
    hide Resume, NothingCanFail, Supplying;
    if left != [] {
      var n := left[0];
      ResumeSupplies(cat, envs, fuel, rank, base, names, s, n);
      var s1 := Resume(cat, envs(n), fuel, s, n).state;
      assert forall m :: m in left[1..] ==> m in left;
      PassSupplies(cat, envs, fuel, rank, base, names, s1, left[1..]);
      assert left == [n] + left[1..];
    }
  }

  /** With nothing to go wrong, one pass over the listing has all that is listed running. */
  lemma PassResumesAll(cat: Catalog, envs: Environments, fuel: nat, rank: Ident -> nat, s: State, names: seq<string>)
    requires NothingCanFail(cat, envs, rank, s, names) && forall i :: i in cat ==> rank(i) <= fuel
    ensures var s' := Pass(cat, envs, fuel, s, names).0;
            && (forall n :: n in names ==> n in s'.workers && IdentOf(s', n) == s.rows[n].config.playbook)
            && ListedIdents(s, names) <= RunningIdents(s')
  {
    hide Pass, Resume, NamesTell, LaunchedForRoots;
    var roots := RootsOf(s, names);
    PassSupplies(cat, envs, fuel, rank, s, names, s, names);
    var s' := Pass(cat, envs, fuel, s, names).0;
    forall n | n in names ensures IdentOf(s', n) == s.rows[n].config.playbook {
      RootWanted(cat, roots, n);
      WantedNameFree(cat, roots, s, s', n, roots[n]);
    }
    forall i | i in ListedIdents(s, names) ensures i in RunningIdents(s') {
      var n :| n in names && n in s.rows && s.rows[n].config.playbook == i;
      assert IdentOf(s', n) == i;
    }
  }

  lemma RunningIdentsGrow(s: State, s': State)
    requires Grows(s, s')
    ensures RunningIdents(s) <= RunningIdents(s')
  {
    forall i | i in RunningIdents(s) ensures i in RunningIdents(s') {
      var n :| n in s.workers && IdentOf(s, n) == i;
      assert IdentOf(s', n) == i;
    }
  }
}
