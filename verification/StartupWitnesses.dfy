/**
  What can happen in the startup loop where its promises do not hold: concrete tables, catalogs and
  environments.
*/
module StartupWitnesses {
  import opened Prelude
  import opened Playbooks
  import opened PlaybookFrames
  import opened PlaybookInvariants
  import opened PlaybookLaunches
  import opened PlaybookCycles
  import opened PlaybookReach
  import opened PlaybookSuccess
  import opened StartupResume
  import opened StartupDeadEnds

  // ---------------------------------------------------------------------------
  // Launches on the side
  // ---------------------------------------------------------------------------

  const DEPENDENCY := Ident("anon", "d", "0.1.0")
  const MISSING := Ident("anon", "x", "0.1.0")
  const FIRST := Ident("anon", "first", "0.1.0")
  const SECOND := Ident("anon", "second", "0.1.0")

  /** Both playbooks need the dependency; the second one also needs a playbook that is not stored. */
  const SIDE_CATALOG: Catalog :=
    map[DEPENDENCY := Spec(DEPENDENCY, []),
        FIRST := Spec(FIRST, [("d", DEPENDENCY)]),
        SECOND := Spec(SECOND, [("d", DEPENDENCY), ("x", MISSING)])]

  const SIDE_START: State :=
    Fresh(map["a" := Row(Running, Config(FIRST, 4), None, None, None),
              "b" := Row(Running, Config(SECOND, 4), None, None, None)], map[])

  /** Nothing fails but loading the dependency for the first playbook. */
  const SIDE_ENVIRONMENTS: Environments :=
    n => Env((m, step) => !(n == "a" && m == "a_d" && step == LoadBinary), _ => "")

  lemma FirstFails(fuel: nat)
    requires fuel >= 1
    ensures Resume(SIDE_CATALOG, SIDE_ENVIRONMENTS("a"), fuel, SIDE_START, "a") == Finished(SIDE_START, None)
  {
    var (cat, env, s) := (SIDE_CATALOG, SIDE_ENVIRONMENTS("a"), SIDE_START);
    var deps := cat[FIRST].interconnect;
    assert SubName("a", DEPENDENCY) == "a_d" && Hosts(s, DEPENDENCY) == {};
    assert Start(cat, env, fuel, s, "a_d", DefaultArgs(DEPENDENCY)) == Finished(s, None);
    assert FindOrLaunch(cat, env, fuel, s, "a", DEPENDENCY) == Finished(s, None);
    assert Build(cat, env, fuel, s, "a", deps) == Finished(s, None);
  }

  const SIDE_AFTER: State :=
    SIDE_START.(
      rows := SIDE_START.rows["b_d" := Row(Running, Config(DEPENDENCY, 4), None, None, None)],
      workers := map["b_d" := Worker(SIDE_CATALOG[DEPENDENCY], Config(DEPENDENCY, 4), map[], map[], None, None)])

  lemma SecondLaunchesAndFails(fuel: nat)
    requires fuel >= 2
    ensures Resume(SIDE_CATALOG, SIDE_ENVIRONMENTS("b"), fuel, SIDE_START, "b") == Finished(SIDE_AFTER, None)
  {
    var (cat, env, s, s') := (SIDE_CATALOG, SIDE_ENVIRONMENTS("b"), SIDE_START, SIDE_AFTER);
    var deps := cat[SECOND].interconnect;
    assert SubName("b", DEPENDENCY) == "b_d" && SubName("b", MISSING) == "b_x" && Hosts(s, DEPENDENCY) == {};
    assert Prepared(cat, env, s, "b_d", DEPENDENCY) == (s, true);
    assert Build(cat, env, fuel - 1, s, "b_d", []) == Finished(s, Some(map[]));
    assert Registered(env, s, "b_d") == map[];
    assert Start(cat, env, fuel, s, "b_d", DefaultArgs(DEPENDENCY)) == Finished(s', Some(()));
    assert FindOrLaunch(cat, env, fuel, s, "b", DEPENDENCY) == Finished(s', Some(Server("b_d", DEPENDENCY)));
    assert Hosts(s', MISSING) == {};
    assert Start(cat, env, fuel, s', "b_x", DefaultArgs(MISSING)) == Finished(s', None);
    assert deps[1..] == [("x", MISSING)];
    assert Build(cat, env, fuel, s', "b", deps[1..]) == Finished(s', None);
    assert Build(cat, env, fuel, s, "b", deps) == Finished(s', None);
  }

  lemma FirstWouldSucceed(fuel: nat)
    requires fuel >= 1
    ensures var o := Resume(SIDE_CATALOG, SIDE_ENVIRONMENTS("a"), fuel, SIDE_AFTER, "a");
            o.Finished? && o.value == Some(())
  {
    var (cat, env, s) := (SIDE_CATALOG, SIDE_ENVIRONMENTS("a"), SIDE_AFTER);
    var deps := cat[FIRST].interconnect;
    assert "b_d" in Hosts(s, DEPENDENCY);
    var server := Server(Chosen(env, Hosts(s, DEPENDENCY)), DEPENDENCY);
    assert FindOrLaunch(cat, env, fuel, s, "a", DEPENDENCY) == Finished(s, Some(server));
    assert deps[1..] == [];
    assert Build(cat, env, fuel, s, "a", deps) == Finished(s, Some(map["d" := server] + map[]));
    assert cat[s.rows["a"].config.playbook].interconnect == deps;
  }

  /**
    The loop can stop while a listed playbook has become resumable: in one pass the first playbook
    fails, then the second launches the dependency and fails, so no attempt succeeds; now the first
    one's dependency runs and it would come up.
  */
  lemma LaunchOnTheSideStrands(fuel: nat)
    requires fuel >= 2
    ensures var (s, left) := Pass(SIDE_CATALOG, SIDE_ENVIRONMENTS, fuel, SIDE_START, ["a", "b"]);
            && left == ["a", "b"]
            && Disturbed(SIDE_CATALOG, SIDE_ENVIRONMENTS, fuel, SIDE_START, ["a", "b"])
            && !Stuck(SIDE_CATALOG, SIDE_ENVIRONMENTS, fuel, s, left)
            && !SharedRun(SIDE_CATALOG, SIDE_START, left)
            && LaunchNamesFree(SIDE_CATALOG, SIDE_START, left)
  {
    hide Resume;
    SideShares();
    SideNamesFree();
    FirstFails(fuel);
    SecondLaunchesAndFails(fuel);
    FirstWouldSucceed(fuel);
    assert ["a", "b"][1..] == ["b"] && ["b"][1..] == [];
    assert "a" in ["a", "b"];
  }

  lemma SideShares()
    ensures !SharedRun(SIDE_CATALOG, SIDE_START, ["a", "b"])
  {
    var cat := SIDE_CATALOG;
    assert cat[FIRST].interconnect[0].1 == DEPENDENCY && cat[SECOND].interconnect[0].1 == DEPENDENCY;
    NeededNext(cat, FIRST, DEPENDENCY);
    NeededNext(cat, SECOND, DEPENDENCY);
    assert "a" in ["a", "b"] && "b" in ["a", "b"] && "a" != "b";
    assert Idle(SIDE_START, "a") && Idle(SIDE_START, "b") && Hosts(SIDE_START, DEPENDENCY) == {};
  }

  lemma SideNamesFree()
    ensures LaunchNamesFree(SIDE_CATALOG, SIDE_START, ["a", "b"])
  {
    forall n, i, m | n in ["a", "b"] && LaunchName(SIDE_CATALOG, false, n, i, m) ensures m !in SIDE_START.rows {
      var path :| path != [] && Chain(SIDE_CATALOG, i, path) && NameOf(n, path) == m;
      NameOfExtends(n, path);
      assert |m| >= 2;
    }
  }

  // ---------------------------------------------------------------------------
  // A launch that cleans up
  // ---------------------------------------------------------------------------

  const LONE_CATALOG: Catalog := map[DEPENDENCY := Spec(DEPENDENCY, []), FIRST := Spec(FIRST, [("d", DEPENDENCY)])]

  /** The name under which the dependency would be launched is recorded, and stopped. */
  const LONE_START: State :=
    Fresh(map["a" := Row(Running, Config(FIRST, 4), None, None, None),
              "a_d" := Row(Stopped, Config(DEPENDENCY, 4), None, None, None)], map[])

  /** Nothing fails but removing the directory of that name. */
  const LONE_ENVIRONMENTS: Environments := _ => Env((_, step) => step != RemoveDirectory, _ => "")

  const LONE_AFTER: State := Fresh(map["a" := LONE_START.rows["a"]], map[])

  lemma LoneFails(fuel: nat)
    requires fuel >= 1
    ensures Resume(LONE_CATALOG, LONE_ENVIRONMENTS("a"), fuel, LONE_START, "a") == Finished(LONE_AFTER, None)
  {
    var (cat, env, s) := (LONE_CATALOG, LONE_ENVIRONMENTS("a"), LONE_START);
    assert SubName("a", DEPENDENCY) == "a_d" && Hosts(s, DEPENDENCY) == {};
    assert CallbacksWithoutSource(s.callbacks, "a_d") == map[];
    assert s.rows - {"a_d"} == LONE_AFTER.rows && s.workers - {"a_d"} == map[];
    assert Delete(env, s, "a_d") == (LONE_AFTER, false);
    assert Start(cat, env, fuel, s, "a_d", DefaultArgs(DEPENDENCY)) == Finished(LONE_AFTER, None);
    assert FindOrLaunch(cat, env, fuel, s, "a", DEPENDENCY) == Finished(LONE_AFTER, None);
    assert Build(cat, env, fuel, s, "a", cat[FIRST].interconnect) == Finished(LONE_AFTER, None);
  }

  lemma LoneWouldSucceed(fuel: nat)
    requires fuel >= 2
    ensures var o := Resume(LONE_CATALOG, LONE_ENVIRONMENTS("a"), fuel, LONE_AFTER, "a");
            o.Finished? && o.value.Some?
  {
    var (cat, env, s) := (LONE_CATALOG, LONE_ENVIRONMENTS("a"), LONE_AFTER);
    assert SubName("a", DEPENDENCY) == "a_d" && Hosts(s, DEPENDENCY) == {};
    assert Prepared(cat, env, s, "a_d", DEPENDENCY) == (s, true);
    assert Build(cat, env, fuel - 1, s, "a_d", []) == Finished(s, Some(map[]));
    var o := Start(cat, env, fuel, s, "a_d", DefaultArgs(DEPENDENCY));
    assert o.Finished? && o.value.Some? && "a_d" in o.state.workers;
    var deps := cat[FIRST].interconnect;
    var first := FindOrLaunch(cat, env, fuel, s, "a", DEPENDENCY);
    assert first.value.Some? && deps[1..] == [];
    assert Build(cat, env, fuel, first.state, "a", []) == Finished(first.state, Some(map[]));
    assert Build(cat, env, fuel, s, "a", deps).value.Some?;
    assert s.rows["a"].config.playbook == FIRST;
    assert "a" !in first.state.workers;
  }

  /**
    A lone playbook can be given up though it would come up on a second attempt: the first one deletes
    the recorded row of the name it wants for its dependency and then fails, so the second finds the
    name clear.
  */
  lemma CleanUpStrands(fuel: nat)
    requires fuel >= 2
    ensures var (s, left) := Pass(LONE_CATALOG, LONE_ENVIRONMENTS, fuel, LONE_START, ["a"]);
            && left == ["a"]
            && !Stuck(LONE_CATALOG, LONE_ENVIRONMENTS, fuel, s, left)
            && SharedRun(LONE_CATALOG, LONE_START, left)
            && !LaunchNamesFree(LONE_CATALOG, LONE_START, left)
  {
    hide Resume;
    LoneFails(fuel);
    LoneWouldSucceed(fuel);
    assert ["a"][1..] == [] && "a" in ["a"];
    var cat := LONE_CATALOG;
    assert cat[FIRST].interconnect[0].1 == DEPENDENCY;
    OneStep(cat, "a", FIRST, DEPENDENCY);
    OwnLaunch(cat, "a_d", DEPENDENCY);
    LaunchedForDependency(cat, "a", FIRST, DEPENDENCY, "a_d", DEPENDENCY);
    assert SubName("a", DEPENDENCY) == "a_d" && LaunchName(cat, false, "a", FIRST, "a_d");
    assert Idle(LONE_START, "a");
  }

  // ---------------------------------------------------------------------------
  // The order of the listing
  // ---------------------------------------------------------------------------

  /** The playbook `a` needs what `x` runs. */
  const ORDER_START: State :=
    Fresh(map["a" := Row(Running, Config(FIRST, 4), None, None, None),
              "x" := Row(Running, Config(DEPENDENCY, 4), None, None, None)], map[])

  const NO_FAILURES: Environments := _ => Env((_, _) => true, _ => "")

  lemma NeederFirst(fuel: nat) returns (s: State)
    requires fuel >= 2
    ensures Resume(LONE_CATALOG, NO_FAILURES("a"), fuel, ORDER_START, "a") == Finished(s, Some(()))
    ensures s.workers.Keys == {"a", "a_d"} && "x" in s.rows && s.rows["x"] == ORDER_START.rows["x"]
  {
    var (cat, env, s0) := (LONE_CATALOG, NO_FAILURES("a"), ORDER_START);
    assert SubName("a", DEPENDENCY) == "a_d" && Hosts(s0, DEPENDENCY) == {};
    assert Prepared(cat, env, s0, "a_d", DEPENDENCY) == (s0, true);
    assert Build(cat, env, fuel - 1, s0, "a_d", []) == Finished(s0, Some(map[]));
    var o := Start(cat, env, fuel, s0, "a_d", DefaultArgs(DEPENDENCY));
    assert o.Finished? && o.value.Some? && o.state.workers.Keys == {"a_d"};
    var deps := cat[FIRST].interconnect;
    var first := FindOrLaunch(cat, env, fuel, s0, "a", DEPENDENCY);
    assert first.value.Some? && first.state == o.state && deps[1..] == [];
    assert Build(cat, env, fuel, first.state, "a", []) == Finished(first.state, Some(map[]));
    assert Build(cat, env, fuel, s0, "a", deps).value.Some?;
    assert s0.rows["a"].config.playbook == FIRST && "a" !in first.state.workers;
    s := Resume(cat, env, fuel, s0, "a").state;
  }

  lemma AloneResumes(fuel: nat, s: State, n: string)
    requires fuel >= 1 && n !in s.workers && n in s.rows && s.rows[n].config.playbook == DEPENDENCY
    ensures var o := Resume(LONE_CATALOG, NO_FAILURES(n), fuel, s, n);
            o.Finished? && o.value.Some? && o.state.workers.Keys == s.workers.Keys + {n}
            && Hosts(o.state, DEPENDENCY) != {} && o.state.rows.Keys == s.rows.Keys
            && forall m :: m in s.rows && m != n ==> o.state.rows[m] == s.rows[m]
  {
    assert Build(LONE_CATALOG, NO_FAILURES(n), fuel, s, n, []) == Finished(s, Some(map[]));
    var o := Resume(LONE_CATALOG, NO_FAILURES(n), fuel, s, n);
    assert n in Hosts(o.state, DEPENDENCY);
  }

  lemma NeederLast(fuel: nat, s: State)
    requires fuel >= 1 && "a" !in s.workers && "a" in s.rows && s.rows["a"].config.playbook == FIRST
    requires Hosts(s, DEPENDENCY) != {}
    ensures var o := Resume(LONE_CATALOG, NO_FAILURES("a"), fuel, s, "a");
            o.Finished? && o.value.Some? && o.state.workers.Keys == s.workers.Keys + {"a"}
  {
    var (cat, env) := (LONE_CATALOG, NO_FAILURES("a"));
    var deps := cat[FIRST].interconnect;
    var server := Server(Chosen(env, Hosts(s, DEPENDENCY)), DEPENDENCY);
    assert FindOrLaunch(cat, env, fuel, s, "a", DEPENDENCY) == Finished(s, Some(server));
    assert deps[1..] == [];
    assert Build(cat, env, fuel, s, "a", []) == Finished(s, Some(map[]));
    assert Build(cat, env, fuel, s, "a", deps) == Finished(s, Some(map["d" := server] + map[]));
  }

  /**
    With no failure at all, the order of the listing decides which workers run: the dependency comes up
    a second time, under a name of its own, if the playbook that needs it is listed first.
  */
  lemma OrderDecidesWorkers(fuel: nat)
    requires fuel >= 2
    ensures Pass(LONE_CATALOG, NO_FAILURES, fuel, ORDER_START, ["a", "x"]).0.workers.Keys == {"a", "a_d", "x"}
    ensures Pass(LONE_CATALOG, NO_FAILURES, fuel, ORDER_START, ["x", "a"]).0.workers.Keys == {"a", "x"}
  {
    hide Resume;
    var s := NeederFirst(fuel);
    AloneResumes(fuel, s, "x");
    assert ["a", "x"][1..] == ["x"] && ["x"][1..] == [];
    AloneResumes(fuel, ORDER_START, "x");
    NeederLast(fuel, Resume(LONE_CATALOG, NO_FAILURES("x"), fuel, ORDER_START, "x").state);
    assert ["x", "a"][1..] == ["a"] && ["a"][1..] == [];
  }
}
