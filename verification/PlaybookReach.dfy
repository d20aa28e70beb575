/**
  How far a start reaches: the playbooks it launches, the names it launches them under, and the
  recorded rows and callbacks it can take away from other playbooks.
*/
module PlaybookReach {
  import opened Prelude
  import opened Playbooks
  import opened PlaybookFrames
  import opened PlaybookInvariants
  import opened PlaybookLaunches

  // ---------------------------------------------------------------------------
  // Chains of dependencies
  // ---------------------------------------------------------------------------

  ghost predicate NeedsNext(cat: Catalog, i: Ident, d: Ident) {
    i in cat && exists k :: 0 <= k < |cat[i].interconnect| && cat[i].interconnect[k].1 == d
  }

  /** Each needs the next, starting from what `i` needs. */
  ghost predicate Chain(cat: Catalog, i: Ident, path: seq<Ident>)
    decreases |path|
  {
    path == [] || (NeedsNext(cat, i, path[0]) && Chain(cat, path[0], path[1..]))
  }

  /** The name under which the end of the chain is launched. */
  function NameOf(main: string, path: seq<Ident>): string
    decreases |path|
  {
    if path == [] then main else NameOf(SubName(main, path[0]), path[1..])
  }

  function EndOf(i: Ident, path: seq<Ident>): Ident {
    if path == [] then i else path[|path| - 1]
  }

  /** The playbook `j` may be launched as `n` for `i`, which runs as `main`; as `i` itself only if `own`. */
  ghost predicate LaunchedAs(cat: Catalog, own: bool, main: string, i: Ident, n: string, j: Ident) {
    exists path :: (own || path != []) && Chain(cat, i, path) && NameOf(main, path) == n && EndOf(i, path) == j
  }

  ghost predicate LaunchName(cat: Catalog, own: bool, main: string, i: Ident, n: string) {
    exists j :: LaunchedAs(cat, own, main, i, n, j)
  }

  ghost predicate Needs(cat: Catalog, i: Ident, j: Ident) {
    exists path :: path != [] && Chain(cat, i, path) && EndOf(i, path) == j
  }

  lemma LaunchedIsNeeded(cat: Catalog, own: bool, main: string, i: Ident, n: string, j: Ident)
    requires LaunchedAs(cat, own, main, i, n, j)
    ensures Needs(cat, i, j) || (own && j == i && n == main)
  {
  }

  lemma ChainPrepend(cat: Catalog, i: Ident, d: Ident, path: seq<Ident>)
    requires NeedsNext(cat, i, d) && Chain(cat, d, path)
    ensures Chain(cat, i, [d] + path) && EndOf(i, [d] + path) == EndOf(d, path)
    ensures forall main :: NameOf(main, [d] + path) == NameOf(SubName(main, d), path)
  {
    assert ([d] + path)[1..] == path;
  }

  /** What a dependency may launch, its own launch included, the playbook that needs it may launch. */
  lemma LaunchedForDependency(cat: Catalog, main: string, i: Ident, d: Ident, n: string, j: Ident)
    requires NeedsNext(cat, i, d) && LaunchedAs(cat, true, SubName(main, d), d, n, j)
    ensures LaunchedAs(cat, false, main, i, n, j)
  {
    var path :| Chain(cat, d, path) && NameOf(SubName(main, d), path) == n && EndOf(d, path) == j;
    ChainPrepend(cat, i, d, path);
    assert [d] + path != [];
  }

  lemma OwnLaunch(cat: Catalog, main: string, i: Ident)
    ensures LaunchedAs(cat, true, main, i, main, i)
  {
    assert Chain(cat, i, []) && NameOf(main, []) == main && EndOf(i, []) == i;
  }

  lemma LaunchedOwnToo(cat: Catalog, main: string, i: Ident, n: string, j: Ident)
    requires LaunchedAs(cat, false, main, i, n, j)
    ensures LaunchedAs(cat, true, main, i, n, j)
  {
  }

  /** Names on a chain extend the name it starts from. */
  lemma {:induction false} NameOfExtends(main: string, path: seq<Ident>)
    ensures main <= NameOf(main, path) && (path != [] ==> main + "_" <= NameOf(main, path))
    decreases |path|
  {
    if path != [] {
      SubNamesExtend(main, path[0]);
      NameOfExtends(SubName(main, path[0]), path[1..]);
    }
  }

  lemma {:induction false} ChainRanks(cat: Catalog, rank: Ident -> nat, i: Ident, path: seq<Ident>)
    requires Acyclic(cat, rank) && Chain(cat, i, path) && path != []
    ensures rank(EndOf(i, path)) < rank(i)
    decreases |path|
  {
    var k :| 0 <= k < |cat[i].interconnect| && cat[i].interconnect[k].1 == path[0];
    assert DependenciesBelow(cat[i].interconnect, rank, rank(i));
    if |path| > 1 {
      ChainRanks(cat, rank, path[0], path[1..]);
    }
  }

  // ---------------------------------------------------------------------------
  // What a start touches
  // ---------------------------------------------------------------------------

  /**
    Only playbooks along the chains from `i` come up, under the names of their chains; only the rows
    and callbacks of such names change, and only of idle ones; and every row that is not as before is
    the row of a playbook that came up.
  */
  ghost predicate Touches(cat: Catalog, own: bool, main: string, i: Ident, s: State, s': State) {
    && Grows(s, s')
    && (forall n :: Launched(s, s', n) ==> LaunchedAs(cat, own, main, i, n, IdentOf(s', n)))
    && (forall n :: !RowKept(s, s', n) ==> n !in s.workers && LaunchName(cat, own, main, i, n))
    && (forall n :: n in s'.rows ==> (n in s.rows && s'.rows[n] == s.rows[n]) || Launched(s, s', n))
    && (forall u :: u in s.callbacks && u !in s'.callbacks ==>
          s.callbacks[u].source !in s.workers && LaunchName(cat, own, main, i, s.callbacks[u].source))
    && (forall u :: u in s'.callbacks ==> u in s.callbacks && s'.callbacks[u] == s.callbacks[u])
  }

  lemma TouchesNothing(cat: Catalog, own: bool, main: string, i: Ident, s: State)
    ensures Touches(cat, own, main, i, s, s)
  {
  }

  lemma TouchesCompose(cat: Catalog, own: bool, main: string, i: Ident, s: State, s1: State, s2: State)
    requires Touches(cat, own, main, i, s, s1) && Touches(cat, own, main, i, s1, s2)
    ensures Touches(cat, own, main, i, s, s2)
  {
    hide LaunchName, LaunchedAs;
    forall n | Launched(s, s2, n) ensures LaunchedAs(cat, own, main, i, n, IdentOf(s2, n)) {
      assert Launched(s, s1, n) || Launched(s1, s2, n);
    }
    forall n | !RowKept(s, s2, n) ensures n !in s.workers && LaunchName(cat, own, main, i, n) {
      assert !RowKept(s, s1, n) || !RowKept(s1, s2, n);
    }
    forall n | n in s2.rows ensures (n in s.rows && s2.rows[n] == s.rows[n]) || Launched(s, s2, n) {
      assert (n in s1.rows && s2.rows[n] == s1.rows[n]) || Launched(s1, s2, n);
    }
  }

  lemma TouchesForDependency(cat: Catalog, main: string, i: Ident, d: Ident, s: State, s': State)
    requires NeedsNext(cat, i, d) && Touches(cat, true, SubName(main, d), d, s, s')
    ensures Touches(cat, false, main, i, s, s')
  {
    hide LaunchedAs;
    forall n, j | LaunchedAs(cat, true, SubName(main, d), d, n, j) ensures LaunchedAs(cat, false, main, i, n, j) {
      LaunchedForDependency(cat, main, i, d, n, j);
    }
  }

  lemma TouchesOwnToo(cat: Catalog, main: string, i: Ident, s: State, s': State)
    requires Touches(cat, false, main, i, s, s')
    ensures Touches(cat, true, main, i, s, s')
  {
    hide LaunchedAs;
    forall n, j | LaunchedAs(cat, false, main, i, n, j) ensures LaunchedAs(cat, true, main, i, n, j) {
      LaunchedOwnToo(cat, main, i, n, j);
    }
  }

  lemma PreparedTouches(cat: Catalog, env: Env, s: State, name: string, i: Ident)
    ensures Touches(cat, true, name, i, s, Prepared(cat, env, s, name, i).0)
  {
    hide Touches;
    TouchesNothing(cat, true, name, i, s);
    if name !in s.workers {
      DeleteTouches(cat, env, s, name, i);
    }
  }

  lemma DeleteTouches(cat: Catalog, env: Env, s: State, name: string, i: Ident)
    requires name !in s.workers
    ensures Touches(cat, true, name, i, s, Delete(env, s, name).0)
  {
    hide LaunchedAs;
    OwnLaunch(cat, name, i);
    assert LaunchName(cat, true, name, i, name);
    assert s.workers - {name} == s.workers;
  }

  lemma InsertTouches(cat: Catalog, name: string, i: Ident, s: State, s': State)
    requires name !in s.workers && name in s'.workers && name in s'.rows && IdentOf(s', name) == i
    requires s' == s.(rows := s.rows[name := s'.rows[name]], workers := s.workers[name := s'.workers[name]])
    ensures Touches(cat, true, name, i, s, s')
  {
    OwnLaunch(cat, name, i);
  }

  lemma {:induction false} StartTouches(cat: Catalog, env: Env, fuel: nat, s: State, name: string, args: StartArgs)
    requires CatalogValid(cat) && Start(cat, env, fuel, s, name, args).Finished?
    ensures Touches(cat, true, name, args.playbook, s, Start(cat, env, fuel, s, name, args).state)
    decreases fuel, 0
  {
    hide Touches;
    var (ready, ok) := Prepared(cat, env, s, name, args.playbook);
    PreparedFrames(cat, env, s, name, args.playbook);
    PreparedTouches(cat, env, s, name, args.playbook);
    if ok {
      var i := args.playbook;
      var deps := cat[i].interconnect;
      BuildTouches(cat, env, fuel - 1, ready, name, i, deps);
      BuildFrames(cat, env, fuel - 1, ready, name, deps);
      var built := Build(cat, env, fuel - 1, ready, name, deps).state;
      var o := Start(cat, env, fuel, s, name, args);
      TouchesOwnToo(cat, name, i, ready, built);
      TouchesCompose(cat, true, name, i, s, ready, built);
      if o.value.Some? {
        StartedInserts(cat, env, fuel, s, name, args);
        InsertTouches(cat, name, i, built, o.state);
        TouchesCompose(cat, true, name, i, s, built, o.state);
      }
    }
  }

  lemma {:induction false} BuildTouches(cat: Catalog, env: Env, fuel: nat, s: State, main: string, i: Ident,
                                        deps: seq<(string, Ident)>)
    requires CatalogValid(cat) && Build(cat, env, fuel, s, main, deps).Finished?
    requires i in cat && forall k :: 0 <= k < |deps| ==> deps[k] in cat[i].interconnect
    ensures Touches(cat, false, main, i, s, Build(cat, env, fuel, s, main, deps).state)
    decreases fuel, 2, |deps|
  {
    hide Touches;
    TouchesNothing(cat, false, main, i, s);
    if deps != [] {
      var d := deps[0].1;
      assert NeedsNext(cat, i, d) by {
        assert deps[0] in cat[i].interconnect;
      }
      if Hosts(s, d) == {} {
        StartTouches(cat, env, fuel, s, SubName(main, d), DefaultArgs(d));
        TouchesForDependency(cat, main, i, d, s, Start(cat, env, fuel, s, SubName(main, d), DefaultArgs(d)).state);
      }
      var first := FindOrLaunch(cat, env, fuel, s, main, d);
      assert Touches(cat, false, main, i, s, first.state);
      if first.value.Some? {
        BuildTouches(cat, env, fuel, first.state, main, i, deps[1..]);
        TouchesCompose(cat, false, main, i, s, first.state, Build(cat, env, fuel, first.state, main, deps[1..]).state);
      }
    }
  }

  /** A resume reaches as far as a start; what it does to its own row is to say that it runs. */
  lemma ResumeTouches(cat: Catalog, env: Env, fuel: nat, s: State, name: string)
    requires CatalogValid(cat) && Resume(cat, env, fuel, s, name).Finished?
    ensures var s' := Resume(cat, env, fuel, s, name).state;
            if name in s.rows then Touches(cat, true, name, s.rows[name].config.playbook, s, s') else s' == s
  {
    hide Touches;
    var o := Resume(cat, env, fuel, s, name);
    if name in s.rows {
      var i := s.rows[name].config.playbook;
      TouchesNothing(cat, true, name, i, s);
      if o.state != s {
        var deps := cat[i].interconnect;
        var built := Build(cat, env, fuel, s, name, deps).state;
        BuildTouches(cat, env, fuel, s, name, i, deps);
        BuildFrames(cat, env, fuel, s, name, deps);
        TouchesOwnToo(cat, name, i, s, built);
        if o.value.Some? {
          ResumeFrames(cat, env, fuel, s, name);
          assert RowKept(s, built, name);
          InsertTouches(cat, name, i, built, o.state);
          TouchesCompose(cat, true, name, i, s, built, o.state);
        }
      }
    }
  }

  /**
    The rows and callbacks of other playbooks that a start or a resume can take away: only of idle ones
    whose name is the launch name of something that the playbook needs.
  */
  lemma OthersLoseOnly(cat: Catalog, env: Env, fuel: nat, s: State, name: string, args: StartArgs, other: string)
    requires CatalogValid(cat) && other != name
    requires other in s.workers || !LaunchName(cat, false, name, args.playbook, other)
    requires Start(cat, env, fuel, s, name, args).Finished?
    ensures var s' := Start(cat, env, fuel, s, name, args).state;
            && RowKept(s, s', other)
            && forall u :: u in s.callbacks && s.callbacks[u].source == other ==> u in s'.callbacks
  {
    hide Start;
    StartTouches(cat, env, fuel, s, name, args);
    if other !in s.workers && LaunchName(cat, true, name, args.playbook, other) {
      NotOwnName(cat, name, args.playbook, other);
    }
  }

  lemma NotOwnName(cat: Catalog, main: string, i: Ident, n: string)
    requires n != main && LaunchName(cat, true, main, i, n)
    ensures LaunchName(cat, false, main, i, n)
  {
    var j :| LaunchedAs(cat, true, main, i, n, j);
    var path :| Chain(cat, i, path) && NameOf(main, path) == n && EndOf(i, path) == j;
    assert path != [];
    assert LaunchedAs(cat, false, main, i, n, j);
  }

  /**
    And it does take them away: an idle playbook recorded under the launch name of a missing dependency
    loses its callbacks and its place to the dependency, whether or not that comes up.
  */
  lemma LaunchTakesOver(cat: Catalog, env: Env, fuel: nat, s: State, main: string, d: Ident)
    requires CatalogValid(cat) && FindOrLaunch(cat, env, fuel, s, main, d).Finished? && Hosts(s, d) == {}
    requires var sub := SubName(main, d);
             && sub !in s.workers && sub in s.rows
             && env.io(sub, ReadRow) && env.io(sub, DeleteCallbackRows) && env.io(sub, DeleteRow)
    ensures var (s', sub) := (FindOrLaunch(cat, env, fuel, s, main, d).state, SubName(main, d));
            && (forall u :: u in s'.callbacks ==> s'.callbacks[u].source != sub)
            && (sub in s'.rows ==> sub in s'.workers && s'.rows[sub].config.playbook == d)
  {
    var (sub, args) := (SubName(main, d), DefaultArgs(d));
    var (ready, ok) := Prepared(cat, env, s, sub, d);
    PreparedFrames(cat, env, s, sub, d);
    assert sub !in ready.rows && forall u :: u in ready.callbacks ==> ready.callbacks[u].source != sub;
    var o := Start(cat, env, fuel, s, sub, args);
    assert FindOrLaunch(cat, env, fuel, s, main, d).state == o.state;
    if ok {
      BuildFrames(cat, env, fuel - 1, ready, sub, cat[d].interconnect);
      if o.value.Some? {
        StartedInserts(cat, env, fuel, s, sub, args);
      }
    }
  }

  // ---------------------------------------------------------------------------
  // Playbooks that run
  // ---------------------------------------------------------------------------

  function RunningIdents(s: State): set<Ident> {
    set n | n in s.workers :: IdentOf(s, n)
  }

  ghost predicate ClosedUnder(cat: Catalog, idents: set<Ident>) {
    forall i, d :: i in idents && NeedsNext(cat, i, d) ==> d in idents
  }

  /** The playbooks of `base` and what they need, and no others. */
  ghost predicate LeastClosed(cat: Catalog, base: set<Ident>, idents: set<Ident>) {
    && base <= idents && ClosedUnder(cat, idents)
    && forall more :: ClosedUnder(cat, more) && base <= more ==> idents <= more
  }

  lemma LeastClosedUnique(cat: Catalog, base: set<Ident>, idents: set<Ident>, idents': set<Ident>)
    requires LeastClosed(cat, base, idents) && LeastClosed(cat, base, idents')
    ensures idents == idents'
  {
  }

  lemma {:induction false} ChainStaysWithin(cat: Catalog, idents: set<Ident>, i: Ident, path: seq<Ident>)
    requires ClosedUnder(cat, idents) && i in idents && Chain(cat, i, path)
    ensures EndOf(i, path) in idents
    decreases |path|
  {
    if path != [] {
      ChainStaysWithin(cat, idents, path[0], path[1..]);
    }
  }

  lemma LaunchedStaysWithin(cat: Catalog, idents: set<Ident>, main: string, i: Ident, n: string, j: Ident)
    requires ClosedUnder(cat, idents) && i in idents && LaunchedAs(cat, true, main, i, n, j)
    ensures j in idents
  {
    var path :| Chain(cat, i, path) && NameOf(main, path) == n && EndOf(i, path) == j;
    ChainStaysWithin(cat, idents, i, path);
  }

  /** If all dependencies of running workers run, what runs is closed. */
  lemma RunningIsClosed(cat: Catalog, s: State)
    requires CatalogValid(cat) && Consistent(cat, s) && Closed(s)
    ensures ClosedUnder(cat, RunningIdents(s))
  {
    forall i, d | i in RunningIdents(s) && NeedsNext(cat, i, d) ensures d in RunningIdents(s) {
      var n :| n in s.workers && IdentOf(s, n) == i;
      assert Recorded(cat, s, n) && s.workers[n].spec == cat[i];
      var k :| 0 <= k < |cat[i].interconnect| && cat[i].interconnect[k].1 == d;
      assert Hosts(s, s.workers[n].spec.interconnect[k].1) != {};
      var m :| m in Hosts(s, d);
      assert IdentOf(s, m) == d;
    }
  }
}
