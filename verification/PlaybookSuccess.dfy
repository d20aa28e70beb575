/**
  When starts and resumes succeed: with no failure, every playbook stored and no cycle, the only thing
  that can go wrong is that two launches want the same name.
*/
module PlaybookSuccess {
  import opened Prelude
  import opened Playbooks
  import opened PlaybookFrames
  import opened PlaybookInvariants
  import opened PlaybookLaunches
  import opened PlaybookCycles
  import opened PlaybookReach

  /** The playbooks asked for, by name. */
  type Roots = map<string, Ident>

  ghost predicate LaunchedForRoots(cat: Catalog, roots: Roots, n: string, j: Ident) {
    exists r :: r in roots && LaunchedAs(cat, true, r, roots[r], n, j)
  }

  /** No name is wanted for two playbooks, and a wanted name that is taken runs what it is wanted for. */
  ghost predicate NamesTell(cat: Catalog, roots: Roots, base: State) {
    && (forall n, j, j' :: LaunchedForRoots(cat, roots, n, j) && LaunchedForRoots(cat, roots, n, j') ==> j == j')
    && (forall n, j :: LaunchedForRoots(cat, roots, n, j) && n in base.workers ==> IdentOf(base, n) == j)
  }

  /** What has come up since `base` came up for the roots. */
  ghost predicate Named(cat: Catalog, roots: Roots, base: State, s: State) {
    Grows(base, s) && forall n :: Launched(base, s, n) ==> LaunchedForRoots(cat, roots, n, IdentOf(s, n))
  }

  lemma {:induction false} ChainAppend(cat: Catalog, i: Ident, path: seq<Ident>, d: Ident)
    requires Chain(cat, i, path) && NeedsNext(cat, EndOf(i, path), d)
    ensures Chain(cat, i, path + [d]) && EndOf(i, path + [d]) == d
    ensures forall main :: NameOf(main, path + [d]) == SubName(NameOf(main, path), d)
    decreases |path|
  {
    if path == [] {
      assert path + [d] == [d] && [d][1..] == [];
      assert Chain(cat, d, []);
      assert forall main :: NameOf(SubName(main, d), []) == SubName(main, d);
    } else {
      assert (path + [d])[1..] == path[1..] + [d];
      assert EndOf(path[0], path[1..]) == EndOf(i, path);
      ChainAppend(cat, path[0], path[1..], d);
    }
  }

  lemma LaunchedNext(cat: Catalog, roots: Roots, main: string, i: Ident, d: Ident)
    requires LaunchedForRoots(cat, roots, main, i) && NeedsNext(cat, i, d)
    ensures LaunchedForRoots(cat, roots, SubName(main, d), d)
  {
    var r :| r in roots && LaunchedAs(cat, true, r, roots[r], main, i);
    var path :| Chain(cat, roots[r], path) && NameOf(r, path) == main && EndOf(roots[r], path) == i;
    ChainAppend(cat, roots[r], path, d);
    assert LaunchedAs(cat, true, r, roots[r], SubName(main, d), d);
  }

  /** A name wanted for a playbook that does not run is free. */
  lemma WantedNameFree(cat: Catalog, roots: Roots, base: State, s: State, n: string, d: Ident)
    requires NamesTell(cat, roots, base) && Named(cat, roots, base, s)
    requires LaunchedForRoots(cat, roots, n, d) && n in s.workers
    ensures IdentOf(s, n) == d && Hosts(s, d) != {}
  {
    hide LaunchedForRoots;
    if n !in base.workers {
      assert Launched(base, s, n);
    }
    assert n in Hosts(s, d);
  }

  lemma SameWorkersNamed(cat: Catalog, roots: Roots, base: State, s: State, s': State)
    requires Named(cat, roots, base, s) && s'.workers == s.workers
    ensures Named(cat, roots, base, s')
  {
    hide LaunchedForRoots;
    forall n | Launched(base, s', n) ensures LaunchedForRoots(cat, roots, n, IdentOf(s', n)) {
      assert Launched(base, s, n);
    }
  }

  lemma InsertNamed(cat: Catalog, roots: Roots, base: State, s: State, s': State, name: string)
    requires Named(cat, roots, base, s) && name !in s.workers
    requires name in s'.workers && s'.workers == s.workers[name := s'.workers[name]]
    requires LaunchedForRoots(cat, roots, name, IdentOf(s', name))
    ensures Named(cat, roots, base, s')
  {
    hide LaunchedForRoots;
    forall n | Launched(base, s', n) ensures LaunchedForRoots(cat, roots, n, IdentOf(s', n)) {
      if n != name {
        assert Launched(base, s, n);
      }
    }
  }

  lemma NothingFailsPrepared(cat: Catalog, env: Env, s: State, name: string, ident: Ident)
    requires NeverFails(env) && name !in s.workers && ident in cat
    ensures var (ready, ok) := Prepared(cat, env, s, name, ident);
            ok && ready.workers == s.workers && ready.rows == s.rows - {name}
  {
    PreparedFrames(cat, env, s, name, ident);
  }

  /** The settings under which nothing but names can go wrong. */
  ghost predicate Sound(cat: Catalog, rank: Ident -> nat, roots: Roots, base: State) {
    CatalogValid(cat) && Complete(cat) && Acyclic(cat, rank) && NamesTell(cat, roots, base)
  }

  lemma {:induction false} StartSucceeds(cat: Catalog, env: Env, fuel: nat, rank: Ident -> nat, roots: Roots,
                                         base: State, s: State, name: string, args: StartArgs)
    requires Sound(cat, rank, roots, base) && NeverFails(env) && fuel > rank(args.playbook) && args.playbook in cat
    requires Named(cat, roots, base, s) && LaunchedForRoots(cat, roots, name, args.playbook) && name !in s.workers
    ensures var o := Start(cat, env, fuel, s, name, args);
            && o.Finished? && o.value.Some?
            && Named(cat, roots, base, o.state) && s.rows.Keys <= o.state.rows.Keys
    decreases fuel, 0
  {
    hide Named, NamesTell, LaunchedForRoots, NeedsNext;
    var i := args.playbook;
    var ready := Prepared(cat, env, s, name, i).0;
    NothingFailsPrepared(cat, env, s, name, i);
    SameWorkersNamed(cat, roots, base, s, ready);
    var deps := cat[i].interconnect;
    assert DependenciesBelow(deps, rank, rank(i));
    BuildSucceeds(cat, env, fuel - 1, rank, roots, base, ready, name, i, deps);
    BuildFrames(cat, env, fuel - 1, ready, name, deps);
    var o := Start(cat, env, fuel, s, name, args);
    StartedInserts(cat, env, fuel, s, name, args);
    InsertNamed(cat, roots, base, Build(cat, env, fuel - 1, ready, name, deps).state, o.state, name);
  }

  lemma {:induction false} BuildSucceeds(cat: Catalog, env: Env, fuel: nat, rank: Ident -> nat, roots: Roots,
                                         base: State, s: State, main: string, i: Ident, deps: seq<(string, Ident)>)
    requires Sound(cat, rank, roots, base) && NeverFails(env) && i in cat && LaunchedForRoots(cat, roots, main, i)
    requires DependenciesBelow(deps, rank, fuel) && forall k :: 0 <= k < |deps| ==> deps[k] in cat[i].interconnect
    requires Named(cat, roots, base, s)
    ensures var o := Build(cat, env, fuel, s, main, deps);
            && o.Finished? && o.value.Some?
            && Named(cat, roots, base, o.state) && s.rows.Keys <= o.state.rows.Keys
    decreases fuel, 2, |deps|
  {
    hide Start, Named, NamesTell, LaunchedForRoots, NeedsNext;
    if deps != [] {
      var d := deps[0].1;
      DependencyStored(cat, i, deps[0]);
      if Hosts(s, d) == {} {
        var sub := SubName(main, d);
        LaunchedNext(cat, roots, main, i, d);
        if sub in s.workers {
          WantedNameFree(cat, roots, base, s, sub, d);
        }
        StartSucceeds(cat, env, fuel, rank, roots, base, s, sub, DefaultArgs(d));
        StartFrames(cat, env, fuel, s, sub, DefaultArgs(d));
      }
      var first := FindOrLaunch(cat, env, fuel, s, main, d);
      assert first.Finished? && first.value.Some? && Named(cat, roots, base, first.state);
      var rest := deps[1..];
      assert forall k :: 0 <= k < |rest| ==> rest[k] == deps[k + 1];
      BuildSucceeds(cat, env, fuel, rank, roots, base, first.state, main, i, rest);
    }
  }

  lemma DependencyStored(cat: Catalog, i: Ident, dep: (string, Ident))
    requires Complete(cat) && i in cat && dep in cat[i].interconnect
    ensures dep.1 in cat && NeedsNext(cat, i, dep.1)
  {
    var k :| 0 <= k < |cat[i].interconnect| && cat[i].interconnect[k] == dep;
    assert cat[i].interconnect[k].1 in cat;
  }

  /** A resume of one of the roots, under the same settings. */
  lemma ResumeSucceeds(cat: Catalog, env: Env, fuel: nat, rank: Ident -> nat, roots: Roots, base: State, s: State,
                       n: string)
    requires Sound(cat, rank, roots, base) && NeverFails(env) && Named(cat, roots, base, s)
    requires n in roots && roots[n] in cat && rank(roots[n]) <= fuel
    requires n !in s.workers && n in s.rows && s.rows[n].config.playbook == roots[n]
    ensures var o := Resume(cat, env, fuel, s, n);
            && o.Finished? && o.value.Some?
            && Named(cat, roots, base, o.state) && s.rows.Keys <= o.state.rows.Keys
  {
    hide Named, NamesTell, LaunchedForRoots;
    var i := roots[n];
    RootWanted(cat, roots, n);
    var deps := cat[i].interconnect;
    assert DependenciesBelow(deps, rank, rank(i));
    BuildSucceeds(cat, env, fuel, rank, roots, base, s, n, i, deps);
    BuildFrames(cat, env, fuel, s, n, deps);
    var built := Build(cat, env, fuel, s, n, deps).state;
    var o := Resume(cat, env, fuel, s, n);
    InsertNamed(cat, roots, base, built, o.state, n);
  }

  lemma RootWanted(cat: Catalog, roots: Roots, n: string)
    requires n in roots
    ensures LaunchedForRoots(cat, roots, n, roots[n])
  {
    OwnLaunch(cat, n, roots[n]);
  }

  // ---------------------------------------------------------------------------
  // Single starts
  // ---------------------------------------------------------------------------

  /** No two playbooks along the chains from `i` would be launched under one name. */
  ghost predicate TellsApart(cat: Catalog, main: string, i: Ident) {
    forall n, j, j' :: LaunchedAs(cat, true, main, i, n, j) && LaunchedAs(cat, true, main, i, n, j') ==> j == j'
  }

  /**
    With no failure, every playbook stored and no cycle, a start under an untaken name succeeds in
    every state, unless two of its launches want one name.
  */
  lemma UntakenStartSucceeds(cat: Catalog, env: Env, fuel: nat, rank: Ident -> nat, s: State, name: string,
                             args: StartArgs)
    requires CatalogValid(cat) && Complete(cat) && Acyclic(cat, rank) && NeverFails(env)
    requires args.playbook in cat && fuel > rank(args.playbook)
    requires Untaken(s, name) && TellsApart(cat, name, args.playbook)
    ensures var o := Start(cat, env, fuel, s, name, args); o.Finished? && o.value.Some?
  {
    var roots: Roots := map[name := args.playbook];
    forall n, j | LaunchedForRoots(cat, roots, n, j)
      ensures LaunchedAs(cat, true, name, args.playbook, n, j) && n !in s.workers
    {
      var path :| Chain(cat, args.playbook, path) && NameOf(name, path) == n && EndOf(args.playbook, path) == j;
      NameOfExtends(name, path);
    }
    RootWanted(cat, roots, name);
    StartSucceeds(cat, env, fuel, rank, roots, s, s, name, args);
  }

  // ---------------------------------------------------------------------------
  // Names
  // ---------------------------------------------------------------------------

  function Suffix(path: seq<Ident>): (r: string)
    ensures path == [] <==> r == []
    ensures r == [] || r[0] == '_'
  {
    if path == [] then [] else "_" + path[0].package + Suffix(path[1..])
  }

  lemma {:induction false} NameIsSuffixed(main: string, path: seq<Ident>)
    ensures NameOf(main, path) == main + Suffix(path)
    decreases |path|
  {
    if path != [] {
      NameIsSuffixed(SubName(main, path[0]), path[1..]);
      assert SubName(main, path[0]) + Suffix(path[1..]) == main + Suffix(path);
    }
  }

  ghost predicate PlainPackages(cat: Catalog) {
    forall i :: i in cat ==> '_' !in i.package
  }

  ghost predicate OnePerPackage(cat: Catalog) {
    forall i, d, d' :: NeedsNext(cat, i, d) && NeedsNext(cat, i, d') && d.package == d'.package ==> d == d'
  }

  lemma NothingPlain(s: string, q: string, t: string)
    requires s == q + t && '_' !in q && (s == [] || s[0] == '_')
    ensures q == []
  {
    assert s[..|q|] == q;
  }

  lemma {:induction false} PlainPrefix(p: string, s: string, q: string, t: string)
    requires p + s == q + t && '_' !in p && '_' !in q
    requires (s == [] || s[0] == '_') && (t == [] || t[0] == '_')
    ensures p == q && s == t
  {
    if p == [] {
      assert p + s == s;
      NothingPlain(s, q, t);
    } else if q == [] {
      assert q + t == t;
      NothingPlain(t, p, s);
    } else {
      var whole := p + s;
      assert p[1..] + s == whole[1..] == q[1..] + t && p[0] == whole[0] == q[0];
      PlainPrefix(p[1..], s, q[1..], t);
      assert p == [p[0]] + p[1..] && q == [q[0]] + q[1..];
    }
  }

  lemma {:induction false} PlainNamesTell(cat: Catalog, i: Ident, p: seq<Ident>, q: seq<Ident>)
    requires Complete(cat) && PlainPackages(cat) && OnePerPackage(cat)
    requires Chain(cat, i, p) && Chain(cat, i, q) && Suffix(p) == Suffix(q)
    ensures p == q
    decreases |p|
  {
    hide NeedsNext, OnePerPackage;
    if p != [] && q != [] {
      NextIsStored(cat, i, p[0]);
      NextIsStored(cat, i, q[0]);
      var (a, b) := (p[0].package, q[0].package);
      assert Suffix(p)[1..] == a + Suffix(p[1..]) && Suffix(q)[1..] == b + Suffix(q[1..]);
      PlainPrefix(a, Suffix(p[1..]), b, Suffix(q[1..]));
      SamePackageSameNext(cat, i, p[0], q[0]);
      PlainNamesTell(cat, p[0], p[1..], q[1..]);
      assert p == [p[0]] + p[1..] && q == [q[0]] + q[1..];
    }
  }

  lemma SamePackageSameNext(cat: Catalog, i: Ident, d: Ident, d': Ident)
    requires OnePerPackage(cat) && NeedsNext(cat, i, d) && NeedsNext(cat, i, d') && d.package == d'.package
    ensures d == d'
  {
  }

  lemma NextIsStored(cat: Catalog, i: Ident, d: Ident)
    requires Complete(cat) && NeedsNext(cat, i, d)
    ensures d in cat
  {
  }

  /**
    If no package name contains an underscore, names tell launches apart exactly if no playbook needs
    two versions, or two authors' copies, of one package.
  */
  lemma TellsApartIff(cat: Catalog)
    requires Complete(cat) && PlainPackages(cat)
    ensures (forall main, i :: TellsApart(cat, main, i)) <==> OnePerPackage(cat)
  {
    if OnePerPackage(cat) {
      forall main, i, n, j, j' | LaunchedAs(cat, true, main, i, n, j) && LaunchedAs(cat, true, main, i, n, j')
        ensures j == j'
      {
        var p :| Chain(cat, i, p) && NameOf(main, p) == n && EndOf(i, p) == j;
        var q :| Chain(cat, i, q) && NameOf(main, q) == n && EndOf(i, q) == j';
        NameIsSuffixed(main, p);
        NameIsSuffixed(main, q);
        assert Suffix(p) == (main + Suffix(p))[|main|..] && Suffix(q) == (main + Suffix(q))[|main|..];
        PlainNamesTell(cat, i, p, q);
      }
    } else {
      var i, d, d' :| NeedsNext(cat, i, d) && NeedsNext(cat, i, d') && d.package == d'.package && d != d';
      OneStep(cat, "", i, d);
      OneStep(cat, "", i, d');
      assert SubName("", d) == SubName("", d');
      assert !TellsApart(cat, "", i);
    }
  }

  lemma OneStep(cat: Catalog, main: string, i: Ident, d: Ident)
    requires NeedsNext(cat, i, d)
    ensures LaunchedAs(cat, true, main, i, SubName(main, d), d)
  {
    OwnLaunch(cat, SubName(main, d), d);
    LaunchedForDependency(cat, main, i, d, SubName(main, d), d);
    LaunchedOwnToo(cat, main, i, SubName(main, d), d);
  }

  /** Needing two versions of one package, neither of which runs, is a failure with no failure at all. */
  lemma TwoVersionsFail(cat: Catalog, env: Env, fuel: nat, s: State, name: string, args: StartArgs, a: string,
                        d: Ident, b: string, d': Ident)
    requires CatalogValid(cat) && NeverFails(env) && fuel >= 2 && Untaken(s, name)
    requires args.playbook in cat && cat[args.playbook].interconnect == [(a, d), (b, d')]
    requires d != d' && d.package == d'.package && Hosts(s, d) == {} && Hosts(s, d') == {}
    requires d in cat && cat[d].interconnect == [] && d' in cat
    ensures var o := Start(cat, env, fuel, s, name, args); o.Finished? && o.value.None?
  {
    var deps := cat[args.playbook].interconnect;
    var ready := Prepared(cat, env, s, name, args.playbook).0;
    NothingFailsPrepared(cat, env, s, name, args.playbook);
    var sub := SubName(name, d);
    SubNamesExtend(name, d);
    assert sub !in ready.workers;
    NothingFailsPrepared(cat, env, ready, sub, d);
    var o := Start(cat, env, fuel - 1, ready, sub, DefaultArgs(d));
    var ready' := Prepared(cat, env, ready, sub, d).0;
    assert Build(cat, env, fuel - 2, ready', sub, []) == Finished(ready', Some(map[]));
    assert o.Finished? && o.value.Some?;
    StartedInserts(cat, env, fuel - 1, ready, sub, DefaultArgs(d));
    assert FindOrLaunch(cat, env, fuel - 1, ready, name, d).state == o.state;
    assert Hosts(ready, d') == Hosts(s, d') && Hosts(o.state, d') == {};
    assert SubName(name, d') == sub;
    assert Start(cat, env, fuel - 1, o.state, sub, DefaultArgs(d')) == Finished(o.state, None);
    assert deps[1..] == [(b, d')];
    assert Build(cat, env, fuel - 1, o.state, name, deps[1..]) == Finished(o.state, None);
  }
}
