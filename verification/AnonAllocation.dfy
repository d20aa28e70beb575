/**
  The version search as a content-addressed allocator: what it keeps, when a known source gets its
  version back, and exactly which sources survive being stored.
*/
module AnonAllocation {
  import opened Prelude
  import opened AnonVersions

  // ---------------------------------------------------------------------------
  // The stored hash
  // ---------------------------------------------------------------------------

  lemma {:induction false} IdentsPrepend(c: Configured, cs: seq<Configured>)
    ensures Idents([c] + cs) == multiset{c.ident} + Idents(cs)
  {
    var all := [c] + cs;
    if cs == [] {
      assert all == [c] && all[..0] == [];
    } else {
      assert all[..|all| - 1] == [c] + cs[..|cs| - 1];
      IdentsPrepend(c, cs[..|cs| - 1]);
    }
  }

  lemma {:induction false} IdentsSize(cs: seq<Configured>)
    ensures |Idents(cs)| == |cs|
  {
    if cs != [] {
      IdentsSize(cs[..|cs| - 1]);
    }
  }

  lemma {:induction false} ConfigurationsSize(m: map<string, Configured>)
    ensures |Configurations(m)| == |m.Keys|
    decreases |m.Keys|
  {
    if m != map[] {
      var k := LeastKey(m.Keys);
      assert (m - {k}).Keys == m.Keys - {k};
      ConfigurationsSize(m - {k});
    }
  }

  lemma LeastFirst(m: map<string, Configured>, l: string)
    requires IsLeastKey(l, m.Keys)
    ensures Idents(Configurations(m)) == multiset{m[l].ident} + Idents(Configurations(m - {l}))
  {
    LeastKeyUnique(l, LeastKey(m.Keys), m.Keys);
    IdentsPrepend(m[l], Configurations(m - {l}));
  }

  /** Taking any one entry out of the map takes its ident out of the multiset. */
  lemma {:induction false} IdentsWithout(m: map<string, Configured>, k: string)
    requires k in m
    ensures Idents(Configurations(m)) == multiset{m[k].ident} + Idents(Configurations(m - {k}))
    decreases |m.Keys|
  {
    hide Configurations, Idents;
    var l := LeastKey(m.Keys);
    assert (m - {l}).Keys == m.Keys - {l} && (m - {k}).Keys == m.Keys - {k};
    LeastFirst(m, l);
    if k != l {
      IdentsWithout(m - {l}, k);
      assert m - {l} - {k} == m - {k} - {l};
      LeastFirst(m - {k}, l);
    }
  }

  lemma {:induction false} ByPackageKeys(cs: seq<Configured>, p: string)
    ensures p in ByPackage(cs) <==> exists i :: 0 <= i < |cs| && cs[i].ident.package == p
  {
    if cs != [] {
      var n := |cs| - 1;
      ByPackageKeys(cs[..n], p);
      if i :| 0 <= i < |cs| && cs[i].ident.package == p {
        assert i < n ==> cs[..n][i].ident.package == p;
      }
    }
  }

  lemma DistinctStep(cs: seq<Configured>)
    requires cs != []
    ensures var front := cs[..|cs| - 1];
            PackagesDistinct(cs) <==> PackagesDistinct(front) && cs[|cs| - 1].ident.package !in ByPackage(front)
  {
    var n := |cs| - 1;
    var front, p := cs[..n], cs[n].ident.package;
    ByPackageKeys(front, p);
    if PackagesDistinct(front) && p !in ByPackage(front) {
      forall i, j | 0 <= i < j < |cs| ensures cs[i].ident.package != cs[j].ident.package {
        assert cs[i] == front[i];
        if j < n { assert cs[j] == front[j]; }
      }
    }
  }

  /** Rebuilding the map by package keeps the idents exactly when no package occurs twice. */
  lemma {:induction false} ByPackageKeepsIdentsIff(cs: seq<Configured>)
    ensures |ByPackage(cs).Keys| <= |cs|
    ensures |ByPackage(cs).Keys| == |cs| <==> PackagesDistinct(cs)
    ensures PackagesDistinct(cs) ==> Idents(Configurations(ByPackage(cs))) == Idents(cs)
  {
    hide Configurations, PackagesDistinct;
    if cs == [] {
      NothingDistinct();
    } else {
      var n := |cs| - 1;
      var p := cs[n].ident.package;
      var m, m' := ByPackage(cs[..n]), ByPackage(cs);
      ByPackageKeepsIdentsIff(cs[..n]);
      DistinctStep(cs);
      assert m'.Keys == m.Keys + {p};
      if p !in m {
        IdentsWithout(m', p);
        assert m' - {p} == m;
      } else {
        assert m'.Keys == m.Keys;
      }
    }
  }

  lemma NothingDistinct()
    ensures PackagesDistinct([]) && Configurations(ByPackage([])) == []
  {
  }

  /** Nothing but what the binary's Module.toml can express. */
  predicate Clean(s: Source) {
    s.manifest.dependencies == map[] && PackagesDistinct(Configurations(s.manifest.capabilities))
  }

  /** The digest of a source once the binary has rewritten its Module.toml. */
  function Rewritten(s: Source, code: string): Digest {
    var kept := Idents(Configurations(ByPackage(Configurations(s.manifest.capabilities))));
    Digest(code, map[], kept, s.manifest.interconnect)
  }

  lemma RewrittenIff(s: Source)
    ensures Rewritten(s, s.code) == Hash(s) <==> Clean(s)
  {
    var cs := Configurations(s.manifest.capabilities);
    ByPackageKeepsIdentsIff(cs);
    IdentsSize(cs);
    IdentsSize(Configurations(ByPackage(cs)));
    ConfigurationsSize(ByPackage(cs));
  }

  /** What a save leaves readable at the version it used. */
  lemma SavedSource(store: Store, s: Source, env: Env, version: string)
    requires env.builds
    ensures var ident := s.manifest.ident.(version := version);
            var before := NamedSource(store, ident);
            var after := NamedSource(BuildAndSave(store, s, env, version).0, ident);
            && (after.Some? <==> env.sourceFiles >= 2 || before.Some?)
            && (after.Some? ==>
                  var code := if env.sourceFiles >= 2 then s.code else before.value.code;
                  Hash(after.value) == if env.binaryFiles >= 3 then Rewritten(s, code)
                                       else if env.sourceFiles >= 1 then Hash(s.(code := code))
                                       else Hash(before.value))
  {
    var ident := s.manifest.ident.(version := version);
    var updated := s.(manifest := s.manifest.(ident := ident));
    var withSource := WithSource(store, updated, env.sourceFiles);
    assert At(withSource, ident).moduleToml == if env.sourceFiles >= 1 then Some(updated.manifest)
                                               else At(store, ident).moduleToml;
    assert At(withSource, ident).sourceRs == if env.sourceFiles >= 2 then Some(s.code) else At(store, ident).sourceRs;
  }

  /**
    The hash of a stored source is the hash it was compiled under if and only if it has no Cargo
    dependencies and no two capability entries of the same package.
  */
  lemma HashSurvivesIff(store: Store, s: Source, version: string)
    ensures var ident := s.manifest.ident.(version := version);
            var stored := NamedSource(BuildAndSave(store, s, NO_FAILURE, version).0, ident);
            stored.Some? && (Hash(stored.value) == Hash(s) <==> Clean(s))
  {
    SavedSource(store, s, NO_FAILURE, version);
    RewrittenIff(s);
  }

  // ---------------------------------------------------------------------------
  // The search
  // ---------------------------------------------------------------------------

  lemma {:induction false} SearchFacts(store: Store, package: string, hash: Digest, from: nat)
    requires from >= 1
    requires forall i :: 1 <= i < from ==> Readable(At(store, AnonIdent(package, i))) && !Holds(store, package, i, hash)
    ensures var (n, found) := Search(store, package, hash, from);
            && n >= from
            && (forall i :: 1 <= i < n ==>
                  Readable(At(store, AnonIdent(package, i))) && !Holds(store, package, i, hash))
            && (found ==> Holds(store, package, n, hash))
            && (!found ==> !Readable(At(store, AnonIdent(package, n))))
    decreases |store.Keys| + 1 - from
  {
    VersionsFit(store, package, from - 1);
    if Readable(At(store, AnonIdent(package, from))) && !Holds(store, package, from, hash) {
      VersionsFit(store, package, from);
      SearchFacts(store, package, hash, from + 1);
    }
  }

  /** Occupied versions are 0.1.0 to 0.n.0. */
  ghost predicate Contiguous(store: Store, package: string, n: nat) {
    forall i {:trigger AnonIdent(package, i)} :: i >= 1 ==> (Readable(At(store, AnonIdent(package, i))) <==> i <= n)
  }

  /** No source is stored under two versions. */
  ghost predicate HashesDistinct(store: Store, package: string) {
    forall i, j, h :: 1 <= i < j && Holds(store, package, i, h) ==> !Holds(store, package, j, h)
  }

  /** The version a source has, if it is stored. */
  ghost predicate StoredAt(store: Store, package: string, hash: Digest, n: nat, i: nat) {
    1 <= i <= n && Holds(store, package, i, hash)
  }

  lemma SearchOnContiguous(store: Store, package: string, hash: Digest, n: nat)
    requires Contiguous(store, package, n)
    ensures var (m, found) := Search(store, package, hash, 1);
            && (found ==> StoredAt(store, package, hash, n, m))
            && (!found ==> m == n + 1 && forall i :: !StoredAt(store, package, hash, n, i))
  {
    SearchFacts(store, package, hash, 1);
    var (m, found) := Search(store, package, hash, 1);
    assert Readable(At(store, AnonIdent(package, m))) <==> m <= n;
    assert Readable(At(store, AnonIdent(package, n + 1))) <==> n + 1 <= n;
  }

  lemma NotStored(store: Store, package: string, hash: Digest, n: nat, i: nat)
    requires Contiguous(store, package, n) && i >= 1 && !Search(store, package, hash, 1).1
    ensures !Holds(store, package, i, hash)
  {
    SearchOnContiguous(store, package, hash, n);
    assert Readable(At(store, AnonIdent(package, i))) <==> i <= n;
    assert !StoredAt(store, package, hash, n, i);
  }

  lemma StoredOnce(store: Store, package: string, hash: Digest, i: nat, j: nat)
    requires HashesDistinct(store, package) && i >= 1 && j >= 1
    requires Holds(store, package, i, hash) && Holds(store, package, j, hash)
    ensures i == j
  {
  }

  /** Whether a compile reaches the build with a new source for this package. */
  predicate Allocates(store: Store, s: Source, env: Env, package: string) {
    && s.manifest.ident.author == "anon" && s.manifest.ident.package == package != "anon"
    && !Search(store, package, Hash(s), 1).1
    && env.builds && env.sourceFiles >= 2
  }

  /** A save touches the one directory it is for. */
  lemma SaveTouchesOne(store: Store, s: Source, env: Env, version: string, other: ModuleIdent)
    requires other != s.manifest.ident.(version := version)
    ensures At(BuildAndSave(store, s, env, version).0, other) == At(store, other)
  {
  }

  lemma CompileTouchesOne(store: Store, s: Source, env: Env, package: string, i: nat)
    requires s.manifest.ident.author != "anon" || s.manifest.ident.package != package ||
             i != Search(store, package, Hash(s), 1).0
    ensures At(CompileStep(store, s, env).0, AnonIdent(package, i)) == At(store, AnonIdent(package, i))
  {
    var ident := s.manifest.ident;
    if ident.package != "anon" {
      if ident.author == "anon" {
        var n := Search(store, ident.package, Hash(s), 1).0;
        if ident.package == package && VersionName(i) == VersionName(n) {
          VersionNamesDiffer(i, n);
        }
        SaveTouchesOne(store, s, env, VersionName(n), AnonIdent(package, i));
      } else {
        SaveTouchesOne(store, s, env, ident.version, AnonIdent(package, i));
      }
    }
  }

  /** Any compile keeps the versions of every package contiguous, and extends them only for a new source. */
  lemma CompileKeepsContiguous(store: Store, s: Source, env: Env, package: string, n: nat)
    requires Contiguous(store, package, n)
    ensures Contiguous(CompileStep(store, s, env).0, package, if Allocates(store, s, env, package) then n + 1 else n)
  {
    var store' := CompileStep(store, s, env).0;
    var mine := s.manifest.ident.author == "anon" && s.manifest.ident.package == package;
    var (m, found) := Search(store, package, Hash(s), 1);
    SearchOnContiguous(store, package, Hash(s), n);
    var n' := if Allocates(store, s, env, package) then n + 1 else n;
    forall i | i >= 1
      ensures Readable(At(store', AnonIdent(package, i))) <==> i <= n'
    {
      assert Readable(At(store, AnonIdent(package, i))) <==> i <= n;
      if !mine || i != m {
        CompileTouchesOne(store, s, env, package, i);
      } else if package != "anon" && env.builds {
        SavedSource(store, s, env, VersionName(m));
      }
    }
  }

  /** If the source competes for versions of this package, it is clean. */
  predicate CleanFor(s: Source, package: string) {
    s.manifest.ident.author == "anon" && s.manifest.ident.package == package ==> Clean(s)
  }

  /** Storing clean sources keeps every source under one version. */
  lemma CompileKeepsHashesDistinct(store: Store, s: Source, env: Env, package: string, n: nat)
    requires Contiguous(store, package, n) && HashesDistinct(store, package)
    requires CleanFor(s, package)
    ensures HashesDistinct(CompileStep(store, s, env).0, package)
  {
    var store' := CompileStep(store, s, env).0;
    var hash := Hash(s);
    var (m, found) := Search(store, package, hash, 1);
    SearchOnContiguous(store, package, hash, n);
    var mine := s.manifest.ident.author == "anon" && s.manifest.ident.package == package;
    forall i, h | i >= 1 && Holds(store', package, i, h)
      ensures Holds(store, package, i, h) || (mine && i == m && h == hash && !found)
    {
      if !mine || i != m {
        CompileTouchesOne(store, s, env, package, i);
      } else if package != "anon" && env.builds {
        SavedSource(store, s, env, VersionName(m));
        RewrittenIff(s);
      }
    }
    forall i, j, h | 1 <= i < j && Holds(store', package, i, h)
      ensures !Holds(store', package, j, h)
    {
      if !found {
        NotStored(store, package, hash, n, i);
        NotStored(store, package, hash, n, j);
      }
    }
  }

  // ---------------------------------------------------------------------------
  // Runs
  // ---------------------------------------------------------------------------

  function RunCompiles(store: Store, rs: seq<(Source, Env)>): Store
    decreases |rs|
  {
    if rs == [] then store else RunCompiles(CompileStep(store, rs[0].0, rs[0].1).0, rs[1..])
  }

  /** A binary is stored under its own ident. */
  ghost predicate BinariesNamed(store: Store) {
    forall ident :: ident in store && store[ident].specJson.Some? ==> store[ident].specJson.value.ident == ident
  }

  lemma CompileKeepsBinariesNamed(store: Store, s: Source, env: Env)
    requires BinariesNamed(store)
    ensures BinariesNamed(CompileStep(store, s, env).0)
  {
  }

  /** Versions 1 to n are occupied, by sources of different hashes. */
  ghost predicate Allocated(store: Store, package: string, n: nat) {
    Contiguous(store, package, n) && HashesDistinct(store, package) && BinariesNamed(store)
  }

  ghost predicate AllCleanFor(rs: seq<(Source, Env)>, package: string) {
    forall i :: 0 <= i < |rs| ==> CleanFor(rs[i].0, package)
  }

  /**
    Over any serial run of compiles, failed builds and failed writes included, of clean anonymous
    sources and any named ones: the versions of a package stay contiguous, with one version a source,
    and no stored source loses its version.
  */
  lemma {:induction false} RunKeepsAllocation(store: Store, rs: seq<(Source, Env)>, package: string, n: nat)
    returns (n': nat)
    requires Allocated(store, package, n) && AllCleanFor(rs, package)
    ensures n' >= n && Allocated(RunCompiles(store, rs), package, n')
    ensures forall i, h :: StoredAt(store, package, h, n, i) ==> StoredAt(RunCompiles(store, rs), package, h, n', i)
    decreases |rs|
  {
    if rs == [] {
      n' := n;
    } else {
      var (s, env) := rs[0];
      var next := if Allocates(store, s, env, package) then n + 1 else n;
      CompileKeepsContiguous(store, s, env, package, n);
      CompileKeepsHashesDistinct(store, s, env, package, n);
      CompileKeepsBinariesNamed(store, s, env);
      forall i, h | StoredAt(store, package, h, n, i)
        ensures StoredAt(CompileStep(store, s, env).0, package, h, next, i)
      {
        CompileKeepsStored(store, s, env, package, n, h, i);
      }
      assert AllCleanFor(rs[1..], package) by {
        assert forall i :: 0 <= i < |rs[1..]| ==> rs[1..][i] == rs[i + 1];
      }
      n' := RunKeepsAllocation(CompileStep(store, s, env).0, rs[1..], package, next);
    }
  }

  lemma CompileKeepsStored(store: Store, s: Source, env: Env, package: string, n: nat, h: Digest, i: nat)
    requires Contiguous(store, package, n) && CleanFor(s, package) && StoredAt(store, package, h, n, i)
    ensures Holds(CompileStep(store, s, env).0, package, i, h)
  {
    var m := Search(store, package, Hash(s), 1).0;
    SearchOnContiguous(store, package, Hash(s), n);
    if s.manifest.ident.author != "anon" || s.manifest.ident.package != package || i != m {
      CompileTouchesOne(store, s, env, package, i);
    } else if package != "anon" && env.builds {
      SavedSource(store, s, env, VersionName(m));
      RewrittenIff(s);
    }
  }

  /** An empty cache is where such a run can start. */
  lemma EmptyStoreAllocated(package: string)
    ensures Allocated(map[], package, 0) && BinariesMatch(map[], package)
  {
  }

  /** A stored source gets its old version back, and a new one gets the next. */
  lemma CompileVersion(store: Store, s: Source, env: Env, n: nat)
    requires s.manifest.ident.author == "anon" && s.manifest.ident.package != "anon"
    requires Allocated(store, s.manifest.ident.package, n) && CompileStep(store, s, env).1.Some?
    ensures var (package, version) := (s.manifest.ident.package, CompileStep(store, s, env).1.value.version);
            && (forall i :: StoredAt(store, package, Hash(s), n, i) ==> version == VersionName(i))
            && ((forall i :: !StoredAt(store, package, Hash(s), n, i)) ==> version == VersionName(n + 1))
  {
    var package, hash := s.manifest.ident.package, Hash(s);
    var (m, found) := Search(store, package, hash, 1);
    SearchOnContiguous(store, package, hash, n);
    forall i: nat | StoredAt(store, package, hash, n, i)
      ensures i == m
    {
      StoredOnce(store, package, hash, i, m);
    }
  }

  /**
    The allocator over whole runs from an empty cache: a compile that answers gives a stored source
    the version it is stored under, and a new one the next free version.
  */
  lemma RunThenCompileVersion(rs: seq<(Source, Env)>, s: Source, env: Env) returns (n: nat)
    requires s.manifest.ident.author == "anon" && s.manifest.ident.package != "anon"
    requires AllCleanFor(rs, s.manifest.ident.package) && CompileStep(RunCompiles(map[], rs), s, env).1.Some?
    ensures var (store, package) := (RunCompiles(map[], rs), s.manifest.ident.package);
            var version := CompileStep(store, s, env).1.value.version;
            && Allocated(store, package, n)
            && (forall i :: StoredAt(store, package, Hash(s), n, i) ==> version == VersionName(i))
            && ((forall i :: !StoredAt(store, package, Hash(s), n, i)) ==> version == VersionName(n + 1))
  {
    EmptyStoreAllocated(s.manifest.ident.package);
    n := RunKeepsAllocation(map[], rs, s.manifest.ident.package, 0);
    CompileVersion(RunCompiles(map[], rs), s, env, n);
  }

  /**
    A version is given for good: once a clean source has been built and saved, every later compile of
    the same content answers with the same version, whatever was compiled before and in between.
  */
  lemma {:induction false} VersionIsForGood(before: seq<(Source, Env)>, s: Source, env: Env,
                                            between: seq<(Source, Env)>, t: Source, env': Env)
    requires s.manifest.ident.author == "anon" && s.manifest.ident.package != "anon" && Clean(s)
    requires t.manifest.ident.author == "anon" && t.manifest.ident.package == s.manifest.ident.package
    requires Hash(t) == Hash(s)
    requires AllCleanFor(before, s.manifest.ident.package) && AllCleanFor(between, s.manifest.ident.package)
    requires var r := CompileStep(RunCompiles(map[], before), s, env).1;
             r.Some? && (r.value.cached || env.sourceFiles >= 2)
    ensures var (store, r) := CompileStep(RunCompiles(map[], before), s, env);
            var later := CompileStep(RunCompiles(store, between), t, env').1;
            later.Some? ==> later.value.version == r.value.version
  {
    var package, hash := s.manifest.ident.package, Hash(s);
    EmptyStoreAllocated(package);
    var n := RunKeepsAllocation(map[], before, package, 0);
    var store := RunCompiles(map[], before);
    var store' := CompileStep(store, s, env).0;
    var n' := if Allocates(store, s, env, package) then n + 1 else n;
    var (m, found) := Search(store, package, hash, 1);
    SearchOnContiguous(store, package, hash, n);
    CompileVersion(store, s, env, n);
    CompileKeepsContiguous(store, s, env, package, n);
    CompileKeepsHashesDistinct(store, s, env, package, n);
    CompileKeepsBinariesNamed(store, s, env);
    if found {
      CompileKeepsStored(store, s, env, package, n, hash, m);
    } else {
      SavedSource(store, s, env, VersionName(m));
      RewrittenIff(s);
    }
    assert StoredAt(store', package, hash, n', m);
    var n'' := RunKeepsAllocation(store', between, package, n');
    assert StoredAt(RunCompiles(store', between), package, hash, n'', m);
    if CompileStep(RunCompiles(store', between), t, env').1.Some? {
      CompileVersion(RunCompiles(store', between), t, env', n'');
    }
  }

  /**
    Compiling a clean source again, with nothing in between, is a cache hit: the same version and
    hash, and an unchanged store.
  */
  lemma CompileTwice(store: Store, s: Source, env: Env, n: nat)
    requires s.manifest.ident.author == "anon" && s.manifest.ident.package != "anon" && Clean(s)
    requires Contiguous(store, s.manifest.ident.package, n) && HashesDistinct(store, s.manifest.ident.package)
    requires var r := CompileStep(store, s, NO_FAILURE).1; r.Some? && !r.value.cached
    ensures var (store', r) := CompileStep(store, s, NO_FAILURE);
            CompileStep(store', s, env) == (store', Some(Compiled(r.value.version, Hash(s), Hash(s), true)))
  {
    var package, hash := s.manifest.ident.package, Hash(s);
    var all := NO_FAILURE;
    var store' := CompileStep(store, s, all).0;
    var (m, found) := Search(store, package, hash, 1);
    SearchFacts(store, package, hash, 1);
    SearchOnContiguous(store, package, hash, n);
    HashSurvivesIff(store, s, VersionName(m));
    CompileKeepsContiguous(store, s, all, package, n);
    CompileKeepsHashesDistinct(store, s, all, package, n);
    var n' := if Allocates(store, s, all, package) then n + 1 else n;
    assert Holds(store', package, m, hash);
    SearchOnContiguous(store', package, hash, n');
    var (m', found') := Search(store', package, hash, 1);
    assert StoredAt(store', package, hash, n', m);
    assert found';
    StoredOnce(store', package, hash, m, m');
  }

  /** Every stored source of the package lost its dependencies when its binary was written. */
  ghost predicate NoStoredDependencies(store: Store, package: string) {
    forall i :: i >= 1 && Readable(At(store, AnonIdent(package, i))) ==>
                  At(store, AnonIdent(package, i)).moduleToml.value.dependencies == map[]
  }

  /**
    A source with Cargo dependencies never finds itself again: every complete compile of it takes a
    new version, however often it was compiled before.
  */
  lemma DependentSourceAlwaysNew(store: Store, s: Source, n: nat)
    requires s.manifest.ident.author == "anon" && s.manifest.ident.package != "anon"
    requires s.manifest.dependencies != map[]
    requires Contiguous(store, s.manifest.ident.package, n) && NoStoredDependencies(store, s.manifest.ident.package)
    ensures var (store', r) := CompileStep(store, s, NO_FAILURE);
            && r == Some(Compiled(VersionName(n + 1), Hash(s), Hash(s), false))
            && Contiguous(store', s.manifest.ident.package, n + 1)
            && NoStoredDependencies(store', s.manifest.ident.package)
  {
    var package, hash := s.manifest.ident.package, Hash(s);
    var all := NO_FAILURE;
    var store' := CompileStep(store, s, all).0;
    var (m, found) := Search(store, package, hash, 1);
    SearchFacts(store, package, hash, 1);
    SearchOnContiguous(store, package, hash, n);
    CompileKeepsContiguous(store, s, all, package, n);
    forall i | i >= 1 && Readable(At(store', AnonIdent(package, i)))
      ensures At(store', AnonIdent(package, i)).moduleToml.value.dependencies == map[]
    {
      if i != m {
        CompileTouchesOne(store, s, all, package, i);
      }
    }
  }

  // ---------------------------------------------------------------------------
  // Failed writes
  // ---------------------------------------------------------------------------

  /** If there is a binary, its code and its spec are those of the source stored beside it. */
  predicate Matches(store: Store, package: string, i: nat) {
    var binary := NamedBinary(store, AnonIdent(package, i));
    binary.Some? ==> binary.value.wasm == binary.value.spec.hash && Holds(store, package, i, binary.value.wasm)
  }

  ghost predicate BinariesMatch(store: Store, package: string) {
    forall i :: i >= 1 ==> Matches(store, package, i)
  }

  /** The answer is the binary of the source asked for. */
  predicate Honest(r: Option<Compiled>, s: Source) {
    r.Some? ==> r.value.hash == r.value.wasm == Hash(s)
  }

  /** From such a store, every answer about an anonymous source is honest. */
  lemma MatchingBinariesAnswerHonestly(store: Store, s: Source, env: Env)
    requires BinariesMatch(store, s.manifest.ident.package) && s.manifest.ident.author == "anon"
    ensures Honest(CompileStep(store, s, env).1, s)
  {
    var package := s.manifest.ident.package;
    var (n, found) := Search(store, package, Hash(s), 1);
    SearchFacts(store, package, Hash(s), 1);
    if found {
      assert Matches(store, package, n);
    }
  }

  /**
    A compile saves a binary that will not be the one of the source stored beside it: the source is
    not clean and the manifest written with the binary gives it another hash, or the source's own
    write stops short and there is no earlier copy.
  */
  predicate SavesMismatch(store: Store, s: Source, env: Env, package: string) {
    var (n, found) := Search(store, package, Hash(s), 1);
    && s.manifest.ident.author == "anon" && s.manifest.ident.package == package != "anon"
    && !(found && NamedBinary(store, AnonIdent(package, n)).Some?)
    && env.builds && env.binaryFiles >= 2
    && ((!found && env.sourceFiles < 2) || (!Clean(s) && env.binaryFiles >= 3))
  }

  /** The binary that loads after a save. */
  lemma SavedBinary(store: Store, s: Source, env: Env, version: string)
    requires env.builds
    ensures var ident := s.manifest.ident.(version := version);
            var before := NamedBinary(store, ident);
            var after := NamedBinary(BuildAndSave(store, s, env, version).0, ident);
            && (env.binaryFiles >= 2 ==> after == Some(Binary(Hash(s), BinarySpec(ident, Hash(s)))))
            && (env.binaryFiles < 2 && before.None? ==> after.None?)
  {
  }

  /** A save that finds no binary, at the version where the search ended. */
  lemma SaveMatchesIff(store: Store, s: Source, env: Env, package: string)
    requires s.manifest.ident.author == "anon" && s.manifest.ident.package == package != "anon" && env.builds
    requires var (m, found) := Search(store, package, Hash(s), 1);
             NamedBinary(store, AnonIdent(package, m)).None?
    ensures var (m, found) := Search(store, package, Hash(s), 1);
            Matches(BuildAndSave(store, s, env, VersionName(m)).0, package, m) <==>
            !SavesMismatch(store, s, env, package)
  {
    hide BuildAndSave, Search, Clean, Rewritten;
    var (m, found) := Search(store, package, Hash(s), 1);
    SearchFacts(store, package, Hash(s), 1);
    SavedBinary(store, s, env, VersionName(m));
    SavedSource(store, s, env, VersionName(m));
    RewrittenIff(s);
    assert s.manifest.ident.(version := VersionName(m)) == AnonIdent(package, m);
    if found {
      var before := NamedSource(store, AnonIdent(package, m)).value;
      assert Hash(before) == Hash(s) && before.code == s.code;
      assert s.(code := before.code) == s;
    }
  }

  /** Exactly when a compile, whatever the source and the failures, leaves every binary beside its own source. */
  lemma CompileKeepsBinariesMatchingIff(store: Store, s: Source, env: Env, package: string, n: nat)
    requires BinariesMatch(store, package) && Contiguous(store, package, n)
    ensures BinariesMatch(CompileStep(store, s, env).0, package) <==> !SavesMismatch(store, s, env, package)
  {
    hide Search, WithSource, WithBinary;
    var store' := CompileStep(store, s, env).0;
    var (m, found) := Search(store, package, Hash(s), 1);
    SearchFacts(store, package, Hash(s), 1);
    var mine := s.manifest.ident.author == "anon" && s.manifest.ident.package == package != "anon";
    forall i | i >= 1 && (!mine || i != m)
      ensures At(store', AnonIdent(package, i)) == At(store, AnonIdent(package, i))
    {
      OthersUntouched(store, s, env, package, i);
    }
    MismatchOnlyAt(store, store', package, m, mine);
    assert Matches(store, package, m);
    if mine && env.builds && NamedBinary(store, AnonIdent(package, m)).None? {
      SaveMatchesIff(store, s, env, package);
    } else if mine {
      assert store' == store;
    }
  }

  lemma OthersUntouched(store: Store, s: Source, env: Env, package: string, i: nat)
    requires var mine := s.manifest.ident.author == "anon" && s.manifest.ident.package == package != "anon";
             !mine || i != Search(store, package, Hash(s), 1).0
    ensures At(CompileStep(store, s, env).0, AnonIdent(package, i)) == At(store, AnonIdent(package, i))
  {
    if s.manifest.ident.package != "anon" {
      CompileTouchesOne(store, s, env, package, i);
    }
  }

  /** A save can only spoil the directory it writes. */
  lemma MismatchOnlyAt(store: Store, store': Store, package: string, m: nat, mine: bool)
    requires BinariesMatch(store, package) && m >= 1
    requires forall i :: i >= 1 && (!mine || i != m) ==>
                           At(store', AnonIdent(package, i)) == At(store, AnonIdent(package, i))
    ensures BinariesMatch(store', package) <==>
            (mine ==> Matches(store', package, m))
  {
    forall i | i >= 1 && (!mine || i != m) ensures Matches(store', package, i) {
      assert Matches(store, package, i);
    }
  }

  /** Every answer about an anonymous source of the package is honest. */
  ghost predicate AnswersHonestly(store: Store, package: string) {
    forall s: Source, env ::
      s.manifest.ident.author == "anon" && s.manifest.ident.package == package ==>
        Honest(CompileStep(store, s, env).1, s)
  }

  /** The first version to hold the hash of its source, where the search for that source ends. */
  predicate FirstToHold(store: Store, package: string, i: nat)
    requires Readable(At(store, AnonIdent(package, i)))
  {
    Search(store, package, Hash(NamedSource(store, AnonIdent(package, i)).value), 1) == (i, true)
  }

  lemma FirstToHoldIff(store: Store, package: string, n: nat, i: nat)
    requires Contiguous(store, package, n) && 1 <= i <= n
    ensures Readable(At(store, AnonIdent(package, i)))
    ensures var hash := Hash(NamedSource(store, AnonIdent(package, i)).value);
            FirstToHold(store, package, i) <==> forall j :: 1 <= j < i ==> !Holds(store, package, j, hash)
  {
    assert Readable(At(store, AnonIdent(package, i)));
    var hash := Hash(NamedSource(store, AnonIdent(package, i)).value);
    assert Holds(store, package, i, hash);
    SearchFacts(store, package, hash, 1);
    if !Search(store, package, hash, 1).1 {
      NotStored(store, package, hash, n, i);
    }
  }

  /**
    Exactly when the next answer is honest, whoever asks and whatever fails: no version that is the
    first to hold its source has a foreign binary. Later holders of the same hash are never asked.
  */
  lemma AnswersHonestlyIff(store: Store, package: string, n: nat)
    requires package != "anon" && Contiguous(store, package, n)
    ensures forall i :: 1 <= i <= n ==> Readable(At(store, AnonIdent(package, i)))
    ensures AnswersHonestly(store, package) <==>
            forall i :: 1 <= i <= n && FirstToHold(store, package, i) ==> Matches(store, package, i)
  {
    forall i | 1 <= i <= n ensures Readable(At(store, AnonIdent(package, i))) {
      FirstToHoldIff(store, package, n, i);
    }
    if i :| 1 <= i <= n && FirstToHold(store, package, i) && !Matches(store, package, i) {
      var s := NamedSource(store, AnonIdent(package, i)).value;
      assert CompileStep(store, s, NO_FAILURE).1 == Some(Cached(NamedBinary(store, AnonIdent(package, i)).value));
      assert Holds(store, package, i, Hash(s));
      assert !Honest(CompileStep(store, s, NO_FAILURE).1, s);
    } else {
      forall s: Source, env | s.manifest.ident.author == "anon" && s.manifest.ident.package == package
        ensures Honest(CompileStep(store, s, env).1, s)
      {
        SearchOnContiguous(store, package, Hash(s), n);
        var (m, found) := Search(store, package, Hash(s), 1);
        if found {
          assert Matches(store, package, m);
        }
      }
    }
  }

  /** Whether no compile of the run saves a mismatch. */
  ghost predicate NoMismatch(store: Store, rs: seq<(Source, Env)>, package: string)
    decreases |rs|
  {
    rs != [] ==>
      && !SavesMismatch(store, rs[0].0, rs[0].1, package)
      && NoMismatch(CompileStep(store, rs[0].0, rs[0].1).0, rs[1..], package)
  }

  /** Over a whole run: while no compile saves a mismatch, the next answer is a binary of its source. */
  lemma {:induction false} RunAnswersHonestly(store: Store, rs: seq<(Source, Env)>, package: string, n: nat)
    requires BinariesMatch(store, package) && Contiguous(store, package, n) && NoMismatch(store, rs, package)
    ensures BinariesMatch(RunCompiles(store, rs), package) && AnswersHonestly(RunCompiles(store, rs), package)
    decreases |rs|
  {
    if rs == [] {
      forall s: Source, env | s.manifest.ident.author == "anon" && s.manifest.ident.package == package
        ensures Honest(CompileStep(store, s, env).1, s)
      {
        MatchingBinariesAnswerHonestly(store, s, env);
      }
    } else {
      var (s, env) := rs[0];
      CompileKeepsBinariesMatchingIff(store, s, env, package, n);
      CompileKeepsContiguous(store, s, env, package, n);
      var next := if Allocates(store, s, env, package) then n + 1 else n;
      RunAnswersHonestly(CompileStep(store, s, env).0, rs[1..], package, next);
    }
  }

  /** Clean sources, none of which loses its own write while its binary can be loaded, are enough. */
  lemma {:induction false} CleanRunsHaveNoMismatch(store: Store, rs: seq<(Source, Env)>, package: string)
    requires AllCleanFor(rs, package)
    requires forall i :: 0 <= i < |rs| ==> rs[i].1.binaryFiles >= 2 ==> rs[i].1.sourceFiles >= 2
    ensures NoMismatch(store, rs, package)
    decreases |rs|
  {
    if rs != [] {
      assert forall i :: 0 <= i < |rs[1..]| ==> rs[1..][i] == rs[i + 1];
      CleanRunsHaveNoMismatch(CompileStep(store, rs[0].0, rs[0].1).0, rs[1..], package);
    }
  }

  /**
    One family of mismatches, with two failed writes, which are only logged: if one source's own write
    fails and its binary's succeeds, and the next source's goes the other way round, compiling that
    one again answers with the first one's binary.
  */
  lemma FailedWritesServeAnotherBinary(s: Source, t: Source)
    requires s.manifest.ident == t.manifest.ident
    requires s.manifest.ident.author == "anon" && s.manifest.ident.package != "anon"
    ensures var one := CompileStep(map[], s, Env(true, 0, 3)).0;
            var two := CompileStep(one, t, Env(true, 2, 0)).0;
            CompileStep(two, t, NO_FAILURE).1 == Some(Compiled(VersionName(1), Hash(s), Hash(s), true))
  {
    var package := s.manifest.ident.package;
    var ident := AnonIdent(package, 1);
    var one := CompileStep(map[], s, Env(true, 0, 3)).0;
    assert Search(map[], package, Hash(s), 1) == (1, false);
    assert NamedBinary(one, ident) == Some(Binary(Hash(s), BinarySpec(ident, Hash(s)))) && !Readable(At(one, ident));
    var two := CompileStep(one, t, Env(true, 2, 0)).0;
    assert Search(one, package, Hash(t), 1) == (1, false);
    assert NamedBinary(two, ident) == NamedBinary(one, ident) && Holds(two, package, 1, Hash(t));
    assert Search(two, package, Hash(t), 1) == (1, true);
  }

  /**
    The other, without any failure: after a source with Cargo dependencies has been saved, compiling
    the same code without them answers with the binary that was built with them.
  */
  lemma DependenciesServeAnotherBinary(s: Source, t: Source)
    requires s.manifest.ident.author == "anon" && s.manifest.ident.package != "anon"
    requires s.manifest.dependencies != map[] && PackagesDistinct(Configurations(s.manifest.capabilities))
    requires t == s.(manifest := s.manifest.(dependencies := map[]))
    ensures var store := CompileStep(map[], s, NO_FAILURE).0;
            && CompileStep(store, t, NO_FAILURE).1 == Some(Compiled(VersionName(1), Hash(s), Hash(s), true))
            && Hash(s) != Hash(t)
  {
    var package := s.manifest.ident.package;
    var store := CompileStep(map[], s, NO_FAILURE).0;
    assert Search(map[], package, Hash(s), 1) == (1, false);
    SavedSource(map[], s, NO_FAILURE, VersionName(1));
    RewrittenIff(t);
    assert Holds(store, package, 1, Hash(t));
    assert Search(store, package, Hash(t), 1) == (1, true);
  }

  // ---------------------------------------------------------------------------
  // Sources built by PlaybookSource::new
  // ---------------------------------------------------------------------------

  predicate KeyedByPackage(caps: map<string, Configured>) {
    forall k :: k in caps ==> caps[k].ident.package == k
  }

  lemma {:induction false} KeyedHasDistinctPackages(caps: map<string, Configured>)
    requires KeyedByPackage(caps)
    ensures PackagesDistinct(Configurations(caps))
    ensures forall c :: c in Configurations(caps) ==> c.ident.package in caps
    decreases |caps.Keys|
  {
    if caps != map[] {
      var k := LeastKey(caps.Keys);
      assert (caps - {k}).Keys == caps.Keys - {k};
      KeyedHasDistinctPackages(caps - {k});
      var rest := Configurations(caps - {k});
      assert forall i :: 0 <= i < |rest| ==> rest[i] in rest;
    }
  }

  /**
    The capability map of PlaybookSource::new: configurations first, then declared capabilities that
    have none. So a source built this way never repeats a package.
  */
  method NewCapabilities(configurations: seq<Configured>, declared: seq<CapabilityIdent>)
    returns (caps: map<string, Configured>)
    ensures KeyedByPackage(caps) && PackagesDistinct(Configurations(caps))
    ensures forall p :: p in caps <==>
                        || p in ByPackage(configurations)
                        || exists i :: 0 <= i < |declared| && declared[i].package == p
    ensures forall p :: p in ByPackage(configurations) ==> caps[p] == ByPackage(configurations)[p]
  {
    caps := map[];
    var i := 0;
    while i < |configurations|
      invariant i <= |configurations| && caps == ByPackage(configurations[..i]) && KeyedByPackage(caps)
    {
      assert configurations[..i + 1][..i] == configurations[..i];
      caps := caps[configurations[i].ident.package := configurations[i]];
      i := i + 1;
    }
    assert configurations[..i] == configurations;
    var j := 0;
    while j < |declared|
      invariant j <= |declared| && KeyedByPackage(caps)
      invariant forall p :: p in caps <==>
                            || p in ByPackage(configurations)
                            || exists i :: 0 <= i < j && declared[i].package == p
      invariant forall p :: p in ByPackage(configurations) ==> caps[p] == ByPackage(configurations)[p]
    {
      if declared[j].package !in caps {
        caps := caps[declared[j].package := Configured(declared[j], "")];
      }
      j := j + 1;
    }
    KeyedHasDistinctPackages(caps);
  }

  /** Of several entries of a package the last one is kept, configuration and all. */
  lemma {:induction false} ByPackageKeepsLast(cs: seq<Configured>, i: nat)
    requires i < |cs| && forall j :: i < j < |cs| ==> cs[j].ident.package != cs[i].ident.package
    ensures cs[i].ident.package in ByPackage(cs) && ByPackage(cs)[cs[i].ident.package] == cs[i]
  {
    var n := |cs| - 1;
    if i < n {
      assert cs[..n][i] == cs[i] && forall j :: i < j < n ==> cs[..n][j] == cs[j];
      ByPackageKeepsLast(cs[..n], i);
    }
  }

  lemma {:induction false} ConfigurationsMembers(caps: map<string, Configured>, c: Configured)
    ensures c in Configurations(caps) <==> exists k :: k in caps && caps[k] == c
    decreases |caps.Keys|
  {
    if caps != map[] {
      var l := LeastKey(caps.Keys);
      assert (caps - {l}).Keys == caps.Keys - {l};
      ConfigurationsMembers(caps - {l}, c);
      assert Configurations(caps) == [caps[l]] + Configurations(caps - {l});
      if k :| k in caps && caps[k] == c {
        assert k != l ==> k in caps - {l} && (caps - {l})[k] == c;
      }
    }
  }

  /** Keyed entries survive being listed and keyed again. */
  lemma KeyedAgain(caps: map<string, Configured>)
    requires KeyedByPackage(caps)
    ensures ByPackage(Configurations(caps)) == caps
  {
    var cs := Configurations(caps);
    KeyedHasDistinctPackages(caps);
    forall k | k in caps ensures k in ByPackage(cs) && ByPackage(cs)[k] == caps[k] {
      ConfigurationsMembers(caps, caps[k]);
      var i :| 0 <= i < |cs| && cs[i] == caps[k];
      ByPackageKeepsLast(cs, i);
    }
    forall k | k in ByPackage(cs) ensures k in caps {
      ByPackageKeys(cs, k);
    }
  }

  /**
    A source built by the constructor and saved without failure reads back as it was, with the version
    it was given and without its dependencies.
  */
  lemma SavedReadsBack(store: Store, s: Source, version: string)
    requires KeyedByPackage(s.manifest.capabilities)
    ensures var ident := s.manifest.ident.(version := version);
            NamedSource(BuildAndSave(store, s, NO_FAILURE, version).0, ident) ==
            Some(s.(manifest := s.manifest.(ident := ident, dependencies := map[])))
  {
    KeyedAgain(s.manifest.capabilities);
  }
}
