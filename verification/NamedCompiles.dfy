/**
  Compiling under a name of one's own: the version is the one asked for, and a cached binary answers
  only for the content it was built from.
*/
module NamedCompiles {
  import opened Prelude
  import opened Decimal
  import opened AnonVersions
  import opened AnonAllocation

  /** A source of an author with a name, for a package that may be built. */
  predicate Named(s: Source) {
    s.manifest.ident.author != "anon" && s.manifest.ident.package != "anon"
  }

  /** If a binary is stored at the ident, its code is what its spec says. */
  predicate CodeMatches(store: Store, ident: ModuleIdent) {
    var binary := NamedBinary(store, ident);
    binary.Some? ==> binary.value.wasm == binary.value.spec.hash
  }

  // ---------------------------------------------------------------------------
  // One compile
  // ---------------------------------------------------------------------------

  /**
    On any store and whatever fails: an answer is for the content asked for, with code to match if the
    stored code matches its spec; it comes from the cache exactly if the binary stored there has this
    hash, and fails exactly if it does not and the build does.
  */
  lemma NamedAnswer(store: Store, s: Source, env: Env)
    requires Named(s)
    ensures var (store', r) := CompileStep(store, s, env);
            var binary := NamedBinary(store, s.manifest.ident);
            var hit := binary.Some? && binary.value.spec.hash == Hash(s);
            && (r.Some? <==> hit || env.builds)
            && (r.Some? ==> r.value.hash == Hash(s) && (r.value.cached <==> hit))
            && (r.Some? && CodeMatches(store, s.manifest.ident) ==> r.value.wasm == Hash(s))
            && (r.Some? && BinariesNamed(store) ==> r.value.version == s.manifest.ident.version)
            && (hit || !env.builds ==> store' == store)
  {
  }

  /** A compile without failure makes the next one of the same content a hit, for the version asked for. */
  lemma NamedCompileTwice(store: Store, s: Source, t: Source, env: Env)
    requires Named(s) && t.manifest.ident == s.manifest.ident && Hash(t) == Hash(s)
    requires BinariesNamed(store) && CodeMatches(store, s.manifest.ident)
    ensures var (store', r) := CompileStep(store, s, NO_FAILURE);
            && r.Some? && r.value.version == s.manifest.ident.version
            && CompileStep(store', t, env) ==
               (store', Some(Compiled(s.manifest.ident.version, Hash(s), Hash(s), true)))
  {
    NamedAnswer(store, s, NO_FAILURE);
    AfterCompile(store, s, NO_FAILURE);
  }

  /** The binary that loads after a compile of the named source. */
  lemma AfterCompile(store: Store, s: Source, env: Env)
    requires Named(s)
    ensures var (store', r) := CompileStep(store, s, env);
            var (before, after) := (NamedBinary(store, s.manifest.ident), NamedBinary(store', s.manifest.ident));
            && (r.Some? && !r.value.cached && env.binaryFiles >= 2 ==>
                  after == Some(Binary(Hash(s), BinarySpec(s.manifest.ident, Hash(s)))))
            && (r.None? || r.value.cached ==> after == before)
  {
    var ident := s.manifest.ident;
    assert ident.(version := ident.version) == ident;
    if env.builds {
      SavedBinary(store, s, env, ident.version);
    }
  }

  /** A package called "anon" is refused, whoever asks. */
  lemma AnonPackageRefused(store: Store, s: Source, env: Env)
    requires s.manifest.ident.package == "anon"
    ensures CompileStep(store, s, env) == (store, None)
  {
  }

  // ---------------------------------------------------------------------------
  // Code and spec of a binary
  // ---------------------------------------------------------------------------

  /** The directory a compile may write to. */
  function Target(store: Store, s: Source): ModuleIdent {
    if s.manifest.ident.author == "anon"
    then AnonIdent(s.manifest.ident.package, Search(store, s.manifest.ident.package, Hash(s), 1).0)
    else s.manifest.ident
  }

  /** The compile builds, and the code is replaced but not the spec, which is of other content. */
  predicate SplitsBinary(store: Store, s: Source, env: Env) {
    var (_, r) := CompileStep(store, s, env);
    && r.Some? && !r.value.cached && env.binaryFiles == 1
    && var before := NamedBinary(store, Target(store, s));
       before.Some? && before.value.spec.hash != Hash(s)
  }

  /**
    Exactly when a compile, of any source, leaves every binary with the code its spec names: it does not
    stop writing a binary between code and spec where another's spec is already there.
  */
  lemma CompileKeepsCodeMatchingIff(store: Store, s: Source, env: Env)
    requires forall ident :: CodeMatches(store, ident)
    ensures (forall ident :: CodeMatches(CompileStep(store, s, env).0, ident)) <==> !SplitsBinary(store, s, env)
  {
    var (store', r) := CompileStep(store, s, env);
    var target := Target(store, s);
    forall ident | ident != target ensures CodeMatches(store', ident) {
      OthersKept(store, s, env, ident);
      assert CodeMatches(store, ident);
    }
    assert CodeMatches(store, target);
    TargetCode(store, s, env);
  }

  lemma OthersKept(store: Store, s: Source, env: Env, ident: ModuleIdent)
    requires ident != Target(store, s)
    ensures At(CompileStep(store, s, env).0, ident) == At(store, ident)
  {
    if s.manifest.ident.package != "anon" {
      SaveTouchesOne(store, s, env, Target(store, s).version, ident);
    }
  }

  lemma TargetCode(store: Store, s: Source, env: Env)
    requires CodeMatches(store, Target(store, s))
    ensures CodeMatches(CompileStep(store, s, env).0, Target(store, s)) <==> !SplitsBinary(store, s, env)
  {
    hide Search, Hash;
    var (store', r) := CompileStep(store, s, env);
    var target := Target(store, s);
    if r.Some? && !r.value.cached {
      assert target == s.manifest.ident.(version := target.version);
      SavedFiles(store, s, env, target.version);
    } else {
      assert store' == store;
    }
  }

  lemma SavedFiles(store: Store, s: Source, env: Env, version: string)
    requires env.builds
    ensures var ident := s.manifest.ident.(version := version);
            var d := At(BuildAndSave(store, s, env, version).0, ident);
            && d.modWasm == (if env.binaryFiles >= 1 then Some(Hash(s)) else At(store, ident).modWasm)
            && d.specJson == if env.binaryFiles >= 2 then Some(BinarySpec(ident, Hash(s)))
                             else At(store, ident).specJson
  {
  }

  // ---------------------------------------------------------------------------
  // Runs
  // ---------------------------------------------------------------------------

  /** No compile of the run builds other content under this ident. */
  ghost predicate LeavesAlone(rs: seq<(Source, Env)>, ident: ModuleIdent, hash: Digest) {
    forall i :: 0 <= i < |rs| ==> rs[i].0.manifest.ident == ident ==> Hash(rs[i].0) == hash
  }

  ghost predicate Holding(store: Store, ident: ModuleIdent, hash: Digest) {
    NamedBinary(store, ident) == Some(Binary(hash, BinarySpec(ident, hash)))
  }

  lemma {:induction false} RunKeepsHolding(store: Store, rs: seq<(Source, Env)>, ident: ModuleIdent, hash: Digest)
    requires ident.author != "anon" && Holding(store, ident, hash) && LeavesAlone(rs, ident, hash)
    ensures Holding(RunCompiles(store, rs), ident, hash)
    decreases |rs|
  {
    if rs != [] {
      var (t, env) := rs[0];
      if ident == Target(store, t) {
        assert t.manifest.ident == ident && Hash(t) == hash;
        assert CompileStep(store, t, env).0 == store;
      } else {
        OthersKept(store, t, env, ident);
      }
      assert forall i :: 0 <= i < |rs[1..]| ==> rs[1..][i] == rs[i + 1];
      RunKeepsHolding(CompileStep(store, t, env).0, rs[1..], ident, hash);
    }
  }

  /**
    Over whole runs: once a named source has been compiled without failure, every later compile of the
    same content under its ident is a hit, until other content is compiled under that ident.
  */
  lemma NamedHitLasts(store: Store, s: Source, between: seq<(Source, Env)>, t: Source, env: Env)
    requires Named(s) && t.manifest.ident == s.manifest.ident && Hash(t) == Hash(s)
    requires BinariesNamed(store) && CodeMatches(store, s.manifest.ident)
    requires LeavesAlone(between, s.manifest.ident, Hash(s))
    ensures var later := RunCompiles(CompileStep(store, s, NO_FAILURE).0, between);
            CompileStep(later, t, env) ==
            (later, Some(Compiled(s.manifest.ident.version, Hash(s), Hash(s), true)))
  {
    var store' := CompileStep(store, s, NO_FAILURE).0;
    NamedAnswer(store, s, NO_FAILURE);
    AfterCompile(store, s, NO_FAILURE);
    assert Holding(store', s.manifest.ident, Hash(s));
    RunKeepsHolding(store', between, s.manifest.ident, Hash(s));
  }

  // ---------------------------------------------------------------------------
  // What is compared, and how versions are written
  // ---------------------------------------------------------------------------

  /**
    Two sources are the same content exactly if code, dependencies and interconnect are the same, and
    every capability occurs equally often, whatever it is filed under and however it is configured.
  */
  lemma SameContentIff(s: Source, t: Source)
    ensures Hash(s) == Hash(t) <==>
            && s.code == t.code
            && s.manifest.dependencies == t.manifest.dependencies
            && s.manifest.interconnect == t.manifest.interconnect
            && forall c :: |Entries(s, c)| == |Entries(t, c)|
  {
    var (ms, mt) := (Idents(Configurations(s.manifest.capabilities)), Idents(Configurations(t.manifest.capabilities)));
    forall c ensures ms[c] == |Entries(s, c)| && mt[c] == |Entries(t, c)| {
      EntriesCounted(s.manifest.capabilities, c);
      EntriesCounted(t.manifest.capabilities, c);
    }
    if forall c :: |Entries(s, c)| == |Entries(t, c)| {
      forall c ensures ms[c] == mt[c] {
        assert |Entries(s, c)| == |Entries(t, c)|;
      }
      assert ms == mt;
    }
  }

  /** The keys under which a capability is entered. */
  function Entries(s: Source, c: CapabilityIdent): set<string> {
    KeysOf(s.manifest.capabilities, c)
  }

  function KeysOf(caps: map<string, Configured>, c: CapabilityIdent): set<string> {
    set k | k in caps && caps[k].ident == c
  }

  lemma {:induction false} EntriesCounted(caps: map<string, Configured>, c: CapabilityIdent)
    ensures Idents(Configurations(caps))[c] == |KeysOf(caps, c)|
    decreases |caps.Keys|
  {
    hide Idents, Configurations, KeysOf;
    if caps == map[] {
      NoEntries(c);
    } else {
      var k := LeastKey(caps.Keys);
      assert (caps - {k}).Keys == caps.Keys - {k};
      LeastFirst(caps, k);
      EntriesCounted(caps - {k}, c);
      OneEntryLess(caps, k, c);
    }
  }

  lemma OneEntryLess(caps: map<string, Configured>, k: string, c: CapabilityIdent)
    requires k in caps
    ensures |KeysOf(caps, c)| == |KeysOf(caps - {k}, c)| + if caps[k].ident == c then 1 else 0
  {
    var fewer := KeysOf(caps - {k}, c);
    assert KeysOf(caps, c) == if caps[k].ident == c then fewer + {k} else fewer;
  }

  lemma NoEntries(c: CapabilityIdent)
    ensures Idents(Configurations(map[])) == multiset{} && KeysOf(map[], c) == {}
  {
  }

  /** The n-th version is "0.n.0", under the author "anon". */
  lemma AnonVersionSpelled(package: string, n: nat)
    ensures var ident := AnonIdent(package, n);
            && ident.author == "anon" && ident.package == package
            && exists numeral :: ident.version == "0." + numeral + ".0" &&
                                 (forall c :: c in numeral ==> IsDigit(c)) && ReadDecimal(numeral) == n
  {
    NumeralReadsBack(n);
    assert AnonIdent(package, n).version == "0." + Numeral(n) + ".0";
  }
}
