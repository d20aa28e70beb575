/**
  Version allocation for anonymous playbooks (lib/pyro-artifacts/src/build.rs) over the module
  directories of the cache (cache.rs) and the content hash (artifacts.rs).

  The SHA-256 digest is taken to be injective on what is fed to it. The capability idents are sorted
  before hashing, so they enter as a multiset.
*/
module AnonVersions {
  import opened Prelude
  import opened Decimal

  datatype CapabilityIdent = CapabilityIdent(author: string, package: string, version: string)

  datatype Configured = Configured(ident: CapabilityIdent, configuration: string)

  datatype ModuleIdent = ModuleIdent(author: string, package: string, version: string)

  datatype Manifest = Manifest(
    ident: ModuleIdent,
    capabilities: map<string, Configured>,
    dependencies: map<string, string>,
    interconnect: map<string, ModuleIdent>
  )

  datatype Source = Source(manifest: Manifest, code: string)

  datatype Digest = Digest(
    code: string,
    dependencies: map<string, string>,
    capabilities: multiset<CapabilityIdent>,
    interconnect: map<string, ModuleIdent>
  )

  datatype BinarySpec = BinarySpec(ident: ModuleIdent, hash: Digest)

  /** The module code, known by the hash of what it was built from, and its spec. */
  datatype Binary = Binary(wasm: Digest, spec: BinarySpec)

  /** The files of a module directory. */
  datatype Files = Files(
    moduleToml: Option<Manifest>,
    sourceRs: Option<string>,
    modWasm: Option<Digest>,
    specJson: Option<BinarySpec>
  )

  /** A source is written with its manifest first, and a binary with its code first. */
  type Directory = d: Files | (d.sourceRs.Some? ==> d.moduleToml.Some?) && (d.specJson.Some? ==> d.modWasm.Some?)
    witness Files(None, None, None, None)

  const EMPTY_DIRECTORY: Directory := Files(None, None, None, None)

  type Store = map<ModuleIdent, Directory>

  // ---------------------------------------------------------------------------
  // Hashing
  // ---------------------------------------------------------------------------

  /** The capability entries in key order. */
  function Configurations(caps: map<string, Configured>): seq<Configured>
    decreases |caps.Keys|
  {
    if caps == map[] then []
    else
      var k := LeastKey(caps.Keys);
      assert (caps - {k}).Keys == caps.Keys - {k};
      [caps[k]] + Configurations(caps - {k})
  }

  function Idents(cs: seq<Configured>): multiset<CapabilityIdent> {
    if cs == [] then multiset{} else Idents(cs[..|cs| - 1]) + multiset{cs[|cs| - 1].ident}
  }

  /** PlaybookSource::hash */
  function Hash(s: Source): Digest {
    Digest(s.code, s.manifest.dependencies, Idents(Configurations(s.manifest.capabilities)), s.manifest.interconnect)
  }

  /** The map a list of configurations is written as: one entry per package, the last one winning. */
  function ByPackage(cs: seq<Configured>): map<string, Configured> {
    if cs == [] then map[] else ByPackage(cs[..|cs| - 1])[cs[|cs| - 1].ident.package := cs[|cs| - 1]]
  }

  predicate PackagesDistinct(cs: seq<Configured>) {
    forall i, j :: 0 <= i < j < |cs| ==> cs[i].ident.package != cs[j].ident.package
  }

  // ---------------------------------------------------------------------------
  // The store
  // ---------------------------------------------------------------------------

  function At(store: Store, ident: ModuleIdent): Directory {
    if ident in store then store[ident] else EMPTY_DIRECTORY
  }

  predicate Readable(d: Directory) {
    d.sourceRs.Some?
  }

  /** get_named_source, which overwrites the ident it finds in the file. */
  function NamedSource(store: Store, ident: ModuleIdent): Option<Source> {
    var d := At(store, ident);
    if Readable(d) then Some(Source(d.moduleToml.value.(ident := ident), d.sourceRs.value)) else None
  }

  /** get_named_binary */
  function NamedBinary(store: Store, ident: ModuleIdent): Option<Binary> {
    var d := At(store, ident);
    if d.specJson.Some? then Some(Binary(d.modWasm.value, d.specJson.value)) else None
  }

  /** write_artifacts of a source, at the ident in its manifest, up to the first file that fails. */
  function WithSource(store: Store, s: Source, files: nat): Store {
    var d := At(store, s.manifest.ident);
    store[s.manifest.ident :=
      d.(moduleToml := if files >= 1 then Some(s.manifest) else d.moduleToml,
         sourceRs := if files >= 2 then Some(s.code) else d.sourceRs)]
  }

  /** write_artifacts of a binary, likewise: last, it rewrites Module.toml with no dependencies. */
  function WithBinary(store: Store, spec: BinarySpec, cs: seq<Configured>, interconnect: map<string, ModuleIdent>,
                      files: nat): Store
  {
    var d := At(store, spec.ident);
    var manifest := Manifest(spec.ident, ByPackage(cs), map[], interconnect);
    store[spec.ident :=
      d.(modWasm := if files >= 1 then Some(spec.hash) else d.modWasm,
         specJson := if files >= 2 then Some(spec) else d.specJson,
         moduleToml := if files >= 3 then Some(manifest) else d.moduleToml)]
  }

  // ---------------------------------------------------------------------------
  // Compilation
  // ---------------------------------------------------------------------------

  /** `format!("0.{}.0", version_num)` */
  function VersionName(n: nat): string {
    "0." + Numeral(n) + ".0"
  }

  function AnonIdent(package: string, n: nat): ModuleIdent {
    ModuleIdent("anon", package, VersionName(n))
  }

  lemma VersionNamesDiffer(m: nat, n: nat)
    requires VersionName(m) == VersionName(n)
    ensures m == n
  {
    var a, b := VersionName(m), VersionName(n);
    assert |Numeral(m)| == |Numeral(n)|;
    assert Numeral(m) == a[2..2 + |Numeral(m)|] && Numeral(n) == b[2..2 + |Numeral(n)|];
    NumeralInjective(m, n);
  }

  /** The idents of versions 1 to n. */
  function UpTo(package: string, n: nat): set<ModuleIdent> {
    if n == 0 then {} else UpTo(package, n - 1) + {AnonIdent(package, n)}
  }

  lemma {:induction false} UpToMember(package: string, n: nat, m: nat)
    ensures AnonIdent(package, m) in UpTo(package, n) <==> 1 <= m <= n
  {
    if n > 0 {
      UpToMember(package, n - 1, m);
      if AnonIdent(package, m) == AnonIdent(package, n) {
        VersionNamesDiffer(m, n);
      }
    }
  }

  lemma {:induction false} UpToSize(package: string, n: nat)
    ensures |UpTo(package, n)| == n
  {
    if n > 0 {
      UpToSize(package, n - 1);
      UpToMember(package, n - 1, n);
    }
  }

  lemma {:induction false} UpToWithin(store: Store, package: string, n: nat)
    requires forall i :: 1 <= i <= n ==> Readable(At(store, AnonIdent(package, i)))
    ensures UpTo(package, n) <= store.Keys
  {
    if n > 0 {
      UpToWithin(store, package, n - 1);
    }
  }

  /** A store can only hold so many versions, which is why the search ends. */
  lemma VersionsFit(store: Store, package: string, n: nat)
    requires forall i :: 1 <= i <= n ==> Readable(At(store, AnonIdent(package, i)))
    ensures n <= |store.Keys|
  {
    UpToSize(package, n);
    UpToWithin(store, package, n);
    SubsetSmaller(UpTo(package, n), store.Keys);
  }

  lemma {:induction false} SubsetSmaller<T>(a: set<T>, b: set<T>)
    requires a <= b
    ensures |a| <= |b|
  {
    if a != {} {
      var x :| x in a;
      SubsetSmaller(a - {x}, b - {x});
    }
  }

  /** Version n holds a source with this hash. */
  predicate Holds(store: Store, package: string, n: nat, hash: Digest) {
    var s := NamedSource(store, AnonIdent(package, n));
    s.Some? && Hash(s.value) == hash
  }

  /** The search loop, from `n` on: the version to use and whether it holds the source already. */
  function Search(store: Store, package: string, hash: Digest, n: nat): (nat, bool)
    requires n >= 1
    requires forall i :: 1 <= i < n ==> Readable(At(store, AnonIdent(package, i)))
    decreases |store.Keys| + 1 - n
  {
    VersionsFit(store, package, n - 1);
    if !Readable(At(store, AnonIdent(package, n))) then (n, false)
    else if Holds(store, package, n, hash) then (n, true)
    else
      VersionsFit(store, package, n);
      Search(store, package, hash, n + 1)
  }

  /**
    What can go wrong: the build itself, and the two writes, whose failures are only logged. A source
    has two files and a binary three; a write stops at the first that fails.
  */
  datatype Env = Env(builds: bool, sourceFiles: nat, binaryFiles: nat)

  const NO_FAILURE := Env(true, 2, 3)

  /** The binary handed back, and whether it came from the cache. */
  datatype Compiled = Compiled(version: string, hash: Digest, wasm: Digest, cached: bool)

  function Cached(binary: Binary): Compiled {
    Compiled(binary.spec.ident.version, binary.spec.hash, binary.wasm, true)
  }

  /** The end of compile: build in a slot and save source and binary under the resolved version. */
  function BuildAndSave(store: Store, s: Source, env: Env, version: string): (Store, Option<Compiled>) {
    if !env.builds then (store, None)
    else
      var ident := s.manifest.ident.(version := version);
      var updated := s.(manifest := s.manifest.(ident := ident));
      var withSource := WithSource(store, updated, env.sourceFiles);
      var withBinary := WithBinary(withSource, BinarySpec(ident, Hash(s)), Configurations(s.manifest.capabilities),
                                   s.manifest.interconnect, env.binaryFiles);
      (withBinary, Some(Compiled(version, Hash(s), Hash(s), false)))
  }

  /** Builder::compile */
  function CompileStep(store: Store, s: Source, env: Env): (Store, Option<Compiled>) {
    var ident := s.manifest.ident;
    if ident.package == "anon" then (store, None)
    else if ident.author == "anon" then
      var (n, found) := Search(store, ident.package, Hash(s), 1);
      var binary := NamedBinary(store, AnonIdent(ident.package, n));
      if found && binary.Some? then (store, Some(Cached(binary.value)))
      else BuildAndSave(store, s, env, VersionName(n))
    else
      var binary := NamedBinary(store, ident);
      if binary.Some? && binary.value.spec.hash == Hash(s) then (store, Some(Cached(binary.value)))
      else BuildAndSave(store, s, env, ident.version)
  }

  /** The cache and builder as objects: directories are written in place. */
  class Cache {
    var directories: Store

    constructor ()
      ensures directories == map[]
    {
      directories := map[];
    }

    /** PlaybookSource::write_to_directory */
    method WriteSource(s: Source, files: nat)
      modifies this
      ensures directories == WithSource(old(directories), s, files)
    {
      var ident := s.manifest.ident;
      directories := directories[ident := At(directories, ident)];
      if files < 1 {
        return;
      }
      directories := directories[ident := directories[ident].(moduleToml := Some(s.manifest))];
      if files < 2 {
        return;
      }
      directories := directories[ident := directories[ident].(sourceRs := Some(s.code))];
    }

    /** PlaybookBinary::write_to_directory, with its loop over the configurations. */
    method WriteBinary(spec: BinarySpec, cs: seq<Configured>, interconnect: map<string, ModuleIdent>, files: nat)
      modifies this
      ensures directories == WithBinary(old(directories), spec, cs, interconnect, files)
    {
      var ident := spec.ident;
      directories := directories[ident := At(directories, ident)];
      if files < 1 {
        return;
      }
      directories := directories[ident := directories[ident].(modWasm := Some(spec.hash))];
      if files < 2 {
        return;
      }
      directories := directories[ident := directories[ident].(specJson := Some(spec))];
      var caps: map<string, Configured> := map[];
      var i := 0;
      while i < |cs|
        invariant i <= |cs| && caps == ByPackage(cs[..i])
      {
        assert cs[..i + 1][..i] == cs[..i];
        caps := caps[cs[i].ident.package := cs[i]];
        i := i + 1;
      }
      assert cs[..i] == cs;
      if files < 3 {
        return;
      }
      var manifest := Manifest(ident, caps, map[], interconnect);
      directories := directories[ident := directories[ident].(moduleToml := Some(manifest))];
    }

    /** Builder::compile, with its search loop. */
    method Compile(s: Source, env: Env) returns (r: Option<Compiled>)
      modifies this
      ensures (directories, r) == CompileStep(old(directories), s, env)
    {
      var hash, ident := Hash(s), s.manifest.ident;
      if ident.package == "anon" {
        return None;
      }
      var version := ident.version;
      if ident.author == "anon" {
        var n, found := SearchVersions(ident.package, hash);
        version := VersionName(n);
        if found {
          var binary := NamedBinary(directories, AnonIdent(ident.package, n));
          if binary.Some? {
            return Some(Cached(binary.value));
          }
        }
      } else {
        var binary := NamedBinary(directories, ident);
        if binary.Some? && binary.value.spec.hash == hash {
          return Some(Cached(binary.value));
        }
      }
      if !env.builds {
        return None;
      }
      var resolved := ident.(version := version);
      WriteSource(s.(manifest := s.manifest.(ident := resolved)), env.sourceFiles);
      WriteBinary(BinarySpec(resolved, hash), Configurations(s.manifest.capabilities), s.manifest.interconnect,
                  env.binaryFiles);
      r := Some(Compiled(version, hash, hash, false));
    }

    method SearchVersions(package: string, hash: Digest) returns (n: nat, found: bool)
      ensures (n, found) == Search(directories, package, hash, 1)
    {
      n := 1;
      while true
        invariant n >= 1
        invariant forall i :: 1 <= i < n ==> Readable(At(directories, AnonIdent(package, i)))
        invariant Search(directories, package, hash, 1) == Search(directories, package, hash, n)
        decreases |directories.Keys| + 1 - n
      {
        VersionsFit(directories, package, n - 1);
        var existing := NamedSource(directories, AnonIdent(package, n));
        if existing.None? {
          return n, false;
        }
        if Hash(existing.value) == hash {
          return n, true;
        }
        VersionsFit(directories, package, n);
        n := n + 1;
      }
    }
  }
}
