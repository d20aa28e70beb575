/**
  When every start ends: exactly if the interconnects have no cycle. A cycle none of whose playbooks
  runs is launched round and round under ever longer names.
*/
module PlaybookCycles {
  import opened Prelude
  import opened Playbooks
  import opened PlaybookFrames
  import opened PlaybookInvariants
  import opened PlaybookLaunches

  ghost predicate NeverFails(env: Env) {
    forall n, step :: env.io(n, step)
  }

  // ---------------------------------------------------------------------------
  // Rings
  // ---------------------------------------------------------------------------

  /** Going through the dependencies in order, one in the ring comes before any other that would be launched. */
  ghost predicate ReachesRing(s: State, deps: seq<(string, Ident)>, ring: set<Ident>) {
    exists k :: 0 <= k < |deps| && deps[k].1 in ring && forall j :: 0 <= j < k ==> Hosts(s, deps[j].1) != {}
  }

  /** The playbooks of the ring are stored, none of them runs, and each needs another one next. */
  ghost predicate IsRing(cat: Catalog, s: State, ring: set<Ident>) {
    forall i :: i in ring ==> i in cat && Hosts(s, i) == {} && ReachesRing(s, cat[i].interconnect, ring)
  }

  /** Neither the name nor any name built on it is taken. */
  ghost predicate Untaken(s: State, name: string) {
    forall n :: n in s.workers ==> !(name <= n)
  }

  lemma SameWorkersSameRing(cat: Catalog, s: State, s': State, ring: set<Ident>)
    requires IsRing(cat, s, ring) && s'.workers == s.workers
    ensures IsRing(cat, s', ring)
  {
    assert forall i :: Hosts(s', i) == Hosts(s, i);
    forall i | i in ring ensures ReachesRing(s', cat[i].interconnect, ring) {
      assert ReachesRing(s, cat[i].interconnect, ring);
    }
  }

  lemma RingIsIdle(cat: Catalog, s: State, ring: set<Ident>, i: Ident)
    requires IsRing(cat, s, ring) && i in ring
    ensures Hosts(s, i) == {}
  {
  }

  lemma UnderUntaken(s: State, main: string, ident: Ident)
    requires Untaken(s, main)
    ensures Untaken(s, SubName(main, ident))
  {
    SubNamesExtend(main, ident);
  }

  lemma RingIsPrepared(cat: Catalog, env: Env, s: State, name: string, ident: Ident, ring: set<Ident>)
    requires NeverFails(env) && IsRing(cat, s, ring) && Untaken(s, name) && ident in ring
    ensures var (ready, ok) := Prepared(cat, env, s, name, ident);
            && ok && ident in cat && IsRing(cat, ready, ring) && Untaken(ready, name)
            && ReachesRing(ready, cat[ident].interconnect, ring)
  {
    hide ReachesRing, Hosts;
    var ready := Prepared(cat, env, s, name, ident).0;
    PreparedFrames(cat, env, s, name, ident);
    SameWorkersSameRing(cat, s, ready, ring);
    assert name !in s.workers;
  }

  /** Whatever else its request says, starting a playbook of the ring never returns. */
  lemma {:induction false} RingDiverges(cat: Catalog, env: Env, fuel: nat, s: State, name: string, args: StartArgs,
                                        ring: set<Ident>)
    requires NeverFails(env) && IsRing(cat, s, ring) && Untaken(s, name) && args.playbook in ring
    ensures Start(cat, env, fuel, s, name, args).Diverges?
    decreases fuel, 0
  {
    if fuel > 0 {
      hide Build, IsRing, Untaken, Prepared;
      var ready := Prepared(cat, env, s, name, args.playbook).0;
      RingIsPrepared(cat, env, s, name, args.playbook, ring);
      BuildIntoRingDiverges(cat, env, fuel - 1, ready, name, cat[args.playbook].interconnect, ring);
    }
  }

  lemma {:induction false} BuildIntoRingDiverges(cat: Catalog, env: Env, fuel: nat, s: State, main: string,
                                                 deps: seq<(string, Ident)>, ring: set<Ident>)
    requires NeverFails(env) && IsRing(cat, s, ring) && Untaken(s, main) && ReachesRing(s, deps, ring)
    ensures Build(cat, env, fuel, s, main, deps).Diverges?
    decreases fuel, 2, |deps|
  {
    hide Start, IsRing, Untaken;
    var k :| 0 <= k < |deps| && deps[k].1 in ring && forall j :: 0 <= j < k ==> Hosts(s, deps[j].1) != {};
    var ident := deps[0].1;
    if k == 0 {
      UnderUntaken(s, main, ident);
      RingIsIdle(cat, s, ring, ident);
      RingDiverges(cat, env, fuel, s, SubName(main, ident), DefaultArgs(ident), ring);
    } else {
      var rest := deps[1..];
      assert Hosts(s, ident) != {};
      assert rest[k - 1] == deps[k] && forall j :: 0 <= j < k - 1 ==> rest[j] == deps[j + 1];
      BuildIntoRingDiverges(cat, env, fuel, s, main, rest, ring);
    }
  }

  // ---------------------------------------------------------------------------
  // A catalog without a rank has a ring
  // ---------------------------------------------------------------------------

  ghost predicate NeedsOneOf(cat: Catalog, i: Ident, ring: set<Ident>)
    requires i in cat
  {
    exists k :: 0 <= k < |cat[i].interconnect| && cat[i].interconnect[k].1 in ring
  }

  /** All that the playbook needs is ranked lower, or not stored. */
  ghost predicate NeedsLower(cat: Catalog, ranks: map<Ident, nat>, i: Ident, bound: nat)
    requires i in cat
  {
    forall k :: 0 <= k < |cat[i].interconnect| ==>
      var d := cat[i].interconnect[k].1;
      d in cat ==> d in ranks && ranks[d] < bound
  }

  ghost predicate Ranked(cat: Catalog, ranks: map<Ident, nat>) {
    forall i :: i in ranks ==> i in cat && 1 <= ranks[i] <= |ranks| && NeedsLower(cat, ranks, i, ranks[i])
  }

  lemma NothingLeftNeeded(cat: Catalog, left: set<Ident>, ranks: map<Ident, nat>, i: Ident)
    requires left + ranks.Keys == cat.Keys && i in cat && !NeedsOneOf(cat, i, left)
    requires Ranked(cat, ranks)
    ensures NeedsLower(cat, ranks, i, |ranks| + 1)
  {
    forall k | 0 <= k < |cat[i].interconnect| && cat[i].interconnect[k].1 in cat
      ensures cat[i].interconnect[k].1 in ranks
    {
      assert cat[i].interconnect[k].1 !in left;
    }
  }

  lemma RankOneMore(cat: Catalog, left: set<Ident>, ranks: map<Ident, nat>, i: Ident) returns (more: map<Ident, nat>)
    requires left !! ranks.Keys && left + ranks.Keys == cat.Keys && Ranked(cat, ranks)
    requires i in left && !NeedsOneOf(cat, i, left)
    ensures left - {i} !! more.Keys && left - {i} + more.Keys == cat.Keys && Ranked(cat, more)
  {
    NothingLeftNeeded(cat, left, ranks, i);
    more := ranks[i := |ranks| + 1];
    assert more.Keys == ranks.Keys + {i};
    assert |more| == |more.Keys| == |ranks| + 1;
    forall j | j in more ensures j in cat && 1 <= more[j] <= |more| && NeedsLower(cat, more, j, more[j]) {
      assert j != i ==> NeedsLower(cat, ranks, j, ranks[j]);
    }
  }

  /** Rank, one after the other, playbooks that need none of those left; what cannot be ranked is a ring. */
  lemma {:induction false} Peel(cat: Catalog, left: set<Ident>, ranks: map<Ident, nat>)
    returns (ring: set<Ident>, final: map<Ident, nat>)
    requires left !! ranks.Keys && left + ranks.Keys == cat.Keys && Ranked(cat, ranks)
    ensures ring <= cat.Keys && forall i :: i in ring ==> NeedsOneOf(cat, i, ring)
    ensures Ranked(cat, final) && final.Keys == cat.Keys - ring
    decreases |left|
  {
    hide Ranked, NeedsOneOf, NeedsLower;
    if i :| i in left && !NeedsOneOf(cat, i, left) {
      var more := RankOneMore(cat, left, ranks, i);
      ring, final := Peel(cat, left - {i}, more);
    } else {
      ring, final := left, ranks;
    }
  }

  lemma RanksAreRank(cat: Catalog, ranks: map<Ident, nat>) returns (rank: Ident -> nat)
    requires Ranked(cat, ranks) && ranks.Keys == cat.Keys
    ensures Acyclic(cat, rank)
  {
    rank := i => if i in ranks then ranks[i] else 0;
    forall i | i in cat ensures DependenciesBelow(cat[i].interconnect, rank, rank(i)) {
      assert NeedsLower(cat, ranks, i, ranks[i]);
    }
  }

  // ---------------------------------------------------------------------------
  // A state in which only the ring is left to launch
  // ---------------------------------------------------------------------------

  function Ticks(n: nat): string {
    seq(n, _ => 'x')
  }

  function TickNames(n: nat): set<string> {
    set k | 1 <= k <= n :: Ticks(k)
  }

  function StoredSpec(cat: Catalog, i: Ident): (spec: Spec)
    ensures spec.ident == i
  {
    if i in cat && cat[i].ident == i then cat[i] else Spec(i, [])
  }

  /** The k-th of these playbooks runs under a name of k letters. */
  function Hosting(cat: Catalog, idents: seq<Ident>): State {
    var names := set n | n in TickNames(|idents|) && 1 <= |n| <= |idents|;
    State(map n | n in names ::
            Worker(StoredSpec(cat, idents[|n| - 1]), Config(idents[|n| - 1], 4), map[], map[], None, None),
          map n | n in names :: Row(Running, Config(idents[|n| - 1], 4), None, None, None),
          map[])
  }

  /** These playbooks run and nothing else does; stored ones run as stored. */
  lemma HostingFacts(cat: Catalog, idents: seq<Ident>)
    ensures forall i :: Hosts(Hosting(cat, idents), i) == {} <==> i !in idents
    ensures Untaken(Hosting(cat, idents), "y")
    ensures CatalogValid(cat) && (forall i :: i in idents ==> i in cat) ==> Consistent(cat, Hosting(cat, idents))
  {
    var s := Hosting(cat, idents);
    forall i | i in idents ensures Hosts(s, i) != {} {
      var k :| 0 <= k < |idents| && idents[k] == i;
      assert |Ticks(k + 1)| == k + 1 && Ticks(k + 1) in Hosts(s, i);
    }
    forall n | n in s.workers ensures !("y" <= n) {
      var k :| 1 <= k <= |idents| && n == Ticks(k);
      assert n[0] == 'x';
    }
  }

  lemma {:induction false} Enumerate(idents: set<Ident>) returns (r: seq<Ident>)
    ensures forall i :: i in r <==> i in idents
    decreases |idents|
  {
    r := [];
    if i :| i in idents {
      r := Enumerate(idents - {i});
      r := r + [i];
    }
  }

  function NeededOutside(cat: Catalog, ring: set<Ident>): set<Ident>
    requires ring <= cat.Keys
  {
    set i, k | i in ring && 0 <= k < |cat[i].interconnect| && cat[i].interconnect[k].1 !in ring
        :: cat[i].interconnect[k].1
  }

  /** The first dependency in the ring, if all needed playbooks outside it run. */
  lemma {:induction false} FirstInRing(s: State, deps: seq<(string, Ident)>, ring: set<Ident>, k: nat)
    requires k < |deps| && deps[k].1 in ring
    requires forall j :: 0 <= j < k && deps[j].1 !in ring ==> Hosts(s, deps[j].1) != {}
    ensures ReachesRing(s, deps, ring)
  {
    if j :| 0 <= j < k && deps[j].1 in ring {
      FirstInRing(s, deps, ring, j);
    }
  }

  /** Every playbook that is needed is stored. */
  ghost predicate Complete(cat: Catalog) {
    forall i :: i in cat ==> forall k :: 0 <= k < |cat[i].interconnect| ==> cat[i].interconnect[k].1 in cat
  }

  /** With everything a ring needs from outside running, and nothing else, its playbooks are left to launch. */
  lemma RingWitness(cat: Catalog, ring: set<Ident>) returns (s: State)
    requires ring <= cat.Keys && forall i :: i in ring ==> NeedsOneOf(cat, i, ring)
    ensures IsRing(cat, s, ring) && Untaken(s, "y")
    ensures CatalogValid(cat) && Complete(cat) ==> Consistent(cat, s)
  {
    hide Hosting, Hosts, Untaken, Consistent;
    var outside := Enumerate(NeededOutside(cat, ring));
    s := Hosting(cat, outside);
    HostingFacts(cat, outside);
    forall i | i in ring ensures ReachesRing(s, cat[i].interconnect, ring) {
      var deps := cat[i].interconnect;
      var k :| 0 <= k < |deps| && deps[k].1 in ring;
      forall j | 0 <= j < k && deps[j].1 !in ring ensures Hosts(s, deps[j].1) != {} {
        assert deps[j].1 in NeededOutside(cat, ring);
      }
      FirstInRing(s, deps, ring, k);
    }
  }

  // ---------------------------------------------------------------------------
  // The exact condition
  // ---------------------------------------------------------------------------

  ghost predicate Ends(cat: Catalog, env: Env, s: State, name: string, args: StartArgs) {
    exists fuel: nat :: Start(cat, env, fuel, s, name, args).Finished?
  }

  /**
    Every start returns, in every state and whatever fails on the way, exactly if the interconnects
    have no cycle.
  */
  lemma EveryStartEndsIff(cat: Catalog)
    ensures (forall env, s, name, args :: Ends(cat, env, s, name, args)) <==> (exists rank :: Acyclic(cat, rank))
  {
    hide Ends, Acyclic;
    if rank: Ident -> nat :| Acyclic(cat, rank) {
      AcyclicEnds(cat, rank);
    } else {
      var env, s, i := CyclicNeverEnds(cat);
    }
  }

  /** The same from the states a daemon can be in, if all playbooks that are needed are stored. */
  lemma EveryConsistentStartEndsIff(cat: Catalog)
    requires CatalogValid(cat) && Complete(cat)
    ensures (forall env, s, name, args :: Consistent(cat, s) ==> Ends(cat, env, s, name, args)) <==>
            (exists rank :: Acyclic(cat, rank))
  {
    hide Ends, Acyclic, Consistent, Complete;
    if rank: Ident -> nat :| Acyclic(cat, rank) {
      AcyclicEnds(cat, rank);
    } else {
      var env, s, i := CyclicNeverEnds(cat);
    }
  }

  lemma AcyclicEnds(cat: Catalog, rank: Ident -> nat)
    requires Acyclic(cat, rank)
    ensures forall env, s, name, args :: Ends(cat, env, s, name, args)
  {
    hide Start, Acyclic;
    forall env, s, name, args ensures Ends(cat, env, s, name, args) {
      StartTerminates(cat, env, rank(args.playbook) + 1, s, name, args, rank);
    }
  }

  lemma CyclicNeverEnds(cat: Catalog) returns (env: Env, s: State, i: Ident)
    requires forall rank :: !Acyclic(cat, rank)
    ensures !Ends(cat, env, s, "y", DefaultArgs(i))
    ensures CatalogValid(cat) && Complete(cat) ==> Consistent(cat, s)
  {
    hide Start, IsRing, NeedsOneOf, Untaken, Consistent, Acyclic, Complete;
    var ring, ranks := Peel(cat, cat.Keys, map[]);
    if ring == {} {
      var rank := RanksAreRank(cat, ranks);
      assert false;
    }
    i :| i in ring;
    s := RingWitness(cat, ring);
    env := Env((_, _) => true, _ => "");
    forall fuel: nat ensures Start(cat, env, fuel, s, "y", DefaultArgs(i)).Diverges? {
      RingDiverges(cat, env, fuel, s, "y", DefaultArgs(i), ring);
    }
  }
}
