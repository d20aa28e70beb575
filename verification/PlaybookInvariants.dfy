/**
  What every serialised run of the manager keeps, and what starts and resumes keep besides.
*/
module PlaybookInvariants {
  import opened Prelude
  import opened Playbooks
  import opened PlaybookFrames

  // ---------------------------------------------------------------------------
  // Every worker has a running row
  // ---------------------------------------------------------------------------

  ghost predicate Recorded(cat: Catalog, s: State, n: string)
    requires n in s.workers
  {
    var w := s.workers[n];
    && w.config.playbook in cat && w.spec == cat[w.config.playbook]
    && n in s.rows
    && s.rows[n].status == Running && s.rows[n].config == w.config && s.rows[n].socket == w.socket
  }

  /** Every running worker has a row that says so and can bring it back. */
  ghost predicate Consistent(cat: Catalog, s: State) {
    forall n :: n in s.workers ==> Recorded(cat, s, n)
  }

  lemma FramesKeepRecorded(cat: Catalog, s: State, s': State, stem: string, n: string)
    requires Frames(s, s', stem) && n in s.workers && Recorded(cat, s, n)
    ensures n in s'.workers && Recorded(cat, s', n)
  {
    assert RowKept(s, s', n);
  }

  lemma {:induction false} StartKeepsConsistent(cat: Catalog, env: Env, fuel: nat, s: State, name: string,
                                                args: StartArgs)
    requires Start(cat, env, fuel, s, name, args).Finished? && Consistent(cat, s)
    ensures var o := Start(cat, env, fuel, s, name, args);
            && Consistent(cat, o.state)
            && (o.value.Some? ==>
                  && args.playbook in cat && name in o.state.workers
                  && o.state.workers[name].spec == cat[args.playbook]
                  && o.state.workers[name].config.playbook == args.playbook)
    decreases fuel, 0
  {
    var (ready, ok) := Prepared(cat, env, s, name, args.playbook);
    PreparedFrames(cat, env, s, name, args.playbook);
    forall n | n in ready.workers ensures Recorded(cat, ready, n) {
      FramesKeepRecorded(cat, s, ready, name, n);
    }
    if ok {
      var spec := cat[args.playbook];
      BuildKeepsConsistent(cat, env, fuel - 1, ready, name, spec.interconnect);
      BuildFrames(cat, env, fuel - 1, ready, name, spec.interconnect);
      var built := Build(cat, env, fuel - 1, ready, name, spec.interconnect).state;
      var o := Start(cat, env, fuel, s, name, args);
      if o.value.Some? {
        forall n | n in o.state.workers ensures Recorded(cat, o.state, n) {
          if n != name {
            assert n in built.workers && Recorded(cat, built, n);
          }
        }
      }
    }
  }

  lemma {:induction false} BuildKeepsConsistent(cat: Catalog, env: Env, fuel: nat, s: State, main: string,
                                                deps: seq<(string, Ident)>)
    requires Build(cat, env, fuel, s, main, deps).Finished? && Consistent(cat, s)
    ensures Consistent(cat, Build(cat, env, fuel, s, main, deps).state)
    decreases fuel, 2, |deps|
  {
    if deps != [] {
      var ident := deps[0].1;
      if Hosts(s, ident) == {} {
        StartKeepsConsistent(cat, env, fuel, s, SubName(main, ident), DefaultArgs(ident));
      }
      var first := FindOrLaunch(cat, env, fuel, s, main, ident);
      if first.value.Some? {
        BuildKeepsConsistent(cat, env, fuel, first.state, main, deps[1..]);
      }
    }
  }

  lemma ResumeKeepsConsistent(cat: Catalog, env: Env, fuel: nat, s: State, name: string)
    requires Resume(cat, env, fuel, s, name).Finished? && Consistent(cat, s)
    ensures Consistent(cat, Resume(cat, env, fuel, s, name).state)
  {
    var o := Resume(cat, env, fuel, s, name);
    ResumeFrames(cat, env, fuel, s, name);
    if name !in s.workers && name in s.rows && s.rows[name].config.playbook in cat {
      var spec := cat[s.rows[name].config.playbook];
      var outcome := Build(cat, env, fuel, s, name, spec.interconnect);
      if outcome.Finished? {
        BuildKeepsConsistent(cat, env, fuel, s, name, spec.interconnect);
        BuildFrames(cat, env, fuel, s, name, spec.interconnect);
        var built := outcome.state;
        assert !Under(name + "_", name);
        assert RowKept(s, built, name);
        forall n | n in o.state.workers ensures Recorded(cat, o.state, n) {
          if n != name {
            assert n in built.workers && Recorded(cat, built, n);
          }
        }
      }
    }
  }

  /** Stop and delete remove the worker before its row; the other requests leave both in place. */
  lemma StopKeepsConsistent(cat: Catalog, env: Env, s: State, name: string)
    requires Consistent(cat, s)
    ensures Consistent(cat, Stop(env, s, name).0) && Consistent(cat, Delete(env, s, name).0)
  {
    var stopped, deleted := Stop(env, s, name).0, Delete(env, s, name).0;
    forall n | n in stopped.workers ensures Recorded(cat, stopped, n) { assert Recorded(cat, s, n); }
    forall n | n in deleted.workers ensures Recorded(cat, deleted, n) { assert Recorded(cat, s, n); }
  }

  lemma SetHttpKeepsConsistent(cat: Catalog, env: Env, s: State, name: string, addr: Option<string>)
    requires Consistent(cat, s)
    ensures Consistent(cat, SetHttp(env, s, name, addr).0)
  {
    var s' := SetHttp(env, s, name, addr).0;
    forall n | n in s'.workers ensures Recorded(cat, s', n) { assert n in s.workers && Recorded(cat, s, n); }
  }

  lemma CallbacksKeepConsistent(cat: Catalog, env: Env, s: State, id: Uuid, source: string, cb: Callback)
    requires Consistent(cat, s)
    ensures Consistent(cat, AddCallback(env, s, id, source, cb).0)
    ensures Consistent(cat, DeleteCallback(env, s, id).0)
  {
    var added, deleted := AddCallback(env, s, id, source, cb).0, DeleteCallback(env, s, id).0;
    forall n | n in added.workers ensures Recorded(cat, added, n) { assert n in s.workers && Recorded(cat, s, n); }
    forall n | n in deleted.workers ensures Recorded(cat, deleted, n) { assert n in s.workers && Recorded(cat, s, n); }
  }

  lemma HandleKeepsConsistent(cat: Catalog, env: Env, fuel: nat, s: State, r: Request)
    requires Handle(cat, env, fuel, s, r).Some? && Consistent(cat, s)
    ensures Consistent(cat, Handle(cat, env, fuel, s, r).value)
  {
    hide Start, Resume, Stop, Delete, SetHttp, AddCallback, DeleteCallback, Consistent;
    match r {
      case StartRequest(name, args) => StartKeepsConsistent(cat, env, fuel, s, name, args);
      case ResumeRequest(name) => ResumeKeepsConsistent(cat, env, fuel, s, name);
      case StopRequest(name) => StopKeepsConsistent(cat, env, s, name);
      case DeleteRequest(name) => StopKeepsConsistent(cat, env, s, name);
      case SetHttpRequest(name, addr) => SetHttpKeepsConsistent(cat, env, s, name, addr);
      case AddCallbackRequest(id, source, cb) => CallbacksKeepConsistent(cat, env, s, id, source, cb);
      case DeleteCallbackRequest(id) => CallbacksKeepConsistent(cat, env, s, id, "", Callback(Http, ""));
    }
  }

  /** Over any run, from any tables: every name in `workers` has a row with status running. */
  lemma {:induction false} RunKeepsConsistent(cat: Catalog, fuel: nat, s: State, rs: seq<(Env, Request)>)
    requires Run(cat, fuel, s, rs).Some? && Consistent(cat, s)
    ensures Consistent(cat, Run(cat, fuel, s, rs).value)
    decreases |rs|
  {
    if rs != [] {
      HandleKeepsConsistent(cat, rs[0].0, fuel, s, rs[0].1);
      RunKeepsConsistent(cat, fuel, Handle(cat, rs[0].0, fuel, s, rs[0].1).value, rs[1..]);
    }
  }

  // ---------------------------------------------------------------------------
  // Dependency closure
  // ---------------------------------------------------------------------------

  ghost predicate DependenciesRunning(s: State, deps: seq<(string, Ident)>) {
    forall i :: 0 <= i < |deps| ==> Hosts(s, deps[i].1) != {}
  }

  /** Every running worker's interconnect idents are all running. */
  ghost predicate Closed(s: State) {
    forall n :: n in s.workers ==> DependenciesRunning(s, s.workers[n].spec.interconnect)
  }

  lemma HostsPersist(s: State, s': State, ident: Ident)
    requires forall n :: n in s.workers ==> n in s'.workers && s'.workers[n] == s.workers[n]
    ensures Hosts(s, ident) <= Hosts(s', ident)
  {
  }

  lemma DependenciesPersist(s: State, s': State, deps: seq<(string, Ident)>)
    requires forall n :: n in s.workers ==> n in s'.workers && s'.workers[n] == s.workers[n]
    requires DependenciesRunning(s, deps)
    ensures DependenciesRunning(s', deps)
  {
    forall i | 0 <= i < |deps| ensures Hosts(s', deps[i].1) != {} {
      HostsPersist(s, s', deps[i].1);
    }
  }

  /** Adding a worker whose own dependencies run keeps the closure. */
  lemma InsertKeepsClosed(s: State, s': State, name: string)
    requires Closed(s) && name !in s.workers
    requires name in s'.workers && s'.workers == s.workers[name := s'.workers[name]]
    requires DependenciesRunning(s, s'.workers[name].spec.interconnect)
    ensures Closed(s')
  {
    forall n | n in s'.workers ensures DependenciesRunning(s', s'.workers[n].spec.interconnect) {
      if n != name { assert DependenciesRunning(s, s.workers[n].spec.interconnect); }
      DependenciesPersist(s, s', s'.workers[n].spec.interconnect);
    }
  }

  lemma SameWorkersClosed(s: State, s': State)
    requires Closed(s) && s'.workers == s.workers
    ensures Closed(s')
  {
    forall n | n in s'.workers ensures DependenciesRunning(s', s'.workers[n].spec.interconnect) {
      DependenciesPersist(s, s', s'.workers[n].spec.interconnect);
    }
  }

  /** Successful or failed, a start with all its launches keeps the closure. */
  lemma {:induction false} StartKeepsClosed(cat: Catalog, env: Env, fuel: nat, s: State, name: string, args: StartArgs)
    requires CatalogValid(cat) && Start(cat, env, fuel, s, name, args).Finished? && Closed(s)
    ensures var o := Start(cat, env, fuel, s, name, args);
            && Closed(o.state)
            && (o.value.Some? ==>
                  && args.playbook in cat && name in o.state.workers
                  && o.state.workers[name].spec == cat[args.playbook]
                  && Hosts(o.state, args.playbook) != {})
    decreases fuel, 0
  {
    var (ready, ok) := Prepared(cat, env, s, name, args.playbook);
    PreparedFrames(cat, env, s, name, args.playbook);
    SameWorkersClosed(s, ready);
    if ok {
      var spec := cat[args.playbook];
      BuildKeepsClosed(cat, env, fuel - 1, ready, name, spec.interconnect);
      BuildFrames(cat, env, fuel - 1, ready, name, spec.interconnect);
      var built := Build(cat, env, fuel - 1, ready, name, spec.interconnect).state;
      var o := Start(cat, env, fuel, s, name, args);
      if o.value.Some? {
        InsertKeepsClosed(built, o.state, name);
        assert name in Hosts(o.state, args.playbook);
      }
    }
  }

  lemma {:induction false} BuildKeepsClosed(cat: Catalog, env: Env, fuel: nat, s: State, main: string,
                                            deps: seq<(string, Ident)>)
    requires CatalogValid(cat) && Build(cat, env, fuel, s, main, deps).Finished? && Closed(s)
    ensures var o := Build(cat, env, fuel, s, main, deps);
            Closed(o.state) && (o.value.Some? ==> DependenciesRunning(o.state, deps))
    decreases fuel, 2, |deps|
  {
    if deps != [] {
      var ident := deps[0].1;
      if Hosts(s, ident) == {} {
        StartKeepsClosed(cat, env, fuel, s, SubName(main, ident), DefaultArgs(ident));
      }
      var first := FindOrLaunch(cat, env, fuel, s, main, ident);
      if first.value.Some? {
        BuildKeepsClosed(cat, env, fuel, first.state, main, deps[1..]);
        BuildFrames(cat, env, fuel, first.state, main, deps[1..]);
        var o := Build(cat, env, fuel, s, main, deps);
        if o.value.Some? {
          HostsPersist(first.state, o.state, ident);
          forall i | 0 <= i < |deps| ensures Hosts(o.state, deps[i].1) != {} {
            if i > 0 { assert deps[i] == deps[1..][i - 1]; }
          }
        }
      }
    }
  }

  lemma ResumeKeepsClosed(cat: Catalog, env: Env, fuel: nat, s: State, name: string)
    requires CatalogValid(cat) && Resume(cat, env, fuel, s, name).Finished? && Closed(s)
    ensures Closed(Resume(cat, env, fuel, s, name).state)
  {
    var o := Resume(cat, env, fuel, s, name);
    if name !in s.workers && name in s.rows && s.rows[name].config.playbook in cat {
      var spec := cat[s.rows[name].config.playbook];
      var outcome := Build(cat, env, fuel, s, name, spec.interconnect);
      if outcome.Finished? {
        BuildKeepsClosed(cat, env, fuel, s, name, spec.interconnect);
        BuildFrames(cat, env, fuel, s, name, spec.interconnect);
        if o.value.Some? {
          InsertKeepsClosed(outcome.state, o.state, name);
        } else if env.io(name, ReadRow) && env.io(name, LoadBinary) {
          SameWorkersClosed(outcome.state, o.state);
        }
      }
    }
  }

  function LocalNames(deps: seq<(string, Ident)>): set<string> {
    set i | 0 <= i < |deps| :: deps[i].0
  }

  predicate DistinctNames(deps: seq<(string, Ident)>) {
    forall i, j :: 0 <= i < j < |deps| ==> deps[i].0 != deps[j].0
  }

  ghost predicate Bound(servers: map<string, Server>, s: State, key: string, ident: Ident) {
    key in servers && servers[key].ident == ident && servers[key].owner in Hosts(s, ident)
  }

  /** The names bound by a successful build are the spec's, each to a running server of its ident. */
  lemma {:induction false} BuildBindsEveryDependency(cat: Catalog, env: Env, fuel: nat, s: State, main: string,
                                                     deps: seq<(string, Ident)>)
    requires CatalogValid(cat) && DistinctNames(deps)
    requires var o := Build(cat, env, fuel, s, main, deps); o.Finished? && o.value.Some?
    ensures var o := Build(cat, env, fuel, s, main, deps);
            && o.value.value.Keys == LocalNames(deps)
            && (forall i :: 0 <= i < |deps| ==> Bound(o.value.value, o.state, deps[i].0, deps[i].1))
    decreases |deps|
  {
    if deps != [] {
      var (key, ident) := deps[0];
      var first := FindOrLaunch(cat, env, fuel, s, main, ident);
      FoundServerMatches(cat, env, fuel, s, main, ident);
      BuildBindsEveryDependency(cat, env, fuel, first.state, main, deps[1..]);
      BuildFrames(cat, env, fuel, first.state, main, deps[1..]);
      var tail := Build(cat, env, fuel, first.state, main, deps[1..]);
      HostsPersist(first.state, tail.state, ident);
      BindOne(tail.value.value, tail.state, deps, first.value.value);
    }
  }

  lemma BindOne(rest: map<string, Server>, s: State, deps: seq<(string, Ident)>, server: Server)
    requires deps != [] && DistinctNames(deps)
    requires rest.Keys == LocalNames(deps[1..])
    requires forall i :: 0 <= i < |deps[1..]| ==> Bound(rest, s, deps[1..][i].0, deps[1..][i].1)
    requires server.ident == deps[0].1 && server.owner in Hosts(s, deps[0].1)
    ensures var servers := map[deps[0].0 := server] + rest;
            && servers.Keys == LocalNames(deps)
            && (forall i :: 0 <= i < |deps| ==> Bound(servers, s, deps[i].0, deps[i].1))
  {
    var servers := map[deps[0].0 := server] + rest;
    forall i | 0 <= i < |deps|
      ensures Bound(servers, s, deps[i].0, deps[i].1)
    {
      if i > 0 {
        assert deps[1..][i - 1] == deps[i];
        assert Bound(rest, s, deps[i].0, deps[i].1);
      } else {
        forall j | 0 <= j < |deps[1..]| ensures deps[1..][j].0 != deps[0].0 {
          assert deps[1..][j] == deps[j + 1];
        }
        assert deps[0].0 !in rest;
      }
    }
    forall k | k in servers
      ensures k in LocalNames(deps)
    {
      if k in rest {
        var j :| 0 <= j < |deps[1..]| && deps[1..][j].0 == k;
        assert deps[j + 1].0 == k;
      } else {
        assert deps[0].0 == k;
      }
    }
  }

  lemma FoundServerMatches(cat: Catalog, env: Env, fuel: nat, s: State, main: string, ident: Ident)
    requires CatalogValid(cat)
    requires var o := FindOrLaunch(cat, env, fuel, s, main, ident); o.Finished? && o.value.Some?
    ensures var o := FindOrLaunch(cat, env, fuel, s, main, ident);
            o.value.value.ident == ident && o.value.value.owner in Hosts(o.state, ident)
  {
    if Hosts(s, ident) == {} {
      StartedRunsIts(cat, env, fuel, s, SubName(main, ident), DefaultArgs(ident));
    }
  }

  lemma StartedRunsIts(cat: Catalog, env: Env, fuel: nat, s: State, name: string, args: StartArgs)
    requires var o := Start(cat, env, fuel, s, name, args); o.Finished? && o.value.Some?
    ensures var o := Start(cat, env, fuel, s, name, args);
            args.playbook in cat && name in o.state.workers && o.state.workers[name].spec == cat[args.playbook]
  {
  }

  /**
    What a successful start leaves: a worker for the playbook asked for, bound to a running server of
    each expected ident, and a row holding everything needed to bring it back.
  */
  lemma StartedAsAsked(cat: Catalog, env: Env, fuel: nat, s: State, name: string, args: StartArgs)
    requires CatalogValid(cat)
    requires var o := Start(cat, env, fuel, s, name, args); o.Finished? && o.value.Some?
    requires args.playbook in cat ==> DistinctNames(cat[args.playbook].interconnect)
    ensures var s' := Start(cat, env, fuel, s, name, args).state;
            && args.playbook in cat && name in s'.workers && name in s'.rows
            && var (w, row, deps) := (s'.workers[name], s'.rows[name], cat[args.playbook].interconnect);
               && w.spec == cat[args.playbook] && w.config.playbook == args.playbook
               && w.config.numWorkers == (if args.numWorkers.Some? then args.numWorkers.value else 4)
               && w.socket == args.socket && w.http == args.http
               && row == Row(Running, w.config, args.socket, args.pinned, args.http)
               && w.servers.Keys == LocalNames(deps)
               && forall i :: 0 <= i < |deps| ==> Bound(w.servers, s', deps[i].0, deps[i].1)
  {
    var ready := Prepared(cat, env, s, name, args.playbook).0;
    var deps := cat[args.playbook].interconnect;
    var built := Build(cat, env, fuel - 1, ready, name, deps);
    var s' := Start(cat, env, fuel, s, name, args).state;
    StartedInserts(cat, env, fuel, s, name, args);
    BuildBindsEveryDependency(cat, env, fuel - 1, ready, name, deps);
    forall i | 0 <= i < |deps| ensures Bound(built.value.value, s', deps[i].0, deps[i].1) {
      assert Bound(built.value.value, built.state, deps[i].0, deps[i].1);
      HostsPersist(built.state, s', deps[i].1);
    }
  }

  /** A successful start adds one worker and its row to what building the interconnect left. */
  lemma StartedInserts(cat: Catalog, env: Env, fuel: nat, s: State, name: string, args: StartArgs)
    requires var o := Start(cat, env, fuel, s, name, args); o.Finished? && o.value.Some?
    ensures args.playbook in cat && fuel > 0
    ensures var spec := cat[args.playbook];
            var config := Config(args.playbook, args.numWorkers.GetOr(4));
            var ready := Prepared(cat, env, s, name, args.playbook).0;
            var built := Build(cat, env, fuel - 1, ready, name, spec.interconnect);
            && built.Finished? && built.value.Some? && name !in built.state.workers
            && var worker := NewWorker(env, built.state, name, spec, config, built.value.value, args.socket, args.http);
               Start(cat, env, fuel, s, name, args).state
               == built.state.(rows := built.state.rows[name := Row(Running, config, args.socket, args.pinned,
                                                                    args.http)],
                               workers := built.state.workers[name := worker])
  {
    PreparedFrames(cat, env, s, name, args.playbook);
    var ready := Prepared(cat, env, s, name, args.playbook).0;
    BuildFrames(cat, env, fuel - 1, ready, name, cat[args.playbook].interconnect);
  }

  /** A successful resume adds one worker to what building the interconnect left, and says that it runs. */
  lemma ResumedInserts(cat: Catalog, env: Env, fuel: nat, s: State, name: string)
    requires var o := Resume(cat, env, fuel, s, name); o.Finished? && o.value.Some?
    ensures name in s.rows && s.rows[name].config.playbook in cat
    ensures var (row, spec) := (s.rows[name], cat[s.rows[name].config.playbook]);
            var built := Build(cat, env, fuel, s, name, spec.interconnect);
            && built.Finished? && built.value.Some? && name !in built.state.workers
            && name in built.state.rows && built.state.rows[name] == row
            && var servers := built.value.value;
               var worker := NewWorker(env, built.state, name, spec, row.config, servers, row.socket, row.http);
               Resume(cat, env, fuel, s, name).state
               == built.state.(rows := built.state.rows[name := row.(status := Running)],
                               workers := built.state.workers[name := worker])
  {
    var deps := cat[s.rows[name].config.playbook].interconnect;
    BuildFrames(cat, env, fuel, s, name, deps);
    var built := Build(cat, env, fuel, s, name, deps).state;
    assert !(name + "_" <= name) && RowKept(s, built, name);
  }

  /**
    What a successful resume leaves: the worker the row describes, bound to a running server of each
    expected ident, and the row as it was but for saying that it runs.
  */
  lemma ResumedAsRecorded(cat: Catalog, env: Env, fuel: nat, s: State, name: string)
    requires CatalogValid(cat)
    requires var o := Resume(cat, env, fuel, s, name); o.Finished? && o.value.Some?
    requires name in s.rows && s.rows[name].config.playbook in cat ==>
               DistinctNames(cat[s.rows[name].config.playbook].interconnect)
    ensures var s' := Resume(cat, env, fuel, s, name).state;
            && name in s.rows && s.rows[name].config.playbook in cat && name in s'.workers && name in s'.rows
            && var (w, row) := (s'.workers[name], s.rows[name]);
               var deps := cat[row.config.playbook].interconnect;
               && w.spec == cat[row.config.playbook] && w.config == row.config
               && w.socket == row.socket && w.http == row.http
               && s'.rows[name] == row.(status := Running)
               && w.servers.Keys == LocalNames(deps)
               && forall i :: 0 <= i < |deps| ==> Bound(w.servers, s', deps[i].0, deps[i].1)
  {
    hide Resume, Build;
    ResumedInserts(cat, env, fuel, s, name);
    var deps := cat[s.rows[name].config.playbook].interconnect;
    var built := Build(cat, env, fuel, s, name, deps);
    var s' := Resume(cat, env, fuel, s, name).state;
    BuildBindsEveryDependency(cat, env, fuel, s, name, deps);
    forall i | 0 <= i < |deps| ensures Bound(built.value.value, s', deps[i].0, deps[i].1) {
      assert Bound(built.value.value, built.state, deps[i].0, deps[i].1);
      HostsPersist(built.state, s', deps[i].1);
    }
  }

  /**
    A start succeeds only if each of its own steps did: a free name, a known one cleared, directories,
    a stored and valid playbook, the worker, each listener asked for, and the row.
  */
  lemma StartNeedsItsSteps(cat: Catalog, env: Env, fuel: nat, s: State, name: string, args: StartArgs)
    requires var o := Start(cat, env, fuel, s, name, args); o.Finished? && o.value.Some?
    ensures name !in s.workers && args.playbook in cat
    ensures env.io(name, ReadRow) && (name in s.rows ==> env.io(name, DeleteRow) && env.io(name, RemoveDirectory))
    ensures env.io(name, PrepareDirectories) && env.io(name, LoadBinary) && env.io(name, ValidateConfigurations)
    ensures env.io(name, SpawnWorker)
    ensures (args.socket.Some? ==> env.io(name, BindSocket)) && (args.http.Some? ==> env.io(name, BindHttp))
    ensures env.io(name, SaveRow)
  {
  }

  /** A resume likewise: a recorded, idle name, a stored playbook, the worker, its listeners, and the status. */
  lemma ResumeNeedsItsSteps(cat: Catalog, env: Env, fuel: nat, s: State, name: string)
    requires var o := Resume(cat, env, fuel, s, name); o.Finished? && o.value.Some?
    ensures name !in s.workers && name in s.rows && s.rows[name].config.playbook in cat
    ensures env.io(name, ReadRow) && env.io(name, LoadBinary) && env.io(name, SpawnWorker)
    ensures s.rows[name].socket.Some? ==> env.io(name, BindSocket)
    ensures s.rows[name].http.Some? ==> env.io(name, BindHttp)
    ensures env.io(name, UpdateStatus)
  {
  }

  ghost predicate OthersKept(s: State, s': State, name: string) {
    forall n :: n in s.workers && n != name ==> n in s'.workers && s'.workers[n].spec == s.workers[n].spec
  }

  /** What a request that succeeds leaves behind, seen in the state alone. */
  ghost predicate WorkDone(env: Env, s: State, s': State, r: Request) {
    match r
    case StartRequest(name, args) => OthersKept(s, s', name)
    case ResumeRequest(name) => OthersKept(s, s', name)
    case StopRequest(name) =>
      && name !in s'.workers && OthersKept(s, s', name)
      && (env.io(name, UpdateStatus) && name in s.workers && name in s.rows ==>
            name in s'.rows && s'.rows[name].status == Stopped)
    case DeleteRequest(name) =>
      && name !in s'.workers && OthersKept(s, s', name)
      && (env.io(name, DeleteRow) ==> name !in s'.rows)
    case SetHttpRequest(name, addr) =>
      && s'.workers.Keys == s.workers.Keys && OthersKept(s, s', name)
      && (name in s.workers && (addr.Some? ==> env.io(name, BindHttp)) ==> s'.workers[name].http == addr)
    case AddCallbackRequest(id, source, cb) =>
      && s'.workers.Keys == s.workers.Keys && OthersKept(s, s', source)
      && (id !in s.callbacks && env.io(source, InsertCallback(id)) ==>
            id in s'.callbacks && s'.callbacks[id] == CallbackRow(source, cb))
    case DeleteCallbackRequest(id) =>
      && s'.workers.Keys == s.workers.Keys
      && (env.io("", DeleteCallbackRow(id)) ==>
            id !in s'.callbacks && forall n :: n in s'.workers ==> id !in s'.workers[n].callbacks)
  }

  /** Each request of a run does its own work, and none stops another playbook's worker. */
  lemma RequestsDoTheirWork(cat: Catalog, env: Env, fuel: nat, s: State, r: Request)
    requires Handle(cat, env, fuel, s, r).Some?
    ensures WorkDone(env, s, Handle(cat, env, fuel, s, r).value, r)
  {
    hide Start, Resume, Stop, Delete, SetHttp, AddCallback, DeleteCallback;
    match r {
      case StartRequest(name, args) => StartFrames(cat, env, fuel, s, name, args);
      case ResumeRequest(name) => ResumeFrames(cat, env, fuel, s, name);
      case StopRequest(name) => StopWork(env, s, name);
      case DeleteRequest(name) => DeleteWork(env, s, name);
      case SetHttpRequest(name, addr) => SetHttpWork(env, s, name, addr);
      case AddCallbackRequest(id, source, cb) => AddCallbackWork(env, s, id, source, cb);
      case DeleteCallbackRequest(id) => DeleteCallbackWork(env, s, id);
    }
  }

  lemma StopWork(env: Env, s: State, name: string)
    ensures WorkDone(env, s, Stop(env, s, name).0, StopRequest(name))
  {
  }

  lemma DeleteWork(env: Env, s: State, name: string)
    ensures WorkDone(env, s, Delete(env, s, name).0, DeleteRequest(name))
  {
  }

  lemma SetHttpWork(env: Env, s: State, name: string, addr: Option<string>)
    ensures WorkDone(env, s, SetHttp(env, s, name, addr).0, SetHttpRequest(name, addr))
  {
  }

  lemma AddCallbackWork(env: Env, s: State, id: Uuid, source: string, cb: Callback)
    ensures WorkDone(env, s, AddCallback(env, s, id, source, cb).0, AddCallbackRequest(id, source, cb))
  {
  }

  lemma DeleteCallbackWork(env: Env, s: State, id: Uuid)
    ensures WorkDone(env, s, DeleteCallback(env, s, id).0, DeleteCallbackRequest(id))
  {
  }

  /** A start or resume that succeeds by itself also does so as a request. */
  lemma LaunchRequestsLaunch(cat: Catalog, env: Env, fuel: nat, s: State, name: string, args: StartArgs)
    ensures var o := Start(cat, env, fuel, s, name, args);
            o.Finished? && o.value.Some? ==>
              var next := Handle(cat, env, fuel, s, StartRequest(name, args));
              && next.Some? && name in next.value.workers
              && args.playbook in cat && next.value.workers[name].spec == cat[args.playbook]
    ensures var o := Resume(cat, env, fuel, s, name);
            o.Finished? && o.value.Some? ==>
              var next := Handle(cat, env, fuel, s, ResumeRequest(name));
              && next.Some? && name in next.value.workers
              && name in s.rows && next.value.workers[name].config == s.rows[name].config
  {
    hide Start, Resume;
    var o, p := Start(cat, env, fuel, s, name, args), Resume(cat, env, fuel, s, name);
    if o.Finished? && o.value.Some? {
      StartedInserts(cat, env, fuel, s, name, args);
    }
    if p.Finished? && p.value.Some? {
      ResumedInserts(cat, env, fuel, s, name);
    }
  }

  /** Launched for another playbook: no listeners, no pinned version, four workers. */
  ghost predicate PlainlyLaunched(s: State, n: string)
    requires n in s.workers
  {
    && s.workers[n].socket == None && s.workers[n].http == None && s.workers[n].config.numWorkers == 4
    && n in s.rows && s.rows[n].pinned == None
  }

  /** Everything a start launches besides its own playbook is launched plainly. */
  lemma {:induction false} OthersPlainlyLaunched(cat: Catalog, env: Env, fuel: nat, s: State, name: string,
                                                 args: StartArgs)
    requires Start(cat, env, fuel, s, name, args).Finished?
    ensures var s' := Start(cat, env, fuel, s, name, args).state;
            forall n :: n in s'.workers && n !in s.workers && n != name ==> PlainlyLaunched(s', n)
    decreases fuel, 0
  {
    var (ready, ok) := Prepared(cat, env, s, name, args.playbook);
    PreparedFrames(cat, env, s, name, args.playbook);
    if ok {
      var deps := cat[args.playbook].interconnect;
      DependenciesPlainlyLaunched(cat, env, fuel - 1, ready, name, deps);
      var built := Build(cat, env, fuel - 1, ready, name, deps).state;
      if Start(cat, env, fuel, s, name, args).value.Some? {
        StartedInserts(cat, env, fuel, s, name, args);
      }
      var s' := Start(cat, env, fuel, s, name, args).state;
      forall n | n in s'.workers && n !in s.workers && n != name ensures PlainlyLaunched(s', n) {
        assert PlainlyLaunched(built, n);
      }
    }
  }

  lemma {:induction false} DependenciesPlainlyLaunched(cat: Catalog, env: Env, fuel: nat, s: State, main: string,
                                                       deps: seq<(string, Ident)>)
    requires Build(cat, env, fuel, s, main, deps).Finished?
    ensures var s' := Build(cat, env, fuel, s, main, deps).state;
            forall n :: n in s'.workers && n !in s.workers ==> PlainlyLaunched(s', n)
    decreases fuel, 2, |deps|
  {
    if deps != [] {
      var d := deps[0].1;
      var (sub, args) := (SubName(main, d), DefaultArgs(d));
      var first := FindOrLaunch(cat, env, fuel, s, main, d);
      if Hosts(s, d) == {} {
        OthersPlainlyLaunched(cat, env, fuel, s, sub, args);
        StartFrames(cat, env, fuel, s, sub, args);
        var o := Start(cat, env, fuel, s, sub, args);
        if o.value.Some? {
          StartedInserts(cat, env, fuel, s, sub, args);
        } else if sub !in s.workers {
          FailureLeavesNoWorker(cat, env, fuel, s, sub, args);
        }
      }
      assert forall n :: n in first.state.workers && n !in s.workers ==> PlainlyLaunched(first.state, n);
      if first.value.Some? {
        DependenciesPlainlyLaunched(cat, env, fuel, first.state, main, deps[1..]);
        BuildFrames(cat, env, fuel, first.state, main, deps[1..]);
        var last := Build(cat, env, fuel, first.state, main, deps[1..]).state;
        forall n | n in first.state.workers && n !in s.workers ensures PlainlyLaunched(last, n) {
          assert RowKept(first.state, last, n);
        }
      }
    }
  }

  /** A failed start or resume leaves no worker under its name. */
  lemma FailureLeavesNoWorker(cat: Catalog, env: Env, fuel: nat, s: State, name: string, args: StartArgs)
    requires name !in s.workers
    ensures var o := Start(cat, env, fuel, s, name, args); o.Finished? && o.value.None? ==> name !in o.state.workers
    ensures var o := Resume(cat, env, fuel, s, name); o.Finished? && o.value.None? ==> name !in o.state.workers
  {
    var (ready, ok) := Prepared(cat, env, s, name, args.playbook);
    PreparedFrames(cat, env, s, name, args.playbook);
    if fuel > 0 && ok {
      var deps := cat[args.playbook].interconnect;
      if Build(cat, env, fuel - 1, ready, name, deps).Finished? {
        BuildFrames(cat, env, fuel - 1, ready, name, deps);
      }
    }
    if Resume(cat, env, fuel, s, name).Finished? {
      ResumeFrames(cat, env, fuel, s, name);
    }
  }

  /** Worker and row agree on the HTTP address afterwards unless an I/O step failed on a real change. */
  lemma HttpAgreesIff(env: Env, s: State, name: string, addr: Option<string>)
    requires name in s.workers && name in s.rows && s.workers[name].http == s.rows[name].http
    ensures var (s', ok) := SetHttp(env, s, name, addr);
            && name in s'.workers && name in s'.rows
            && (ok <==> (addr.Some? ==> env.io(name, BindHttp)) && env.io(name, UpdateHttp))
            && (ok ==> s'.workers[name].http == addr && s'.rows[name].http == addr)
            && (s'.workers[name].http == s'.rows[name].http <==>
                || ok
                || s.rows[name].http == (if addr.Some? && !env.io(name, BindHttp) then None else addr))
            && s'.workers == s.workers[name := s.workers[name].(http := s'.workers[name].http)]
            && s'.rows == s.rows[name := s.rows[name].(http := s'.rows[name].http)]
            && s'.callbacks == s.callbacks
  {
  }

  /** Stopping parks the playbook: its worker goes and its row keeps everything but the status. */
  lemma StopParks(cat: Catalog, env: Env, s: State, name: string)
    requires Consistent(cat, s)
    ensures var (s', stopped) := Stop(env, s, name);
            && s'.workers == s.workers - {name} && s'.callbacks == s.callbacks
            && s'.rows.Keys == s.rows.Keys && (forall n :: n in s.rows && n != name ==> s'.rows[n] == s.rows[n])
            && (stopped == Some(false) <==> name !in s.workers)
            && (name in s.workers ==>
                  && name in s.rows
                  && s'.rows[name] == s.rows[name].(status := if stopped == Some(true) then Stopped else Running))
  {
    if name in s.workers {
      assert Recorded(cat, s, name);
    }
  }

  /**
    Deleting removes the playbook and nothing else; its callback rows go exactly if that one statement
    succeeds.
  */
  lemma DeleteErases(env: Env, s: State, name: string)
    ensures var (s', ok) := Delete(env, s, name);
            && s'.workers == s.workers - {name}
            && s'.rows == (if env.io(name, DeleteRow) then s.rows - {name} else s.rows) && (ok ==> name !in s'.rows)
            && (forall u :: u in s.callbacks && s.callbacks[u].source != name ==> u in s'.callbacks)
            && (forall u :: u in s'.callbacks ==> u in s.callbacks && s'.callbacks[u] == s.callbacks[u])
            && ((exists u :: u in s'.callbacks && s'.callbacks[u].source == name) <==>
                (exists u :: u in s.callbacks && s.callbacks[u].source == name) && !env.io(name, DeleteCallbackRows))
  {
    if env.io(name, DeleteCallbackRows) {
      assert forall u :: u in Delete(env, s, name).0.callbacks ==> s.callbacks[u].source != name;
    } else {
      assert Delete(env, s, name).0.callbacks == s.callbacks;
    }
  }
}
