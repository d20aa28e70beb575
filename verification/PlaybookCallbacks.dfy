/** Callbacks: the ones a running worker holds against the rows of its source. */
module PlaybookCallbacks {
  import opened Prelude
  import opened Playbooks
  import opened PlaybookFrames
  import opened PlaybookInvariants

  /**
    The worker's HTTP and playbook callbacks are exactly the rows of its source; its socket callbacks
    are among them (a socket target that cannot be reached has a row but no callback).
  */
  ghost predicate Mirrors(s: State, n: string)
    requires n in s.workers
  {
    var held := s.workers[n].callbacks;
    && (forall u :: u in held ==> u in s.callbacks && s.callbacks[u] == CallbackRow(n, held[u]))
    && (forall u :: u in s.callbacks && s.callbacks[u].source == n && s.callbacks[u].callback.kind != Socket ==>
          u in held)
  }

  ghost predicate Synced(s: State) {
    forall n :: n in s.workers ==> Mirrors(s, n)
  }

  /** register_callbacks_from_db gets to read the table. */
  ghost predicate ReadsCallbacks(env: Env) {
    forall n :: env.io(n, ReadCallbacks)
  }

  lemma FramesKeepMirrors(s: State, s': State, stem: string, n: string)
    requires Frames(s, s', stem) && n in s.workers && Mirrors(s, n)
    ensures n in s'.workers && Mirrors(s', n)
  {
    var held := s.workers[n].callbacks;
    forall u | u in held
      ensures u in s'.callbacks && s'.callbacks[u] == CallbackRow(n, held[u])
    {
      assert s.callbacks[u].source == n;
    }
  }

  // ---------------------------------------------------------------------------
  // Launched workers
  // ---------------------------------------------------------------------------

  /** Every worker that came up holds what registration gives it. */
  ghost predicate LaunchesRegistered(env: Env, s: State, s': State) {
    forall n :: n in s'.workers && n !in s.workers ==> s'.workers[n].callbacks == Registered(env, s', n)
  }

  /** The rows of the source were read, or there was nothing but socket rows to read. */
  ghost predicate RowsRead(env: Env, s: State, n: string) {
    || env.io(n, ReadCallbacks)
    || forall u :: u in s.callbacks && s.callbacks[u].source == n ==> s.callbacks[u].callback.kind == Socket
  }

  ghost predicate LaunchesRead(env: Env, s: State, s': State) {
    forall n :: n in s'.workers && n !in s.workers ==> RowsRead(env, s', n)
  }

  /** Which rows of its source a launched worker holds: if they were read, all but unreachable sockets. */
  lemma LaunchedHoldsIff(env: Env, s: State, s': State, n: string, u: Uuid)
    requires LaunchesRegistered(env, s, s') && n in s'.workers && n !in s.workers
    ensures u in s'.workers[n].callbacks <==>
            && u in s'.callbacks && s'.callbacks[u].source == n && env.io(n, ReadCallbacks)
            && (s'.callbacks[u].callback.kind == Socket ==> env.io(n, ConnectSocket(u)))
    ensures u in s'.workers[n].callbacks ==> s'.workers[n].callbacks[u] == s'.callbacks[u].callback
  {
  }

  /** Registration makes a worker agree with the table exactly if the rows were read. */
  lemma RegisteredMirrorsIff(env: Env, s: State, n: string)
    requires n in s.workers && s.workers[n].callbacks == Registered(env, s, n)
    ensures Mirrors(s, n) <==> RowsRead(env, s, n)
  {
  }

  /** Rows of a running worker stay, so what registration gave it earlier is what it would give now. */
  lemma LaunchesRegisteredCompose(env: Env, s: State, s1: State, s2: State, stem: string)
    requires LaunchesRegistered(env, s, s1) && LaunchesRegistered(env, s1, s2) && Frames(s1, s2, stem)
    ensures LaunchesRegistered(env, s, s2)
  {
    forall n | n in s1.workers && n !in s.workers
      ensures s2.workers[n].callbacks == Registered(env, s2, n)
    {
      assert Registered(env, s2, n) == Registered(env, s1, n);
    }
  }

  lemma {:induction false} StartRegisters(cat: Catalog, env: Env, fuel: nat, s: State, name: string, args: StartArgs)
    requires Start(cat, env, fuel, s, name, args).Finished?
    ensures LaunchesRegistered(env, s, Start(cat, env, fuel, s, name, args).state)
    decreases fuel, 0
  {
    var (ready, ok) := Prepared(cat, env, s, name, args.playbook);
    PreparedFrames(cat, env, s, name, args.playbook);
    if ok {
      var deps := cat[args.playbook].interconnect;
      BuildRegisters(cat, env, fuel - 1, ready, name, deps);
      var built := Build(cat, env, fuel - 1, ready, name, deps).state;
      var o := Start(cat, env, fuel, s, name, args);
      assert LaunchesRegistered(env, s, built);
      if o.value.Some? {
        assert o.state.callbacks == built.callbacks && o.state.workers[name].callbacks == Registered(env, built, name);
        SameRowsRegistered(env, s, built, o.state, name);
      }
    }
  }

  lemma SameRowsRegistered(env: Env, s: State, s1: State, s2: State, name: string)
    requires LaunchesRegistered(env, s, s1) && s2.callbacks == s1.callbacks
    requires name in s2.workers && s2.workers == s1.workers[name := s2.workers[name]]
    requires s2.workers[name].callbacks == Registered(env, s1, name)
    ensures LaunchesRegistered(env, s, s2)
  {
    assert forall n :: Registered(env, s2, n) == Registered(env, s1, n);
  }

  lemma {:induction false} BuildRegisters(cat: Catalog, env: Env, fuel: nat, s: State, main: string,
                                          deps: seq<(string, Ident)>)
    requires Build(cat, env, fuel, s, main, deps).Finished?
    ensures LaunchesRegistered(env, s, Build(cat, env, fuel, s, main, deps).state)
    decreases fuel, 2, |deps|
  {
    if deps != [] {
      var ident := deps[0].1;
      if Hosts(s, ident) == {} {
        StartRegisters(cat, env, fuel, s, SubName(main, ident), DefaultArgs(ident));
      }
      var first := FindOrLaunch(cat, env, fuel, s, main, ident);
      if first.value.Some? {
        BuildRegisters(cat, env, fuel, first.state, main, deps[1..]);
        BuildFrames(cat, env, fuel, first.state, main, deps[1..]);
        var last := Build(cat, env, fuel, first.state, main, deps[1..]).state;
        LaunchesRegisteredCompose(env, s, first.state, last, main + "_");
      }
    }
  }

  lemma ResumeRegisters(cat: Catalog, env: Env, fuel: nat, s: State, name: string)
    requires Resume(cat, env, fuel, s, name).Finished?
    ensures LaunchesRegistered(env, s, Resume(cat, env, fuel, s, name).state)
  {
    var o := Resume(cat, env, fuel, s, name);
    if name !in s.workers && env.io(name, ReadRow) && name in s.rows && env.io(name, LoadBinary) &&
       s.rows[name].config.playbook in cat {
      var deps := cat[s.rows[name].config.playbook].interconnect;
      var built := Build(cat, env, fuel, s, name, deps).state;
      BuildRegisters(cat, env, fuel, s, name, deps);
      assert o.state.callbacks == built.callbacks;
      if o.value.Some? {
        SameRowsRegistered(env, s, built, o.state, name);
      } else {
        assert o.state.workers == built.workers;
        assert forall n :: Registered(env, o.state, n) == Registered(env, built, n);
      }
    }
  }

  /** Launches aside, workers that agreed with the table still do; so the rest is up to registration. */
  lemma LaunchesSyncedIff(env: Env, s: State, s': State, stem: string)
    requires Synced(s) && Frames(s, s', stem) && LaunchesRegistered(env, s, s')
    ensures Synced(s') <==> LaunchesRead(env, s, s')
  {
    forall n | n in s'.workers && n !in s.workers ensures Mirrors(s', n) <==> RowsRead(env, s', n) {
      RegisteredMirrorsIff(env, s', n);
    }
    forall n | n in s.workers ensures Mirrors(s', n) {
      FramesKeepMirrors(s, s', stem, n);
    }
  }

  lemma ResumeKeepsSynced(cat: Catalog, env: Env, fuel: nat, s: State, name: string)
    requires Resume(cat, env, fuel, s, name).Finished? && Synced(s) && ReadsCallbacks(env)
    ensures Synced(Resume(cat, env, fuel, s, name).state)
  {
    ResumeRegisters(cat, env, fuel, s, name);
    ResumeFrames(cat, env, fuel, s, name);
    LaunchesSyncedIff(env, s, Resume(cat, env, fuel, s, name).state, name);
  }

  // ---------------------------------------------------------------------------
  // Requests and runs
  // ---------------------------------------------------------------------------

  lemma DeleteKeepsSynced(env: Env, s: State, name: string)
    requires Synced(s)
    ensures Synced(Delete(env, s, name).0)
  {
    var s' := Delete(env, s, name).0;
    forall n | n in s'.workers ensures Mirrors(s', n) {
      assert n != name && Mirrors(s, n);
      forall u | u in s.workers[n].callbacks ensures u in s'.callbacks && s'.callbacks[u] == s.callbacks[u] {
        assert s.callbacks[u].source == n;
      }
    }
  }

  lemma UnusedId(s: State, id: Uuid, n: string)
    requires Synced(s) && id !in s.callbacks && n in s.workers
    ensures id !in s.workers[n].callbacks
  {
    assert Mirrors(s, n);
  }

  lemma AddCallbackKeepsSynced(env: Env, s: State, id: Uuid, source: string, cb: Callback)
    requires Synced(s)
    ensures Synced(AddCallback(env, s, id, source, cb).0)
  {
    var s' := AddCallback(env, s, id, source, cb).0;
    if id !in s.callbacks && env.io(source, InsertCallback(id)) {
      forall n | n in s'.workers ensures Mirrors(s', n) {
        assert n in s.workers && Mirrors(s, n);
        UnusedId(s, id, n);
        var (held, held') := (s.workers[n].callbacks, s'.workers[n].callbacks);
        assert held' == held || (n == source && held' == held[id := cb]);
      }
    }
  }

  lemma SameCallbacksSynced(s: State, s': State)
    requires Synced(s) && s'.callbacks == s.callbacks && s'.workers.Keys <= s.workers.Keys
    requires forall n :: n in s'.workers ==> s'.workers[n].callbacks == s.workers[n].callbacks
    ensures Synced(s')
  {
    forall n | n in s'.workers ensures Mirrors(s', n) { assert Mirrors(s, n); }
  }

  lemma StopKeepsSynced(env: Env, s: State, name: string)
    requires Synced(s)
    ensures Synced(Stop(env, s, name).0)
  {
    SameCallbacksSynced(s, Stop(env, s, name).0);
  }

  lemma SetHttpKeepsSynced(env: Env, s: State, name: string, addr: Option<string>)
    requires Synced(s)
    ensures Synced(SetHttp(env, s, name, addr).0)
  {
    hide Synced;
    var s' := SetHttp(env, s, name, addr).0;
    assert forall n :: n in s'.workers ==> s'.workers[n].callbacks == s.workers[n].callbacks;
    SameCallbacksSynced(s, s');
  }

  lemma DeleteCallbackKeepsSynced(env: Env, s: State, id: Uuid)
    requires Synced(s)
    ensures Synced(DeleteCallback(env, s, id).0)
  {
    var s' := DeleteCallback(env, s, id).0;
    forall n | n in s'.workers ensures Mirrors(s', n) {
      assert n in s.workers && Mirrors(s, n);
    }
  }

  lemma NothingLaunched(env: Env, s: State, s': State)
    requires s'.workers.Keys <= s.workers.Keys
    ensures LaunchesRead(env, s, s')
  {
  }

  /** The exact condition for one request: whoever it launches has its rows read, or none but socket rows. */
  lemma HandleSyncedIff(cat: Catalog, env: Env, fuel: nat, s: State, r: Request)
    requires Handle(cat, env, fuel, s, r).Some? && Synced(s)
    ensures var s' := Handle(cat, env, fuel, s, r).value;
            Synced(s') <==> LaunchesRead(env, s, s')
  {
    hide Start, Resume, Synced, LaunchesRead, Frames, LaunchesRegistered;
    var s' := Handle(cat, env, fuel, s, r).value;
    match r {
      case StartRequest(name, args) =>
        StartRegisters(cat, env, fuel, s, name, args);
        StartFrames(cat, env, fuel, s, name, args);
        LaunchesSyncedIff(env, s, s', name);
      case ResumeRequest(name) =>
        ResumeRegisters(cat, env, fuel, s, name);
        ResumeFrames(cat, env, fuel, s, name);
        LaunchesSyncedIff(env, s, s', name);
      case StopRequest(name) =>
        StopKeepsSynced(env, s, name);
        NothingLaunched(env, s, s');
      case DeleteRequest(name) =>
        DeleteKeepsSynced(env, s, name);
        NothingLaunched(env, s, s');
      case SetHttpRequest(name, addr) =>
        SetHttpKeepsSynced(env, s, name, addr);
        NothingLaunched(env, s, s');
      case AddCallbackRequest(id, source, cb) =>
        AddCallbackKeepsSynced(env, s, id, source, cb);
        NothingLaunched(env, s, s');
      case DeleteCallbackRequest(id) =>
        DeleteCallbackKeepsSynced(env, s, id);
        NothingLaunched(env, s, s');
    }
  }

  /** Workers and table agree after every request of the run. */
  ghost predicate SyncedThroughout(cat: Catalog, fuel: nat, s: State, rs: seq<(Env, Request)>)
    decreases |rs|
  {
    && Synced(s)
    && (rs != [] ==>
          var next := Handle(cat, rs[0].0, fuel, s, rs[0].1);
          next.Some? ==> SyncedThroughout(cat, fuel, next.value, rs[1..]))
  }

  /** Every launch of the run has its rows read, or none but socket rows. */
  ghost predicate ReadsThroughout(cat: Catalog, fuel: nat, s: State, rs: seq<(Env, Request)>)
    decreases |rs|
  {
    rs != [] ==>
      var next := Handle(cat, rs[0].0, fuel, s, rs[0].1);
      next.Some? ==> LaunchesRead(rs[0].0, s, next.value) && ReadsThroughout(cat, fuel, next.value, rs[1..])
  }

  /** Over any run, workers and table agree all along exactly if registration could read what it had to. */
  lemma {:induction false} RunSyncedIff(cat: Catalog, fuel: nat, s: State, rs: seq<(Env, Request)>)
    requires Synced(s)
    ensures SyncedThroughout(cat, fuel, s, rs) <==> ReadsThroughout(cat, fuel, s, rs)
    decreases |rs|
  {
    hide Handle, Synced, LaunchesRead;
    if rs != [] {
      var next := Handle(cat, rs[0].0, fuel, s, rs[0].1);
      if next.Some? {
        HandleSyncedIff(cat, rs[0].0, fuel, s, rs[0].1);
        if Synced(next.value) {
          RunSyncedIff(cat, fuel, next.value, rs[1..]);
        }
      }
    }
  }

  lemma {:induction false} ReadingRunsRead(cat: Catalog, fuel: nat, s: State, rs: seq<(Env, Request)>)
    requires forall i :: 0 <= i < |rs| ==> ReadsCallbacks(rs[i].0)
    ensures ReadsThroughout(cat, fuel, s, rs)
    decreases |rs|
  {
    hide Handle;
    if rs != [] {
      var next := Handle(cat, rs[0].0, fuel, s, rs[0].1);
      assert ReadsCallbacks(rs[0].0);
      if next.Some? {
        assert forall i :: 0 <= i < |rs[1..]| ==> rs[1..][i] == rs[i + 1];
        ReadingRunsRead(cat, fuel, next.value, rs[1..]);
      }
    }
  }

  lemma {:induction false} SyncedAtTheEnd(cat: Catalog, fuel: nat, s: State, rs: seq<(Env, Request)>)
    requires Run(cat, fuel, s, rs).Some? && SyncedThroughout(cat, fuel, s, rs)
    ensures Synced(Run(cat, fuel, s, rs).value)
    decreases |rs|
  {
    hide Handle, Synced;
    if rs != [] {
      SyncedAtTheEnd(cat, fuel, Handle(cat, rs[0].0, fuel, s, rs[0].1).value, rs[1..]);
    }
  }

  /** So they agree after any run in which registration can read the table. */
  lemma RunKeepsSynced(cat: Catalog, fuel: nat, s: State, rs: seq<(Env, Request)>)
    requires Run(cat, fuel, s, rs).Some? && Synced(s)
    requires forall i :: 0 <= i < |rs| ==> ReadsCallbacks(rs[i].0)
    ensures Synced(Run(cat, fuel, s, rs).value)
  {
    ReadingRunsRead(cat, fuel, s, rs);
    RunSyncedIff(cat, fuel, s, rs);
    SyncedAtTheEnd(cat, fuel, s, rs);
  }

  ghost predicate OnlySocketRows(s: State, name: string) {
    forall u :: u in s.callbacks && s.callbacks[u].source == name ==> s.callbacks[u].callback.kind == Socket
  }

  /**
    Both callers ignore a failed registration: they succeed, and the worker agrees with the table
    exactly if its rows were read, or none but socket rows were there to read. What is there can be
    seen before the request: for a resume the rows of the name, and for a start none of them if it
    knows the name and its deletion of them succeeds.
  */
  lemma LaunchedMirrorsIff(cat: Catalog, env: Env, fuel: nat, s: State, name: string, args: StartArgs)
    ensures var o := Start(cat, env, fuel, s, name, args);
            o.Finished? && o.value.Some? ==>
              && name in o.state.workers
              && (Mirrors(o.state, name) <==>
                  || env.io(name, ReadCallbacks)
                  || (name in s.rows && env.io(name, DeleteCallbackRows))
                  || OnlySocketRows(s, name))
    ensures var o := Resume(cat, env, fuel, s, name);
            o.Finished? && o.value.Some? ==>
              && name in o.state.workers
              && (Mirrors(o.state, name) <==> env.io(name, ReadCallbacks) || OnlySocketRows(s, name))
  {
    hide Start, Resume, Mirrors;
    var o := Start(cat, env, fuel, s, name, args);
    if o.Finished? && o.value.Some? {
      StartRegisters(cat, env, fuel, s, name, args);
      StartFrames(cat, env, fuel, s, name, args);
      RegisteredMirrorsIff(env, o.state, name);
      OwnRowsAfterStart(cat, env, fuel, s, name, args);
    }
    var p := Resume(cat, env, fuel, s, name);
    if p.Finished? && p.value.Some? {
      ResumeRegisters(cat, env, fuel, s, name);
      ResumeFrames(cat, env, fuel, s, name);
      RegisteredMirrorsIff(env, p.state, name);
      OwnRowsAfterResume(cat, env, fuel, s, name);
    }
  }

  lemma OwnRowsAfterStart(cat: Catalog, env: Env, fuel: nat, s: State, name: string, args: StartArgs)
    requires var o := Start(cat, env, fuel, s, name, args); o.Finished? && o.value.Some?
    ensures OnlySocketRows(Start(cat, env, fuel, s, name, args).state, name) <==>
            (name in s.rows && env.io(name, DeleteCallbackRows)) || OnlySocketRows(s, name)
  {
    hide Build;
    var ready := Prepared(cat, env, s, name, args.playbook).0;
    PreparedFrames(cat, env, s, name, args.playbook);
    var deps := cat[args.playbook].interconnect;
    var built := Build(cat, env, fuel - 1, ready, name, deps).state;
    BuildFrames(cat, env, fuel - 1, ready, name, deps);
    assert !(name + "_" <= name);
    assert OnlySocketRows(built, name) <==> OnlySocketRows(ready, name);
    assert Start(cat, env, fuel, s, name, args).state.callbacks == built.callbacks;
  }

  lemma OwnRowsAfterResume(cat: Catalog, env: Env, fuel: nat, s: State, name: string)
    requires var o := Resume(cat, env, fuel, s, name); o.Finished? && o.value.Some?
    ensures OnlySocketRows(Resume(cat, env, fuel, s, name).state, name) <==> OnlySocketRows(s, name)
  {
    hide Build;
    var deps := cat[s.rows[name].config.playbook].interconnect;
    var built := Build(cat, env, fuel, s, name, deps).state;
    BuildFrames(cat, env, fuel, s, name, deps);
    assert !(name + "_" <= name);
    assert OnlySocketRows(built, name) <==> OnlySocketRows(s, name);
    assert Resume(cat, env, fuel, s, name).state.callbacks == built.callbacks;
  }

  // ---------------------------------------------------------------------------
  // Restarting: start forgets callbacks, resume keeps them
  // ---------------------------------------------------------------------------

  /** Starting a name the table already knows erases its callbacks. */
  lemma StartOfKnownNameDropsCallbacks(cat: Catalog, env: Env, fuel: nat, s: State, name: string, args: StartArgs)
    requires var o := Start(cat, env, fuel, s, name, args); o.Finished? && o.value.Some?
    requires name in s.rows && env.io(name, DeleteCallbackRows)
    ensures var s' := Start(cat, env, fuel, s, name, args).state;
            && name in s'.workers && s'.workers[name].callbacks == map[]
            && (forall u :: u in s'.callbacks ==> s'.callbacks[u].source != name)
  {
    var o := Start(cat, env, fuel, s, name, args);
    var (ready, ok) := Prepared(cat, env, s, name, args.playbook);
    PreparedFrames(cat, env, s, name, args.playbook);
    assert forall u :: u in ready.callbacks ==> ready.callbacks[u].source != name;
    var spec := cat[args.playbook];
    BuildFrames(cat, env, fuel - 1, ready, name, spec.interconnect);
    var built := Build(cat, env, fuel - 1, ready, name, spec.interconnect).state;
    assert forall u :: u in built.callbacks ==> built.callbacks[u].source != name;
    assert Registered(env, built, name) == map[];
  }

  ghost predicate AllSucceeds(env: Env, name: string) {
    forall step :: env.io(name, step)
  }

  lemma {:induction false} RunningDependenciesNeedNoLaunch(cat: Catalog, env: Env, fuel: nat, s: State, main: string,
                                                           deps: seq<(string, Ident)>)
    requires DependenciesRunning(s, deps)
    ensures var o := Build(cat, env, fuel, s, main, deps);
            o.Finished? && o.state == s && o.value.Some?
    decreases |deps|
  {
    if deps != [] {
      assert Hosts(s, deps[0].1) != {};
      forall i | 0 <= i < |deps[1..]| ensures Hosts(s, deps[1..][i].1) != {} {
        assert deps[1..][i] == deps[i + 1];
      }
      RunningDependenciesNeedNoLaunch(cat, env, fuel, s, main, deps[1..]);
    }
  }

  /**
    Stop and resume is a round trip: the tables are as they were, every other worker is untouched,
    and the playbook is back with its binary, configuration, socket, and all its callbacks.
  */
  lemma StopThenResumeRestores(cat: Catalog, env: Env, fuel: nat, s: State, name: string)
    requires Consistent(cat, s) && Synced(s) && name in s.workers && AllSucceeds(env, name)
    requires DependenciesRunning(Stop(env, s, name).0, s.workers[name].spec.interconnect)
    ensures var o := Resume(cat, env, fuel, Stop(env, s, name).0, name);
            && o.Finished? && o.value.Some?
            && o.state.rows == s.rows && o.state.callbacks == s.callbacks
            && o.state.workers - {name} == s.workers - {name}
            && name in o.state.workers && Mirrors(o.state, name)
            && var (w, w') := (s.workers[name], o.state.workers[name]);
               && w'.spec == w.spec && w'.config == w.config && w'.socket == w.socket
               && w'.http == s.rows[name].http
               && (CatalogValid(cat) && DistinctNames(w.spec.interconnect) ==>
                     && w'.servers.Keys == LocalNames(w.spec.interconnect)
                     && forall i :: 0 <= i < |w.spec.interconnect| ==>
                          Bound(w'.servers, o.state, w.spec.interconnect[i].0, w.spec.interconnect[i].1))
               && (forall u :: u in w.callbacks ==> u in w'.callbacks && w'.callbacks[u] == w.callbacks[u])
  {
    hide Build;
    assert Recorded(cat, s, name) && Mirrors(s, name);
    var stopped := Stop(env, s, name).0;
    var row := s.rows[name];
    assert stopped.rows == s.rows[name := row.(status := Stopped)];
    var spec := cat[row.config.playbook];
    RunningDependenciesNeedNoLaunch(cat, env, fuel, stopped, name, spec.interconnect);
    var o := Resume(cat, env, fuel, stopped, name);
    assert o.Finished? && o.value.Some?;
    assert o.state.rows == s.rows;
    assert o.state.workers[name].callbacks == Registered(env, stopped, name);
    if CatalogValid(cat) && DistinctNames(spec.interconnect) {
      ResumedAsRecorded(cat, env, fuel, stopped, name);
    }
  }

  /** Stop and start, which is what an automatic update does, is not: the callbacks are gone. */
  lemma StopThenStartForgetsCallbacks(cat: Catalog, env: Env, fuel: nat, s: State, name: string, args: StartArgs)
    requires Consistent(cat, s) && name in s.workers && AllSucceeds(env, name)
    requires var o := Start(cat, env, fuel, Stop(env, s, name).0, name, args); o.Finished? && o.value.Some?
    ensures var s' := Start(cat, env, fuel, Stop(env, s, name).0, name, args).state;
            && name in s'.workers && s'.workers[name].callbacks == map[]
            && (forall u :: u in s'.callbacks ==> s'.callbacks[u].source != name)
  {
    assert Recorded(cat, s, name);
    StartOfKnownNameDropsCallbacks(cat, env, fuel, Stop(env, s, name).0, name, args);
  }

  /** Deleting a callback undoes adding it. */
  lemma DeleteUndoesAdd(env: Env, env': Env, s: State, id: Uuid, source: string, cb: Callback)
    requires Synced(s) && id !in s.callbacks
    requires env.io(source, InsertCallback(id)) && env'.io("", DeleteCallbackRow(id))
    ensures DeleteCallback(env', AddCallback(env, s, id, source, cb).0, id) == (s, true)
  {
    var added := AddCallback(env, s, id, source, cb).0;
    AddedCallbackIsTheOnlyChange(env, s, id, source, cb);
    assert added.callbacks - {id} == s.callbacks;
    forall n | n in s.workers
      ensures WithoutCallback(added.workers, id)[n] == s.workers[n]
    {
      UnusedId(s, id, n);
      assert added.workers[n].callbacks - {id} == s.workers[n].callbacks;
    }
    assert WithoutCallback(added.workers, id) == s.workers;
  }

  /**
    A request to add a callback succeeds exactly if its row can be stored and, for a socket of a running
    source, its target can be reached; then the running source holds it.
  */
  lemma AddSucceedsIff(env: Env, s: State, id: Uuid, source: string, cb: Callback)
    ensures var (s', ok) := AddCallback(env, s, id, source, cb);
            && (ok <==>
                && id !in s.callbacks && env.io(source, InsertCallback(id))
                && (source in s.workers && cb.kind == Socket ==> env.io(source, ConnectSocket(id))))
            && (ok ==> id in s'.callbacks && s'.callbacks[id] == CallbackRow(source, cb))
            && (ok && source in s.workers ==>
                  source in s'.workers && id in s'.workers[source].callbacks &&
                  s'.workers[source].callbacks[id] == cb)
  {
  }

  /** An added callback is stored once its row can be; the worker gets it too, unless the target is out of reach. */
  lemma AddedCallbackIsTheOnlyChange(env: Env, s: State, id: Uuid, source: string, cb: Callback)
    requires Synced(s) && id !in s.callbacks && env.io(source, InsertCallback(id))
    ensures var added := AddCallback(env, s, id, source, cb).0;
            && added == s.(callbacks := s.callbacks[id := CallbackRow(source, cb)], workers := added.workers)
            && (AddCallback(env, s, id, source, cb).1 <==>
                  source in s.workers ==>
                    id in added.workers[source].callbacks && added.workers[source].callbacks[id] == cb)
            && added.workers.Keys == s.workers.Keys
            && forall n :: n in s.workers ==>
                 || added.workers[n] == s.workers[n]
                 || added.workers[n] == s.workers[n].(callbacks := s.workers[n].callbacks[id := cb])
  {
    if source in s.workers {
      UnusedId(s, id, source);
    }
  }
}
