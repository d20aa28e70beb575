/**
  The manager as an object: methods that update the worker map and the two tables in place, each
  proved to do what the state machine in Playbooks says.
*/
module PlaybooksManager {
  import opened Prelude
  import opened Playbooks
  import opened PlaybookFrames
  import opened PlaybookInvariants
  import opened PlaybookCallbacks
  import opened PlaybookLaunches
  import opened PlaybookReach
  import opened StartupResume
  import opened StartupSuccess
  import opened StartupDeadEnds

  class Manager {
    const cat: Catalog
    var workers: map<string, Worker>
    /** The `playbooks` table. */
    var rows: map<string, Row>
    /** The `playbook_callbacks` table. */
    var callbackRows: map<Uuid, CallbackRow>

    constructor (cat: Catalog, rows: map<string, Row>, callbackRows: map<Uuid, CallbackRow>)
      ensures this.cat == cat && Current() == Fresh(rows, callbackRows)
      ensures Consistent(cat, Current()) && Closed(Current()) && Synced(Current())
    {
      this.cat := cat;
      this.workers := map[];
      this.rows := rows;
      this.callbackRows := callbackRows;
    }

    function Current(): State
      reads this
    {
      State(workers, rows, callbackRows)
    }

    method DeletePlaybook(env: Env, name: string) returns (ok: bool)
      modifies this
      ensures (Current(), ok) == Delete(env, old(Current()), name)
    {
      workers := workers - {name};
      if env.io(name, DeleteCallbackRows) {
        callbackRows := CallbacksWithoutSource(callbackRows, name);
      }
      if !env.io(name, DeleteRow) {
        return false;
      }
      rows := rows - {name};
      ok := env.io(name, RemoveDirectory);
    }

    /** register_callbacks_from_db: the callbacks a new worker is given, in no particular row order. */
    method RegisterCallbacks(env: Env, name: string) returns (held: map<Uuid, Callback>)
      ensures held == Registered(env, Current(), name)
    {
      held := map[];
      if !env.io(name, ReadCallbacks) {
        return;
      }
      ghost var goal := Registered(env, Current(), name);
      var left := set u | u in callbackRows && callbackRows[u].source == name;
      while left != {}
        invariant forall u :: u in left ==> u in callbackRows && callbackRows[u].source == name
        invariant forall u :: u in held ==> u in goal && held[u] == goal[u]
        invariant forall u :: u in goal ==> u in held || u in left
      {
        var u :| u in left;
        var cb := callbackRows[u].callback;
        if cb.kind != Socket || env.io(name, ConnectSocket(u)) {
          held := held[u := cb];
        }
        left := left - {u};
      }
    }

    /** start_playbook; `fuel` is any amount that lets the launches end. */
    method StartPlaybook(env: Env, name: string, args: StartArgs, ghost fuel: nat) returns (ok: bool)
      requires Start(cat, env, fuel, Current(), name, args).Finished?
      modifies this
      ensures var o := Start(cat, env, fuel, old(Current()), name, args);
              Current() == o.state && ok == o.value.Some?
      decreases fuel, 0
    {
      if name in workers || !env.io(name, ReadRow) {
        return false;
      }
      if name in rows {
        var deleted := DeletePlaybook(env, name);
        if !deleted {
          return false;
        }
      }
      if !env.io(name, PrepareDirectories) || !env.io(name, LoadBinary) || args.playbook !in cat {
        return false;
      }
      if !env.io(name, ValidateConfigurations) {
        return false;
      }
      var spec := cat[args.playbook];
      ghost var ready := Current();
      PreparedFrames(cat, env, old(Current()), name, args.playbook);
      BuildFrames(cat, env, fuel - 1, ready, name, spec.interconnect);
      var servers := BuildInterconnect(env, name, spec.interconnect, fuel - 1);
      if servers.None? || !Spawns(env, name, args.socket, args.http) {
        return false;
      }
      var held := RegisterCallbacks(env, name);
      var config := Config(args.playbook, args.numWorkers.GetOr(4));
      if !env.io(name, SaveRow) {
        return false;
      }
      rows := rows[name := Row(Running, config, args.socket, args.pinned, args.http)];
      assert name !in workers;
      workers := workers[name := Worker(spec, config, servers.value, held, args.socket, args.http)];
      ok := true;
    }

    /** build_interconnect */
    method BuildInterconnect(env: Env, main: string, deps: seq<(string, Ident)>, ghost fuel: nat)
      returns (r: Option<map<string, Server>>)
      requires Build(cat, env, fuel, Current(), main, deps).Finished?
      modifies this
      ensures var o := Build(cat, env, fuel, old(Current()), main, deps);
              Current() == o.state && r == o.value
      decreases fuel, 2
    {
      ghost var goal := Build(cat, env, fuel, Current(), main, deps);
      var servers: map<string, Server> := map[];
      var i := 0;
      assert deps[0..] == deps;
      if goal.value.Some? {
        assert map[] + goal.value.value == goal.value.value;
      }
      while i < |deps|
        invariant 0 <= i <= |deps|
        invariant Continues(goal, servers, Build(cat, env, fuel, Current(), main, deps[i..]))
      {
        var (key, ident) := deps[i];
        assert deps[i..][0] == deps[i] && deps[i..][1..] == deps[i + 1..];
        var server := FindOrLaunchServer(env, main, ident, fuel);
        if server.None? {
          return None;
        }
        ghost var rest := Build(cat, env, fuel, Current(), main, deps[i + 1..]);
        if rest.value.Some? {
          assert servers + (map[key := server.value] + rest.value.value)
                 == servers[key := server.value] + rest.value.value;
        }
        servers := servers[key := server.value];
        i := i + 1;
      }
      assert deps[i..] == [] && servers + map[] == servers;
      r := Some(servers);
    }

    /** One turn of the loop in build_interconnect. */
    method FindOrLaunchServer(env: Env, main: string, ident: Ident, ghost fuel: nat) returns (r: Option<Server>)
      requires FindOrLaunch(cat, env, fuel, Current(), main, ident).Finished?
      modifies this
      ensures var o := FindOrLaunch(cat, env, fuel, old(Current()), main, ident);
              Current() == o.state && r == o.value
      decreases fuel, 1
    {
      var hosts := Hosts(Current(), ident);
      if hosts != {} {
        return Some(Server(Chosen(env, hosts), ident));
      }
      var sub := SubName(main, ident);
      var started := StartPlaybook(env, sub, DefaultArgs(ident), fuel);
      if !started || sub !in workers {
        return None;
      }
      r := Some(Server(sub, workers[sub].spec.ident));
    }

    method StopPlaybook(env: Env, name: string) returns (stopped: Option<bool>)
      modifies this
      ensures (Current(), stopped) == Stop(env, old(Current()), name)
    {
      if name !in workers {
        return Some(false);
      }
      workers := workers - {name};
      if !env.io(name, UpdateStatus) {
        return None;
      }
      rows := WithStatus(rows, name, Stopped);
      stopped := Some(true);
    }

    method ResumePlaybook(env: Env, name: string, ghost fuel: nat) returns (ok: bool)
      requires Resume(cat, env, fuel, Current(), name).Finished?
      modifies this
      ensures var o := Resume(cat, env, fuel, old(Current()), name);
              Current() == o.state && ok == o.value.Some?
    {
      if name in workers || !env.io(name, ReadRow) || name !in rows {
        return false;
      }
      var row := rows[name];
      if !env.io(name, LoadBinary) || row.config.playbook !in cat {
        return false;
      }
      var spec := cat[row.config.playbook];
      var servers := BuildInterconnect(env, name, spec.interconnect, fuel);
      if servers.None? || !Spawns(env, name, row.socket, row.http) {
        return false;
      }
      var held := RegisterCallbacks(env, name);
      if !env.io(name, UpdateStatus) {
        return false;
      }
      rows := WithStatus(rows, name, Running);
      if name in workers {
        return false;
      }
      workers := workers[name := Worker(spec, row.config, servers.value, held, row.socket, row.http)];
      ok := true;
    }

    /**
      resume_active_playbooks, over the names whose row says "running" in whatever order the table lists
      them. The catalog is acyclic, so every attempt ends. The last pass, over `tried` from `before`, resumed
      none of what is left. All of that would be refused again if the listed playbooks are independent, or
      else if no failed attempt of the last pass changed anything.

      What runs is never more than what ran or was listed, and what that needs. Once all that was listed
      runs, it is exactly that, whatever the order; and all of it runs if nothing can fail. Which workers
      run it is a matter of the order, unless no dependency is launched on the side: then they are the
      least set in which no listed playbook is left to be resumed.
    */
    method ResumeActivePlaybooks(envs: Environments, listing: seq<string>, ghost fuel: nat, ghost rank: Ident -> nat)
      returns (left: seq<string>, ghost before: State, ghost tried: seq<string>)
      requires CatalogValid(cat) && Acyclic(cat, rank) && fuel > 0 && (forall i :: i in cat ==> rank(i) <= fuel)
      requires Distinct(listing) && forall n :: n in listing <==> n in rows && rows[n].status == Running
      requires Consistent(cat, Current()) && Closed(Current()) && Synced(Current())
      modifies this
      ensures Consistent(cat, Current()) && Closed(Current())
      ensures AllReadCallbacks(envs, listing) ==> Synced(Current())
      ensures Grows(old(Current()), Current())
      ensures forall n :: n in listing ==> n in workers || n in left
      ensures left != [] ==>
                && left == tried && Pass(cat, envs, fuel, before, tried) == (Current(), left)
                && (Disturbed(cat, envs, fuel, before, tried) || Stuck(cat, envs, fuel, Current(), left))
      ensures Independent(cat, old(Current()), listing) ==> Stuck(cat, envs, fuel, Current(), left)
      ensures OnlyNeeded(cat, old(Current()), listing, Current())
      ensures NothingCanFail(cat, envs, rank, old(Current()), listing) ==>
                ListedIdents(old(Current()), listing) <= RunningIdents(Current())
      ensures ListedIdents(old(Current()), listing) <= RunningIdents(Current()) ==>
                LeastClosed(cat, RunningIdents(old(Current())) + ListedIdents(old(Current()), listing),
                            RunningIdents(Current()))
      ensures Quiet(cat, envs, old(Current()), listing) ==>
                var can := CanResume(cat, envs, old(rows));
                && LeastSettled(can, listing, old(workers.Keys), workers.Keys)
                && (forall n :: n in left ==> n in listing && (n in old(workers) || !can(n, workers.Keys)))
    {
      hide Resume, Resuming, Consistent, Closed, Synced, CanResume, OnlyNeeded, Independent, NothingCanFail,
           LeastClosed, RunningIdents, ListedIdents, Pass, Disturbed, Stuck;
      ghost var start := Current();
      ResumingStarts(cat, envs, start, listing);
      left, before, tried := listing, start, [];
      var attempts := 0;
      var maxAttempts := |listing| + 1;
      ghost var calm := NothingCanFail(cat, envs, rank, start, listing);
      if calm {
        PassResumesAll(cat, envs, fuel, rank, start, listing);
      }
      if listing == [] {
        NothingListed(start);
      }
      StuckNowhere(cat, envs, fuel, start);
      while left != [] && attempts < maxAttempts
        invariant attempts + |left| <= |listing|
        invariant Resuming(cat, envs, start, listing, Current(), left) && Distinct(left)
        invariant attempts == 0 ==> Current() == start && left == listing
        invariant calm && (attempts > 0 || listing == []) ==> ListedIdents(start, listing) <= RunningIdents(Current())
        decreases maxAttempts - attempts
      {
        before, tried := Current(), left;
        var succeededAny;
        left, succeededAny := ResumePass(envs, listing, left, fuel, rank, start);
        attempts := attempts + 1;
        PassGrows(cat, envs, fuel, before, tried);
        RunningIdentsGrow(before, Current());
        PassKeepsDistinct(cat, envs, fuel, before, tried);
        if !succeededAny && left != [] {
          ResumingEnds(cat, envs, fuel, start, listing, before, tried);
          if Independent(cat, start, listing) {
            ResumingNames(cat, envs, start, listing, before, tried);
            IndependencePersists(cat, start, before, listing, tried);
            PassIsDeadEnd(cat, envs, fuel, rank, before, tried);
          }
          forall n | n in tried ensures Resume(cat, envs(n), fuel, before, n).Finished? {
            ResumeEnds(cat, envs(n), fuel, before, n, rank);
          }
          if !Disturbed(cat, envs, fuel, before, tried) {
            UndisturbedPassIsStuck(cat, envs, fuel, before, tried);
          }
          break;
        }
      }
      ResumingEnds(cat, envs, fuel, start, listing, Current(), left);
      StuckNowhere(cat, envs, fuel, Current());
      if ListedIdents(start, listing) <= RunningIdents(Current()) {
        ListedRunningIsLeast(cat, start, listing, Current());
      }
    }

    /** One pass over the names still to be resumed. */
    method ResumePass(envs: Environments, ghost listing: seq<string>, left: seq<string>, ghost fuel: nat,
                      ghost rank: Ident -> nat, ghost start: State)
      returns (failed: seq<string>, succeededAny: bool)
      requires CatalogValid(cat) && Acyclic(cat, rank) && fuel > 0 && (forall i :: i in cat ==> rank(i) <= fuel)
      requires Resuming(cat, envs, start, listing, Current(), left)
      modifies this
      ensures (Current(), failed) == Pass(cat, envs, fuel, old(Current()), left)
      ensures Resuming(cat, envs, start, listing, Current(), failed)
      ensures |failed| <= |left| && (succeededAny <==> |failed| < |left|) && (!succeededAny ==> failed == left)
      ensures Quiet(cat, envs, start, listing) ==> !Disturbed(cat, envs, fuel, old(Current()), left)
    {
      hide Resume, Resuming, Quiet, Pass, Disturbed;
      failed, succeededAny := [], false;
      ghost var all := Pass(cat, envs, fuel, Current(), left);
      ghost var quiet := Quiet(cat, envs, start, listing);
      var i := 0;
      assert failed + left[i..] == left && left[0..] == left && [] + all.1 == all.1;
      while i < |left|
        invariant 0 <= i <= |left|
        invariant |failed| <= i && (succeededAny <==> |failed| < i) && (!succeededAny ==> failed == left[..i])
        invariant Resuming(cat, envs, start, listing, Current(), failed + left[i..])
        invariant var rest := Pass(cat, envs, fuel, Current(), left[i..]); all == (rest.0, failed + rest.1)
        invariant quiet && !Disturbed(cat, envs, fuel, Current(), left[i..]) ==>
                    !Disturbed(cat, envs, fuel, old(Current()), left)
      {
        var name := left[i];
        assert left[i..] == [name] + left[i + 1..] && left[..i + 1] == left[..i] + [name];
        AttemptKeepsResuming(cat, envs, fuel, rank, start, listing, Current(), failed, name, left[i + 1..]);
        PassTurn(cat, envs, fuel, Current(), left, i, failed);
        var resumed := ResumePlaybook(envs(name), name, fuel);
        if resumed {
          succeededAny := true;
        } else {
          failed := failed + [name];
        }
        i := i + 1;
      }
      assert failed + left[i..] == failed && left[i..] == [] && left[..i] == left;
      PassOverNothing(cat, envs, fuel, Current());
      assert failed + [] == failed;
    }

    /** The dispatch of handle_request over the requests that change the state. */
    method HandleRequest(env: Env, r: Request, ghost fuel: nat)
      requires Handle(cat, env, fuel, Current(), r).Some?
      modifies this
      ensures Some(Current()) == Handle(cat, env, fuel, old(Current()), r)
    {
      match r {
        case StartRequest(name, args) =>
          var _ := StartPlaybook(env, name, args, fuel);
        case StopRequest(name) =>
          var _ := StopPlaybook(env, name);
        case ResumeRequest(name) =>
          var _ := ResumePlaybook(env, name, fuel);
        case DeleteRequest(name) =>
          var _ := DeletePlaybook(env, name);
        case SetHttpRequest(name, addr) =>
          var _ := SetHttpAddress(env, name, addr);
        case AddCallbackRequest(id, source, cb) =>
          var _ := AddCallbackMapping(env, id, source, cb);
        case DeleteCallbackRequest(id) =>
          var _ := DeleteCallbackMapping(env, id);
      }
    }

    method SetHttpAddress(env: Env, name: string, addr: Option<string>) returns (ok: bool)
      modifies this
      ensures (Current(), ok) == SetHttp(env, old(Current()), name, addr)
    {
      if name !in workers {
        return false;
      }
      workers := workers[name := workers[name].(http := None)];
      if addr.Some? && !env.io(name, BindHttp) {
        return false;
      }
      workers := workers[name := workers[name].(http := addr)];
      assert workers == old(workers)[name := old(workers)[name].(http := addr)];
      if !env.io(name, UpdateHttp) {
        return false;
      }
      if name in rows {
        rows := rows[name := rows[name].(http := addr)];
      }
      ok := true;
    }

    method AddCallbackMapping(env: Env, id: Uuid, source: string, cb: Callback) returns (ok: bool)
      modifies this
      ensures (Current(), ok) == AddCallback(env, old(Current()), id, source, cb)
    {
      if id in callbackRows || !env.io(source, InsertCallback(id)) {
        return false;
      }
      callbackRows := callbackRows[id := CallbackRow(source, cb)];
      if source in workers {
        if cb.kind == Socket && !env.io(source, ConnectSocket(id)) {
          return false;
        }
        workers := workers[source := workers[source].(callbacks := workers[source].callbacks[id := cb])];
      }
      ok := true;
    }

    method DeleteCallbackMapping(env: Env, id: Uuid) returns (ok: bool)
      modifies this
      ensures (Current(), ok) == DeleteCallback(env, old(Current()), id)
    {
      if !env.io("", DeleteCallbackRow(id)) {
        return false;
      }
      callbackRows := callbackRows - {id};
      ghost var before := workers;
      var left := workers.Keys;
      while left != {}
        invariant left <= workers.Keys == before.Keys
        invariant forall n :: n in before ==>
                                workers[n] == if n in left then before[n]
                                              else before[n].(callbacks := before[n].callbacks - {id})
        invariant callbackRows == old(callbackRows) - {id} && rows == old(rows)
        decreases |left|
      {
        var n := LeastKey(left);
        workers := workers[n := workers[n].(callbacks := workers[n].callbacks - {id})];
        left := left - {n};
      }
      assert workers == WithoutCallback(before, id);
      ok := true;
    }
  }

  /** The build so far bound `servers`; `rest` is what the remaining dependencies will do. */
  ghost predicate Continues(goal: Outcome<map<string, Server>>, servers: map<string, Server>,
                            rest: Outcome<map<string, Server>>)
  {
    && goal.Finished? && rest.Finished? && goal.state == rest.state
    && goal.value == if rest.value.None? then None else Some(servers + rest.value.value)
  }
}
