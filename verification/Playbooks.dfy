/**
  The playbook manager as a state machine (lib/pyro-daemon/src/playbook/manager.rs, interconnect.rs,
  worker.rs, state.rs): the map of running workers, the `playbooks` table and the
  `playbook_callbacks` table. Requests run one at a time.

  I/O is an oracle: for each playbook name and kind of operation the environment says whether the
  operation succeeds. Starting a playbook may start others, which may start others; a launch that
  never bottoms out is `Diverges` for every amount of fuel.
*/
module Playbooks {
  import opened Prelude

  datatype Ident = Ident(author: string, package: string, version: string)

  /** The interconnect lists (local name, expected ident) in key order. */
  datatype Spec = Spec(ident: Ident, interconnect: seq<(string, Ident)>)

  /** The artifact cache, as far as playbooks are loaded from it. */
  type Catalog = map<Ident, Spec>

  predicate CatalogValid(cat: Catalog) {
    forall i :: i in cat ==> cat[i].ident == i
  }

  datatype Config = Config(playbook: Ident, numWorkers: nat)

  /** A handle on the pipeline server of the worker `owner`. */
  datatype Server = Server(owner: string, ident: Ident)

  type Uuid = nat

  datatype CallbackKind = Http | Socket | Playbook

  datatype Callback = Callback(kind: CallbackKind, target: string)

  datatype CallbackRow = CallbackRow(source: string, callback: Callback)

  datatype Worker = Worker(
    spec: Spec,
    config: Config,
    servers: map<string, Server>,
    callbacks: map<Uuid, Callback>,
    socket: Option<string>,
    http: Option<string>
  )

  datatype Status = Running | Stopped

  datatype Row = Row(
    status: Status,
    config: Config,
    socket: Option<string>,
    pinned: Option<string>,
    http: Option<string>
  )

  datatype State = State(workers: map<string, Worker>, rows: map<string, Row>, callbacks: map<Uuid, CallbackRow>)

  // ---------------------------------------------------------------------------
  // Environment
  // ---------------------------------------------------------------------------

  datatype Step =
    | ReadRow | DeleteCallbackRows | DeleteRow | RemoveDirectory
    | PrepareDirectories | LoadBinary | ValidateConfigurations | SpawnWorker
    | BindSocket | BindHttp | ReadCallbacks | SaveRow
    | UpdateStatus | UpdateHttp
    | InsertCallback(id: Uuid) | ConnectSocket(id: Uuid) | DeleteCallbackRow(id: Uuid)

  datatype Env = Env(io: (string, Step) -> bool, pick: set<string> -> string)

  /** Which of several matching workers a scan over the hash map meets first. */
  function Chosen(env: Env, names: set<string>): (n: string)
    requires names != {}
    ensures n in names
  {
    if env.pick(names) in names then env.pick(names) else LeastKey(names)
  }

  /** The workers running a given playbook. */
  function Hosts(s: State, ident: Ident): set<string> {
    set n | n in s.workers && s.workers[n].spec.ident == ident
  }

  /** `format!("{}_{}", main_name, expected_ident.package)` */
  function SubName(main: string, ident: Ident): string {
    main + "_" + ident.package
  }

  datatype Outcome<T> = Diverges | Finished(state: State, value: Option<T>)

  // ---------------------------------------------------------------------------
  // Operations
  // ---------------------------------------------------------------------------

  function CallbacksWithoutSource(cbs: map<Uuid, CallbackRow>, source: string): map<Uuid, CallbackRow> {
    map u | u in cbs && cbs[u].source != source :: cbs[u]
  }

  /** delete_playbook; a failure to delete the callback rows goes unnoticed. */
  function Delete(env: Env, s: State, name: string): (State, bool) {
    var shut := s.(workers := s.workers - {name});
    var cleared :=
      if env.io(name, DeleteCallbackRows) then shut.(callbacks := CallbacksWithoutSource(s.callbacks, name)) else shut;
    if !env.io(name, DeleteRow) then (cleared, false)
    else (cleared.(rows := s.rows - {name}), env.io(name, RemoveDirectory))
  }

  datatype StartArgs = StartArgs(
    playbook: Ident,
    socket: Option<string>,
    http: Option<string>,
    pinned: Option<string>,
    numWorkers: Option<nat>
  )

  function DefaultArgs(ident: Ident): StartArgs {
    StartArgs(ident, None, None, None, None)
  }

  /** register_callbacks_from_db, whose own failure is ignored by both callers. */
  function Registered(env: Env, s: State, name: string): map<Uuid, Callback> {
    if !env.io(name, ReadCallbacks) then map[]
    else
      map u | u in s.callbacks && s.callbacks[u].source == name &&
              (s.callbacks[u].callback.kind == Socket ==> env.io(name, ConnectSocket(u)))
          :: s.callbacks[u].callback
  }

  /** Everything start_playbook does before it looks at the interconnect. */
  function Prepared(cat: Catalog, env: Env, s: State, name: string, ident: Ident): (State, bool) {
    if name in s.workers then (s, false)
    else if !env.io(name, ReadRow) then (s, false)
    else
      var (cleaned, ok) := if name in s.rows then Delete(env, s, name) else (s, true);
      (cleaned,
       && ok
       && env.io(name, PrepareDirectories)
       && env.io(name, LoadBinary) && ident in cat
       && env.io(name, ValidateConfigurations))
  }

  function NewWorker(env: Env, s: State, name: string, spec: Spec, config: Config, servers: map<string, Server>,
                     socket: Option<string>, http: Option<string>): Worker
  {
    Worker(spec, config, servers, Registered(env, s, name), socket, http)
  }

  /** Spawning the worker and opening its listeners. */
  predicate Spawns(env: Env, name: string, socket: Option<string>, http: Option<string>) {
    && env.io(name, SpawnWorker)
    && (socket.Some? ==> env.io(name, BindSocket))
    && (http.Some? ==> env.io(name, BindHttp))
  }

  /** start_playbook */
  function Start(cat: Catalog, env: Env, fuel: nat, s: State, name: string, args: StartArgs): Outcome<()>
    decreases fuel, 0
  {
    if fuel == 0 then Diverges
    else
      var (ready, ok) := Prepared(cat, env, s, name, args.playbook);
      if !ok then Finished(ready, None)
      else
        var spec := cat[args.playbook];
        match Build(cat, env, fuel - 1, ready, name, spec.interconnect)
        case Diverges => Diverges
        case Finished(s1, None) => Finished(s1, None)
        case Finished(s1, Some(servers)) =>
          var config := Config(args.playbook, args.numWorkers.GetOr(4));
          if !Spawns(env, name, args.socket, args.http) || !env.io(name, SaveRow) then Finished(s1, None)
          else
            var worker := NewWorker(env, s1, name, spec, config, servers, args.socket, args.http);
            Finished(
              s1.(rows := s1.rows[name := Row(Running, config, args.socket, args.pinned, args.http)],
                  workers := s1.workers[name := worker]),
              Some(()))
  }

  /** One turn of build_interconnect: a server for the expected ident, found or launched. */
  function FindOrLaunch(cat: Catalog, env: Env, fuel: nat, s: State, main: string, ident: Ident): Outcome<Server>
    decreases fuel, 1
  {
    var hosts := Hosts(s, ident);
    if hosts != {} then Finished(s, Some(Server(Chosen(env, hosts), ident)))
    else
      var sub := SubName(main, ident);
      match Start(cat, env, fuel, s, sub, DefaultArgs(ident))
      case Diverges => Diverges
      case Finished(s1, started) =>
        if started.None? || sub !in s1.workers then Finished(s1, None)
        else Finished(s1, Some(Server(sub, s1.workers[sub].spec.ident)))
  }

  /** build_interconnect */
  function Build(cat: Catalog, env: Env, fuel: nat, s: State, main: string, deps: seq<(string, Ident)>)
    : Outcome<map<string, Server>>
    decreases fuel, 2, |deps|
  {
    if deps == [] then Finished(s, Some(map[]))
    else
      match FindOrLaunch(cat, env, fuel, s, main, deps[0].1)
      case Diverges => Diverges
      case Finished(s1, None) => Finished(s1, None)
      case Finished(s1, Some(server)) =>
        match Build(cat, env, fuel, s1, main, deps[1..])
        case Diverges => Diverges
        case Finished(s2, None) => Finished(s2, None)
        case Finished(s2, Some(rest)) => Finished(s2, Some(map[deps[0].0 := server] + rest))
  }

  /** stop_playbook: whether a worker was stopped, or an error. */
  function Stop(env: Env, s: State, name: string): (State, Option<bool>) {
    if name !in s.workers then (s, Some(false))
    else
      var shut := s.(workers := s.workers - {name});
      if !env.io(name, UpdateStatus) then (shut, None)
      else (shut.(rows := WithStatus(s.rows, name, Stopped)), Some(true))
  }

  /** UPDATE playbooks SET status, which leaves an absent row absent. */
  function WithStatus(rows: map<string, Row>, name: string, status: Status): map<string, Row> {
    if name in rows then rows[name := rows[name].(status := status)] else rows
  }

  /** resume_playbook */
  function Resume(cat: Catalog, env: Env, fuel: nat, s: State, name: string): Outcome<()> {
    if name in s.workers || !env.io(name, ReadRow) || name !in s.rows then Finished(s, None)
    else
      var row := s.rows[name];
      if !env.io(name, LoadBinary) || row.config.playbook !in cat then Finished(s, None)
      else
        var spec := cat[row.config.playbook];
        match Build(cat, env, fuel, s, name, spec.interconnect)
        case Diverges => Diverges
        case Finished(s1, None) => Finished(s1, None)
        case Finished(s1, Some(servers)) =>
          if !Spawns(env, name, row.socket, row.http) || !env.io(name, UpdateStatus) then Finished(s1, None)
          else
            var updated := s1.(rows := WithStatus(s1.rows, name, Running));
            if name in s1.workers then Finished(updated, None)
            else
              var worker := NewWorker(env, s1, name, spec, row.config, servers, row.socket, row.http);
              Finished(updated.(workers := s1.workers[name := worker]), Some(()))
  }

  /** set_http_address */
  function SetHttp(env: Env, s: State, name: string, addr: Option<string>): (State, bool) {
    if name !in s.workers then (s, false)
    else if addr.Some? && !env.io(name, BindHttp) then
      (s.(workers := s.workers[name := s.workers[name].(http := None)]), false)
    else
      var rebound := s.(workers := s.workers[name := s.workers[name].(http := addr)]);
      if !env.io(name, UpdateHttp) then (rebound, false)
      else if name in s.rows then (rebound.(rows := s.rows[name := s.rows[name].(http := addr)]), true)
      else (rebound, true)
  }

  /** add_http_callback, add_socket_callback and add_playbook_callback; the uuid is the table's key. */
  function AddCallback(env: Env, s: State, id: Uuid, source: string, cb: Callback): (State, bool) {
    if id in s.callbacks || !env.io(source, InsertCallback(id)) then (s, false)
    else
      var stored := s.(callbacks := s.callbacks[id := CallbackRow(source, cb)]);
      if source !in s.workers then (stored, true)
      else if cb.kind == Socket && !env.io(source, ConnectSocket(id)) then (stored, false)
      else
        var w := s.workers[source];
        (stored.(workers := s.workers[source := w.(callbacks := w.callbacks[id := cb])]), true)
  }

  function WithoutCallback(workers: map<string, Worker>, id: Uuid): map<string, Worker> {
    map n | n in workers :: workers[n].(callbacks := workers[n].callbacks - {id})
  }

  /** delete_callback: the row goes, and every worker forgets the uuid. */
  function DeleteCallback(env: Env, s: State, id: Uuid): (State, bool) {
    if !env.io("", DeleteCallbackRow(id)) then (s, false)
    else (s.(callbacks := s.callbacks - {id}, workers := WithoutCallback(s.workers, id)), true)
  }

  // ---------------------------------------------------------------------------
  // Runs
  // ---------------------------------------------------------------------------

  datatype Request =
    | StartRequest(name: string, args: StartArgs)
    | StopRequest(name: string)
    | ResumeRequest(name: string)
    | DeleteRequest(name: string)
    | SetHttpRequest(name: string, addr: Option<string>)
    | AddCallbackRequest(id: Uuid, source: string, callback: Callback)
    | DeleteCallbackRequest(id: Uuid)

  /** The state a request leaves, whether it succeeds or fails; None if it never returns. */
  function Handle(cat: Catalog, env: Env, fuel: nat, s: State, r: Request): Option<State> {
    match r
    case StartRequest(name, args) =>
      var o := Start(cat, env, fuel, s, name, args);
      if o.Diverges? then None else Some(o.state)
    case ResumeRequest(name) =>
      var o := Resume(cat, env, fuel, s, name);
      if o.Diverges? then None else Some(o.state)
    case StopRequest(name) => Some(Stop(env, s, name).0)
    case DeleteRequest(name) => Some(Delete(env, s, name).0)
    case SetHttpRequest(name, addr) => Some(SetHttp(env, s, name, addr).0)
    case AddCallbackRequest(id, source, cb) => Some(AddCallback(env, s, id, source, cb).0)
    case DeleteCallbackRequest(id) => Some(DeleteCallback(env, s, id).0)
  }

  /** A serialised run: each request with its own environment. */
  function Run(cat: Catalog, fuel: nat, s: State, rs: seq<(Env, Request)>): Option<State>
    decreases |rs|
  {
    if rs == [] then Some(s)
    else
      var next :- Handle(cat, rs[0].0, fuel, s, rs[0].1);
      Run(cat, fuel, next, rs[1..])
  }

  /** The daemon starts with no workers and whatever the tables hold. */
  function Fresh(rows: map<string, Row>, callbacks: map<Uuid, CallbackRow>): State {
    State(map[], rows, callbacks)
  }
}
