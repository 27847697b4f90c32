/** What holds across any sequence of mutating requests: a current document always
    exists, it always satisfies the resume schema once it did, and snapshots are only
    ever added or refreshed under the names the system generates. */
module Invariants {
  import opened Json
  import opened Security
  import opened Naming
  import opened Database
  import opened Tools
  import UpdateResumeTool
  import PatchResumeTool
  import RestoreVersionTool

  /** A call of one of the three mutating tools, with its raw arguments. */
  datatype Request = UpdateCall(args: Json) | PatchCall(args: Json) | RestoreCall(args: Json)

  function Serve(db: Db, req: Request, cfg: Config, env: Env): (Db, Outcome) {
    match req
    case UpdateCall(args) => UpdateResumeTool.Handle(db, args, cfg, env)
    case PatchCall(args) => PatchResumeTool.Handle(db, args, cfg, env)
    case RestoreCall(args) => RestoreVersionTool.Handle(db, args, cfg, env)
  }

  /** The names a request may write: its store backup and its emergency backup. */
  function Touched(env: Env): set<string> {
    {BackupName(env.storeClock), PreRestoreName(env.storeClock), EmergencyName(env.emergencyClock)}
  }

  /** The store is ready and its document satisfies the schema. */
  predicate Sound(db: Db, cfg: Config) {
    Ready(db) && cfg.resumeSchema(GetResume(db))
  }

  /** The update stores the parse of a document the schema accepted, so it needs the
      parse's output to be accepted as well. */
  lemma UpdateKeepsSound(db: Db, args: Json, cfg: Config, env: Env)
    requires Sound(db, cfg) && ParseKeepsValid(cfg)
    ensures Sound(UpdateResumeTool.Handle(db, args, cfg, env).0, cfg)
    ensures Extends(db, UpdateResumeTool.Handle(db, args, cfg, env).0, Touched(env))
  {
    var (db', out) := UpdateResumeTool.Handle(db, args, cfg, env);
    if out.Success? {
      assert GetResume(db') == out.resume;
    }
  }

  lemma PatchKeepsSound(db: Db, args: Json, cfg: Config, env: Env)
    requires Sound(db, cfg)
    ensures Sound(PatchResumeTool.Handle(db, args, cfg, env).0, cfg)
    ensures Extends(db, PatchResumeTool.Handle(db, args, cfg, env).0, Touched(env))
  {
    var (db', out) := PatchResumeTool.Handle(db, args, cfg, env);
    if out.Success? {
      assert GetResume(db') == out.resume;
    }
  }

  lemma RestoreKeepsSound(db: Db, args: Json, cfg: Config, env: Env)
    requires Sound(db, cfg)
    ensures Sound(RestoreVersionTool.Handle(db, args, cfg, env).0, cfg)
    ensures Extends(db, RestoreVersionTool.Handle(db, args, cfg, env).0, Touched(env))
  {
    var req := RestoreVersionTool.ParseRequest(args);
    if req.Some? && ValidateApiKey(cfg.apiKey, req.value.apiKey) {
      RestoreSanitizedKeepsSound(db, SanitizeFilename(req.value.filename), cfg, env);
    }
  }

  /** The restore past the request checks, for any filename. */
  lemma RestoreSanitizedKeepsSound(db: Db, name: string, cfg: Config, env: Env)
    requires Sound(db, cfg)
    ensures Sound(RestoreVersionTool.RestoreSanitized(db, name, cfg, env).0, cfg)
    ensures Extends(db, RestoreVersionTool.RestoreSanitized(db, name, cfg, env).0, Touched(env))
  {
    var (db', out) := RestoreVersionTool.RestoreSanitized(db, name, cfg, env);
    if out.Success? {
      assert GetResume(db') == out.resume;
    } else if out.Failed? && db' != db {
      var (db1, c) := Database.RestoreVersion(db, name, env.storeClock, env.faults.store);
      assert c.Rejected?;
      assert db' == Recover(db1, GetResume(db), c.reason, env, RestoreVersionTool.Context).0;
    }
  }

  /** One request keeps the store sound and changes no snapshot outside the names it
      generates. */
  lemma ServeKeepsSound(db: Db, req: Request, cfg: Config, env: Env)
    requires Sound(db, cfg) && ParseKeepsValid(cfg)
    ensures Sound(Serve(db, req, cfg, env).0, cfg)
    ensures Extends(db, Serve(db, req, cfg, env).0, Touched(env))
  {
    match req
    case UpdateCall(args) => UpdateKeepsSound(db, args, cfg, env);
    case PatchCall(args) => PatchKeepsSound(db, args, cfg, env);
    case RestoreCall(args) => RestoreKeepsSound(db, args, cfg, env);
  }

  /** The store after serving `reqs` in order, the i-th request with the i-th
      environment. */
  function Run(db: Db, reqs: seq<Request>, cfg: Config, envs: seq<Env>): Db
    requires |envs| == |reqs|
    decreases |reqs|
  {
    if reqs == [] then db
    else Run(Serve(db, reqs[0], cfg, envs[0]).0, reqs[1..], cfg, envs[1..])
  }

  /** Every name any of the requests may write. */
  function AllTouched(envs: seq<Env>): set<string> {
    if envs == [] then {} else Touched(envs[0]) + AllTouched(envs[1..])
  }

  /** Any sequence of requests keeps the store sound, never deletes a snapshot, and
      changes none outside the generated names. */
  lemma {:induction false} RunKeepsSound(db: Db, reqs: seq<Request>, cfg: Config, envs: seq<Env>)
    requires |envs| == |reqs|
    requires Sound(db, cfg) && ParseKeepsValid(cfg)
    ensures Sound(Run(db, reqs, cfg, envs), cfg)
    ensures Extends(db, Run(db, reqs, cfg, envs), AllTouched(envs))
    decreases |reqs|
  {
    if reqs != [] {
      var db1 := Serve(db, reqs[0], cfg, envs[0]).0;
      ServeKeepsSound(db, reqs[0], cfg, envs[0]);
      RunKeepsSound(db1, reqs[1..], cfg, envs[1..]);
    }
  }

  /** Starting from a freshly initialized store whose `{}` satisfies the schema, and
      with a schema whose parse output it accepts again, every later state has a
      current document that satisfies it. */
  lemma InitializedStoreStaysSound(db: Db, reqs: seq<Request>, cfg: Config, envs: seq<Env>)
    requires |envs| == |reqs|
    requires ClockAhead(db) && db.latest.None? && cfg.resumeSchema(EmptyDoc) && ParseKeepsValid(cfg)
    ensures Run(InitializeSchema(db), reqs, cfg, envs).latest.Some?
    ensures cfg.resumeSchema(GetResume(Run(InitializeSchema(db), reqs, cfg, envs)))
  {
    RunKeepsSound(InitializeSchema(db), reqs, cfg, envs);
  }
}
