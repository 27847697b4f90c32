/** The `restore_version` handler (src/tools/restoreVersion.js): request schema, API
    key, sanitized lookup, validation of the snapshot, then the transactional restore,
    with an emergency backup of the document read beforehand if the restore throws. */
module RestoreVersionTool {
  import opened Optional
  import opened Json
  import opened Failures
  import opened Security
  import opened Naming
  import opened Database
  import opened ErrorHandler
  import opened Tools

  datatype RestoreRequest = RestoreRequest(filename: string, apiKey: string)

  const Context: string := "restoreVersion"

  /** `filename: z.string().min(1).regex(/^[a-zA-Z0-9._-]+$/)` */
  predicate IsFilenameField(j: Option<Json>) {
    j.Some? && j.value.JString? && |j.value.s| >= 1 && IsSafe(j.value.s)
  }

  /** `restoreVersionRequestSchema`: `filename` is a non-empty string matching
      `^[a-zA-Z0-9._-]+$`, `apiKey` a non-empty string. */
  function ParseRequest(args: Json): (r: Option<RestoreRequest>)
    ensures r.Some? ==> |r.value.filename| >= 1 && IsSafe(r.value.filename) && |r.value.apiKey| >= 1
    ensures r.Some? ==> Field(args, "filename") == Some(JString(r.value.filename)) && ApiKeyOf(args) == Some(r.value.apiKey)
    ensures r.None? ==> !IsFilenameField(Field(args, "filename")) || ApiKeyOf(args).None?
  {
    match Field(args, "filename")
    case Some(JString(f)) =>
      if |f| >= 1 && IsSafe(f) && ApiKeyOf(args).Some? then Some(RestoreRequest(f, ApiKeyOf(args).value)) else None
    case _ => None
  }

  /** The `restore_version` handler. */
  function Handle(db: Db, args: Json, cfg: Config, env: Env): (r: (Db, Outcome))
    // rejections before the store is touched leave it as it was
    ensures ParseRequest(args).None? ==> r == (db, ValidationError)
    ensures ParseRequest(args).Some? && !ValidateApiKey(cfg.apiKey, ParseRequest(args).value.apiKey) ==>
              r == (db, InvalidApiKey)
    // past those checks only the SANITIZED filename is used, for the lookup and for the
    // restore alike
    ensures ParseRequest(args).Some? && ValidateApiKey(cfg.apiKey, ParseRequest(args).value.apiKey) ==>
              r == RestoreSanitized(db, SanitizeFilename(ParseRequest(args).value.filename), cfg, env)
    ensures r.1.InvalidApiKey? || r.1.ValidationError? || r.1.VersionNotFound? || r.1.InvalidVersionData? ==> r.0 == db
    ensures r.1.Failed? ==> r.0.latest == db.latest
  {
    match ParseRequest(args)
    case None => (db, ValidationError)
    case Some(req) =>
      if !ValidateApiKey(cfg.apiKey, req.apiKey) then (db, InvalidApiKey)
      else RestoreSanitized(db, SanitizeFilename(req.filename), cfg, env)
  }

  /** The handler from line 35 on, once the filename has been sanitized: lookup,
      validation of the snapshot, the pre-read, and the transactional restore. */
  function RestoreSanitized(db: Db, name: string, cfg: Config, env: Env): (r: (Db, Outcome))
    // a throwing `getVersion` (line 35) or `getResume` (line 80) reaches the outer
    // `handleError`, before any write
    ensures env.faults.lookup.Some? ==> r == (db, Failed(HandleError(env.faults.lookup.value, Context)))
    ensures env.faults.lookup.None? && name in db.versions && cfg.resumeSchema(db.versions[name].data)
            && env.faults.preRead.Some? ==>
              r == (db, Failed(HandleError(env.faults.preRead.value, Context)))
    ensures r.1.VersionNotFound? ==> r.0 == db && r.1.filename == name && name !in db.versions
    ensures r.1.InvalidVersionData? ==> r.0 == db && name in db.versions && !cfg.resumeSchema(db.versions[name].data)
    ensures r.1.Success? ==>
              && name in db.versions
              && r.1.resume == db.versions[name].data
              && cfg.resumeSchema(r.1.resume)
              && r.0.latest == WriteLatest(db, r.1.resume).latest
              && r.0.versions == db.versions[PreRestoreName(env.storeClock) := Version(GetResume(db), db.clock)]
    ensures r.1.Failed? ==> r.0.latest == db.latest
    // a failure writes at most the restore's own backup and the emergency backup
    ensures r.1.Failed? ==> Extends(db, r.0, {PreRestoreName(env.storeClock), EmergencyName(env.emergencyClock)})
    ensures r.1.Success? || r.1.VersionNotFound? || r.1.InvalidVersionData? || r.1.Failed?
  {
    if env.faults.lookup.Some? then (db, Failed(HandleError(env.faults.lookup.value, Context)))
    else match GetVersion(db, name)
      case None => (db, VersionNotFound(name))
      case Some(data) =>
        if !cfg.resumeSchema(data) then (db, InvalidVersionData)
        else if env.faults.preRead.Some? then (db, Failed(HandleError(env.faults.preRead.value, Context)))
        else
          var current := GetResume(db);
          match Database.RestoreVersion(db, name, env.storeClock, env.faults.store)
          case (db', Resolved(restored)) => (db', Success("Resume restored from " + name, restored))
          case (db', Rejected(e)) => Recover(db', current, e, env, Context)
  }

  /** Lookup and restore both use the sanitized filename: two requests whose filenames
      sanitize alike get the same response and leave the same store. */
  lemma OnlySanitizedNameMatters(db: Db, a1: Json, a2: Json, cfg: Config, env: Env)
    requires ParseRequest(a1).Some? && ParseRequest(a2).Some?
    requires ParseRequest(a1).value.apiKey == ParseRequest(a2).value.apiKey
    requires SanitizeFilename(ParseRequest(a1).value.filename) == SanitizeFilename(ParseRequest(a2).value.filename)
    ensures Handle(db, a1, cfg, env) == Handle(db, a2, cfg, env)
  {
  }

  /** A well-formed, authorised request for a missing name answers
      `Version <sanitized name> not found` and changes nothing. */
  lemma MissingVersionNotFound(db: Db, args: Json, cfg: Config, env: Env)
    requires ParseRequest(args).Some? && ValidateApiKey(cfg.apiKey, ParseRequest(args).value.apiKey)
    requires env.faults.lookup.None?
    requires SanitizeFilename(ParseRequest(args).value.filename) !in db.versions
    ensures Handle(db, args, cfg, env) == (db, VersionNotFound(SanitizeFilename(ParseRequest(args).value.filename)))
    ensures Handle(db, args, cfg, env).1.Message() == "Version " + SanitizeFilename(ParseRequest(args).value.filename) + " not found"
  {
  }

  /** A snapshot whose data the schema rejects is never restored. */
  lemma InvalidVersionRefused(db: Db, args: Json, cfg: Config, env: Env)
    requires ParseRequest(args).Some? && ValidateApiKey(cfg.apiKey, ParseRequest(args).value.apiKey)
    requires env.faults.lookup.None?
    requires var name := SanitizeFilename(ParseRequest(args).value.filename);
             name in db.versions && !cfg.resumeSchema(db.versions[name].data)
    ensures Handle(db, args, cfg, env) == (db, InvalidVersionData)
  {
  }

  /** If the transactional restore throws, the document read before it is saved as
      `emergency-backup-<time>.json` and the response carries the restore's error; if
      that backup throws too, nothing is saved and its error is the one reported. */
  lemma FailedRestoreIsBackedUp(db: Db, args: Json, cfg: Config, env: Env)
    requires ParseRequest(args).Some? && ValidateApiKey(cfg.apiKey, ParseRequest(args).value.apiKey)
    requires env.faults.lookup.None? && env.faults.preRead.None?
    requires var name := SanitizeFilename(ParseRequest(args).value.filename);
             name in db.versions && cfg.resumeSchema(db.versions[name].data)
    requires env.faults.store.FailAt?
    ensures var (db', out) := Handle(db, args, cfg, env);
            var (db1, c) := Database.RestoreVersion(db, SanitizeFilename(ParseRequest(args).value.filename), env.storeClock, env.faults.store);
            && c == Rejected(env.faults.store.thrown)
            && db'.latest == db.latest
            && (env.faults.emergency.None? ==>
                  && db'.versions == db1.versions[EmergencyName(env.emergencyClock) := Version(GetResume(db), db1.clock)]
                  && out == Failed(HandleError(env.faults.store.thrown, Context)))
            && (env.faults.emergency.Some? ==>
                  db' == db1 && out == Failed(HandleError(env.faults.emergency.value, Context)))
  {
    var name := SanitizeFilename(ParseRequest(args).value.filename);
    var (db1, c) := Database.RestoreVersion(db, name, env.storeClock, env.faults.store);
    var q := env.faults.store.query;
    if q == InsertVersion {
      assert FiresIn(env.faults.store, {InsertVersion});
    } else if q == Commit {
      assert FiresIn(env.faults.store, {Commit});
    } else if q in {SelectCurrent, Update} {
      assert FiresIn(env.faults.store, {SelectCurrent, Update});
    } else {
      assert FiresIn(env.faults.store, {Connect, Begin, SelectVersion});
    }
    assert c == Rejected(env.faults.store.thrown);
    assert Handle(db, args, cfg, env) == Recover(db1, GetResume(db), env.faults.store.thrown, env, Context);
  }

  /** When the reads and the store operation succeed, an authorised request for a valid
      snapshot restores it and answers with exactly its data. */
  lemma RestoreSucceeds(db: Db, args: Json, cfg: Config, env: Env)
    requires db.latest.Some?
    requires ParseRequest(args).Some? && ValidateApiKey(cfg.apiKey, ParseRequest(args).value.apiKey)
    requires env.faults.lookup.None? && env.faults.preRead.None? && env.faults.store == NoFault
    requires var name := SanitizeFilename(ParseRequest(args).value.filename);
             name in db.versions && cfg.resumeSchema(db.versions[name].data)
    ensures var name := SanitizeFilename(ParseRequest(args).value.filename);
            var (db', out) := Handle(db, args, cfg, env);
            && out == Success("Resume restored from " + name, db.versions[name].data)
            && GetResume(db') == db.versions[name].data
            && db'.versions[PreRestoreName(env.storeClock)].data == GetResume(db)
  {
  }
}
