/** The `patch_resume` handler (src/tools/patchResume.js): request schema (which
    parses the partial), API key,
    a read of the current document, validation of the merged document, then the
    transactional patch, with an emergency backup of the document read if it throws. */
module PatchResumeTool {
  import opened Optional
  import opened Json
  import opened Failures
  import opened Security
  import opened Naming
  import opened Database
  import opened ErrorHandler
  import opened Tools

  datatype PatchRequest = PatchRequest(partial: Doc, apiKey: string)

  const Context: string := "patchResume"

  /** `patchResumeRequestSchema`: `partialResume` an object accepted by the partial
      resume schema, `apiKey` a non-empty string. The parsed request carries the PARSED
      partial. */
  function ParseRequest(args: Json, cfg: Config): (r: Option<PatchRequest>)
    ensures r.Some? ==> && ObjectField(args, "partialResume").Some?
                        && cfg.resumeSchema(ObjectField(args, "partialResume").value)
                        && r.value.partial == cfg.parseResume(ObjectField(args, "partialResume").value)
                        && ApiKeyOf(args) == Some(r.value.apiKey)
    ensures r.None? ==> || ObjectField(args, "partialResume").None?
                        || !cfg.resumeSchema(ObjectField(args, "partialResume").value)
                        || ApiKeyOf(args).None?
  {
    match ObjectField(args, "partialResume")
    case Some(p) =>
      if cfg.resumeSchema(p) && ApiKeyOf(args).Some? then Some(PatchRequest(cfg.parseResume(p), ApiKeyOf(args).value))
      else None
    case None => None
  }

  /** The `patch_resume` handler. */
  function Handle(db: Db, args: Json, cfg: Config, env: Env): (r: (Db, Outcome))
    ensures ParseRequest(args, cfg).None? ==> r == (db, ValidationError)
    ensures ParseRequest(args, cfg).Some?
            && !ValidateApiKey(cfg.apiKey, ParseRequest(args, cfg).value.apiKey) ==>
              r == (db, InvalidApiKey)
    // a throwing `getResume` (line 32) reaches the outer `handleError`, before any write
    ensures ParseRequest(args, cfg).Some? && ValidateApiKey(cfg.apiKey, ParseRequest(args, cfg).value.apiKey)
            && env.faults.preRead.Some? ==>
              r == (db, Failed(HandleError(env.faults.preRead.value, Context)))
    ensures r.1.InvalidApiKey? || r.1.ValidationError? ==> r.0 == db
    // a merge the schema rejects is never written
    ensures ParseRequest(args, cfg).Some? && env.faults.preRead.None?
            && !cfg.resumeSchema(Spread(GetResume(db), ParseRequest(args, cfg).value.partial)) ==>
              r.0 == db && r.1.IsError()
    // an authorised patch whose merge the schema rejects is a ZodError
    ensures ParseRequest(args, cfg).Some? && ValidateApiKey(cfg.apiKey, ParseRequest(args, cfg).value.apiKey)
            && env.faults.preRead.None?
            && !cfg.resumeSchema(Spread(GetResume(db), ParseRequest(args, cfg).value.partial)) ==>
              r == (db, ValidationError)
    // on success the response and the document are the merge of the document read
    // with the partial, which passed the schema, and the old document is backed up
    ensures r.1.Success? ==>
              && ParseRequest(args, cfg).Some?
              && r.1.resume == Spread(GetResume(db), ParseRequest(args, cfg).value.partial)
              && cfg.resumeSchema(r.1.resume)
              && r.0.latest == WriteLatest(db, r.1.resume).latest
              && r.0.versions == db.versions[BackupName(env.storeClock) := Version(GetResume(db), db.clock)]
    ensures r.1.Failed? ==> r.0.latest == db.latest
    // a failure writes at most the store's own backup and the emergency backup
    ensures r.1.Failed? ==> Extends(db, r.0, {BackupName(env.storeClock), EmergencyName(env.emergencyClock)})
    ensures r.1.Success? || r.1.InvalidApiKey? || r.1.ValidationError? || r.1.Failed?
  {
    match ParseRequest(args, cfg)
    case None => (db, ValidationError)
    case Some(req) =>
      if !ValidateApiKey(cfg.apiKey, req.apiKey) then (db, InvalidApiKey)
      else if env.faults.preRead.Some? then (db, Failed(HandleError(env.faults.preRead.value, Context)))
      else
        var current := GetResume(db);
        var merged := Spread(current, req.partial);
        if !cfg.resumeSchema(merged) then (db, ValidationError)
        else
          // the store is given the partial and merges it with its own read
          match Database.PatchResume(db, req.partial, env.storeClock, env.faults.store)
          case (db', Resolved(updated)) => (db', Success("Resume patched successfully", updated))
          case (db', Rejected(e)) => Recover(db', current, e, env, Context)
  }

  /** When the reads and the store operation succeed, an authorised patch whose merge
      the schema accepts stores and returns the merge of the document with the parsed
      partial, which is what the handler validated (the output of that validation is not
      used). When the schema keeps unknown keys, every undeclared key of the sent
      partial ends up in the document with its value. */
  lemma PatchSucceeds(db: Db, args: Json, cfg: Config, env: Env)
    requires db.latest.Some?
    requires ParseRequest(args, cfg).Some?
    requires ValidateApiKey(cfg.apiKey, ParseRequest(args, cfg).value.apiKey)
    requires env.faults.preRead.None? && env.faults.store == NoFault
    requires cfg.resumeSchema(Spread(GetResume(db), ParseRequest(args, cfg).value.partial))
    ensures var merged := Spread(GetResume(db), cfg.parseResume(ObjectField(args, "partialResume").value));
            var (db', out) := Handle(db, args, cfg, env);
            && out == Success("Resume patched successfully", merged)
            && GetResume(db') == merged
            && db'.versions[BackupName(env.storeClock)].data == GetResume(db)
    ensures var sent := ObjectField(args, "partialResume").value;
            var db' := Handle(db, args, cfg, env).0;
            KeepsUnknownKeys(cfg) ==>
              forall k :: k in sent && k !in ResumeFields && k != "__proto__" ==>
                k in GetResume(db') && GetResume(db')[k] == sent[k]
  {
  }

  /** If the transactional patch throws, the document read before it is saved as
      `emergency-backup-<time>.json` and the response carries the patch's error; if that
      backup throws too, its error is the one reported. */
  lemma FailedPatchIsBackedUp(db: Db, args: Json, cfg: Config, env: Env)
    requires ParseRequest(args, cfg).Some?
    requires ValidateApiKey(cfg.apiKey, ParseRequest(args, cfg).value.apiKey)
    requires env.faults.preRead.None?
    requires cfg.resumeSchema(Spread(GetResume(db), ParseRequest(args, cfg).value.partial))
    requires FiresIn(env.faults.store, EarlyQueries + {InsertVersion, Commit})
    ensures var (db', out) := Handle(db, args, cfg, env);
            var (db1, c) := Database.PatchResume(db, ParseRequest(args, cfg).value.partial, env.storeClock, env.faults.store);
            && c == Rejected(env.faults.store.thrown)
            && db'.latest == db.latest
            && (env.faults.emergency.None? ==>
                  && db'.versions == db1.versions[EmergencyName(env.emergencyClock) := Version(GetResume(db), db1.clock)]
                  && out == Failed(HandleError(env.faults.store.thrown, Context)))
            && (env.faults.emergency.Some? ==>
                  db' == db1 && out == Failed(HandleError(env.faults.emergency.value, Context)))
  {
  }
}
