/** The `update_resume` handler (src/tools/updateResume.js): request schema (which
    already parses the resume), API key, a second parse of the resume, a read of the
    current document, then the transactional replace, with an emergency backup of the
    document read if it throws. */
module UpdateResumeTool {
  import opened Optional
  import opened Json
  import opened Failures
  import opened Security
  import opened Naming
  import opened Database
  import opened ErrorHandler
  import opened Tools

  datatype UpdateRequest = UpdateRequest(resume: Doc, apiKey: string)

  const Context: string := "updateResume"

  /** `updateResumeRequestSchema`: `resume` an object accepted by the resume schema,
      `apiKey` a non-empty string. The parsed request carries the PARSED resume. */
  function ParseRequest(args: Json, cfg: Config): (r: Option<UpdateRequest>)
    ensures r.Some? ==> && ObjectField(args, "resume").Some?
                        && cfg.resumeSchema(ObjectField(args, "resume").value)
                        && r.value.resume == cfg.parseResume(ObjectField(args, "resume").value)
                        && ApiKeyOf(args) == Some(r.value.apiKey)
    ensures r.None? ==> || ObjectField(args, "resume").None?
                        || !cfg.resumeSchema(ObjectField(args, "resume").value)
                        || ApiKeyOf(args).None?
  {
    match ObjectField(args, "resume")
    case Some(d) =>
      if cfg.resumeSchema(d) && ApiKeyOf(args).Some? then Some(UpdateRequest(cfg.parseResume(d), ApiKeyOf(args).value))
      else None
    case None => None
  }

  /** The `update_resume` handler. */
  function Handle(db: Db, args: Json, cfg: Config, env: Env): (r: (Db, Outcome))
    ensures ParseRequest(args, cfg).None? ==> r == (db, ValidationError)
    ensures ParseRequest(args, cfg).Some? && !ValidateApiKey(cfg.apiKey, ParseRequest(args, cfg).value.apiKey) ==>
              r == (db, InvalidApiKey)
    // the second `resumeSchema.parse` throws a ZodError when the first parse's output
    // is not accepted
    ensures ParseRequest(args, cfg).Some? && ValidateApiKey(cfg.apiKey, ParseRequest(args, cfg).value.apiKey)
            && !cfg.resumeSchema(ParseRequest(args, cfg).value.resume) ==>
              r == (db, ValidationError)
    // a throwing `getResume` (line 32) reaches the outer `handleError`, before any write
    ensures ParseRequest(args, cfg).Some? && ValidateApiKey(cfg.apiKey, ParseRequest(args, cfg).value.apiKey)
            && cfg.resumeSchema(ParseRequest(args, cfg).value.resume) && env.faults.preRead.Some? ==>
              r == (db, Failed(HandleError(env.faults.preRead.value, Context)))
    ensures r.1.InvalidApiKey? || r.1.ValidationError? ==> r.0 == db
    // on success the response and the document are the resume parsed a second time,
    // and the old document is backed up
    ensures r.1.Success? ==>
              && ParseRequest(args, cfg).Some?
              && cfg.resumeSchema(ParseRequest(args, cfg).value.resume)
              && r.1.resume == cfg.parseResume(ParseRequest(args, cfg).value.resume)
              && r.0.latest == WriteLatest(db, r.1.resume).latest
              && r.0.versions == db.versions[BackupName(env.storeClock) := Version(GetResume(db), db.clock)]
    ensures r.1.Failed? ==> r.0.latest == db.latest
    // a failure writes at most the store's own backup and the emergency backup
    ensures r.1.Failed? ==> Extends(db, r.0, {BackupName(env.storeClock), EmergencyName(env.emergencyClock)})
    ensures r.1.Success? || r.1.InvalidApiKey? || r.1.ValidationError? || r.1.Failed?
  {
    match ParseRequest(args, cfg)
    case None => (db, ValidationError)
    case Some(req) =>
      if !ValidateApiKey(cfg.apiKey, req.apiKey) then (db, InvalidApiKey)
      else if !cfg.resumeSchema(req.resume) then (db, ValidationError)
      else if env.faults.preRead.Some? then (db, Failed(HandleError(env.faults.preRead.value, Context)))
      else
        var current := GetResume(db);
        match Database.UpdateResume(db, cfg.parseResume(req.resume), env.storeClock, env.faults.store)
        case (db', Resolved(updated)) => (db', Success("Resume updated successfully", updated))
        case (db', Rejected(e)) => Recover(db', current, e, env, Context)
  }

  /** When the reads and the store operation succeed, an authorised update stores and
      returns the sent resume parsed twice, once by the request schema and once more at
      line 29, and the previous document is backed up. When the schema keeps unknown
      keys, as its `.passthrough()` does, every undeclared top-level key of the sent
      resume survives both parses with its value. */
  lemma UpdateSucceeds(db: Db, args: Json, cfg: Config, env: Env)
    requires db.latest.Some?
    requires ParseRequest(args, cfg).Some?
    requires ValidateApiKey(cfg.apiKey, ParseRequest(args, cfg).value.apiKey)
    requires cfg.resumeSchema(ParseRequest(args, cfg).value.resume)
    requires env.faults.preRead.None? && env.faults.store == NoFault
    ensures var stored := cfg.parseResume(cfg.parseResume(ObjectField(args, "resume").value));
            var (db', out) := Handle(db, args, cfg, env);
            && out == Success("Resume updated successfully", stored)
            && GetResume(db') == stored
            && db'.versions[BackupName(env.storeClock)].data == GetResume(db)
    ensures var sent := ObjectField(args, "resume").value;
            var db' := Handle(db, args, cfg, env).0;
            KeepsUnknownKeys(cfg) ==>
              forall k :: k in sent && k !in ResumeFields && k != "__proto__" ==>
                k in GetResume(db') && GetResume(db')[k] == sent[k]
  {
  }

  /** If the transactional replace throws, the document read before it is saved as
      `emergency-backup-<time>.json` and the response is `handleError(e, 'updateResume')`;
      if that backup throws too, its error is the one reported. */
  lemma FailedUpdateIsBackedUp(db: Db, args: Json, cfg: Config, env: Env)
    requires ParseRequest(args, cfg).Some?
    requires ValidateApiKey(cfg.apiKey, ParseRequest(args, cfg).value.apiKey)
    requires cfg.resumeSchema(ParseRequest(args, cfg).value.resume)
    requires env.faults.preRead.None?
    requires FiresIn(env.faults.store, EarlyQueries + {InsertVersion, Commit})
    ensures var (db', out) := Handle(db, args, cfg, env);
            var validated := cfg.parseResume(ParseRequest(args, cfg).value.resume);
            var (db1, c) := Database.UpdateResume(db, validated, env.storeClock, env.faults.store);
            && c == Rejected(env.faults.store.thrown)
            && db'.latest == db.latest
            && (env.faults.emergency.None? ==>
                  && db'.versions == db1.versions[EmergencyName(env.emergencyClock) := Version(GetResume(db), db1.clock)]
                  && out == Failed(HandleError(env.faults.store.thrown, Context))
                  && out.error.context == Some("updateResume"))
            && (env.faults.emergency.Some? ==>
                  db' == db1 && out == Failed(HandleError(env.faults.emergency.value, Context)))
  {
  }
}
