/** What the three mutating request handlers share: the configuration and outside world
    they run against, their responses, and the recovery path after a failed store write. */
module Tools {
  import opened Optional
  import opened Json
  import opened Failures
  import opened Naming
  import opened Database
  import opened ErrorHandler

  /** The configured API key and the zod `resumeSchema`, left uninterpreted:
      `resumeSchema` says whether `resumeSchema.parse` succeeds on a document, and
      `parseResume` is what it then returns. The parse is not the identity: the outer
      object keeps unknown keys (`.passthrough()`, see `KeepsUnknownKeys`), but the item
      objects of its arrays
      are plain `z.object`s, which drop keys they do not know. `partialResumeSchema` is
      `resumeSchema.partial()`; every field is already optional, so it accepts and
      returns the same as `resumeSchema`. */
  datatype Config = Config(apiKey: string, resumeSchema: Doc -> bool, parseResume: Doc -> Doc)

  /** What zod guarantees of any schema: the output of a successful parse is itself
      accepted. */
  ghost predicate ParseKeepsValid(cfg: Config) {
    forall d :: cfg.resumeSchema(d) ==> cfg.resumeSchema(cfg.parseResume(d))
  }

  /** The keys `resumeSchema` declares; any other key is unknown to it. */
  const ResumeFields: set<string> :=
    {"name", "email", "phone", "location", "summary", "experience", "education",
     "skills", "certifications", "projects", "languages"}

  /** What `.passthrough()` guarantees of the outer object: a successful parse keeps every
      undeclared key with its value as given, except `__proto__`, which zod never copies. */
  ghost predicate KeepsUnknownKeys(cfg: Config) {
    forall d, k :: cfg.resumeSchema(d) && k in d && k !in ResumeFields && k != "__proto__" ==>
      k in cfg.parseResume(d) && cfg.parseResume(d)[k] == d[k]
  }

  /** Which awaited database call of a handler throws: `lookup` is the handler's own
      `getVersion`, `preRead` its own `getResume`, `store` the transactional operation,
      `emergency` the emergency backup's `createVersion`. */
  datatype Faults = Faults(lookup: Option<Thrown>, preRead: Option<Thrown>, store: Fault, emergency: Option<Thrown>)

  const NoFaults: Faults := Faults(None, None, NoFault, None)

  /** The values of the two `new Date().toISOString()` a handler may read: the store
      operation's and the emergency backup's, and the faults. */
  datatype Env = Env(storeClock: string, emergencyClock: string, faults: Faults)

  /** The response of a handler, before `JSON.stringify`. */
  datatype Outcome =
    | Success(message: string, resume: Doc)
    | InvalidApiKey
    | ValidationError
    | VersionNotFound(filename: string)
    | InvalidVersionData
    | Failed(error: ErrorPayload)
  {
    /** `isError: true` is set on every response but a success. */
    predicate IsError() {
      !Success?
    }

    /** The `message` field of the response. */
    function Message(): string {
      match this
      case Success(m, _) => m
      case InvalidApiKey => "Invalid API key"
      case ValidationError => "Validation error"
      case VersionNotFound(name) => "Version " + name + " not found"
      case InvalidVersionData => "Version data is invalid and cannot be restored"
      case Failed(p) => p.message
    }
  }

  /** A member of a request object. */
  function Field(args: Json, key: string): Option<Json> {
    if args.JObject? && key in args.fields then Some(args.fields[key]) else None
  }

  /** A member of a request object that is itself an object. */
  function ObjectField(args: Json, key: string): (d: Option<Doc>)
    ensures d.Some? <==> Field(args, key).Some? && Field(args, key).value.JObject?
    ensures d.Some? ==> Field(args, key) == Some(JObject(d.value))
  {
    match Field(args, key)
    case Some(JObject(fields)) => Some(fields)
    case _ => None
  }

  /** The request schemas' `apiKey: z.string().min(1)`. */
  function ApiKeyOf(args: Json): (k: Option<string>)
    ensures k.Some? ==> |k.value| >= 1 && Field(args, "apiKey") == Some(JString(k.value))
    ensures k.Some? <==> Field(args, "apiKey").Some? && Field(args, "apiKey").value.JString?
                         && |Field(args, "apiKey").value.s| >= 1
  {
    match Field(args, "apiKey")
    case Some(JString(s)) => if |s| >= 1 then Some(s) else None
    case _ => None
  }

  /** The handlers' `catch (e) { await createEmergencyBackup(database, currentResume, e);
      throw e; }` followed by the outer `handleError(error, context)`: the document read
      before the write is backed up, and the response carries the write's error, or the
      backup's error if the backup threw too. */
  function Recover(db: Db, current: Doc, storeError: Thrown, env: Env, context: string): (r: (Db, Outcome))
    ensures r.1.Failed?
    ensures r.0.latest == db.latest
    ensures env.faults.emergency.None? ==>
              r.0.versions == db.versions[EmergencyName(env.emergencyClock) := Version(current, db.clock)]
              && r.1.error == HandleError(storeError, context)
    ensures env.faults.emergency.Some? ==>
              r.0 == db && r.1.error == HandleError(env.faults.emergency.value, context)
    ensures Extends(db, r.0, {EmergencyName(env.emergencyClock)})
  {
    match CreateEmergencyBackup(db, current, env.emergencyClock, env.faults.emergency)
    case (db', Resolved(_)) => (db', Failed(HandleError(storeError, context)))
    case (db', Rejected(backupError)) => (db', Failed(HandleError(backupError, context)))
  }
}
