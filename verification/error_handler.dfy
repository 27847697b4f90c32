/** Error payloads and the emergency backup (src/utils/errorHandler.js). */
module ErrorHandler {
  import opened Optional
  import opened Json
  import opened Failures
  import opened Naming
  import opened Database

  /** `{ error: true, message, context }`; `context` is `undefined` (here `None`) when the
      caller passed the empty string. */
  datatype ErrorPayload = ErrorPayload(message: string, context: Option<string>)

  const UnexpectedMessage: string := "An unexpected error occurred"

  /** `handleError(error, context)`: an `Error` keeps its own message, anything else
      gets the generic one; `context || undefined` drops an empty context. */
  function HandleError(error: Thrown, context: string): (p: ErrorPayload)
    ensures error.ErrorObject? ==> p.message == error.message
    ensures error.NonError? ==> p.message == UnexpectedMessage
    ensures p.context.None? <==> context == ""
    ensures p.context.Some? ==> p.context.value == context
  {
    var ctx := if context == "" then None else Some(context);
    match error
    case ErrorObject(message) => ErrorPayload(message, ctx)
    case NonError => ErrorPayload(UnexpectedMessage, ctx)
  }

  /** `createEmergencyBackup(database, resumeData, error)`: upsert the document under
      `emergency-backup-<now>.json` and return that name; if the write throws, the
      write's own error is rethrown. */
  function CreateEmergencyBackup(db: Db, resumeData: Doc, now: string, fault: Option<Thrown>): (r: (Db, Completion<string>))
    ensures fault.None? ==> r.1 == Resolved(EmergencyName(now))
    ensures fault.None? ==> r.0.versions == db.versions[EmergencyName(now) := Version(resumeData, db.clock)]
    ensures r.0.latest == db.latest
    ensures fault.Some? ==> r == (db, Rejected(fault.value))
    ensures Extends(db, r.0, {EmergencyName(now)})
  {
    var filename := EmergencyName(now);
    match CreateVersion(db, filename, resumeData, fault)
    case (db', Resolved(_)) => (db', Resolved(filename))
    case (db', Rejected(backupError)) => (db', Rejected(backupError))
  }
}
