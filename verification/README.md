# Versioned resume store — a Dafny model

This project models the core of `resume-mcp`: a server that keeps one JSON résumé
document in PostgreSQL, writes a named snapshot before each change, and can restore any
snapshot. The model covers:

- the store (`src/database/index.js`): `initializeSchema` (only the part that ensures a row
  exists), `getResume`, `updateResume`, `patchResume`, `createVersion`, `getVersion`,
  `listVersions` and `restoreVersion`;
- the three mutating request handlers (`src/tools/updateResume.js`, `patchResume.js`,
  `restoreVersion.js`);
- the API key check and the filename sanitizer (`src/utils/security.js`);
- error payloads and the emergency backup (`src/utils/errorHandler.js`).

Each operation is a pure function. It takes the store state (`Database.Db`) and returns
a new state plus a result. The store state has three parts:

- `latest`: the data of the highest-id `resumes` row, absent when the table is empty;
- `versions`: the `resume_versions` rows, keyed by their UNIQUE filename;
- `clock`: a counter that stands in for `CURRENT_TIMESTAMP`.

The outside world comes in as explicit parameters:

- `Tools.Config`: the configured API key, and the zod `resumeSchema` as two
  uninterpreted functions: `resumeSchema`, whether `parse` succeeds on a document, and
  `parseResume`, what it then returns. Two facts about that output are stated as
  predicates and required where they are used: `Tools.ParseKeepsValid` (zod accepts its
  own output) and `Tools.KeepsUnknownKeys` (the passthrough keeps every undeclared
  top-level key except `__proto__`, with its value);
- `Tools.Env`: the two values `new Date().toISOString()` may return (the store's and
  the emergency backup's), and which database call throws, if any.

A failing query is named with `Failures.Fault`. `Failures.Completion` says whether an
awaited call resolved or rejected. The handlers return `Tools.Outcome`, which is the
response before `JSON.stringify`.

Modules follow the source files:

- `Security`: security.js.
- `Naming`: the timestamp-derived snapshot names.
- `Json`: JSON values and the object spread.
- `Database`: database/index.js.
- `ErrorHandler`: errorHandler.js.
- `Tools`: what the handlers share.
- `UpdateResumeTool`, `PatchResumeTool`, `RestoreVersionTool`: the three handler files.
- `Invariants`: properties of any sequence of requests.
- `Scenario`: a worked history.

## Behaviour worth knowing

- `createVersion` runs its upsert through `this.pool`, not through the transaction's
  `client` (src/database/index.js:158). So the pre-write backup is committed on its own,
  outside BEGIN/COMMIT. A failure in the backup write rolls the update back. A failure at
  COMMIT loses the update but keeps the backup (`Database.BackupOutsideTransaction`).
- When the emergency backup itself throws, `createEmergencyBackup` rethrows that error
  (src/utils/errorHandler.js:33-36). It then replaces the store's error in the response
  (`Tools.Recover`).
- With no API key configured, every `update_resume`, `patch_resume` and
  `restore_version` request is rejected (src/utils/security.js:8-11). The read-only
  `get_resume` and `list_versions` tools check no key and still answer.
- The request schema is checked before the API key (for example
  src/tools/updateResume.js:9-12). A request with a malformed body is answered
  "Validation error" even when its key is wrong. In every case, no store access happens
  before the key check.
- A zod parse is not the identity. The outer resume object keeps unknown keys
  (`.passthrough()`, src/validation/schemas.js:65; `Tools.KeepsUnknownKeys`), but the items of its arrays are plain `z.object`s, which drop keys
  they do not declare (src/validation/schemas.js:4-65). A `__proto__` key is dropped
  too.
- The update handler parses the resume twice: once in the request schema
  (src/tools/updateResume.js:9) and once more at line 29. It stores the output of the
  second parse.
- The patch handler stores the PARSED partial, merged by the store with its own read.
  It validates the same merge at src/tools/patchResume.js:38 but does not use the parse
  output.
- The restore handler only checks the snapshot's data (src/tools/restoreVersion.js:57).
  The store restores the raw snapshot, not the parse output.

## Model

| member | source | states |
|---|---|---|
| `Security.ValidateApiKey` | src/utils/security.js:6-19 | A blank configured key rejects everything. A blank provided key is rejected. Otherwise the result is exactly `provided == configured`, so acceptance implies equal, non-empty keys. |
| `Security.NoConfiguredKeyRejectsAll` | src/utils/security.js:8-11 | With a blank configured key, no provided key is accepted. |
| `Security.ConfiguredKeyAcceptsItself` | src/utils/security.js:14-18 | A non-blank configured key accepts itself and nothing else. |
| `Security.StripSeparators` | src/utils/security.js:27 | The first replacement leaves no `/` or `\`, never lengthens the name, and leaves separator-free names unchanged. A single character is deleted exactly when it is a separator. |
| `Security.StripSeparatorsAppend` | src/utils/security.js:27 | The replacement works piecewise: stripping `a + b` is stripping `a` followed by stripping `b`. With the one-character cases this fixes the result on every input: the name with its separators deleted. |
| `Security.DropDotPairs` | src/utils/security.js:28 | The non-overlapping left-to-right deletion of `..` never leaves two adjacent dots, on any input. It keeps safe names safe, leaves names without `..` unchanged, and keeps a leading non-dot. |
| `Security.StripUnsafe` | src/utils/security.js:29 | The last replacement leaves only `[a-zA-Z0-9._-]` and leaves safe names unchanged. A single character is kept exactly when it is safe, and deleted otherwise. |
| `Security.StripUnsafeAppend` | src/utils/security.js:29 | The replacement works piecewise: stripping `a + b` is stripping `a` followed by stripping `b`. With the one-character cases this fixes the result on every input: the safe characters, in order. |
| `Security.SanitizeFilename` | src/utils/security.js:24-30 | The output contains only `[a-zA-Z0-9._-]`, has no `/` or `\`, and is never longer than the input. |
| `Security.SanitizeKeepsCleanNames` | src/utils/security.js:26-29 | A name over the safe alphabet with no `..` is returned unchanged. |
| `Security.SanitizeSafeName` | src/utils/security.js:27-29 | For a name already over the safe alphabet, sanitizing only deletes `..` pairs, and the result has no `..`. |
| `Security.DotRunHalves` | src/utils/security.js:28 | A run of k dots at the start of a name, followed by a non-dot or the end, becomes k mod 2 dots, for example `...` becomes `.`. The rest is scanned on its own. |
| `Security.DropDotPairsAppend` | src/utils/security.js:28 | The deletion works piecewise across any cut whose left part does not end in a dot. |
| `Security.DotRunAnywhere` | src/utils/security.js:28 | A maximal run of k dots anywhere in a name becomes k mod 2 dots, and the text on each side is treated on its own, so `a...b` becomes `a.b`. With `DropDotPairsAppend` and `DotRunHalves` this fixes the pass on every input. |
| `Security.TraversalIsNeutralised` | src/utils/security.js:26-29 | For any lower-case names `a` and `b`, `../../a/b` sanitizes to `ab`: the separators go first, then both `..` pairs. |
| `Security.EtcPasswd` | src/utils/security.js:26-29 | `../../etc/passwd` sanitizes to `etcpasswd`. |
| `Security.SanitizeNotIdempotent` | src/utils/security.js:27-29 | On arbitrary input the last pass can join two dots: `. .` gives `..`, which a second pass turns into the empty name. |
| `Naming.Stamp` | src/utils/errorHandler.js:28 | `ts.replace(/[:.]/g,'-')` keeps the length. Every `:` and `.` becomes `-`, every other character is kept in place, and no `:` or `.` is left. |
| `Naming.IsoStamp` | src/database/index.js:90 | On an ISO timestamp, the stamp is the timestamp with the `:` at positions 13 and 16 and the `.` at 19 replaced by `-`, for example `2024-01-02T03-04-05-678Z`. |
| `Naming.GeneratedNameIsRestorable` | src/utils/errorHandler.js:28-29 | For an ISO timestamp, every `backup-`, `pre-restore-` and `emergency-backup-` name has no `:`, passes the restore request's filename rule, and is a fixed point of `sanitizeFilename`. |
| `Naming.StampInjective` | src/database/index.js:90 | Distinct ISO timestamps give distinct stamps. |
| `Naming.GeneratedNamesCollideOnlyAtSameInstant` | src/database/index.js:90-91 | Two generated names of one kind are equal only when their timestamps are equal. Overwriting a generated snapshot therefore needs two writes in the same millisecond. |
| `Naming.GeneratedKindsAreDisjoint` | src/database/index.js:194-195 | A backup, a pre-restore and an emergency name never coincide. |
| `Json.Spread` | src/database/index.js:116 | `{...cur, ...partial}` has exactly the keys of both. A key of the partial takes the partial's value. Any other key keeps the base's value. |
| `Json.SpreadIsShallow` | src/database/index.js:116 | A nested object in the partial replaces the old nested object wholesale. Keys only the old one had are gone. |
| `Json.SpreadIdempotent` | src/database/index.js:116 | Applying the same patch twice equals applying it once. |
| `Json.SpreadCompose` | src/database/index.js:116 | Two successive patches equal one patch with the second merged over the first. |
| `Json.SpreadOneKey` | src/database/index.js:116 | A one-key patch equals a single-key update of the base. |
| `Json.SpreadEmpty` | src/database/index.js:116 | The empty patch changes nothing. |
| `Database.InitializeSchema` | src/database/index.js:58-62 | An empty `resumes` table gets one `{}` row. A non-empty one is untouched. Snapshots are unchanged. |
| `Database.GetResume` | src/database/index.js:65-70 | Returns the data of the highest-id row, or `{}` when there is no row. |
| `Database.InitializeThenRead` | src/database/index.js:58-70 | After initialization a row always exists. An empty table reads as `{}`. |
| `Database.GetVersion` | src/database/index.js:149-155 | Returns a value exactly when the filename is present, and then the value is that snapshot's data. |
| `Database.PutVersion` | src/database/index.js:157-162 | The upsert adds or overwrites exactly one filename, with the new data and a fresh `created_at`. All other snapshots and the document are unchanged. |
| `Database.CreateVersion` | src/database/index.js:157-162 | A throwing pool query leaves the store unchanged. Otherwise the call performs the upsert. |
| `Database.UpsertTwice` | src/database/index.js:157-162 | Writing name n with A and then with B leaves one entry n, holding B, with a newer `created_at`. Other names are unchanged. |
| `Database.WriteLatest` | src/database/index.js:84-87 | The `UPDATE` targets the highest-id row. With no row it changes nothing. |
| `Database.UpdateWithBackup` | src/database/index.js:83-98 | UPDATE, then the pool-written backup of the old document, then COMMIT. On success the document is replaced and the backup written. A throwing backup changes nothing. A throwing COMMIT keeps only the backup. Only the backup name is touched. |
| `Database.UpdateResume` | src/database/index.js:72-102 | On success: the new document is stored and returned, and `backup-<ts'>.json` holds the old one. On failure the document is unchanged, and only a failing COMMIT leaves anything behind. |
| `Database.UpdateRoundTrip` | src/database/index.js:72-102 | When a row exists and nothing fails, replace-then-read returns the new document, and the backup holds the previous one. |
| `Database.UpdateWithoutRowIsLost` | src/database/index.js:84-95 | With an empty table the call still returns the document, but the `UPDATE` matches no row and a read still gives `{}`. |
| `Database.PatchResume` | src/database/index.js:104-137 | On success: the merge of the old document with the partial is stored and returned, and the old document is backed up. On failure the document is unchanged. |
| `Database.PatchRoundTrip` | src/database/index.js:110-130 | After a patch, every key of the partial has the partial's value. Every other key keeps its old value. No other key appears. The old document is in the backup. |
| `Database.RestoreVersion` | src/database/index.js:164-206 | A missing name throws `Version <name> not found` before any write. On success the document becomes the snapshot's data, which is returned, and `pre-restore-<ts'>.json` holds the old document. On failure the document is unchanged. |
| `Database.RestoreMissingThrows` | src/database/index.js:170-177 | Restoring a missing name throws and changes neither the document nor any snapshot. |
| `Database.RestorePresent` | src/database/index.js:179-199 | Restoring a present name sets the document to its data, returns that data, and backs up the prior document. The restored snapshot itself is unchanged. |
| `Database.BackupOutsideTransaction` | src/database/index.js:89-98 | If the backup throws, ROLLBACK undoes the UPDATE and nothing is written. If COMMIT throws, the update is undone but the backup stays. |
| `Database.ListVersions` | src/database/index.js:139-147 | Lists every snapshot exactly once, with its `created_at`, newest first. |
| `ErrorHandler.HandleError` | src/utils/errorHandler.js:4-21 | An `Error` keeps its message. Anything else gets "An unexpected error occurred". An empty context becomes `undefined`. |
| `ErrorHandler.CreateEmergencyBackup` | src/utils/errorHandler.js:26-37 | On success the data is upserted under `emergency-backup-<ts'>.json`, and that name is returned. If the write throws, its error is rethrown and nothing is written. |
| `Tools.ApiKeyOf` | src/validation/schemas.js:86 | A request's `apiKey` is accepted exactly when it is a non-empty string, and then it is returned as given. |
| `Tools.Recover` | src/tools/patchResume.js:60-63 | After a failed store write, the document read earlier is saved as an emergency backup and the response carries the write's error. If the backup throws, nothing is saved and the backup's error is reported. The document never changes. |
| `RestoreVersionTool.ParseRequest` | src/tools/restoreVersion.js:12 | A parsed request has a non-empty filename over `[a-zA-Z0-9._-]` and a non-empty API key. A request with both is parsed. |
| `RestoreVersionTool.Handle` | src/tools/restoreVersion.js:9-138 | A request failing the schema gives "Validation error", and an invalid key gives "Invalid API key", in both cases with no store access. After those checks the handler is exactly the restore of the SANITIZED filename. The document changes only on success. |
| `RestoreVersionTool.RestoreSanitized` | src/tools/restoreVersion.js:32-106 | "Not found" and "invalid data" leave the store unchanged. On success the response is the named snapshot's data, which passed the schema, and the old document is backed up. If `getVersion` (line 35) throws, or the `getResume` at line 80 throws for a valid snapshot, the answer is `handleError` of that error with the store unchanged. A failure keeps the document and writes nothing but the pre-restore and emergency backups. |
| `RestoreVersionTool.OnlySanitizedNameMatters` | src/tools/restoreVersion.js:32-84 | Two authorised requests whose filenames sanitize alike get the same response and leave the same store. |
| `RestoreVersionTool.MissingVersionNotFound` | src/tools/restoreVersion.js:37-54 | A missing snapshot is answered "Version <sanitized name> not found" and the state is unchanged. |
| `RestoreVersionTool.InvalidVersionRefused` | src/tools/restoreVersion.js:57-77 | Snapshot data failing the schema gives "Version data is invalid and cannot be restored" and the state is unchanged. |
| `RestoreVersionTool.FailedRestoreIsBackedUp` | src/tools/restoreVersion.js:80-106 | If the store restore throws, the document read at line 80 is written as `emergency-backup-*` and the restore's error is reported. If that backup throws too, the backup's error is reported. |
| `RestoreVersionTool.RestoreSucceeds` | src/tools/restoreVersion.js:84-101 | With the lookup, the pre-read and the store restore not failing (a failing emergency backup is never reached), the response's resume equals the snapshot's data, the document becomes that data, and the prior document is backed up. |
| `PatchResumeTool.ParseRequest` | src/tools/patchResume.js:12 | A request is parsed exactly when `partialResume` is an object the schema accepts and the key is a non-empty string. The parsed request carries zod's OUTPUT for the partial, not the object as sent. |
| `PatchResumeTool.Handle` | src/tools/patchResume.js:9-96 | A schema failure or an invalid key is answered with no store access. An authorised patch whose line-35 merge the schema rejects is answered "Validation error" and writes nothing. On success, the response and the stored document are the merge of the document with the parsed partial, and the old document is backed up. If the line-32 `getResume` throws after the key check, the answer is `handleError` of that error with the store unchanged. A failure keeps the document and writes nothing but the store's backup and the emergency backup. |
| `PatchResumeTool.PatchSucceeds` | src/tools/patchResume.js:32-58 | With the pre-read and the store patch not failing (a failing emergency backup is never reached), the store merges the parsed partial itself, gets the same merge the handler validated, and returns it. For a passthrough schema, every undeclared key of the sent partial ends up in the document with its value. |
| `PatchResumeTool.FailedPatchIsBackedUp` | src/tools/patchResume.js:60-64 | A failing store patch leads to an emergency backup of the document read at line 32, then an error payload. |
| `UpdateResumeTool.ParseRequest` | src/tools/updateResume.js:9 | A request is parsed exactly when `resume` is an object the schema accepts and the key is a non-empty string. The parsed request carries zod's OUTPUT for the resume, not the object as sent. |
| `UpdateResumeTool.Handle` | src/tools/updateResume.js:6-90 | A schema failure or an invalid key is answered with no store access. If the line-29 parse rejects the first parse's output, the answer is "Validation error" and nothing is written. On success, the stored and returned document is the output of that second parse, and the old document is backed up. If the line-32 `getResume` throws, the answer is `handleError` of that error with the store unchanged. A failure keeps the document and writes nothing but the store's backup and the emergency backup. |
| `UpdateResumeTool.UpdateSucceeds` | src/tools/updateResume.js:29-52 | With the pre-read and the store replace not failing (a failing emergency backup is never reached), the response carries the sent resume parsed twice, a read returns the same, and the backup holds the previous document. For a passthrough schema (src/validation/schemas.js:65), every undeclared top-level key of the sent resume except `__proto__` survives both parses into the document with its value. |
| `UpdateResumeTool.FailedUpdateIsBackedUp` | src/tools/updateResume.js:54-88 | A failing store replace leads to an emergency backup of the pre-read document, then a `handleError` payload with context `updateResume`. |
| `Invariants.ServeKeepsSound` | src/database/index.js:72-206 | For a schema that accepts its own parse output, one request of any kind keeps a current row and a schema-valid document. It deletes no snapshot and changes none except its generated names. |
| `Invariants.RunKeepsSound` | src/database/index.js:72-206 | For a schema that accepts its own parse output, any sequence of requests, with any failures, keeps the store sound, never deletes a snapshot, and changes none outside the generated names. |
| `Invariants.InitializedStoreStaysSound` | src/database/index.js:58-62 | From a freshly initialized store whose `{}` satisfies a schema that accepts its own parse output, every later state has a current document that satisfies it. |
| `Scenario.RestoreByGeneratedName` | src/tools/restoreVersion.js:12-101 | A backup name, exactly as the store generates it, passes the restore request schema and the sanitizer unchanged. With nothing failing, the handler restores that snapshot and backs up the prior document. |
| `Scenario.PatchPatchRestore` | src/database/index.js:104-206 | Starting from `{}`: patch field `f1`, then patch a different field `f2`, then restore the first backup by its name. This yields `{f1}`, then `{f1, f2}`, then `{}` again, with backups `{}` and `{f1}` and a pre-restore snapshot `{f1, f2}`. |

## Left out

- Transport (app.js), configuration loading (src/config/index.js), the tool registry, and
  the `get_resume` and `list_versions` tool wrappers. These are plumbing. The store
  reads they wrap are modelled.
- The pg pool, connecting and closing, the `CREATE TABLE` statements, `client.release()`,
  `console` logging and the `JSON.stringify` envelopes. The model has a response datatype
  instead of text.
- A `ROLLBACK` that itself throws is not modelled. In the source its error would replace
  the original error; the state effect is the same as a rollback.
- Failures inside `initializeSchema` are not modelled: it is a pure function with no
  fault parameter.
- Tools.Config: `resumeSchema` and its parse output are uninterpreted apart from
  `Tools.ParseKeepsValid` and `Tools.KeepsUnknownKeys`. What the parse does to the
  declared fields (the keys it drops from array items, the e-mail and URL checks) and
  its error `details` are not modelled: they are zod's behaviour, not this program's.
- `partialResumeSchema` is modelled as `resumeSchema` itself. Every field of the resume
  schema is already optional, and `.partial()` keeps `.passthrough()`.
- Documents are JSON objects, and numbers are integers. The `|| {}` and `|| null` in
  `getResume` and `getVersion` therefore only fire on a missing row. A stored falsy
  scalar is not modelled, and neither is floating point.
- `created_at` is a counter that each snapshot write increments. Real timestamps can tie,
  and `ORDER BY created_at DESC` leaves ties in an unspecified order.
  `Database.ListVersions` returns one of the allowed orders.
- Concurrency and transaction isolation are not modelled; the model is sequential. So
  each handler's pre-read outside the transaction reads the same document the store
  operation then reads.
- `Security.ValidateApiKey`: Dafny strings are sequences of Unicode scalar values,
  JavaScript strings are UTF-16. Equality and emptiness agree for well-formed strings.
- Invariants.ServeKeepsSound: requires `Tools.ParseKeepsValid`, that zod accepts what
  its own parse returned. The update handler stores a parse output, and nothing else in
  the model says that output is valid.
- Invariants.RunKeepsSound: requires `Tools.ParseKeepsValid`, for the same reason.
- Invariants.InitializedStoreStaysSound: requires `Tools.ParseKeepsValid`, for the same
  reason.
