/** The store (src/database/index.js): the `resumes` table, of which only the row with
    the highest id is ever read or written, and the `resume_versions` table of named
    snapshots. Every operation is a pure transition; the time a backup is named after
    and the query that fails, if any, are parameters. */
module Database {
  import opened Optional
  import opened Json
  import opened Failures
  import opened Naming

  /** A row of `resume_versions`; `createdAt` is a tick of the store's clock. */
  datatype Version = Version(data: Doc, createdAt: nat)

  /** `latest` is the data of the highest-id row of `resumes` (`None` when the table is
      empty); `versions` maps each UNIQUE filename to its row; `clock` is the next value
      of `CURRENT_TIMESTAMP` handed to a snapshot write. */
  datatype Db = Db(latest: Option<Doc>, versions: map<string, Version>, clock: nat)

  /** A listing entry, as `listVersions` returns it. */
  datatype VersionInfo = VersionInfo(filename: string, createdAt: nat)

  /** Every snapshot was stamped before the clock's current value. */
  predicate ClockAhead(db: Db) {
    forall n :: n in db.versions ==> db.versions[n].createdAt < db.clock
  }

  /** The state the rest of the system relies on: a current row exists. */
  predicate Ready(db: Db) {
    db.latest.Some? && ClockAhead(db)
  }

  /** `db'` keeps every snapshot of `db`, and changes none outside `names`. */
  predicate Extends(db: Db, db': Db, names: set<string>) {
    && db.versions.Keys <= db'.versions.Keys
    && (forall n :: n in db.versions && n !in names ==> db'.versions[n] == db.versions[n])
    && db.clock <= db'.clock
    && (ClockAhead(db) ==> ClockAhead(db'))
  }

  /** The part of `initializeSchema` that ensures a row: an empty `resumes` table gets
      one `{}` row, a non-empty one is left alone. */
  function InitializeSchema(db: Db): (r: Db)
    ensures db.latest.None? ==> r.latest == Some(EmptyDoc)
    ensures db.latest.Some? ==> r == db
    ensures r.versions == db.versions && r.clock == db.clock
    ensures ClockAhead(db) ==> Ready(r)
  {
    if db.latest.None? then db.(latest := Some(EmptyDoc)) else db
  }

  /** `getResume` / the `SELECT` of the transactional operations:
      `rows[0]?.data || {}`. */
  function GetResume(db: Db): (d: Doc)
    ensures db.latest.Some? ==> d == db.latest.value
    ensures db.latest.None? ==> d == EmptyDoc
  {
    match db.latest
    case Some(d) => d
    case None => EmptyDoc
  }

  /** `getVersion`: the snapshot's data, or `null` when no row has that filename. */
  function GetVersion(db: Db, filename: string): (r: Option<Doc>)
    ensures r.Some? <==> filename in db.versions
    ensures r.Some? ==> r.value == db.versions[filename].data
  {
    if filename in db.versions then Some(db.versions[filename].data) else None
  }

  /** The upsert `INSERT ... ON CONFLICT (filename) DO UPDATE SET data, created_at`. */
  function PutVersion(db: Db, filename: string, data: Doc): (r: Db)
    ensures r.versions.Keys == db.versions.Keys + {filename}
    ensures r.versions[filename] == Version(data, db.clock)
    ensures forall n :: n in db.versions && n != filename ==> r.versions[n] == db.versions[n]
    ensures r.latest == db.latest
    ensures r.clock == db.clock + 1
    ensures ClockAhead(db) ==> ClockAhead(r)
  {
    db.(versions := db.versions[filename := Version(data, db.clock)], clock := db.clock + 1)
  }

  /** `createVersion`: one pool query, committed on its own, that may throw. */
  function CreateVersion(db: Db, filename: string, data: Doc, fault: Option<Thrown>): (r: (Db, Completion<()>))
    ensures fault.Some? ==> r == (db, Rejected(fault.value))
    ensures fault.None? ==> r.1.Resolved? && r.0 == PutVersion(db, filename, data)
  {
    match fault
    case Some(e) => (db, Rejected(e))
    case None => (PutVersion(db, filename, data), Resolved(()))
  }

  /** `UPDATE resumes SET data = $1 WHERE id = (SELECT id ... ORDER BY id DESC LIMIT 1)`:
      with no row the subquery yields no id and nothing is updated. */
  function WriteLatest(db: Db, doc: Doc): (r: Db)
    ensures db.latest.Some? ==> r.latest == Some(doc)
    ensures db.latest.None? ==> r.latest == None
    ensures r.versions == db.versions && r.clock == db.clock
  {
    if db.latest.Some? then db.(latest := Some(doc)) else db
  }

  /** The tail shared by the three transactional operations once the current row has
      been read: `UPDATE` on the transaction's client, `createVersion` of the old
      document on the POOL, then `COMMIT`. Because the backup does not go through the
      client, it is committed at once: a throwing backup rolls the update back, and a
      throwing `COMMIT` rolls the update back but leaves the backup in place. */
  function UpdateWithBackup(db: Db, doc: Doc, backupName: string, fault: Fault): (r: (Db, Completion<Doc>))
    ensures r.1.Resolved? ==> r.1.value == doc
    ensures r.1.Resolved? ==> r.0 == PutVersion(WriteLatest(db, doc), backupName, GetResume(db))
    ensures FiresIn(fault, {InsertVersion}) ==> r == (db, Rejected(fault.thrown))
    ensures FiresIn(fault, {Commit}) ==> r == (PutVersion(db, backupName, GetResume(db)), Rejected(fault.thrown))
    ensures !FiresIn(fault, {InsertVersion, Commit}) ==> r.1 == Resolved(doc)
    ensures Extends(db, r.0, {backupName})
    ensures r.0.latest.Some? <==> db.latest.Some?
  {
    var updated := WriteLatest(db, doc);
    var before := GetResume(db);
    match CreateVersion(updated, backupName, before, if FiresIn(fault, {InsertVersion}) then Some(fault.thrown) else None)
    case (_, Rejected(e)) =>
      // ROLLBACK undoes the UPDATE; nothing was written by the pool.
      (db, Rejected(e))
    case (backedUp, Resolved(_)) =>
      if FiresIn(fault, {Commit}) then
        // ROLLBACK undoes the UPDATE; the pool's insert stays.
        (PutVersion(db, backupName, before), Rejected(fault.thrown))
      else
        (backedUp, Resolved(doc))
  }

  /** The queries each transactional operation issues before its `UPDATE` completes. */
  const EarlyQueries: set<Query> := {Connect, Begin, SelectCurrent, Update}

  /** `updateResume(resumeData)`: replace the document and back up the old one. */
  function UpdateResume(db: Db, doc: Doc, now: string, fault: Fault): (r: (Db, Completion<Doc>))
    // on success the document is replaced (when a row exists), the call returns the
    // new document, and the snapshot `backup-<now>.json` holds the previous one
    ensures r.1.Resolved? ==> r.1.value == doc
    ensures r.1.Resolved? ==> r.0.latest == WriteLatest(db, doc).latest
    ensures r.1.Resolved? ==> r.0.versions == db.versions[BackupName(now) := Version(GetResume(db), db.clock)]
    // any failure leaves the document as it was; only a failing COMMIT leaves a trace
    ensures r.1.Rejected? ==> r.0.latest == db.latest
    ensures r.1.Rejected? && !FiresIn(fault, {Commit}) ==> r.0 == db
    ensures fault == NoFault ==> r.1 == Resolved(doc)
    ensures Extends(db, r.0, {BackupName(now)})
    ensures r.0.latest.Some? <==> db.latest.Some?
  {
    if FiresIn(fault, EarlyQueries) then (db, Rejected(fault.thrown))
    else UpdateWithBackup(db, doc, BackupName(now), fault)
  }

  /** `patchResume(partialResume)`: merge `{...current, ...partial}`, store it, and back
      up the old document. */
  function PatchResume(db: Db, partial: Doc, now: string, fault: Fault): (r: (Db, Completion<Doc>))
    ensures r.1.Resolved? ==> r.1.value == Spread(GetResume(db), partial)
    ensures r.1.Resolved? ==> r.0.latest == WriteLatest(db, Spread(GetResume(db), partial)).latest
    ensures r.1.Resolved? ==> r.0.versions == db.versions[BackupName(now) := Version(GetResume(db), db.clock)]
    ensures r.1.Rejected? ==> r.0.latest == db.latest
    ensures r.1.Rejected? && !FiresIn(fault, {Commit}) ==> r.0 == db
    ensures fault == NoFault ==> r.1.Resolved?
    ensures Extends(db, r.0, {BackupName(now)})
    ensures r.0.latest.Some? <==> db.latest.Some?
  {
    if FiresIn(fault, EarlyQueries) then (db, Rejected(fault.thrown))
    else UpdateWithBackup(db, Spread(GetResume(db), partial), BackupName(now), fault)
  }

  /** The error `restoreVersion` throws for a missing filename. */
  function NotFoundError(filename: string): Thrown {
    ErrorObject("Version " + filename + " not found")
  }

  /** `restoreVersion(filename)`: inside one transaction, read the snapshot (throwing
      when it is missing), read the current document, set the document to the
      snapshot's data, and back up the old document as `pre-restore-<now>.json`. */
  function RestoreVersion(db: Db, filename: string, now: string, fault: Fault): (r: (Db, Completion<Doc>))
    // a missing snapshot throws before any write
    ensures filename !in db.versions ==> r.0 == db && r.1.Rejected?
    ensures filename !in db.versions && !FiresIn(fault, {Connect, Begin, SelectVersion}) ==>
              r.1 == Rejected(NotFoundError(filename))
    // on success the document becomes the snapshot's data and the old one is backed up
    ensures r.1.Resolved? ==> filename in db.versions && r.1.value == db.versions[filename].data
    ensures r.1.Resolved? ==> r.0.latest == WriteLatest(db, db.versions[filename].data).latest
    ensures r.1.Resolved? ==> r.0.versions == db.versions[PreRestoreName(now) := Version(GetResume(db), db.clock)]
    ensures r.1.Rejected? ==> r.0.latest == db.latest
    ensures r.1.Rejected? && !FiresIn(fault, {Commit}) ==> r.0 == db
    ensures fault == NoFault && filename in db.versions ==> r.1.Resolved?
    ensures Extends(db, r.0, {PreRestoreName(now)})
    ensures r.0.latest.Some? <==> db.latest.Some?
  {
    if FiresIn(fault, {Connect, Begin, SelectVersion}) then (db, Rejected(fault.thrown))
    else if filename !in db.versions then (db, Rejected(NotFoundError(filename)))
    else if FiresIn(fault, {SelectCurrent, Update}) then (db, Rejected(fault.thrown))
    else UpdateWithBackup(db, db.versions[filename].data, PreRestoreName(now), fault)
  }

  /** Newest first by `created_at`. */
  predicate NewestFirst(list: seq<VersionInfo>) {
    forall i, j :: 0 <= i < j < |list| ==> list[i].createdAt >= list[j].createdAt
  }

  predicate DistinctNames(list: seq<VersionInfo>) {
    forall i, j :: 0 <= i < j < |list| ==> list[i].filename != list[j].filename
  }

  /** Where an entry goes in a newest-first list: after every strictly newer entry. */
  function InsertionPoint(list: seq<VersionInfo>, e: VersionInfo): (p: nat)
    requires NewestFirst(list)
    ensures p <= |list|
    ensures forall i :: 0 <= i < p ==> list[i].createdAt > e.createdAt
    ensures forall i :: p <= i < |list| ==> list[i].createdAt <= e.createdAt
  {
    if list == [] || list[0].createdAt <= e.createdAt then 0
    else 1 + InsertionPoint(list[1..], e)
  }

  /** Insert one entry into a newest-first list, keeping it newest first. */
  function InsertNewestFirst(list: seq<VersionInfo>, e: VersionInfo): (r: seq<VersionInfo>)
    requires NewestFirst(list)
    ensures NewestFirst(r)
    ensures |r| == |list| + 1
    ensures exists p :: 0 <= p <= |list| && r == list[..p] + [e] + list[p..]
  {
    var p := InsertionPoint(list, e);
    list[..p] + [e] + list[p..]
  }

  /** Loop invariant of `ListVersions`: `list` holds, newest first and once each, exactly
      the snapshots whose names are no longer `pending`. */
  predicate Listed(db: Db, list: seq<VersionInfo>, pending: set<string>) {
    && pending <= db.versions.Keys
    && NewestFirst(list)
    && DistinctNames(list)
    && |list| + |pending| == |db.versions|
    && (forall i :: 0 <= i < |list| ==>
          list[i].filename in db.versions && list[i].filename !in pending
          && list[i].createdAt == db.versions[list[i].filename].createdAt)
    && (forall m :: m in db.versions && m !in pending ==>
          exists i :: 0 <= i < |list| && list[i].filename == m)
  }

  /** Indexing into `list` with `e` spliced in at position `p`. */
  lemma SpliceIndex(list: seq<VersionInfo>, p: nat, e: VersionInfo, next: seq<VersionInfo>)
    requires p <= |list| && next == list[..p] + [e] + list[p..]
    ensures |next| == |list| + 1
    ensures forall k :: 0 <= k < p ==> next[k] == list[k]
    ensures next[p] == e
    ensures forall k :: p < k < |next| ==> next[k] == list[k - 1]
  {
  }

  /** The spliced entries all describe snapshots no longer pending, with their times. */
  lemma SpliceEntriesMatch(db: Db, list: seq<VersionInfo>, pending: set<string>, n: string, p: nat, next: seq<VersionInfo>)
    requires Listed(db, list, pending) && n in pending
    requires p <= |list| && next == list[..p] + [VersionInfo(n, db.versions[n].createdAt)] + list[p..]
    ensures forall k :: 0 <= k < |next| ==>
              next[k].filename in db.versions && next[k].filename !in pending - {n}
              && next[k].createdAt == db.versions[next[k].filename].createdAt
    ensures DistinctNames(next)
  {
    SpliceIndex(list, p, VersionInfo(n, db.versions[n].createdAt), next);
  }

  /** Every snapshot no longer pending appears in the spliced list. */
  lemma SpliceCovers(db: Db, list: seq<VersionInfo>, pending: set<string>, n: string, p: nat, next: seq<VersionInfo>)
    requires Listed(db, list, pending) && n in pending
    requires p <= |list| && next == list[..p] + [VersionInfo(n, db.versions[n].createdAt)] + list[p..]
    ensures forall m :: m in db.versions && m !in pending - {n} ==>
              exists i :: 0 <= i < |next| && next[i].filename == m
  {
    SpliceIndex(list, p, VersionInfo(n, db.versions[n].createdAt), next);
    forall m | m in db.versions && m !in pending - {n}
      ensures exists i :: 0 <= i < |next| && next[i].filename == m
    {
      if m == n {
        assert next[p].filename == m;
      } else {
        var i :| 0 <= i < |list| && list[i].filename == m;
        if i < p {
          assert next[i].filename == m;
        } else {
          assert next[i + 1].filename == m;
        }
      }
    }
  }

  /** Moving one pending snapshot into the list keeps the invariant. */
  lemma ListingStep(db: Db, list: seq<VersionInfo>, pending: set<string>, n: string)
    requires Listed(db, list, pending)
    requires n in pending
    ensures Listed(db, InsertNewestFirst(list, VersionInfo(n, db.versions[n].createdAt)), pending - {n})
  {
    var e := VersionInfo(n, db.versions[n].createdAt);
    var next := InsertNewestFirst(list, e);
    var p :| 0 <= p <= |list| && next == list[..p] + [e] + list[p..];
    SpliceEntriesMatch(db, list, pending, n, p, next);
    SpliceCovers(db, list, pending, n, p, next);
  }

  /** `listVersions`: every snapshot once, with its `created_at`, newest first.
      (`ORDER BY created_at DESC` leaves ties in any order; this is one of them.) */
  method ListVersions(db: Db) returns (list: seq<VersionInfo>)
    ensures NewestFirst(list)
    ensures DistinctNames(list)
    ensures |list| == |db.versions|
    ensures forall i :: 0 <= i < |list| ==>
              list[i].filename in db.versions && list[i].createdAt == db.versions[list[i].filename].createdAt
    ensures forall n :: n in db.versions ==> exists i :: 0 <= i < |list| && list[i].filename == n
  {
    list := [];
    var pending := db.versions.Keys;
    while pending != {}
      invariant Listed(db, list, pending)
      decreases pending
    {
      var n :| n in pending;
      ListingStep(db, list, pending, n);
      list := InsertNewestFirst(list, VersionInfo(n, db.versions[n].createdAt));
      pending := pending - {n};
    }
  }

  /** After initialization a current document always exists, and an empty table reads
      as `{}`. */
  lemma InitializeThenRead(db: Db)
    ensures InitializeSchema(db).latest.Some?
    ensures db.latest.None? ==> GetResume(InitializeSchema(db)) == EmptyDoc
    ensures db.latest.Some? ==> GetResume(InitializeSchema(db)) == GetResume(db)
  {
  }

  /** Writing the same filename twice leaves one entry with the second data and a
      newer `created_at`; every other filename is untouched. */
  lemma UpsertTwice(db: Db, filename: string, a: Doc, b: Doc)
    ensures var r := PutVersion(PutVersion(db, filename, a), filename, b);
            && r.versions.Keys == db.versions.Keys + {filename}
            && r.versions[filename].data == b
            && r.versions[filename].createdAt > PutVersion(db, filename, a).versions[filename].createdAt
            && (forall n :: n in db.versions && n != filename ==> r.versions[n] == db.versions[n])
  {
  }

  /** Replace, then read: the read returns the new document, and the backup holds the
      document read before the replace. */
  lemma UpdateRoundTrip(db: Db, doc: Doc, now: string, fault: Fault)
    requires db.latest.Some?
    requires !FiresIn(fault, EarlyQueries + {InsertVersion, Commit})
    ensures UpdateResume(db, doc, now, fault).1 == Resolved(doc)
    ensures GetResume(UpdateResume(db, doc, now, fault).0) == doc
    ensures UpdateResume(db, doc, now, fault).0.versions[BackupName(now)].data == GetResume(db)
  {
  }

  /** With no `resumes` row the `UPDATE` matches nothing: the call still returns the new
      document and writes the backup, but a read still gives `{}`. */
  lemma UpdateWithoutRowIsLost(db: Db, doc: Doc, now: string)
    requires db.latest.None?
    ensures UpdateResume(db, doc, now, NoFault).1 == Resolved(doc)
    ensures GetResume(UpdateResume(db, doc, now, NoFault).0) == EmptyDoc
  {
  }

  /** The patch round trip: every key of the partial takes the partial's value (nested
      objects replaced, not merged), every other key keeps its value, no other key
      appears, and the backup holds the document before the patch. */
  lemma PatchRoundTrip(db: Db, partial: Doc, now: string)
    requires db.latest.Some?
    ensures var (db', c) := PatchResume(db, partial, now, NoFault);
            && c == Resolved(GetResume(db'))
            && GetResume(db').Keys == GetResume(db).Keys + partial.Keys
            && (forall k :: k in partial ==> GetResume(db')[k] == partial[k])
            && (forall k :: k in GetResume(db) && k !in partial ==> GetResume(db')[k] == GetResume(db)[k])
            && db'.versions[BackupName(now)].data == GetResume(db)
  {
  }

  /** A missing snapshot: the store throws `Version <name> not found` and neither the
      document nor any snapshot changes. */
  lemma RestoreMissingThrows(db: Db, filename: string, now: string)
    requires filename !in db.versions
    ensures RestoreVersion(db, filename, now, NoFault) == (db, Rejected(NotFoundError(filename)))
  {
  }

  /** A present snapshot: the document becomes its data, the old document is kept as
      `pre-restore-<now>.json`, and the restored snapshot itself is left as it was. */
  lemma RestorePresent(db: Db, filename: string, now: string)
    requires db.latest.Some? && filename in db.versions
    requires filename != PreRestoreName(now)
    ensures var (db', c) := RestoreVersion(db, filename, now, NoFault);
            && c == Resolved(db.versions[filename].data)
            && GetResume(db') == db.versions[filename].data
            && db'.versions[PreRestoreName(now)].data == GetResume(db)
            && db'.versions[filename] == db.versions[filename]
  {
  }

  /** The pool-written backup and the client's transaction are independent: a throwing
      backup rolls the update back with nothing written, a throwing COMMIT rolls the
      update back but the backup survives. */
  lemma BackupOutsideTransaction(db: Db, doc: Doc, now: string, e: Thrown)
    ensures UpdateResume(db, doc, now, FailAt(InsertVersion, e)) == (db, Rejected(e))
    ensures var (db', c) := UpdateResume(db, doc, now, FailAt(Commit, e));
            && c == Rejected(e)
            && db'.latest == db.latest
            && db'.versions == db.versions[BackupName(now) := Version(GetResume(db), db.clock)]
  {
  }
}
