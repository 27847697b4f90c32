/** A worked history: two patches on a fresh store, then a restore of the first
    backup. */
module Scenario {
  import opened Optional
  import opened Json
  import opened Security
  import opened Naming
  import opened Database
  import opened Failures
  import opened Tools
  import RestoreVersionTool

  function PatchArgs(key: string, field: string, value: Json): Json {
    JObject(map["partialResume" := JObject(map[field := value]), "apiKey" := JString(key)])
  }

  function RestoreArgs(key: string, filename: string): Json {
    JObject(map["filename" := JString(filename), "apiKey" := JString(key)])
  }

  /** The arguments of a restore request parse as that request. */
  lemma RestoreArgsParse(key: string, name: string)
    requires |key| >= 1 && |name| >= 1 && IsSafe(name)
    ensures RestoreVersionTool.ParseRequest(RestoreArgs(key, name)) == Some(RestoreVersionTool.RestoreRequest(name, key))
  {
    var args := RestoreArgs(key, name);
    assert Field(args, "filename") == Some(JString(name));
    assert Field(args, "apiKey") == Some(JString(key));
  }

  /** Past the request checks, a present and valid snapshot is restored. */
  lemma RestorePresentName(db: Db, name: string, cfg: Config, env: Env)
    requires db.latest.Some? && env.faults == NoFaults
    requires name in db.versions && cfg.resumeSchema(db.versions[name].data)
    ensures var (db', out) := RestoreVersionTool.RestoreSanitized(db, name, cfg, env);
            && out.Success? && out.resume == db.versions[name].data
            && GetResume(db') == db.versions[name].data
            && PreRestoreName(env.storeClock) in db'.versions && db'.versions[PreRestoreName(env.storeClock)].data == GetResume(db)
  {
    var (db', c) := Database.RestoreVersion(db, name, env.storeClock, env.faults.store);
    assert c.Resolved?;
  }

  /** A backup name, exactly as the store generates it, can be sent back to the
      `restore_version` handler: with nothing failing, that snapshot is restored. */
  lemma RestoreByGeneratedName(db: Db, key: string, cfg: Config, ts: string, t: string, te: string)
    requires db.latest.Some?
    requires cfg.apiKey == key && !IsBlank(key)
    requires IsIsoTimestamp(ts)
    requires BackupName(ts) in db.versions && cfg.resumeSchema(db.versions[BackupName(ts)].data)
    ensures var r := RestoreVersionTool.Handle(db, RestoreArgs(key, BackupName(ts)), cfg, Env(t, te, NoFaults));
            && r.1 == Success("Resume restored from " + BackupName(ts), db.versions[BackupName(ts)].data)
            && GetResume(r.0) == db.versions[BackupName(ts)].data
            && PreRestoreName(t) in r.0.versions && r.0.versions[PreRestoreName(t)].data == GetResume(db)
  {
    var name := BackupName(ts);
    var env := Env(t, te, NoFaults);
    GeneratedNameIsRestorable(BackupPrefix, ts);
    RestoreArgsParse(key, name);
    assert RestoreVersionTool.Handle(db, RestoreArgs(key, name), cfg, env)
        == RestoreVersionTool.RestoreSanitized(db, name, cfg, env);
    RestorePresentName(db, name, cfg, env);
  }

  /** Starting from `{}`: patching field `f1` (say `name`) gives `{f1}` and backs up
      `{}`; patching another field `f2` (say `email`) gives `{f1, f2}` and backs up
      `{f1}`; restoring the first backup by its name brings back `{}` and keeps
      `{f1, f2}` as the pre-restore snapshot. `r1`, `r2` and `r3` are the three
      store calls' results. */
  lemma PatchPatchRestore(t1: string, t2: string, t3: string, f1: string, v1: Json, f2: string, v2: Json,
                          r1: (Db, Completion<Doc>), r2: (Db, Completion<Doc>), r3: (Db, Completion<Doc>))
    requires IsIsoTimestamp(t1) && IsIsoTimestamp(t2) && t1 != t2
    requires f1 != f2
    requires r1 == Database.PatchResume(InitializeSchema(Db(None, map[], 0)), map[f1 := v1], t1, NoFault)
    requires r2 == Database.PatchResume(r1.0, map[f2 := v2], t2, NoFault)
    requires r3 == Database.RestoreVersion(r2.0, BackupName(t1), t3, NoFault)
    ensures r1.1 == Resolved(map[f1 := v1])
    ensures BackupName(t1) in r1.0.versions && r1.0.versions[BackupName(t1)].data == map[]
    ensures r2.1 == Resolved(map[f1 := v1, f2 := v2])
    ensures BackupName(t2) in r2.0.versions && r2.0.versions[BackupName(t2)].data == map[f1 := v1]
    ensures r3.1 == Resolved(map[])
    ensures GetResume(r3.0) == map[]
    ensures PreRestoreName(t3) in r3.0.versions && r3.0.versions[PreRestoreName(t3)].data == map[f1 := v1, f2 := v2]
  {
    var db0 := InitializeSchema(Db(None, map[], 0));
    assert GetResume(db0) == map[];
    SpreadOneKey(map[], f1, v1);
    SpreadOneKey(map[f1 := v1], f2, v2);
    if BackupName(t1) == BackupName(t2) {
      GeneratedNamesCollideOnlyAtSameInstant(BackupPrefix, t1, t2);
    }
  }
}
