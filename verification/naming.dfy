/** Names of the snapshots the system writes by itself: a prefix, the time of the
    write as `toISOString()` with every `:` and `.` turned into `-`, and `.json`. */
module Naming {
  import opened Security

  const BackupPrefix: string := "backup-"
  const PreRestorePrefix: string := "pre-restore-"
  const EmergencyPrefix: string := "emergency-backup-"

  /** The shape `Date.prototype.toISOString` produces for years 0 to 9999:
      `YYYY-MM-DDTHH:mm:ss.sssZ`. */
  predicate IsIsoTimestamp(ts: string) {
    |ts| == 24 && forall i :: 0 <= i < 24 ==> IsoCharAt(i, ts[i])
  }

  predicate IsoCharAt(i: int, c: char) {
    if i == 4 || i == 7 then c == '-'
    else if i == 10 then c == 'T'
    else if i == 13 || i == 16 then c == ':'
    else if i == 19 then c == '.'
    else if i == 23 then c == 'Z'
    else '0' <= c <= '9'
  }

  function Dash(c: char): char {
    if c == ':' || c == '.' then '-' else c
  }

  /** `ts.replace(/[:.]/g, '-')` */
  function Stamp(ts: string): (r: string)
    ensures |r| == |ts|
    ensures forall i :: 0 <= i < |r| ==> r[i] != ':' && r[i] != '.'
    ensures forall i :: 0 <= i < |ts| && (ts[i] == ':' || ts[i] == '.') ==> r[i] == '-'
    ensures forall i :: 0 <= i < |ts| && ts[i] != ':' && ts[i] != '.' ==> r[i] == ts[i]
  {
    seq(|ts|, i requires 0 <= i < |ts| => Dash(ts[i]))
  }

  /** On an ISO timestamp the stamp is the timestamp with its two `:` and its `.` turned
      into `-`, everything else as it was: `2024-01-02T03:04:05.678Z` gives
      `2024-01-02T03-04-05-678Z`. */
  lemma IsoStamp(ts: string)
    requires IsIsoTimestamp(ts)
    ensures Stamp(ts) == ts[..13] + "-" + ts[14..16] + "-" + ts[17..19] + "-" + ts[20..]
  {
  }

  /** `${prefix}${stamp}.json` */
  function SnapshotName(prefix: string, ts: string): string {
    prefix + Stamp(ts) + ".json"
  }

  /** The routine pre-write backup (src/database/index.js:90-91, 125-126). */
  function BackupName(ts: string): string {
    SnapshotName(BackupPrefix, ts)
  }

  /** The backup taken before a restore (src/database/index.js:194-195). */
  function PreRestoreName(ts: string): string {
    SnapshotName(PreRestorePrefix, ts)
  }

  /** The best-effort backup after a failed write (src/utils/errorHandler.js:28-29). */
  function EmergencyName(ts: string): string {
    SnapshotName(EmergencyPrefix, ts)
  }

  predicate IsGeneratedPrefix(prefix: string) {
    prefix == BackupPrefix || prefix == PreRestorePrefix || prefix == EmergencyPrefix
  }

  predicate Dotless(s: string) {
    forall i :: 0 <= i < |s| ==> s[i] != '.'
  }

  lemma PrefixesAreSafe(prefix: string)
    requires IsGeneratedPrefix(prefix)
    ensures IsSafe(prefix) && Dotless(prefix)
  {
  }

  /** The stamp of an ISO timestamp uses only digits, `-`, `T` and `Z`. */
  lemma StampIsSafe(ts: string)
    requires IsIsoTimestamp(ts)
    ensures IsSafe(Stamp(ts)) && Dotless(Stamp(ts))
  {
    var r := Stamp(ts);
    forall i | 0 <= i < |r|
      ensures IsSafeChar(r[i])
    {
      assert IsoCharAt(i, ts[i]);
    }
  }

  /** A dotless safe stem followed by `.json` is safe and has no `..`. */
  lemma JsonSuffixIsClean(stem: string)
    requires IsSafe(stem) && Dotless(stem)
    ensures IsSafe(stem + ".json") && NoDoubleDot(stem + ".json")
  {
    var s := stem + ".json";
    var suffix := ".json";
    assert IsSafe(suffix);
    assert forall i :: 1 <= i < |suffix| ==> suffix[i] != '.';
    forall i | 0 <= i < |s| - 1
      ensures !(s[i] == '.' && s[i + 1] == '.')
    {
      if i >= |stem| {
        assert s[i + 1] == suffix[i + 1 - |stem|];
      }
    }
  }

  /** Every generated name has no `:` and is a fixed point of `sanitizeFilename`, and it
      passes the restore request's filename rule, so the snapshot it names can be
      restored by that very name. */
  lemma GeneratedNameIsRestorable(prefix: string, ts: string)
    requires IsGeneratedPrefix(prefix)
    requires IsIsoTimestamp(ts)
    ensures forall i :: 0 <= i < |SnapshotName(prefix, ts)| ==> SnapshotName(prefix, ts)[i] != ':'
    ensures |SnapshotName(prefix, ts)| >= 1 && IsSafe(SnapshotName(prefix, ts))
    ensures SanitizeFilename(SnapshotName(prefix, ts)) == SnapshotName(prefix, ts)
  {
    PrefixesAreSafe(prefix);
    StampIsSafe(ts);
    var stem := prefix + Stamp(ts);
    assert IsSafe(stem) && Dotless(stem);
    JsonSuffixIsClean(stem);
    assert SnapshotName(prefix, ts) == stem + ".json";
    SanitizeKeepsCleanNames(stem + ".json");
  }

  /** Two ISO timestamps give the same stamp only if they are the same timestamp. */
  lemma StampInjective(t1: string, t2: string)
    requires IsIsoTimestamp(t1) && IsIsoTimestamp(t2)
    requires Stamp(t1) == Stamp(t2)
    ensures t1 == t2
  {
    forall i | 0 <= i < 24
      ensures t1[i] == t2[i]
    {
      assert IsoCharAt(i, t1[i]) && IsoCharAt(i, t2[i]);
      assert Stamp(t1)[i] == Stamp(t2)[i];
    }
  }

  /** Names of one kind collide only when the timestamps are equal to the millisecond:
      that is the only way a generated snapshot overwrites another. */
  lemma GeneratedNamesCollideOnlyAtSameInstant(prefix: string, t1: string, t2: string)
    requires IsIsoTimestamp(t1) && IsIsoTimestamp(t2)
    requires SnapshotName(prefix, t1) == SnapshotName(prefix, t2)
    ensures t1 == t2
  {
    var n1, n2 := SnapshotName(prefix, t1), SnapshotName(prefix, t2);
    assert Stamp(t1) == n1[|prefix|..|prefix| + 24];
    assert Stamp(t2) == n2[|prefix|..|prefix| + 24];
    StampInjective(t1, t2);
  }

  /** The three kinds of generated name never collide with one another. */
  lemma GeneratedKindsAreDisjoint(t1: string, t2: string)
    ensures BackupName(t1) != PreRestoreName(t2)
    ensures BackupName(t1) != EmergencyName(t2)
    ensures PreRestoreName(t1) != EmergencyName(t2)
  {
    assert BackupName(t1)[0] == 'b';
    assert PreRestoreName(t1)[0] == 'p';
    assert PreRestoreName(t2)[0] == 'p';
    assert EmergencyName(t2)[0] == 'e';
  }
}
