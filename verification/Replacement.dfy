/**
 Promotion of a temporary entry over a destination: an atomic rename where the file system allows it, otherwise a
 backup, a rename, and a rollback when that fails.
 */
module Replacement {
  import opened Prelude
  import opened FileStore

  const TEMP_SUFFIX := ".xops-tmp"
  const BACKUP_SUFFIX := ".backup"

  // ---------- The states a replacement may pass through ----------

  /** Done: the destination holds the new entry and the temporary name is free; the backup name is as before. */
  ghost predicate Promoted(before: Entries, now: Entries, temp: Path, dest: Path) {
    temp in before && temp != dest && now == Renamed(before, temp, dest)
  }

  /** The old entry waits at the backup name and the new one at the temporary name. */
  ghost predicate Parked(before: Entries, now: Entries, temp: Path, dest: Path, backup: Path) {
    dest in before && backup !in before && dest != backup && now == Renamed(before, dest, backup)
  }

  /** The destination holds the new entry and the backup still holds the old one. */
  ghost predicate Backed(before: Entries, now: Entries, temp: Path, dest: Path, backup: Path) {
    && dest in before && temp in before && backup !in before
    && now == (before - {temp})[dest := before[temp]][backup := before[dest]]
  }

  ghost predicate Stage(before: Entries, now: Entries, temp: Path, dest: Path, backup: Path) {
    || now == before
    || Parked(before, now, temp, dest, backup)
    || Backed(before, now, temp, dest, backup)
    || Promoted(before, now, temp, dest)
  }

  /** Neither the old nor the new entry is lost, and no other entry is touched. */
  predicate Safe(before: Entries, now: Entries, temp: Path, dest: Path, backup: Path) {
    && (dest in before ==>
          || (dest in now && now[dest] == before[dest])
          || (backup in now && now[backup] == before[dest])
          || (dest in now && temp in before && now[dest] == before[temp]))
    && (temp in before ==> (temp in now && now[temp] == before[temp]) || (dest in now && now[dest] == before[temp]))
    && (forall p :: p in before && p !in {temp, dest, backup} ==> p in now && now[p] == before[p])
    && (forall p :: p in now && p !in {temp, dest, backup} ==> p in before)
  }

  lemma StagesAreSafe(before: Entries, now: Entries, temp: Path, dest: Path, backup: Path)
    requires temp != dest && temp != backup && dest != backup
    requires Stage(before, now, temp, dest, backup)
    ensures Safe(before, now, temp, dest, backup)
  {
  }

  /** In the two stages a failed replacement may stop at, the old entry can be put back by one rename. */
  lemma StoppedStagesAreRecoverable(before: Entries, now: Entries, temp: Path, dest: Path, backup: Path)
    requires temp != dest && temp != backup && dest != backup
    requires Parked(before, now, temp, dest, backup) || Backed(before, now, temp, dest, backup)
    ensures backup in now && backup != dest
    ensures Parked(before, now, temp, dest, backup) ==> Renamed(now, backup, dest) == before
    ensures Backed(before, now, temp, dest, backup) ==> Renamed(now, backup, dest) == before - {temp}
  {
  }

  /** From the parked stage: promotion keeps the backup, removing it promotes, and rolling back restores. */
  lemma StageMoves(before: Entries, temp: Path, dest: Path, backup: Path)
    requires temp != dest && temp != backup && dest != backup
    requires dest in before && backup !in before
    ensures var parked := Renamed(before, dest, backup);
      && !Promoted(before, parked, temp, dest)
      && Renamed(parked, backup, dest) == before
      && (temp in before ==>
            var kept := Renamed(parked, temp, dest);
            && Backed(before, kept, temp, dest, backup)
            && !Promoted(before, kept, temp, dest)
            && kept - {backup} == Renamed(before, temp, dest))
  {
    var parked := Renamed(before, dest, backup);
    if temp in before {
      assert Renamed(parked, temp, dest) - {backup} == Renamed(before, temp, dest);
    }
  }

  /** What a replacement promises of its result and of everything it passed through. */
  ghost predicate Replaced(
    before: Entries, past: seq<Entries>, d: Disk, temp: Path, dest: Path, backup: Path, err: Error)
    reads d
  {
    && |past| <= |d.history| && d.history[..|past|] == past
    && (forall i :: |past| <= i < |d.history| ==> Stage(before, d.history[i], temp, dest, backup))
    && Stage(before, d.entries, temp, dest, backup)
    && (err == Nil <==> Promoted(before, d.entries, temp, dest))
  }

  /** The last of the steps tried was to put the old entry back, and that failed too. */
  predicate RollbackFailed(attempts: seq<Attempt>, dest: Path, backup: Path) {
    && attempts != []
    && var last := attempts[|attempts| - 1];
      last.Move? && last.from == backup && last.to == dest && last.err != Nil
  }

  /** The last of the steps tried was a look at the destination, which was not seen to be free. */
  predicate SeenTaken(attempts: seq<Attempt>, dest: Path) {
    attempts != [] && var last := attempts[|attempts| - 1]; last.Look? && last.name == dest && !last.found.Missing?
  }

  /** The old entry is put back only after a look at the destination has found nothing there. */
  predicate LooksFirst(attempts: seq<Attempt>, dest: Path, backup: Path) {
    var n := |attempts|;
    n > 0 && attempts[n - 1].Move? && attempts[n - 1].from == backup && attempts[n - 1].to == dest ==>
      n > 1 && attempts[n - 2] == Look(dest, Missing)
  }

  /** Removing the backup has failed twice in the end. */
  predicate RemovalFailed(attempts: seq<Attempt>, backup: Path) {
    && |attempts| >= 2
    && forall i :: |attempts| - 2 <= i < |attempts| ==>
         attempts[i].Drop? && attempts[i].name == backup && attempts[i].err != Nil
  }

  /**
   Why a replacement that failed is where it is: everything is as before; or the old entry is still at the backup name
   because putting it back failed, or (where `looks`) because the destination was not seen to be free; or only the
   backup could not be removed.
   */
  ghost predicate FailsWhere(
    before: Entries, d: Disk, temp: Path, dest: Path, backup: Path, err: Error, looks: bool)
    reads d
  {
    err != Nil ==>
      || d.entries == before
      || (Parked(before, d.entries, temp, dest, backup) &&
          (RollbackFailed(d.attempts, dest, backup) || (looks && SeenTaken(d.attempts, dest))))
      || (Backed(before, d.entries, temp, dest, backup) && RemovalFailed(d.attempts, backup))
  }

  /** A rollback that works leaves everything as before. */
  lemma RollbackRestores(before: Entries, d: Disk, temp: Path, dest: Path, backup: Path, err: Error, looks: bool)
    requires FailsWhere(before, d, temp, dest, backup, err, looks) && err != Nil
    requires d.attempts != [] && d.attempts[|d.attempts| - 1] == Move(backup, dest, Nil)
    ensures d.entries == before
  {
  }

  /** The first step is to rename the new entry over the old; if it decides, it is the only one. */
  predicate OnlyStep(past: seq<Attempt>, attempts: seq<Attempt>, temp: Path, dest: Path, err: Error) {
    attempts == past + [Move(temp, dest, err)]
  }

  predicate FirstStep(past: seq<Attempt>, attempts: seq<Attempt>, temp: Path, dest: Path, err: Error) {
    |past| < |attempts| && attempts[|past|] == Move(temp, dest, err)
  }

  /** A file written under the temporary name and renamed from there. */
  lemma WrittenAndRenamed(before: Entries, temp: Path, dest: Path, node: Node)
    requires temp != dest
    ensures Renamed(before[temp := node], temp, dest) == (before - {temp})[dest := node]
  {
  }

  // ---------- Local replacement ----------

  predicate CanReplace(node: Node, allowSymlink: bool) {
    node.File? || (allowSymlink && node.Link?)
  }

  /** Nothing stands in the way of replacing an existing entry. */
  predicate Replaceable(e: Entries, temp: Path, dest: Path, backup: Path, allowSymlink: bool) {
    temp in e && dest in e && CanReplace(e[dest], allowSymlink) && backup !in e
  }

  /** The same when the destination may be anything, or absent. */
  predicate Unobstructed(e: Entries, temp: Path, backup: Path) {
    temp in e && backup !in e
  }

  /**
   replaceLocalEntry. Callers derive the temporary name from the destination by appending to it. Only if renaming over
   an existing entry is refused as such, and that entry is one that may be replaced, is anything else tried; and when
   nothing else fails, the replacement is complete.
   */
  method ReplaceLocalEntry(d: Disk, temp: Path, dest: Path, suffix: string, allowSymlink: bool)
    returns (err: Error)
    requires suffix != "" && temp == WithSuffix(dest, suffix)
    modifies d
    ensures Replaced(old(d.entries), old(d.history), d, temp, dest, WithSuffix(temp, BACKUP_SUFFIX), err)
    ensures FailsWhere(old(d.entries), d, temp, dest, WithSuffix(temp, BACKUP_SUFFIX), err, true)
    ensures LooksFirst(d.attempts, dest, WithSuffix(temp, BACKUP_SUFFIX))
    ensures OnlyStep(old(d.attempts), d.attempts, temp, dest, err) ||
      FirstStep(old(d.attempts), d.attempts, temp, dest, Exists)
    ensures dest in old(d.entries) && !CanReplace(old(d.entries)[dest], allowSymlink) && err != Nil ==>
      d.entries == old(d.entries)
    ensures old(d.faults) <= d.faults
    ensures temp in old(d.entries) && d.faults == old(d.faults) ==> err == Nil
    ensures (
      && FirstStep(old(d.attempts), d.attempts, temp, dest, Exists) && d.faults == old(d.faults) + 1
      && Replaceable(old(d.entries), temp, dest, WithSuffix(temp, BACKUP_SUFFIX), allowSymlink)) ==> err == Nil
  {
    SuffixesDiffer(dest, suffix, BACKUP_SUFFIX);
    SuffixesDiffer(temp, BACKUP_SUFFIX, BACKUP_SUFFIX);
    err := ReplaceLocalVia(d, temp, dest, WithSuffix(temp, BACKUP_SUFFIX), allowSymlink);
  }

  method ReplaceLocalVia(d: Disk, temp: Path, dest: Path, backup: Path, allowSymlink: bool) returns (err: Error)
    requires temp != dest && temp != backup && dest != backup
    modifies d
    ensures Replaced(old(d.entries), old(d.history), d, temp, dest, backup, err)
    ensures FailsWhere(old(d.entries), d, temp, dest, backup, err, true) && LooksFirst(d.attempts, dest, backup)
    ensures OnlyStep(old(d.attempts), d.attempts, temp, dest, err) ||
      FirstStep(old(d.attempts), d.attempts, temp, dest, Exists)
    ensures dest in old(d.entries) && !CanReplace(old(d.entries)[dest], allowSymlink) && err != Nil ==>
      d.entries == old(d.entries)
    ensures old(d.faults) <= d.faults
    ensures temp in old(d.entries) && d.faults == old(d.faults) ==> err == Nil
    ensures (
      && FirstStep(old(d.attempts), d.attempts, temp, dest, Exists) && d.faults == old(d.faults) + 1
      && Replaceable(old(d.entries), temp, dest, backup, allowSymlink)) ==> err == Nil
  {
    err := d.Rename(temp, dest);
    if err == Exists {
      err := ReplaceExisting(d, temp, dest, backup, allowSymlink);
    }
  }

  /** After a rename was refused because the destination exists. */
  method ReplaceExisting(d: Disk, temp: Path, dest: Path, backup: Path, allowSymlink: bool) returns (err: Error)
    requires temp != dest && temp != backup && dest != backup
    modifies d
    ensures err == Nil <==> Promoted(old(d.entries), d.entries, temp, dest)
    ensures Replaced(old(d.entries), old(d.history), d, temp, dest, backup, err)
    ensures FailsWhere(old(d.entries), d, temp, dest, backup, err, true) && LooksFirst(d.attempts, dest, backup)
    ensures old(d.attempts) <= d.attempts
    ensures dest in old(d.entries) && !CanReplace(old(d.entries)[dest], allowSymlink) ==>
      err != Nil && d.entries == old(d.entries)
    ensures old(d.faults) <= d.faults
    ensures d.faults == old(d.faults) && Replaceable(old(d.entries), temp, dest, backup, allowSymlink) ==> err == Nil
  {
    ghost var before := d.entries;
    var info := d.Lstat(dest);
    if !info.Found? {
      return Failure;
    }
    if !CanReplace(info.node, allowSymlink) {
      return Exists;
    }
    var taken := d.Lstat(backup);
    if !taken.Missing? {
      return Failure;
    }
    var backupErr := d.Rename(dest, backup);
    if backupErr != Nil {
      return backupErr;
    }
    err := PromoteLocal(d, temp, dest, backup, before);
  }

  /** The second half, with the old entry at the backup name: promotion, or rollback if the destination is free. */
  method PromoteLocal(d: Disk, temp: Path, dest: Path, backup: Path, ghost before: Entries) returns (err: Error)
    requires temp != dest && temp != backup && dest != backup && Parked(before, d.entries, temp, dest, backup)
    modifies d
    ensures Replaced(before, old(d.history), d, temp, dest, backup, err)
    ensures FailsWhere(before, d, temp, dest, backup, err, true) && LooksFirst(d.attempts, dest, backup)
    ensures old(d.attempts) <= d.attempts && old(d.faults) <= d.faults
    ensures d.faults == old(d.faults) ==> err == Nil
  {
    StageMoves(before, temp, dest, backup);
    var promoteErr := d.Rename(temp, dest);
    if promoteErr != Nil {
      var changed := d.Lstat(dest);
      if !changed.Missing? {
        return promoteErr;
      }
      var rollbackErr := d.Rename(backup, dest);
      return promoteErr;
    }
    err := RemoveBackup(d, backup);
  }

  /** Removes the backup, once more after clearing its read-only mark if that fails. */
  method RemoveBackup(d: Disk, backup: Path) returns (err: Error)
    requires backup in d.entries
    modifies d
    ensures err == Nil ==> d.entries == old(d.entries) - {backup}
    ensures err != Nil ==> d.entries == old(d.entries) && RemovalFailed(d.attempts, backup)
    ensures d.attempts != [] && d.attempts[|d.attempts| - 1].Drop?
    ensures old(d.history) <= d.history && old(d.attempts) <= d.attempts && old(d.faults) <= d.faults
    ensures d.faults == old(d.faults) ==> err == Nil
    ensures forall i :: |old(d.history)| <= i < |d.history| ==>
      d.history[i] == old(d.entries) || d.history[i] == old(d.entries) - {backup}
  {
    err := d.Remove(backup);
    if err != Nil {
      var retryErr := d.Remove(backup);
      err := if retryErr == Nil then Nil else err;
    }
  }

  // ---------- Remote replacement ----------

  /** replaceRemoteDestinationFallback: when nothing fails and the backup name is free, it is complete. */
  method ReplaceRemoteFallback(d: Disk, temp: Path, dest: Path) returns (err: Error)
    requires temp == WithSuffix(dest, TEMP_SUFFIX)
    modifies d
    ensures Replaced(old(d.entries), old(d.history), d, temp, dest, WithSuffix(temp, BACKUP_SUFFIX), err)
    ensures FailsWhere(old(d.entries), d, temp, dest, WithSuffix(temp, BACKUP_SUFFIX), err, false)
    ensures old(d.attempts) < d.attempts && old(d.faults) <= d.faults
    ensures d.faults == old(d.faults) && Unobstructed(old(d.entries), temp, WithSuffix(temp, BACKUP_SUFFIX)) ==>
      err == Nil
  {
    SuffixesDiffer(dest, TEMP_SUFFIX, BACKUP_SUFFIX);
    SuffixesDiffer(temp, BACKUP_SUFFIX, BACKUP_SUFFIX);
    err := ReplaceRemoteVia(d, temp, dest, WithSuffix(dest, TEMP_SUFFIX + BACKUP_SUFFIX));
  }

  method ReplaceRemoteVia(d: Disk, temp: Path, dest: Path, backup: Path) returns (err: Error)
    requires temp != dest && temp != backup && dest != backup
    modifies d
    ensures Replaced(old(d.entries), old(d.history), d, temp, dest, backup, err)
    ensures FailsWhere(old(d.entries), d, temp, dest, backup, err, false)
    ensures old(d.attempts) < d.attempts && old(d.faults) <= d.faults
    ensures d.faults == old(d.faults) && Unobstructed(old(d.entries), temp, backup) ==> err == Nil
  {
    ghost var before := d.entries;
    var info := d.Lstat(dest);
    if info.Missing? {
      err := d.Rename(temp, dest);
      return;
    }
    if info.Unknown? {
      return Failure;
    }
    var taken := d.Lstat(backup);
    if !taken.Missing? {
      return Failure;
    }
    var backupErr := d.Rename(dest, backup);
    if backupErr != Nil {
      return backupErr;
    }
    err := PromoteRemote(d, temp, dest, backup, before);
  }

  /** The second half, with the old entry at the backup name: promotion or rollback. */
  method PromoteRemote(d: Disk, temp: Path, dest: Path, backup: Path, ghost before: Entries) returns (err: Error)
    requires temp != dest && temp != backup && dest != backup && Parked(before, d.entries, temp, dest, backup)
    modifies d
    ensures Replaced(before, old(d.history), d, temp, dest, backup, err)
    ensures FailsWhere(before, d, temp, dest, backup, err, false)
    ensures old(d.attempts) <= d.attempts && old(d.faults) <= d.faults
    ensures d.faults == old(d.faults) ==> err == Nil
  {
    StageMoves(before, temp, dest, backup);
    var promoteErr := d.Rename(temp, dest);
    if promoteErr != Nil {
      var rollbackErr := d.Rename(backup, dest);
      return promoteErr;
    }
    err := RemoveBackup(d, backup);
  }

  /** replaceRemoteFile: only a server without atomic replacement gets the fallback. */
  method ReplaceRemoteFile(d: Disk, temp: Path, dest: Path) returns (err: Error)
    requires temp == WithSuffix(dest, TEMP_SUFFIX)
    modifies d
    ensures Replaced(old(d.entries), old(d.history), d, temp, dest, WithSuffix(temp, BACKUP_SUFFIX), err)
    ensures FailsWhere(old(d.entries), d, temp, dest, WithSuffix(temp, BACKUP_SUFFIX), err, false)
    ensures if FirstStep(old(d.attempts), d.attempts, temp, dest, Unsupported)
      then |d.attempts| > |old(d.attempts)| + 1
      else OnlyStep(old(d.attempts), d.attempts, temp, dest, err)
    ensures old(d.faults) <= d.faults
    ensures temp in old(d.entries) && d.faults == old(d.faults) ==> err == Nil
    ensures (
      && FirstStep(old(d.attempts), d.attempts, temp, dest, Unsupported) && d.faults == old(d.faults) + 1
      && Unobstructed(old(d.entries), temp, WithSuffix(temp, BACKUP_SUFFIX))) ==> err == Nil
  {
    SuffixesDiffer(dest, TEMP_SUFFIX, BACKUP_SUFFIX);
    err := d.Rename(temp, dest);
    if err == Unsupported {
      err := ReplaceRemoteFallback(d, temp, dest);
    }
  }

  /** replaceRemoteLink: any failure of the atomic rename gets the fallback. */
  method ReplaceRemoteLink(d: Disk, temp: Path, dest: Path) returns (err: Error)
    requires temp == WithSuffix(dest, TEMP_SUFFIX)
    modifies d
    ensures Replaced(old(d.entries), old(d.history), d, temp, dest, WithSuffix(temp, BACKUP_SUFFIX), err)
    ensures FailsWhere(old(d.entries), d, temp, dest, WithSuffix(temp, BACKUP_SUFFIX), err, false)
    ensures OnlyStep(old(d.attempts), d.attempts, temp, dest, Nil) || |d.attempts| > |old(d.attempts)| + 1
    ensures old(d.faults) <= d.faults
    ensures temp in old(d.entries) && d.faults == old(d.faults) ==> err == Nil
    ensures (
      && !FirstStep(old(d.attempts), d.attempts, temp, dest, Nil) && d.faults == old(d.faults) + 1
      && Unobstructed(old(d.entries), temp, WithSuffix(temp, BACKUP_SUFFIX))) ==> err == Nil
  {
    SuffixesDiffer(dest, TEMP_SUFFIX, BACKUP_SUFFIX);
    err := d.Rename(temp, dest);
    if err != Nil {
      err := ReplaceRemoteFallback(d, temp, dest);
    }
  }

  /** For every pattern of failures: nothing is lost at any moment, and success leaves exactly the promoted entry. */
  lemma ReplacementIsSafe(
    before: Entries, past: seq<Entries>, d: Disk, temp: Path, dest: Path, backup: Path, err: Error)
    requires temp != dest && temp != backup && dest != backup
    requires Replaced(before, past, d, temp, dest, backup, err)
    ensures forall i :: |past| <= i < |d.history| ==> Safe(before, d.history[i], temp, dest, backup)
    ensures err == Nil ==>
      && temp in before && dest in d.entries && d.entries[dest] == before[temp] && temp !in d.entries
      && (backup in d.entries <==> backup in before)
      && forall p :: p !in {temp, dest} ==>
           (p in d.entries <==> p in before) && (p in before ==> d.entries[p] == before[p])
    ensures err != Nil && d.entries != before ==>
      backup in d.entries && dest in before && d.entries[backup] == before[dest] && backup !in before
  {
    forall i | |past| <= i < |d.history| ensures Safe(before, d.history[i], temp, dest, backup) {
      StagesAreSafe(before, d.history[i], temp, dest, backup);
    }
  }
}
