/**
  Putting a finished temporary file in the place of the destination: move the destination to a
  backup, move the temporary file over, remove the backup, and undo on failure. Locally a rename
  replaces an existing target; a plain SFTP rename refuses one. Every operation can be refused,
  and can take effect although a failure is reported.
 */
module CommitSwap {
  import opened Text

  type Bytes = seq<bv8>

  datatype Path = Path(dir: string, name: string)

  type Files = map<Path, Bytes>

  // ----- The names beside a destination -----

  function TempPath(destination: Path, task: string): Path {
    Path(destination.dir, "." + destination.name + "." + task + ".part")
  }

  function MetaPath(temp: Path): Path {
    Path(temp.dir, temp.name + ".meta")
  }

  function BackupPath(destination: Path, task: string): Path {
    Path(destination.dir, "." + destination.name + "." + task + ".backup")
  }

  /** The files of one transfer never coincide, whatever the names of destination and task. */
  lemma NamesAreDistinct(destination: Path, task: string)
    ensures var temp, backup := TempPath(destination, task), BackupPath(destination, task);
            && temp != destination && backup != destination && temp != backup
            && MetaPath(temp) !in {destination, temp, backup}
  {
    var temp, backup := TempPath(destination, task).name, BackupPath(destination, task).name;
    assert |temp| > |destination.name| && |backup| > |destination.name| && |temp + ".meta"| > |temp|;
    assert temp[|temp| - 1] == 't' && backup[|backup| - 1] == 'p' && (temp + ".meta")[|temp| + 4] == 'a';
  }

  // ----- The file system -----

  /** What becomes of a request: carried out, refused, or carried out and reported as failed. */
  datatype Fate = Done | Refused | ReplyLost

  function AfterRename(files: Files, from: Path, to: Path, overwrites: bool, fate: Fate): Files {
    if fate == Refused || from !in files || (to in files && !overwrites) then files
    else (files - {from})[to := files[from]]
  }

  function AfterRemove(files: Files, path: Path, fate: Fate): Files {
    if fate == Refused then files else files - {path}
  }

  class FileStore {
    const overwrites: bool
    const fates: seq<Fate>
    var files: Files
    var used: nat
    var trace: seq<Files>

    constructor (files: Files, overwrites: bool, fates: seq<Fate>)
      ensures this.files == files && this.overwrites == overwrites && this.fates == fates && used == 0 && trace == []
    {
      this.files, this.overwrites, this.fates, used, trace := files, overwrites, fates, 0, [];
    }

    function FateOf(request: nat): Fate {
      if request < |fates| then fates[request] else Done
    }

    /** `None` when the request fails, so that nothing is learnt. */
    method Exists(path: Path) returns (found: Option<bool>)
      modifies this`used
      ensures used == old(used) + 1
      ensures found == if FateOf(old(used)) == Done then Some(path in files) else None
    {
      found := if FateOf(used) == Done then Some(path in files) else None;
      used := used + 1;
    }

    method Rename(from: Path, to: Path) returns (ok: bool)
      modifies this
      ensures used == old(used) + 1
      ensures files == AfterRename(old(files), from, to, overwrites, FateOf(old(used)))
      ensures ok <==> FateOf(old(used)) == Done && from in old(files) && (to in old(files) ==> overwrites)
      ensures trace == old(trace) + [files]
    {
      var fate := FateOf(used);
      ok := fate == Done && from in files && (to !in files || overwrites);
      if fate != Refused && from in files && (to !in files || overwrites) {
        var bytes := files[from];
        files := (files - {from})[to := bytes];
      }
      used := used + 1;
      trace := trace + [files];
    }

    method RemoveFile(path: Path) returns (ok: bool)
      modifies this
      ensures used == old(used) + 1
      ensures files == AfterRemove(old(files), path, FateOf(old(used)))
      ensures ok <==> FateOf(old(used)) == Done && path in old(files)
      ensures trace == old(trace) + [files]
    {
      var fate := FateOf(used);
      ok := fate == Done && path in files;
      if fate != Refused {
        files := files - {path};
      }
      used := used + 1;
      trace := trace + [files];
    }
  }

  // ----- What must not happen -----

  /**
    The destination holds its old bytes or all of the new ones. When there is no destination, the
    old bytes are at the backup path; if there was none before, the backup is as it was.
   */
  ghost predicate IsKept(before: Files, now: Files, temp: Path, destination: Path, backup: Path) {
    if destination in now then
      || (destination in before && now[destination] == before[destination])
      || (temp in before && now[destination] == before[temp])
    else if destination in before then
      backup in now && now[backup] == before[destination]
    else
      backup in before ==> backup in now && now[backup] == before[backup]
  }

  /** The destination holds a complete version; without a destination, the backup does. */
  ghost predicate IsRecoverable(files: Files, destination: Path, backup: Path, versions: set<Bytes>) {
    if destination in files then files[destination] in versions
    else backup in files && files[backup] in versions
  }

  /** Every state since the trace had `from` entries keeps the bytes of `before`. */
  ghost predicate AlwaysKept(before: Files, trace: seq<Files>, from: nat, temp: Path, destination: Path, backup: Path) {
    forall i :: from <= i < |trace| ==> IsKept(before, trace[i], temp, destination, backup)
  }

  /** The same said of the versions the destination has had: one of them is never lost. */
  lemma KeptIsRecoverable(before: Files, now: Files, temp: Path, destination: Path, backup: Path, versions: set<Bytes>)
    requires IsKept(before, now, temp, destination, backup)
    requires IsRecoverable(before, destination, backup, versions) && (temp in before ==> before[temp] in versions)
    ensures IsRecoverable(now, destination, backup, versions)
  {}

  ghost predicate HasBytes(files: Files, bytes: Bytes, destination: Path, backup: Path) {
    (destination in files && files[destination] == bytes) || (backup in files && files[backup] == bytes)
  }

  /**
    The one pattern of answers that loses the old bytes: both renames go well, and the backup is
    removed with the reply lost. The new bytes are lost too when the destination is then removed.
   */
  predicate SwapLoses(store: FileStore, files: Files, first: nat, temp: Path, backup: Path, both: bool) {
    && temp in files && (backup in files ==> store.overwrites)
    && store.FateOf(first) == Done && store.FateOf(first + 1) == Done
    && store.FateOf(first + 2) == ReplyLost && (both ==> store.FateOf(first + 3) != Refused)
  }

  /** The swap succeeds exactly when its three requests are answered and there is something to move. */
  predicate SwapSucceeds(store: FileStore, files: Files, first: nat, temp: Path, backup: Path) {
    && temp in files && (backup in files ==> store.overwrites)
    && store.FateOf(first) == Done && store.FateOf(first + 1) == Done && store.FateOf(first + 2) == Done
  }

  /** No reply is lost, and at most one request is refused. */
  ghost predicate AtMostOneRefused(store: FileStore) {
    && (forall n: nat :: store.FateOf(n) != ReplyLost)
    && (forall m: nat, n: nat :: m < n && store.FateOf(m) == Refused ==> store.FateOf(n) != Refused)
  }

  lemma KeptSoFar(before: Files, trace: seq<Files>, now: Files, from: nat, temp: Path, destination: Path, backup: Path)
    requires from <= |trace|
    ensures AlwaysKept(before, trace + [now], from, temp, destination, backup) <==>
            AlwaysKept(before, trace, from, temp, destination, backup) && IsKept(before, now, temp, destination, backup)
    ensures from == |trace| ==> AlwaysKept(before, trace, from, temp, destination, backup)
  {
    forall i | from <= i < |trace| ensures trace[i] == (trace + [now])[i] {}
    assert (trace + [now])[|trace|] == now;
  }

  predicate SameAt(before: Files, now: Files, path: Path) {
    (path in now <==> path in before) && (path in now ==> now[path] == before[path])
  }

  ghost predicate OnlyTouches(before: Files, now: Files, paths: set<Path>) {
    forall p :: p !in paths ==> SameAt(before, now, p)
  }

  lemma TouchesAlso(before: Files, between: Files, now: Files, paths: set<Path>, some: set<Path>)
    requires OnlyTouches(before, between, paths) && OnlyTouches(between, now, some) && some <= paths
    ensures OnlyTouches(before, now, paths)
  {
    forall p | p !in paths ensures SameAt(before, now, p) {
      assert SameAt(before, between, p) && SameAt(between, now, p);
    }
  }

  /** The part both commits share, once the destination is known to exist and no backup is in the way. */
  method SwapIn(store: FileStore, temp: Path, destination: Path, backup: Path)
    returns (ok: bool)
    requires temp != destination && temp != backup && destination != backup
    requires destination in store.files
    modifies store
    ensures OnlyTouches(old(store.files), store.files, {temp, destination, backup})
    ensures ok ==>
              && temp in old(store.files) && destination in store.files
              && store.files[destination] == old(store.files)[temp]
              && temp !in store.files && backup !in store.files
    ensures old(store.trace) < store.trace && store.trace[|store.trace| - 1] == store.files
    ensures AlwaysKept(old(store.files), store.trace, |old(store.trace)|, temp, destination, backup) <==>
            !SwapLoses(store, old(store.files), old(store.used), temp, backup, true)
    ensures SwapLoses(store, old(store.files), old(store.used), temp, backup, true) ==>
              !ok && store.files.Keys !! {temp, destination, backup}
    ensures !ok ==> (HasBytes(store.files, old(store.files)[destination], destination, backup) <==>
                     !SwapLoses(store, old(store.files), old(store.used), temp, backup,
                                temp in old(store.files) && old(store.files)[temp] == old(store.files)[destination]))
    ensures ok <==> SwapSucceeds(store, old(store.files), old(store.used), temp, backup)
    ensures !ok && temp in old(store.files) && AtMostOneRefused(store) ==>
              destination in store.files && store.files[destination] == old(store.files)[destination]
  {
    hide AlwaysKept;
    ghost var before, from := store.files, |store.trace|;
    ghost var trace := store.trace;
    ok := store.Rename(destination, backup);
    KeptSoFar(before, trace, store.files, from, temp, destination, backup);
    if !ok {
      return;
    }
    trace := store.trace;
    ok := store.Rename(temp, destination);
    KeptSoFar(before, trace, store.files, from, temp, destination, backup);
    trace := store.trace;
    if !ok {
      var _ := store.Rename(backup, destination);
      KeptSoFar(before, trace, store.files, from, temp, destination, backup);
      return;
    }
    ok := store.RemoveFile(backup);
    KeptSoFar(before, trace, store.files, from, temp, destination, backup);
    if !ok {
      ghost var swapped := store.files;
      PutBack(store, temp, destination, backup, before, from);
      TouchesAlso(before, swapped, store.files, {temp, destination, backup}, {destination, backup});
    }
  }

  /** The backup could not be removed: the destination is removed and the backup moved back. */
  method PutBack(store: FileStore, temp: Path, destination: Path, backup: Path, ghost before: Files, ghost from: nat)
    requires temp != destination && temp != backup && destination != backup
    requires temp in before && destination in before && from <= |store.trace|
    requires temp !in store.files && destination in store.files && store.files[destination] == before[temp]
    requires backup in store.files ==> store.files[backup] == before[destination]
    modifies store
    ensures OnlyTouches(old(store.files), store.files, {destination, backup})
    ensures old(store.trace) < store.trace && store.trace[|store.trace| - 1] == store.files
    ensures AlwaysKept(before, store.trace, from, temp, destination, backup) <==>
            && AlwaysKept(before, old(store.trace), from, temp, destination, backup)
            && (backup !in old(store.files) ==> store.FateOf(old(store.used)) == Refused)
    ensures backup !in old(store.files) && store.FateOf(old(store.used)) != Refused ==>
              store.files.Keys !! {temp, destination, backup}
    ensures backup in old(store.files) && store.FateOf(old(store.used)) != Refused
            && store.FateOf(old(store.used) + 1) != Refused ==>
              destination in store.files && store.files[destination] == before[destination]
    ensures HasBytes(store.files, before[destination], destination, backup) <==>
            || backup in old(store.files)
            || (store.FateOf(old(store.used)) == Refused && before[temp] == before[destination])
  {
    hide AlwaysKept;
    ghost var trace := store.trace;
    var _ := store.RemoveFile(destination);
    KeptSoFar(before, trace, store.files, from, temp, destination, backup);
    trace := store.trace;
    var _ := store.Rename(backup, destination);
    KeptSoFar(before, trace, store.files, from, temp, destination, backup);
  }

  /**
    The whole commit loses them: the destination is seen, a stale backup is cleared first (or, where
    renames overwrite, overlooked), and then the swap goes as in `SwapLoses`.
   */
  predicate CommitLoses(store: FileStore, files: Files, first: nat, temp: Path, destination: Path, backup: Path,
        both: bool) {
    && destination in files && store.FateOf(first) == Done
    && if backup in files && store.FateOf(first + 1) == Done
       then store.FateOf(first + 2) == Done && SwapLoses(store, files - {backup}, first + 3, temp, backup, both)
       else SwapLoses(store, files, first + 2, temp, backup, both)
  }

  /**
    The whole commit succeeds: without a destination by one rename, otherwise by the swap, for which a
    stale backup that is seen must be cleared. `blind` says that the destination was not seen.
   */
  predicate CommitSucceeds(store: FileStore, files: Files, first: nat, temp: Path, destination: Path, backup: Path,
          blind: bool) {
    if blind || destination !in files then temp in files && store.FateOf(first + 1) == Done
    else if backup in files && store.FateOf(first + 1) == Done
    then store.FateOf(first + 2) == Done && SwapSucceeds(store, files - {backup}, first + 3, temp, backup)
    else SwapSucceeds(store, files, first + 2, temp, backup)
  }

  datatype Guarantee = AtomicCreate | BestEffortReplace

  method CommitRemoteTemp(store: FileStore, temp: Path, destination: Path, task: string)
    returns (result: Option<Guarantee>)
    requires temp == TempPath(destination, task) && !store.overwrites
    modifies store
    ensures OnlyTouches(old(store.files), store.files, {temp, destination, BackupPath(destination, task)})
    ensures result.Some? ==>
              && temp in old(store.files) && destination in store.files
              && store.files[destination] == old(store.files)[temp] && temp !in store.files
              && (result.value == AtomicCreate <==> destination !in old(store.files))
              && (BackupPath(destination, task) in store.files <==>
                  BackupPath(destination, task) in old(store.files) && destination !in old(store.files))
    ensures old(store.trace) <= store.trace
    ensures store.files == if store.trace == old(store.trace) then old(store.files) else store.trace[|store.trace| - 1]
    ensures var backup := BackupPath(destination, task);
            AlwaysKept(old(store.files), store.trace, |old(store.trace)|, temp, destination, backup)
            <==> !CommitLoses(store, old(store.files), old(store.used), temp, destination, backup, true)
    ensures var backup := BackupPath(destination, task);
            CommitLoses(store, old(store.files), old(store.used), temp, destination, backup, true) ==>
              result.None? && store.files.Keys !! {temp, destination, BackupPath(destination, task)}
    ensures result.None? && destination in old(store.files) ==>
              (HasBytes(store.files, old(store.files)[destination], destination, BackupPath(destination, task)) <==>
               !CommitLoses(store, old(store.files), old(store.used), temp, destination, BackupPath(destination, task),
                            temp in old(store.files) && old(store.files)[temp] == old(store.files)[destination]))
    ensures result.Some? <==>
              && store.FateOf(old(store.used)) == Done
              && CommitSucceeds(store, old(store.files), old(store.used), temp, destination,
                                BackupPath(destination, task), false)
    ensures result.None? && temp in old(store.files) && destination in old(store.files) && AtMostOneRefused(store) ==>
              destination in store.files && store.files[destination] == old(store.files)[destination]
  {
    NamesAreDistinct(destination, task);
    var found := store.Exists(destination);
    if found.None? {
      return None;
    }
    if !found.value {
      var ok := store.Rename(temp, destination);
      return if ok then Some(AtomicCreate) else None;
    }
    var backup := BackupPath(destination, task);
    var stale := store.Exists(backup);
    if stale == Some(true) {
      var ok := store.RemoveFile(backup);
      if !ok {
        return None;
      }
    }
    var ok := SwapIn(store, temp, destination, backup);
    return if ok then Some(BestEffortReplace) else None;
  }

  /** The destination is not seen, and replaced by a rename whose reply is lost. */
  predicate OverwritesUnseen(store: FileStore, files: Files, first: nat, temp: Path, destination: Path,
        backup: Path) {
    && temp in files && destination in files && files[temp] != files[destination]
    && (backup in files ==> files[backup] != files[destination])
    && store.FateOf(first) != Done && store.FateOf(first + 1) == ReplyLost
  }

  method CommitLocalTemp(store: FileStore, temp: Path, destination: Path, task: string) returns (ok: bool)
    requires temp == TempPath(destination, task) && store.overwrites
    modifies store
    ensures OnlyTouches(old(store.files), store.files, {temp, destination, BackupPath(destination, task)})
    ensures ok ==>
              && temp in old(store.files) && destination in store.files
              && store.files[destination] == old(store.files)[temp] && temp !in store.files
              && (BackupPath(destination, task) in store.files <==>
                  && BackupPath(destination, task) in old(store.files)
                  && !(destination in old(store.files) && store.FateOf(old(store.used)) == Done))
    ensures old(store.trace) <= store.trace
    ensures store.files == if store.trace == old(store.trace) then old(store.files) else store.trace[|store.trace| - 1]
    ensures var backup := BackupPath(destination, task);
            AlwaysKept(old(store.files), store.trace, |old(store.trace)|, temp, destination, backup)
            <==> !CommitLoses(store, old(store.files), old(store.used), temp, destination, backup, true)
    ensures var backup := BackupPath(destination, task);
            CommitLoses(store, old(store.files), old(store.used), temp, destination, backup, true) ==>
              !ok && store.files.Keys !! {temp, destination, BackupPath(destination, task)}
    ensures !ok && destination in old(store.files) ==>
              (HasBytes(store.files, old(store.files)[destination], destination, BackupPath(destination, task)) <==>
               !CommitLoses(store, old(store.files), old(store.used), temp, destination, BackupPath(destination, task),
                            temp in old(store.files) && old(store.files)[temp] == old(store.files)[destination]) &&
               !OverwritesUnseen(store, old(store.files), old(store.used), temp, destination,
                   BackupPath(destination, task)))
    ensures ok <==> CommitSucceeds(store, old(store.files), old(store.used), temp, destination,
                                   BackupPath(destination, task), store.FateOf(old(store.used)) != Done)
    ensures !ok && temp in old(store.files) && destination in old(store.files) && AtMostOneRefused(store) ==>
              destination in store.files && store.files[destination] == old(store.files)[destination]
  {
    NamesAreDistinct(destination, task);
    // A query that fails counts as "does not exist".
    var found := store.Exists(destination);
    if found != Some(true) {
      ok := store.Rename(temp, destination);
      return;
    }
    var backup := BackupPath(destination, task);
    var stale := store.Exists(backup);
    if stale == Some(true) {
      ok := store.RemoveFile(backup);
      if !ok {
        return;
      }
    }
    ok := SwapIn(store, temp, destination, backup);
  }

  /** Replacing one byte by another, with the reply to the removal of the backup lost: nothing is left. */
  method LossExample(destination: Path, task: string) returns (result: Option<Guarantee>, left: Files)
    ensures result == None && left == map[]
  {
    var temp := TempPath(destination, task);
    NamesAreDistinct(destination, task);
    var store := new FileStore(map[destination := [1], temp := [2]], false, [Done, Done, Done, Done, ReplyLost]);
    result := CommitRemoteTemp(store, temp, destination, task);
    left := store.files;
    forall p ensures p !in left {
      assert p in {temp, destination, BackupPath(destination, task)}
          || SameAt(map[destination := [1], temp := [2]], left, p);
    }
  }

  // ----- Many attempts, some of them cut short -----

  /** Without lost replies no commit follows the losing pattern. */
  lemma NoLostReplyNoLoss(store: FileStore, files: Files, first: nat, temp: Path, destination: Path, backup: Path)
    requires ReplyLost !in store.fates
    ensures forall both :: !CommitLoses(store, files, first, temp, destination, backup, both)
  {}

  /**
    Any number of commits of one task, each stopped after any of its steps: as long as no reply is
    lost, a complete version of the file stays at the destination, or else at the backup path.
   */
  method Attempts(store: FileStore, destination: Path, task: string, contents: seq<Bytes>, ghost first: set<Bytes>)
    requires ReplyLost !in store.fates
    requires IsRecoverable(store.files, destination, BackupPath(destination, task), first)
    modifies store
    ensures IsRecoverable(store.files, destination, BackupPath(destination, task),
                          first + set i | 0 <= i < |contents| :: contents[i])
  {
    var temp := TempPath(destination, task);
    ghost var backup := BackupPath(destination, task);
    ghost var versions := first + set i | 0 <= i < |contents| :: contents[i];
    NamesAreDistinct(destination, task);
    for n := 0 to |contents|
      invariant IsRecoverable(store.files, destination, backup, versions)
    {
      assert contents[n] in versions;
      store.files := store.files[temp := contents[n]];
      var before, from := store.files, |store.trace|;
      NoLostReplyNoLoss(store, before, store.used, temp, destination, backup);
      if store.overwrites {
        var _ := CommitLocalTemp(store, temp, destination, task);
      } else {
        var _ := CommitRemoteTemp(store, temp, destination, task);
      }
      var stop :| from <= stop <= |store.trace|;
      if stop > from {
        KeptIsRecoverable(before, store.trace[stop - 1], temp, destination, backup, versions);
      }
      store.files := if stop == from then before else store.trace[stop - 1];
    }
  }
}
