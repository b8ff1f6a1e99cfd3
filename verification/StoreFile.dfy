/**
  Writing and loading `store.json`: a copy to the backup, a temporary file, and a rename. The
  program can stop after any step, and each file operation can fail half-way.
 */
module StoreFile {
  import opened Text

  /** The JSON reader: which texts are JSON at all, and which hold the program's data. */
  datatype Reader<!D> = Reader(isJson: string -> bool, parse: string -> Option<D>) {
    ghost predicate Sound() {
      forall text :: parse(text).Some? ==> isJson(text)
    }
  }

  datatype Files = Files(store: Option<string>, backup: Option<string>, tmp: Option<string>)

  /** How a write ends. `Stopped` stands for a crash or a power loss. */
  datatype WriteEnd = Written | IoError | Stopped

  predicate IsBackedUp<D>(reader: Reader<D>, files: Files) {
    files.store.Some? && reader.isJson(files.store.value)
  }

  /** The backup is untouched, or holds the beginning of the stored text if that is JSON. */
  ghost predicate BackupMayBe<D>(reader: Reader<D>, files: Files, backup: Option<string>) {
    || backup == files.backup
    || (IsBackedUp(reader, files) && backup.Some? && backup.value <= files.store.value)
  }

  /** The states in which a write of `raw` can leave the files, whenever it stops. */
  ghost predicate MayLeave<D>(reader: Reader<D>, files: Files, raw: string, left: Files) {
    && BackupMayBe(reader, files, left.backup)
    && (left.store == files.store || (left.store == Some(raw) && left.tmp.None?))
  }

  /**
    What becomes of a file operation: carried out, failed, or cut off by a stop of the program. In the
    last two cases a beginning of the text may have been written.
   */
  datatype Fate = Done | Fails(kept: Option<nat>) | Stops(kept: Option<nat>)

  function Min(a: nat, b: nat): nat {
    if a <= b then a else b
  }

  function AfterWriting(before: Option<string>, text: string, fate: Fate): Option<string> {
    if fate.Done? then Some(text)
    else if fate.kept.Some? then Some(text[..Min(fate.kept.value, |text|)])
    else before
  }

  /** An operation that is cut off leaves a beginning of the text, or what was there. */
  lemma CutOffWriting(before: Option<string>, text: string, fate: Fate)
    requires !fate.Done?
    ensures fate.kept.None? ==> AfterWriting(before, text, fate) == before
    ensures fate.kept.Some? ==>
              var left := AfterWriting(before, text, fate);
              && left.Some? && left.value <= text
              && (fate.kept.value <= |text| ==> |left.value| == fate.kept.value)
              && (fate.kept.value > |text| ==> left.value == text)
  {}

  /** The fates of the operations of one write; `early` is a stop before the first of them. */
  datatype Fates = Fates(early: bool, copy: Fate, tmp: Fate, rename: Fate, removed: bool)

  class StoreDisk {
    var files: Files

    constructor (initial: Files)
      ensures files == initial
    {
      files := initial;
    }

    method CopyToBackup(text: string, fate: Fate)
      modifies this
      ensures files == old(files).(backup := AfterWriting(old(files).backup, text, fate))
    {
      if fate.Done? {
        files := files.(backup := Some(text));
      } else if fate.kept.Some? {
        files := files.(backup := Some(text[..Min(fate.kept.value, |text|)]));
      }
    }

    method WriteTmp(raw: string, fate: Fate)
      modifies this
      ensures files == old(files).(tmp := AfterWriting(old(files).tmp, raw, fate))
    {
      if fate.Done? {
        files := files.(tmp := Some(raw));
      } else if fate.kept.Some? {
        files := files.(tmp := Some(raw[..Min(fate.kept.value, |raw|)]));
      }
    }

    method RemoveTmp(removed: bool)
      modifies this
      ensures files == old(files).(tmp := if removed then None else old(files).tmp)
    {
      if removed {
        files := files.(tmp := None);
      }
    }

    /** A copy to the backup that fails is passed over; every other failure ends the write. */
    method WriteStoreAtomic<D>(reader: Reader<D>, raw: string, fates: Fates) returns (end: WriteEnd)
      modifies this
      ensures MayLeave(reader, old(files), raw, files)
      ensures end == Written <==>
                && !fates.early && !(IsBackedUp(reader, old(files)) && fates.copy.Stops?)
                && fates.tmp.Done? && fates.rename.Done?
      ensures end == Written ==>
                files == Files(Some(raw), if IsBackedUp(reader, old(files))
                                          then AfterWriting(old(files).backup, old(files).store.value, fates.copy)
                                          else old(files).backup, None)
      ensures end != Written ==> files.store == old(files).store
      ensures end == IoError && fates.removed ==> files.tmp.None?
    {
      if fates.early {
        return Stopped;
      }
      if files.store.Some? && reader.isJson(files.store.value) {
        CopyToBackup(files.store.value, fates.copy);
        if fates.copy.Stops? {
          return Stopped;
        }
      }
      WriteTmp(raw, fates.tmp);
      if fates.tmp.Fails? {
        RemoveTmp(fates.removed);
        return IoError;
      }
      if fates.tmp.Stops? {
        return Stopped;
      }
      match fates.rename {
        case Done => files := files.(store := files.tmp, tmp := None);
        case Fails(_) => RemoveTmp(fates.removed);
        case Stops(_) =>
      }
      end := match fates.rename case Done => Written case Fails(_) => IoError case Stops(_) => Stopped;
    }
  }

  // ----- Loading -----

  datatype Loaded<+D> = Data(data: D) | NoStore | Unreadable

  function Load<D>(reader: Reader<D>, files: Files): Loaded<D> {
    if files.store.None? then NoStore
    else
      match reader.parse(files.store.value)
      case Some(data) => Data(data)
      case None =>
        if files.backup.None? then Unreadable
        else
          match reader.parse(files.backup.value)
          case Some(data) => Data(data)
          case None => Unreadable
  }

  /** What the program starts with: a missing store gives the defaults. */
  function Start<D>(reader: Reader<D>, defaults: D, files: Files): Option<D> {
    match Load(reader, files)
    case Data(data) => Some(data)
    case NoStore => Some(defaults)
    case Unreadable => None
  }

  /**
    A start finds the stored data, or that of the backup when the stored text cannot be read; it falls
    back on the defaults only when there is no store at all, and otherwise does not come about.
   */
  lemma StartIff<D>(reader: Reader<D>, defaults: D, files: Files)
    ensures Load(reader, files) == NoStore <==> files.store.None?
    ensures forall data :: Load(reader, files) == Data(data) <==>
              && files.store.Some?
              && (|| reader.parse(files.store.value) == Some(data)
                  || (&& reader.parse(files.store.value).None?
                      && files.backup.Some? && reader.parse(files.backup.value) == Some(data)))
    ensures Start(reader, defaults, files).None? <==>
              && files.store.Some? && reader.parse(files.store.value).None?
              && (files.backup.Some? ==> reader.parse(files.backup.value).None?)
    ensures files.store.None? ==> Start(reader, defaults, files) == Some(defaults)
    ensures forall data :: Load(reader, files) == Data(data) ==> Start(reader, defaults, files) == Some(data)
  {}

  /** What decides whether a write is safe: the stored text is data, or is not JSON at all. */
  predicate IsSafeToWrite<D>(reader: Reader<D>, files: Files) {
    files.store.Some? ==> reader.parse(files.store.value).Some? || !reader.isJson(files.store.value)
  }

  /** A store that is no JSON leaves the backup alone. */
  lemma CorruptStoreKeepsBackup<D>(reader: Reader<D>, files: Files, raw: string, left: Files)
    requires files.store.Some? && !reader.isJson(files.store.value) && MayLeave(reader, files, raw, left)
    ensures left.backup == files.backup
  {
  }

  /**
    After a write whose copy was carried out, the text from before it is the backup: a store that is
    damaged later loads that text's data.
   */
  lemma DamagedStoreLoadsTheBackup<D>(reader: Reader<D>, files: Files, written: Files, damaged: string)
    requires reader.Sound() && files.store.Some? && reader.parse(files.store.value).Some?
    requires written.backup == AfterWriting(files.backup, files.store.value, Done)
    requires reader.parse(damaged).None?
    ensures Load(reader, written.(store := Some(damaged))) == Data(reader.parse(files.store.value).value)
  {}

  /**
    The exact condition under which a write loses nothing: wherever it stops, the next start
    finds the data from before or the data being written, if and only if the stored text can
    be read as data or is no JSON. JSON of another shape is copied over a good backup.
   */
  lemma WriteLosesNothingIff<D>(reader: Reader<D>, defaults: D, files: Files, raw: string)
    requires reader.Sound() && reader.parse(raw).Some? && Start(reader, defaults, files).Some?
    ensures (forall left :: MayLeave(reader, files, raw, left) ==>
               Start(reader, defaults, left) in {Start(reader, defaults, files), reader.parse(raw)}) <==>
            IsSafeToWrite(reader, files)
  {
    if !IsSafeToWrite(reader, files) {
      var left := Files(files.store, files.store, None);
      assert MayLeave(reader, files, raw, left);
      assert Start(reader, defaults, left).None?;
    }
  }

  /** One write after the other, each ending anywhere. */
  ghost predicate IsHistory<D>(reader: Reader<D>, states: seq<Files>, raws: seq<string>) {
    && |states| == |raws| + 1
    && forall i :: 0 <= i < |raws| ==>
         reader.parse(raws[i]).Some? && MayLeave(reader, states[i], raws[i], states[i + 1])
  }

  /** The data of a start: from before the history, or from one of the writes so far. */
  ghost predicate StartsFrom<D>(reader: Reader<D>, defaults: D, states: seq<Files>, raws: seq<string>, n: nat)
    requires |states| == |raws| + 1 && n <= |raws|
  {
    var now := Start(reader, defaults, states[n]);
    && now.Some?
    && (now == Start(reader, defaults, states[0]) || exists i :: 0 <= i < n && now == reader.parse(raws[i]))
  }

  /** Over any history of writes and crashes the program always starts, and with real data. */
  lemma {:induction false} HistoryLosesNothing<D>(reader: Reader<D>, defaults: D, states: seq<Files>,
          raws: seq<string>, n: nat)
    requires reader.Sound() && IsHistory(reader, states, raws) && n <= |raws|
    requires IsSafeToWrite(reader, states[0]) && Start(reader, defaults, states[0]).Some?
    ensures IsSafeToWrite(reader, states[n])
    ensures StartsFrom(reader, defaults, states, raws, n)
    ensures n > 0 ==> Start(reader, defaults, states[n]) in
                      {Start(reader, defaults, states[n - 1]), reader.parse(raws[n - 1])}
  {
    if n == 0 {
    } else {
      HistoryLosesNothing(reader, defaults, states, raws, n - 1);
      assert MayLeave(reader, states[n - 1], raws[n - 1], states[n]);
      WriteLosesNothingIff(reader, defaults, states[n - 1], raws[n - 1]);
    }
  }
}
