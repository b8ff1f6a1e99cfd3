/**
  Resumable transfers. A run copies a source into a part file, noting every now and then in a
  checkpoint how far it got and which version of the source it read. A later run continues at the
  end of the part file if the checkpoint fits the source as it is then. What a run meets (failing
  requests, a cancellation, the end of the program) is given by its plan.
 */
module ResumeTransfer {
  import opened Text

  type Bytes = seq<bv8>

  const BUFFER_BYTES := 65536
  const CHECKPOINT_BYTES := 4194304

  datatype Direction = Upload | Download

  /** The source as a run sees it. Times that cannot be read are 0, fingerprints that cannot, "". */
  datatype Source = Source(content: Bytes, mtime: nat, head: string, tail: string)

  datatype Checkpoint = Checkpoint(task: string, size: nat, mtime: nat, head: string, tail: string, confirmed: nat)

  /** The files of one transfer. A checkpoint that does not parse counts as none. */
  datatype Files = Files(part: Option<Bytes>, meta: Option<Checkpoint>, destination: Option<Bytes>)

  function CheckpointOf(task: string, source: Source, transferred: nat): Checkpoint {
    Checkpoint(task, |source.content|, source.mtime, source.head, source.tail, transferred)
  }

  function Min(a: nat, b: nat): nat {
    if a <= b then a else b
  }

  predicate IsFingerprinted(checkpoint: Checkpoint) {
    checkpoint.head != "" && checkpoint.tail != ""
  }

  predicate IsVerifiable(source: Source) {
    source.head != "" && source.tail != ""
  }

  predicate SameFile(checkpoint: Checkpoint, task: string, source: Source) {
    checkpoint.task == task && checkpoint.size == |source.content| && checkpoint.mtime == source.mtime
  }

  predicate Agrees(noted: string, seen: string) {
    noted == "" || seen == "" || noted == seen
  }

  // ----- Where to continue -----

  /** Which of the queries at the start succeed: for the checkpoint, and for the length of the part file. */
  datatype Look = Look(checkpoint: bool, length: bool)

  /** A length that cannot be found out is taken to be 0. */
  function SeenLength(files: Files, look: Look): nat {
    if files.part.Some? && look.length then |files.part.value| else 0
  }

  /** Which of the best-effort removals of a clean-up succeed. */
  datatype Cleanup = Cleanup(part: bool, meta: bool)

  function CleanUp(files: Files, cleanup: Cleanup): Files {
    files.(part := if cleanup.part then None else files.part, meta := if cleanup.meta then None else files.meta)
  }

  datatype Resolution = Offset(offset: nat) | SourceChanged

  /** Whether a checkpoint allows a run for `source` to continue. */
  predicate Trusts(direction: Direction, checkpoint: Checkpoint, task: string, source: Source) {
    && SameFile(checkpoint, task, source)
    && if direction == Download
       then IsFingerprinted(checkpoint) && checkpoint.head == source.head && checkpoint.tail == source.tail
       else Agrees(checkpoint.head, source.head) && Agrees(checkpoint.tail, source.tail)
  }

  /** A download whose fingerprints are missing, now or in the checkpoint, starts again. */
  predicate StartsAgain(checkpoint: Checkpoint, task: string, source: Source) {
    SameFile(checkpoint, task, source) && !(IsFingerprinted(checkpoint) && IsVerifiable(source))
  }

  predicate PartFits(files: Files, checkpoint: Checkpoint, source: Source, look: Look) {
    SeenLength(files, look) <= Min(checkpoint.confirmed, |source.content|)
  }

  function Resolve(direction: Direction, files: Files, task: string, source: Source, look: Look, cleanup: Cleanup)
    : (Files, Resolution)
  {
    var partSize := SeenLength(files, look);
    if files.meta.None? || !look.checkpoint then
      (CleanUp(files, Cleanup(cleanup.part && partSize > 0, false)), Offset(0))
    else if direction == Download && StartsAgain(files.meta.value, task, source) then
      (CleanUp(files, cleanup), Offset(0))
    else if !Trusts(direction, files.meta.value, task, source) then
      (CleanUp(files, cleanup), SourceChanged)
    else if !PartFits(files, files.meta.value, source, look) then
      (CleanUp(files, cleanup), Offset(0))
    else
      (files, Offset(partSize))
  }

  // ----- One run -----

  /** What became of writing a checkpoint: in place, not written, or the previous one dropped as well. */
  datatype Save = Saved | NotSaved | Dropped

  function AfterSave(direction: Direction, meta: Option<Checkpoint>, checkpoint: Checkpoint, save: Save)
    : Option<Checkpoint>
  {
    match save
    case Saved => Some(checkpoint)
    case NotSaved => meta
    case Dropped => if direction == Upload then None else meta
  }

  datatype Seek = Sought | Restarted | RestartFails(truncated: bool)

  /** How stopping for a cancellation goes: the flush, the last checkpoint, the removals. */
  datatype Stop = Stop(flushed: bool, save: Save, cleanup: Cleanup)

  /** What the loop meets: `Killed` leaves any beginning of the part file on the disk. */
  datatype Event =
    | Read(count: nat, due: bool, save: Save)
    | ReadFails
    | WriteFails(written: nat)
    | Cancel(stop: Stop)
    | Killed(kept: nat)

  /** How a failed commit leaves the destination. */
  datatype Left = Kept | Missing | Replaced

  datatype Commit = Done(metaRemoved: bool) | Failed(partLeft: bool, left: Left)

  datatype Plan = Plan(look: Look, cleanup: Cleanup, opens: bool, seek: Seek, events: seq<Event>, flushed: bool,
                       refusal: Option<Stop>, commit: Commit)

  datatype Outcome = Completed | Changed | Canceled | Interrupted

  /** The part file and the checkpoint while a run copies. */
  datatype Copy = Copy(part: Bytes, meta: Option<Checkpoint>, last: nat)

  function Chunk(source: Source, transferred: nat, count: nat): Bytes {
    var from := Min(transferred, |source.content|);
    source.content[from..from + Min(Min(count + 1, BUFFER_BYTES), |source.content| - from)]
  }

  function AfterRead(direction: Direction, task: string, source: Source, copy: Copy, event: Event): Copy
    requires event.Read?
  {
    var part := copy.part + Chunk(source, |copy.part|, event.count);
    if |part| - copy.last >= CHECKPOINT_BYTES || event.due then
      Copy(part, AfterSave(direction, copy.meta, CheckpointOf(task, source, |part|), event.save), |part|)
    else copy.(part := part)
  }

  /** A cancelled download keeps its part file with a checkpoint; a cancelled upload removes both. */
  function AfterCancel(direction: Direction, task: string, source: Source, files: Files, stop: Stop): Files
    requires files.part.Some?
  {
    if direction == Upload then CleanUp(files, stop.cleanup)
    else if stop.flushed then
      files.(meta := AfterSave(direction, files.meta, CheckpointOf(task, source, |files.part.value|), stop.save))
    else files
  }

  function CopyLoop(direction: Direction, task: string, source: Source, copy: Copy, destination: Option<Bytes>,
                    events: seq<Event>): (Files, Option<Outcome>)
    decreases |events|
  {
    var files := Files(Some(copy.part), copy.meta, destination);
    if events == [] then (files, if |copy.part| >= |source.content| then None else Some(Interrupted))
    else
      match events[0]
      case Cancel(stop) =>
        (AfterCancel(direction, task, source, files, stop),
         Some(if direction == Upload || stop.flushed then Canceled else Interrupted))
      case Killed(kept) => (files.(part := Some(copy.part[..Min(kept, |copy.part|)])), Some(Interrupted))
      case ReadFails => (files, Some(Interrupted))
      case WriteFails(written) =>
        if |copy.part| >= |source.content| then (files, None)
        else
          var chunk := Chunk(source, |copy.part|, BUFFER_BYTES);
          (files.(part := Some(copy.part + chunk[..Min(written, |chunk|)])), Some(Interrupted))
      case Read(_, _, _) =>
        if |copy.part| >= |source.content| then (files, None)
        else CopyLoop(direction, task, source, AfterRead(direction, task, source, copy, events[0]), destination,
            events[1..])
  }

  /** The part file once it is open at the offset, or why it is not. */
  function Opened(files: Files, offset: nat, plan: Plan): (Files, bool) {
    if !plan.opens then (files, false)
    else if offset == 0 then (files.(part := Some([])), true)
    else
      match plan.seek
      case Sought => (files, true)
      case Restarted => (files.(part := Some([])), true)
      case RestartFails(truncated) => (if truncated then files.(part := Some([])) else files, false)
  }

  function AfterCommit(direction: Direction, task: string, source: Source, files: Files, plan: Plan): (Files, Outcome)
    requires files.part.Some?
  {
    if !plan.flushed then (files, Interrupted)
    else if plan.refusal.Some? then
      (AfterCancel(direction, task, source, files, plan.refusal.value.(flushed := true)), Canceled)
    else
      match plan.commit
      case Done(metaRemoved) => (Files(None, if metaRemoved then None else files.meta, files.part), Completed)
      case Failed(partLeft, left) =>
        (Files(if partLeft then files.part else None, files.meta,
               match left case Kept => files.destination case Missing => None case Replaced => files.part), Interrupted)
  }

  function Run(direction: Direction, files: Files, task: string, source: Source, plan: Plan): (Files, Outcome) {
    var (resolved, resolution) := Resolve(direction, files, task, source, plan.look, plan.cleanup);
    if resolution.SourceChanged? then (resolved, Changed)
    else
      var (ready, ok) := Opened(resolved, resolution.offset, plan);
      if !ok || ready.part.None? then (ready, Interrupted)
      else
        var copy := Copy(ready.part.value, ready.meta, |ready.part.value|);
        var (copied, end) := CopyLoop(direction, task, source, copy, ready.destination, plan.events);
        if end.Some? || copied.part.None? then (copied, if end.Some? then end.value else Interrupted)
        else AfterCommit(direction, task, source, copied, plan)
  }

  // ----- The transfer itself -----

  class Transfer {
    const direction: Direction
    const task: string
    var files: Files

    constructor (direction: Direction, task: string, files: Files)
      ensures this.direction == direction && this.task == task && this.files == files
    {
      this.direction, this.task, this.files := direction, task, files;
    }

    method RemoveFiles(cleanup: Cleanup)
      modifies this
      ensures files == CleanUp(old(files), cleanup)
    {
      if cleanup.part {
        files := files.(part := None);
      }
      if cleanup.meta {
        files := files.(meta := None);
      }
    }

    method SaveCheckpoint(checkpoint: Checkpoint, save: Save)
      modifies this
      ensures files == old(files).(meta := AfterSave(direction, old(files).meta, checkpoint, save))
    {
      if save == Saved {
        files := files.(meta := Some(checkpoint));
      } else if save == Dropped && direction == Upload {
        files := files.(meta := None);
      }
    }

    method ResolveResumeOffset(source: Source, look: Look, cleanup: Cleanup) returns (resolution: Resolution)
      modifies this
      ensures (files, resolution) == Resolve(direction, old(files), task, source, look, cleanup)
    {
      var partSize := 0;
      if files.part.Some? && look.length {
        partSize := |files.part.value|;
      }
      if files.meta.None? || !look.checkpoint {
        RemoveFiles(Cleanup(cleanup.part && partSize > 0, false));
        return Offset(0);
      }
      var checkpoint := files.meta.value;
      if checkpoint.task != task || checkpoint.size != |source.content| || checkpoint.mtime != source.mtime {
        RemoveFiles(cleanup);
        return SourceChanged;
      }
      if direction == Upload {
        if (checkpoint.head != "" && source.head != "" && checkpoint.head != source.head)
           || (checkpoint.tail != "" && source.tail != "" && checkpoint.tail != source.tail) {
          RemoveFiles(cleanup);
          return SourceChanged;
        }
      } else if checkpoint.head != "" && checkpoint.tail != "" {
        if source.head == "" || source.tail == "" {
          RemoveFiles(cleanup);
          return Offset(0);
        }
        if checkpoint.head != source.head || checkpoint.tail != source.tail {
          RemoveFiles(cleanup);
          return SourceChanged;
        }
      } else {
        RemoveFiles(cleanup);
        return Offset(0);
      }
      var trusted := Min(Min(checkpoint.confirmed, partSize), |source.content|);
      if partSize > trusted {
        RemoveFiles(cleanup);
        return Offset(0);
      }
      return Offset(trusted);
    }

    /** Opens the part file for writing at the offset, or from the start. */
    method OpenPart(offset: nat, plan: Plan) returns (ok: bool)
      modifies this
      ensures (files, ok) == Opened(old(files), offset, plan)
    {
      if !plan.opens {
        return false;
      }
      if offset == 0 {
        files := files.(part := Some([]));
        return true;
      }
      match plan.seek {
        case Sought =>
        case Restarted => files := files.(part := Some([]));
        case RestartFails(truncated) =>
          if truncated {
            files := files.(part := Some([]));
          }
          return false;
      }
      return true;
    }

    method StopCanceled(source: Source, stop: Stop)
      requires files.part.Some?
      modifies this
      ensures files == AfterCancel(direction, task, source, old(files), stop)
    {
      if direction == Upload {
        RemoveFiles(stop.cleanup);
      } else if stop.flushed {
        SaveCheckpoint(CheckpointOf(task, source, |files.part.value|), stop.save);
      }
    }

    /** Reads and writes until the source ends (`None`) or something stops the run. */
    method CopySource(source: Source, events: seq<Event>) returns (end: Option<Outcome>)
      requires files.part.Some?
      modifies this
      ensures var copy := Copy(old(files).part.value, old(files).meta, |old(files).part.value|);
              (files, end) == CopyLoop(direction, task, source, copy, old(files).destination, events)
    {
      var transferred := |files.part.value|;
      var last: nat := transferred;
      var i := 0;
      ghost var start, destination := Copy(files.part.value, files.meta, transferred), files.destination;
      while i < |events|
        invariant i <= |events|
        invariant files.part.Some? && transferred == |files.part.value| && files.destination == destination
        invariant CopyLoop(direction, task, source, start, destination, events) ==
                  CopyLoop(direction, task, source, Copy(files.part.value, files.meta, last), destination, events[i..])
        decreases |events| - i
      {
        hide AfterCancel, Chunk, AfterSave;
        var event := events[i];
        if event.Cancel? {
          StopCanceled(source, event.stop);
          return Some(if direction == Upload || event.stop.flushed then Canceled else Interrupted);
        }
        if event.Killed? {
          files := files.(part := Some(files.part.value[..Min(event.kept, transferred)]));
          return Some(Interrupted);
        }
        if event.ReadFails? {
          return Some(Interrupted);
        }
        if transferred >= |source.content| {
          return None;
        }
        if event.WriteFails? {
          var chunk := Chunk(source, transferred, BUFFER_BYTES);
          files := files.(part := Some(files.part.value + chunk[..Min(event.written, |chunk|)]));
          return Some(Interrupted);
        }
        files := files.(part := Some(files.part.value + Chunk(source, transferred, event.count)));
        transferred := |files.part.value|;
        if transferred - last >= CHECKPOINT_BYTES || event.due {
          SaveCheckpoint(CheckpointOf(task, source, transferred), event.save);
          last := transferred;
        }
        assert events[i..][1..] == events[i + 1..];
        i := i + 1;
      }
      end := if transferred >= |source.content| then None else Some(Interrupted);
    }

    method RunOnce(source: Source, plan: Plan) returns (outcome: Outcome)
      modifies this
      ensures (files, outcome) == Run(direction, old(files), task, source, plan)
    {
      hide Resolve, CopyLoop, AfterCancel;
      OffsetIsPartLength(direction, files, task, source, plan.look, plan.cleanup);
      var resolution := ResolveResumeOffset(source, plan.look, plan.cleanup);
      if resolution.SourceChanged? {
        return Changed;
      }
      var ok := OpenPart(resolution.offset, plan);
      if !ok || files.part.None? {
        return Interrupted;
      }
      var end := CopySource(source, plan.events);
      if end.Some? || files.part.None? {
        return if end.Some? then end.value else Interrupted;
      }
      if !plan.flushed {
        return Interrupted;
      }
      if plan.refusal.Some? {
        StopCanceled(source, plan.refusal.value.(flushed := true));
        return Canceled;
      }
      match plan.commit {
        case Done(metaRemoved) =>
          files := Files(None, if metaRemoved then None else files.meta, files.part);
          return Completed;
        case Failed(partLeft, left) =>
          files := Files(if partLeft then files.part else None, files.meta,
                         match left case Kept => files.destination case Missing => None case Replaced => files.part);
          return Interrupted;
      }
    }
  }

  // ----- What the part file holds -----

  /** A checkpoint taken of one source is trusted for another only if their contents are the same. */
  ghost predicate IsFaithful(direction: Direction, task: string, sources: set<Source>) {
    forall a, b :: a in sources && b in sources && Trusts(direction, CheckpointOf(task, a, 0), task, b) ==>
      a.content == b.content
  }

  /** Every source that would be continued from the part file begins with what it holds. */
  ghost predicate IsSafe(direction: Direction, task: string, files: Files, sources: set<Source>) {
    files.meta.Some? && files.part.Some? ==>
      forall s :: s in sources && Trusts(direction, files.meta.value, task, s)
                  && |files.part.value| <= Min(files.meta.value.confirmed, |s.content|) ==>
        files.part.value <= s.content
  }

  /** A checkpoint found while `b` is copied would let `a` be continued behind a byte that only `b` has. */
  ghost predicate Misleads(direction: Direction, task: string, checkpoint: Checkpoint, b: Source, a: Source) {
    && Trusts(direction, checkpoint, task, a)
    && exists i :: 0 <= i < checkpoint.confirmed && i < |a.content| && i < |b.content| && a.content[i] != b.content[i]
  }

  ghost predicate IsHonest(direction: Direction, task: string, meta: Option<Checkpoint>, source: Source,
          sources: set<Source>) {
    meta.Some? ==> forall a :: a in sources ==> !Misleads(direction, task, meta.value, source, a)
  }

  /** If the run goes on, the checkpoint it leaves in place misleads no source. */
  ghost predicate IsHarmless(direction: Direction, files: Files, task: string, source: Source, look: Look,
          cleanup: Cleanup, sources: set<Source>) {
    var (resolved, resolution) := Resolve(direction, files, task, source, look, cleanup);
    resolution.Offset? ==> IsHonest(direction, task, resolved.meta, source, sources)
  }

  /**
    The resolution goes on, but leaves behind a checkpoint that is not one of the source being
    copied and may be trusted later: it was not read, or could not be compared and not removed,
    or it was accepted for an upload without having fingerprints.
   */
  predicate LeavesForeign(direction: Direction, files: Files, task: string, source: Source, look: Look,
          cleanup: Cleanup) {
    && files.meta.Some?
    && var checkpoint := files.meta.value;
    && checkpoint.task == task && (direction == Download ==> IsFingerprinted(checkpoint))
    && !(Trusts(direction, checkpoint, task, source) && IsFingerprinted(checkpoint))
    && (|| !look.checkpoint
        || (direction == Download && StartsAgain(checkpoint, task, source) && !cleanup.meta)
        || (direction == Upload && Trusts(direction, checkpoint, task, source)
            && (cleanup.meta ==> PartFits(files, checkpoint, source, look))))
  }

  lemma OwnIsHonest(direction: Direction, task: string, source: Source, transferred: nat, sources: set<Source>)
    requires IsFaithful(direction, task, sources) && source in sources
    ensures IsHonest(direction, task, Some(CheckpointOf(task, source, transferred)), source, sources)
  {
    forall s | s in sources && Trusts(direction, CheckpointOf(task, source, transferred), task, s)
      ensures s.content == source.content
    {
      assert Trusts(direction, CheckpointOf(task, source, 0), task, s);
    }
  }

  lemma TrustedIsHonest(direction: Direction, task: string, checkpoint: Checkpoint, source: Source,
          sources: set<Source>)
    requires IsFaithful(direction, task, sources) && source in sources
    requires Trusts(direction, checkpoint, task, source) && IsFingerprinted(checkpoint)
    ensures IsHonest(direction, task, Some(checkpoint), source, sources)
  {
    forall s | s in sources && Trusts(direction, checkpoint, task, s) ensures s.content == source.content {
      assert Trusts(direction, CheckpointOf(task, source, 0), task, s);
    }
  }

  /** The offset is the length of the part file, and no more than was confirmed or than there is. */
  lemma OffsetIsPartLength(direction: Direction, files: Files, task: string, source: Source, look: Look,
          cleanup: Cleanup)
    ensures var (resolved, resolution) := Resolve(direction, files, task, source, look, cleanup);
            resolution.Offset? && resolution.offset > 0 ==>
              && resolved == files && files.part.Some? && files.meta.Some?
              && Trusts(direction, files.meta.value, task, source)
              && resolution.offset == |files.part.value| <= Min(files.meta.value.confirmed, |source.content|)
  {}

  lemma OpenedAtOffset(direction: Direction, files: Files, task: string, source: Source, plan: Plan)
    ensures var (resolved, resolution) := Resolve(direction, files, task, source, plan.look, plan.cleanup);
            resolution.Offset? && Opened(resolved, resolution.offset, plan).1 ==>
              var ready := Opened(resolved, resolution.offset, plan).0;
              ready.part.Some? && (|ready.part.value| == 0 || |ready.part.value| == resolution.offset)
  {}

  /** A run that leaves no foreign checkpoint is harmless, whatever the other sources are. */
  lemma NoForeignIsHarmless(direction: Direction, files: Files, task: string, source: Source, look: Look,
          cleanup: Cleanup, sources: set<Source>)
    requires IsFaithful(direction, task, sources) && source in sources
    requires !LeavesForeign(direction, files, task, source, look, cleanup)
    ensures IsHarmless(direction, files, task, source, look, cleanup, sources)
  {
    if files.meta.Some? && Trusts(direction, files.meta.value, task, source) && IsFingerprinted(files.meta.value) {
      TrustedIsHonest(direction, task, files.meta.value, source, sources);
    }
  }

  lemma ResolvedIsSafe(direction: Direction, files: Files, task: string, source: Source, look: Look, cleanup: Cleanup,
          sources: set<Source>)
    requires IsSafe(direction, task, files, sources) && source in sources
    ensures var (resolved, resolution) := Resolve(direction, files, task, source, look, cleanup);
            && IsSafe(direction, task, resolved, sources) && resolved.destination == files.destination
            && (resolution.Offset? && resolution.offset > 0 ==>
                  resolved.part.Some? && resolved.part.value <= source.content)
  {}

  // ----- A run keeps it so -----

  lemma HonestIsSafe(direction: Direction, task: string, files: Files, source: Source, sources: set<Source>)
    requires IsHonest(direction, task, files.meta, source, sources)
    requires files.part.Some? ==> files.part.value <= source.content
    ensures IsSafe(direction, task, files, sources)
  {
    if files.meta.Some? && files.part.Some? {
      var checkpoint, part := files.meta.value, files.part.value;
      forall s | s in sources && Trusts(direction, checkpoint, task, s)
                 && |part| <= Min(checkpoint.confirmed, |s.content|)
        ensures part <= s.content
      {
        assert !Misleads(direction, task, checkpoint, source, s);
        assert forall i :: 0 <= i < |part| ==> s.content[i] == source.content[i] == part[i];
      }
    }
  }

  lemma ChunkExtends(source: Source, part: Bytes, count: nat, written: nat)
    requires part <= source.content
    ensures var chunk := Chunk(source, |part|, count);
            && part + chunk <= source.content && part + chunk[..Min(written, |chunk|)] <= source.content
            && (|part| < |source.content| ==> |chunk| > 0)
  {}

  lemma CancelKeeps(direction: Direction, task: string, source: Source, files: Files, stop: Stop, sources: set<Source>)
    requires IsFaithful(direction, task, sources) && source in sources
    requires IsHonest(direction, task, files.meta, source, sources)
    requires files.part.Some? && files.part.value <= source.content
    ensures var after := AfterCancel(direction, task, source, files, stop);
            && IsHonest(direction, task, after.meta, source, sources)
            && (after.part.Some? ==> after.part.value <= source.content)
            && after.destination == files.destination
  {
    OwnIsHonest(direction, task, source, |files.part.value|, sources);
  }

  lemma ReadKeeps(direction: Direction, task: string, source: Source, copy: Copy, event: Event, sources: set<Source>)
    requires IsFaithful(direction, task, sources) && source in sources && event.Read?
    requires IsHonest(direction, task, copy.meta, source, sources) && copy.part <= source.content
    ensures var next := AfterRead(direction, task, source, copy, event);
            IsHonest(direction, task, next.meta, source, sources) && next.part <= source.content
  {
    hide IsFaithful, Chunk;
    ChunkExtends(source, copy.part, event.count, 0);
    OwnIsHonest(direction, task, source, |AfterRead(direction, task, source, copy, event).part|, sources);
  }

  lemma {:induction false} LoopKeeps(direction: Direction, task: string, source: Source, copy: Copy,
        destination: Option<Bytes>, events: seq<Event>, sources: set<Source>)
    requires IsFaithful(direction, task, sources) && source in sources
    requires IsHonest(direction, task, copy.meta, source, sources) && copy.part <= source.content
    ensures var (files, end) := CopyLoop(direction, task, source, copy, destination, events);
            && IsHonest(direction, task, files.meta, source, sources)
            && (files.part.Some? ==> files.part.value <= source.content)
            && files.destination == destination
            && (end.None? ==> files.part == Some(source.content)) && end != Some(Completed)
    decreases |events|
  {
    hide IsFaithful, IsHonest, Chunk, AfterRead, AfterCancel;
    if |copy.part| >= |source.content| {
      assert copy.part == source.content;
    }
    if events == [] {
    } else {
      match events[0] {
        case Cancel(stop) =>
          CancelKeeps(direction, task, source, Files(Some(copy.part), copy.meta, destination), stop, sources);
        case WriteFails(written) => ChunkExtends(source, copy.part, BUFFER_BYTES, written);
        case Read(_, _, _) =>
          ReadKeeps(direction, task, source, copy, events[0], sources);
          var next := AfterRead(direction, task, source, copy, events[0]);
          LoopKeeps(direction, task, source, next, destination, events[1..], sources);
        case _ =>
      }
    }
  }

  /** The destination gets the whole content of the run's source or nothing, and the former if the run completes. */
  predicate CommitsOwn(direction: Direction, files: Files, task: string, source: Source, plan: Plan) {
    var (after, outcome) := Run(direction, files, task, source, plan);
    && (after.destination == files.destination || after.destination.None? || after.destination == Some(source.content))
    && (outcome == Completed ==> after.destination == Some(source.content) && after.part.None?)
  }

  /**
    One harmless run keeps the files safe, and whatever it puts at the destination is the content of its
    own source.
   */
  lemma RunKeepsSafe(direction: Direction, files: Files, task: string, source: Source, plan: Plan,
          sources: set<Source>)
    requires IsFaithful(direction, task, sources) && source in sources
    requires IsSafe(direction, task, files, sources)
    requires IsHarmless(direction, files, task, source, plan.look, plan.cleanup, sources)
    ensures IsSafe(direction, task, Run(direction, files, task, source, plan).0, sources)
    ensures CommitsOwn(direction, files, task, source, plan)
  {
    hide IsFaithful, IsHonest, IsSafe, CopyLoop, AfterCancel, Resolve;
    ResolvedIsSafe(direction, files, task, source, plan.look, plan.cleanup, sources);
    OffsetIsPartLength(direction, files, task, source, plan.look, plan.cleanup);
    var (resolved, resolution) := Resolve(direction, files, task, source, plan.look, plan.cleanup);
    if resolution.Offset? {
      var (ready, ok) := Opened(resolved, resolution.offset, plan);
      if ok {
        var copy := Copy(ready.part.value, ready.meta, |ready.part.value|);
        LoopKeeps(direction, task, source, copy, ready.destination, plan.events, sources);
        var (copied, end) := CopyLoop(direction, task, source, copy, ready.destination, plan.events);
        HonestIsSafe(direction, task, copied, source, sources);
        if end.None? {
          CommitKeeps(direction, task, source, copied, plan, sources);
        }
      } else {
        FailedOpenKeeps(direction, task, resolved, resolution.offset, plan, sources);
      }
    }
  }

  lemma FailedOpenKeeps(direction: Direction, task: string, files: Files, offset: nat, plan: Plan, sources: set<Source>)
    requires IsSafe(direction, task, files, sources)
    ensures IsSafe(direction, task, Opened(files, offset, plan).0, sources)
    ensures Opened(files, offset, plan).0.destination == files.destination
  {}

  lemma CommitKeeps(direction: Direction, task: string, source: Source, files: Files, plan: Plan, sources: set<Source>)
    requires IsFaithful(direction, task, sources) && source in sources
    requires IsHonest(direction, task, files.meta, source, sources) && files.part == Some(source.content)
    ensures var (after, outcome) := AfterCommit(direction, task, source, files, plan);
            && IsSafe(direction, task, after, sources)
            && (after.destination == files.destination || after.destination.None?
                || after.destination == Some(source.content))
            && (outcome == Completed ==> after.destination == Some(source.content) && after.part.None?)
  {
    hide IsFaithful;
    if plan.refusal.Some? {
      CancelKeeps(direction, task, source, files, plan.refusal.value.(flushed := true), sources);
    }
    var after := AfterCommit(direction, task, source, files, plan).0;
    HonestIsSafe(direction, task, after, source, sources);
  }

  // ----- Many runs -----

  datatype Attempt = Attempt(source: Source, plan: Plan)

  /** The files after a number of runs, one after the other. */
  function AfterRuns(direction: Direction, files: Files, task: string, attempts: seq<Attempt>): Files
    decreases |attempts|
  {
    if attempts == [] then files
    else AfterRuns(direction, Run(direction, files, task, attempts[0].source, attempts[0].plan).0, task, attempts[1..])
  }

  ghost predicate AreHarmless(direction: Direction, files: Files, task: string, attempts: seq<Attempt>,
          sources: set<Source>)
    decreases |attempts|
  {
    attempts == [] ||
    var first := attempts[0];
    && IsHarmless(direction, files, task, first.source, first.plan.look, first.plan.cleanup, sources)
    && AreHarmless(direction, Run(direction, files, task, first.source, first.plan).0, task, attempts[1..], sources)
  }

  /**
    The source may change from run to run, and every run may be cut short anywhere: as long as each is
    harmless, the destination never holds anything but what it held at first or the whole content of one
    of the sources.
   */
  lemma {:induction false} NeverSplices(direction: Direction, files: Files, task: string, attempts: seq<Attempt>,
        sources: set<Source>)
    requires IsFaithful(direction, task, sources) && IsSafe(direction, task, files, sources)
    requires forall i :: 0 <= i < |attempts| ==> attempts[i].source in sources
    requires AreHarmless(direction, files, task, attempts, sources)
    ensures var after := AfterRuns(direction, files, task, attempts);
            && IsSafe(direction, task, after, sources)
            && (after.destination == files.destination || after.destination.None?
                || exists i :: 0 <= i < |attempts| && after.destination == Some(attempts[i].source.content))
    decreases |attempts|
  {
    hide Run, IsFaithful, IsSafe, IsHarmless;
    if attempts == [] {
    } else {
      var first := attempts[0];
      RunKeepsSafe(direction, files, task, first.source, first.plan, sources);
      var next := Run(direction, files, task, first.source, first.plan).0;
      NeverSplices(direction, next, task, attempts[1..], sources);
      var after := AfterRuns(direction, next, task, attempts[1..]);
      if after.destination != next.destination && after.destination.Some? {
        var i :| 0 <= i < |attempts[1..]| && after.destination == Some(attempts[1..][i].source.content);
        assert attempts[i + 1] == attempts[1..][i];
      } else if after.destination.Some? && after.destination != files.destination {
        assert after.destination == Some(attempts[0].source.content);
      }
    }
  }

  // ----- Undisturbed runs -----

  function Undisturbed(count: nat): (plan: Plan)
    ensures |plan.events| == count && forall i :: 0 <= i < count ==> plan.events[i] == Read(0, false, NotSaved)
  {
    Plan(Look(true, true), Cleanup(true, true), true, Sought, seq(count, _ => Read(0, false, NotSaved)), true, None,
        Done(true))
  }

  lemma {:induction false} ReadsToTheEnd(direction: Direction, task: string, source: Source, copy: Copy,
        destination: Option<Bytes>, count: nat)
    requires |copy.part| <= |source.content| <= |copy.part| + count
    ensures CopyLoop(direction, task, source, copy, destination, Undisturbed(count).events) ==
            (Files(Some(copy.part + source.content[|copy.part|..]), copy.meta, destination), None)
    decreases count
  {
    hide AfterRead, CopyLoop;
    var events := Undisturbed(count).events;
    if |copy.part| < |source.content| {
      var n := |copy.part|;
      OneRead(direction, task, source, copy, destination, events);
      var next := AfterRead(direction, task, source, copy, events[0]);
      assert events[1..] == Undisturbed(count - 1).events;
      ReadsToTheEnd(direction, task, source, next, destination, count - 1);
      assert copy.part + source.content[n..] == next.part + source.content[n + 1..];
    } else {
      assert copy.part + source.content[|copy.part|..] == copy.part;
      NothingToRead(direction, task, source, copy, destination, events);
    }
  }

  lemma NothingToRead(direction: Direction, task: string, source: Source, copy: Copy, destination: Option<Bytes>,
        events: seq<Event>)
    requires |copy.part| == |source.content| && (events == [] || events[0].Read?)
    ensures CopyLoop(direction, task, source, copy, destination, events) ==
            (Files(Some(copy.part), copy.meta, destination), None)
  {}

  lemma OneRead(direction: Direction, task: string, source: Source, copy: Copy, destination: Option<Bytes>,
        events: seq<Event>)
    requires events != [] && events[0] == Read(0, false, NotSaved) && |copy.part| < |source.content|
    ensures var next := AfterRead(direction, task, source, copy, events[0]);
            && next.part == copy.part + [source.content[|copy.part|]] && next.meta == copy.meta
            && CopyLoop(direction, task, source, copy, destination, events) ==
               CopyLoop(direction, task, source, next, destination, events[1..])
  {
    assert Chunk(source, |copy.part|, 0) == [source.content[|copy.part|]];
  }

  /** A run that continues and is not disturbed appends the rest of its source, whatever it continues. */
  lemma ContinuedRunAppends(direction: Direction, files: Files, task: string, source: Source)
    requires files.part.Some? && files.meta.Some? && Trusts(direction, files.meta.value, task, source)
    requires 0 < |files.part.value| && PartFits(files, files.meta.value, source, Look(true, true))
    ensures var part := files.part.value;
            var (after, outcome) := Run(direction, files, task, source, Undisturbed(|source.content| - |part|));
            && outcome == Completed && after.destination == Some(part + source.content[|part|..])
            && (after.destination == Some(source.content) <==> part <= source.content)
  {
    hide CopyLoop;
    var part := files.part.value;
    ReadsToTheEnd(direction, task, source, Copy(part, files.meta, |part|), files.destination,
                  |source.content| - |part|);
    assert (part + source.content[|part|..])[..|part|] == part;
    if part <= source.content {
      assert part + source.content[|part|..] == source.content;
    }
  }

  // ----- When a run is refused, and what it does otherwise -----

  /** A fingerprint that was noted and one that is seen, both there, and different. */
  predicate Differ(noted: string, seen: string) {
    noted != "" && seen != "" && noted != seen
  }

  /** A checkpoint shows that the source has changed. */
  predicate ShowsChange(direction: Direction, checkpoint: Checkpoint, task: string, source: Source) {
    || checkpoint.task != task || checkpoint.size != |source.content| || checkpoint.mtime != source.mtime
    || match direction
       case Upload => Differ(checkpoint.head, source.head) || Differ(checkpoint.tail, source.tail)
       case Download =>
         && checkpoint.head != "" && checkpoint.tail != "" && source.head != "" && source.tail != ""
         && (checkpoint.head != source.head || checkpoint.tail != source.tail)
  }

  /** A run is refused exactly if it read a checkpoint that shows a change of the source. */
  lemma ChangedIff(direction: Direction, files: Files, task: string, source: Source, plan: Plan)
    ensures Run(direction, files, task, source, plan).1 == Changed <==>
            plan.look.checkpoint && files.meta.Some? && ShowsChange(direction, files.meta.value, task, source)
  {
    hide CopyLoop, AfterCancel;
    var (resolved, resolution) := Resolve(direction, files, task, source, plan.look, plan.cleanup);
    if resolution.Offset? {
      var ready := Opened(resolved, resolution.offset, plan).0;
      if ready.part.Some? {
        NeverChanged(direction, task, source, Copy(ready.part.value, ready.meta, |ready.part.value|), ready.destination,
                     plan.events);
      }
    }
  }

  lemma {:induction false} NeverChanged(direction: Direction, task: string, source: Source, copy: Copy,
        destination: Option<Bytes>, events: seq<Event>)
    ensures CopyLoop(direction, task, source, copy, destination, events).1 != Some(Changed)
    decreases |events|
  {
    hide AfterRead, AfterCancel, Chunk;
    if events == [] {
    } else if events[0].Read? && |copy.part| < |source.content| {
      var next := AfterRead(direction, task, source, copy, events[0]);
      NeverChanged(direction, task, source, next, destination, events[1..]);
    }
  }

  /** How an undisturbed run goes, whatever its two queries and its removals at the start bring. */
  function Smooth(source: Source, look: Look, cleanup: Cleanup): Plan {
    Undisturbed(|source.content|).(look := look, cleanup := cleanup)
  }

  /** From safe files every undisturbed run that is not refused puts the whole source at the destination. */
  lemma UndisturbedRunCompletes(direction: Direction, files: Files, task: string, source: Source, look: Look,
        cleanup: Cleanup)
    requires IsSafe(direction, task, files, {source})
    ensures var (after, outcome) := Run(direction, files, task, source, Smooth(source, look, cleanup));
            if look.checkpoint && files.meta.Some? && ShowsChange(direction, files.meta.value, task, source)
            then outcome == Changed && after.destination == files.destination
            else outcome == Completed && after == Files(None, None, Some(source.content))
  {
    hide CopyLoop;
    var plan := Smooth(source, look, cleanup);
    ChangedIff(direction, files, task, source, plan);
    ResolvedIsSafe(direction, files, task, source, look, cleanup, {source});
    OffsetIsPartLength(direction, files, task, source, look, cleanup);
    var (resolved, resolution) := Resolve(direction, files, task, source, look, cleanup);
    if resolution.Offset? {
      hide Resolve;
      var part: Bytes := if resolution.offset == 0 then [] else resolved.part.value;
      ReadsToTheEnd(direction, task, source, Copy(part, resolved.meta, |part|), resolved.destination, |source.content|);
      assert part + source.content[|part|..] == source.content;
    }
  }

  /** In particular a first run, which finds nothing. */
  lemma FirstRunCompletes(direction: Direction, task: string, source: Source, destination: Option<Bytes>, look: Look,
        cleanup: Cleanup)
    ensures Run(direction, Files(None, None, destination), task, source, Smooth(source, look, cleanup)) ==
            (Files(None, None, Some(source.content)), Completed)
  {
    UndisturbedRunCompletes(direction, Files(None, None, destination), task, source, look, cleanup);
  }

  // ----- What a misleading checkpoint does -----

  /** Some bytes are read one by one, and then the program ends; it leaves the first `kept` ones. */
  function CutShort(count: nat, kept: nat): seq<Event> {
    Undisturbed(count).events + [Killed(kept)]
  }

  lemma {:induction false} ReadsThenKilled(direction: Direction, task: string, source: Source, copy: Copy,
        destination: Option<Bytes>, count: nat, kept: nat)
    requires |copy.part| + count <= |source.content| && kept <= |copy.part| + count
    ensures CopyLoop(direction, task, source, copy, destination, CutShort(count, kept)) ==
            var part := copy.part + source.content[|copy.part|..|copy.part| + count];
            (Files(Some(part[..kept]), copy.meta, destination), Some(Interrupted))
    decreases count
  {
    hide AfterRead, CopyLoop;
    var n, events := |copy.part|, CutShort(count, kept);
    if count == 0 {
      KilledAtOnce(direction, task, source, copy, destination, kept);
      assert events == [Killed(kept)] && copy.part + source.content[n..n] == copy.part;
    } else {
      assert events[0] == Undisturbed(count).events[0];
      OneRead(direction, task, source, copy, destination, events);
      var next := AfterRead(direction, task, source, copy, events[0]);
      assert events[1..] == CutShort(count - 1, kept);
      ReadsThenKilled(direction, task, source, next, destination, count - 1, kept);
      assert copy.part + source.content[n..n + count] == next.part + source.content[n + 1..n + count];
    }
  }

  lemma KilledAtOnce(direction: Direction, task: string, source: Source, copy: Copy, destination: Option<Bytes>,
        kept: nat)
    requires kept <= |copy.part|
    ensures CopyLoop(direction, task, source, copy, destination, [Killed(kept)]) ==
            (Files(Some(copy.part[..kept]), copy.meta, destination), Some(Interrupted))
  {}

  /** A run of `b` that is cut short behind `kept` bytes, however many it found. */
  function CutPlan(files: Files, look: Look, cleanup: Cleanup, offset: nat, kept: nat): Plan {
    Undisturbed(0).(look := look, cleanup := cleanup,
                    events := CutShort(if kept <= offset then 0 else kept - offset, kept))
  }

  lemma CutRun(direction: Direction, files: Files, task: string, b: Source, look: Look, cleanup: Cleanup, kept: nat)
    requires Resolve(direction, files, task, b, look, cleanup).1.Offset? && kept <= |b.content|
    requires Resolve(direction, files, task, b, look, cleanup).1.offset > 0 ==>
               files.part.Some? && files.part.value <= b.content
    ensures var (resolved, resolution) := Resolve(direction, files, task, b, look, cleanup);
            Run(direction, files, task, b, CutPlan(files, look, cleanup, resolution.offset, kept)).0 ==
            Files(Some(b.content[..kept]), resolved.meta, resolved.destination)
  {
    hide CopyLoop, CutShort, Resolve;
    OffsetIsPartLength(direction, files, task, b, look, cleanup);
    var (resolved, resolution) := Resolve(direction, files, task, b, look, cleanup);
    var part: Bytes := if resolution.offset == 0 then [] else files.part.value;
    var count := if kept <= resolution.offset then 0 else kept - resolution.offset;
    ReadsThenKilled(direction, task, b, Copy(part, resolved.meta, |part|), resolved.destination, count, kept);
    assert (part + b.content[|part|..|part| + count])[..kept] == b.content[..kept];
  }

  /**
    A misleading checkpoint becomes a spliced file in two steps: the run that leaves it copies up to the
    differing byte and is cut short, and the other source is continued from there without disturbance.
   */
  lemma MisleadingCheckpointSplices(direction: Direction, files: Files, task: string, a: Source, b: Source, look: Look,
        cleanup: Cleanup, i: nat)
    requires Resolve(direction, files, task, b, look, cleanup).1.Offset?
    requires Resolve(direction, files, task, b, look, cleanup).1.offset > 0 ==>
               files.part.Some? && files.part.value <= b.content
    requires Resolve(direction, files, task, b, look, cleanup).0.meta.Some?
    requires var checkpoint := Resolve(direction, files, task, b, look, cleanup).0.meta.value;
             Trusts(direction, checkpoint, task, a) && i < checkpoint.confirmed
    requires i < |a.content| && i < |b.content| && a.content[i] != b.content[i]
    ensures var offset := Resolve(direction, files, task, b, look, cleanup).1.offset;
            var first := Run(direction, files, task, b, CutPlan(files, look, cleanup, offset, i + 1)).0;
            var (second, outcome) := Run(direction, first, task, a, Undisturbed(|a.content| - (i + 1)));
            && outcome == Completed && second.destination == Some(b.content[..i + 1] + a.content[i + 1..])
            && second.destination != Some(a.content)
  {
    hide Run, Resolve;
    var offset := Resolve(direction, files, task, b, look, cleanup).1.offset;
    CutRun(direction, files, task, b, look, cleanup, i + 1);
    var first := Run(direction, files, task, b, CutPlan(files, look, cleanup, offset, i + 1)).0;
    ContinuedRunAppends(direction, first, task, a);
    assert (b.content[..i + 1] + a.content[i + 1..])[i] == b.content[i];
  }

  /** After a run of `b` with these answers, every completed run of a source commits that source. */
  ghost predicate NextCommitsOwn(direction: Direction, files: Files, task: string, b: Source, look: Look,
          cleanup: Cleanup, sources: set<Source>) {
    forall plan: Plan, a, next: Plan :: plan.look == look && plan.cleanup == cleanup && a in sources ==>
      CommitsAtOnce(direction, Run(direction, files, task, b, plan).0, task, a, next)
  }

  predicate CommitsAtOnce(direction: Direction, files: Files, task: string, a: Source, plan: Plan) {
    var (after, outcome) := Run(direction, files, task, a, plan);
    outcome == Completed ==> after.destination == Some(a.content)
  }

  /**
    The exact condition for a run to be followed by no splice, however either of the two goes: the
    checkpoint it leaves in place misleads no source.
   */
  lemma NoSpliceIff(direction: Direction, files: Files, task: string, b: Source, look: Look, cleanup: Cleanup,
        sources: set<Source>)
    requires IsFaithful(direction, task, sources) && b in sources && IsSafe(direction, task, files, sources)
    ensures NextCommitsOwn(direction, files, task, b, look, cleanup, sources) <==>
            IsHarmless(direction, files, task, b, look, cleanup, sources)
  {
    hide Run, IsFaithful, IsSafe, Resolve;
    if IsHarmless(direction, files, task, b, look, cleanup, sources) {
      forall plan: Plan, a, next: Plan | plan.look == look && plan.cleanup == cleanup && a in sources
        ensures CommitsAtOnce(direction, Run(direction, files, task, b, plan).0, task, a, next)
      {
        RunKeepsSafe(direction, files, task, b, plan, sources);
        SafeRunCommitsOwn(direction, Run(direction, files, task, b, plan).0, task, a, next, sources);
      }
    } else {
      var (resolved, resolution) := Resolve(direction, files, task, b, look, cleanup);
      var a :| a in sources && Misleads(direction, task, resolved.meta.value, b, a);
      var checkpoint := resolved.meta.value;
      var i :| 0 <= i < checkpoint.confirmed && i < |a.content| && i < |b.content| && a.content[i] != b.content[i];
      ResolvedIsSafe(direction, files, task, b, look, cleanup, sources);
      OffsetIsPartLength(direction, files, task, b, look, cleanup);
      MisleadingCheckpointSplices(direction, files, task, a, b, look, cleanup, i);
      var first := Run(direction, files, task, b, CutPlan(files, look, cleanup, resolution.offset, i + 1)).0;
      assert !CommitsAtOnce(direction, first, task, a, Undisturbed(|a.content| - (i + 1)));
    }
  }

  /** From safe files a run that completes commits its own source, whatever it leaves behind. */
  lemma SafeRunCommitsOwn(direction: Direction, files: Files, task: string, a: Source, plan: Plan,
        sources: set<Source>)
    requires IsSafe(direction, task, files, sources) && a in sources
    ensures CommitsOwn(direction, files, task, a, plan)
  {
    hide Run, Resolve;
    RunKeepsSafe(direction, files, task, a, plan, {a});
  }
}
