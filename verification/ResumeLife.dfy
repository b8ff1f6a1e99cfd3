/**
  How runs of a transfer end and what the next run makes of it: when a run completes, what a
  cancellation leaves, how far a checkpoint lags behind, and when the next run continues instead of
  beginning again.
 */
module ResumeLife {
  import opened Text
  import opened ResumeTransfer

  // ----- How far a run gets -----

  /** How many bytes are there after a read of a source of this size. */
  function Advanced(size: nat, transferred: nat, event: Event): nat
    requires event.Read? && transferred <= size
  {
    Min(size, transferred + Min(event.count + 1, BUFFER_BYTES))
  }

  /** The loop reads until the source ends, before anything stops it. */
  predicate ReachesEnd(size: nat, transferred: nat, events: seq<Event>)
    decreases |events|
  {
    if transferred >= size then events == [] || events[0].Read? || events[0].WriteFails?
    else events != [] && events[0].Read? && ReachesEnd(size, Advanced(size, transferred, events[0]), events[1..])
  }

  /** The cancellation that the loop meets first, if it meets one before anything else stops it. */
  function MetCancel(size: nat, transferred: nat, events: seq<Event>): Option<Stop>
    decreases |events|
  {
    if events == [] then None
    else if events[0].Cancel? then Some(events[0].stop)
    else if transferred < size && events[0].Read?
    then MetCancel(size, Advanced(size, transferred, events[0]), events[1..])
    else None
  }

  lemma ReadAdvances(direction: Direction, task: string, source: Source, copy: Copy, event: Event)
    requires event.Read? && |copy.part| < |source.content|
    ensures var next := AfterRead(direction, task, source, copy, event);
            && |next.part| == Advanced(|source.content|, |copy.part|, event)
            && |copy.part| < |next.part| && next.part[..|copy.part|] == copy.part
  {}

  lemma {:induction false} EndsIff(direction: Direction, task: string, source: Source, copy: Copy,
        destination: Option<Bytes>, events: seq<Event>)
    ensures var size, end := |source.content|, CopyLoop(direction, task, source, copy, destination, events).1;
            && (end == None <==> ReachesEnd(size, |copy.part|, events))
            && (end == Some(Canceled) <==>
                var met := MetCancel(size, |copy.part|, events);
                met.Some? && (direction == Upload || met.value.flushed))
            && (end.Some? ==> end.value == Canceled || end.value == Interrupted)
    decreases |events|
  {
    hide AfterRead, AfterCancel, Chunk;
    if events == [] {
    } else if events[0].Read? && |copy.part| < |source.content| {
      ReadAdvances(direction, task, source, copy, events[0]);
      EndsIff(direction, task, source, AfterRead(direction, task, source, copy, events[0]), destination, events[1..]);
    }
  }

  /** The part file is continued: its checkpoint was read and is trusted, and it is no longer than was confirmed. */
  predicate Continues(direction: Direction, files: Files, task: string, source: Source, look: Look) {
    && look.checkpoint && look.length && files.meta.Some? && files.part.Some? && files.part.value != []
    && Trusts(direction, files.meta.value, task, source)
    && |files.part.value| <= files.meta.value.confirmed && |files.part.value| <= |source.content|
  }

  predicate IsRefused(direction: Direction, files: Files, task: string, source: Source, look: Look) {
    look.checkpoint && files.meta.Some? && ShowsChange(direction, files.meta.value, task, source)
  }

  /** A run begins at the end of its part file exactly if that is continued, and otherwise at the beginning. */
  lemma BeginsAt(direction: Direction, files: Files, task: string, source: Source, look: Look, cleanup: Cleanup)
    ensures var (resolved, resolution) := Resolve(direction, files, task, source, look, cleanup);
            && (resolution == SourceChanged <==> IsRefused(direction, files, task, source, look))
            && resolved.destination == files.destination
            && (Continues(direction, files, task, source, look) ==>
                  resolved == files && resolution == Offset(|files.part.value|))
            && (!Continues(direction, files, task, source, look) && resolution.Offset? ==> resolution.offset == 0)
  {}

  predicate OpensWell(plan: Plan, continues: bool) {
    plan.opens && (continues ==> !plan.seek.RestartFails?)
  }

  /** Where the copying begins; a part file in which one cannot seek is begun again. */
  function Start(files: Files, plan: Plan, continues: bool): Bytes {
    if continues && plan.seek.Sought? && files.part.Some? then files.part.value else []
  }

  lemma OpenedWell(direction: Direction, files: Files, task: string, source: Source, plan: Plan)
    requires !IsRefused(direction, files, task, source, plan.look)
    ensures var continues := Continues(direction, files, task, source, plan.look);
            var (resolved, resolution) := Resolve(direction, files, task, source, plan.look, plan.cleanup);
            && resolution.Offset?
            && var (ready, ok) := Opened(resolved, resolution.offset, plan);
            && (ok <==> OpensWell(plan, continues))
            && (ok ==> ready == Files(Some(Start(files, plan, continues)), resolved.meta, files.destination))
  {
    BeginsAt(direction, files, task, source, plan.look, plan.cleanup);
    hide Resolve, Trusts;
  }

  /** A run that was not refused, from its opened part file on. */
  function Copied(direction: Direction, files: Files, task: string, source: Source, plan: Plan)
    : (Files, Option<Outcome>)
  {
    var continues := Continues(direction, files, task, source, plan.look);
    var start := Start(files, plan, continues);
    var meta := Resolve(direction, files, task, source, plan.look, plan.cleanup).0.meta;
    CopyLoop(direction, task, source, Copy(start, meta, |start|), files.destination, plan.events)
  }

  lemma CopiedHasPart(direction: Direction, files: Files, task: string, source: Source, plan: Plan)
    ensures Copied(direction, files, task, source, plan).1 == None ==>
              Copied(direction, files, task, source, plan).0.part.Some?
  {
    hide Continues, Resolve, CopyLoop;
    var start := Start(files, plan, Continues(direction, files, task, source, plan.look));
    var meta := Resolve(direction, files, task, source, plan.look, plan.cleanup).0.meta;
    LoopHasPart(direction, task, source, Copy(start, meta, |start|), files.destination, plan.events);
  }

  lemma {:induction false} LoopHasPart(direction: Direction, task: string, source: Source, copy: Copy,
        destination: Option<Bytes>, events: seq<Event>)
    ensures var (files, end) := CopyLoop(direction, task, source, copy, destination, events);
            && (end == None ==> files.part.Some?) && files.destination == destination
    decreases |events|
  {
    hide AfterRead, Chunk;
    if events == [] {
    } else if events[0].Read? && |copy.part| < |source.content| {
      LoopHasPart(direction, task, source, AfterRead(direction, task, source, copy, events[0]), destination,
                  events[1..]);
    }
  }

  lemma RunIs(direction: Direction, files: Files, task: string, source: Source, plan: Plan)
    requires !IsRefused(direction, files, task, source, plan.look)
    requires OpensWell(plan, Continues(direction, files, task, source, plan.look))
    ensures var (copied, end) := Copied(direction, files, task, source, plan);
            && (end == None ==> copied.part.Some?)
            && Run(direction, files, task, source, plan) ==
               if end.Some? then (copied, end.value) else AfterCommit(direction, task, source, copied, plan)
  {
    OpenedWell(direction, files, task, source, plan);
    CopiedHasPart(direction, files, task, source, plan);
    hide Resolve, CopyLoop, AfterCommit, Continues, Opened;
  }

  lemma RunFailsToOpen(direction: Direction, files: Files, task: string, source: Source, plan: Plan)
    requires !IsRefused(direction, files, task, source, plan.look)
    requires !OpensWell(plan, Continues(direction, files, task, source, plan.look))
    ensures Run(direction, files, task, source, plan).1 == Interrupted
  {
    OpenedWell(direction, files, task, source, plan);
    hide Resolve, CopyLoop, AfterCommit, Continues;
  }

  /** What a run comes to, told without its steps. */
  function Ends(direction: Direction, files: Files, task: string, source: Source, plan: Plan): Outcome {
    var continues := Continues(direction, files, task, source, plan.look);
    var start := |Start(files, plan, continues)|;
    var met := MetCancel(|source.content|, start, plan.events);
    if IsRefused(direction, files, task, source, plan.look) then Changed
    else if !OpensWell(plan, continues) then Interrupted
    else if ReachesEnd(|source.content|, start, plan.events) then
      if !plan.flushed then Interrupted
      else if plan.refusal.Some? then Canceled
      else if plan.commit.Done? then Completed else Interrupted
    else if met.Some? && (direction == Upload || met.value.flushed) then Canceled
    else Interrupted
  }

  /**
    How every run of every plan ends: refused by its checkpoint; completed exactly if it opens, reads to
    the end, and commits; cancelled exactly if a cancellation stops it first or refuses the commit; and
    interrupted otherwise.
   */
  lemma EveryRunEnds(direction: Direction, files: Files, task: string, source: Source, plan: Plan)
    ensures Run(direction, files, task, source, plan).1 == Ends(direction, files, task, source, plan)
  {
    var continues := Continues(direction, files, task, source, plan.look);
    if IsRefused(direction, files, task, source, plan.look) {
      ChangedIff(direction, files, task, source, plan);
    } else if !OpensWell(plan, continues) {
      RunFailsToOpen(direction, files, task, source, plan);
    } else {
      RunIs(direction, files, task, source, plan);
      var start := Start(files, plan, continues);
      var meta := Resolve(direction, files, task, source, plan.look, plan.cleanup).0.meta;
      EndsIff(direction, task, source, Copy(start, meta, |start|), files.destination, plan.events);
      hide Run, Resolve, CopyLoop, Continues, ReachesEnd, MetCancel, AfterCancel;
    }
  }

  // ----- What a run leaves -----

  /** A run that is refused and can clean up leaves nothing of the old version; the next one begins again. */
  lemma RefusedOnceOnly(direction: Direction, files: Files, task: string, source: Source, plan: Plan, look: Look,
        cleanup: Cleanup)
    requires IsRefused(direction, files, task, source, plan.look) && plan.cleanup == Cleanup(true, true)
    ensures Run(direction, files, task, source, plan) == (Files(None, None, files.destination), Changed)
    ensures Run(direction, Files(None, None, files.destination), task, source, Smooth(source, look, cleanup)) ==
            (Files(None, None, Some(source.content)), Completed)
  {
    ChangedIff(direction, files, task, source, plan);
    FirstRunCompletes(direction, task, source, files.destination, look, cleanup);
    hide CopyLoop, AfterCommit, Smooth;
  }

  /** Every cancellation of the plan saves its checkpoint, and can clean up. */
  ghost predicate CancelsWell(events: seq<Event>) {
    forall i :: 0 <= i < |events| && events[i].Cancel? ==>
      events[i].stop.save == Saved && events[i].stop.cleanup == Cleanup(true, true)
  }

  /**
    A cancelled download keeps what it has, with a checkpoint for exactly that; a cancelled upload
    removes both.
   */
  lemma {:induction false} CancelLeaves(direction: Direction, task: string, source: Source, copy: Copy,
        destination: Option<Bytes>, events: seq<Event>)
    requires CancelsWell(events) && copy.part <= source.content
    ensures var (files, end) := CopyLoop(direction, task, source, copy, destination, events);
            end == Some(Canceled) ==>
              if direction == Upload then files == Files(None, None, destination)
              else
                && files.part.Some? && files.part.value <= source.content && |copy.part| <= |files.part.value|
                && files.meta == Some(CheckpointOf(task, source, |files.part.value|))
    decreases |events|
  {
    hide AfterRead, Chunk;
    if events == [] {
    } else if events[0].Read? && |copy.part| < |source.content| {
      ReadAdvances(direction, task, source, copy, events[0]);
      ReadIsOfSource(direction, task, source, copy, events[0]);
      forall i | 0 <= i < |events[1..]| ensures events[1..][i] == events[i + 1] {}
      CancelLeaves(direction, task, source, AfterRead(direction, task, source, copy, events[0]), destination,
                   events[1..]);
    }
  }

  lemma ReadIsOfSource(direction: Direction, task: string, source: Source, copy: Copy, event: Event)
    requires event.Read? && copy.part <= source.content
    ensures AfterRead(direction, task, source, copy, event).part <= source.content
  {}

  lemma OwnCheckpointIsTrusted(direction: Direction, task: string, source: Source, n: nat)
    requires IsVerifiable(source)
    ensures Trusts(direction, CheckpointOf(task, source, n), task, source)
    ensures !ShowsChange(direction, CheckpointOf(task, source, n), task, source)
  {}

  /**
    A cancelled download that is begun again is continued at the byte where it was cancelled, and one
    undisturbed run completes it.
   */
  lemma CanceledDownloadContinues(task: string, source: Source, copy: Copy, destination: Option<Bytes>,
        events: seq<Event>, cleanup: Cleanup)
    requires IsVerifiable(source) && CancelsWell(events) && copy.part <= source.content && copy.part != []
    requires CopyLoop(Download, task, source, copy, destination, events).1 == Some(Canceled)
    ensures var files := CopyLoop(Download, task, source, copy, destination, events).0;
            && files.part.Some?
            && Resolve(Download, files, task, source, Look(true, true), cleanup) ==
               (files, Offset(|files.part.value|))
            && Run(Download, files, task, source, Undisturbed(|source.content| - |files.part.value|)).0 ==
               Files(None, None, Some(source.content))
  {
    CancelLeaves(Download, task, source, copy, destination, events);
    var files := CopyLoop(Download, task, source, copy, destination, events).0;
    OwnCheckpointIsTrusted(Download, task, source, |files.part.value|);
    BeginsAt(Download, files, task, source, Look(true, true), cleanup);
    hide CopyLoop, Resolve, Trusts;
    ContinuesToTheEnd(Download, files, task, source);
  }

  /** A part file that is continued and holds a beginning of the source is completed by the rest of it. */
  lemma ContinuesToTheEnd(direction: Direction, files: Files, task: string, source: Source)
    requires Continues(direction, files, task, source, Look(true, true))
    requires files.part.value <= source.content
    ensures Run(direction, files, task, source, Undisturbed(|source.content| - |files.part.value|)) ==
            (Files(None, None, Some(source.content)), Completed)
  {
    var part := files.part.value;
    var plan := Undisturbed(|source.content| - |part|);
    BeginsAt(direction, files, task, source, plan.look, plan.cleanup);
    OwnChangeIsNot(direction, files, task, source);
    RunIs(direction, files, task, source, plan);
    hide Resolve, CopyLoop, Run, Trusts;
    ReadsToTheEnd(direction, task, source, Copy(part, files.meta, |part|), files.destination, |plan.events|);
    assert part + source.content[|part|..] == source.content;
  }

  lemma OwnChangeIsNot(direction: Direction, files: Files, task: string, source: Source)
    requires Continues(direction, files, task, source, Look(true, true))
    ensures !IsRefused(direction, files, task, source, Look(true, true))
  {}

  // ----- How far the checkpoint lags behind -----

  /** Only reads, each of which saves the checkpoint when one is due. */
  ghost predicate OnlySavedReads(events: seq<Event>) {
    forall i :: 0 <= i < |events| ==> events[i].Read? && events[i].save == Saved
  }

  /** The bytes copied, and how many of them since the last checkpoint. */
  function Progress(size: nat, transferred: nat, since: nat, chunks: seq<Event>): (nat, nat)
    requires transferred <= size && OnlySavedReads(chunks)
    decreases |chunks|
  {
    if chunks == [] || transferred == size then (transferred, since)
    else
      var next := Advanced(size, transferred, chunks[0]);
      var grown := since + (next - transferred);
      Progress(size, next, if grown >= CHECKPOINT_BYTES || chunks[0].due then 0 else grown, chunks[1..])
  }

  /** The checkpoint in place is the one taken after `last` bytes, or the one from before the run. */
  predicate Notes(task: string, source: Source, meta: Option<Checkpoint>, first: Option<Checkpoint>, start: nat,
                  last: nat) {
    meta == Some(CheckpointOf(task, source, last)) || (last == start && meta == first)
  }

  /**
    A run that is cut off by a failing read leaves a checkpoint of its own that is less than 4 MiB
    behind, or none of its own if it did not get that far.
   */
  lemma {:induction false} CheckpointKeepsUp(direction: Direction, task: string, source: Source, copy: Copy,
        destination: Option<Bytes>, chunks: seq<Event>, first: Option<Checkpoint>, start: nat)
    requires OnlySavedReads(chunks) && copy.part <= source.content
    requires start <= copy.last <= |copy.part| && |copy.part| - copy.last < CHECKPOINT_BYTES
    requires Notes(task, source, copy.meta, first, start, copy.last)
    requires !ReachesEnd(|source.content|, |copy.part|, chunks)
    ensures var (files, end) := CopyLoop(direction, task, source, copy, destination, chunks + [ReadFails]);
            var (transferred, since) := Progress(|source.content|, |copy.part|, |copy.part| - copy.last, chunks);
            && end == Some(Interrupted) && files.destination == destination
            && files.part.Some? && files.part.value <= source.content && |files.part.value| == transferred
            && since < CHECKPOINT_BYTES && start + since <= transferred
            && Notes(task, source, files.meta, first, start, transferred - since)
    decreases |chunks|
  {
    hide AfterRead, CopyLoop;
    var events := chunks + [ReadFails];
    if chunks == [] {
      StopsAtFailure(direction, task, source, copy, destination, events);
    } else {
      assert events[0] == chunks[0] && events[1..] == chunks[1..] + [ReadFails];
      assert OnlySavedReads(chunks[1..]) by {
        assert forall i :: 0 <= i < |chunks[1..]| ==> chunks[1..][i] == chunks[i + 1];
      }
      var next := AfterRead(direction, task, source, copy, chunks[0]);
      SavedRead(direction, task, source, copy, chunks[0], first, start);
      GoesOn(direction, task, source, copy, destination, events);
      CheckpointKeepsUp(direction, task, source, next, destination, chunks[1..], first, start);
    }
  }

  lemma StopsAtFailure(direction: Direction, task: string, source: Source, copy: Copy, destination: Option<Bytes>,
        events: seq<Event>)
    requires events != [] && events[0] == ReadFails
    ensures CopyLoop(direction, task, source, copy, destination, events) ==
            (Files(Some(copy.part), copy.meta, destination), Some(Interrupted))
  {}

  lemma GoesOn(direction: Direction, task: string, source: Source, copy: Copy, destination: Option<Bytes>,
        events: seq<Event>)
    requires events != [] && events[0].Read? && |copy.part| < |source.content|
    ensures CopyLoop(direction, task, source, copy, destination, events) ==
            CopyLoop(direction, task, source, AfterRead(direction, task, source, copy, events[0]), destination,
                     events[1..])
  {
    hide AfterRead;
  }

  lemma SavedRead(direction: Direction, task: string, source: Source, copy: Copy, event: Event,
        first: Option<Checkpoint>, start: nat)
    requires event.Read? && event.save == Saved && copy.part <= source.content && |copy.part| < |source.content|
    requires start <= copy.last <= |copy.part| && |copy.part| - copy.last < CHECKPOINT_BYTES
    requires Notes(task, source, copy.meta, first, start, copy.last)
    ensures var next := AfterRead(direction, task, source, copy, event);
            var size := |source.content|;
            var grown := |copy.part| - copy.last + (Advanced(size, |copy.part|, event) - |copy.part|);
            && next.part <= source.content && |next.part| == Advanced(size, |copy.part|, event)
            && start <= next.last <= |next.part|
            && |next.part| - next.last == (if grown >= CHECKPOINT_BYTES || event.due then 0 else grown)
            && Notes(task, source, next.meta, first, start, next.last)
  {
    ReadAdvances(direction, task, source, copy, event);
    ReadIsOfSource(direction, task, source, copy, event);
  }

  /**
    So after a first run of a verifiable source that is cut off by a failing read, the next run continues
    if and only if nothing was copied since the last checkpoint; otherwise it begins again, however much
    was there. Either way an undisturbed run then completes the transfer.
   */
  lemma CutOffRunContinuesIff(direction: Direction, task: string, source: Source, destination: Option<Bytes>,
        chunks: seq<Event>, cleanup: Cleanup)
    requires IsVerifiable(source) && OnlySavedReads(chunks) && !ReachesEnd(|source.content|, 0, chunks)
    ensures var (files, end) := Run(direction, Files(None, None, destination), task, source,
                                    Undisturbed(0).(events := chunks + [ReadFails]));
            var (transferred, since) := Progress(|source.content|, 0, 0, chunks);
            && end == Interrupted && files.part.Some? && |files.part.value| == transferred
            && (Continues(direction, files, task, source, Look(true, true)) <==> transferred > 0 && since == 0)
            && Run(direction, files, task, source, Smooth(source, Look(true, true), cleanup)) ==
               (Files(None, None, Some(source.content)), Completed)
  {
    var plan := Undisturbed(0).(events := chunks + [ReadFails]);
    var nothing := Files(None, None, destination);
    RunIs(direction, nothing, task, source, plan);
    BeginsAt(direction, nothing, task, source, plan.look, plan.cleanup);
    assert Resolve(direction, nothing, task, source, plan.look, plan.cleanup).0.meta.None?;
    hide Run, CopyLoop, Resolve;
    CheckpointKeepsUp(direction, task, source, Copy([], None, 0), destination, chunks, None, 0);
    var files := Run(direction, nothing, task, source, plan).0;
    var (transferred, since) := Progress(|source.content|, 0, 0, chunks);
    OwnCheckpointIsTrusted(direction, task, source, transferred - since);
    hide Trusts, ShowsChange;
    BeginningIsSafe(direction, task, files, source);
    UndisturbedRunCompletes(direction, files, task, source, Look(true, true), cleanup);
  }

  lemma BeginningIsSafe(direction: Direction, task: string, files: Files, source: Source)
    requires files.part.Some? && files.part.value <= source.content
    ensures IsSafe(direction, task, files, {source})
  {}

  // ----- A commit that is refused or fails -----

  /**
    A download whose commit a cancellation refuses keeps the whole file and a checkpoint for it; the next
    run has nothing left to copy, and completes.
   */
  lemma RefusedCommitIsKept(task: string, source: Source, destination: Option<Bytes>, plan: Plan)
    requires IsVerifiable(source) && source.content != [] && plan.flushed
    requires plan.refusal.Some? && plan.refusal.value.save == Saved
    requires plan.events == Undisturbed(|source.content|).events && plan.opens
    ensures var kept := Files(Some(source.content), Some(CheckpointOf(task, source, |source.content|)), destination);
            && Run(Download, Files(None, None, destination), task, source, plan) == (kept, Canceled)
            && Run(Download, kept, task, source, Undisturbed(0)) == (Files(None, None, Some(source.content)), Completed)
  {
    var nothing := Files(None, None, destination);
    var kept := Files(Some(source.content), Some(CheckpointOf(task, source, |source.content|)), destination);
    RunIs(Download, nothing, task, source, plan);
    assert Resolve(Download, nothing, task, source, plan.look, plan.cleanup).0.meta.None?;
    ReadsToTheEnd(Download, task, source, Copy([], None, 0), destination, |source.content|);
    assert [] + source.content[0..] == source.content;
    OwnCheckpointIsTrusted(Download, task, source, |source.content|);
    hide Run, CopyLoop, Resolve, Trusts;
    ContinuesToTheEnd(Download, kept, task, source);
  }

  /** A cancelled upload leaves nothing behind, at the commit as before it. */
  lemma CanceledUploadLeavesNothing(task: string, source: Source, files: Files, plan: Plan)
    requires CancelsWell(plan.events)
    requires plan.refusal.Some? ==> plan.refusal.value.cleanup == Cleanup(true, true)
    requires IsSafe(Upload, task, files, {source})
    requires Run(Upload, files, task, source, plan).1 == Canceled
    ensures Run(Upload, files, task, source, plan).0 == Files(None, None, files.destination)
  {
    EveryRunEnds(Upload, files, task, source, plan);
    var continues := Continues(Upload, files, task, source, plan.look);
    RunIs(Upload, files, task, source, plan);
    var start := Start(files, plan, continues);
    var meta := Resolve(Upload, files, task, source, plan.look, plan.cleanup).0.meta;
    assert start <= source.content;
    CancelLeaves(Upload, task, source, Copy(start, meta, |start|), files.destination, plan.events);
    LoopHasPart(Upload, task, source, Copy(start, meta, |start|), files.destination, plan.events);
    hide Resolve, CopyLoop, Run, Continues;
  }

  /** What a commit leaves: on success the part file has become the destination. */
  lemma CommitLeaves(direction: Direction, task: string, source: Source, files: Files, plan: Plan)
    requires files.part.Some? && plan.refusal.None?
    ensures var (after, outcome) := AfterCommit(direction, task, source, files, plan);
            && (!plan.flushed ==> (after, outcome) == (files, Interrupted))
            && (plan.flushed && plan.commit.Done? ==>
                  && outcome == Completed && after.destination == files.part && after.part == None
                  && after.meta == (if plan.commit.metaRemoved then None else files.meta))
            && (plan.flushed && plan.commit.Failed? ==>
                  && outcome == Interrupted && after.meta == files.meta
                  && after.part == (if plan.commit.partLeft then files.part else None)
                  && (plan.commit.left == Kept ==> after.destination == files.destination))
  {}
}
