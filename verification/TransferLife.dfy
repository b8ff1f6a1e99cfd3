/**
  The life of one transfer among others in the registry: what a run makes of its record from the
  insertion to the end, what a cancellation, a failure and a retry make of it, and that the steps of
  other transfers make no difference to it.
 */
module TransferLife {
  import opened Text
  import opened TransferRegistry

  // ----- One transfer among others -----

  /** The steps that are about one task. */
  function Own(steps: seq<Step>, id: string): seq<Step> {
    if steps == [] then []
    else (if steps[0].id == id then [steps[0]] else []) + Own(steps[1..], id)
  }

  /** Two registries hold the same about one task. */
  ghost predicate SameFor(a: Tasks, b: Tasks, id: string) {
    && (id in a <==> id in b)
    && (id in a ==> a[id] == b[id])
  }

  lemma StepOnOne(a: Tasks, b: Tasks, step: Step, id: string)
    requires SameFor(a, b, id)
    ensures step.id == id ==> SameFor(Apply(a, step), Apply(b, step), id)
    ensures step.id != id ==> SameFor(Apply(a, step), a, id)
  {
    hide Changed, Stamped, AfterCancel;
  }

  /** What becomes of a task depends on the steps about it alone, however others are mixed in. */
  lemma {:induction false} OthersMakeNoDifference(a: Tasks, b: Tasks, steps: seq<Step>, id: string)
    requires SameFor(a, b, id)
    ensures SameFor(After(a, steps), After(b, Own(steps, id)), id)
    decreases |steps|
  {
    hide Apply;
    if steps == [] {
    } else {
      StepOnOne(a, b, steps[0], id);
      if steps[0].id == id {
        assert Own(steps, id)[1..] == Own(steps[1..], id);
        OthersMakeNoDifference(Apply(a, steps[0]), Apply(b, steps[0]), steps[1..], id);
      } else {
        assert Own(steps, id) == Own(steps[1..], id);
        OthersMakeNoDifference(Apply(a, steps[0]), b, steps[1..], id);
      }
    }
  }

  lemma IdentityStep(tasks: Tasks, step: Step, id: string)
    requires id in tasks && id in Apply(tasks, step) && !(step.Insert? && step.id == id)
    ensures var before, after := tasks[id].snapshot, Apply(tasks, step)[id].snapshot;
            && after.connection == before.connection && after.batch == before.batch
            && after.direction == before.direction
            && (!Decides(step) ==> after.policy == before.policy)
  {
    hide Changed, Relocated;
    if step.Update? {
      IdentityChange(tasks[id], step.change, step.now);
    }
  }

  lemma IdentityChange(record: Record, change: Change, now: nat)
    ensures var before, after := record.snapshot, Stamped(Changed(record, change, now), now).snapshot;
            && after.connection == before.connection && after.batch == before.batch
            && after.direction == before.direction
            && (!change.Resolve? && !change.ApplyPolicy? ==> after.policy == before.policy)
  {}

  predicate Decides(step: Step) {
    step.Update? && (step.change.Resolve? || step.change.ApplyPolicy?)
  }

  /** The connection, batch and direction of a task never change, and its policy only by a decision. */
  lemma {:induction false} IdentityStays(tasks: Tasks, steps: seq<Step>, id: string)
    requires id in tasks && id in After(tasks, steps) && NeverInserted(steps, id)
    ensures var before, after := tasks[id].snapshot, After(tasks, steps)[id].snapshot;
            && after.connection == before.connection && after.batch == before.batch
            && after.direction == before.direction
            && ((forall i :: 0 <= i < |steps| && steps[i].id == id ==> !Decides(steps[i])) ==>
                  after.policy == before.policy)
    decreases |steps|
  {
    hide Apply;
    if steps == [] {
    } else {
      var next := Apply(tasks, steps[0]);
      assert !(steps[0].Insert? && steps[0].id == id);
      forall i | 0 <= i < |steps[1..]| ensures steps[1..][i] == steps[i + 1] {}
      if id !in next {
        GoneForGood(next, steps[1..], id);
      } else {
        IdentityStep(tasks, steps[0], id);
        if steps[0].id != id {
          StepOnOne(tasks, tasks, steps[0], id);
        }
        IdentityStays(next, steps[1..], id);
      }
    }
  }

  // ----- Progress -----

  /** The percentage is the nearest whole one, but 99 at most while anything may be missing. */
  lemma PercentIsNearest(transferred: nat, size: nat)
    requires size > 0
    ensures var percent := Percent(transferred, size);
            && percent <= 99
            && 2 * size * percent <= 200 * transferred + size
            && (percent < 99 ==> 200 * transferred < 2 * size * percent + size)
  {
    var twice := 200 * transferred + size;
    var rounded := twice / (2 * size);
    assert twice == 2 * size * rounded + twice % (2 * size);
    if transferred >= size {
      assert 2 * size * 99 <= 200 * size;
    } else if rounded > 99 {
      Grows(2 * size, 99, rounded);
    }
  }

  lemma Grows(factor: nat, a: nat, b: nat)
    requires a <= b
    ensures factor * a <= factor * b
  {}

  /** More transferred never shows less. */
  lemma PercentRises(less: nat, more: nat, size: nat)
    requires less <= more
    ensures Percent(less, size) <= Percent(more, size)
    ensures size > 0 ==> Percent(0, size) == 0
    ensures Percent(more, 0) == 100
  {
    if size > 0 {
      QuotientRises(200 * less + size, 200 * more + size, 2 * size);
      assert size / (2 * size) == 0;
    }
  }

  lemma QuotientRises(a: nat, b: nat, divisor: nat)
    requires a <= b && divisor > 0
    ensures a / divisor <= b / divisor
  {
    var p, q := a / divisor, b / divisor;
    assert a == divisor * p + a % divisor && b == divisor * q + b % divisor;
    assert divisor * (q + 1) == divisor * q + divisor;
    if p >= q + 1 {
      Grows(divisor, q + 1, p);
    }
  }

  // ----- A run that nothing disturbs -----

  /** The progress steps of a run: how much was transferred at each. */
  function Counting(id: string, counts: seq<nat>, size: nat, now: nat): seq<Step> {
    seq(|counts|, i requires 0 <= i < |counts| => Update(id, Progress(counts[i], size), now))
  }

  /** What a run does to its record: it checks, starts, copies, and commits. */
  function RunSteps(id: string, start: Change, counts: seq<nat>, guarantee: Guarantee, now: nat): seq<Step>
    requires start.Start?
  {
    [Update(id, Transition(Checking), now), Update(id, start, now), Update(id, Transition(Transferring), now)]
    + (Counting(id, counts, start.size, now)
       + [BeginCommit(id, now), Update(id, Finish(Completed, None, guarantee), now)])
  }

  function Last(counts: seq<nat>, first: nat): nat {
    if counts == [] then first else counts[|counts| - 1]
  }

  lemma {:induction false} Counted(tasks: Tasks, id: string, counts: seq<nat>, size: nat, now: nat)
    requires id in tasks
    ensures var after := After(tasks, Counting(id, counts, size, now));
            && id in after
            && var before, counted := tasks[id].snapshot, after[id].snapshot;
               && counted == before.(transferred := counted.transferred, total := counted.total,
                                     progress := counted.progress, sequence := counted.sequence,
                                     updatedAt := counted.updatedAt)
               && counted.transferred == Last(counts, before.transferred)
               && counted.sequence == before.sequence + |counts|
               && counted.progress == (if counts == [] then before.progress
                                       else Percent(counts[|counts| - 1], size))
               && (counts != [] ==> counted.total == Some(size))
               && (counts == [] ==> counted.total == before.total)
               && after[id].canceled == tasks[id].canceled
    decreases |counts|
  {
    if counts == [] {
    } else {
      var steps := Counting(id, counts, size, now);
      var next := Apply(tasks, steps[0]);
      assert steps[1..] == Counting(id, counts[1..], size, now);
      Counted(next, id, counts[1..], size, now);
    }
  }

  lemma TwoSteps(tasks: Tasks, x: Step, y: Step)
    ensures After(tasks, [x, y]) == Apply(Apply(tasks, x), y)
  {
    hide Apply;
    assert [x, y][1..] == [y] && [y][1..] == [];
    assert After(Apply(tasks, x), [y]) == After(Apply(Apply(tasks, x), y), []);
  }

  lemma ThreeSteps(tasks: Tasks, x: Step, y: Step, z: Step)
    ensures After(tasks, [x, y, z]) == Apply(Apply(Apply(tasks, x), y), z)
  {
    hide Apply;
    assert [x, y, z][1..] == [y, z];
    TwoSteps(Apply(tasks, x), y, z);
  }

  /** The record of a queued, uncancelled task after a run that nothing disturbs. */
  ghost predicate HasRun(before: Record, after: Record, start: Change, counts: seq<nat>, guarantee: Guarantee, now: nat)
    requires start.Start?
  {
    var s := after.snapshot;
    && s.status == Completed && s.progress == 100 && s.guarantee == guarantee && s.error.None?
    && s.completedAt == Some(now) && s.total == Some(start.size) && s.resumedFrom == start.resumedFrom
    && s.transferred == Last(counts, start.resumedFrom)
    && s.attempt == before.snapshot.attempt && s.sequence == before.snapshot.sequence + |counts| + 5
    && s.policy == before.snapshot.policy && s.conflict == before.snapshot.conflict
    && IsMoved(before.snapshot, s, start.located) && !after.canceled
  }

  /** The run begins: it is transferring, from the offset it resumes at. */
  lemma RunBegins(tasks: Tasks, id: string, start: Change, now: nat)
    requires id in tasks && start.Start?
    ensures var begin := [Update(id, Transition(Checking), now), Update(id, start, now),
                          Update(id, Transition(Transferring), now)];
            var after := After(tasks, begin);
            && id in after && after[id].canceled == tasks[id].canceled
            && var before, s := tasks[id].snapshot, after[id].snapshot;
               && s.status == Transferring && s.transferred == start.resumedFrom && s.resumedFrom == start.resumedFrom
               && s.total == Some(start.size) && s.attempt == before.attempt && s.sequence == before.sequence + 3
               && s.policy == before.policy && s.conflict == before.conflict && s.error == before.error
               && IsMoved(before, s, start.located)
  {
    ThreeSteps(tasks, Update(id, Transition(Checking), now), Update(id, start, now),
               Update(id, Transition(Transferring), now));
  }

  lemma RunEnds(tasks: Tasks, id: string, guarantee: Guarantee, now: nat)
    requires id in tasks && tasks[id].snapshot.status == Transferring && !tasks[id].canceled
    ensures var after := After(tasks, [BeginCommit(id, now), Update(id, Finish(Completed, None, guarantee), now)]);
            && id in after
            && after[id] == tasks[id].(snapshot := tasks[id].snapshot.(
                              status := Completed, progress := 100, error := None, guarantee := guarantee,
                              completedAt := Some(now), sequence := tasks[id].snapshot.sequence + 2,
                              updatedAt := now))
  {
    TwoSteps(tasks, BeginCommit(id, now), Update(id, Finish(Completed, None, guarantee), now));
  }

  lemma RunAlone(tasks: Tasks, id: string, start: Change, counts: seq<nat>, guarantee: Guarantee, now: nat)
    requires id in tasks && start.Start? && !tasks[id].canceled
    ensures var after := After(tasks, RunSteps(id, start, counts, guarantee, now));
            id in after && HasRun(tasks[id], after[id], start, counts, guarantee, now)
  {
    var begin := [Update(id, Transition(Checking), now), Update(id, start, now),
        Update(id, Transition(Transferring), now)];
    var counting := Counting(id, counts, start.size, now);
    var end := [BeginCommit(id, now), Update(id, Finish(Completed, None, guarantee), now)];
    RunBegins(tasks, id, start, now);
    Counted(After(tasks, begin), id, counts, start.size, now);
    RunEnds(After(After(tasks, begin), counting), id, guarantee, now);
    InParts(tasks, begin, counting, end);
    hide After, Counting;
  }

  lemma InParts(tasks: Tasks, x: seq<Step>, y: seq<Step>, z: seq<Step>)
    ensures After(tasks, x + (y + z)) == After(After(After(tasks, x), y), z)
  {
    hide After;
    AfterJoined(tasks, x, y + z);
    AfterJoined(After(tasks, x), y, z);
  }

  /**
    A run that nobody cancels, among any steps of other tasks, takes its task from wherever it is to
    completed: with what it copied, where it was to go, and how it was committed.
   */
  lemma UndisturbedRunIsRecorded(tasks: Tasks, steps: seq<Step>, id: string, start: Change, counts: seq<nat>,
          guarantee: Guarantee, now: nat)
    requires id in tasks && start.Start? && !tasks[id].canceled
    requires Own(steps, id) == RunSteps(id, start, counts, guarantee, now)
    ensures id in After(tasks, steps)
    ensures HasRun(tasks[id], After(tasks, steps)[id], start, counts, guarantee, now)
  {
    OthersMakeNoDifference(tasks, tasks, steps, id);
    RunAlone(tasks, id, start, counts, guarantee, now);
  }

  // ----- Cancelling and retrying -----

  /** A cancellation ends a task at once exactly if it has not begun to transfer; otherwise the run ends it. */
  lemma CancelEndsAtOnceIff(tasks: Tasks, id: string, now: nat)
    requires CancelTakesEffect(tasks, id)
    ensures var after := Apply(tasks, Cancel(id, now));
            && id in after && after[id].canceled
            && (IsTerminal(after[id].snapshot.status) <==>
                tasks[id].snapshot.status in {Queued, Checking, WaitingConflict})
            && after[id].snapshot.status == (if IsTerminal(after[id].snapshot.status) then Canceled else Canceling)
            && after[id].snapshot.sequence == tasks[id].snapshot.sequence + 1
            && after[id].snapshot.completedAt == (if IsTerminal(after[id].snapshot.status) then Some(now)
                                                  else tasks[id].snapshot.completedAt)
  {}

  /** A task comes in uncancelled; it goes by removal, and by being discarded exactly if it has ended. */
  lemma ComesAndGoes(tasks: Tasks, id: string, snapshot: Snapshot)
    ensures Apply(tasks, Insert(id, snapshot)) == tasks[id := Record(snapshot, false)]
    ensures Apply(tasks, Remove(id)) == tasks - {id}
    ensures id in tasks ==> (id !in Apply(tasks, Discard(id)) <==> IsTerminal(tasks[id].snapshot.status))
    ensures id in Apply(tasks, Discard(id)) ==> Apply(tasks, Discard(id)) == tasks
  {}

  /** Once its commit has begun a transfer cannot be cancelled: whatever cancellations come, it is completed. */
  lemma CommitShutsOutCancel(tasks: Tasks, id: string, guarantee: Guarantee, before: nat, now: nat)
    requires Grants(tasks, id)
    ensures var committing := Apply(tasks, BeginCommit(id, before));
            && id in committing && committing[id].snapshot.status == Committing
            && committing[id].snapshot.sequence == tasks[id].snapshot.sequence + 1
            && Apply(committing, Cancel(id, now)) == committing
            && var finish := Update(id, Finish(Completed, None, guarantee), now);
               var ended := Apply(Apply(committing, Cancel(id, now)), finish);
               id in ended && ended[id].snapshot.status == Completed && !ended[id].canceled
  {}

  /** A run that ends otherwise than completed leaves the progress, the bytes and the paths as they are. */
  lemma OtherEndsKeepProgress(tasks: Tasks, id: string, end: Status, error: Option<string>, now: nat)
    requires id in tasks && IsTerminal(end) && end != Completed
    ensures var before := tasks[id].snapshot;
            var after := Apply(tasks, Update(id, Finish(end, error, NoGuarantee), now));
            && id in after && after[id].canceled == tasks[id].canceled
            && after[id].snapshot == before.(status := end, error := error, guarantee := NoGuarantee,
                                             completedAt := Some(now), sequence := before.sequence + 1,
                                             updatedAt := now)
  {}

  /** Where a retry takes up a task. */
  ghost predicate IsRetried(before: Snapshot, after: Record, hint: nat) {
    var s := after.snapshot;
    && s.status == Queued && s.attempt == before.attempt + 1 && s.sequence == before.sequence + 1
    && s.error.None? && s.conflict.None? && s.completedAt.None? && !after.canceled
    && s.transferred == hint && s.resumedFrom == hint
    && s.remotePath == before.remotePath && s.localPath == before.localPath
    && s.policy == before.policy && s.total == before.total
  }

  /** The retried task shows the share that it already has, rounded down. */
  lemma RetryTakesUp(tasks: Tasks, id: string, hint: nat, now: nat)
    requires id in tasks
    ensures var s := tasks[id].snapshot;
            var after := Apply(tasks, Update(id, Requeue(hint), now));
            && id in after && IsRetried(s, after[id], hint)
            && (s.total.Some? && 0 < s.total.value && hint <= s.total.value ==>
                  0 <= hint * 100 - s.total.value * after[id].snapshot.progress < s.total.value)
  {}

  /**
    A failed or cancelled transfer that is retried and then runs undisturbed is completed, in its next
    attempt, with the same paths unless the run moves it.
   */
  lemma RetriedRunCompletes(tasks: Tasks, steps: seq<Step>, id: string, start: Change, counts: seq<nat>,
          guarantee: Guarantee, now: nat)
    requires id in tasks && start.Start?
    requires Own(steps, id) == [Update(id, Requeue(tasks[id].snapshot.transferred), now)]
                               + RunSteps(id, start, counts, guarantee, now)
    ensures id in After(tasks, steps)
    ensures var s := After(tasks, steps)[id].snapshot;
            && s.status == Completed && s.attempt == tasks[id].snapshot.attempt + 1
            && s.guarantee == guarantee && s.error.None? && IsMoved(tasks[id].snapshot, s, start.located)
            && s.transferred == Last(counts, start.resumedFrom)
  {
    var requeue := Update(id, Requeue(tasks[id].snapshot.transferred), now);
    var run := RunSteps(id, start, counts, guarantee, now);
    OthersMakeNoDifference(tasks, tasks, steps, id);
    RetryTakesUp(tasks, id, tasks[id].snapshot.transferred, now);
    RunAlone(Apply(tasks, requeue), id, start, counts, guarantee, now);
    assert ([requeue] + run)[0] == requeue && ([requeue] + run)[1..] == run;
    assert After(tasks, [requeue] + run) == After(Apply(tasks, requeue), run);
  }
}
