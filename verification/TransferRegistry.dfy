/**
  The registry of SFTP transfers: records behind one lock, changed by running transfers and by the
  user in any order. Every change is one step under the lock; an operation that looks first and
  changes later takes the lock twice, and other steps come in between.
 */
module TransferRegistry {
  import opened Text

  datatype Status =
    | Queued | Checking | WaitingConflict | Transferring | Canceling | Committing
    | Completed | Skipped | Canceled | Interrupted | Failed | HandedOff

  datatype Policy = Ask | Skip | Rename | Overwrite

  datatype Direction = Upload | Download

  datatype Guarantee = NoGuarantee | AtomicCreate | BestEffortReplace

  datatype Conflict = Conflict(source: string, destination: string, suggested: Option<string>)

  datatype Snapshot = Snapshot(
    connection: string, batch: Option<string>, direction: Direction, attempt: nat, sequence: nat, status: Status,
    localPath: Option<string>, remotePath: Option<string>, total: Option<nat>, transferred: nat, resumedFrom: nat,
    progress: nat, policy: Policy, conflict: Option<Conflict>, error: Option<string>, guarantee: Guarantee,
    updatedAt: nat, completedAt: Option<nat>)

  datatype Record = Record(snapshot: Snapshot, canceled: bool)

  type Tasks = map<string, Record>

  predicate IsTerminal(status: Status) {
    status in {Completed, Skipped, Canceled, Interrupted, Failed, HandedOff}
  }

  predicate IsRetryable(status: Status) {
    status in {Failed, Interrupted, Canceled, Skipped}
  }

  function CancelStatus(status: Status): Status {
    if status in {Queued, Checking, WaitingConflict} then Canceled else Canceling
  }

  predicate CanBeginCommit(status: Status, canceled: bool) {
    !canceled && status != Canceling && !IsTerminal(status)
  }

  // ----- Steps -----

  /** What is written to a record while the lock is held, without looking at its status. */
  datatype Change =
    | Transition(status: Status)
    | Progress(transferred: nat, size: nat)
    | Start(resumedFrom: nat, size: nat, located: Option<string>)
    | MoveTo(path: string)
    | WaitForConflict(conflict: Conflict)
    | Finish(end: Status, error: Option<string>, guarantee: Guarantee)
    | Requeue(resumeHint: nat)
    | Resolve(policy: Policy, target: Option<string>)
    | ApplyPolicy(policy: Policy)

  /** Runs only move to non-terminal statuses, and only finish with terminal ones. */
  predicate IsWellFormed(change: Change) {
    && (change.Transition? ==> change.status == Checking || change.status == Transferring)
    && (change.Finish? ==> IsTerminal(change.end))
  }

  function Percent(transferred: nat, size: nat): nat {
    if size == 0 then 100 else if transferred >= size then 99 else
      var rounded := (200 * transferred + size) / (2 * size);
      if rounded > 99 then 99 else rounded
  }

  function Relocated(snapshot: Snapshot, path: Option<string>): Snapshot {
    if path.None? then snapshot
    else if snapshot.direction == Upload then snapshot.(remotePath := path)
    else snapshot.(localPath := path)
  }

  function Changed(record: Record, change: Change, now: nat): Record {
    var s := record.snapshot;
    match change
    case Transition(status) => record.(snapshot := s.(status := status))
    case Progress(transferred, size) =>
      record.(snapshot := s.(transferred := transferred, total := Some(size), progress := Percent(transferred, size)))
    case Start(resumedFrom, size, located) =>
      record.(snapshot := Relocated(s, located).(resumedFrom := resumedFrom, transferred := resumedFrom,
          total := Some(size)))
    case MoveTo(path) => record.(snapshot := Relocated(s, Some(path)))
    case WaitForConflict(conflict) => record.(snapshot := s.(status := WaitingConflict, conflict := Some(conflict)))
    case Finish(end, error, guarantee) =>
      record.(snapshot := s.(status := end, progress := if end == Completed then 100 else s.progress, error := error,
                             guarantee := guarantee, completedAt := Some(now)))
    case Requeue(hint) =>
      Record(s.(attempt := s.attempt + 1, status := Queued, transferred := hint, resumedFrom := hint,
                progress := if s.total.Some? && s.total.value > 0
                            then (if hint <= s.total.value then hint else s.total.value) * 100 / s.total.value else 0,
                error := None, conflict := None, completedAt := None), false)
    case Resolve(policy, path) =>
      record.(snapshot := Relocated(s, path).(policy := policy, status := Queued, conflict := None))
    case ApplyPolicy(policy) =>
      var path := if policy == Rename && s.conflict.Some? then s.conflict.value.suggested else None;
      record.(snapshot := Relocated(s, path).(policy := policy, status := Queued, conflict := None))
  }

  function Stamped(record: Record, now: nat): Record {
    record.(snapshot := record.snapshot.(sequence := record.snapshot.sequence + 1, updatedAt := now))
  }

  datatype Step =
    | Insert(id: string, snapshot: Snapshot)
    | Remove(id: string)
    | Discard(id: string)
    | Update(id: string, change: Change, now: nat)
    | Cancel(id: string, now: nat)
    | BeginCommit(id: string, now: nat)

  /** New tasks are queued, in their first attempt. */
  predicate IsNew(snapshot: Snapshot) {
    && snapshot.attempt == 1 && snapshot.sequence == 0 && snapshot.status == Queued
    && snapshot.conflict.None? && snapshot.completedAt.None? && snapshot.progress == 0
  }

  predicate IsStep(step: Step) {
    && (step.Insert? ==> IsNew(step.snapshot))
    && (step.Update? ==> IsWellFormed(step.change))
  }

  predicate Grants(tasks: Tasks, id: string) {
    id in tasks && CanBeginCommit(tasks[id].snapshot.status, tasks[id].canceled)
  }

  predicate CancelTakesEffect(tasks: Tasks, id: string) {
    id in tasks && tasks[id].snapshot.status != Committing && !IsTerminal(tasks[id].snapshot.status)
  }

  function AfterCancel(record: Record, now: nat): Record {
    var status := CancelStatus(record.snapshot.status);
    Stamped(Record(record.snapshot.(status := status,
                                    completedAt :=
                                      if status == Canceled then Some(now) else record.snapshot.completedAt),
                   true), now)
  }

  function Apply(tasks: Tasks, step: Step): Tasks {
    match step
    case Insert(id, snapshot) => tasks[id := Record(snapshot, false)]
    case Remove(id) => tasks - {id}
    case Discard(id) => if id in tasks && IsTerminal(tasks[id].snapshot.status) then tasks - {id} else tasks
    case Update(id, change, now) =>
      if id in tasks then tasks[id := Stamped(Changed(tasks[id], change, now), now)] else tasks
    case Cancel(id, now) => if CancelTakesEffect(tasks, id) then tasks[id := AfterCancel(tasks[id], now)] else tasks
    case BeginCommit(id, now) =>
      if Grants(tasks, id)
      then tasks[id := Stamped(tasks[id].(snapshot := tasks[id].snapshot.(status := Committing)), now)] else tasks
  }

  function After(tasks: Tasks, steps: seq<Step>): Tasks
    decreases |steps|
  {
    if steps == [] then tasks else After(Apply(tasks, steps[0]), steps[1..])
  }

  /**
    The statuses: a task has ended or is somewhere on its way; a retry is open to every end but success
    and handing over; a cancellation ends what has not begun to transfer; and a commit may begin
    wherever the task is on its way and nobody has cancelled it.
   */
  lemma StatusesAllow(status: Status, canceled: bool)
    ensures IsTerminal(status) <==>
            status !in {Queued, Checking, WaitingConflict, Transferring, Canceling, Committing}
    ensures IsRetryable(status) <==> IsTerminal(status) && status != Completed && status != HandedOff
    ensures CancelStatus(status) in {Canceled, Canceling}
    ensures CancelStatus(status) == Canceling <==>
            status in {Transferring, Canceling, Committing} || IsTerminal(status)
    ensures CanBeginCommit(status, canceled) <==>
            !canceled && status in {Queued, Checking, WaitingConflict, Transferring, Committing}
  {}

  // ----- What every step keeps -----

  predicate IsConsistent(record: Record) {
    && (IsTerminal(record.snapshot.status) ==> record.snapshot.completedAt.Some?)
    && (record.snapshot.status == WaitingConflict ==> record.snapshot.conflict.Some?)
    && record.snapshot.attempt >= 1
    && (record.snapshot.progress <= 100)
  }

  ghost predicate AllConsistent(tasks: Tasks) {
    forall id :: id in tasks ==> IsConsistent(tasks[id])
  }

  ghost predicate AllSteps(steps: seq<Step>) {
    forall i :: 0 <= i < |steps| ==> IsStep(steps[i])
  }

  lemma PercentIsBounded(hint: nat, size: nat)
    requires size > 0
    ensures (if hint <= size then hint else size) * 100 / size <= 100
  {}

  lemma ChangedIsConsistent(record: Record, change: Change, now: nat)
    requires IsConsistent(record) && IsWellFormed(change)
    ensures IsConsistent(Stamped(Changed(record, change, now), now))
  {
    if change.Requeue? && record.snapshot.total.Some? && record.snapshot.total.value > 0 {
      PercentIsBounded(change.resumeHint, record.snapshot.total.value);
    }
  }

  lemma ApplyKeepsConsistency(tasks: Tasks, step: Step)
    requires AllConsistent(tasks) && AllSteps([step])
    ensures AllConsistent(Apply(tasks, step))
  {
    assert step == [step][0];
    hide Changed, Stamped;
    if step.Update? && step.id in tasks {
      ChangedIsConsistent(tasks[step.id], step.change, step.now);
    } else {
      OtherStepsKeepConsistency(tasks, step);
    }
  }

  lemma OtherStepsKeepConsistency(tasks: Tasks, step: Step)
    requires AllConsistent(tasks) && IsStep(step) && !(step.Update? && step.id in tasks)
    ensures AllConsistent(Apply(tasks, step))
  {
    hide Changed;
  }

  /** In every reachable state, whatever the order of the steps. */
  lemma {:induction false} AlwaysConsistent(tasks: Tasks, steps: seq<Step>)
    requires AllConsistent(tasks) && AllSteps(steps)
    ensures AllConsistent(After(tasks, steps))
    decreases |steps|
  {
    if steps == [] {
    } else {
      assert AllSteps([steps[0]]);
      ApplyKeepsConsistency(tasks, steps[0]);
      forall i | 0 <= i < |steps[1..]| ensures steps[1..][i] == steps[i + 1] {}
      AlwaysConsistent(Apply(tasks, steps[0]), steps[1..]);
    }
  }

  // ----- Versions -----

  function Retries(steps: seq<Step>, id: string): nat
    decreases |steps|
  {
    if steps == [] then 0
    else (if steps[0].Update? && steps[0].id == id && steps[0].change.Requeue? then 1 else 0) + Retries(steps[1..], id)
  }

  ghost predicate NeverInserted(steps: seq<Step>, id: string) {
    forall i :: 0 <= i < |steps| ==> !(steps[i].Insert? && steps[i].id == id)
  }

  /** A removed task stays removed. */
  lemma {:induction false} GoneForGood(tasks: Tasks, steps: seq<Step>, id: string)
    requires id !in tasks && NeverInserted(steps, id)
    ensures id !in After(tasks, steps)
    decreases |steps|
  {
    if steps == [] {
    } else {
      assert !(steps[0].Insert? && steps[0].id == id);
      forall i | 0 <= i < |steps[1..]| ensures steps[1..][i] == steps[i + 1] {}
      GoneForGood(Apply(tasks, steps[0]), steps[1..], id);
    }
  }

  lemma OneStep(tasks: Tasks, step: Step, id: string)
    requires id in tasks && id in Apply(tasks, step) && !(step.Insert? && step.id == id)
    ensures var before, after := tasks[id], Apply(tasks, step)[id];
            && (after == before || after.snapshot.sequence == before.snapshot.sequence + 1)
            && after.snapshot.attempt == before.snapshot.attempt + Retries([step], id)
            && (before.canceled && Retries([step], id) == 0 ==> after.canceled)
  {
    assert [step][1..] == [];
  }

  /**
    Between any two moments of a task's life: the sequence number tells whether anything changed,
    and the attempt number counts the retries.
   */
  lemma {:induction false} SequenceTellsChange(tasks: Tasks, steps: seq<Step>, id: string)
    requires id in tasks && id in After(tasks, steps) && NeverInserted(steps, id)
    ensures var before, after := tasks[id], After(tasks, steps)[id];
            && before.snapshot.sequence <= after.snapshot.sequence
            && (before.snapshot.sequence == after.snapshot.sequence ==> before == after)
            && after.snapshot.attempt == before.snapshot.attempt + Retries(steps, id)
    decreases |steps|
  {
    hide Apply, IsTerminal;
    if steps == [] {
    } else {
      var next := Apply(tasks, steps[0]);
      assert !(steps[0].Insert? && steps[0].id == id);
      forall i | 0 <= i < |steps[1..]| ensures steps[1..][i] == steps[i + 1] {}
      if id !in next {
        GoneForGood(next, steps[1..], id);
      } else {
        OneStep(tasks, steps[0], id);
        SequenceTellsChange(next, steps[1..], id);
        assert [steps[0]][1..] == [];
      }
    }
  }

  /** A cancellation that took effect is remembered until a retry, and no commit begins before that. */
  lemma {:induction false} CanceledUntilRetry(tasks: Tasks, steps: seq<Step>, id: string)
    requires id in tasks ==> tasks[id].canceled
    requires NeverInserted(steps, id) && Retries(steps, id) == 0
    ensures id in After(tasks, steps) ==> After(tasks, steps)[id].canceled
    ensures !Grants(After(tasks, steps), id)
    decreases |steps|
  {
    hide Apply;
    if steps == [] {
    } else {
      var next := Apply(tasks, steps[0]);
      assert !(steps[0].Insert? && steps[0].id == id);
      forall i | 0 <= i < |steps[1..]| ensures steps[1..][i] == steps[i + 1] {}
      assert [steps[0]][1..] == [];
      if id in tasks && id in next {
        OneStep(tasks, steps[0], id);
      } else if id !in tasks {
        GoneForGood(tasks, [steps[0]], id);
        assert After(next, []) == next;
      }
      CanceledUntilRetry(next, steps[1..], id);
    }
  }

  lemma CancelIsRemembered(tasks: Tasks, id: string, now: nat, steps: seq<Step>)
    requires CancelTakesEffect(tasks, id) && NeverInserted(steps, id) && Retries(steps, id) == 0
    ensures !Grants(After(Apply(tasks, Cancel(id, now)), steps), id)
  {
    CanceledUntilRetry(Apply(tasks, Cancel(id, now)), steps, id);
  }

  // ----- Where a decision moves a transfer -----

  /** A target replaces the path that is written to: the remote one of an upload, the local one of a download. */
  predicate IsMoved(before: Snapshot, after: Snapshot, target: Option<string>) {
    if target.None? then after.remotePath == before.remotePath && after.localPath == before.localPath
    else match before.direction
      case Upload => after.remotePath == target && after.localPath == before.localPath
      case Download => after.localPath == target && after.remotePath == before.remotePath
  }

  /** The target of a rename: the one that is given, or else the one the conflict suggests. */
  function RenameTarget(policy: Policy, given: Option<string>, conflict: Option<Conflict>): Option<string> {
    if policy != Rename then None
    else if given.Some? then given
    else match conflict case None => None case Some(c) => c.suggested
  }

  lemma GivenTargetComesFirst(policy: Policy, given: Option<string>, conflict: Option<Conflict>)
    ensures RenameTarget(policy, given, conflict).Some? ==> policy == Rename
    ensures policy == Rename && given.Some? ==> RenameTarget(policy, given, conflict) == given
    ensures policy == Rename && given.None? && conflict.Some? ==>
              RenameTarget(policy, given, conflict) == conflict.value.suggested
  {}

  /** A decision moves the transfer to its target and nowhere else, a batch policy to the suggestion. */
  lemma DecisionMoves(record: Record, policy: Policy, target: Option<string>, now: nat)
    ensures var s := Changed(record, Resolve(policy, target), now).snapshot;
            s.status == Queued && s.policy == policy && s.conflict.None? && s.attempt == record.snapshot.attempt
    ensures target.Some? ==>
              IsMoved(record.snapshot, Changed(record, MoveTo(target.value), now).snapshot, target)
    ensures IsMoved(record.snapshot, Changed(record, Resolve(policy, target), now).snapshot, target)
    ensures IsMoved(record.snapshot, Changed(record, ApplyPolicy(policy), now).snapshot,
                    RenameTarget(policy, None, record.snapshot.conflict))
  {}

  // ----- Terminal is not final -----

  /** The changes that put a task back to work without looking whether it had ended. */
  predicate Reopens(change: Change) {
    change.Transition? || change.WaitForConflict? || change.Requeue? || change.Resolve? || change.ApplyPolicy?
  }

  /** A task leaves a terminal status exactly by one of these changes. */
  lemma LeavesTerminalIff(tasks: Tasks, step: Step, id: string)
    requires IsStep(step) && !(step.Insert? && step.id == id)
    requires id in tasks && IsTerminal(tasks[id].snapshot.status)
    ensures var after := Apply(tasks, step);
            (id in after && !IsTerminal(after[id].snapshot.status)) <==>
            (step.Update? && step.id == id && Reopens(step.change))
  {}

  // ----- The registry -----

  lemma {:induction false} AfterJoined(tasks: Tasks, first: seq<Step>, second: seq<Step>)
    ensures After(tasks, first + second) == After(After(tasks, first), second)
    decreases |first|
  {
    if first == [] {
      assert first + second == second;
    } else {
      assert (first + second)[1..] == first[1..] + second;
      AfterJoined(Apply(tasks, first[0]), first[1..], second);
    }
  }

  lemma OneMoreStep(steps: seq<Step>, step: Step)
    requires AllSteps(steps) && AllSteps([step])
    ensures AllSteps(steps + [step]) && After(map[], steps + [step]) == Apply(After(map[], steps), step)
  {
    AfterJoined(map[], steps, [step]);
    assert [step][1..] == [] && [step][0] == step;
  }

  /** Some step puts the task back to work while it is there. */
  ghost predicate IsReopened(tasks: Tasks, steps: seq<Step>, id: string) {
    exists n :: 0 <= n < |steps| && IsReopening(steps[n], id) && id in After(tasks, steps[..n])
  }

  predicate IsReopening(step: Step, id: string) {
    step.Update? && step.id == id && Reopens(step.change)
  }

  /** From now on, as long as it is there, the task has ended. */
  ghost predicate StaysTerminal(tasks: Tasks, steps: seq<Step>, id: string) {
    forall n :: 0 <= n <= |steps| && id in After(tasks, steps[..n]) ==>
      IsTerminal(After(tasks, steps[..n])[id].snapshot.status)
  }

  lemma NextPrefix(tasks: Tasks, steps: seq<Step>, n: nat)
    requires n < |steps|
    ensures After(tasks, steps[..n + 1]) == Apply(After(tasks, steps[..n]), steps[n])
  {
    hide Apply;
    AfterJoined(tasks, steps[..n], [steps[n]]);
    assert steps[..n + 1] == steps[..n] + [steps[n]] && [steps[n]][1..] == [];
  }

  lemma {:induction false} TerminalUntil(tasks: Tasks, steps: seq<Step>, id: string, n: nat)
    requires id in tasks && IsTerminal(tasks[id].snapshot.status) && AllSteps(steps) && NeverInserted(steps, id)
    requires !IsReopened(tasks, steps, id) && n <= |steps| && id in After(tasks, steps[..n])
    ensures IsTerminal(After(tasks, steps[..n])[id].snapshot.status)
  {
    hide Apply, IsTerminal, Reopens;
    if n == 0 {
      assert steps[..0] == [];
    } else {
      var before, step := After(tasks, steps[..n - 1]), steps[n - 1];
      NextPrefix(tasks, steps, n - 1);
      GoneAfterStep(before, step, id);
      TerminalUntil(tasks, steps, id, n - 1);
      LeavesTerminalIff(before, step, id);
      assert !IsReopening(step, id);
    }
  }

  lemma GoneAfterStep(tasks: Tasks, step: Step, id: string)
    requires !(step.Insert? && step.id == id)
    ensures id in Apply(tasks, step) ==> id in tasks
  {}

  /**
    Over any sequence of steps a task that has ended stays so, for as long as it is there, exactly if
    none of the five changes is made to it in that time.
   */
  lemma StaysTerminalIff(tasks: Tasks, steps: seq<Step>, id: string)
    requires id in tasks && IsTerminal(tasks[id].snapshot.status) && AllSteps(steps) && NeverInserted(steps, id)
    ensures StaysTerminal(tasks, steps, id) <==> !IsReopened(tasks, steps, id)
  {
    hide Apply, IsTerminal, Reopens, After;
    if IsReopened(tasks, steps, id) {
      var n :| 0 <= n < |steps| && IsReopening(steps[n], id) && id in After(tasks, steps[..n]);
      NextPrefix(tasks, steps, n);
      if IsTerminal(After(tasks, steps[..n])[id].snapshot.status) {
        LeavesTerminalIff(After(tasks, steps[..n]), steps[n], id);
      }
    } else {
      forall n | 0 <= n <= |steps| && id in After(tasks, steps[..n])
        ensures IsTerminal(After(tasks, steps[..n])[id].snapshot.status)
      {
        TerminalUntil(tasks, steps, id, n);
      }
    }
  }

  // ----- A policy for a batch -----

  predicate IsWaiting(tasks: Tasks, id: string) {
    id in tasks && tasks[id].snapshot.status == WaitingConflict
  }

  /** A peer was looked at after `seen` steps and changed by step `done`; whether it was there then. */
  datatype Visit = Visit(id: string, seen: nat, done: nat, waiting: bool, found: bool)

  ghost predicate IsVisit(history: seq<Step>, start: nat, v: Visit, policy: Policy, now: nat) {
    && start <= v.seen <= v.done < |history| && history[v.done] == Update(v.id, ApplyPolicy(policy), now)
    && (v.waiting <==> IsWaiting(After(map[], history[..v.seen]), v.id))
    && (v.found <==> v.id in After(map[], history[..v.done]))
  }

  ghost predicate AreVisits(history: seq<Step>, start: nat, visits: seq<Visit>, policy: Policy, now: nat) {
    && (forall i :: 0 <= i < |visits| ==> IsVisit(history, start, visits[i], policy, now))
    && (forall i, j :: 0 <= i < j < |visits| ==> visits[i].id != visits[j].id)
  }

  ghost predicate AllFound(visits: seq<Visit>) {
    forall i :: 0 <= i < |visits| ==> visits[i].found
  }

  ghost function Ids(visits: seq<Visit>): set<string> {
    set i | 0 <= i < |visits| :: visits[i].id
  }

  ghost function Started(visits: seq<Visit>): seq<string> {
    if visits == [] then []
    else
      var last := visits[|visits| - 1];
      Started(visits[..|visits| - 1]) + if last.found && last.waiting then [last.id] else []
  }

  lemma NoVisits(history: seq<Step>, start: nat, policy: Policy, now: nat)
    ensures AreVisits(history, start, [], policy, now) && AllFound([]) && Ids([]) == {} && Started([]) == []
  {}

  lemma VisitsLater(before: seq<Step>, after: seq<Step>, start: nat, visits: seq<Visit>, policy: Policy, now: nat)
    requires before <= after && AreVisits(before, start, visits, policy, now)
    ensures AreVisits(after, start, visits, policy, now)
  {
    hide IsWaiting;
    forall i | 0 <= i < |visits| ensures IsVisit(after, start, visits[i], policy, now) {
      assert IsVisit(before, start, visits[i], policy, now);
      assert after[..visits[i].seen] == before[..visits[i].seen] && after[..visits[i].done] == before[..visits[i].done];
    }
  }

  lemma VisitMade(looked: seq<Step>, found: seq<Step>, after: seq<Step>, start: nat, visits: seq<Visit>, v: Visit,
        policy: Policy, now: nat)
    requires start <= |looked| && looked <= found && after == found + [Update(v.id, ApplyPolicy(policy), now)]
    requires v == Visit(v.id, |looked|, |found|, IsWaiting(After(map[], looked), v.id), v.id in After(map[], found))
    requires AreVisits(after, start, visits, policy, now) && AllFound(visits) && v.id !in Ids(visits)
    ensures AreVisits(after, start, visits + [v], policy, now) && Ids(visits + [v]) == Ids(visits) + {v.id}
    ensures AllFound(visits + [v]) <==> v.found
    ensures Started(visits + [v]) == Started(visits) + if v.found && v.waiting then [v.id] else []
  {
    hide IsWaiting, After;
    var all := visits + [v];
    assert after[..|looked|] == looked && after[..|found|] == found;
    assert all[..|all| - 1] == visits && all[|all| - 1] == v;
    assert IsVisit(after, start, v, policy, now);
    forall i, j | 0 <= i < j < |all| ensures all[i].id != all[j].id {
      assert visits[i].id in Ids(visits);
    }
    assert forall i :: 0 <= i < |visits| ==> all[i] == visits[i];
    forall id ensures id in Ids(all) <==> id in Ids(visits) + {v.id} {
      if id in Ids(visits) {
        var i :| 0 <= i < |visits| && visits[i].id == id;
        assert all[i].id == id;
      }
      assert all[|visits|].id == v.id;
    }
  }

  lemma AppliedKeeps(tasks: Tasks, id: string, policy: Policy, now: nat)
    ensures id in Apply(tasks, Update(id, ApplyPolicy(policy), now)) <==> id in tasks
  {
    hide Changed, Stamped;
  }

  /** What a visit makes of a record that is there: queued, with the policy, and without a conflict. */
  lemma PolicyIsWritten(history: seq<Step>, start: nat, v: Visit, policy: Policy, now: nat)
    requires IsVisit(history, start, v, policy, now) && v.found
    ensures v.id in After(map[], history[..v.done + 1])
    ensures var before, after := After(map[], history[..v.done])[v.id].snapshot,
                                 After(map[], history[..v.done + 1])[v.id].snapshot;
            && after.status == Queued && after.policy == policy && after.conflict.None?
            && after.attempt == before.attempt && after.sequence == before.sequence + 1
            && IsMoved(before, after, RenameTarget(policy, None, before.conflict))
  {
    var step := history[v.done];
    DecisionMoves(After(map[], history[..v.done])[v.id], policy, None, now);
    AfterJoined(map[], history[..v.done], [step]);
    assert history[..v.done + 1] == history[..v.done] + [step] && [step][1..] == [] && [step][0] == step;
    assert After(Apply(After(map[], history[..v.done]), step), []) == Apply(After(map[], history[..v.done]), step);
  }

  /** Tasks of the same batch that have not begun to transfer when they are collected. */
  predicate IsPeer(tasks: Tasks, id: string, connection: string, batch: string, direction: Direction, exclude: string) {
    && id in tasks && id != exclude
    && tasks[id].snapshot.connection == connection && tasks[id].snapshot.batch == Some(batch)
    && tasks[id].snapshot.direction == direction
    && tasks[id].snapshot.status in {WaitingConflict, Queued, Checking}
  }

  function Peers(tasks: Tasks, connection: string, batch: string, direction: Direction, exclude: string): set<string> {
    set id | id in tasks && IsPeer(tasks, id, connection, batch, direction, exclude)
  }

  /** Not the task just decided, and of its batch exactly those that are neither under way nor over. */
  lemma PeersIff(tasks: Tasks, id: string, connection: string, batch: string, direction: Direction, exclude: string)
    ensures id in Peers(tasks, connection, batch, direction, exclude) <==>
              && id in tasks && id != exclude
              && var s := tasks[id].snapshot;
                 && s.connection == connection && s.batch == Some(batch) && s.direction == direction
                 && s.status !in {Transferring, Canceling, Committing} && !IsTerminal(s.status)
  {
    if id in tasks {
      StatusesAllow(tasks[id].snapshot.status, false);
    }
  }

  // ----- The registry's operations -----

  datatype Reply = Ok(snapshot: Snapshot) | NotFound | Refused

  class Registry {
    var tasks: Tasks
    ghost var history: seq<Step>

    /** The tasks are what the steps taken so far have made of an empty registry. */
    ghost predicate Valid()
      reads this
    {
      AllSteps(history) && tasks == After(map[], history)
    }

    constructor ()
      ensures Valid() && history == [] && tasks == map[]
    {
      tasks, history := map[], [];
    }

    /** One step under the lock. */
    method Take(step: Step)
      requires Valid() && AllSteps([step])
      modifies this
      ensures Valid() && history == old(history) + [step] && tasks == Apply(old(tasks), step)
    {
      OneMoreStep(history, step);
      tasks, history := Apply(tasks, step), history + [step];
    }

    /** What running transfers and other requests do while the lock is free. */
    method Others()
      requires Valid()
      modifies this
      ensures Valid() && old(history) <= history
    {
      var n :| n >= 0;
      for i := 0 to n
        invariant Valid() && old(history) <= history
      {
        var step: Step := *;
        if IsStep(step) {
          Take(step);
        }
      }
    }

    method UpdateTask(id: string, change: Change, now: nat) returns (reply: Reply)
      requires Valid() && IsWellFormed(change)
      modifies this
      ensures Valid() && history == old(history) + [Update(id, change, now)]
      ensures tasks == Apply(old(tasks), Update(id, change, now))
      ensures reply == if id in tasks then Ok(tasks[id].snapshot) else NotFound
    {
      Take(Update(id, change, now));
      reply := if id in tasks then Ok(tasks[id].snapshot) else NotFound;
    }

    /** Refused while a commit is under way; no change to a task that has ended. */
    method CancelTask(id: string, now: nat) returns (reply: Reply)
      requires Valid()
      modifies this
      ensures Valid() && old(history) <= history
      ensures tasks == Apply(old(tasks), Cancel(id, now))
      ensures reply == if id !in tasks then NotFound
                       else if tasks[id].snapshot.status == Committing then Refused
                       else Ok(tasks[id].snapshot)
      ensures reply.Ok? && !IsTerminal(old(tasks)[id].snapshot.status) ==> tasks[id].canceled
    {
      if id !in tasks {
        return NotFound;
      }
      var record := tasks[id];
      if record.snapshot.status == Committing {
        return Refused;
      }
      if IsTerminal(record.snapshot.status) {
        return Ok(record.snapshot);
      }
      Take(Cancel(id, now));
      reply := Ok(tasks[id].snapshot);
    }

    method TryBeginCommit(id: string, now: nat) returns (granted: bool)
      requires Valid()
      modifies this
      ensures Valid() && old(history) <= history
      ensures granted <==> Grants(old(tasks), id)
      ensures tasks == Apply(old(tasks), BeginCommit(id, now))
    {
      granted := id in tasks && CanBeginCommit(tasks[id].snapshot.status, tasks[id].canceled);
      if granted {
        Take(BeginCommit(id, now));
      }
    }

    /**
      Retry looks at one moment (`seen`) and requeues at a later one (`done`), without looking
      again: the status was retryable at the first, the attempt is one more than at the second.
     */
    method Retry(id: string, now: nat) returns (reply: Reply, ghost seen: nat, ghost done: nat)
      requires Valid()
      modifies this
      ensures Valid() && old(history) <= history && |old(history)| <= seen <= done <= |history|
      ensures reply == NotFound ==> id !in After(map[], history[..seen]) || id !in After(map[], history[..done])
      ensures id in After(map[], history[..seen]) ==>
                (reply == Refused <==> !IsRetryable(After(map[], history[..seen])[id].snapshot.status))
      ensures reply.Ok? ==> id in After(map[], history[..seen])
      ensures reply.Ok? ==>
                var there := After(map[], history[..seen])[id].snapshot;
                reply.snapshot.transferred == there.transferred && reply.snapshot.resumedFrom == there.transferred
      ensures reply.Ok? ==>
                && id in After(map[], history[..done]) && id in tasks
                && reply.snapshot == tasks[id].snapshot && !tasks[id].canceled && reply.snapshot.status == Queued
                && reply.snapshot.attempt == After(map[], history[..done])[id].snapshot.attempt + 1
    {
      Others();
      ghost var before := history;
      seen, done := |history|, |history|;
      assert history[..seen] == history;
      if id !in tasks {
        return NotFound, seen, done;
      }
      var current := tasks[id];
      if !IsRetryable(current.snapshot.status) {
        return Refused, seen, done;
      }
      Others();
      done := |history|;
      assert history[..seen] == before && history[..done] == history;
      ghost var between := history;
      reply := UpdateTask(id, Requeue(current.snapshot.transferred), now);
      assert history[..seen] == before && history[..done] == between;
    }

    /**
      A failed run looks at one moment whether it is still the one that runs, and ends the task at a
      later one, whichever attempt is under way by then.
     */
    method FailTask(id: string, attempt: nat, message: string, now: nat)
      returns (ended: bool, ghost seen: nat, ghost done: nat)
      requires Valid()
      modifies this
      ensures Valid() && old(history) <= history && |old(history)| <= seen <= done <= |history|
      ensures ended <==>
                && id in After(map[], history[..seen]) && id in After(map[], history[..done])
                && After(map[], history[..seen])[id].snapshot.attempt == attempt
                && !IsTerminal(After(map[], history[..seen])[id].snapshot.status)
      ensures ended ==>
                && id in tasks && tasks[id].snapshot.status == Failed && tasks[id].snapshot.completedAt == Some(now)
                && tasks[id].snapshot.error == Some(message)
      ensures !ended ==> tasks == After(map[], history[..done])
    {
      Others();
      seen, done := |history|, |history|;
      ghost var before := history;
      assert history[..seen] == history;
      if id !in tasks || tasks[id].snapshot.attempt != attempt || IsTerminal(tasks[id].snapshot.status) {
        return false, seen, done;
      }
      Others();
      done := |history|;
      ghost var between := history;
      assert history[..seen] == before && history[..done] == history;
      var reply := UpdateTask(id, Finish(Failed, Some(message), NoGuarantee), now);
      assert history[..seen] == before && history[..done] == between;
      ended := reply.Ok?;
    }

    /** The decision was due, for this attempt, when it was checked; it is applied at a later moment. */
    method ResolveConflict(id: string, attempt: nat, policy: Policy, renamedPath: Option<string>, now: nat)
      returns (reply: Reply, ghost seen: nat, ghost done: nat)
      requires Valid()
      modifies this
      ensures Valid() && old(history) <= history && |old(history)| <= seen <= done <= |history|
      ensures reply == NotFound ==> id !in After(map[], history[..seen]) || id !in After(map[], history[..done])
      ensures id in After(map[], history[..seen]) ==>
                var there := After(map[], history[..seen])[id].snapshot;
                (reply == Refused <==>
                  || there.attempt != attempt || there.status != WaitingConflict || policy == Ask
                  || (policy == Rename && RenameTarget(policy, renamedPath, there.conflict).None?))
      ensures reply.Ok? ==>
                && id in After(map[], history[..seen]) && id in After(map[], history[..done]) && id in tasks
                && IsMoved(After(map[], history[..done])[id].snapshot, tasks[id].snapshot,
                           RenameTarget(policy, renamedPath, After(map[], history[..seen])[id].snapshot.conflict))
      ensures reply.Ok? ==>
                && policy != Ask && id in After(map[], history[..seen])
                && var there := After(map[], history[..seen])[id].snapshot;
                && there.attempt == attempt && there.status == WaitingConflict
                && id in tasks && reply.snapshot == tasks[id].snapshot
                && tasks[id].snapshot.status == Queued && tasks[id].snapshot.conflict.None?
                && tasks[id].snapshot.policy == policy
    {
      Others();
      seen, done := |history|, |history|;
      ghost var before := history;
      assert history[..seen] == history;
      if id !in tasks {
        return NotFound, seen, done;
      }
      var current := tasks[id].snapshot;
      if current.attempt != attempt || current.status != WaitingConflict || policy == Ask {
        return Refused, seen, done;
      }
      var target := None;
      if policy == Rename {
        target := if renamedPath.Some? then renamedPath
                  else if current.conflict.Some? then current.conflict.value.suggested else None;
        if target.None? {
          return Refused, seen, done;
        }
      }
      Others();
      done := |history|;
      ghost var between := history;
      assert history[..seen] == before && history[..done] == history;
      if id in tasks {
        DecisionMoves(tasks[id], policy, target, now);
      }
      reply := UpdateTask(id, Resolve(policy, target), now);
      assert history[..seen] == before && history[..done] == between;
    }

    lemma Known()
      requires Valid()
      ensures tasks == After(map[], history)
    {}

    /**
      A policy for the rest of a batch: the peers are collected, and then each is looked at and changed
      in two steps. A transfer is started for exactly those that were waiting when they were looked at.
      A peer that has been removed by then ends it.
     */
    method ApplyPolicyToBatch(connection: string, batch: string, direction: Direction, exclude: string, policy: Policy,
                              now: nat)
      returns (started: seq<string>, complete: bool, ghost visits: seq<Visit>)
      requires Valid()
      modifies this
      ensures Valid() && old(history) <= history
      ensures AreVisits(history, |old(history)|, visits, policy, now) && started == Started(visits)
      ensures complete ==> AllFound(visits) && Ids(visits) == Peers(old(tasks), connection, batch, direction, exclude)
      ensures !complete ==>
                && visits != [] && AllFound(visits[..|visits| - 1]) && !visits[|visits| - 1].found
                && Ids(visits) <= Peers(old(tasks), connection, batch, direction, exclude)
    {
      hide *;
      var peers := Peers(tasks, connection, batch, direction, exclude);
      ghost var all, start := peers, |history|;
      started, visits := [], [];
      NoVisits(history, start, policy, now);
      while peers != {}
        invariant Valid() && old(history) <= history && start == |old(history)|
        invariant peers <= all && Ids(visits) == all - peers && AllFound(visits)
        invariant AreVisits(history, start, visits, policy, now) && started == Started(visits)
      {
        ghost var before := history;
        Others();
        var id :| id in peers;
        peers := peers - {id};
        Known();
        ghost var looked := history;
        var wasWaiting := IsWaiting(tasks, id);
        Others();
        Known();
        ghost var found := history;
        ghost var visit := Visit(id, |looked|, |found|, wasWaiting, id in tasks);
        var reply := UpdateTask(id, ApplyPolicy(policy), now);
        AppliedKeeps(After(map[], found), id, policy, now);
        VisitsLater(before, history, start, visits, policy, now);
        VisitMade(looked, found, history, start, visits, visit, policy, now);
        ghost var earlier := visits;
        visits := visits + [visit];
        if reply == NotFound {
          assert visits[..|visits| - 1] == earlier;
          return started, false, visits;
        }
        if wasWaiting {
          started := started + [id];
        }
      }
      complete := true;
    }
  }
}
