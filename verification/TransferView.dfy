/**
  What the window shows of a transfer. The registry announces a task after each change, outside the
  lock, so announcements can arrive late, twice, or not at all. The window keeps the newest by
  attempt and sequence number, and within an attempt never leaves a terminal status.
 */
module TransferView {
  import opened Text
  import opened TransferRegistry

  function Version(current: Snapshot, attempt: nat, sequence: nat): int {
    if attempt != current.attempt then attempt - current.attempt else sequence - current.sequence
  }

  function Upsert(current: Option<Snapshot>, snapshot: Snapshot): Snapshot {
    if current.None? then snapshot
    else
      var shown := current.value;
      var version := Version(shown, snapshot.attempt, snapshot.sequence);
      if version < 0 then shown
      else if version == 0 && snapshot.status == shown.status then shown
      else if snapshot.attempt == shown.attempt && IsTerminal(shown.status) then shown
      else snapshot
  }

  /** What is shown after a number of announcements. */
  function Shown(current: Option<Snapshot>, arrivals: seq<Snapshot>): Option<Snapshot>
    decreases |arrivals|
  {
    if arrivals == [] then current else Shown(Some(Upsert(current, arrivals[0])), arrivals[1..])
  }

  // ----- Any arrivals at all -----

  /** Attempts count first, sequence numbers within an attempt. */
  predicate IsLater(shown: Snapshot, snapshot: Snapshot) {
    || snapshot.attempt > shown.attempt
    || (snapshot.attempt == shown.attempt && snapshot.sequence > shown.sequence)
  }

  predicate IsSameVersion(shown: Snapshot, snapshot: Snapshot) {
    snapshot.attempt == shown.attempt && snapshot.sequence == shown.sequence
  }

  /**
    An arrival is taken exactly if it is later, or of the same version with another status (as against
    a status the window put there itself), and does not leave a terminal status within its attempt.
   */
  lemma TakenIff(shown: Snapshot, snapshot: Snapshot)
    requires snapshot != shown
    ensures Upsert(None, snapshot) == snapshot
    ensures Upsert(Some(shown), snapshot) == snapshot <==>
              && (IsLater(shown, snapshot)
                  || (IsSameVersion(shown, snapshot) && snapshot.status != shown.status))
              && !(snapshot.attempt == shown.attempt && IsTerminal(shown.status))
    ensures Upsert(Some(shown), snapshot) in {shown, snapshot}
  {}

  /**
    Whatever arrives, from wherever: what is shown never goes back to an earlier version, and a terminal
    status stays until a later attempt.
   */
  lemma {:induction false} ShownNeverGoesBack(shown: Snapshot, arrivals: seq<Snapshot>)
    ensures Shown(Some(shown), arrivals).Some?
    ensures var last := Shown(Some(shown), arrivals).value;
            && (last == shown || IsLater(shown, last) || IsSameVersion(shown, last))
            && (IsTerminal(shown.status) && last.attempt == shown.attempt ==> last == shown)
    decreases |arrivals|
  {
    if arrivals == [] {
    } else {
      ShownNeverGoesBack(Upsert(Some(shown), arrivals[0]), arrivals[1..]);
    }
  }

  // ----- Announcements -----

  function AnnouncedBy(tasks: Tasks, step: Step, id: string): seq<Snapshot> {
    var next := Apply(tasks, step);
    if id in next && (id !in tasks || next[id] != tasks[id]) then [next[id].snapshot] else []
  }

  /** One announcement for each change of the task, in the order of the changes. */
  function Announced(tasks: Tasks, steps: seq<Step>, id: string): seq<Snapshot>
    decreases |steps|
  {
    if steps == [] then []
    else
      AnnouncedBy(tasks, steps[0], id) + Announced(Apply(tasks, steps[0]), steps[1..], id)
  }

  /** Sequence numbers rise, and attempts never fall. */
  ghost predicate IsOrdered(snapshots: seq<Snapshot>) {
    forall i, j :: 0 <= i < j < |snapshots| ==>
      snapshots[i].sequence < snapshots[j].sequence && snapshots[i].attempt <= snapshots[j].attempt
  }

  lemma {:induction false} NothingAnnounced(tasks: Tasks, steps: seq<Step>, id: string)
    requires id !in tasks && NeverInserted(steps, id)
    ensures Announced(tasks, steps, id) == []
    decreases |steps|
  {
    if steps == [] {
    } else {
      assert !(steps[0].Insert? && steps[0].id == id);
      forall i | 0 <= i < |steps[1..]| ensures steps[1..][i] == steps[i + 1] {}
      NothingAnnounced(Apply(tasks, steps[0]), steps[1..], id);
    }
  }

  /** Whatever steps are taken in whatever order, the announcements of a task come out ordered. */
  lemma {:induction false} AnnouncementsAreOrdered(tasks: Tasks, steps: seq<Step>, id: string)
    requires id in tasks && NeverInserted(steps, id)
    ensures IsOrdered([tasks[id].snapshot] + Announced(tasks, steps, id))
    decreases |steps|
  {
    hide Apply, IsOrdered, IsTerminal;
    if steps == [] {
      OneIsOrdered(tasks[id].snapshot);
      assert [tasks[id].snapshot] + [] == [tasks[id].snapshot];
    } else {
      var next := Apply(tasks, steps[0]);
      assert !(steps[0].Insert? && steps[0].id == id);
      forall i | 0 <= i < |steps[1..]| ensures steps[1..][i] == steps[i + 1] {}
      if id !in next {
        NothingAnnounced(next, steps[1..], id);
        OneIsOrdered(tasks[id].snapshot);
        assert [tasks[id].snapshot] + Announced(tasks, steps, id) == [tasks[id].snapshot];
      } else {
        OneStep(tasks, steps[0], id);
        AnnouncementsAreOrdered(next, steps[1..], id);
        if next[id] == tasks[id] {
          assert Announced(tasks, steps, id) == Announced(next, steps[1..], id);
        } else {
          OneMoreAnnounced(tasks[id].snapshot, next[id].snapshot, Announced(next, steps[1..], id));
          assert Announced(tasks, steps, id) == [next[id].snapshot] + Announced(next, steps[1..], id);
        }
      }
    }
  }

  lemma OneIsOrdered(snapshot: Snapshot)
    ensures IsOrdered([snapshot])
  {}

  lemma OneMoreAnnounced(first: Snapshot, second: Snapshot, rest: seq<Snapshot>)
    requires IsOrdered([second] + rest)
    requires first.sequence < second.sequence && first.attempt <= second.attempt
    ensures IsOrdered([first] + ([second] + rest))
  {
    var all := [first] + ([second] + rest);
    forall i, j | 0 <= i < j < |all|
      ensures all[i].sequence < all[j].sequence && all[i].attempt <= all[j].attempt
    {
      assert all[j] == ([second] + rest)[j - 1];
      if i > 0 {
        assert all[i] == ([second] + rest)[i - 1];
      } else if j > 1 {
        assert ([second] + rest)[0].sequence < ([second] + rest)[j - 1].sequence;
      }
    }
  }

  // ----- Convergence -----

  /** An order of arrival: which announcement comes when. */
  ghost predicate IsArrival(order: seq<nat>, count: nat) {
    forall i :: 0 <= i < |order| ==> order[i] < count
  }

  function Arrivals(announced: seq<Snapshot>, order: seq<nat>): (arrivals: seq<Snapshot>)
    requires IsArrival(order, |announced|)
    ensures |arrivals| == |order|
    ensures forall i :: 0 <= i < |order| ==> arrivals[i] == announced[order[i]]
  {
    seq(|order|, i requires 0 <= i < |order| => announced[order[i]])
  }

  /** Some announcement before the last is terminal and of the same attempt. */
  ghost predicate EndsEarly(announced: seq<Snapshot>) {
    exists k :: 0 <= k < |announced| - 1 &&
      announced[k].attempt == announced[|announced| - 1].attempt && IsTerminal(announced[k].status)
  }

  lemma UpsertKeepsLast(announced: seq<Snapshot>, current: Option<Snapshot>, k: nat)
    requires IsOrdered(announced) && k < |announced| && !EndsEarly(announced)
    requires current.Some? ==> current.value in announced
    ensures Upsert(current, announced[k]) in announced
    ensures k == |announced| - 1 || current == Some(announced[|announced| - 1]) ==>
              Upsert(current, announced[k]) == announced[|announced| - 1]
  {
    if current.Some? {
      var j :| 0 <= j < |announced| && announced[j] == current.value;
      assert j < |announced| - 1 ==> announced[j].sequence < announced[|announced| - 1].sequence;
      assert k < |announced| - 1 ==> announced[k].sequence < announced[|announced| - 1].sequence;
    }
  }

  lemma {:induction false} LastIsShown(announced: seq<Snapshot>, current: Option<Snapshot>, order: seq<nat>)
    requires IsOrdered(announced) && announced != [] && !EndsEarly(announced) && IsArrival(order, |announced|)
    requires current.Some? ==> current.value in announced
    requires |announced| - 1 in order || current == Some(announced[|announced| - 1])
    ensures Shown(current, Arrivals(announced, order)) == Some(announced[|announced| - 1])
    decreases |order|
  {
    hide IsOrdered, EndsEarly, Upsert;
    if order == [] {
    } else {
      var arrivals := Arrivals(announced, order);
      UpsertKeepsLast(announced, current, order[0]);
      assert arrivals[1..] == Arrivals(announced, order[1..]);
      assert order == [order[0]] + order[1..];
      LastIsShown(announced, Some(Upsert(current, arrivals[0])), order[1..]);
    }
  }

  /** After announcements in order: the newest is shown, or an end reached earlier in its attempt. */
  lemma {:induction false} InOrder(announced: seq<Snapshot>, n: nat)
    requires IsOrdered(announced) && 0 < n <= |announced|
    ensures var shown := Shown(None, announced[..n]);
            && shown.Some? && shown.value.attempt == announced[n - 1].attempt
            && shown.value.sequence <= announced[n - 1].sequence
            && (shown.value == announced[n - 1] || IsTerminal(shown.value.status))
            && (forall k ::
                  0 <= k < n && announced[k].attempt == announced[n - 1].attempt && IsTerminal(announced[k].status) ==>
                    IsTerminal(shown.value.status) && shown.value.sequence <= announced[k].sequence)
  {
    hide IsTerminal;
    if n == 1 {
      assert announced[..1] == [announced[0]];
      assert Shown(Some(announced[0]), []) == Some(announced[0]);
    } else {
      InOrder(announced, n - 1);
      assert announced[..n] == announced[..n - 1] + [announced[n - 1]];
      ShownJoined(None, announced[..n - 1], announced[n - 1]);
      assert announced[n - 2].sequence < announced[n - 1].sequence;
      forall k | 0 <= k < n && announced[k].attempt == announced[n - 1].attempt
        ensures k < n - 1 ==> announced[k].attempt == announced[n - 2].attempt
      {
        if k < n - 2 {
          assert announced[k].attempt <= announced[n - 2].attempt <= announced[n - 1].attempt;
        }
      }
    }
  }

  lemma {:induction false} ShownJoined(current: Option<Snapshot>, arrivals: seq<Snapshot>, last: Snapshot)
    ensures Shown(current, arrivals + [last]) == Some(Upsert(Shown(current, arrivals), last))
    decreases |arrivals|
  {
    hide Upsert;
    if arrivals == [] {
      assert [] + [last] == [last];
      assert Shown(Some(Upsert(current, last)), []) == Some(Upsert(current, last));
    } else {
      assert (arrivals + [last])[1..] == arrivals[1..] + [last];
      ShownJoined(Some(Upsert(current, arrivals[0])), arrivals[1..], last);
    }
  }

  /** Every order of arrival that includes the last announcement ends with it. */
  ghost predicate Converges(announced: seq<Snapshot>)
    requires announced != []
  {
    forall order: seq<nat> :: IsArrival(order, |announced|) && |announced| - 1 in order ==>
      Shown(None, Arrivals(announced, order)) == Some(announced[|announced| - 1])
  }

  /** With an earlier end in the last attempt, arrival in order already misses the last announcement. */
  lemma EarlyEndSticks(announced: seq<Snapshot>, k: nat)
    requires IsOrdered(announced) && k < |announced| - 1
    requires announced[k].attempt == announced[|announced| - 1].attempt && IsTerminal(announced[k].status)
    ensures Shown(None, announced) != Some(announced[|announced| - 1])
  {
    hide Shown, IsTerminal;
    InOrder(announced, |announced|);
    assert announced[..|announced|] == announced;
    assert announced[k].sequence < announced[|announced| - 1].sequence;
  }

  function InTurn(count: nat): (order: seq<nat>)
    ensures |order| == count && forall i :: 0 <= i < count ==> order[i] == i
  {
    seq(count, i requires 0 <= i < count => i)
  }

  lemma NotConverging(announced: seq<Snapshot>)
    requires announced != [] && Shown(None, announced) != Some(announced[|announced| - 1])
    ensures !Converges(announced)
  {
    hide Shown;
    var order := InTurn(|announced|);
    assert Arrivals(announced, order) == announced;
    assert order[|announced| - 1] == |announced| - 1;
  }

  /** The window ends up with the registry's last word exactly when an attempt ends at its end. */
  lemma ConvergesIff(announced: seq<Snapshot>)
    requires IsOrdered(announced) && announced != []
    ensures Converges(announced) <==> !EndsEarly(announced)
  {
    hide Shown, IsTerminal, IsOrdered;
    var last := |announced| - 1;
    if EndsEarly(announced) {
      var k :| 0 <= k < last && announced[k].attempt == announced[last].attempt && IsTerminal(announced[k].status);
      EarlyEndSticks(announced, k);
      NotConverging(announced);
    } else {
      forall order: seq<nat> | IsArrival(order, |announced|) && last in order
        ensures Shown(None, Arrivals(announced, order)) == Some(announced[last])
      {
        LastIsShown(announced, None, order);
      }
    }
  }

  /** The announcements of a task that is still there end with the registry's record of it. */
  lemma {:induction false} LastAnnouncedIsCurrent(tasks: Tasks, steps: seq<Step>, id: string)
    requires id in tasks && id in After(tasks, steps) && NeverInserted(steps, id)
    ensures var all := [tasks[id].snapshot] + Announced(tasks, steps, id);
            all[|all| - 1] == After(tasks, steps)[id].snapshot
    decreases |steps|
  {
    hide Apply;
    if steps == [] {
    } else {
      var next := Apply(tasks, steps[0]);
      assert !(steps[0].Insert? && steps[0].id == id);
      forall i | 0 <= i < |steps[1..]| ensures steps[1..][i] == steps[i + 1] {}
      if id !in next {
        GoneForGood(next, steps[1..], id);
      } else {
        LastAnnouncedIsCurrent(next, steps[1..], id);
      }
    }
  }

  /**
    Over any steps of the registry, in any order of arrival, with any repetitions and losses: once the
    last announcement has arrived the window shows the registry's record, unless an announcement
    before it ended the same attempt.
   */
  lemma WindowShowsTheRegistry(tasks: Tasks, steps: seq<Step>, id: string, order: seq<nat>)
    requires id in tasks && id in After(tasks, steps) && NeverInserted(steps, id)
    requires var all := [tasks[id].snapshot] + Announced(tasks, steps, id);
             IsArrival(order, |all|) && |all| - 1 in order && !EndsEarly(all)
    ensures var all := [tasks[id].snapshot] + Announced(tasks, steps, id);
            Shown(None, Arrivals(all, order)) == Some(After(tasks, steps)[id].snapshot)
  {
    hide Apply, After, EndsEarly, IsOrdered, Shown, Announced;
    AnnouncementsAreOrdered(tasks, steps, id);
    LastAnnouncedIsCurrent(tasks, steps, id);
    LastIsShown([tasks[id].snapshot] + Announced(tasks, steps, id), None, order);
  }

  /**
    A case the code allows: a task is cancelled while it checks its target, and the run then waits
    for a decision. The window shows a cancelled task; the registry waits, refuses a retry and
    keeps the task when it is discarded.
   */
  lemma CancelDuringCheck(id: string, snapshot: Snapshot, conflict: Conflict, now: nat)
    requires IsNew(snapshot)
    ensures var tasks: Tasks := map[id := Record(snapshot, false)];
            var steps := [Update(id, Transition(Checking), now), Cancel(id, now),
                          Update(id, WaitForConflict(conflict), now)];
            var after := After(tasks, steps);
            && id in after && after[id].snapshot.status == WaitingConflict && !IsRetryable(after[id].snapshot.status)
            && Apply(after, Discard(id)) == after
            && var shown := Shown(Some(snapshot), Announced(tasks, steps, id));
            && shown.Some? && shown.value.status == Canceled
  {
    var tasks: Tasks := map[id := Record(snapshot, false)];
    var a, b, c := Update(id, Transition(Checking), now), Cancel(id, now), Update(id, WaitForConflict(conflict), now);
    var one := Apply(tasks, a);
    var two := Apply(one, b);
    var three := Apply(two, c);
    ThreeSteps(tasks, a, b, c, id);
    assert AnnouncedBy(tasks, a, id) == [one[id].snapshot] && AnnouncedBy(one, b, id) == [two[id].snapshot];
    assert AnnouncedBy(two, c, id) == [three[id].snapshot];
    ThreeShown(snapshot, one[id].snapshot, two[id].snapshot, three[id].snapshot);
    hide Shown, After, Announced;
  }

  lemma ThreeSteps(tasks: Tasks, a: Step, b: Step, c: Step, id: string)
    ensures var one, two := Apply(tasks, a), Apply(Apply(tasks, a), b);
            && After(tasks, [a, b, c]) == Apply(two, c)
            && Announced(tasks, [a, b, c], id) ==
               AnnouncedBy(tasks, a, id) + (AnnouncedBy(one, b, id) + AnnouncedBy(two, c, id))
  {
    hide Apply, AnnouncedBy;
    var one, two := Apply(tasks, a), Apply(Apply(tasks, a), b);
    assert [a, b, c][1..] == [b, c] && [b, c][1..] == [c] && [c][1..] == [];
    assert After(two, [c]) == Apply(two, c) && After(one, [b, c]) == After(two, [c]);
    assert Announced(two, [c], id) == AnnouncedBy(two, c, id) + [];
    assert Announced(one, [b, c], id) == AnnouncedBy(one, b, id) + Announced(two, [c], id);
  }

  lemma ThreeShown(shown: Snapshot, a: Snapshot, b: Snapshot, c: Snapshot)
    ensures Shown(Some(shown), [a] + ([b] + [c])) ==
            Some(Upsert(Some(Upsert(Some(Upsert(Some(shown), a)), b)), c))
  {
    hide Upsert;
    assert [a] + ([b] + [c]) == [] + [a] + [b] + [c];
    ShownJoined(Some(shown), [], a);
    ShownJoined(Some(shown), [] + [a], b);
    ShownJoined(Some(shown), [] + [a] + [b], c);
  }
}
