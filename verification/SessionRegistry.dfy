/**
  Terminal sessions and the shell tasks behind them. A session is stored under the id of its
  connection, with a generation number; a task of an older generation may run on after its entry is
  gone or has been replaced. Steps under the lock interleave in any order.
 */
module SessionRegistry {

  /** Subscribers are numbered; a subscription belongs to the entry it was made on. */
  datatype Session = Session(generation: nat, connected: bool, connecting: bool, subscribers: seq<nat>)

  type Sessions = map<string, Session>

  predicate IsCurrent(sessions: Sessions, id: string, generation: nat) {
    id in sessions && sessions[id].generation == generation
  }

  function Updated(sessions: Sessions, id: string, generation: nat, connected: bool): Sessions {
    if IsCurrent(sessions, id, generation)
    then sessions[id := sessions[id].(connected := connected, connecting := false)] else sessions
  }

  function Without(sessions: Sessions, id: string, generation: nat): Sessions {
    if IsCurrent(sessions, id, generation) then sessions - {id} else sessions
  }

  /** The subscribers that are still there, in their order. */
  function Retained(subscribers: seq<nat>, closed: set<nat>): (retained: seq<nat>)
    ensures forall n :: n in retained <==> n in subscribers && n !in closed
  {
    if subscribers == [] then []
    else (if subscribers[0] in closed then [] else [subscribers[0]]) + Retained(subscribers[1..], closed)
  }

  lemma OneRetained(received: seq<nat>, subscribers: seq<nat>, i: nat, closed: set<nat>)
    requires i < |subscribers|
    ensures var rest := Retained(subscribers[i + 1..], closed);
            received + Retained(subscribers[i..], closed) ==
            if subscribers[i] in closed then received + rest else received + [subscribers[i]] + rest
  {
    assert subscribers[i..][1..] == subscribers[i + 1..];
    var rest := Retained(subscribers[i + 1..], closed);
    assert Retained(subscribers[i..], closed) == if subscribers[i] in closed then rest else [subscribers[i]] + rest;
    assert received + [subscribers[i]] + rest == received + ([subscribers[i]] + rest);
  }

  function AfterBroadcast(sessions: Sessions, id: string, generation: nat, closed: set<nat>): Sessions {
    if IsCurrent(sessions, id, generation)
    then sessions[id := sessions[id].(subscribers := Retained(sessions[id].subscribers, closed))] else sessions
  }

  function Receivers(sessions: Sessions, id: string, generation: nat, closed: set<nat>): seq<nat> {
    if IsCurrent(sessions, id, generation) then Retained(sessions[id].subscribers, closed) else []
  }

  // ----- The map under its lock -----

  method SendToEach(subscribers: seq<nat>, closed: set<nat>) returns (received: seq<nat>)
    ensures received == Retained(subscribers, closed)
  {
    received := [];
    assert subscribers[0..] == subscribers;
    for i := 0 to |subscribers|
      invariant received + Retained(subscribers[i..], closed) == Retained(subscribers, closed)
    {
      hide *;
      OneRetained(received, subscribers, i, closed);
      if subscribers[i] !in closed {
        received := received + [subscribers[i]];
      }
    }
    assert subscribers[|subscribers|..] == [] && received + [] == received;
  }

  class SessionMap {
    var sessions: Sessions
    var nextGeneration: nat

    constructor ()
      ensures sessions == map[] && nextGeneration == 1
    {
      sessions, nextGeneration := map[], 1;
    }

    method InsertSession(id: string) returns (generation: nat)
      modifies this
      ensures generation == old(nextGeneration) && nextGeneration == generation + 1
      ensures sessions == old(sessions)[id := Session(generation, false, true, [])]
    {
      generation := nextGeneration;
      nextGeneration := nextGeneration + 1;
      sessions := sessions[id := Session(generation, false, true, [])];
    }

    /** Whether there was a task to tell to shut down. */
    method Disconnect(id: string) returns (toldToShutDown: bool)
      modifies this`sessions
      ensures sessions == old(sessions) - {id} && toldToShutDown == (id in old(sessions))
    {
      toldToShutDown := id in sessions;
      sessions := sessions - {id};
    }

    method UpdateStateIfGeneration(id: string, generation: nat, connected: bool)
      modifies this`sessions
      ensures sessions == Updated(old(sessions), id, generation, connected)
    {
      if id in sessions {
        var session := sessions[id];
        if session.generation == generation {
          sessions := sessions[id := session.(connected := connected, connecting := false)];
        }
      }
    }

    method RemoveIfGeneration(id: string, generation: nat) returns (removed: bool)
      modifies this`sessions
      ensures sessions == Without(old(sessions), id, generation)
      ensures removed <==> IsCurrent(old(sessions), id, generation)
    {
      removed := id in sessions && sessions[id].generation == generation;
      if removed {
        sessions := sessions - {id};
      }
    }

    /** Sends to each subscriber in turn and forgets those that are closed. */
    method BroadcastIfGeneration(id: string, generation: nat, closed: set<nat>)
      returns (current: bool, received: seq<nat>)
      modifies this`sessions
      ensures current <==> IsCurrent(old(sessions), id, generation)
      ensures sessions == AfterBroadcast(old(sessions), id, generation, closed)
      ensures received == Receivers(old(sessions), id, generation, closed)
    {
      if id !in sessions || sessions[id].generation != generation {
        return false, [];
      }
      received := SendToEach(sessions[id].subscribers, closed);
      sessions := sessions[id := sessions[id].(subscribers := received)];
      current := true;
    }
  }

  // ----- All interleavings -----

  /** How far the task of a generation has got. */
  datatype Phase =
    | Handshaking | SettingUp | Starting | Announcing | Announced | Running | Showing | Marked | Closing | Gone

  /** Why an entry is no longer stored. */
  datatype End = Disconnected | Superseded | SetupFailed | Retired

  /**
    Besides the stored sessions: the id and the phase of the task of each generation, how entries
    ended, which tasks were told to shut down, the closing events sent, and who received output
    from which task.
   */
  datatype State = State(
    sessions: Sessions, next: nat, ids: map<nat, string>, phases: map<nat, Phase>, ends: map<nat, End>, told: set<nat>,
    closes: seq<nat>, owners: map<nat, nat>, deliveries: set<(nat, nat)>)

  const START := State(map[], 1, map[], map[], map[], {}, [], map[], {})

  datatype Act =
    | FailSetup | CheckHandshake | Spawn | LookAtStart | EmitReady | MarkReady
    | Broadcast(closed: set<nat>) | Show | MarkClosed | Retire | EmitClose

  datatype Step =
    | Disconnect(id: string)
    | Insert(id: string)
    | Subscribe(id: string, subscriber: nat)
    | TaskStep(generation: nat, act: Act)

  function Ended(state: State, generation: nat, end: End): State {
    state.(ends := state.ends[generation := end])
  }

  function InPhase(state: State, generation: nat, phase: Phase): State {
    state.(phases := state.phases[generation := phase])
  }

  /** A step of the task of one generation; nothing happens when the task is not there. */
  function AfterAct(state: State, g: nat, act: Act): State
    requires g in state.ids && g in state.phases
  {
    var id, phase := state.ids[g], state.phases[g];
    var current := IsCurrent(state.sessions, id, g);
    match (act, phase)
    case (FailSetup, Handshaking) => FailedSetup(state, g)
    case (FailSetup, SettingUp) => FailedSetup(state, g)
    case (CheckHandshake, Handshaking) => InPhase(state, g, if current then SettingUp else Gone)
    case (Spawn, SettingUp) => InPhase(state, g, Starting)
    case (LookAtStart, Starting) => InPhase(state, g, if current then Announcing else Running)
    case (EmitReady, Announcing) => InPhase(state, g, Announced)
    case (MarkReady, Announced) =>
      InPhase(state.(sessions := Updated(state.sessions, id, g, true)), g, Running)
    case (Broadcast(closed), Running) =>
      InPhase(state.(sessions := AfterBroadcast(state.sessions, id, g, closed),
                     deliveries := state.deliveries + set n | n in Receivers(state.sessions, id, g, closed) :: (g, n)),
              g, if current then Showing else Running)
    case (Show, Showing) => InPhase(state, g, Running)
    case (MarkClosed, Running) =>
      InPhase(state.(sessions := Updated(state.sessions, id, g, false)), g, Marked)
    case (Retire, Marked) => RetiredBy(state, g)
    case (EmitClose, Closing) => InPhase(state.(closes := state.closes + [g]), g, Gone)
    case _ => state
  }

  /** The task takes its own entry out, if it is still there, and then has the event to send. */
  function RetiredBy(state: State, g: nat): State
    requires g in state.ids
  {
    var id := state.ids[g];
    if IsCurrent(state.sessions, id, g) then
      Ended(InPhase(state.(sessions := Without(state.sessions, id, g)), g, Closing), g, Retired)
    else InPhase(state, g, Gone)
  }

  function FailedSetup(state: State, g: nat): State
    requires g in state.ids
  {
    var id := state.ids[g];
    var gone := InPhase(state.(sessions := Without(state.sessions, id, g)), g, Gone);
    if IsCurrent(state.sessions, id, g) then Ended(gone, g, SetupFailed) else gone
  }

  function Next(state: State, step: Step): State {
    match step
    case Disconnect(id) =>
      if id !in state.sessions then state
      else
        var g := state.sessions[id].generation;
        Ended(state.(sessions := state.sessions - {id}, told := state.told + {g}), g, Disconnected)
    case Insert(id) =>
      var replaced := if id in state.sessions then Ended(state, state.sessions[id].generation, Superseded) else state;
      replaced.(sessions := state.sessions[id := Session(state.next, false, true, [])], next := state.next + 1,
                ids := state.ids[state.next := id], phases := state.phases[state.next := Handshaking])
    case Subscribe(id, subscriber) =>
      if id !in state.sessions || subscriber in state.owners then state
      else
        var session := state.sessions[id];
        state.(sessions := state.sessions[id := session.(subscribers := session.subscribers + [subscriber])],
               owners := state.owners[subscriber := session.generation])
    case TaskStep(g, act) => if g in state.ids && g in state.phases then AfterAct(state, g, act) else state
  }

  function After(state: State, steps: seq<Step>): State
    decreases |steps|
  {
    if steps == [] then state else After(Next(state, steps[0]), steps[1..])
  }

  // ----- What holds in every reachable state -----

  /** A stored generation is that of a task for this id, and has not ended. */
  ghost predicate StoredAreLive(sessions: Sessions, ids: map<nat, string>, ends: map<nat, End>) {
    forall id :: id in sessions ==>
      var g := sessions[id].generation; g in ids && ids[g] == id && g !in ends
  }

  /** A stored session is the newest of its id. */
  ghost predicate StoredAreNewest(sessions: Sessions, ids: map<nat, string>) {
    forall id, g :: id in sessions && g in ids && ids[g] == id ==> g <= sessions[id].generation
  }

  /** A generation that has not ended is stored. */
  ghost predicate LiveAreStored(sessions: Sessions, ids: map<nat, string>, ends: map<nat, End>) {
    forall g :: g in ids && g !in ends ==> IsCurrent(sessions, ids[g], g)
  }

  ghost predicate IsNumbered(next: nat, ids: map<nat, string>, phases: map<nat, Phase>, ends: map<nat, End>) {
    && phases.Keys == ids.Keys && ends.Keys <= ids.Keys
    && (forall g :: g in ids ==> g < next)
  }

  /** Exactly the tasks whose entry was disconnected were told to shut down. */
  ghost predicate ToldAreDisconnected(told: set<nat>, ends: map<nat, End>) {
    forall g :: g in told <==> g in ends && ends[g] == Disconnected
  }

  /** An entry retired by its task leaves that task closing or gone, a failed setup leaves it gone. */
  ghost predicate PhasesFit(phases: map<nat, Phase>, ends: map<nat, End>) {
    forall g :: g in phases ==>
      && (g in ends && ends[g] == SetupFailed ==> phases[g] == Gone)
      && (g in ends && ends[g] == Retired ==> phases[g] == Gone || phases[g] == Closing)
      && (phases[g] == Closing ==> g in ends && ends[g] == Retired)
      && (phases[g] == Gone ==> g in ends)
  }

  /** The closing event of a generation is sent at most once, and only after its task retired it. */
  ghost predicate ClosesAreEarned(closes: seq<nat>, phases: map<nat, Phase>, ends: map<nat, End>) {
    && (forall i, j :: 0 <= i < j < |closes| ==> closes[i] != closes[j])
    && (forall g :: g in closes ==> g in ends && ends[g] == Retired && g in phases && phases[g] == Gone)
  }

  ghost predicate SubscribersAreOwn(sessions: Sessions, owners: map<nat, nat>) {
    forall id, n :: id in sessions && n in sessions[id].subscribers ==>
      n in owners && owners[n] == sessions[id].generation
  }

  /** Output of a task reaches only those who subscribed to its own generation. */
  ghost predicate DeliveriesAreOwn(deliveries: set<(nat, nat)>, owners: map<nat, nat>) {
    forall g, n :: (g, n) in deliveries ==> n in owners && owners[n] == g
  }

  ghost predicate Holds(state: State) {
    && IsNumbered(state.next, state.ids, state.phases, state.ends)
    && StoredAreLive(state.sessions, state.ids, state.ends)
    && StoredAreNewest(state.sessions, state.ids)
    && LiveAreStored(state.sessions, state.ids, state.ends)
    && ToldAreDisconnected(state.told, state.ends)
    && PhasesFit(state.phases, state.ends)
    && ClosesAreEarned(state.closes, state.phases, state.ends)
    && SubscribersAreOwn(state.sessions, state.owners)
    && DeliveriesAreOwn(state.deliveries, state.owners)
  }

  lemma PhaseHolds(state: State, g: nat, phase: Phase)
    requires Holds(state) && g in state.phases && state.phases[g] != Gone
    requires phase == Closing ==> g in state.ends && state.ends[g] == Retired
    requires phase == Gone ==> g in state.ends
    requires g in state.ends && state.ends[g] == SetupFailed ==> phase == Gone
    requires g in state.ends && state.ends[g] == Retired ==> phase == Gone || phase == Closing
    ensures Holds(InPhase(state, g, phase))
  {
    hide StoredAreLive, StoredAreNewest, LiveAreStored, ToldAreDisconnected, SubscribersAreOwn, DeliveriesAreOwn;
  }

  /** Rewriting the entry of one's own generation in place. */
  lemma UpdateHolds(state: State, id: string, g: nat, session: Session)
    requires Holds(state) && IsCurrent(state.sessions, id, g)
    requires session.generation == g && forall n :: n in session.subscribers ==> n in state.sessions[id].subscribers
    ensures Holds(state.(sessions := state.sessions[id := session]))
  {
    hide ToldAreDisconnected, PhasesFit, ClosesAreEarned, DeliveriesAreOwn, IsNumbered;
  }

  lemma DisconnectHolds(state: State, id: string)
    requires Holds(state)
    ensures Holds(Next(state, Disconnect(id)))
  {
    if id in state.sessions {
      var g := state.sessions[id].generation;
      assert g in state.phases;
      EndHolds(state, id, Disconnected, state.phases[g]);
      assert state.phases[g := state.phases[g]] == state.phases;
    }
  }

  lemma FreshTaskHolds(state: State, id: string)
    requires Holds(state) && id !in state.sessions
    ensures Holds(state.(sessions := state.sessions[id := Session(state.next, false, true, [])], next := state.next + 1,
                         ids := state.ids[state.next := id], phases := state.phases[state.next := Handshaking]))
  {
    FreshIsStored(state, id);
    FreshHasNoTraces(state, id);
    hide IsNumbered, StoredAreLive, StoredAreNewest, LiveAreStored, ToldAreDisconnected, PhasesFit, ClosesAreEarned,
         SubscribersAreOwn, DeliveriesAreOwn;
  }

  lemma FreshIsNewest(state: State, id: string)
    requires IsNumbered(state.next, state.ids, state.phases, state.ends) && id !in state.sessions
    requires StoredAreLive(state.sessions, state.ids, state.ends) && StoredAreNewest(state.sessions, state.ids)
    ensures var sessions, ids := state.sessions[id := Session(state.next, false, true, [])],
            state.ids[state.next := id];
            StoredAreLive(sessions, ids, state.ends) && StoredAreNewest(sessions, ids)
  {}

  lemma FreshIsLive(state: State, id: string)
    requires IsNumbered(state.next, state.ids, state.phases, state.ends) && id !in state.sessions
    requires LiveAreStored(state.sessions, state.ids, state.ends) && SubscribersAreOwn(state.sessions, state.owners)
    ensures var sessions, ids := state.sessions[id := Session(state.next, false, true, [])],
            state.ids[state.next := id];
            LiveAreStored(sessions, ids, state.ends) && SubscribersAreOwn(sessions, state.owners)
  {}

  lemma FreshIsStored(state: State, id: string)
    requires Holds(state) && id !in state.sessions
    ensures var sessions, ids := state.sessions[id := Session(state.next, false, true, [])],
            state.ids[state.next := id];
            && StoredAreLive(sessions, ids, state.ends) && StoredAreNewest(sessions, ids)
            && LiveAreStored(sessions, ids, state.ends) && SubscribersAreOwn(sessions, state.owners)
  {
    hide IsNumbered, StoredAreLive, StoredAreNewest, LiveAreStored, SubscribersAreOwn;
    FreshIsNewest(state, id);
    FreshIsLive(state, id);
  }

  lemma FreshHasNoTraces(state: State, id: string)
    requires Holds(state)
    ensures var ids, phases := state.ids[state.next := id], state.phases[state.next := Handshaking];
            && IsNumbered(state.next + 1, ids, phases, state.ends) && PhasesFit(phases, state.ends)
            && ClosesAreEarned(state.closes, phases, state.ends)
  {
    hide StoredAreNewest, StoredAreLive, LiveAreStored, SubscribersAreOwn, DeliveriesAreOwn;
  }

  lemma StoredIsKnown(state: State, id: string)
    requires Holds(state) && id in state.sessions
    ensures state.sessions[id].generation in state.phases && state.sessions[id].generation in state.ids
  {}

  lemma InsertHolds(state: State, id: string)
    requires Holds(state)
    ensures Holds(Next(state, Insert(id)))
  {
    hide Holds;
    if id in state.sessions {
      var g := state.sessions[id].generation;
      StoredIsKnown(state, id);
      EndHolds(state, id, Superseded, state.phases[g]);
      assert state.phases[g := state.phases[g]] == state.phases;
      var ended := state.(sessions := state.sessions - {id}, ends := state.ends[g := Superseded]);
      FreshTaskHolds(ended, id);
      assert (state.sessions - {id})[id := Session(state.next, false, true, [])] ==
             state.sessions[id := Session(state.next, false, true, [])];
    } else {
      FreshTaskHolds(state, id);
    }
  }

  lemma SubscriptionIsOwn(sessions: Sessions, owners: map<nat, nat>, deliveries: set<(nat, nat)>, id: string,
          subscriber: nat)
    requires id in sessions && subscriber !in owners
    requires SubscribersAreOwn(sessions, owners) && DeliveriesAreOwn(deliveries, owners)
    ensures var session := sessions[id];
            var more := owners[subscriber := session.generation];
            && SubscribersAreOwn(sessions[id := session.(subscribers := session.subscribers + [subscriber])], more)
            && DeliveriesAreOwn(deliveries, more)
  {}

  lemma SubscriptionKeepsStored(sessions: Sessions, ids: map<nat, string>, ends: map<nat, End>, id: string,
          session: Session)
    requires id in sessions && session.generation == sessions[id].generation
    requires StoredAreLive(sessions, ids, ends) && StoredAreNewest(sessions, ids) && LiveAreStored(sessions, ids, ends)
    ensures var after := sessions[id := session];
            StoredAreLive(after, ids, ends) && StoredAreNewest(after, ids) && LiveAreStored(after, ids, ends)
  {}

  lemma SubscribeHolds(state: State, id: string, subscriber: nat)
    requires Holds(state)
    ensures Holds(Next(state, Subscribe(id, subscriber)))
  {
    hide IsNumbered, StoredAreLive, StoredAreNewest, LiveAreStored, ToldAreDisconnected, PhasesFit, ClosesAreEarned,
         SubscribersAreOwn, DeliveriesAreOwn;
    if id in state.sessions && subscriber !in state.owners {
      var session := state.sessions[id];
      SubscriptionIsOwn(state.sessions, state.owners, state.deliveries, id, subscriber);
      SubscriptionKeepsStored(state.sessions, state.ids, state.ends, id,
                              session.(subscribers := session.subscribers + [subscriber]));
    }
  }

  lemma DeliverHolds(state: State, g: nat, id: string, closed: set<nat>)
    requires Holds(state)
    ensures Holds(state.(deliveries := state.deliveries +
                                       set n | n in Receivers(state.sessions, id, g, closed) :: (g, n)))
  {
    hide ToldAreDisconnected, PhasesFit, ClosesAreEarned, IsNumbered, StoredAreLive, StoredAreNewest, LiveAreStored;
  }

  lemma StoredAfterEnd(state: State, id: string, end: End)
    requires Holds(state) && id in state.sessions
    ensures var sessions, ends := state.sessions - {id}, state.ends[state.sessions[id].generation := end];
            && StoredAreLive(sessions, state.ids, ends) && StoredAreNewest(sessions, state.ids)
            && LiveAreStored(sessions, state.ids, ends) && SubscribersAreOwn(sessions, state.owners)
  {
    hide IsNumbered, ToldAreDisconnected, PhasesFit, ClosesAreEarned, DeliveriesAreOwn;
  }

  lemma TracesAfterEnd(state: State, id: string, end: End, phase: Phase)
    requires Holds(state) && id in state.sessions
    requires var g := state.sessions[id].generation;
             && g in state.phases
             && (end == SetupFailed ==> phase == Gone) && (end == Retired ==> phase == Closing)
             && (end == Disconnected || end == Superseded ==> phase == state.phases[g])
    ensures var g := state.sessions[id].generation;
            var ends, phases := state.ends[g := end], state.phases[g := phase];
            && IsNumbered(state.next, state.ids, phases, ends) && PhasesFit(phases, ends)
            && ToldAreDisconnected(if end == Disconnected then state.told + {g} else state.told, ends)
            && ClosesAreEarned(state.closes, phases, ends)
  {
    hide StoredAreNewest, LiveAreStored, SubscribersAreOwn, DeliveriesAreOwn;
  }

  /** An entry is taken out, in one of the ways it can end. */
  lemma EndHolds(state: State, id: string, end: End, phase: Phase)
    requires Holds(state) && id in state.sessions
    requires var g := state.sessions[id].generation;
             && g in state.phases
             && (end == SetupFailed ==> phase == Gone) && (end == Retired ==> phase == Closing)
             && (end == Disconnected || end == Superseded ==> phase == state.phases[g])
    ensures var g := state.sessions[id].generation;
            Holds(state.(sessions := state.sessions - {id}, ends := state.ends[g := end],
                         phases := state.phases[g := phase],
                         told := if end == Disconnected then state.told + {g} else state.told))
  {
    hide IsNumbered, StoredAreLive, StoredAreNewest, LiveAreStored, ToldAreDisconnected, PhasesFit, ClosesAreEarned,
         SubscribersAreOwn, DeliveriesAreOwn;
    StoredAfterEnd(state, id, end);
    TracesAfterEnd(state, id, end, phase);
  }

  lemma FailedSetupHolds(state: State, g: nat)
    requires Holds(state) && g in state.ids && (state.phases[g] == Handshaking || state.phases[g] == SettingUp)
    ensures Holds(FailedSetup(state, g))
  {
    var id := state.ids[g];
    if IsCurrent(state.sessions, id, g) {
      EndHolds(state, id, SetupFailed, Gone);
    } else {
      PhaseHolds(state, g, Gone);
    }
  }

  lemma RetireHolds(state: State, g: nat)
    requires Holds(state) && g in state.ids && g in state.phases && state.phases[g] == Marked
    ensures Holds(RetiredBy(state, g))
  {
    TaskIsKnown(state, g);
    hide Holds;
    if IsCurrent(state.sessions, state.ids[g], g) {
      EndHolds(state, state.ids[g], Retired, Closing);
    } else {
      PhaseHolds(state, g, Gone);
    }
  }

  lemma CloseHolds(state: State, g: nat)
    requires Holds(state) && g in state.ids && state.phases[g] == Closing
    ensures Holds(AfterAct(state, g, EmitClose))
  {
    hide StoredAreLive, StoredAreNewest, LiveAreStored, ToldAreDisconnected, SubscribersAreOwn, DeliveriesAreOwn;
    var closes := state.closes + [g];
    assert g !in state.closes;
  }

  lemma BroadcastHolds(state: State, g: nat, closed: set<nat>)
    requires Holds(state) && g in state.ids && g in state.phases && state.phases[g] == Running
    ensures Holds(AfterAct(state, g, Broadcast(closed)))
  {
    hide Holds, Receivers, Retained;
    TaskIsKnown(state, g);
    var id := state.ids[g];
    DeliverHolds(state, g, id, closed);
    var delivered := state.(deliveries := state.deliveries +
                                          set n | n in Receivers(state.sessions, id, g, closed) :: (g, n));
    if IsCurrent(state.sessions, id, g) {
      var session := state.sessions[id].(subscribers := Retained(state.sessions[id].subscribers, closed));
      UpdateHolds(delivered, id, g, session);
      PhaseHolds(delivered.(sessions := state.sessions[id := session]), g, Showing);
    } else {
      PhaseHolds(delivered, g, Running);
    }
  }

  lemma MarkHolds(state: State, g: nat, connected: bool, phase: Phase)
    requires Holds(state) && g in state.ids && state.phases[g] in {Announced, Running} && phase in {Running, Marked}
    ensures Holds(InPhase(state.(sessions := Updated(state.sessions, state.ids[g], g, connected)), g, phase))
  {
    var id := state.ids[g];
    if IsCurrent(state.sessions, id, g) {
      var session := state.sessions[id].(connected := connected, connecting := false);
      UpdateHolds(state, id, g, session);
      PhaseHolds(state.(sessions := state.sessions[id := session]), g, phase);
    } else {
      PhaseHolds(state, g, phase);
    }
  }

  lemma ActHolds(state: State, g: nat, act: Act)
    requires Holds(state) && g in state.ids && g in state.phases
    ensures Holds(AfterAct(state, g, act))
  {
    hide Holds, FailedSetup, RetiredBy, Updated, AfterBroadcast, Receivers;
    var phase := state.phases[g];
    TaskIsKnown(state, g);
    match (act, phase) {
      case (FailSetup, Handshaking) => FailedSetupHolds(state, g);
      case (FailSetup, SettingUp) => FailedSetupHolds(state, g);
      case (CheckHandshake, Handshaking) =>
        PhaseHolds(state, g, if IsCurrent(state.sessions, state.ids[g], g) then SettingUp else Gone);
      case (Spawn, SettingUp) => PhaseHolds(state, g, Starting);
      case (LookAtStart, Starting) =>
        PhaseHolds(state, g, if IsCurrent(state.sessions, state.ids[g], g) then Announcing else Running);
      case (EmitReady, Announcing) => PhaseHolds(state, g, Announced);
      case (MarkReady, Announced) => MarkHolds(state, g, true, Running);
      case (Broadcast(closed), Running) => BroadcastHolds(state, g, closed);
      case (Show, Showing) => PhaseHolds(state, g, Running);
      case (MarkClosed, Running) => MarkHolds(state, g, false, Marked);
      case (Retire, Marked) => RetireHolds(state, g);
      case (EmitClose, Closing) => CloseHolds(state, g);
      case _ =>
    }
  }

  /** What the state says of a task that has not finished, and when it is not stored. */
  lemma TaskIsKnown(state: State, g: nat)
    requires Holds(state) && g in state.ids && g in state.phases
    ensures state.phases[g] !in {Gone, Closing} ==> g !in state.ends || state.ends[g] in {Disconnected, Superseded}
    ensures IsCurrent(state.sessions, state.ids[g], g) <==> g !in state.ends
  {}

  lemma NextHolds(state: State, step: Step)
    requires Holds(state)
    ensures Holds(Next(state, step))
  {
    hide Holds, AfterAct;
    match step {
      case Disconnect(id) => DisconnectHolds(state, id);
      case Insert(id) => InsertHolds(state, id);
      case Subscribe(id, subscriber) => SubscribeHolds(state, id, subscriber);
      case TaskStep(g, act) =>
        if g in state.ids && g in state.phases {
          ActHolds(state, g, act);
        }
    }
  }

  lemma {:induction false} AlwaysHolds(state: State, steps: seq<Step>)
    requires Holds(state)
    ensures Holds(After(state, steps))
    decreases |steps|
  {
    hide Holds, Next;
    if steps == [] {
    } else {
      NextHolds(state, steps[0]);
      AlwaysHolds(Next(state, steps[0]), steps[1..]);
    }
  }

  // ----- Results -----

  lemma StartHolds()
    ensures Holds(START)
  {}

  /** A step of a task leaves every entry alone that is not of its own generation. */
  lemma TaskTouchesOnlyItsOwn(state: State, g: nat, act: Act, id: string)
    requires g in state.ids && g in state.phases && !IsCurrent(state.sessions, id, g)
    ensures var after := AfterAct(state, g, act);
            && (id in after.sessions <==> id in state.sessions)
            && (id in state.sessions ==> after.sessions[id] == state.sessions[id])
  {}

  lemma NextKeeps(state: State, step: Step, g: nat)
    requires Holds(state)
    ensures g in state.ids ==> g in Next(state, step).ids && Next(state, step).ids[g] == state.ids[g]
    ensures g in state.ends ==> g in Next(state, step).ends && Next(state, step).ends[g] == state.ends[g]
  {
    hide LiveAreStored, StoredAreNewest, ToldAreDisconnected, PhasesFit, ClosesAreEarned, SubscribersAreOwn,
         DeliveriesAreOwn, AfterAct;
    match step {
      case Disconnect(id) =>
      case Insert(id) =>
      case Subscribe(id, subscriber) =>
      case TaskStep(h, act) =>
        if h in state.ids && h in state.phases {
          TaskIsKnown(state, h);
          ActKeeps(state, h, act, g);
        }
    }
  }

  lemma ActKeeps(state: State, h: nat, act: Act, g: nat)
    requires h in state.ids && h in state.phases
    requires IsCurrent(state.sessions, state.ids[h], h) ==> h !in state.ends
    ensures AfterAct(state, h, act).ids == state.ids
    ensures g in state.ends ==> g in AfterAct(state, h, act).ends && AfterAct(state, h, act).ends[g] == state.ends[g]
  {
    hide IsCurrent, Updated, AfterBroadcast, Receivers, Without;
  }

  /** A generation keeps its id, and once it has ended, the way it ended. */
  lemma {:induction false} EndsArePermanent(state: State, steps: seq<Step>, g: nat)
    requires Holds(state)
    ensures g in state.ids ==> g in After(state, steps).ids && After(state, steps).ids[g] == state.ids[g]
    ensures g in state.ends ==> g in After(state, steps).ends && After(state, steps).ends[g] == state.ends[g]
    decreases |steps|
  {
    hide Holds, Next;
    if steps == [] {
    } else {
      NextHolds(state, steps[0]);
      NextKeeps(state, steps[0], g);
      EndsArePermanent(Next(state, steps[0]), steps[1..], g);
    }
  }

  /** The generation stored for an id never falls, and a new entry is newer than all before it. */
  lemma GenerationsRise(state: State, steps: seq<Step>, id: string)
    requires Holds(state) && id in state.sessions && id in After(state, steps).sessions
    ensures state.sessions[id].generation <= After(state, steps).sessions[id].generation
    ensures forall h :: h in state.ids ==> h < Next(state, Insert(id)).sessions[id].generation
  {
    var g := state.sessions[id].generation;
    EndsArePermanent(state, steps, g);
    AlwaysHolds(state, steps);
    hide LiveAreStored, ToldAreDisconnected, PhasesFit, ClosesAreEarned, SubscribersAreOwn, DeliveriesAreOwn;
  }

  /**
    From the start, over any steps: closing events are sent at most once per generation, and only
    for generations retired by their own task, now and at any later time; output reached only
    subscribers of the sender's generation.
   */
  lemma ClosedOnlyWhenRetired(steps: seq<Step>, more: seq<Step>)
    ensures var state := After(START, steps);
            && (forall i, j :: 0 <= i < j < |state.closes| ==> state.closes[i] != state.closes[j])
            && (forall g :: g in state.closes ==>
                  g in After(state, more).ends && After(state, more).ends[g] == Retired)
            && DeliveriesAreOwn(state.deliveries, state.owners)
  {
    StartHolds();
    AlwaysHolds(START, steps);
    var state := After(START, steps);
    forall g | g in state.closes ensures g in After(state, more).ends && After(state, more).ends[g] == Retired {
      EndsArePermanent(state, more, g);
    }
  }

  /**
    The closing event names the id only. When it is sent, it concerns a session that is open again
    exactly if anything is stored under the id, and that session is always a newer one.
   */
  lemma CloseMisleadsIff(state: State, g: nat)
    requires Holds(state) && g in state.ids && g in state.phases && state.phases[g] == Closing
    ensures state.ids[g] in state.sessions <==>
            exists h :: h > g && IsCurrent(state.sessions, state.ids[g], h)
  {
    hide ToldAreDisconnected, ClosesAreEarned, SubscribersAreOwn, DeliveriesAreOwn, LiveAreStored;
    var id := state.ids[g];
    if id in state.sessions {
      assert IsCurrent(state.sessions, id, state.sessions[id].generation);
    }
  }

  /** Connecting again between the removal and the event has the event close the new session. */
  lemma CloseAfterReconnect(state: State, g: nat)
    requires Holds(state) && g in state.ids && g in state.phases && state.phases[g] == Closing
    ensures var id := state.ids[g];
            var after := Next(Next(state, Insert(id)), TaskStep(g, EmitClose));
            g in after.closes && id in after.sessions && after.sessions[id].generation > g
  {
    hide StoredAreLive, StoredAreNewest, LiveAreStored, ToldAreDisconnected, PhasesFit, ClosesAreEarned,
         SubscribersAreOwn, DeliveriesAreOwn;
    var reconnected := Next(state, Insert(state.ids[g]));
    assert reconnected.phases[g] == Closing && reconnected.ids[g] == state.ids[g];
  }

  /** A task at work whose entry is gone without its having been told was superseded, and only then. */
  lemma OrphanIffSuperseded(state: State, g: nat)
    requires Holds(state) && g in state.ids && g in state.phases && state.phases[g] !in {Closing, Gone}
    ensures !IsCurrent(state.sessions, state.ids[g], g) && g !in state.told <==>
            g in state.ends && state.ends[g] == Superseded
  {
    TaskIsKnown(state, g);
    hide StoredAreLive, StoredAreNewest, LiveAreStored, ClosesAreEarned, SubscribersAreOwn, DeliveriesAreOwn;
  }

  /** And it is never told. */
  lemma OrphansStayUntold(state: State, steps: seq<Step>, g: nat)
    requires Holds(state) && g in state.ends && state.ends[g] == Superseded
    ensures g !in After(state, steps).told
  {
    EndsArePermanent(state, steps, g);
    AlwaysHolds(state, steps);
    hide StoredAreLive, StoredAreNewest, LiveAreStored, PhasesFit, ClosesAreEarned, SubscribersAreOwn, DeliveriesAreOwn;
  }

  // ----- The life of a session -----

  /** A stored entry of a generation: the phase of its task and the two flags the user sees. */
  datatype Sight = Sight(phase: Phase, connected: bool, connecting: bool)

  ghost predicate Shows(state: State, id: string, g: nat, sight: Sight) {
    && g in state.ids && state.ids[g] == id && g in state.phases && state.phases[g] == sight.phase
    && IsCurrent(state.sessions, id, g)
    && state.sessions[id].connected == sight.connected && state.sessions[id].connecting == sight.connecting
  }

  /** What a task does on its way to the open shell, and what is seen before each of these acts. */
  const OPENING := [CheckHandshake, Spawn, LookAtStart, EmitReady, MarkReady]

  const OPENING_SIGHTS := [
    Sight(Handshaking, false, true), Sight(SettingUp, false, true), Sight(Starting, false, true),
    Sight(Announcing, false, true), Sight(Announced, false, true), Sight(Running, true, false)]

  const CLOSING := [MarkClosed, Retire, EmitClose]

  /** A step of somebody else that leaves the id alone: it neither connects nor disconnects it. */
  predicate Spares(step: Step, id: string) {
    step != Disconnect(id) && step != Insert(id)
  }

  ghost predicate SparedBy(steps: seq<Step>, id: string) {
    forall i :: 0 <= i < |steps| ==> Spares(steps[i], id)
  }

  predicate IsActOf(step: Step, g: nat) {
    step.TaskStep? && step.generation == g
  }

  /** What the task of a generation itself does in a run. */
  function ActsOf(steps: seq<Step>, g: nat): seq<Act> {
    if steps == [] then []
    else (if IsActOf(steps[0], g) then [steps[0].act] else []) + ActsOf(steps[1..], g)
  }

  lemma InsertShows(state: State, id: string)
    requires Holds(state)
    ensures Shows(Next(state, Insert(id)), id, state.next, OPENING_SIGHTS[0])
  {}

  /** An act of one task leaves the task of every other generation where it is. */
  lemma ActOfAnother(state: State, h: nat, act: Act, g: nat)
    requires h in state.ids && h in state.phases && h != g
    ensures var after := AfterAct(state, h, act);
            && (g in after.phases <==> g in state.phases)
            && (g in state.phases ==> after.phases[g] == state.phases[g])
            && (g in state.closes ==> g in after.closes)
  {
    hide IsCurrent, Updated, AfterBroadcast, Receivers, Without;
  }

  /** What is stored for an id changes only by steps for the id and acts of the stored generation. */
  lemma EntryStays(state: State, step: Step, id: string)
    requires Holds(state) && Spares(step, id)
    requires id in state.sessions ==> !IsActOf(step, state.sessions[id].generation)
    ensures id in Next(state, step).sessions <==> id in state.sessions
    ensures id in state.sessions ==>
              var now, before := Next(state, step).sessions[id], state.sessions[id];
              && now.generation == before.generation && now.connected == before.connected
              && now.connecting == before.connecting
              && (forall n :: n in before.subscribers ==> n in now.subscribers)
  {
    hide Holds, AfterAct;
    match step {
      case Disconnect(other) =>
      case Insert(other) =>
      case Subscribe(other, subscriber) =>
      case TaskStep(h, act) =>
        if h in state.ids && h in state.phases {
          TaskTouchesOnlyItsOwn(state, h, act, id);
        }
    }
  }

  /** The task of a generation is moved only by its own acts. */
  lemma TaskStays(state: State, step: Step, g: nat)
    requires Holds(state) && g in state.ids && g in state.phases && !IsActOf(step, g)
    ensures var after := Next(state, step);
            && g in after.ids && after.ids[g] == state.ids[g]
            && g in after.phases && after.phases[g] == state.phases[g]
            && (g in state.ends ==> g in after.ends && after.ends[g] == state.ends[g])
            && (g in state.closes ==> g in after.closes)
  {
    NextKeeps(state, step, g);
    assert g < state.next;
    hide Holds, AfterAct;
    match step {
      case Disconnect(other) =>
      case Insert(other) =>
      case Subscribe(other, subscriber) =>
      case TaskStep(h, act) =>
        if h in state.ids && h in state.phases {
          ActOfAnother(state, h, act, g);
        }
    }
  }

  /** Steps of other tasks and for other ids, and subscriptions, change nothing that is seen. */
  lemma OthersKeepSight(state: State, step: Step, id: string, g: nat, sight: Sight)
    requires Holds(state) && Shows(state, id, g, sight) && Spares(step, id) && !IsActOf(step, g)
    ensures Shows(Next(state, step), id, g, sight)
  {
    hide Holds, Next;
    EntryStays(state, step, id);
    TaskStays(state, step, g);
  }

  lemma OpeningStep(state: State, id: string, g: nat, n: nat)
    requires n < |OPENING| && Shows(state, id, g, OPENING_SIGHTS[n])
    ensures Shows(Next(state, TaskStep(g, OPENING[n])), id, g, OPENING_SIGHTS[n + 1])
  {}

  lemma ActsOfRest(steps: seq<Step>, g: nat)
    requires steps != []
    ensures IsActOf(steps[0], g) ==>
              && ActsOf(steps, g) != [] && ActsOf(steps, g)[0] == steps[0].act
              && ActsOf(steps[1..], g) == ActsOf(steps, g)[1..]
    ensures !IsActOf(steps[0], g) ==> ActsOf(steps[1..], g) == ActsOf(steps, g)
  {}

  /**
    Whatever else happens in between: a task that goes on opening its shell, with nobody connecting or
    disconnecting its id, finds its entry stored at each test, is connecting until it has announced
    itself, and is connected then.
   */
  lemma {:induction false} OpensStepByStep(state: State, steps: seq<Step>, id: string, g: nat, from: nat, to: nat)
    requires Holds(state) && from <= to <= |OPENING| && Shows(state, id, g, OPENING_SIGHTS[from])
    requires SparedBy(steps, id) && ActsOf(steps, g) == OPENING[from..to]
    ensures Shows(After(state, steps), id, g, OPENING_SIGHTS[to])
    decreases |steps|
  {
    hide Holds, Next, Shows, Spares, IsActOf;
    if steps == [] {
    } else {
      var step, rest := steps[0], steps[1..];
      assert Spares(step, id) && SparedBy(rest, id) by {
        assert forall i :: 0 <= i < |rest| ==> rest[i] == steps[i + 1];
      }
      NextHolds(state, step);
      ActsOfRest(steps, g);
      if IsActOf(step, g) {
        OpenedOnce(state, step, id, g, from);
        assert OPENING[from..to][1..] == OPENING[from + 1..to];
        OpensStepByStep(Next(state, step), rest, id, g, from + 1, to);
      } else {
        OthersKeepSight(state, step, id, g, OPENING_SIGHTS[from]);
        OpensStepByStep(Next(state, step), rest, id, g, from, to);
      }
    }
  }

  lemma OpenedOnce(state: State, step: Step, id: string, g: nat, n: nat)
    requires n < |OPENING| && Shows(state, id, g, OPENING_SIGHTS[n])
    requires IsActOf(step, g) && step.act == OPENING[n]
    ensures Shows(Next(state, step), id, g, OPENING_SIGHTS[n + 1])
  {
    OpeningStep(state, id, g, n);
  }

  /** The same from the connect itself. */
  lemma UndisturbedSessionOpens(state: State, id: string, steps: seq<Step>, done: nat)
    requires Holds(state) && done <= |OPENING|
    requires SparedBy(steps, id) && ActsOf(steps, state.next) == OPENING[..done]
    ensures Shows(After(state, [Insert(id)] + steps), id, state.next, OPENING_SIGHTS[done])
  {
    hide Holds, Next, Shows;
    NextHolds(state, Insert(id));
    InsertShows(state, id);
    assert OPENING[0..done] == OPENING[..done];
    OpensStepByStep(Next(state, Insert(id)), steps, id, state.next, 0, done);
    var all := [Insert(id)] + steps;
    assert all[0] == Insert(id) && all[1..] == steps;
  }

  /** A shell about to start announces itself exactly if its entry is still the stored one. */
  lemma AnnouncesIffStored(state: State, g: nat)
    requires g in state.ids && g in state.phases && state.phases[g] == Starting
    ensures var after := Next(state, TaskStep(g, LookAtStart));
            && (after.phases[g] == Announcing <==> IsCurrent(state.sessions, state.ids[g], g))
            && (after.phases[g] == Running <==> !IsCurrent(state.sessions, state.ids[g], g))
            && after.sessions == state.sessions
  {}

  /** Once the entry of a task is gone before the test, the task never announces itself. */
  lemma {:induction false} EndedNeverAnnounces(state: State, steps: seq<Step>, g: nat)
    requires Holds(state) && g in state.ends && state.phases[g] !in {Announcing, Announced}
    ensures After(state, steps).phases.Keys >= {g}
    ensures After(state, steps).phases[g] !in {Announcing, Announced}
    decreases |steps|
  {
    hide Holds, Next;
    if steps == [] {
      EndedIsNumbered(state, g);
    } else {
      NextHolds(state, steps[0]);
      NextKeeps(state, steps[0], g);
      EndedStep(state, steps[0], g);
      EndedNeverAnnounces(Next(state, steps[0]), steps[1..], g);
    }
  }

  lemma EndedIsNumbered(state: State, g: nat)
    requires Holds(state) && g in state.ends
    ensures g in state.ids && g in state.phases && g < state.next
  {}

  lemma EndedStep(state: State, step: Step, g: nat)
    requires Holds(state) && g in state.ends && state.phases[g] !in {Announcing, Announced}
    ensures g in Next(state, step).phases && Next(state, step).phases[g] !in {Announcing, Announced}
  {
    EndedIsNumbered(state, g);
    TaskIsKnown(state, g);
    hide Holds;
    if IsActOf(step, g) {
      EndedAct(state, g, step.act);
    } else {
      TaskStays(state, step, g);
    }
  }

  lemma EndedAct(state: State, g: nat, act: Act)
    requires g in state.ids && g in state.phases && state.phases[g] !in {Announcing, Announced}
    requires !IsCurrent(state.sessions, state.ids[g], g)
    ensures g in AfterAct(state, g, act).phases && AfterAct(state, g, act).phases[g] !in {Announcing, Announced}
  {
    hide IsCurrent, Updated, AfterBroadcast, Receivers, Without;
  }

  /** Disconnecting takes the entry out and tells its task, and nobody else's. */
  lemma DisconnectTells(state: State, id: string)
    requires Holds(state) && id in state.sessions
    ensures var g, after := state.sessions[id].generation, Next(state, Disconnect(id));
            && after.sessions == state.sessions - {id} && after.told == state.told + {g}
            && g in after.ends && after.ends[g] == Disconnected && after.phases == state.phases
            && after.closes == state.closes
  {}

  /** A setup that fails takes its own entry out, without a closing event. */
  lemma FailedSetupIsForgotten(state: State, id: string, g: nat, sight: Sight)
    requires Shows(state, id, g, sight) && sight.phase in {Handshaking, SettingUp}
    ensures var after := Next(state, TaskStep(g, FailSetup));
            && after.sessions == state.sessions - {id} && after.phases[g] == Gone
            && g in after.ends && after.ends[g] == SetupFailed && after.closes == state.closes
  {}

  /**
    A task whose entry is not stored any more does nothing that shows: the store, the deliveries and
    the ends stay, it is gone after the handshake or at its end, and never has an event to send.
   */
  lemma UnstoredTaskIsQuiet(state: State, g: nat, act: Act)
    requires g in state.ids && g in state.phases && !IsCurrent(state.sessions, state.ids[g], g)
    ensures var before, after := state.phases[g], Next(state, TaskStep(g, act));
            && after.sessions == state.sessions && after.deliveries == state.deliveries && after.ends == state.ends
            && g in after.phases
            && (before != Closing ==> after.phases[g] != Closing && after.closes == state.closes)
            && (act == FailSetup && before in {Handshaking, SettingUp} ==> after.phases[g] == Gone)
            && (act == CheckHandshake && before == Handshaking ==> after.phases[g] == Gone)
            && (act.Broadcast? && before == Running ==> after.phases[g] == Running)
            && (act == MarkClosed && before == Running ==> after.phases[g] == Marked)
            && (act == Retire && before == Marked ==> after.phases[g] == Gone)
  {
    if act.Broadcast? {
      assert (set n | n in Receivers(state.sessions, state.ids[g], g, act.closed) :: (g, n)) == {};
    }
  }

  /** After output has been handed to the subscribers it is shown, and then the task waits for more. */
  lemma OutputIsShown(state: State, id: string, g: nat, sight: Sight, closed: set<nat>)
    requires Shows(state, id, g, sight) && sight.phase == Running
    ensures Shows(Next(state, TaskStep(g, Broadcast(closed))), id, g, sight.(phase := Showing))
    ensures Shows(Next(Next(state, TaskStep(g, Broadcast(closed))), TaskStep(g, Show)), id, g, sight)
  {}

  // ----- Output and the end -----

  /** The subscriber is on the entry of this generation. */
  predicate IsAttached(state: State, id: string, g: nat, subscriber: nat) {
    IsCurrent(state.sessions, id, g) && subscriber in state.sessions[id].subscribers
  }

  /** Nobody takes the entry out: neither a connect or disconnect of the id nor its own task. */
  predicate KeepsEntry(step: Step, id: string, g: nat) {
    Spares(step, id) && (IsActOf(step, g) ==> step.act != FailSetup && step.act != Retire)
  }

  /** The step finds that the subscriber has gone away. */
  predicate Drops(step: Step, g: nat, subscriber: nat) {
    IsActOf(step, g) && step.act.Broadcast? && subscriber in step.act.closed
  }

  lemma SubscribeAttaches(state: State, id: string, subscriber: nat)
    requires id in state.sessions && subscriber !in state.owners
    ensures IsAttached(Next(state, Subscribe(id, subscriber)), id, state.sessions[id].generation, subscriber)
  {}

  lemma AttachedStep(state: State, step: Step, id: string, g: nat, subscriber: nat)
    requires Holds(state) && IsAttached(state, id, g, subscriber) && KeepsEntry(step, id, g)
    requires !Drops(step, g, subscriber)
    ensures IsAttached(Next(state, step), id, g, subscriber)
  {
    assert g in state.ids && state.ids[g] == id && g in state.phases;
    if IsActOf(step, g) {
      hide Holds;
      OwnActKeepsAttached(state, id, g, step.act, subscriber);
    } else {
      hide Holds, Next;
      EntryStays(state, step, id);
    }
  }

  lemma OwnActKeepsAttached(state: State, id: string, g: nat, act: Act, subscriber: nat)
    requires g in state.ids && g in state.phases && state.ids[g] == id && IsAttached(state, id, g, subscriber)
    requires act != FailSetup && act != Retire && (act.Broadcast? ==> subscriber !in act.closed)
    ensures IsAttached(AfterAct(state, g, act), id, g, subscriber)
  {
    hide Receivers;
  }

  /** Output that a running task sends reaches every subscriber of its stored entry that is not closed. */
  lemma RunningReaches(state: State, id: string, g: nat, closed: set<nat>, subscriber: nat)
    requires Holds(state) && IsAttached(state, id, g, subscriber) && state.phases[g] == Running
    requires subscriber !in closed
    ensures (g, subscriber) in Next(state, TaskStep(g, Broadcast(closed))).deliveries
    ensures Next(state, TaskStep(g, Broadcast(closed))).phases[g] == Showing
  {
    assert g in state.ids && state.ids[g] == id && g in state.phases;
    hide Holds;
  }

  /**
    A subscriber that stays open stays subscribed over any steps that leave the entry stored, and the
    next output of the running task reaches it.
   */
  lemma {:induction false} OutputReachesSubscriber(
    state: State, steps: seq<Step>, id: string, g: nat, closed: set<nat>, subscriber: nat)
    requires Holds(state) && IsAttached(state, id, g, subscriber) && subscriber !in closed
    requires forall i :: 0 <= i < |steps| ==> KeepsEntry(steps[i], id, g) && !Drops(steps[i], g, subscriber)
    ensures var now := After(state, steps);
            && IsAttached(now, id, g, subscriber)
            && (g in now.phases && now.phases[g] == Running ==>
                  (g, subscriber) in Next(now, TaskStep(g, Broadcast(closed))).deliveries)
    decreases |steps|
  {
    hide Holds, Next, IsAttached, KeepsEntry, Drops;
    if steps == [] {
      if g in state.phases && state.phases[g] == Running {
        RunningReaches(state, id, g, closed, subscriber);
      }
    } else {
      NextHolds(state, steps[0]);
      AttachedStep(state, steps[0], id, g, subscriber);
      forall i | 0 <= i < |steps[1..]|
        ensures KeepsEntry(steps[1..][i], id, g) && !Drops(steps[1..][i], g, subscriber)
      {
        assert steps[1..][i] == steps[i + 1];
      }
      OutputReachesSubscriber(Next(state, steps[0]), steps[1..], id, g, closed, subscriber);
    }
  }

  /** The task at its n-th act of closing: disconnected in the entry, then out of the store, then the event. */
  ghost predicate IsClosingAt(state: State, id: string, g: nat, n: nat) {
    && g in state.ids && state.ids[g] == id && g in state.phases
    && (n == 0 ==> state.phases[g] == Running && IsCurrent(state.sessions, id, g))
    && (n == 1 ==> Shows(state, id, g, Sight(Marked, false, false)))
    && (n >= 2 ==> id !in state.sessions && g in state.ends && state.ends[g] == Retired)
    && (n == 2 ==> state.phases[g] == Closing)
    && (n >= 3 ==> state.phases[g] == Gone && g in state.closes)
  }

  lemma OthersKeepClosing(state: State, step: Step, id: string, g: nat, n: nat)
    requires Holds(state) && IsClosingAt(state, id, g, n) && Spares(step, id) && !IsActOf(step, g)
    ensures IsClosingAt(Next(state, step), id, g, n)
  {
    hide Holds, Next;
    TaskStays(state, step, g);
    if n < 2 {
      EntryStays(state, step, id);
    } else {
      NothingStored(state, step, id);
    }
  }

  lemma NothingStored(state: State, step: Step, id: string)
    requires Holds(state) && Spares(step, id) && id !in state.sessions
    ensures id !in Next(state, step).sessions
  {
    hide Holds, Next;
    EntryStays(state, step, id);
  }

  lemma ClosingStep(state: State, step: Step, id: string, g: nat, n: nat)
    requires n < |CLOSING| && IsClosingAt(state, id, g, n) && IsActOf(step, g) && step.act == CLOSING[n]
    ensures IsClosingAt(Next(state, step), id, g, n + 1)
  {}

  /**
    And a running task that comes to its end, whatever else happens in between, is seen as disconnected,
    then taken out, and then closed by its event.
   */
  lemma {:induction false} ClosesStepByStep(state: State, steps: seq<Step>, id: string, g: nat, from: nat, to: nat)
    requires Holds(state) && from <= to <= |CLOSING| && IsClosingAt(state, id, g, from)
    requires SparedBy(steps, id) && ActsOf(steps, g) == CLOSING[from..to]
    ensures IsClosingAt(After(state, steps), id, g, to)
    decreases |steps|
  {
    hide Holds, Next, IsClosingAt, Spares, IsActOf;
    if steps == [] {
    } else {
      var step, rest := steps[0], steps[1..];
      assert Spares(step, id) && SparedBy(rest, id) by {
        assert forall i :: 0 <= i < |rest| ==> rest[i] == steps[i + 1];
      }
      NextHolds(state, step);
      ActsOfRest(steps, g);
      if IsActOf(step, g) {
        ClosingStep(state, step, id, g, from);
        assert CLOSING[from..to][1..] == CLOSING[from + 1..to];
        ClosesStepByStep(Next(state, step), rest, id, g, from + 1, to);
      } else {
        OthersKeepClosing(state, step, id, g, from);
        ClosesStepByStep(Next(state, step), rest, id, g, from, to);
      }
    }
  }

  // ----- Examples -----

  lemma {:induction false} AfterJoined(state: State, first: seq<Step>, second: seq<Step>)
    ensures After(state, first + second) == After(After(state, first), second)
    decreases |first|
  {
    if first == [] {
      assert first + second == second;
    } else {
      assert (first + second)[1..] == first[1..] + second;
      AfterJoined(Next(state, first[0]), first[1..], second);
    }
  }

  /**
    Two connects at once: the second disconnects before the first inserts, and inserts after the
    first has set up its shell. The first shell runs on, stored nowhere and told nothing.
   */
  lemma OrphanExample(id: string)
    ensures var state := After(START, [Disconnect(id), Disconnect(id), Insert(id), TaskStep(1, CheckHandshake),
                                       TaskStep(1, Spawn), Insert(id)]);
            && 1 in state.phases && state.phases[1] == Starting && 1 in state.ends && state.ends[1] == Superseded
            && 1 !in state.told
  {
    var s1 := Next(START, Insert(id));
    var s2 := Next(s1, TaskStep(1, CheckHandshake));
    var s3 := Next(s2, TaskStep(1, Spawn));
    var s4 := Next(s3, Insert(id));
    assert s4.phases[1] == Starting && s4.ends[1] == Superseded && s4.told == {};
    var steps := [Disconnect(id), Disconnect(id), Insert(id), TaskStep(1, CheckHandshake), TaskStep(1, Spawn),
        Insert(id)];
    Six(START, steps);
  }

  lemma Six(state: State, steps: seq<Step>)
    requires |steps| == 6
    ensures After(state, steps) ==
            Next(Next(Next(Next(Next(Next(state, steps[0]), steps[1]), steps[2]), steps[3]), steps[4]), steps[5])
  {
    hide Next;
    Three(state, steps[..3]);
    Three(After(state, steps[..3]), steps[3..]);
    assert steps == steps[..3] + steps[3..];
    AfterJoined(state, steps[..3], steps[3..]);
  }

  lemma Three(state: State, steps: seq<Step>)
    requires |steps| == 3
    ensures After(state, steps) == Next(Next(Next(state, steps[0]), steps[1]), steps[2])
  {
    hide Next;
    var one := Next(state, steps[0]);
    var two := Next(one, steps[1]);
    assert steps[1..][1..] == [steps[2]] && [steps[2]][1..] == [];
    assert After(two, [steps[2]]) == After(Next(two, steps[2]), []);
    assert After(one, steps[1..]) == After(two, steps[1..][1..]);
  }
}
