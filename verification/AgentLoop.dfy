/**
  The agent's main loop: decision rounds, approval, the read-only gate, pausing and the round
  budget. The program has one thread, but every `await` lets other turns run: a reply of the model,
  a loaded module or an ended command continues where it stopped, in a state others have changed.
 */
module AgentLoop {
  import opened Text
  import Lexer = ShellLexer
  import Shell = Segments

  const MAX_AGENT_ROUNDS := 24
  const MAX_AGENT_RETRIES := 3

  datatype Status =
    | Idle | Initializing | Thinking | Executing | AwaitingApproval | AwaitingQuestion | Paused | Completed | Failed

  /** What the store shows: the part of it that reaches the runtime with each snapshot. */
  datatype StoreState =
    | StoreIdle | StoreThinking | StoreExecuting | StoreObserving | StorePaused | StoreFinished | StoreError

  datatype Config = Config(readOnly: bool, approveHigh: bool, approveMedium: bool)

  datatype Pending = Pending(command: string, risk: Lexer.RiskLevel)

  datatype Snapshot = Snapshot(
    store: StoreState, task: Option<string>, connection: Option<string>, config: Config,
    pendingApproval: Option<Pending>, approvalResult: Option<Lexer.Decision>, question: bool, input: string)

  datatype Analysis = Analysis(risk: Lexer.RiskLevel, readOnly: bool)

  /** The command analysis; it may fail. */
  type Analyzer = string -> Option<Analysis>

  predicate NeedsApproval(config: Config, risk: Lexer.RiskLevel) {
    || risk == Lexer.Critical
    || (risk == Lexer.High && config.approveHigh)
    || (risk == Lexer.Medium && config.approveMedium)
  }

  /** The read-only gate. A command whose analysis fails passes. */
  predicate Blocks(config: Config, analyze: Analyzer, command: string) {
    config.readOnly && analyze(command).Some? && !analyze(command).value.readOnly
  }

  // ----- The state -----

  /** Why a command may be sent. */
  datatype Why = Below(config: Config) | Remembered | Approved(index: nat)

  datatype Action =
    | RetryParse | GiveUp | FinishTask | AskUser
    | Approval(command: string, risk: Lexer.RiskLevel)
    | Execute(command: string, config: Config)

  /** Where a decision round has stopped: at the model, before its action, or at a command. */
  datatype Stage = Asking | Routed(action: Action) | Waiting(command: string) | Following(flight: nat)

  datatype Round = Round(version: nat, stage: Stage)

  /** A command on its way outside a round: past the gate, sent, or over. */
  datatype Leg = Importing | Sent | Over

  datatype Flight = Flight(command: string, version: nat, connection: Option<string>, why: Why, gate: Config, leg: Leg)

  /** `text` is what is handed over: the command, run in a directory when one is known. */
  datatype Dispatch = Dispatch(command: string, text: string, connection: string, why: Why, gate: Config)

  /** `bridges` are the tasks, by version, whose bridge to the backend has not come up yet. */
  datatype Agent = Agent(
    status: Status, version: nat, initialized: Option<string>, connection: Option<string>, snapshot: Snapshot,
    rounds: nat, retries: nat, disposed: bool, seenResult: Option<Lexer.Decision>, seenInput: Option<string>,
    decisions: map<string, Lexer.Decision>, round: Option<Round>, flights: seq<Flight>,
    approvals: seq<string>, remembered: set<string>, starts: map<nat, nat>, dispatches: seq<Dispatch>,
    bridges: set<nat>)

  predicate IsCurrent(a: Agent, version: nat) {
    !a.disposed && a.version == version && a.status != Completed && a.status != Failed
  }

  function Recall(a: Agent, command: string, risk: Lexer.RiskLevel): Option<Lexer.Decision> {
    if risk != Lexer.Critical && Lexer.Tokens(command) != [] && Lexer.Key(command) in a.decisions
    then Some(a.decisions[Lexer.Key(command)]) else None
  }

  // ----- Turns -----

  function Start(snapshot: Snapshot): Agent {
    Agent(Idle, 0, None, None, snapshot, 0, 0, false, None, None, map[], None, [], [], {}, map[0 := 0], [], {})
  }

  function Finished(a: Agent, success: bool): Agent {
    a.(status := if success then Completed else Failed)
  }

  function TaskBegun(a: Agent, task: string, connection: Option<string>): Agent {
    a.(status := Initializing, version := a.version + 1, initialized := Some(task), connection := connection,
       rounds := 0, retries := 0, seenResult := None, seenInput := None, starts := a.starts[a.version + 1 := 0],
       bridges := a.bridges + {a.version + 1})
  }

  /** A command asked for outside a round: checked now, sent once the execution module is loaded. */
  function CommandStarted(a: Agent, analyze: Analyzer, command: string, version: nat, why: Why): Agent {
    if !IsCurrent(a, version) then a
    else if Blocks(a.snapshot.config, analyze, command) then a.(status := Idle)
    else a.(status := Executing,
            flights := a.flights + [Flight(command, version, a.connection, why, a.snapshot.config, Importing)])
  }

  function ApprovalApplied(a: Agent, analyze: Analyzer, pending: Pending, result: Lexer.Decision): Agent {
    if a.status != AwaitingApproval then a
    else
      var cleared := a.(seenResult := None,
                        snapshot := a.snapshot.(pendingApproval := None, approvalResult := None));
      if result == Lexer.Rejected then Finished(cleared, false)
      else CommandStarted(cleared.(approvals := a.approvals + [pending.command]), analyze, pending.command, a.version,
                          Approved(|a.approvals|))
  }

  function AnswerApplied(a: Agent): Agent {
    if a.status != AwaitingQuestion then a
    else a.(status := Idle, seenInput := None,
            snapshot := a.snapshot.(store := StoreThinking, question := false, input := ""))
  }

  function PauseSynced(a: Agent, before: StoreState, active: bool): Agent {
    if a.snapshot.store == StorePaused && a.status != Paused && active then a.(status := Paused)
    else if before == StorePaused && a.snapshot.store != StorePaused && a.status == Paused then a.(status := Idle)
    else a
  }

  function ApprovalSynced(a: Agent, analyze: Analyzer): Agent {
    if a.snapshot.approvalResult.Some? && a.snapshot.pendingApproval.Some?
       && a.seenResult != a.snapshot.approvalResult then
      ApprovalApplied(a.(seenResult := a.snapshot.approvalResult), analyze, a.snapshot.pendingApproval.value,
                      a.snapshot.approvalResult.value)
    else if a.snapshot.approvalResult.None? then a.(seenResult := None)
    else a
  }

  function InputSynced(a: Agent, snapshot: Snapshot): Agent {
    if snapshot.question && snapshot.input != "" && a.seenInput != Some(snapshot.input)
    then AnswerApplied(a.(seenInput := Some(snapshot.input)))
    else if snapshot.input == "" then a.(seenInput := None)
    else a
  }

  function IsActive(a: Agent): bool {
    a.status != Idle && a.status != Completed && a.status != Failed
  }

  function TaskSynced(a: Agent): Agent {
    if a.snapshot.task.Some? && a.initialized != a.snapshot.task && a.snapshot.store == StoreThinking
    then TaskBegun(a, a.snapshot.task.value, a.snapshot.connection) else a
  }

  /** The task was ended from outside. */
  function EndSynced(a: Agent): Agent {
    if (a.snapshot.store == StoreFinished || a.snapshot.store == StoreError) && IsActive(a)
       && a.snapshot.task.Some? && a.initialized == a.snapshot.task
    then Finished(a, a.snapshot.store == StoreFinished) else a
  }

  function Synced(a: Agent, analyze: Analyzer, snapshot: Snapshot): Agent {
    if a.disposed then a
    else
      var begun := TaskSynced(a.(snapshot := snapshot));
      InputSynced(ApprovalSynced(PauseSynced(EndSynced(begun), a.snapshot.store, IsActive(begun)), analyze), snapshot)
  }

  /** The scheduled step: a round begins, or the task ends for want of budget. */
  function Processed(a: Agent, outOfBudget: bool): Agent {
    if a.disposed || a.round.Some? || a.status != Idle || a.snapshot.task.None? || a.initialized != a.snapshot.task
       || a.snapshot.store != StoreThinking then a
    else if a.rounds >= MAX_AGENT_ROUNDS || outOfBudget then Finished(a, false)
    else a.(status := Thinking, rounds := a.rounds + 1, round := Some(Round(a.version, Asking)),
            starts := a.starts[a.version := a.rounds + 1])
  }

  datatype Response = SaysFinish | SaysAsk | SaysExecute(command: string, repeated: bool)

  /** An error is `early` when it comes up before the request to the model is prepared. */
  datatype Reply = Thrown(aborted: bool, retryable: bool, early: bool) | Parsed(response: Option<Response>)

  /** The order of the tests: no answer, finish, ask, no command, repeated command, approval, execute. */
  function Route(a: Agent, analyze: Analyzer, response: Option<Response>): Option<Action> {
    if response.None? then Some(if a.retries < MAX_AGENT_RETRIES then RetryParse else GiveUp)
    else match response.value
      case SaysFinish => Some(FinishTask)
      case SaysAsk => Some(AskUser)
      case SaysExecute(command, repeated) =>
        if command == "" || repeated then Some(GiveUp)
        else if analyze(command).None? then None
        else if NeedsApproval(a.snapshot.config, analyze(command).value.risk)
        then Some(Approval(command, analyze(command).value.risk))
        else Some(Execute(command, a.snapshot.config))
  }

  function RoundThrew(a: Agent, version: nat, aborted: bool, retryable: bool, early: bool): Agent {
    var over := a.(round := None);
    if !IsCurrent(a, version) || (!early && (aborted || a.status == Paused)) then over
    else if retryable && a.retries < MAX_AGENT_RETRIES then over.(retries := a.retries + 1, status := Idle)
    else Finished(over, false)
  }

  function Replied(a: Agent, analyze: Analyzer, reply: Reply): Agent {
    if a.round.None? || a.round.value.stage != Asking then a
    else
      var version := a.round.value.version;
      match reply
      case Thrown(aborted, retryable, early) => RoundThrew(a, version, aborted, retryable, early)
      case Parsed(response) =>
        var action := Route(a, analyze, response);
        if action.None? then RoundThrew(a, version, false, false, false)
        else a.(round := Some(Round(version, Routed(action.value))))
  }

  /** Sending a command uses the connection the runtime has at that moment. */
  function Sends(a: Agent, command: string, cwd: Option<string>, why: Why, gate: Config): Agent
    requires a.connection.Some?
  {
    a.(dispatches := a.dispatches + [Dispatch(command, Shell.PrefixCwd(command, cwd), a.connection.value, why, gate)])
  }

  datatype End = Aborted | Fails(policy: bool) | Succeeds

  function RoundEnded(a: Agent, version: nat, end: End): Agent {
    var over := a.(round := None);
    if end == Aborted || !IsCurrent(a, version) || a.status == Paused then over
    else if end == Fails(false) then Finished(over.(retries := 0), false)
    else over.(retries := 0, status := Idle)
  }

  function ActionTaken(a: Agent, analyze: Analyzer, version: nat, action: Action, cwd: Option<string>): Agent {
    if action.Execute? then
      if !IsCurrent(a, version) then a.(round := None)
      else if Blocks(a.snapshot.config, analyze, action.command) then RoundEnded(a, version, Fails(true))
      else
        var executing := a.(status := Executing);
        if a.connection.None? then RoundEnded(executing, version, Fails(false))
        else Sends(executing.(round := Some(Round(version, Waiting(action.command)))), action.command, cwd,
                   Below(action.config), a.snapshot.config)
    else
      var over := a.(round := None);
      if !IsCurrent(a, version) || a.status == Paused then over
      else
        match action
        case RetryParse =>
          if a.retries < MAX_AGENT_RETRIES then over.(retries := a.retries + 1, status := Idle)
          else Finished(over.(retries := 0), false)
        case GiveUp => Finished(over.(retries := 0), false)
        case FinishTask => Finished(over.(retries := 0), true)
        case AskUser => over.(retries := 0, status := AwaitingQuestion)
        case Approval(command, risk) =>
          var settled := over.(retries := 0);
          if Blocks(a.snapshot.config, analyze, command) then settled.(status := Idle)
          else if Recall(a, command, risk) == Some(Lexer.Approved) then
            var started := CommandStarted(settled, analyze, command, version, Remembered);
            if |started.flights| > |a.flights|
            then started.(round := Some(Round(version, Following(|a.flights|)))) else started
          else settled.(status := AwaitingApproval)
  }

  function Routes(a: Agent, analyze: Analyzer, cwd: Option<string>): Agent {
    if a.round.Some? && a.round.value.stage.Routed?
    then ActionTaken(a, analyze, a.round.value.version, a.round.value.stage.action, cwd) else a
  }

  function WaitEnded(a: Agent, end: End): Agent {
    if a.round.Some? && a.round.value.stage.Waiting? then RoundEnded(a, a.round.value.version, end) else a
  }

  /** The flight is over; a round that was following it is too. */
  function FlightEnded(a: Agent, k: nat, end: End): Agent {
    if k >= |a.flights| || a.flights[k].leg == Over then a
    else
      var landed := a.(flights := a.flights[k := a.flights[k].(leg := Over)],
                       round := if a.round.Some? && a.round.value.stage == Following(k) then None else a.round);
      if end == Aborted || !IsCurrent(a, a.flights[k].version) then landed
      else if end == Fails(false) then Finished(landed, false)
      else landed.(status := Idle)
  }

  /** The execution module is loaded: the command is sent without another look at anything. */
  function Imported(a: Agent, k: nat, cwd: Option<string>): Agent {
    if k >= |a.flights| || a.flights[k].leg != Importing then a
    else if a.connection.None? then FlightEnded(a, k, Fails(false))
    else Sends(a.(flights := a.flights[k := a.flights[k].(leg := Sent)]), a.flights[k].command, cwd,
               a.flights[k].why, a.flights[k].gate)
  }

  /** A bridge comes up once, and makes its task idle if that is still the current one. */
  function BridgeUp(a: Agent, version: nat): Agent {
    if version !in a.bridges then a
    else a.(bridges := a.bridges - {version}, status := if IsCurrent(a, version) then Idle else a.status)
  }

  function Disposed(a: Agent): Agent {
    a.(disposed := true, connection := None, status := Idle)
  }

  /** The user's choice to remember a decision on a command, made in the approval card. */
  function Chosen(a: Agent, command: string, risk: Lexer.RiskLevel, decision: Lexer.Decision): Agent {
    if risk == Lexer.Critical || Lexer.Tokens(command) == [] then a
    else a.(decisions := a.decisions[Lexer.Key(command) := decision],
            remembered := if decision == Lexer.Approved then a.remembered + {command} else a.remembered)
  }

  datatype Event =
    | Sync(snapshot: Snapshot) | Process(outOfBudget: bool) | Reply(reply: Reply) | TakeAction(cwd: Option<string>)
    | EndWait(end: End) | Import(flight: nat, cwd: Option<string>) | EndFlight(flight: nat, end: End)
    | StartBridge(version: nat) | Dispose
    | Choose(command: string, risk: Lexer.RiskLevel, decision: Lexer.Decision)

  function Next(a: Agent, analyze: Analyzer, event: Event): Agent {
    match event
    case Sync(snapshot) => Synced(a, analyze, snapshot)
    case Process(outOfBudget) => Processed(a, outOfBudget)
    case Reply(reply) => Replied(a, analyze, reply)
    case TakeAction(cwd) => Routes(a, analyze, cwd)
    case EndWait(end) => WaitEnded(a, end)
    case Import(flight, cwd) => Imported(a, flight, cwd)
    case EndFlight(flight, end) => FlightEnded(a, flight, end)
    case StartBridge(version) => BridgeUp(a, version)
    case Dispose => Disposed(a)
    case Choose(command, risk, decision) => Chosen(a, command, risk, decision)
  }

  function After(a: Agent, analyze: Analyzer, events: seq<Event>): Agent
    decreases |events|
  {
    if events == [] then a else After(Next(a, analyze, events[0]), analyze, events[1..])
  }

  // ----- The runtime -----

  class AgentRuntime {
    const analyze: Analyzer
    var status: Status
    var taskVersion: nat
    var initializedTaskId: Option<string>
    var taskConnectionId: Option<string>
    var snapshot: Snapshot
    var roundCount: nat
    var retryAttempt: nat
    var disposed: bool
    var seenApprovalResult: Option<Lexer.Decision>
    var seenPendingInput: Option<string>
    var decisions: map<string, Lexer.Decision>
    var round: Option<Round>
    var flights: seq<Flight>
    var approvals: seq<string>
    var remembered: set<string>
    var starts: map<nat, nat>
    var dispatches: seq<Dispatch>
    var bridges: set<nat>

    function View(): Agent
      reads this
    {
      Agent(status, taskVersion, initializedTaskId, taskConnectionId, snapshot, roundCount, retryAttempt, disposed,
            seenApprovalResult, seenPendingInput, decisions, round, flights, approvals, remembered, starts, dispatches,
            bridges)
    }

    constructor (analyze: Analyzer, snapshot: Snapshot)
      ensures this.analyze == analyze && View() == Start(snapshot)
    {
      this.analyze, this.snapshot := analyze, snapshot;
      status, taskVersion, initializedTaskId, taskConnectionId := Idle, 0, None, None;
      roundCount, retryAttempt, disposed, seenApprovalResult, seenPendingInput := 0, 0, false, None, None;
      decisions, round, flights, approvals, remembered := map[], None, [], [], {};
      starts, dispatches, bridges := map[0 := 0], [], {};
    }

    method ResetCounters()
      modifies this`taskVersion, this`starts, this`roundCount, this`retryAttempt
      ensures taskVersion == old(taskVersion) + 1 && roundCount == 0 && retryAttempt == 0
      ensures starts == old(starts)[taskVersion := 0]
    {
      taskVersion := taskVersion + 1;
      retryAttempt, roundCount := 0, 0;
      starts := starts[taskVersion := 0];
    }

    method BeginNewTask(taskId: string, connectionId: Option<string>)
      modifies this
      ensures View() == TaskBegun(old(View()), taskId, connectionId)
    {
      ResetCounters();
      initializedTaskId, taskConnectionId := Some(taskId), connectionId;
      seenApprovalResult, seenPendingInput := None, None;
      status := Initializing;
      bridges := bridges + {taskVersion};
    }

    method BridgeCameUp(version: nat)
      modifies this`status, this`bridges
      ensures View() == BridgeUp(old(View()), version)
    {
      if version in bridges {
        bridges := bridges - {version};
        if !disposed && taskVersion == version && status != Completed && status != Failed {
          status := Idle;
        }
      }
    }

    method EndTask(success: bool)
      modifies this`status
      ensures View() == Finished(old(View()), success)
    {
      status := if success then Completed else Failed;
    }

    /** True when the gate has taken over: the refusal goes back to the model as an observation. */
    method BlockOnReadOnlyMode(command: string, version: nat) returns (blocked: bool)
      modifies this`status
      ensures blocked == Blocks(snapshot.config, analyze, command)
      ensures status == if blocked && IsCurrent(old(View()), version) then Idle else old(status)
    {
      blocked := false;
      if snapshot.config.readOnly {
        var analysis := analyze(command);
        blocked := analysis.Some? && !analysis.value.readOnly;
      }
      if blocked && !disposed && taskVersion == version && status != Completed && status != Failed {
        status := Idle;
      }
    }

    /** The part of running a command before the module is loaded. */
    method RunCommand(command: string, version: nat, why: Why)
      modifies this`status, this`flights
      ensures View() == CommandStarted(old(View()), analyze, command, version, why)
    {
      if disposed || taskVersion != version || status == Completed || status == Failed {
        return;
      }
      var blocked := BlockOnReadOnlyMode(command, version);
      if blocked {
        return;
      }
      status := Executing;
      flights := flights + [Flight(command, version, taskConnectionId, why, snapshot.config, Importing)];
    }

    method ClearApproval()
      modifies this`seenApprovalResult, this`snapshot
      ensures seenApprovalResult == None
      ensures snapshot == old(snapshot).(pendingApproval := None, approvalResult := None)
    {
      seenApprovalResult := None;
      snapshot := snapshot.(pendingApproval := None, approvalResult := None);
    }

    method ApplyApprovalDecision(pending: Pending, result: Lexer.Decision)
      modifies this`status, this`flights, this`approvals, this`seenApprovalResult, this`snapshot
      ensures View() == ApprovalApplied(old(View()), analyze, pending, result)
    {
      if status != AwaitingApproval {
        return;
      }
      var capturedVersion := taskVersion;
      ClearApproval();
      hide CommandStarted;
      if result == Lexer.Rejected {
        EndTask(false);
        return;
      }
      RunApproved(pending.command, capturedVersion);
    }

    method RunApproved(command: string, version: nat)
      modifies this`status, this`flights, this`approvals
      ensures View() == CommandStarted(old(View()).(approvals := old(approvals) + [command]), analyze, command, version,
                                       Approved(|old(approvals)|))
    {
      var approval := |approvals|;
      approvals := approvals + [command];
      RunCommand(command, version, Approved(approval));
    }

    method ApplyUserAnswer()
      modifies this
      ensures View() == AnswerApplied(old(View()))
    {
      if status != AwaitingQuestion {
        return;
      }
      seenPendingInput := None;
      status := Idle;
      snapshot := snapshot.(store := StoreThinking, question := false, input := "");
    }

    /** Steps 1 and 2 of a synchronisation: a new task, a task ended from outside. */
    method SyncTask() returns (active: bool)
      modifies this
      ensures var begun := TaskSynced(old(View())); View() == EndSynced(begun) && active == IsActive(begun)
    {
      if snapshot.task.Some? && initializedTaskId != snapshot.task && snapshot.store == StoreThinking {
        BeginNewTask(snapshot.task.value, snapshot.connection);
      }
      active := status != Idle && status != Completed && status != Failed;
      if (snapshot.store == StoreFinished || snapshot.store == StoreError) && active
         && snapshot.task.Some? && initializedTaskId == snapshot.task {
        EndTask(snapshot.store == StoreFinished);
      }
    }

    method SyncPause(before: StoreState, active: bool)
      modifies this`status
      ensures View() == PauseSynced(old(View()), before, active)
    {
      if snapshot.store == StorePaused && status != Paused && active {
        status := Paused;
      } else if before == StorePaused && snapshot.store != StorePaused && status == Paused {
        status := Idle;
      }
    }

    method SyncApproval()
      modifies this
      ensures View() == ApprovalSynced(old(View()), analyze)
    {
      hide ApprovalApplied;
      if snapshot.approvalResult.Some? && snapshot.pendingApproval.Some?
         && seenApprovalResult != snapshot.approvalResult {
        seenApprovalResult := snapshot.approvalResult;
        ApplyApprovalDecision(snapshot.pendingApproval.value, snapshot.approvalResult.value);
      } else if snapshot.approvalResult.None? {
        seenApprovalResult := None;
      }
    }

    method SyncInput(received: Snapshot)
      modifies this
      ensures View() == InputSynced(old(View()), received)
    {
      if received.question && received.input != "" && seenPendingInput != Some(received.input) {
        seenPendingInput := Some(received.input);
        ApplyUserAnswer();
      } else if received.input == "" {
        seenPendingInput := None;
      }
    }

    method SyncSnapshot(received: Snapshot)
      modifies this
      ensures View() == Synced(old(View()), analyze, received)
    {
      hide TaskSynced, EndSynced, PauseSynced, ApprovalSynced, InputSynced, IsActive;
      if disposed {
        return;
      }
      var before := snapshot.store;
      snapshot := received;
      var active := SyncTask();
      SyncPause(before, active);
      SyncApproval();
      SyncInput(received);
    }

    /** The scheduled step. Time and tokens are given by `outOfBudget`. */
    method ProcessStep(outOfBudget: bool)
      modifies this`status, this`roundCount, this`starts, this`round
      ensures View() == Processed(old(View()), outOfBudget)
    {
      if disposed || round.Some? || status != Idle || snapshot.task.None? || initializedTaskId != snapshot.task
         || snapshot.store != StoreThinking {
        return;
      }
      if roundCount >= MAX_AGENT_ROUNDS || outOfBudget {
        status := Thinking;
        EndTask(false);
        return;
      }
      BeginRound();
    }

    method BeginRound()
      modifies this`status, this`roundCount, this`starts, this`round
      ensures var a := old(View());
              View() == a.(status := Thinking, rounds := a.rounds + 1, round := Some(Round(a.version, Asking)),
                           starts := a.starts[a.version := a.rounds + 1])
    {
      status := Thinking;
      roundCount := roundCount + 1;
      starts := starts[taskVersion := roundCount];
      round := Some(Round(taskVersion, Asking));
    }

    /** The text handed over is prepared here; `cwd` is the directory the agent tracks or the session has. */
    method SendCommand(command: string, cwd: Option<string>, why: Why, gate: Config) returns (sent: bool)
      modifies this`dispatches
      ensures sent <==> taskConnectionId.Some?
      ensures View() == if sent then Sends(old(View()), command, cwd, why, gate) else old(View())
    {
      hide Shell.PrefixCwd;
      sent := taskConnectionId.Some?;
      if sent {
        var text := Shell.PrefixCwd(command, cwd);
        dispatches := dispatches + [Dispatch(command, text, taskConnectionId.value, why, gate)];
      }
    }

    /** The loaded module sends the command it was asked for. */
    method ContinueCommand(k: nat, cwd: Option<string>)
      modifies this
      ensures View() == Imported(old(View()), k, cwd)
    {
      hide Shell.PrefixCwd;
      if k >= |flights| || flights[k].leg != Importing {
        return;
      }
      var flight := flights[k];
      var sent := SendCommand(flight.command, cwd, flight.why, flight.gate);
      if !sent {
        CommandOver(k, Fails(false));
        return;
      }
      flights := flights[k := flight.(leg := Sent)];
    }

    method CommandOver(k: nat, end: End)
      modifies this`status, this`flights, this`round
      ensures View() == FlightEnded(old(View()), k, end)
    {
      if k >= |flights| || flights[k].leg == Over {
        return;
      }
      var flight := flights[k];
      flights := flights[k := flight.(leg := Over)];
      if round.Some? && round.value.stage == Following(k) {
        round := None;
      }
      if end == Aborted || disposed || taskVersion != flight.version || status == Completed || status == Failed {
        return;
      }
      if end == Fails(false) {
        EndTask(false);
        return;
      }
      status := Idle;
    }

    method EndRound(version: nat, end: End)
      modifies this`status, this`round, this`retryAttempt
      ensures View() == RoundEnded(old(View()), version, end)
    {
      round := None;
      if end == Aborted || disposed || taskVersion != version || status == Completed || status == Failed
         || status == Paused {
        return;
      }
      retryAttempt := 0;
      if end == Fails(false) {
        EndTask(false);
      } else {
        status := Idle;
      }
    }

    /** The action of a round: the command of the model, gated and sent at once, or what else it decided. */
    method TakeAction(cwd: Option<string>)
      modifies this
      ensures View() == Routes(old(View()), analyze, cwd)
    {
      hide Shell.PrefixCwd;
      if round.None? || !round.value.stage.Routed? {
        return;
      }
      var version, action := round.value.version, round.value.stage.action;
      hide ActionTaken;
      if action.Execute? {
        ExecuteNow(version, action.command, action.config, cwd);
      } else {
        TakeOther(version, action, cwd);
      }
    }

    method TakeOther(version: nat, action: Action, ghost cwd: Option<string>)
      requires !action.Execute?
      modifies this
      ensures View() == ActionTaken(old(View()), analyze, version, action, cwd)
    {
      hide Shell.PrefixCwd;
      round := None;
      if disposed || taskVersion != version || status == Completed || status == Failed || status == Paused {
        return;
      }
      if action.RetryParse? && retryAttempt < MAX_AGENT_RETRIES {
        retryAttempt := retryAttempt + 1;
        status := Idle;
        return;
      }
      retryAttempt := 0;
      match action {
        case RetryParse => EndTask(false);
        case GiveUp => EndTask(false);
        case FinishTask => EndTask(true);
        case AskUser => status := AwaitingQuestion;
        case Approval(command, risk) => ApplyApprovalAction(version, command, risk, cwd);
      }
    }

    method ExecuteNow(version: nat, command: string, config: Config, cwd: Option<string>)
      requires round.Some?
      modifies this
      ensures View() == ActionTaken(old(View()), analyze, version, Execute(command, config), cwd)
    {
      hide Shell.PrefixCwd;
      if disposed || taskVersion != version || status == Completed || status == Failed {
        round := None;
        return;
      }
      if snapshot.config.readOnly {
        var analysis := analyze(command);
        if analysis.Some? && !analysis.value.readOnly {
          EndRound(version, Fails(true));
          return;
        }
      }
      status := Executing;
      var sent := SendCommand(command, cwd, Below(config), snapshot.config);
      if !sent {
        EndRound(version, Fails(false));
        return;
      }
      round := Some(Round(version, Waiting(command)));
    }

    /** The gate comes before the question to the user, who is asked unless the approval is remembered. */
    method ApplyApprovalAction(version: nat, command: string, risk: Lexer.RiskLevel, ghost cwd: Option<string>)
      requires round.None? && IsCurrent(View(), version) && status != Paused && retryAttempt == 0
      modifies this
      ensures View() == ActionTaken(old(View()), analyze, version, Approval(command, risk), cwd)
    {
      hide Shell.PrefixCwd, Lexer.Tokens, Lexer.Key;
      var blocked := BlockOnReadOnlyMode(command, version);
      if blocked {
        return;
      }
      if risk != Lexer.Critical && Lexer.Tokens(command) != [] && Lexer.Key(command) in decisions
         && decisions[Lexer.Key(command)] == Lexer.Approved {
        var flight := |flights|;
        RunCommand(command, version, Remembered);
        if |flights| > flight {
          round := Some(Round(version, Following(flight)));
        }
        return;
      }
      status := AwaitingApproval;
    }

    method Dispose()
      modifies this
      ensures View() == Disposed(old(View()))
    {
      disposed := true;
      taskConnectionId := None;
      status := Idle;
    }
  }

  // ----- What every dispatched command has behind it -----

  /** The grounds on which a command is sent, as they were when they were found. */
  ghost predicate IsJustified(analyze: Analyzer, approvals: seq<string>, remembered: set<string>, command: string,
          why: Why) {
    match why
    case Below(config) => analyze(command).Some? && !NeedsApproval(config, analyze(command).value.risk)
    case Remembered =>
      && analyze(command).Some? && analyze(command).value.risk != Lexer.Critical
      && exists c :: c in remembered && Lexer.Tokens(c) == Lexer.Tokens(command)
    case Approved(index) => index < |approvals| && approvals[index] == command
  }

  ghost predicate FlightsFit(analyze: Analyzer, approvals: seq<string>, remembered: set<string>, flights: seq<Flight>) {
    forall k :: 0 <= k < |flights| ==>
      IsJustified(analyze, approvals, remembered, flights[k].command, flights[k].why)
      && !Blocks(flights[k].gate, analyze, flights[k].command)
  }

  /** What is handed over for a command: the command as it is, or behind a change of directory. */
  ghost predicate IsSentAs(text: string, command: string) {
    exists cwd :: text == Shell.PrefixCwd(command, cwd)
  }

  ghost predicate DispatchesFit(analyze: Analyzer, approvals: seq<string>, remembered: set<string>,
                                dispatches: seq<Dispatch>) {
    forall i :: 0 <= i < |dispatches| ==>
      IsJustified(analyze, approvals, remembered, dispatches[i].command, dispatches[i].why)
      && !Blocks(dispatches[i].gate, analyze, dispatches[i].command)
      && IsSentAs(dispatches[i].text, dispatches[i].command)
  }

  /** An approval is good for one command sent once. */
  ghost predicate ApprovalsSpentOnce(flights: seq<Flight>, dispatches: seq<Dispatch>) {
    && (forall i, j :: 0 <= i < j < |flights| && flights[i].why.Approved? ==> flights[i].why != flights[j].why)
    && (forall i, j :: 0 <= i < j < |dispatches| && dispatches[i].why.Approved? ==>
        dispatches[i].why != dispatches[j].why)
    && (forall i, j :: 0 <= i < |flights| && 0 <= j < |dispatches| ==>
          (flights[i].why.Approved? && flights[i].leg == Importing ==> flights[i].why != dispatches[j].why))
  }

  /** An action waiting to be taken was routed by the analysis of its command. */
  predicate ActionFits(analyze: Analyzer, round: Option<Round>) {
    round.Some? && round.value.stage.Routed? ==>
      match round.value.stage.action
      case Approval(command, risk) => analyze(command).Some? && analyze(command).value.risk == risk
      case Execute(command, config) => analyze(command).Some? && !NeedsApproval(config, analyze(command).value.risk)
      case _ => true
  }

  /** A remembered approval goes back to a command the user approved. */
  ghost predicate MemoryFits(decisions: map<string, Lexer.Decision>, remembered: set<string>) {
    forall key :: key in decisions && decisions[key] == Lexer.Approved ==>
      exists c :: c in remembered && Lexer.Key(c) == key
  }

  /** Rounds are counted per task, and no task begins more than its budget. */
  ghost predicate RoundsFit(starts: map<nat, nat>, version: nat, rounds: nat) {
    && rounds <= MAX_AGENT_ROUNDS && version in starts && starts[version] == rounds
    && (forall v :: v in starts ==> v <= version && starts[v] <= MAX_AGENT_ROUNDS)
  }

  /** As long as no newer task has begun, the connection is the one a command was checked for. */
  ghost predicate FlightsStay(flights: seq<Flight>, version: nat, connection: Option<string>, disposed: bool) {
    forall k :: 0 <= k < |flights| ==>
      flights[k].version <= version && (flights[k].version == version && !disposed ==>
          flights[k].connection == connection)
  }

  ghost predicate Fits(a: Agent, analyze: Analyzer) {
    && FlightsStay(a.flights, a.version, a.connection, a.disposed)
    && FlightsFit(analyze, a.approvals, a.remembered, a.flights)
    && DispatchesFit(analyze, a.approvals, a.remembered, a.dispatches)
    && ApprovalsSpentOnce(a.flights, a.dispatches)
    && ActionFits(analyze, a.round)
    && MemoryFits(a.decisions, a.remembered)
    && RoundsFit(a.starts, a.version, a.rounds)
  }

  // ----- Every turn keeps it -----

  lemma CommandStartedFits(a: Agent, analyze: Analyzer, command: string, version: nat, why: Why)
    requires Fits(a, analyze) && IsJustified(analyze, a.approvals, a.remembered, command, why)
    requires why.Approved? ==> forall k :: 0 <= k < |a.flights| ==> a.flights[k].why != why
    requires why.Approved? ==> forall i :: 0 <= i < |a.dispatches| ==> a.dispatches[i].why != why
    ensures Fits(CommandStarted(a, analyze, command, version, why), analyze)
  {
    hide DispatchesFit, ActionFits, MemoryFits, RoundsFit, IsJustified;
  }

  lemma ApprovedFits(a: Agent, analyze: Analyzer, command: string)
    requires Fits(a, analyze)
    ensures var approved := a.(approvals := a.approvals + [command]);
            && Fits(approved, analyze)
            && IsJustified(analyze, approved.approvals, a.remembered, command, Approved(|a.approvals|))
            && (forall k :: 0 <= k < |a.flights| ==> a.flights[k].why != Approved(|a.approvals|))
            && (forall i :: 0 <= i < |a.dispatches| ==> a.dispatches[i].why != Approved(|a.approvals|))
  {
    hide ApprovalsSpentOnce, ActionFits, MemoryFits, RoundsFit;
    forall k | 0 <= k < |a.flights|
      ensures a.flights[k].why != Approved(|a.approvals|)
    {
      assert IsJustified(analyze, a.approvals, a.remembered, a.flights[k].command, a.flights[k].why);
    }
    forall i | 0 <= i < |a.dispatches|
      ensures a.dispatches[i].why != Approved(|a.approvals|)
    {
      assert IsJustified(analyze, a.approvals, a.remembered, a.dispatches[i].command, a.dispatches[i].why);
    }
  }

  lemma ApprovalAppliedFits(a: Agent, analyze: Analyzer, pending: Pending, result: Lexer.Decision)
    requires Fits(a, analyze)
    ensures Fits(ApprovalApplied(a, analyze, pending, result), analyze)
  {
    hide Fits, CommandStarted;
    if a.status == AwaitingApproval {
      var cleared := a.(seenResult := None, snapshot := a.snapshot.(pendingApproval := None, approvalResult := None));
      SameRecordsFit(a, cleared, analyze);
      SameRecordsFit(a, Finished(cleared, false), analyze);
      ApprovedFits(cleared, analyze, pending.command);
      CommandStartedFits(cleared.(approvals := a.approvals + [pending.command]), analyze, pending.command, a.version,
                         Approved(|a.approvals|));
    }
  }

  /** Turns that leave the records alone. */
  lemma SameRecordsFit(a: Agent, b: Agent, analyze: Analyzer)
    requires Fits(a, analyze)
    requires b.flights == a.flights && b.dispatches == a.dispatches && b.approvals == a.approvals
    requires b.remembered == a.remembered && b.decisions == a.decisions && b.starts == a.starts
    requires b.disposed || (b.connection == a.connection && b.disposed == a.disposed)
    requires b.version == a.version && b.rounds == a.rounds && (b.round == a.round || ActionFits(analyze, b.round))
    ensures Fits(b, analyze)
  {}

  lemma TaskBegunFits(a: Agent, analyze: Analyzer, task: string, connection: Option<string>)
    requires Fits(a, analyze)
    ensures Fits(TaskBegun(a, task, connection), analyze)
  {
    hide FlightsFit, DispatchesFit, ApprovalsSpentOnce, ActionFits, MemoryFits;
  }

  lemma ApprovalSyncedFits(a: Agent, analyze: Analyzer)
    requires Fits(a, analyze)
    ensures Fits(ApprovalSynced(a, analyze), analyze)
  {
    hide Fits, ApprovalApplied;
    SameRecordsFit(a, a.(seenResult := None), analyze);
    SameRecordsFit(a, a.(seenResult := a.snapshot.approvalResult), analyze);
    if a.snapshot.approvalResult.Some? && a.snapshot.pendingApproval.Some? {
      ApprovalAppliedFits(a.(seenResult := a.snapshot.approvalResult), analyze, a.snapshot.pendingApproval.value,
                          a.snapshot.approvalResult.value);
    }
  }

  lemma SyncedFits(a: Agent, analyze: Analyzer, snapshot: Snapshot)
    requires Fits(a, analyze)
    ensures Fits(Synced(a, analyze, snapshot), analyze)
  {
    hide Fits, ApprovalSynced, TaskSynced;
    var taken := a.(snapshot := snapshot);
    SameRecordsFit(a, taken, analyze);
    TaskSyncedFits(taken, analyze);
    var begun := TaskSynced(taken);
    var paused := PauseSynced(EndSynced(begun), a.snapshot.store, IsActive(begun));
    SameRecordsFit(begun, paused, analyze);
    hide EndSynced, PauseSynced, IsActive;
    ApprovalSyncedFits(paused, analyze);
    var approved := ApprovalSynced(paused, analyze);
    SameRecordsFit(approved, InputSynced(approved, snapshot), analyze);
  }

  lemma TaskSyncedFits(a: Agent, analyze: Analyzer)
    requires Fits(a, analyze)
    ensures Fits(TaskSynced(a), analyze)
  {
    hide Fits, TaskBegun;
    if a.snapshot.task.Some? {
      TaskBegunFits(a, analyze, a.snapshot.task.value, a.snapshot.connection);
    }
  }

  lemma ProcessedFits(a: Agent, analyze: Analyzer, outOfBudget: bool)
    requires Fits(a, analyze)
    ensures Fits(Processed(a, outOfBudget), analyze)
  {
    hide FlightsFit, DispatchesFit, ApprovalsSpentOnce, MemoryFits;
  }

  lemma RepliedFits(a: Agent, analyze: Analyzer, reply: Reply)
    requires Fits(a, analyze)
    ensures Fits(Replied(a, analyze, reply), analyze)
  {
    hide Fits;
    SameRecordsFit(a, Replied(a, analyze, reply), analyze);
  }

  lemma SendFits(a: Agent, analyze: Analyzer, command: string, cwd: Option<string>, why: Why, gate: Config)
    requires Fits(a, analyze) && a.connection.Some?
    requires IsJustified(analyze, a.approvals, a.remembered, command, why) && !Blocks(gate, analyze, command)
    requires why.Approved? ==> forall i :: 0 <= i < |a.dispatches| ==> a.dispatches[i].why != why
    requires why.Approved? ==> forall k :: 0 <= k < |a.flights| && a.flights[k].leg == Importing ==>
             a.flights[k].why != why
    ensures Fits(Sends(a, command, cwd, why, gate), analyze)
  {
    assert IsSentAs(Shell.PrefixCwd(command, cwd), command);
    hide FlightsFit, ActionFits, MemoryFits, RoundsFit, IsJustified, Shell.PrefixCwd, IsSentAs;
  }

  /** What is recalled was approved for a command of the same tokens. */
  lemma RecallIsJustified(a: Agent, analyze: Analyzer, command: string, risk: Lexer.RiskLevel)
    requires MemoryFits(a.decisions, a.remembered) && analyze(command).Some? && analyze(command).value.risk == risk
    requires Recall(a, command, risk) == Some(Lexer.Approved)
    ensures IsJustified(analyze, a.approvals, a.remembered, command, Remembered)
  {
    hide Lexer.Tokens, Lexer.Key;
    var c :| c in a.remembered && Lexer.Key(c) == Lexer.Key(command);
    Lexer.SameKeyIffSameTokens(c, command);
  }

  lemma ApprovalActionFits(a: Agent, analyze: Analyzer, version: nat, command: string, risk: Lexer.RiskLevel,
        cwd: Option<string>)
    requires Fits(a, analyze) && analyze(command).Some? && analyze(command).value.risk == risk
    ensures Fits(ActionTaken(a, analyze, version, Approval(command, risk), cwd), analyze)
  {
    hide FlightsFit, DispatchesFit, ApprovalsSpentOnce, RoundsFit, MemoryFits, IsJustified, Recall, CommandStarted;
    var settled := a.(round := None, retries := 0);
    if Recall(a, command, risk) == Some(Lexer.Approved) {
      RecallIsJustified(a, analyze, command, risk);
      CommandStartedFits(settled, analyze, command, version, Remembered);
      var started := CommandStarted(settled, analyze, command, version, Remembered);
      SameRecordsFit(started, started.(round := Some(Round(version, Following(|a.flights|)))), analyze);
    }
  }

  lemma ExecuteActionFits(a: Agent, analyze: Analyzer, version: nat, command: string, config: Config,
          cwd: Option<string>)
    requires Fits(a, analyze) && analyze(command).Some? && !NeedsApproval(config, analyze(command).value.risk)
    ensures Fits(ActionTaken(a, analyze, version, Execute(command, config), cwd), analyze)
  {
    hide Fits, Sends, Blocks;
    var taken := ActionTaken(a, analyze, version, Execute(command, config), cwd);
    if IsCurrent(a, version) && !Blocks(a.snapshot.config, analyze, command) && a.connection.Some? {
      var waiting := a.(status := Executing, round := Some(Round(version, Waiting(command))));
      SameRecordsFit(a, waiting, analyze);
      SendFits(waiting, analyze, command, cwd, Below(config), a.snapshot.config);
    } else {
      SameRecordsFit(a, taken, analyze);
    }
  }

  lemma ActionTakenFits(a: Agent, analyze: Analyzer, cwd: Option<string>)
    requires Fits(a, analyze)
    ensures Fits(Routes(a, analyze, cwd), analyze)
  {
    if a.round.Some? && a.round.value.stage.Routed? {
      var version, action := a.round.value.version, a.round.value.stage.action;
      hide FlightsFit, DispatchesFit, ApprovalsSpentOnce, RoundsFit, MemoryFits, CommandStarted, Sends, RoundEnded;
      match action {
        case Approval(command, risk) => ApprovalActionFits(a, analyze, version, command, risk, cwd);
        case Execute(command, config) => ExecuteActionFits(a, analyze, version, command, config, cwd);
        case _ => SameRecordsFit(a, Routes(a, analyze, cwd), analyze);
      }
    }
  }

  lemma FlightEndedFits(a: Agent, analyze: Analyzer, k: nat, end: End)
    requires Fits(a, analyze)
    ensures Fits(FlightEnded(a, k, end), analyze)
  {
    if k < |a.flights| {
      var flights := a.flights[k := a.flights[k].(leg := Over)];
      var landed := a.(flights := flights);
      LegFits(a, analyze, k, Over);
      hide Fits;
      SameRecordsFit(landed, FlightEnded(landed.(flights := a.flights), k, end).(flights := flights), analyze);
    }
  }

  lemma LegFits(a: Agent, analyze: Analyzer, k: nat, leg: Leg)
    requires Fits(a, analyze) && k < |a.flights| && leg != Importing
    ensures Fits(a.(flights := a.flights[k := a.flights[k].(leg := leg)]), analyze)
  {
    hide DispatchesFit, ActionFits, MemoryFits, RoundsFit, IsJustified, Blocks;
  }

  lemma ImportedFits(a: Agent, analyze: Analyzer, k: nat, cwd: Option<string>)
    requires Fits(a, analyze)
    ensures Fits(Imported(a, k, cwd), analyze)
  {
    if k < |a.flights| && a.flights[k].leg == Importing {
      if a.connection.None? {
        FlightEndedFits(a, analyze, k, Fails(false));
      } else {
        var sent := a.(flights := a.flights[k := a.flights[k].(leg := Sent)]);
        LegFits(a, analyze, k, Sent);
        ImportedIsNew(a, analyze, k);
        hide Fits, Sends;
        SendFits(sent, analyze, a.flights[k].command, cwd, a.flights[k].why, a.flights[k].gate);
      }
    }
  }

  lemma ImportedIsNew(a: Agent, analyze: Analyzer, k: nat)
    requires Fits(a, analyze) && k < |a.flights| && a.flights[k].leg == Importing
    ensures var flight := a.flights[k];
            && IsJustified(analyze, a.approvals, a.remembered, flight.command, flight.why)
            && !Blocks(flight.gate, analyze, flight.command)
            && (flight.why.Approved? ==>
                  && (forall i :: 0 <= i < |a.dispatches| ==> a.dispatches[i].why != flight.why)
                  && (forall j :: 0 <= j < |a.flights| && j != k ==> a.flights[j].why != flight.why))
  {
    hide DispatchesFit, ActionFits, MemoryFits, RoundsFit, IsJustified, Blocks;
  }

  lemma ChosenFits(a: Agent, analyze: Analyzer, command: string, risk: Lexer.RiskLevel, decision: Lexer.Decision)
    requires Fits(a, analyze)
    ensures Fits(Chosen(a, command, risk, decision), analyze)
  {
    hide ApprovalsSpentOnce, ActionFits, RoundsFit, Lexer.Tokens, Lexer.Key, Blocks;
  }

  lemma NextFits(a: Agent, analyze: Analyzer, event: Event)
    requires Fits(a, analyze)
    ensures Fits(Next(a, analyze, event), analyze)
  {
    hide Fits, Synced, Processed, Replied, Routes, FlightEnded, Imported, Chosen;
    match event {
      case Sync(snapshot) => SyncedFits(a, analyze, snapshot);
      case Process(outOfBudget) => ProcessedFits(a, analyze, outOfBudget);
      case Reply(reply) => RepliedFits(a, analyze, reply);
      case TakeAction(cwd) => ActionTakenFits(a, analyze, cwd);
      case EndWait(end) => SameRecordsFit(a, WaitEnded(a, end), analyze);
      case Import(flight, cwd) => ImportedFits(a, analyze, flight, cwd);
      case EndFlight(flight, end) => FlightEndedFits(a, analyze, flight, end);
      case StartBridge(version) => SameRecordsFit(a, BridgeUp(a, version), analyze);
      case Dispose => SameRecordsFit(a, Disposed(a), analyze);
      case Choose(command, risk, decision) => ChosenFits(a, analyze, command, risk, decision);
    }
  }

  lemma {:induction false} AlwaysFits(a: Agent, analyze: Analyzer, events: seq<Event>)
    requires Fits(a, analyze)
    ensures Fits(After(a, analyze, events), analyze)
    decreases |events|
  {
    hide Fits, Next;
    if events == [] {
    } else {
      NextFits(a, analyze, events[0]);
      AlwaysFits(Next(a, analyze, events[0]), analyze, events[1..]);
    }
  }

  // ----- Results -----

  /**
    In every run, whatever the order of the turns: each command sent was rated below the thresholds,
    or matches the tokens of a command approved for good and is not critical, or was approved by the
    user, once for each approval. A critical command was approved. What passed the gate in read-only
    mode was not known to change anything. No task has more than its 24 rounds.
   */
  lemma EveryCommandHasItsGrounds(analyze: Analyzer, snapshot: Snapshot, events: seq<Event>)
    ensures var a := After(Start(snapshot), analyze, events);
            && (forall i :: 0 <= i < |a.dispatches| ==>
                  var d := a.dispatches[i];
                  && IsJustified(analyze, a.approvals, a.remembered, d.command, d.why)
                  && (analyze(d.command).Some? && analyze(d.command).value.risk == Lexer.Critical ==>
                        d.why.Approved? && d.command in a.approvals)
                  && (d.gate.readOnly && analyze(d.command).Some? ==> analyze(d.command).value.readOnly))
            && (forall i, j :: 0 <= i < j < |a.dispatches| && a.dispatches[i].why.Approved? ==>
                  a.dispatches[i].why != a.dispatches[j].why)
            && (forall v :: v in a.starts ==> a.starts[v] <= MAX_AGENT_ROUNDS)
  {
    assert Fits(Start(snapshot), analyze);
    AlwaysFits(Start(snapshot), analyze, events);
    var a := After(Start(snapshot), analyze, events);
    forall i | 0 <= i < |a.dispatches|
      ensures IsJustified(analyze, a.approvals, a.remembered, a.dispatches[i].command, a.dispatches[i].why)
      ensures !Blocks(a.dispatches[i].gate, analyze, a.dispatches[i].command)
    {}
    hide FlightsFit, DispatchesFit, MemoryFits, ActionFits, FlightsStay;
  }

  // ----- What the user decided -----

  /** The user's approval of a command, as it reaches the runtime. */
  predicate Approves(event: Event, command: string) {
    && event.Sync? && event.snapshot.approvalResult == Some(Lexer.Approved)
    && event.snapshot.pendingApproval.Some? && event.snapshot.pendingApproval.value.command == command
  }

  /** The user's choice that a command may run from now on. */
  predicate ChoosesForGood(event: Event, command: string) {
    event.Choose? && event.command == command && event.decision == Lexer.Approved && event.risk != Lexer.Critical
  }

  ghost predicate WasApproved(events: seq<Event>, command: string) {
    exists n :: 0 <= n < |events| && Approves(events[n], command)
  }

  ghost predicate WasChosen(events: seq<Event>, command: string) {
    exists n :: 0 <= n < |events| && ChoosesForGood(events[n], command)
  }

  /**
    While a decision is awaited, a rejection ends the task and starts nothing; an approval starts the
    pending command, unless the gate takes over.
   */
  lemma DecisionIsObeyed(a: Agent, analyze: Analyzer, pending: Pending, result: Lexer.Decision)
    requires a.status == AwaitingApproval && !a.disposed
    ensures var b := ApprovalApplied(a, analyze, pending, result);
            && b.dispatches == a.dispatches
            && (result == Lexer.Rejected ==> b.status == Failed && b.flights == a.flights && b.approvals == a.approvals)
            && (result == Lexer.Approved && Blocks(a.snapshot.config, analyze, pending.command) ==>
                  b.status == Idle && b.flights == a.flights)
            && (result == Lexer.Approved && !Blocks(a.snapshot.config, analyze, pending.command) ==>
                  && b.status == Executing && |b.flights| == |a.flights| + 1 && b.flights[..|a.flights|] == a.flights
                  && b.flights[|a.flights|].command == pending.command && b.flights[|a.flights|].leg == Importing)
  {
    hide Blocks;
  }

  lemma ApprovalTakenUp(a: Agent, analyze: Analyzer)
    ensures var b := ApprovalSynced(a, analyze);
            && b.remembered == a.remembered
            && (|| b.approvals == a.approvals
                || (&& a.snapshot.approvalResult == Some(Lexer.Approved) && a.snapshot.pendingApproval.Some?
                    && b.approvals == a.approvals + [a.snapshot.pendingApproval.value.command]))
  {
    hide Blocks;
  }

  lemma SyncTakesUp(a: Agent, analyze: Analyzer, snapshot: Snapshot)
    ensures var b := Synced(a, analyze, snapshot);
            && b.remembered == a.remembered
            && (|| b.approvals == a.approvals
                || (&& snapshot.approvalResult == Some(Lexer.Approved) && snapshot.pendingApproval.Some?
                    && b.approvals == a.approvals + [snapshot.pendingApproval.value.command]))
  {
    var begun := TaskSynced(a.(snapshot := snapshot));
    BegunKeepsRecords(a.(snapshot := snapshot));
    hide TaskSynced, ApprovalSynced;
    var paused := PauseSynced(EndSynced(begun), a.snapshot.store, IsActive(begun));
    assert paused == begun.(status := paused.status);
    hide EndSynced, PauseSynced, IsActive;
    ApprovalTakenUp(paused, analyze);
    AnsweringKeepsRecords(ApprovalSynced(paused, analyze), snapshot);
    hide InputSynced;
  }

  lemma BegunKeepsRecords(a: Agent)
    ensures var b := TaskSynced(a);
            b.snapshot == a.snapshot && b.approvals == a.approvals && b.remembered == a.remembered
  {}

  lemma AnsweringKeepsRecords(a: Agent, snapshot: Snapshot)
    ensures InputSynced(a, snapshot).approvals == a.approvals && InputSynced(a, snapshot).remembered == a.remembered
  {}

  lemma RecordsGrow(a: Agent, analyze: Analyzer, event: Event)
    ensures var b := Next(a, analyze, event);
            && (forall c :: c in b.approvals ==> c in a.approvals || Approves(event, c))
            && (forall c :: c in b.remembered ==> c in a.remembered || ChoosesForGood(event, c))
  {
    hide Synced, CommandStarted, Recall, Blocks, Shell.PrefixCwd, Lexer.Tokens, Lexer.Key;
    match event {
      case Sync(snapshot) => SyncTakesUp(a, analyze, snapshot);
      case TakeAction(cwd) => TakingKeepsRecords(a, analyze, cwd);
      case _ =>
    }
  }

  lemma TakingKeepsRecords(a: Agent, analyze: Analyzer, cwd: Option<string>)
    ensures Routes(a, analyze, cwd).approvals == a.approvals && Routes(a, analyze, cwd).remembered == a.remembered
  {
    hide Recall, Blocks, Shell.PrefixCwd, Lexer.Tokens, Lexer.Key, CommandStarted;
    if a.round.Some? && a.round.value.stage.Routed? && a.round.value.stage.action.Approval? {
      StartingKeepsRecords(a.(round := None, retries := 0), analyze, a.round.value.stage.action.command,
                           a.round.value.version, Remembered);
    }
  }

  lemma StartingKeepsRecords(a: Agent, analyze: Analyzer, command: string, version: nat, why: Why)
    ensures CommandStarted(a, analyze, command, version, why).approvals == a.approvals
    ensures CommandStarted(a, analyze, command, version, why).remembered == a.remembered
  {}

  lemma {:induction false} RecordsComeFromTheUser(a: Agent, analyze: Analyzer, events: seq<Event>)
    ensures var b := After(a, analyze, events);
            && (forall c :: c in b.approvals ==> c in a.approvals || WasApproved(events, c))
            && (forall c :: c in b.remembered ==> c in a.remembered || WasChosen(events, c))
    decreases |events|
  {
    hide Next, Approves, ChoosesForGood;
    if events == [] {
    } else {
      var next, rest := Next(a, analyze, events[0]), events[1..];
      RecordsGrow(a, analyze, events[0]);
      RecordsComeFromTheUser(next, analyze, rest);
      forall c | WasApproved(rest, c) ensures WasApproved(events, c) {
        var n :| 0 <= n < |rest| && Approves(rest[n], c);
        assert Approves(events[n + 1], c);
      }
      forall c | WasChosen(rest, c) ensures WasChosen(events, c) {
        var n :| 0 <= n < |rest| && ChoosesForGood(rest[n], c);
        assert ChoosesForGood(events[n + 1], c);
      }
    }
  }

  predicate IsCritical(analyze: Analyzer, command: string) {
    analyze(command).Some? && analyze(command).value.risk == Lexer.Critical
  }

  /** The user's part in a command that is sent. */
  ghost predicate IsUsersWish(events: seq<Event>, d: Dispatch) {
    match d.why
    case Below(_) => true
    case Remembered => exists c :: WasChosen(events, c) && Lexer.Tokens(c) == Lexer.Tokens(d.command)
    case Approved(_) => WasApproved(events, d.command)
  }

  /**
    In every run, at every moment: a command that was sent without being below the thresholds had by then
    been approved by the user, itself or, for good, as one of the same tokens; a critical one itself.
   */
  lemma EveryGroundIsTheUsers(analyze: Analyzer, snapshot: Snapshot, events: seq<Event>)
    ensures var a := After(Start(snapshot), analyze, events);
            forall i :: 0 <= i < |a.dispatches| ==>
              && IsUsersWish(events, a.dispatches[i])
              && (IsCritical(analyze, a.dispatches[i].command) ==> WasApproved(events, a.dispatches[i].command))
  {
    var a := After(Start(snapshot), analyze, events);
    forall i | 0 <= i < |a.dispatches|
      ensures IsUsersWish(events, a.dispatches[i])
      ensures IsCritical(analyze, a.dispatches[i].command) ==> WasApproved(events, a.dispatches[i].command)
    {
      GroundIsTheUsers(analyze, snapshot, events, i);
    }
  }

  lemma GroundIsTheUsers(analyze: Analyzer, snapshot: Snapshot, events: seq<Event>, i: nat)
    requires i < |After(Start(snapshot), analyze, events).dispatches|
    ensures var d := After(Start(snapshot), analyze, events).dispatches[i];
            IsUsersWish(events, d) && (IsCritical(analyze, d.command) ==> WasApproved(events, d.command))
  {
    hide WasApproved, WasChosen, Lexer.Tokens;
    EveryCommandHasItsGrounds(analyze, snapshot, events);
    RecordsComeFromTheUser(Start(snapshot), analyze, events);
    var a := After(Start(snapshot), analyze, events);
    var d := a.dispatches[i];
    assert IsJustified(analyze, a.approvals, a.remembered, d.command, d.why);
    assert d.why.Approved? ==> d.command in a.approvals;
  }

  /**
    So it is for the text handed over: it is the command, or the command behind one segment that
    changes to a directory. Every rule finds in it what it finds in that segment and in the command.
   */
  lemma SentTextIsTheCommand(analyze: Analyzer, snapshot: Snapshot, events: seq<Event>, i: nat, rules: Shell.Rules)
    requires i < |After(Start(snapshot), analyze, events).dispatches|
    ensures var d := After(Start(snapshot), analyze, events).dispatches[i];
            || d.text == d.command
            || exists cwd ::
                 && Shell.Unquote(Shell.ShellSingleQuote(cwd), false) == cwd
                 && Shell.Hits(rules, Shell.Split(d.text)) ==
                    rules(Shell.Segment("cd " + Shell.ShellSingleQuote(cwd), Shell.Start))
                    + Shell.Hits(rules, Shell.Split(d.command))
  {
    var d := After(Start(snapshot), analyze, events).dispatches[i];
    SentAs(analyze, snapshot, events, i);
    var cwd :| d.text == Shell.PrefixCwd(d.command, cwd);
    if cwd.Some? && cwd.value != "" && Shell.ShouldPrefixCwd(d.command) {
      Shell.QuotedWordIsTheDirectory(cwd.value);
      Shell.HitsOfPrefixed(rules, d.command, cwd.value);
    }
  }

  lemma SentAs(analyze: Analyzer, snapshot: Snapshot, events: seq<Event>, i: nat)
    requires i < |After(Start(snapshot), analyze, events).dispatches|
    ensures var d := After(Start(snapshot), analyze, events).dispatches[i]; IsSentAs(d.text, d.command)
  {
    assert Fits(Start(snapshot), analyze);
    AlwaysFits(Start(snapshot), analyze, events);
    hide FlightsFit, MemoryFits, ActionFits, FlightsStay, IsSentAs, IsJustified, Blocks;
  }

  /** Past the gate, nothing stops a command but the loss of the connection. */
  lemma GateIsNotRepeated(a: Agent, analyze: Analyzer, k: nat, cwd: Option<string>)
    requires Fits(a, analyze) && k < |a.flights| && a.flights[k].leg == Importing && a.connection.Some?
    ensures var flight := a.flights[k];
            && Imported(a, k, cwd).dispatches ==
               a.dispatches + [Dispatch(flight.command, Shell.PrefixCwd(flight.command, cwd), a.connection.value,
                                        flight.why, flight.gate)]
            && (flight.version == a.version && !a.disposed ==> flight.connection == a.connection)
            && (Blocks(a.snapshot.config, analyze, flight.command) <==>
                && a.snapshot.config.readOnly && !flight.gate.readOnly
                && analyze(flight.command).Some? && !analyze(flight.command).value.readOnly)
  {
    hide DispatchesFit, ApprovalsSpentOnce, ActionFits, MemoryFits, RoundsFit, IsJustified;
  }

  // ----- Pausing -----

  /** The turns that send a command. Whether the agent is paused does not come in. */
  predicate MaySend(a: Agent, analyze: Analyzer, event: Event) {
    && a.connection.Some?
    && match event
       case Import(k, _) => k < |a.flights| && a.flights[k].leg == Importing
       case TakeAction(_) =>
         && a.round.Some? && a.round.value.stage.Routed? && a.round.value.stage.action.Execute?
         && IsCurrent(a, a.round.value.version)
         && !Blocks(a.snapshot.config, analyze, a.round.value.stage.action.command)
       case _ => false
  }

  lemma StartedSendsNothing(a: Agent, analyze: Analyzer, command: string, version: nat, why: Why)
    ensures CommandStarted(a, analyze, command, version, why).dispatches == a.dispatches
  {}

  lemma SyncedSendsNothing(a: Agent, analyze: Analyzer, snapshot: Snapshot)
    ensures Synced(a, analyze, snapshot).dispatches == a.dispatches
  {
    hide CommandStarted, IsActive;
    var begun := TaskSynced(a.(snapshot := snapshot));
    var paused := PauseSynced(EndSynced(begun), a.snapshot.store, IsActive(begun));
    assert paused.dispatches == a.dispatches;
    ApprovalSendsNothing(paused, analyze);
    hide TaskSynced, EndSynced, PauseSynced, ApprovalSynced;
    assert InputSynced(ApprovalSynced(paused, analyze), snapshot).dispatches == a.dispatches;
  }

  lemma ApprovalSendsNothing(a: Agent, analyze: Analyzer)
    ensures ApprovalSynced(a, analyze).dispatches == a.dispatches
  {
    hide CommandStarted;
    if a.snapshot.pendingApproval.Some? {
      var command := a.snapshot.pendingApproval.value.command;
      var b := a.(seenResult := None, snapshot := a.snapshot.(pendingApproval := None, approvalResult := None),
                  approvals := a.approvals + [command]);
      StartedSendsNothing(b, analyze, command, a.version, Approved(|a.approvals|));
    }
  }

  /** One turn sends one command, exactly if it may, and otherwise none. */
  lemma SendsIff(a: Agent, analyze: Analyzer, event: Event)
    ensures var sent := Next(a, analyze, event).dispatches;
            if MaySend(a, analyze, event) then |sent| == |a.dispatches| + 1 && sent[..|a.dispatches|] == a.dispatches
            else sent == a.dispatches
  {
    hide Blocks, Recall, Shell.PrefixCwd, Synced;
    if event.Sync? {
      SyncedSendsNothing(a, analyze, event.snapshot);
    }
  }

  /** The user has paused and does not go on. */
  predicate ShowsPause(event: Event) {
    event.Sync? ==> event.snapshot.store == StorePaused
  }

  ghost predicate StaysPaused(events: seq<Event>) {
    forall i :: 0 <= i < |events| ==> ShowsPause(events[i])
  }

  /** An action that can still send a command: at once, or from the memory of an approval. */
  predicate CanStillSend(action: Action) {
    match action
    case Execute(_, _) => true
    case Approval(command, risk) => risk != Lexer.Critical && Lexer.Tokens(command) != []
    case _ => false
  }

  /** The analysis lets some command through without being critical. */
  ghost predicate SomethingRuns(analyze: Analyzer) {
    exists c :: c != "" && analyze(c).Some? && analyze(c).value.risk != Lexer.Critical
  }

  /** The pause is over, or can be lifted: by the bridge of the task, or by the end of one of its commands. */
  ghost predicate IsFree(a: Agent) {
    a.status != Paused || a.version in a.bridges
    || exists k :: 0 <= k < |a.flights| && a.flights[k].version == a.version && a.flights[k].leg != Over
  }

  /** The round that is open can come to a command that is not critical. An approval needs a free agent. */
  ghost predicate IsOpen(round: Option<Round>, version: nat, analyze: Analyzer, free: bool) {
    round.Some? && round.value.version == version &&
    match round.value.stage
    case Asking => SomethingRuns(analyze)
    case Routed(action) => CanStillSend(action) && (action.Execute? || free)
    case _ => false
  }

  ghost predicate NoneImporting(flights: seq<Flight>) {
    forall k :: 0 <= k < |flights| ==> flights[k].leg != Importing
  }

  /** What the pause does not reach: a command past the gate, or the open round. */
  ghost predicate IsUnderWay(a: Agent, analyze: Analyzer) {
    && a.connection.Some?
    && (!NoneImporting(a.flights) || (!a.disposed && IsOpen(a.round, a.version, analyze, IsFree(a))))
  }

  /** What is shown stays, and no pause begins. */
  predicate KeepsPause(a: Agent, b: Agent) {
    b.snapshot.store == a.snapshot.store && (b.status == Paused ==> a.status == Paused)
  }

  /** From `a` to `b` nothing came under way, and no pause began. */
  ghost predicate NothingNew(a: Agent, b: Agent, analyze: Analyzer) {
    && KeepsPause(a, b)
    && (IsUnderWay(b, analyze) ==> IsUnderWay(a, analyze))
  }

  lemma SameWork(a: Agent, b: Agent, analyze: Analyzer)
    requires KeepsPause(a, b)
    requires b.round.None? || (b.round == a.round && (IsFree(b) ==> IsFree(a)))
    requires NoneImporting(a.flights) ==> NoneImporting(b.flights)
    requires b.version == a.version && b.connection == a.connection && b.disposed == a.disposed
    ensures NothingNew(a, b, analyze)
  {
    hide NoneImporting, IsFree;
  }

  lemma ReplyIsNotNew(a: Agent, analyze: Analyzer, reply: Reply)
    ensures NothingNew(a, Replied(a, analyze, reply), analyze)
  {
    hide RoundThrew, NothingNew, Route;
    if a.round.None? || a.round.value.stage != Asking {
      SameWork(a, a, analyze);
    } else {
      var version := a.round.value.version;
      match reply
      case Thrown(aborted, retryable, early) => ThrewIsNotNew(a, analyze, version, aborted, retryable, early);
      case Parsed(response) =>
        ThrewIsNotNew(a, analyze, version, false, false, false);
        if Route(a, analyze, response).Some? {
          RoutedIsNotNew(a, analyze, response);
        }
    }
  }

  lemma ThrewIsNotNew(a: Agent, analyze: Analyzer, version: nat, aborted: bool, retryable: bool, early: bool)
    ensures NothingNew(a, RoundThrew(a, version, aborted, retryable, early), analyze)
  {
    hide NothingNew;
    SameWork(a, RoundThrew(a, version, aborted, retryable, early), analyze);
  }

  lemma RoutedIsNotNew(a: Agent, analyze: Analyzer, response: Option<Response>)
    requires a.round.Some? && a.round.value.stage == Asking && Route(a, analyze, response).Some?
    ensures var action := Route(a, analyze, response).value;
            NothingNew(a, a.(round := Some(Round(a.round.value.version, Routed(action)))), analyze)
  {
    if CanStillSend(Route(a, analyze, response).value) {
      RoutedNeedsCommand(a, analyze, response);
    }
    hide NoneImporting, SomethingRuns, Route, CanStillSend, IsFree;
  }

  lemma RoutedNeedsCommand(a: Agent, analyze: Analyzer, response: Option<Response>)
    requires Route(a, analyze, response).Some? && CanStillSend(Route(a, analyze, response).value)
    ensures SomethingRuns(analyze)
  {
    hide Lexer.Tokens;
    assert response.value.SaysExecute?;
    var c := response.value.command;
    assert c != "" && analyze(c).Some? && analyze(c).value.risk != Lexer.Critical;
  }

  /** Also a round that stops at a question, at an approval or for good leaves nothing new. */
  lemma TakenIsNotNew(a: Agent, analyze: Analyzer, version: nat, action: Action, cwd: Option<string>)
    requires a.round == Some(Round(version, Routed(action)))
    ensures NothingNew(a, ActionTaken(a, analyze, version, action, cwd), analyze)
  {
    hide NothingNew, Blocks, Shell.PrefixCwd;
    var b := ActionTaken(a, analyze, version, action, cwd);
    match action {
      case Execute(command, config) => ExecutedIsNotNew(a, analyze, version, command, config, cwd);
      case Approval(command, risk) => ApprovalIsNotNew(a, analyze, version, command, risk, cwd);
      case _ => SameWork(a, b, analyze);
    }
  }

  lemma ExecutedIsNotNew(a: Agent, analyze: Analyzer, version: nat, command: string, config: Config,
          cwd: Option<string>)
    ensures NothingNew(a, ActionTaken(a, analyze, version, Execute(command, config), cwd), analyze)
  {
    hide NothingNew, Blocks, Shell.PrefixCwd, NoneImporting;
    var b := ActionTaken(a, analyze, version, Execute(command, config), cwd);
    if b.round.None? {
      SameWork(a, b, analyze);
    } else {
      WaitingIsNotNew(a, b, analyze);
    }
  }

  lemma WaitingIsNotNew(a: Agent, b: Agent, analyze: Analyzer)
    requires b.round.Some? && b.round.value.stage.Waiting?
    requires b.snapshot == a.snapshot && b.status != Paused && b.flights == a.flights && b.connection == a.connection
    ensures NothingNew(a, b, analyze)
  {
    hide NoneImporting;
  }

  lemma ApprovalIsNotNew(a: Agent, analyze: Analyzer, version: nat, command: string, risk: Lexer.RiskLevel,
          cwd: Option<string>)
    requires a.round == Some(Round(version, Routed(Approval(command, risk))))
    ensures NothingNew(a, ActionTaken(a, analyze, version, Approval(command, risk), cwd), analyze)
  {
    hide NothingNew, Blocks, CommandStarted, Lexer.Tokens, Lexer.Key;
    var b := ActionTaken(a, analyze, version, Approval(command, risk), cwd);
    if IsCurrent(a, version) && a.status != Paused && !Blocks(a.snapshot.config, analyze, command)
       && Recall(a, command, risk) == Some(Lexer.Approved) {
      StartedSendsLater(a.(round := None, retries := 0), analyze, command, version);
      hide ActionTaken;
      assert CanStillSend(Approval(command, risk)) && IsFree(a);
      StillUnderWay(a, b, analyze);
    } else {
      SameWork(a, b, analyze);
    }
  }

  lemma StartedSendsLater(a: Agent, analyze: Analyzer, command: string, version: nat)
    requires IsCurrent(a, version) && !Blocks(a.snapshot.config, analyze, command)
    ensures var b := CommandStarted(a, analyze, command, version, Remembered);
            && b.snapshot == a.snapshot && b.status == Executing
            && b.connection == a.connection && |b.flights| > |a.flights|
  {
    hide Blocks;
  }

  lemma StillUnderWay(a: Agent, b: Agent, analyze: Analyzer)
    requires !a.disposed && IsOpen(a.round, a.version, analyze, IsFree(a))
    requires b.snapshot == a.snapshot && b.status != Paused && b.connection == a.connection
    ensures NothingNew(a, b, analyze)
  {
    hide NoneImporting, IsOpen;
  }

  lemma EndedIsNotNew(a: Agent, analyze: Analyzer, k: nat, end: End)
    ensures NothingNew(a, FlightEnded(a, k, end), analyze)
  {
    if k < |a.flights| {
      assert NoneImporting(a.flights) ==> NoneImporting(a.flights[k := a.flights[k].(leg := Over)]);
    }
    EndedWasFree(a, k, end);
    hide NothingNew, NoneImporting, IsFree;
    SameWork(a, FlightEnded(a, k, end), analyze);
  }

  lemma EndedWasFree(a: Agent, k: nat, end: End)
    ensures IsFree(FlightEnded(a, k, end)) ==> IsFree(a)
  {
    var b := FlightEnded(a, k, end);
    forall j | 0 <= j < |b.flights| && b.flights[j].version == b.version && b.flights[j].leg != Over
      ensures a.flights[j] == b.flights[j]
    {}
  }

  lemma ImportedIsNotNew(a: Agent, analyze: Analyzer, k: nat, cwd: Option<string>)
    ensures NothingNew(a, Imported(a, k, cwd), analyze)
  {
    hide IsOpen, Shell.PrefixCwd, FlightEnded;
    if k < |a.flights| && a.flights[k].leg == Importing && a.connection.None? {
      EndedIsNotNew(a, analyze, k, Fails(false));
    }
  }

  lemma SyncedWhilePaused(a: Agent, analyze: Analyzer, snapshot: Snapshot)
    requires snapshot.store == StorePaused && a.snapshot.store == StorePaused
    ensures var b := Synced(a, analyze, snapshot);
            && b.snapshot.store == StorePaused && b.connection == a.connection && b.version == a.version
            && b.disposed == a.disposed && b.round == a.round && b.flights == a.flights && b.bridges == a.bridges
            && (a.status == Paused ==> b.status == Paused)
  {
    var begun := a.(snapshot := snapshot);
    assert TaskSynced(begun) == begun && EndSynced(begun) == begun;
    hide TaskSynced, EndSynced;
    var paused := PauseSynced(begun, a.snapshot.store, IsActive(begun));
    assert paused == begun.(status := paused.status) && paused.status != AwaitingApproval
        && paused.status != AwaitingQuestion;
    hide PauseSynced, IsActive;
    QuietStages(paused, analyze, snapshot);
  }

  lemma QuietStages(a: Agent, analyze: Analyzer, snapshot: Snapshot)
    requires a.status != AwaitingApproval && a.status != AwaitingQuestion
    ensures var b := InputSynced(ApprovalSynced(a, analyze), snapshot);
            b == a.(seenResult := b.seenResult, seenInput := b.seenInput)
  {
    hide CommandStarted;
    var approved := ApprovalSynced(a, analyze);
    assert approved == a.(seenResult := approved.seenResult);
    hide ApprovalSynced;
  }

  lemma NextIsNotNew(a: Agent, analyze: Analyzer, event: Event)
    requires !event.Sync? && !event.Process?
    ensures NothingNew(a, Next(a, analyze, event), analyze)
  {
    hide NothingNew, Replied, ActionTaken, FlightEnded, Imported, Lexer.Tokens, Lexer.Key;
    SameWork(a, a, analyze);
    match event {
      case Reply(reply) => ReplyIsNotNew(a, analyze, reply);
      case TakeAction(cwd) =>
        if a.round.Some? && a.round.value.stage.Routed? {
          TakenIsNotNew(a, analyze, a.round.value.version, a.round.value.stage.action, cwd);
        }
      case EndFlight(flight, end) => EndedIsNotNew(a, analyze, flight, end);
      case Import(flight, cwd) => ImportedIsNotNew(a, analyze, flight, cwd);
      case Dispose => DisposedIsNotNew(a, analyze);
      case EndWait(end) => SameWork(a, WaitEnded(a, end), analyze);
      case StartBridge(version) => BridgeIsNotNew(a, analyze, version);
      case Choose(command, risk, decision) => SameWork(a, Chosen(a, command, risk, decision), analyze);
    }
  }

  lemma BridgeIsNotNew(a: Agent, analyze: Analyzer, version: nat)
    ensures NothingNew(a, BridgeUp(a, version), analyze)
  {
    hide NothingNew, NoneImporting;
    SameWork(a, BridgeUp(a, version), analyze);
  }

  lemma DisposedIsNotNew(a: Agent, analyze: Analyzer)
    ensures NothingNew(a, Disposed(a), analyze)
  {
    hide NoneImporting, IsOpen;
  }

  lemma NothingComesUnderWay(a: Agent, analyze: Analyzer, event: Event)
    requires ShowsPause(event) && a.snapshot.store == StorePaused && !IsUnderWay(a, analyze)
    ensures var b := Next(a, analyze, event);
            b.snapshot.store == StorePaused && !IsUnderWay(b, analyze) && b.dispatches == a.dispatches
  {
    UnderWayMaySend(a, analyze, event);
    SendsIff(a, analyze, event);
    hide IsUnderWay, Synced, Replied, Routes, FlightEnded, Imported, MaySend;
    match event {
      case Sync(snapshot) =>
        SyncedWhilePaused(a, analyze, snapshot);
        SameUnderWay(a, Synced(a, analyze, snapshot), analyze);
      case Process(outOfBudget) => assert Processed(a, outOfBudget) == a;
      case _ => NextIsNotNew(a, analyze, event);
    }
  }

  lemma SameUnderWay(a: Agent, b: Agent, analyze: Analyzer)
    requires b.connection == a.connection && b.version == a.version && b.disposed == a.disposed
    requires b.round == a.round && b.flights == a.flights && b.bridges == a.bridges
    requires a.status == Paused ==> b.status == Paused
    ensures IsUnderWay(b, analyze) ==> IsUnderWay(a, analyze)
  {}

  lemma UnderWayMaySend(a: Agent, analyze: Analyzer, event: Event)
    ensures MaySend(a, analyze, event) ==> IsUnderWay(a, analyze)
  {
    hide Blocks;
  }

  lemma {:induction false} NothingIsSent(a: Agent, analyze: Analyzer, events: seq<Event>)
    requires StaysPaused(events) && a.snapshot.store == StorePaused && !IsUnderWay(a, analyze)
    ensures After(a, analyze, events).dispatches == a.dispatches
    decreases |events|
  {
    hide Next, IsUnderWay, ShowsPause;
    if events == [] {
    } else {
      NothingComesUnderWay(a, analyze, events[0]);
      NothingIsSent(Next(a, analyze, events[0]), analyze, events[1..]);
    }
  }

  predicate PauseIsShown(a: Agent) {
    a.status == Paused ==> a.snapshot.store == StorePaused
  }

  /** A paused agent is paused in what it was shown last. */
  lemma {:induction false} AlwaysShown(a: Agent, analyze: Analyzer, events: seq<Event>)
    requires PauseIsShown(a)
    ensures PauseIsShown(After(a, analyze, events))
    decreases |events|
  {
    hide Next, PauseIsShown;
    if events == [] {
    } else {
      NextIsShown(a, analyze, events[0]);
      AlwaysShown(Next(a, analyze, events[0]), analyze, events[1..]);
    }
  }

  lemma NextIsShown(a: Agent, analyze: Analyzer, event: Event)
    requires PauseIsShown(a)
    ensures PauseIsShown(Next(a, analyze, event))
  {
    hide Synced, Replied, Routes, FlightEnded, Imported, IsUnderWay;
    match event {
      case Sync(snapshot) => SyncIsShown(a, analyze, snapshot);
      case Process(outOfBudget) => assert KeepsPause(a, Processed(a, outOfBudget));
      case _ => NextIsNotNew(a, analyze, event);
    }
  }

  lemma SyncIsShown(a: Agent, analyze: Analyzer, snapshot: Snapshot)
    requires PauseIsShown(a)
    ensures PauseIsShown(Synced(a, analyze, snapshot))
  {
    var begun := TaskSynced(a.(snapshot := snapshot));
    assert begun.snapshot == snapshot && (begun.status == Paused ==> a.status == Paused);
    hide TaskSynced;
    var paused := PauseSynced(EndSynced(begun), a.snapshot.store, IsActive(begun));
    assert PauseIsShown(paused);
    hide EndSynced, PauseSynced, IsActive;
    ApprovalKeepsShown(paused, analyze);
    var approved := ApprovalSynced(paused, analyze);
    hide ApprovalSynced;
    assert PauseIsShown(InputSynced(approved, snapshot));
  }

  lemma ApprovalKeepsShown(a: Agent, analyze: Analyzer)
    requires PauseIsShown(a)
    ensures PauseIsShown(ApprovalSynced(a, analyze))
  {
    hide Blocks;
  }

  // ----- A pause that is not kept -----

  /** What the store shows while it is paused, with the settings that let most through. */
  function OpenSnapshot(snapshot: Snapshot): Snapshot {
    snapshot.(store := StorePaused, config := Config(false, false, false), pendingApproval := None,
              approvalResult := None, input := "")
  }

  lemma AfterCons(a: Agent, analyze: Analyzer, event: Event, events: seq<Event>)
    ensures After(a, analyze, [event] + events) == After(Next(a, analyze, event), analyze, events)
  {
    hide Next;
    assert ([event] + events)[1..] == events;
  }

  lemma StaysPausedCons(event: Event, events: seq<Event>)
    requires ShowsPause(event) && StaysPaused(events)
    ensures StaysPaused([event] + events)
  {
    hide ShowsPause;
  }

  /** One turn sends; the turns before it did not take anything back. */
  lemma FlightStillSends(a: Agent, analyze: Analyzer, k: nat) returns (events: seq<Event>)
    requires a.connection.Some? && k < |a.flights| && a.flights[k].leg == Importing
    ensures StaysPaused(events) && |After(a, analyze, events).dispatches| > |a.dispatches|
  {
    var event := Import(k, None);
    SendsIff(a, analyze, event);
    events := [event];
    hide Next;
    assert events[1..] == [];
  }

  lemma OpenedWhilePaused(a: Agent, analyze: Analyzer)
    requires a.status == Paused && a.snapshot.store == StorePaused && !a.disposed
    ensures var b := Synced(a, analyze, OpenSnapshot(a.snapshot));
            && b.snapshot == OpenSnapshot(a.snapshot) && b.status == Paused && b.version == a.version
            && !b.disposed && b.connection == a.connection && b.round == a.round && b.flights == a.flights
            && b.dispatches == a.dispatches && b.decisions == a.decisions && b.bridges == a.bridges
  {
    var snapshot := OpenSnapshot(a.snapshot);
    var begun := a.(snapshot := snapshot);
    assert TaskSynced(begun) == begun && EndSynced(begun) == begun;
    hide TaskSynced, EndSynced;
    assert PauseSynced(begun, a.snapshot.store, IsActive(begun)) == begun;
    hide PauseSynced, IsActive;
    QuietStages(begun, analyze, snapshot);
  }

  /** The gate is open, and the agent paused. */
  ghost predicate IsLax(a: Agent) {
    && a.status == Paused && !a.disposed && a.connection.Some? && a.round.Some? && a.round.value.version == a.version
    && a.snapshot.config == Config(false, false, false)
  }

  lemma ExecuteStillSends(a: Agent, analyze: Analyzer) returns (events: seq<Event>)
    requires IsLax(a) && a.round.value.stage.Routed? && a.round.value.stage.action.Execute?
    ensures StaysPaused(events) && |After(a, analyze, events).dispatches| > |a.dispatches|
  {
    var event := TakeAction(None);
    SendsIff(a, analyze, event);
    events := [event];
    hide Next;
    assert events[1..] == [];
  }

  lemma AskingStillSends(a: Agent, analyze: Analyzer) returns (events: seq<Event>)
    requires IsLax(a) && a.round.value.stage == Asking && SomethingRuns(analyze)
    ensures StaysPaused(events) && |After(a, analyze, events).dispatches| > |a.dispatches|
  {
    var c :| c != "" && analyze(c).Some? && analyze(c).value.risk != Lexer.Critical;
    var event := Reply(Parsed(Some(SaysExecute(c, false))));
    var b := a.(round := Some(Round(a.version, Routed(Execute(c, a.snapshot.config)))));
    assert Next(a, analyze, event) == b;
    hide Next;
    var later := ExecuteStillSends(b, analyze);
    events := [event] + later;
    AfterCons(a, analyze, event, later);
    StaysPausedCons(event, later);
  }

  /** What lifts the pause, and nothing else. */
  lemma PauseIsLifted(a: Agent, analyze: Analyzer) returns (lift: Event)
    requires IsLax(a) && IsFree(a) && a.round.value.stage.Routed?
    ensures ShowsPause(lift)
    ensures var b := Next(a, analyze, lift);
            && b.status == Idle && b.version == a.version && !b.disposed && b.connection == a.connection
            && b.snapshot == a.snapshot && b.round == a.round && b.decisions == a.decisions
            && b.dispatches == a.dispatches
  {
    if a.version in a.bridges {
      lift := StartBridge(a.version);
    } else {
      var k :| 0 <= k < |a.flights| && a.flights[k].version == a.version && a.flights[k].leg != Over;
      lift := EndFlight(k, Succeeds);
    }
  }

  /** The user lets the command be remembered, and the pause is lifted. */
  lemma ApprovalStillSends(a: Agent, analyze: Analyzer, command: string, risk: Lexer.RiskLevel)
    returns (events: seq<Event>)
    requires IsLax(a) && IsFree(a) && a.round.value.stage == Routed(Approval(command, risk))
    requires CanStillSend(Approval(command, risk))
    ensures StaysPaused(events) && |After(a, analyze, events).dispatches| > |a.dispatches|
  {
    hide Lexer.Tokens, Lexer.Key, Next, After, IsFree;
    var choose, take := Choose(command, risk, Lexer.Approved), TakeAction(None);
    var b := Chosen(a, command, risk, Lexer.Approved);
    ChosenFirst(a, analyze, command, risk);
    var lift := PauseIsLifted(b, analyze);
    var c := Next(b, analyze, lift);
    var d := Next(c, analyze, take);
    RememberedStarts(c, analyze, command, risk);
    var later := FlightStillSends(d, analyze, |c.flights|);
    AfterCons(c, analyze, take, later);
    AfterCons(b, analyze, lift, [take] + later);
    AfterCons(a, analyze, choose, [lift] + ([take] + later));
    StaysPausedCons(take, later);
    StaysPausedCons(lift, [take] + later);
    StaysPausedCons(choose, [lift] + ([take] + later));
    events := [choose] + ([lift] + ([take] + later));
  }

  lemma ChosenFirst(a: Agent, analyze: Analyzer, command: string, risk: Lexer.RiskLevel)
    requires IsLax(a) && IsFree(a) && CanStillSend(Approval(command, risk))
    ensures var b := Chosen(a, command, risk, Lexer.Approved);
            && Next(a, analyze, Choose(command, risk, Lexer.Approved)) == b && IsLax(b) && IsFree(b)
            && b == a.(decisions := a.decisions[Lexer.Key(command) := Lexer.Approved], remembered := b.remembered)
  {
    hide Lexer.Tokens, Lexer.Key;
  }

  lemma RememberedStarts(a: Agent, analyze: Analyzer, command: string, risk: Lexer.RiskLevel)
    requires a.status == Idle && !a.disposed && !a.snapshot.config.readOnly && CanStillSend(Approval(command, risk))
    requires a.round == Some(Round(a.version, Routed(Approval(command, risk))))
    requires Lexer.Key(command) in a.decisions && a.decisions[Lexer.Key(command)] == Lexer.Approved
    ensures var b := Next(a, analyze, TakeAction(None));
            && b.connection == a.connection && b.dispatches == a.dispatches
            && |b.flights| == |a.flights| + 1 && b.flights[|a.flights|].leg == Importing
  {
    hide Lexer.Tokens, Lexer.Key, Shell.PrefixCwd;
    var action := Approval(command, risk);
    assert Next(a, analyze, TakeAction(None)) == ActionTaken(a, analyze, a.version, action, None);
    assert Recall(a, command, risk) == Some(Lexer.Approved);
    assert !Blocks(a.snapshot.config, analyze, command);
    hide Next, Recall, Blocks;
    var settled := a.(round := None, retries := 0);
    StartedSendsLater(settled, analyze, command, a.version);
  }

  /** A way for a paused agent to send what is under way. */
  lemma StillSends(a: Agent, analyze: Analyzer) returns (events: seq<Event>)
    requires a.status == Paused && a.snapshot.store == StorePaused && IsUnderWay(a, analyze)
    ensures StaysPaused(events) && |After(a, analyze, events).dispatches| > |a.dispatches|
  {
    hide After, Next, StaysPaused, SomethingRuns, CanStillSend;
    if k :| 0 <= k < |a.flights| && a.flights[k].leg == Importing {
      events := FlightStillSends(a, analyze, k);
    } else {
      OpenedWhilePaused(a, analyze);
      var b := Synced(a, analyze, OpenSnapshot(a.snapshot));
      var event := Sync(OpenSnapshot(a.snapshot));
      hide Synced;
      var later := OpenRoundStillSends(b, analyze);
      NextOfSync(a, analyze, OpenSnapshot(a.snapshot));
      AfterCons(a, analyze, event, later);
      StaysPausedCons(event, later);
      events := [event] + later;
    }
  }

  lemma NextOfSync(a: Agent, analyze: Analyzer, snapshot: Snapshot)
    ensures Next(a, analyze, Sync(snapshot)) == Synced(a, analyze, snapshot)
  {}

  lemma OpenRoundStillSends(a: Agent, analyze: Analyzer) returns (events: seq<Event>)
    requires IsLax(a) && IsOpen(a.round, a.version, analyze, IsFree(a))
    ensures StaysPaused(events) && |After(a, analyze, events).dispatches| > |a.dispatches|
  {
    hide After, StaysPaused, SomethingRuns;
    match a.round.value.stage
    case Asking => events := AskingStillSends(a, analyze);
    case Routed(action) =>
      match action
      case Execute(_, _) => events := ExecuteStillSends(a, analyze);
      case Approval(command, risk) => events := ApprovalStillSends(a, analyze, command, risk);
  }

  /**
    In every run: once the agent is paused, nothing is sent before the user goes on, whatever else
    happens, exactly if no command is past the gate and the open round can come to none. A round at a
    question for approval can only when the task's bridge or a command of the task can still lift the pause.
   */
  lemma PauseHoldsIff(analyze: Analyzer, snapshot: Snapshot, before: seq<Event>)
    ensures var a := After(Start(snapshot), analyze, before);
            a.status == Paused ==>
              ((forall events :: StaysPaused(events) ==> After(a, analyze, events).dispatches == a.dispatches) <==>
                !IsUnderWay(a, analyze))
  {
    hide StaysPaused, IsUnderWay, Next;
    assert PauseIsShown(Start(snapshot));
    AlwaysShown(Start(snapshot), analyze, before);
    var a := After(Start(snapshot), analyze, before);
    hide After;
    if a.status == Paused {
      if IsUnderWay(a, analyze) {
        var events := StillSends(a, analyze);
      } else {
        forall events | StaysPaused(events) ensures After(a, analyze, events).dispatches == a.dispatches {
          NothingIsSent(a, analyze, events);
        }
      }
    }
  }

  function PausedSnapshot(snapshot: Snapshot): Snapshot {
    snapshot.(store := StorePaused, pendingApproval := None, approvalResult := None, input := "")
  }

  /** A pause that falls between the gate and the sending is lost: the command is sent, and the loop goes on. */
  lemma PauseIsLost(a: Agent, analyze: Analyzer, k: nat, cwd: Option<string>)
    requires k < |a.flights| && a.flights[k].leg == Importing && a.connection.Some?
    requires a.status == Executing && IsCurrent(a, a.flights[k].version)
    ensures var paused := Synced(a, analyze, PausedSnapshot(a.snapshot));
            && paused.status == Paused
            && |Imported(paused, k, cwd).dispatches| == |a.dispatches| + 1
            && FlightEnded(Imported(paused, k, cwd), k, Succeeds).status == Idle
  {}

  /** A paused round whose action was already chosen still sends its command. */
  lemma PausedRoundStillSends(a: Agent, analyze: Analyzer, version: nat, command: string, config: Config,
          cwd: Option<string>)
    requires a.status == Paused && a.round == Some(Round(version, Routed(Execute(command, config))))
    requires IsCurrent(a, version) && !Blocks(a.snapshot.config, analyze, command) && a.connection.Some?
    ensures |Routes(a, analyze, cwd).dispatches| == |a.dispatches| + 1 && Routes(a, analyze, cwd).status == Executing
  {}

  /** A task begun between the gate and the sending gets the command of the one before, on its own connection. */
  lemma CommandGoesToTheNewTask(a: Agent, analyze: Analyzer, k: nat, snapshot: Snapshot, cwd: Option<string>)
    requires k < |a.flights| && a.flights[k].leg == Importing && !a.disposed
    requires snapshot.store == StoreThinking && snapshot.task.Some? && snapshot.task != a.initialized
    requires snapshot.connection.Some? && snapshot.approvalResult.None? && snapshot.input == ""
    ensures var after := Imported(Synced(a, analyze, snapshot), k, cwd);
            && |after.dispatches| == |a.dispatches| + 1
            && after.dispatches[|a.dispatches|].connection == snapshot.connection.value
            && after.dispatches[|a.dispatches|].command == a.flights[k].command
  {
    var begun := TaskSynced(a.(snapshot := snapshot));
    assert begun == TaskBegun(a.(snapshot := snapshot), snapshot.task.value, snapshot.connection);
    assert EndSynced(begun) == begun && PauseSynced(begun, a.snapshot.store, true) == begun;
    hide TaskSynced, EndSynced, TaskBegun;
  }
}
