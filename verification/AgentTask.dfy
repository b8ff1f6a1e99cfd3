/**
  A whole task of the agent, from its beginning to its end, when nobody disturbs it: what the turns of
  the machine come to. A ledger of a few numbers and lists says what a task does; the runtime does
  exactly that, through all its turns, synchronisations and continuations.
 */
module AgentTask {
  import opened Text
  import opened AgentLoop
  import Lexer = ShellLexer
  import Shell = Segments

  /** What the user answers when asked about a command. */
  datatype Verdict = Approve | ApproveForGood | Reject

  /** What one round comes to: what the model says, and how the user and the shell respond. */
  datatype Move =
    | Command(command: string, cwd: Option<string>, verdict: Verdict, end: End)
    | Repeat(command: string)
    | Question(answer: string, shown: StoreState)
    | Unreadable
    | Fault(early: bool)

  /** States of the store in which the task goes on. */
  predicate IsQuiet(store: StoreState) {
    store in {StoreIdle, StoreThinking, StoreExecuting, StoreObserving}
  }

  /** No command is interrupted, and a question is answered with some text while the task goes on. */
  predicate IsPlain(move: Move) {
    (move.Command? ==> move.end != Aborted) && (move.Question? ==> move.answer != "" && IsQuiet(move.shown))
  }

  predicate IsMisstep(move: Move) {
    move.Unreadable? || move.Fault?
  }

  // ----- The ledger -----

  /**
    The commands sent, the approvals the user gave, the commands approved for good (by their tokens),
    the commands the user was asked about, the rounds, the missteps in a row, the commands sent outside
    a round, and whether the task goes on.
   */
  datatype Ledger = Ledger(
    sent: seq<Dispatch>, approvals: seq<string>, known: set<seq<string>>, asked: seq<string>, rounds: nat,
    missteps: nat, flights: nat, alive: bool)

  /** What stands fixed during the task. */
  datatype Terms = Terms(analyze: Analyzer, base: Snapshot, connection: string)

  predicate IsRead(terms: Terms, command: string) {
    command != "" && terms.analyze(command).Some?
  }

  function RiskOf(terms: Terms, command: string): Lexer.RiskLevel
    requires IsRead(terms, command)
  {
    terms.analyze(command).value.risk
  }

  predicate IsRefused(terms: Terms, command: string) {
    Blocks(terms.base.config, terms.analyze, command)
  }

  predicate NeedsUser(terms: Terms, command: string)
    requires IsRead(terms, command)
  {
    NeedsApproval(terms.base.config, RiskOf(terms, command))
  }

  predicate IsKnown(terms: Terms, known: set<seq<string>>, command: string)
    requires IsRead(terms, command)
  {
    RiskOf(terms, command) != Lexer.Critical && Lexer.Tokens(command) in known
  }

  function WithSent(l: Ledger, terms: Terms, move: Move, why: Why): Ledger
    requires move.Command?
  {
    var text := Shell.PrefixCwd(move.command, move.cwd);
    l.(sent := l.sent + [Dispatch(move.command, text, terms.connection, why, terms.base.config)],
       flights := if why.Below? then l.flights else l.flights + 1, alive := move.end != Fails(false))
  }

  function Approved(l: Ledger, terms: Terms, move: Move): Ledger
    requires move.Command? && IsRead(terms, move.command)
  {
    var forGood := move.verdict == ApproveForGood && RiskOf(terms, move.command) != Lexer.Critical
                   && Lexer.Tokens(move.command) != [];
    var given := l.(approvals := l.approvals + [move.command],
                    known := if forGood then l.known + {Lexer.Tokens(move.command)} else l.known);
    WithSent(given, terms, move, AgentLoop.Approved(|l.approvals|))
  }

  function Commanded(l: Ledger, terms: Terms, move: Move): Ledger
    requires move.Command?
  {
    if !IsRead(terms, move.command) then l.(alive := false)
    else if IsRefused(terms, move.command) then l
    else if !NeedsUser(terms, move.command) then WithSent(l, terms, move, Below(terms.base.config))
    else if IsKnown(terms, l.known, move.command) then WithSent(l, terms, move, Remembered)
    else
      var asked := l.(asked := l.asked + [move.command]);
      if move.verdict == Reject then asked.(alive := false) else Approved(asked, terms, move)
  }

  /** One round in the ledger. */
  function Entered(l: Ledger, terms: Terms, move: Move): Ledger {
    if !l.alive then l
    else if l.rounds >= MAX_AGENT_ROUNDS then l.(alive := false)
    else if IsMisstep(move) then
      l.(rounds := l.rounds + 1, missteps := l.missteps + 1, alive := l.missteps < MAX_AGENT_RETRIES)
    else
      var counted := l.(rounds := l.rounds + 1, missteps := 0);
      match move
      case Command(_, _, _, _) => Commanded(counted, terms, move)
      case Repeat(_) => counted.(alive := false)
      case _ => counted
  }

  function Book(l: Ledger, terms: Terms, moves: seq<Move>): Ledger
    decreases |moves|
  {
    if moves == [] then l else Book(Entered(l, terms, moves[0]), terms, moves[1..])
  }

  // ----- The events behind a round -----

  function Decide(response: Option<Response>, cwd: Option<string>): seq<Event> {
    [Process(false), Event.Reply(Parsed(response)), TakeAction(cwd)]
  }

  /** The card is shown, the user may choose to remember the decision, and decides. */
  function Card(terms: Terms, command: string, verdict: Verdict): seq<Event>
    requires IsRead(terms, command)
  {
    var risk := RiskOf(terms, command);
    var shown := terms.base.(pendingApproval := Some(Pending(command, risk)));
    var decision := if verdict == Reject then Lexer.Rejected else Lexer.Approved;
    [Sync(shown)] + (if verdict == ApproveForGood then [Choose(command, risk, Lexer.Approved)] else [])
    + [Sync(shown.(approvalResult := Some(decision)))]
  }

  /** What follows the decision of the model for a command. */
  function Carried(l: Ledger, terms: Terms, move: Move): seq<Event>
    requires move.Command?
  {
    if !IsRead(terms, move.command) || IsRefused(terms, move.command) then []
    else if !NeedsUser(terms, move.command) then [EndWait(move.end)]
    else (if IsKnown(terms, l.known, move.command) then [] else Card(terms, move.command, move.verdict))
         + [Import(l.flights, move.cwd), EndFlight(l.flights, move.end)]
  }

  function EventsOf(l: Ledger, terms: Terms, move: Move): seq<Event> {
    if !l.alive then []
    else if l.rounds >= MAX_AGENT_ROUNDS then [Process(false)]
    else
      match move
      case Command(command, cwd, _, _) => Decide(Some(SaysExecute(command, false)), cwd) + Carried(l, terms, move)
      case Repeat(command) => Decide(Some(SaysExecute(command, true)), None)
      case Question(answer, shown) =>
        var asked := terms.base.(store := shown, question := true);
        Decide(Some(SaysAsk), None) + [Sync(asked), Sync(asked.(input := answer))]
      case Unreadable => Decide(None, None)
      case Fault(early) => [Process(false), Event.Reply(Thrown(false, true, early))]
  }

  function Story(l: Ledger, terms: Terms, moves: seq<Move>): seq<Event>
    decreases |moves|
  {
    if moves == [] then [] else EventsOf(l, terms, moves[0]) + Story(Entered(l, terms, moves[0]), terms, moves[1..])
  }

  // ----- The runtime between two rounds -----

  /** Exactly the commands with these tokens are approved for good. */
  ghost predicate Remembers(decisions: map<string, Lexer.Decision>, known: set<seq<string>>) {
    forall command: string :: Lexer.Tokens(command) != [] ==>
      (Lexer.Tokens(command) in known <==>
       Lexer.Key(command) in decisions && decisions[Lexer.Key(command)] == Lexer.Approved)
  }

  predicate IsBase(terms: Terms) {
    var base := terms.base;
    && base.store == StoreThinking && base.task.Some? && base.connection == Some(terms.connection)
    && base.pendingApproval.None? && base.approvalResult.None? && !base.question && base.input == ""
  }

  /** The task is at work: the runtime has its task, connection and counters. */
  predicate IsOn(a: Agent, terms: Terms, l: Ledger) {
    && !a.disposed && a.initialized == terms.base.task && a.connection == terms.base.connection
    && a.snapshot == terms.base && a.rounds == l.rounds && a.seenResult == None && a.seenInput == None
    && |a.flights| == l.flights && a.approvals == l.approvals && a.dispatches == l.sent
  }

  ghost predicate IsReady(a: Agent, terms: Terms, l: Ledger) {
    && IsOn(a, terms, l) && a.status == Idle && a.round == None && a.retries == l.missteps
    && Remembers(a.decisions, l.known) && [] !in l.known
  }

  /** The runtime is where the ledger is. */
  ghost predicate Agrees(a: Agent, terms: Terms, l: Ledger) {
    if l.alive then IsReady(a, terms, l) else a.status == Failed && a.dispatches == l.sent
  }

  lemma {:induction false} AfterJoined(a: Agent, analyze: Analyzer, first: seq<Event>, second: seq<Event>)
    ensures After(a, analyze, first + second) == After(After(a, analyze, first), analyze, second)
    decreases |first|
  {
    hide Next;
    if first == [] {
      assert first + second == second;
    } else {
      assert (first + second)[1..] == first[1..] + second;
      AfterJoined(Next(a, analyze, first[0]), analyze, first[1..], second);
    }
  }

  lemma AfterOne(a: Agent, analyze: Analyzer, event: Event)
    ensures After(a, analyze, [event]) == Next(a, analyze, event)
  {
    hide Next;
    assert [event][1..] == [];
  }

  lemma AfterTwo(a: Agent, analyze: Analyzer, x: Event, y: Event)
    ensures After(a, analyze, [x, y]) == Next(Next(a, analyze, x), analyze, y)
  {
    hide Next;
    AfterJoined(a, analyze, [x], [y]);
    AfterOne(a, analyze, x);
    AfterOne(Next(a, analyze, x), analyze, y);
    assert [x] + [y] == [x, y];
  }

  lemma AfterThree(a: Agent, analyze: Analyzer, x: Event, y: Event, z: Event)
    ensures After(a, analyze, [x, y, z]) == Next(Next(Next(a, analyze, x), analyze, y), analyze, z)
  {
    hide Next;
    AfterJoined(a, analyze, [x], [y, z]);
    AfterOne(a, analyze, x);
    AfterTwo(Next(a, analyze, x), analyze, y, z);
    assert [x] + [y, z] == [x, y, z];
  }

  // ----- One round -----

  function Began(a: Agent, stage: Stage): Agent {
    a.(status := Thinking, rounds := a.rounds + 1, round := Some(Round(a.version, stage)),
       starts := a.starts[a.version := a.rounds + 1])
  }

  lemma RoundBegins(a: Agent, terms: Terms, l: Ledger)
    requires IsReady(a, terms, l) && IsBase(terms)
    ensures l.rounds < MAX_AGENT_ROUNDS ==> Next(a, terms.analyze, Process(false)) == Began(a, Asking)
    ensures l.rounds >= MAX_AGENT_ROUNDS ==> Next(a, terms.analyze, Process(false)) == a.(status := Failed)
  {}

  /** The round with its action, before the action is taken. */
  lemma Decided(a: Agent, terms: Terms, l: Ledger, response: Option<Response>, cwd: Option<string>)
    requires IsReady(a, terms, l) && IsBase(terms) && l.rounds < MAX_AGENT_ROUNDS
    requires Route(a, terms.analyze, response).Some?
    ensures After(a, terms.analyze, Decide(response, cwd)) ==
            Next(Began(a, Routed(Route(a, terms.analyze, response).value)), terms.analyze, TakeAction(cwd))
  {
    hide Routes;
    AfterThree(a, terms.analyze, Process(false), Event.Reply(Parsed(response)), TakeAction(cwd));
    RoundBegins(a, terms, l);
    var began := Began(a, Asking);
    assert Route(began, terms.analyze, response) == Route(a, terms.analyze, response);
    assert Next(began, terms.analyze, Event.Reply(Parsed(response))) ==
           Began(a, Routed(Route(a, terms.analyze, response).value));
  }

  lemma MisstepAgrees(a: Agent, terms: Terms, l: Ledger, move: Move)
    requires IsReady(a, terms, l) && IsBase(terms) && l.alive && l.rounds < MAX_AGENT_ROUNDS && IsMisstep(move)
    ensures Agrees(After(a, terms.analyze, EventsOf(l, terms, move)), terms, Entered(l, terms, move))
  {
    hide Remembers;
    match move {
      case Unreadable => Decided(a, terms, l, None, None);
      case Fault(early) =>
        AfterTwo(a, terms.analyze, Process(false), Event.Reply(Thrown(false, true, early)));
        RoundBegins(a, terms, l);
    }
  }

  lemma RepeatAgrees(a: Agent, terms: Terms, l: Ledger, command: string)
    requires IsReady(a, terms, l) && IsBase(terms) && l.alive && l.rounds < MAX_AGENT_ROUNDS
    ensures Agrees(After(a, terms.analyze, EventsOf(l, terms, Repeat(command))), terms,
                   Entered(l, terms, Repeat(command)))
  {
    hide Remembers;
    Decided(a, terms, l, Some(SaysExecute(command, true)), None);
  }

  /** A snapshot of the same task in which nothing is decided or answered only becomes the shown one. */
  lemma QuietSync(a: Agent, analyze: Analyzer, snapshot: Snapshot)
    requires !a.disposed && IsQuiet(a.snapshot.store) && a.seenResult == None && a.seenInput == None
    requires IsQuiet(snapshot.store) && snapshot.task == a.initialized
    requires snapshot.approvalResult.None? && snapshot.input == ""
    ensures Next(a, analyze, Sync(snapshot)) == a.(snapshot := snapshot)
  {
    hide ApprovalApplied, AnswerApplied, TaskBegun;
  }

  lemma AnswerSync(a: Agent, analyze: Analyzer, snapshot: Snapshot)
    requires !a.disposed && IsQuiet(a.snapshot.store) && a.seenResult == None && a.seenInput == None
    requires a.status == AwaitingQuestion
    requires IsQuiet(snapshot.store) && snapshot.task == a.initialized
    requires snapshot.approvalResult.None? && snapshot.question && snapshot.input != ""
    ensures Next(a, analyze, Sync(snapshot)) ==
            a.(status := Idle, snapshot := snapshot.(store := StoreThinking, question := false, input := ""))
  {
    hide ApprovalApplied, TaskBegun;
  }

  lemma Asked(a: Agent, terms: Terms, l: Ledger)
    requires IsReady(a, terms, l) && IsBase(terms) && l.rounds < MAX_AGENT_ROUNDS
    ensures After(a, terms.analyze, Decide(Some(SaysAsk), None)) ==
            Began(a, Asking).(round := None, retries := 0, status := AwaitingQuestion)
  {
    hide Remembers;
    Decided(a, terms, l, Some(SaysAsk), None);
  }

  lemma QuestionAgrees(a: Agent, terms: Terms, l: Ledger, answer: string, store: StoreState)
    requires IsReady(a, terms, l) && IsBase(terms) && l.alive && l.rounds < MAX_AGENT_ROUNDS
    requires answer != "" && IsQuiet(store)
    ensures Agrees(After(a, terms.analyze, EventsOf(l, terms, Question(answer, store))), terms,
                   Entered(l, terms, Question(answer, store)))
  {
    hide Remembers, Next, After;
    var analyze := terms.analyze;
    var asked := terms.base.(store := store, question := true);
    var answered := asked.(input := answer);
    Asked(a, terms, l);
    AfterJoined(a, analyze, Decide(Some(SaysAsk), None), [Sync(asked), Sync(answered)]);
    var waiting := Began(a, Asking).(round := None, retries := 0, status := AwaitingQuestion);
    AfterTwo(waiting, analyze, Sync(asked), Sync(answered));
    QuietSync(waiting, analyze, asked);
    AnswerSync(waiting.(snapshot := asked), analyze, answered);
    assert answered.(store := StoreThinking, question := false, input := "") == terms.base;
  }

  // ----- A round with a command -----

  /** The state of a task whose command is sent, or will be, outside the round or in it. */
  function Settled(a: Agent): Agent {
    Began(a, Asking).(round := None, retries := 0)
  }

  lemma RoutedTo(a: Agent, terms: Terms, l: Ledger, command: string)
    requires IsReady(a, terms, l) && IsRead(terms, command)
    ensures Route(a, terms.analyze, Some(SaysExecute(command, false))) ==
            Some(if NeedsUser(terms, command) then Approval(command, RiskOf(terms, command))
                 else Execute(command, terms.base.config))
  {
    hide Remembers;
  }

  /** A command the model may not run, or that cannot be analysed. */
  lemma UnsentAgrees(a: Agent, terms: Terms, l: Ledger, move: Move)
    requires IsReady(a, terms, l) && IsBase(terms) && l.alive && l.rounds < MAX_AGENT_ROUNDS && move.Command?
    requires !IsRead(terms, move.command) || IsRefused(terms, move.command)
    ensures Agrees(After(a, terms.analyze, EventsOf(l, terms, move)), terms, Entered(l, terms, move))
  {
    hide Remembers, Recall;
    var response := Some(SaysExecute(move.command, false));
    var decide := Decide(response, move.cwd);
    assert decide + [] == decide;
    if IsRead(terms, move.command) {
      RoutedTo(a, terms, l, move.command);
      Decided(a, terms, l, response, move.cwd);
    } else if move.command == "" {
      Decided(a, terms, l, response, move.cwd);
    } else {
      Unanalysed(a, terms, l, move.command, move.cwd);
    }
  }

  lemma Unanalysed(a: Agent, terms: Terms, l: Ledger, command: string, cwd: Option<string>)
    requires IsReady(a, terms, l) && IsBase(terms) && l.rounds < MAX_AGENT_ROUNDS
    requires command != "" && terms.analyze(command).None?
    ensures After(a, terms.analyze, Decide(Some(SaysExecute(command, false)), cwd)) ==
            Began(a, Asking).(round := None, status := Failed)
  {
    hide Remembers;
    var response := Some(SaysExecute(command, false));
    AfterThree(a, terms.analyze, Process(false), Event.Reply(Parsed(response)), TakeAction(cwd));
    RoundBegins(a, terms, l);
    assert Next(Began(a, Asking), terms.analyze, Event.Reply(Parsed(response))) ==
           Began(a, Asking).(round := None, status := Failed);
  }

  /** A command that needs nobody's approval is sent in the turn that takes the action. */
  lemma SentAtOnce(a: Agent, terms: Terms, l: Ledger, command: string, cwd: Option<string>)
    requires IsReady(a, terms, l) && IsBase(terms) && l.rounds < MAX_AGENT_ROUNDS && IsRead(terms, command)
    requires !IsRefused(terms, command) && !NeedsUser(terms, command)
    ensures var d := Dispatch(command, Shell.PrefixCwd(command, cwd), terms.connection, Below(terms.base.config),
                              terms.base.config);
            After(a, terms.analyze, Decide(Some(SaysExecute(command, false)), cwd)) ==
            Began(a, Waiting(command)).(status := Executing, dispatches := a.dispatches + [d])
  {
    hide Remembers, Shell.PrefixCwd;
    RoutedTo(a, terms, l, command);
    Decided(a, terms, l, Some(SaysExecute(command, false)), cwd);
  }

  lemma SentAtOnceAgrees(a: Agent, terms: Terms, l: Ledger, move: Move)
    requires IsReady(a, terms, l) && IsBase(terms) && l.alive && l.rounds < MAX_AGENT_ROUNDS
    requires move.Command? && IsPlain(move) && IsRead(terms, move.command)
    requires !IsRefused(terms, move.command) && !NeedsUser(terms, move.command)
    ensures Agrees(After(a, terms.analyze, EventsOf(l, terms, move)), terms, Entered(l, terms, move))
  {
    hide Remembers, Shell.PrefixCwd, After;
    var decide := Decide(Some(SaysExecute(move.command, false)), move.cwd);
    AfterJoined(a, terms.analyze, decide, [EndWait(move.end)]);
    SentAtOnce(a, terms, l, move.command, move.cwd);
    AfterOne(After(a, terms.analyze, decide), terms.analyze, EndWait(move.end));
  }

  // ----- A command that is approved -----

  function Flying(command: string, version: nat, terms: Terms, why: Why): Flight {
    Flight(command, version, Some(terms.connection), why, terms.base.config, Importing)
  }

  /** A flight on its way, with the runtime waiting for it. */
  function InFlight(a: Agent, command: string, terms: Terms, why: Why, round: Option<Round>): Agent {
    a.(status := Executing, flights := a.flights + [Flying(command, a.version, terms, why)], round := round)
  }

  /** The flight is sent and ends. */
  lemma FlightLands(b: Agent, terms: Terms, l: Ledger, move: Move, why: Why, round: Option<Round>)
    requires IsOn(b, terms, l) && IsBase(terms) && b.retries == 0 && l.missteps == 0 && move.Command?
    requires Remembers(b.decisions, l.known) && [] !in l.known && IsPlain(move) && !why.Below?
    requires round == None || round == Some(Round(b.version, Following(|b.flights|)))
    ensures Agrees(After(InFlight(b, move.command, terms, why, round), terms.analyze,
                         [Import(l.flights, move.cwd), EndFlight(l.flights, move.end)]),
                   terms, WithSent(l, terms, move, why))
  {
    hide Remembers, Shell.PrefixCwd;
    var k := l.flights;
    var flying := InFlight(b, move.command, terms, why, round);
    AfterTwo(flying, terms.analyze, Import(k, move.cwd), EndFlight(k, move.end));
    var sent := Next(flying, terms.analyze, Import(k, move.cwd));
    assert sent.flights[k].leg == Sent && |sent.flights| == k + 1 && sent.round == round;
    assert sent.dispatches == WithSent(l, terms, move, why).sent;
  }

  lemma RecallsIffKnown(a: Agent, terms: Terms, l: Ledger, command: string)
    requires IsReady(a, terms, l) && IsRead(terms, command)
    ensures Recall(a, command, RiskOf(terms, command)) == Some(Lexer.Approved) <==> IsKnown(terms, l.known, command)
  {
    hide Lexer.Tokens, Lexer.Key;
  }

  lemma RecallIsInTheDecisions(a: Agent, b: Agent, command: string, risk: Lexer.RiskLevel)
    requires a.decisions == b.decisions
    ensures Recall(a, command, risk) == Recall(b, command, risk)
  {}

  /** A command approved for good takes off in the turn that takes the action, and the round follows it. */
  lemma RememberedTakesOff(a: Agent, terms: Terms, l: Ledger, command: string, cwd: Option<string>)
    requires IsReady(a, terms, l) && IsBase(terms) && l.rounds < MAX_AGENT_ROUNDS && IsRead(terms, command)
    requires !IsRefused(terms, command) && NeedsUser(terms, command) && IsKnown(terms, l.known, command)
    ensures After(a, terms.analyze, Decide(Some(SaysExecute(command, false)), cwd)) ==
            InFlight(Settled(a), command, terms, Remembered, Some(Round(a.version, Following(|a.flights|))))
  {
    RecallsIffKnown(a, terms, l, command);
    hide Remembers, Recall, Shell.PrefixCwd;
    RoutedTo(a, terms, l, command);
    Decided(a, terms, l, Some(SaysExecute(command, false)), cwd);
    var risk := RiskOf(terms, command);
    var began := Began(a, Routed(Approval(command, risk)));
    RecallIsInTheDecisions(a, began, command, risk);
    Takes(began, terms, command, risk, cwd);
  }

  lemma Takes(a: Agent, terms: Terms, command: string, risk: Lexer.RiskLevel, cwd: Option<string>)
    requires a.round == Some(Round(a.version, Routed(Approval(command, risk)))) && IsCurrent(a, a.version)
    requires a.status != Paused && a.snapshot == terms.base && a.connection == Some(terms.connection)
    requires !IsRefused(terms, command) && Recall(a, command, risk) == Some(Lexer.Approved)
    ensures Next(a, terms.analyze, TakeAction(cwd)) ==
            InFlight(a.(retries := 0), command, terms, Remembered, Some(Round(a.version, Following(|a.flights|))))
  {
    hide Recall, Shell.PrefixCwd, Synced, Processed, Replied, WaitEnded, Imported, FlightEnded, BridgeUp, Chosen;
  }

  /** Any other command that needs approval is put before the user. */
  lemma UserIsAsked(a: Agent, terms: Terms, l: Ledger, command: string, cwd: Option<string>)
    requires IsReady(a, terms, l) && IsBase(terms) && l.rounds < MAX_AGENT_ROUNDS && IsRead(terms, command)
    requires !IsRefused(terms, command) && NeedsUser(terms, command) && !IsKnown(terms, l.known, command)
    ensures After(a, terms.analyze, Decide(Some(SaysExecute(command, false)), cwd)) ==
            Settled(a).(status := AwaitingApproval)
  {
    RecallsIffKnown(a, terms, l, command);
    hide Remembers, Recall, Shell.PrefixCwd;
    RoutedTo(a, terms, l, command);
    Decided(a, terms, l, Some(SaysExecute(command, false)), cwd);
    RecallIsInTheDecisions(a, Began(a, Routed(Approval(command, RiskOf(terms, command)))), command,
                           RiskOf(terms, command));
  }

  /** A snapshot with the decision on the shown command. */
  lemma DecisionSync(a: Agent, terms: Terms, pending: Pending, decision: Lexer.Decision)
    requires !a.disposed && IsBase(terms) && a.initialized == terms.base.task
    requires a.snapshot == terms.base.(pendingApproval := Some(pending))
    requires a.status == AwaitingApproval && a.seenResult == None && a.seenInput == None
    requires a.connection == Some(terms.connection) && !IsRefused(terms, pending.command)
    ensures Next(a, terms.analyze, Sync(a.snapshot.(approvalResult := Some(decision)))) ==
            var settled := a.(snapshot := terms.base);
            if decision == Lexer.Rejected then settled.(status := Failed)
            else InFlight(settled.(approvals := a.approvals + [pending.command]), pending.command, terms,
                          AgentLoop.Approved(|a.approvals|), a.round)
  {
    hide TaskBegun, AnswerApplied;
    var shown := a.snapshot.(approvalResult := Some(decision));
    var now := a.(snapshot := shown);
    assert TaskSynced(now) == now && EndSynced(now) == now && PauseSynced(now, a.snapshot.store, IsActive(now)) == now;
    assert shown.(pendingApproval := None, approvalResult := None) == terms.base;
  }

  /** The decisions the runtime remembers after the card was shown. */
  function ChosenIn(a: Agent, terms: Terms, move: Move): Agent
    requires move.Command? && IsRead(terms, move.command)
  {
    if move.verdict == ApproveForGood
    then Chosen(a, move.command, RiskOf(terms, move.command), Lexer.Approved) else a
  }

  lemma ChoiceIsRemembered(a: Agent, terms: Terms, l: Ledger, move: Move)
    requires move.Command? && IsRead(terms, move.command) && Remembers(a.decisions, l.known)
    ensures Remembers(ChosenIn(a, terms, move).decisions, Approved(l, terms, move).known)
    ensures [] !in l.known ==> [] !in Approved(l, terms, move).known
    ensures ChosenIn(a, terms, move).(decisions := a.decisions, remembered := a.remembered) == a
  {
    var chosen, known := ChosenIn(a, terms, move).decisions, Approved(l, terms, move).known;
    hide Lexer.Tokens, Lexer.Key, Shell.PrefixCwd;
    forall command: string | Lexer.Tokens(command) != []
      ensures Lexer.Tokens(command) in known <==>
              Lexer.Key(command) in chosen && chosen[Lexer.Key(command)] == Lexer.Approved
    {
      Lexer.SameKeyIffSameTokens(command, move.command);
    }
  }

  lemma ChosenIsSmall(a: Agent, analyze: Analyzer, command: string, risk: Lexer.RiskLevel, shown: Snapshot)
    ensures var chosen := Chosen(a, command, risk, Lexer.Approved);
            chosen.(decisions := a.decisions, remembered := a.remembered) == a
    ensures Next(a.(snapshot := shown), analyze, Choose(command, risk, Lexer.Approved)) ==
            Chosen(a, command, risk, Lexer.Approved).(snapshot := shown)
  {}

  /** The card, from its showing to the decision. */
  lemma CardDecides(a: Agent, terms: Terms, move: Move)
    requires move.Command? && IsBase(terms) && IsRead(terms, move.command) && !IsRefused(terms, move.command)
    requires !a.disposed && a.initialized == terms.base.task && a.snapshot == terms.base
    requires a.status == AwaitingApproval && a.seenResult == None && a.seenInput == None
    requires a.connection == Some(terms.connection)
    ensures After(a, terms.analyze, Card(terms, move.command, move.verdict)) ==
            if move.verdict == Reject then a.(status := Failed)
            else InFlight(ChosenIn(a, terms, move).(approvals := a.approvals + [move.command]), move.command, terms,
                          AgentLoop.Approved(|a.approvals|), a.round)
  {
    hide Next, Chosen, InFlight;
    var analyze := terms.analyze;
    var risk := RiskOf(terms, move.command);
    var pending := Pending(move.command, risk);
    var shown := terms.base.(pendingApproval := Some(pending));
    var decision := if move.verdict == Reject then Lexer.Rejected else Lexer.Approved;
    var decided := Sync(shown.(approvalResult := Some(decision)));
    var seen := a.(snapshot := shown);
    QuietSync(a, analyze, shown);
    if move.verdict == ApproveForGood {
      AfterThree(a, analyze, Sync(shown), Choose(move.command, risk, Lexer.Approved), decided);
      var chosen := Chosen(a, move.command, risk, Lexer.Approved);
      ChosenIsSmall(a, analyze, move.command, risk, shown);
      DecisionSync(chosen.(snapshot := shown), terms, pending, decision);
      assert chosen.(snapshot := shown).(snapshot := terms.base) == chosen;
      assert Card(terms, move.command, move.verdict) ==
             [Sync(shown), Choose(move.command, risk, Lexer.Approved), decided];
    } else {
      AfterTwo(a, analyze, Sync(shown), decided);
      DecisionSync(seen, terms, pending, decision);
      assert Card(terms, move.command, move.verdict) == [Sync(shown), decided];
    }
  }

  lemma ApprovedAgrees(a: Agent, terms: Terms, l: Ledger, move: Move)
    requires IsReady(a, terms, l) && IsBase(terms) && l.alive && l.rounds < MAX_AGENT_ROUNDS
    requires move.Command? && IsPlain(move) && IsRead(terms, move.command)
    requires !IsRefused(terms, move.command) && NeedsUser(terms, move.command)
    requires !IsKnown(terms, l.known, move.command) && move.verdict != Reject
    ensures Agrees(After(a, terms.analyze, EventsOf(l, terms, move)), terms, Entered(l, terms, move))
  {
    hide Remembers, Shell.PrefixCwd, Next, After, InFlight, Agrees;
    var k := l.flights;
    var decide := Decide(Some(SaysExecute(move.command, false)), move.cwd);
    var card := Card(terms, move.command, move.verdict);
    var flight := [Import(k, move.cwd), EndFlight(k, move.end)];
    InParts(a, terms.analyze, decide, card, flight);
    UserIsAsked(a, terms, l, move.command, move.cwd);
    var waiting := Settled(a).(status := AwaitingApproval);
    CardDecides(waiting, terms, move);
    var given := ChosenIn(waiting, terms, move).(approvals := a.approvals + [move.command]);
    ChoiceIsRemembered(waiting, terms, l, move);
    var counted := l.(rounds := l.rounds + 1, missteps := 0, asked := l.asked + [move.command]);
    var signed := counted.(approvals := l.approvals + [move.command], known := Approved(l, terms, move).known);
    FlightLands(given, terms, signed, move, AgentLoop.Approved(|l.approvals|), None);
  }

  lemma InParts(a: Agent, analyze: Analyzer, x: seq<Event>, y: seq<Event>, z: seq<Event>)
    ensures After(a, analyze, x + (y + z)) == After(After(After(a, analyze, x), analyze, y), analyze, z)
  {
    hide After;
    AfterJoined(a, analyze, x, y + z);
    AfterJoined(After(a, analyze, x), analyze, y, z);
  }

  lemma RejectedAgrees(a: Agent, terms: Terms, l: Ledger, move: Move)
    requires IsReady(a, terms, l) && IsBase(terms) && l.alive && l.rounds < MAX_AGENT_ROUNDS
    requires move.Command? && IsRead(terms, move.command)
    requires !IsRefused(terms, move.command) && NeedsUser(terms, move.command)
    requires !IsKnown(terms, l.known, move.command) && move.verdict == Reject
    ensures Agrees(After(a, terms.analyze, EventsOf(l, terms, move)), terms, Entered(l, terms, move))
  {
    hide Remembers, Shell.PrefixCwd, Next, After, InFlight;
    var k := l.flights;
    var decide := Decide(Some(SaysExecute(move.command, false)), move.cwd);
    var flight := [Import(k, move.cwd), EndFlight(k, move.end)];
    InParts(a, terms.analyze, decide, Card(terms, move.command, move.verdict), flight);
    UserIsAsked(a, terms, l, move.command, move.cwd);
    var waiting := Settled(a).(status := AwaitingApproval);
    CardDecides(waiting, terms, move);
    NoFlight(waiting.(status := Failed), terms.analyze, k, move);
  }

  lemma NoFlight(a: Agent, analyze: Analyzer, k: nat, move: Move)
    requires k == |a.flights| && move.Command?
    ensures After(a, analyze, [Import(k, move.cwd), EndFlight(k, move.end)]) == a
  {
    AfterTwo(a, analyze, Import(k, move.cwd), EndFlight(k, move.end));
  }

  lemma RememberedAgrees(a: Agent, terms: Terms, l: Ledger, move: Move)
    requires IsReady(a, terms, l) && IsBase(terms) && l.alive && l.rounds < MAX_AGENT_ROUNDS
    requires move.Command? && IsPlain(move) && IsRead(terms, move.command)
    requires !IsRefused(terms, move.command) && NeedsUser(terms, move.command)
    requires IsKnown(terms, l.known, move.command)
    ensures Agrees(After(a, terms.analyze, EventsOf(l, terms, move)), terms, Entered(l, terms, move))
  {
    hide Remembers, Shell.PrefixCwd, Next, After, InFlight, Agrees;
    var k := l.flights;
    var decide := Decide(Some(SaysExecute(move.command, false)), move.cwd);
    var flight := [Import(k, move.cwd), EndFlight(k, move.end)];
    assert [] + flight == flight;
    AfterJoined(a, terms.analyze, decide, flight);
    RememberedTakesOff(a, terms, l, move.command, move.cwd);
    FlightLands(Settled(a), terms, l.(rounds := l.rounds + 1, missteps := 0), move, Remembered,
                Some(Round(a.version, Following(|a.flights|))));
  }

  /** One round of the runtime is one entry of the ledger. */
  lemma RoundAgrees(a: Agent, terms: Terms, l: Ledger, move: Move)
    requires Agrees(a, terms, l) && IsBase(terms) && IsPlain(move)
    ensures Agrees(After(a, terms.analyze, EventsOf(l, terms, move)), terms, Entered(l, terms, move))
  {
    hide Remembers, After, Next, Commanded;
    if !l.alive {
      assert After(a, terms.analyze, []) == a by { Nothing(a, terms.analyze); }
    } else if l.rounds >= MAX_AGENT_ROUNDS {
      AfterOne(a, terms.analyze, Process(false));
      RoundBegins(a, terms, l);
    } else {
      match move {
        case Command(command, _, verdict, _) =>
          hide Agrees, EventsOf, Entered;
          CommandAgrees(a, terms, l, move);
        case Repeat(command) => RepeatAgrees(a, terms, l, command);
        case Question(answer, shown) => QuestionAgrees(a, terms, l, answer, shown);
        case _ => MisstepAgrees(a, terms, l, move);
      }
    }
  }

  lemma Nothing(a: Agent, analyze: Analyzer)
    ensures After(a, analyze, []) == a
  {}

  lemma CommandAgrees(a: Agent, terms: Terms, l: Ledger, move: Move)
    requires IsReady(a, terms, l) && IsBase(terms) && l.alive && l.rounds < MAX_AGENT_ROUNDS
    requires move.Command? && IsPlain(move)
    ensures Agrees(After(a, terms.analyze, EventsOf(l, terms, move)), terms, Entered(l, terms, move))
  {
    hide IsReady, IsBase, Agrees, EventsOf, Entered, IsRefused, After, Next;
    if !IsRead(terms, move.command) || IsRefused(terms, move.command) {
      UnsentAgrees(a, terms, l, move);
    } else if !NeedsUser(terms, move.command) {
      SentAtOnceAgrees(a, terms, l, move);
    } else if IsKnown(terms, l.known, move.command) {
      RememberedAgrees(a, terms, l, move);
    } else if move.verdict == Reject {
      RejectedAgrees(a, terms, l, move);
    } else {
      ApprovedAgrees(a, terms, l, move);
    }
  }

  lemma {:induction false} StoryAgrees(a: Agent, terms: Terms, l: Ledger, moves: seq<Move>)
    requires Agrees(a, terms, l) && IsBase(terms) && forall i :: 0 <= i < |moves| ==> IsPlain(moves[i])
    ensures Agrees(After(a, terms.analyze, Story(l, terms, moves)), terms, Book(l, terms, moves))
    decreases |moves|
  {
    hide Agrees, IsBase, EventsOf, Entered, Next;
    if moves == [] {
    } else {
      var events, entered := EventsOf(l, terms, moves[0]), Entered(l, terms, moves[0]);
      RoundAgrees(a, terms, l, moves[0]);
      AfterJoined(a, terms.analyze, events, Story(entered, terms, moves[1..]));
      StoryAgrees(After(a, terms.analyze, events), terms, entered, moves[1..]);
    }
  }

  // ----- A whole task -----

  /** The ledger of a task that begins: what the runtime has sent and learnt before stays. */
  function Opened(a: Agent, known: set<seq<string>>): Ledger {
    Ledger(a.dispatches, a.approvals, known, [], 0, 0, |a.flights|, true)
  }

  const FINISH := Decide(Some(SaysFinish), None)

  /** The task begins, goes through its rounds, and the model says that it is done. */
  function WholeStory(a: Agent, terms: Terms, known: set<seq<string>>, moves: seq<Move>): seq<Event> {
    var l := Opened(a, known);
    [Sync(terms.base), StartBridge(a.version + 1)]
    + (Story(l, terms, moves) + if Book(l, terms, moves).alive then FINISH else [])
  }

  /** A runtime that takes up a new task: whatever it did before, no decision round is open. */
  ghost predicate TakesUp(a: Agent, terms: Terms, known: set<seq<string>>) {
    && !a.disposed && a.round == None && a.initialized != terms.base.task && IsBase(terms)
    && Remembers(a.decisions, known) && [] !in known
  }

  /** A runtime that has just been made takes up any task. */
  lemma StartTakesUp(snapshot: Snapshot, terms: Terms)
    requires IsBase(terms)
    ensures TakesUp(Start(snapshot), terms, {}) && Start(snapshot).status == Idle
    ensures Opened(Start(snapshot), {}) == Ledger([], [], {}, [], 0, 0, 0, true)
  {}

  lemma NothingToTakeUp(a: Agent, analyze: Analyzer, snapshot: Snapshot)
    requires a.snapshot.approvalResult.None? && a.seenResult.None?
    requires snapshot.input == "" && a.seenInput.None?
    ensures InputSynced(ApprovalSynced(a, analyze), snapshot) == a
  {}

  /** The first snapshot with the task begins it, and does nothing else. */
  lemma SyncBegins(a: Agent, terms: Terms, known: set<seq<string>>)
    requires TakesUp(a, terms, known)
    ensures Next(a, terms.analyze, Sync(terms.base)) ==
            TaskBegun(a.(snapshot := terms.base), terms.base.task.value, terms.base.connection)
  {
    var now := a.(snapshot := terms.base);
    var begun := TaskBegun(now, terms.base.task.value, terms.base.connection);
    assert TaskSynced(now) == begun && EndSynced(begun) == begun;
    assert PauseSynced(begun, a.snapshot.store, IsActive(begun)) == begun;
    NothingToTakeUp(begun, terms.analyze, terms.base);
    hide Remembers, TaskBegun, TaskSynced, EndSynced, PauseSynced, ApprovalSynced, InputSynced;
  }

  /** Until its bridge has come up a task is initializing, and no round of it begins. */
  lemma NoRoundBeforeTheBridge(a: Agent, terms: Terms, known: set<seq<string>>, outOfBudget: bool)
    requires TakesUp(a, terms, known)
    ensures var begun := Next(a, terms.analyze, Sync(terms.base));
            begun.status == Initializing && Next(begun, terms.analyze, Process(outOfBudget)) == begun
  {
    hide Remembers, Synced;
    SyncBegins(a, terms, known);
  }

  lemma BridgeReadies(a: Agent, analyze: Analyzer, task: string, connection: Option<string>)
    requires !a.disposed
    ensures var begun := TaskBegun(a, task, connection);
            Next(begun, analyze, StartBridge(a.version + 1)) ==
            begun.(status := Idle, bridges := begun.bridges - {a.version + 1})
  {
    hide Synced, Processed, Replied, Routes, WaitEnded, Imported, FlightEnded, Chosen;
  }

  /** A bridge comes up once. */
  lemma BridgeComesUpOnce(a: Agent, analyze: Analyzer, version: nat)
    ensures version !in Next(a, analyze, StartBridge(version)).bridges
    ensures version !in a.bridges ==> Next(a, analyze, StartBridge(version)) == a
    ensures Next(a, analyze, Dispose).status == Idle
  {}

  lemma BeginIsReady(a: Agent, terms: Terms, known: set<seq<string>>)
    requires TakesUp(a, terms, known)
    ensures IsReady(After(a, terms.analyze, [Sync(terms.base), StartBridge(a.version + 1)]), terms, Opened(a, known))
  {
    hide Remembers, Next, After;
    AfterTwo(a, terms.analyze, Sync(terms.base), StartBridge(a.version + 1));
    SyncBegins(a, terms, known);
    BridgeReadies(a.(snapshot := terms.base), terms.analyze, terms.base.task.value, terms.base.connection);
  }

  lemma NoRoundNoReply(a: Agent, analyze: Analyzer, reply: Reply, cwd: Option<string>)
    requires a.round == None
    ensures Next(Next(a, analyze, Event.Reply(reply)), analyze, TakeAction(cwd)) == a
  {}

  lemma FinishCompletes(a: Agent, terms: Terms, l: Ledger)
    requires IsReady(a, terms, l) && IsBase(terms)
    ensures var end := After(a, terms.analyze, FINISH);
            && end.status == (if l.rounds < MAX_AGENT_ROUNDS then Completed else Failed)
            && end.dispatches == a.dispatches
  {
    hide Remembers;
    if l.rounds < MAX_AGENT_ROUNDS {
      FinishIsTaken(a, terms, l);
    } else {
      hide Next;
      AfterThree(a, terms.analyze, Process(false), Event.Reply(Parsed(Some(SaysFinish))), TakeAction(None));
      RoundBegins(a, terms, l);
      NoRoundNoReply(a.(status := Failed), terms.analyze, Parsed(Some(SaysFinish)), None);
    }
  }

  lemma FinishIsTaken(a: Agent, terms: Terms, l: Ledger)
    requires IsReady(a, terms, l) && IsBase(terms) && l.rounds < MAX_AGENT_ROUNDS
    ensures After(a, terms.analyze, FINISH).status == Completed
    ensures After(a, terms.analyze, FINISH).dispatches == a.dispatches
  {
    hide Remembers, Blocks, Recall, Synced;
    Decided(a, terms, l, Some(SaysFinish), None);
  }

  /** What a whole task sends is what the ledger says, and it ends as the ledger says. */
  lemma WholeTask(a: Agent, terms: Terms, known: set<seq<string>>, moves: seq<Move>)
    requires TakesUp(a, terms, known) && forall i :: 0 <= i < |moves| ==> IsPlain(moves[i])
    ensures var l, end := Book(Opened(a, known), terms, moves),
                          After(a, terms.analyze, WholeStory(a, terms, known, moves));
            && end.status == (if l.alive && l.rounds < MAX_AGENT_ROUNDS then Completed else Failed)
            && end.dispatches == l.sent
  {
    hide Remembers, After, Next, Book, Story, TakesUp;
    var first := Opened(a, known);
    var l, story := Book(first, terms, moves), Story(first, terms, moves);
    var begin := [Sync(terms.base), StartBridge(a.version + 1)];
    var begun := After(a, terms.analyze, begin);
    BeginIsReady(a, terms, known);
    assert IsBase(terms) by { BaseIsGiven(a, terms, known); }
    StoryAgrees(begun, terms, first, moves);
    var told := After(begun, terms.analyze, story);
    if l.alive {
      InParts(a, terms.analyze, begin, story, FINISH);
      FinishCompletes(told, terms, l);
    } else {
      InParts(a, terms.analyze, begin, story, []);
      Nothing(told, terms.analyze);
    }
  }

  lemma BaseIsGiven(a: Agent, terms: Terms, known: set<seq<string>>)
    requires TakesUp(a, terms, known)
    ensures IsBase(terms)
  {}

  // ----- When a task completes -----

  /** The round does not end the task: not a repeated or unreadable command, nor one rejected or failing. */
  predicate GoesOn(known: set<seq<string>>, terms: Terms, move: Move) {
    match move
    case Repeat(_) => false
    case Command(command, _, verdict, end) =>
      && IsRead(terms, command)
      && (IsRefused(terms, command)
          || (end != Fails(false)
              && (NeedsUser(terms, command) && verdict == Reject ==> IsKnown(terms, known, command))))
    case _ => true
  }

  /** Four missteps in a row end a task. */
  predicate FourMissteps(moves: seq<Move>, i: nat)
    requires i + 3 < |moves|
  {
    IsMisstep(moves[i]) && IsMisstep(moves[i + 1]) && IsMisstep(moves[i + 2]) && IsMisstep(moves[i + 3])
  }

  /** The missteps at the end of some moves. */
  function Trailing(moves: seq<Move>): nat {
    if moves == [] || !IsMisstep(moves[|moves| - 1]) then 0 else 1 + Trailing(moves[..|moves| - 1])
  }

  lemma TrailingThree(moves: seq<Move>, n: nat)
    requires n <= |moves|
    ensures Trailing(moves[..n]) >= 3 <==>
            n >= 3 && IsMisstep(moves[n - 3]) && IsMisstep(moves[n - 2]) && IsMisstep(moves[n - 1])
  {
    TrailingStep(moves, n);
    if n >= 1 {
      TrailingStep(moves, n - 1);
    }
    if n >= 2 {
      TrailingStep(moves, n - 2);
    }
  }

  lemma TrailingStep(moves: seq<Move>, n: nat)
    requires n <= |moves|
    ensures Trailing(moves[..n]) == if n == 0 || !IsMisstep(moves[n - 1]) then 0 else 1 + Trailing(moves[..n - 1])
  {
    if n > 0 {
      assert moves[..n][..n - 1] == moves[..n - 1];
    }
  }

  lemma {:induction false} BookOfOneMore(l: Ledger, terms: Terms, moves: seq<Move>, move: Move)
    ensures Book(l, terms, moves + [move]) == Entered(Book(l, terms, moves), terms, move)
    decreases |moves|
  {
    hide Entered;
    if moves == [] {
      assert (moves + [move])[0] == move && (moves + [move])[1..] == [];
    } else {
      assert (moves + [move])[0] == moves[0] && (moves + [move])[1..] == moves[1..] + [move];
      BookOfOneMore(Entered(l, terms, moves[0]), terms, moves[1..], move);
    }
  }

  /** The i-th round does not end the task. */
  predicate Survives(l: Ledger, terms: Terms, moves: seq<Move>, i: nat)
    requires i < |moves|
  {
    if IsMisstep(moves[i]) then Trailing(moves[..i]) < MAX_AGENT_RETRIES
    else GoesOn(Book(l, terms, moves[..i]).known, terms, moves[i])
  }

  /** The task is on after n rounds. */
  ghost predicate IsOnAfter(l: Ledger, terms: Terms, moves: seq<Move>, n: nat)
    requires n <= |moves|
  {
    n <= MAX_AGENT_ROUNDS && forall i :: 0 <= i < n ==> Survives(l, terms, moves, i)
  }

  lemma EnteredGoesOn(l: Ledger, terms: Terms, move: Move)
    requires l.alive
    ensures Entered(l, terms, move).alive <==>
            l.rounds < MAX_AGENT_ROUNDS
            && (if IsMisstep(move) then l.missteps < MAX_AGENT_RETRIES else GoesOn(l.known, terms, move))
    ensures Entered(l, terms, move).alive ==>
              && Entered(l, terms, move).rounds == l.rounds + 1
              && Entered(l, terms, move).missteps == if IsMisstep(move) then l.missteps + 1 else 0
  {
    hide Shell.PrefixCwd, NeedsApproval, Lexer.Tokens;
  }

  lemma {:induction false} BookIsOn(l: Ledger, terms: Terms, moves: seq<Move>, n: nat)
    requires l.alive && l.rounds == 0 && l.missteps == 0 && n <= |moves|
    ensures Book(l, terms, moves[..n]).alive <==> IsOnAfter(l, terms, moves, n)
    ensures Book(l, terms, moves[..n]).alive ==>
              Book(l, terms, moves[..n]).rounds == n && Book(l, terms, moves[..n]).missteps == Trailing(moves[..n])
  {
    hide Entered, GoesOn;
    if n == 0 {
    } else {
      BookIsOn(l, terms, moves, n - 1);
      assert moves[..n] == moves[..n - 1] + [moves[n - 1]];
      BookOfOneMore(l, terms, moves[..n - 1], moves[n - 1]);
      TrailingStep(moves, n);
      OnForOneMore(l, terms, moves, n);
      hide Book, IsOnAfter;
      var before := Book(l, terms, moves[..n - 1]);
      if before.alive {
        EnteredGoesOn(before, terms, moves[n - 1]);
      } else {
        OverIsOver(before, terms, moves[n - 1]);
      }
    }
  }

  lemma OnForOneMore(l: Ledger, terms: Terms, moves: seq<Move>, n: nat)
    requires 0 < n <= |moves|
    ensures IsOnAfter(l, terms, moves, n) <==>
            IsOnAfter(l, terms, moves, n - 1) && n <= MAX_AGENT_ROUNDS && Survives(l, terms, moves, n - 1)
  {
    hide Survives;
  }

  lemma OverIsOver(l: Ledger, terms: Terms, move: Move)
    requires !l.alive
    ensures Entered(l, terms, move) == l
  {}

  /**
    A task whose model says at last that it is done is completed if and only if there were fewer than 24
    rounds before that, no four missteps in a row, and no round that ends a task by itself: otherwise it
    has failed.
   */
  lemma TaskCompletesIff(a: Agent, terms: Terms, known: set<seq<string>>, moves: seq<Move>)
    requires TakesUp(a, terms, known) && forall i :: 0 <= i < |moves| ==> IsPlain(moves[i])
    ensures var end := After(a, terms.analyze, WholeStory(a, terms, known, moves));
            && (end.status == Completed || end.status == Failed)
            && (end.status == Completed <==>
                && |moves| < MAX_AGENT_ROUNDS
                && (forall i :: 0 <= i && i + 3 < |moves| ==> !FourMissteps(moves, i))
                && (forall i :: 0 <= i < |moves| && !IsMisstep(moves[i]) ==>
                      GoesOn(Book(Opened(a, known), terms, moves[..i]).known, terms, moves[i])))
  {
    hide Remembers, After, WholeStory, Book, Entered, GoesOn, TakesUp;
    WholeTask(a, terms, known, moves);
    var l := Opened(a, known);
    assert moves[..|moves|] == moves;
    BookIsOn(l, terms, moves, |moves|);
    forall i | 0 <= i < |moves| && IsMisstep(moves[i])
      ensures Survives(l, terms, moves, i) <==> i < 3 || !FourMissteps(moves, i - 3)
    {
      TrailingThree(moves, i);
    }
    if forall i :: 0 <= i && i + 3 < |moves| ==> !FourMissteps(moves, i) {
    } else {
      var i :| 0 <= i && i + 3 < |moves| && FourMissteps(moves, i);
      assert !Survives(l, terms, moves, i + 3);
    }
    assert forall i :: 0 <= i < |moves| && !IsMisstep(moves[i]) ==>
             (Survives(l, terms, moves, i) <==> GoesOn(Book(l, terms, moves[..i]).known, terms, moves[i]));
  }

  // ----- What the user is asked -----

  /** Critical commands always need the user, low ones never, and those between as it is set. */
  lemma ApprovalLevels(config: Config, risk: Lexer.RiskLevel)
    ensures NeedsApproval(config, risk) <==>
            match risk
            case Low => false
            case Medium => config.approveMedium
            case High => config.approveHigh
            case Critical => true
  {}

  /** The gate refuses exactly what it can analyse and finds to change something. */
  lemma RefusedIff(terms: Terms, command: string)
    ensures IsRefused(terms, command) <==>
            exists analysis :: terms.base.config.readOnly && terms.analyze(command) == Some(analysis)
                               && !analysis.readOnly
  {
    if IsRefused(terms, command) {
      assert terms.analyze(command) == Some(terms.analyze(command).value);
    }
  }

  /** In a round that begins, the user is asked about exactly the commands that need it. */
  lemma UserIsAskedIff(a: Agent, terms: Terms, l: Ledger, command: string, cwd: Option<string>)
    requires IsReady(a, terms, l) && IsBase(terms) && l.rounds < MAX_AGENT_ROUNDS
    ensures After(a, terms.analyze, Decide(Some(SaysExecute(command, false)), cwd)).status == AwaitingApproval <==>
            && IsRead(terms, command) && !IsRefused(terms, command)
            && NeedsUser(terms, command) && !IsKnown(terms, l.known, command)
  {
    hide Remembers, Recall, Shell.PrefixCwd, After, Next;
    if !IsRead(terms, command) || IsRefused(terms, command) {
      UnsentEnds(a, terms, l, command, cwd);
    } else if !NeedsUser(terms, command) {
      SentAtOnce(a, terms, l, command, cwd);
    } else if IsKnown(terms, l.known, command) {
      RememberedTakesOff(a, terms, l, command, cwd);
    } else {
      UserIsAsked(a, terms, l, command, cwd);
    }
  }

  lemma UnsentEnds(a: Agent, terms: Terms, l: Ledger, command: string, cwd: Option<string>)
    requires IsReady(a, terms, l) && IsBase(terms) && l.rounds < MAX_AGENT_ROUNDS
    requires !IsRead(terms, command) || IsRefused(terms, command)
    ensures After(a, terms.analyze, Decide(Some(SaysExecute(command, false)), cwd)).status in {Idle, Failed}
  {
    hide After, Next, Entered, Remembers;
    var m := l.(alive := true);
    var move := Command(command, cwd, Approve, Succeeds);
    UnsentAgrees(a, terms, m, move);
    assert EventsOf(m, terms, move) == Decide(Some(SaysExecute(command, false)), cwd);
  }

  lemma EnteredKeepsKnown(l: Ledger, terms: Terms, move: Move)
    ensures l.known <= Entered(l, terms, move).known
  {
    hide Shell.PrefixCwd, NeedsApproval, Lexer.Tokens;
  }

  lemma {:induction false} KnownGrows(l: Ledger, terms: Terms, moves: seq<Move>, i: nat, j: nat)
    requires i <= j <= |moves|
    ensures Book(l, terms, moves[..i]).known <= Book(l, terms, moves[..j]).known
    decreases j
  {
    hide Entered;
    if i == j {
    } else {
      KnownGrows(l, terms, moves, i, j - 1);
      assert moves[..j] == moves[..j - 1] + [moves[j - 1]];
      BookOfOneMore(l, terms, moves[..j - 1], moves[j - 1]);
      EnteredKeepsKnown(Book(l, terms, moves[..j - 1]), terms, moves[j - 1]);
    }
  }

  /** The command was put before the user in the i-th round. */
  predicate AskedIn(l: Ledger, terms: Terms, moves: seq<Move>, i: nat)
    requires i < |moves|
  {
    Book(l, terms, moves[..i + 1]).asked != Book(l, terms, moves[..i]).asked
  }

  /**
    Once the user has approved a command for good, no later command with the same tokens is asked
    about, unless one of the two is critical.
   */
  lemma ApprovedForGoodIsNotAskedAgain(l: Ledger, terms: Terms, moves: seq<Move>, i: nat, j: nat)
    requires i < j < |moves| && moves[i].Command? && moves[j].Command?
    requires AskedIn(l, terms, moves, i) && moves[i].verdict == ApproveForGood
    requires Lexer.Tokens(moves[i].command) == Lexer.Tokens(moves[j].command) != []
    requires IsRead(terms, moves[i].command) && RiskOf(terms, moves[i].command) != Lexer.Critical
    requires IsRead(terms, moves[j].command) && RiskOf(terms, moves[j].command) != Lexer.Critical
    ensures !AskedIn(l, terms, moves, j)
  {
    hide Shell.PrefixCwd, NeedsApproval, Lexer.Tokens, Book;
    assert moves[..i + 1] == moves[..i] + [moves[i]] && moves[..j + 1] == moves[..j] + [moves[j]];
    BookOfOneMore(l, terms, moves[..i], moves[i]);
    BookOfOneMore(l, terms, moves[..j], moves[j]);
    KnownGrows(l, terms, moves, i + 1, j);
    assert Lexer.Tokens(moves[i].command) in Book(l, terms, moves[..i + 1]).known;
  }

  // ----- Ended tasks and old work -----

  /** What completes a task: the model says that it is done, or the store shows it finished. */
  predicate Completes(a: Agent, event: Event) {
    && !a.disposed
    && match event
       case Sync(snapshot) =>
         && snapshot.store == StoreFinished && snapshot.task.Some? && a.initialized == snapshot.task
         && a.status !in {Idle, Completed, Failed}
       case TakeAction(_) =>
         && a.round.Some? && a.round.value.stage == Routed(FinishTask)
         && IsCurrent(a, a.round.value.version) && a.status != Paused
       case _ => false
  }

  lemma CompletesIff(a: Agent, analyze: Analyzer, event: Event)
    requires a.status != Completed
    ensures Next(a, analyze, event).status == Completed <==> Completes(a, event)
  {
    hide Recall, Blocks, Shell.PrefixCwd, Route, Synced;
    match event {
      case Sync(snapshot) => SyncCompletes(a, analyze, snapshot);
      case _ =>
    }
  }

  lemma SyncCompletes(a: Agent, analyze: Analyzer, snapshot: Snapshot)
    requires a.status != Completed
    ensures Synced(a, analyze, snapshot).status == Completed <==> Completes(a, Sync(snapshot))
  {
    if !a.disposed {
      var paused := SyncedSoFar(a, snapshot);
      StatusBeforeDecisions(a, snapshot);
      DecisionsCompleteNothing(paused, analyze);
      AnswersCompleteNothing(ApprovalSynced(paused, analyze), snapshot);
      hide ApprovalSynced, InputSynced, TaskSynced, EndSynced, PauseSynced;
    }
  }

  /** A snapshot as far as tasks, their outside end and the pause go. */
  function SyncedSoFar(a: Agent, snapshot: Snapshot): Agent {
    var begun := TaskSynced(a.(snapshot := snapshot));
    PauseSynced(EndSynced(begun), a.snapshot.store, IsActive(begun))
  }

  /** The status that this leaves. */
  function StatusSeen(a: Agent, snapshot: Snapshot): Status {
    var same := snapshot.task.Some? && a.initialized == snapshot.task;
    var active := a.status !in {Idle, Completed, Failed};
    if BringsTask(a, Sync(snapshot)) then Initializing
    else if snapshot.store == StoreFinished && same && active then Completed
    else if snapshot.store == StoreError && same && active then Failed
    else if snapshot.store == StorePaused && active then Paused
    else if a.snapshot.store == StorePaused && snapshot.store != StorePaused && a.status == Paused then Idle
    else a.status
  }

  lemma StatusBeforeDecisions(a: Agent, snapshot: Snapshot)
    ensures var b := SyncedSoFar(a, snapshot);
            && b.status == StatusSeen(a, snapshot) && b.snapshot == snapshot
            && (!BringsTask(a, Sync(snapshot)) ==> b.seenResult == a.seenResult && b.seenInput == a.seenInput)
  {
    var now := a.(snapshot := snapshot);
    if BringsTask(a, Sync(snapshot)) {
      var begun := TaskBegun(now, snapshot.task.value, snapshot.connection);
      assert TaskSynced(now) == begun && EndSynced(begun) == begun;
      hide TaskSynced, EndSynced;
    } else {
      assert TaskSynced(now) == now;
      hide TaskSynced, TaskBegun;
    }
  }

  lemma DecisionsCompleteNothing(a: Agent, analyze: Analyzer)
    ensures ApprovalSynced(a, analyze).status == Completed <==> a.status == Completed
  {
    hide Blocks;
  }

  lemma AnswersCompleteNothing(a: Agent, snapshot: Snapshot)
    ensures InputSynced(a, snapshot).status == Completed <==> a.status == Completed
  {}

  /** The event shows a task of the store that the runtime has not taken up. */
  predicate BringsTask(a: Agent, event: Event) {
    && event.Sync? && event.snapshot.task.Some? && event.snapshot.task != a.initialized
    && event.snapshot.store == StoreThinking
  }

  predicate IsOver(a: Agent) {
    a.status == Completed || a.status == Failed
  }

  lemma EndStep(a: Agent, analyze: Analyzer, event: Event)
    requires IsOver(a) && !BringsTask(a, event) && event != Dispose
    ensures var b := Next(a, analyze, event);
            b.status == a.status && b.version == a.version && b.rounds == a.rounds && b.initialized == a.initialized
  {
    hide Recall, Blocks, Shell.PrefixCwd, Route, NeedsApproval;
    match event {
      case Sync(snapshot) =>
        hide Next;
        EndedSync(a, analyze, snapshot);
      case _ => hide Synced;
    }
  }

  lemma EndedSync(a: Agent, analyze: Analyzer, snapshot: Snapshot)
    requires IsOver(a) && !BringsTask(a, Sync(snapshot))
    ensures var b := Next(a, analyze, Sync(snapshot));
            b.status == a.status && b.version == a.version && b.rounds == a.rounds && b.initialized == a.initialized
  {
    hide Blocks, TaskBegun, CommandStarted;
    if !a.disposed {
      var now := a.(snapshot := snapshot);
      assert TaskSynced(now) == now && EndSynced(now) == now;
      assert PauseSynced(now, a.snapshot.store, IsActive(now)) == now;
      DecidedTooLate(now, analyze, snapshot);
      hide TaskSynced, EndSynced, PauseSynced, ApprovalSynced, InputSynced;
    }
  }

  lemma DecidedTooLate(a: Agent, analyze: Analyzer, snapshot: Snapshot)
    requires IsOver(a)
    ensures var b := InputSynced(ApprovalSynced(a, analyze), snapshot);
            b == a.(seenResult := b.seenResult, seenInput := b.seenInput)
  {}

  /** No task is brought in, nor the runtime disposed of, in any of the events. */
  ghost predicate NothingBegins(a: Agent, analyze: Analyzer, events: seq<Event>) {
    forall i :: 0 <= i < |events| ==> events[i] != Dispose && !BringsTask(a, events[i])
  }

  /** An ended task stays as it ended, whatever replies, continuations and snapshots still arrive. */
  lemma {:induction false} EndedStaysEnded(a: Agent, analyze: Analyzer, events: seq<Event>)
    requires IsOver(a) && NothingBegins(a, analyze, events)
    ensures After(a, analyze, events).status == a.status && After(a, analyze, events).rounds == a.rounds
    decreases |events|
  {
    hide Next;
    if events == [] {
    } else {
      assert events[0] != Dispose && !BringsTask(a, events[0]);
      EndStep(a, analyze, events[0]);
      assert forall i :: 0 <= i < |events[1..]| ==> events[1..][i] == events[i + 1];
      EndedStaysEnded(Next(a, analyze, events[0]), analyze, events[1..]);
    }
  }

  /** The event continues work of a version that is not the current one. */
  predicate IsOldWork(a: Agent, event: Event) {
    match event
    case Reply(_) => a.round.Some? && a.round.value.version != a.version
    case TakeAction(_) => a.round.Some? && a.round.value.version != a.version
    case EndWait(_) => a.round.Some? && a.round.value.version != a.version
    case EndFlight(k, _) => k < |a.flights| && a.flights[k].version != a.version
    case StartBridge(version) => version != a.version
    case _ => false
  }

  /**
    Work that an earlier task left behind comes to its end without touching the task at hand: its
    status, counters and records stay, and nothing is sent.
   */
  lemma OldWorkIsHarmless(a: Agent, analyze: Analyzer, event: Event)
    requires IsOldWork(a, event)
    ensures var b := Next(a, analyze, event);
            && b == a.(round := b.round, flights := b.flights, bridges := b.bridges)
            && |b.flights| == |a.flights|
            && (event.EndFlight? ==> b.flights[event.flight].leg == Over)
            && (event.EndWait? && a.round.value.stage.Waiting? ==> b.round.None?)
            && (event.TakeAction? && a.round.value.stage.Routed? ==> b.round.None?)
            && (forall k :: 0 <= k < |a.flights| && a.flights[k].version == a.version ==> b.flights[k] == a.flights[k])
            && (a.round.Some? && a.round.value.version == a.version && !a.round.value.stage.Following? ==>
                  b.round == a.round)
  {
    hide Recall, Blocks, Shell.PrefixCwd, NeedsApproval;
  }

  /** A command ends once: whatever is reported of it afterwards has no effect. */
  lemma EndsOnce(a: Agent, analyze: Analyzer, k: nat, first: End, second: End)
    requires k < |a.flights|
    ensures Next(a, analyze, EndFlight(k, first)).flights[k].leg == Over
    ensures Next(Next(a, analyze, EndFlight(k, first)), analyze, EndFlight(k, second)) ==
            Next(a, analyze, EndFlight(k, first))
  {}

  lemma DisposedStep(a: Agent, analyze: Analyzer, event: Event)
    requires a.disposed && a.connection.None?
    ensures var b := Next(a, analyze, event); b.disposed && b.connection.None? && b.dispatches == a.dispatches
  {
    hide Recall, Blocks, Shell.PrefixCwd, NeedsApproval;
  }

  /** After the runtime is disposed of, nothing is sent; starting it again is not part of the model. */
  lemma {:induction false} NothingAfterDispose(a: Agent, analyze: Analyzer, events: seq<Event>)
    ensures After(Next(a, analyze, Dispose), analyze, events).dispatches == a.dispatches
  {
    DisposedRun(Next(a, analyze, Dispose), analyze, events);
  }

  lemma {:induction false} DisposedRun(a: Agent, analyze: Analyzer, events: seq<Event>)
    requires a.disposed && a.connection.None?
    ensures After(a, analyze, events).dispatches == a.dispatches
    decreases |events|
  {
    hide Next;
    if events == [] {
    } else {
      DisposedStep(a, analyze, events[0]);
      DisposedRun(Next(a, analyze, events[0]), analyze, events[1..]);
    }
  }

  // ----- Decisions that are still shown -----

  /**
    A decision that is shown while none is awaited is not taken, and is not taken later either while it
    is still shown; once a snapshot shows no decision, the next one is taken again.
   */
  lemma ShownDecisionIsTakenOnce(a: Agent, analyze: Analyzer, later: Agent)
    requires a.status != AwaitingApproval && a.snapshot.approvalResult.Some? && a.snapshot.pendingApproval.Some?
    ensures var seen := ApprovalSynced(a, analyze);
            && seen == a.(seenResult := a.snapshot.approvalResult)
            && (later.seenResult == seen.seenResult && later.snapshot.approvalResult == a.snapshot.approvalResult ==>
                  ApprovalSynced(later, analyze) == later)
    ensures later.snapshot.approvalResult.None? ==> ApprovalSynced(later, analyze) == later.(seenResult := None)
  {}

  /** The same for an answer that is still shown. */
  lemma ShownAnswerIsTakenOnce(a: Agent, snapshot: Snapshot, later: Agent)
    requires a.status != AwaitingQuestion && snapshot.question && snapshot.input != ""
    ensures var seen := InputSynced(a, snapshot);
            && seen == a.(seenInput := Some(snapshot.input))
            && (later.seenInput == seen.seenInput ==> InputSynced(later, snapshot) == later)
    ensures InputSynced(later, snapshot.(input := "")) == later.(seenInput := None)
  {}

  // ----- A pause during a round -----

  function PausedBase(terms: Terms): Snapshot {
    terms.base.(store := StorePaused)
  }

  /** The round is at the model: it is paused, and the same snapshot as before lifts the pause. */
  lemma PauseIsTakenUp(a: Agent, terms: Terms)
    requires IsBase(terms) && !a.disposed && a.initialized == terms.base.task && a.snapshot == terms.base
    requires a.status in {Initializing, Thinking, Executing, AwaitingApproval, AwaitingQuestion}
    requires a.seenResult == None && a.seenInput == None
    ensures Next(a, terms.analyze, Sync(PausedBase(terms))) == a.(status := Paused, snapshot := PausedBase(terms))
  {
    hide TaskBegun, ApprovalApplied, AnswerApplied;
  }

  lemma PauseIsLeft(a: Agent, terms: Terms)
    requires IsBase(terms) && !a.disposed && a.initialized == terms.base.task && a.snapshot == PausedBase(terms)
    requires a.status == Paused && a.seenResult == None && a.seenInput == None
    ensures Next(a, terms.analyze, Sync(terms.base)) == a.(status := Idle, snapshot := terms.base)
  {
    hide TaskBegun, ApprovalApplied, AnswerApplied;
  }

  /** What the model answers to a paused round, other than a command to be run at once, is dropped. */
  lemma PausedReplyIsDropped(a: Agent, analyze: Analyzer, response: Option<Response>, cwd: Option<string>)
    requires a.status == Paused && a.round == Some(Round(a.version, Asking))
    requires Route(a, analyze, response).Some? ==> !Route(a, analyze, response).value.Execute?
    ensures Next(Next(a, analyze, Event.Reply(Parsed(response))), analyze, TakeAction(cwd)) == a.(round := None)
  {
    hide Synced, Recall, Blocks, Route, CommandStarted;
  }

  /**
    A pause while the model thinks costs the round and nothing else: its answer is dropped, and when the
    user goes on the next round begins where this one did.
   */
  lemma PausedRoundIsDropped(a: Agent, terms: Terms, l: Ledger, response: Option<Response>, cwd: Option<string>)
    requires IsReady(a, terms, l) && IsBase(terms) && l.rounds < MAX_AGENT_ROUNDS
    requires Route(a, terms.analyze, response).Some? ==> !Route(a, terms.analyze, response).value.Execute?
    ensures IsReady(After(a, terms.analyze, [Process(false), Sync(PausedBase(terms)), Event.Reply(Parsed(response)),
                                             TakeAction(cwd), Sync(terms.base)]),
                    terms, l.(rounds := l.rounds + 1))
  {
    hide Remembers, Next, After, Route;
    var analyze := terms.analyze;
    var first, rest := [Process(false), Sync(PausedBase(terms))],
        [Event.Reply(Parsed(response)), TakeAction(cwd), Sync(terms.base)];
    AfterJoined(a, analyze, first, rest);
    assert first + rest == [Process(false), Sync(PausedBase(terms)), Event.Reply(Parsed(response)), TakeAction(cwd),
                            Sync(terms.base)];
    AfterTwo(a, analyze, Process(false), Sync(PausedBase(terms)));
    RoundBegins(a, terms, l);
    var began := Began(a, Asking);
    PauseIsTakenUp(began, terms);
    var paused := began.(status := Paused, snapshot := PausedBase(terms));
    AfterThree(paused, analyze, Event.Reply(Parsed(response)), TakeAction(cwd), Sync(terms.base));
    RouteOfPaused(a, terms, response);
    PausedReplyIsDropped(paused, analyze, response, cwd);
    PauseIsLeft(paused.(round := None), terms);
  }

  lemma RouteOfPaused(a: Agent, terms: Terms, response: Option<Response>)
    requires a.snapshot == terms.base
    ensures Route(Began(a, Asking).(status := Paused, snapshot := PausedBase(terms)), terms.analyze, response) ==
            Route(a, terms.analyze, response)
  {}

  // ----- What fails a task -----

  /** A rejection of the pending command, not seen before, while one is awaited. */
  predicate Rejects(a: Agent, snapshot: Snapshot) {
    && a.status == AwaitingApproval && !BringsTask(a, Sync(snapshot))
    && snapshot.pendingApproval.Some? && snapshot.approvalResult == Some(Lexer.Rejected)
    && a.seenResult != snapshot.approvalResult
  }

  /** The store shows an error of the task at work. */
  predicate ShowsError(a: Agent, snapshot: Snapshot) {
    && snapshot.store == StoreError && snapshot.task.Some? && a.initialized == snapshot.task
    && a.status !in {Idle, Completed, Failed}
  }

  predicate SyncFails(a: Agent, snapshot: Snapshot) {
    || ShowsError(a, snapshot)
    || (Rejects(a, snapshot) && snapshot.store != StorePaused && !Completes(a, Sync(snapshot)))
  }

  /** A misstep beyond the third in a row, or an error that no retry helps. */
  predicate ReplyFails(a: Agent, analyze: Analyzer, reply: Reply) {
    && a.round.Some? && a.round.value.stage == Asking && IsCurrent(a, a.round.value.version)
    && match reply
       case Thrown(aborted, retryable, early) =>
         (early || (!aborted && a.status != Paused)) && !(retryable && a.retries < MAX_AGENT_RETRIES)
       case Parsed(response) => a.status != Paused && Route(a, analyze, response).None?
  }

  predicate ActionFails(a: Agent, analyze: Analyzer, action: Action) {
    match action
    case Execute(command, _) => !Blocks(a.snapshot.config, analyze, command) && a.connection.None?
    case RetryParse => a.status != Paused && a.retries >= MAX_AGENT_RETRIES
    case GiveUp => a.status != Paused
    case _ => false
  }

  predicate FlightFails(a: Agent, k: nat) {
    k < |a.flights| && a.flights[k].leg != Over && IsCurrent(a, a.flights[k].version)
  }

  /** Everything that fails a task. */
  predicate FailsTask(a: Agent, analyze: Analyzer, event: Event) {
    && !a.disposed
    && match event
       case Sync(snapshot) => SyncFails(a, snapshot)
       case Process(outOfBudget) =>
         && a.round == None && a.status == Idle && a.snapshot.task.Some? && a.initialized == a.snapshot.task
         && a.snapshot.store == StoreThinking && (a.rounds >= MAX_AGENT_ROUNDS || outOfBudget)
       case Reply(reply) => ReplyFails(a, analyze, reply)
       case TakeAction(_) =>
         && a.round.Some? && a.round.value.stage.Routed? && IsCurrent(a, a.round.value.version)
         && ActionFails(a, analyze, a.round.value.stage.action)
       case EndWait(end) =>
         && a.round.Some? && a.round.value.stage.Waiting? && IsCurrent(a, a.round.value.version)
         && a.status != Paused && end == Fails(false)
       case Import(k, _) => FlightFails(a, k) && a.flights[k].leg == Importing && a.connection.None?
       case EndFlight(k, end) => FlightFails(a, k) && end == Fails(false)
       case _ => false
  }

  lemma FailsIff(a: Agent, analyze: Analyzer, event: Event)
    requires a.status != Failed
    ensures Next(a, analyze, event).status == Failed <==> FailsTask(a, analyze, event)
  {
    hide Recall, Blocks, Shell.PrefixCwd, Route;
    match event {
      case Sync(snapshot) =>
        hide Next, SyncFails;
        SyncFailsIff(a, analyze, snapshot);
      case _ => hide Synced;
    }
  }

  lemma SyncFailsIff(a: Agent, analyze: Analyzer, snapshot: Snapshot)
    requires a.status != Failed
    ensures Next(a, analyze, Sync(snapshot)).status == Failed <==> !a.disposed && SyncFails(a, snapshot)
  {
    if !a.disposed {
      var paused := SyncedSoFar(a, snapshot);
      StatusBeforeDecisions(a, snapshot);
      DecisionsFail(paused, analyze);
      AnswersFailNothing(ApprovalSynced(paused, analyze), snapshot);
      hide ApprovalSynced, InputSynced, TaskSynced, EndSynced, PauseSynced;
    }
  }

  lemma DecisionsFail(a: Agent, analyze: Analyzer)
    ensures ApprovalSynced(a, analyze).status == Failed <==>
              || a.status == Failed
              || (a.status == AwaitingApproval && a.snapshot.pendingApproval.Some?
                  && a.snapshot.approvalResult == Some(Lexer.Rejected) && a.seenResult != a.snapshot.approvalResult)
  {
    hide Blocks;
  }

  lemma AnswersFailNothing(a: Agent, snapshot: Snapshot)
    ensures InputSynced(a, snapshot).status == Failed <==> a.status == Failed
  {}
}
