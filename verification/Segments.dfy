/**
  Splitting a command line into segments for the risk analysis, and the `cd` prefix that the
  agent puts before single-line commands.
 */
module Segments {
  import opened Text
  import opened ShellLexer

  // ----- Trimming -----

  function TrimLeft(s: string): (r: string)
    ensures |r| <= |s|
  {
    if s != "" && IsSpace(s[0]) then TrimLeft(s[1..]) else s
  }

  function TrimRight(s: string): (r: string)
    ensures |r| <= |s|
  {
    if s != "" && IsSpace(s[|s| - 1]) then TrimRight(s[..|s| - 1]) else s
  }

  /** ECMAScript's `String.trim`. */
  function TrimBoth(s: string): string {
    TrimRight(TrimLeft(s))
  }

  ghost predicate AllSpace(s: string) {
    forall i :: 0 <= i < |s| ==> IsSpace(s[i])
  }

  lemma {:induction false} TrimLeftDrops(space: string, s: string)
    requires AllSpace(space)
    ensures TrimLeft(space + s) == TrimLeft(s)
  {
    if space == "" {
      assert space + s == s;
    } else {
      assert (space + s)[1..] == space[1..] + s;
      TrimLeftDrops(space[1..], s);
    }
  }

  lemma {:induction false} TrimRightDrops(s: string, space: string)
    requires AllSpace(space)
    ensures TrimRight(s + space) == TrimRight(s)
  {
    if space == "" {
      assert s + space == s;
    } else {
      assert (s + space)[..|s + space| - 1] == s + space[..|space| - 1];
      TrimRightDrops(s, space[..|space| - 1]);
    }
  }

  lemma {:induction false} TrimLeftAppend(s: string, more: string)
    ensures TrimLeft(s) != "" ==> TrimLeft(s + more) == TrimLeft(s) + more
    ensures TrimLeft(s) == "" ==> AllSpace(s) && TrimLeft(s + more) == TrimLeft(more)
  {
    if s == "" {
      assert s + more == more;
    } else {
      assert (s + more)[1..] == s[1..] + more;
      TrimLeftAppend(s[1..], more);
    }
  }

  lemma {:induction false} TrimLeftSplits(s: string) returns (space: string)
    ensures AllSpace(space) && s == space + TrimLeft(s)
  {
    hide IsSpace;
    if s != "" && IsSpace(s[0]) {
      var rest := TrimLeftSplits(s[1..]);
      space := [s[0]] + rest;
      assert s == [s[0]] + s[1..];
      assert [s[0]] + (rest + TrimLeft(s[1..])) == space + TrimLeft(s[1..]);
    } else {
      space := "";
    }
  }

  lemma {:induction false} TrimRightSplits(s: string) returns (space: string)
    ensures AllSpace(space) && s == TrimRight(s) + space
  {
    hide IsSpace;
    if s != "" && IsSpace(s[|s| - 1]) {
      var rest := TrimRightSplits(s[..|s| - 1]);
      space := rest + [s[|s| - 1]];
      assert s == s[..|s| - 1] + [s[|s| - 1]];
    } else {
      space := "";
    }
  }

  lemma TrimIgnoresSpace(before: string, s: string, after: string)
    requires AllSpace(before) && AllSpace(after)
    ensures TrimBoth(before + s + after) == TrimBoth(s)
  {
    assert before + s + after == before + (s + after);
    TrimLeftDrops(before, s + after);
    TrimLeftAppend(s, after);
    if TrimLeft(s) != "" {
      TrimRightDrops(TrimLeft(s), after);
    } else {
      TrimLeftDrops(after, "");
      assert after + "" == after;
    }
  }

  // ----- Segments -----

  datatype Separator = Start | Seq | Pipe

  datatype Segment = Segment(raw: string, separator: Separator)

  function Push(current: string, separator: Separator): seq<Segment> {
    if TrimBoth(current) != "" then [Segment(TrimBoth(current), separator)] else []
  }

  /** The operator at the head of `s`, as its length and the separator it introduces. */
  function Operator(s: string): (r: Option<(nat, Separator)>)
    ensures r.Some? ==> 1 <= r.value.0 <= |s|
  {
    if s == "" then None
    else if s[0] == '\n' || s[0] == ';' then Some((1, Seq))
    else if "&&" <= s || "||" <= s then Some((2, Seq))
    else if s[0] == '|' then Some((1, Pipe))
    else if s[0] == '&' then Some((1, Seq))
    else None
  }

  function SegmentsFrom(state: State, current: string, separator: Separator, s: string): seq<Segment>
    decreases |s|
  {
    if s == "" then Push(current, separator)
    else if IsActive(state, s[0]) && Operator(s).Some? then
      var (length, next) := Operator(s).value;
      Push(current, separator) + SegmentsFrom(state, "", next, s[length..])
    else SegmentsFrom(Next(state, s[0]), current + [s[0]], separator, s[1..])
  }

  function Split(command: string): seq<Segment> {
    SegmentsFrom(NEUTRAL, "", Start, command)
  }

  method SplitCommandSegments(command: string) returns (segments: seq<Segment>)
    ensures segments == Split(command)
  {
    segments := [];
    var current := "";
    var separator := Start;
    var quote := Unquoted;
    var escaped := false;
    var index := 0;
    hide SegmentsFrom, Push, Operator;
    assert command[0..] == command && [] + Split(command) == Split(command);
    while index < |command|
      invariant 0 <= index <= |command|
      invariant Split(command) == segments + SegmentsFrom(State(quote, escaped), current, separator, command[index..])
    {
      var c := command[index];
      var rest := command[index..];
      ReadCharacter(segments, State(quote, escaped), current, separator, command, index);
      if escaped {
        current := current + [c];
        escaped := false;
        index := index + 1;
      } else if c == '\\' && quote != Single {
        current := current + [c];
        escaped := true;
        index := index + 1;
      } else if quote != Unquoted {
        current := current + [c];
        if QuoteOf(c) == quote {
          quote := Unquoted;
        }
        index := index + 1;
      } else if QuoteOf(c) != Unquoted {
        current := current + [c];
        quote := QuoteOf(c);
        index := index + 1;
      } else if Operator(rest).Some? {
        var (length, next) := Operator(rest).value;
        segments := segments + Push(current, separator);
        current := "";
        separator := next;
        index := index + length;
      } else {
        current := current + [c];
        index := index + 1;
      }
    }
    LastSegment(State(quote, escaped), current, separator, command);
    segments := segments + Push(current, separator);
  }

  lemma ReadCharacter(segments: seq<Segment>, state: State, current: string, separator: Separator, command: string,
        index: nat)
    requires index < |command|
    ensures var rest := command[index..];
            segments + SegmentsFrom(state, current, separator, rest) ==
            if IsActive(state, command[index]) && Operator(rest).Some? then
              segments + Push(current, separator)
              + SegmentsFrom(state, "", Operator(rest).value.1, command[index + Operator(rest).value.0..])
            else segments + SegmentsFrom(Next(state, command[index]), current + [command[index]], separator,
                command[index + 1..])
  {
    hide Push, Operator;
    var rest := command[index..];
    assert rest[0] == command[index] && rest[1..] == command[index + 1..];
    if IsActive(state, command[index]) && Operator(rest).Some? {
      var (length, next) := Operator(rest).value;
      assert rest[length..] == command[index + length..];
      var later := SegmentsFrom(state, "", next, command[index + length..]);
      assert segments + (Push(current, separator) + later) == segments + Push(current, separator) + later;
    }
  }

  lemma LastSegment(state: State, current: string, separator: Separator, command: string)
    ensures SegmentsFrom(state, current, separator, command[|command|..]) == Push(current, separator)
  {
    assert command[|command|..] == "";
  }

  function EndState(state: State, s: string): State
    decreases |s|
  {
    if s == "" then state else EndState(Next(state, s[0]), s[1..])
  }

  /** Every quote is closed and nothing is left to escape. */
  predicate IsClosed(s: string) {
    EndState(NEUTRAL, s) == NEUTRAL
  }

  /** An operator that reads the same behind the text before it. */
  predicate Separates(before: string, operator: string, after: string, separator: Separator) {
    && operator != ""
    && Operator(operator + after) == Some((|operator|, separator))
    && (before == "" || operator[0] == ';' || operator[0] == '\n' || before[|before| - 1] !in "&|")
  }

  lemma {:induction false} SplitAtOperator(state: State, current: string, first: Separator, a: string, op: string,
        b: string, separator: Separator)
    requires EndState(state, a) == NEUTRAL && Separates(a, op, b, separator)
    ensures SegmentsFrom(state, current, first, a + op + b) ==
            SegmentsFrom(state, current, first, a) + SegmentsFrom(NEUTRAL, "", separator, b)
    decreases |a|
  {
    hide Push, Operator;
    var whole := a + op + b;
    if a == "" {
      SplitInFront(current, first, op, b, separator);
      assert whole == op + b;
    } else if IsActive(state, a[0]) && Operator(a).Some? {
      OperatorInFront(a, op, b, separator);
      var (length, next) := Operator(a).value;
      EndStateBehindOperator(a);
      assert whole[0] == a[0] && whole[length..] == a[length..] + op + b;
      hide Separates, EndState;
      SplitAtOperator(state, "", next, a[length..], op, b, separator);
      AssocSegments(Push(current, first), SegmentsFrom(state, "", next, a[length..]),
                    SegmentsFrom(NEUTRAL, "", separator, b));
    } else {
      OperatorInFront(a, op, b, separator);
      assert whole[0] == a[0] && whole[1..] == a[1..] + op + b;
      SplitAtOperator(Next(state, a[0]), current + [a[0]], first, a[1..], op, b, separator);
    }
  }

  lemma AssocSegments(a: seq<Segment>, b: seq<Segment>, c: seq<Segment>)
    ensures a + (b + c) == a + b + c
  {}

  lemma SplitInFront(current: string, first: Separator, op: string, b: string, separator: Separator)
    requires Separates("", op, b, separator)
    ensures SegmentsFrom(NEUTRAL, current, first, op + b) ==
            Push(current, first) + SegmentsFrom(NEUTRAL, "", separator, b)
  {
    hide Push;
    assert (op + b)[|op|..] == b && (op + b)[0] == op[0];
  }

  lemma OperatorInFront(a: string, op: string, b: string, separator: Separator)
    requires a != "" && Separates(a, op, b, separator)
    ensures Operator(a + op + b) == Operator(a)
    ensures Operator(a).Some? ==> Separates(a[Operator(a).value.0..], op, b, separator)
    ensures Separates(a[1..], op, b, separator)
  {
    var whole := a + op + b;
    assert whole[0] == a[0];
    assert |a| == 1 ==> whole[1] == op[0];
    assert |a| >= 2 ==> whole[1] == a[1];
  }

  lemma EndStateBehindOperator(a: string)
    requires a != "" && IsActive(NEUTRAL, a[0]) && Operator(a).Some?
    ensures EndState(NEUTRAL, a[Operator(a).value.0..]) == EndState(NEUTRAL, a)
  {
    assert Next(NEUTRAL, a[0]) == NEUTRAL;
    if Operator(a).value.0 == 2 {
      assert a[1..][1..] == a[2..];
    }
  }

  /** Segments of two quote-closed parts joined by ";" are the segments of the parts. */
  lemma SplitIsHomomorphic(a: string, b: string)
    requires IsClosed(a)
    ensures Split(a + ";" + b) == Split(a) + SegmentsFrom(NEUTRAL, "", Seq, b)
  {
    SplitAtOperator(NEUTRAL, "", Start, a, ";", b, Seq);
  }

  /** The operators, and how each introduces the segment behind it: only a single "|" is a pipe. */
  const OPERATORS: seq<string> := ["|", "||", "&&", "&", ";", "\n"]

  function IntroducedBy(op: string): Separator {
    if op == "|" then Pipe else Seq
  }

  /** An operator that is not read together with what stands beside it. */
  predicate StandsAlone(a: string, op: string, b: string) {
    && op in OPERATORS
    && (op != ";" && op != "\n" ==> a == "" || a[|a| - 1] !in "&|")
    && (op == "|" || op == "&" ==> b == "" || b[0] != op[0])
  }

  lemma OperatorIsRead(op: string, b: string)
    requires StandsAlone("", op, b)
    ensures Operator(op + b) == Some((|op|, IntroducedBy(op)))
  {
    var s := op + b;
    assert s[0] == op[0] && (|op| == 2 ==> s[1] == op[1]) && (|op| == 1 && b != "" ==> s[1] == b[0]);
    assert op in OPERATORS ==> op == "|" || op == "||" || op == "&&" || op == "&" || op == ";" || op == "\n";
  }

  /** Behind a quote-closed part every operator starts a new segment, introduced as it should be. */
  lemma SplitAtAnyOperator(a: string, op: string, b: string)
    requires IsClosed(a) && StandsAlone(a, op, b)
    ensures Split(a + op + b) == Split(a) + SegmentsFrom(NEUTRAL, "", IntroducedBy(op), b)
  {
    hide Operator, SegmentsFrom;
    OperatorIsRead(op, b);
    SplitAtOperator(NEUTRAL, "", Start, a, op, b, IntroducedBy(op));
  }

  /** How a text is introduced shows in its first segment only, or nowhere if an operator comes first. */
  lemma {:induction false} IntroductionShowsOnce(state: State, current: string, separator: Separator, s: string)
    ensures var p, q := SegmentsFrom(state, current, separator, s), SegmentsFrom(state, current, Start, s);
            p == q || (q != [] && q[0].separator == Start && p == [q[0].(separator := separator)] + q[1..])
    decreases |s|
  {
    hide TrimBoth;
    if s == "" {
    } else if IsActive(state, s[0]) && Operator(s).Some? {
    } else {
      IntroductionShowsOnce(Next(state, s[0]), current + [s[0]], separator, s[1..]);
    }
  }

  lemma TrimmedAwayIff(s: string)
    ensures TrimBoth(s) == "" <==> AllSpace(s)
  {
    hide IsSpace;
    if AllSpace(s) {
      OnlySpaceIsTrimmed(s);
    } else {
      var before := TrimLeftSplits(s);
      var after := TrimRightSplits(TrimLeft(s));
      assert TrimBoth(s) == "" ==> s == before + after;
    }
  }

  lemma {:induction false} VisibleIsIntroduced(state: State, current: string, separator: Separator, s: string)
    requires !AllSpace(current)
    ensures var p := SegmentsFrom(state, current, separator, s); p != [] && p[0].separator == separator
    decreases |s|
  {
    hide TrimBoth, IsSpace;
    TrimmedAwayIff(current);
    if s == "" {
    } else if IsActive(state, s[0]) && Operator(s).Some? {
    } else {
      assert forall i :: 0 <= i < |current| ==> (current + [s[0]])[i] == current[i];
      VisibleIsIntroduced(Next(state, s[0]), current + [s[0]], separator, s[1..]);
    }
  }

  /** Behind its operator a command is the segment that the operator introduces. */
  lemma {:induction false} CommandIsIntroduced(current: string, separator: Separator, space: string, c: char,
          rest: string)
    requires AllSpace(space) && '\n' !in space && !IsSpace(c)
    requires !(IsActive(NEUTRAL, c) && Operator([c] + rest).Some?)
    ensures var p := SegmentsFrom(NEUTRAL, current, separator, space + ([c] + rest));
            p != [] && p[0].separator == separator
    decreases |space|
  {
    hide SegmentsFrom, Operator;
    if space == "" {
      assert space + ([c] + rest) == [c] + rest;
      ReadOne(NEUTRAL, current, separator, c, rest);
      assert (current + [c])[|current|] == c;
      VisibleIsIntroduced(Next(NEUTRAL, c), current + [c], separator, rest);
    } else {
      var behind := space[1..] + ([c] + rest);
      assert space + ([c] + rest) == [space[0]] + behind && space[0] in space;
      SpaceIsNoOperator(space[0], behind);
      ReadOne(NEUTRAL, current, separator, space[0], behind);
      CommandIsIntroduced(current + [space[0]], separator, space[1..], c, rest);
    }
  }

  // ----- Risk -----

  datatype Hit = Hit(level: RiskLevel, reason: string)

  function Weight(level: RiskLevel): nat {
    match level case Low => 0 case Medium => 1 case High => 2 case Critical => 3
  }

  /**
    The rule tables, as a function of one segment. The only use they make of the separator is
    to ask whether it is a pipe.
   */
  type Rules = f: Segment -> seq<Hit> | forall raw: string :: f(Segment(raw, Start)) == f(Segment(raw, Seq))
    witness (_: Segment) => []

  function Hits(rules: Rules, segments: seq<Segment>): seq<Hit> {
    if segments == [] then [] else rules(segments[0]) + Hits(rules, segments[1..])
  }

  /** The first hit of the highest level, as the left fold over the hits picks it. */
  function Highest(hits: seq<Hit>): (top: Option<Hit>)
    ensures top.None? <==> hits == []
    ensures top.Some? ==> top.value in hits && forall h :: h in hits ==> Weight(h.level) <= Weight(top.value.level)
  {
    if hits == [] then None
    else
      var last := hits[|hits| - 1];
      match Highest(hits[..|hits| - 1])
      case None => Some(last)
      case Some(top) => if Weight(last.level) > Weight(top.level) then Some(last) else Some(top)
  }

  /** Among equally high hits it is the first one. */
  lemma {:induction false} HighestIsFirst(hits: seq<Hit>, i: nat)
    requires i < |hits| && Weight(hits[i].level) == Weight(Highest(hits).value.level)
    requires forall j :: 0 <= j < i ==> Weight(hits[j].level) < Weight(hits[i].level)
    ensures Highest(hits) == Some(hits[i])
  {
    var before := hits[..|hits| - 1];
    if i < |hits| - 1 {
      assert before[i] in hits && hits[i] == before[i];
      assert Weight(Highest(before).value.level) == Weight(hits[i].level) by {
        assert before[i] in before && Highest(before).value in hits;
      }
      HighestIsFirst(before, i);
    } else if before != [] {
      assert Highest(before).value in before;
    }
  }

  function LevelOf(hits: seq<Hit>): RiskLevel {
    match Highest(hits) case None => Low case Some(top) => top.level
  }

  function Risk(rules: Rules, command: string): RiskLevel {
    LevelOf(Hits(rules, Split(TrimBoth(command))))
  }

  function MaxLevel(a: RiskLevel, b: RiskLevel): RiskLevel {
    if Weight(b) > Weight(a) then b else a
  }

  lemma LevelOfConcat(a: seq<Hit>, b: seq<Hit>)
    ensures LevelOf(a + b) == MaxLevel(LevelOf(a), LevelOf(b))
  {
    hide Highest;
    var both := a + b;
    assert forall h :: h in both <==> h in a || h in b;
    assert a == [] || Highest(a).value in both;
    assert b == [] || Highest(b).value in both;
  }

  lemma {:induction false} HitsConcat(rules: Rules, a: seq<Segment>, b: seq<Segment>)
    ensures Hits(rules, a + b) == Hits(rules, a) + Hits(rules, b)
  {
    if a == [] {
      assert a + b == b;
    } else {
      assert (a + b)[1..] == a[1..] + b;
      HitsConcat(rules, a[1..], b);
    }
  }

  /** How a first segment is introduced does not matter to the rules. */
  lemma {:induction false} FirstSeparatorIrrelevant(rules: Rules, state: State, current: string, s: string)
    ensures Hits(rules, SegmentsFrom(state, current, Start, s)) == Hits(rules, SegmentsFrom(state, current, Seq, s))
    decreases |s|
  {
    hide TrimBoth;
    if s == "" {
      PushSeparatorIrrelevant(rules, current);
    } else if IsActive(state, s[0]) && Operator(s).Some? {
      var (length, next) := Operator(s).value;
      PushSeparatorIrrelevant(rules, current);
      HitsConcat(rules, Push(current, Start), SegmentsFrom(state, "", next, s[length..]));
      HitsConcat(rules, Push(current, Seq), SegmentsFrom(state, "", next, s[length..]));
    } else {
      FirstSeparatorIrrelevant(rules, Next(state, s[0]), current + [s[0]], s[1..]);
    }
  }

  lemma PushSeparatorIrrelevant(rules: Rules, current: string)
    ensures Hits(rules, Push(current, Start)) == Hits(rules, Push(current, Seq))
  {
    var raw := TrimBoth(current);
    assert [Segment(raw, Start)][1..] == [] && [Segment(raw, Seq)][1..] == [];
  }

  /** Whitespace in front of a segment, or behind everything, leaves no trace. */
  lemma {:induction false} LeadingSpace(state: State, space: string, current: string, separator: Separator, s: string)
    requires AllSpace(space)
    ensures SegmentsFrom(state, space + current, separator, s) == SegmentsFrom(state, current, separator, s)
    decreases |s|
  {
    assert space + current + "" == space + current;
    TrimIgnoresSpace(space, current, "");
    if s != "" && !(IsActive(state, s[0]) && Operator(s).Some?) {
      assert space + current + [s[0]] == space + (current + [s[0]]);
      LeadingSpace(Next(state, s[0]), space, current + [s[0]], separator, s[1..]);
    }
  }

  lemma {:induction false} TrailingSpace(state: State, current: string, separator: Separator, s: string, space: string)
    requires AllSpace(space)
    ensures SegmentsFrom(state, current, separator, s + space) == SegmentsFrom(state, current, separator, s)
    decreases |s| + |space|
  {
    if s != "" {
      assert (s + space)[1..] == s[1..] + space;
      OperatorBeforeSpace(s, space);
      if IsActive(state, s[0]) && Operator(s).Some? {
        var (length, next) := Operator(s).value;
        assert (s + space)[length..] == s[length..] + space;
        TrailingSpace(state, "", next, s[length..], space);
      } else {
        TrailingSpace(Next(state, s[0]), current + [s[0]], separator, s[1..], space);
      }
    } else {
      assert s + space == space;
      OnlySpace(state, current, separator, space);
    }
  }

  lemma OperatorBeforeSpace(s: string, space: string)
    requires s != "" && AllSpace(space)
    ensures Operator(s + space) == Operator(s)
  {
    assert (s + space)[0] == s[0];
    assert |s| == 1 && space != "" ==> (s + space)[1] == space[0];
    assert |s| >= 2 ==> (s + space)[1] == s[1];
  }

  lemma {:induction false} OnlySpace(state: State, current: string, separator: Separator, space: string)
    requires AllSpace(space)
    ensures SegmentsFrom(state, current, separator, space) == Push(current, separator)
    decreases |space|
  {
    if space == "" {
    } else {
      if IsActive(state, space[0]) && Operator(space).Some? {
        OnlySpace(state, "", Seq, space[1..]);
        assert Push("", Seq) == [];
      } else {
        OnlySpace(Next(state, space[0]), current + [space[0]], separator, space[1..]);
        assert "" + current + [space[0]] == current + [space[0]];
        TrimIgnoresSpace("", current, [space[0]]);
      }
    }
  }

  lemma OnlySpaceIsTrimmed(space: string)
    requires AllSpace(space)
    ensures TrimBoth(space) == ""
  {
    hide IsSpace;
    TrimIgnoresSpace(space, "", "");
    assert space + "" + "" == space;
  }

  lemma ReadNewline(current: string, separator: Separator, rest: string)
    requires TrimBoth(current) == ""
    ensures SegmentsFrom(NEUTRAL, current, separator, ['\n'] + rest) == SegmentsFrom(NEUTRAL, "", Seq, rest)
  {
    hide TrimBoth;
    assert (['\n'] + rest)[1..] == rest;
    assert [] + SegmentsFrom(NEUTRAL, "", Seq, rest) == SegmentsFrom(NEUTRAL, "", Seq, rest);
  }

  lemma SpaceIsNoOperator(c: char, rest: string)
    requires IsSpace(c) && c != '\n'
    ensures Operator([c] + rest).None? && Next(NEUTRAL, c) == NEUTRAL
  {
    assert ([c] + rest)[0] == c;
  }

  lemma SpaceInFront(current: string, separator: Separator, space: string, s: string)
    requires AllSpace(space) && AllSpace(current) && space != ""
    ensures SegmentsFrom(NEUTRAL, current, separator, space + s) ==
            if space[0] == '\n' then SegmentsFrom(NEUTRAL, "", Seq, space[1..] + s)
            else SegmentsFrom(NEUTRAL, current + [space[0]], separator, space[1..] + s)
  {
    hide SegmentsFrom, TrimBoth, IsSpace, Operator;
    var rest := space[1..] + s;
    assert space + s == [space[0]] + rest;
    if space[0] == '\n' {
      OnlySpaceIsTrimmed(current);
      ReadNewline(current, separator, rest);
    } else {
      SpaceIsNoOperator(space[0], rest);
      ReadOne(NEUTRAL, current, separator, space[0], rest);
    }
  }

  /** Leading whitespace, newlines included, only changes how the first segment is introduced. */
  lemma {:induction false} HitsIgnoreLeadingSpace(rules: Rules, current: string, separator: Separator,
          space: string, s: string)
    requires AllSpace(space) && AllSpace(current) && separator != Pipe
    ensures Hits(rules, SegmentsFrom(NEUTRAL, current, separator, space + s)) ==
            Hits(rules, SegmentsFrom(NEUTRAL, "", Start, s))
    decreases |space|
  {
    hide SegmentsFrom, Hits;
    assert current + "" == current;
    if space == "" {
      assert space + s == s;
      LeadingSpace(NEUTRAL, current, "", separator, s);
      FirstSeparatorIrrelevant(rules, NEUTRAL, "", s);
    } else {
      SpaceInFront(current, separator, space, s);
      if space[0] == '\n' {
        HitsIgnoreLeadingSpace(rules, "", Seq, space[1..], s);
      } else {
        HitsIgnoreLeadingSpace(rules, current + [space[0]], separator, space[1..], s);
      }
    }
  }

  /** Trimming the command first does not change what the rules see. */
  lemma HitsOfTrimmed(rules: Rules, command: string)
    ensures Hits(rules, Split(TrimBoth(command))) == Hits(rules, Split(command))
  {
    hide SegmentsFrom, Hits;
    var before := TrimLeftSplits(command);
    var after := TrimRightSplits(TrimLeft(command));
    HitsIgnoreLeadingSpace(rules, "", Start, before, TrimLeft(command));
    TrailingSpace(NEUTRAL, "", Start, TrimBoth(command), after);
  }

  lemma RiskOfSplit(rules: Rules, command: string)
    ensures Risk(rules, command) == LevelOf(Hits(rules, Split(command)))
  {
    hide SegmentsFrom, Hits, LevelOf;
    HitsOfTrimmed(rules, command);
  }

  /**
    The risk of "a;b" is the higher of the two risks, so adding a segment never lowers it.
   */
  lemma RiskOfSequence(rules: Rules, a: string, b: string)
    requires IsClosed(a)
    ensures Risk(rules, a + ";" + b) == MaxLevel(Risk(rules, a), Risk(rules, b))
    ensures Weight(Risk(rules, a)) <= Weight(Risk(rules, a + ";" + b))
  {
    hide SegmentsFrom, Hits, LevelOf, Risk;
    RiskOfSplit(rules, a);
    RiskOfSplit(rules, b);
    RiskOfSplit(rules, a + ";" + b);
    HitsOfSequence(rules, a, b);
    LevelOfConcat(Hits(rules, Split(a)), Hits(rules, Split(b)));
  }

  lemma HitsOfSequence(rules: Rules, a: string, b: string)
    requires IsClosed(a)
    ensures Hits(rules, Split(a + ";" + b)) == Hits(rules, Split(a)) + Hits(rules, Split(b))
  {
    hide SegmentsFrom, Hits;
    SplitIsHomomorphic(a, b);
    HitsConcat(rules, Split(a), SegmentsFrom(NEUTRAL, "", Seq, b));
    FirstSeparatorIrrelevant(rules, NEUTRAL, "", b);
  }

  /** Behind any operator: what the rules find in both parts, the second one seen as it is introduced. */
  lemma HitsAtOperator(rules: Rules, a: string, op: string, b: string)
    requires IsClosed(a) && StandsAlone(a, op, b)
    ensures Hits(rules, Split(a + op + b)) ==
            Hits(rules, Split(a))
            + if op == "|" then Hits(rules, SegmentsFrom(NEUTRAL, "", Pipe, b)) else Hits(rules, Split(b))
  {
    hide SegmentsFrom, Hits, StandsAlone;
    SplitAtAnyOperator(a, op, b);
    HitsConcat(rules, Split(a), SegmentsFrom(NEUTRAL, "", IntroducedBy(op), b));
    FirstSeparatorIrrelevant(rules, NEUTRAL, "", b);
  }

  /** A rule that every segment breaks. */
  const EVERY: Rules := (_: Segment) => [Hit(Low, "")]

  lemma HitsOfEvery(segments: seq<Segment>)
    ensures Hits(EVERY, segments) == [] <==> segments == []
  {
  }

  /**
    A command passes the read-only gate: it is of low risk, it has a segment, and no segment
    breaks the read-only rules, given as `changes`.
   */
  predicate IsReadOnly(rules: Rules, changes: Rules, command: string) {
    var segments := Split(TrimBoth(command));
    Risk(rules, command) == Low && segments != [] && Hits(changes, segments) == []
  }

  /** No command becomes read-only by what is joined to it; a part without a segment changes nothing. */
  lemma ReadOnlyOfSequence(rules: Rules, changes: Rules, a: string, b: string)
    requires IsClosed(a)
    ensures IsReadOnly(rules, changes, a + ";" + b) <==>
            && (Split(a) != [] || Split(b) != [])
            && (Split(a) != [] ==> IsReadOnly(rules, changes, a))
            && (Split(b) != [] ==> IsReadOnly(rules, changes, b))
  {
    hide SegmentsFrom, Hits, Risk, Split;
    RiskOfSequence(rules, a, b);
    HitsOfSequence(changes, a, b);
    HitsOfSequence(EVERY, a, b);
    ReadOnlyBySegments(rules, changes, a);
    ReadOnlyBySegments(rules, changes, b);
    ReadOnlyBySegments(rules, changes, a + ";" + b);
    HitsOfEvery(Split(a));
    HitsOfEvery(Split(b));
    HitsOfEvery(Split(a + ";" + b));
    NoSegmentsNoRisk(rules, changes, a);
    NoSegmentsNoRisk(rules, changes, b);
  }

  /** Trimming the command first makes no difference to the test. */
  lemma ReadOnlyBySegments(rules: Rules, changes: Rules, command: string)
    ensures IsReadOnly(rules, changes, command) <==>
            Risk(rules, command) == Low && Split(command) != [] && Hits(changes, Split(command)) == []
  {
    hide SegmentsFrom, Hits, Risk, Split;
    HitsOfTrimmed(changes, command);
    HitsOfTrimmed(EVERY, command);
    HitsOfEvery(Split(TrimBoth(command)));
    HitsOfEvery(Split(command));
  }

  lemma NoSegmentsNoRisk(rules: Rules, changes: Rules, command: string)
    ensures Split(command) == [] ==> Risk(rules, command) == Low && Hits(changes, Split(command)) == []
  {
    hide SegmentsFrom, Split, Risk;
    RiskOfSplit(rules, command);
  }

  // ----- The working-directory prefix -----

  /** Replaces every single quote by '\'' . */
  function EscapeQuotes(value: string): string {
    if value == "" then ""
    else (if value[0] == '\'' then "'\\''" else [value[0]]) + EscapeQuotes(value[1..])
  }

  function ShellSingleQuote(value: string): string {
    "'" + EscapeQuotes(value) + "'"
  }

  predicate ShouldPrefixCwd(command: string) {
    var trimmed := TrimBoth(command);
    && trimmed != ""
    && '\n' !in trimmed && !Contains(trimmed, "<<")
    && !("cd" <= trimmed && (|trimmed| == 2 || IsSpace(trimmed[2])))
  }

  function PrefixCwd(command: string, cwd: Option<string>): string {
    if cwd.None? || cwd.value == "" || !ShouldPrefixCwd(command) then command
    else "cd " + ShellSingleQuote(cwd.value) + " && " + command
  }

  /**
    A command is handed over as it is exactly if no directory is known, or there is nothing in it, or
    it has more than one line or a here-document, or it is itself a change of directory.
   */
  lemma HandedOverUnchangedIff(command: string, cwd: Option<string>)
    ensures var text := TrimBoth(command);
            PrefixCwd(command, cwd) == command <==>
              || cwd == None || cwd == Some("")
              || text == ""
              || (exists i :: 0 <= i < |text| && text[i] == '\n')
              || (exists i :: 0 <= i < |text| - 1 && text[i] == '<' && text[i + 1] == '<')
              || text == "cd"
              || (|text| > 2 && text[0] == 'c' && text[1] == 'd' && IsSpace(text[2]))
  {
    var text := TrimBoth(command);
    HereDocumentIff(text);
    ChangesDirectoryIff(text);
    hide TrimBoth, EscapeQuotes, Contains;
    if cwd.Some? {
      assert |"cd " + ShellSingleQuote(cwd.value) + " && " + command| > |command|;
    }
  }

  lemma HereDocumentIff(text: string)
    ensures Contains(text, "<<") <==> exists i :: 0 <= i < |text| - 1 && text[i] == '<' && text[i + 1] == '<'
  {
    if Contains(text, "<<") {
      var i := Find(text, "<<").value;
      assert text[i..i + 2][0] == '<' && text[i..i + 2][1] == '<';
    } else if i :| 0 <= i < |text| - 1 && text[i] == '<' && text[i + 1] == '<' {
      assert text[i..i + 2] == "<<";
      assert OccursAt(text, "<<", i);
    }
  }

  lemma ChangesDirectoryIff(text: string)
    ensures "cd" <= text && (|text| == 2 || IsSpace(text[2])) <==>
            text == "cd" || (|text| > 2 && text[0] == 'c' && text[1] == 'd' && IsSpace(text[2]))
  {
    hide IsSpace;
    assert "cd" <= text <==> |text| >= 2 && text[0] == 'c' && text[1] == 'd';
  }

  /**
    Quote removal of one shell word (sections 2.2.1 to 2.2.3 of the POSIX Shell Command
    Language) for words made of single-quoted parts and backslash escapes.
   */
  function Unquote(word: string, inQuotes: bool): string
    decreases |word|
  {
    if word == "" then ""
    else if inQuotes then
      if word[0] == '\'' then Unquote(word[1..], false) else [word[0]] + Unquote(word[1..], true)
    else if word[0] == '\'' then Unquote(word[1..], true)
    else if word[0] == '\\' && |word| > 1 then [word[1]] + Unquote(word[2..], false)
    else [word[0]] + Unquote(word[1..], false)
  }

  lemma {:induction false} UnquoteEscaped(value: string)
    ensures Unquote(EscapeQuotes(value) + "'", true) == value
  {
    var word := EscapeQuotes(value) + "'";
    if value == "" {
      assert word == "'" && word[1..] == "";
    } else {
      var rest := EscapeQuotes(value[1..]) + "'";
      UnquoteEscaped(value[1..]);
      if value[0] == '\'' {
        assert ("'" + rest)[1..] == rest && Unquote("'" + rest, false) == value[1..];
        var escape := "\\''" + rest;
        assert escape[2..] == "'" + rest && Unquote(escape, false) == ['\''] + Unquote("'" + rest, false);
        assert word == "'\\''" + rest && word[1..] == escape;
      } else {
        assert word[1..] == rest;
      }
    }
  }

  /** The shell sees exactly the directory, whatever characters it holds. */
  lemma QuotedWordIsTheDirectory(value: string)
    ensures Unquote(ShellSingleQuote(value), false) == value
  {
    assert ShellSingleQuote(value)[1..] == EscapeQuotes(value) + "'";
    UnquoteEscaped(value);
  }

  /** A character that is not active is read into the current segment. */
  lemma ReadOne(state: State, current: string, separator: Separator, c: char, rest: string)
    requires !(IsActive(state, c) && Operator([c] + rest).Some?)
    ensures SegmentsFrom(state, current, separator, [c] + rest) ==
            SegmentsFrom(Next(state, c), current + [c], separator, rest)
  {
    assert ([c] + rest)[1..] == rest;
  }

  /** The escape of a quote leaves the quotes, reads the quote, and enters them again. */
  lemma ReadEscapedQuote(current: string, separator: Separator, rest: string)
    ensures SegmentsFrom(State(Single, false), current, separator, "'\\''" + rest) ==
            SegmentsFrom(State(Single, false), current + "'\\''", separator, rest)
  {
    hide SegmentsFrom;
    ReadOne(State(Single, false), current, separator, '\'', "\\''" + rest);
    ReadOne(NEUTRAL, current + "'", separator, '\\', "''" + rest);
    ReadOne(State(Unquoted, true), current + "'\\", separator, '\'', "'" + rest);
    ReadOne(NEUTRAL, current + "'\\'", separator, '\'', rest);
    assert "'\\''" + rest == ['\''] + ("\\''" + rest);
    assert "\\''" + rest == ['\\'] + ("''" + rest) && "''" + rest == ['\''] + ("'" + rest);
    assert "'" + rest == ['\''] + rest;
    assert current + "'" + ['\\'] == current + "'\\" && current + "'\\" + ['\''] == current + "'\\'";
    assert current + "'\\'" + ['\''] == current + "'\\''" && current + ['\''] == current + "'";
  }

  /** Inside and at the end of the quoted word no operator is active. */
  lemma {:induction false} QuotedPassesThrough(value: string, current: string, separator: Separator, s: string)
    ensures SegmentsFrom(State(Single, false), current, separator, EscapeQuotes(value) + "'" + s) ==
            SegmentsFrom(NEUTRAL, current + EscapeQuotes(value) + "'", separator, s)
    decreases |value|
  {
    hide SegmentsFrom;
    if value == "" {
      ReadOne(State(Single, false), current, separator, '\'', s);
      assert EscapeQuotes(value) + "'" + s == ['\''] + s && current + "" + "'" == current + ['\''];
    } else {
      var rest := EscapeQuotes(value[1..]) + "'" + s;
      if value[0] == '\'' {
        ReadEscapedQuote(current, separator, rest);
        QuotedPassesThrough(value[1..], current + "'\\''", separator, s);
        assert EscapeQuotes(value) + "'" + s == "'\\''" + rest;
        assert current + "'\\''" + EscapeQuotes(value[1..]) + "'" == current + EscapeQuotes(value) + "'";
      } else {
        ReadOne(State(Single, false), current, separator, value[0], rest);
        QuotedPassesThrough(value[1..], current + [value[0]], separator, s);
        assert EscapeQuotes(value) + "'" + s == [value[0]] + rest;
        assert current + [value[0]] + EscapeQuotes(value[1..]) + "'" == current + EscapeQuotes(value) + "'";
      }
    }
  }

  lemma ReadCd(separator: Separator, rest: string)
    ensures SegmentsFrom(NEUTRAL, "", separator, "cd '" + rest) ==
            SegmentsFrom(State(Single, false), "cd '", separator, rest)
  {
    hide SegmentsFrom;
    ReadOne(NEUTRAL, "", separator, 'c', "d '" + rest);
    ReadOne(NEUTRAL, "c", separator, 'd', " '" + rest);
    ReadOne(NEUTRAL, "cd", separator, ' ', "'" + rest);
    ReadOne(NEUTRAL, "cd ", separator, '\'', rest);
    assert "cd '" + rest == ['c'] + ("d '" + rest) && "d '" + rest == ['d'] + (" '" + rest);
    assert " '" + rest == [' '] + ("'" + rest) && "'" + rest == ['\''] + rest;
    assert "" + ['c'] == "c" && "c" + ['d'] == "cd" && "cd" + [' '] == "cd " && "cd " + ['\''] == "cd '";
  }

  /**
    The prefix adds exactly one segment, `cd '<cwd>'`, and leaves the segments of the command
    as they were.
   */
  lemma PrefixAddsOneSegment(command: string, cwd: string)
    requires cwd != "" && ShouldPrefixCwd(command)
    ensures Split(PrefixCwd(command, Some(cwd))) ==
            [Segment("cd " + ShellSingleQuote(cwd), Start)] + SegmentsFrom(NEUTRAL, "", Seq, command)
  {
    hide ShouldPrefixCwd, SegmentsFrom, PrefixCwd, EscapeQuotes;
    var word := ShellSingleQuote(cwd);
    var tail := " && " + command;
    PrefixText(command, cwd);
    ReadCd(Start, EscapeQuotes(cwd) + "'" + tail);
    QuotedPassesThrough(cwd, "cd '", Start, tail);
    assert "cd '" + EscapeQuotes(cwd) + "'" == "cd " + word;
    AfterTheWord(word, command);
  }

  /** Every rule finds what it finds in the new segment, and then what it finds in the command. */
  lemma HitsOfPrefixed(rules: Rules, command: string, cwd: string)
    requires cwd != "" && ShouldPrefixCwd(command)
    ensures Hits(rules, Split(PrefixCwd(command, Some(cwd)))) ==
            rules(Segment("cd " + ShellSingleQuote(cwd), Start)) + Hits(rules, Split(command))
  {
    hide ShouldPrefixCwd, SegmentsFrom, PrefixCwd, ShellSingleQuote;
    var first := Segment("cd " + ShellSingleQuote(cwd), Start);
    var rest := SegmentsFrom(NEUTRAL, "", Seq, command);
    PrefixAddsOneSegment(command, cwd);
    FirstSeparatorIrrelevant(rules, NEUTRAL, "", command);
    assert ([first] + rest)[1..] == rest;
  }

  lemma PrefixText(command: string, cwd: string)
    requires cwd != "" && ShouldPrefixCwd(command)
    ensures PrefixCwd(command, Some(cwd)) == "cd '" + (EscapeQuotes(cwd) + "'" + (" && " + command))
  {
    hide ShouldPrefixCwd, EscapeQuotes;
    var quoted := EscapeQuotes(cwd) + "'";
    assert "cd " + ("'" + EscapeQuotes(cwd) + "'") == "cd '" + quoted;
    assert PrefixCwd(command, Some(cwd)) == "cd '" + quoted + " && " + command;
    hide PrefixCwd;
    assert "cd '" + quoted + " && " + command == "cd '" + (quoted + (" && " + command));
  }

  lemma AfterTheWord(word: string, command: string)
    requires |word| >= 2 && word[|word| - 1] == '\''
    ensures SegmentsFrom(NEUTRAL, "cd " + word, Start, " && " + command) ==
            [Segment("cd " + word, Start)] + SegmentsFrom(NEUTRAL, "", Seq, command)
  {
    hide SegmentsFrom, Push;
    var current := "cd " + word;
    SpacedOperator(command);
    ReadOne(NEUTRAL, current, Start, ' ', "&& " + command);
    ReadAndAnd(current + [' '], " " + command);
    ReadOne(NEUTRAL, "", Seq, ' ', command);
    LeadingSpace(NEUTRAL, " ", "", Seq, command);
    TrimmedWord(word);
  }

  lemma SpacedOperator(command: string)
    ensures " && " + command == [' '] + ("&& " + command) && "&& " + command == "&&" + (" " + command)
    ensures " " + command == [' '] + command && "" + [' '] == " " + ""
  {
  }

  lemma ReadAndAnd(current: string, rest: string)
    ensures SegmentsFrom(NEUTRAL, current, Start, "&&" + rest) ==
            Push(current, Start) + SegmentsFrom(NEUTRAL, "", Seq, rest)
  {
    assert ("&&" + rest)[2..] == rest && ("&&" + rest)[..2] == "&&";
  }

  lemma TrimmedWord(word: string)
    requires |word| >= 2 && word[|word| - 1] == '\''
    ensures Push("cd " + word + [' '], Start) == [Segment("cd " + word, Start)]
  {
    hide TrimBoth;
    var current := "cd " + word;
    TrimIgnoresSpace("", current, " ");
    assert "" + current + " " == current + [' '];
    assert current[0] == 'c' && current[|current| - 1] == '\'';
    NothingToTrim(current);
  }

  lemma NothingToTrim(s: string)
    requires s != "" && !IsSpace(s[0]) && !IsSpace(s[|s| - 1])
    ensures TrimBoth(s) == s
  {
    hide IsSpace;
  }
}
