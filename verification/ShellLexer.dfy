/**
  The quote-aware scanning that the risk analysis and the approval memory share: one
  automaton over quotes and backslashes, the tokeniser, and the key under which an approval
  is remembered.
 */
module ShellLexer {
  import opened Text

  datatype Quote = Unquoted | Single | Double

  /** `escaped`: the previous character was a backslash that escapes the next one. */
  datatype State = State(quote: Quote, escaped: bool)

  const NEUTRAL := State(Unquoted, false)

  function QuoteOf(c: char): Quote {
    if c == '\'' then Single else if c == '"' then Double else Unquoted
  }

  function Next(state: State, c: char): State {
    if state.escaped then State(state.quote, false)
    else if c == '\\' && state.quote != Single then State(state.quote, true)
    else if state.quote != Unquoted then State(if QuoteOf(c) == state.quote then Unquoted else state.quote, false)
    else State(QuoteOf(c), false)
  }

  /** Characters that can separate: outside quotes, not escaped, no quote and no backslash. */
  predicate IsActive(state: State, c: char) {
    state == NEUTRAL && c != '\\' && QuoteOf(c) == Unquoted
  }

  /** The `\s` class of ECMAScript regular expressions, also what `String.trim` removes. */
  predicate IsSpace(c: char) {
    || '\t' <= c <= '\r' || c == ' ' || c == '\U{A0}' || c == '\U{1680}'
    || '\U{2000}' <= c <= '\U{200A}' || c == '\U{2028}' || c == '\U{2029}'
    || c == '\U{202F}' || c == '\U{205F}' || c == '\U{3000}' || c == '\U{FEFF}'
  }

  // ----- Tokens -----

  /** The finished tokens, the token being read, and the automaton's state. */
  datatype Scan = Scan(tokens: seq<string>, current: string, state: State) {
    function Read(c: char): Scan {
      if IsActive(state, c) && IsSpace(c) then Scan(All(), "", state)
      else Scan(tokens, current + [c], Next(state, c))
    }

    function All(): seq<string> {
      if current == "" then tokens else tokens + [current]
    }
  }

  function ScanAll(s: string): Scan {
    if s == "" then Scan([], "", NEUTRAL) else ScanAll(s[..|s| - 1]).Read(s[|s| - 1])
  }

  function Tokens(s: string): seq<string> {
    ScanAll(s).All()
  }

  method TokenizeSegment(segment: string) returns (tokens: seq<string>)
    ensures tokens == Tokens(segment)
  {
    tokens := [];
    var current := "";
    var quote := Unquoted;
    var escaped := false;
    for index := 0 to |segment|
      invariant ScanAll(segment[..index]) == Scan(tokens, current, State(quote, escaped))
    {
      assert segment[..index + 1][..index] == segment[..index];
      var c := segment[index];
      if escaped {
        current := current + [c];
        escaped := false;
      } else if c == '\\' && quote != Single {
        current := current + [c];
        escaped := true;
      } else if quote != Unquoted {
        current := current + [c];
        if QuoteOf(c) == quote {
          quote := Unquoted;
        }
      } else if QuoteOf(c) != Unquoted {
        current := current + [c];
        quote := QuoteOf(c);
      } else if IsSpace(c) {
        if current != "" {
          tokens := tokens + [current];
        }
        current := "";
      } else {
        current := current + [c];
      }
    }
    assert segment[..|segment|] == segment;
    if current != "" {
      tokens := tokens + [current];
    }
  }

  // ----- The approval key -----

  function Join(tokens: seq<string>): string {
    if tokens == [] then ""
    else if |tokens| == 1 then tokens[0]
    else Join(tokens[..|tokens| - 1]) + " " + tokens[|tokens| - 1]
  }

  /** An odd number of backslashes stands directly before `index`. */
  predicate OddBackslashesBefore(text: string, index: nat)
    requires index <= |text|
  {
    index > 0 && text[index - 1] == '\\' && !OddBackslashesBefore(text, index - 1)
  }

  /** A run of backslashes escapes what follows it exactly if there is an odd number of them. */
  lemma {:induction false} RunOfBackslashesEscapesIff(text: string, start: nat, index: nat)
    requires start <= index <= |text|
    requires start == 0 || text[start - 1] != '\\'
    requires forall i :: start <= i < index ==> text[i] == '\\'
    ensures OddBackslashesBefore(text, index) <==> (index - start) % 2 == 1
    decreases index - start
  {
    if index == start {
    } else {
      RunOfBackslashesEscapesIff(text, start, index - 1);
    }
  }

  method IsEscapedByBackslashes(text: string, index: nat) returns (escaped: bool)
    requires index <= |text|
    ensures escaped == OddBackslashesBefore(text, index)
  {
    var count := 0;
    var i := index;
    while i > 0 && text[i - 1] == '\\'
      invariant 0 <= i <= index
      invariant OddBackslashesBefore(text, index) == (OddBackslashesBefore(text, i) != (count % 2 == 1))
    {
      count := count + 1;
      i := i - 1;
    }
    escaped := count % 2 == 1;
  }

  lemma JoinAppend(tokens: seq<string>, token: string)
    ensures Join(tokens + [token]) == if tokens == [] then token else Join(tokens) + " " + token
  {
    assert (tokens + [token])[..|tokens|] == tokens;
  }

  ghost predicate NoEmptyToken(tokens: seq<string>) {
    forall i :: 0 <= i < |tokens| ==> tokens[i] != ""
  }

  lemma {:induction false} ScanFacts(s: string)
    ensures NoEmptyToken(ScanAll(s).tokens)
    ensures ScanAll(s).current == "" ==> ScanAll(s).state == NEUTRAL
  {
    if s == "" {
    } else {
      ScanFacts(s[..|s| - 1]);
    }
  }

  lemma JoinIsEmptyForNoTokens(tokens: seq<string>)
    requires NoEmptyToken(tokens)
    ensures Join(tokens) == "" <==> tokens == []
  {
  }

  /** A character of a token extends the joined text, after a space when it starts a new token. */
  lemma JoinRead(scan: Scan, c: char)
    requires !(IsActive(scan.state, c) && IsSpace(c))
    ensures Join(scan.Read(c).All()) ==
            Join(scan.All()) + (if scan.current == "" && scan.tokens != [] then " " else "") + [c]
  {
    JoinAppend(scan.tokens, scan.current);
    JoinAppend(scan.tokens, scan.current + [c]);
    if scan.tokens != [] {
      assert Join(scan.tokens) + " " + (scan.current + [c]) == Join(scan.tokens) + " " + scan.current + [c];
    }
  }

  /** The key read so far is the joined tokens; a space is pending only between tokens. */
  ghost predicate KeySoFar(scan: Scan, out: string, pendingSpace: bool) {
    && out == Join(scan.All())
    && (pendingSpace ==> scan.current == "")
    && (scan.current == "" && scan.tokens != [] ==> pendingSpace)
  }

  function FlushPendingSpace(out: string, pendingSpace: bool): string {
    if pendingSpace && out != "" then out + " " else out
  }

  lemma KeyRead(command: string, i: nat, out: string, pendingSpace: bool)
    requires i < |command| && KeySoFar(ScanAll(command[..i]), out, pendingSpace)
    ensures var scan, c := ScanAll(command[..i]), command[i];
            && ScanAll(command[..i + 1]) == scan.Read(c)
            && (if IsActive(scan.state, c) && IsSpace(c) then KeySoFar(scan.Read(c), out, true)
                else KeySoFar(scan.Read(c), FlushPendingSpace(out, pendingSpace) + [c], false))
            && (scan.current != "" ==> FlushPendingSpace(out, pendingSpace) == out)
            && (scan.current == "" ==> scan.state == NEUTRAL)
  {
    var scan, c := ScanAll(command[..i]), command[i];
    assert command[..i + 1][..i] == command[..i];
    ScanFacts(command[..i]);
    JoinIsEmptyForNoTokens(scan.All());
    if !(IsActive(scan.state, c) && IsSpace(c)) {
      JoinRead(scan, c);
      assert out + "" == out;
    }
  }

  /** The loop invariant of the key: in double quotes the backslash run tells the escape flag. */
  ghost predicate KeyInvariant(command: string, i: nat, out: string, quote: Quote, pendingSpace: bool) {
    && i <= |command|
    && KeySoFar(ScanAll(command[..i]), out, pendingSpace)
    && var state := ScanAll(command[..i]).state;
    && quote == state.quote
    && (i < |command| ==> state.escaped == (quote == Double && OddBackslashesBefore(command, i)))
  }

  lemma KeyInQuotes(command: string, i: nat, out: string, quote: Quote, pendingSpace: bool)
    requires i < |command| && KeyInvariant(command, i, out, quote, pendingSpace) && quote != Unquoted
    ensures var closes := QuoteOf(command[i]) == quote && (quote == Single || !OddBackslashesBefore(command, i));
            KeyInvariant(command, i + 1, out + [command[i]], if closes then Unquoted else quote, pendingSpace)
  {
    KeyRead(command, i, out, pendingSpace);
  }

  lemma NothingToFlush(out: string)
    ensures FlushPendingSpace(out, false) == out
  {}

  lemma KeyOutsideQuotes(command: string, i: nat, out: string, pendingSpace: bool)
    requires i < |command| && KeyInvariant(command, i, out, Unquoted, pendingSpace)
    ensures var c, flushed := command[i], FlushPendingSpace(out, pendingSpace);
            && (c == '\\' ==> i + 1 < |command| ==>
                  KeyInvariant(command, i + 2, flushed + [c] + [command[i + 1]], Unquoted, false))
            && (c == '\\' ==> i + 1 == |command| ==> KeyInvariant(command, i + 1, flushed + [c], Unquoted, false))
            && (c != '\\' && QuoteOf(c) == Unquoted && IsSpace(c) ==> KeyInvariant(command, i + 1, out, Unquoted, true))
            && (c != '\\' && (QuoteOf(c) != Unquoted || !IsSpace(c)) ==>
                  KeyInvariant(command, i + 1, flushed + [c], QuoteOf(c), false))
  {
    hide IsSpace, FlushPendingSpace, Join;
    KeyRead(command, i, out, pendingSpace);
    if command[i] == '\\' && i + 1 < |command| {
      KeyRead(command, i + 1, FlushPendingSpace(out, pendingSpace) + [command[i]], false);
      NothingToFlush(FlushPendingSpace(out, pendingSpace) + [command[i]]);
    }
  }

  method CommandDecisionKey(command: string) returns (out: string)
    ensures out == Join(Tokens(command))
  {
    out := "";
    var quote := Unquoted;
    var pendingSpace := false;
    var i := 0;
    assert KeyInvariant(command, i, out, quote, pendingSpace);
    while i < |command|
      invariant KeyInvariant(command, i, out, quote, pendingSpace)
      decreases |command| - i
    {
      hide KeyInvariant, FlushPendingSpace, IsSpace;
      var c := command[i];
      if quote != Unquoted {
        KeyInQuotes(command, i, out, quote, pendingSpace);
        out := out + [c];
        if quote == Single {
          if c == '\'' {
            quote := Unquoted;
          }
        } else if c == '"' {
          var escaped := IsEscapedByBackslashes(command, i);
          if !escaped {
            quote := Unquoted;
          }
        }
        i := i + 1;
        continue;
      }
      KeyOutsideQuotes(command, i, out, pendingSpace);
      if c == '\\' {
        out, pendingSpace := FlushPendingSpace(out, pendingSpace), false;
        if i + 1 < |command| {
          out := out + [c] + [command[i + 1]];
          i := i + 2;
        } else {
          out := out + [c];
          i := i + 1;
        }
        continue;
      }
      if QuoteOf(c) != Unquoted {
        out, pendingSpace := FlushPendingSpace(out, pendingSpace), false;
        quote := QuoteOf(c);
        out := out + [c];
        i := i + 1;
        continue;
      }
      if IsSpace(c) {
        pendingSpace := true;
        i := i + 1;
        continue;
      }
      out, pendingSpace := FlushPendingSpace(out, pendingSpace), false;
      out := out + [c];
      i := i + 1;
    }
    assert command[..i] == command;
  }

  // ----- What a key identifies -----

  /** The scan of the joined text: the same tokens, the last one still open. */
  ghost predicate Rejoined(scan: Scan, again: Scan) {
    if scan.current != "" || scan.tokens == [] then again == scan
    else
      var last := |scan.tokens| - 1;
      again == Scan(scan.tokens[..last], scan.tokens[last], NEUTRAL)
  }

  lemma {:induction false} ScanOfJoin(s: string)
    ensures Rejoined(ScanAll(s), ScanAll(Join(Tokens(s))))
  {
    if s == "" {
    } else {
      var before, c := s[..|s| - 1], s[|s| - 1];
      var scan := ScanAll(before);
      ScanOfJoin(before);
      ScanFacts(before);
      if IsActive(scan.state, c) && IsSpace(c) {
        assert scan.Read(c).All() == scan.All();
        if scan.current != "" {
          assert (scan.tokens + [scan.current])[..|scan.tokens|] == scan.tokens;
        }
      } else {
        JoinRead(scan, c);
        ScanOfJoinRead(scan, c, Join(Tokens(before)));
      }
    }
  }

  lemma ScanOfJoinRead(scan: Scan, c: char, joined: string)
    requires !(IsActive(scan.state, c) && IsSpace(c))
    requires scan.current == "" ==> scan.state == NEUTRAL
    requires NoEmptyToken(scan.tokens) && joined == Join(scan.All()) && Rejoined(scan, ScanAll(joined))
    ensures Rejoined(scan.Read(c), ScanAll(Join(scan.Read(c).All())))
  {
    hide ScanAll, Join, Next, IsSpace;
    JoinRead(scan, c);
    if scan.current == "" && scan.tokens != [] {
      AfterSpace(scan, joined);
      ScanSnoc(joined + " ", c);
    } else {
      assert joined + "" + [c] == joined + [c];
      ScanSnoc(joined, c);
    }
  }

  lemma ScanSnoc(s: string, c: char)
    ensures ScanAll(s + [c]) == ScanAll(s).Read(c)
  {
    hide IsSpace, Next;
    assert (s + [c])[..|s|] == s;
  }

  /** A space ends the last token of the joined text. */
  lemma AfterSpace(scan: Scan, joined: string)
    requires scan.current == "" && scan.tokens != [] && NoEmptyToken(scan.tokens) && Rejoined(scan, ScanAll(joined))
    ensures ScanAll(joined + " ") == Scan(scan.tokens, "", NEUTRAL)
  {
    hide ScanAll;
    ScanSnoc(joined, ' ');
    var last := |scan.tokens| - 1;
    assert scan.tokens[..last] + [scan.tokens[last]] == scan.tokens;
  }

  /** Splitting the key again gives the tokens back. */
  lemma TokensOfKey(s: string)
    ensures Tokens(Join(Tokens(s))) == Tokens(s)
  {
    ScanOfJoin(s);
    ScanFacts(s);
    var scan := ScanAll(s);
    if scan.current == "" && scan.tokens != [] {
      assert scan.tokens[..|scan.tokens| - 1] + [scan.tokens[|scan.tokens| - 1]] == scan.tokens;
    }
  }

  function Key(command: string): string {
    Join(Tokens(command))
  }

  lemma KeyIsIdempotent(command: string)
    ensures Key(Key(command)) == Key(command)
  {
    TokensOfKey(command);
  }

  /** One remembered decision covers exactly the commands with the same token list. */
  lemma SameKeyIffSameTokens(a: string, b: string)
    ensures Key(a) == Key(b) <==> Tokens(a) == Tokens(b)
  {
    TokensOfKey(a);
    TokensOfKey(b);
  }

  // ----- The remembered decisions -----

  datatype RiskLevel = Low | Medium | High | Critical

  datatype Decision = Approved | Rejected

  class ApprovalMemory {
    var decisions: map<string, Decision>

    constructor ()
      ensures decisions == map[]
    {
      decisions := map[];
    }

    method Remember(command: string, riskLevel: RiskLevel, decision: Decision)
      modifies this
      ensures decisions == if riskLevel != Critical && Tokens(command) != []
                           then old(decisions)[Key(command) := decision] else old(decisions)
    {
      ScanFacts(command);
      JoinIsEmptyForNoTokens(Tokens(command));
      if riskLevel == Critical {
        return;
      }
      var key := CommandDecisionKey(command);
      if key == "" {
        return;
      }
      decisions := decisions[key := decision];
    }

    method Recall(command: string, riskLevel: RiskLevel) returns (remembered: Option<Decision>)
      ensures remembered == if riskLevel != Critical && Tokens(command) != [] && Key(command) in decisions
                            then Some(decisions[Key(command)]) else None
    {
      ScanFacts(command);
      JoinIsEmptyForNoTokens(Tokens(command));
      if riskLevel == Critical {
        return None;
      }
      var key := CommandDecisionKey(command);
      if key == "" || key !in decisions {
        return None;
      }
      remembered := Some(decisions[key]);
    }
  }
}
