/**
  The backend checks a command once more before it runs it, and splits it with code of its own. The
  two splitters agree on the text of the segments but for two characters that only one of the two
  languages takes for white space.
 */
module GuardSegments {
  import opened Text
  import opened ShellLexer
  import Analysis = Segments

  function Piece(current: string): seq<string> {
    if Trim(current) != "" then [Trim(current)] else []
  }

  /** How many characters a separator at the head of `s` takes: a doubled "&" or "|" counts as one. */
  function SeparatorLen(s: string): (n: nat)
    ensures n <= |s| && n <= 2
  {
    if s == "" || s[0] !in "\n;&|" then 0
    else if (s[0] == '&' || s[0] == '|') && |s| > 1 && s[1] == s[0] then 2 else 1
  }

  function PiecesFrom(state: State, current: string, s: string): seq<string>
    decreases |s|
  {
    if s == "" then Piece(current)
    else if IsActive(state, s[0]) && SeparatorLen(s) > 0 then
      Piece(current) + PiecesFrom(state, "", s[SeparatorLen(s)..])
    else PiecesFrom(Next(state, s[0]), current + [s[0]], s[1..])
  }

  function Pieces(command: string): seq<string> {
    PiecesFrom(NEUTRAL, "", command)
  }

  lemma ReadCharacter(pieces: seq<string>, state: State, current: string, command: string, i: nat)
    requires i < |command|
    ensures var rest := command[i..];
            pieces + PiecesFrom(state, current, rest) ==
            if IsActive(state, command[i]) && SeparatorLen(rest) > 0 then
              pieces + Piece(current) + PiecesFrom(state, "", command[i + SeparatorLen(rest)..])
            else pieces + PiecesFrom(Next(state, command[i]), current + [command[i]], command[i + 1..])
  {
    hide Piece, SeparatorLen;
    var rest := command[i..];
    assert rest[0] == command[i] && rest[1..] == command[i + 1..];
    if IsActive(state, command[i]) && SeparatorLen(rest) > 0 {
      assert rest[SeparatorLen(rest)..] == command[i + SeparatorLen(rest)..];
      var later := PiecesFrom(state, "", command[i + SeparatorLen(rest)..]);
      assert pieces + (Piece(current) + later) == pieces + Piece(current) + later;
    }
  }

  lemma LastPiece(state: State, current: string, command: string)
    ensures PiecesFrom(state, current, command[|command|..]) == Piece(current)
  {
    assert command[|command|..] == "";
  }

  lemma SeparatorByCharacters(command: string, i: nat)
    requires i < |command|
    ensures var c := command[i];
            SeparatorLen(command[i..]) ==
            if c != '\n' && c != ';' && c != '&' && c != '|' then 0
            else if (c == '&' || c == '|') && i + 1 < |command| && command[i + 1] == c then 2 else 1
  {
    assert command[i..][0] == command[i];
    assert i + 1 < |command| ==> command[i..][1] == command[i + 1];
  }

  method SplitCommandSegments(command: string) returns (segments: seq<string>)
    ensures segments == Pieces(command)
  {
    hide PiecesFrom, Piece, SeparatorLen, Trim;
    segments := [];
    var current := "";
    var quote := Unquoted;
    var escaped := false;
    var i := 0;
    assert command[0..] == command && [] + Pieces(command) == Pieces(command);
    while i < |command|
      invariant 0 <= i <= |command|
      invariant Pieces(command) == segments + PiecesFrom(State(quote, escaped), current, command[i..])
    {
      var ch := command[i];
      ReadCharacter(segments, State(quote, escaped), current, command, i);
      SeparatorByCharacters(command, i);
      i := i + 1;
      if escaped {
        current := current + [ch];
        escaped := false;
        continue;
      }
      if ch == '\\' && quote != Single {
        current := current + [ch];
        escaped := true;
        continue;
      }
      if quote != Unquoted {
        current := current + [ch];
        if ch == (if quote == Single then '\'' else '"') {
          quote := Unquoted;
        }
        continue;
      }
      if ch == '"' || ch == '\'' {
        current := current + [ch];
        quote := QuoteOf(ch);
        continue;
      }
      if ch == '\n' || ch == ';' || ch == '&' || ch == '|' {
        if (ch == '&' || ch == '|') && i < |command| && command[i] == ch {
          i := i + 1;
        }
        segments := segments + Piece(current);
        current := "";
        continue;
      }
      current := current + [ch];
    }
    LastPiece(State(quote, escaped), current, command);
    segments := segments + Piece(current);
  }

  // ----- Agreement with the analysis -----

  /** The texts between the separators, as they stand in the command. */
  function CutsFrom(state: State, current: string, s: string): seq<string>
    decreases |s|
  {
    if s == "" then [current]
    else if IsActive(state, s[0]) && SeparatorLen(s) > 0 then [current] + CutsFrom(state, "", s[SeparatorLen(s)..])
    else CutsFrom(Next(state, s[0]), current + [s[0]], s[1..])
  }

  /** The cuts of the whole command. */
  function Cuts(command: string): seq<string> {
    CutsFrom(NEUTRAL, "", command)
  }

  function Texts(segments: seq<Analysis.Segment>): seq<string> {
    if segments == [] then [] else [segments[0].raw] + Texts(segments[1..])
  }

  function GuardTexts(cuts: seq<string>): seq<string> {
    if cuts == [] then [] else Piece(cuts[0]) + GuardTexts(cuts[1..])
  }

  function AnalysisPiece(current: string): seq<string> {
    if Analysis.TrimBoth(current) != "" then [Analysis.TrimBoth(current)] else []
  }

  function AnalysisTexts(cuts: seq<string>): seq<string> {
    if cuts == [] then [] else AnalysisPiece(cuts[0]) + AnalysisTexts(cuts[1..])
  }

  lemma {:induction false} PiecesOfCuts(state: State, current: string, s: string)
    ensures PiecesFrom(state, current, s) == GuardTexts(CutsFrom(state, current, s))
    decreases |s|
  {
    hide Piece, SeparatorLen;
    if s == "" {
      assert [current][1..] == [];
    } else if IsActive(state, s[0]) && SeparatorLen(s) > 0 {
      var later := CutsFrom(state, "", s[SeparatorLen(s)..]);
      PiecesOfCuts(state, "", s[SeparatorLen(s)..]);
      assert ([current] + later)[1..] == later;
    } else {
      PiecesOfCuts(Next(state, s[0]), current + [s[0]], s[1..]);
    }
  }

  lemma {:induction false} TextsConcat(a: seq<Analysis.Segment>, b: seq<Analysis.Segment>)
    ensures Texts(a + b) == Texts(a) + Texts(b)
  {
    if a == [] {
      assert a + b == b;
    } else {
      assert (a + b)[1..] == a[1..] + b;
      TextsConcat(a[1..], b);
    }
  }

  lemma SameSeparators(state: State, s: string)
    requires s != "" && IsActive(state, s[0])
    ensures Analysis.Operator(s).Some? <==> SeparatorLen(s) > 0
    ensures Analysis.Operator(s).Some? ==> Analysis.Operator(s).value.0 == SeparatorLen(s)
  {
    assert "&&" <= s <==> |s| > 1 && s[0] == '&' && s[1] == '&';
    assert "||" <= s <==> |s| > 1 && s[0] == '|' && s[1] == '|';
  }

  lemma TextsOfPush(current: string, separator: Analysis.Separator)
    ensures Texts(Analysis.Push(current, separator)) == AnalysisPiece(current)
  {
    hide Analysis.TrimBoth;
    var raw := Analysis.TrimBoth(current);
    assert [Analysis.Segment(raw, separator)][1..] == [];
  }

  lemma {:induction false} TextsOfCuts(state: State, current: string, separator: Analysis.Separator, s: string)
    ensures Texts(Analysis.SegmentsFrom(state, current, separator, s)) == AnalysisTexts(CutsFrom(state, current, s))
    decreases |s|
  {
    hide Analysis.Push, AnalysisPiece, SeparatorLen, Analysis.Operator, Texts;
    TextsOfPush(current, separator);
    if s == "" {
      assert [current][1..] == [];
    } else {
      if IsActive(state, s[0]) {
        SameSeparators(state, s);
      }
      if IsActive(state, s[0]) && SeparatorLen(s) > 0 {
        var (length, next) := Analysis.Operator(s).value;
        var later := CutsFrom(state, "", s[length..]);
        TextsOfCuts(state, "", next, s[length..]);
        TextsConcat(Analysis.Push(current, separator), Analysis.SegmentsFrom(state, "", next, s[length..]));
        assert ([current] + later)[1..] == later;
      } else {
        TextsOfCuts(Next(state, s[0]), current + [s[0]], separator, s[1..]);
      }
    }
  }

  // ----- One cut, trimmed twice -----

  predicate HasEdge(s: string, c: char) {
    s != "" && (s[0] == c || s[|s| - 1] == c)
  }

  /** Neither language leaves at an edge a character that only the other one removes. */
  predicate TrimsAlike(cut: string) {
    !HasEdge(Trim(cut), '\U{FEFF}') && !HasEdge(Analysis.TrimBoth(cut), '\U{85}')
  }

  lemma {:induction false} GuardEnd(s: string)
    ensures var r := TrimEnd(s);
            (r == "" || !IsWhiteSpace(r[|r| - 1])) && forall i :: |r| <= i < |s| ==> IsWhiteSpace(s[i])
  {
    hide IsWhiteSpace;
    if s == "" {
    } else if IsWhiteSpace(s[|s| - 1]) {
      GuardEnd(s[..|s| - 1]);
    }
  }

  lemma GuardRange(s: string) returns (from: nat, to: nat)
    ensures from <= to <= |s| && Trim(s) == s[from..to]
    ensures forall i :: 0 <= i < from || to <= i < |s| ==> IsWhiteSpace(s[i])
    ensures from < to ==> !IsWhiteSpace(s[from]) && !IsWhiteSpace(s[to - 1])
  {
    var start := TrimStart(s);
    GuardEnd(start);
    hide IsWhiteSpace, TrimStart, TrimEnd;
    from, to := |s| - |start|, |s| - |start| + |Trim(s)|;
    assert start == s[from..] && Trim(s) == start[..|Trim(s)|];
    forall i | to <= i < |s| ensures IsWhiteSpace(s[i]) {
      assert s[i] == start[i - from];
    }
    assert from < to ==> s[from] == start[0] && s[to - 1] == start[|Trim(s)| - 1];
  }

  lemma {:induction false} AnalysisStart(s: string)
    ensures var r := Analysis.TrimLeft(s);
            && r == s[|s| - |r|..] && (r == "" || !IsSpace(r[0]))
            && forall i :: 0 <= i < |s| - |r| ==> IsSpace(s[i])
  {
    hide IsSpace;
    if s == "" {
    } else if IsSpace(s[0]) {
      AnalysisStart(s[1..]);
    }
  }

  lemma {:induction false} AnalysisEnd(s: string)
    ensures var r := Analysis.TrimRight(s);
            r <= s && (r == "" || !IsSpace(r[|r| - 1])) && forall i :: |r| <= i < |s| ==> IsSpace(s[i])
  {
    hide IsSpace;
    if s == "" {
    } else if IsSpace(s[|s| - 1]) {
      AnalysisEnd(s[..|s| - 1]);
    }
  }

  lemma AnalysisRange(s: string) returns (from: nat, to: nat)
    ensures from <= to <= |s| && Analysis.TrimBoth(s) == s[from..to]
    ensures forall i :: 0 <= i < from || to <= i < |s| ==> IsSpace(s[i])
    ensures from < to ==> !IsSpace(s[from]) && !IsSpace(s[to - 1])
  {
    var start := Analysis.TrimLeft(s);
    var kept := Analysis.TrimBoth(s);
    AnalysisStart(s);
    AnalysisEnd(start);
    hide IsSpace, Analysis.TrimLeft, Analysis.TrimRight;
    from, to := |s| - |start|, |s| - |start| + |kept|;
    assert start == s[from..] && kept == start[..|kept|];
    forall i | to <= i < |s| ensures IsSpace(s[i]) {
      assert s[i] == start[i - from];
    }
    assert from < to ==> s[from] == start[0] && s[to - 1] == start[|kept| - 1];
  }

  lemma WhiteSpaceDiffers(c: char)
    ensures IsWhiteSpace(c) && !IsSpace(c) <==> c == '\U{85}'
    ensures IsSpace(c) && !IsWhiteSpace(c) <==> c == '\U{FEFF}'
  {}

  /** The edges a trimmed text cannot have. */
  lemma TrimmedEdges(cut: string)
    ensures !HasEdge(Trim(cut), '\U{85}') && !HasEdge(Analysis.TrimBoth(cut), '\U{FEFF}')
  {
    var i, j := GuardRange(cut);
    var k, l := AnalysisRange(cut);
    WhiteSpaceDiffers('\U{85}');
    WhiteSpaceDiffers('\U{FEFF}');
    hide IsWhiteSpace, IsSpace, Trim, Analysis.TrimBoth;
  }

  lemma SameTrimIff(cut: string)
    ensures Trim(cut) == Analysis.TrimBoth(cut) <==> TrimsAlike(cut)
  {
    hide Trim, Analysis.TrimBoth, IsWhiteSpace, IsSpace;
    TrimmedEdges(cut);
    if TrimsAlike(cut) {
      var i, j := GuardRange(cut);
      var k, l := AnalysisRange(cut);
      if i < j {
        NoEdgeOfTheOther(cut[i..j]);
        assert cut[i..j][0] == cut[i] && cut[i..j][j - i - 1] == cut[j - 1];
      }
      if k < l {
        NoEdgeOfTheOther(cut[k..l]);
        assert cut[k..l][0] == cut[k] && cut[k..l][l - k - 1] == cut[l - 1];
      }
      hide HasEdge;
      SameRange(cut, i, j, k, l);
    }
  }

  lemma NoEdgeOfTheOther(s: string)
    requires s != "" && !HasEdge(s, '\U{85}') && !HasEdge(s, '\U{FEFF}')
    ensures IsWhiteSpace(s[0]) <==> IsSpace(s[0])
    ensures IsWhiteSpace(s[|s| - 1]) <==> IsSpace(s[|s| - 1])
  {}

  lemma SameRange(cut: string, i: nat, j: nat, k: nat, l: nat)
    requires i <= j <= |cut| && k <= l <= |cut|
    requires forall n :: 0 <= n < i || j <= n < |cut| ==> IsWhiteSpace(cut[n])
    requires forall n :: 0 <= n < k || l <= n < |cut| ==> IsSpace(cut[n])
    requires i < j ==> !IsWhiteSpace(cut[i]) && !IsSpace(cut[i]) && !IsWhiteSpace(cut[j - 1]) && !IsSpace(cut[j - 1])
    requires k < l ==> !IsWhiteSpace(cut[k]) && !IsSpace(cut[k]) && !IsWhiteSpace(cut[l - 1]) && !IsSpace(cut[l - 1])
    ensures cut[i..j] == cut[k..l]
  {
    hide IsWhiteSpace, IsSpace;
  }

  // ----- All cuts -----

  ghost predicate AllTrimAlike(cuts: seq<string>) {
    forall i :: 0 <= i < |cuts| ==> TrimsAlike(cuts[i])
  }

  lemma {:induction false} AlikeGivesSame(cuts: seq<string>)
    requires AllTrimAlike(cuts)
    ensures GuardTexts(cuts) == AnalysisTexts(cuts)
  {
    hide TrimsAlike, Trim, Analysis.TrimBoth;
    if cuts == [] {
    } else {
      SameTrimIff(cuts[0]);
      AlikeGivesSame(cuts[1..]);
    }
  }

  lemma {:induction false} EveryTextIsTrimmed(cuts: seq<string>)
    ensures forall t :: t in GuardTexts(cuts) ==> !HasEdge(t, '\U{85}')
    ensures forall t :: t in AnalysisTexts(cuts) ==> !HasEdge(t, '\U{FEFF}')
  {
    hide HasEdge, Trim, Analysis.TrimBoth;
    if cuts == [] {
    } else {
      TrimmedEdges(cuts[0]);
      EveryTextIsTrimmed(cuts[1..]);
    }
  }

  lemma {:induction false} EveryCutHasItsText(cuts: seq<string>, i: nat)
    requires i < |cuts|
    ensures Trim(cuts[i]) != "" ==> Trim(cuts[i]) in GuardTexts(cuts)
    ensures Analysis.TrimBoth(cuts[i]) != "" ==> Analysis.TrimBoth(cuts[i]) in AnalysisTexts(cuts)
  {
    hide Trim, Analysis.TrimBoth;
    if i == 0 {
    } else {
      EveryCutHasItsText(cuts[1..], i - 1);
    }
  }

  /** Both splitters find the same segment texts exactly if each cut is trimmed alike. */
  lemma SplittersAgreeIff(command: string)
    ensures Pieces(command) == Texts(Analysis.Split(command)) <==> AllTrimAlike(Cuts(command))
  {
    hide PiecesFrom, CutsFrom, GuardTexts, AnalysisTexts, Analysis.SegmentsFrom, Trim, Analysis.TrimBoth, Texts;
    var cuts := Cuts(command);
    PiecesOfCuts(NEUTRAL, "", command);
    TextsOfCuts(NEUTRAL, "", Analysis.Start, command);
    if GuardTexts(cuts) == AnalysisTexts(cuts) {
      EveryTextIsTrimmed(cuts);
      forall i | 0 <= i < |cuts| ensures TrimsAlike(cuts[i]) {
        EveryCutHasItsText(cuts, i);
      }
    } else if AllTrimAlike(cuts) {
      AlikeGivesSame(cuts);
    }
  }

  /** The characters that only one of the languages takes for white space. */
  predicate IsDisputed(c: char) {
    c == '\U{85}' || c == '\U{FEFF}'
  }

  predicate IsUndisputed(s: string) {
    forall i :: 0 <= i < |s| ==> !IsDisputed(s[i])
  }

  lemma {:induction false} CutsAreUndisputed(state: State, current: string, s: string)
    requires IsUndisputed(current) && IsUndisputed(s)
    ensures forall cut :: cut in CutsFrom(state, current, s) ==> IsUndisputed(cut)
    decreases |s|
  {
    hide IsDisputed, SeparatorLen;
    if s == "" {
    } else if IsActive(state, s[0]) && SeparatorLen(s) > 0 {
      CutsAreUndisputed(state, "", s[SeparatorLen(s)..]);
    } else {
      CutsAreUndisputed(Next(state, s[0]), current + [s[0]], s[1..]);
    }
  }

  lemma UndisputedTrimsAlike(cut: string)
    requires IsUndisputed(cut)
    ensures TrimsAlike(cut)
  {
    hide Trim, Analysis.TrimBoth, IsWhiteSpace, IsSpace;
    var i, j := GuardRange(cut);
    var k, l := AnalysisRange(cut);
    assert i < j ==> !IsDisputed(cut[i]) && !IsDisputed(cut[j - 1]);
    assert k < l ==> !IsDisputed(cut[k]) && !IsDisputed(cut[l - 1]);
  }

  /** In particular without the two characters that only one of the languages takes for white space. */
  lemma SplittersAgree(command: string)
    requires IsUndisputed(command)
    ensures Pieces(command) == Texts(Analysis.Split(command))
  {
    CutsAreUndisputed(NEUTRAL, "", command);
    hide TrimsAlike, IsUndisputed, Cuts, Pieces, Texts, Analysis.Split;
    forall i | 0 <= i < |Cuts(command)| ensures TrimsAlike(Cuts(command)[i]) {
      CutIsUndisputed(command, i);
    }
    SplittersAgreeIff(command);
  }

  lemma CutIsUndisputed(command: string, i: nat)
    requires IsUndisputed(command) && i < |Cuts(command)|
    ensures TrimsAlike(Cuts(command)[i])
  {
    hide CutsFrom, IsDisputed, TrimsAlike;
    CutsAreUndisputed(NEUTRAL, "", command);
    UndisputedTrimsAlike(Cuts(command)[i]);
  }

  /** With them they need not: U+0085 alone is a segment for the analysis only. */
  lemma DisputedCharacterAlone()
    ensures Pieces("\U{85}") == [] && Texts(Analysis.Split("\U{85}")) == ["\U{85}"]
  {
    hide *;
    var s := "\U{85}";
    OneCut(s);
    PiecesOfCuts(NEUTRAL, "", s);
    TextsOfCuts(NEUTRAL, "", Analysis.Start, s);
    DisputedTrimmed();
    GuardOfOne(s);
    AnalysisOfOne(s);
    Unfolded(s);
  }

  lemma Unfolded(command: string)
    ensures Pieces(command) == PiecesFrom(NEUTRAL, "", command)
    ensures Analysis.Split(command) == Analysis.SegmentsFrom(NEUTRAL, "", Analysis.Start, command)
  {}

  lemma OneCut(s: string)
    requires |s| == 1 && s[0] !in "\n;&|"
    ensures CutsFrom(NEUTRAL, "", s) == [s]
  {
    assert s[1..] == "" && "" + [s[0]] == s;
  }

  lemma GuardOfOne(s: string)
    ensures GuardTexts([s]) == if Trim(s) != "" then [Trim(s)] else []
  {
    hide Trim;
    assert [s][1..] == [];
  }

  lemma AnalysisOfOne(s: string)
    ensures AnalysisTexts([s]) == if Analysis.TrimBoth(s) != "" then [Analysis.TrimBoth(s)] else []
  {
    hide Analysis.TrimBoth;
    assert [s][1..] == [];
  }

  lemma DisputedTrimmed()
    ensures Trim("\U{85}") == "" && Analysis.TrimBoth("\U{85}") == "\U{85}"
  {
    var s := "\U{85}";
    assert s[1..] == "" && TrimStart(s) == "";
    assert Analysis.TrimLeft(s) == s && Analysis.TrimRight(s) == s;
  }

  lemma {:induction false} PiecesAtSemicolon(state: State, current: string, a: string, b: string)
    requires Analysis.EndState(state, a) == NEUTRAL
    ensures PiecesFrom(state, current, a + ";" + b) == PiecesFrom(state, current, a) + Pieces(b)
    decreases |a|
  {
    hide Piece, SeparatorLen;
    var whole := a + ";" + b;
    SeparatorStays(a, b);
    if a == "" {
      assert whole[1..] == b;
    } else if IsActive(state, a[0]) && SeparatorLen(a) > 0 {
      var rest := a[SeparatorLen(a)..];
      assert whole[0] == a[0] && whole[SeparatorLen(a)..] == rest + ";" + b;
      EndStateBehindSeparator(a);
      PiecesAtSemicolon(state, "", rest, b);
      assert Piece(current) + (PiecesFrom(state, "", rest) + Pieces(b))
          == Piece(current) + PiecesFrom(state, "", rest) + Pieces(b);
    } else {
      assert whole[0] == a[0] && whole[1..] == a[1..] + ";" + b;
      PiecesAtSemicolon(Next(state, a[0]), current + [a[0]], a[1..], b);
    }
  }

  lemma SeparatorStays(a: string, b: string)
    ensures SeparatorLen(a + ";" + b) == if a == "" then 1 else SeparatorLen(a)
  {
    var whole := a + ";" + b;
    assert |a| == 1 ==> whole[1] == ';';
    assert |a| > 1 ==> whole[1] == a[1];
  }

  lemma EndStateBehindSeparator(a: string)
    requires a != "" && SeparatorLen(a) > 0
    ensures Analysis.EndState(NEUTRAL, a[SeparatorLen(a)..]) == Analysis.EndState(NEUTRAL, a)
  {
    assert Next(NEUTRAL, a[0]) == NEUTRAL;
    if SeparatorLen(a) == 2 {
      assert a[1..][1..] == a[2..];
    }
  }

  /** So the guard looks at the segments of both parts of "a;b", whatever it blocks. */
  lemma PiecesOfSequence(a: string, b: string)
    requires Analysis.IsClosed(a)
    ensures Pieces(a + ";" + b) == Pieces(a) + Pieces(b)
  {
    PiecesAtSemicolon(NEUTRAL, "", a, b);
  }
}
