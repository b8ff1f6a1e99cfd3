/**
  What the quote automaton is for: words written with quotes and escapes, as a shell user writes them,
  are read back as those words. A word is a row of pieces: plain characters, escaped characters, and
  texts in single or double quotes (section 2.2 of the POSIX Shell Command Language).
 */
module ShellWords {
  import opened Text
  import opened ShellLexer
  import opened Segments

  /** A character between double quotes, alone or behind a backslash. */
  datatype Inner = Raw(c: char) | Behind(c: char)

  datatype Piece = Plain(c: char) | Escaped(c: char) | InSingle(text: string) | InDouble(inners: seq<Inner>)

  predicate IsInner(inner: Inner) {
    inner.Raw? ==> inner.c != '"' && inner.c != '\\'
  }

  predicate IsPiece(piece: Piece) {
    match piece
    case Plain(c) => !IsSpace(c) && c != '\'' && c != '"' && c != '\\'
    case Escaped(_) => true
    case InSingle(text) => '\'' !in text
    case InDouble(inners) => forall i :: 0 <= i < |inners| ==> IsInner(inners[i])
  }

  function ShowOne(inner: Inner): string {
    match inner case Raw(c) => [c] case Behind(c) => ['\\', c]
  }

  function ShowInner(inners: seq<Inner>): string {
    if inners == [] then "" else ShowOne(inners[0]) + ShowInner(inners[1..])
  }

  function Show(piece: Piece): string {
    match piece
    case Plain(c) => [c]
    case Escaped(c) => ['\\', c]
    case InSingle(text) => "'" + text + "'"
    case InDouble(inners) => "\"" + ShowInner(inners) + "\""
  }

  type Word = seq<Piece>

  predicate IsWord(word: Word) {
    word != [] && forall i :: 0 <= i < |word| ==> IsPiece(word[i])
  }

  function ShowWord(word: Word): string {
    if word == [] then "" else Show(word[0]) + ShowWord(word[1..])
  }

  function ShowWords(words: seq<Word>): seq<string> {
    seq(|words|, i requires 0 <= i < |words| => ShowWord(words[i]))
  }

  ghost predicate AreWords(words: seq<Word>) {
    forall i :: 0 <= i < |words| ==> IsWord(words[i])
  }

  // ----- Reading on -----

  function ReadOn(scan: Scan, s: string): Scan
    decreases |s|
  {
    if s == "" then scan else ReadOn(scan.Read(s[0]), s[1..])
  }

  lemma {:induction false} ReadOnJoined(scan: Scan, a: string, b: string)
    ensures ReadOn(scan, a + b) == ReadOn(ReadOn(scan, a), b)
    decreases |a|
  {
    if a == "" {
      assert a + b == b;
    } else {
      assert (a + b)[1..] == a[1..] + b;
      ReadOnJoined(scan.Read(a[0]), a[1..], b);
    }
  }

  lemma {:induction false} ScanIsReadOn(s: string)
    ensures ScanAll(s) == ReadOn(Scan([], "", NEUTRAL), s)
  {
    if s == "" {
    } else {
      var front, last := s[..|s| - 1], s[|s| - 1];
      ScanIsReadOn(front);
      ReadOnJoined(Scan([], "", NEUTRAL), front, [last]);
      assert front + [last] == s;
      assert ReadOn(ScanAll(front), [last]) == ScanAll(front).Read(last) by {
        assert [last][1..] == "";
      }
    }
  }

  /** The token being read grows by a text, and nothing is left open. */
  ghost predicate Grows(scan: Scan, text: string, after: Scan) {
    after == Scan(scan.tokens, scan.current + text, NEUTRAL)
  }

  lemma OneRead(scan: Scan, c: char)
    requires !(IsActive(scan.state, c) && IsSpace(c))
    ensures ReadOn(scan, [c]) == Scan(scan.tokens, scan.current + [c], ShellLexer.Next(scan.state, c))
  {
    assert [c][1..] == "";
  }

  lemma TwoRead(scan: Scan, b: char, c: char)
    requires !(IsActive(scan.state, b) && IsSpace(b))
    requires !(IsActive(ShellLexer.Next(scan.state, b), c) && IsSpace(c))
    ensures ReadOn(scan, [b, c]) ==
            Scan(scan.tokens, scan.current + [b, c], ShellLexer.Next(ShellLexer.Next(scan.state, b), c))
  {
    OneRead(scan, b);
    OneRead(ReadOn(scan, [b]), c);
    ReadOnJoined(scan, [b], [c]);
    assert [b] + [c] == [b, c] && scan.current + [b] + [c] == scan.current + [b, c];
  }

  lemma {:induction false} SingleIsRead(tokens: seq<string>, current: string, text: string)
    requires '\'' !in text
    ensures ReadOn(Scan(tokens, current, State(Single, false)), text + "'") ==
            Scan(tokens, current + (text + "'"), NEUTRAL)
    decreases |text|
  {
    var scan := Scan(tokens, current, State(Single, false));
    if text == "" {
      OneRead(scan, '\'');
      assert text + "'" == "'";
    } else {
      OneRead(scan, text[0]);
      SingleIsRead(tokens, current + [text[0]], text[1..]);
      assert [text[0]] + (text[1..] + "'") == text + "'";
      ReadOnJoined(scan, [text[0]], text[1..] + "'");
      assert current + [text[0]] + (text[1..] + "'") == current + (text + "'");
    }
  }

  lemma InnerIsRead(tokens: seq<string>, current: string, inner: Inner)
    requires IsInner(inner)
    ensures ReadOn(Scan(tokens, current, State(Double, false)), ShowOne(inner)) ==
            Scan(tokens, current + ShowOne(inner), State(Double, false))
  {
    hide ReadOn, IsSpace;
    var scan := Scan(tokens, current, State(Double, false));
    match inner {
      case Raw(c) => OneRead(scan, c);
      case Behind(c) => TwoRead(scan, '\\', c);
    }
  }

  lemma {:induction false} DoubleIsRead(tokens: seq<string>, current: string, inners: seq<Inner>)
    requires forall i :: 0 <= i < |inners| ==> IsInner(inners[i])
    ensures ReadOn(Scan(tokens, current, State(Double, false)), ShowInner(inners) + "\"") ==
            Scan(tokens, current + (ShowInner(inners) + "\""), NEUTRAL)
    decreases |inners|
  {
    hide ReadOn, IsSpace, IsInner, ShowOne;
    var scan := Scan(tokens, current, State(Double, false));
    if inners == [] {
      OneRead(scan, '"');
      assert ShowInner(inners) + "\"" == "\"";
    } else {
      var first, rest := ShowOne(inners[0]), ShowInner(inners[1..]) + "\"";
      InnerIsRead(tokens, current, inners[0]);
      DoubleIsRead(tokens, current + first, inners[1..]);
      assert ShowInner(inners) + "\"" == first + rest;
      ReadOnJoined(scan, first, rest);
      assert current + first + rest == current + (first + rest);
    }
  }

  lemma PieceIsRead(scan: Scan, piece: Piece)
    requires scan.state == NEUTRAL && IsPiece(piece)
    ensures Grows(scan, Show(piece), ReadOn(scan, Show(piece)))
  {
    hide ReadOn, IsSpace, ShowInner, IsInner;
    match piece {
      case Plain(c) => OneRead(scan, c);
      case Escaped(c) => TwoRead(scan, '\\', c);
      case InSingle(text) =>
        OneRead(scan, '\'');
        SingleIsRead(scan.tokens, scan.current + "'", text);
        ReadOnJoined(scan, "'", text + "'");
        assert "'" + (text + "'") == Show(piece);
        assert scan.current + "'" + (text + "'") == scan.current + Show(piece);
      case InDouble(inners) =>
        var rest := ShowInner(inners) + "\"";
        OneRead(scan, '"');
        DoubleIsRead(scan.tokens, scan.current + "\"", inners);
        ReadOnJoined(scan, "\"", rest);
        assert "\"" + rest == Show(piece);
        assert scan.current + "\"" + rest == scan.current + Show(piece);
    }
  }

  lemma {:induction false} WordIsRead(scan: Scan, word: Word)
    requires scan.state == NEUTRAL && forall i :: 0 <= i < |word| ==> IsPiece(word[i])
    ensures Grows(scan, ShowWord(word), ReadOn(scan, ShowWord(word)))
    decreases |word|
  {
    hide IsPiece, Show;
    if word == [] {
      assert scan.current + "" == scan.current;
    } else {
      PieceIsRead(scan, word[0]);
      var next := ReadOn(scan, Show(word[0]));
      WordIsRead(next, word[1..]);
      ReadOnJoined(scan, Show(word[0]), ShowWord(word[1..]));
      assert scan.current + Show(word[0]) + ShowWord(word[1..]) == scan.current + ShowWord(word);
    }
  }

  lemma WordIsNotEmpty(word: Word)
    requires IsWord(word)
    ensures ShowWord(word) != ""
  {}

  lemma FrontAndLast(words: seq<Word>)
    requires words != [] && AreWords(words)
    ensures var front, last := words[..|words| - 1], words[|words| - 1];
            && AreWords(front) && IsWord(last) && ShowWords(words) == ShowWords(front) + [ShowWord(last)]
            && (front == [] ==> ShowWords(words) == [ShowWord(last)])
            && (front != [] ==> ShowWords(front) != [])
  {
    hide IsWord, ShowWord;
  }

  /** Words written one behind the other, with a blank between them, are the tokens. */
  lemma {:induction false} WordsAreTokens(words: seq<Word>)
    requires AreWords(words)
    ensures Tokens(Join(ShowWords(words))) == ShowWords(words)
    ensures ScanAll(Join(ShowWords(words))).state == NEUTRAL
  {
    if words == [] {
    } else {
      hide Tokens, Join, ScanAll, AreWords, IsWord, ShowWord, ShowWords;
      var front, last := words[..|words| - 1], words[|words| - 1];
      FrontAndLast(words);
      WordsAreTokens(front);
      JoinAppend(ShowWords(front), ShowWord(last));
      LastWord(Join(ShowWords(front)), last);
      if front == [] {
        JoinOfOne(ShowWord(last));
      }
    }
  }

  lemma JoinOfOne(text: string)
    ensures Join([text]) == text
  {}

  /** One more word, behind a blank if there is something before it. */
  lemma LastWord(before: string, word: Word)
    requires IsWord(word) && ScanAll(before).state == NEUTRAL
    ensures ScanAll(before + " " + ShowWord(word)).state == NEUTRAL
    ensures Tokens(before + " " + ShowWord(word)) == Tokens(before) + [ShowWord(word)]
    ensures ScanAll(ShowWord(word)).state == NEUTRAL && Tokens(ShowWord(word)) == [ShowWord(word)]
  {
    hide IsPiece, Show, ShowWord;
    var text, first := ShowWord(word), Scan([], "", NEUTRAL);
    WordIsNotEmpty(word);
    ScanIsReadOn(text);
    WordIsRead(first, word);
    assert "" + text == text;
    ScanIsReadOn(before);
    ScanIsReadOn(before + " ");
    ReadOnJoined(first, before, " ");
    var blank := Scan(Tokens(before), "", NEUTRAL);
    assert ReadOn(ScanAll(before), " ") == blank by {
      assert " "[1..] == "";
    }
    ScanIsReadOn(before + " " + text);
    ReadOnJoined(first, before + " ", text);
    WordIsRead(blank, word);
  }

  /**
    A command written as words has the words for its tokens, and its approval key is the command itself;
    so two commands of words share a key exactly if they are the same words.
   */
  lemma KeyOfWords(words: seq<Word>, others: seq<Word>)
    requires AreWords(words) && AreWords(others)
    ensures Key(Join(ShowWords(words))) == Join(ShowWords(words))
    ensures Key(Join(ShowWords(words))) == Key(Join(ShowWords(others))) <==> ShowWords(words) == ShowWords(others)
  {
    hide Tokens, Join, ShowWords;
    WordsAreTokens(words);
    WordsAreTokens(others);
  }

  // ----- Operators inside words -----

  /** An unquoted, unescaped operator character. */
  predicate IsOperatorPiece(piece: Piece) {
    piece.Plain? && (piece.c == ';' || piece.c == '&' || piece.c == '|')
  }

  ghost predicate HasNoOperator(word: Word) {
    forall i :: 0 <= i < |word| ==> !IsOperatorPiece(word[i])
  }

  lemma OneHeld(state: State, current: string, separator: Separator, c: char, rest: string)
    requires !(IsActive(state, c) && Operator([c] + rest).Some?)
    ensures SegmentsFrom(state, current, separator, [c] + rest) ==
            SegmentsFrom(ShellLexer.Next(state, c), current + [c], separator, rest)
  {
    assert ([c] + rest)[1..] == rest;
  }

  lemma OnlyOperatorsOperate(c: char, rest: string)
    requires c != ';' && c != '&' && c != '|' && c != '\n'
    ensures Operator([c] + rest).None?
  {}

  lemma {:induction false} SingleIsHeld(current: string, separator: Separator, text: string, rest: string)
    requires '\'' !in text
    ensures SegmentsFrom(State(Single, false), current, separator, text + "'" + rest) ==
            SegmentsFrom(NEUTRAL, current + (text + "'"), separator, rest)
    decreases |text|
  {
    hide SegmentsFrom, Operator;
    if text == "" {
      OneHeld(State(Single, false), current, separator, '\'', rest);
      assert text + "'" + rest == ['\''] + rest && text + "'" == "'";
    } else {
      var tail := text[1..] + "'" + rest;
      assert text + "'" + rest == [text[0]] + tail;
      OneHeld(State(Single, false), current, separator, text[0], tail);
      SingleIsHeld(current + [text[0]], separator, text[1..], rest);
      assert current + [text[0]] + (text[1..] + "'") == current + (text + "'");
    }
  }

  lemma Assoc(a: string, b: string, c: string)
    ensures a + b + c == a + (b + c)
  {}

  lemma TwoHeld(state: State, current: string, separator: Separator, b: char, c: char, rest: string)
    requires !(IsActive(state, b) && Operator([b] + ([c] + rest)).Some?)
    requires !(IsActive(ShellLexer.Next(state, b), c) && Operator([c] + rest).Some?)
    ensures SegmentsFrom(state, current, separator, [b, c] + rest) ==
            SegmentsFrom(ShellLexer.Next(ShellLexer.Next(state, b), c), current + [b, c], separator, rest)
  {
    hide SegmentsFrom, Operator, ShellLexer.Next;
    assert [b, c] + rest == [b] + ([c] + rest) && current + [b] + [c] == current + [b, c];
    OneHeld(state, current, separator, b, [c] + rest);
    OneHeld(ShellLexer.Next(state, b), current + [b], separator, c, rest);
  }

  lemma InnerIsHeld(current: string, separator: Separator, inner: Inner, rest: string)
    requires IsInner(inner)
    ensures SegmentsFrom(State(Double, false), current, separator, ShowOne(inner) + rest) ==
            SegmentsFrom(State(Double, false), current + ShowOne(inner), separator, rest)
  {
    hide SegmentsFrom, Operator;
    match inner {
      case Raw(c) => OneHeld(State(Double, false), current, separator, c, rest);
      case Behind(c) => TwoHeld(State(Double, false), current, separator, '\\', c, rest);
    }
  }

  lemma {:induction false} DoubleIsHeld(current: string, separator: Separator, inners: seq<Inner>, rest: string)
    requires forall i :: 0 <= i < |inners| ==> IsInner(inners[i])
    ensures SegmentsFrom(State(Double, false), current, separator, ShowInner(inners) + (['"'] + rest)) ==
            SegmentsFrom(NEUTRAL, current + ShowInner(inners) + ['"'], separator, rest)
    decreases |inners|
  {
    hide SegmentsFrom, Operator, IsInner, ShowOne;
    if inners == [] {
      OneHeld(State(Double, false), current, separator, '"', rest);
      assert "" + (['"'] + rest) == ['"'] + rest && current + "" == current;
    } else {
      var first, later, tail := ShowOne(inners[0]), ShowInner(inners[1..]), ['"'] + rest;
      Assoc(first, later, tail);
      InnerIsHeld(current, separator, inners[0], later + tail);
      DoubleIsHeld(current + first, separator, inners[1..], rest);
      Assoc(current, first, later);
    }
  }

  lemma PieceIsHeld(current: string, separator: Separator, piece: Piece, rest: string)
    requires IsPiece(piece) && !IsOperatorPiece(piece)
    ensures SegmentsFrom(NEUTRAL, current, separator, Show(piece) + rest) ==
            SegmentsFrom(NEUTRAL, current + Show(piece), separator, rest)
  {
    hide SegmentsFrom, Operator;
    match piece {
      case Plain(c) =>
        OnlyOperatorsOperate(c, rest);
        OneHeld(NEUTRAL, current, separator, c, rest);
      case Escaped(c) => TwoHeld(NEUTRAL, current, separator, '\\', c, rest);
      case InSingle(text) => SingleQuotedIsHeld(current, separator, text, rest);
      case InDouble(inners) => DoubleQuotedIsHeld(current, separator, inners, rest);
    }
  }

  lemma SingleQuotedIsHeld(current: string, separator: Separator, text: string, rest: string)
    requires '\'' !in text
    ensures SegmentsFrom(NEUTRAL, current, separator, "'" + text + "'" + rest) ==
            SegmentsFrom(NEUTRAL, current + ("'" + text + "'"), separator, rest)
  {
    hide SegmentsFrom, Operator;
    var tail := text + "'" + rest;
    assert "'" + text + "'" + rest == ['\''] + tail;
    OneHeld(NEUTRAL, current, separator, '\'', tail);
    SingleIsHeld(current + "'", separator, text, rest);
    assert current + "'" + (text + "'") == current + ("'" + text + "'");
  }

  lemma DoubleQuotedIsHeld(current: string, separator: Separator, inners: seq<Inner>, rest: string)
    requires forall i :: 0 <= i < |inners| ==> IsInner(inners[i])
    ensures SegmentsFrom(NEUTRAL, current, separator, "\"" + ShowInner(inners) + "\"" + rest) ==
            SegmentsFrom(NEUTRAL, current + ("\"" + ShowInner(inners) + "\""), separator, rest)
  {
    hide SegmentsFrom, Operator, ShowInner, IsInner;
    var text := ShowInner(inners);
    var tail := text + (['"'] + rest);
    assert "\"" + text + "\"" + rest == ['"'] + tail;
    OneHeld(NEUTRAL, current, separator, '"', tail);
    DoubleIsHeld(current + ['"'], separator, inners, rest);
    assert current + ['"'] + text + ['"'] == current + ("\"" + text + "\"");
  }

  lemma {:induction false} WordIsHeld(current: string, separator: Separator, word: Word, rest: string)
    requires (forall i :: 0 <= i < |word| ==> IsPiece(word[i])) && HasNoOperator(word)
    ensures SegmentsFrom(NEUTRAL, current, separator, ShowWord(word) + rest) ==
            SegmentsFrom(NEUTRAL, current + ShowWord(word), separator, rest)
    decreases |word|
  {
    hide SegmentsFrom, IsPiece, IsOperatorPiece, Show;
    if word == [] {
      assert ShowWord(word) + rest == rest && current + ShowWord(word) == current;
    } else {
      var tail := ShowWord(word[1..]) + rest;
      assert ShowWord(word) + rest == Show(word[0]) + tail;
      PieceIsHeld(current, separator, word[0], tail);
      forall i | 0 <= i < |word[1..]| ensures word[1..][i] == word[i + 1] {}
      WordIsHeld(current + Show(word[0]), separator, word[1..], rest);
      assert current + Show(word[0]) + ShowWord(word[1..]) == current + ShowWord(word);
    }
  }

  /** Words in front of a text belong to the segment that is being read. */
  lemma {:induction false} WordsAreHeld(current: string, separator: Separator, words: seq<Word>, rest: string)
    requires AreWords(words) && forall i :: 0 <= i < |words| ==> HasNoOperator(words[i])
    ensures SegmentsFrom(NEUTRAL, current, separator, Join(ShowWords(words)) + rest) ==
            SegmentsFrom(NEUTRAL, current + Join(ShowWords(words)), separator, rest)
    decreases |words|
  {
    hide SegmentsFrom, IsWord, HasNoOperator;
    if words == [] {
      assert Join(ShowWords(words)) + rest == rest && current + "" == current;
    } else {
      hide Join, ShowWord, Operator;
      var front, last := words[..|words| - 1], words[|words| - 1];
      var text, before := ShowWord(last), Join(ShowWords(front));
      assert ShowWords(words) == ShowWords(front) + [text];
      JoinAppend(ShowWords(front), text);
      assert AreWords(front);
      WordIsPieces(last);
      if front == [] {
        assert ShowWords(front) == [];
        WordIsHeld(current, separator, last, rest);
      } else {
        assert ShowWords(front) != [];
        WordsAreHeld(current, separator, front, [' '] + (text + rest));
        BlankAndWord(current, separator, before, last, rest);
      }
    }
  }

  lemma BlankAndWord(current: string, separator: Separator, before: string, word: Word, rest: string)
    requires (forall i :: 0 <= i < |word| ==> IsPiece(word[i])) && HasNoOperator(word)
    ensures before + " " + ShowWord(word) + rest == before + ([' '] + (ShowWord(word) + rest))
    ensures SegmentsFrom(NEUTRAL, current + before, separator, [' '] + (ShowWord(word) + rest)) ==
            SegmentsFrom(NEUTRAL, current + (before + " " + ShowWord(word)), separator, rest)
  {
    hide SegmentsFrom, HasNoOperator, IsPiece, ShowWord, Operator;
    var text := ShowWord(word);
    OnlyOperatorsOperate(' ', text + rest);
    OneHeld(NEUTRAL, current + before, separator, ' ', text + rest);
    WordIsHeld(current + before + [' '], separator, word, rest);
    assert current + before + [' '] + text == current + (before + " " + text);
  }

  lemma WordIsPieces(word: Word)
    requires IsWord(word)
    ensures forall i :: 0 <= i < |word| ==> IsPiece(word[i])
  {}

  /**
    Words without an operator of their own are one segment, whatever operators, quotes and blanks they hold
    in quotes or behind backslashes; and it is not shortened if nothing needs trimming.
   */
  lemma WordsAreOneSegment(words: seq<Word>)
    requires AreWords(words) && forall i :: 0 <= i < |words| ==> HasNoOperator(words[i])
    ensures Split(Join(ShowWords(words))) == Push(Join(ShowWords(words)), Start)
  {
    hide AreWords, HasNoOperator;
    var line := Join(ShowWords(words));
    WordsAreHeld("", Start, words, "");
    assert line + "" == line && "" + line == line;
  }

  lemma {:induction false} StateIsEndState(scan: Scan, s: string)
    ensures ReadOn(scan, s).state == EndState(scan.state, s)
    decreases |s|
  {
    if s == "" {
    } else {
      StateIsEndState(scan.Read(s[0]), s[1..]);
      assert scan.Read(s[0]).state == ShellLexer.Next(scan.state, s[0]);
    }
  }

  lemma WordsAreClosed(words: seq<Word>)
    requires AreWords(words)
    ensures IsClosed(Join(ShowWords(words)) + " ")
  {
    hide ReadOn, Join, ShowWords, AreWords;
    var line, first := Join(ShowWords(words)), Scan([], "", NEUTRAL);
    WordsAreTokens(words);
    ScanIsReadOn(line);
    ScanIsReadOn(line + " ");
    StateIsEndState(first, line + " ");
    assert (line + " ")[..|line|] == line;
  }

  /**
    Two commands of words with an operator between them are two segments, the second one introduced as the
    operator says: nothing quoted or escaped in either can be taken for the operator.
   */
  lemma JoinedCommandsAreTwoSegments(first: seq<Word>, op: string, second: seq<Word>)
    requires AreWords(first) && AreWords(second) && op in OPERATORS
    requires forall i :: 0 <= i < |first| ==> HasNoOperator(first[i])
    requires forall i :: 0 <= i < |second| ==> HasNoOperator(second[i])
    ensures var a, b := Join(ShowWords(first)) + " ", " " + Join(ShowWords(second));
            Split(a + op + b) == Push(a, Start) + Push(b, IntroducedBy(op))
  {
    hide AreWords, HasNoOperator, SegmentsFrom, Operator, Push, Join, ShowWords;
    var a, b := Join(ShowWords(first)) + " ", " " + Join(ShowWords(second));
    WordsAreClosed(first);
    SplitAtAnyOperator(a, op, b);
    WordsBetweenBlanks(first, Start);
    BlankThenWords(second, IntroducedBy(op));
  }

  lemma WordsBetweenBlanks(words: seq<Word>, separator: Separator)
    requires AreWords(words) && forall i :: 0 <= i < |words| ==> HasNoOperator(words[i])
    ensures SegmentsFrom(NEUTRAL, "", separator, Join(ShowWords(words)) + " ") ==
            Push(Join(ShowWords(words)) + " ", separator)
  {
    hide AreWords, HasNoOperator, Push, Join, ShowWords;
    var line := Join(ShowWords(words));
    WordsAreHeld("", separator, words, " ");
    assert "" + line == line;
    OnlyOperatorsOperate(' ', "");
    OneHeld(NEUTRAL, line, separator, ' ', "");
    assert [' '] + "" == " ";
  }

  lemma BlankThenWords(words: seq<Word>, separator: Separator)
    requires AreWords(words) && forall i :: 0 <= i < |words| ==> HasNoOperator(words[i])
    ensures SegmentsFrom(NEUTRAL, "", separator, " " + Join(ShowWords(words))) ==
            Push(" " + Join(ShowWords(words)), separator)
  {
    hide AreWords, HasNoOperator, Push, Join, ShowWords;
    var line := Join(ShowWords(words));
    OnlyOperatorsOperate(' ', line);
    OneHeld(NEUTRAL, "", separator, ' ', line);
    WordsAreHeld(" ", separator, words, "");
    assert line + "" == line && "" + [' '] == " ";
  }
}
