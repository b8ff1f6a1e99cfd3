/**
  The two repairs applied to malformed model output before it is parsed again: trailing
  commas are removed and raw control characters inside string literals are escaped.

  A text is described by `Outside`, in which every literal shrinks to one quote, and by
  `Literals`, the literals as they stand. The repairs are stated through these two views.
 */
module JsonRepair {
  import opened JsonText
  import opened ShellLexer

  datatype Mode = Out | In | Esc

  function Step(mode: Mode, c: char): Mode {
    match mode
    case Out => if c == '"' then In else Out
    case In => if c == '\\' then Esc else if c == '"' then Out else In
    case Esc => In
  }

  predicate ClosesAfterSpace(s: string) {
    s != "" && if IsSpace(s[0]) then ClosesAfterSpace(s[1..]) else s[0] == '}' || s[0] == ']'
  }

  // ----- Trailing commas -----

  predicate IsTrailingComma(mode: Mode, s: string) {
    mode == Out && s != "" && s[0] == ',' && ClosesAfterSpace(s[1..])
  }

  function Strip(mode: Mode, s: string): string
    decreases |s|
  {
    if s == "" then ""
    else (if IsTrailingComma(mode, s) then "" else [s[0]]) + Strip(Step(mode, s[0]), s[1..])
  }

  method StripTrailingCommasOutsideStrings(json: string) returns (output: string)
    ensures output == Strip(Out, json)
  {
    output := "";
    var inString := false;
    var escaped := false;
    var index := 0;
    assert json[0..] == json;
    while index < |json|
      invariant 0 <= index <= |json| && (escaped ==> inString)
      invariant Strip(Out, json) == output + Strip(ModeOf(inString, escaped), json[index..])
    {
      var c := json[index];
      var rest := json[index..];
      assert rest[0] == c && rest[1..] == json[index + 1..];
      ghost var behind := Strip(Step(ModeOf(inString, escaped), c), rest[1..]);
      assert output + ([c] + behind) == output + [c] + behind && output + ("" + behind) == output + behind;
      index := index + 1;
      if inString {
        output := output + [c];
        if escaped {
          escaped := false;
        } else if c == '\\' {
          escaped := true;
        } else if c == '"' {
          inString := false;
        }
        continue;
      }
      if c == '"' {
        inString := true;
        output := output + [c];
        continue;
      }
      if c == ',' {
        var lookahead := index;
        while lookahead < |json| && IsSpace(json[lookahead])
          invariant index <= lookahead <= |json|
          invariant ClosesAfterSpace(json[index..]) == ClosesAfterSpace(json[lookahead..])
        {
          assert json[lookahead..][1..] == json[lookahead + 1..];
          lookahead := lookahead + 1;
        }
        if lookahead < |json| && (json[lookahead] == '}' || json[lookahead] == ']') {
          continue;
        }
      }
      output := output + [c];
    }
  }

  function ModeOf(inString: bool, escaped: bool): Mode {
    if !inString then Out else if escaped then Esc else In
  }

  // ----- Raw control characters -----

  function EscapeRaw(c: char): string {
    match c
    case '\n' => "\\n"
    case '\r' => "\\r"
    case '\t' => "\\t"
    case _ => [c]
  }

  function Escape(mode: Mode, s: string): string
    decreases |s|
  {
    if s == "" then ""
    else (if mode == In then EscapeRaw(s[0]) else [s[0]]) + Escape(Step(mode, s[0]), s[1..])
  }

  method EscapeRawControlCharsInStrings(json: string) returns (output: string)
    ensures output == Escape(Out, json)
  {
    hide Escape, EscapeRaw;
    output := "";
    var inString := false;
    var escaped := false;
    NothingWritten(json);
    for index := 0 to |json|
      invariant escaped ==> inString
      invariant Escape(Out, json) == output + Escape(ModeOf(inString, escaped), json[index..])
    {
      var c := json[index];
      CharacterWritten(output, ModeOf(inString, escaped), json, index);
      if !inString {
        if c == '"' {
          inString := true;
        }
        output := output + [c];
        continue;
      }
      if escaped {
        output := output + [c];
        escaped := false;
        continue;
      }
      if c == '\\' {
        PlainCharacters();
        output := output + [c];
        escaped := true;
        continue;
      }
      if c == '"' {
        PlainCharacters();
        inString := false;
        output := output + [c];
        continue;
      }
      output := output + EscapeRaw(c);
    }
    AllWritten(output, json);
  }

  lemma NothingWritten(json: string)
    ensures "" + Escape(Out, json[0..]) == Escape(Out, json)
  {
    assert json[0..] == json;
  }

  lemma AllWritten(output: string, json: string)
    ensures forall mode :: output + Escape(mode, json[|json|..]) == output
  {
    assert json[|json|..] == "";
  }

  lemma PlainCharacters()
    ensures EscapeRaw('\\') == "\\" && EscapeRaw('"') == "\""
  {
  }

  lemma CharacterWritten(output: string, mode: Mode, json: string, index: nat)
    requires index < |json|
    ensures output + Escape(mode, json[index..]) ==
            output + (if mode == In then EscapeRaw(json[index]) else [json[index]])
            + Escape(Step(mode, json[index]), json[index + 1..])
  {
    hide EscapeRaw;
    assert json[index..][1..] == json[index + 1..];
    var written := if mode == In then EscapeRaw(json[index]) else [json[index]];
    var behind := Escape(Step(mode, json[index]), json[index + 1..]);
    assert Escape(mode, json[index..]) == written + behind;
    hide Escape;
    assert output + (written + behind) == output + written + behind;
  }

  // ----- The two views of a text -----

  /** The text outside literals; each literal leaves its opening quote. */
  function Outside(mode: Mode, s: string): string
    decreases |s|
  {
    if s == "" then ""
    else (if mode == Out then [s[0]] else "") + Outside(Step(mode, s[0]), s[1..])
  }

  /**
    The literals in order, without quotes, and whether they are closed. `open` is what has been
    read of a literal that is still open.
   */
  function Literals(mode: Mode, open: string, s: string): seq<(string, bool)>
    decreases |s|
  {
    if s == "" then if mode == Out then [] else [(open, false)]
    else if mode == Out then Literals(Step(mode, s[0]), "", s[1..])
    else if Step(mode, s[0]) == Out then [(open, true)] + Literals(Out, "", s[1..])
    else Literals(Step(mode, s[0]), open + [s[0]], s[1..])
  }

  // ----- Stripping -----

  /** Removing trailing commas from a text without literals. */
  function StripOutside(s: string): string {
    if s == "" then ""
    else (if s[0] == ',' && ClosesAfterSpace(s[1..]) then "" else [s[0]]) + StripOutside(s[1..])
  }

  lemma {:induction false} LookaheadStaysOutside(s: string)
    ensures ClosesAfterSpace(Outside(Out, s)) == ClosesAfterSpace(s)
  {
    if s == "" {
    } else {
      assert Outside(Out, s)[1..] == Outside(Step(Out, s[0]), s[1..]);
      if IsSpace(s[0]) {
        LookaheadStaysOutside(s[1..]);
      }
    }
  }

  /** Only commas outside literals, before optional whitespace and a closing bracket, go. */
  lemma {:induction false} StripActsOutside(mode: Mode, s: string)
    ensures Outside(mode, Strip(mode, s)) == StripOutside(Outside(mode, s))
    ensures Strip(mode, s) == "" ==> Outside(mode, s) == "" || mode == Out
    decreases |s|
  {
    if s == "" {
    } else {
      var next, rest := Step(mode, s[0]), s[1..];
      StripActsOutside(next, rest);
      if mode == Out {
        LookaheadStaysOutside(rest);
        assert Outside(Out, s)[1..] == Outside(next, rest);
        if s[0] == ',' {
          assert "" + Strip(next, rest) == Strip(next, rest);
          assert "" + StripOutside(Outside(next, rest)) == StripOutside(Outside(next, rest));
        } else {
          assert !ClosesAfterSpace(rest) || s[0] != ',';
        }
        assert ([s[0]] + Strip(next, rest))[1..] == Strip(next, rest);
      } else {
        assert ([s[0]] + Strip(next, rest))[1..] == Strip(next, rest);
        assert "" + Outside(next, Strip(next, rest)) == Outside(next, Strip(next, rest));
        assert "" + Outside(next, rest) == Outside(next, rest);
      }
    }
  }

  /** Every literal survives character for character. */
  lemma {:induction false} StripKeepsLiterals(mode: Mode, open: string, s: string)
    ensures Literals(mode, open, Strip(mode, s)) == Literals(mode, open, s)
    decreases |s|
  {
    if s == "" {
    } else {
      var next, rest := Step(mode, s[0]), s[1..];
      assert ([s[0]] + Strip(next, rest))[1..] == Strip(next, rest);
      if mode == Out {
        assert "" + Strip(next, rest) == Strip(next, rest);
        StripKeepsLiterals(next, "", rest);
        if IsTrailingComma(mode, s) {
          LiteralsOutsideIgnoreOpen(open, Strip(next, rest));
        }
      } else if next == Out {
        StripKeepsLiterals(Out, "", rest);
      } else {
        StripKeepsLiterals(next, open + [s[0]], rest);
      }
    }
  }

  lemma LiteralsOutsideIgnoreOpen(open: string, s: string)
    ensures Literals(Out, open, s) == Literals(Out, "", s)
  {
  }

  ghost predicate HasTrailingComma(mode: Mode, s: string)
    decreases |s|
  {
    s != "" && (IsTrailingComma(mode, s) || HasTrailingComma(Step(mode, s[0]), s[1..]))
  }

  lemma {:induction false} StripIsIdentityIff(mode: Mode, s: string)
    ensures Strip(mode, s) == s <==> !HasTrailingComma(mode, s)
    ensures |Strip(mode, s)| <= |s|
    decreases |s|
  {
    if s == "" {
    } else {
      var rest := Strip(Step(mode, s[0]), s[1..]);
      StripIsIdentityIff(Step(mode, s[0]), s[1..]);
      assert s == [s[0]] + s[1..];
      assert ([s[0]] + rest)[1..] == rest;
    }
  }

  /** Behind optional whitespace stands a comma that is itself in front of a closing bracket. */
  predicate CommaThenCloses(s: string) {
    s != "" && if IsSpace(s[0]) then CommaThenCloses(s[1..]) else s[0] == ',' && ClosesAfterSpace(s[1..])
  }

  /** Outside literals two commas stand in a row, the second one trailing. */
  ghost predicate HasDoubledComma(mode: Mode, s: string)
    decreases |s|
  {
    s != "" && ((mode == Out && s[0] == ',' && CommaThenCloses(s[1..])) || HasDoubledComma(Step(mode, s[0]), s[1..]))
  }

  lemma {:induction false} StrippedCloses(s: string)
    ensures ClosesAfterSpace(Strip(Out, s)) <==> ClosesAfterSpace(s) || CommaThenCloses(s)
    ensures ClosesAfterSpace(s) ==> !CommaThenCloses(s)
  {
    hide IsSpace;
    if s == "" {
    } else {
      StrippedCloses(s[1..]);
      StripHead(Out, s);
      SpaceIsPlain(s[0]);
    }
  }

  lemma SpaceIsPlain(c: char)
    ensures IsSpace(c) ==> c != ',' && c != '"' && c != '}' && c != ']'
  {}

  lemma StripHead(mode: Mode, s: string)
    requires s != ""
    ensures var stripped := Strip(Step(mode, s[0]), s[1..]);
            if IsTrailingComma(mode, s) then Strip(mode, s) == stripped
            else Strip(mode, s) == [s[0]] + stripped && Strip(mode, s)[1..] == stripped
  {}

  lemma {:induction false} DoubledCommaStaysTrailing(mode: Mode, s: string)
    ensures HasTrailingComma(mode, Strip(mode, s)) <==> HasDoubledComma(mode, s)
    decreases |s|
  {
    hide ClosesAfterSpace, CommaThenCloses;
    if s == "" {
    } else {
      DoubledCommaStaysTrailing(Step(mode, s[0]), s[1..]);
      StripHead(mode, s);
      StrippedCloses(s[1..]);
      hide Strip;
    }
  }

  /** A second pass finds something exactly if two commas stand in a row before a closing bracket. */
  lemma StripIsIdempotentIff(s: string)
    ensures Strip(Out, Strip(Out, s)) == Strip(Out, s) <==> !HasDoubledComma(Out, s)
  {
    DoubledCommaStaysTrailing(Out, s);
    StripIsIdentityIff(Out, Strip(Out, s));
  }

  /** The comma before a removed comma stays. */
  lemma StripIsNotIdempotent()
    ensures Strip(Out, ",,}") == ",}" && Strip(Out, Strip(Out, ",,}")) == "}"
  {
    assert ",,}"[1..] == ",}" && ",}"[1..] == "}" && "}"[1..] == "";
    assert Strip(Out, "}") == "}" && Strip(Out, ",}") == "" + "}";
    assert Strip(Out, ",,}") == "," + Strip(Out, ",}") + "" + "";
  }

  // ----- Escaping -----

  lemma EscapeRawFacts(c: char)
    ensures var e := EscapeRaw(c);
            && (e == [c] || (|e| == 2 && e[0] == '\\' && e[1] != '"' && e[1] != '\\' && c != '"' && c != '\\'))
            && (|e| == 2 ==> e[1] != 'u' && Unescape(e[1]) == c && !IsHex(e[0]) && !IsHex(c))
  {
  }

  lemma EscapeHead(mode: Mode, s: string)
    requires s != ""
    ensures var next, rest := Step(mode, s[0]), Escape(Step(mode, s[0]), s[1..]);
            if mode == In && |EscapeRaw(s[0])| == 2
            then Escape(mode, s) == EscapeRaw(s[0]) + rest && next == In
                 && Escape(mode, s)[1..] == [EscapeRaw(s[0])[1]] + rest && Escape(mode, s)[2..] == rest
            else Escape(mode, s) == [s[0]] + rest && Escape(mode, s)[1..] == rest
  {
    EscapeRawFacts(s[0]);
  }

  /** Nothing changes outside literals. */
  lemma {:induction false} EscapeKeepsOutside(mode: Mode, s: string)
    ensures Outside(mode, Escape(mode, s)) == Outside(mode, s)
    decreases |s|
  {
    if s == "" {
    } else {
      var next := Step(mode, s[0]);
      EscapeKeepsOutside(next, s[1..]);
      EscapeHead(mode, s);
      EscapeRawFacts(s[0]);
      var e := Escape(mode, s);
      if mode == In && |EscapeRaw(s[0])| == 2 {
        assert Step(In, e[0]) == Esc && e[1..][1..] == e[2..];
        assert Outside(Esc, e[1..]) == "" + Outside(In, e[2..]);
      }
    }
  }

  /** What a raw control character was replaced by stays as it is. */
  lemma EscapedStays(c: char, rest: string)
    requires |EscapeRaw(c)| == 2
    ensures Escape(In, EscapeRaw(c) + rest) == EscapeRaw(c) + Escape(In, rest)
  {
    EscapeRawFacts(c);
    var e := EscapeRaw(c) + rest;
    assert e[1..][1..] == rest && Step(In, e[0]) == Esc && EscapeRaw(e[0]) == [e[0]];
    assert Escape(Esc, e[1..]) == [e[1]] + Escape(In, rest);
    assert [e[0]] + ([e[1]] + Escape(In, rest)) == EscapeRaw(c) + Escape(In, rest);
  }

  lemma {:induction false} EscapeIsIdempotent(mode: Mode, s: string)
    ensures Escape(mode, Escape(mode, s)) == Escape(mode, s)
    decreases |s|
  {
    if s == "" {
    } else {
      var next, rest := Step(mode, s[0]), Escape(Step(mode, s[0]), s[1..]);
      EscapeIsIdempotent(next, s[1..]);
      assert Escape(mode, s) == (if mode == In then EscapeRaw(s[0]) else [s[0]]) + rest;
      if mode == In && |EscapeRaw(s[0])| == 2 {
        hide Escape;
        EscapedStays(s[0], rest);
      } else {
        assert ([s[0]] + rest)[1..] == rest;
      }
    }
  }

  ghost predicate HasRawControl(mode: Mode, s: string)
    decreases |s|
  {
    s != "" && ((mode == In && s[0] in "\n\r\t") || HasRawControl(Step(mode, s[0]), s[1..]))
  }

  lemma {:induction false} EscapeIsIdentityIff(mode: Mode, s: string)
    ensures Escape(mode, s) == s <==> !HasRawControl(mode, s)
    ensures |Escape(mode, s)| >= |s|
    decreases |s|
  {
    if s == "" {
    } else {
      EscapeIsIdentityIff(Step(mode, s[0]), s[1..]);
      EscapeHead(mode, s);
      EscapeRawFacts(s[0]);
      assert s == [s[0]] + s[1..];
    }
  }

  /** A run of hexadecimal digits in a literal is not escaped. */
  lemma {:induction false} HexRunStays(s: string, n: nat)
    requires n <= |s| && forall i :: 0 <= i < n ==> IsHex(s[i])
    ensures var e := Escape(In, s); n <= |e| && e[..n] == s[..n] && e[n..] == Escape(In, s[n..])
    decreases n
  {
    hide IsHex;
    if n == 0 {
      assert s[0..] == s;
    } else {
      EscapeDigit(s);
      HexRunStays(s[1..], n - 1);
      hide Escape;
      OneInFront(s, Escape(In, s[1..]), n);
    }
  }

  lemma OneInFront(s: string, rest: string, n: nat)
    requires 0 < n <= |s| && n - 1 <= |rest| && rest[..n - 1] == s[1..][..n - 1]
    ensures ([s[0]] + rest)[..n] == s[..n] && ([s[0]] + rest)[n..] == rest[n - 1..] && s[1..][n - 1..] == s[n..]
  {
    assert s[..n] == [s[0]] + s[1..][..n - 1];
  }

  lemma RunEnds(s: string, n: nat)
    requires n <= |s| && n < 4 && forall i :: 0 <= i < n ==> IsHex(s[i])
    requires n == |s| || !IsHex(s[n])
    ensures !FourHex(s) && !FourHex(Escape(In, s))
  {
    hide IsHex;
    HexRunStays(s, n);
    var e := Escape(In, s);
    if n == |s| {
      assert s[n..] == "" && Escape(In, "") == "";
      hide Escape;
      assert |e| == n;
    } else {
      EscapeDigit(s[n..]);
      hide Escape;
      assert e[n] == e[n..][0];
    }
  }

  lemma EscapeKeepsFourHex(s: string)
    ensures FourHex(Escape(In, s)) <==> FourHex(s)
    ensures FourHex(s) ==> Escape(In, s)[..4] == s[..4] && Escape(In, s)[4..] == Escape(In, s[4..])
  {
    hide IsHex, Escape;
    if FourHex(s) {
      HexRunStays(s, 4);
      var e := Escape(In, s);
      assert forall i :: 0 <= i < 4 ==> e[i] == e[..4][i] && s[i] == s[..4][i];
    } else {
      RunEnds(s, if |s| < 1 || !IsHex(s[0]) then 0 else if |s| < 2 || !IsHex(s[1]) then 1
                 else if |s| < 3 || !IsHex(s[2]) then 2 else 3);
    }
  }

  lemma EscapeDigit(s: string)
    requires s != ""
    ensures Escape(In, s) != "" && (IsHex(Escape(In, s)[0]) <==> IsHex(s[0]))
    ensures IsHex(s[0]) ==> Escape(In, s) == [s[0]] + Escape(In, s[1..])
  {
    EscapeHead(In, s);
    EscapeRawFacts(s[0]);
  }

  lemma EscapeKeepsEscape(s: string)
    requires |s| > 1 && s[0] == '\\'
    ensures var e := Escape(In, s); |e| > 1 && e[0] == '\\' && e[1] == s[1] && e[2..] == Escape(In, s[2..])
  {
    EscapeHead(In, s);
    EscapeRawFacts(s[0]);
    EscapeHead(Esc, s[1..]);
    assert s[1..][1..] == s[2..];
    var e := Escape(In, s);
    hide Escape;
    assert e == [s[0]] + ([s[1]] + Escape(In, s[2..]));
  }

  lemma EscapeKeepsDigits(s: string)
    requires FourHex(s)
    ensures var e := Escape(In, s); FourHex(e) && FourHexValue(e) == FourHexValue(s) && e[4..] == Escape(In, s[4..])
  {
    EscapeKeepsFourHex(s);
    hide Escape;
    var e := Escape(In, s);
    assert forall i :: 0 <= i < 4 ==> e[i] == e[..4][i] && s[i] == s[..4][i];
  }

  /** The piece at the head of a literal is escaped into a piece of the same meaning. */
  lemma EscapeKeepsPiece(s: string)
    ensures var e := Escape(In, s);
            && (PieceLen(s) == 0 <==> PieceLen(e) == 0)
            && (s != "" <==> e != "") && (s != "" ==> (s[0] == '"' <==> e[0] == '"'))
            && (PieceLen(s) > 0 ==>
                  PieceUnits(e) == PieceUnits(s) && e[PieceLen(e)..] == Escape(In, s[PieceLen(s)..]))
  {
    var e := Escape(In, s);
    if |s| > 1 && s[0] == '\\' {
      EscapeKeepsEscape(s);
      hide Escape, Units, Unescape, FourHex, FourHexValue;
      EscapeKeepsFourHex(s[2..]);
      if s[1] == 'u' && FourHex(s[2..]) {
        EscapeKeepsDigits(s[2..]);
        assert s[2..][4..] == s[6..] && e[2..][4..] == e[6..];
      }
    } else if s != "" {
      EscapeHead(In, s);
      EscapeRawFacts(s[0]);
    }
  }

  /** A literal decodes to the same content, is closed or not as before, and the rest follows. */
  lemma {:induction false} EscapeKeepsDecoding(s: string)
    ensures var d, e := DecodeBody(s), DecodeBody(Escape(In, s));
            && e.value == d.value && e.complete == d.complete
            && (d.complete ==> e.rest == Escape(Out, d.rest))
    decreases |s|
  {
    hide PieceLen, PieceUnits;
    EscapeKeepsPiece(s);
    if s != "" && s[0] == '"' {
      EscapeHead(In, s);
    } else if PieceLen(s) > 0 {
      EscapeKeepsDecoding(s[PieceLen(s)..]);
    }
  }

  /** What the literals of a text decode to, up to the first one that does not end. */
  function Decodings(s: string): seq<(seq<Unit>, bool)>
    decreases |s|
  {
    if s == "" then []
    else if s[0] != '"' then Decodings(s[1..])
    else
      var d := DecodeBody(s[1..]);
      [(d.value, d.complete)] + if d.complete then Decodings(d.rest) else []
  }

  /** Escaping raw control characters changes no string value. */
  lemma {:induction false} EscapeKeepsValues(s: string)
    ensures Decodings(Escape(Out, s)) == Decodings(s)
    decreases |s|
  {
    if s == "" {
    } else {
      EscapeHead(Out, s);
      if s[0] == '"' {
        EscapeKeepsDecoding(s[1..]);
        EscapeKeepsValues(DecodeBody(s[1..]).rest);
      } else {
        EscapeKeepsValues(s[1..]);
      }
    }
  }

  // ----- Well-formed JSON -----

  /** Reading on behind a literal's first characters: both tests look at what follows only. */
  ghost predicate SameBehind(s: string, n: nat)
    requires n <= |s|
  {
    HasTrailingComma(In, s) == HasTrailingComma(In, s[n..]) && HasRawControl(In, s) == HasRawControl(In, s[n..])
  }

  lemma PlainCharIsClean(s: string)
    requires s != "" && s[0] != '"' && s[0] != '\\' && ' ' <= s[0]
    ensures SameBehind(s, 1)
  {
  }

  lemma EscapeIsClean(s: string)
    requires |s| > 1 && s[0] == '\\'
    ensures SameBehind(s, 2)
  {
    assert s[1..][1..] == s[2..];
  }

  lemma FourHexInFront(digits: string, rest: string)
    requires FourHex(digits)
    ensures FourHex(digits + rest)
  {
    assert forall i :: 0 <= i < 4 ==> (digits + rest)[i] == digits[i];
  }

  lemma DropBody(body: string, rest: string, n: nat)
    requires n <= |body|
    ensures (body + "\"" + rest)[n..] == body[n..] + "\"" + rest
  {
  }

  lemma {:induction false} BodyIsClean(body: string, rest: string)
    requires IsBody(body)
    ensures HasTrailingComma(In, body + "\"" + rest) == HasTrailingComma(Out, rest)
    ensures HasRawControl(In, body + "\"" + rest) == HasRawControl(Out, rest)
    decreases |body|
  {
    var s := body + "\"" + rest;
    if body == "" {
      assert s == "\"" + rest && s[1..] == rest;
    } else {
      hide HasTrailingComma, HasRawControl, FourHex;
      var n := if body[0] != '\\' then 1 else if body[1] == 'u' then 6 else 2;
      DropBody(body, rest, n);
      BodyIsClean(body[n..], rest);
      if n == 1 {
        PlainCharIsClean(s);
      } else if n == 2 {
        EscapeIsClean(s);
      } else {
        UnicodeEscapeIsClean(body, rest);
      }
    }
  }

  lemma UnicodeEscapeIsClean(body: string, rest: string)
    requires |body| >= 6 && body[0] == '\\' && FourHex(body[2..])
    ensures SameBehind(body + "\"" + rest, 6)
  {
    hide HasTrailingComma, HasRawControl, FourHex;
    var s := body + "\"" + rest;
    EscapeIsClean(s);
    DropBody(body, rest, 2);
    assert body[2..] + "\"" + rest == body[2..] + ("\"" + rest);
    FourHexInFront(body[2..], "\"" + rest);
    HexIsClean(s[2..]);
    assert s[2..][4..] == s[6..];
  }

  lemma HexIsClean(s: string)
    ensures FourHex(s) ==> HasTrailingComma(In, s) == HasTrailingComma(In, s[4..])
    ensures FourHex(s) ==> HasRawControl(In, s) == HasRawControl(In, s[4..])
  {
    if FourHex(s) {
      assert s[1..][1..] == s[2..] && s[2..][1..] == s[3..] && s[3..][1..] == s[4..];
      assert HasTrailingComma(In, s[2..]) == HasTrailingComma(In, s[4..]);
      assert HasRawControl(In, s[2..]) == HasRawControl(In, s[4..]);
    }
  }

  /** Characters outside literals that are no quotes and no commas. */
  predicate IsPlain(s: string) {
    forall i :: 0 <= i < |s| ==> s[i] != '"' && s[i] != ','
  }

  lemma {:induction false} PlainIsClean(s: string, rest: string)
    requires IsPlain(s)
    ensures HasTrailingComma(Out, s + rest) == HasTrailingComma(Out, rest)
    ensures HasRawControl(Out, s + rest) == HasRawControl(Out, rest)
  {
    if s == "" {
      assert s + rest == rest;
    } else {
      assert (s + rest)[1..] == s[1..] + rest;
      PlainIsClean(s[1..], rest);
    }
  }

  ghost predicate IsClean(s: string) {
    !HasTrailingComma(Out, s) && !HasRawControl(Out, s)
  }

  lemma LiteralIsClean(before: string, body: string, rest: string)
    requires IsPlain(before) && IsBody(body) && IsClean(rest)
    ensures IsClean(before + ("\"" + body + "\"" + rest))
  {
    var s := "\"" + body + "\"" + rest;
    assert s[1..] == body + "\"" + rest;
    BodyIsClean(body, rest);
    PlainIsClean(before, s);
  }

  lemma PlainPrefixIsClean(s: string, rest: string)
    requires IsPlain(s) && IsClean(rest)
    ensures IsClean(s + rest)
  {
    PlainIsClean(s, rest);
  }

  lemma ClosedIsClean(open: string, inner: string, close: string, rest: string)
    requires IsPlain(open) && IsClean(inner + (close + rest))
    ensures IsClean(open + inner + close + rest)
  {
    hide IsClean;
    PlainPrefixIsClean(open, inner + (close + rest));
    assert open + (inner + (close + rest)) == open + inner + close + rest;
  }

  lemma ItemEndIsClean(after: string, last: bool, rest: string)
    requires IsJsonSpace(after) && IsClean(rest) && (last || Continues(rest))
    ensures IsClean(ItemEnd(after, last) + rest)
  {
    if last {
      PlainPrefixIsClean(after, rest);
      assert ItemEnd(after, last) + rest == after + rest;
    } else {
      CommaIsClean(rest);
      PlainPrefixIsClean(after, "," + rest);
      assert ItemEnd(after, last) + rest == after + ("," + rest);
    }
  }

  /** A text that goes on after a comma, behind optional whitespace, with no closing bracket. */
  ghost predicate Continues(s: string) {
    !ClosesAfterSpace(s)
  }

  lemma {:induction false} SpaceContinues(space: string, s: string)
    requires IsJsonSpace(space) && s != "" && !IsSpace(s[0]) && s[0] != '}' && s[0] != ']'
    ensures Continues(space + s)
  {
    if space == "" {
      assert space + s == s;
    } else {
      assert (space + s)[1..] == space[1..] + s;
      SpaceContinues(space[1..], s);
    }
  }

  lemma CommaIsClean(s: string)
    requires Continues(s) && IsClean(s)
    ensures IsClean("," + s)
  {
    assert ("," + s)[1..] == s;
  }

  lemma ValueStarts(v: Value)
    requires WellFormed(v)
    ensures var s := Print(v); s != "" && !IsSpace(s[0]) && s[0] != '}' && s[0] != ']'
  {
  }

  lemma {:induction false} ValueIsClean(v: Value, rest: string)
    requires WellFormed(v) && IsClean(rest)
    ensures IsClean(Print(v) + rest)
    decreases v
  {
    hide IsClean;
    match v
    case Str(body) =>
      LiteralIsClean("", body, rest);
      assert "" + ("\"" + body + "\"" + rest) == Print(v) + rest;
    case Bare(text) =>
      PlainPrefixIsClean(text, rest);
    case Obj(space, members) =>
      PlainPrefixIsClean("}", rest);
      MembersAreClean(members, "}" + rest);
      ClosedIsClean("{" + space, PrintMembers(members), "}", rest);
    case Arr(space, elements) =>
      PlainPrefixIsClean("]", rest);
      ElementsAreClean(elements, "]" + rest);
      ClosedIsClean("[" + space, PrintElements(elements), "]", rest);
  }

  lemma {:induction false} MembersAreClean(ms: Members, rest: string)
    requires WellFormedMembers(ms) && IsClean(rest)
    ensures IsClean(PrintMembers(ms) + rest)
    ensures ms.Member? ==> Continues(PrintMembers(ms) + rest)
    decreases ms
  {
    if ms.Member? {
      hide IsClean, Print, PrintMembers, ItemEnd, IsJsonSpace, IsBody, IsPlain, Continues;
      SpacesArePlain(ms);
      MembersAreClean(ms.rest, rest);
      ItemEndIsClean(ms.after, ms.rest.NoMembers?, PrintMembers(ms.rest) + rest);
      var behind := ItemEnd(ms.after, ms.rest.NoMembers?) + (PrintMembers(ms.rest) + rest);
      ValueIsClean(ms.value, behind);
      PlainPrefixIsClean(ms.afterKey + ":" + ms.beforeValue, Print(ms.value) + behind);
      var tail := (ms.afterKey + ":" + ms.beforeValue) + (Print(ms.value) + behind);
      LiteralIsClean(ms.before, ms.key, tail);
      KeyContinues(ms.before, ms.key, tail);
      PrintFirstMember(ms, rest);
    } else {
      assert PrintMembers(ms) + rest == rest;
    }
  }

  lemma SpacesArePlain(ms: Members)
    requires WellFormedMembers(ms) && ms.Member?
    ensures IsPlain(ms.before) && IsPlain(ms.afterKey + ":" + ms.beforeValue)
  {
    hide WellFormed, IsBody;
    var colon := ms.afterKey + ":" + ms.beforeValue;
    forall i | 0 <= i < |colon| ensures colon[i] != '"' && colon[i] != ',' {
      var n := |ms.afterKey|;
      assert colon[i] == if i < n then ms.afterKey[i] else if i == n then ':' else ms.beforeValue[i - n - 1];
    }
  }

  lemma KeyContinues(before: string, key: string, tail: string)
    requires IsJsonSpace(before)
    ensures Continues(before + ("\"" + key + "\"" + tail))
  {
    hide Continues, IsJsonSpace;
    var s := "\"" + key + "\"" + tail;
    assert s[0] == '"';
    SpaceContinues(before, s);
  }

  lemma {:induction false} ElementsAreClean(es: Elements, rest: string)
    requires WellFormedElements(es) && IsClean(rest)
    ensures IsClean(PrintElements(es) + rest)
    ensures es.Element? ==> Continues(PrintElements(es) + rest)
    decreases es
  {
    if es.Element? {
      ValueStarts(es.value);
      hide IsClean, Print, PrintElements, ItemEnd;
      ElementsAreClean(es.rest, rest);
      ItemEndIsClean(es.after, es.rest.NoElements?, PrintElements(es.rest) + rest);
      var behind := ItemEnd(es.after, es.rest.NoElements?) + (PrintElements(es.rest) + rest);
      ValueIsClean(es.value, behind);
      PlainPrefixIsClean(es.before, Print(es.value) + behind);
      SpaceContinues(es.before, Print(es.value) + behind);
      PrintFirstElement(es, rest);
    } else {
      assert PrintElements(es) + rest == rest;
    }
  }

  /** Neither repair touches well-formed JSON. */
  lemma WellFormedJsonIsUntouched(v: Value)
    requires WellFormed(v)
    ensures Strip(Out, Print(v)) == Print(v) && Escape(Out, Print(v)) == Print(v)
  {
    ValueIsClean(v, "");
    assert Print(v) + "" == Print(v);
    StripIsIdentityIff(Out, Print(v));
    EscapeIsIdentityIff(Out, Print(v));
  }
}
