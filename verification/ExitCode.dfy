/**
  Finding a command's exit code in the captured terminal output: the marker parser, the
  bounded capture buffer, and the loop that feeds it.
 */
module ExitCode {
  import opened Text
  import Sentinel
  import Utf8

  // ----- Decimal i32 text -----

  predicate IsDigit(c: char) {
    '0' <= c <= '9'
  }

  function DigitValue(c: char): (d: nat)
    requires IsDigit(c)
    ensures d <= 9
  {
    c as int - '0' as int
  }

  function ParseDigits(s: string): Option<nat> {
    if s == "" || !IsDigit(s[|s| - 1]) then None
    else if |s| == 1 then Some(DigitValue(s[0]))
    else
      match ParseDigits(s[..|s| - 1])
      case None => None
      case Some(high) => Some(high * 10 + DigitValue(s[|s| - 1]))
  }

  predicate FitsI32(n: int) {
    -0x8000_0000 <= n < 0x8000_0000
  }

  /** Rust's `str::parse::<i32>`. */
  function ParseI32(s: string): Option<int> {
    var negative := "-" <= s;
    match ParseDigits(if negative || "+" <= s then s[1..] else s)
    case None => None
    case Some(n) =>
      var value := if negative then -(n as int) else n as int;
      if FitsI32(value) then Some(value) else None
  }

  function PrintNat(n: nat): (s: string)
    ensures s != "" && forall i :: 0 <= i < |s| ==> IsDigit(s[i])
  {
    var last := ['0' + (n % 10) as char];
    if n < 10 then last else PrintNat(n / 10) + last
  }

  function PrintInt(n: int): string {
    if n < 0 then "-" + PrintNat(-n) else PrintNat(n)
  }

  /** The text of a number without its sign. */
  function Unsigned(s: string): string {
    if s != "" && (s[0] == '-' || s[0] == '+') then s[1..] else s
  }

  /** A number is read exactly if there are digits, nothing else behind the sign, and no overflow. */
  lemma ReadsNumbersIff(s: string)
    ensures ParseI32(s).Some? <==>
              && ParseDigits(Unsigned(s)).Some?
              && ParseDigits(Unsigned(s)).value <= if "-" <= s then 2147483648 else 2147483647
    ensures ParseI32(s).Some? ==>
              var n: int := ParseDigits(Unsigned(s)).value;
              ParseI32(s).value == if "-" <= s then -n else n
  {
    hide ParseDigits;
    assert "-" <= s <==> s != "" && s[0] == '-';
    assert "+" <= s <==> s != "" && s[0] == '+';
  }

  lemma {:induction false} DigitsIff(s: string)
    ensures ParseDigits(s).Some? <==> s != "" && forall i :: 0 <= i < |s| ==> IsDigit(s[i])
  {
    if s == "" || !IsDigit(s[|s| - 1]) || |s| == 1 {
    } else {
      DigitsIff(s[..|s| - 1]);
    }
  }

  lemma {:induction false} ParsePrintNat(n: nat)
    ensures ParseDigits(PrintNat(n)) == Some(n)
  {
    var s := PrintNat(n);
    if n >= 10 {
      ParsePrintNat(n / 10);
      assert s[..|s| - 1] == PrintNat(n / 10);
    }
  }

  lemma ParsePrintInt(n: int)
    requires FitsI32(n)
    ensures ParseI32(PrintInt(n)) == Some(n)
  {
    hide PrintNat, ParseDigits;
    if n < 0 {
      var text := "-" + PrintNat(-n);
      ParsePrintNat(-n);
      assert PrintInt(n) == text && text[1..] == PrintNat(-n);
    } else {
      ParsePrintNat(n);
      var text := PrintNat(n);
      assert IsDigit(text[0]) && !("-" <= text) && !("+" <= text);
    }
  }

  // ----- The marker parser -----

  predicate IsTerminator(c: char) {
    c == '\r' || c == '\n'
  }

  predicate HasTerminator(s: string) {
    s != "" && (IsTerminator(s[0]) || HasTerminator(s[1..]))
  }

  function UntilTerminator(s: string): string {
    if s == "" || IsTerminator(s[0]) then "" else [s[0]] + UntilTerminator(s[1..])
  }

  /** The exit code that directly follows a marker, if the text there is one. */
  function CodeAfter(after: string): Option<int> {
    if ":" <= after then ParseI32(Trim(UntilTerminator(after[1..]))) else None
  }

  /** Where a marker that a code follows starts, and that code. */
  datatype Found = Found(index: nat, code: int)

  /** The first such marker among the non-overlapping markers from `from` on. */
  function SearchFrom(buffer: string, marker: string, from: nat): (r: Option<Found>)
    requires marker != "" && from <= |buffer|
    ensures r.Some? ==> from <= r.value.index <= r.value.index + |marker| <= |buffer|
    decreases |buffer| - from
  {
    match FindFrom(buffer, marker, from)
    case None => None
    case Some(i) =>
      var code := CodeAfter(buffer[i + |marker|..]);
      if code.Some? then Some(Found(i, code.value)) else SearchFrom(buffer, marker, i + |marker|)
  }

  /** No code is made up: it stands behind a marker that is really there. */
  lemma {:induction false} SearchFindsMarker(buffer: string, marker: string, from: nat)
    requires marker != "" && from <= |buffer| && SearchFrom(buffer, marker, from).Some?
    ensures var found := SearchFrom(buffer, marker, from).value;
            OccursAt(buffer, marker, found.index) && CodeAfter(buffer[found.index + |marker|..]) == Some(found.code)
    decreases |buffer| - from
  {
    hide CodeAfter, FindFrom;
    var i := FindFrom(buffer, marker, from).value;
    if CodeAfter(buffer[i + |marker|..]).None? {
      SearchFindsMarker(buffer, marker, i + |marker|);
    }
  }

  datatype Parsed = Parsed(output: string, code: int)

  function Parse(buffer: string, marker: string): Option<Parsed>
    requires marker != ""
  {
    match SearchFrom(buffer, marker, 0)
    case None => None
    case Some(found) => Some(Parsed(buffer[..found.index], found.code))
  }

  method ParseSentinel(buffer: string, marker: string) returns (r: Option<Parsed>)
    requires marker != ""
    ensures r == Parse(buffer, marker)
  {
    hide CodeAfter, FindFrom;
    var from := 0;
    while true
      invariant from <= |buffer|
      invariant SearchFrom(buffer, marker, 0) == SearchFrom(buffer, marker, from)
      decreases |buffer| - from
    {
      var markerIndex := FindFrom(buffer, marker, from);
      if markerIndex.None? {
        return None;
      }
      var code := CodeAfter(buffer[markerIndex.value + |marker|..]);
      if code.Some? {
        return Some(Parsed(buffer[..markerIndex.value], code.value));
      }
      from := markerIndex.value + |marker|;
    }
  }

  lemma {:induction false} UntilTerminatorAppend(s: string, more: string)
    ensures HasTerminator(s) ==> HasTerminator(s + more) && UntilTerminator(s + more) == UntilTerminator(s)
    ensures !HasTerminator(s) ==> UntilTerminator(s) == s && UntilTerminator(s + more) == s + UntilTerminator(more)
  {
    if s == "" {
      assert s + more == more;
    } else {
      assert (s + more)[1..] == s[1..] + more;
      UntilTerminatorAppend(s[1..], more);
    }
  }

  /** A terminated code line means the same whatever arrives later. */
  lemma CodeAfterIsFinal(after: string, more: string)
    requires HasTerminator(after)
    ensures CodeAfter(after + more) == CodeAfter(after)
  {
    hide UntilTerminator, ParseI32, Trim;
    if ":" <= after {
      assert (after + more)[1..] == after[1..] + more;
      UntilTerminatorAppend(after[1..], more);
    } else {
      assert (after + more)[0] == after[0];
    }
  }

  /** An unterminated code line followed by a letter is no code. */
  lemma CodeAfterIsSpoilt(after: string)
    requires !HasTerminator(after)
    ensures CodeAfter(after + "x").None?
  {
    hide ParseI32, Trim, UntilTerminator;
    if ":" <= after {
      var line := after[1..] + "x";
      assert (after + "x")[1..] == line;
      UntilX(after[1..]);
      EndsInLetter(line);
    } else {
      assert (after + "x")[0] == if after == "" then 'x' else after[0];
    }
  }

  lemma UntilX(s: string)
    requires !HasTerminator(s)
    ensures UntilTerminator(s + "x") == s + "x"
  {
    UntilTerminatorAppend(s, "x");
    assert ['x'] + UntilTerminator("x"[1..]) == "x";
  }

  lemma EndsInLetter(line: string)
    requires line != "" && line[|line| - 1] == 'x'
    ensures ParseI32(Trim(line)).None?
  {
    var text := TrimStart(line);
    assert !IsWhiteSpace(line[|line| - 1]) && text != "";
    assert text[|text| - 1] == 'x';
  }

  lemma FindFromAppend(buffer: string, marker: string, from: nat, more: string)
    requires from <= |buffer| && FindFrom(buffer, marker, from).Some?
    ensures FindFrom(buffer + more, marker, from) == FindFrom(buffer, marker, from)
  {
    hide FindFrom;
    var i := FindFrom(buffer, marker, from).value;
    forall j | from <= j <= i
      ensures OccursAt(buffer + more, marker, j) == OccursAt(buffer, marker, j)
    {
      assert (buffer + more)[j..j + |marker|] == buffer[j..j + |marker|];
    }
  }

  lemma {:induction false} HasTerminatorLater(s: string, n: nat)
    requires n <= |s| && HasTerminator(s[n..])
    ensures HasTerminator(s)
  {
    if n == 0 {
    } else {
      assert s[1..][n - 1..] == s[n..];
      HasTerminatorLater(s[1..], n - 1);
    }
  }

  /** Appending to a buffer: what follows a marker grows at its end. */
  lemma AfterMarker(buffer: string, more: string, i: nat, later: nat)
    requires i <= later <= |buffer|
    ensures (buffer + more)[i..] == buffer[i..] + more
    ensures HasTerminator(buffer[later..]) ==> HasTerminator(buffer[i..])
  {
    assert buffer[i..][later - i..] == buffer[later..];
    if HasTerminator(buffer[later..]) {
      HasTerminatorLater(buffer[i..], later - i);
    }
  }

  lemma {:induction false} SearchStable(buffer: string, marker: string, from: nat, more: string)
    requires marker != "" && from <= |buffer|
    requires SearchFrom(buffer, marker, from).Some?
    requires HasTerminator(buffer[SearchFrom(buffer, marker, from).value.index + |marker|..])
    ensures SearchFrom(buffer + more, marker, from) == SearchFrom(buffer, marker, from)
    decreases |buffer| - from
  {
    hide FindFrom, CodeAfter, HasTerminator;
    FindFromAppend(buffer, marker, from, more);
    var i := FindFrom(buffer, marker, from).value + |marker|;
    AfterMarker(buffer, more, i, SearchFrom(buffer, marker, from).value.index + |marker|);
    CodeAfterIsFinal(buffer[i..], more);
    if CodeAfter(buffer[i..]).None? {
      SearchStable(buffer, marker, i, more);
    }
  }

  lemma {:induction false} SearchUnstable(buffer: string, marker: string, from: nat)
    requires marker != "" && from <= |buffer|
    requires SearchFrom(buffer, marker, from).Some?
    requires !HasTerminator(buffer[SearchFrom(buffer, marker, from).value.index + |marker|..])
    ensures var r := SearchFrom(buffer + "x", marker, from);
            r.None? || r.value.index != SearchFrom(buffer, marker, from).value.index
    decreases |buffer| - from
  {
    hide FindFrom, CodeAfter, HasTerminator;
    FindFromAppend(buffer, marker, from, "x");
    var i := FindFrom(buffer, marker, from).value + |marker|;
    AfterMarker(buffer, "x", i, i);
    if HasTerminator(buffer[i..]) {
      CodeAfterIsFinal(buffer[i..], "x");
    } else {
      CodeAfterIsSpoilt(buffer[i..]);
    }
    if CodeAfter(buffer[i..]).None? {
      SearchUnstable(buffer, marker, i);
    }
  }

  /** The code line that the parser's answer was read from has ended. */
  ghost predicate IsTerminated(buffer: string, marker: string)
    requires marker != ""
  {
    var found := SearchFrom(buffer, marker, 0);
    found.Some? && HasTerminator(buffer[found.value.index + |marker|..])
  }

  /**
    The parser does not wait for the end of the code line. Its answer survives all further
    input exactly when a line terminator already follows the code.
   */
  lemma AnswerIsFinalIffTerminated(buffer: string, marker: string)
    requires marker != "" && Parse(buffer, marker).Some?
    ensures (forall more :: Parse(buffer + more, marker) == Parse(buffer, marker)) <==> IsTerminated(buffer, marker)
  {
    hide SearchFrom, HasTerminator;
    var found := SearchFrom(buffer, marker, 0).value;
    if IsTerminated(buffer, marker) {
      forall more ensures Parse(buffer + more, marker) == Parse(buffer, marker) {
        SearchStable(buffer, marker, 0, more);
        assert (buffer + more)[..found.index] == buffer[..found.index];
      }
    } else {
      SearchUnstable(buffer, marker, 0);
      var spoilt := SearchFrom(buffer + "x", marker, 0);
      if spoilt.Some? {
        assert |(buffer + "x")[..spoilt.value.index]| != |buffer[..found.index]|;
      }
      assert Parse(buffer + "x", marker) != Parse(buffer, marker);
    }
  }

  lemma {:induction false} PrintedUntilTerminator(s: string, rest: string)
    requires rest != "" && IsTerminator(rest[0])
    requires forall i :: 0 <= i < |s| ==> !IsTerminator(s[i])
    ensures UntilTerminator(s + rest) == s
  {
    if s != "" {
      assert (s + rest)[1..] == s[1..] + rest;
      PrintedUntilTerminator(s[1..], rest);
    } else {
      assert s + rest == rest;
    }
  }

  lemma PrintedCodeIsRead(code: int, rest: string)
    requires FitsI32(code) && rest != "" && IsTerminator(rest[0])
    ensures CodeAfter(":" + PrintInt(code) + rest) == Some(code)
  {
    var text := PrintInt(code);
    hide PrintInt, ParseI32;
    PrintIntIsPlain(code);
    assert (":" + text + rest)[1..] == text + rest;
    PrintedUntilTerminator(text, rest);
    ParsePrintInt(code);
  }

  lemma PlainTextIsTrimmed(text: string)
    requires text != "" && forall i :: 0 <= i < |text| ==> IsDigit(text[i]) || text[i] == '-'
    ensures Trim(text) == text
  {
    assert TrimStart(text) == text;
  }

  lemma PrintIntCharacters(n: int)
    ensures var text := PrintInt(n); text != "" && forall i :: 0 <= i < |text| ==> IsDigit(text[i]) || text[i] == '-'
  {
    hide PrintNat;
  }

  lemma PrintIntIsPlain(n: int)
    ensures var text := PrintInt(n); Trim(text) == text && forall i :: 0 <= i < |text| ==> !IsTerminator(text[i])
  {
    PrintIntCharacters(n);
    hide PrintInt, Trim;
    PlainTextIsTrimmed(PrintInt(n));
  }

  /** At every marker before `end` stands the wrapper's echo, in which ":%s" follows. */
  ghost predicate OnlyEchoesBefore(buffer: string, marker: string, end: nat) {
    forall j :: 0 <= j < end && OccursAt(buffer, marker, j) ==> ":%" <= buffer[j + |marker|..]
  }

  lemma EchoIsNoCode(after: string)
    requires ":%" <= after
    ensures CodeAfter(after).None?
  {
    var line := UntilTerminator(after[1..]);
    assert line[0] == '%' && TrimStart(line) == line;
    var text := Trim(line);
    if text != "" {
      assert text[0] == '%';
      ParseDigitsNeedsDigits(text);
    }
  }

  lemma {:induction false} ParseDigitsNeedsDigits(s: string)
    requires s != "" && !IsDigit(s[0])
    ensures ParseDigits(s).None?
  {
    if |s| <= 1 {
    } else {
      ParseDigitsNeedsDigits(s[..|s| - 1]);
    }
  }

  lemma {:induction false} SearchPastEchoes(buffer: string, marker: string, from: nat, end: nat, code: int)
    requires marker != "" && ':' !in marker && from <= end
    requires OccursAt(buffer, marker, end) && CodeAfter(buffer[end + |marker|..]) == Some(code)
    requires OnlyEchoesBefore(buffer, marker, end)
    ensures SearchFrom(buffer, marker, from) == Some(Found(end, code))
    decreases end - from
  {
    hide CodeAfter, FindFrom;
    var i := FindFrom(buffer, marker, from).value;
    if i < end {
      EchoIsNoCode(buffer[i + |marker|..]);
      EchoEndsBefore(buffer, marker, i, end);
      SearchPastEchoes(buffer, marker, i + |marker|, end, code);
    }
  }

  /** A marker cannot overlap the ":" behind an earlier one. */
  lemma EchoEndsBefore(buffer: string, marker: string, i: nat, end: nat)
    requires ':' !in marker && OccursAt(buffer, marker, i) && OccursAt(buffer, marker, end) && i < end
    requires ":%" <= buffer[i + |marker|..]
    ensures i + |marker| <= end
  {
    assert buffer[i + |marker|] == buffer[i + |marker|..][0] == ':';
    forall k | 0 <= k < |marker| ensures buffer[end + k] == marker[k] != ':' {
      assert buffer[end..end + |marker|][k] == marker[k];
    }
    assert i + |marker| - end < |marker| ==> i + |marker| == end + (i + |marker| - end);
  }

  /**
    Echoes of the wrapper are skipped and the printed code is returned for every i32 code,
    together with the text before the printed marker, finally once the line has ended.
   */
  lemma PrintedCodeIsFound(before: string, marker: string, code: int, rest: string)
    requires marker != "" && ':' !in marker
    requires FitsI32(code) && rest != "" && IsTerminator(rest[0])
    requires OnlyEchoesBefore(before + marker + (":" + PrintInt(code) + rest), marker, |before|)
    ensures var buffer := before + marker + (":" + PrintInt(code) + rest);
            Parse(buffer, marker) == Some(Parsed(before, code)) && IsTerminated(buffer, marker)
  {
    hide SearchFrom, PrintInt, CodeAfter, HasTerminator, OnlyEchoesBefore;
    var printed := ":" + PrintInt(code) + rest;
    var buffer := before + marker + printed;
    assert buffer[|before| + |marker|..] == printed && buffer[..|before|] == before;
    assert buffer[|before|..|before| + |marker|] == marker;
    PrintedCodeIsRead(code, rest);
    SearchPastEchoes(buffer, marker, 0, |before|, code);
    assert printed[|printed| - |rest|..] == rest;
    StartsWithTerminator(rest);
    HasTerminatorLater(printed, |printed| - |rest|);
  }

  lemma StartsWithTerminator(rest: string)
    requires rest != "" && IsTerminator(rest[0])
    ensures HasTerminator(rest)
  {
  }

  /** Cut between its digits, a code is misread: the first chunk already answers. */
  lemma SplitDigitsAreMisread()
    ensures Parse("M:12", "M") == Some(Parsed("", 12)) && !IsTerminated("M:12", "M")
    ensures Parse("M:12" + "7\n", "M") == Some(Parsed("", 127))
  {
    UnfinishedCodeIs12();
    PrintedCodeIs127();
    hide PrintInt, Parse, IsTerminated;
    PrintedCodeIsFound("", "M", 127, "\n");
    assert "" + "M" + (":" + PrintInt(127) + "\n") == "M:12" + "7\n";
  }

  lemma UnfinishedCodeIs12()
    ensures Parse("M:12", "M") == Some(Parsed("", 12)) && !IsTerminated("M:12", "M")
  {
    assert "M:12"[0..1] == "M" && OccursAt("M:12", "M", 0);
    assert FindFrom("M:12", "M", 0) == Some(0);
    assert "M:12"[1..] == ":12" && "M:12"[..0] == "";
    hide FindFrom, CodeAfter, HasTerminator, PrintInt;
    PrintedCodeIs127();
    UnterminatedCodeIsRead(12);
    assert ":" + PrintInt(12) == ":12";
  }

  lemma {:induction false} NoTerminator(s: string)
    requires forall i :: 0 <= i < |s| ==> !IsTerminator(s[i])
    ensures !HasTerminator(s) && UntilTerminator(s) == s
  {
    if s == "" {
    } else {
      NoTerminator(s[1..]);
    }
  }

  /** A code at the end of the buffer is already taken for complete. */
  lemma UnterminatedCodeIsRead(code: int)
    requires FitsI32(code)
    ensures CodeAfter(":" + PrintInt(code)) == Some(code) && !HasTerminator(":" + PrintInt(code))
  {
    hide PrintInt, ParseI32;
    PrintIntIsPlain(code);
    assert (":" + PrintInt(code))[1..] == PrintInt(code);
    NoTerminator(PrintInt(code));
    ParsePrintInt(code);
  }

  lemma PrintedCodeIs127()
    ensures PrintInt(127) == "127" && PrintInt(12) == "12"
  {
    assert PrintNat(1) == "1" && PrintNat(12) == "1" + "2" && PrintNat(127) == PrintNat(12) + "7";
  }

  // ----- The bounded capture buffer -----

  const MAX_BUFFER_SIZE := 1024 * 1024
  const KEEP_BUFFER_SIZE := 768 * 1024

  /** Number of UTF-8 bytes of a character. */
  function Utf8Len(c: char): (n: nat)
    ensures 1 <= n <= 4
  {
    if c as int < 0x80 then 1 else if c as int < 0x800 then 2 else if c as int < 0x10000 then 3 else 4
  }

  /** It is the length of the encoding of the character. */
  lemma Utf8LenIsThatOfTheEncoding(c: char)
    requires !(0xD800 <= c as int <= 0xDFFF)
    ensures var v: Utf8.Scalar := c as int; Utf8Len(c) == |Utf8.Encode(v)|
  {}

  function ByteLen(s: string): nat {
    if s == "" then 0 else Utf8Len(s[0]) + ByteLen(s[1..])
  }

  /** The character that starts at byte `offset`, if a character does. */
  function CharAtByte(s: string, offset: nat): (r: Option<nat>)
    ensures r.Some? ==> r.value <= |s| && ByteLen(s[..r.value]) == offset
    ensures offset == ByteLen(s) ==> r == Some(|s|)
  {
    if offset == 0 then Some(0)
    else if s == "" || offset < Utf8Len(s[0]) then None
    else
      match CharAtByte(s[1..], offset - Utf8Len(s[0]))
      case None => None
      case Some(k) =>
        assert s[..k + 1] == [s[0]] + s[1..][..k];
        Some(k + 1)
  }

  /** The first character that starts at byte `offset` or later. */
  function FirstCharFrom(s: string, offset: nat): (k: nat)
    requires offset <= ByteLen(s)
    ensures k <= |s| && ByteLen(s[k..]) <= ByteLen(s) - offset
    ensures offset > 0 ==> k > 0
  {
    if offset == 0 then 0
    else 1 + FirstCharFrom(s[1..], if offset < Utf8Len(s[0]) then 0 else offset - Utf8Len(s[0]))
  }

  lemma {:induction false} FirstCharFromSkips(s: string, offset: nat)
    requires offset <= ByteLen(s)
    ensures match CharAtByte(s, offset)
            case Some(k) => FirstCharFrom(s, offset) == k
            case None => offset < ByteLen(s) && FirstCharFrom(s, offset) == FirstCharFrom(s, offset + 1)
  {
    if offset > 0 && Utf8Len(s[0]) <= offset {
      FirstCharFromSkips(s[1..], offset - Utf8Len(s[0]));
    }
  }

  /** The first character that an over-long buffer keeps: after a newline where there is one. */
  function KeptFrom(buffer: string): (k: nat)
    ensures k <= |buffer|
    ensures ByteLen(buffer) <= MAX_BUFFER_SIZE ==> k == 0
  {
    if ByteLen(buffer) <= MAX_BUFFER_SIZE then 0
    else
      var cut := FirstCharFrom(buffer, ByteLen(buffer) - KEEP_BUFFER_SIZE);
      match FindFrom(buffer, "\n", cut)
      case Some(newline) => if newline + 1 < |buffer| then newline + 1 else cut
      case None => cut
  }

  lemma KeptFromLine(buffer: string)
    requires ByteLen(buffer) > MAX_BUFFER_SIZE
    ensures var cut := FirstCharFrom(buffer, ByteLen(buffer) - KEEP_BUFFER_SIZE);
            var newline := FindFrom(buffer, "\n", cut);
            KeptFrom(buffer) == if newline.Some? && newline.value + 1 < |buffer| then newline.value + 1 else cut
  {
    hide FirstCharFrom, ByteLen, FindFrom, OccursAt;
  }

  method TrimExecBuffer(buffer: string) returns (kept: string)
    ensures kept == buffer[KeptFrom(buffer)..]
  {
    hide FirstCharFrom, CharAtByte, ByteLen, KeptFrom, FindFrom, OccursAt;
    if ByteLen(buffer) <= MAX_BUFFER_SIZE {
      assert buffer[0..] == buffer;
      return buffer;
    }
    var target := ByteLen(buffer) - KEEP_BUFFER_SIZE;
    var cut := target;
    while cut < ByteLen(buffer) && CharAtByte(buffer, cut).None?
      invariant target <= cut <= ByteLen(buffer)
      invariant FirstCharFrom(buffer, cut) == FirstCharFrom(buffer, target)
    {
      FirstCharFromSkips(buffer, cut);
      cut := cut + 1;
    }
    FirstCharFromSkips(buffer, cut);
    KeptFromLine(buffer);
    var start := CharAtByte(buffer, cut).value;
    var newline := FindFrom(buffer, "\n", start);
    if newline.Some? && newline.value + 1 < |buffer| {
      start := newline.value + 1;
    }
    return buffer[start..];
  }

  lemma {:induction false} ByteLenDrop(s: string, k: nat)
    requires k <= |s|
    ensures ByteLen(s[k..]) <= ByteLen(s)
  {
    if k == 0 {
    } else {
      assert s[1..][k - 1..] == s[k..];
      ByteLenDrop(s[1..], k - 1);
    }
  }

  lemma TrimmedBufferIsBounded(buffer: string)
    ensures ByteLen(buffer[KeptFrom(buffer)..]) <= MAX_BUFFER_SIZE
  {
    if ByteLen(buffer) > MAX_BUFFER_SIZE {
      var cut := FirstCharFrom(buffer, ByteLen(buffer) - KEEP_BUFFER_SIZE);
      assert buffer[cut..][KeptFrom(buffer) - cut..] == buffer[KeptFrom(buffer)..];
      ByteLenDrop(buffer[cut..], KeptFrom(buffer) - cut);
    } else {
      assert buffer[0..] == buffer;
    }
  }

  // ----- What trimming does to the answer -----

  lemma {:induction false} FindFromShift(buffer: string, marker: string, k: nat, from: nat)
    requires k + from <= |buffer|
    ensures FindFrom(buffer[k..], marker, from) ==
            match FindFrom(buffer, marker, k + from) case None => None case Some(i) => Some(i - k)
    decreases |buffer| - k - from
  {
    assert k + from + |marker| <= |buffer| ==>
        buffer[k..][from..from + |marker|] == buffer[k + from..k + from + |marker|];
    if k + from < |buffer| && !OccursAt(buffer, marker, k + from) {
      FindFromShift(buffer, marker, k, from + 1);
    }
  }

  lemma {:induction false} SearchShift(buffer: string, marker: string, k: nat, from: nat)
    requires marker != "" && k + from <= |buffer|
    ensures SearchFrom(buffer[k..], marker, from) ==
            match SearchFrom(buffer, marker, k + from)
            case None => None
            case Some(found) => Some(Found(found.index - k, found.code))
    decreases |buffer| - k - from
  {
    hide FindFrom, CodeAfter;
    FindFromShift(buffer, marker, k, from);
    match FindFrom(buffer, marker, k + from)
    case None =>
    case Some(i) =>
      assert buffer[k..][i - k + |marker|..] == buffer[i + |marker|..];
      if CodeAfter(buffer[i + |marker|..]).None? {
        SearchShift(buffer, marker, k, i - k + |marker|);
      }
  }

  lemma FindFromLater(buffer: string, marker: string, from: nat, later: nat)
    requires from <= later <= |buffer| && FindFrom(buffer, marker, from).Some?
    requires later <= FindFrom(buffer, marker, from).value
    ensures FindFrom(buffer, marker, later) == FindFrom(buffer, marker, from)
  {
    hide FindFrom, OccursAt;
    var i := FindFrom(buffer, marker, from).value;
    assert OccursAt(buffer, marker, i);
  }

  /** Markers before a newline do not reach across it, so the search may start behind it. */
  lemma {:induction false} SearchBehindNewline(buffer: string, marker: string, from: nat, k: nat)
    requires marker != "" && '\n' !in marker
    requires from <= k <= |buffer| && k > 0 && buffer[k - 1] == '\n'
    requires SearchFrom(buffer, marker, from).Some? && k <= SearchFrom(buffer, marker, from).value.index
    ensures SearchFrom(buffer, marker, k) == SearchFrom(buffer, marker, from)
    decreases k - from
  {
    hide CodeAfter, FindFrom, OccursAt;
    var i := FindFrom(buffer, marker, from).value;
    if i < k {
      NoNewlineInMarker(buffer, marker, i, k);
      SearchBehindNewline(buffer, marker, i + |marker|, k);
    } else {
      FindFromLater(buffer, marker, from, k);
    }
  }

  lemma NoNewlineInMarker(buffer: string, marker: string, i: nat, k: nat)
    requires '\n' !in marker && OccursAt(buffer, marker, i)
    requires i < k <= |buffer| && buffer[k - 1] == '\n'
    ensures i + |marker| < k
  {
    forall j | i <= j < i + |marker| ensures buffer[j] != '\n' {
      assert buffer[i..i + |marker|][j - i] == marker[j - i];
    }
  }

  lemma KeptFromNewline(buffer: string, newline: nat)
    requires ByteLen(buffer) > MAX_BUFFER_SIZE
    requires FirstCharFrom(buffer, ByteLen(buffer) - KEEP_BUFFER_SIZE) <= newline < |buffer| - 1
    requires buffer[newline] == '\n'
    ensures var k := KeptFrom(buffer); 0 < k <= newline + 1 && buffer[k - 1] == '\n'
  {
    hide ByteLen, FirstCharFrom, FindFrom, OccursAt;
    FirstNewline(buffer, FirstCharFrom(buffer, ByteLen(buffer) - KEEP_BUFFER_SIZE), newline);
  }

  lemma FirstNewline(buffer: string, from: nat, newline: nat)
    requires from <= newline < |buffer| && buffer[newline] == '\n'
    ensures var first := FindFrom(buffer, "\n", from);
            first.Some? && first.value <= newline && buffer[first.value] == '\n'
  {
    hide FindFrom;
    assert buffer[newline..newline + 1] == "\n";
    assert OccursAt(buffer, "\n", newline);
    var first := FindFrom(buffer, "\n", from).value;
    assert buffer[first..first + 1][0] == buffer[first];
  }

  /**
    Trimming keeps the answer whenever some newline before the marker lies in the window
    that trimming keeps.
   */
  lemma TrimmingKeepsTheAnswer(buffer: string, marker: string, newline: nat)
    requires marker != "" && '\n' !in marker && ByteLen(buffer) > MAX_BUFFER_SIZE
    requires Parse(buffer, marker).Some?
    requires FirstCharFrom(buffer, ByteLen(buffer) - KEEP_BUFFER_SIZE) <= newline
    requires newline < |Parse(buffer, marker).value.output| && buffer[newline] == '\n'
    ensures var answer, k := Parse(buffer, marker).value, KeptFrom(buffer);
            && k <= |answer.output|
            && Parse(buffer[k..], marker) == Some(Parsed(answer.output[k..], answer.code))
  {
    hide SearchFrom, ByteLen, FirstCharFrom, KeptFrom;
    var found := SearchFrom(buffer, marker, 0).value;
    KeptFromNewline(buffer, newline);
    var k := KeptFrom(buffer);
    SearchBehindNewline(buffer, marker, 0, k);
    SearchShift(buffer, marker, k, 0);
    assert buffer[k..][..found.index - k] == buffer[..found.index][k..];
  }

  // ----- The capture loop -----

  datatype Capture =
    | Done(answer: Parsed, chunksRead: nat)
    | Waiting(buffer: string)

  function Captured(buffer: string, chunks: seq<string>, marker: string): Capture
    requires marker != ""
    decreases |chunks|
  {
    if chunks == [] then Waiting(buffer)
    else
      var grown := buffer + chunks[0];
      var kept := grown[KeptFrom(grown)..];
      match Parse(kept, marker)
      case Some(answer) => Done(answer, 1)
      case None =>
        match Captured(kept, chunks[1..], marker)
        case Done(answer, n) => Done(answer, n + 1)
        case Waiting(rest) => Waiting(rest)
  }

  /** What else the loop waits for. */
  datatype Reason = Closed | PromptSeen | Canceled | TimedOut

  datatype Arrival = Data(text: string) | Exit(reason: Reason)

  datatype Result = Answered(answer: Parsed) | Ended(output: string, reason: Reason) | Pending

  /** Every other exit gives no code, and what was captured without the agent's own lines. */
  function Awaited(buffer: string, arrivals: seq<Arrival>, marker: string): Result
    requires marker != ""
    decreases |arrivals|
  {
    if arrivals == [] then Pending
    else
      match arrivals[0]
      case Exit(reason) => Ended(Sentinel.Run("", [buffer]), reason)
      case Data(text) =>
        var grown := buffer + text;
        var kept := grown[KeptFrom(grown)..];
        match Parse(kept, marker)
        case Some(answer) => Answered(answer)
        case None => Awaited(kept, arrivals[1..], marker)
  }

  method AwaitMarker(arrivals: seq<Arrival>, marker: string) returns (result: Result)
    requires marker != ""
    ensures result == Awaited("", arrivals, marker)
  {
    hide KeptFrom, Parse, Sentinel.Run;
    var buffer := "";
    var i := 0;
    assert arrivals[0..] == arrivals;
    while i < |arrivals|
      invariant i <= |arrivals|
      invariant Awaited("", arrivals, marker) == Awaited(buffer, arrivals[i..], marker)
    {
      assert arrivals[i..][1..] == arrivals[i + 1..];
      match arrivals[i] {
        case Exit(reason) =>
          var output := Sentinel.StripChunks([buffer]);
          return Ended(output, reason);
        case Data(text) =>
          buffer := buffer + text;
          buffer := TrimExecBuffer(buffer);
          var answer := ParseSentinel(buffer, marker);
          if answer.Some? {
            return Answered(answer.value);
          }
      }
      i := i + 1;
    }
    result := Pending;
  }

  /** The texts that arrive before the first other exit, and that exit. */
  function TextsBefore(arrivals: seq<Arrival>): seq<string> {
    if arrivals == [] || arrivals[0].Exit? then [] else [arrivals[0].text] + TextsBefore(arrivals[1..])
  }

  function FirstExit(arrivals: seq<Arrival>): Option<Reason> {
    if arrivals == [] then None
    else if arrivals[0].Exit? then Some(arrivals[0].reason) else FirstExit(arrivals[1..])
  }

  /** The loop answers as soon as the texts before the first other exit hold an answer. */
  lemma {:induction false} AwaitedIsCaptured(buffer: string, arrivals: seq<Arrival>, marker: string)
    requires marker != ""
    ensures Awaited(buffer, arrivals, marker) ==
            match Captured(buffer, TextsBefore(arrivals), marker)
            case Done(answer, _) => Answered(answer)
            case Waiting(rest) =>
              if FirstExit(arrivals).Some? then Ended(Sentinel.Run("", [rest]), FirstExit(arrivals).value) else Pending
    decreases |arrivals|
  {
    hide KeptFrom, Parse, Sentinel.Run;
    if arrivals == [] || arrivals[0].Exit? {
    } else {
      var grown := buffer + arrivals[0].text;
      var texts := TextsBefore(arrivals);
      assert texts[0] == arrivals[0].text && texts[1..] == TextsBefore(arrivals[1..]);
      AwaitedIsCaptured(grown[KeptFrom(grown)..], arrivals[1..], marker);
    }
  }

  /** By another exit than the marker, none of the agent's own lines reaches the model. */
  lemma ExitShowsNoArtifact(arrivals: seq<Arrival>, marker: string)
    requires marker != "" && Awaited("", arrivals, marker).Ended?
    ensures !Sentinel.IsArtifact(Awaited("", arrivals, marker).output)
  {
    hide *;
    AwaitedIsCaptured("", arrivals, marker);
    match Captured("", TextsBefore(arrivals), marker)
    case Waiting(rest) => Sentinel.StrippedHasNoArtifact(rest);
    case Done(_, _) =>
  }

  function Concat(chunks: seq<string>): string {
    if chunks == [] then "" else chunks[0] + Concat(chunks[1..])
  }

  ghost predicate IsSuffix(suffix: string, s: string) {
    |suffix| <= |s| && s[|s| - |suffix|..] == suffix
  }

  /** A code and an output really stand in the stream, around a real marker. */
  ghost predicate StandsIn(stream: string, marker: string, answer: Parsed) {
    exists i :: && OccursAt(stream, marker, i)
                && CodeAfter(stream[i + |marker|..]) == Some(answer.code)
                && IsSuffix(answer.output, stream[..i])
  }

  lemma SlicesOfSuffix(s: string, k: nat, i: nat, length: nat)
    requires k + i + length <= |s|
    ensures s[k..][i..i + length] == s[k + i..k + i + length]
    ensures s[k..][i + length..] == s[k + i + length..] && s[..k + i][k..] == s[k..][..i]
  {
  }

  lemma AnswerStandsInStream(stream: string, buffer: string, marker: string)
    requires marker != "" && IsSuffix(buffer, stream) && Parse(buffer, marker).Some?
    ensures StandsIn(stream, marker, Parse(buffer, marker).value)
  {
    hide SearchFrom, CodeAfter;
    SearchFindsMarker(buffer, marker, 0);
    var found := SearchFrom(buffer, marker, 0).value;
    var k := |stream| - |buffer|;
    var i := k + found.index;
    SlicesOfSuffix(stream, k, found.index, |marker|);
    assert OccursAt(stream, marker, i);
  }

  /** Whatever the chunks and the trimming, the loop only returns what the stream contains. */
  lemma {:induction false} CaptureIsSound(stream: string, buffer: string, chunks: seq<string>, marker: string)
    requires marker != "" && IsSuffix(buffer, stream)
    ensures match Captured(buffer, chunks, marker)
            case Done(answer, n) => 1 <= n <= |chunks| && StandsIn(stream + Concat(chunks[..n]), marker, answer)
            case Waiting(rest) => IsSuffix(rest, stream + Concat(chunks))
    decreases |chunks|
  {
    hide KeptFrom, Parse, StandsIn;
    if chunks == [] {
      assert stream + Concat(chunks) == stream;
    } else {
      var grown := buffer + chunks[0];
      var kept := grown[KeptFrom(grown)..];
      GrownSuffix(stream, buffer, chunks[0], KeptFrom(grown));
      assert chunks[..1][1..] == [] && chunks[0] + "" == chunks[0];
      if Parse(kept, marker).Some? {
        AnswerStandsInStream(stream + chunks[0], kept, marker);
        assert Concat(chunks[..1]) == chunks[0];
      } else {
        CaptureIsSound(stream + chunks[0], kept, chunks[1..], marker);
        assert stream + chunks[0] + Concat(chunks[1..]) == stream + Concat(chunks);
        match Captured(kept, chunks[1..], marker)
        case Done(answer, n) =>
          assert chunks[..n + 1][1..] == chunks[1..][..n];
          assert stream + chunks[0] + Concat(chunks[1..][..n]) == stream + Concat(chunks[..n + 1]);
        case Waiting(rest) =>
      }
    }
  }

  lemma GrownSuffix(stream: string, buffer: string, chunk: string, k: nat)
    requires IsSuffix(buffer, stream) && k <= |buffer + chunk|
    ensures IsSuffix((buffer + chunk)[k..], stream + chunk)
  {
  }

  // ----- The printed code arrives -----

  /** What the command printed, the marker line, and what follows. */
  function Exchange(before: string, marker: string, code: int, rest: string): string {
    before + marker + (":" + PrintInt(code) + rest)
  }

  /** The position of the code's first digit, and of the line end behind the code. */
  function FirstDigit(before: string, marker: string, code: int): nat {
    |before| + |marker| + 1 + if code < 0 then 1 else 0
  }

  function CodeEnd(before: string, marker: string, code: int): nat {
    |before| + |marker| + 1 + |PrintInt(code)|
  }

  /** From position `p` on, some chunk ends between two digits. */
  ghost predicate CutsDigits(p: nat, chunks: seq<string>, first: nat, end: nat)
    decreases |chunks|
  {
    chunks != [] && (first < p + |chunks[0]| < end || CutsDigits(p + |chunks[0]|, chunks[1..], first, end))
  }

  ghost predicate IsPrinted(before: string, marker: string, code: int, rest: string) {
    && marker != "" && ':' !in marker && FitsI32(code) && rest != "" && IsTerminator(rest[0])
    && OnlyEchoesBefore(Exchange(before, marker, code, rest), marker, |before|)
  }

  lemma {:induction false} PartOfPrinted(n: nat, j: nat)
    requires 0 < j < |PrintNat(n)|
    ensures ParseDigits(PrintNat(n)[..j]).Some? && ParseDigits(PrintNat(n)[..j]).value < n
  {
    var shorter := PrintNat(n / 10);
    assert PrintNat(n)[..j] == shorter[..j];
    if j == |shorter| {
      ParsePrintNat(n / 10);
      assert shorter[..j] == shorter;
    } else {
      PartOfPrinted(n / 10, j);
    }
  }

  /** Some but not all digits of a code are another code; none are no code. */
  lemma PartOfCode(code: int, j: nat)
    requires FitsI32(code) && j < |PrintInt(code)|
    ensures var read := ParseI32(PrintInt(code)[..j]);
            if j <= (if code < 0 then 1 else 0) then read.None? else read.Some? && read.value != code
  {
    var text := PrintInt(code);
    if code < 0 {
      if j > 1 {
        assert text[..j][1..] == PrintNat(-code)[..j - 1];
        PartOfPrinted(-code, j - 1);
      }
    } else if j > 0 {
      PartOfPrinted(code, j);
      assert IsDigit(text[..j][0]);
    }
  }

  lemma CodeAfterPart(code: int, j: nat)
    requires FitsI32(code) && j < |PrintInt(code)|
    ensures var read := CodeAfter(":" + PrintInt(code)[..j]);
            if j <= (if code < 0 then 1 else 0) then read.None? else read.Some? && read.value != code
  {
    var part := PrintInt(code)[..j];
    PartOfCode(code, j);
    PartIsPlain(code, j);
    hide PrintInt, ParseI32, Trim, UntilTerminator, FitsI32;
    assert (":" + part)[1..] == part;
  }

  lemma PartIsPlain(code: int, j: nat)
    requires j <= |PrintInt(code)|
    ensures var part := PrintInt(code)[..j]; UntilTerminator(part) == part && Trim(part) == part
  {
    PrintIntCharacters(code);
    var part := PrintInt(code)[..j];
    hide PrintInt, Trim;
    assert forall i :: 0 <= i < |part| ==> !IsTerminator(part[i]);
    hide IsTerminator, UntilTerminator;
    NoTerminator(part);
    NothingIsTrimmed();
    if j > 0 {
      PlainTextIsTrimmed(part);
    }
  }

  lemma NothingIsTrimmed()
    ensures Trim("") == ""
  {}

  /** What has arrived of the text behind the marker. */
  lemma CodeAfterArrived(code: int, rest: string, n: nat)
    requires FitsI32(code) && rest != "" && IsTerminator(rest[0]) && 0 < n <= |":" + PrintInt(code) + rest|
    ensures var read := CodeAfter((":" + PrintInt(code) + rest)[..n]);
            && (n <= 1 + (if code < 0 then 1 else 0) ==> read.None?)
            && (n > 1 + (if code < 0 then 1 else 0) ==>
                  read.Some? && (read.value == code <==> n >= 1 + |PrintInt(code)|))
  {
    var text := PrintInt(code);
    PrintIntLength(code);
    hide PrintInt, CodeAfter;
    var printed := ":" + text + rest;
    if n < 1 + |text| {
      CodeAfterPart(code, n - 1);
      assert printed[..n] == ":" + text[..n - 1];
    } else if n == 1 + |text| {
      UnterminatedCodeIsRead(code);
      assert printed[..n] == ":" + text;
    } else {
      var begun := rest[..n - 1 - |text|];
      PrintedCodeIsRead(code, begun);
      assert printed[..n] == ":" + text + begun;
    }
  }

  lemma PrintIntLength(code: int)
    ensures |PrintInt(code)| > if code < 0 then 1 else 0
  {}

  lemma {:induction false} NoCodeAnywhere(buffer: string, marker: string, from: nat)
    requires marker != "" && from <= |buffer|
    requires forall j :: from <= j && OccursAt(buffer, marker, j) ==> CodeAfter(buffer[j + |marker|..]).None?
    ensures SearchFrom(buffer, marker, from).None?
    decreases |buffer| - from
  {
    hide CodeAfter, FindFrom;
    if FindFrom(buffer, marker, from).Some? {
      NoCodeAnywhere(buffer, marker, FindFrom(buffer, marker, from).value + |marker|);
    }
  }

  lemma ShortIsNoCode(after: string)
    requires after == "" || after == ":" || ":%" <= after || (|after| == 2 && after[1] == '-')
    ensures CodeAfter(after).None?
  {
    if ":%" <= after {
      EchoIsNoCode(after);
    } else if after != "" && after[0] == ':' {
      hide CodeAfter;
      assert after == ":" || after == ":-";
      NoDigitsAreNoCode();
    }
  }

  lemma NoDigitsAreNoCode()
    ensures CodeAfter(":").None? && CodeAfter(":-").None?
  {
    hide *;
    SmallCodes();
    CodeAfterPart(0, 0);
    CodeAfterPart(-1, 1);
    assert ":" + PrintInt(0)[..0] == ":";
    assert ":" + PrintInt(-1)[..1] == ":-";
  }

  lemma SmallCodes()
    ensures FitsI32(0) && FitsI32(-1)
    ensures |PrintInt(0)| == 1 && |PrintInt(-1)| == 2 && PrintInt(-1)[0] == '-'
  {}

  /** An occurrence in a window of the stream is one in the stream. */
  lemma OccursInWindow(s: string, marker: string, k: nat, p: nat, j: int)
    requires k <= p <= |s|
    ensures OccursAt(s[k..p], marker, j) <==> 0 <= j && OccursAt(s, marker, k + j) && k + j + |marker| <= p
    ensures OccursAt(s[k..p], marker, j) ==> s[k..p][j + |marker|..] == s[k + j + |marker|..p]
  {
    if 0 <= j && k + j + |marker| <= p {
      SliceOfSlice(s, k, p, j, j + |marker|);
      SliceOfSlice(s, k, p, j + |marker|, p - k);
    }
  }

  lemma SliceOfSlice(s: string, k: nat, p: nat, i: nat, j: nat)
    requires k <= p <= |s| && i <= j <= p - k
    ensures s[k..p][i..j] == s[k + i..k + j]
  {
    var a, b := s[k..p][i..j], s[k + i..k + j];
    assert |a| == |b| && forall n :: 0 <= n < |a| ==> a[n] == b[n];
  }

  lemma MarkerInExchange(before: string, marker: string, code: int, rest: string)
    ensures var s := Exchange(before, marker, code, rest);
            && OccursAt(s, marker, |before|) && s[..|before|] == before
            && |s| == CodeEnd(before, marker, code) + |rest|
            && s[|before| + |marker|..] == ":" + PrintInt(code) + rest
            && s[|before| + |marker|] == ':'
            && (code < 0 ==> s[|before| + |marker| + 1] == '-')
  {
    var s := Exchange(before, marker, code, rest);
    PrintIntLength(code);
    var text := PrintInt(code);
    assert code < 0 ==> text[0] == '-';
    hide PrintInt;
    assert s[|before|..|before| + |marker|] == marker;
  }

  /** Before the first digit has arrived there is no answer, whatever was trimmed. */
  lemma NoAnswerYet(before: string, marker: string, code: int, rest: string, k: nat, p: nat)
    requires IsPrinted(before, marker, code, rest) && k <= |before| && k <= p <= FirstDigit(before, marker, code)
    ensures p <= |Exchange(before, marker, code, rest)|
    ensures Parse(Exchange(before, marker, code, rest)[k..p], marker).None?
  {
    var s := Exchange(before, marker, code, rest);
    MarkerInExchange(before, marker, code, rest);
    PrintIntLength(code);
    hide PrintInt, Exchange, CodeAfter, SearchFrom;
    var window := s[k..p];
    forall j | 0 <= j && OccursAt(window, marker, j) ensures CodeAfter(window[j + |marker|..]).None? {
      OccursInWindow(s, marker, k, p, j);
      AfterOccurrence(before, marker, code, rest, k + j, p);
      ShortIsNoCode(s[k + j + |marker|..p]);
    }
    NoCodeAnywhere(window, marker, 0);
  }

  lemma AfterOccurrence(before: string, marker: string, code: int, rest: string, i: nat, p: nat)
    requires IsPrinted(before, marker, code, rest)
    requires p <= FirstDigit(before, marker, code) && p <= |Exchange(before, marker, code, rest)|
    requires OccursAt(Exchange(before, marker, code, rest), marker, i) && i + |marker| <= p
    ensures var after := Exchange(before, marker, code, rest)[i + |marker|..p];
            after == "" || after == ":" || ":%" <= after || (|after| == 2 && after[1] == '-')
  {
    var s := Exchange(before, marker, code, rest);
    var n := i + |marker|;
    MarkerInExchange(before, marker, code, rest);
    hide PrintInt, Exchange;
    if i < |before| {
      assert ":%" <= s[n..];
      assert s[n] == s[n..][0] && s[n + 1] == s[n..][1];
    } else {
      ColonIsOutside(s, marker, i, |before| + |marker|);
    }
  }

  lemma ColonIsOutside(s: string, marker: string, i: nat, colon: nat)
    requires ':' !in marker && OccursAt(s, marker, i) && colon < |s| && s[colon] == ':'
    ensures colon < i || i + |marker| <= colon
  {
    forall n | i <= n < i + |marker| ensures s[n] != ':' {
      assert s[i..i + |marker|][n - i] == marker[n - i];
    }
  }

  /** Once it has, the answer is there; it is the printed code exactly if its last digit has arrived too. */
  lemma AnswerArrived(before: string, marker: string, code: int, rest: string, k: nat, p: nat)
    requires IsPrinted(before, marker, code, rest) && k <= |before|
    requires FirstDigit(before, marker, code) < p <= |Exchange(before, marker, code, rest)|
    ensures var parsed := Parse(Exchange(before, marker, code, rest)[k..p], marker);
            && parsed.Some? && parsed.value.output == before[k..]
            && (parsed.value.code == code <==> p >= CodeEnd(before, marker, code))
  {
    var s, n := Exchange(before, marker, code, rest), |before| + |marker|;
    MarkerInExchange(before, marker, code, rest);
    PrintIntLength(code);
    hide PrintInt, Exchange, CodeAfter, OnlyEchoesBefore, OccursAt, Parse;
    EchoesInWindow(s, marker, |before|, k, p);
    OccursInWindow(s, marker, k, p, |before| - k);
    CodeArrived(before, marker, code, rest, p);
    ParsedInWindow(s[k..p], marker, |before| - k, CodeAfter(s[n..p]).value);
    assert s[k..p][..|before| - k] == s[..|before|][k..];
  }

  lemma CodeArrived(before: string, marker: string, code: int, rest: string, p: nat)
    requires FitsI32(code) && rest != "" && IsTerminator(rest[0])
    requires FirstDigit(before, marker, code) < p <= |Exchange(before, marker, code, rest)|
    ensures var read := CodeAfter(Exchange(before, marker, code, rest)[|before| + |marker|..p]);
            read.Some? && (read.value == code <==> p >= CodeEnd(before, marker, code))
  {
    var s, n := Exchange(before, marker, code, rest), |before| + |marker|;
    var printed := ":" + PrintInt(code) + rest;
    MarkerInExchange(before, marker, code, rest);
    hide PrintInt, Exchange, CodeAfter;
    CodeAfterArrived(code, rest, p - n);
    assert s[n..p] == s[n..][..p - n];
  }

  lemma ParsedInWindow(window: string, marker: string, at: nat, code: int)
    requires marker != "" && ':' !in marker && OccursAt(window, marker, at) && OnlyEchoesBefore(window, marker, at)
    requires CodeAfter(window[at + |marker|..]) == Some(code)
    ensures Parse(window, marker) == Some(Parsed(window[..at], code))
  {
    hide CodeAfter, SearchFrom, OnlyEchoesBefore;
    SearchPastEchoes(window, marker, 0, at, code);
  }

  lemma EchoesInWindow(s: string, marker: string, end: nat, k: nat, p: nat)
    requires marker != "" && ':' !in marker && OccursAt(s, marker, end) && OnlyEchoesBefore(s, marker, end)
    requires k <= end && end + |marker| + 1 < p <= |s|
    ensures OnlyEchoesBefore(s[k..p], marker, end - k)
  {
    forall j | 0 <= j < end - k && OccursAt(s[k..p], marker, j) ensures ":%" <= s[k..p][j + |marker|..] {
      OccursInWindow(s, marker, k, p, j);
      EchoEndsBefore(s, marker, k + j, end);
      var n := k + j + |marker|;
      assert s[n..][..2] == s[n..p][..2];
    }
  }

  // ----- Trimming does not reach the marker -----

  lemma FirstCharFromStep(s: string, offset: nat)
    requires 0 < offset <= ByteLen(s)
    ensures s != "" && ByteLen(s) == Utf8Len(s[0]) + ByteLen(s[1..])
    ensures FirstCharFrom(s, offset) ==
            1 + FirstCharFrom(s[1..], if offset < Utf8Len(s[0]) then 0 else offset - Utf8Len(s[0]))
  {
    hide Utf8Len;
  }

  lemma {:induction false} FirstCharFromAtMost(s: string, offset: nat, k: nat)
    requires offset <= ByteLen(s) && k <= |s| && offset + ByteLen(s[k..]) <= ByteLen(s)
    ensures FirstCharFrom(s, offset) <= k
  {
    hide ByteLen, Utf8Len;
    if offset == 0 {
    } else {
      FirstCharFromStep(s, offset);
      hide FirstCharFrom;
      assert s[0..] == s;
      assert s[1..][k - 1..] == s[k..];
      ByteLenDrop(s[1..], k - 1);
      FirstCharFromAtMost(s[1..], if offset < Utf8Len(s[0]) then 0 else offset - Utf8Len(s[0]), k - 1);
    }
  }

  lemma {:induction false} ByteLenTake(s: string, k: nat)
    requires k <= |s|
    ensures ByteLen(s[..k]) <= ByteLen(s)
  {
    if k == 0 {
    } else {
      assert s[..k][1..] == s[1..][..k - 1];
      ByteLenTake(s[1..], k - 1);
    }
  }

  lemma BehindNewline(s: string, newline: nat, p: nat)
    requires newline < p <= |s|
    ensures ByteLen(s[newline + 1..p]) <= ByteLen(s[newline..p])
  {
    assert s[newline..p][1..] == s[newline + 1..p];
    ByteLenDrop(s[newline..p], 1);
  }

  /** A newline with less than the kept size from it on bounds what is trimmed. */
  lemma TrimsBeforeNewline(s: string, newline: nat, k: nat, p: nat)
    requires newline < |s| && s[newline] == '\n' && ByteLen(s[newline..]) <= KEEP_BUFFER_SIZE
    requires k <= p <= |s| && k <= newline + 1
    ensures k + KeptFrom(s[k..p]) <= newline + 1 || p <= newline
    ensures k + KeptFrom(s[k..p]) <= p
  {
    hide ByteLen, KeptFrom, FirstCharFrom;
    var window := s[k..p];
    if p > newline && ByteLen(window) > MAX_BUFFER_SIZE {
      assert s[newline..][..p - newline] == s[newline..p];
      ByteLenTake(s[newline..], p - newline);
      BehindNewline(s, newline, p);
      assert window[newline - k..] == s[newline..p];
      FirstCharFromAtMost(window, ByteLen(window) - KEEP_BUFFER_SIZE, newline - k);
      if newline + 1 < p {
        KeptFromNewline(window, newline - k);
      }
    }
  }

  /** Trimming leaves what stands from `end` on: there is little of it behind a newline, or nothing to trim. */
  ghost predicate IsSpared(s: string, end: nat)
    requires end <= |s|
  {
    || ByteLen(s) <= MAX_BUFFER_SIZE
    || (end > 0 && s[end - 1] == '\n' && ByteLen(s[end - 1..]) <= KEEP_BUFFER_SIZE)
  }

  lemma TrimsBefore(s: string, end: nat, k: nat, p: nat)
    requires end <= |s| && IsSpared(s, end) && k <= p <= |s| && k <= end
    ensures k + KeptFrom(s[k..p]) <= end && k + KeptFrom(s[k..p]) <= p
  {
    hide KeptFrom, ByteLen;
    if ByteLen(s) <= MAX_BUFFER_SIZE {
      ByteLenTake(s, p);
      ByteLenDrop(s[..p], k);
      assert s[..p][k..] == s[k..p];
    } else {
      TrimsBeforeNewline(s, end - 1, k, p);
    }
  }

  /** The answer is the code that was printed, with the end of what was printed before it. */
  ghost predicate IsAnswered(capture: Capture, before: string, code: int) {
    capture.Done? && capture.answer.code == code && IsSuffix(capture.answer.output, before)
  }

  lemma {:induction false} CapturedFrom(before: string, marker: string, code: int, rest: string, k: nat, p: nat,
        chunks: seq<string>)
    requires IsPrinted(before, marker, code, rest)
    requires IsSpared(Exchange(before, marker, code, rest), |before|)
    requires k <= |before| && k <= p <= FirstDigit(before, marker, code) && p <= |Exchange(before, marker, code, rest)|
    requires Exchange(before, marker, code, rest)[p..] == Concat(chunks)
    ensures IsAnswered(Captured(Exchange(before, marker, code, rest)[k..p], chunks, marker), before, code) <==>
            !CutsDigits(p, chunks, FirstDigit(before, marker, code), CodeEnd(before, marker, code))
    decreases |chunks|
  {
    var s := Exchange(before, marker, code, rest);
    MarkerInExchange(before, marker, code, rest);
    PrintIntLength(code);
    hide Exchange, PrintInt, KeptFrom, Parse, IsPrinted, IsSpared;
    if chunks == [] {
    } else {
      var q := p + |chunks[0]|;
      assert s[p..][..|chunks[0]|] == chunks[0] && s[p..][|chunks[0]|..] == s[q..];
      assert s[k..p] + chunks[0] == s[k..q];
      var n := k + KeptFrom(s[k..q]);
      TrimsBefore(s, |before|, k, q);
      assert s[k..q][n - k..] == s[n..q];
      if q <= FirstDigit(before, marker, code) {
        NoAnswerYet(before, marker, code, rest, n, q);
        CapturedFrom(before, marker, code, rest, n, q, chunks[1..]);
      } else {
        AnswerArrived(before, marker, code, rest, n, q);
        if q >= CodeEnd(before, marker, code) {
          NoCutLater(q, chunks[1..], FirstDigit(before, marker, code), CodeEnd(before, marker, code));
        }
      }
    }
  }

  lemma {:induction false} NoCutLater(p: nat, chunks: seq<string>, first: nat, end: nat)
    requires end <= p
    ensures !CutsDigits(p, chunks, first, end)
    decreases |chunks|
  {
    if chunks == [] {
    } else {
      NoCutLater(p + |chunks[0]|, chunks[1..], first, end);
    }
  }

  /**
    For every way of cutting the stream the loop returns the printed code, with the end of what the
    command printed, exactly if no chunk ends between two digits of the code. Trimming must spare the
    marker, in front of which the wrapper prints a newline.
   */
  lemma CaptureIsCompleteIff(before: string, marker: string, code: int, rest: string, chunks: seq<string>)
    requires IsPrinted(before, marker, code, rest)
    requires IsSpared(Exchange(before, marker, code, rest), |before|)
    requires Concat(chunks) == Exchange(before, marker, code, rest)
    ensures IsAnswered(Captured("", chunks, marker), before, code) <==>
            !CutsDigits(0, chunks, FirstDigit(before, marker, code), CodeEnd(before, marker, code))
  {
    hide Captured, IsPrinted, IsAnswered, CutsDigits, IsSpared;
    var s := Exchange(before, marker, code, rest);
    assert s[0..] == s && s[0..0] == "";
    CapturedFrom(before, marker, code, rest, 0, 0, chunks);
  }
}
