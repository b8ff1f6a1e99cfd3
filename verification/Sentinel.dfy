/**
  The stripper that removes the agent's exit-code markers from the terminal stream. It sees
  the stream in arbitrary chunks and must decide, for every unfinished line, whether to hold
  it back or to show it at once.

  Reference definition: `StripLines`, which drops whole lines of the whole stream.
 */
module Sentinel {
  import opened Text

  const SENTINEL_PREFIX := "__AGENT_DONE_"
  const MULTILINE_HELPER_PREFIX := "__ais_ec=$?; printf"
  const WRAPPED_PRINTF_PREFIX := "printf '\\n"

  predicate IsArtifact(line: string) {
    Contains(line, SENTINEL_PREFIX) || Contains(line, MULTILINE_HELPER_PREFIX)
  }

  function TrimLineStart(s: string): string {
    if s != [] && (s[0] == '\r' || s[0] == '\n') then TrimLineStart(s[1..]) else s
  }

  predicate StartsArtifactPrefix(line: string) {
    line <= SENTINEL_PREFIX || line <= MULTILINE_HELPER_PREFIX
  }

  /** The text behind the first ");" of an echo "\r(...", or None when there is none yet. */
  function BehindSubshell(line: string): Option<string> {
    if "\r" <= line then
      match Find(line[1..], ");")
      case None => None
      case Some(close) => Some(TrimStart(line[1..][close + 2..]))
    else None
  }

  predicate IsPossibleWrappedCommand(line: string) {
    || line == "\r"
    || (&& "\r(" <= line
        && match BehindSubshell(line)
           case None => true
           case Some(after) =>
             after == "" || after <= WRAPPED_PRINTF_PREFIX || WRAPPED_PRINTF_PREFIX <= after)
  }

  predicate IsIncompleteWrappedPrintf(line: string) {
    match BehindSubshell(line)
    case None => false
    case Some(after) =>
      after != "" && (after <= WRAPPED_PRINTF_PREFIX || WRAPPED_PRINTF_PREFIX <= after)
  }

  predicate ShouldHold(tail: string) {
    || tail == "\r"
    || (var trimmed := TrimLineStart(tail);
        && trimmed != ""
        && (IsArtifact(trimmed) || StartsArtifactPrefix(trimmed) || IsPossibleWrappedCommand(tail)))
  }

  predicate ShouldDropIncomplete(tail: string) {
    var trimmed := TrimLineStart(tail);
    && trimmed != ""
    && (IsArtifact(trimmed) || StartsArtifactPrefix(trimmed) || IsIncompleteWrappedPrintf(tail))
  }

  // ----- Lines -----

  ghost predicate NoNewline(s: string) {
    forall k :: 0 <= k < |s| ==> s[k] != '\n'
  }

  ghost predicate IsLine(line: string) {
    line != "" && line[|line| - 1] == '\n' && forall k :: 0 <= k < |line| - 1 ==> line[k] != '\n'
  }

  ghost predicate NewlineEnded(s: string) {
    s == "" || s[|s| - 1] == '\n'
  }

  function FirstNewline(s: string): (r: Option<nat>)
    ensures r.Some? ==> r.value < |s| && s[r.value] == '\n' && forall k :: 0 <= k < r.value ==> s[k] != '\n'
    ensures r.None? ==> NoNewline(s)
  {
    if s == "" then None
    else if s[0] == '\n' then Some(0)
    else
      match FirstNewline(s[1..])
      case None => None
      case Some(i) => Some(i + 1)
  }

  lemma FirstNewlineOfLine(line: string, rest: string)
    requires IsLine(line)
    ensures FirstNewline(line + rest) == Some(|line| - 1)
    ensures (line + rest)[..|line|] == line && (line + rest)[|line|..] == rest
  {
    assert (line + rest)[|line| - 1] == '\n';
  }

  function Keep(line: string): string {
    if IsArtifact(line) then "" else line
  }

  /** The reference: complete lines without the artifact lines, and the unfinished tail. */
  datatype Stripped = Stripped(text: string, tail: string)

  function StripLines(s: string): (r: Stripped)
    ensures NoNewline(r.tail)
    ensures NoNewline(s) ==> r == Stripped("", s)
  {
    match FirstNewline(s)
    case None => Stripped("", s)
    case Some(i) =>
      var rest := StripLines(s[i + 1..]);
      Stripped(Keep(s[..i + 1]) + rest.text, rest.tail)
  }

  lemma StripLinesOfLine(line: string, rest: string)
    requires IsLine(line)
    ensures StripLines(line + rest) == Stripped(Keep(line) + StripLines(rest).text, StripLines(rest).tail)
  {
    FirstNewlineOfLine(line, rest);
  }

  lemma Assoc(a: string, b: string, c: string)
    ensures a + (b + c) == a + b + c
  {
  }

  // ----- The stripper -----

  function FeedSpec(buffer: string, chunk: string): Stripped {
    var r := StripLines(buffer + chunk);
    if ShouldHold(r.tail) then r else Stripped(r.text + r.tail, "")
  }

  function FlushSpec(buffer: string): string {
    var r := StripLines(buffer);
    r.text + if ShouldDropIncomplete(r.tail) then "" else r.tail
  }

  /** One line leaves the stripper before anything behind it is looked at. */
  lemma SpecsOfLine(buffer: string, chunk: string, line: string, after: string)
    requires IsLine(line) && buffer + chunk == line + after
    ensures var fed := FeedSpec("", after);
            FeedSpec(buffer, chunk) == Stripped(Keep(line) + fed.text, fed.tail)
  {
    StripLinesOfLine(line, after);
    hide StripLines, ShouldHold, Keep;
    assert "" + after == after;
    var r := StripLines(after);
    Assoc(Keep(line), r.text, r.tail);
  }

  lemma DrainOneLine(output: string, buffer: string, newline: nat)
    requires FirstNewline(buffer) == Some(newline)
    ensures var line, rest := buffer[..newline + 1], StripLines(buffer[newline + 1..]);
            Stripped(output + StripLines(buffer).text, StripLines(buffer).tail) ==
            Stripped((if IsArtifact(line) then output else output + line) + rest.text, rest.tail)
  {
    hide IsArtifact;
    var line, rest := buffer[..newline + 1], StripLines(buffer[newline + 1..]);
    assert StripLines(buffer) == Stripped(Keep(line) + rest.text, rest.tail);
    hide StripLines;
    Assoc(output, Keep(line), rest.text);
    assert output + "" == output;
  }

  lemma NothingInFront(stripped: Stripped)
    ensures Stripped("" + stripped.text, stripped.tail) == stripped
  {
    assert "" + stripped.text == stripped.text;
  }

  lemma Drained(output: string, buffer: string)
    requires FirstNewline(buffer).None?
    ensures Stripped(output + StripLines(buffer).text, StripLines(buffer).tail) == Stripped(output, buffer)
  {
    assert output + "" == output;
  }

  class SentinelStripper {
    var buffer: string

    constructor ()
      ensures buffer == ""
    {
      buffer := "";
    }

    method Feed(chunk: string) returns (output: string)
      modifies this
      ensures Stripped(output, buffer) == FeedSpec(old(buffer), chunk)
    {
      buffer := buffer + chunk;
      assert buffer + "" == buffer;
      output := DrainReady(false);
    }

    method Flush() returns (output: string)
      modifies this
      ensures output == FlushSpec(old(buffer)) && buffer == ""
    {
      assert buffer + "" == buffer;
      output := DrainReady(true);
    }

    /** Takes the complete lines out of the buffer and shows those that are no artifacts. */
    method DrainLines() returns (output: string)
      modifies this
      ensures Stripped(output, buffer) == StripLines(old(buffer))
    {
      hide *;
      output := "";
      NothingInFront(StripLines(buffer));
      var newline := FirstNewline(buffer);
      while newline.Some?
        invariant newline == FirstNewline(buffer)
        invariant StripLines(old(buffer)) == Stripped(output + StripLines(buffer).text, StripLines(buffer).tail)
        decreases |buffer|
      {
        DrainOneLine(output, buffer, newline.value);
        var line := buffer[..newline.value + 1];
        buffer := buffer[newline.value + 1..];
        if !IsArtifact(line) {
          output := output + line;
        }
        newline := FirstNewline(buffer);
      }
      Drained(output, buffer);
    }

    method DrainReady(flushing: bool) returns (output: string)
      modifies this
      ensures flushing ==> output == FlushSpec(old(buffer)) && buffer == ""
      ensures !flushing ==> Stripped(output, buffer) == FeedSpec(old(buffer), "")
    {
      assert buffer + "" == buffer;
      hide StripLines, ShouldHold, ShouldDropIncomplete;
      output := DrainLines();
      assert output + "" == output;
      if buffer == "" {
        return;
      }
      if flushing {
        if !ShouldDropIncomplete(buffer) {
          output := output + buffer;
        }
        buffer := "";
        return;
      }
      if !ShouldHold(buffer) {
        output := output + buffer;
        buffer := "";
      }
    }
  }

  // ----- Whole streams -----

  function Concat(chunks: seq<string>): string {
    if chunks == [] then "" else chunks[0] + Concat(chunks[1..])
  }

  /** All outputs of one stripper over a chunked stream, flush included. */
  function Run(buffer: string, chunks: seq<string>): string
    decreases |chunks|
  {
    if chunks == [] then FlushSpec(buffer)
    else
      var fed := FeedSpec(buffer, chunks[0]);
      fed.text + Run(fed.tail, chunks[1..])
  }

  method StripChunks(chunks: seq<string>) returns (output: string)
    ensures output == Run("", chunks)
  {
    var stripper := new SentinelStripper();
    output := "";
    var i := 0;
    while i < |chunks|
      invariant fresh(stripper) && i <= |chunks|
      invariant Run("", chunks) == output + Run(stripper.buffer, chunks[i..])
    {
      ghost var before := stripper.buffer;
      var visible := stripper.Feed(chunks[i]);
      assert chunks[i..][1..] == chunks[i + 1..];
      assert output + (visible + Run(stripper.buffer, chunks[i + 1..])) ==
             output + visible + Run(stripper.buffer, chunks[i + 1..]);
      output := output + visible;
      i := i + 1;
    }
    var visible := stripper.Flush();
    output := output + visible;
  }

  /** Every unfinished beginning of the line is held back. */
  ghost predicate HeldThroughout(line: string) {
    forall n :: 0 < n < |line| ==> ShouldHold(line[..n])
  }

  /** What a caller can check of a stream: each artifact line is held from its first character on. */
  ghost predicate ArtifactsHeld(s: string) {
    match FirstNewline(s)
    case None => true
    case Some(i) =>
      && (IsArtifact(s[..i + 1]) ==> HeldThroughout(s[..i + 1]))
      && ArtifactsHeld(s[i + 1..])
  }

  lemma ArtifactsHeldOfLine(line: string, rest: string)
    requires IsLine(line)
    ensures ArtifactsHeld(line + rest) <==> (IsArtifact(line) ==> HeldThroughout(line)) && ArtifactsHeld(rest)
  {
    FirstNewlineOfLine(line, rest);
  }

  ghost predicate FirstLineKept(s: string) {
    match FirstNewline(s)
    case None => true
    case Some(i) => !IsArtifact(s[..i + 1])
  }

  /** A fragment of a kept line is kept. */
  lemma FragmentOfKeptLine(before: string, fragment: string)
    requires !IsArtifact(before + fragment)
    ensures !IsArtifact(fragment)
  {
    assert before + fragment + "" == before + fragment;
    if Contains(fragment, SENTINEL_PREFIX) {
      ContainsInContext(before, fragment, "", SENTINEL_PREFIX);
    }
    if Contains(fragment, MULTILINE_HELPER_PREFIX) {
      ContainsInContext(before, fragment, "", MULTILINE_HELPER_PREFIX);
    }
  }

  /** A line whose beginning is not held is no artifact. */
  lemma ShownLineIsKept(start: string, rest: string)
    requires NoNewline(start) && start != "" && !ShouldHold(start)
    requires FirstNewline(start + rest).Some? && ArtifactsHeld(start + rest)
    ensures FirstLineKept(start + rest)
  {
    hide ShouldHold, IsArtifact;
    var s := start + rest;
    var i := FirstNewline(s).value;
    assert forall k :: 0 <= k < |start| ==> s[k] == start[k];
    assert s[..i + 1][..|start|] == start;
    assert !ShouldHold(s[..i + 1][..|start|]);
  }

  lemma RunWithLine(buffer: string, chunk: string, chunks: seq<string>, line: string, after: string)
    requires IsLine(line) && buffer + chunk == line + after
    ensures Run(buffer, [chunk] + chunks) == Keep(line) + Run("", [after] + chunks)
  {
    hide StripLines, ShouldHold, Keep, FeedSpec;
    SpecsOfLine(buffer, chunk, line, after);
    var fed := FeedSpec("", after);
    assert ([chunk] + chunks)[1..] == chunks && ([after] + chunks)[1..] == chunks;
    Assoc(Keep(line), fed.text, Run(fed.tail, chunks));
  }

  lemma RunOfChunk(buffer: string, chunk: string, chunks: seq<string>)
    ensures var fed := FeedSpec(buffer, chunk); Run(buffer, [chunk] + chunks) == fed.text + Run(fed.tail, chunks)
  {
    hide FeedSpec;
    assert ([chunk] + chunks)[1..] == chunks;
  }

  lemma FeedWithoutLine(buffer: string, chunk: string)
    requires NoNewline(buffer + chunk)
    ensures var t := buffer + chunk;
            FeedSpec(buffer, chunk) == if ShouldHold(t) then Stripped("", t) else Stripped(t, "")
  {
    hide ShouldHold;
    assert "" + (buffer + chunk) == buffer + chunk;
  }

  lemma RunWithoutLine(shown: string, buffer: string, chunk: string, chunks: seq<string>)
    requires NoNewline(buffer + chunk)
    ensures var t := buffer + chunk;
            shown + Run(buffer, [chunk] + chunks) ==
            if ShouldHold(t) then shown + Run(t, chunks) else shown + t + Run("", chunks)
  {
    hide ShouldHold, Run, FeedSpec;
    FeedWithoutLine(buffer, chunk);
    RunOfChunk(buffer, chunk, chunks);
    Assoc(shown, buffer + chunk, Run("", chunks));
    assert "" + Run(buffer + chunk, chunks) == Run(buffer + chunk, chunks);
  }

  /**
    The state between two chunks: `shown` is the part of the current line that was already
    released, `buffer` the part that is held. A line whose beginning was released is kept.
   */
  ghost predicate InLine(shown: string, buffer: string, rest: string) {
    && NoNewline(shown) && NoNewline(buffer)
    && FirstNewline(shown + buffer + rest).Some?
    && ArtifactsHeld(shown + buffer + rest)
    && (shown != "" ==> FirstLineKept(shown + buffer + rest))
  }

  lemma LineAcross(shown: string, buffer: string, chunk: string, rest: string, i: nat)
    requires NoNewline(shown) && FirstNewline(buffer + chunk) == Some(i)
    ensures var t := buffer + chunk;
            IsLine(shown + t[..i + 1]) && shown + buffer + (chunk + rest) == shown + t[..i + 1] + (t[i + 1..] + rest)
  {
    var t := buffer + chunk;
    var line := shown + t[..i + 1];
    assert forall k :: 0 <= k < |line| - 1 ==> line[k] == if k < |shown| then shown[k] else t[k - |shown|];
  }

  lemma FinishLine(shown: string, buffer: string, chunk: string, rest: string, i: nat)
    requires InLine(shown, buffer, chunk + rest) && FirstNewline(buffer + chunk) == Some(i)
    ensures var t := buffer + chunk;
            && ArtifactsHeld(t[i + 1..] + rest)
            && shown + Keep(t[..i + 1]) == Keep(shown + t[..i + 1])
            && var later := StripLines(t[i + 1..] + rest);
               StripLines(shown + buffer + (chunk + rest)) ==
                   Stripped(Keep(shown + t[..i + 1]) + later.text, later.tail)
  {
    hide IsArtifact, ShouldHold, ArtifactsHeld, StripLines, Keep;
    var t := buffer + chunk;
    var fragment, after := t[..i + 1], t[i + 1..] + rest;
    var line := shown + fragment;
    LineAcross(shown, buffer, chunk, rest, i);
    StripLinesOfLine(line, after);
    ArtifactsHeldOfLine(line, after);
    KeepWhole(shown, fragment, after);
  }

  lemma KeepWhole(shown: string, fragment: string, after: string)
    requires IsLine(shown + fragment)
    requires shown != "" ==> FirstLineKept(shown + fragment + after)
    ensures shown + Keep(fragment) == Keep(shown + fragment)
  {
    hide IsArtifact;
    FirstNewlineOfLine(shown + fragment, after);
    if shown != "" {
      FragmentOfKeptLine(shown, fragment);
    } else {
      assert shown + fragment == fragment && shown + Keep(fragment) == Keep(fragment);
    }
  }

  lemma ExtendLine(shown: string, buffer: string, chunk: string, rest: string)
    requires InLine(shown, buffer, chunk + rest) && NoNewline(buffer + chunk)
    ensures var t := buffer + chunk;
            && shown + buffer + (chunk + rest) == shown + t + rest == shown + t + "" + rest
            && InLine(shown, t, rest)
            && (!ShouldHold(t) ==> InLine(shown + t, "", rest))
  {
    hide IsArtifact, ShouldHold;
    var t := buffer + chunk;
    assert shown + buffer + (chunk + rest) == shown + t + rest == shown + t + "" + rest;
    if !ShouldHold(t) && shown == "" && t != "" {
      assert shown + t == t;
      ShownLineIsKept(t, rest);
    }
  }

  /** Up to its last newline the stream comes out as the reference says; what follows is one more stream. */
  lemma {:induction false} RunReachesTail(shown: string, buffer: string, chunks: seq<string>)
    returns (later: seq<string>)
    requires InLine(shown, buffer, Concat(chunks))
    ensures var r := StripLines(shown + buffer + Concat(chunks));
            Concat(later) == r.tail && shown + Run(buffer, chunks) == r.text + Run("", later)
    decreases |buffer| + |Concat(chunks)|, |chunks|
  {
    hide ShouldHold, StripLines, Keep, InLine, Run, Concat, ArtifactsHeld;
    NotOver(shown, buffer, chunks);
    var chunk, rest := chunks[0], chunks[1..];
    assert chunks == [chunk] + rest;
    ConcatCons(chunk, rest);
    var t := buffer + chunk;
    match FirstNewline(t)
    case Some(i) =>
      var behind := t[i + 1..];
      FinishLine(shown, buffer, chunk, Concat(rest), i);
      RunWithLine(buffer, chunk, rest, t[..i + 1], behind);
      ConcatCons(behind, rest);
      later := AllReachesTail([behind] + rest);
      Assoc(shown, Keep(t[..i + 1]), Run("", [behind] + rest));
      Assoc(Keep(shown + t[..i + 1]), StripLines(behind + Concat(rest)).text, Run("", later));
    case None =>
      ExtendLine(shown, buffer, chunk, Concat(rest));
      RunWithoutLine(shown, buffer, chunk, rest);
      if ShouldHold(t) {
        later := RunReachesTail(shown, t, rest);
      } else {
        later := RunReachesTail(shown + t, "", rest);
      }
  }

  lemma {:induction false} AllReachesTail(chunks: seq<string>) returns (later: seq<string>)
    requires ArtifactsHeld(Concat(chunks))
    ensures var r := StripLines(Concat(chunks)); Concat(later) == r.tail && Run("", chunks) == r.text + Run("", later)
    decreases |Concat(chunks)|, |chunks| + 1
  {
    hide StripLines, Run, Concat, ArtifactsHeld;
    var s := Concat(chunks);
    assert "" + Run("", chunks) == Run("", chunks);
    if FirstNewline(s).Some? {
      assert "" + "" + s == s;
      later := RunReachesTail("", "", chunks);
    } else {
      later := chunks;
    }
  }

  lemma NotOver(shown: string, buffer: string, chunks: seq<string>)
    requires InLine(shown, buffer, Concat(chunks))
    ensures chunks != []
  {
    NothingBehind(shown, buffer);
    assert FirstNewline(shown + buffer + Concat(chunks)).Some?;
  }

  lemma NothingBehind(shown: string, buffer: string)
    requires NoNewline(shown) && NoNewline(buffer)
    ensures FirstNewline(shown + buffer + Concat([])).None?
  {
    var s := shown + buffer + Concat([]);
    assert forall k :: 0 <= k < |s| ==> s[k] == if k < |shown| then shown[k] else buffer[k - |shown|];
  }

  // ----- What stands behind the last newline -----

  /** Held to the end and then dropped. */
  predicate Vanishes(tail: string) {
    ShouldHold(tail) && ShouldDropIncomplete(tail)
  }

  /** A position of an unfinished line up to which some chunking releases it. */
  ghost predicate IsReleasePoint(t: string, n: nat)
    decreases n
  {
    n <= |t| && (n == 0 || exists r: nat :: r < n && IsReleasePoint(t, r) && !ShouldHold(t[r..n]))
  }

  /** From no release point the rest vanishes, or there is no release point but the start. */
  ghost predicate IsSettled(t: string) {
    || (forall q: nat :: q < |t| && IsReleasePoint(t, q) ==> !Vanishes(t[q..]))
    || (forall q: nat :: IsReleasePoint(t, q) ==> q == 0)
  }

  /** Every chunking shows the line up to a release point behind which the rest vanishes, or all of it. */
  lemma {:induction false} TailRun(t: string, r: nat, buffer: string, chunks: seq<string>) returns (q: nat)
    requires NoNewline(t) && IsReleasePoint(t, r) && buffer + Concat(chunks) == t[r..]
    requires buffer == "" || ShouldHold(buffer)
    ensures r <= q <= |t| && IsReleasePoint(t, q)
    ensures Run(buffer, chunks) == if q < |t| && Vanishes(t[q..]) then t[r..q] else t[r..]
    decreases |chunks|
  {
    hide ShouldHold, ShouldDropIncomplete, Run, Concat, IsReleasePoint;
    if chunks == [] {
      ConcatNothing();
      WithinLine(t, r);
      FlushTail(t[r..]);
      assert buffer + "" == buffer && t[r..r] == "";
      q := r;
    } else {
      var chunk, rest := chunks[0], chunks[1..];
      assert chunks == [chunk] + rest;
      var n := TailStep(t, r, buffer, chunk, rest);
      if ShouldHold(t[r..n]) {
        q := TailRun(t, r, t[r..n], rest);
      } else {
        q := TailRun(t, n, "", rest);
        assert t[r..n] + t[n..q] == t[r..q] && t[r..n] + t[n..] == t[r..];
      }
    }
  }

  lemma TailStep(t: string, r: nat, buffer: string, chunk: string, rest: seq<string>) returns (n: nat)
    requires NoNewline(t) && IsReleasePoint(t, r) && buffer + Concat([chunk] + rest) == t[r..]
    ensures r <= n <= |t| && t[r..n] + Concat(rest) == t[r..] && Concat(rest) == t[n..]
    ensures !ShouldHold(t[r..n]) ==> IsReleasePoint(t, n)
    ensures Run(buffer, [chunk] + rest) == if ShouldHold(t[r..n]) then Run(t[r..n], rest) else t[r..n] + Run("", rest)
  {
    hide ShouldHold, Run, Concat;
    var u := buffer + chunk;
    ConcatCons(chunk, rest);
    Assoc(buffer, chunk, Concat(rest));
    n := r + |u|;
    assert u == t[r..][..|u|] && Concat(rest) == t[r..][|u|..];
    assert u == t[r..n];
    RunWithoutLine("", buffer, chunk, rest);
    assert "" + Run(buffer, [chunk] + rest) == Run(buffer, [chunk] + rest);
    assert "" + Run(u, rest) == Run(u, rest) && "" + u == u;
  }

  lemma ConcatNothing()
    ensures Concat([]) == ""
  {}

  lemma FlushTail(t: string)
    requires NoNewline(t)
    ensures Run(t, []) == if t != "" && ShouldDropIncomplete(t) then "" else t
  {
    hide ShouldHold, IsArtifact, StartsArtifactPrefix, IsIncompleteWrappedPrintf;
    assert "" + t == t && "" + "" == "";
  }

  lemma RunOfOne(t: string)
    requires NoNewline(t)
    ensures Run("", [t]) == if t != "" && Vanishes(t) then "" else t
  {
    hide ShouldHold, ShouldDropIncomplete, Run;
    assert "" + t == t && [t] + [] == [t] && t + "" == t;
    RunWithoutLine("", "", t, []);
    assert "" + Run("", [t]) == Run("", [t]) && "" + Run(t, []) == Run(t, []);
    FlushTail(t);
    FlushTail("");
    NothingToHold();
  }

  lemma NothingToHold()
    ensures !ShouldHold("") && !ShouldDropIncomplete("")
  {}

  /** A chunking that releases the line up to a release point. */
  lemma {:induction false} ReachReleasePoint(t: string, q: nat, more: seq<string>) returns (chunks: seq<string>)
    requires NoNewline(t) && IsReleasePoint(t, q)
    ensures Concat(chunks) == t[..q] + Concat(more) && Run("", chunks) == t[..q] + Run("", more)
    decreases q
  {
    hide ShouldHold, Run, Concat;
    if q == 0 {
      chunks := more;
      assert t[..0] + Concat(more) == Concat(more) && t[..0] + Run("", more) == Run("", more);
    } else {
      var r: nat :| r < q && IsReleasePoint(t, r) && !ShouldHold(t[r..q]);
      chunks := ReachReleasePoint(t, r, [t[r..q]] + more);
      ConcatCons(t[r..q], more);
      ReleaseOnce(t[r..q], more);
      assert t[..r] + t[r..q] == t[..q];
      Assoc(t[..r], t[r..q], Concat(more));
      Assoc(t[..r], t[r..q], Run("", more));
    }
  }

  lemma ReleaseOnce(start: string, more: seq<string>)
    requires NoNewline(start) && !ShouldHold(start)
    ensures Run("", [start] + more) == start + Run("", more)
  {
    hide ShouldHold, Run;
    assert "" + start == start;
    RunWithoutLine("", "", start, more);
    assert "" + Run("", [start] + more) == Run("", [start] + more);
  }

  /** Every chunking of an unfinished line shows the same exactly if it is settled. */
  lemma TailsAgreeIff(t: string)
    requires NoNewline(t)
    ensures (forall chunks :: Concat(chunks) == t ==> Run("", chunks) == Run("", [t])) <==> IsSettled(t)
  {
    hide Run, Concat, ShouldHold, ShouldDropIncomplete, Vanishes;
    RunOfOne(t);
    if IsSettled(t) {
      forall chunks | Concat(chunks) == t ensures Run("", chunks) == Run("", [t]) {
        assert "" + Concat(chunks) == t[0..] && t[0..] == t && t[0..0] == "";
        var q := TailRun(t, 0, "", chunks);
      }
    } else {
      var chunks := UnsettledChunking(t);
    }
  }

  lemma UnsettledChunking(t: string) returns (chunks: seq<string>)
    requires NoNewline(t) && !IsSettled(t)
    ensures Concat(chunks) == t && Run("", chunks) != Run("", [t])
  {
    hide Run, Concat, Vanishes, IsReleasePoint, IsSettled;
    var q := UnsettledPoint(t);
    WithinLine(t, q);
    chunks := ReachReleasePoint(t, q, [t[q..]]);
    ConcatOne(t[q..]);
    assert t[..q] + t[q..] == t;
    RunOfOne(t);
    RunOfOne(t[q..]);
    assert |Run("", chunks)| == q + |Run("", [t[q..]])|;
  }

  /** A release point behind which the rest vanishes, or any other one if it vanishes from the start. */
  lemma UnsettledPoint(t: string) returns (q: nat)
    requires !IsSettled(t)
    ensures IsReleasePoint(t, q) && 0 < q && (Vanishes(t) || (q < |t| && Vanishes(t[q..])))
  {
    hide Vanishes, IsReleasePoint;
    var bad: nat :| bad < |t| && IsReleasePoint(t, bad) && Vanishes(t[bad..]);
    var other: nat :| IsReleasePoint(t, other) && other != 0;
    q := if bad == 0 then other else bad;
    assert t[0..] == t;
  }

  lemma WithinLine(t: string, q: nat)
    requires IsReleasePoint(t, q)
    ensures q <= |t|
  {}

  lemma ConcatOne(chunk: string)
    ensures Concat([chunk]) == chunk
  {
    assert [chunk][1..] == [] && chunk + "" == chunk;
  }

  // ----- A chunking that differs -----

  lemma FirstLineOf(s: string) returns (line: string, rest: string)
    requires FirstNewline(s).Some?
    ensures IsLine(line) && s == line + rest
  {
    var i := FirstNewline(s).value;
    line, rest := s[..i + 1], s[i + 1..];
  }

  /** A line released too early shows up. */
  lemma {:induction false} LeakyChunking(s: string) returns (chunks: seq<string>)
    requires !ArtifactsHeld(s)
    ensures Concat(chunks) == s && Run("", chunks) != Run("", [s])
    decreases |s|
  {
    hide ShouldHold, Keep, Run, Concat, ArtifactsHeld, IsArtifact;
    LeakHasLine(s);
    var line, rest := FirstLineOf(s);
    ArtifactsHeldOfLine(line, rest);
    if IsArtifact(line) && !HeldThroughout(line) {
      var n :| 0 < n < |line| && !ShouldHold(line[..n]);
      LeakAt(line, n, rest);
      ConcatTwo(line[..n], line[n..] + rest);
      assert line[..n] + (line[n..] + rest) == line + rest;
      chunks := [line[..n], line[n..] + rest];
    } else {
      var later := LeakyChunking(rest);
      ConcatCons(line, later);
      LineInFront(line, rest, later);
      chunks := [line] + later;
    }
  }

  lemma LeakHasLine(s: string)
    requires !ArtifactsHeld(s)
    ensures FirstNewline(s).Some?
  {}

  lemma LineInFront(line: string, rest: string, later: seq<string>)
    requires IsLine(line)
    ensures Run("", [line] + later) == Keep(line) + Run("", later)
    ensures Run("", [line + rest]) == Keep(line) + Run("", [rest])
    ensures Run("", later) != Run("", [rest]) ==> Run("", [line] + later) != Run("", [line + rest])
  {
    hide ShouldHold, StripLines, Keep, Run;
    assert "" + line == line + "" && "" + (line + rest) == line + rest;
    RunWithLine("", line, later, line, "");
    NothingToHold();
    ReleaseOnce("", later);
    assert "" + Run("", later) == Run("", later);
    RunWithLine("", line + rest, [], line, rest);
    assert [line + rest] + [] == [line + rest] && [rest] + [] == [rest];
    assert (Keep(line) + Run("", later))[|Keep(line)|..] == Run("", later);
    assert (Keep(line) + Run("", [rest]))[|Keep(line)|..] == Run("", [rest]);
  }

  lemma ConcatCons(first: string, chunks: seq<string>)
    ensures Concat([first] + chunks) == first + Concat(chunks)
  {
    assert ([first] + chunks)[1..] == chunks;
  }

  lemma ConcatTwo(first: string, second: string)
    ensures Concat([first, second]) == first + second
  {
    assert [first, second][1..] == [second] && [second][1..] == [];
    assert second + "" == second && Concat([second]) == second + Concat([]);
  }

  lemma LeakAt(line: string, n: nat, rest: string)
    requires IsLine(line) && IsArtifact(line) && 0 < n < |line| && !ShouldHold(line[..n])
    ensures |Run("", [line[..n], line[n..] + rest])| > |Run("", [line + rest])|
  {
    hide ShouldHold, IsArtifact, Run;
    LineInFront(line, rest, []);
    ReleaseOnce(line[..n], [line[n..] + rest]);
    assert [line[..n]] + [line[n..] + rest] == [line[..n], line[n..] + rest];
    LineInFront(line[n..], rest, []);
  }

  // ----- The exact conditions -----

  lemma {:induction false} NoTail(s: string)
    requires NewlineEnded(s)
    ensures StripLines(s).tail == ""
    decreases |s|
  {
    hide IsArtifact, Keep;
    if s == "" {
    } else {
      assert s[|s| - 1] == '\n';
      NoTail(s[FirstNewline(s).value + 1..]);
    }
  }

  /** The whole stream in one chunk. */
  lemma {:induction false} LinesThenTail(s: string)
    ensures Run("", [s]) == StripLines(s).text + Run("", [StripLines(s).tail])
    decreases |s|
  {
    hide IsArtifact, Run, Keep;
    if FirstNewline(s).None? {
      assert "" + Run("", [s]) == Run("", [s]);
    } else {
      var line, rest := FirstLineOf(s);
      LinesThenTail(rest);
      StripLinesOfLine(line, rest);
      hide StripLines;
      LineInFront(line, rest, []);
      Assoc(Keep(line), StripLines(rest).text, Run("", [StripLines(rest).tail]));
    }
  }

  lemma {:induction false} LinesInFront(s: string, later: seq<string>) returns (chunks: seq<string>)
    requires Concat(later) == StripLines(s).tail
    ensures Concat(chunks) == s && Run("", chunks) == StripLines(s).text + Run("", later)
    decreases |s|
  {
    hide IsArtifact, Run, Keep, Concat;
    if FirstNewline(s).None? {
      chunks := later;
      assert "" + Run("", later) == Run("", later);
    } else {
      var line, rest := FirstLineOf(s);
      StripLinesOfLine(line, rest);
      hide StripLines;
      var behind := LinesInFront(rest, later);
      chunks := [line] + behind;
      ConcatCons(line, behind);
      LineInFront(line, rest, behind);
      Assoc(Keep(line), StripLines(rest).text, Run("", later));
    }
  }

  /**
    The exact condition: the output is the same for every way of cutting a stream, if and only if
    every artifact line is held from its first character on and the unfinished last line is settled.
   */
  lemma ChunkIndependenceIff(s: string)
    ensures (forall chunks :: Concat(chunks) == s ==> Run("", chunks) == Run("", [s])) <==>
            ArtifactsHeld(s) && IsSettled(StripLines(s).tail)
  {
    hide StripLines, Run, Concat, ArtifactsHeld, IsSettled;
    var r := StripLines(s);
    TailsAgreeIff(r.tail);
    LinesThenTail(s);
    if !ArtifactsHeld(s) {
      var chunks := LeakyChunking(s);
    } else if IsSettled(r.tail) {
      forall chunks | Concat(chunks) == s ensures Run("", chunks) == Run("", [s]) {
        var later := AllReachesTail(chunks);
      }
    } else {
      var later :| Concat(later) == r.tail && Run("", later) != Run("", [r.tail]);
      var chunks := LinesInFront(s, later);
      assert (r.text + Run("", later))[|r.text|..] == Run("", later);
      assert (r.text + Run("", [r.tail]))[|r.text|..] == Run("", [r.tail]);
    }
  }

  /**
    Over a newline-ended stream the output is the stream without its artifact lines for every way of
    cutting it, if and only if every artifact line is held from its first character on.
   */
  lemma ChunkIndependenceIffArtifactsHeld(s: string)
    requires NewlineEnded(s)
    ensures (forall chunks :: Concat(chunks) == s ==> Run("", chunks) == StripLines(s).text) <==> ArtifactsHeld(s)
  {
    hide StripLines, Run, Concat, ArtifactsHeld;
    ChunkIndependenceIff(s);
    LinesThenTail(s);
    NoTail(s);
    RunOfOne("");
    ConcatOne(s);
    assert StripLines(s).text + "" == StripLines(s).text;
  }

  // ----- Stripping a text at once -----

  lemma {:induction false} TrimmingKeepsPattern(s: string, pattern: string)
    requires pattern != "" && pattern[0] != '\r' && pattern[0] != '\n' && Contains(s, pattern)
    ensures Contains(TrimLineStart(s), pattern)
  {
    var i := Find(s, pattern).value;
    if s != [] && (s[0] == '\r' || s[0] == '\n') {
      assert s[i..i + |pattern|][0] == s[i];
      assert s[1..][i - 1..i - 1 + |pattern|] == s[i..i + |pattern|];
      assert OccursAt(s[1..], pattern, i - 1);
      TrimmingKeepsPattern(s[1..], pattern);
    }
  }

  lemma TrimmingKeepsArtifact(s: string)
    requires IsArtifact(s)
    ensures IsArtifact(TrimLineStart(s))
  {
    hide Contains, TrimLineStart;
    if Contains(s, SENTINEL_PREFIX) {
      TrimmingKeepsPattern(s, SENTINEL_PREFIX);
    } else {
      TrimmingKeepsPattern(s, MULTILINE_HELPER_PREFIX);
    }
  }

  /** A pattern without a newline does not reach across a line's end. */
  lemma OnOneSide(line: string, rest: string, pattern: string, i: nat)
    requires IsLine(line) && '\n' !in pattern && OccursAt(line + rest, pattern, i)
    ensures OccursAt(line, pattern, i) || OccursAt(rest, pattern, i - |line|)
  {
    var s, n, m := line + rest, |line|, |pattern|;
    forall j | i <= j < i + m ensures s[j] != '\n' {
      assert s[i..i + m][j - i] == pattern[j - i];
    }
    assert s[n - 1] == '\n';
    if i + m <= n {
      assert line[i..i + m] == s[i..i + m];
    } else {
      assert rest[i - n..i - n + m] == s[i..i + m];
    }
  }

  lemma NothingAcross(line: string, rest: string, pattern: string)
    requires IsLine(line) && '\n' !in pattern && !Contains(line, pattern) && !Contains(rest, pattern)
    ensures !Contains(line + rest, pattern)
  {
    hide OccursAt, IsLine;
    if Contains(line + rest, pattern) {
      OnOneSide(line, rest, pattern, Find(line + rest, pattern).value);
    }
  }

  lemma {:induction false} LinesWithoutArtifact(s: string, rest: string)
    requires !IsArtifact(rest)
    ensures !IsArtifact(StripLines(s).text + rest)
    decreases |s|
  {
    hide IsArtifact;
    if FirstNewline(s).None? {
      assert "" + rest == rest;
    } else {
      var line, behind := FirstLineOf(s);
      LinesWithoutArtifact(behind, rest);
      StripLinesOfLine(line, behind);
      hide StripLines;
      var later := StripLines(behind).text + rest;
      Assoc(Keep(line), StripLines(behind).text, rest);
      if IsArtifact(line) {
        assert "" + later == later;
      } else {
        LineWithoutArtifact(line, later);
      }
    }
  }

  lemma LineWithoutArtifact(line: string, rest: string)
    requires IsLine(line) && !IsArtifact(line) && !IsArtifact(rest)
    ensures !IsArtifact(line + rest)
  {
    assert '\n' !in SENTINEL_PREFIX && '\n' !in MULTILINE_HELPER_PREFIX;
    hide Contains, IsLine;
    NothingAcross(line, rest, SENTINEL_PREFIX);
    NothingAcross(line, rest, MULTILINE_HELPER_PREFIX);
  }

  /** A text that is stripped at once shows no artifact, not even a part of a line with one. */
  lemma StrippedHasNoArtifact(s: string)
    ensures !IsArtifact(Run("", [s]))
  {
    hide IsArtifact, StripLines, Run;
    var tail := StripLines(s).tail;
    LinesThenTail(s);
    RunOfOne(tail);
    NoArtifactInNothing();
    if IsArtifact(tail) {
      TrimmingKeepsArtifact(tail);
    }
    LinesWithoutArtifact(s, Run("", [tail]));
  }

  lemma NoArtifactInNothing()
    ensures !IsArtifact("")
  {}

  // ----- Streams that meet the condition -----

  /** A line that an artifact starts, after at most one carriage return, is held throughout. */
  lemma ArtifactAtLineStartIsHeld(line: string, pattern: string, behind: string)
    requires pattern == SENTINEL_PREFIX || pattern == MULTILINE_HELPER_PREFIX
    requires line == pattern + behind || line == "\r" + pattern + behind
    ensures HeldThroughout(line) && IsArtifact(line)
  {
    hide IsArtifact, StartsArtifactPrefix, ShouldHold, Contains;
    forall n | 0 < n < |line| ensures ShouldHold(line[..n]) {
      if line[0] != '\r' {
        assert line[..n] == (pattern + behind)[..n];
        ArtifactStartIsHeld(line[..n], pattern, behind);
      } else if n == 1 {
        assert line[..n] == "\r" + "";
        LoneReturnIsHeld();
      } else {
        assert line[..n] == "\r" + (pattern + behind)[..n - 1];
        ArtifactStartIsHeld((pattern + behind)[..n - 1], pattern, behind);
      }
    }
    HoldsArtifactStart(pattern, pattern, behind);
    var before := if line[0] == '\r' then "\r" else "";
    assert line == before + pattern + behind;
    ContainsInContext(before, pattern, behind, pattern);
    ContainedIsArtifact(line, pattern);
  }

  lemma ContainedIsArtifact(line: string, pattern: string)
    requires pattern == SENTINEL_PREFIX || pattern == MULTILINE_HELPER_PREFIX
    requires Contains(line, pattern)
    ensures IsArtifact(line)
  {
    hide Contains;
  }

  /** The beginning of an artifact is held, alone or behind a carriage return. */
  lemma ArtifactStartIsHeld(start: string, pattern: string, behind: string)
    requires pattern == SENTINEL_PREFIX || pattern == MULTILINE_HELPER_PREFIX
    requires start != "" && start <= pattern + behind
    ensures ShouldHold(start) && ShouldHold("\r" + start)
  {
    hide IsArtifact, StartsArtifactPrefix, IsPossibleWrappedCommand, Contains;
    HoldsArtifactStart(start, pattern, behind);
    assert start[0] == pattern[0];
    assert TrimLineStart(start) == start;
    assert ("\r" + start)[1..] == start;
  }

  lemma HoldsArtifactStart(start: string, pattern: string, behind: string)
    requires pattern == SENTINEL_PREFIX || pattern == MULTILINE_HELPER_PREFIX
    requires start <= pattern + behind
    ensures IsArtifact(start) || StartsArtifactPrefix(start)
    ensures |pattern| <= |start| ==> Contains(start, pattern)
  {
    if |pattern| <= |start| {
      assert start[0..|pattern|] == pattern;
      assert OccursAt(start, pattern, 0);
    } else {
      assert start == pattern[..|start|];
    }
  }

  // ----- The wrapper that the agent sends and the terminal echoes -----

  function MakeMarker(runId: string): string {
    SENTINEL_PREFIX + runId + "__"
  }

  function TrimLineEnd(s: string): string {
    if s != "" && (s[|s| - 1] == '\r' || s[|s| - 1] == '\n') then TrimLineEnd(s[..|s| - 1]) else s
  }

  predicate NeedsMultilineWrapper(trimmed: string) {
    '\n' in trimmed || Contains(trimmed, "<<")
  }

  /** The text sent to the remote shell for one command. */
  function WrapCommand(command: string, runId: string): string {
    var trimmed := TrimLineEnd(command);
    if NeedsMultilineWrapper(trimmed) then
      "\r" + trimmed + "\n" + MULTILINE_HELPER_PREFIX + " '\\n" + MakeMarker(runId) + ":%s\\n' \"$__ais_ec\"\n"
    else
      SubshellLine(trimmed, runId, "\n")
  }

  function SubshellLine(trimmed: string, runId: string, eol: string): string {
    "\r(" + trimmed + "); " + WRAPPED_PRINTF_PREFIX + (SENTINEL_PREFIX + (runId + "__:%s\\n' \"$?\"" + eol))
  }

  function MarkerLine(runId: string, code: string, eol: string): string {
    MakeMarker(runId) + ":" + code + eol
  }

  /** The wrapped command is the given one up to the line ends behind it. */
  lemma {:induction false} TrimsLineEnds(s: string)
    ensures TrimLineEnd(s) <= s
    ensures TrimLineEnd(s) == "" || TrimLineEnd(s)[|TrimLineEnd(s)| - 1] !in "\r\n"
    ensures forall i :: |TrimLineEnd(s)| <= i < |s| ==> s[i] in "\r\n"
  {
    if s != "" && (s[|s| - 1] == '\r' || s[|s| - 1] == '\n') {
      TrimsLineEnds(s[..|s| - 1]);
    } else {
    }
  }

  /**
    A command of several lines, or with a here-document, is sent as it is, with one more line behind it:
    an artifact line that the stripper holds from its first character on.
   */
  lemma MultilineHelperIsHeld(command: string, runId: string) returns (helper: string)
    requires NeedsMultilineWrapper(TrimLineEnd(command))
    ensures WrapCommand(command, runId) == "\r" + TrimLineEnd(command) + "\n" + helper
    ensures HeldThroughout(helper) && IsArtifact(helper)
  {
    hide IsArtifact, TrimLineEnd, NeedsMultilineWrapper;
    var behind := " '\\n" + MakeMarker(runId) + ":%s\\n' \"$__ais_ec\"\n";
    helper := MULTILINE_HELPER_PREFIX + behind;
    ArtifactAtLineStartIsHeld(helper, MULTILINE_HELPER_PREFIX, behind);
  }

  /** Behind a command without ");", the first ");" is the wrapper's own. */
  lemma WrapperCloses(command: string, shownBehind: string)
    requires !Contains(command, ");")
    ensures Find("(" + command + ");" + shownBehind, ");") == Some(|command| + 1)
  {
    var s := "(" + command + ");" + shownBehind;
    assert s[|command| + 1..|command| + 3] == ");";
    assert OccursAt(s, ");", |command| + 1);
    forall j | 0 <= j < |command| + 1 ensures !OccursAt(s, ");", j) {
      NoCloseBefore(command, shownBehind, j);
    }
  }

  lemma NoCloseBefore(command: string, shownBehind: string, j: nat)
    requires !Contains(command, ");") && j < |command| + 1
    ensures !OccursAt("(" + command + ");" + shownBehind, ");", j)
  {
    var s := "(" + command + ");" + shownBehind;
    if OccursAt(s, ");", j) {
      assert s[j] == s[j..j + 2][0] == ')' && s[j + 1] == s[j..j + 2][1] == ';';
      assert j > 0 && j < |command| && command[j - 1] == ')' && command[j] == ';';
      assert command[j - 1..j + 1] == ");";
      assert OccursAt(command, ");", j - 1);
      assert false;
    }
  }

  lemma NoCloseYet(command: string, start: string)
    requires !Contains(command, ");") && start <= "(" + command + ")"
    ensures Find(start, ");").None?
  {
    if Find(start, ");").Some? {
      var j := Find(start, ");").value;
      assert start[j..j + 2] == ("(" + command + ");")[j..j + 2];
      assert "(" + command + ");" + "" == "(" + command + ");";
      NoCloseBefore(command, "", j);
      assert false;
    }
  }

  /** A beginning of the echo, without its leading carriage return. */
  lemma EchoStartIsHeld(start: string)
    requires start != "" && start[0] == '('
    requires Find(start, ");").None? ||
             var after := TrimStart(start[Find(start, ");").value + 2..]);
             after == "" || after <= WRAPPED_PRINTF_PREFIX || WRAPPED_PRINTF_PREFIX <= after
    ensures ShouldHold("\r" + start)
  {
    hide IsArtifact, StartsArtifactPrefix, Find, TrimStart;
    var tail := "\r" + start;
    assert tail[1..] == start && tail[..2] == "\r(";
    assert TrimLineStart(start) == start && TrimLineStart(tail) == start;
  }

  lemma EchoHeldInCommand(command: string, start: string)
    requires !Contains(command, ");") && start != "" && start <= "(" + command + ")"
    ensures ShouldHold("\r" + start)
  {
    hide ShouldHold, Contains;
    assert start[0] == '(';
    NoCloseYet(command, start);
    EchoStartIsHeld(start);
  }

  lemma EchoHeldBehindCommand(command: string, shown: string, behind: string)
    requires !Contains(command, ");") && shown <= " " + WRAPPED_PRINTF_PREFIX + behind
    ensures ShouldHold("\r" + ("(" + command + ");" + shown))
  {
    hide ShouldHold, Contains, TrimStart;
    var start := "(" + command + ");" + shown;
    WrapperCloses(command, shown);
    assert start[|command| + 3..] == shown;
    TrimmedPrintf(shown, behind);
    EchoStartIsHeld(start);
  }

  /** The echo of a single-line wrapper is held from its leading carriage return on. */
  lemma WrapperEchoIsHeld(command: string, behind: string)
    requires !Contains(command, ");")
    ensures HeldThroughout("\r(" + command + "); " + WRAPPED_PRINTF_PREFIX + behind)
  {
    hide ShouldHold, Contains;
    var line := "\r(" + command + "); " + WRAPPED_PRINTF_PREFIX + behind;
    var printf := " " + WRAPPED_PRINTF_PREFIX + behind;
    assert line == "\r" + ("(" + command + ");" + printf);
    forall n | 0 < n < |line| ensures ShouldHold(line[..n]) {
      var start := ("(" + command + ");" + printf)[..n - 1];
      assert line[..n] == "\r" + start;
      if n == 1 {
        LoneReturnIsHeld();
      } else if n - 1 <= |command| + 2 {
        assert start == ("(" + command + ")")[..n - 1];
        EchoHeldInCommand(command, start);
      } else {
        assert start == "(" + command + ");" + printf[..n - 1 - (|command| + 3)];
        EchoHeldBehindCommand(command, printf[..n - 1 - (|command| + 3)], behind);
      }
    }
  }

  lemma LoneReturnIsHeld()
    ensures ShouldHold("\r" + "")
  {
    assert "\r" + "" == "\r";
  }

  lemma TrimmedPrintf(shown: string, behind: string)
    requires shown <= " " + WRAPPED_PRINTF_PREFIX + behind
    ensures var after := TrimStart(shown);
            after == "" || after <= WRAPPED_PRINTF_PREFIX || WRAPPED_PRINTF_PREFIX <= after
  {
    if |shown| > 1 {
      assert shown[1..] == (WRAPPED_PRINTF_PREFIX + behind)[..|shown| - 1];
      assert shown[1] == 'p' && TrimStart(shown[1..]) == shown[1..];
    }
  }

  ghost predicate ArtifactFree(s: string) {
    match FirstNewline(s)
    case None => true
    case Some(i) => !IsArtifact(s[..i + 1]) && ArtifactFree(s[i + 1..])
  }

  /**
    When the output ends in the middle of the echo, what is left of it is dropped exactly if the printing
    has begun; a command that is still being echoed is shown.
   */
  lemma UnfinishedEchoIsDroppedIff(command: string, shown: string)
    requires !Contains(command, ");") && shown <= " " + WRAPPED_PRINTF_PREFIX
    ensures IsIncompleteWrappedPrintf("\r" + ("(" + command + ");" + shown)) <==> |shown| > 1
    ensures !IsIncompleteWrappedPrintf("\r" + ("(" + command))
  {
    hide Contains, Find;
    var echo := "(" + command + ");" + shown;
    assert ("\r" + echo)[1..] == echo && echo[|command| + 3..] == shown;
    WrapperCloses(command, shown);
    TrimmedPrintf(shown, "");
    assert " " + WRAPPED_PRINTF_PREFIX + "" == " " + WRAPPED_PRINTF_PREFIX;
    PrintingHasBegun(shown);
    assert ("\r" + ("(" + command))[1..] == "(" + command;
    assert "(" + command <= "(" + command + ")";
    NoCloseYet(command, "(" + command);
  }

  lemma PrintingHasBegun(shown: string)
    requires shown <= " " + WRAPPED_PRINTF_PREFIX
    ensures TrimStart(shown) != "" <==> |shown| > 1
  {
    if |shown| > 1 {
      TrimsOneBlank(shown[1..]);
      assert shown == [' '] + shown[1..];
    } else if |shown| == 1 {
      assert shown == " " && shown[1..] == "";
    }
  }

  lemma TrimsOneBlank(text: string)
    requires text != "" && text[0] == 'p'
    ensures TrimStart([' '] + text) == text
  {
    assert ([' '] + text)[1..] == text;
  }

  /** Ordinary output passes unchanged, whatever follows it. */
  lemma {:induction false} ArtifactFreePasses(s: string, rest: string)
    requires NewlineEnded(s) && ArtifactFree(s)
    ensures StripLines(s + rest).text == s + StripLines(rest).text
    ensures ArtifactsHeld(s + rest) <==> ArtifactsHeld(rest)
    decreases |s|
  {
    hide IsArtifact, HeldThroughout;
    if s == "" {
      assert s + rest == rest && s + StripLines(rest).text == StripLines(rest).text;
    } else {
      assert s[|s| - 1] == '\n';
      var i := FirstNewline(s).value;
      var line, behind := s[..i + 1], s[i + 1..];
      assert s + rest == line + (behind + rest) && s == line + behind;
      StripLinesOfLine(line, behind + rest);
      ArtifactsHeldOfLine(line, behind + rest);
      ArtifactFreePasses(behind, rest);
      Assoc(line, behind, StripLines(rest).text);
    }
  }

  lemma DroppedLine(line: string, rest: string)
    requires IsLine(line) && IsArtifact(line) && HeldThroughout(line)
    ensures StripLines(line + rest).text == StripLines(rest).text
    ensures ArtifactsHeld(line + rest) <==> ArtifactsHeld(rest)
  {
    hide IsArtifact, HeldThroughout;
    StripLinesOfLine(line, rest);
    ArtifactsHeldOfLine(line, rest);
    assert "" + StripLines(rest).text == StripLines(rest).text;
  }

  /**
    One agent command as the terminal sees it: the echoed wrapper, the command's output, and
    the printed marker line. The user sees exactly the output, for every chunking.
   */
  lemma ExchangeShowsOnlyOutput(command: string, runId: string, eol: string, output: string, code: string,
          chunks: seq<string>)
    requires !NeedsMultilineWrapper(TrimLineEnd(command)) && !Contains(TrimLineEnd(command), ");")
    requires eol == "\n" || eol == "\r\n"
    requires NoNewline(runId) && NoNewline(code)
    requires NewlineEnded(output) && ArtifactFree(output)
    requires Concat(chunks) == SubshellLine(TrimLineEnd(command), runId, eol) + (output + MarkerLine(runId, code, eol))
    ensures Run("", chunks) == output
    ensures SubshellLine(TrimLineEnd(command), runId, "\n") == WrapCommand(command, runId)
  {
    hide *;
    var echo, printed := SubshellLine(TrimLineEnd(command), runId, eol), MarkerLine(runId, code, eol);
    EchoLine(command, runId, eol);
    PrintedLine(runId, code, eol);
    DroppedLine(echo, output + printed);
    ArtifactFreePasses(output, printed);
    assert printed + "" == printed && output + "" == output;
    DroppedLine(printed, "");
    NothingToStrip();
    LineAtEnd(echo + output, printed);
    assert echo + output + printed == echo + (output + printed);
    ChunkIndependenceIffArtifactsHeld(Concat(chunks));
  }

  lemma LineAtEnd(before: string, line: string)
    requires IsLine(line)
    ensures NewlineEnded(before + line)
  {
  }

  lemma NothingToStrip()
    ensures StripLines("").text == "" && ArtifactsHeld("")
  {
  }

  lemma EchoLine(command: string, runId: string, eol: string)
    requires !NeedsMultilineWrapper(TrimLineEnd(command)) && !Contains(TrimLineEnd(command), ");")
    requires eol == "\n" || eol == "\r\n"
    requires NoNewline(runId)
    ensures var line := SubshellLine(TrimLineEnd(command), runId, eol);
            IsLine(line) && IsArtifact(line) && HeldThroughout(line)
    ensures SubshellLine(TrimLineEnd(command), runId, "\n") == WrapCommand(command, runId)
  {
    var trimmed := TrimLineEnd(command);
    hide TrimLineEnd, HeldThroughout, IsLine;
    var before := "\r(" + trimmed + "); " + WRAPPED_PRINTF_PREFIX;
    var behind := runId + "__:%s\\n' \"$?\"" + eol;
    WrapperEchoIsHeld(trimmed, SENTINEL_PREFIX + behind);
    Assoc(before, SENTINEL_PREFIX, behind);
    ContainsItself(SENTINEL_PREFIX);
    ContainsInContext(before, SENTINEL_PREFIX, behind, SENTINEL_PREFIX);
    EchoIsLine(trimmed, runId, eol);
  }

  lemma ContainsItself(pattern: string)
    ensures Contains(pattern, pattern)
  {
    assert pattern[0..|pattern|] == pattern;
    assert OccursAt(pattern, pattern, 0);
  }

  lemma EchoIsLine(trimmed: string, runId: string, eol: string)
    requires '\n' !in trimmed && NoNewline(runId)
    requires eol == "\n" || eol == "\r\n"
    ensures IsLine(SubshellLine(trimmed, runId, eol))
  {
    assert NoNewline(trimmed);
    assert NoNewline(WRAPPED_PRINTF_PREFIX) && NoNewline(SENTINEL_PREFIX);
  }

  lemma PrintedLine(runId: string, code: string, eol: string)
    requires NoNewline(runId) && NoNewline(code)
    requires eol == "\n" || eol == "\r\n"
    ensures var line := MarkerLine(runId, code, eol);
            IsLine(line) && IsArtifact(line) && HeldThroughout(line)
  {
    hide IsArtifact, HeldThroughout;
    var line := MarkerLine(runId, code, eol);
    var behind := runId + "__:" + code + eol;
    assert line == SENTINEL_PREFIX + behind;
    assert IsLine(line);
    ArtifactAtLineStartIsHeld(line, SENTINEL_PREFIX, behind);
  }

  /** A line that is not settled: a lone "_" at the end is dropped. */
  lemma UnfinishedTailDependsOnChunking()
    ensures Concat(["a", "_"]) == Concat(["a_"]) && Run("", ["a", "_"]) != Run("", ["a_"])
  {
    ConcatTwo("a", "_");
    ConcatCons("a_", []);
    assert "a_" + "" == "a_";
    UnderscoreIsHeld();
    hide ShouldHold, ShouldDropIncomplete;
    assert "" + "a" == "a" && "" + "_" == "_" && "" + "a_" == "a_";
    assert ["a", "_"][1..] == ["_"] && ["_"][1..] == [] && ["a_"][1..] == [];
  }

  lemma UnderscoreIsHeld()
    ensures ShouldHold("_") && ShouldDropIncomplete("_")
    ensures !ShouldHold("a") && !ShouldHold("a_") && !ShouldDropIncomplete("a_")
  {
    assert "_" == SENTINEL_PREFIX[..1];
    assert "a"[0] == 'a' && "a_"[0] == 'a';
  }
}
