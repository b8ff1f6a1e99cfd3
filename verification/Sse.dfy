/**
  The streaming loop that reads a provider's server-sent events (section 9.2.6 of the HTML
  Standard): bytes arrive in chunks, records end at a blank line, and the data of each record
  is handed on until the record "[DONE]".
 */
module Sse {
  import opened Text
  import opened Utf8

  const CRLFCRLF: seq<Byte> := [0x0D, 0x0A, 0x0D, 0x0A]
  const LFLF: seq<Byte> := [0x0A, 0x0A]

  // ----- Records -----

  predicate At(s: seq<Byte>, pattern: seq<Byte>, i: int) {
    0 <= i && i + |pattern| <= |s| && s[i..i + |pattern|] == pattern
  }

  /** `windows(n).position(..)`: the leftmost occurrence. */
  function Position(s: seq<Byte>, pattern: seq<Byte>, from: nat): (r: Option<nat>)
    requires from <= |s|
    ensures r.Some? ==> from <= r.value && At(s, pattern, r.value)
    ensures r.Some? ==> forall j :: from <= j < r.value ==> !At(s, pattern, j)
    ensures r.None? ==> forall j :: from <= j ==> !At(s, pattern, j)
    decreases |s| - from
  {
    if At(s, pattern, from) then Some(from)
    else if from == |s| then None
    else Position(s, pattern, from + 1)
  }

  datatype Separator = Separator(index: nat, len: nat)

  /** A CRLF blank line anywhere is preferred to an LF blank line. */
  function FindSeparator(buffer: seq<Byte>): (r: Option<Separator>)
    ensures r.Some? ==> r.value.index + r.value.len <= |buffer| && r.value.len > 0
  {
    match Position(buffer, CRLFCRLF, 0)
    case Some(i) => Some(Separator(i, 4))
    case None =>
      match Position(buffer, LFLF, 0)
      case Some(i) => Some(Separator(i, 2))
      case None => None
  }

  /** The complete records of a buffer, and what remains. */
  datatype Drained = Drained(records: seq<seq<Byte>>, rest: seq<Byte>) {
    function Behind(front: seq<seq<Byte>>): Drained {
      Drained(front + records, rest)
    }
  }

  function Drain(buffer: seq<Byte>): Drained
    decreases |buffer|
  {
    match FindSeparator(buffer)
    case None => Drained([], buffer)
    case Some(sep) => Drain(buffer[sep.index + sep.len..]).Behind([buffer[..sep.index]])
  }

  function Concat(chunks: seq<seq<Byte>>): seq<Byte> {
    if chunks == [] then [] else chunks[0] + Concat(chunks[1..])
  }

  /** All records of a stream that arrives in chunks. */
  function DrainChunks(buffer: seq<Byte>, chunks: seq<seq<Byte>>): Drained
    decreases |chunks|
  {
    if chunks == [] then Drained([], buffer)
    else
      var d := Drain(buffer + chunks[0]);
      DrainChunks(d.rest, chunks[1..]).Behind(d.records)
  }

  /**
    No record is cut by a CRLF blank line while an LF blank line stands before it. This is what
    the preference for CRLF overlooks.
   */
  ghost predicate CutsAtFirstBlankLine(s: seq<Byte>)
    decreases |s|
  {
    match FindSeparator(s)
    case None => true
    case Some(sep) =>
      && (forall j :: 0 <= j < sep.index + sep.len - 2 ==> !(sep.len == 4 && At(s, LFLF, j)))
      && CutsAtFirstBlankLine(s[sep.index + sep.len..])
  }

  lemma AtAppend(a: seq<Byte>, b: seq<Byte>, pattern: seq<Byte>, i: nat)
    requires i + |pattern| <= |a|
    ensures At(a + b, pattern, i) == At(a, pattern, i)
  {
    assert (a + b)[i..i + |pattern|] == a[i..i + |pattern|];
  }

  lemma SeparatorAppend(a: seq<Byte>, b: seq<Byte>)
    requires CutsAtFirstBlankLine(a + b)
    ensures FindSeparator(a).Some? ==> FindSeparator(a + b) == FindSeparator(a)
  {
    hide Position;
    forall i | 0 <= i <= |a| - 2 ensures At(a + b, LFLF, i) == At(a, LFLF, i) {
      AtAppend(a, b, LFLF, i);
    }
    forall i | 0 <= i <= |a| - 4 ensures At(a + b, CRLFCRLF, i) == At(a, CRLFCRLF, i) {
      AtAppend(a, b, CRLFCRLF, i);
    }
  }

  lemma {:induction false} DrainAppend(a: seq<Byte>, b: seq<Byte>)
    requires CutsAtFirstBlankLine(a + b)
    ensures Drain(a + b) == Drain(Drain(a).rest + b).Behind(Drain(a).records)
    ensures CutsAtFirstBlankLine(Drain(a).rest + b)
    decreases |a|
  {
    hide FindSeparator;
    SeparatorAppend(a, b);
    match FindSeparator(a)
    case None =>
      assert [] + Drain(a + b).records == Drain(a + b).records;
    case Some(sep) =>
      var n := sep.index + sep.len;
      assert (a + b)[n..] == a[n..] + b && (a + b)[..sep.index] == a[..sep.index];
      DrainAppend(a[n..], b);
      var rest := Drain(Drain(a[n..]).rest + b).records;
      assert [a[..sep.index]] + (Drain(a[n..]).records + rest) == [a[..sep.index]] + Drain(a[n..]).records + rest;
  }

  lemma {:induction false} DrainOfRest(s: seq<Byte>)
    ensures Drain(Drain(s).rest) == Drained([], Drain(s).rest)
    decreases |s|
  {
    hide FindSeparator;
    if FindSeparator(s).Some? {
      var sep := FindSeparator(s).value;
      DrainOfRest(s[sep.index + sep.len..]);
    }
  }

  lemma {:induction false} ChunksDrainAlike(buffer: seq<Byte>, chunks: seq<seq<Byte>>)
    requires CutsAtFirstBlankLine(buffer + Concat(chunks)) && Drain(buffer) == Drained([], buffer)
    ensures DrainChunks(buffer, chunks) == Drain(buffer + Concat(chunks))
    decreases |chunks|
  {
    hide CutsAtFirstBlankLine, Drain;
    if chunks == [] {
      assert buffer + Concat(chunks) == buffer;
    } else {
      assert buffer + Concat(chunks) == buffer + chunks[0] + Concat(chunks[1..]);
      DrainAppend(buffer + chunks[0], Concat(chunks[1..]));
      DrainOfRest(buffer + chunks[0]);
      ChunksDrainAlike(Drain(buffer + chunks[0]).rest, chunks[1..]);
    }
  }

  /** The stream cut behind the overlooked blank line yields a shorter record. */
  lemma {:induction false} OverlookedBlankLine(s: seq<Byte>) returns (chunks: seq<seq<Byte>>)
    requires !CutsAtFirstBlankLine(s)
    ensures Concat(chunks) == s && DrainChunks([], chunks) != Drain(s)
    decreases |s|
  {
    hide FindSeparator;
    var sep := FindSeparator(s).value;
    var n := sep.index + sep.len;
    if j :| 0 <= j < n - 2 && sep.len == 4 && At(s, LFLF, j) {
      chunks := CutBehindBlankLine(s, j);
    } else {
      var later := OverlookedBlankLine(s[n..]);
      chunks := [s[..n]] + later;
      FirstRecordAlone(s, later);
    }
  }

  lemma FirstRecordAlone(s: seq<Byte>, later: seq<seq<Byte>>)
    requires FindSeparator(s).Some?
    requires var n := FindSeparator(s).value.index + FindSeparator(s).value.len;
             && (forall j :: 0 <= j < n - 2 ==> !(FindSeparator(s).value.len == 4 && At(s, LFLF, j)))
             && Concat(later) == s[n..] && DrainChunks([], later) != Drain(s[n..])
    ensures var n := FindSeparator(s).value.index + FindSeparator(s).value.len;
            Concat([s[..n]] + later) == s && DrainChunks([], [s[..n]] + later) != Drain(s)
  {
    hide FindSeparator, At, Drain, DrainChunks, Concat;
    var sep := FindSeparator(s).value;
    var n := sep.index + sep.len;
    DrainOfFirst(s);
    FirstChunk(s[..n], s[..sep.index], later);
    assert s == s[..n] + s[n..];
    var a, b := DrainChunks([], later), Drain(s[n..]);
    assert ([s[..sep.index]] + a.records)[1..] == a.records && ([s[..sep.index]] + b.records)[1..] == b.records;
  }

  lemma DrainOfFirst(s: seq<Byte>)
    requires FindSeparator(s).Some?
    ensures var sep := FindSeparator(s).value;
            && Drain(s[..sep.index + sep.len]) == Drained([s[..sep.index]], [])
            && Drain(s) == Drain(s[sep.index + sep.len..]).Behind([s[..sep.index]])
  {
    hide FindSeparator;
    var sep := FindSeparator(s).value;
    var first := s[..sep.index + sep.len];
    SeparatorOfFirst(s);
    NothingToDrain();
    assert first[sep.index + sep.len..] == [] && first[..sep.index] == s[..sep.index];
    assert [s[..sep.index]] + [] == [s[..sep.index]];
  }

  lemma FirstChunk(first: seq<Byte>, record: seq<Byte>, later: seq<seq<Byte>>)
    requires Drain(first) == Drained([record], [])
    ensures Concat([first] + later) == first + Concat(later)
    ensures DrainChunks([], [first] + later) == DrainChunks([], later).Behind([record])
  {
    hide Drain;
    assert ([first] + later)[1..] == later && [] + first == first;
  }

  lemma NothingToDrain()
    ensures FindSeparator([]).None? && Drain([]) == Drained([], [])
  {
  }

  lemma SeparatorOfFirst(s: seq<Byte>)
    requires FindSeparator(s).Some?
    ensures var sep := FindSeparator(s).value; FindSeparator(s[..sep.index + sep.len]) == FindSeparator(s)
  {
    hide Position;
    var sep := FindSeparator(s).value;
    var n := sep.index + sep.len;
    var first := s[..n];
    assert s == first + s[n..];
    forall i | 0 <= i <= n - 2 ensures At(s, LFLF, i) == At(first, LFLF, i) {
      AtAppend(first, s[n..], LFLF, i);
    }
    forall i | 0 <= i <= n - 4 ensures At(s, CRLFCRLF, i) == At(first, CRLFCRLF, i) {
      AtAppend(first, s[n..], CRLFCRLF, i);
    }
  }

  lemma {:induction false} CutBehindBlankLine(s: seq<Byte>, j: nat) returns (chunks: seq<seq<Byte>>)
    requires FindSeparator(s).Some? && FindSeparator(s).value.len == 4
    requires j < FindSeparator(s).value.index + 2 && At(s, LFLF, j)
    ensures Concat(chunks) == s && DrainChunks([], chunks) != Drain(s)
  {
    hide FindSeparator, At, Drain, DrainChunks, Concat;
    var first, behind := s[..j + 2], s[j + 2..];
    CrlfIsThere(s);
    BlankLinesDoNotOverlap(s, FindSeparator(s).value.index, j);
    BlankLineIsFound(s, j);
    DrainStarts(first);
    DrainStarts(s);
    TwoChunks(first, behind);
    assert s == first + behind;
    chunks := [first, behind];
    assert |Drain(first).records[0]| < |Drain(s).records[0]|;
  }

  lemma TwoChunks(first: seq<Byte>, behind: seq<Byte>)
    requires Drain(first).records != []
    ensures Concat([first, behind]) == first + behind
    ensures var d := DrainChunks([], [first, behind]); d.records != [] && d.records[0] == Drain(first).records[0]
  {
    hide Drain;
    var second: seq<seq<Byte>> := [behind];
    assert [first, behind][1..] == second && second[1..] == [] && [] + first == first && behind + [] == behind;
    assert Concat(second) == behind + Concat([]);
  }

  lemma CrlfIsThere(s: seq<Byte>)
    requires FindSeparator(s).Some? && FindSeparator(s).value.len == 4
    ensures At(s, CRLFCRLF, FindSeparator(s).value.index)
  {
    hide Position, At;
  }

  lemma BlankLinesDoNotOverlap(s: seq<Byte>, i: nat, j: nat)
    requires At(s, CRLFCRLF, i) && At(s, LFLF, j) && j < i + 2
    ensures j < i
  {
    assert s[i] == s[i..i + 4][0] && s[i + 2] == s[i..i + 4][2];
    assert s[j] == s[j..j + 2][0] && s[j + 1] == s[j..j + 2][1];
  }

  lemma DrainStarts(s: seq<Byte>)
    requires FindSeparator(s).Some?
    ensures Drain(s).records != [] && Drain(s).records[0] == s[..FindSeparator(s).value.index]
  {
  }

  lemma BlankLineIsFound(s: seq<Byte>, j: nat)
    requires FindSeparator(s).Some? && FindSeparator(s).value.len == 4
    requires j < FindSeparator(s).value.index && At(s, LFLF, j)
    ensures FindSeparator(s[..j + 2]).Some? && FindSeparator(s[..j + 2]).value.index <= j
  {
    hide Position;
    var first := s[..j + 2];
    assert s == first + s[j + 2..];
    AtAppend(first, s[j + 2..], LFLF, j);
  }

  /** The exact condition for the records to be the same for every way of cutting the stream. */
  lemma ChunkIndependenceIffCutsAtFirstBlankLine(s: seq<Byte>)
    ensures (forall chunks :: Concat(chunks) == s ==> DrainChunks([], chunks) == Drain(s)) <==> CutsAtFirstBlankLine(s)
  {
    if CutsAtFirstBlankLine(s) {
      forall chunks | Concat(chunks) == s ensures DrainChunks([], chunks) == Drain(s) {
        NothingToDrain();
        assert [] + Concat(chunks) == s;
        ChunksDrainAlike([], chunks);
      }
    } else {
      var chunks := OverlookedBlankLine(s);
    }
  }

  // ----- Streams with one kind of line end -----

  ghost predicate OnlyLf(s: seq<Byte>) {
    0x0D !in s
  }

  ghost predicate OnlyCrlf(s: seq<Byte>) {
    forall i :: 0 <= i < |s| && s[i] == 0x0A ==> i > 0 && s[i - 1] == 0x0D
  }

  lemma {:induction false} OneLineEndSuffices(s: seq<Byte>)
    requires OnlyLf(s) || OnlyCrlf(s)
    ensures CutsAtFirstBlankLine(s)
    decreases |s|
  {
    if FindSeparator(s).Some? {
      var sep := FindSeparator(s).value;
      var n := sep.index + sep.len;
      OneLineEndSeparator(s);
      OneLineEndSuffices(s[n..]);
    }
  }

  lemma OneLineEndSeparator(s: seq<Byte>)
    requires (OnlyLf(s) || OnlyCrlf(s)) && FindSeparator(s).Some?
    ensures var sep := FindSeparator(s).value;
            && (OnlyLf(s[sep.index + sep.len..]) || OnlyCrlf(s[sep.index + sep.len..]))
            && forall j :: 0 <= j < sep.index + sep.len - 2 ==> !(sep.len == 4 && At(s, LFLF, j))
  {
    hide Position;
    var sep := FindSeparator(s).value;
    var n := sep.index + sep.len;
    assert s[n - 1] == s[sep.index..n][sep.len - 1];
    assert sep.len == 4 ==> s[sep.index] == s[sep.index..n][0];
    forall j | 0 <= j && At(s, LFLF, j) ensures !OnlyCrlf(s) {
      assert s[j..j + 2][0] == s[j] && s[j..j + 2][1] == s[j + 1];
    }
    if OnlyCrlf(s) {
      assert n < |s| ==> s[n] != 0x0A;
    }
  }

  // ----- The data of a record -----

  function ToString(text: seq<Scalar>): (s: string)
    ensures |s| == |text|
  {
    seq(|text|, i requires 0 <= i < |text| => text[i] as char)
  }

  /** `str::lines`: without the line ends, and without an empty last line. */
  function Lines(s: string): seq<string>
    decreases |s|
  {
    if s == "" then []
    else
      match Find(s, "\n")
      case None => [s]
      case Some(i) => [WithoutCr(s[..i])] + Lines(s[i + 1..])
  }

  function WithoutCr(line: string): string {
    if line != "" && line[|line| - 1] == '\r' then line[..|line| - 1] else line
  }

  /** The data fields among some lines, without the white space in front. */
  function DataLines(lines: seq<string>): seq<string> {
    if lines == [] then []
    else (if "data:" <= lines[0] then [TrimStart(lines[0][5..])] else []) + DataLines(lines[1..])
  }

  function JoinLines(lines: seq<string>): string {
    if lines == [] then "" else if |lines| == 1 then lines[0] else lines[0] + "\n" + JoinLines(lines[1..])
  }

  datatype RecordResult = Skip | Stop | Bad | Payload(data: string)

  /** One record: `accepts` says whether the JSON parser takes the data. */
  function ReadRecord(record: seq<Byte>, accepts: string -> bool): RecordResult {
    match FromUtf8(record)
    case Err(_, _, _) => Bad
    case Ok(text) =>
      ReadData(JoinLines(DataLines(Lines(ToString(text)))), accepts)
  }

  function ReadData(data: string, accepts: string -> bool): RecordResult {
    if data == "" then Skip
    else if data == "[DONE]" then Stop
    else if accepts(data) then Payload(data) else Bad
  }

  datatype End = Finished | Failed | Disconnected

  /** What a run hands on, and how it ends. */
  datatype Outcome = Outcome(payloads: seq<string>, end: End)

  function Process(records: seq<seq<Byte>>, accepts: string -> bool): Outcome {
    if records == [] then Outcome([], Disconnected)
    else
      match ReadRecord(records[0], accepts)
      case Stop => Outcome([], Finished)
      case Bad => Outcome([], Failed)
      case Skip => Process(records[1..], accepts)
      case Payload(data) =>
        var later := Process(records[1..], accepts);
        Outcome([data] + later.payloads, later.end)
  }

  /** The data of a record, if it is UTF-8 at all. */
  function DataOf(record: seq<Byte>): Option<string> {
    match FromUtf8(record)
    case Err(_, _, _) => None
    case Ok(text) => Some(JoinLines(DataLines(Lines(ToString(text)))))
  }

  /** A record behind which the stream goes on: it has no data, or data that is accepted and is not the mark. */
  predicate Passes(record: seq<Byte>, accepts: string -> bool) {
    var data := DataOf(record);
    data.Some? && (data.value == "" || (data.value != "[DONE]" && accepts(data.value)))
  }

  ghost predicate AllPass(records: seq<seq<Byte>>, accepts: string -> bool) {
    forall k :: 0 <= k < |records| ==> Passes(records[k], accepts)
  }

  /** The k-th record is the first behind which the stream does not go on. */
  ghost predicate IsLast(records: seq<seq<Byte>>, k: nat, accepts: string -> bool) {
    k < |records| && AllPass(records[..k], accepts) && !Passes(records[k], accepts)
  }

  /** The data of some records, those without data left out. */
  function DataFields(records: seq<seq<Byte>>): seq<string> {
    if records == [] then []
    else (match DataOf(records[0]) case Some(data) => if data == "" then [] else [data] case None => [])
         + DataFields(records[1..])
  }

  /** A stream of records that pass is handed on whole, and ends with the connection. */
  lemma {:induction false} PassingIsHandedOn(records: seq<seq<Byte>>, accepts: string -> bool)
    requires AllPass(records, accepts)
    ensures Process(records, accepts) == Outcome(DataFields(records), Disconnected)
    decreases |records|
  {
    hide DataLines, Lines, FromUtf8;
    if records == [] {
    } else {
      assert Passes(records[0], accepts);
      assert forall k :: 0 <= k < |records[1..]| ==> records[1..][k] == records[k + 1];
      PassingIsHandedOn(records[1..], accepts);
    }
  }

  /**
    Any other stream ends at the first record that does not pass: finished if that is the mark, failed if
    it is anything else; and exactly the data before it is handed on.
   */
  lemma EndsAtTheFirst(records: seq<seq<Byte>>, k: nat, accepts: string -> bool)
    requires IsLast(records, k, accepts)
    ensures Process(records, accepts) ==
            Outcome(DataFields(records[..k]), if DataOf(records[k]) == Some("[DONE]") then Finished else Failed)
  {
    var before, rest := records[..k], records[k..];
    assert records == before + rest && rest[0] == records[k];
    PassingIsHandedOn(before, accepts);
    ProcessConcat(before, rest, accepts);
    LastDecides(rest, accepts);
  }

  lemma LastDecides(records: seq<seq<Byte>>, accepts: string -> bool)
    requires records != [] && !Passes(records[0], accepts)
    ensures Process(records, accepts) ==
            Outcome([], if DataOf(records[0]) == Some("[DONE]") then Finished else Failed)
  {
    hide DataLines, Lines, FromUtf8;
  }

  /** One of the two always applies. */
  lemma PassOrLast(records: seq<seq<Byte>>, accepts: string -> bool)
    ensures AllPass(records, accepts) || exists k :: IsLast(records, k, accepts)
  {
    hide Passes;
    var k := 0;
    while k < |records| && Passes(records[k], accepts)
      invariant k <= |records| && AllPass(records[..k], accepts)
    {
      k := k + 1;
    }
    if k < |records| {
      assert IsLast(records, k, accepts);
    }
  }

  /** The outcome of what is processed later, behind what was handed on before. */
  function After(payloads: seq<string>, later: Outcome): Outcome {
    Outcome(payloads + later.payloads, later.end)
  }

  lemma {:induction false} ProcessConcat(a: seq<seq<Byte>>, b: seq<seq<Byte>>, accepts: string -> bool)
    ensures Process(a + b, accepts) == if Process(a, accepts).end != Disconnected then Process(a, accepts)
                                       else After(Process(a, accepts).payloads, Process(b, accepts))
  {
    hide ReadRecord;
    if a == [] {
      assert a + b == b && [] + Process(b, accepts).payloads == Process(b, accepts).payloads;
    } else {
      assert (a + b)[1..] == a[1..] + b;
      ProcessConcat(a[1..], b, accepts);
    }
  }

  /** The loop over the chunks: it reads on only while no record has ended the stream. */
  method StreamChat(chunks: seq<seq<Byte>>, accepts: string -> bool) returns (outcome: Outcome)
    ensures outcome == Process(DrainChunks([], chunks).records, accepts)
  {
    var buffer: seq<Byte> := [];
    var payloads: seq<string> := [];
    var i := 0;
    assert chunks[0..] == chunks;
    assert [] + Process(DrainChunks([], chunks).records, accepts).payloads ==
           Process(DrainChunks([], chunks).records, accepts).payloads;
    hide Process, FindSeparator, ReadRecord;
    while i < |chunks|
      invariant i <= |chunks|
      invariant Process(DrainChunks([], chunks).records, accepts) ==
                After(payloads, Process(DrainChunks(buffer, chunks[i..]).records, accepts))
    {
      assert chunks[i..][1..] == chunks[i + 1..];
      var stopped: Option<End>;
      ghost var later := DrainChunks(Drain(buffer + chunks[i]).rest, chunks[i + 1..]);
      payloads, buffer, stopped := ReadChunk(payloads, buffer + chunks[i], accepts, later.records);
      if stopped.Some? {
        return Outcome(payloads, stopped.value);
      }
      i := i + 1;
    }
    NothingReceived(payloads, accepts);
    outcome := Outcome(payloads, Disconnected);
  }

  lemma NothingReceived(payloads: seq<string>, accepts: string -> bool)
    ensures After(payloads, Process([], accepts)) == Outcome(payloads, Disconnected)
  {
    assert payloads + [] == payloads;
  }

  /** The inner loop: the records that one chunk completes. */
  method ReadChunk(before: seq<string>, received: seq<Byte>, accepts: string -> bool, ghost later: seq<seq<Byte>>)
    returns (payloads: seq<string>, buffer: seq<Byte>, stopped: Option<End>)
    ensures stopped.Some? ==>
              Outcome(payloads, stopped.value) == After(before, Process(Drain(received).records + later, accepts))
    ensures stopped.None? ==> buffer == Drain(received).rest
    ensures stopped.None? ==>
              After(before, Process(Drain(received).records + later, accepts)) ==
                  After(payloads, Process(later, accepts))
  {
    hide *;
    payloads, buffer := before, received;
    ghost var all := After(before, Process(Drain(received).records + later, accepts));
    var sep := FindSeparator(buffer);
    while sep.Some?
      invariant sep == FindSeparator(buffer)
      invariant Drain(buffer).rest == Drain(received).rest
      invariant all == After(payloads, Process(Drain(buffer).records + later, accepts))
      decreases |buffer|
    {
      var record := buffer[..sep.value.index];
      ReadOneRecord(payloads, buffer, accepts, later);
      buffer := buffer[sep.value.index + sep.value.len..];
      match ReadRecord(record, accepts) {
        case Stop => return payloads, buffer, Some(Finished);
        case Bad => return payloads, buffer, Some(Failed);
        case Skip =>
        case Payload(data) => payloads := payloads + [data];
      }
      sep := FindSeparator(buffer);
    }
    LastOfChunk(buffer, later);
    stopped := None;
  }

  lemma LastOfChunk(buffer: seq<Byte>, later: seq<seq<Byte>>)
    requires FindSeparator(buffer).None?
    ensures Drain(buffer) == Drained([], buffer) && Drain(buffer).records + later == later
  {
  }

  lemma ReadOneRecord(payloads: seq<string>, buffer: seq<Byte>, accepts: string -> bool, later: seq<seq<Byte>>)
    requires FindSeparator(buffer).Some?
    ensures var sep := FindSeparator(buffer).value;
            var rest := buffer[sep.index + sep.len..];
            && Drain(buffer).rest == Drain(rest).rest
            && After(payloads, Process(Drain(buffer).records + later, accepts)) ==
               match ReadRecord(buffer[..sep.index], accepts)
               case Stop => Outcome(payloads, Finished)
               case Bad => Outcome(payloads, Failed)
               case Skip => After(payloads, Process(Drain(rest).records + later, accepts))
               case Payload(data) => After(payloads + [data], Process(Drain(rest).records + later, accepts))
  {
    hide FindSeparator, ReadRecord, Drain, Process;
    var sep := FindSeparator(buffer).value;
    var record, rest := buffer[..sep.index], buffer[sep.index + sep.len..];
    DrainOfOne(buffer, later);
    ProcessOne(payloads, record, Drain(rest).records + later, accepts);
  }

  lemma DrainOfOne(buffer: seq<Byte>, later: seq<seq<Byte>>)
    requires FindSeparator(buffer).Some?
    ensures var sep := FindSeparator(buffer).value;
            var rest := Drain(buffer[sep.index + sep.len..]);
            Drain(buffer).rest == rest.rest && Drain(buffer).records + later ==
                [buffer[..sep.index]] + (rest.records + later)
  {
    hide FindSeparator;
  }

  lemma ProcessOne(payloads: seq<string>, record: seq<Byte>, records: seq<seq<Byte>>, accepts: string -> bool)
    ensures After(payloads, Process([record] + records, accepts)) ==
            match ReadRecord(record, accepts)
            case Stop => Outcome(payloads, Finished)
            case Bad => Outcome(payloads, Failed)
            case Skip => After(payloads, Process(records, accepts))
            case Payload(data) => After(payloads + [data], Process(records, accepts))
  {
    hide ReadRecord;
    assert ([record] + records)[1..] == records && payloads + [] == payloads;
    if ReadRecord(record, accepts).Payload? {
      var data, p := ReadRecord(record, accepts).data, Process(records, accepts).payloads;
      assert payloads + ([data] + p) == payloads + [data] + p;
    }
  }

  /** With one kind of line end, what is handed on does not depend on how the bytes arrive. */
  lemma OutcomeIgnoresChunking(chunks: seq<seq<Byte>>, accepts: string -> bool)
    requires OnlyLf(Concat(chunks)) || OnlyCrlf(Concat(chunks))
    ensures Process(DrainChunks([], chunks).records, accepts) == Process(Drain(Concat(chunks)).records, accepts)
  {
    OneLineEndSuffices(Concat(chunks));
    ChunkIndependenceIffCutsAtFirstBlankLine(Concat(chunks));
  }

  /** Mixed line ends do depend on it. */
  lemma MixedLineEndsDependOnChunking()
    ensures var s := [0x61, 0x0A, 0x0A, 0x62, 0x0D, 0x0A, 0x0D, 0x0A]; !CutsAtFirstBlankLine(s)
  {
    var s: seq<Byte> := [0x61, 0x0A, 0x0A, 0x62, 0x0D, 0x0A, 0x0D, 0x0A];
    assert s[4..8] == CRLFCRLF && At(s, CRLFCRLF, 4);
    assert s[1..3] == LFLF && At(s, LFLF, 1);
    assert s[0..4][0] == 0x61 && s[1..5][0] == 0x0A && s[2..6][0] == 0x0A && s[3..7][0] == 0x62;
    assert FindSeparator(s) == Some(Separator(4, 4));
  }

  // ----- From a provider's events to the payloads -----

  function ToScalars(s: string): (text: seq<Scalar>)
    ensures |text| == |s|
  {
    seq(|s|, i requires 0 <= i < |s| => s[i] as int)
  }

  function EncodeText(s: string): seq<Byte> {
    EncodeAll(ToScalars(s))
  }

  lemma {:induction false} EncodeConcat(a: seq<Scalar>, b: seq<Scalar>)
    ensures EncodeAll(a + b) == EncodeAll(a) + EncodeAll(b)
  {
    hide Encode;
    if a == [] {
      assert a + b == b;
    } else {
      assert (a + b)[1..] == a[1..] + b;
      EncodeConcat(a[1..], b);
    }
  }

  lemma EncodeTextConcat(a: string, b: string)
    ensures EncodeText(a + b) == EncodeText(a) + EncodeText(b)
  {
    hide EncodeAll;
    EncodeConcat(ToScalars(a), ToScalars(b));
    assert ToScalars(a + b) == ToScalars(a) + ToScalars(b);
  }

  predicate IsLineEnd(eol: string) {
    eol == "\n" || eol == "\r\n"
  }

  /** An event has one or more data fields, each on a line of its own. */
  predicate IsEvent(values: seq<string>) {
    values != [] && forall i :: 0 <= i < |values| ==> '\n' !in values[i] && '\r' !in values[i]
  }

  function RecordText(values: seq<string>, eol: string): string {
    if values == [] then ""
    else "data:" + values[0] + if |values| == 1 then "" else eol + RecordText(values[1..], eol)
  }

  function EventBytes(values: seq<string>, eol: string): seq<Byte> {
    EncodeText(RecordText(values, eol)) + (EncodeText(eol) + EncodeText(eol))
  }

  ghost predicate AreEvents(events: seq<seq<string>>) {
    forall i :: 0 <= i < |events| ==> IsEvent(events[i])
  }

  const DONE: seq<string> := [" [DONE]"]

  /** The events, and the one that ends the stream. */
  function StreamBytes(events: seq<seq<string>>, eol: string): seq<Byte> {
    if events == [] then EventBytes(DONE, eol) else EventBytes(events[0], eol) + StreamBytes(events[1..], eol)
  }

  /** The value of a field as section 9.2.6 has it: one space in front does not belong to it. */
  function StandardValue(value: string): string {
    if " " <= value then value[1..] else value
  }

  function StandardValues(values: seq<string>): seq<string> {
    if values == [] then [] else [StandardValue(values[0])] + StandardValues(values[1..])
  }

  function TrimmedValues(values: seq<string>): seq<string> {
    if values == [] then [] else [TrimStart(values[0])] + TrimmedValues(values[1..])
  }

  /** What the provider sends, and what is read. */
  function Sent(values: seq<string>): string {
    JoinLines(StandardValues(values))
  }

  function Received(values: seq<string>): string {
    JoinLines(TrimmedValues(values))
  }

  ghost predicate StartsWithSpace(value: string) {
    value != "" && IsWhiteSpace(value[0])
  }

  /** No value starts with white space behind the one space that the standard removes. */
  ghost predicate IsUnspaced(values: seq<string>) {
    forall i :: 0 <= i < |values| ==> !StartsWithSpace(StandardValue(values[i]))
  }

  lemma {:induction false} TrimStartIsIdentityIff(s: string)
    ensures TrimStart(s) == s <==> !StartsWithSpace(s)
  {
    hide IsWhiteSpace;
  }

  lemma TrimmedIsShorter(value: string)
    ensures |TrimStart(value)| <= |StandardValue(value)|
    ensures |TrimStart(value)| == |StandardValue(value)| <==> !StartsWithSpace(StandardValue(value))
    ensures !StartsWithSpace(StandardValue(value)) ==> TrimStart(value) == StandardValue(value)
  {
    TrimStartIsIdentityIff(StandardValue(value));
    assert IsWhiteSpace(" "[0]);
    hide IsWhiteSpace;
    if " " <= value {
      assert value[0] == " "[0] && TrimStart(value) == TrimStart(value[1..]);
    }
  }

  lemma {:induction false} ReceivedIsShorter(values: seq<string>)
    ensures |Received(values)| <= |Sent(values)|
    ensures |Received(values)| == |Sent(values)| <==> IsUnspaced(values)
    ensures IsUnspaced(values) ==> Received(values) == Sent(values)
    ensures |TrimmedValues(values)| == |StandardValues(values)| == |values|
  {
    hide StandardValue, TrimStart, StartsWithSpace;
    if values == [] {
    } else {
      TrimmedIsShorter(values[0]);
      ReceivedIsShorter(values[1..]);
      JoinHead(TrimStart(values[0]), TrimmedValues(values[1..]));
      JoinHead(StandardValue(values[0]), StandardValues(values[1..]));
      UnspacedHead(values);
    }
  }

  lemma UnspacedHead(values: seq<string>)
    requires values != []
    ensures IsUnspaced(values) <==> !StartsWithSpace(StandardValue(values[0])) && IsUnspaced(values[1..])
  {
    hide StandardValue, StartsWithSpace;
    if !StartsWithSpace(StandardValue(values[0])) && IsUnspaced(values[1..]) {
      forall i | 0 <= i < |values| ensures !StartsWithSpace(StandardValue(values[i])) {
        assert i > 0 ==> values[i] == values[1..][i - 1];
      }
    }
  }

  lemma JoinHead(first: string, rest: seq<string>)
    ensures JoinLines([first] + rest) == if rest == [] then first else first + "\n" + JoinLines(rest)
  {
    assert ([first] + rest)[1..] == rest;
  }

  /** What is read is what the standard reads exactly if no value has more white space in front. */
  lemma ReceivedIsSentIff(values: seq<string>)
    ensures Received(values) == Sent(values) <==> IsUnspaced(values)
  {
    hide Received, Sent, IsUnspaced;
    ReceivedIsShorter(values);
  }

  /** One further space is lost. */
  lemma SpaceIsLost()
    ensures Sent(["  x"]) == " x" && Received(["  x"]) == "x"
  {
    hide *;
    OneValue("  x");
    TwoSpaces();
  }

  lemma OneValue(value: string)
    ensures Sent([value]) == StandardValue(value) && Received([value]) == TrimStart(value)
  {
    hide StandardValue, TrimStart;
    var values := [value];
    assert values[1..] == [];
    assert StandardValues(values) == [StandardValue(value)] + StandardValues([]);
    assert TrimmedValues(values) == [TrimStart(value)] + TrimmedValues([]);
    JoinHead(StandardValue(value), []);
    JoinHead(TrimStart(value), []);
  }

  lemma TwoSpaces()
    ensures StandardValue("  x") == " x" && TrimStart("  x") == "x"
  {
    assert IsWhiteSpace(' ') && !IsWhiteSpace('x');
    hide IsWhiteSpace;
    assert "  x"[1..] == " x" && " x"[1..] == "x";
    assert TrimStart("x") == "x";
    assert TrimStart(" x") == "x";
  }

  lemma {:induction false} NoLineEndsInText(text: seq<Scalar>)
    requires 0x0A !in text && 0x0D !in text
    ensures 0x0A !in EncodeAll(text) && 0x0D !in EncodeAll(text)
  {
    if text == [] {
    } else {
      assert text[0] in text;
      NoLineEndInEncoding(text[0]);
      hide Encode;
      NoLineEndsInText(text[1..]);
    }
  }

  lemma NoLineEndInEncoding(v: Scalar)
    requires v != 0x0A && v != 0x0D
    ensures 0x0A !in Encode(v) && 0x0D !in Encode(v)
  {
  }

  lemma NoLineEndsInData(data: string)
    requires '\n' !in data && '\r' !in data
    ensures 0x0A !in EncodeText("data:" + data) && 0x0D !in EncodeText("data:" + data)
    ensures EncodeText("data:" + data) != [] && EncodeText("data:" + data)[0] == 0x64
  {
    var s := "data:" + data;
    var text := ToScalars(s);
    forall i | 0 <= i < |text| ensures text[i] != 0x0A && text[i] != 0x0D {
      assert i >= 5 ==> s[i] in data;
      assert text[i] as char == s[i];
    }
    NoLineEndsInText(text);
    assert s[0] == 'd' && text[0] == 0x64;
  }

  lemma EncodedLineEnd(eol: string)
    requires IsLineEnd(eol)
    ensures EncodeText(eol) == if eol == "\n" then [0x0A] else [0x0D, 0x0A]
  {
    if eol == "\n" {
      assert ToScalars(eol) == [0x0A] && ToScalars(eol)[1..] == [];
    } else {
      var lf: seq<Scalar> := [0x0A];
      assert ToScalars(eol) == [0x0D, 0x0A] && ToScalars(eol)[1..] == lf && lf[1..] == [];
      assert EncodeAll(lf) == [0x0A];
    }
  }

  /** Lines that each start with a letter: no line end is followed by another one. */
  ghost predicate HasNoBlankLine(record: seq<Byte>) {
    && record != [] && record[0] == 0x64
    && record[|record| - 1] != 0x0A && record[|record| - 1] != 0x0D
    && forall j :: 0 <= j < |record| && record[j] == 0x0A ==> j + 1 < |record| && record[j + 1] == 0x64
  }

  ghost predicate UsesLineEnd(s: seq<Byte>, eol: string) {
    if eol == "\n" then OnlyLf(s) else OnlyCrlf(s)
  }

  lemma OneMoreLine(line: seq<Byte>, end: seq<Byte>, eol: string, rest: seq<Byte>)
    requires 0x0A !in line && 0x0D !in line && line != [] && line[0] == 0x64
    requires IsLineEnd(eol) && end == (if eol == "\n" then [0x0A] else [0x0D, 0x0A])
    requires HasNoBlankLine(rest) && UsesLineEnd(rest, eol)
    ensures HasNoBlankLine(line + (end + rest)) && UsesLineEnd(line + (end + rest), eol)
  {
    var s := line + (end + rest);
    assert forall j :: 0 <= j < |line| ==> line[j] in line;
    assert s[|s| - 1] == rest[|rest| - 1];
    forall j | 0 <= j < |s| && s[j] == 0x0A ensures j + 1 < |s| && s[j + 1] == 0x64 {
      if j >= |line| + |end| {
        assert s[j] == rest[j - |line| - |end|];
      } else {
        assert j == |line| + |end| - 1;
      }
    }
  }

  lemma {:induction false} RecordShape(values: seq<string>, eol: string)
    requires IsEvent(values) && IsLineEnd(eol)
    ensures var record := EncodeText(RecordText(values, eol)); HasNoBlankLine(record) && UsesLineEnd(record, eol)
  {
    hide EncodeText;
    var line := "data:" + values[0];
    var front := EncodeText(line);
    NoLineEndsInData(values[0]);
    assert forall j :: 0 <= j < |front| ==> front[j] in front;
    if |values| == 1 {
      assert RecordText(values, eol) == line;
    } else {
      var rest := RecordText(values[1..], eol);
      RecordShape(values[1..], eol);
      assert RecordText(values, eol) == line + (eol + rest);
      EncodeTextConcat(line, eol + rest);
      EncodeTextConcat(eol, rest);
      EncodedLineEnd(eol);
      hide HasNoBlankLine, UsesLineEnd;
      OneMoreLine(front, EncodeText(eol), eol, EncodeText(rest));
    }
  }

  lemma FirstSeparator(front: seq<Byte>, end: seq<Byte>, rest: seq<Byte>)
    requires HasNoBlankLine(front) && (end == [0x0A] || end == [0x0D, 0x0A])
    requires end == [0x0A] ==> 0x0D !in front && 0x0D !in rest
    ensures FindSeparator(front + (end + end) + rest) == Some(Separator(|front|, |end + end|))
  {
    var s := front + (end + end) + rest;
    assert s[|front|..|front| + |end + end|] == end + end;
    if end == [0x0A] {
      assert end + end == LFLF && At(s, LFLF, |front|);
      forall j | 0 <= j ensures !At(s, CRLFCRLF, j) {
        assert j + 4 <= |s| ==> s[j..j + 4][0] == s[j] && s[j] in s;
      }
      forall j | 0 <= j < |front| ensures !At(s, LFLF, j) {
        assert j + 2 <= |s| ==> s[j..j + 2][0] == front[j] && s[j..j + 2][1] == s[j + 1];
      }
    } else {
      assert end + end == CRLFCRLF && At(s, CRLFCRLF, |front|);
      forall j | 0 <= j < |front| ensures !At(s, CRLFCRLF, j) {
        if j + 4 <= |s| {
          assert s[j..j + 4][0] == front[j] && s[j..j + 4][1] == s[j + 1] && s[j..j + 4][2] == s[j + 2];
          assert j + 1 < |front| ==> s[j + 1] == front[j + 1];
          assert j + 2 < |front| ==> s[j + 2] == front[j + 2];
        }
      }
    }
  }

  // ----- One event -----

  function Fields(values: seq<string>): seq<string> {
    if values == [] then [] else ["data:" + values[0]] + Fields(values[1..])
  }

  lemma LastLine(s: string)
    requires s != "" && '\n' !in s
    ensures Lines(s) == [s]
  {
    forall j | 0 <= j ensures !OccursAt(s, "\n", j) {
      assert j + 1 <= |s| ==> s[j..j + 1][0] == s[j] && s[j] in s;
    }
    assert Find(s, "\n").None?;
  }

  lemma FirstLine(line: string, eol: string, rest: string)
    requires IsLineEnd(eol) && '\n' !in line && '\r' !in line
    ensures Lines(line + (eol + rest)) == [line] + Lines(rest)
  {
    var s := line + (eol + rest);
    NewlineFound(line, eol, rest);
    var n := |line| + |eol| - 1;
    hide Find, OccursAt;
    assert s[n + 1..] == rest;
    assert s[..n] == if eol == "\n" then line else line + "\r";
    FirstLineText(line, eol);
    assert Lines(s) == [WithoutCr(s[..n])] + Lines(rest);
  }

  lemma FirstLineText(line: string, eol: string)
    requires IsLineEnd(eol) && '\r' !in line
    ensures WithoutCr(if eol == "\n" then line else line + "\r") == line
  {
    assert line != "" ==> line[|line| - 1] in line;
    assert (line + "\r")[..|line|] == line;
  }

  lemma NewlineFound(line: string, eol: string, rest: string)
    requires IsLineEnd(eol) && '\n' !in line
    ensures Find(line + (eol + rest), "\n") == Some(|line| + |eol| - 1)
  {
    var s := line + (eol + rest);
    var n := |line| + |eol| - 1;
    assert s[n..n + 1] == "\n" && OccursAt(s, "\n", n);
    forall j | 0 <= j < n ensures !OccursAt(s, "\n", j) {
      assert s[j..j + 1][0] == s[j] && (j < |line| ==> s[j] in line);
    }
    hide Find;
  }

  lemma {:induction false} LinesOfRecord(values: seq<string>, eol: string)
    requires IsEvent(values) && IsLineEnd(eol)
    ensures Lines(RecordText(values, eol)) == Fields(values)
  {
    hide Lines;
    var line := "data:" + values[0];
    if |values| == 1 {
      LastLine(line);
      assert RecordText(values, eol) == line && values[1..] == [];
    } else {
      LinesOfRecord(values[1..], eol);
      FirstLine(line, eol, RecordText(values[1..], eol));
      assert RecordText(values, eol) == line + (eol + RecordText(values[1..], eol));
    }
  }

  lemma {:induction false} DataOfFields(values: seq<string>)
    ensures DataLines(Fields(values)) == TrimmedValues(values)
  {
    hide TrimStart;
    if values == [] {
    } else {
      var field := "data:" + values[0];
      assert field[5..] == values[0] && field[..5] == "data:";
      assert ([field] + Fields(values[1..]))[1..] == Fields(values[1..]);
      DataOfFields(values[1..]);
    }
  }

  /** One event, whatever its values. */
  lemma EventIsRead(values: seq<string>, eol: string, accepts: string -> bool)
    requires IsEvent(values) && IsLineEnd(eol)
    ensures ReadRecord(EncodeText(RecordText(values, eol)), accepts) == ReadData(Received(values), accepts)
  {
    hide EncodeAll, Lines, DataLines, RecordText, JoinLines, FromUtf8;
    var s := RecordText(values, eol);
    EncodedTextIsValid(ToScalars(s));
    assert ToString(ToScalars(s)) == s;
    LinesOfRecord(values, eol);
    DataOfFields(values);
  }

  // ----- A stream of events -----

  /** What the events of a finished stream amount to. */
  function Deliver(events: seq<seq<string>>, accepts: string -> bool): Outcome {
    if events == [] then Outcome([], Finished)
    else
      match ReadData(Received(events[0]), accepts)
      case Stop => Outcome([], Finished)
      case Bad => Outcome([], Failed)
      case Skip => Deliver(events[1..], accepts)
      case Payload(data) =>
        var later := Deliver(events[1..], accepts);
        Outcome([data] + later.payloads, later.end)
  }

  lemma DoneIsEvent()
    ensures IsEvent(DONE) && Received(DONE) == "[DONE]"
  {
    hide Received, TrimStart, IsWhiteSpace;
    OneValue(" [DONE]");
    assert " " + "[DONE]" == " [DONE]";
    NoSpaceInDone();
    SpaceInFront("[DONE]");
  }

  lemma NoSpaceInDone()
    ensures !IsWhiteSpace("[DONE]"[0])
  {}

  lemma SpaceInFront(text: string)
    requires text != "" && !IsWhiteSpace(text[0])
    ensures TrimStart(" " + text) == text
  {
    assert IsWhiteSpace(' ');
    hide IsWhiteSpace;
    assert (" " + text)[1..] == text;
  }

  lemma {:induction false} StreamShape(events: seq<seq<string>>, eol: string)
    requires AreEvents(events) && IsLineEnd(eol)
    ensures UsesLineEnd(StreamBytes(events, eol), eol)
  {
    hide EncodeText, IsEvent;
    DoneIsEvent();
    EncodedLineEnd(eol);
    if events == [] {
      EventShape(DONE, eol, []);
      assert EventBytes(DONE, eol) + [] == EventBytes(DONE, eol);
    } else {
      StreamShape(events[1..], eol);
      EventShape(events[0], eol, StreamBytes(events[1..], eol));
    }
  }

  lemma EventShape(values: seq<string>, eol: string, rest: seq<Byte>)
    requires IsEvent(values) && IsLineEnd(eol) && UsesLineEnd(rest, eol)
    ensures UsesLineEnd(EventBytes(values, eol) + rest, eol)
  {
    hide EncodeText, RecordText, IsEvent;
    RecordShape(values, eol);
    EncodedLineEnd(eol);
  }

  lemma DrainOneEvent(values: seq<string>, eol: string, rest: seq<Byte>)
    requires IsEvent(values) && IsLineEnd(eol) && UsesLineEnd(rest, eol)
    ensures var records := Drain(EventBytes(values, eol) + rest).records;
            records == [EncodeText(RecordText(values, eol))] + Drain(rest).records
  {
    hide EncodeText, FindSeparator, RecordText, IsEvent, HasNoBlankLine;
    var front, end := EncodeText(RecordText(values, eol)), EncodeText(eol);
    var s := front + (end + end) + rest;
    RecordShape(values, eol);
    EncodedLineEnd(eol);
    FirstSeparator(front, end, rest);
    assert s[..|front|] == front && s[|front| + |end + end|..] == rest;
  }

  lemma {:induction false} StreamIsProcessed(events: seq<seq<string>>, eol: string, accepts: string -> bool)
    requires AreEvents(events) && IsLineEnd(eol)
    ensures Process(Drain(StreamBytes(events, eol)).records, accepts) == Deliver(events, accepts)
  {
    hide EncodeText, RecordText, ReadRecord, EventBytes, Drain, Process, IsEvent, Received, IsLineEnd, UsesLineEnd;
    if events == [] {
      DoneIsEvent();
      NoBytes(eol);
      OneEventProcessed(DONE, eol, [], accepts);
      assert EventBytes(DONE, eol) + [] == EventBytes(DONE, eol);
    } else {
      StreamShape(events[1..], eol);
      OneEventProcessed(events[0], eol, StreamBytes(events[1..], eol), accepts);
      StreamIsProcessed(events[1..], eol, accepts);
      if ReadData(Received(events[0]), accepts).Payload? {
        assert [] + [ReadData(Received(events[0]), accepts).data] == [ReadData(Received(events[0]), accepts).data];
      }
    }
  }

  lemma NoBytes(eol: string)
    ensures UsesLineEnd([], eol)
  {}

  lemma OneEventProcessed(values: seq<string>, eol: string, rest: seq<Byte>, accepts: string -> bool)
    requires IsEvent(values) && IsLineEnd(eol) && UsesLineEnd(rest, eol)
    ensures Process(Drain(EventBytes(values, eol) + rest).records, accepts) ==
            match ReadData(Received(values), accepts)
            case Stop => Outcome([], Finished)
            case Bad => Outcome([], Failed)
            case Skip => Process(Drain(rest).records, accepts)
            case Payload(data) => After([data], Process(Drain(rest).records, accepts))
  {
    hide EncodeText, RecordText, ReadRecord, EventBytes, Drain, Process, IsEvent, Received, IsLineEnd, UsesLineEnd;
    DrainOneEvent(values, eol, rest);
    EventIsRead(values, eol, accepts);
    ProcessOne([], EncodeText(RecordText(values, eol)), Drain(rest).records, accepts);
    NothingBefore(Process(Drain(EventBytes(values, eol) + rest).records, accepts));
    NothingBefore(Process(Drain(rest).records, accepts));
    if ReadData(Received(values), accepts).Payload? {
      assert [] + [ReadData(Received(values), accepts).data] == [ReadData(Received(values), accepts).data];
    }
  }

  lemma NothingBefore(outcome: Outcome)
    ensures After([], outcome) == outcome
  {
    assert [] + outcome.payloads == outcome.payloads;
  }

  /** However the bytes are cut, the events of a stream amount to what `Deliver` says. */
  lemma EventsAreDelivered(events: seq<seq<string>>, eol: string, chunks: seq<seq<Byte>>, accepts: string -> bool)
    requires AreEvents(events) && IsLineEnd(eol) && Concat(chunks) == StreamBytes(events, eol)
    ensures Process(DrainChunks([], chunks).records, accepts) == Deliver(events, accepts)
  {
    hide StreamBytes, Process, Drain, Deliver, OnlyLf, OnlyCrlf, AreEvents;
    StreamShape(events, eol);
    OutcomeIgnoresChunking(chunks, accepts);
    StreamIsProcessed(events, eol, accepts);
  }

  function AllSent(events: seq<seq<string>>): seq<string> {
    if events == [] then [] else [Sent(events[0])] + AllSent(events[1..])
  }

  ghost predicate AreUnspaced(events: seq<seq<string>>) {
    forall i :: 0 <= i < |events| ==> IsUnspaced(events[i])
  }

  lemma {:induction false} DeliveredIff(events: seq<seq<string>>, accepts: string -> bool)
    requires forall i :: 0 <= i < |events| ==> ReadData(Sent(events[i]), accepts).Payload?
    ensures |Deliver(events, accepts).payloads| <= |events| == |AllSent(events)|
    ensures Deliver(events, accepts) == Outcome(AllSent(events), Finished) <==> AreUnspaced(events)
  {
    hide Sent, Received, IsUnspaced;
    if events == [] {
    } else {
      var rest := events[1..];
      DeliveredIff(rest, accepts);
      ReceivedIsSentIff(events[0]);
      assert AreUnspaced(events) <==> IsUnspaced(events[0]) && AreUnspaced(rest) by {
        assert forall i :: 0 < i < |events| ==> events[i] == rest[i - 1];
        assert forall i :: 0 <= i < |rest| ==> rest[i] == events[i + 1];
      }
      assert ([Sent(events[0])] + AllSent(rest))[1..] == AllSent(rest);
      if ReadData(Received(events[0]), accepts).Payload? {
        var later := Deliver(rest, accepts).payloads;
        assert ([Received(events[0])] + later)[1..] == later;
      }
    }
  }

  /**
    However the bytes are cut, every payload a provider sends arrives, unchanged and in order, exactly
    if none has white space at the start of a line.
   */
  lemma PayloadsArriveIff(events: seq<seq<string>>, eol: string, chunks: seq<seq<Byte>>, accepts: string -> bool)
    requires AreEvents(events) && IsLineEnd(eol) && Concat(chunks) == StreamBytes(events, eol)
    requires forall i :: 0 <= i < |events| ==> ReadData(Sent(events[i]), accepts).Payload?
    ensures Process(DrainChunks([], chunks).records, accepts) == Outcome(AllSent(events), Finished) <==>
            AreUnspaced(events)
  {
    hide StreamBytes, Process, DrainChunks, Deliver, ReadData, AreEvents, AreUnspaced, AllSent, Concat, IsLineEnd;
    EventsAreDelivered(events, eol, chunks, accepts);
    DeliveredIff(events, accepts);
  }
}
