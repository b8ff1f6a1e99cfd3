# A verified model of an SSH client's core

The program is a desktop SSH client: a Rust backend that holds terminal sessions and moves files
over SFTP, and a TypeScript agent that lets a language model run commands on the remote host under
the user's control. This project models the parts whose correctness does not show in any single
function, and proves what they promise together.

- **Streams.** Bytes and text arrive in arbitrary chunks. `Utf8` decodes them, `Sentinel` removes
  the agent's markers, `ExitCode` finds a command's exit code in a bounded buffer, `Sse` reads a
  provider's events, `JsonProjection` shows an answer while it is still being written, and
  `JsonRepair` mends JSON. Each is compared with a definition on the whole text. `JsonText` holds
  the JSON syntax the last two share.
- **Shell text.** `ShellLexer` and `Segments` hold the one quote automaton behind the splitting of
  commands, their tokens, the key under which an approval is remembered, the risk of joined
  commands, and the `cd` prefix. `ShellWords` compares it with words as a shell user writes them.
  `GuardSegments` is the backend's own splitter.
- **Files.** `StoreFile` (the settings file and its backup), `ItemPath`, `DeleteRoots` and
  `RemoteDelete` (the check of a path, batch deletion), `CommitSwap` (replacing a destination by renames)
  and `ResumeTransfer` and `ResumeLife` (checkpoints and continuation, and how runs end) treat every
  operation as something that can fail or be cut off.
- **State shared by several tasks.** `TransferRegistry` and `TransferView` (transfer records, and the
  window that shows them), `SessionRegistry` (terminal sessions by generation) and `AgentLoop` (the
  agent's rounds, approvals, pauses and gates) are machines whose steps interleave in any order.
  `TransferLife` and `AgentTask` follow one transfer and one task through them from beginning to end.

Code that changes things step by step is written as classes and loops, each tied to a function by its
contract; the properties are proved about those functions. `Text` holds what the modules share.

What happens outside the modelled code is a parameter or a free choice: the fate of each file
operation (`CommitSwap`, `RemoteDelete`, `StoreFile`), what a transfer run meets (`ResumeTransfer`), the way a capture ends
(`ExitCode`), the turn that comes next (`AgentLoop`), the step that is taken next (`TransferRegistry`,
`SessionRegistry`), the tables of the risk rules (`Segments`), the JSON reader (`Sse`, `StoreFile`) and
the analysis of a command (`AgentLoop`).

## Where the code falls short of what one would expect

Each of these is a lemma or a contract below. "Exactly" stands where the condition is proved in both
directions, for all inputs, and "only" where it is necessary; the rest are single inputs that show the effect.

- The marker stripper gives the same text for every chunking exactly when each artifact line is held
  from its first character on and the text behind the last newline is settled: no chunking releases a
  part of it behind which the rest vanishes, or none releases any of it (`Sentinel.ChunkIndependenceIff`;
  for newline-ended streams `Sentinel.ChunkIndependenceIffArtifactsHeld`). A stream that fails it:
  `Sentinel.UnfinishedTailDependsOnChunking`.
- An exit code is final exactly when its line has ended (`ExitCode.AnswerIsFinalIffTerminated`), and the
  capture loop returns the printed code exactly when no chunk ends between two of its digits, as long as
  trimming spares the marker (`ExitCode.CaptureIsCompleteIff`). A code that is misread:
  `ExitCode.SplitDigitsAreMisread`.
- Event records depend on the chunking exactly when a CRLF blank line is preferred to an LF one that
  stands before it (`Sse.ChunkIndependenceIffCutsAtFirstBlankLine`).
- The event reader trims all white space in front of the data, where section 9.2.6 of the HTML Standard
  removes one space. A payload arrives as it was sent exactly when none of its lines starts with white
  space (`Sse.ReceivedIsSentIff`, for whole streams `Sse.PayloadsArriveIff`); one further space is lost
  (`Sse.SpaceIsLost`).
- The two splitters of commands take different characters for white space. They find the same segments
  exactly when neither leaves at an edge of a segment what only the other removes
  (`GuardSegments.SplittersAgreeIff`). A command that differs: `GuardSegments.DisputedCharacterAlone`.
- A path is checked without the white space around it and used with it; that does harm exactly for an
  absolute path behind white space that goes above its start (`ItemPath.UsedPathLeadsBelowIff`,
  `ItemPath.SpaceInFront`).
- Stripping trailing commas a second time finds something exactly when two commas stand in a row before
  a closing bracket (`JsonRepair.StripIsIdempotentIff`, `JsonRepair.StripIsNotIdempotent`).
- A write loses nothing exactly when the stored text is not JSON of a foreign shape, which replaces a
  good backup (`StoreFile.WriteLosesNothingIff`).
- A deletion is reported as failed although all is gone when the reply to the removal of its root is
  lost: the second pass no longer finds the root. It succeeds exactly if one of the two passes finds it
  and has every request answered (`RemoteDelete.DeleteItem`).
- A batch deletes one path below another exactly when the lower one sorts before the upper one, which
  needs a doubled slash at the upper one's end, and nothing else takes it away
  (`DeleteRoots.NestedRootsIff`, `DeleteRoots.AncestorSortsFirst`).
- A commit loses both versions after exactly one pattern of lost replies. The old bytes are lost by that
  pattern only where renames refuse existing targets; where they replace them, also by a rename whose
  reply is lost after the destination was not seen, and by nothing else (`CommitSwap.CommitRemoteTemp`,
  `CommitSwap.CommitLocalTemp`, `CommitSwap.LossExample`).
- A run can be followed by a splice exactly when the checkpoint it leaves in place misleads a source: it
  would be trusted for that source, and confirms a position at which the source being copied has another
  byte (`ResumeTransfer.NoSpliceIff`, carried through by `ResumeTransfer.MisleadingCheckpointSplices`).
  Only a checkpoint that was not read, not compared and not removed, or an upload's without fingerprints
  can (`ResumeTransfer.NoForeignIsHarmless`).
- A transfer that is cut off is continued exactly if nothing was copied since its last checkpoint;
  otherwise what was copied is thrown away, although a checkpoint covers most of it
  (`ResumeLife.CutOffRunContinuesIff`). A cancelled download continues where it was
  (`ResumeLife.CanceledDownloadContinues`).
- A terminal transfer stays so exactly as long as none of five kinds of changes is made to it, and the window shows the
  registry's state for every order of arrival exactly when no attempt ends before its last change
  (`TransferRegistry.StaysTerminalIff`, `TransferView.ConvergesIff`, `TransferView.CancelDuringCheck`).
- The closing event of a session misleads exactly when something is stored under its id by then, and a
  shell at work is never told to stop exactly when it was superseded (`SessionRegistry.CloseMisleadsIff`,
  `SessionRegistry.OrphanIffSuperseded`).
- A paused agent sends nothing before the user goes on exactly when no command is past the gate and the
  open round can come to none (`AgentLoop.PauseHoldsIff`); whether it is paused plays no part in any one
  turn (`AgentLoop.SendsIff`, `AgentLoop.PauseIsLost`, `AgentLoop.PausedRoundStillSends`).
- Between the agent's gate and the sending of a command nothing is checked again: it would be blocked by
  then exactly if read-only mode was switched on since (`AgentLoop.GateIsNotRepeated`), and a new task's
  connection may get it (`AgentLoop.CommandGoesToTheNewTask`).

## Model

| member | source | states |
|---|---|---|
| Utf8.ClassifyMeetsTheStandard | src-tauri/src/services/ssh_service.rs:813-844 | what stops the decoder is what the standards say: a valid head is the encoding of one scalar value, an incomplete tail is a proper beginning of some encoding, and an invalid head is the longest part that could begin one (section 4 of RFC 3629, section 3.9 of the Unicode Standard) |
| Utf8.FromUtf8Encodes | src-tauri/src/services/ssh_service.rs:813-824 | the text decoded so far encodes to exactly the bytes up to the stop |
| Utf8.ReleasedAppend | src-tauri/src/services/ssh_service.rs:797-840 | decoding may stop anywhere: continuing from the held bytes gives what decoding all bytes gives |
| Utf8.Utf8ChunkDecoder.Push | src-tauri/src/services/ssh_service.rs:803-840 | output and held bytes are those of the held and the new bytes together, and at most the proper beginning of one character is held |
| Utf8.Utf8ChunkDecoder.Finish | src-tauri/src/services/ssh_service.rs:842-849 | an unfinished tail becomes what one-shot lossy decoding makes of it |
| Utf8.DecodeStream | src-tauri/src/services/ssh_service.rs:784-849 | for every way of cutting a byte stream the outputs add up to the one-shot lossy decoding of the whole |
| Utf8.DecodeEncode | src-tauri/src/services/ssh_service.rs:784-849 | encoded text comes back unchanged, every scalar value included |
| Utf8.EncodeDecode | src-tauri/src/services/ssh_service.rs:784-849 | bytes that decode without error are the encoding of their decoding |
| Sentinel.SentinelStripper.Feed | src-tauri/src/services/sentinel.rs:11-14 | output and buffer are the lines of the buffered and the new text without artifact lines, and the tail if it must be held |
| Sentinel.SentinelStripper.Flush | src-tauri/src/services/sentinel.rs:16-18 | the last lines and the tail come out, unless the tail is an unfinished artifact; nothing stays buffered |
| Sentinel.SentinelStripper.DrainReady | src-tauri/src/services/sentinel.rs:20-48 | the draining loop computes the one-shot line filter of the whole buffer |
| Sentinel.StripChunks | src-tauri/src/services/sentinel.rs:10-49 | a chunked run is the run of the reference stripper |
| Sentinel.ChunkIndependenceIff | src-tauri/src/services/sentinel.rs:20-48 | every chunking of a stream shows the same, if and only if every artifact line is held from its first character on and the text behind the last newline is settled |
| Sentinel.TailsAgreeIff | src-tauri/src/services/sentinel.rs:33-48 | every chunking of an unfinished line shows the same, if and only if no release point leaves a rest that is held and dropped, or its start is the only release point |
| Sentinel.ChunkIndependenceIffArtifactsHeld | src-tauri/src/services/sentinel.rs:20-48 | over a newline-ended stream every chunking yields the stream without its artifact lines, if and only if every artifact line is held from its first character on |
| Sentinel.ArtifactAtLineStartIsHeld | src-tauri/src/services/sentinel.rs:102-134 | an artifact at the start of a line, after at most one carriage return, is held throughout, so the condition is met |
| Sentinel.WrapperEchoIsHeld | src-tauri/src/services/sentinel.rs:136-155 | the echo of the single-line wrapper is held throughout for every command without ");" |
| Sentinel.MultilineHelperIsHeld | src-tauri/src/services/sentinel.rs:55-64 | a command of several lines, or with a here-document, is sent as it is with one more line behind it, which the stripper holds from its first character on |
| Sentinel.UnfinishedEchoIsDroppedIff | src-tauri/src/services/sentinel.rs:157-171 | of an echo that is cut off at the end of the output, the tail is dropped exactly if its printing has begun |
| Sentinel.ArtifactFreePasses | src-tauri/src/services/sentinel.rs:20-48 | lines without artifacts pass unchanged, whatever follows them |
| Sentinel.ExchangeShowsOnlyOutput | src-tauri/src/services/sentinel.rs:51-64 | of the echoed wrapper, the output and the printed marker, exactly the output is shown, for every chunking |
| Sentinel.UnfinishedTailDependsOnChunking | src-tauri/src/services/sentinel.rs:33-39 | a stream with an unsettled tail: "a", "_" shows less than "a_" |
| ExitCode.ParseSentinel | src-tauri/src/services/sentinel.rs:71-89 | the loop over the markers returns the first marker that a colon and an i32 follow, with the text before it |
| ExitCode.SearchFindsMarker | src-tauri/src/services/sentinel.rs:71-89 | a code that is returned stands behind a marker that is really in the buffer |
| ExitCode.ReadsNumbersIff | src-tauri/src/services/sentinel.rs:77-84 | a number is read if and only if digits and nothing else follow the sign and it is from -2147483648 to 2147483647 |
| ExitCode.AnswerIsFinalIffTerminated | src-tauri/src/services/sentinel.rs:77-84 | an answer stays the same under every further input if and only if a line end follows its digits |
| ExitCode.PrintedCodeIsFound | src-tauri/src/services/sentinel.rs:71-89 | echoes of the wrapper are skipped; the printed code, any i32, is returned with the text before its marker, and finally |
| ExitCode.SplitDigitsAreMisread | src-tauri/src/services/sentinel.rs:77-84 | "12" is answered although "127" was printed |
| ExitCode.UnterminatedCodeIsRead | src-tauri/src/services/sentinel.rs:77-84 | a code at the end of the buffer is taken for complete |
| ExitCode.TrimExecBuffer | src-tauri/src/services/agent_service.rs:31-49 | the byte loop cuts at the first character boundary at or after the target, then behind the next newline if anything is left there |
| ExitCode.TrimmedBufferIsBounded | src-tauri/src/services/agent_service.rs:31-49 | what is kept is a suffix in whole characters of at most 1 MiB |
| ExitCode.TrimmingKeepsTheAnswer | src-tauri/src/services/agent_service.rs:31-49 | if a newline before the marker lies in the kept window, the trimmed buffer gives the same code and the rest of the output |
| ExitCode.AwaitMarker | src-tauri/src/services/agent_service.rs:271-334 | the capture loop returns at the first chunk after which the trimmed buffer has an answer; at another exit, by the prompt, the time, a cancellation or the end of the connection, it returns the captured text without the agent's own lines and no code |
| ExitCode.AwaitedIsCaptured | src-tauri/src/services/agent_service.rs:271-334 | the answer is that of the chunks that arrive before the first other exit |
| ExitCode.ExitShowsNoArtifact | src-tauri/src/services/agent_service.rs:276-334 | what another exit returns holds neither the marker nor the helper of the agent, in no line or part of one |
| ExitCode.CaptureIsSound | src-tauri/src/services/agent_service.rs:271-297 | whatever the chunks and the trimming, a code and an output that are returned stand in the stream, around a real marker |
| ExitCode.CaptureIsCompleteIff | src-tauri/src/services/agent_service.rs:271-297 | as long as trimming spares the marker, the loop returns the printed code and the end of what was printed before it, for every way of cutting the stream, if and only if no chunk ends between two digits of the code |
| ShellLexer.TokenizeSegment | src/renderer/ai/analyze-command-risk.ts:293-330 | the loop yields the tokens of the quote automaton |
| ShellLexer.IsEscapedByBackslashes | src/renderer/assistant/risk-approval-memory.ts:23-30 | the backward count says whether an odd number of backslashes stands before the index |
| ShellLexer.RunOfBackslashesEscapesIff | src/renderer/assistant/risk-approval-memory.ts:23-30 | a run of backslashes escapes what follows it exactly if their number is odd |
| ShellLexer.CommandDecisionKey | src/renderer/assistant/risk-approval-memory.ts:42-99 | the key is the list of tokens joined by single spaces, so the backward parity test agrees with the forward escape flag |
| ShellLexer.TokensOfKey | src/renderer/assistant/risk-approval-memory.ts:42-99 | splitting a key again gives the tokens back |
| ShellLexer.KeyIsIdempotent | src/renderer/assistant/risk-approval-memory.ts:42-99 | the key of a key is that key |
| ShellLexer.SameKeyIffSameTokens | src/renderer/assistant/risk-approval-memory.ts:32-41 | two commands share a key exactly when their token lists are equal |
| ShellLexer.ApprovalMemory.Remember | src/renderer/assistant/risk-approval-memory.ts:107-116 | one entry is written, none for critical risk or for a command without tokens |
| ShellLexer.ApprovalMemory.Recall | src/renderer/assistant/risk-approval-memory.ts:118-127 | the decision stored under the same tokens, never one for critical risk |
| ShellWords.WordsAreTokens | src/renderer/ai/analyze-command-risk.ts:293-330 | words written with plain and escaped characters and single and double quotes (section 2.2 of the POSIX Shell Command Language), with blanks between them, are read back as exactly these tokens |
| ShellWords.KeyOfWords | src/renderer/assistant/risk-approval-memory.ts:42-99 | the approval key of such a command is the command itself, and two of them share a key exactly if they have the same words |
| ShellWords.WordsAreOneSegment | src/renderer/ai/analyze-command-risk.ts:201-278 | a command of words without an operator of its own is one segment, whatever operators it holds in quotes or behind backslashes |
| ShellWords.JoinedCommandsAreTwoSegments | src/renderer/ai/analyze-command-risk.ts:201-278 | two commands of words with any of the six operators between them are the two segments, the second one introduced as the operator says |
| Segments.SplitCommandSegments | src/renderer/ai/analyze-command-risk.ts:201-278 | the loop yields the segments of the quote automaton with their separators |
| Segments.SplitIsHomomorphic | src/renderer/ai/analyze-command-risk.ts:201-278 | segments of "a;b" are those of a followed by those of b, for every quote-closed a |
| Segments.SplitAtAnyOperator | src/renderer/ai/analyze-command-risk.ts:201-278 | behind a quote-closed part each of the six operators (semicolon, newline, single and doubled ampersand and bar) starts new segments, the first of which a single bar introduces as piped and each other one as following |
| Segments.CommandIsIntroduced | src/renderer/ai/analyze-command-risk.ts:262-265 | behind its operator, and any blanks, a command is the segment that carries this introduction |
| Segments.IntroductionShowsOnce | src/renderer/ai/analyze-command-risk.ts:210-222 | how a text is introduced shows in its first segment and nowhere else |
| Segments.HitsAtOperator | src/renderer/ai/analyze-command-risk.ts:444-446 | behind any operator the rules find what they find in both parts, the second one seen as piped exactly behind a pipe |
| Segments.Highest | src/renderer/ai/analyze-command-risk.ts:832-834 | a hit of the list whose level no hit exceeds; none for an empty list |
| Segments.HighestIsFirst | src/renderer/ai/analyze-command-risk.ts:832-834 | among equally high hits it is the first one, which names the matched pattern |
| Segments.LevelOfConcat | src/renderer/ai/analyze-command-risk.ts:832-834 | the level of joined hits is the higher of the two levels |
| Segments.RiskOfSplit | src/renderer/ai/analyze-command-risk.ts:842-850 | trimming the command first changes no hit |
| Segments.RiskOfSequence | src/renderer/ai/analyze-command-risk.ts:793-850 | the risk of "a;b" is the higher of the two risks, for every rule table, so adding a segment never lowers it |
| Segments.ReadOnlyOfSequence | src/renderer/ai/analyze-command-risk.ts:802-861 | "a;b" is rated read-only if and only if it has a segment and each part that has one is read-only |
| Segments.QuotedWordIsTheDirectory | src/renderer/agent/agent-command-context.ts:80-83 | the quoted word unquotes to the directory, for any directory (section 2.2.2 of the POSIX Shell Command Language) |
| Segments.HandedOverUnchangedIff | src/renderer/agent/agent-command-context.ts:69-91 | a command is handed over as it is if and only if no directory is known, or it is blank, has several lines or a here-document, or changes the directory itself |
| Segments.PrefixAddsOneSegment | src/renderer/agent/agent-command-context.ts:71-91 | the prefix adds exactly one segment, the `cd` to the quoted directory, and leaves the segments of the command as they were |
| Segments.HitsOfPrefixed | src/renderer/agent/agent-command-context.ts:71-91 | every rule finds in the prefixed command what it finds in the `cd` segment and then what it finds in the command |
| GuardSegments.SplitCommandSegments | src-tauri/src/services/agent_service.rs:687-738 | the loop over the characters yields the trimmed pieces of the quote automaton |
| GuardSegments.SplittersAgreeIff | src-tauri/src/services/agent_service.rs:687-738 | the backend finds the same segment texts as the analysis of the agent, if and only if each text between separators, as trimmed by the backend, has no U+FEFF at an edge and, as trimmed by the agent, no U+0085 |
| GuardSegments.SplittersAgree | src-tauri/src/services/agent_service.rs:687-738 | in particular for every command without these two characters |
| GuardSegments.DisputedCharacterAlone | src-tauri/src/services/agent_service.rs:717-727 | U+0085 alone is a segment for the analysis and none for the backend |
| GuardSegments.PiecesOfSequence | src-tauri/src/services/agent_service.rs:625-627 | the guard looks at the segments of both parts of "a;b", for every quote-closed a |
| JsonText.DecodePartialJsonString | src/renderer/agent/agent-runtime.ts:624-667 | the scanning loop decodes a literal piece by piece as far as it is there, and says where it ends |
| JsonText.BodyIsDecoded | src/renderer/agent/agent-runtime.ts:624-667 | a well-formed literal is decoded to its content and left exactly behind its closing quote (section 7 of RFC 8259) |
| JsonRepair.StripTrailingCommasOutsideStrings | src/renderer/agent/agent-runtime.ts:324-360 | the loop with its lookahead computes the stripping function |
| JsonRepair.StripActsOutside | src/renderer/agent/agent-runtime.ts:324-360 | the text outside literals loses exactly its trailing commas |
| JsonRepair.StripKeepsLiterals | src/renderer/agent/agent-runtime.ts:324-360 | every literal stays character for character |
| JsonRepair.StripIsIdentityIff | src/renderer/agent/agent-runtime.ts:324-360 | nothing changes if and only if there is no trailing comma outside literals |
| JsonRepair.StripIsIdempotentIff | src/renderer/agent/agent-runtime.ts:324-360 | a second pass changes nothing, if and only if no comma outside literals is followed, behind white space, by a comma that white space and a closing bracket follow |
| JsonRepair.StripIsNotIdempotent | src/renderer/agent/agent-runtime.ts:324-360 | a text of which a second pass removes more |
| JsonRepair.EscapeRawControlCharsInStrings | src/renderer/agent/agent-runtime.ts:363-403 | the loop computes the escaping function |
| JsonRepair.EscapeKeepsOutside | src/renderer/agent/agent-runtime.ts:363-403 | nothing changes outside literals |
| JsonRepair.EscapeIsIdempotent | src/renderer/agent/agent-runtime.ts:363-403 | escaping twice is escaping once |
| JsonRepair.EscapeIsIdentityIff | src/renderer/agent/agent-runtime.ts:363-403 | nothing changes if and only if no literal holds a raw control character |
| JsonRepair.EscapeKeepsDecoding | src/renderer/agent/agent-runtime.ts:363-403 | a literal decodes to the same content and ends at the same place |
| JsonRepair.EscapeKeepsValues | src/renderer/agent/agent-runtime.ts:363-403 | no string value of the text changes |
| JsonRepair.WellFormedJsonIsUntouched | src/renderer/agent/agent-runtime.ts:324-403 | both repairs are the identity on every printed JSON value |
| JsonProjection.ExtractValues | src/renderer/agent/agent-runtime.ts:681-739 | the index loop with its stack collects the fields that the recursive scan reports |
| JsonProjection.ScanOfPrefix | src/renderer/agent/agent-runtime.ts:681-739 | on a prefix of a text the scan reports a prefix of the events, the last one with a prefix of its value |
| JsonProjection.ExtractOfObject | src/renderer/agent/agent-runtime.ts:681-739 | on an answer that holds one object the scan reports exactly the string fields of that object with their paths |
| JsonProjection.FieldsMatchLookup | src/renderer/agent/agent-runtime.ts:716-725 | a tracked field is reported with a value if and only if following its keys in the object finds that string |
| JsonProjection.JoinedIsInjective | src/renderer/agent/agent-runtime.ts:716 | paths of dot-free keys can be told apart once joined by dots |
| JsonProjection.ProjectionIsExactAndMonotone | src/renderer/agent/agent-runtime.ts:681-752 | reasoning, observation and finish reason come out exactly as a parser finds them, and every prefix of the answer shows a prefix of each |
| Sse.DrainAppend | src-tauri/src/services/ai_service.rs:456-466 | draining what has arrived and then the rest gives the records of the whole |
| Sse.ChunkIndependenceIffCutsAtFirstBlankLine | src-tauri/src/services/ai_service.rs:510-521 | the records are the same for every chunking if and only if no CRLF blank line is preferred to an earlier LF one |
| Sse.OneLineEndSuffices | src-tauri/src/services/ai_service.rs:510-521 | streams with one kind of line end meet the condition |
| Sse.ReadChunk | src-tauri/src/services/ai_service.rs:456-486 | the inner loop hands on the payloads of the records completed by a chunk and stops at "[DONE]" or a bad record |
| Sse.StreamChat | src-tauri/src/services/ai_service.rs:447-491 | the outer loop processes exactly the records of the chunked stream, up to the one that ends it |
| Sse.PassingIsHandedOn | src-tauri/src/services/ai_service.rs:456-491 | a stream whose records all pass is handed on whole, without the records that have no data, and ends with the connection |
| Sse.EndsAtTheFirst | src-tauri/src/services/ai_service.rs:456-491 | any other stream ends at the first record that does not pass, finished if that is the closing mark and failed if it is no UTF-8 or not accepted; exactly the data before it is handed on |
| Sse.OutcomeIgnoresChunking | src-tauri/src/services/ai_service.rs:438-489 | with one kind of line end, payloads and end are the same for every chunking |
| Sse.MixedLineEndsDependOnChunking | src-tauri/src/services/ai_service.rs:510-521 | a stream with both kinds of line ends that fails the condition |
| Sse.EventIsRead | src-tauri/src/services/ai_service.rs:459-474 | a record of one or more data lines, with either line end, is read as the trimmed values joined by newlines: nothing, the end, an error or a payload |
| Sse.ReceivedIsSentIff | src-tauri/src/services/ai_service.rs:462-466 | what is read is what section 9.2.6 of the HTML Standard says was sent, if and only if no value starts with white space behind the one space that belongs to the field |
| Sse.SpaceIsLost | src-tauri/src/services/ai_service.rs:464 | two spaces in front: one more than the standard removes is lost |
| Sse.EventsAreDelivered | src-tauri/src/services/ai_service.rs:438-489 | for every chunking of a finished stream of events, payloads and end are those of its events one by one |
| Sse.PayloadsArriveIff | src-tauri/src/services/ai_service.rs:438-489 | for every chunking all payloads arrive, unchanged and in order, and the stream ends as finished, if and only if no line of a payload starts with white space |
| StoreFile.StoreDisk.WriteStoreAtomic | src-tauri/src/services/storage_service.rs:101-142 | a write succeeds exactly if it is not stopped and its temporary file and rename are carried out; then the store is the new text, the backup is the old one if that is JSON and its copy ran, and no temporary file is left; otherwise the store is as it was, and the backup untouched or a beginning of the old text |
| StoreFile.DamagedStoreLoadsTheBackup | src-tauri/src/services/storage_service.rs:108-113 | after a write whose copy ran, a store that is damaged later loads the data from before the write |
| StoreFile.StartIff | src-tauri/src/services/storage_service.rs:144-165 | a start finds the stored data, or the backup's if the stored text cannot be read, the defaults exactly if there is no store, and otherwise nothing |
| StoreFile.CorruptStoreKeepsBackup | src-tauri/src/services/storage_service.rs:108-114 | a write over a text that is no JSON leaves the backup alone |
| StoreFile.WriteLosesNothingIff | src-tauri/src/services/storage_service.rs:101-165 | every write from a state that loads leaves a state that loads the old or the new data, if and only if the stored text is not JSON of a foreign shape |
| StoreFile.HistoryLosesNothing | src-tauri/src/services/storage_service.rs:93-165 | over any sequence of writes, each stopped anywhere, the next start loads the data from before or after the last write |
| ItemPath.BelowIff | src-tauri/src/services/ssh_service.rs:387-401 | a relative path ends strictly below every start directory if and only if it never goes above and gets somewhere |
| ItemPath.ProtectedAnyway | src-tauri/src/services/ssh_service.rs:402-405 | the tests for "", "." and "~" catch nothing that the depth does not |
| ItemPath.ValidateItemPath | src-tauri/src/services/ssh_service.rs:382-410 | the depth count accepts a path exactly if, trimmed, it leads to something other than the root, or strictly below every start directory |
| ItemPath.UsedPathLeadsBelowIff | src-tauri/src/services/sftp_service.rs:549-556 | the path is used with the white space that the check ignores: after acceptance it leads below if and only if it is not an absolute path behind white space that, read as the relative path it then is, goes above its start |
| ItemPath.SpaceInFront | src-tauri/src/services/sftp_service.rs:549-553 | with a space in front an accepted path can lead above the start |
| DeleteRoots.CollapseDescendants | src-tauri/src/services/sftp_service.rs:2043-2058 | sorting, removing duplicates and folding yields the roots |
| DeleteRoots.RootsCoverEveryPath | src-tauri/src/services/sftp_service.rs:2043-2058 | roots are among the valid inputs, and every valid input is a root or below one |
| DeleteRoots.AncestorSortsFirst | src-tauri/src/services/sftp_service.rs:2044-2052 | a path without a doubled trailing slash sorts before what lies below it |
| DeleteRoots.RootsAreIndependent | src-tauri/src/services/sftp_service.rs:2043-2058 | for such paths no root equals or lies below another |
| DeleteRoots.RootsIff | src-tauri/src/services/sftp_service.rs:2043-2058 | a path is a root if and only if it is a valid input and lies below no valid input that sorts before it |
| DeleteRoots.NestedRootsIff | src-tauri/src/services/sftp_service.rs:2043-2058 | some root lies below another if and only if two valid inputs, one below the other, sort the wrong way round, the upper one is not also below the lower one, and no valid input covers the lower one first |
| DeleteRoots.TwoPathsBothKeptIff | src-tauri/src/services/sftp_service.rs:2048-2055 | so of a path and one below it both are kept if and only if the lower one sorts first and the upper is not below it, which needs a doubled trailing slash |
| RemoteDelete.TopVisitedIsEmpty | src-tauri/src/services/sftp_service.rs:554-558 | a directory whose turn for removal has come is empty |
| RemoteDelete.PushChildren | src-tauri/src/services/sftp_service.rs:566-577 | replacing a directory by its removal and its children keeps every remaining path on the stack exactly where it is due |
| RemoteDelete.PopRemoved | src-tauri/src/services/sftp_service.rs:554-564 | so does taking off an entry whose path was removed |
| RemoteDelete.DeleteTree | src-tauri/src/services/sftp_service.rs:552-579 | the loop ends, and succeeds exactly if the root is there and every request is carried out and answered; then exactly the subtree is gone, otherwise only parts of it; only empty directories are removed as directories, only directories are listed, and links are removed without being entered |
| RemoteDelete.DeleteItem | src-tauri/src/services/sftp_service.rs:543-582 | with the one retry over a new channel (lines 1298-1319) it succeeds exactly if one of the two passes finds the root and has every request answered; with at most one request going wrong everything is gone in the end, even when the answer is a failure |
| RemoteDelete.DeleteItems | src-tauri/src/services/sftp_service.rs:720-757 | every item is tried whatever became of the others; what is reported as deleted is gone, nothing else is touched, and items that are there and not below one another are all deleted when every request is answered |
| CommitSwap.NamesAreDistinct | src-tauri/src/services/sftp_service.rs:1729-1752 | temporary, backup, checkpoint and destination are four different paths for every name and task |
| CommitSwap.SwapIn | src-tauri/src/services/sftp_service.rs:1946-1957 | it succeeds exactly if both renames are answered; after every step the old bytes are at the destination or the backup, or the new ones at the destination, if and only if the losing pattern of answers does not occur; after one refusal the old bytes are at the destination |
| CommitSwap.PutBack | src-tauri/src/services/sftp_service.rs:1951-1955 | giving up the destination for the backup loses the old bytes exactly when the backup was gone already |
| CommitSwap.CommitRemoteTemp | src-tauri/src/services/sftp_service.rs:1930-1960 | it succeeds exactly if the query and the one or two renames that are due are answered; success means the new bytes at the destination, no temporary file, and a backup only if there was a stale one and no destination; after a failure the old bytes are still there, at the destination if only one request was refused, and no step loses both versions, except for exactly one pattern of lost replies; nothing else is touched (renames refuse existing targets, section 6.5 of draft-ietf-secsh-filexfer-02) |
| CommitSwap.CommitLocalTemp | src-tauri/src/services/sftp_service.rs:1970-1991 | the same, with its own condition of success, where a rename replaces its target and a failing query counts as absence; the old bytes alone are also lost, and only then, when the destination is not seen and the reply to the rename is lost |
| CommitSwap.KeptIsRecoverable | src-tauri/src/services/sftp_service.rs:1924-1929 | what is kept step by step means that a complete version stays at the destination or, without one, at the backup |
| CommitSwap.LossExample | src-tauri/src/services/sftp_service.rs:1951-1955 | one lost reply to the removal of the backup leaves neither version |
| CommitSwap.Attempts | src-tauri/src/services/sftp_service.rs:1924-1991 | over any number of attempts, each stopped after any step, a complete version is never lost as long as no reply is |
| ResumeTransfer.Transfer.ResolveResumeOffset | src-tauri/src/services/sftp_service.rs:1822-1879 | the branches of the local resolution (and of the remote one, lines 1008-1051) are those of the decision function, clean-ups included; a length that cannot be found out counts as 0 |
| ResumeTransfer.OffsetIsPartLength | src-tauri/src/services/sftp_service.rs:1868-1878 | an offset above zero is the length of the part file, at most the confirmed offset and the size, and comes with a trusted checkpoint and no change to the files |
| ResumeTransfer.OpenedAtOffset | src-tauri/src/services/sftp_service.rs:1139-1150 | the opened part file is as long as the offset the run continues from |
| ResumeTransfer.Transfer.CopySource | src-tauri/src/services/sftp_service.rs:1159-1206 | the copying loop with its checkpoints, cancellation and failures is the recursive definition over the events |
| ResumeTransfer.Transfer.RunOnce | src-tauri/src/services/sftp_service.rs:1053-1241 | a whole run, up to the commit and its refusal; uploads (lines 841-1006) in the same frame |
| ResumeTransfer.LoopKeeps | src-tauri/src/services/sftp_service.rs:1163-1206 | whatever happens, the part file stays a beginning of the run's source, and when the source ends it is the source |
| ResumeTransfer.RunKeepsSafe | src-tauri/src/services/sftp_service.rs:1053-1241 | one run that leaves no misleading checkpoint keeps every source that would be continued from the part file beginning with what it holds, and only ever commits its own source |
| ResumeTransfer.NeverSplices | src-tauri/src/services/sftp_service.rs:1053-1241 | over any sequence of such runs, with sources changing between them, the destination never holds anything but its first content or the whole of one source |
| ResumeTransfer.ContinuedRunAppends | src-tauri/src/services/sftp_service.rs:1868-1878 | a continued run commits the part file followed by the rest of the source, which is the source if and only if the part was its beginning |
| ResumeTransfer.ChangedIff | src-tauri/src/services/sftp_service.rs:1832-1867 | a run is refused as changed if and only if it read a checkpoint of another task, size or time, or one whose fingerprints are there and differ |
| ResumeTransfer.UndisturbedRunCompletes | src-tauri/src/services/sftp_service.rs:1053-1241 | from safe files every undisturbed run that is not refused puts the whole source at the destination and leaves neither part file nor checkpoint |
| ResumeTransfer.FirstRunCompletes | src-tauri/src/services/sftp_service.rs:1832-1837 | so does a first run, which finds nothing |
| ResumeLife.EveryRunEnds | src-tauri/src/services/sftp_service.rs:1053-1241 | how every run of every plan ends: refused by its checkpoint; completed exactly if it opens, reads to the end before anything stops it, and its commit is neither refused nor fails; cancelled exactly if a cancellation comes first or refuses the commit; otherwise interrupted |
| ResumeLife.BeginsAt | src-tauri/src/services/sftp_service.rs:1832-1878 | a run begins at the end of its part file if and only if the checkpoint was read, is trusted, and covers the part file, and otherwise at the beginning |
| ResumeLife.CheckpointKeepsUp | src-tauri/src/services/sftp_service.rs:1186-1206 | a run cut off by a failing read leaves a beginning of the source and a checkpoint of its own less than 4 MiB behind, or none of its own if it did not get that far |
| ResumeLife.CutOffRunContinuesIff | src-tauri/src/services/sftp_service.rs:1868-1878 | the run after one that was cut off continues if and only if nothing was copied since the last checkpoint, and begins again otherwise; undisturbed it completes either way |
| ResumeLife.CanceledDownloadContinues | src-tauri/src/services/sftp_service.rs:1163-1180 | a cancelled download is continued at the byte where it was cancelled, and one undisturbed run completes it |
| ResumeLife.RefusedCommitIsKept | src-tauri/src/services/sftp_service.rs:1208-1230 | a download whose commit a cancellation refuses keeps the whole file; the next run has nothing left to copy and completes |
| ResumeLife.CanceledUploadLeavesNothing | src-tauri/src/services/sftp_service.rs:949-957 | a cancelled upload leaves neither part file nor checkpoint, if they can be removed |
| ResumeLife.RefusedOnceOnly | src-tauri/src/services/sftp_service.rs:1832-1867 | a run refused because its source changed removes what was there, and the next one copies the new version from the beginning |
| ResumeTransfer.MisleadingCheckpointSplices | src-tauri/src/services/sftp_service.rs:1832-1878 | a misleading checkpoint becomes a spliced file in two runs, at any differing position it confirms and from any offset: one copies up to that byte and is cut short, the other continues undisturbed |
| ResumeTransfer.NoSpliceIff | src-tauri/src/services/sftp_service.rs:1808-1879 | however a run and the next one go, what the next one commits is its own source, if and only if the checkpoint that the first one leaves in place misleads no source |
| ResumeTransfer.NoForeignIsHarmless | src-tauri/src/services/sftp_service.rs:1832-1867 | a run leaves no misleading checkpoint if the one in place was read, and compared or removed, and an upload's has fingerprints |
| TransferRegistry.AlwaysConsistent | src-tauri/src/services/sftp_service.rs:1356-1532 | in every order of steps a terminal task has an end time, a waiting one a conflict, and the percentage is at most 100 |
| TransferRegistry.SequenceTellsChange | src-tauri/src/services/sftp_service.rs:1356-1372 | between any two moments the sequence number never falls, equal numbers mean equal records, and the attempt rises by the number of retries |
| TransferRegistry.CanceledUntilRetry | src-tauri/src/services/sftp_service.rs:1386-1404 | a task marked as cancelled stays so, and no commit begins, until a retry |
| TransferRegistry.CancelIsRemembered | src-tauri/src/services/sftp_service.rs:198-220 | after a cancellation that took effect no commit begins before the next retry, whatever is done in between |
| TransferRegistry.LeavesTerminalIff | src-tauri/src/services/sftp_service.rs:1374-1383 | one step takes a task out of a terminal status exactly if it is a transition, a wait for a conflict, a retry, a decision or a batch policy |
| TransferRegistry.StaysTerminalIff | src-tauri/src/services/sftp_service.rs:1356-1383 | over any sequence of steps an ended task stays so, as long as it is there, if and only if none of these is made to it in that time |
| TransferRegistry.Registry.CancelTask | src-tauri/src/services/sftp_service.rs:198-220 | refused while committing, without effect on an ended task, otherwise marked; one step |
| TransferRegistry.Registry.TryBeginCommit | src-tauri/src/services/sftp_service.rs:1386-1408 | granted exactly when neither cancelled nor ended, and then committing; one step |
| TransferRegistry.Registry.UpdateTask | src-tauri/src/services/sftp_service.rs:1356-1372 | one change, one step of the sequence number |
| TransferRegistry.Registry.Retry | src-tauri/src/services/sftp_service.rs:223-262 | refused exactly if the status was not retryable when it was looked at; the attempt is one more than at the later moment of the change, the bytes to resume at are those of the first moment, and the cancellation is taken back |
| TransferRegistry.Registry.ResolveConflict | src-tauri/src/services/sftp_service.rs:265-329 | refused exactly if, when it was looked at, the task was not waiting in this attempt, the policy is to ask, or a rename has neither a target nor a suggestion; otherwise queued with this policy at a later moment, and moved to the given target, or else the suggested one, on the side that is written and on no other |
| TransferRegistry.DecisionMoves | src-tauri/src/services/sftp_service.rs:303-308 | a target replaces the remote path of an upload and the local path of a download, and a skip or overwrite changes neither; for a batch policy (lines 384-391) the target is the suggested one |
| TransferRegistry.Registry.FailTask | src-tauri/src/services/sftp_service.rs:1468-1488 | fails the task, with this message and an end time, exactly if it was at work in this attempt when it was looked at and is there at the later moment; otherwise nothing changes |
| TransferRegistry.Registry.ApplyPolicyToBatch | src-tauri/src/services/sftp_service.rs:332-404 | every peer collected at the beginning is looked at and then changed, once each, until one is missing; transfers are started for exactly those that were waiting when they were looked at |
| TransferRegistry.PolicyIsWritten | src-tauri/src/services/sftp_service.rs:376-397 | such a change queues the peer with the policy and without a conflict, in the same attempt, and moves it to the target its conflict suggests if that is a rename, whatever has happened since it was looked at |
| TransferRegistry.PeersIff | src-tauri/src/services/sftp_service.rs:340-365 | the peers are the other tasks of the batch on this connection and in this direction that are neither under way nor over |
| TransferRegistry.StatusesAllow | src-tauri/src/services/sftp_service.rs:1679-1704 | which statuses are ends, which can be retried, where a cancellation ends the task at once, and where a commit may begin |
| TransferLife.OthersMakeNoDifference | src-tauri/src/services/sftp_service.rs:1356-1372 | what becomes of a task depends on the steps about it alone, however steps about others are mixed in |
| TransferLife.IdentityStays | src-tauri/src/services/sftp_service.rs:1356-1372 | connection, batch and direction never change, and the policy only by a decision |
| TransferLife.PercentIsNearest | src-tauri/src/services/sftp_service.rs:1417-1426 | the percentage is the nearest whole one, and at most 99 before the end |
| TransferLife.PercentRises | src-tauri/src/services/sftp_service.rs:1417-1426 | more bytes never show less; an empty file shows 100 |
| TransferLife.UndisturbedRunIsRecorded | src-tauri/src/services/sftp_service.rs:797-1006 | a run that nobody cancels, among any steps of other tasks, takes its record from wherever it is to completed, with the bytes, the paths and the guarantee of the run |
| TransferLife.CancelEndsAtOnceIff | src-tauri/src/services/sftp_service.rs:198-220 | a cancellation ends a task at once exactly if it has not begun to transfer; otherwise it is marked and the run ends it |
| TransferLife.CommitShutsOutCancel | src-tauri/src/services/sftp_service.rs:1386-1404 | once its commit has begun no cancellation touches a task, and it is completed |
| TransferLife.RetriedRunCompletes | src-tauri/src/services/sftp_service.rs:223-262 | a failed or cancelled task that is retried and then runs undisturbed is completed in its next attempt, on the same paths unless the run moves it |
| TransferView.AnnouncementsAreOrdered | src-tauri/src/services/sftp_service.rs:1356-1372 | in every order of steps the announcements of a task have rising sequence numbers and attempts that never fall |
| TransferView.TakenIff | src/renderer/transfer/sftp-transfer-reducer.ts:39-76 | an arrival is taken if and only if it is later by attempt and then sequence number, or of the same version with another status, and does not leave a terminal status within its attempt |
| TransferView.ShownNeverGoesBack | src/renderer/transfer/sftp-transfer-reducer.ts:51-76 | whatever arrives, what is shown never goes back to an earlier version, nor leaves a terminal status within an attempt |
| TransferView.LastIsShown | src/renderer/transfer/sftp-transfer-reducer.ts:39-76 | late, repeated and lost announcements do not matter once the last one has arrived, if no attempt ends before its end |
| TransferView.ConvergesIff | src/renderer/transfer/sftp-transfer-reducer.ts:51-76 | every order of arrival ends with the last announcement if and only if no earlier one of its attempt is terminal |
| TransferView.WindowShowsTheRegistry | src-tauri/src/services/sftp_service.rs:1356-1372 | over any steps of the registry and any order of arrival with repetitions and losses, once the last announcement has arrived the window shows the registry's record, unless the attempt ended before its last change |
| TransferView.CancelDuringCheck | src-tauri/src/services/sftp_service.rs:1432-1456 | a task cancelled while it checks its target then waits for a conflict: the window shows it as cancelled, retry is refused and discarding has no effect |
| SessionRegistry.SessionMap.InsertSession | src-tauri/src/services/ssh_service.rs:333-356 | the entry gets the next generation |
| SessionRegistry.SessionMap.Disconnect | src-tauri/src/services/ssh_service.rs:222-231 | the entry is gone; its task is told if there was one |
| SessionRegistry.SessionMap.UpdateStateIfGeneration | src-tauri/src/services/ssh_service.rs:873-886 | the state is changed exactly for an entry of this generation |
| SessionRegistry.SessionMap.RemoveIfGeneration | src-tauri/src/services/ssh_service.rs:889-907 | an entry is removed exactly when it is of this generation |
| SessionRegistry.SessionMap.BroadcastIfGeneration | src-tauri/src/services/ssh_service.rs:911-929 | exactly the open subscribers of an entry of this generation receive, in order, and the closed ones are forgotten |
| SessionRegistry.AlwaysHolds | src-tauri/src/services/ssh_service.rs:168-231 | over all interleavings the stored entry is the newest of its id and alive, and every ended generation ended in one recorded way |
| SessionRegistry.TaskTouchesOnlyItsOwn | src-tauri/src/services/ssh_service.rs:856-929 | a step of a task changes no entry of another generation |
| SessionRegistry.GenerationsRise | src-tauri/src/services/ssh_service.rs:333-356 | the generation stored for an id never falls, and an insertion is newer than everything before it |
| SessionRegistry.EndsArePermanent | src-tauri/src/services/ssh_service.rs:889-907 | how a generation ended never changes |
| SessionRegistry.ClosedOnlyWhenRetired | src-tauri/src/services/ssh_service.rs:621-627 | the closing event is sent at most once per generation, never for one that was disconnected, superseded or failed, and output reached only subscribers of the sender's generation |
| SessionRegistry.CloseMisleadsIff | src-tauri/src/services/ssh_service.rs:621-627 | when the event is sent, it hits an open session exactly if something is stored under the id, and that is always newer |
| SessionRegistry.UndisturbedSessionOpens | src-tauri/src/services/ssh_service.rs:333-510 | whatever happens for other ids, a session whose id nobody connects or disconnects is seen as connecting until its shell has announced itself, and as connected from then on |
| SessionRegistry.AnnouncesIffStored | src-tauri/src/services/ssh_service.rs:494-505 | a shell about to start announces itself if and only if its entry is still the stored one |
| SessionRegistry.EndedNeverAnnounces | src-tauri/src/services/ssh_service.rs:494-505 | once its entry is gone before that, it never announces itself, whatever happens later |
| SessionRegistry.OutputReachesSubscriber | src-tauri/src/services/ssh_service.rs:911-929 | a subscriber that stays open stays subscribed over all steps that leave the entry stored, and the next output of the running shell reaches it |
| SessionRegistry.ClosesStepByStep | src-tauri/src/services/ssh_service.rs:606-627 | a shell that comes to its end is seen as disconnected, then taken out, and then closed by its event, whatever happens for other ids in between |
| SessionRegistry.UnstoredTaskIsQuiet | src-tauri/src/services/ssh_service.rs:856-929 | a task whose entry is not stored changes no entry, delivers nothing and gets no event to send |
| SessionRegistry.CloseAfterReconnect | src-tauri/src/services/ssh_service.rs:621-627 | a reconnection between removal and event makes the event name the new session |
| SessionRegistry.OrphanIffSuperseded | src-tauri/src/services/ssh_service.rs:173-187 | a shell at work that is not stored and was not told to stop was superseded, and only then |
| SessionRegistry.OrphansStayUntold | src-tauri/src/services/ssh_service.rs:222-231 | it is never told later |
| SessionRegistry.OrphanExample | src-tauri/src/services/ssh_service.rs:489-495 | two connects at once leave such a shell, in spite of the check after the handshake |
| AgentLoop.AgentRuntime.SyncSnapshot | src/renderer/agent/agent-runtime.ts:890-943 | new task, outside end, pause and resume, approval and answer, in this order |
| AgentLoop.AgentRuntime.BeginNewTask | src/renderer/agent/agent-runtime.ts:987-1024 | a new version with fresh counters |
| AgentLoop.AgentRuntime.BridgeCameUp | src/renderer/agent/agent-runtime.ts:1015-1023 | once for each task, its bridge makes the task idle if it is still the current one |
| AgentLoop.AgentRuntime.ProcessStep | src/renderer/agent/agent-runtime.ts:966-1110 | a round begins only for the current, idle, thinking task within its budget |
| AgentLoop.AgentRuntime.RunCommand | src/renderer/agent/agent-runtime.ts:1308-1333 | past the gate the command waits for the execution module |
| AgentLoop.AgentRuntime.ContinueCommand | src/renderer/agent/agent-runtime.ts:1334-1353 | the command is sent, behind the change to the known directory, on the connection of that moment |
| AgentLoop.AgentRuntime.CommandOver | src/renderer/agent/agent-runtime.ts:1354-1399 | the end of a command continues, fails or ignores the task by its version |
| AgentLoop.AgentRuntime.ApplyApprovalDecision | src/renderer/agent/agent-runtime.ts:1559-1581 | a decision counts only while one is awaited; a rejection ends the task |
| AgentLoop.AgentRuntime.TakeAction | src/renderer/agent/agent-runtime.ts:1256-1306 | a routed action is executed, asked about or ends the task |
| AgentLoop.AgentRuntime.ExecuteNow | src/renderer/agent/agent-runtime.ts:1675-1717 | a command of the model is gated and sent in one turn |
| AgentLoop.AgentRuntime.ApplyApprovalAction | src/renderer/agent/agent-runtime.ts:1281-1297 | the gate comes before the question; a remembered approval answers it |
| AgentLoop.RecallIsJustified | src/renderer/assistant/risk-approval-memory.ts:118-127 | a recalled approval was given for a command of the same tokens |
| AgentLoop.ApprovedFits | src/renderer/agent/agent-runtime.ts:1559-1581 | a new approval stands for the pending command and has not been used |
| AgentLoop.ImportedIsNew | src/renderer/agent/agent-runtime.ts:1334-1353 | a command about to be sent has its grounds, passed the gate, and its approval was not spent |
| AgentLoop.AlwaysFits | src/renderer/agent/agent-runtime.ts:890-1581 | all of this is kept by every turn, in any order |
| AgentLoop.EveryCommandHasItsGrounds | src/renderer/agent/agent-runtime.ts:1256-1314 | in every run each command sent was rated below the thresholds (lines 1862-1867), or repeats the tokens of an approval given for good and is not critical, or was approved, once per approval; critical ones were approved; in read-only mode no command rated as changing passed the gate; no task has more than 24 rounds |
| AgentLoop.DecisionIsObeyed | src/renderer/agent/agent-runtime.ts:1559-1581 | while a decision is awaited a rejection fails the task and starts nothing, and an approval starts the pending command unless the gate takes over |
| AgentLoop.RecordsComeFromTheUser | src/renderer/agent/agent-runtime.ts:916-931 | in every run each recorded approval comes from a snapshot with that command pending and approved, and each remembered one from the user's choice |
| AgentLoop.EveryGroundIsTheUsers | src/renderer/agent/agent-runtime.ts:1256-1314 | in every run each command sent that was not below the thresholds had been approved by the user before, itself or, for good, as one of the same tokens, and a critical one itself |
| AgentLoop.SentTextIsTheCommand | src/renderer/agent/agent-runtime.ts:2070-2095 | in every run the text handed over is the command, or the command behind one `cd` segment with the quoted directory; every rule finds in it what it finds in that segment and in the command |
| AgentLoop.SendsIff | src/renderer/agent/agent-runtime.ts:1256-1353 | a turn sends one command, if and only if the module of a waiting command has been loaded, or a current round takes an unblocked action, on a connection; the pause plays no part |
| AgentLoop.PauseHoldsIff | src/renderer/agent/agent-runtime.ts:1608-1612 | in every run nothing is sent from a pause until the user goes on, whatever else happens, if and only if no command is past the gate and the open round can come to none that is not critical; a round that needs an approval can only if the task's bridge or a command of the task can still lift the pause |
| AgentLoop.GateIsNotRepeated | src/renderer/agent/agent-runtime.ts:1308-1353 | past the gate the command is sent whatever has happened; it would be blocked now exactly if read-only mode was switched on since and the command is rated as changing; the connection is the same unless a new task began |
| AgentLoop.PauseIsLost | src/renderer/agent/agent-runtime.ts:1334-1399 | a pause between gate and sending neither stops the command nor outlasts it |
| AgentLoop.PausedRoundStillSends | src/renderer/agent/agent-runtime.ts:1675-1680 | a paused round whose action was chosen still sends its command |
| AgentLoop.CommandGoesToTheNewTask | src/renderer/agent/agent-runtime.ts:2052-2076 | a task begun between gate and sending gets the command of the one before on its own connection |
| AgentTask.WholeTask | src/renderer/agent/agent-runtime.ts:890-1581 | a task that nobody disturbs, from the snapshot that begins it through all its rounds, cards, loaded modules and ended commands, sends exactly the commands of a ledger of its rounds, in order, and ends as the ledger says |
| AgentTask.TaskCompletesIff | src/renderer/agent/agent-runtime.ts:1038-1110 | such a task is completed, when the model says at last that it is done, if and only if fewer than 24 rounds came before, no four missteps in a row, and no repeated, unreadable, rejected or failing command; otherwise it has failed |
| AgentTask.RoundAgrees | src/renderer/agent/agent-runtime.ts:1256-1399 | each round of the runtime, with all the turns it takes, is one entry of the ledger |
| AgentTask.UserIsAskedIff | src/renderer/agent/agent-runtime.ts:1281-1297 | the user is asked about a command if and only if it can be analysed, passes the gate, needs an approval and has none given for good |
| AgentTask.ApprovedForGoodIsNotAskedAgain | src/renderer/assistant/risk-approval-memory.ts:107-127 | once the user has approved a command for good, no later one of the same tokens is asked about in the task, unless one of the two is critical |
| AgentTask.ApprovalLevels | src/renderer/agent/agent-runtime.ts:1862-1867 | critical commands always need the user, low ones never, those between as set |
| AgentTask.CompletesIff | src/renderer/agent/agent-runtime.ts:908-914 | a task becomes completed if and only if the model's finish is taken in its own, current and unpaused round, or the store shows the task finished while it is active |
| AgentTask.FailsIff | src/renderer/agent/agent-runtime.ts:1038-1399 | a task becomes failed if and only if its budget is used up, a rejection of the pending command is taken, the model answers beyond its retries, repeats a command or gives none, a command has no connection or cannot be run, or the store shows an error while it is active |
| AgentTask.PausedRoundIsDropped | src/renderer/agent/agent-runtime.ts:1256-1306 | a pause while the model thinks costs exactly this round: an answer other than a command to be run at once is dropped, and the next round begins where this one did |
| AgentTask.ShownDecisionIsTakenOnce | src/renderer/agent/agent-runtime.ts:924-931 | a decision shown while none is awaited is not taken later either, as long as it is still shown |
| AgentTask.EndsOnce | src/renderer/agent/agent-runtime.ts:1354-1399 | whatever is reported of a command after its end has no effect |
| AgentTask.EndedStaysEnded | src/renderer/agent/agent-runtime.ts:1256-1399 | an ended task stays as it ended, whatever replies, continuations and snapshots still arrive, until a new task or disposal |
| AgentTask.OldWorkIsHarmless | src/renderer/agent/agent-runtime.ts:1354-1399 | rounds, commands and bridges of an earlier task come to their end without touching the task at hand |
| AgentTask.NothingAfterDispose | src/renderer/agent/agent-runtime.ts:876-888 | after the runtime is disposed of nothing is sent, as long as it is not started again |

## Left out

- AgentLoop.PauseHoldsIff: takes every turn that is due to be possible at any time. A pause also aborts the
  request and the command that are registered by then, which the model shows as one way in which they can
  end.
- AgentTask.WholeTask: follows tasks without a pause, an interrupted command or a budget of time and
  tokens; these are turns of `AgentLoop`. Starting a disposed runtime again is not part of the model.
- The rule tables of `analyzeParsedSegment`, the parsing of a segment into head and arguments, and the
  recursion into nested shells: any rule table is allowed in `Segments` instead.
- Prompt detection, the blocking watcher and the prompt fallback: heuristics; when the prompt is seen is a
  free choice of `ExitCode`.
- JsonProjection.ProjectionIsExactAndMonotone: speaks of the three fields, not of the one displayed text
  that joins them. Of `fixJsonString` only the two string-aware repairs are here.
- JavaScript strings are sequences of characters here, so lone surrogates in a source text are not
  modelled; decoded JSON strings are sequences of UTF-16 code units.
- Network errors, HTTP status and usage data of the provider: the stream ends or it does not.
- Directory creation and the keyring behind the store; copying counts as writing a beginning of the
  text.
- Paths as strings in remote deletion: paths are lists of names there; `ItemPath` has the strings. The
  tree is changed by nobody else while it is deleted.
- The rules of the backend's guard, its tests on the whole command, and the tokens of its segments.
- Clocks: a checkpoint is due when its bytes are or when the event says so; budgets of time and tokens
  are one choice. Sequence numbers, generations and attempts do not wrap around, and a task id is never
  used again.
- SHA-256 edges: fingerprints are texts, and equal size, time and fingerprints are taken to mean equal
  content; a time that cannot be read is 0, as in the code.
- The conflict policies of a run, the renamed targets and the target locks: one transfer keeps its
  paths in `ResumeTransfer`, and the policies appear as changes of a record in `TransferRegistry`.
- A crash leaves a beginning of the part file; damage in the middle of a file is not modelled.
- The web edition's own progress events, and the reducer's incremental events.
- Host keys, authentication, terminal resizing and input, and the registries of run ids and requests in
  `agent_service.rs` and `ai_service.rs`, which have the shape of `SessionRegistry`.
- The agent's context summaries, message history, the way the working directory is found (any may
  be known), duplicate detection (a flag of the model's answer) and the display of steps.
- AgentLoop.AgentRuntime.RunCommand: does not model the steps shown in the window or the history
  written, which decide nothing.
