# Verified model of the rssh session, SCP fixture and cleanup code

This Dafny project models the protocol and ownership logic of an SSH client
library and of the fixture server that exercises it, and proves what holds over
every run, every schedule and every input.

| module | models |
|---|---|
| `Common` | options, bytes, small sequence facts |
| `ScpText` | the text of SCP records: UTF-8, numbers, T, D, E and C lines, names |
| `ScpSink` | the receiving side as a machine over single bytes and a file system |
| `ScpWire` | the receiving side as imperative code over channel messages, refining the machine |
| `ScpSource` | the sending side: a tree as a script of sends and awaits, and the code that plays it |
| `ScpReceipt` | what a script of the source does to the sink: pacing and delivery |
| `ScpTransfer` | source and sink as two processes over two queues, any schedule |
| `ScpRecords` | what the records say, and what the sink's small decisions mean, spelled out over texts, digits and fields |
| `ScpRoot` | the whole transfer seen from the source's root and the request |
| `Quoting` | the encoder of remote commands and a POSIX tokeniser (IEEE Std 1003.1-2017, Shell Command Language, sections 2.2.2, 2.2.3 and 2.3) |
| `ShellWords`, `ScpCommand` | the fixture's own word splitter and its scp command parser |
| `ShellText` | the grammar of the splitter's commands: plain, escaped and quoted text, and what it stands for |
| `ChannelReader` | the native channel reader: pending queue and message fold |
| `Session` | the two pumps of a shell session, with the writer's lifecycle, as atomic steps |
| `SessionCount` | when `input_bytes` is the number of bytes the transport took |
| `SessionEvents` | why the flag rises and which event sends which message, over every run |
| `SessionScript` | scripts of what happens around the input pump, and where they drive the step machine |
| `SessionLoops` | the pumps as loops over the native writer, each run of which is a run of the step machine |
| `Wakeups` | check, subscribe, check, await: cancellation handles and the guard-counted tracker |
| `RemoteForward` | `wait`, `shutdown`, `wait_until_cancelled` and `drop` around one session handle |
| `LazyRuntime` | the double-checked runtime as a protocol of any number of threads |
| `KnownHosts` | learning, lookup and host-key decisions over the text of a known_hosts file |
| `HostKeyOverlap` | host-key checks of any number of connections that overlap, step by step |
| `Cleanup` | `bounded_cleanup` against a clock |
| `Ownership` | the guard of a child process, the reaper, and all guards of a process with them |
| `Sweeps` | the in-place `swap_remove` passes, and the sweeps of the echo server |
| `TaskTracker` | owned tasks, the drains and the shutdown of the task tracker |
| `TrackerLock` | spawning and shutting down at once: the tracker's lock, flag, list and count with any number of threads |
| `Redaction` | replacement of secrets in captured output |

Code that updates fields is modelled as classes and loops proved against
specification functions (`Wire`, `Reader`, `InputPump`, `OutputPump`,
`ChildGuard`, `Processes`, `Connections`, `ChildTaskTracker`, `Capture`, the
parsers and encoders). Code whose difficulty is interleaving (`Session`,
`Wakeups`, `RemoteForward`, `LazyRuntime`, `TrackerLock`, `HostKeyOverlap`,
`ScpTransfer`) is a step machine in which every lock, await or atomic access is
one step and the environment chooses the order and the answers. Choices of the
operating system, of the peer and of the network are parameters: sequences of
arrivals, functions that give the n-th answer, or cues of a step.

Assumptions, each stated in a contract: a subscription to a notifier receives
every later broadcast (`Wakeups.Step`); the library's known_hosts check is as
documented (`KnownHosts.Documented`, met by `KnownHosts.TableCheckIsDocumented`);
the session task registers forwarding tasks only while it runs
(`RemoteForward.Environment`); a write to the channel that is given up may have
moved any number of the bytes offered, all of them included
(`Session.WriteAnswers`; `SessionCount.Prompt` excludes the last case); a file
system has unique names in a directory and times of at most 64 bits
(`ScpSource.Sound`).

Findings that the theorems make precise:

- The source sends a directory at depth 31 and the sink refuses it, so a tree
  passes only with directories at depth 30 or less (`ScpTransfer.DepthBoundIsTight`).
- A write cancelled half way has moved bytes that `input_bytes` does not count.
  The count of a successful run is exact, whatever the schedule, if and only if
  the last event taken is not non-empty data, or the count has saturated before
  (`SessionCount.CountExactUnlessCutShort`). If that event is a single byte, a
  wrong count needs a transport that takes the byte and still reports the write
  as given up; without such a transport the condition is the same with two bytes
  or more (`SessionCount.CountExactUnlessCutInTwo`).
- A read that waits returns zero bytes if and only if the stream has ended, a
  close has arrived or an empty payload has; it means the end of input exactly
  when it met no empty payload (`ChannelReader.ZeroReadMeans`, for what
  `ChannelReader.Reader.ReadCancellable` does). One empty payload is enough to
  end the output loop early (`ChannelReader.EmptyPayloadLooksLikeTheEnd`,
  `SessionLoops.OutputPump.CopySessionToOutput`).
- Two connections that overlap can both learn a key. At most one key is learned
  as long as no connection writes while another one is between its check and
  its write of a different key, and after the first such write two can be
  (`HostKeyOverlap.OneKeyUnlessOvertaken`, `HostKeyOverlap.TwoFirstUsesRace`).
  Before anybody connects: one key under every schedule if and only if all
  connections whose policy can write carry the same key
  (`HostKeyOverlap.OneKeyExactlyWhenLearnersAgree`).
- Redaction is safe for every value that can share no byte with the marker
  (`Redaction.NothingLeaks`); for values without angle brackets that is exactly
  when none is part of the marker's own word
  (`Redaction.SafeExactlyOutsideTheMarker`).
- The word splitter drops empty arguments and refuses `$`, backquotes and
  control characters, which the encoder lets through
  (`ShellWords.SplittingUndoesEncoding`); a quoted scp command with one of them
  is not taken for an scp command at all (`ScpCommand.RefusedIsNotScp`).
- When deadlines may pass, a sink never succeeds without its source; that both
  end alike needs that none has passed (`ScpTransfer.EveryScheduleDelivers`).

## Model

| member | source | states |
|---|---|---|
| ScpTransfer.EveryScheduleTransfers | crates/rssh-test-support/src/ssh/scp.rs:195-471 | for every tree, every interleaving of source and sink into a directory, existing or made for it, and deadlines that may pass at any wait: one side can always move or both have stopped; a side succeeds only if the tree is transferable, the sink only together with the source, and then the sink's files are the old ones, with that directory, plus exactly the flattened tree, modes masked; if no deadline has passed each side succeeds if and only if the tree is transferable |
| ScpTransfer.EveryScheduleStoresTheFile | crates/rssh-test-support/src/ssh/scp.rs:334-377 | the same into a file or a new name in an existing directory: a transferable file is stored there whatever its own name, and nothing but a file is taken |
| ScpTransfer.EveryScheduleDelivers | crates/rssh-test-support/src/ssh/scp.rs:195-471 | for any entry the sink keeps pace with, in any interleaving and with any deadlines passing: no deadlock, the sink never succeeds alone, nobody succeeds unless the entry arrives, and both statuses agree with that if no deadline has passed |
| ScpRoot.EveryScheduleServesTheRequest | crates/rssh-test-support/src/ssh/scp.rs:379-405 | for every root, request and schedule: below the sink's directory, under the name that was sent, there is afterwards exactly what the flattened root has at and below the requested path, and nothing else has changed; without deadlines both sides succeed if and only if such an entry lies there and can be transferred |
| ScpRoot.EveryScheduleServesTheFile | crates/rssh-test-support/src/ssh/scp.rs:385-405 | the same for a sink whose target is a file or a new name: it holds the file that lies at the requested path |
| ScpRoot.ScriptOfTheRequest | crates/rssh-test-support/src/ssh/scp.rs:379-405 | a session is given up at once, or serves under its own name the one entry that lies at the requested path, found by walking the listings |
| ScpRoot.FindIsWhatLies | crates/rssh-test-support/src/ssh/scp.rs:385-391 | looking a path up finds an entry if and only if it lies there by the directories' listings |
| ScpRoot.FlattenHolds | crates/rssh-test-support/src/ssh/scp.rs:427-451 | a flattened tree holds at each path the entry that lies there and at no other path anything |
| ScpRoot.TransferableMeans | crates/rssh-test-support/src/ssh/scp.rs:407-471 | a tree is transferable exactly when every entry in it, at its depth, passes, and its names can be sent |
| ScpRoot.PlaySucceeds | crates/rssh-test-support/src/ssh/scp.rs:242-249 | a play succeeds if and only if the script has no abort and the peer grants every await; it has then sent everything and used one answer for each await |
| ScpRoot.PlayFails | crates/rssh-test-support/src/ssh/scp.rs:242-249 | a play that fails has sent what comes before the action it stops at, and nothing more |
| ScpTransfer.NoDeadlock | crates/rssh-test-support/src/ssh/scp.rs:242-327 | in every reachable state of the two processes somebody can move without a deadline, or both have stopped |
| ScpTransfer.FatalNeverCompletes | crates/rssh-test-support/src/ssh/scp.rs:190-193 | the message of a source that gives up, wherever it may give up, never lets the sink end well |
| ScpTransfer.EveryMoveIsProgress | crates/rssh-test-support/src/ssh/scp.rs:251-471 | each enabled move lowers a measure |
| ScpTransfer.EveryRunIsFinite | crates/rssh-test-support/src/ssh/scp.rs:251-471 | in every schedule the moves made, with the work left over, are at most the work at the start |
| ScpTransfer.DepthBoundIsTight | crates/rssh-test-support/src/ssh/scp.rs:281 | 31 nested directories below the first are sent without abort and not transferable; 30 are transferable |
| ScpTransfer.ChainLimits | crates/rssh-test-support/src/ssh/scp.rs:416 | for chains of any length: what the source sends and what the sink takes, with limits that differ by one |
| ScpReceipt.EntryDelivered | crates/rssh-test-support/src/ssh/scp.rs:407-471 | for every tree at every depth the sink keeps pace with the awaited acknowledgements, stores exactly the tree if it is transferable and refuses otherwise |
| ScpReceipt.DirectoryDelivered | crates/rssh-test-support/src/ssh/scp.rs:427-451 | the same for a directory: D record, entries, E record, and the stack is back where it was |
| ScpReceipt.EntriesDelivered | crates/rssh-test-support/src/ssh/scp.rs:435-449 | the same for a listing: siblings with different names do not disturb each other |
| ScpReceipt.FileDelivered | crates/rssh-test-support/src/ssh/scp.rs:452-467 | a file's C record, data and zero byte earn two acknowledgements and store its data with the masked mode below the current directory or at the forced path, or the record is too long and is refused |
| ScpReceipt.ForcedEntryDelivered | crates/rssh-test-support/src/ssh/scp.rs:303-323 | a sink with a forced path stores a transferable file there and refuses every directory |
| ScpSource.SendEntry | crates/rssh-test-support/src/ssh/scp.rs:407-471 | sends what playing the entry's script against the peer's bytes sends, succeeds exactly when the play does, and consumes the same acknowledgements |
| ScpSource.SendSource | crates/rssh-test-support/src/ssh/scp.rs:379-405 | refuses a target that is not relative, missing or badly named; otherwise awaits the greeting and plays the script of the requested entry, which `ScpRoot` proves to be the entry that lies at the path |
| ScpSource.PlayAppend | crates/rssh-test-support/src/ssh/scp.rs:242-249 | playing two scripts in a row is playing the first and, if it ended well, the second on what is left |
| ScpSink.EveryStreamIsSafe | crates/rssh-test-support/src/ssh/scp.rs:256-327 | for every byte stream the stack is never empty, at most 32 high, starts at the target and grows by one valid name at a time; files change only below the target or at the forced path; a completed run has as many E as D records and has sent 1 + #T + #D + #E + 2 #C acknowledgements |
| ScpSink.FeedKeepsInv | crates/rssh-test-support/src/ssh/scp.rs:260-325 | the invariant behind it, kept by every input from every state |
| ScpSink.FeedAppend | crates/rssh-test-support/src/ssh/scp.rs:195-248 | feeding bytes in two parts is feeding them at once |
| ScpSink.RejectedForGood | crates/rssh-test-support/src/ssh/scp.rs:324 | after a refusal nothing is stored or acknowledged any more |
| ScpWire.Wire.ReceiveSink | crates/rssh-test-support/src/ssh/scp.rs:251-327 | outcome, files and acknowledgements are those of the byte machine on the concatenated payloads, and success also needs the peer's end of file or close |
| ScpWire.Wire.ReceiveFile | crates/rssh-test-support/src/ssh/scp.rs:303-323 | a C record and its data do what the byte machine does with the same bytes, the forced name used once |
| ScpWire.Wire.EnterDirectory | crates/rssh-test-support/src/ssh/scp.rs:278-295 | a D record does what the byte machine does with it |
| ScpWire.Wire.ReadByte | crates/rssh-test-support/src/ssh/scp.rs:195-213 | takes the first byte still to come, or finds none and records whether the peer ended the stream |
| ScpWire.Wire.ReadLine | crates/rssh-test-support/src/ssh/scp.rs:215-232 | takes one whole line within the limit, or shows that there is none and whether one was begun |
| ScpWire.Wire.ReadExact | crates/rssh-test-support/src/ssh/scp.rs:234-240 | takes exactly the bytes asked for, or too few are left |
| ScpWire.SplittingIsInvisible | crates/rssh-test-support/src/ssh/scp.rs:195-213 | cutting a message in two changes neither payload nor end of stream |
| ScpWire.FeedOneLine | crates/rssh-test-support/src/ssh/scp.rs:215-232 | the bytes of a line have the effect of its record |
| ScpWire.FeedWithoutLine | crates/rssh-test-support/src/ssh/scp.rs:215-232 | 8192 bytes without a newline are refused, fewer stay an unfinished line |
| ScpText.ControlRoundTrip | crates/rssh-test-support/src/ssh/scp.rs:502-517 | parsing a printed control record returns its name and size and the low nine bits of its mode |
| ScpText.TimesAccepted | crates/rssh-test-support/src/ssh/scp.rs:473-500 | every printed time record is accepted |
| ScpText.OctalRoundTrip | crates/rssh-test-support/src/ssh/scp.rs:507-508 | a mode printed with four octal places or more parses back |
| ScpText.DecimalRoundTrip | crates/rssh-test-support/src/ssh/scp.rs:509-513 | a size printed in decimal parses back |
| ScpRecords.ControlMeansRecord | crates/rssh-test-support/src/ssh/scp.rs:502-517 | a line is read as a control record exactly when it is its letter, an octal number, a blank, a decimal number, a blank, a name and a newline, is UTF-8 and its numbers do not overflow; which numbers and which name it gives |
| ScpRecords.TimesMean | crates/rssh-test-support/src/ssh/scp.rs:491-500 | a time record is accepted exactly when it is UTF-8 and has four fields, each a 64-bit number |
| ScpRecords.TimesAreTold | crates/rssh-test-support/src/ssh/scp.rs:473-489 | when times are kept an entry begins with a record whose four fields read as its modification time, zero, its access time, zero (the modification time where there is no access time); otherwise with none |
| ScpRecords.FieldsPart | crates/rssh-test-support/src/ssh/scp.rs:493-495 | any ASCII white space parts fields and none is made by white space at an end |
| ScpRecords.NumberMeans | crates/rssh-test-support/src/ssh/scp.rs:507-513 | a number is a non-empty string of digits with at most one plus sign before it, and its value that of its digits by place, unless it overflows |
| ScpRecords.Utf8Means | crates/rssh-test-support/src/ssh/scp.rs:506 | bytes are UTF-8 exactly when they are the encoding of a text of scalar values (section 3 of RFC 3629) |
| ScpRecords.ValidNameMeans | crates/rssh-test-support/src/ssh/scp.rs:534-543 | a name is valid exactly when it is not empty, not a dot or two, and its text has no slash, backslash or control character |
| ScpRecords.PortableNameMeans | crates/rssh-test-support/src/ssh/scp.rs:551-566 | a valid name is taken as it is; of an absolute Windows path its last component, if that is valid; nothing else |
| ScpRecords.LeafMeans | crates/rssh-test-support/src/ssh/scp.rs:563 | the leaf is what follows the last slash or backslash, and everything when there is none |
| ScpRecords.NormalsMean | crates/rssh-test-support/src/ssh/scp.rs:519-532 | the path of a target is its normal components, in order |
| ScpRecords.StartMeans | crates/rssh-test-support/src/ssh/scp.rs:334-377 | where a sink starts: below an existing directory, at a file or a new name, or in a directory made for it |
| ScpRecords.OnlyRecordsAreAccepted | crates/rssh-test-support/src/ssh/scp.rs:260-325 | what each accepted line says and does to the sink; every other line is refused |
| ScpRecords.FileIsStored | crates/rssh-test-support/src/ssh/scp.rs:303-323 | a file is stored and acknowledged when a zero byte follows its data, at the forced path or below the directory |
| ScpRecords.CompletedMeans | crates/rssh-test-support/src/ssh/scp.rs:258-277 | a sink is done only between two records, in its target, with a forced file stored |
| Quoting.EncodedIsTokenised | crates/rssh-ssh/src/russh_client.rs:392-410 | a POSIX tokeniser returns exactly the argument vector, empty arguments included, and every argument character is quoted |
| Quoting.EncodingIsInjective | crates/rssh-ssh/src/russh_client.rs:392-410 | different argument vectors give different commands |
| Quoting.QuotedLiterally | crates/rssh-ssh/src/russh_client.rs:392-410 | an argument without a single quote stands between two of them unchanged; a single quote is closed, double-quoted and reopened |
| Quoting.EncodePosixRemoteCommand | crates/rssh-ssh/src/russh_client.rs:392-410 | the loops compute the specified encoding |
| ShellWords.SplittingUndoesEncoding | crates/rssh-test-support/src/ssh/scp.rs:103-143 | splitting an encoded vector succeeds if and only if no argument has a control character, dollar sign or backquote, and returns the non-empty arguments in order |
| ShellWords.ParseShellWords | crates/rssh-test-support/src/ssh/scp.rs:103-143 | the loop computes the specified words or refuses |
| ShellText.WrittenIsSplit | crates/rssh-test-support/src/ssh/scp.rs:103-143 | for every way to write a command: plain and escaped characters and single- and double-quoted stretches stand for their characters, neighbours join, blanks separate, words that stand for nothing are dropped; an open quote, a last backslash, a control character, a dollar sign or a backquote refuses it |
| ShellText.EveryCommandIsWritten | crates/rssh-test-support/src/ssh/scp.rs:103-143 | every command at all is written in one of these ways, so the characterisation leaves none out |
| ScpCommand.QuotedRequestIsUnderstood | crates/rssh-test-support/src/ssh/scp.rs:34-91 | for every argument vector, with flag words and targets in any number and order: the quoted command is accepted exactly when all flags are known, one direction and one target are given, with exactly those flags and that target; with an argument the splitter refuses it is no scp command |
| ScpCommand.FlagsRead | crates/rssh-test-support/src/ssh/scp.rs:55-80 | exactly which flag words are accepted and what each flag sets |
| ScpCommand.WordsInAnyOrder | crates/rssh-test-support/src/ssh/scp.rs:54-83 | the order of flag words and targets does not matter: reading them is reading all flags, then all targets |
| ScpCommand.RefusedIsNotScp | crates/rssh-test-support/src/ssh/scp.rs:35-43 | a quoted command that the splitter refuses is not taken for an scp command |
| ScpCommand.EveryCommandIsRead | crates/rssh-test-support/src/ssh/scp.rs:34-91 | however a command is written: if it splits it is an scp request exactly when its first word is `scp`, decided by the other words; if not it is a broken request exactly when `scp` begins it behind white space |
| ScpCommand.FlagWordMeans | crates/rssh-test-support/src/ssh/scp.rs:55-57 | a flag word is a dash and at least one character |
| ScpCommand.UsualRequests | crates/rssh-test-support/src/ssh/scp.rs:54-90 | the request made of the usual flags, apart or together, before or behind the target; a lone dash is a target |
| ScpCommand.ParseScpRequest | crates/rssh-test-support/src/ssh/scp.rs:34-91 | the loops compute the specified request, error or refusal |
| ChannelReader.Reader.ReadCancellable | crates/rssh-ssh/src/russh_client.rs:2368-2428 | pending bytes are handed out first and nothing is read after the end; otherwise the first wakeup that carries data, closes, ends, cancels or times out decides the result, whether the reader has finished (exactly for an ended stream or a close), which messages were taken and which wakeups are left; bytes handed out and pending are the payload of the messages taken, and what was taken and is still to come is what there was |
| ChannelReader.ZeroReadMeans | crates/rssh-ssh/src/russh_client.rs:2389-2428 | for any wakeups a waiting read gives zero bytes if and only if the input ends there or an empty payload is met, and never for both; a cancellation or a deadline never reads as zero |
| ChannelReader.Reader.OneWakeup | crates/rssh-ssh/src/russh_client.rs:2389-2425 | takes one wakeup: a cancellation, a deadline, an end or a message each have their own result, and the reader has finished exactly at an end or a close |
| ChannelReader.CopyStep | crates/rssh-ssh/src/russh_client.rs:2412-2425 | waiting again and again delivers the payload before the first close, end, empty payload, cancellation or deadline, and stops there |
| ChannelReader.Reader.FillFromPending | crates/rssh-ssh/src/russh_client.rs:2348-2356 | moves the front of the queue into the buffer and leaves the rest of both |
| ChannelReader.Reader.Handle | crates/rssh-ssh/src/russh_client.rs:2412-2425 | one message ends the read exactly when it carries data or is a close, with zero bytes exactly for a close or an empty payload |
| ChannelReader.Reader.Take | crates/rssh-ssh/src/russh_client.rs:2437-2468 | taking a message keeps: delivered and pending bytes are the payload taken, the result is the last status and signal seen, and the reader has finished exactly when the input has ended |
| ChannelReader.EmptyPayloadLooksLikeTheEnd | crates/rssh-ssh/src/russh_client.rs:2416-2418 | the failing case: after one empty payload a read returns zero and the input has not ended |
| ChannelReader.EveryCutIsReadBack | crates/rssh-ssh/src/russh_client.rs:2437-2468 | sent bytes are read back in full and in order, however they are cut into data and extended data and whatever other messages come between |
| ChannelReader.WaitComesTo | crates/rssh-ssh/src/russh_client.rs:2389-2428 | what a wait comes to, for any messages passed over and each wakeup that ends it |
| ChannelReader.LastResultIsKept | crates/rssh-ssh/src/russh_client.rs:2437-2468 | the result holds a status or a signal exactly when it was the last one sent |
| Session.EveryRunConservesInput | crates/rssh-ssh/src/lib.rs:1297-1356 | under every schedule the bytes the transport took are a prefix of the data events, and input_bytes is the saturated length of the completely written events |
| Session.EveryRunIsOrdered | crates/rssh-ssh/src/russh_client.rs:2532-2683 | data and resizes before end-of-file, at most one end-of-file, at most one close, nothing after it (section 5.3 of RFC 4254) |
| Session.EveryRunPrintsInOrder | crates/rssh-ssh/src/lib.rs:1385-1405 | the local output holds a prefix of what was read |
| Session.SuccessMeans | crates/rssh-ssh/src/lib.rs:1258-1294 | a success has written and counted every byte read and has sent exactly one close, as the last message |
| Session.ErrorsInOrder | crates/rssh-ssh/src/lib.rs:1286-1294 | the outcome is the output error, else the input error, else the close error, else success |
| Session.EveryResizeIsForwarded | crates/rssh-ssh/src/lib.rs:1315-1321 | resizes are forwarded one by one before the next event; at most the last is lost when the pump ends |
| Session.PumpStopsForAReason | crates/rssh-ssh/src/lib.rs:1302-1336 | the pump ends without error only if the flag is up, end-of-file was sent or the channel was closed |
| SessionEvents.EveryRunHasReasons | crates/rssh-ssh/src/lib.rs:1302-1336 | in every run the flag is up only for a cancel event or once the runner has raised it; end-of-file is sent only for an end of input; a pump that ended well with the flag down took the end of input last and sent end-of-file last; before the runner is done a close is sent only for a cancel event or after an error |
| SessionEvents.RunnerEnds | crates/rssh-ssh/src/lib.rs:1275-1295 | after the output the runner raises the flag, joins the pump, closes an open channel unless the pump ended with an error, and reports the first error of output, input and close |
| SessionEvents.RunnerLosesThePump | crates/rssh-ssh/src/lib.rs:1276-1281 | a lost pump is reported behind an output error, and nothing is closed |
| SessionScript.EventIsTaken | crates/rssh-ssh/src/lib.rs:1302-1336 | each event leads to its own place in the pump |
| SessionScript.EofIsSent | crates/rssh-ssh/src/lib.rs:1327-1330 | the end of input sends end-of-file, leaves the flag alone and ends the pump well |
| SessionScript.CancelCloses | crates/rssh-ssh/src/lib.rs:1322-1326 | a cancel event raises the flag, closes the channel and ends the pump well |
| SessionScript.ResizeIsForwarded | crates/rssh-ssh/src/lib.rs:1315-1321 | a resize is forwarded as one message |
| SessionScript.WriteTakes | crates/rssh-ssh/src/lib.rs:1338-1356 | a write takes the next bytes of the event, in order, as one message |
| SessionScript.ErrorCloses | crates/rssh-ssh/src/lib.rs:1258-1264 | after an error the channel is closed once and the pump ends with the error |
| SessionScript.BrokenWritesAreErrors | crates/rssh-ssh/src/lib.rs:1338-1356 | a write that breaks is an error and keeps what was taken |
| SessionScript.FlagStops | crates/rssh-ssh/src/lib.rs:1302-1336 | with the flag up the pump stops well at its next look, and an event that came with it is not served |
| SessionLoops.InputPump.PumpInputEvents | crates/rssh-ssh/src/lib.rs:1297-1336 | the loop moves as the script drives the step machine and stops only at its end, or waiting with the script used up: bytes taken are a prefix of the data received, input_bytes is the length of the complete events, messages are in order; the flag is up only for a cancel event or by the runner, end-of-file is sent only for the end of input, and a good end with the flag down has taken the end of input and sent end-of-file last |
| SessionLoops.InputPump.RunPump | crates/rssh-ssh/src/lib.rs:1258-1277 | the pump's thread, with one more close after an error: for every script it ends in the state, and has sent the messages, that the script makes of the step machine, with the same reasons for the flag, end-of-file and a good end, and waits for more only when the script has ended |
| SessionLoops.InputPump.WriteAllToShell | crates/rssh-ssh/src/lib.rs:1338-1356 | the loop writes all, or stops at the flag, an error or a write of zero bytes, each where the script drives the machine; it is unfinished only with the script used up |
| SessionLoops.InputPump.RecvCancellable | crates/rssh-ssh/src/lib.rs:1185-1214 | polls until the script brings an event or the flag; an event is handed out only while the flag is down after waking up, and the machine is where the script drives it |
| SessionLoops.InputPump.WriteCancellable | crates/rssh-ssh/src/russh_client.rs:2595-2618 | lifecycle first, then the flag, then the transport, as the script drives the machine; what was taken is recorded even when the write is given up |
| SessionLoops.InputPump.CloseChannel | crates/rssh-ssh/src/russh_client.rs:2662-2671 | a second close sends nothing, a refused one leaves the lifecycle open, as the script drives the machine |
| SessionLoops.InputPump.FinishInput | crates/rssh-ssh/src/russh_client.rs:2673-2682 | end-of-file is sent at most once and never after a close, as the script drives the machine |
| SessionLoops.InputPump.ResizeCancellable | crates/rssh-ssh/src/russh_client.rs:2631-2654 | a resize is forwarded, refused, or given up once the flag is up, as the script drives the machine |
| SessionScript.DriveIsARun | crates/rssh-ssh/src/lib.rs:1297-1336 | the state a script drives the machine to is reached by a run of pump and runner, so the theorems on runs hold of it |
| SessionLoops.OutputPump.CopySessionToOutput | crates/rssh-ssh/src/lib.rs:1385-1405 | over the native reader, for any arrivals and any answers of the output: result, printed bytes, count and answers taken are those of the specified copy; it ends well if and only if the input stops at a close, an end of stream or an empty payload and the output accepts every chunk before, with exactly the payload before it printed and counted and the input really ended unless the payload was empty; it waits on if and only if the answers are too few and none is a refusal; it fails only at a cancellation or deadline, with all before it printed, or at the first refusal |
| SessionScript.CopyingEnds | crates/rssh-ssh/src/lib.rs:1385-1405 | for every list of chunks and answers the copy ends well exactly if the reads end quietly and every chunk is written and flushed, and is unfinished exactly if the answers run out without a refusal |
| SessionScript.CopyingPrints | crates/rssh-ssh/src/lib.rs:1396-1402 | what is printed is a prefix of the chunks in order, and all of them after a good end |
| SessionScript.CopyingTakes | crates/rssh-ssh/src/lib.rs:1396-1402 | a failed copy has taken the answers up to the first refusal, or the reads failed after everything was printed |
| ChannelReader.PiecesBeforeJoin | crates/rssh-ssh/src/russh_client.rs:2348-2356 | reading a payload in pieces of the buffer's size loses and reorders nothing |
| ChannelReader.PiecesStep | crates/rssh-ssh/src/russh_client.rs:2412-2425 | a wait that data ends brings exactly the pieces of that payload, and any other ends the reads |
| Session.RunKeepsInv | crates/rssh-ssh/src/lib.rs:1248-1356 | every interleaving keeps the invariant, and the cancellation flag never goes back |
| Session.LifecycleNeverRefuses | crates/rssh-ssh/src/russh_client.rs:2533-2543 | while the pump takes events its writer is neither closed nor finished, so a write is never refused for that |
| SessionCount.CountExactUnlessCutShort | crates/rssh-ssh/src/lib.rs:1309-1312 | for every sequence of events a pump can take: every successful run counts exactly the bytes transported if and only if the last event is not non-empty data, or the earlier data saturate the count |
| SessionCount.CountExactUnlessCutInTwo | crates/rssh-ssh/src/russh_client.rs:2595-2618 | the same equivalence, with two bytes or more in the last event, for a transport that never takes all that is left of a write and still reports it as given up |
| SessionCount.EveryRunTakesFeasibly | crates/rssh-ssh/src/lib.rs:1302-1336 | in every run only the last event taken can be one that ends the pump |
| SessionCount.Forwarded | crates/rssh-ssh/src/lib.rs:1302-1321 | every sequence of data and resizes can be taken and forwarded in full |
| Session.CancellationEndsThePump | crates/rssh-ssh/src/lib.rs:1185-1214 | once the flag is up the pump makes at most four more steps, whoever else moves |
| Session.PumpIsNeverStuck | crates/rssh-ssh/src/russh_client.rs:2595-2654 | with the flag up the pump can go on without an event, window space or an answer if and only if it does not await the answer to a close or an end-of-file, and then either answer moves it on |
| Session.OrderMeans | crates/rssh-ssh/src/russh_client.rs:2532-2568 | the stepwise order kept by the writer is the order of any two messages, both ways |
| Wakeups.NoLostWakeups | crates/rssh-ssh/src/russh_client.rs:472-493 | every schedule of waiters, cancellers, registrations and drops keeps: a parked waiter with no notification due has a false condition or somebody is about to notify; the counter is the number of live guards |
| Wakeups.ParkedWaiterHasAReason | crates/rssh-ssh/src/russh_client.rs:561-597 | the same read from the start: the flag is down, a guard is live, or a notification is coming |
| Wakeups.ReturnsExactlyWhen | crates/rssh-ssh/src/russh_client.rs:573-584 | in every run a waiter returns exactly in the step in which it checks and finds the flag raised, or no guard live |
| Wakeups.WaiterReturns | crates/rssh-ssh/src/russh_client.rs:573-584 | when the condition holds and all have notified, four own steps bring any waiter home |
| Wakeups.CancellationIsPermanent | crates/rssh-ssh/src/russh_client.rs:518-539 | a cancellation is never undone |
| RemoteForward.NeverPolledTwice | crates/rssh-ssh/src/russh_client.rs:2179-2285 | over every sequence of calls, timers and tasks the session is never polled after completion and the debug assertion never fires |
| RemoteForward.HandleTellsTheTruth | crates/rssh-ssh/src/russh_client.rs:2179-2277 | between calls the handle is present if and only if the session has not been joined |
| RemoteForward.SuccessLeavesNothing | crates/rssh-ssh/src/russh_client.rs:2136-2147 | after a call that returned success there is no session and no task, for ever |
| RemoteForward.ShutdownReports | crates/rssh-ssh/src/russh_client.rs:2058-2093 | requests go out in one order and go on after an error; session-terminal means joined; the result is the earliest error exactly when there was no timeout |
| RemoteForward.WaitReports | crates/rssh-ssh/src/russh_client.rs:1987-2001 | a wait reports success only for a clean end of the session, while a disconnect is no error for the join of a shutdown |
| RemoteForward.StopsWhenAsked | crates/rssh-ssh/src/russh_client.rs:2256-2268 | a wait in its select that has been asked to stop raises the cancellation and starts the shutdown in its next own step, also when the session has ended by then; the call ends within six steps of its own and of its timers and returns what a shutdown returns |
| RemoteForward.CallReturns | crates/rssh-ssh/src/russh_client.rs:2179-2277 | what each call returns in every run: a time-out if and only if its timer fired, otherwise for a shutdown, or a wait that saw the request, the error of the earliest failed request, and for other waits the error of the session first |
| RemoteForward.WaitsForTheSession | crates/rssh-ssh/src/russh_client.rs:2256-2277 | a wait goes on until the session has ended, and no longer, unless it was asked to stop |
| RemoteForward.ShutdownRuns | crates/rssh-ssh/src/russh_client.rs:2058-2093 | the steps of a shutdown with their requests and result, for every pair of answers and every end of the session |
| RemoteForward.WaitRuns | crates/rssh-ssh/src/russh_client.rs:1987-2001 | the steps of a wait after the session has ended, with its result |
| RemoteForward.NothingToWaitFor | crates/rssh-ssh/src/russh_client.rs:2249-2256 | without a session every call cancels and returns success once no task is left |
| RemoteForward.CallsStart | crates/rssh-ssh/src/russh_client.rs:2179-2285 | which call starts where, and which of them cancel at once |
| RemoteForward.DropSkipsOnlyWhenEmpty | crates/rssh-ssh/src/russh_client.rs:2279-2285 | a drop without shutdown had nothing to shut down; any other has cancelled |
| RemoteForward.EveryReturnCancels | crates/rssh-ssh/src/russh_client.rs:2136-2147 | every call that returned has told the tasks to stop |
| RemoteForward.TimersEndCalls | crates/rssh-ssh/src/russh_client.rs:2083-2092 | over any run, whatever the session and the tasks do in between, a call ends after at most six steps of its own and of its timers, except in the two open-ended waits |
| RemoteForward.RunKeepsInv | crates/rssh-ssh/src/russh_client.rs:2156-2285 | the invariant of the machine over every run |
| LazyRuntime.OneRuntimeForEverybody | crates/rssh-ssh/src/russh_client.rs:807-822 | for any number of threads at most one runtime is built, all successes are that one, and the concurrent-initialisation error is unreachable |
| LazyRuntime.PanicIsTheEnd | crates/rssh-ssh/src/russh_client.rs:807-822 | in every run a caller is told of a poisoned lock only when a construction has panicked, and from then on there is no runtime and none is built |
| LazyRuntime.CallerAlone | crates/rssh-ssh/src/russh_client.rs:807-822 | what an undisturbed caller gets and leaves behind, for each state of slot and lock and each outcome of the construction |
| LazyRuntime.RunKeepsInv | crates/rssh-ssh/src/russh_client.rs:781-822 | the invariant behind it; an installed runtime is never replaced |
| LazyRuntime.NobodyIsStuck | crates/rssh-ssh/src/russh_client.rs:807-822 | a caller can go on or the holder of the lock can |
| KnownHosts.TrustOnFirstLearner | crates/rssh-ssh/src/russh_client.rs:1789-1886 | connections one after another to an unnamed endpoint under any mix of policies: the policies decide up to the first learner, its key is the only one ever learned, and from then on exactly that key is accepted |
| KnownHosts.PinnedForGood | crates/rssh-ssh/src/russh_client.rs:1789-1886 | a recorded key alone is accepted and the file stays as it is |
| HostKeyOverlap.OneKeyUnlessOvertaken | crates/rssh-ssh/src/russh_client.rs:1789-1886 | connections that overlap in any schedule: while no write overtakes a rival at most one key is learned and only that one is recorded; from the first write that does, two different keys can be learned |
| HostKeyOverlap.OneKeyExactlyWhenLearnersAgree | crates/rssh-ssh/src/russh_client.rs:1789-1886 | to an unnamed endpoint at most one key is learned under every schedule if and only if all connections whose policy can write carry the same key |
| HostKeyOverlap.CheckedAfterLearning | crates/rssh-ssh/src/russh_client.rs:1797-1809 | a connection that looks after a key was learned is accepted exactly with that key and learns nothing |
| HostKeyOverlap.TwoFirstUsesRace | crates/rssh-ssh/src/russh_client.rs:1855-1863 | the smallest race: two first uses that both look before either writes are both accepted and learn both keys |
| HostKeyOverlap.AloneIsSequential | crates/rssh-ssh/src/russh_client.rs:1789-1886 | a connection that runs alone does what the sequential check does |
| KnownHosts.LearnAddsOneRow | crates/rssh-ssh/src/russh_client.rs:70-106 | learning keeps all earlier words and adds exactly one row, with or without a final newline |
| KnownHosts.LearnedRowIsWritten | crates/rssh-ssh/src/russh_client.rs:97-101 | the learned row is the bare host on port 22 and otherwise the bracketed host, a colon and digits that read as the port, then algorithm and data |
| KnownHosts.EndpointsDoNotMix | crates/rssh-ssh/src/russh_client.rs:70-106 | for hosts without brackets: learning a key for one endpoint changes neither what the file names nor what it records for any other endpoint, the same host on another port included |
| KnownHosts.LineNames | crates/rssh-ssh/src/russh_client.rs:1757-1777 | a line names an endpoint if and only if its first word lists the bracketed host with the port, or on port 22 the bare host |
| KnownHosts.PageNames | crates/rssh-ssh/src/russh_client.rs:1757-1777 | a file names an endpoint if and only if one of its lines does |
| KnownHosts.PageIsRead | crates/rssh-ssh/src/russh_client.rs:1763-1770 | lines and words of a file are read back as they were written |
| KnownHosts.TrustNeedsAReason | crates/rssh-ssh/src/russh_client.rs:1789-1886 | a matching key is accepted, a changed one or an unreadable file never is, an unknown one exactly by the policies that say so, and the file changes exactly when a policy learns |
| KnownHosts.LearnedEndpointIsFound | crates/rssh-ssh/src/russh_client.rs:1757-1777 | a learned endpoint is found by the lookup |
| KnownHosts.LearnedIsTheOnlyKey | crates/rssh-ssh/src/russh_client.rs:70-106 | after learning an unnamed endpoint its key, and no other, is recorded for it |
| KnownHosts.TableCheckIsDocumented | crates/rssh-ssh/src/russh_client.rs:56-68 | the assumption on the library's check can be met |
| Cleanup.BoundedCleanup | crates/rssh-test-support/src/process.rs:210-250 | for any answers of the child: it is reaped if and only if one of the polls of the grace period (one at once and one after each interval, the last cut short) sees the exit; it is deferred only after all of them, having slept exactly the grace if the deadline can be represented; kills are tried once before each wait until one succeeds; the outcome carries the most recent error and the status of the last poll |
| Cleanup.LastErrorMeans | crates/rssh-test-support/src/process.rs:222-240 | the most recent error is that of the last failed kill or poll |
| Cleanup.KillsOnce | crates/rssh-test-support/src/process.rs:222-232 | in a legal trace no kill follows a successful one |
| Cleanup.ExitIsLast | crates/rssh-test-support/src/process.rs:233-240 | in a legal trace nothing follows the poll that saw the exit |
| Ownership.ChildGuard.CleanUp | crates/rssh-test-support/src/process.rs:398-452 | bounded cleanup empties the guard: the child is reaped if and only if a poll within the grace sees its exit, otherwise it is last in the reaper's queue exactly when the grace is over; the error reported is the most recent one |
| Ownership.ChildGuard.Terminate | crates/rssh-test-support/src/process.rs:398-452 | the same with a grace of two seconds or what is left until the guard's own deadline |
| Ownership.ChildGuard.Wait | crates/rssh-test-support/src/process.rs:454-491 | the first poll that does not find the child running decides the result: its exit status, with no kill, or its error; without one only the deadline ends the wait; returns at most one cleanup period after the deadline, with the child reaped or queued |
| Ownership.ChildGuard.TryWait | crates/rssh-test-support/src/process.rs:493-516 | keeps the child exactly while it is still running; otherwise the one poll decides the result, and a child that has exited is not killed |
| Ownership.ChildGuard.TerminateAfterTimeout | crates/rssh-test-support/src/process.rs:518-555 | a timeout reaps the child if and only if a poll within the grace sees its exit and otherwise queues it, at the exact end of the grace |
| Ownership.ChildGuard.TerminateAfterObservationError | crates/rssh-test-support/src/process.rs:557-592 | so does an observation error, which is kept as the source of the result |
| Ownership.ChildGuard.Drop | crates/rssh-test-support/src/process.rs:627-644 | so does a drop |
| Ownership.Processes.RunCalls | crates/rssh-test-support/src/process.rs:398-758 | over every sequence of spawns, guard calls and reaper rounds each spawned child is in exactly one of guards, queue, reaper and reaped, and a poll made of each reaped one saw its exit; each call does what its step says, and there are as many new guards and children as spawns |
| Ownership.Processes.RunCall | crates/rssh-test-support/src/process.rs:398-758 | a spawn gives a new guard a new child; a round empties the queue and reaps the dying; a wait, termination or drop of a guard with a child lets it go to the queue or the reaped ones; a call of an empty guard changes nothing |
| Ownership.Processes.SpawnChild | crates/rssh-test-support/src/process.rs:374-390 | the new guard holds the new child, which nobody has polled or killed |
| Ownership.EverySpawnCounts | crates/rssh-test-support/src/process.rs:398-758 | in every history guards and children grow by exactly the spawns, and no child is forgotten |
| Ownership.Processes.CallGuard | crates/rssh-test-support/src/process.rs:398-644 | a call leaves the running child with its guard, or moves it to the end of the queue, or, once a poll has seen its exit, to the reaped ones |
| Ownership.Processes.ReapRound | crates/rssh-test-support/src/process.rs:738-757 | a round empties the queue, and of all it then has exactly those leave, last first, whose next poll sees an exit |
| Ownership.ReaperPass | crates/rssh-test-support/src/process.rs:741-757 | a backward pass polls every child once, last first, keeps exactly the unreaped ones and kills each of them again |
| Ownership.Guards.Use | crates/rssh-test-support/src/process.rs:398-644 | after a call of one guard all others hold what they held |
| Sweeps.PassEnds | crates/rssh-test-support/src/process.rs:741-757 | a finished pass has polled in reverse order and split the list into those that exited and those that did not |
| Sweeps.Connections.JoinFinished | crates/rssh-test-support/src/ssh/forward.rs:457-471 | a forward sweep visits every connection once, joins exactly the finished ones and keeps the first error |
| Sweeps.Connections.Drain | crates/rssh-test-support/src/ssh/forward.rs:483-515 | afterwards every connection was joined or deferred, a joined one only after it was found finished at some instant of the drain, the deferred ones unfinished at the last sweep and only once the deadline has passed; the result is the first error, else whether any was deferred; waits end at the deadline, and none was begun, at most five milliseconds before the end, without a connection that had not finished |
| Sweeps.FilteredSplits | crates/rssh-test-support/src/process.rs:717-758 | keeping and removing by one test partitions a list |
| Sweeps.SwapRemoveTail | crates/rssh-test-support/src/process.rs:735-750 | removing in place loses nothing but the removed element |
| Sweeps.FirstErrorAppend | crates/rssh-test-support/src/ssh/forward.rs:483-515 | the first error of two sweeps is that of the earlier one if it has one |
| Sweeps.FirstErrorMeans | crates/rssh-test-support/src/ssh/forward.rs:457-471 | the error reported is that of the first join that failed, and there is none exactly when none failed |
| TaskTracker.ChildTaskTracker.Shutdown | crates/rssh-test-support/src/ssh/server.rs:1075-1095 | closes, takes each task once, defers exactly those that end neither by the abort point nor, aborted, by the deadline, and these only once the deadline has come; every other task has ended when the call returns; returns true exactly when none was deferred, never waiting past the deadline |
| TaskTracker.DrainOwnedTasks | crates/rssh-test-support/src/ssh/server.rs:1097-1105 | whatever the order, exactly the tasks outstanding at the limit stay pending, and then the limit has come; the others have ended on return, and time has passed only as far as some wait needed |
| TaskTracker.OwnedTask.WaitUntil | crates/rssh-test-support/src/ssh/lifecycle.rs:222-235 | waits exactly until the task ends or the deadline comes; joins a task that ends in time, even one that had ended before a deadline already passed |
| TaskTracker.ShutdownDeadline.AbortAt | crates/rssh-test-support/src/ssh/lifecycle.rs:61-66 | the abort point is fifty milliseconds before the deadline when there is that much time, and otherwise now |
| TrackerLock.EveryRunCounts | crates/rssh-test-support/src/ssh/server.rs:1052-1073 | over every interleaving of lock, check, count, start, push, close and take, with tasks ending at any time: the count is the number of unfinished tasks, plus one exactly while a counted task is not started yet |
| TrackerLock.DecrementNeverWraps | crates/rssh-test-support/src/ssh/server.rs:1107-1113 | a task that ends finds the count above zero |
| TrackerLock.NothingStartsAfterClosing | crates/rssh-test-support/src/ssh/server.rs:1056-1061 | once closed is set no task starts in any continuation |
| TrackerLock.OnlyClosedTrackersRefuse | crates/rssh-test-support/src/ssh/server.rs:1056-1061 | in every run a spawn is refused only by a closed tracker |
| TrackerLock.SpawnAlone | crates/rssh-test-support/src/ssh/server.rs:1052-1073 | an undisturbed spawn counts, starts and lists its task, or changes nothing when the tracker is closed |
| TrackerLock.CloseAlone | crates/rssh-test-support/src/ssh/server.rs:1075-1082 | an undisturbed shutdown closes the tracker and takes every listed task in order |
| TrackerLock.ShutdownTakesEveryTask | crates/rssh-test-support/src/ssh/server.rs:1075-1082 | when a shutdown has left the lock every task ever started has been taken, each once, and the list is empty |
| TrackerLock.NobodyIsStuck | crates/rssh-test-support/src/ssh/server.rs:1056-1082 | whoever waits for the lock can go on once its holder has moved |
| Redaction.NothingLeaks | crates/rssh-test-support/src/process.rs:896-921 | after all passes and the truncation no value that can share no byte with the marker occurs in the output, for every input |
| Redaction.SafeExactlyOutsideTheMarker | crates/rssh-test-support/src/process.rs:896-921 | for values without angle brackets: all are hidden on every input if and only if none is part of the marker's word |
| Redaction.BracketlessIsApart | crates/rssh-test-support/src/process.rs:896-906 | a value without angle brackets can share a byte with the marker only inside its word |
| Redaction.ReplacedLacks | crates/rssh-test-support/src/process.rs:908-921 | replacing one value removes it and brings back no other that stays apart from the marker |
| Redaction.ReplaceAll | crates/rssh-test-support/src/process.rs:908-921 | the loop computes the leftmost, non-overlapping replacement |
| Redaction.ReplacedMeans | crates/rssh-test-support/src/process.rs:908-921 | the result is a replacement exactly when text and result are the same parts, joined by the value and by the marker, the value begins nowhere in a part before the match that follows it and is not in the last part |
| Redaction.PassesInOrder | crates/rssh-test-support/src/process.rs:896-901 | the values are replaced one after another, the first one first, and an empty one replaces nothing |
| Redaction.Capture.RedactValues | crates/rssh-test-support/src/process.rs:896-906 | the buffer becomes the result of all passes in order, truncated |

## Left out

- Transport errors of the fixture's own sends in the SCP source and sink; in `ScpWire` the receive deadline and a vanished channel are arrivals.
- Operating-system limits and permissions, symbolic links that point inside the root (they appear as what they point at), changes of the tree while it is sent, and Windows path prefixes of a sink target.
- Both loops of `SessionLoops` running at once as code: each runs against a script of what the other thread does, and the joint runs, with panics inside the pump, are those of the step machine `Session`.
- A panic of the runner thread, keepalives, and the plain (not cancellable) `write` of the native writer.
- `Session.PumpIsNeverStuck`: whether the transport ever answers a close or an end-of-file is not part of the model.
- The duration of waits in `RemoteForward` and `ScpTransfer`: a timer may fire at any bounded await.
- `Sweeps.Connections.Drain`: a wait lasts as long as it was asked for; a thread that is woken early sweeps more often.
- `HostKeyOverlap.OneKeyUnlessOvertaken`: one write of an entry to the file is one step, as is one read of the file.
- `Wakeups.WaiterReturns`: fairness of the scheduler is a hypothesis, namely that the waiter is run.
- `KnownHosts.EndpointsDoNotMix`: hosts that contain white space, a comma or a bracket, which no connection by name or address has.
- Hashed entries and bytes that are not text in a known_hosts file, a missing file or an error while writing it, and a client without a file of its own.
- Errors while reading captured output, the omission notice of the bounded read, and which environment variables count as secrets.
- Direct forwarding, authentication, connection plans, SFTP, the accept loop and the command line: single branches or thin wrappers around libraries.
- SSH encryption, key exchange and the scheduling inside the asynchronous runtime, which belong to libraries that are not part of this model.
