# Models of the rfb runtime

This project models the parts of rfb whose correctness is decided by their own code
(state machines, interleaved protocols, parsers, codecs and bounded readers) and
proves what they promise for every input, every chunking or every interleaving.

| module | models |
|---|---|
| Common | optional values, results, bytes and saturating arithmetic |
| Utf8, ChunkDecoder | UTF-8 with substitution of maximal subparts, and decoding in chunks |
| ProcessOutput | capture and forwarding of a child's output, and its capped result field |
| Glob | the single-star backtracking matcher |
| Wire, Payloads, Frames, WireLayout | the ZBRT codecs, and their bytes position by position |
| RequestLog, Service | the guest runtime service: one movable executor, bounded logs, cancellation |
| Connection | one ZBRT connection on top of the service |
| Orchestration | the host's session table under interleaved create, cancel and destroy |
| Cluster | node scheduling, half-open claims and in-flight slots as interleaved atomic steps |
| Shell, ShellRoundTrip, ShellParser | the mini shell: grammar, printer and the two imperative passes |
| SizeCache | the delta-patched workspace size against a recursive walk |
| AgentLine, AgentShrink, AgentJson | the agent's bounded line reader, its exec response and a reader for it |

Code that changes state in place is a class or a method with loops, proved against
functions; the theorems are about those functions. Protocols whose steps interleave
(Orchestration, Cluster, SizeCache) are state machines in which every lock-held region or
atomic operation is one step, and a run is any sequence of enabled steps.

Six promises hold only under a condition, which is proved exact:

- capped output is byte-exact unless it ends, after valid text, in a lead byte that announces
  more bytes than follow (BoundedExact, BoundedLosesBinaryTail);
- half-open claims keep an interval apart unless the gate saturates (SpacingExact);
- in-flight counts are exact unless `release` is used beside a live guard (ReleaseUndercounts);
- the workspace limit holds unless a process runs during the write (OvershootExact);
- a cancel that settles a session has cancelled its worker exactly when it had read one
  (CancelReachesWorker); a worker it misses comes from a create that read the generation after
  its bump, or a multiple of 2^64 bumps before, and such a create can leave the session Stopped
  with a live worker (CancelCanMissWorker);
- a Running handle that a create returns when it publishes has a live worker, unless the worker
  was given up and no other entry stands for the session (ReturnedHandleTruth); a destroy during
  provisioning makes it report a Running session that is gone (RunningWithoutWorker).

The comment on the half-open claim says that a burst probes at most once; claims with the
same time are ruled out for a positive recovery interval (ClaimsSpaced).

## Assumptions

- An executor answers a turn with an error or a terminal event
  (`rfb-runtime/src/workspace_executor/dispatch.rs:46-76`) and supports cancellation.
- Atomics are sequentially consistent; locks give mutual exclusion.
- Writes to the peer of a ZBRT connection succeed.
- The adapter never returns the same worker twice.
- A sort whose keys change while it runs still returns its elements, in some order.
- A read is interrupted only finitely often before it makes progress.
- The workspace holds no symbolic links and fewer than 2^64 bytes; a failed write leaves file
  contents unchanged; a process stops changing the tree before its final invalidation.

## Model

| member | source | states |
|---|---|---|
| Utf8.CompleteUnitIsWellFormed | rfb-runtime/src/utf8_boundary.rs:73-106 | the decoder step takes a whole character exactly when the bytes start with a row of Table 3-7 of the Unicode Standard, and then takes that row |
| Utf8.IncompleteUnitIsMaximalSubpart | rfb-runtime/src/utf8_boundary.rs:34-46 | any other step takes the maximal subpart: the longest prefix that still starts a well-formed sequence, or one byte |
| Utf8.LossyAtBoundary | rfb-runtime/src/utf8_boundary.rs:34-46 | lossy decoding of a stream splits at every decoder boundary |
| Utf8.LeadIsBoundary | rfb-runtime/src/utf8_boundary.rs:73-106 | every byte that is not a continuation byte starts a decoder step, in valid and invalid input alike |
| Utf8.LossyIdentity | rfb-runtime/src/utf8_boundary.rs:34-46 | lossy decoding changes nothing exactly when the bytes are valid UTF-8 |
| Utf8.LossyIsValid | rfb-runtime/src/utf8_boundary.rs:34-46 | lossy decoding always yields valid UTF-8 |
| ChunkDecoder.Utf8SafeSplit | rfb-runtime/src/utf8_boundary.rs:73-106 | the backward scan over at most three bytes finds the specified cut |
| ChunkDecoder.SafeSplit | rfb-runtime/src/utf8_boundary.rs:73-106 | at most three bytes are held back |
| ChunkDecoder.SafeSplitIsBoundary | rfb-runtime/src/utf8_boundary.rs:73-106 | the cut is a decoder boundary of the whole stream, whatever bytes follow |
| ChunkDecoder.Utf8ChunkDecoder.Decode | rfb-runtime/src/utf8_boundary.rs:34-42 | emits the lossy text of pending and chunk up to the cut and keeps the rest pending |
| ChunkDecoder.Utf8ChunkDecoder.Flush | rfb-runtime/src/utf8_boundary.rs:44-46 | emits the lossy text of what is pending and leaves nothing pending |
| ChunkDecoder.Utf8ChunkDecoder.DecodeBytes | rfb-runtime/src/utf8_boundary.rs:54-61 | the same cut on raw bytes |
| ChunkDecoder.Utf8ChunkDecoder.FlushBytes | rfb-runtime/src/utf8_boundary.rs:63-65 | hands out the pending bytes unchanged |
| ChunkDecoder.ChunkedTextIsLossyOfWhole | rfb-runtime/src/utf8_boundary.rs:34-46 | for every stream and every chunking, the decoded pieces plus the flush concatenate to the lossy text of the whole stream |
| ChunkDecoder.DecodeAll | rfb-runtime/src/utf8_boundary.rs:34-46 | a decoder fed chunk by chunk and flushed at the end returns pieces that concatenate to the lossy text of everything read |
| ChunkDecoder.ValidStreamHasValidPieces | rfb-runtime/src/utf8_boundary.rs:54-65 | if the whole stream is valid UTF-8, every raw piece is valid UTF-8 |
| ChunkDecoder.StreamConcatenates | rfb-runtime/src/utf8_boundary.rs:54-65 | the raw pieces concatenate to the stream: nothing is lost, repeated or reordered |
| ProcessOutput.ReadStream | rfb-runtime/src/workspace_executor/process.rs:540-560 | for every chunking the captured data is the stream up to the limit, the forwarded events carry the whole stream, and they are all text if the stream is text |
| ProcessOutput.StreamReader.CaptureChunk | rfb-runtime/src/workspace_executor/process.rs:507-523 | one chunk extends the capped capture and the forwarded events consistently with everything read so far |
| ProcessOutput.StreamReader.Finish | rfb-runtime/src/workspace_executor/process.rs:540-560 | the held-back tail is forwarded at the end of the stream |
| ProcessOutput.Forward | rfb-runtime/src/workspace_executor/process.rs:475-505 | forwarding keeps the bytes, as text when they are text |
| ProcessOutput.CaptureIsCappedPrefix | rfb-runtime/src/workspace_executor/process.rs:507-523 | capture chunk by chunk is the stream cut at the limit |
| ProcessOutput.BoundedText | rfb-runtime/src/workspace_executor/process.rs:564-582 | on text the result is text: the longest valid prefix within the cap, at most three bytes shorter than the cap |
| ProcessOutput.BoundedExact | rfb-runtime/src/workspace_executor/process.rs:564-582 | under the cap, output is reported byte for byte exactly when it does not end, after valid text, in a lead byte that announces more bytes than follow |
| ProcessOutput.BoundedLosesBinaryTail | rfb-runtime/src/workspace_executor/process.rs:564-582 | a binary output under the cap whose tail is dropped: 61 F0 80 becomes the text 61 |
| Glob.GlobMatches | rfb-runtime/src/glob.rs:14-38 | the single-star backtracking loop terminates and returns true exactly when the declarative matcher accepts |
| Glob.OnlyLastStarMatters | rfb-runtime/src/glob.rs:14-38 | when a later star is reached, forgetting the earlier one loses no match |
| Glob.MatchesStar | rfb-runtime/src/glob.rs:14-38 | a star matches exactly some number of leading bytes |
| Glob.MatchesAfterLiterals | rfb-runtime/src/glob.rs:14-38 | a star-free run of the pattern consumes its own length of text |
| Wire.FieldLaw | rfb-runtime/src/zeroboot_protocol.rs:314-340 | a length-prefixed field is read back, with the cursor right after it |
| Wire.TextsLaw | rfb-runtime/src/zeroboot_protocol.rs:355-382 | a counted list of texts is read back in order |
| Wire.OptionalLaw | rfb-runtime/src/zeroboot_protocol.rs:391-413 | an optional text is read back |
| Wire.WriteTexts | rfb-runtime/src/zeroboot_protocol.rs:355-381 | the encoding loop over a list appends exactly the specified bytes and fails exactly when a text is too long |
| Wire.ReadTexts | rfb-runtime/src/zeroboot_protocol.rs:355-381 | the decoding loop reads exactly the specified list and leaves the cursor after it |
| Payloads.StableReaderIsExact | rfb-runtime/src/zeroboot_protocol.rs:341-353 | a reader that never looks past what it consumes accepts an encoding and none of its strict prefixes or extensions |
| Payloads.HelloExact | rfb-runtime/src/zeroboot_protocol.rs:355-382 | every encodable Hello decodes to itself; every strict prefix and extension is rejected |
| Payloads.HelloAckExact | rfb-runtime/src/zeroboot_protocol.rs:549-572 | the same for HelloAck |
| Payloads.ExecuteExact | rfb-runtime/src/zeroboot_protocol.rs:383-433 | the same for Execute |
| Payloads.OutputExact | rfb-runtime/src/zeroboot_protocol.rs:434-448 | the same for Output |
| Payloads.ExitExact | rfb-runtime/src/zeroboot_protocol.rs:449-468 | the same for Exit, including negative codes |
| Payloads.CancelAlmostExact | rfb-runtime/src/zeroboot_protocol.rs:469-503 | Cancel decodes to itself; of its strict prefixes exactly one is accepted, the one ending after the reason, and it decodes with no target; every extension is rejected |
| Payloads.FsExact | rfb-runtime/src/zeroboot_protocol.rs:504-517 | the same as Hello for Fs |
| Payloads.HealthExact | rfb-runtime/src/zeroboot_protocol.rs:518-535 | the same for Health |
| Payloads.ErrorExact | rfb-runtime/src/zeroboot_protocol.rs:536-548 | the same for Error |
| Frames.KindRoundTrip | rfb-runtime/src/zeroboot_protocol.rs:180-214 | every frame kind survives its byte |
| Frames.FrameLaw | rfb-runtime/src/zeroboot_protocol.rs:223-258 | every encodable frame decodes to itself from any stream it starts, leaving the rest |
| Frames.DecodeStable | rfb-runtime/src/zeroboot_protocol.rs:235-258 | a successful decode does not depend on the bytes after the frame and leaves them unread |
| Frames.FramePrefixRejected | rfb-runtime/src/zeroboot_protocol.rs:235-258 | every strict prefix of an encoded frame is rejected |
| Frames.FramesRoundTrip | rfb-runtime/src/zeroboot_protocol.rs:223-258 | concatenated frames decode in order |
| Frames.ReadFrameSync | rfb-runtime/src/zeroboot_protocol.rs:46-62 | reading header and payload separately accepts the same streams as decoding in one go, with the same frame and rest |
| WireLayout.FrameLayout | rfb-runtime/src/zeroboot_protocol.rs:223-234 | a frame can be encoded exactly with zero flags and at most 16 MiB of payload; on the wire it is ZBRT, version 1, the kind byte, two zero bytes, the request id, the big-endian length and the payload, each at its place |
| WireLayout.KindNumbers | rfb-runtime/src/zeroboot_protocol.rs:180-194 | each kind has the number of the wire contract |
| WireLayout.NumberLayout | rfb-runtime/src/zeroboot_protocol.rs:314-319 | a number is written most significant byte first |
| WireLayout.FieldLayout | rfb-runtime/src/zeroboot_protocol.rs:314-319 | a field is its length and then its bytes |
| WireLayout.NamedListLayout | rfb-runtime/src/zeroboot_protocol.rs:355-364 | Hello and HelloAck: the name, the number of texts in one byte, the texts in order |
| WireLayout.ExecuteLayout | rfb-runtime/src/zeroboot_protocol.rs:383-400 | Execute: argument count, arguments, optional directory, input and deadline, each at its place |
| WireLayout.OutputLayout | rfb-runtime/src/zeroboot_protocol.rs:434-440 | Output: stream byte and data |
| WireLayout.ExitLayout | rfb-runtime/src/zeroboot_protocol.rs:449-458 | Exit: the code in two's complement and the optional signal |
| WireLayout.FsLayout | rfb-runtime/src/zeroboot_protocol.rs:504-511 | Fs: operation, path and data |
| WireLayout.HealthLayout | rfb-runtime/src/zeroboot_protocol.rs:518-530 | Health: verdict byte and optional message |
| WireLayout.ErrorLayout | rfb-runtime/src/zeroboot_protocol.rs:536-542 | Error: code and message |
| WireLayout.CancelLayout | rfb-runtime/src/zeroboot_protocol.rs:469-487 | Cancel: optional reason, then the target id behind a byte 1, or a byte 0 |
| RequestLog.RecordInto | rfb-runtime/src/runtime_service/mod.rs:75-111 | the eviction loops leave exactly the specified log |
| RequestLog.RecordNew | rfb-runtime/src/runtime_service/mod.rs:75-111 | a new key keeps tombstones plus retained order equal to the duplicate-free last-512 suffix of the unbounded history |
| RequestLog.RecordAgain | rfb-runtime/src/runtime_service/mod.rs:97-111 | recording a retained key again replaces its result and leaves the history as it was |
| RequestLog.RecordStores | rfb-runtime/src/runtime_service/mod.rs:75-111 | after a recording the key holds its responses and every other result still there is unchanged |
| RequestLog.RefusedIffRemembered | rfb-runtime/src/runtime_service/mod.rs:299-366 | a key is refused by a log exactly when it is among the last 512 recorded |
| RequestLog.ForgottenOnlyAfterMany | rfb-runtime/src/runtime_service/mod.rs:75-111 | a recorded key is forgotten only after more than 512 recordings |
| Service.AnsweredTurnEnds | rfb-runtime/src/runtime_service/mod.rs:467-520 | a turn that keeps the executor contract ends in a terminal event or an error |
| Service.InlineTurnEnds | rfb-runtime/src/runtime_service/mod.rs:521-590 | the same for a serial turn |
| Service.TurnSucceeds | rfb-runtime/src/runtime_service/mod.rs:467-520 | a turn succeeds exactly when it returned events or ended as cancelled |
| Service.InlineSucceeds | rfb-runtime/src/runtime_service/mod.rs:521-590 | a serial turn succeeds exactly when it returned events, and otherwise is answered with its error |
| Service.Sequenced | rfb-runtime/src/runtime_service/mod.rs:632-635 | events get consecutive service sequence numbers, saturating at the 64-bit maximum |
| Service.RuntimeService.RecordCompleted | rfb-runtime/src/runtime_service/mod.rs:75-95 | stores the responses under the key, leaves every other retained result alone and keeps the completed log equal to the last-512 suffix of its history |
| Service.RuntimeService.RecordCancelled | rfb-runtime/src/runtime_service/mod.rs:97-111 | the same for the cancelled log, a repeated key only replacing its result |
| Service.RuntimeService.SpawnTurn | rfb-runtime/src/runtime_service/mod.rs:299-366 | hands out the executor, with its flag not raised, exactly when the runtime is up, the identity is valid, neither log remembers the request, the session is idle, the handshake is done and the executor is at home; otherwise nothing changes |
| Service.RuntimeService.Refusal | rfb-runtime/src/runtime_service/mod.rs:299-350 | names what stands against a claim, and is silent exactly when nothing does |
| Service.RuntimeService.ReplayCachedTurn | rfb-runtime/src/runtime_service/mod.rs:373-410 | a repeated turn is answered with exactly what its end was answered with, a cancelled turn that has not ended with a cancelled event, a forgotten one with an error; falls through exactly when the turn may be claimed |
| Service.RuntimeService.CancelActive | rfb-runtime/src/runtime_service/mod.rs:416-444 | acknowledges exactly the active request or one whose cancellation is on record; the running turn's flag is then raised and its key recorded once |
| Service.RuntimeService.AbandonActiveTurn | rfb-runtime/src/runtime_service/mod.rs:450-465 | forgets the active turn with one error that names its request |
| Service.RuntimeService.CompleteTurn | rfb-runtime/src/runtime_service/mod.rs:467-520 | brings the executor home and ends the turn with the responses its result calls for; those responses are stored for replay if it succeeded or was cancelled, and not otherwise; each event uses one sequence number |
| Service.RuntimeService.HandleStart | rfb-runtime/src/runtime_service/mod.rs:521-590 | a serial turn runs exactly when it is valid and unknown; its responses are stored for replay exactly when it returned events |
| Service.RuntimeService.HandleCancel | rfb-runtime/src/runtime_service/mod.rs:592-630 | with the executor at home only a recorded cancellation is answered |
| Service.RuntimeService.HandleShutdown | rfb-runtime/src/runtime_service/mod.rs:130-181 | shutdown is permanent, raises the running turn's flag, and empties logs and sessions exactly when the executor is at home |
| Service.RuntimeService.Handle | rfb-runtime/src/runtime_service/mod.rs:130-275 | every control message is answered by what state it meets: after a shutdown only another shutdown, while a turn runs only capabilities, hello, cancel and shutdown, before the handshake nothing else, and otherwise as its kind asks; no message starts a turn against a guard or for a remembered request |
| Service.RuntimeService.FilesystemRpc | rfb-runtime/src/runtime_service/mod.rs:277-289 | the executor's answer is passed on exactly when the handshake is done and the executor is at home; with a turn in flight, or the executor lost with one, the call fails |
| Service.RuntimeService.ExecutorMut | rfb-runtime/src/runtime_service/mod.rs:65-70 | the executor slot is filled whenever it is unwrapped |
| Service.ReexecutionIsLate | rfb-runtime/src/runtime_service/mod.rs:299-366 | over a whole run a completed or cancelled request reaches the executor again only after more than 512 recordings in that log |
| Service.Perform | rfb-runtime/src/runtime_service/mod.rs:130-590 | every public call keeps the service invariant; after shutdown no turn is ever started |
| Service.Drive | rfb-runtime/src/runtime_service/mod.rs:35-590 | in every run the executor is in exactly one place (service, one turn in flight, or lost with a dead worker), no remembered request was handed to it, and every result on file is what the end of its turn was answered with |
| Connection.HexId | rfb-runtime/src/zeroboot_connection.rs:882-889 | the formatting loop computes the specified text |
| Connection.HexDigits | rfb-runtime/src/zeroboot_connection.rs:882-889 | each byte gives two lower-case hex digits, the high one first |
| Connection.HexInjective | rfb-runtime/src/zeroboot_connection.rs:882-889 | different wire ids give different request ids |
| Connection.TerminalReplyOfTurn | rfb-runtime/src/zeroboot_connection.rs:823-872 | the terminal frame is Exit with the code of the first deciding event, -1 unless it is a 32-bit number; Error with code 1 and the message for a failed turn; Exit -1 for a cancelled one |
| Connection.NoOutputAfterTerminal | rfb-runtime/src/zeroboot_connection.rs:146-233 | in an ordered trace no output of a turn follows its terminal frame without a new acceptance in between |
| Connection.RequestsBounded | rfb-runtime/src/zeroboot_connection.rs:428-628 | the request map never exceeds 65 entries |
| Connection.Terminate | rfb-runtime/src/zeroboot_connection.rs:169-185 | a finished request is retained among the last 64 and the oldest beyond that is dropped |
| Connection.Connection.OnWorkerOutput | rfb-runtime/src/zeroboot_connection.rs:150-161 | only output of the active request is forwarded |
| Connection.Connection.OnWorkerTerminal | rfb-runtime/src/zeroboot_connection.rs:162-186 | the executor comes home and exactly one terminal frame is sent, the one the result and a recorded cancel call for |
| Connection.Connection.OnWorkerPanic | rfb-runtime/src/zeroboot_connection.rs:191-236 | a panicking worker fails its request with an Error frame and loses the executor |
| Connection.Connection.OnExecute | rfb-runtime/src/zeroboot_connection.rs:428-628 | an Execute frame is accepted exactly when it decodes to a command, no turn is active, its id is not on file and the service hands out the executor; otherwise it is answered with one Error |
| Connection.Connection.RunInline | rfb-runtime/src/zeroboot_connection.rs:482-573 | an inline builtin sends exactly its outputs and then its one terminal frame before the next frame is read, also when it panics |
| Connection.Connection.OnCancel | rfb-runtime/src/zeroboot_connection.rs:673-734 | a decodable Cancel is refused exactly when a turn is active and the target is neither it nor a retained terminated request; one that means the running turn raises its flag and puts it on file as cancelled; any other leaves the service alone |
| Connection.CancelledTurnExits | rfb-runtime/src/zeroboot_connection.rs:673-734 | in a trace of the connection, a turn whose cancel was acknowledged while it ran and which then ended in an error got Exit -1 |
| Connection.Connection.OnHello | rfb-runtime/src/zeroboot_connection.rs:254-270 | the handshake opens exactly with an acknowledged Hello |
| Connection.Connection.OnFrame | rfb-runtime/src/zeroboot_connection.rs:238-316 | before the handshake everything but Hello is refused; unknown requests are refused, a decodable Health is acknowledged; every frame keeps the connection invariant |
| Connection.Connection.OnFs | rfb-runtime/src/zeroboot_connection.rs:630-671 | a filesystem request gets its result exactly when it decodes, the executor is at home and the operation on the normalized path succeeds; so never while a turn is active or after its worker died |
| Connection.NormalizePathLaw | rfb-runtime/src/zeroboot_connection.rs:770-778 | the contract root becomes the current directory, what lies below it becomes relative, and no other path is changed |
| Connection.Serve | rfb-runtime/src/zeroboot_connection.rs:109-325 | on every input the Execute frames read are the rejections plus the terminals plus the running turn, turns do not overlap, output stays inside its turn, acknowledged cancels are honoured and the request map stays within 65 |
| Orchestration.RuntimeManager.ReadGeneration | rfb-runtime/src/orchestration.rs:232-246 | moves the manager as the machine's Begin step does and gives the create the generation and the unused virtual machine id the step records for it |
| Orchestration.RuntimeManager.InsertPlaceholder | rfb-runtime/src/orchestration.rs:247-253 | moves the manager as the Insert step does: the create either goes on to wait for its provisioning task, or is over and returns the handle the step records |
| Orchestration.RuntimeManager.FinishCreate | rfb-runtime/src/orchestration.rs:296-327 | moves the manager as the Publish step does and returns the handle and the worker to destroy that the step records |
| Orchestration.RuntimeManager.BumpGeneration | rfb-runtime/src/orchestration.rs:329-335 | moves the manager as the first step of a cancel and of a destroy does |
| Orchestration.RuntimeManager.LookUpWorker | rfb-runtime/src/orchestration.rs:336-336 | gives the cancel the worker its ReadWorker step records, or ends it |
| Orchestration.RuntimeManager.MarkCancelling | rfb-runtime/src/orchestration.rs:337-340 | moves the manager as the Mark step does, and tells whether the cancel goes on to its worker |
| Orchestration.RuntimeManager.FinishCancel | rfb-runtime/src/orchestration.rs:353-362 | moves the manager as the EndCancel step does and returns the settled entry of its table |
| Orchestration.RuntimeManager.TakeSession | rfb-runtime/src/orchestration.rs:371-372 | moves the manager as the Take step does and returns the entry whose worker that step gives to destroy |
| Orchestration.Perform | rfb-runtime/src/orchestration.rs:232-388 | any event, with the manager's part done by its methods, is the machine's step |
| Orchestration.Interleave | rfb-runtime/src/orchestration.rs:232-388 | every interleaving run through the manager ends in the machine's state, so the manager's table never holds a destroyed worker, and no worker twice |
| Orchestration.StepKeeps | rfb-runtime/src/orchestration.rs:232-388 | every atomic step of create, cancel, destroy, provisioning and reaping keeps the ownership invariant |
| Orchestration.OneOwner | rfb-runtime/src/orchestration.rs:232-388 | in every interleaving each worker the adapter returned has exactly one owner: its pending create, a late reaper, one table entry, or destroy |
| Orchestration.TableWorkersAlive | rfb-runtime/src/orchestration.rs:232-388 | no table entry holds a worker already given to destroy, and no two entries share one |
| Orchestration.NothingLeaks | rfb-runtime/src/orchestration.rs:232-388 | once no create call or provisioning is left every worker is in the table or was given to destroy |
| Orchestration.CancelReachesWorker | rfb-runtime/src/orchestration.rs:336-362 | in every run, when a cancel settles a session whose entry has a worker, that worker was handed to the adapter's cancel exactly when the cancel had read one, and the entry is Failed with the adapter's error or Stopped; a worker it had not read came from a create that read the generation after this cancel's bump (or a multiple of 2^64 bumps before) |
| Orchestration.CancelCanMissWorker | rfb-runtime/src/orchestration.rs:329-362 | an interleaving in which a cancelled session ends Stopped with a live worker that was never cancelled |
| Orchestration.ReturnedHandleTruth | rfb-runtime/src/orchestration.rs:296-327 | in every run a worker a create reports is alive in its table entry; it reports Running without a worker exactly when its worker was given up and the entry is gone or was its own placeholder |
| Orchestration.CreateReports | rfb-runtime/src/orchestration.rs:264-327 | in every run, told from the events: a create whose provisioning failed or timed out returns a Failed handle with an error and no worker, and leaves it in the table while the session is its own; one that got a worker in time returns it Running and without an error while the session is its own, and otherwise the entry that stands for the session |
| Orchestration.RunningWithoutWorker | rfb-runtime/src/orchestration.rs:296-327 | a run in which a create reports a Running session that is no longer in the table and whose worker was given to destroy |
| Orchestration.GenerationGuards | rfb-runtime/src/orchestration.rs:236-305 | in every run a create publishes its worker exactly when its entry is still in the table and a multiple of 2^64 bumps happened since it read the generation; otherwise the worker goes to destroy |
| Orchestration.StepKeeps2 | rfb-runtime/src/orchestration.rs:232-388 | every atomic step keeps the counts of bumps, the truth of entries and the record of who was cancelled |
| Cluster.OrderingExact | rfb/src/cluster.rs:420-431 | with loads at rest the candidates are exactly the admissible nodes, each once, lightest first, ties in rotation order |
| Cluster.RetainExact | rfb/src/cluster.rs:420-431 | in whatever order a sort over changing loads leaves the nodes, the candidates are exactly the admissible ones, each once |
| Cluster.ClusterProvider.CandidateOrder | rfb/src/cluster.rs:420-431 | the same for the provider, with the cursor moved on |
| Cluster.ClusterProvider.ClaimTrial | rfb/src/cluster.rs:437-453 | uncontended, a claim succeeds exactly on an admissible node and pushes the gate of a tripped one |
| Cluster.ClusterProvider.Attempt | rfb/src/cluster.rs:735-777 | a created sandbox keeps the slot and closes the breaker; a refusal (Remote or 4xx) leaves the node as it was; any other failure gives the slot back, counts and gates a tripped node |
| Cluster.ClusterProvider.CreateSandbox | rfb/src/cluster.rs:717-783 | the first candidate to create the sandbox, or to refuse it (Remote or 4xx), decides; every earlier one failed and has one more failure, no later one is touched; without one the create names the last candidate tried; only a created sandbox adds a slot |
| Cluster.StepCounts | rfb/src/cluster.rs:242-256 | every atomic step, guard drops by cancelled callers included, keeps the in-flight counter of a node at or below its live guards, and equal to them unless it is a release |
| Cluster.InflightIsLiveGuards | rfb/src/cluster.rs:242-256 | in every run the counter never exceeds the live guards, and equals them while release is not used |
| Cluster.ReleaseUndercounts | rfb/src/cluster.rs:840-845 | release keeps the count exact only on a node without live guards |
| Cluster.SlotsConserved | rfb/src/cluster.rs:717-783 | the slots in use over the cluster are the creates with a request out or a live sandbox: a returned create adds one, an ended one none |
| Cluster.AttemptedOnce | rfb/src/cluster.rs:717-783 | in every run no create attempts a node twice |
| Cluster.AttemptAlone | rfb/src/cluster.rs:735-777 | the concurrent steps of an attempt, left alone, have exactly that effect, and a refusal ends the create |
| Cluster.ClaimAlone | rfb/src/cluster.rs:437-453 | the concurrent steps of a claim, left alone, succeed exactly on an admissible node and push the gate of a tripped one |
| Cluster.ProbeGates | rfb/src/cluster.rs:677-688 | a failed probe keeps a tripped node out for an interval; a successful one closes the breaker |
| Cluster.GateMonotone | rfb/src/cluster.rs:437-453 | without a success or a successful probe the gate of a node only moves forward |
| Cluster.ClaimsSpaced | rfb/src/cluster.rs:437-453 | in every interleaving, of two winning half-open claims with no reset between them the later carries a time at or past the gate the first one set |
| Cluster.SpacingExact | rfb/src/cluster.rs:437-453 | some run of a fresh cluster has two claims less than an interval apart, with no reset between, exactly when the time of the first plus the interval exceeds the 64-bit maximum |
| Shell.SplitBalanced | rfb-runtime/src/bin/rfb-busybox.rs:101-191 | the splitter cuts only outside quotes, so every segment closes the quotes it opens |
| Shell.ReadWordBalanced | rfb-runtime/src/bin/rfb-busybox.rs:375-431 | on text that closes its quotes a word never reports an open one, and what follows it closes its quotes too |
| Shell.PassesAgreeOnQuotes | rfb-runtime/src/bin/rfb-busybox.rs:101-431 | no segment of an accepted script makes the parser report an unterminated quote |
| Shell.ReadWord | rfb-runtime/src/bin/rfb-busybox.rs:375-431 | a word consumes input |
| Shell.ParseRedir | rfb-runtime/src/bin/rfb-busybox.rs:333-372 | a redirection consumes input |
| Shell.ParseCommand | rfb-runtime/src/bin/rfb-busybox.rs:306-327 | a command never reads backwards, so parsing terminates |
| ShellRoundTrip.ParsePipelineText | rfb-runtime/src/bin/rfb-busybox.rs:287-431 | a printed pipeline is parsed back exactly, whatever the last status |
| ShellRoundTrip.SplitLinks | rfb-runtime/src/bin/rfb-busybox.rs:101-213 | a printed script is split into exactly its pipelines with their chainers |
| ShellRoundTrip.ScriptRoundTrip | rfb-runtime/src/bin/rfb-busybox.rs:101-431 | printing any script and reading it with both passes gives back the script |
| ShellRoundTrip.WordRoundTrip | rfb-runtime/src/bin/rfb-busybox.rs:375-431 | a word of single-quoted, double-quoted and status pieces passes the splitter untouched and is read as the values of its pieces in order, with the last status for each status piece |
| ShellRoundTrip.ReadDoubleEscaped | rfb-runtime/src/bin/rfb-busybox.rs:389-407 | a double-quoted span with its quotes, backslashes and dollar signs escaped is read back |
| ShellRoundTrip.StatusInDecimal | rfb-runtime/src/bin/rfb-busybox.rs:389-417 | the status is expanded in decimal, with a minus sign if negative |
| ShellRoundTrip.ParseU8Reads | rfb-runtime/src/bin/rfb-busybox.rs:348-355 | a descriptor is read from its decimal digits, with or without a plus sign, up to 255 |
| ShellParser.SplitSegments | rfb-runtime/src/bin/rfb-busybox.rs:101-191 | the splitting loop computes the specified split, errors included |
| ShellParser.CopyQuoted | rfb-runtime/src/bin/rfb-busybox.rs:110-137 | the inner loop copies a quoted span or finds it unterminated |
| ShellParser.SkipCommentAt | rfb-runtime/src/bin/rfb-busybox.rs:146-154 | a comment is skipped up to, not through, its newline |
| ShellParser.FlushSegment | rfb-runtime/src/bin/rfb-busybox.rs:193-213 | a segment is trimmed and pushed with its chainer, or refused when empty in a chain |
| ShellParser.FinishScript | rfb-runtime/src/bin/rfb-busybox.rs:181-191 | the end of a script flushes the last segment, or is an error |
| ShellParser.SegmentParser.ReadWord | rfb-runtime/src/bin/rfb-busybox.rs:375-431 | the word loop reads the specified word and stops right after it |
| ShellParser.SegmentParser.ReadSingle | rfb-runtime/src/bin/rfb-busybox.rs:379-388 | reads a single-quoted span to its closing quote, or finds it unterminated |
| ShellParser.SegmentParser.ReadDouble | rfb-runtime/src/bin/rfb-busybox.rs:389-407 | reads a double-quoted span with its escapes and the last status, or finds it unterminated |
| ShellParser.SegmentParser.ParseRedir | rfb-runtime/src/bin/rfb-busybox.rs:333-372 | reads the specified redirection and stops right after it |
| ShellParser.SegmentParser.ParseCommand | rfb-runtime/src/bin/rfb-busybox.rs:306-327 | reads the specified command and stops right after it |
| ShellParser.SegmentParser.ParsePipeline | rfb-runtime/src/bin/rfb-busybox.rs:287-304 | accepts exactly the specified pipelines |
| ShellParser.RunScript | rfb-runtime/src/bin/rfb-busybox.rs:485-517 | the status and the pipelines run are explained segment by segment: a pipeline after && runs exactly with status 0, after the other chainer exactly with another, after ; or a newline always; a skipped one changes nothing; a syntax error ends the script with status 2, an exit with its code |
| ShellParser.StatusOfLast | rfb-runtime/src/bin/rfb-busybox.rs:485-517 | a script that runs to its end returns the status of the last pipeline it ran, 0 if it ran none |
| ShellParser.PrintedScriptRuns | rfb-runtime/src/bin/rfb-busybox.rs:485-517 | running a printed script runs the same pipelines and returns the same status as running the script itself, whatever its pipelines do |
| SizeCache.WorkspaceSize | rfb-runtime/src/workspace_executor/filesystem.rs:185-197 | the recursive saturating walk finds the total of all files |
| SizeCache.PutDelta | rfb-runtime/src/workspace_executor/filesystem.rs:69-138 | a write that succeeds changes the size of the tree by exactly the delta the cache is patched with |
| SizeCache.PutStores | rfb-runtime/src/workspace_executor/filesystem.rs:116-133 | the written file holds the content, after what it held when appending |
| SizeCache.PutKeeps | rfb-runtime/src/workspace_executor/filesystem.rs:116-133 | every path apart from the written one is as it was |
| SizeCache.WorkspaceExecutor.FilesystemWrite | rfb-runtime/src/workspace_executor/filesystem.rs:69-138 | with an exact cache, a write is accepted exactly when its content fits the RPC, its path can be written and the 64-bit total of the resulting tree fits the workspace; the cache is then exact again unless the tree outgrew 64 bits; a refused write leaves the tree alone |
| SizeCache.WorkspaceExecutor.InvalidateWorkspaceSize | rfb-runtime/src/workspace_executor/filesystem.rs:142-148 | drops the cached total |
| SizeCache.StepExact | rfb-runtime/src/workspace_executor/filesystem.rs:69-148 | every step of writers sharing the cache, and of running processes, keeps the cache exact |
| SizeCache.ExecBracket | rfb-runtime/src/workspace_executor/process.rs:25-34 | a process starts and ends without a cached total, so the write after either measures the tree |
| SizeCache.CacheIsExact | rfb-runtime/src/workspace_executor/process.rs:25-34 | in every interleaving, while no process is between its start and its final invalidation, a cached total equals the walk |
| SizeCache.AcceptedWriteFits | rfb-runtime/src/workspace_executor/filesystem.rs:104-138 | a write that commits while no process runs leaves the tree within its limit |
| SizeCache.OvershootExact | rfb-runtime/src/workspace_executor/filesystem.rs:104-138 | for every limit and every number n of running processes, some run commits a write with n running and leaves the tree past the limit exactly when n is positive and the limit is below 2^64 - 1 |
| AgentLine.Reader.ReadIncoming | rfb-runtime/src/agent/mod.rs:151-203 | the result and the consumed position are a function of the remaining bytes and of how the stream ends, whatever the buffers and interruptions: overflow exactly when the line with its newline exceeds the cap, an error exactly when a failed connection cuts a line short |
| AgentLine.Reader.FillLine | rfb-runtime/src/agent/mod.rs:151-191 | the loop consumes one line and keeps it exactly when it fits; the buffer stays within the cap |
| AgentLine.LineEnds | rfb-runtime/src/agent/mod.rs:151-203 | a line ends at the first newline, or at the end of the stream if there is none |
| AgentLine.OverflowExact | rfb-runtime/src/agent/mod.rs:151-203 | a line is too large exactly when it has more than 1 MiB, its newline included |
| AgentLine.NextLineOfFramed | rfb-runtime/src/agent/mod.rs:194-203 | a message sent on a line of its own is the next line, without the LF or CR LF that ends it |
| AgentLine.ReadMessages | rfb-runtime/src/agent/mod.rs:151-203 | messages sent one per line, ended by LF or CR LF, are read back in order for every way the bytes arrive |
| AgentShrink.ReadBounded | rfb-runtime/src/agent/process_exec.rs:106-130 | for every chunking the data is the stream up to the limit and truncated says whether there was more |
| AgentShrink.WireOfBytes | rfb-runtime/src/agent/process_exec.rs:136-141 | captured bytes travel unchanged, as a string exactly when they are valid UTF-8 |
| AgentShrink.Serialize | rfb-runtime/src/agent/process_exec.rs:216-227 | the serialized response is at least as long as its outputs and at most six times as long plus 122 |
| AgentJson.WireRead | rfb-runtime/src/agent/process_exec.rs:136-141 | a JSON reader gets every output back in its own form, byte for byte |
| AgentJson.ResponseRead | rfb-runtime/src/agent/process_exec.rs:216-227 | a JSON reader gets the response back from its serialized form: outputs, aliases, exit code and flags |
| AgentShrink.FloorIsNear | rfb-runtime/src/agent/process_exec.rs:256-262 | in valid text a character boundary is at most three bytes back |
| AgentShrink.HalveCuts | rfb-runtime/src/agent/process_exec.rs:244-268 | one round keeps the status, prefixes, aliases and valid text, and at least halves the output |
| AgentShrink.ShrinkToWireBudget | rfb-runtime/src/agent/process_exec.rs:230-271 | shrinking ends under the budget within its rounds, after at most two for captured streams; outputs are prefixes, aliases stay equal, the status is kept and truncated is set exactly when bytes were dropped |
| AgentShrink.QuarterKept | rfb-runtime/src/agent/process_exec.rs:244-268 | two rounds keep a quarter of each output, less 21 bytes at most |
| AgentShrink.WriteJson | rfb-runtime/src/agent/mod.rs:320-332 | a response past the limit is replaced, any other is sent as it is |
| AgentShrink.Execute | rfb-runtime/src/agent/process_exec.rs:143-228 | for every pair of streams and every chunking the response is never replaced, its outputs are prefixes of the streams, its status is the child's and truncated says exactly whether anything is missing; a child past its deadline is answered as timed out |

## Left out

- `rfb-runtime/src/codec.rs`, `guest_protocol.rs`: the payload format comes from libraries; the ZBRT codecs carry the same kind of theorem.
- `guest_connection.rs`: the detached wait after a disconnect is driven by timers.
- Teardown of a ZBRT connection after a disconnect or a failed write, and the mid-turn write failure of an inline builtin.
- `HostSession` in `zeroboot_protocol.rs` and the async frame reader: easy members beside the codecs.
- Byte-level canonicity of ZBRT decoding: flags accept any non-zero byte, so only decode after encode is an identity.
- Connection.TerminalReply: the exit code inside the JSON payload of a completed turn is a field of the event; JSON parsing is not part of this model.
- Liveness of a placeholder in `orchestration.rs`, create calls dropped at an await point, and wrap-around of the virtual machine id counter.
- Retry of clean-up in `orchestration.rs`.
- `reconcile` in `cluster.rs`: its safety rests on assumptions its own comment states and the code does not enforce.
- Cluster.StepCounts: failure counters are unbounded; a wrap after 2^64 failures is not modelled.
- Cluster.Step: a create may start with any arrangement of the nodes, which includes every outcome of its sort, and a probe's stores and gate pushes may happen at any time, which includes every schedule of the real probe.
- ShellRoundTrip.ScriptRoundTrip: empty quoted words, escaped trailing blanks and a comment sign after an escaped blank are not printed, since the parser does not preserve them.
- Shell execution: pipes, file descriptors, builtins and child processes are one outcome per pipeline.
- SizeCache.CacheIsExact: runs keep the tree below 2^64 bytes, the bound under which the 64-bit total means the size.
- Partial I/O failures and processes that outlive their exec in the size cache; temporary files during an atomic replace.
- `read_line_bounded` in `agent/stream.rs`: a dropped future loses its partial line.
- AgentShrink.Serialize: the order of keys is fixed; only the length matters.
- The filesystem operations behind a ZBRT filesystem request are a function of the request; the exec builtins of the agent answer without a process and are not modelled.
- Path policy, process spawning and killing, vsock, Firecracker, HTTP clients, the command line, the TUI, adapters, interpreters and benchmarks: I/O, foreign calls or easy members.
- Wall-clock accuracy, task fairness and weak memory orderings.
