# Verified model of the serial bridge

This project models the bridge that connects agent sessions, Stream Deck
controllers and an RP2040 device, and proves properties of the model in Dafny.
`dafny verify dfyconfig.toml` checks everything.

Four groups of modules:

* **Serial link and report stack.** `Crc16`, `BridgeFrame`, `FrameDetection`
  (the checksum, the frame format, and exactly which damage is noticed),
  `FrameScan` (a leftmost scan of a byte stream, the reference definition),
  `BridgeParser` (the in-place parser over its fixed buffer, refining that
  scan), `Ring`, `StatusReply`, `DeviceModel`, `Firmware` (the firmware's
  queues, main loop and its own answers to status requests), `DeviceOutput`
  (what it transmits), `HidReports`,
  `LineDecoder`, `SerialLink` (report chunking, CRLF reassembly and their round
  trips), `HostSession` (the host's messages and pings on one writer),
  `LinkTrack`, `EndToEnd` and `InterruptedMessage` (all layers composed).
* **Log tailing.** `Lifecycle` (turn state and open approvals), `RolloutTail`
  (incremental reading of a log against replay of the whole file) and
  `RolloutFiles` (which file histories that covers).
* **Daemon.** `EventModel`, `EventDelivery`, `EventFates`, `EventPolls`,
  `EventRuns`, `EventHub` (queues, long polls, disconnects), `TaskSlots` (slot
  allocation), `LcdFusion` (status entries fused through a changing partition).
* **Two protocols.** `KeyScheduler` (the round-robin key writer) and
  `NewTaskModel`, `NewTaskPairing`, `NewTaskAnswers`, `NewTaskClient`,
  `PluginReplies`, `NewTaskExchange` (request/reply pairing between plugin and bridge).

Code that updates fields or buffers in place is a class or a method over
arrays; each such method is proved to take a step of a state machine on values
(`View() == Next(old(View()), ...)`), and the theorems about all runs are lemmas
on those state machines. What the network, clocks, the USB stack, file system,
JSON library and foreground window decide are parameters of the steps.

## Findings

* Text kept in the plugin client's line buffer survives `stop()`: the close
  handler that would clear it ignores a socket that is no longer current, and
  `stop()` itself does not clear it. After a later `start()` that text is put in
  front of the first line received; it takes a caller that stops and starts one
  client. `NewTaskPairing.LeftoverHarmlessExactly`
  says when this does no harm (if and only if the leftover is blank), and
  `NewTaskPairing.MispairedAfterStop` is a run in which a request is settled
  with the answer to the next one, although the code's comment says that
  replies pair with requests in order. The end-to-end theorems
  `NewTaskExchange.EveryAnswerSettles` and `OwnVerdict` therefore ask that the
  connection was opened with a blank buffer.
* The firmware answers a status request from the USB host by itself, through the
  queue that also carries the host's messages. When the request arrives between
  two reports of one message, the beginning of the message is put in front of the
  reply and neither is decoded, although the queue was never full
  (`InterruptedMessage.Interrupted` constructs such a run for every message of
  two reports). `EndToEnd.EndToEndExactly` shows that this is the only way: the
  decoded lines are the messages and replies in their order of completion if and
  only if no reply was queued inside a message.
* Because the checksum is stored low byte first, damage to the last payload
  byte and the low checksum byte can pass unnoticed, in exactly one pattern
  (`FrameDetection.StraddleExact`); every frame with a payload has such damage
  (`FrameDetection.StraddleUndetected`).
* A log replaced by different content that is not shorter than what was consumed
  is not noticed (`RolloutTail.ReplacementMissed` is such a run);
  `RolloutTail.HistoryReplays` covers appending, truncating below the offset,
  deleting and reappearing, which is what the offset test is for, and
  `RolloutFiles.ReportedLifecycle` states that of the files alone. No
  comparison of the two contents decides when a replacement does no harm:
  different files can fold to the same cursor however their lines are read
  (`RolloutFiles.Indistinguishable`).
* A payload for the HID framing comes back as one line if and only if it is not
  empty and contains no CRLF (`SerialLink.RoundTripExactly`).
* Not every poll is answered. `EventPolls.PollDropped` is a run in which a later
  poll of the same session silently takes the place of a pending one, and
  `EventPolls.UnansweredExactly` says when that happens: a step leaves a pending
  poll unanswered if and only if it puts off another poll of the same session or
  disconnects that session. `EventPolls.DeferredIsServed` is the promise that
  remains.

## Model

| member | source | states |
|---|---|---|
| Crc16.Compute | firmware/rp2040-zero/src/bridge_protocol.c:16-28 | the nested loops compute the register fold that the frame and damage theorems are about |
| Crc16.ByteStepBijective | firmware/rp2040-zero/src/bridge_protocol.c:16-28 | a byte step is one-to-one in the register for a fixed byte and in the byte for a fixed register |
| Crc16.ShiftLinear | firmware/rp2040-zero/src/bridge_protocol.c:20-25 | the eight bit steps of a byte are linear over exclusive or |
| Crc16.TwoByteBurst | firmware/rp2040-zero/src/bridge_protocol.c:16-28 | two consecutive bytes of which at least one changed always leave a different register |
| Crc16.BurstChangesChecksum | firmware/rp2040-zero/src/bridge_protocol.c:16-28 | a change confined to one byte or two adjacent bytes changes the checksum, whatever surrounds it |
| Crc16.LastByteAndHighHalf | firmware/rp2040-zero/src/bridge_protocol.c:16-28 | changing the last byte keeps the checksum's high byte in exactly one non-trivial case, three flipped bits |
| BridgeFrame.Encode | firmware/rp2040-zero/src/bridge_protocol.c:30-57 | writes exactly the frame's encoding and nothing beyond it, or returns 0 with the buffer untouched when the frame is oversized or does not fit |
| BridgeFrame.AcceptsExactlyEncodings | firmware/rp2040-zero/src/bridge_protocol.c:30-126 | the parser's checks accept a frame if and only if the buffer starts with that frame's encoding |
| BridgeFrame.InspectStable | firmware/rp2040-zero/src/bridge_protocol.c:94-131 | a decision once made is not changed by bytes that arrive later |
| FrameDetection.DamageDetected | firmware/rp2040-zero/src/bridge_protocol.c:54-118 | after changing one byte outside the length field, or two adjacent bytes within one region, no frame is accepted at that offset, whatever follows |
| FrameDetection.StraddleExact | firmware/rp2040-zero/src/bridge_protocol.c:54-118 | damage to the last payload byte and the low checksum byte passes if and only if it is none at all or the one three-bit pattern with the matching low byte |
| FrameDetection.StraddleUndetected | firmware/rp2040-zero/src/bridge_protocol.c:54-118 | for every frame with a payload, concrete two-byte damage that is accepted |
| FrameScan.ScanSplit | firmware/rp2040-zero/src/bridge_protocol.c:76-133 | chunk independence: scanning s, then carrying on with t, sees what one scan of the whole stream sees |
| FrameScan.ScanRetainsSuffix | firmware/rp2040-zero/src/bridge_protocol.c:66-133 | the retained bytes are the end of the stream: none is lost or altered |
| FrameScan.ScanRetainsUndecided | firmware/rp2040-zero/src/bridge_protocol.c:90-109 | retained bytes wait for more input and are shorter than one maximal frame |
| FrameScan.DropsSkipNothing | firmware/rp2040-zero/src/bridge_protocol.c:82-118 | no complete valid frame starts among the one or two bytes dropped after a failed check |
| FrameScan.EmissionInOrder | firmware/rp2040-zero/src/bridge_protocol.c:76-133 | emitted frames are valid where they start, disjoint, in stream order, and end before the retained bytes |
| FrameScan.EmissionComplete | firmware/rp2040-zero/src/bridge_protocol.c:76-133 | every valid frame that starts in the consumed part is emitted or starts strictly inside an emitted one |
| FrameScan.ExactEmission | firmware/rp2040-zero/src/bridge_protocol.c:76-133 | a valid frame in the consumed part is emitted if and only if its start is not strictly inside an emitted frame |
| FrameScan.NoisyRoundTrip | firmware/rp2040-zero/src/bridge_protocol.c:30-133 | encoded frames interleaved with noise free of the magic pair decode to exactly those frames, retaining at most one byte |
| FrameScan.WireRoundTrip | firmware/rp2040-zero/src/bridge_protocol.c:30-133 | frames sent back to back decode to exactly those frames with nothing left over |
| BridgeParser.Parser.DiscardPrefix | firmware/rp2040-zero/src/bridge_protocol.c:66-74 | removes exactly the first bytes of the buffer, in place |
| BridgeParser.Parser.Align | firmware/rp2040-zero/src/bridge_protocol.c:81-91 | moves the first magic pair to the front without changing what a scan of the buffer gives |
| BridgeParser.Parser.Decide | firmware/rp2040-zero/src/bridge_protocol.c:92-118 | the reads from the buffer array reach the verdict that the acceptance theorem characterises |
| BridgeParser.Parser.ParseAvailable | firmware/rp2040-zero/src/bridge_protocol.c:76-133 | callbacks and kept bytes are those of one leftmost scan; the loop ends with fewer than 74 bytes kept |
| BridgeParser.Parser.Feed | firmware/rp2040-zero/src/bridge_protocol.c:135-160 | for input of any length: one scan of old buffer and input; every copy fits, and the forced one-byte discard happens only if the buffer was already full, which no feed leaves it |
| BridgeParser.CutsFrom | firmware/rp2040-zero/src/bridge_protocol.c:135-160 | feeding pieces after any earlier input continues the one scan of everything |
| BridgeParser.CutsDoNotMatter | firmware/rp2040-zero/src/bridge_protocol.c:135-160 | however a stream is cut into feeds, the callbacks and kept bytes are those of one scan |
| Ring.Ring.Push | firmware/rp2040-zero/src/main.c:34-46 | appends to the queue's contents, or refuses when full and changes nothing |
| Ring.Ring.Pop | firmware/rp2040-zero/src/main.c:48-55 | removes the oldest item, if there is one |
| DeviceModel.LogLeavesRoom | firmware/rp2040-zero/src/main.c:79-99 | a log line never takes the last three transmit slots, and a push that would have succeeded before it still does |
| DeviceModel.NextKeepsGood | firmware/rp2040-zero/src/main.c:57-405 | every step keeps the queues bounded, the numbering gapless, the output bytes equal to the sent frames, and the reports in order and of known origin |
| DeviceModel.EveryRun | firmware/rp2040-zero/src/main.c:34-405 | in every run the serial output decodes to exactly the transmitted frames, numbered consecutively modulo 2^16; the reports handed to the host are the queued ones in order, each once; and while the queue was never full those are exactly the bridge's reports and the status replies |
| DeviceOutput.EveryOutput | firmware/rp2040-zero/src/main.c:57-143 | in every run whose transmit queue refused none of them, the frames that are not log lines are, in order, one status frame per ping received and one unaltered copy of each report the USB host set |
| DeviceOutput.RefusedExactly | firmware/rp2040-zero/src/main.c:34-77 | reports, answers, copies and replies are refused or cut exactly when their queue is full |
| DeviceModel.RunFollowsScan | firmware/rp2040-zero/src/main.c:123-157 | in a run whose queue was never full the reports taken in over the bridge are those in one scan of all bytes received; status replies come between them |
| Firmware.Firmware.TransmitPush | firmware/rp2040-zero/src/main.c:57-77 | takes exactly the model's transmit step, with the next sequence number, or refuses |
| Firmware.Firmware.WriteLog | firmware/rp2040-zero/src/main.c:79-99 | takes the model's log step: at most 63 bytes, none when fewer than four slots are free |
| Firmware.Firmware.FlushTransmit | firmware/rp2040-zero/src/main.c:101-121 | writes the oldest frame's encoding and removes it only when the port is open and has room |
| Firmware.Firmware.OnBridgeFrame | firmware/rp2040-zero/src/main.c:123-143 | queues input reports, answers pings, ignores the rest, as the model's frame step |
| Firmware.Firmware.ReceiveBytes | firmware/rp2040-zero/src/main.c:145-157 | one serial read takes the model's receive step on parser, queues and numbering together |
| Firmware.Firmware.FlushInput | firmware/rp2040-zero/src/main.c:159-179 | hands the oldest report on without its first byte and drops it only once accepted |
| Firmware.Firmware.EmitBootLog | firmware/rp2040-zero/src/main.c:193-197 | the boot line is logged once, when the port first opens |
| Firmware.Firmware.ForwardOutput | firmware/rp2040-zero/src/main.c:398-404 | copies a host report to the serial side, or logs that it could not |
| Firmware.Firmware.PushReply | firmware/rp2040-zero/src/main.c:299-317 | queues the reports of a reply one by one: all of them when they fit, else exactly as many as there is room for |
| Firmware.Firmware.SendStatusResponse | firmware/rp2040-zero/src/main.c:281-323 | queues the whole reply, or cuts it short at a full queue, or does nothing when the text does not fit its buffer |
| Firmware.Firmware.SetReport | firmware/rp2040-zero/src/main.c:325-405 | one report from the USB host takes one model step: normalised, answered when it asks for the status, and forwarded |
| StatusReply.PayloadContains | firmware/rp2040-zero/src/main.c:233-251 | finds the request text if and only if it occurs in the declared bytes of a report that declares at most 60 |
| StatusReply.PayloadParseId | firmware/rp2040-zero/src/main.c:254-278 | reads the number after the first id key, 1 when there is none |
| StatusReply.IdEchoed | firmware/rp2040-zero/src/main.c:254-289 | the id printed in a request is the one the reply carries |
| StatusReply.ReplyPlain | firmware/rp2040-zero/src/main.c:283-289 | the reply's text holds no line end, whatever the id |
| HidReports.ChunkMessage | protocol/framing.js:51-86 | cuts a message into zero-padded reports of at most 61 bytes each, the ones the round-trip theorems read back |
| HidReports.FrameMessage | protocol/framing.js:51-86 | refuses messages over the limit, and otherwise sends the payload with its CRLF |
| HidReports.FrameJson | tools/rp2040-bridge/src/codex.rs:95-111 | refuses a message that is not an object or cannot be serialised; otherwise produces the prefixed reports of the same chunking |
| HidReports.ReadReport | protocol/framing.js:126-176 | reading a report that was built returns its chunk, on either transport |
| LineDecoder.SplitAppend | protocol/framing.js:177-199 | where the stream is cut does not matter to its lines, not even between CR and LF |
| LineDecoder.OneOutcomePerLine | protocol/framing.js:193-237 | every non-empty line yields exactly one message or one error |
| LineDecoder.FindCrlf | protocol/framing.js:276-283 | finds the first CRLF, or -1 if and only if there is none |
| LineDecoder.FrameDecoder.DrainLines | protocol/framing.js:193-237 | the loop yields the outcomes of exactly the complete lines, in order, and keeps the rest |
| LineDecoder.FrameDecoder.Feed | protocol/framing.js:114-240 | one report takes one step of the decoder's specification, including every error branch and the overflow reset |
| LineDecoder.FrameDecoder.Finish | protocol/framing.js:242-258 | unterminated bytes are exactly one error, and the buffer is empty afterwards |
| LineDecoder.DecodeReports | protocol/framing.js:261-274 | a list of reports gives the messages and errors of one decoder run plus the truncation error |
| LineDecoder.BufferBounded | protocol/framing.js:177-199 | on any run the buffer stays within the limit and never holds a complete line |
| LineDecoder.DecoderRefinesSplit | protocol/framing.js:114-240 | while the limit is never hit, malformed reports add one error each and nothing else, the bodies are processed as their concatenation split at CRLF, and the errors of both kinds come in the order of the reports that cause them |
| LineDecoder.WithinBudget | protocol/framing.js:177-191 | bodies that fit the limit together never overflow |
| LineDecoder.OverflowShows | protocol/framing.js:181-190 | whenever the limit is hit an error is reported |
| LineDecoder.FeedReportsAppend | protocol/framing.js:261-274 | decoding in two runs over the kept buffer equals decoding in one |
| SerialLink.PayloadDecodes | protocol/framing.js:51-240 | any payload within the limit, framed on either transport, decodes to the lines it contains |
| SerialLink.RoundTripExactly | protocol/framing.js:51-240 | a payload comes back as itself if and only if it is non-empty and holds no CRLF |
| SerialLink.ReportRoundTrip | protocol/framing.js:51-274 | messages within the limit, each on its own choice of transport, decode to exactly what their lines parse to, leaving nothing |
| SerialLink.MessagesRoundTrip | protocol/framing.js:51-274 | when every line parses, exactly the messages sent, one per line in order, and no error |
| HostSession.SessionCarries | tools/rp2040-bridge/src/main.rs:265-321 | a host session carries the reports of its messages and nothing else that the firmware queues, wherever pings are sent |
| HostSession.SessionNumbered | tools/rp2040-bridge/src/main.rs:259-301 | all frames of a session, messages and pings alike, are numbered consecutively modulo 2^16 |
| HostSession.HostWriter.SendCodexMessage | tools/rp2040-bridge/src/main.rs:265-280 | writes one numbered frame per report of the message, or nothing when it is refused |
| HostSession.HostWriter.Ping | tools/rp2040-bridge/src/main.rs:2536-2556 | writes one ping from the same counter |
| LinkTrack.LinesInterleave | firmware/rp2040-zero/src/main.c:123-323 | the lines completed in the queue are an interleaving of the host's first lines with all status replies |
| LinkTrack.UninterruptedDecodes | firmware/rp2040-zero/src/main.c:123-323 | while no reply is queued inside a message the decoder sees the completed lines in order and keeps what has begun |
| LinkTrack.InterruptedShows | firmware/rp2040-zero/src/main.c:299-317 | with a reply inside a message something else is decoded, or an error is reported |
| EndToEnd.TakenInAsSent | tools/rp2040-bridge/src/main.rs:265-321 | over a noisy line cut in any way, with pings and other frames anywhere, the firmware has at any moment taken in a prefix of the reports sent, and in the end all of them |
| EndToEnd.EndToEnd | tools/rp2040-bridge/src/main.rs:265-321 | messages to reports to frames to bytes to firmware to decoder, at any moment: a prefix of the host's messages merged with the replies in order of completion; all of them once the queue is empty; every message once everything has been received, with an empty buffer |
| EndToEnd.EndToEndExactly | firmware/rp2040-zero/src/main.c:123-323 | with the queue empty and never full, the decoded lines are the messages and replies in order of completion if and only if no reply was queued inside a message |
| EndToEnd.BetweenIsUninterrupted | firmware/rp2040-zero/src/main.c:281-396 | the condition told from the steps: whenever a status request was answered, the host's reports taken in before made up whole messages |
| EndToEnd.EndToEndBySteps | firmware/rp2040-zero/src/main.c:123-396 | the same if-and-only-if with the condition on the steps, for every decoder limit of at least 129 bytes |
| EndToEnd.AllMessagesArrive | tools/rp2040-bridge/src/main.rs:265-321 | when the status is never asked for and every line parses, exactly the messages sent arrive, in order, with no error and an empty buffer |
| EndToEnd.HostSessionsQualify | tools/rp2040-bridge/src/main.rs:265-321 | every host session with pings among its messages satisfies the assumptions of these theorems |
| InterruptedMessage.Interrupted | firmware/rp2040-zero/src/main.c:281-396 | for every message of two reports and every status request, a run in which the reply falls between the reports and neither message nor reply is decoded |
| Lifecycle.PromptQuoted | tools/rp2040-bridge/src/codex_state.rs:439-459 | the prompt is the trimmed text in the quotes after the first mention of a justification and its colon, cut to 160 characters, or the default when that is empty |
| Lifecycle.RunningExactly | tools/rp2040-bridge/src/codex_state.rs:391-475 | after a start, until another start, the state is Running if and only if every terminal event since belongs to another turn, and then nothing recorded has changed |
| Lifecycle.FirstTerminalDecides | tools/rp2040-bridge/src/codex_state.rs:406-475 | the first terminal event of the turn itself decides: Completed or Paused by its kind, with its own finish time, and with start time and turn completed by it where the start named none |
| Lifecycle.ApprovalsExactly | tools/rp2040-bridge/src/codex_state.rs:356-389 | the pending keys are exactly the escalated calls with no later result, each with the prompt of its last opening |
| RolloutTail.ReadLines | tools/rp2040-bridge/src/codex_state.rs:320-346 | the line loop consumes exactly what the replay specification consumes |
| RolloutTail.ObserveRecord | tools/rp2040-bridge/src/codex_state.rs:335-345 | identity records verify or reset, other records count only once verified |
| RolloutTail.CodexStateCache.RefreshRollout | tools/rp2040-bridge/src/codex_state.rs:299-348 | one refresh moves exactly one cursor by the specified refresh and returns its lifecycle |
| RolloutTail.StopsAtLine | tools/rp2040-bridge/src/codex_state.rs:321-334 | the offset stays on a line boundary, in front of an incomplete or unreadable line or the end |
| RolloutTail.Resume | tools/rp2040-bridge/src/codex_state.rs:314-347 | reading on from the cursor equals reading any file with the same consumed beginning from the start |
| RolloutTail.RefreshReplays | tools/rp2040-bridge/src/codex_state.rs:299-348 | a refresh of an appended, truncated or switched file leaves the cursor of a full replay |
| RolloutTail.HistoryReplays | tools/rp2040-bridge/src/codex_state.rs:299-348 | over any history of appends, truncations, deletions, failed opens and refreshes, the cursor equals a from-scratch replay of the last file read |
| RolloutFiles.RevisedIsHonest | tools/rp2040-bridge/src/codex_state.rs:304-312 | file histories of appending and truncating satisfy the assumption of the replay theorem, whatever the cursor has read |
| RolloutFiles.Indistinguishable | tools/rp2040-bridge/src/codex_state.rs:335-346 | two different files of one length that give the same cursor however their lines are read |
| RolloutTail.ReplacementMissed | tools/rp2040-bridge/src/codex_state.rs:304-312 | a concrete file replaced by other content of the consumed length is reported as if unchanged |
| RolloutTail.LifecycleOfRelevant | tools/rp2040-bridge/src/codex_state.rs:335-354 | the lifecycle kept is the replay of exactly the records after a matching identity with no mismatching one since |
| RolloutFiles.ReportedLifecycle | tools/rp2040-bridge/src/codex_state.rs:299-354 | told from the files alone: for a log only appended to, cut anywhere, or truncated, the reported lifecycle is the replay of the records that count for the thread |
| RolloutFiles.RememberedLifecycle | tools/rp2040-bridge/src/codex_state.rs:299-319 | also when the file was last missing or did not open: what is reported is the replay of the content last read, or nothing once the file was seen shorter than that |
| RolloutFiles.AppendedLifecycle | tools/rp2040-bridge/src/codex_state.rs:299-354 | the same for histories of appends only |
| EventHub.EventHub.PollEvents | tools/rp2040-bridge/src/daemon.rs:1890-1928 | drains both sources and answers, answers empty, or defers and cancels the session's earlier poll, as one step of the model |
| EventHub.EventHub.ResolvePendingPolls | tools/rp2040-bridge/src/daemon.rs:2032-2071 | one pass answers every poll with events or a past deadline and keeps the others in order |
| EventHub.EventHub.PushSessionEvent | tools/rp2040-bridge/src/daemon.rs:2016-2023 | appends to one session's queue, evicting the oldest event when capped and full |
| EventHub.EventHub.RouteEvent | tools/rp2040-bridge/src/routing.rs:261-266 | appends to one agent's queue, evicting the oldest event when full |
| EventHub.EventHub.DrainSession | tools/rp2040-bridge/src/daemon.rs:2025-2031 | returns a session's whole queue in order and empties it |
| EventHub.EventHub.DrainAgent | tools/rp2040-bridge/src/routing.rs:268-270 | returns an agent's whole queue in order and empties it |
| EventHub.EventHub.HelloFrom | tools/rp2040-bridge/src/daemon.rs:1612-1634 | registers the agent of a live session and nothing else |
| EventHub.EventHub.Disconnected | tools/rp2040-bridge/src/daemon.rs:607-630 | removes the session with its queue and its pending poll |
| EventDelivery.ResolveLeavesWaiting | tools/rp2040-bridge/src/daemon.rs:2032-2071 | after a resolve whoever still waits has nothing queued at either source and a deadline in the future |
| EventDelivery.NextKeepsGood | tools/rp2040-bridge/src/daemon.rs:1814-2071 | every step keeps conservation of events, responses explained by them, and the account of requests |
| EventFates.NextKeepsFates | tools/rp2040-bridge/src/daemon.rs:1890-2071 | every step keeps that evictions happen only at the cap, that agents' other events are answered, and that only the events of a session that left go with it |
| EventRuns.EvictedExactly | tools/rp2040-bridge/src/routing.rs:261-270 | an agent's event is evicted if and only if 256 others followed it before its queue was next emptied |
| EventRuns.EveryRun | tools/rp2040-bridge/src/daemon.rs:1814-2071 | in every run: one pending poll per session; each request answered, pending or dropped and never two of these; each event in order with one fate or still queued; events unsent only by the cap, at agents exactly when it says so, or with their session; responses made of exactly their events; no early empty answer; agent queues bounded |
| EventRuns.AnsweredAtMostOnce | tools/rp2040-bridge/src/daemon.rs:1814-1928 | a request made once is answered, pending or dropped exactly once in total |
| EventPolls.LostExactly | tools/rp2040-bridge/src/daemon.rs:1890-1928 | each step leaves exactly these requests unanswered: those pending for a session that has another poll put off or disconnects, and a poll from no session |
| EventPolls.UnansweredExactly | tools/rp2040-bridge/src/daemon.rs:1912-1924 | a pending poll is left unanswered by a step if and only if the step puts off another poll of its session or disconnects it; otherwise it is still pending or has just been answered |
| EventPolls.PendingIsServed | tools/rp2040-bridge/src/daemon.rs:2032-2071 | over any run without such a step a pending poll stays pending until it is answered |
| EventPolls.DeferredIsServed | tools/rp2040-bridge/src/daemon.rs:1912-1924 | in every run a poll that is put off is, without such a step, still pending with its capped deadline or answered |
| EventPolls.AnsweredByDeadline | tools/rp2040-bridge/src/daemon.rs:2045-2064 | and has been answered once a resolve happens at or after its deadline |
| EventPolls.PollDropped | tools/rp2040-bridge/src/daemon.rs:1915-1921 | a concrete run in which a later poll silently takes the place of an earlier one |
| TaskSlots.TaskSlotOwners | tools/rp2040-bridge/src/daemon.rs:230-288 | the automatic layout, then overrides that change exactly the named in-range slots, the last one winning |
| TaskSlots.FillBlocks | tools/rp2040-bridge/src/daemon.rs:261-278 | fills contiguous blocks in priority order |
| TaskSlots.ApplyOverrides | tools/rp2040-bridge/src/daemon.rs:280-286 | each slot ends with its last override, or as it was |
| TaskSlots.TaskSlotsForAgent | tools/rp2040-bridge/src/daemon.rs:297-308 | the count of slots the agent owns |
| TaskSlots.BlockOwnership | tools/rp2040-bridge/src/daemon.rs:256-278 | the agent of priority i owns exactly the slots of block i: floor(n/k) of them, the last agent the remainder too |
| TaskSlots.EverySlotOwned | tools/rp2040-bridge/src/daemon.rs:256-278 | outside the fixed layout every slot has an active owner |
| TaskSlots.CountsAddUp | tools/rp2040-bridge/src/daemon.rs:297-308 | the four counts add up to the owned slots for any owners |
| TaskSlots.CountsSumToSlots | tools/rp2040-bridge/src/daemon.rs:230-308 | after any overrides the counts sum to the number of slots outside the fixed layout; in the fixed layout and with no agent active, slots otherwise unowned count only where an override names them |
| LcdFusion.LocalIndexBijective | tools/rp2040-bridge/src/routing.rs:159-170 | for every owners array an agent's slots and local indices correspond one to one |
| LcdFusion.NormalizeTwice | tools/rp2040-bridge/src/routing.rs:421-432 | preparing a prepared entry changes nothing, and prepared brightness is at most 1 |
| LcdFusion.FusedLcdState.MergeFromAgent | tools/rp2040-bridge/src/routing.rs:365-379 | stores the first six entries in the agent's own buffer only, and renders |
| LcdFusion.FusedLcdState.FusedArray | tools/rp2040-bridge/src/routing.rs:385-405 | renders every slot from its owner's buffer at the slot's local index, or off |
| LcdFusion.SlotShowsLastSent | tools/rp2040-bridge/src/routing.rs:347-405 | after any merges and repartitions a slot shows the last entry its present owner ever sent at its index, or off; only the final partition matters |
| KeyScheduler.KeyWriter.FindChanged | tools/rp2040-bridge/src/streamdeck.rs:480-488 | the first out-of-date key from the next index on, cyclically, or none |
| KeyScheduler.KeyWriter.FlushKeyStatus | tools/rp2040-bridge/src/streamdeck.rs:470-515 | at most one key is written; a failed write changes nothing; finding none clears the pending state |
| KeyScheduler.KeyWriter.ApplyThreadStatus | tools/rp2040-bridge/src/streamdeck.rs:692-727 | folds the updates onto the pending or shown state, then flushes |
| KeyScheduler.TargetIsFold | tools/rp2040-bridge/src/streamdeck.rs:470-727 | pending-or-shown always equals the fold of every status update received |
| KeyScheduler.WriteComesCloser | tools/rp2040-bridge/src/streamdeck.rs:480-513 | a write serves a waiting key or brings the search strictly closer to it |
| KeyScheduler.NoStarvation | tools/rp2040-bridge/src/streamdeck.rs:470-515 | under arbitrary updates, timing and failures a key that stays out of date is written within eight successful writes |
| KeyScheduler.FlushProgress | tools/rp2040-bridge/src/streamdeck.rs:470-515 | a flush writes if and only if it is due, succeeds and some key lags, and then exactly one key lags less; a due flush with none lagging clears the pending state |
| KeyScheduler.Converges | tools/rp2040-bridge/src/streamdeck.rs:470-727 | under early and failed flushes and updates that keep the target: exactly as many writes as keys lagged, at most eight, show it; it is shown if and only if that many flushes were due and succeeded; then the next due flush clears the pending state |
| NewTaskClient.DaemonClient.RequestZcodeNewTask | plugin/streamdeck/src/daemon-client.ts:230-246 | resolves false at once when offline, else waits at the end of the line, as one model step |
| NewTaskClient.DaemonClient.OnData | plugin/streamdeck/src/daemon-client.ts:295-307 | the line loop has the effect of delivering the results of all complete lines in order and keeps the incomplete one |
| NewTaskClient.DaemonClient.HandleLine | plugin/streamdeck/src/daemon-client.ts:422-452 | a result goes to the longest waiting request, settled or not; other lines settle nothing |
| NewTaskClient.DaemonClient.OnClose | plugin/streamdeck/src/daemon-client.ts:318-338 | only the current socket's close clears the buffer, fails the waiters and schedules a reconnect |
| NewTaskClient.DaemonClient.Stop | plugin/streamdeck/src/daemon-client.ts:160-175 | fails every waiter and forgets the socket, but keeps the buffer |
| NewTaskClient.DaemonClient.Start | plugin/streamdeck/src/daemon-client.ts:130-134 | opens one connection, unless already started |
| NewTaskClient.DaemonClient.Reconnect | plugin/streamdeck/src/daemon-client.ts:137-157 | leaves an existing socket to its close event, else opens a connection with an empty buffer |
| NewTaskClient.DaemonClient.OnConnect | plugin/streamdeck/src/daemon-client.ts:267-274 | only the current socket of a started client becomes connected |
| NewTaskClient.DaemonClient.OnReconnectTimer | plugin/streamdeck/src/daemon-client.ts:378-386 | a due timer opens a connection, if none is open |
| NewTaskClient.DaemonClient.OnTimeout | plugin/streamdeck/src/daemon-client.ts:234-242 | a timer settles its own request as false, unless it is settled already, and leaves it in line |
| NewTaskClient.DaemonClient.FailNewTaskWaiters | plugin/streamdeck/src/daemon-client.ts:454-460 | every waiter that is not settled yet resolves to false, and none waits afterwards |
| NewTaskPairing.SettledForGood | plugin/streamdeck/src/daemon-client.ts:235-241 | no event changes a settlement |
| NewTaskPairing.NextKeepsGood | plugin/streamdeck/src/daemon-client.ts:130-341 | every event keeps the framing and accounting invariants, and that whoever is settled by reply got the reply with its own number |
| NewTaskPairing.EveryRun | plugin/streamdeck/src/daemon-client.ts:130-460 | in every run a request settled by reply got the reply with its own number on its own connection, timeouts notwithstanding; every request is settled or waits on the open connection; what was settled at any earlier point stays so; and a request whose timer has gone off is settled |
| NewTaskAnswers.NextKeepsAnswering | plugin/streamdeck/src/daemon-client.ts:130-341 | every event keeps that each result has settled the request with its own number and that nobody waits twice |
| NewTaskAnswers.EveryResultSettles | plugin/streamdeck/src/daemon-client.ts:230-246 | in every run, on a connection with no result unasked for, the k-th result has settled the k-th request with its own value unless that request's own timer ran out |
| NewTaskPairing.BlankLeftover | plugin/streamdeck/src/daemon-client.ts:295-307 | a blank leftover buffer never changes the results read |
| NewTaskPairing.LeftoverHarmlessExactly | plugin/streamdeck/src/daemon-client.ts:160-175 | a leftover buffer is harmless for every parser and every text if and only if it is blank |
| NewTaskPairing.MispairedAfterStop | plugin/streamdeck/src/daemon-client.ts:160-175 | a concrete run in which a request is settled with the answer to the next one |
| PluginReplies.PluginController.Poll | tools/rp2040-bridge/src/plugin_controller.rs:274-291 | drains the inbox in order; a closed reader fails the poll after everything in the inbox was handled |
| PluginReplies.PluginController.HandleInbound | tools/rp2040-bridge/src/plugin_controller.rs:88-159 | one message takes one step of the specification |
| PluginReplies.PluginController.Send | tools/rp2040-bridge/src/plugin_controller.rs:77-84 | writes one line, or nothing once disconnected or closed |
| PluginReplies.PollAnswersAll | tools/rp2040-bridge/src/plugin_controller.rs:134-291 | a connected poll answers, once each and in order, exactly the requests before its first failed send, and ends connected if and only if no send failed; then it answers all of them |
| PluginReplies.PollKeepsAnswering | tools/rp2040-bridge/src/plugin_controller.rs:134-291 | over any number of polls the answers written are those to the first requests handled, and all of them while connected |
| PluginReplies.PinsInRange | tools/rp2040-bridge/src/plugin_controller.rs:96-115 | exactly the in-range slots with a readable pin are pinned |
| NewTaskExchange.TextAnswers | tools/rp2040-bridge/src/plugin_controller.rs:149-152 | the printed lines read back as exactly the answers written |
| NewTaskExchange.LettersAreFaithful | tools/rp2040-bridge/src/plugin_controller.rs:149-152 | lines can be printed and parsed as these theorems assume: a wire with one letter per line |
| NewTaskExchange.StepKeepsSound | plugin/streamdeck/src/daemon-client.ts:230-341 | every step of client, bridge or network keeps the joint invariant |
| NewTaskExchange.OwnVerdict | plugin/streamdeck/src/daemon-client.ts:230-246 | in every run of client, bridge and network a request settled by reply, on a connection opened with a blank buffer, gets the bridge's verdict on that very request |
| NewTaskExchange.EveryAnswerSettles | tools/rp2040-bridge/src/plugin_controller.rs:134-156 | on a connection opened with a blank buffer every answer that arrives settles its own request with the bridge's verdict unless the request's timer ran out; a bridge none of whose sends failed is connected, and once all it wrote has arrived that is so of every request handled |

## Left out

* Null pointers and callbacks of the C code, and the parser's separate frame length field (a frame's payload is a sequence that knows its length). Callbacks are listed and made after the feed instead of during it; they never touch the parser.
* USB and serial readiness, free space and acceptance are inputs of the firmware's steps, and so are formatted log texts. The USB descriptor, mount, suspend and get-report callbacks, which only log, are not part of this model.
* An id in a status request that exceeds the C `int`: the digits are read as an unbounded number.
* Resetting the RP2040 in mid-run: runs start at boot and have no reset.
* JSON and UTF-8 decoding: parsing a line is a function parameter, total, with its error outcomes. A line that makes the plugin client throw (the JSON text `null`) is treated as settling nothing.
* `serializePayload`, `asBytes` and option checking in `protocol/framing.js`: type checks without state. `CodexDecoder` and `RadialState` in `codex.rs`, and the Rust codec `wire.rs`; the C encoder stands for both ends.
* NewTaskExchange.EveryAnswerSettles: does not cover connections opened with text left in the buffer by `stop()`, because there the property fails; `NewTaskPairing.LeftoverHarmlessExactly` gives the exact condition.
* NewTaskPairing.EveryRun: on the client alone, pairing by number is claimed for connections on which results never outnumbered requests; `NewTaskExchange` proves this of the real bridge.
* The connect and heartbeat timers and autostart of the daemon client: they only lead to close events, which may happen at any time here.
* Other controller messages (`parse_event`): an event message carries what it parses to. Render lines are written at arbitrary moments, and their content is not modelled.
* Which session a task event is sent to is the choice of the caller. The list of sessions is a map by session number, since numbers are not reused.
* Bounds of session queues: some pushes of the daemon bypass the 256 cap, so no bound is claimed for them; the cap is modelled where it is applied.
* `Partition::compute`, `replace_full` and the debounce of repartitions: the fusion theorem holds for every partition.
* The bit mask of `ActiveSet` is modelled as a set.
* Rounding of brightness: `real` numbers stand for floating point.
* Log content changing between the metadata call and the read, saturation of the 64-bit offset, and replacement by content that is not shorter and does not start with the consumed bytes, beyond the example. `refresh_focused_task` and `apply_focus_event`, which tail a second log in the same way, are not part of this model.
* `send_image`, image encoding, and the tables that map keys and colours.
* `TaskBoard`, `usage.rs`, `zcode_state.rs`, `zcode_window.rs` and most of `main.rs` are not part of this model; new-task verdicts depend on the foreground window only as an input.
