# The log relay, modelled and proved

A wrapped process writes to stdout and stderr. The client cuts the bytes into events and offers them to a
bounded queue that never waits; an uploader streams the events to a daemon; the daemon offers them to a second
bounded queue, batches them by stream, size and time, and sends each batch to a Discord channel as messages of
bounded size. Beside that, a hand-written WebSocket client keeps a Gateway session alive across reconnects.

This project models those parts in Dafny and proves what they promise: bytes are shown in order or counted as
dropped, whatever the schedule; frames written under the lock are read back as written; text is cut, escaped and
stripped without damage; sessions resume exactly when they may.

## Layout

| files | part of the system |
|---|---|
| `WsFrames`, `WsConn`, `WsMessages`, `WsWriters` | WebSocket framing, the connection object, reassembly, concurrent writers |
| `Utf8`, `TextSplit`, `CodeFence`, `AnsiStrip` | the text transformations |
| `Protocol`, `ClientSession`, `Session` | events; the client's queue as a step relation and as objects |
| `Batching`, `LogMessages`, `Batcher` | the batcher as a step relation, the messages of a flush, the batcher object |
| `RelayPipeline`, `Omissions`, `Fidelity` | client, transport and batcher together; whether omitted bytes are reported; what is shown of each stream |
| `StreamHandler`, `Admission` | one streaming request; many requests sharing the semaphore and the sender |
| `Gateway`, `Heartbeat` | resume or identify over reconnects; heartbeats and acknowledgements |
| `Sender` | the retrying message sender |
| `ShellWords` | shell quoting on both sides |

Conventions. WebSocket bytes are numbers below 256; a Go string is a `string` with one `char` per byte. Where the
source has goroutines, the model has a step relation and the theorems quantify over every sequence of enabled
steps; the classes do the same steps on fields, and their contracts equate the new state with the step applied to
the old one. What the environment decides (masking keys, write failures, send results, clock readings, the moments
at which another goroutine runs) is an arbitrary function or argument. History variables (`accepted`, `offered`,
`flushed`, `drained`, `written`, ...) record what has happened and influence nothing.

## Findings

- README.md of the repository (item 5 under "Overload and failure semantics") promises that omitted byte counts are
  reported. The daemon's count always is. The client's is lost in two ways: Close finds its queue full, or the notice
  finds the daemon's queue full; local stderr names only the daemon's count (`cmd/wrapping-bot/main.go:153-158`).
  `Omissions.OmissionsReportedIff` shows that, while transport and decoding do not fail, these are the only ways it
  misses the output handed to sendOutput; `Omissions.ClientKeepsSilent` and `Omissions.DaemonDropsTheNotice` are a run
  of each. What Discord then does with that output is the sender's affair.
- Bytes written once Close has the lock are discarded without being counted
  (`internal/clientstream/session.go:242-245`). `RelayPipeline.BytesBalance` shows that the counters cover the loss exactly
  when no write is under way at that moment and none begins later; `RelayPipeline.BytesCanVanish` is a run that breaks
  this. The wrapper meets the condition: it waits for the process, and so for both writers, before it calls Close
  (`cmd/wrapping-bot/main.go:130-153`).
- The daemon strips control sequences record by record. At a boundary that agrees with stripping the whole stream,
  whatever arrives next, exactly when the record before it is *settled*, a condition on that record alone
  (`AnsiStrip.BoundaryHarmlessIffSettled`); at every boundary of a stream of records, exactly when all of them are
  (`AnsiStrip.EveryBoundaryHarmlessIff`). For one given stream it is enough that all records but the last are settled
  (`AnsiStrip.RecordsStripTogether`), and an unsettled one may happen to do no harm (`AnsiStrip.UnsettledMayBeHarmless`).
  An OSC sequence ended by a string terminator, with no BEL after it, leaves its record unsettled: a BEL in a later
  record swallows everything between (`AnsiStrip.TerminatedOscSwallows`).
- A code fence survives escaping exactly where the input has four backticks in a row (`CodeFence.FenceSurvives`).
- Between two timer heartbeats on the wire there need not be an ACK, only between the two checks of the flag. An ACK
  must come before the next heartbeat exactly when the flag is down as this one leaves
  (`Heartbeat.NextAwaitsAckIff`); `Heartbeat.EarlyAckLetsTwoFollow` is a run in which an ACK has already raised it, and
  `Heartbeat.BeatsNeedAcksUnlessEarly` the guarantee for all runs in which none has.
- A 429 replaces the rate window of its own headers, even by an earlier time; `Sender.WindowCanBeCutShort` is a call
  whose second request falls into the window of its first reply, `Sender.WindowKeptIff` says when the window is kept.
  README.md of the repository (item 3 there) promises that rate limits are honoured.

## Model

| member | source | states |
|---|---|---|
| WsFrames.DecodeLayout | internal/wsclient/wsclient.go:208-258 | the reader recovers every acceptable frame from any legal spelling of it (any length form that fits, masked or not, any reserved bits), whatever follows; the client-frame reader recovers any masked frame within the size limit |
| WsFrames.DecodeOnto | internal/wsclient/wsclient.go:208-258 | conversely, whatever the reader accepts is a legal spelling of an acceptable frame followed by what it leaves unread |
| WsFrames.ClientFrameRoundTrip | internal/wsclient/wsclient.go:260-295 | a frame as the client sends it, with any key, reads back with opcode and payload before arbitrary further bytes: by the client-frame reader whenever it could be sent, by the general reader, with FIN, unless it is an oversized control frame |
| WsFrames.ServerFrame | internal/wsclient/wsclient.go:314-328 | the unmasked encoder builds the shortest spelling, and the reader recovers the frame from it before arbitrary further bytes |
| WsFrames.EncodersAreShortest | internal/wsclient/wsclient.go:267-279 | no legal spelling is shorter than the chosen length form, and none of another form is as short |
| WsFrames.UniqueParse | internal/wsclient/wsclient.go:208-258 | a byte string begins with at most one acceptable frame, so concatenated frames have one reading |
| WsFrames.TruncatedFrameFails | internal/wsclient/wsclient.go:208-258 | every strict prefix of a frame fails to decode, for lack of bytes and no other reason |
| WsFrames.TruncatedClientFrameFails | internal/wsclient/wsclient.go:331-370 | nor does the client-frame reader make anything of a strict prefix of a sent frame |
| WsFrames.OversizeRefused | internal/wsclient/wsclient.go:230-237 | an over-long 64-bit length is refused before the payload is awaited, with the error its top bit decides; by the client-frame reader likewise |
| WsFrames.MaskTwice | internal/wsclient/wsclient.go:286-289 | masking twice with one key is the identity |
| WsFrames.XorDiffers | internal/wsclient/wsclient.go:286-289 | a bit of the combined byte is set exactly where payload and key byte differ; by WsFrames.BitsDetermine nothing else does that |
| WsFrames.BitsDetermine | internal/wsclient/wsclient.go:286-289 | a byte is determined by its bits |
| WsFrames.ClientFrameBytes | internal/wsclient/wsclient.go:265-289 | the sent frame byte for byte: FIN and opcode, the mask bit with the 7, 16 or 64-bit length most significant byte first, the key, and the payload with byte i differing from the wire in the bits of key byte i modulo four |
| WsFrames.BigEndianRoundTrip | internal/wsclient/wsclient.go:224-230 | a length that fits its field is recovered from it |
| WsFrames.BigEndianOrder | internal/wsclient/wsclient.go:267-279 | in a length field of any width the most significant byte stands first |
| WsFrames.ControlFrameRefused | internal/wsclient/wsclient.go:253-256 | a control frame that is fragmented or over 125 bytes is read and refused as such |
| WsFrames.UnmaskedRefused | internal/wsclient/wsclient.go:336-340 | the client-frame reader refuses every frame without a key |
| WsConn.Conn.ReadFrame | internal/wsclient/wsclient.go:208-258 | the field-by-field reader, with its early errors, consumes and returns exactly what the decoding function says |
| WsConn.Conn.WriteFrame | internal/wsclient/wsclient.go:260-295 | header and masked payload are two network writes; on success exactly one whole frame is added to the wire, with FIN, opcode, length, key and payload under the key at their places byte by byte |
| WsConn.UnmaskInPlace | internal/wsclient/wsclient.go:250-252 | after the in-place loop every byte differs from what it was in exactly the bits of the key byte at its index modulo four |
| WsConn.ReadClientFrame | internal/wsclient/wsclient.go:331-370 | the client-frame reader consumes and returns exactly what its decoding function says |
| WsConn.Conn.ReadMessage | internal/wsclient/wsclient.go:166-206 | the reading loop returns, consumes and sends exactly what the reassembly function says |
| WsConn.Conn.Close | internal/wsclient/wsclient.go:305-311 | closing sends one close frame with status 1000, if it can, and always hangs up |
| WsConn.SentIsPrefix | internal/wsclient/wsclient.go:260-295 | whatever write or draw fails, what a call puts on the wire is a beginning of its frame, all of it on success and nothing if oversized |
| WsMessages.MessagesCharacterised | internal/wsclient/wsclient.go:166-206 | a message is returned if and only if the bytes consumed are one text frame and its continuations, FIN on the last only, pings and pongs between, within the size limit, every pong written; it is then the concatenated payloads |
| WsMessages.ReadEnds | internal/wsclient/wsclient.go:174-205 | after any proper beginning of a message the next frame decides how a read ends without one: undecodable bytes, a close frame (echoed with its payload, then EOF), a pong that cannot be sent, a frame out of place, of unknown kind, or beyond the size limit |
| WsMessages.FragmentationInvisible | internal/wsclient/wsclient.go:166-206 | two inputs with the same data and the same pings give the same message and the same bytes sent, however fragmented |
| WsMessages.PingsAnswered | internal/wsclient/wsclient.go:174-181 | while a message is received the peer gets back exactly one pong per ping, same payloads, same order, readable by its own reader |
| WsWriters.StepKeepsInv | internal/wsclient/wsclient.go:260-295 | every step of any writer, a failing write included, keeps the wire the concatenation of what each turn with the lock sent: a whole frame unless the turn failed or is in progress; and each writer's frames in its order |
| WsWriters.EveryStateSafe | internal/wsclient/wsclient.go:260-295 | so it is in every state of every interleaving of any number of writers |
| WsWriters.PeerReadsWhatWasWritten | internal/wsclient/wsclient.go:305-311 | failures or not, the peer reads first every frame before the first one cut short, whatever is written after it |
| WsWriters.PeerReadsPastFailure | internal/wsclient/wsclient.go:290-311 | once a write has failed past its header, what others write later (Close's frame among it) is swallowed until the missing payload is made up; the peer then reads one frame of the failed one's opcode and length, right as far as it was sent, and goes on after it |
| WsWriters.FinishedWireDecodes | internal/wsclient/wsclient.go:331-370 | without failures the peer reads exactly the pairs written, in lock order, each writer's in its own order, none lost or repeated, and what it cannot read yet is the lock holder's part of a frame |
| TextSplit.SplitUtf8 | internal/textutil/text.go:20-49 | the nested loops terminate on every input and compute the splitting function |
| TextSplit.SplitJoins | internal/textutil/text.go:20-49 | the chunks concatenate to the text, and none is empty unless the text is |
| TextSplit.SplitBounded | internal/textutil/text.go:26-36 | no chunk exceeds the limit, or four bytes where the limit is smaller |
| TextSplit.SplitKeepsValid | internal/textutil/text.go:28-34 | chunks of valid UTF-8 are valid UTF-8 |
| TextSplit.SplitIsEconomical | internal/textutil/text.go:36-40 | of valid UTF-8, every chunk but the last has at least (limit - 3) / 2 + 1 bytes |
| TextSplit.SplitCount | internal/textutil/text.go:25-48 | which bounds the number of chunks by the length |
| TextSplit.SplitPrefersNewlines | internal/textutil/text.go:36-40 | every chunk but the last ends with a newline unless its second half has none |
| TextSplit.CutIsGreatest | internal/textutil/text.go:27-34 | in valid text without newlines near the limit the chunk ends at the last character boundary within it |
| TextSplit.CutIs | internal/textutil/text.go:26-40 | for every byte string and limit: the cut is behind the last newline of the second half before the last place a character may begin (or before the end of an over-long first character), or there if that half has none |
| TextSplit.SplitCutsWell | internal/textutil/text.go:25-44 | for valid text every chunk but the last ends behind the last newline in the second half of the limit, or, without one, at the last character boundary within it |
| Utf8.ValidIffEncoded | internal/textutil/text.go:28-34 | text is valid UTF-8 if and only if it is the encoding of some scalar values |
| Utf8.DecodedSizeIs | internal/textutil/text.go:31-34 | the decoder advances over the encoded character at the front, over one byte if there is none |
| CodeFence.FenceSurvives | internal/textutil/text.go:15-17 | the escaped text contains three consecutive backticks if and only if the input contains four |
| CodeFence.EscapeIsInvisible | internal/textutil/text.go:15-17 | erasing U+200B from output and input gives the same text |
| CodeFence.ZeroWidthSpaceIs200B | internal/textutil/text.go:15-17 | the three inserted bytes are the UTF-8 encoding of U+200B |
| CodeFence.EscapeKeepsValid | internal/textutil/text.go:15-17 | escaping keeps UTF-8 valid |
| AnsiStrip.MatchIsSequence | internal/textutil/text.go:9-13 | what the pattern matches is a complete CSI sequence or an OSC sequence ended by BEL or ST |
| AnsiStrip.ControlSequenceBytes | internal/textutil/text.go:9 | the byte ranges of the pattern are those of ECMA-48 |
| AnsiStrip.MatchIsLongest | internal/textutil/text.go:9-13 | and no longer such sequence begins at the same place |
| AnsiStrip.StripsFirstLongest | internal/textutil/text.go:9-13 | stripping leaves out the first control sequence, at its longest, and goes on behind it |
| AnsiStrip.NothingToStrip | internal/textutil/text.go:11-13 | text in which no control sequence stands anywhere is kept as it is |
| AnsiStrip.OrdinaryOutputStripped | internal/textutil/text.go:11-13 | stripping any interleaving of ESC-free text, CSI sequences and BEL-terminated OSC sequences leaves exactly the text, and such output is settled |
| AnsiStrip.BoundaryHarmlessIffSettled | internal/daemon/batcher.go:105-109 | stripping distributes over a record boundary for every continuation if and only if the record before it is settled |
| AnsiStrip.EveryBoundaryHarmlessIff | internal/daemon/batcher.go:105-109 | over a list of records, every boundary is harmless whatever follows it if and only if every record is settled |
| AnsiStrip.RecordsStripTogether | internal/daemon/batcher.go:105-109 | records of which all but the last are settled strip one by one as they strip joined together |
| AnsiStrip.UnsettledMayBeHarmless | internal/textutil/text.go:11-13 | a stream whose first record is not settled and which strips the same either way |
| AnsiStrip.StrippedInOrder | internal/textutil/text.go:11-13 | stripping deletes bytes and does nothing else |
| AnsiStrip.TerminatedOscSwallows | internal/textutil/text.go:9-13 | a complete ST-terminated OSC, any BEL-free text and a BEL strip to nothing at all |
| AnsiStrip.StripKeepsValid | internal/textutil/text.go:11-13 | stripping keeps UTF-8 valid |
| ClientSession.StepKeepsInv | internal/clientstream/session.go:224-255 | every step of writers, uploader and Close keeps: the events are the start, the accepted chunks in order, at most one notice with the total dropped, at most one exit; each writer's bytes are its chunks tried, what came late, and what is pending |
| ClientSession.EveryStateSound | internal/clientstream/session.go:94-124 | so it is in every state of every interleaving |
| ClientSession.NothingAfterClose | internal/clientstream/session.go:121-122 | once closed, no step of anybody adds an event or changes the drop counter |
| ClientSession.ExitIsLast | internal/clientstream/session.go:111-122 | an exit event among the events is the last of them and the one Close was given |
| ClientSession.NoticeMissingIff | internal/clientstream/session.go:95-110 | in every run, the events lack a notice of the bytes dropped if and only if Close, taking the lock, found drops to report and the queue full |
| ClientSession.DropsCanGoUnreported | internal/clientstream/session.go:95-110 | a run in which bytes are dropped and Close reports nothing |
| Session.Session.SendStart | internal/clientstream/session.go:67-75 | any event goes in as the next one, after waiting for room, unless the session is closed; a first start event keeps the protocol's script |
| Session.Session.Offer | internal/clientstream/session.go:241-251 | one chunk of any stream is enqueued, counted as dropped, or refused after close, never waiting |
| Session.Session.Close | internal/clientstream/session.go:81-138 | to the events are added the notice if it is due and fits, then the given event unless the wait times out; then closed; a second close changes nothing |
| Session.EventWriter.Write | internal/clientstream/session.go:224-255 | a write reports success for all its bytes; while the session is open exactly its chunks are offered, in order, what was accepted earlier stays, and every byte is accepted or counted; closed, nothing changes |
| Session.ChunksJoin | internal/clientstream/session.go:226-253 | the chunks of a write concatenate to it |
| Session.ChunksAreFull | internal/clientstream/session.go:226-231 | every chunk but the last of a write has 8192 bytes, and none is empty |
| Batching.StepKeepsInv | internal/daemon/batcher.go:53-117 | every step keeps: flushed output, then buffer, then queue are the accepted records byte by byte with their stream, in order; the buffer is below the limit; offered bytes are accepted or counted as dropped |
| Batching.EveryStateConserves | internal/daemon/batcher.go:72-117 | so it is in every reachable state, and at the end the output is the accepted records and then at most one overflow notice |
| Batching.TickTimingInvisible | internal/daemon/batcher.go:113-114 | two finished runs that accepted the same records pass on the same tagged bytes, wherever their ticks fell |
| Batching.FlushesOnlyWhenNeeded | internal/daemon/batcher.go:100-112 | a record causes a flush exactly when it changes the stream of a non-empty buffer or fills the buffer |
| Batching.EveryFlushIsUtf8 | internal/daemon/batcher.go:100-112 | if all records added are valid UTF-8, so is every flush of every run |
| Protocol.DecimalReadsBack | internal/daemon/batcher.go:95 | the figure printed in a notice determines the number |
| Protocol.DecimalIsShort | internal/daemon/batcher.go:95 | and is printed without leading zeros |
| LogMessages.MessagesFit | internal/daemon/batcher.go:119-127 | every message of a flush has at most limit + 39 bytes, escapes included |
| LogMessages.ContentSays | internal/daemon/batcher.go:122-123 | an outside reader of a message finds the first eight bytes of the run ID, the stream, and as the body of the code block the part less one final newline |
| LogMessages.MessagesSay | internal/daemon/batcher.go:119-127 | so read, the messages of a flush carry parts that join to its escaped data |
| LogMessages.FlushesResaid | internal/daemon/batcher.go:119-127 | read one after the other, the messages of all flushes say the escaped bytes of all of them in order, each under its stream, up to newlines trimmed at cuts |
| LogMessages.PartsJoin | internal/daemon/batcher.go:119-122 | the bodies concatenate to the escaped data, which differs from the data by invisible characters only |
| LogMessages.PartsAreUtf8 | internal/daemon/batcher.go:119-122 | bodies cut from valid UTF-8 are valid UTF-8 |
| LogMessages.PartsHaveNoFence | internal/daemon/batcher.go:119-122 | no body of a flush without four consecutive backticks contains a fence |
| LogMessages.FourBackticksGetThrough | internal/daemon/batcher.go:119-122 | a flush of four backticks has one body and that contains a fence |
| Batcher.Batcher.Add | internal/daemon/batcher.go:53-62 | a record is queued if there is room and its bytes counted as dropped if not; the invariant is kept |
| Batcher.Batcher.Receive | internal/daemon/batcher.go:90-112 | the loop's record branch does the receive step, and the sender has been called for exactly the messages of all flushes |
| Batcher.Batcher.Tick | internal/daemon/batcher.go:113-114 | a tick leaves nothing in the buffer |
| Batcher.Batcher.SendOutput | internal/daemon/batcher.go:119-127 | every piece is sent on the run's channel, in order, failures notwithstanding, and the first failure is remembered; read back, the calls carry parts that join to the escaped data |
| Batcher.Batcher.Finish | internal/daemon/batcher.go:91-99 | the closing branch flushes, then reports what was dropped in a flush of its own |
| Batcher.Batcher.Close | internal/daemon/batcher.go:64-70 | whatever the clock does meanwhile, everything accepted has been passed on when Close returns, with the bytes dropped and the first error |
| RelayPipeline.StepKeepsInv | internal/daemon/server.go:120-148 | every step of writers, uploader, decoder, batcher and clock keeps both queues sound and what the daemon was offered equal to what it decoded |
| RelayPipeline.ShownIsWhatWasWritten | internal/daemon/batcher.go:72-117 | when a run is over, what is shown is the records the daemon accepted plus at most its notice, and those records are a subsequence of the chunks that make up what was written on each stream plus at most the client's notice |
| RelayPipeline.BytesBalance | internal/clientstream/session.go:224-255 | bytes written plus the client's notice equal bytes shown plus both drop counters plus bytes written too late; the counters alone cover the loss if and only if Close found no write under way and no write with data began from then on |
| RelayPipeline.BytesCanVanish | internal/clientstream/session.go:242-245 | a run in which a byte is neither shown nor counted |
| Omissions.OmissionsReportedIff | internal/clientstream/session.go:95-110 | at the end of every run both drop counts appear in the output if and only if the client's notice, where due, found room in the client's queue when Close took the lock and in the daemon's queue when it was decoded |
| Omissions.NoticesState | internal/clientstream/session.go:103 | the one number in each overflow notice is the count of bytes omitted |
| Omissions.StepMisses | internal/daemon/batcher.go:53-62 | each step of the relay makes the notice missed, or leaves it so, exactly when it was missed before or finds a full queue |
| Omissions.ClientKeepsSilent | internal/clientstream/session.go:107-110 | a complete run that omits a byte and reports nothing, the client's queue being full at Close |
| Omissions.DaemonDropsTheNotice | internal/daemon/batcher.go:57-61 | a complete run whose client sends its notice and whose daemon drops it |
| Fidelity.StreamShownInOrder | internal/daemon/batcher.go:72-117 | with or without stripping, what is shown under the name of a stream is a subsequence of the bytes the process wrote to it, for every schedule |
| Fidelity.LosslessIff | internal/clientstream/session.go:246-250 | with or without stripping, the records the daemon accepted are all the chunks of all that was written if and only if every chunk and every output event found its queue with room and no write came too late |
| Fidelity.LosslessShows | internal/daemon/batcher.go:105-109 | such a run shows each stream byte for byte, or with stripping on each of its chunks stripped, which is the stream stripped as a whole where all its chunks but the last are settled |
| Fidelity.ByteForByteIff | internal/clientstream/session.go:246-250 | with stripping off, both streams are shown exactly as written if and only if the queues always had room and no write came too late |
| RelayPipeline.ScriptDecodes | internal/daemon/server.go:135-140 | the daemon's 64 KiB truncation never touches an event of this client |
| RelayPipeline.TruncatedKeepsFront | internal/daemon/server.go:135-139 | data over 64 KiB is cut to exactly its first 64 KiB and a remark, other data kept |
| StreamHandler.Server.HandleStream | internal/daemon/server.go:68-201 | accepted if and only if authorised, a slot free, a valid allowed start, every later event good, at least one exit, and every message sent; then the whole record went out: all start parts, log messages and the exit report. Any request that gets a slot and has a valid allowed start sends that record up to its only early stops, a failed start or closing part, any other nothing; each refusal has its own cause and status; the closing message is the one the stream, its last exit and the figures call for (StreamHandler.ClosesAs); the slot is always given back |
| StreamHandler.WholeUnlessLastFailed | internal/daemon/server.go:101-180 | a request served to the end, an interrupted or exit-less one too, has sent its whole record, or the last message it sent failed |
| StreamHandler.Server.RelayRun | internal/daemon/server.go:108-199 | after the start message: all log messages of the batcher, failures or not, then the parts of the closing text that the end of the stream, the last exit event, the dropped bytes and the first error decide, all of them or up to the first failure |
| StreamHandler.Server.ReadEvents | internal/daemon/server.go:118-148 | events are taken up to the first bad one; the last exit is kept and every non-empty output offered, cut at 64 KiB |
| StreamHandler.Server.SendLong | internal/daemon/server.go:214-221 | the parts are sent in order, all of them or up to and including the first failure, and success means that none failed |
| StreamHandler.BodyOf | internal/daemon/server.go:84-99 | for an admitted valid start, the conditions on the rest of the body amount to reading it to the end and finding an exit |
| StreamHandler.ClosesByPosition | internal/daemon/server.go:156-180 | the closing parts are those of the exit report of the last exit event, with the bytes dropped (offered less accepted) and whether every log message went out, after a clean end; of the interruption report if some event is bad; of the missing-exit report if there is none |
| StreamHandler.StatusFollows | internal/daemon/server.go:68-197 | 401, 429, 400, 403, 502 and 200 each go with exactly one kind of outcome |
| StreamHandler.AcceptableIff | internal/daemon/server.go:223-253 | the conditions on a request, spelled out field by field |
| StreamHandler.OfferedIsDecoded | internal/daemon/server.go:134-140 | what the handler offers its batcher is what the end-to-end model decodes from the same events |
| StreamHandler.ClientEventsAreGood | internal/daemon/server.go:129-146 | every event this client sends after its start is one the handler accepts |
| StreamHandler.LogsSayOutput | internal/daemon/batcher.go:105-127 | the log calls of a relayed run, read back, say what was flushed, which is the accepted records (stripped if so configured) and at most the notice, on the run's channel and under its ID; nothing is dropped before a queueful was accepted |
| StreamHandler.LongPartsSay | internal/daemon/server.go:214-221 | the parts of a long message join to its content |
| StreamHandler.EveryMessageFits | internal/daemon/server.go:214-221 | everything a run sends is on the channel of its start event and has at most 1900 bytes |
| Admission.StepKeepsSlots | internal/daemon/server.go:73-79 | every step of any request keeps the slots taken equal to the handlers past admission and within the limit |
| Admission.EveryStateSound | internal/daemon/server.go:73-180 | so in every state of every interleaving of any number of requests, and the calls seen of each run are the first so many of its own |
| Admission.RunsSeenInOrder | internal/daemon/server.go:101-180 | in every interleaving the shared sender has seen of each run the beginning of its start parts, its batcher's log messages and its closing parts, in that order, on the channel of its own start event, each at most 1900 bytes; nothing of a run not admitted, and of one that returned its whole record unless the last message it sent failed |
| Admission.ReturnedRunsAreWhole | internal/daemon/server.go:180-199 | a run that has returned with every message taken has its whole record in the shared log |
| Admission.EveryCallOnItsChannel | internal/daemon/server.go:92-101 | no call in the shared log goes to a channel other than that of its run's start event |
| Admission.AllSlotsReturned | internal/daemon/server.go:75 | with every handler gone no slot is taken |
| Admission.TurnedAwayOnlyWhenFull | internal/daemon/server.go:76-79 | a request is refused for want of a slot only while the limit of runs is in progress |
| Gateway.Gateway.Run | internal/discord/gateway.go:135-162 | over any sequence of connections, each that gets as far sends the greeting that the messages handled before call for (Gateway.GreetsRightly), and the k-th delay is min(2^k, 30) seconds |
| Gateway.Gateway.HandleEnvelope | internal/discord/gateway.go:265-306 | a non-resumable invalidation empties the memory, a READY leaves exactly its two strings, any other message leaves both; the number is the message's or the old one; the loop ends exactly on a reconnect, an invalid session, an unreadable READY or an unsent heartbeat |
| Gateway.Gateway.ConnectionURL | internal/discord/gateway.go:367-375 | the client resumes if and only if its history calls for it |
| Gateway.Gateway.ClearSession | internal/discord/gateway.go:415-421 | after an invalidation nothing of the session is remembered |
| Gateway.ResumeIsJustified | internal/discord/gateway.go:221-227 | a resume names the session of the latest READY, which gave a session and an address and was not invalidated since |
| Gateway.GreetingIsRight | internal/discord/gateway.go:221-303 | told from the messages handled alone: a connection resumes exactly if some READY with session and address was followed by no other READY and no non-resumable invalidation; it carries that session and the last number since, -1 without one |
| Gateway.InvalidatedThenIdentify | internal/discord/gateway.go:296-303 | right after a non-resumable invalidation the next greeting is Identify |
| Gateway.ResumableKeepsSession | internal/discord/gateway.go:296-303 | a resumable one leaves the session that would be resumed, and the number unless it carries one |
| Gateway.HandledByPosition | internal/discord/gateway.go:249-305 | messages are handled in order up to and including the first that ends the connection |
| Gateway.DelayTable | internal/discord/gateway.go:135-162 | 1 s, doubled while below 30, then 30 s |
| Gateway.ReadyLeadsToResume | internal/discord/gateway.go:367-375 | conversely such a READY always leads to a resume |
| Gateway.SequenceIsLatest | internal/discord/gateway.go:265-269 | the sequence carried is the last one seen since the last invalidation |
| Gateway.SequenceUnknown | internal/discord/gateway.go:415-421 | and -1 if there is none |
| Heartbeat.StepKeepsInv | internal/discord/gateway.go:310-351 | every step of timer, serve loop and server keeps an ACK between any two checks of the flag and heartbeats within ACKs plus one |
| Heartbeat.HeartbeatsNeedAcks | internal/discord/gateway.go:328-349 | so in every state of every interleaving |
| Heartbeat.TickContinuesIffAcknowledged | internal/discord/gateway.go:334-341 | a tick goes ahead if and only if the flag was last touched by an ACK; without an ACK since some earlier check it ends the loop |
| Heartbeat.NextAwaitsAckIff | internal/discord/gateway.go:319-348 | however a run goes on from a heartbeat about to leave, an ACK comes before the next heartbeat, if and only if the flag is down as this one leaves |
| Heartbeat.BeatsNeedAcksUnlessEarly | internal/discord/gateway.go:319-348 | in every run whose timer heartbeats all leave with the flag down, an ACK lies between any two heartbeats on the wire |
| Heartbeat.EarlyAckLetsTwoFollow | internal/discord/gateway.go:319-348 | a run with two heartbeats on the wire and no ACK between them |
| Sender.Sender.Send | internal/discord/sender.go:62-145 | against any replies and clock: at most maxRetries + 1 requests, each retried only after a network error, 429 or server error, success exactly on a readable 2xx; every request, and the next call, heeds the windows and waits of all earlier replies, and the backoff is slept |
| Sender.Sender.OneTry | internal/discord/sender.go:85-132 | one request, issued when due; the next is due at the end of the window its headers close, for a 429 after the longer of its two waits (the backoff if neither is positive), else as before |
| Sender.EarlierDemandsHonoured | internal/discord/sender.go:85-87 | no request precedes any time that an earlier reply of the call, or an earlier call, left as due; due times never decrease |
| Sender.WellPacedHeeds | internal/discord/sender.go:85-156 | told from the replies alone: after a reply other than a 429 that closes the window no later request of the call, nor the next call, comes before it reopens; after a 429 none before either of its waits is over |
| Sender.CompleteIsRight | internal/discord/sender.go:96-142 | a call tries again only after a network error, a 429 or a server error, and stops early only on another outcome |
| Sender.BackoffBounded | internal/discord/sender.go:170-175 | the explicit sleeps total at most 250 (2^min(n,6) - 1) + 8000 max(0, n - 6) milliseconds |
| Sender.BoundAttained | internal/discord/sender.go:170-175 | exactly that many when every retry follows a network or server error |
| Sender.BackoffTable | internal/discord/sender.go:170-175 | 250 ms, doubled up to 8 s |
| Sender.WindowKeptIff | internal/discord/sender.go:114-132 | the rate window of a 429's headers is kept for every clock if and only if the wait it names is no shorter |
| Sender.WindowCanBeCutShort | internal/discord/sender.go:114-132 | a well-paced call of two tries whose second, successful request falls within the minute its first reply closed |
| ShellWords.CommandReadsBack | internal/daemon/server.go:333-354 | for every argument list a POSIX shell splits the printed command into exactly that list |
| ShellWords.CommandsDiffer | internal/daemon/server.go:333-342 | different argument lists never print alike |
| ShellWords.BareIff | internal/daemon/server.go:344-352 | a word is printed bare exactly if it is not empty and made of letters, digits and _@%+=:,./- |
| ShellWords.FormatCommand | internal/daemon/server.go:333-342 | the text shown reads back as the command, unless it is itself one shell command line |
| ShellWords.BuildCommand | cmd/wrapping-bot/main.go:359-372 | the shell is given the very text the start message shows, and reads several arguments back unchanged |

## Left out

- Dialling, TLS, the HTTP upgrade handshake, deadlines and URL handling: a connection is a byte sequence.
- JSON: events and Gateway messages are taken decoded. Go's encoder replaces invalid UTF-8, so the end-to-end byte counts speak of ASCII output.
- RelayPipeline.BytesBalance: assumes that transport and decoding do not fail and that stripping is off, as a count of bytes must.
- RelayPipeline.ShownIsWhatWasWritten: takes the client's drop counter to have at most 19 digits, as a 64-bit integer does.
- WsWriters.FinishedWireDecodes: assumes that network writes succeed. Runs with failing writes are covered by WsWriters.PeerReadsWhatWasWritten and WsWriters.PeerReadsPastFailure, except a failure within the header of a frame, after which what the peer reads depends on where in the header it fell.
- Batcher.Batcher.Close: the schedule given for the loop is finite; an endless run of ticks that never lets the loop take a record is not modelled.
- StreamHandler.Server.HandleStream: the wording of start, exit and warning messages is an arbitrary function; comparing credentials is a boolean; a single request is followed, other requests sharing the sender being the subject of Admission.
- Admission.RunsSeenInOrder: the calls of a run are taken as HandleStream makes them for some outcome of its sends; how outcomes depend on what other runs send (the rate limits of the shared sender) is not modelled.
- Omissions.OmissionsReportedIff: speaks of output handed to sendOutput; whether Discord takes those messages is decided by the sender.
- Session.EventWriter.Write: between the chunks of one write the uploader may run but not Close; ClientSession has every interleaving of both writers and Close. A session has one run ID, as the wrapper uses it.
- ValidStart trims ASCII white space only; the source trims Unicode white space.
- Sender.Sender.Send: the channel ID is taken as already trimmed, and waits as integers; conversion from floating-point seconds and its overflow are not modelled.
- Heartbeat.StepKeepsInv: a heartbeat the server asked for is one step, its own send failure belonging to Gateway; durations are not modelled.
- ShellWords.CommandReadsBack: speaks of word splitting and quote removal; what a shell does with reserved words and assignment-like words comes later.
- Process execution, signals, health checks, logging, flags, environment collection and configuration files.
