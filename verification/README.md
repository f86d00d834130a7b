# A verified model of the rp1db client

rp1db is a multiplexed client for a binary request/response protocol. Many callers share one
connection. Each request carries a 64-bit id, and one background driver reads the byte stream, cuts it
into frames and hands each terminal frame to the caller that waits on the id the frame names. The
project models that client as one stack, together with the two cores of the repository's validation
runner that have laws of their own.

| file | models |
|---|---|
| Sequences, Wrappers, LittleEndian, EntryRegion | concatenation; options and results; integers on the wire; regions of identifier/length/value entries |
| Protocol, Codec | the frame decoder with its fixed admission order, the encoder, and their laws |
| Handshake, Handover | the handshake payloads, the bounded read loop, what an established connection runs under, and what of the stream the driver is handed |
| Identity | the id allocator and the registry of live ids |
| Dispatch, Correlation, Refusals | draining a receive buffer, which waiter gets which bytes, and which frames get which failure |
| Driver, DriverTask, Stops | the driver as a step relation with its invariant, as a class proved to take only those steps, and how it stops |
| Command | the five commands, their size check, and the reading of their replies |
| Exchange, Ambiguity | runs of the driver: what a stream delivers, and what a failed waiter is told |
| Connection, Interleaving, Requests, Callers, Fates | callers, closers and the driver on one connection, in every interleaving, the stream they write, what a caller reads, and what becomes of every command |
| Terminal, FinishedClose, CloseRaces | when a terminal lifecycle state is kept, what a finished close leaves, and interleavings in which a close goes wrong |
| Calendar | the conversion of a clock value to a civil date |
| Json, JsonText, JsonGrammar | the JSON printer and parser of the run records, as functions and as they run, and the grammar the parser accepts |
| Journal, Campaign, Execution, Evidence | the append-only journal, campaigns that reuse recorded passes, the loop that runs them over a file, and the evidence files they name |

Bytes are naturals below 256, and the wire integers are naturals below their width. Every
wrap-around, saturation and checked operation of the source is written out. `usize` is taken to be 64
bits wide. The clock, the transport and the outcome of a validation segment are parameters. The order
in which live ids are listed is arbitrary: every method that lists them promises only the set.

## What is proved

* **Delivery, over every run of the driver.** Reads that carry one reply per live id, in any order and
  any cut, send each waiter the bytes of its own frame and leave nothing over
  (`Exchange.EveryOrderInRun`). With submissions taken at any time in between, a stream of replies is
  delivered whole, in order, each to the submission it names (`Exchange.StreamDelivered`).
* **Delivery, over every interleaving.** The driver of every interleaving makes a run
  (`Callers.DriverRuns`). A command answered at any time holds exactly the reply that names its id, and
  a `GET` answered with a value reads exactly that value (`Callers.CallerReads`, `Callers.CallerGets`).
* **Refinement.** Chunk-by-chunk draining equals one drain of the whole stream
  (`Dispatch.FeedIsDrain`), and the read steps of a run do exactly that (`Exchange.ReadsFeed`).
* **Every run of the driver.** Each accepted submission is resolved exactly once, bytes are conserved,
  memory is bounded, a success goes only to the submission whose id its frame names, and the bytes
  written are the accepted frames in order (`Driver.ExactlyOnce`, `Driver.BytesConserved`,
  `Driver.RightWaiter`, `Driver.WrittenInOrder`).
* **Every verdict of the decoder.** For every buffer, role, phase and set of ids in flight, each answer
  of the decoder has the exact frames that get it, told by the bytes of the frame alone
  (`Refusals.DecodeVerdict`). So a drain ends a session with a failure exactly at a frame that calls for
  that failure (`Refusals.TurnVerdict`, `Refusals.DrainVerdict`). The handshake's payloads, its answers
  and the encoder's errors have exact conditions too (`Handshake.ResponseVerdict`,
  `Handshake.HandshakeRefused`, `Codec.EncodeFails`).
* **How the driver stops, over every run.** The event that stops it decides the error its waiters are
  sent, the state it marks, what it returns, and what every later command is told (`Stops.StopStep`,
  `Stops.MarksByCause`, `Stops.ReturnsByCause`, `Ambiguity.AmbiguousExactly`, `Fates.ToldByCause`).
* **No command is lost or stuck.** In every interleaving a waiting command's request is queued, taken or
  dropped with the driver, and once the driver has returned the command can stop waiting at once
  (`Fates.NoRequestLost`, `Fates.NoneStuck`).
* **Every interleaving** of callers, closers and the driver: permits are conserved, outstanding ids are
  bounded, Usable is never regained, nothing succeeds after the driver has returned unless it was
  already sent, and a server reads the outgoing stream request by request (`Interleaving`,
  `Requests.ServerReads`).
* **The codec** is canonical in both directions, prefix-stable, and blind to the order of in-flight ids
  (`Codec`). The handshake payloads are canonical too, with the exact condition for a round trip.
* **The calendar** is exact on the whole 64-bit range, with the exact condition for failure.
* **The JSON reader** accepts exactly the texts of a grammar and reads each as its own fields
  (`JsonGrammar.ReadsExactly`).
* **The journal.** Any sequence of appends reads back. A segment is reused exactly when the last attempt
  at it stands (`Campaign.StepExactly`). Over every sequence of campaigns a cached result
  traces to a real pass, and a seal means a real pass of every required segment with the evidence the
  report names. No two executed attempts of a record name one evidence file, so a reused result names
  the file of exactly one pass (`Evidence.ReusedNamesOnePass`).

## Where the code falls short of what it promises

The model follows the code in each of these. Each has an input that shows the shortfall and the exact
condition under which the promise is kept.

* **The id a frame retires.** The driver retires the id in the header and does not use the decoded
  frame's own `retires` value. For a frame that names a live id the two agree if and only if it is not
  an error of a connection-fatal class; for every admitted frame they agree if and only if it is not
  such an error or names the reserved id 0 (`Correlation.RetiresAgree`). An error frame of any fatal class that names a
  live id is delivered to its waiter, and the session goes on (`Correlation.FatalErrorDelivered`).
* **Terminal states.** They are said to keep why a session ended. A closer tests for a terminal state
  and writes `Closing` under two separate locks, so a terminal state reached in between is overwritten:
  `CloseRaces.TerminalStateLost` ends at `Closing` although the driver has returned and the close has
  finished. A finished close leaves `Closing` behind exactly when the session became unusable and the
  closers' last write since the driver's mark is `Closing` (`FinishedClose.FinishedAfterFailure`). A
  terminal state can still be lost if and only if a closer stands between its check and its
  write, or the state is not `Closed` and a closer may yet find no driver
  (`Terminal.TerminalLostExactly`).
* **A shutdown that fails.** Closing is said to leave the connection `Failed` when the transport
  shutdown fails. The driver marks the session `Closed` first, so a lone closer finds it `Closed`
  (`CloseRaces.FailureUnseen`). The finished close leaves `Failed` if and only if the shutdown failed
  and the closers' last write to the state since the driver's mark is `Closing`; otherwise it leaves
  `Closed` (`FinishedClose.FinishedCloseExactly`). So the failure shows only when a second closer begins
  after the mark, be it before the shutdown fails (`CloseRaces.FailureSeen`) or after it
  (`CloseRaces.FailureSeenLate`). With no closer between its check and its write at the mark it never
  shows (`Terminal.FailureHidden`).
* **Ambiguous failures.** A failure is said to be ambiguous when no terminal response tells whether the
  request took effect. A failed waiter is told so if and only if it was failed by a shutdown, a
  transport failure or a refused id (`Ambiguity.AmbiguousExactly`), and one that holds its own frame if
  and only if that is an internal error (`Callers.AnsweredToldExactly`). A waiter failed by a fatal frame is
  not (`Ambiguity.FatalFrameWitness`), nor is one whose success arrived with a metadata entry that the
  decoder refuses (`Ambiguity.RefusedFrameWitness`).
* **The handshake's read buffer.** It is said never to grow past the stricter of the protocol's bound
  and the local cap. It holds at most 4095 bytes more (`Handshake.ReadHandshakeResponse`), and a peer can
  take it that far (`Handover.BufferPastCap`).
* **Bytes behind the handshake response.** The read loop drops what it has read behind the response,
  and the driver starts with an empty buffer. What the driver reads is what the peer sent behind the
  response if and only if the response ends where a read ends (`Handover.StreamContinuesExactly`); in
  one read with the response, all of it is lost (`Handover.TailDropped`).
* **Saturated fields.** An encoded handshake payload states a saturated count, and an entry states a
  saturated length. `Handshake.RequestRoundTrip` and `Handshake.ResponseRoundTrip` give the exact
  conditions, and `Handshake.SaturatedCount` gives 65536 ascending entries that do not read back.
* **Appending to the journal.** Entries are said to be only ever added. An entry appended to a readable
  file reads back behind the others if and only if nothing but blanks follows the last line break
  (`Journal.AppendReadsExactly`). In a file that lost only its last line break the next entry is
  swallowed by the line before it (`Journal.GluedEntryLost`).

## Model

| member | source | states |
|---|---|---|
| LittleEndian.FromToBytes | src/protocol.rs:1581-1603 | reading a little-endian integer of any width gives back the number written |
| LittleEndian.ToFromBytes | src/protocol.rs:1581-1603 | writing back the number read from any bytes gives those bytes |
| LittleEndian.ByteAt | src/protocol.rs:1581-1603 | bytes are written least significant first: byte k is the k-th digit in base 256 |
| EntryRegion.EntryLayout | src/protocol.rs:1278-1283 | an entry is its identifier, its length saturated at 65535, and its value |
| EntryRegion.ParsePrint | src/protocol.rs:1278-1283 | entries whose values fit the length field are read back in order |
| EntryRegion.PrintParse | src/protocol.rs:511-526 | a region that parses is the printed form of its entries, so it is filled exactly and no two regions read alike |
| EntryRegion.ParseLoop | src/protocol.rs:511-526 | the consuming loop computes the recursive parse, refusals included |
| EntryRegion.CheckAscending | src/protocol.rs:600-611 | comparing neighbours decides that identifiers ascend strictly over all pairs |
| EntryRegion.CheckMetadataOrder | src/protocol.rs:1427-1441 | the loop accepts exactly ascending regions with no identifier in the required range |
| Protocol.WireTables | src/protocol.rs:145-373 | on kinds, result codes and error classes, reading a wire value and writing it are inverse |
| Protocol.SumMetadataLoop | src/protocol.rs:1537-1562 | the loop computes the checked metadata length, with the refusal of the first bad entry |
| Protocol.PrintLoop | src/protocol.rs:1278-1283 | appending entries one by one appends the printed region |
| Protocol.Encode | src/protocol.rs:1253-1286 | the buffer-building encoder computes the frame of the specification, with its errors in order |
| Codec.HeaderRoundTrip | src/protocol.rs:1312-1325 | a written header is read back, whatever bytes follow |
| Codec.HeaderCanonical | src/protocol.rs:1312-1325 | writing the header read from any buffer gives its first 20 bytes |
| Codec.AdmitExtend | src/protocol.rs:1148-1228 | each verdict of the admission checks survives appended bytes; every refusal here is fatal and takes all bytes held |
| Codec.PrefixStable | src/protocol.rs:1094-1135 | `Need(n)` has n above the bytes held and stands until they arrive; a frame or request-scoped refusal is final; a fatal refusal keeps class and scope |
| Codec.Truncate | src/protocol.rs:1094-1135 | an answered frame has the length its header states, and cutting the buffer there changes nothing |
| Codec.Reread | src/protocol.rs:1378-1424 | a frame's bytes decode alike for a receiver that knows only that frame's id |
| Codec.AnswerStable | src/protocol.rs:1094-1135 | prefix and whole, with in-flight ids listed in any order, give the same answer |
| Codec.SumExact | src/protocol.rs:1537-1562 | the metadata sum succeeds exactly on ascending entries within 64 bits, and equals the printed length |
| Codec.SumFails | src/protocol.rs:1537-1562 | the sum fails for order if and only if it reaches a first entry out of order, and for length in every other case of failure |
| Codec.EncodeFails | src/protocol.rs:1253-1286 | each error of the encoder has its exact condition, for every frame and limit: order first, then the metadata limit, then detail, payload and frame |
| Codec.PayloadRoundTrip | src/protocol.rs:1565-1579 | a written payload reads back under a code if and only if its shape fits that code |
| Codec.PayloadCanonical | src/protocol.rs:1477-1519 | writing any payload that was read gives the same bytes |
| Codec.DecodeEncode | src/protocol.rs:1094-1135 | re-encoding any admitted frame succeeds and gives exactly the bytes it occupied |
| Codec.EncodeDecode | src/protocol.rs:1253-1286 | an encoded frame followed by anything is decoded as itself if and only if limits, role, phase, in-flight ids, metadata range and payload shape allow it |
| Identity.RequestIdAllocator.Allocate | src/connection/dispatch.rs:33-41 | each call hands out the next id of the sequence and leaves the allocator at the rest of that sequence |
| Identity.ClosedForm | src/connection/dispatch.rs:33-41 | the k-th id is 1 + (start - 1 + k) mod (2^64 - 1) |
| Identity.NeverRepeats | src/connection/dispatch.rs:33-41 | no id is 0, and two allocations at most 2^64 - 1 apart agree if and only if they are exactly that far apart |
| Identity.SameIdExactly | src/connection/dispatch.rs:33-41 | two allocations share an id if and only if they lie a multiple of 2^64 - 1 apart |
| Identity.InFlightRegistry.Insert | src/connection/dispatch.rs:73-82 | refuses 0, then a live id; otherwise adds exactly that id |
| Identity.InFlightRegistry.Retire | src/connection/dispatch.rs:88-90 | removes exactly that id and tells whether it was live |
| Identity.InFlightRegistry.LiveIds | src/connection/dispatch.rs:108-110 | lists each live id once, in an order that is not promised |
| Handshake.RequestRoundTrip | src/protocol.rs:680-711 | a built request reads back if and only if its version range is not inverted, its ids ascend, and count and values fit their fields |
| Handshake.SaturatedCount | src/protocol.rs:655-677 | 65536 ascending entries that fit their fields do not read back |
| Handshake.RequestCanonical | src/protocol.rs:680-711 | any accepted request payload is the encoding of what was read |
| Handshake.RequestVerdict | src/protocol.rs:680-711 | a payload is read if and only if it encodes a request with a range, order and count that agree; every other is malformed |
| Handshake.EncodeRequestLoop | src/protocol.rs:714-728 | the buffer-building encoder computes the request encoding |
| Handshake.HelloReaches | src/connection/mod.rs:1317-1337 | under every configuration the client's handshake request is built, and a server reads it, followed by anything, as request 1 with exactly what the client asked for |
| Handshake.ResponseRoundTrip | src/protocol.rs:802-848 | a response reads back if and only if it answers the offer within the floors |
| Handshake.ResponseCanonical | src/protocol.rs:802-848 | any accepted response payload is the encoding of what was read |
| Handshake.ResponseVerdict | src/protocol.rs:802-848 | a payload is accepted if and only if it encodes a well-formed response that accepts only what was offered, a violation if and only if it encodes one that accepts something else, and malformed otherwise |
| Handshake.LocalBoundUnreachable | src/connection/mod.rs:1385-1389 | under a validated configuration the read loop's own size refusal is never taken |
| Handshake.ReadHandshakeResponse | src/connection/mod.rs:1368-1403 | under a validated configuration the result is the verdict on the concatenated stream, or that the transport failed or closed, and is reached within 65536 reads; under every configuration the loop reads only while it has no answer, its buffer holds at most 4095 bytes past the cap, and what it held behind the response is dropped |
| Handshake.EstablishedBounds | src/connection/mod.rs:665-688 | whatever the peer sends, an established connection runs version 0, no capabilities, and floor ≤ negotiated = effective ≤ local for both bounds |
| Handshake.HandshakeReaches | src/connection/mod.rs:1406-1441 | any acceptable response, followed by anything, gives exactly its terms, which establish the connection if and only if they stay within the local caps; the first cap they pass is told otherwise |
| Handshake.HandshakeRefused | src/connection/mod.rs:1432-1441 | an error frame of any class, with any detail and text that fit and followed by anything, fails the handshake with that class and its scope |
| Handshake.NeverUnexpected | src/connection/mod.rs:1406-1441 | whatever the peer sends, the branches for an unexpected frame never run |
| Handover.StreamContinuesExactly | src/connection/mod.rs:1368-1403 | the driver reads on exactly behind the response if and only if the response ends where a read ends; otherwise the bytes read behind it are missing |
| Handover.TailDropped | src/connection/mod.rs:1397-1400 | a response and bytes behind it in one read establish the connection, and the driver sees none of those bytes |
| Handover.BufferPastCap | src/connection/mod.rs:1365-1389 | reads, each called for, that take the buffer 4095 bytes past its cap |
| Dispatch.TurnView | src/connection/driver.rs:160-208 | the drain loop's missing-header branches never run, and each turn settles the whole head frame or ends the session |
| Dispatch.TurnProgress | src/connection/driver.rs:160-208 | each handled turn takes at least 20 bytes off the buffer |
| Dispatch.DrainExtend | src/connection/driver.rs:154-209 | draining what arrived and then the rest equals draining it all |
| Dispatch.DrainQuiet | src/connection/driver.rs:154-209 | after a drain without fatal failure the decoder asks for more bytes, and draining again changes nothing |
| Dispatch.FeedIsDrain | src/connection/driver.rs:277-292 | for every chunking, deliveries, live ids, waiters and fatal failure equal those of one drain over the stream, and so does the leftover buffer without a fatal failure |
| Correlation.OwnDecode | src/connection/mod.rs:1079-1100 | a waiter's bytes decode under its own id alone to what the driver read off the stream |
| Correlation.TurnSettles | src/connection/driver.rs:168-205 | a handled turn sends one answer, to the waiter on the id the frame names, and forgets only that id |
| Correlation.FatalExactly | src/connection/driver.rs:177-205 | a turn is fatal if and only if the decoder refuses fatally or a fatal-class error frame names no live id; `Refusals.TurnVerdict` says which frames these are and with which failure |
| Correlation.UnknownIdEndsSession | src/protocol.rs:1400-1423 | a whole terminal frame for an id not in flight ends the session with a protocol violation and no send |
| Correlation.RetiresAgree | src/protocol.rs:1522-1534 | for a live id the decoder's `retires` is the id the driver retires if and only if the frame is not a fatal-class error; for every admitted frame if and only if it is not one or names id 0 |
| Correlation.FatalErrorDelivered | src/connection/driver.rs:168-181 | an error frame of any fatal class that names a live id is delivered to its waiter and the session goes on, although the decoder says it retires no id |
| Correlation.ReplyTurn | src/connection/driver.rs:168-181 | an encoded reply at the head of the buffer is delivered whole to its waiter |
| Refusals.DecodeVerdict | src/protocol.rs:1094-1519 | for every buffer, role, phase and in-flight ids: the exact frames that need more bytes, are admitted, or are refused with each of the six failures, and how many bytes each refusal takes |
| Refusals.AdmittedFrame | src/protocol.rs:1094-1135 | an admitted frame holds the fields and slices its bytes state, and retires its id unless it is a request or a fatal-class error |
| Refusals.RequestScopedExactly | src/protocol.rs:1378-1441 | a negotiated client refuses for one request alone if and only if a whole frame with an assigned code, for an id in flight or of a fatal class, has unreadable metadata; it is then an invalid argument |
| Refusals.SettledExactly | src/connection/driver.rs:168-205 | a settled frame reaches its waiter as its bytes if and only if its metadata is readable, and as an invalid argument otherwise |
| Refusals.TurnVerdict | src/connection/driver.rs:160-208 | with every live id waited on, a turn ends the session with a given failure if and only if the head frame calls for that failure |
| Refusals.DrainVerdict | src/connection/driver.rs:154-209 | a drain that ends the session stops, behind the frames it settled, at a frame that calls for that failure; one that does not leaves less than a frame |
| Refusals.MalformedEndsSession | src/protocol.rs:1489-1517 | an absence with a payload, a length notice that is not 8 bytes, or an error whose detail is missing or overruns ends the session as malformed |
| Driver.StepKeeps | src/connection/driver.rs:212-301 | every step keeps the driver's invariant and takes back no send |
| Driver.ExactlyOnce | src/connection/driver.rs:220-300 | over every run, also one that accepted nothing: live ids are the waited-on ids, each submission is resolved by exactly one send or still waits, none waits once the driver stops, and a return other than by running dry leaves Usable with admission closed |
| Driver.BytesConserved | src/connection/driver.rs:277-279 | while the driver runs, the bytes received are the settled frames followed by the buffer, which is below the frame limit after a drain and below the limit plus 4096 before |
| Driver.RightWaiter | src/connection/driver.rs:168-181 | over every run, a success is the bytes of a frame of the stream, sent to the submission whose id that frame names |
| Driver.FatalReachesAll | src/connection/driver.rs:279-288 | a fatal read keeps what it settled first and sends the fatal failure to every waiter left |
| Driver.WrittenInOrder | src/connection/driver.rs:240-262 | over every run, what is written is the accepted frames in order, once and whole, but that the last may be cut short when the driver stops |
| Driver.CarriedStops | src/connection/driver.rs:78-98 | a transport carries what it takes in the writes before the first that fails or takes nothing |
| Driver.FailedAllKeeps | src/connection/driver.rs:111-123 | failing everyone resolves each waiter once, empties waiters and live ids, and leaves earlier sends |
| Driver.LifecycleStep | src/connection/driver.rs:101-108 | the driver keeps a terminal lifecycle state and never restores Usable |
| Stops.StopStep | src/connection/driver.rs:226-288 | a running driver stops on a shutdown, a submission it cannot take or write, the end of the stream while requests wait, or a fatal read, and in no other way; the event decides what it is to mark and return |
| Stops.ReadStopsExactly | src/connection/driver.rs:277-292 | over every run, a read that stops the driver has, behind the settled frames, a frame that calls for the failure its waiters are sent; one that does not leaves less than a frame |
| Stops.RunsDryExactly | src/connection/driver.rs:256-300 | over every run, a driver without submit channel and requests in flight has run dry, and only then |
| Stops.MarksByCause | src/connection/driver.rs:226-288 | over every run, the mark over Usable or Closing is Closed after a shutdown, Failed after the end of the stream or a short write, Unusable after a refused id or a read |
| Stops.ReturnsByCause | src/connection/driver.rs:226-288 | over every run, the exit is Failed, Unusable, or after a shutdown Closed or Failed as the transport shut down, by the event that stopped the driver |
| Stops.SettledInOrder | src/connection/driver.rs:168-205 | over every run, the sends for frames are the frames in order, each as its bytes or as an invalid argument |
| DriverTask.WriteAll | src/connection/driver.rs:78-98 | succeeds exactly when the transport takes all bytes before a failed or empty write; the sink holds the bytes taken, in order and once |
| DriverTask.DriverTask.SettleHead | src/connection/driver.rs:170-181 | removes the head frame and answers its waiter as the specification of one turn says |
| DriverTask.DriverTask.DrainFrames | src/connection/driver.rs:154-209 | the in-place loop reaches the drained session and fatal failure of the specification, however live ids are listed |
| DriverTask.DriverTask.FailAll | src/connection/driver.rs:111-123 | the in-place loop sends the error to every waiter once, in some order, and releases their ids |
| DriverTask.DriverTask.OnSubmit | src/connection/driver.rs:240-262 | a submission takes a step of the relation: its id refused, its frame written whole, or written up to where the transport fails |
| DriverTask.DriverTask.OnChunk | src/connection/driver.rs:277-292 | a read takes a step of the relation |
| DriverTask.DriverTask.Handle | src/connection/driver.rs:212-301 | every enabled event is handled in place by a step of the relation |
| Command.SizeCheckExact | src/connection/mod.rs:936-950 | a request is encoded if and only if the local size check passes, and is otherwise refused with its size and the limit |
| Command.FitsExactly | src/connection/mod.rs:936-950 | the check before the permit lets through exactly the commands that can be encoded |
| Command.SetPayload | src/command.rs:119-134 | an encoded `SET` payload splits into the original key and value and meets the server's shape check |
| Command.SetCanonical | src/command.rs:119-134 | encoding what a payload splits into gives that payload |
| Command.SetFails | src/command.rs:119-134 | a `SET` encodes if and only if its payload fits 32 bits, and its key is blamed if and only if the key alone does not |
| Command.CommandOnWire | src/connection/mod.rs:1005-1030 | the bytes of each command: its own operation number, its id and its payload under a version 0 request header |
| Command.ServerAdmits | src/protocol.rs:1449-1474 | each command that passes the size check is admitted by a negotiated server with the same limits when its id is not in flight, as a request with the caller's payload |
| Command.OwnFrameInterpreted | src/command.rs:138-235 | a caller's frame is always readable; the shape-mismatch branches never run, and each code gives each of the five commands its own outcome |
| Command.FrameToldExactly | src/connection/mod.rs:460-465 | whichever command reads its own frame as a failure is told it may have taken effect if and only if the frame is an error with code 0x000B; every error frame reads as the class of its code |
| Command.ReplyReads | src/connection/mod.rs:1079-1100 | the waiter of a deliverable reply reads back that reply |
| Command.ValueFits | src/command.rs:155-180 | a value reply is deliverable if and only if its id is not 0 and the frame limit holds it beside a header |
| Command.EverySuccessReadable | src/connection/mod.rs:1079-1100 | over every run, each success is a frame of the stream that names the caller's id, and the caller reads the very frame any receiver with that id in flight reads there, the driver included |
| Exchange.ReadsFeed | src/connection/driver.rs:277-292 | the read steps of any run reach what feeding their chunks gives: the fed session, or every waiter left failed |
| Exchange.EveryOrderInRun | src/connection/driver.rs:154-209 | over every run, reads that carry replies to distinct live ids, in any order and cut, deliver each waiter its own frame, leave the buffer empty and end no session; replies to all leave no live id and no waiter |
| Exchange.StreamDelivered | src/connection/driver.rs:160-208 | over every run with submissions taken at any time, a received stream of replies has been sent whole and in order, each to a submission with the id the reply names, and nothing is left over |
| Exchange.GetInRun | src/command.rs:155-180 | over every run, the send for a reply that carries a value goes to the submission with the reply's id, and its bytes read as exactly that value |
| Exchange.UnknownIdInRun | src/protocol.rs:1400-1423 | over every run, a frame for an unknown or already retired id behind any replies: the replies stand, every waiter left is sent the protocol violation, and the session ends |
| Ambiguity.AmbiguousExactly | src/connection/mod.rs:460-465 | over every run, a failed send is ambiguous if and only if the step that made it was a shutdown, a transport failure or a refused id, which it then tells; one made by a read tells the class of the refused frame or of the frame that ended the session |
| Ambiguity.FatalFrameWitness | src/connection/mod.rs:506-510 | a run in which a request is written whole and a fatal frame fails its waiter without ambiguity |
| Ambiguity.RefusedFrameWitness | src/protocol.rs:1427-1441 | a run in which a request succeeds and its waiter is failed without ambiguity, because the success carries required metadata |
| Connection.PermitCaller | src/connection/mod.rs:976-988 | each step of a command keeps available plus held permits at the bound |
| Interleaving.MoveKeeps | src/connection/mod.rs:936-1064 | every step of any participant keeps the shared invariant and does not regain Usable |
| Interleaving.PermitsBoundOutstanding | src/connection/mod.rs:1033-1064 | in every interleaving permits add up to the bound, and queued plus live ids exceed it by at most the callers dropped while outstanding |
| Interleaving.ReuseUnreachable | src/connection/driver.rs:242-248 | the driver never meets id 0, nor a live id unless a request stays outstanding across 2^64 - 1 further allocations |
| Interleaving.ReuseExactly | src/connection/driver.rs:242-248 | in every interleaving the driver meets a live id if and only if a request still waits whose allocation lies a multiple of 2^64 - 1 away |
| Interleaving.AnswerIsOwn | src/connection/mod.rs:1033-1064 | a command that succeeds holds a readable frame naming its own allocated id, and no other command holds that allocation |
| Interleaving.NothingAfterReturn | src/connection/mod.rs:953-988 | after a return other than by running dry no command gets past its check or gets a permit, and an answer is one already sent by then |
| Interleaving.NeverUsableAgain | src/connection/driver.rs:101-108 | in every interleaving a connection that left Usable never returns to it |
| Callers.DriverRuns | src/connection/driver.rs:212-301 | the driver of every history is the last state of a run of its own events and the closers' writes |
| Callers.CallerReads | src/connection/mod.rs:1033-1064 | in every history of at most 2^64 - 1 allocations, a command whose id a received reply names and that is answered, then or later, holds exactly that reply and reads it back as the frame sent |
| Callers.CallerGets | src/connection/mod.rs:869-878 | in every such history a `GET` answered with a value reads exactly that value |
| Callers.AnsweredToldExactly | src/connection/mod.rs:460-465 | in every history a command answered with a frame reads its own frame, and a failure it reads is ambiguous if and only if the frame is an error with code 0x000B |
| Callers.CallerToldExactly | src/connection/mod.rs:460-465 | in every history a command answered with an error is told it may have taken effect, and by what, if and only if a shutdown, a transport failure or a refused id failed it; if a read did, it is told the class read |
| Requests.ServerReads | src/connection/mod.rs:1005-1030 | in every interleaving, where a written submission begins in the outgoing stream a server without its id in flight reads exactly that request, and the next begins right behind |
| Requests.AcceptedIdsDiffer | src/connection/dispatch.rs:33-41 | in every interleaving of at most 2^64 - 1 allocations no two accepted submissions share an id |
| Requests.HandshakeIdApart | src/connection/dispatch.rs:33-41 | a command is handed the handshake's id only when every other id has been handed out since the handshake |
| Fates.NoRequestLost | src/connection/mod.rs:1033-1064 | in every history at most 64 submissions are queued, and each waiting command's request is queued, taken, or dropped with the driver |
| Fates.NoneStuck | src/connection/mod.rs:1055-1076 | in every history, once the driver has returned a waiting command can receive what was sent to its request if it was taken, and be turned away if and only if it was not |
| Fates.NoPermitAfter | src/connection/mod.rs:976-988 | in every history, from the step that closes admission on, the connection is out of Usable and no command is given a permit |
| Fates.ReturnsAtOnceExactly | src/connection/mod.rs:1116-1139 | in every history a close that has made its check and not begun has returned if and only if the state was Closed, Failed or Unusable at the check |
| Fates.TurnedAwayExactly | src/connection/mod.rs:953-964 | in every history a command turned away is told closed, transport lost or unusable if and only if the state calls for it, and the state is Usable only if the driver ran dry |
| Fates.ToldByCause | src/connection/mod.rs:953-964 | in every history in which the driver's mark can no longer be overwritten, every command turned away later is told what the event that stopped the driver calls for |
| Terminal.TerminalLostExactly | src/connection/mod.rs:1116-1256 | after every history that ends in a terminal state, a longer history loses it if and only if a closer stands between its check and its write, or the state is not Closed and a closer may yet find no driver |
| FinishedClose.FinishedCloseExactly | src/connection/mod.rs:1162-1212 | over every history with the driver's mark of a shutdown, a finished close leaves Failed if and only if the transport shutdown failed and the closers' last write since the mark is Closing, and otherwise Closed |
| FinishedClose.FinishedAfterFailure | src/connection/mod.rs:1162-1212 | over every history in which the driver stopped otherwise, a finished close leaves the closers' last write since the mark, or the mark; a Closing becomes Failed if and only if the transport was lost |
| FinishedClose.FinishedDry | src/connection/mod.rs:1186-1212 | over every history, a close that finishes over a driver that ran dry leaves Closed |
| FinishedClose.TransportShutExactly | src/connection/driver.rs:226-238 | over every history, a transport shutdown finds Closing or Closed, changes nothing if it succeeds, and turns exactly Closing into Failed if it fails |
| Terminal.FailureHidden | src/connection/mod.rs:1202-1212 | over every history, once the state is Closed and no closer stands between its check and its write it stays Closed |
| CloseRaces.TerminalStateLost | src/connection/mod.rs:1142-1149 | an interleaving in which the driver ends Unusable and returns, and the finished close leaves the state at Closing |
| CloseRaces.FailureUnseen | src/connection/mod.rs:1162-1199 | an interleaving of one closer in which the transport shutdown fails and the finished close leaves Closed |
| CloseRaces.FailureSeen | src/connection/driver.rs:226-238 | an interleaving in which a second closer begins between the mark and the failed shutdown, and the finished close leaves Failed |
| CloseRaces.FailureSeenLate | src/connection/mod.rs:1186-1212 | an interleaving in which a second closer begins after the failed shutdown left Closed, and the finished close leaves Failed |
| Calendar.CivilExact | tools/validation-runner/src/time.rs:95-142 | the conversion fails if and only if its first sum leaves 64 bits; otherwise it gives a valid date whose day number is the input |
| Calendar.ClockNeverFails | tools/validation-runner/src/time.rs:63-89 | every clock value gives a valid date and time of day, which together give the clock value back |
| Calendar.ConsecutiveDays | tools/validation-runner/src/time.rs:95-142 | consecutive days are consecutive dates, and day 0 is 1970-01-01 |
| Calendar.DateRoundTrip | tools/validation-runner/src/time.rs:95-142 | converting the day number of any valid date in range gives that date |
| Json.QuoteRoundTrip | tools/validation-runner/src/json.rs:69-90 | every string, printed as a literal and followed by anything, is read back |
| Json.ObjectRoundTrip | tools/validation-runner/src/json.rs:103-142 | every flat object of strings and 64-bit numbers reads back as the same fields in order |
| Json.EncodedOneLine | tools/validation-runner/src/json.rs:51-57 | an encoded object contains no line break |
| JsonGrammar.HexExactly | tools/validation-runner/src/json.rs:200-208 | a hexadecimal digit is read as its value in either case, and nothing else is one |
| JsonGrammar.StringExactly | tools/validation-runner/src/json.rs:169-216 | a string is read if and only if a literal for it stands there, in any spelling of its characters |
| JsonGrammar.ReadsExactly | tools/validation-runner/src/json.rs:103-230 | the reader accepts exactly the flat objects of the grammar, with blanks around every part, and reads each as its fields |
| JsonText.QuoteLoop | tools/validation-runner/src/json.rs:69-90 | the pushing loop computes the literal of the specification |
| JsonText.Object.String | tools/validation-runner/src/json.rs:24-27 | appends one string field; the body stays the printed fields |
| JsonText.Object.Integer | tools/validation-runner/src/json.rs:29-32 | appends one number field; the body stays the printed fields |
| JsonText.Object.Render | tools/validation-runner/src/json.rs:51-57 | gives the encoding of the fields added so far |
| JsonText.Cursor.SkipWhitespace | tools/validation-runner/src/json.rs:160-167 | leaves the cursor at the first character that is not white space |
| JsonText.Cursor.ReadUnicodeEscape | tools/validation-runner/src/json.rs:200-216 | reads four hexadecimal digits that name a character, or refuses |
| JsonText.Cursor.ReadEscape | tools/validation-runner/src/json.rs:185-198 | reads one escape, or refuses |
| JsonText.Cursor.ReadString | tools/validation-runner/src/json.rs:169-183 | reads one literal and leaves the cursor behind it, or refuses |
| JsonText.Cursor.ReadNumber | tools/validation-runner/src/json.rs:218-230 | reads one run of digits within 64 bits, or refuses |
| JsonText.ReadFlatObject | tools/validation-runner/src/json.rs:103-142 | the pushing loop over a cursor computes the parse of the specification |
| Journal.AppendsReadBack | tools/validation-runner/src/record.rs:117-129 | any sequence of appended objects reads back as the same sequence of entries |
| Journal.TextGrows | tools/validation-runner/src/record.rs:106-114 | a record with more appends begins with the text of the record with fewer |
| Journal.AppendReadsExactly | tools/validation-runner/src/record.rs:106-129 | an entry appended to any readable file reads back behind the others if and only if only blanks follow the last line break |
| Journal.GluedEntryLost | tools/validation-runner/src/record.rs:106-129 | in a file without its last line break the next appended entry is not read |
| Journal.LastEntryIndex | tools/validation-runner/src/record.rs:146-151 | a segment has a last entry if and only if it has an attempt, and no later entry is of that segment |
| Journal.AttemptsCounted | tools/validation-runner/src/record.rs:132-143 | the attempts of a segment are as many as the entries that name it |
| Journal.FieldFound | tools/validation-runner/src/json.rs:144-158 | a lookup finds the value of the first field of that name and kind, and nothing if and only if there is none |
| Journal.EntryOfExactly | tools/validation-runner/src/record.rs:206-231 | an object is an entry if and only if it has a segment, a status and an identity; the first of each name counts, a missing attempt is 0 and missing evidence empty |
| Journal.LineApart | tools/validation-runner/src/record.rs:117-129 | a line ends at a line feed, with or without a carriage return before it |
| Journal.RunRecord.AppendJournal | tools/validation-runner/src/record.rs:106-114 | adds one encoded line at the end of the file |
| Journal.RunRecord.Entries | tools/validation-runner/src/record.rs:117-129 | the loop gives every entry in order, or refuses the file at its first unreadable line |
| Journal.RunRecord.AttemptsFor | tools/validation-runner/src/record.rs:132-143 | counts the entries of a segment, and refuses if and only if the file is unreadable or the count leaves 32 bits |
| Journal.RunRecord.LastEntryFor | tools/validation-runner/src/record.rs:146-151 | finds the entry of a segment that no later entry of it follows, or none, and refuses an unreadable file |
| Campaign.FieldsRecordAttempt | tools/validation-runner/src/campaign.rs:592-606 | a journal line reads back as the attempt it records |
| Campaign.FieldsRecordRest | tools/validation-runner/src/campaign.rs:592-606 | a journal line keeps the attempt's start, duration, revision and note |
| Campaign.StepExactly | tools/validation-runner/src/campaign.rs:476-549 | a segment is reused if and only if the campaign resumes and the last attempt at it passed or was reused under the same identity, and then names that attempt and its evidence; otherwise it is what running it gave; it is not recorded if and only if attempts cannot be counted, the clock fails, or it had to run and could not |
| Campaign.ReusableTraces | tools/validation-runner/src/campaign.rs:533-549 | an entry that may be reused stands for a real earlier pass of that segment with the same identity and evidence |
| Campaign.StepKeeps | tools/validation-runner/src/campaign.rs:476-519 | one segment keeps attempts numbered 1, 2, 3, ... and cached entries traced |
| Campaign.SealExact | tools/validation-runner/src/campaign.rs:378-426 | results seal if and only if all hold under the identity, none required is missing and the tree is clean; they fail if and only if one does not hold |
| Campaign.SealedMeansPassed | tools/validation-runner/src/campaign.rs:471-526 | the journal gains one entry per result in order, and a sealed campaign has for each required segment a real pass under its identity with the evidence the report names |
| Campaign.EveryCampaign | tools/validation-runner/src/campaign.rs:471-549 | after every sequence of campaigns on one record the file reads back, the k-th entry of a segment is numbered k, every cached entry traces to a pass, and no entry was taken back |
| Campaign.LastSealMeansPassed | tools/validation-runner/src/campaign.rs:378-426 | over every sequence of campaigns, if the last one seals then each of its segments has a real pass with its identity and reported evidence |
| Evidence.ReferenceInjective | tools/validation-runner/src/record.rs:173-175 | two attempts share an evidence reference only if segment and number agree |
| Evidence.ReferenceNames | tools/validation-runner/src/record.rs:173-175 | a reference is the directory, the segment, and the attempt in at least two decimal digits |
| Evidence.NoteNames | tools/validation-runner/src/campaign.rs:683-696 | the note of a reused result ends in the number of the attempt it stands for |
| Evidence.FilesDiffer | tools/validation-runner/src/campaign.rs:487-498 | over every sequence of campaigns no two executed attempts of a record name one evidence file |
| Evidence.ReusedNamesOnePass | tools/validation-runner/src/campaign.rs:683-696 | over every sequence of campaigns a reused entry names the file of exactly one executed attempt, an earlier pass of its segment and identity |
| Execution.FileReadsBack | tools/validation-runner/src/record.rs:106-129 | the text of a file after every sequence of campaigns reads back as their entries |
| Execution.FileRefines | tools/validation-runner/src/campaign.rs:471-526 | over a file the runner wrote, the campaign over its text is the campaign over its entries |
| Execution.FileGrows | tools/validation-runner/src/record.rs:106-114 | whatever a file holds, a campaign only adds at its end |
| Execution.UnreadableStops | tools/validation-runner/src/campaign.rs:476-480 | against an unreadable file a campaign stops at its first segment and records nothing |
| Execution.RunSegment | tools/validation-runner/src/campaign.rs:477-500 | decides from any file whether to stop, reuse or run a segment, as the specification over its text says |
| Execution.JournalLine | tools/validation-runner/src/campaign.rs:592-606 | builds the fields of one attempt in order |
| Execution.Execute | tools/validation-runner/src/campaign.rs:471-526 | against any file, the loop leaves the file and report of the specification over its text, and the file only grows |

## Left out

- Interleaving: the shared fields of a connection are modelled as one value stepped by its participants, not as a class, because several participants step between the statements of each method.
- Interleaving.ReuseUnreachable: assumes that no request stays outstanding across 2^64 - 1 further allocations; `Interleaving.ReuseExactly` states the condition without that assumption.
- Handshake.ReadHandshakeResponse: says nothing of a configuration that `validate` refuses, because connecting validates first.
- Scheduling: no fairness is modelled and no run is claimed to finish; shutdown, channel close and end of stream may occur at any step, which allows more runs than the source's biased select.
- The transport and Tokio: reduced to bytes that arrive in chunks of 1 to 4096, writes that may be short or fail, a bounded queue, a semaphore and one-shot answers.
- Reading the lifecycle twice when a command is turned away: the model reads it once, so it does not tell apart two error kinds when the state changes in between.
- What a close returns to its caller, and the refusal of a command that does not fit: the model takes only commands that fit, and `Command.FitsExactly` says which do.
- Dropping the last handle, which aborts the driver, and the driverless connections used only by the source's tests, apart from the close path they share.
- The dispatcher compiled only for the source's tests, display strings, accessors, configuration builders and the texts of errors.
- Success payloads on `PING`, `SET`, `DEL` and `EXISTS`, which the source accepts without looking at them.
- Nested JSON objects and string lists, used only in the manifest, and the summary file.
- Running a segment, evidence files and the evidence digest: a segment's outcome is a parameter, and an identity is a string compared for equality.
- File errors of the manifest, the journal and the summary: an append in the model always reaches the file.
- Formatting a date or timestamp as text, and naming and finding record directories.
