# gocan in Dafny

A model of the protocol, capture and codec cores of gocan, a Go library for CAN buses, with proofs of what
they promise. `dafny verify dfyconfig.toml` checks the whole project.

## What is modelled

Code that works step by step on fields, arrays or loops is a class or a method here, proved against a
specification function or predicate; the theorems are about that specification. Code running concurrently
is a state machine whose steps are the channel operations and the sections the source runs under one lock, in
any interleaving; time, contexts, driver acceptance and lost frames are choices such a step may make.

- **Capture** (`CaptureChunk`, `CaptureStore`, `CaptureHistory`, `CaptureCursors`, `CaptureReads`, `CaptureRanges`,
  `CaptureLog`, `CaptureSearch`, `CaptureNext`, `CaptureExport`, `CaptureRecorder`). The log is kept in chunks with
  a chain of previous links for each series. It refines one flat sequence of records: appends, rotations, prunes
  and clears do to that sequence what they should, a prune as much as it can; with any cursor a caller can hold, reads
  through the chains and the linear scans the library also has return exactly what was appended since, in order. Cursors
  place exactly as long as nothing after them is lost. `Next` loses no wake-up, however callers share waiters. Exporting
  after any failures hands over each record once, and the recorder's two cursors tell the truth.
- **ISO-TP** (`IsoTpFrame`, `IsoTpMachines`, `IsoTpMessages`, `IsoTpReception`, `IsoTpSending`, `IsoTpLink`,
  `IsoTpComposition`, `IsoTpExchange`). Frame building and parsing, segmentation, flow control and reassembly. What
  Send and Receive do on any frames at all is said of the parsed frames alone; sender and receiver compose to the
  identity over a lossless channel for every legal configuration. An exchange reads only its own traffic and survives
  pruning with the link's retention cursors.
- **DBC codec** (`Bits`, `BitWalk`, `Scalar`, `DbcLayout`, `DbcValue`, `DbcCodec`, `DbcActivity`). Intel and Motorola
  walks and the integers they stand for, the exact overlap check on two words, and Encode, Patch and Decode under a
  tree of multiplexors, down to the declared ranges.
- **DBC text** (`DbcText`, `DbcLexing`, `DbcMultiplex`, `DbcConditions`, `DbcRecords`, `DbcStatements`). What the
  lexer, the statement parser and the multiplexing resolver accept, exactly; the writer's strings, names and numbers at
  any place in a file; and multiplexing from text to text: what is printed in markers and `SG_MUL_VAL_` records is
  lexed, parsed and resolved to the message it was printed for.
- **XCP** (`XcpPackets`, `XcpReplies`, `XcpWorld`, `XcpSession`, `XcpClient`, `XcpAnswered`). The client before an
  ordered channel and an ECU that answers each command at most once and in order. Replies carry no identifier; every
  response the client returns is still the reply to its own request, and no reply is returned twice. What a command
  comes to, and the session it leaves, is said of the frames captured while it waited, for every outcome.
- **J1939** (`J1939Transport`, `J1939Decoder`, `J1939Provenance`, `J1939Sessions`, `J1939Agreement`, `J1939Claim`).
  Originator, responder and passive decoder of the transport protocol, on any traffic and with each other, and address
  claiming by NAME on a broadcast bus.
- **MF4** (`Bytes`, `Mf4Blocks`, `Mf4Layout`, `Mf4Reader`, `Mf4Records`, `Mf4Channels`, `Mf4Writer`). The writer
  appends blocks and patches links; a reader that follows the links of the finished file recovers what was written,
  and finds every channel described as it lies in the records.
- **CDD** (`CddModel`, `CddBitfield`, `CddLayout`, `CddRecord`, `CddRaw`, `CddCodec`, `CddRoundTrip`). Which records
  can be laid out, through shared structures, and how; packed fields as bits of one integer, and the record codec both
  ways.
- **Virtual network** (`VirtualNetwork`). Senders, receivers, full queues, failures and closes as interleaved steps:
  offering a packet and failing its destination, or taking a packet and recording it, are two steps each.

Results that say when the code does *not* do what one might hope:

- `DecoderAgrees`: the J1939 originator accepts a grant that skips ahead of the last window when the packets in
  between were sent before; the passive decoder drops the transfer. It reconstructs the payload if and only if no
  grant has skipped, and `SkippingGrantLosesTheDecoder` gives the grants that make it happen.
- `StringRoundTrip`: a string ending in a backslash has no DBC form; the writer refuses exactly those.
- `ReadScalarRoundTrip`, `DecodeThenEncode`: a decoded CDD record cannot be encoded again exactly when it holds
  a floating-point element that is infinite or not a number, which Decode returns and Encode refuses;
  `InfinityIsReadOnly` is such a record.
- `ReplacementCapacities`: with at most 64 payload bytes a record, the record capacity of a new chunk is always
  the initial one; only the payload capacity ever adapts. The comment on that function reads more generally.

Bytes are integers from 0 to 255, machine words natural numbers whose bits are defined one by one, and
32-bit or 64-bit limits are written out where the code depends on them.

## Model

| member | source | states |
|---|---|---|
| `Frames.DLCToLength` | frame.go:224-237 | a length exists exactly for codes up to 15; it is at most 64, and at most 8 on a classic frame |
| `Frames.LengthToDLC` | frame.go:241-270 | succeeds exactly for the lengths a frame can have, with a code that decodes to that length |
| `Frames.LengthsGrow` | frame.go:224-237 | every CAN FD code stands for more bytes than the one before, and a classic frame has at most eight |
| `Frames.NewFrame` | frame.go:91-110 | whatever it accepts is a valid frame with the given identifier, flags and bytes |
| `Frames.NewFrameRefuses` | frame.go:91-110 | it refuses nothing that a valid data frame could hold |
| `IsoTpFrame.NewTransmitter` | isotp/frame.go:56-87 | a configuration is accepted if and only if it is legal (data lengths a frame can have, minimum within maximum, identifiers in range), and then with the given values and the documented defaults |
| `IsoTpFrame.NearestIsLeast` | isotp/frame.go:250-269 | the padded length is the least legal CAN FD length that holds the data |
| `IsoTpFrame.MadeFrameFits` | isotp/frame.go:151-174 | a legal transmitter never fails to build a frame; it starts with the data and is filled with padding up to the target length |
| `IsoTpFrame.MadeFrameLength` | isotp/frame.go:151-174 | the length of a made frame is the least one its format allows that holds the data and reaches the configured minimum, or the full length where that is asked for |
| `IsoTpFrame.MakeFrame` | isotp/frame.go:151-174 | the buffer loop builds exactly the padded frame |
| `IsoTpFrame.PrepareTransmission` | isotp/frame.go:96-149 | the in-place header writing yields exactly the specified first frame and offset, and refuses exactly the payloads over the limit |
| `IsoTpFrame.SingleFrameRoundTrip` | isotp/frame.go:96-149 | a Single Frame, short or escape form, parses back to the payload |
| `IsoTpFrame.FirstFrameRoundTrip` | isotp/frame.go:106-148 | segmentation starts only where a First Frame is legal: it fills its CAN frame, leaves a remainder, and parses back to the length and the first bytes, in the 12-bit and the 32-bit form |
| `IsoTpFrame.ConsecutiveFrameRoundTrip` | isotp/transmit.go:39-50 | every Consecutive Frame parses back to its sequence number, its bytes and its padding |
| `IsoTpFrame.FlowControlRoundTrip` | isotp/receive.go:107-117 | every Flow Control frame parses back to the advertised status, block size and separation time |
| `IsoTpFrame.ParsesExactly` | isotp/frame.go:176-247 | a frame of any content is read as a unit if and only if its bytes have the form of that unit, given for all four kinds byte by byte; every other frame is a protocol error |
| `IsoTpFrame.SeparationTimeRoundTrip` | isotp/isotp.go:525-545 | a separation time is accepted exactly when some STmin byte decodes to it, and then it decodes to the same time |
| `IsoTpLink.Link.NextPdu` | isotp/transmit.go:94-105 | takes the oldest unread frame, or reports the given timeout |
| `IsoTpLink.Link.WaitFlowControl` | isotp/transmit.go:65-88 | the wait loop agrees with the step-by-step sender on every inbox; a wait frame is counted and waited behind, and only a grant ends the wait well |
| `IsoTpLink.Link.Transmit` | isotp/transmit.go:14-63 | on any inbox: what was sent is the First Frame and as many segments as the Flow Control frames read have granted, numbered 1, 2, 3 and so on modulo 16 and carrying the next bytes in order; the result is what the frames read ask for, frame by frame |
| `IsoTpLink.Link.Send` | isotp/isotp.go:205-228 | on any payload and inbox: an empty or too long payload sends nothing; one that fits goes out as one Single Frame; otherwise a First Frame that announces its length, and segments as above |
| `IsoTpLink.Link.SendBlock` | isotp/transmit.go:36-60 | one granted block: the inner loop is the sender's steps until the block or the payload ends |
| `IsoTpLink.Link.Receive` | isotp/receive.go:12-44 | on any inbox, in terms of the parsed frames: success exactly for one Single Frame within the limit, or a First Frame and Consecutive Frames numbered 1, 2, 3 and so on modulo 16 and of the right length, and then their bytes in order, cut to the announced length; reading ends at the first frame that breaks this, with a protocol error, at an overflow, or in silence; the answers sent follow from the frames read |
| `IsoTpLink.Link.ReceiveMultiFrame` | isotp/receive.go:46-105 | from the First Frame on, the loop reads, answers and ends as the step-by-step receiver does, overflow answer included |
| `IsoTpLink.Link.Reassemble` | isotp/receive.go:70-104 | the loop over Consecutive Frames, with its sequence and block counters, is the receiver from one frame on |
| `IsoTpReception.ReceptionIsExact` | isotp/receive.go:12-105 | the receiver, on whatever frames arrive: how far it reads, what it returns and what it answers, said of the parsed frames alone and not of the steps it takes |
| `IsoTpSending.TransmissionIsExact` | isotp/transmit.go:14-88 | the sender, on whatever frames arrive: how far it reads, which segments it sends, and the error each answer means, said of the parsed frames alone |
| `IsoTpSending.SegmentsAreAll` | isotp/transmit.go:39-58 | segments up to the end of the payload carry all of it, in order, behind the bytes of the First Frame |
| `IsoTpComposition.SegmentRoundTrip` | isotp/transmit.go:39-58 | the k-th Consecutive Frame of a payload carries sequence number k modulo 16 and exactly the next bytes of the payload |
| `IsoTpComposition.NextKeeps` | isotp/transmit.go:14-63 | every step of either endpoint keeps sender, receiver and the two queues in agreement about how much of the payload has passed |
| `IsoTpComposition.Progress` | isotp/receive.go:46-105 | no reachable state is stuck before the payload has been delivered |
| `IsoTpComposition.NextWorks` | isotp/transmit.go:29-62 | every step lowers a bound fixed by the payload, so every run ends |
| `IsoTpComposition.Composition` | isotp/transmit.go:14-63 | for all legal configurations and payloads, in every interleaving over a lossless FIFO channel: nobody fails, at most one Flow Control frame is in flight, grants sent and awaited match one for one, the run is bounded, and it stops only when the payload has been delivered |
| `IsoTpComposition.LoopsCompose` | isotp/receive.go:46-105 | the sender's loop and the receiver's loop, each fed what the other sent, finish together and the receiver returns the sender's payload |
| `IsoTpComposition.RunCompletes` | isotp/transmit.go:14-63 | every run can be continued until the payload has been delivered |
| `IsoTpComposition.LoopsMeet` | isotp/receive.go:46-105 | for every legal configuration and payload there are frames on which both loops end, each sending what the other reads, and the receiver returns the payload |
| `IsoTpExchange.TokenStepKeeps` | isotp/isotp.go:435-448 | acquiring and releasing in any interleaving keeps each token in its channel or with one operation |
| `IsoTpExchange.ReleaseNeverBlocks` | isotp/isotp.go:446-448 | whoever holds a token finds its channel empty, so giving it back never blocks |
| `IsoTpExchange.OnlyTheOwnerTransmits` | isotp/isotp.go:205-226 | while an exchange or a segmented Send runs, no other operation of the link can transmit |
| `IsoTpExchange.FoundIsNext` | internal/transport/cursor.go:15-28 | the record a search returns is the first of its series after the cursor, in terms of everything appended |
| `IsoTpExchange.FirstFrameIsFound` | internal/transport/cursor.go:15-28 | while the capture is not cleared, SentCursor always finds the accepted first frame |
| `IsoTpExchange.PositionKeeps` | isotp/transmit.go:18-27 | SentCursor moves the receive position exactly behind the operation's own first frame |
| `IsoTpExchange.ReadKeeps` | isotp/isotp.go:423-433 | every frame read is the next one captured under the receive key, at a later place than all before |
| `IsoTpExchange.PruneKeeps` | isotp/isotp.go:375-382 | a prune that was given any retention cursor of the link, however old, leaves a running exchange its position |
| `IsoTpExchange.RetentionIsSafe` | isotp/isotp.go:375-393 | on every run without a Clear since it started, an exchange or a segmented Send never loses its receive position to pruning |
| `IsoTpExchange.ExchangeIsIsolated` | isotp/isotp.go:290-315 | on every run, an exchange has read exactly what was captured under the receive key after its own first frame and up to its position, each frame once and in order |
| `IsoTpExchange.TokensAreExclusive` | isotp/isotp.go:435-448 | on every run, each token is with at most one operation, and its channel is empty while it is |
| `CaptureChunk.AppendReads` | capture.go:437-488 | an append leaves every earlier record readable as before, and the new one reads back as what was appended |
| `CaptureChunk.AppendKeepsValid` | capture.go:437-545 | an append keeps every previous link, per-series count and newest-record entry in step with the records |
| `CaptureChunk.FilterFromMatch` | capture.go:974-1034 | following one link adds exactly one record of the series |
| `CaptureStore.ReplacementCapacities` | capture.go:386-396 | with at most 64 payload bytes a record the adaptive sizing never divides by zero and stays within its bounds; the record capacity it returns is always the initial one |
| `CaptureStore.PayloadIsProportional` | capture.go:386-396 | the payload capacity of a new chunk is in proportion to what the old one held, rounded down, above its minimum |
| `CaptureStore.AppendKeeps` | capture.go:362-545 | an append, rotated or not, adds exactly its item at the end of the flat log and returns the cursor of that record |
| `CaptureStore.EndIsBehindAll` | capture.go:582-599 | End places, behind everything retained |
| `CaptureStore.PruneIsSafe` | capture.go:608-656 | Prune fails exactly when some cursor does not place; otherwise it discards a prefix of the log at or before every cursor, keeps the active chunk, and keeps length equal to what is retained |
| `CaptureStore.PruneIsMaximal` | capture.go:608-656 | and it discards all it can: one chunk is left, or the first one left holds a record that some given cursor has not passed |
| `CaptureStore.ClearKeeps` | capture.go:1121-1138 | Clear leaves a valid capture with an empty log |
| `CaptureHistory.AppendsKeeps` | capture.go:437-545 | an append keeps every issued cursor at its place in the log |
| `CaptureHistory.PrunesKeeps` | capture.go:608-656 | a prune keeps every issued cursor at its place, or before the discarded part; the seam is the cursor of the last discarded record |
| `CaptureHistory.ClearsKeeps` | capture.go:1121-1138 | a clear turns every issued cursor into one of an earlier generation |
| `CaptureHistory.CursorPlacementIsExact` | capture.go:253-268 | on every run: the retained log is what was appended less what was discarded and length counts it; a cursor of this generation places if and only if no record after it was discarded, and then exactly the records appended after it follow; a cursor from before a Clear never places |
| `CaptureReads.Collect` | capture.go:974-1034 | counting by chains and stored counts and then filling backwards from the last index meets index zero exactly, with the series' records in order |
| `CaptureReads.CollectedIsSeriesAfter` | capture.go:974-1106 | what the chains collect is the order-preserving filter of the flat log after the cursor |
| `CaptureReads.ScanRange` | capture_range.go:46-135 | the linear form returns the filter of the log between two cursors, and refuses exactly the ranges that do not place |
| `CaptureReads.NewestStandsAtEnd` | capture.go:270-277 | the cursor a read returns stands behind everything retained, so the next read misses nothing |
| `CaptureReads.ReadSince` | capture.go:974-1106 | fails exactly for a cursor that does not place; otherwise the filter after the cursor and a cursor at the end |
| `CaptureLog.ChunkStorage.AppendFrame` | capture.go:455-487 | the in-place append makes the chunk the specified value with one record more |
| `CaptureLog.Capture.Append` | capture.go:437-488 | fails exactly for an invalid frame and then changes nothing; otherwise the flat log grows by exactly this record |
| `CaptureLog.Capture.AppendEvent` | capture.go:505-545 | the same for controller and error events |
| `CaptureLog.Capture.Rotate` | capture.go:362-381 | the active chunk is replaced exactly when the payload does not fit, by an empty one with the next sequence number |
| `CaptureLog.Capture.Prune` | capture.go:608-656 | the in-place discard is the specified prune, a failed one changes nothing, and a successful one keeps no sealed chunk that every given cursor has passed |
| `CaptureLog.Capture.Clear` | capture.go:1121-1138 | a fresh generation over one empty chunk |
| `CaptureLog.Capture.NextPrepared` | capture.go:398-414 | the background allocation changes nothing a reader can see, whenever it finishes |
| `CaptureLog.Capture.EndCursor` | capture.go:588-599 | returns the cursor behind everything retained |
| `CaptureLog.Capture.SeriesSince` | capture.go:974-1034 | fails exactly for a cursor that does not place; otherwise the filter of the flat log after it and a cursor at the end |
| `CaptureLog.Capture.SeriesBetween` | capture_range.go:46-69 | the filter of the flat log between the two cursors, failing exactly when the range does not place |
| `CaptureSearch.Find` | capture.go:725-753 | finds nothing exactly when the series has no record after the cursor; otherwise the first such record and its cursor |
| `CaptureNext.NextKeeps` | capture.go:547-555 | every section under the lock keeps waiters, counts and parked calls consistent |
| `CaptureNext.NoLostWakeup` | capture.go:674-691 | on every run, a parked call can be woken exactly when a matching frame has arrived since its registration, and then with the first such frame |
| `CaptureNext.OutcomeIsRight` | capture.go:674-753 | on every run, a finished call was rejected for a cursor that does not place, cancelled, or returned the earliest matching record of its snapshot, or else the first matching arrival after registration |
| `CaptureNext.CountsAreExact` | capture.go:756-787 | on every run, a registered waiter's count is positive and is the number of calls attached to it |
| `CaptureExport.WriteRecordsSince` | capture.go:813-847 | whatever calls the writer refuses: exactly the records between the given and the returned cursor have been written, once each and in order, and an error names the next record |
| `CaptureExport.Recorder.Pass` | recorder/recorder.go:169-188 | a pass writes a gapless stretch, moves accepted behind it, moves flushed only after a successful flush, and reports success exactly if the cursor placed and every call to the writer succeeded |
| `CaptureExport.Recorder.Finish` | recorder/recorder.go:190-207 | closes the writer once; a successful close has flushed everything accepted, and the recorder has failed exactly if the run or the close did |
| `CaptureRecorder.PassKeeps` | recorder/recorder.go:169-188 | a pass with any failures keeps the written records equal to the log up to accepted |
| `CaptureRecorder.RecordedExactlyOnce` | recorder/recorder.go:140-207 | on every run: written is the log from the start up to accepted, each record once and in order; delivered reaches exactly to flushed, never ahead of it; a recorder cut off by a Clear notices |
| `CaptureRecorder.PruningToFlushedIsSafe` | recorder/recorder.go:109-113 | pruning to the flushed cursor never takes a record the recorder has yet to write |
| `CaptureCursors.PruneStaysBehind` | capture.go:608-656 | a prune never reaches past any cursor it is given; the zero cursor and an expired one prevent it |
| `CaptureRanges.RangeReadsAreExact` | capture_range.go:46-95 | on every run, with any two cursors the capture has handed out: a range read fails exactly when it runs backwards or something behind its start was discarded, and otherwise returns exactly the records of the series appended between the two, in order |
| `CaptureRanges.SinceReadsAreExact` | capture.go:974-1106 | on every run, with any cursor the capture has handed out: a read through the links fails exactly when something behind the cursor was discarded; otherwise the linear read up to End accepts the cursor too, and both return exactly the records of the series appended since |
| `CaptureRanges.PruneIsExact` | capture.go:608-656 | on every run, with cursors the capture has handed out: a prune changes nothing if something behind one of them was discarded before; otherwise it discards nothing behind any of them, and keeps only the active chunk and what some cursor still needs |
| `Bits.AndIsShared` | dbc/codec.go:369-381 | the conjunction of two words is nonzero exactly when they share a bit |
| `BitWalk.SetDataBit` | dbc/codec.go:749-756 | changes exactly one bit of the payload |
| `DbcLayout.ValidateSignalLayout` | dbc/resolve.go:568-599 | accepts exactly the signals all of whose bits, in Intel or Motorola order, lie inside the message |
| `DbcLayout.BitAtIsWide` | dbc/codec.go:769-788 | while positions fit 32 bits, the codec walks exactly the bits that were laid out, each once |
| `DbcLayout.WriteSignalBits` | dbc/codec.go:733-747 | writes the value's bits along the walk and no other bit |
| `DbcLayout.CarriedValue` | dbc/codec.go:711-747 | reading along a walk undoes writing along it, for every value of the width |
| `DbcLayout.ReadSignalBits` | dbc/codec.go:711-731 | both read loops return the value carried along the walk |
| `DbcValue.RawIsShiftedAndMasked` | dbc/codec.go:711-731 | the raw value of a signal is a field of the payload read as one integer, little-endian for Intel order and big-endian for Motorola order |
| `DbcLayout.MaskOf` | dbc/codec.go:360-368 | the two mask words hold exactly the visited bits; no bit ever falls outside them |
| `DbcLayout.MasksAreExact` | dbc/codec.go:369-391 | for signals of at most 64 bits, mask words and word distance report an overlap if and only if the visited bit sets intersect, whatever the byte orders |
| `DbcCodec.CompileMessageCodec` | dbc/codec.go:286-330 | the codec is usable exactly when no signal is wider than 64 bits and every selector path is grounded, and writable exactly when no two compatible signals overlap |
| `DbcCodec.ValidateOverlaps` | dbc/codec.go:358-391 | fails exactly when two compatible signals share a data bit |
| `DbcCodec.ActiveTogetherAreCompared` | dbc/codec.go:393-412 | signals that some raw values make active together always have compatible constraints, so they were compared |
| `DbcActivity.IntersectExactly` | dbc/codec.go:403-412 | two conditions on one selector are found to intersect if and only if some value meets both |
| `DbcActivity.ComparedExactly` | dbc/codec.go:393-412 | the overlap check compares a pair of signals if and only if some raw values make both active; where every range starts within the width of its selector, values a frame can carry |
| `DbcActivity.OverlapsExactly` | dbc/codec.go:358-391 | a message is free of overlaps if and only if no two signals share a bit while some raw values make both active |
| `DbcActivity.GroundableExactly` | dbc/codec.go:332-356 | the selectors are usable if and only if they lead every signal to one without a condition |
| `DbcCodec.Encode` | dbc/codec.go:124-149 | succeeds exactly when the supplied signals are the active ones and their values fit; then the payload holds every one of them; on error the data are unchanged |
| `DbcActivity.ActiveExactly` | dbc/codec.go:444-464 | a signal is active if and only if, for every signal on its selector path, the raw value of the selector lies between the bounds of one of the declared ranges; it is inactive if and only if such a condition fails on a supplied value and all behind it hold |
| `DbcActivity.EncodeAcceptsExactly` | dbc/codec.go:124-149 | what Encode asks of the values, from the declared conditions alone: every signal is given if and only if all conditions on its path hold |
| `DbcCodec.ActivityReadsBack` | dbc/codec.go:476-490 | activity recomputed from the bytes is the activity of the raw values, at any selector depth |
| `DbcCodec.EncodeThenDecode` | dbc/codec.go:124-260 | every supplied signal decodes to its raw value, and every other one is reported inactive, for both byte orders and any selector tree |
| `DbcActivity.DecodesExactly` | dbc/codec.go:237-260 | a signal is read if and only if all conditions on its path hold in the payload and its bits are there; it is inactive if and only if one fails and all behind it hold; otherwise it is not present |
| `DbcCodec.SelectorValues` | dbc/codec.go:466-474 | returns the old raw value of every multiplexor found active |
| `DbcCodec.PlanPatch` | dbc/codec.go:157-197 | accepts exactly the changes that leave no signal newly active without a value and name no inactive one |
| `DbcActivity.PatchAcceptsExactly` | dbc/codec.go:157-197 | what Patch asks of the changes, from the declared conditions alone: every signal whose conditions come to hold is given, and every given one has its conditions hold |
| `DbcCodec.ApplyChanges` | dbc/codec.go:198-214 | in whatever order the map yields the changes, the frame ends up with all of them and nothing else changed |
| `DbcCodec.Patch` | dbc/codec.go:157-214 | succeeds exactly when the plan does; then every change is in the frame and every other bit is as it was; on error the frame is unchanged |
| `DbcCodec.PatchedIsUnique` | dbc/codec.go:198-214 | the result does not depend on the order in which the changes were written |
| `DbcCodec.PatchThenDecode` | dbc/codec.go:157-260 | every changed signal reads its new value, every other signal active on the new path keeps its old one, and the activity found in the new bytes is the planned one |
| `Scalar.SignedRoundTrip` | internal/scalar/scalar.go:118-147 | two's complement: accepted exactly in range, and read back as the same integer |
| `Scalar.SignedIsInjective` | internal/scalar/scalar.go:137-147 | two raw values of one width never stand for the same integer |
| `DbcText.Lexer.Next` | dbc/lexer.go:66-138 | the byte-by-byte lexer, with its offset, line and column, returns the token the specification finds, and leaves the rest |
| `DbcText.Lexer.ReadQuoted` | dbc/lexer.go:180-208 | reads exactly up to the first quote that is not escaped, with the escapes removed |
| `DbcText.Lexer.ReadNumber` | dbc/lexer.go:140-166 | takes the longest number |
| `DbcText.Lexer.ReadAtom` | dbc/lexer.go:168-178 | takes the longest run of atom characters |
| `DbcText.NextTokenIsLocal` | dbc/lexer.go:66-138 | the token at a place, and where it ends, depend on the text from that place on and on nothing before it |
| `DbcText.Lex` | dbc/lexer.go:44-64 | the loop returns exactly the tokens of the text, or its first error |
| `DbcLexing.TokenExactly` | dbc/lexer.go:66-138 | what a token is, character by character: the place behind blanks and comments, the extent and the text of each kind of token; only a string that is not closed is refused |
| `DbcLexing.SkipsOnce` | dbc/lexer.go:66-96 | blanks and comments end at one place only |
| `DbcLexing.QuotedExactly` | dbc/lexer.go:180-208 | a string is read as a text if and only if that text, with its quotes escaped and no backslash at its end, stands up to the closing quote |
| `DbcText.StringRoundTrip` | dbc/write.go:60-67 | at any place in a file, a quoted string lexes back to its text before any rest if and only if the writer accepts it, which is when it does not end in a backslash |
| `DbcText.BackslashMisreads` | dbc/write.go:60-67 | without that check a string ending in a backslash would read as something else |
| `DbcText.NameRoundTrip` | dbc/write.go:68-78 | at any place in a file, a name lexes back as itself before a delimiter if and only if the writer accepts it |
| `DbcText.NumberRoundTrip` | dbc/write.go:331-365 | at any place in a file, a written number before a delimiter is one number token; it reads as the number, and is refused exactly when it does not fit 64 bits |
| `DbcMultiplex.MarkerRoundTrip` | dbc/resolve.go:543-566 | a written marker parses back to the multiplexor flag and the first selector value |
| `DbcConditions.MarkersExactly` | dbc/resolve.go:543-566 | a marker reads if and only if it is empty, M, or m with a decimal number below 2^64 and perhaps M behind it |
| `DbcMultiplex.RepeatNeverEnds` | dbc/resolve.go:601-618 | a selector walk that meets a name twice never ends |
| `DbcMultiplex.ValidateGraph` | dbc/resolve.go:601-618 | accepts exactly the selector graphs on which every walk ends |
| `DbcMultiplex.Resolver.Declare` | dbc/resolve.go:79-156 | declaring a message gives the specified signals, simple values and index, and fails exactly on a repeated name or a bad marker |
| `DbcMultiplex.Resolver.ApplyAll` | dbc/resolve.go:338-366 | applying the records in order gives the specified conditions |
| `DbcMultiplex.Resolver.SimplifySignals` | dbc/resolve.go:367-398 | signals with a simple value get the only root as their selector |
| `DbcMultiplex.Resolver.ResolveMessage` | dbc/resolve.go:338-398 | succeeds exactly when the specification does, with the same signals |
| `DbcConditions.ResolvesExactly` | dbc/resolve.go:338-398 | a message resolves if and only if its markers read, its names differ, every record names a signal of it and a multiplexor that is another signal, simple values have one root to belong to and agree with the records, and no selectors run in a circle; then every signal has the condition that was declared for it |
| `DbcMultiplex.MultiplexRoundTrip` | dbc/write.go:159-365 | resolving what the writer emits rebuilds exactly the flags, selectors and ranges, with the records and also when it omits them as simple |
| `DbcMultiplex.OmittedExactly` | dbc/write.go:331-352 | the records of a message are left out if and only if its markers alone resolve to the message |
| `DbcMultiplex.ResolvedIsValid` | dbc/resolve.go:338-398 | everything the resolver accepts satisfies what the round trip asks for |
| `DbcMultiplex.RewritingChangesNothing` | dbc/write.go:159-365 | writing a resolved message and resolving the result gives the same message |
| `DbcRecords.RecordReads` | dbc/write.go:331-365 | the text of one SG_MUL_VAL_ record lexes to exactly the tokens of the record, before any rest |
| `DbcRecords.Parser.TakeRanges` | dbc/parse.go:579-600 | the loop reads exactly the specified ranges and leaves the specified rest, or fails with the specified error; a reversed range is one |
| `DbcStatements.RangesExactly` | dbc/parse.go:579-600 | a list of ranges is accepted if and only if it is pairs of 64-bit numbers in order, with commas between them and none behind |
| `DbcRecords.Parser.TakeRecord` | dbc/parse.go:566-608 | the statement-by-statement parser reads and refuses exactly what the specification does |
| `DbcStatements.RecordExactly` | dbc/parse.go:566-608 | a statement is accepted if and only if it is a 32-bit identifier, two names, the ranges, a semicolon and the end of the line, and then with these parts |
| `DbcRecords.Parser.TakeRecords` | dbc/parse.go:217-287 | parses a section into exactly the specified records, or fails when that does |
| `DbcRecords.WriteRecords` | dbc/write.go:331-365 | the nested loops print exactly the records of the messages that need them, and report a name that cannot be written |
| `DbcRecords.SectionReads` | dbc/parse.go:566-608 | the records that are printed for any messages lex and parse back to exactly those records |
| `DbcRecords.HeadReads` | dbc/write.go:159-178 | the name and marker printed at the head of a signal lex back to one or two names, before any layout |
| `DbcRecords.TextRoundTrip` | dbc/write.go:159-365 | from text to text: lexing, parsing and resolving the lines and records printed for a message, in a file with those of any other messages, rebuilds exactly its flags, selectors and ranges |
| `DbcRecords.ReadIsPrintable` | dbc/parse.go:364-608 | every message that can be read from text satisfies what printing asks for |
| `DbcRecords.RereadingChangesNothing` | dbc/write.go:159-365 | reading a message from text, printing it and reading that again gives the same message |
| `XcpPackets.ValidateRequest` | xcp/command.go:104-165 | what it lets through fits a frame, and after an unanswered SYNCH only that SYNCH is let through |
| `XcpPackets.LetThroughExactly` | xcp/command.go:104-165 | a request is let through if and only if every condition on session, command and parameters holds; the least length of its reply is given by the command |
| `XcpPackets.AddressRoundTrip` | xcp/memory.go:29-79 | the address parameter an ECU reads is the one written, in either byte order |
| `XcpPackets.BuildFrame` | xcp/command.go:36-60 | the frame holds the request and padding up to a length a frame can have |
| `XcpPackets.ConnectReplyReads` | xcp/command.go:249-265 | capabilities are read from a CONNECT reply if and only if they are usable and the reply is what an ECU with them sends: byte order, granularity and lengths |
| `XcpReplies.PacketsMean` | xcp/command.go:167-247 | what each captured frame means to the command waiting: stray and pending frames, and for SYNCH ordinary replies, are passed; a positive reply of at least the least length gives its data, an error reply its code, a short or malformed one an invalid response, an event the end of the session |
| `XcpWorld.EventKeeps` | xcp/command.go:167-247 | no event of the surroundings (loss, delay, refusal, foreign traffic, answers in order) breaks what is known of the channel |
| `XcpWorld.EventExecutes` | xcp/command.go:18-102 | with one command outstanding, an event executes it at most once, with the effect its reply reports |
| `XcpSession.AcceptKeeps` | xcp/command.go:18-102 | accepting a command that validation lets through keeps the session invariant, with never more than one SYNCH unanswered |
| `XcpSession.MarkerEmptiesPipeline` | xcp/command.go:205-232 | the SYNCH marker can only answer the last command sent, and behind it nothing stale is left |
| `XcpClient.Client.Receive` | xcp/command.go:167-247 | frames are taken in order, and the first one that is not passed settles the command with the outcome it means, the end of the frames with an interruption; a response comes from a reply in flight or still owed, and what stays in flight answers younger commands only |
| `XcpClient.Client.Transmit` | xcp/command.go:36-60 | a refused send leaves nothing sent; an accepted one is the youngest command |
| `XcpClient.Client.Exchange` | xcp/command.go:18-102 | refuses exactly what validation refuses, sends the request once, and ends as the frames taken say; outside a recovery, a response is the reply to this request and nothing stale is left in the channel |
| `XcpClient.Client.Command` | xcp/command.go:18-102 | what is sent, waited for and returned follows from the validation and the frames taken, CONNECT-SYNCH-CONNECT recovery included; every response returned without error is the ECU's reply to that very request, sent since the last one that was answered; after CONNECT the capabilities come from that CONNECT |
| `XcpClient.Client.Reconnect` | xcp/command.go:76-97 | the recovery behind a first reply to CONNECT: a SYNCH, and behind its marker CONNECT again, whose reply alone is trusted |
| `XcpClient.Client.Do` | xcp/xcp.go:241-251 | the same for the public call, which refuses SYNCH where a disconnected ECU need not answer it; whether the session is connected, what is unanswered and which capabilities hold afterwards is stated for every outcome |
| `XcpReplies.AnsweredSucceeds` | xcp/command.go:205-247 | a request that may be sent, that the bus accepts and that a long enough reply answers before a wait ends empty succeeds with the data of that reply |
| `XcpAnswered.AnsweredDo` | xcp/xcp.go:241-251 | over the channel itself: from an idle session, a valid request whose compliant reply arrives, behind any unsolicited traffic, returns that reply |
| `XcpClient.Client.RunSession` | xcp/xcp.go:187-251 | over any list of requests with any losses, timeouts and interleaved traffic: from the state of the session before each request, its result and the state behind it are what the frames taken for it say; every response answers its own request and no reply is returned twice, the places of the answered commands among all sent strictly increase, until a session-terminated event ends the guarantee |
| `XcpClient.Client.Read` | xcp/memory.go:29-79 | the bytes returned are the ECU's memory at the address, all of the length unless an error is reported; an error is a refused argument or the failure of the command sent last |
| `J1939Transport.ControlPGNRoundTrip` | j1939/decoder.go:476-485 | the group written into a control frame is the one read from it |
| `J1939Transport.ControlPGNExactly` | j1939/decoder.go:476-485 | a group is read from a control frame if and only if its last three bytes name a valid one that is not itself a transport or extended group |
| `J1939Transport.AnnounceRoundTrip` | j1939/decoder.go:460-467 | an announcement reads back as the group and size it was made from |
| `J1939Transport.AcknowledgeRoundTrip` | j1939/client_transport.go:157-161 | an acknowledgement reads back as the group, size and packet count it was made from |
| `J1939Decoder.PushKeepsValid` | j1939/decoder.go:105-156 | on any traffic whatsoever each session holds min(7(next-1), size) bytes, and a completed message has the announced size |
| `J1939Decoder.PushTouchesOnlyItsPeers` | j1939/decoder.go:105-156 | a frame leaves every session of other peers as it is, unless its time shows that the session has expired |
| `J1939Decoder.StartsExactly` | j1939/decoder.go:252-315 | an announcement opens a session, with the announced group, size and window, if and only if it is well formed; whatever it is, it ends the session before |
| `J1939Decoder.DataExactly` | j1939/decoder.go:317-370 | a data frame extends its session by its bytes, or completes it, if and only if it is the packet awaited inside the window; any other ends the session with an error |
| `J1939Decoder.GrantExactly` | j1939/decoder.go:394-428 | a grant moves the window of the session it answers, back over packets already seen where it asks for them; one that comes early or asks for more than was announced ends the session with an error |
| `J1939Decoder.EarlyAcknowledgementEnds` | j1939/decoder.go:229-249 | an acknowledgement of a session that is still open ends it with an error |
| `J1939Decoder.AbortEnds` | j1939/decoder.go:430-458 | an abort ends every transfer of the group between the two peers, in either direction, and no other session |
| `J1939Decoder.LossIsReported` | j1939/decoder.go:105-156 | no transfer is lost in silence: it goes on, completes, expires or is reported |
| `J1939Provenance.MessagesAreSourced` | j1939/decoder.go:105-370 | on any traffic at all: a transported message was announced with its group and size, and each of its bytes was carried by the data frame of the right number, behind the announcement and in order |
| `J1939Decoder.Decoder.Push` | j1939/decoder.go:105-156 | an ordinary frame comes out as one message with the bus, direction, addresses, priority, group, payload and times of the frame, and leaves every session as it is that has not expired; no other frame but a data frame completes a message; a session that ends has completed or is reported |
| `J1939Decoder.Decoder.PushDataFrame` | j1939/decoder.go:317-370 | the in-place extension of a session, cut to the announced size, is the specified one |
| `J1939Decoder.Decoder.ClearToSend` | j1939/decoder.go:394-428 | the unguarded slice for a retransmission stays in bounds, and the grant has the specified effect |
| `J1939Decoder.Decoder.Abort` | j1939/decoder.go:430-458 | ends exactly the sessions of the two peers that carry the group, in either direction |
| `J1939Decoder.Decoder.Flush` | j1939/decoder.go:190-213 | reports and discards every incomplete session |
| `J1939Sessions.TransportClient.StartSend` | j1939/client_transport.go:45-84 | without a claimed address, or over a busy slot, nothing is sent; up to eight bytes go out as one frame with them; a longer payload is announced with its size and waits behind its own announcement |
| `J1939Sessions.TransportClient.HandleTransport` | j1939/client_transport.go:142-248 | whatever transport frame arrives, both slots, the frames sent in answer and the outcome of the sender are the specified ones |
| `J1939Sessions.TransportClient.HandleControl` | j1939/client_transport.go:172-247 | the branches taken in program order, each on one slot, amount to the reception's step followed by the transmission's |
| `J1939Sessions.TransportClient.HandleRequest` | j1939/client_transport.go:192-207 | a request to send is taken up only into free slots; one from the peer of the open reception ends that reception |
| `J1939Sessions.TransportClient.HandleReply` | j1939/client_transport.go:215-246 | a grant or acknowledgement behind the own frames moves the transmission or fails it with the right reason |
| `J1939Sessions.AcknowledgedIsComplete` | j1939/client_transport.go:147-168 | a reception that ends in an acknowledgement has taken every packet it was waiting for, once each and in order |
| `J1939Sessions.GrantIsTaken` | j1939/client_transport.go:215-233 | a grant is taken if and only if all that was sent has been seen on the bus, no window is open, and it asks for packets up to the next one and within the payload |
| `J1939Sessions.AcknowledgementIsTaken` | j1939/client_transport.go:234-243 | an acknowledgement is taken if and only if every packet was sent and seen on the bus, and its size and packet count are those of the payload |
| `J1939Sessions.PacketIsTaken` | j1939/client_transport.go:147-168 | a data frame is taken if and only if it is the packet awaited, behind the own grant; it ends the window, the transfer or neither, by its number |
| `J1939Sessions.RequestIsTaken` | j1939/client_transport.go:192-207 | a request to send is taken up if and only if the reception slot is free, nothing is being sent to the peer and it is well formed; otherwise the peer gets an abort |
| `J1939Sessions.SenderIsTold` | j1939/client_transport.go:117-248 | no transmission ends in silence: the sender is told, and the peer too unless it ended the transfer itself; success means an acknowledgement of all packets |
| `J1939Sessions.StrangersChangeNothing` | j1939/client_transport.go:142-248 | frames of controllers that neither slot deals with change nothing, except that a request to send may fill a free reception slot |
| `J1939Sessions.TransportClient.Tick` | j1939/client_transport.go:282-330 | sends the data frame of the next packet, inside the payload, and waits behind it, for a grant where the window ends; a broadcast ends with its last packet; a full queue changes nothing |
| `J1939Sessions.TransportClient.HandleData` | j1939/client_transport.go:147-168 | an expected packet is appended, the last one acknowledged, the end of a block granted anew, anything else refused |
| `J1939Agreement.DataAgrees` | j1939/decoder.go:317-370 | a data frame of the originator is the decoder's next packet or one it already has |
| `J1939Agreement.DecoderAgrees` | j1939/client_transport.go:45-84 | for every payload and every schedule of grants, holds, retransmissions, failures and other traffic, a transfer in the opposite direction included: at most one message is emitted, it is what was sent, and once the originator has succeeded it has been emitted if and only if no grant has skipped past the end of the last one |
| `J1939Agreement.ElsewhereIsIgnored` | j1939/client_transport.go:175-247 | the control traffic that the schedule leaves free is traffic the originator ignores |
| `J1939Agreement.SkippingGrantIsDropped` | j1939/decoder.go:394-428 | a grant that skips and that the originator accepts makes the decoder drop the transfer with an error |
| `J1939Agreement.SkippingGrantLosesTheDecoder` | j1939/decoder.go:394-428 | such grants exist: every transfer of at least three packets has a run that ends with one |
| `J1939Agreement.RunTransfer` | j1939/client_transport.go:142-330 | two clients of this package over a bus that loses nothing: every packet goes out once and in order, the responder acknowledges all of them, the sender is told of success, and both are idle again |
| `J1939Claim.ClaimState.Handle` | j1939/client.go:281-325 | the in-place handling of a claim or request is the specified step of the node, with its answer |
| `J1939Claim.StepKeeps` | j1939/client.go:193-372 | opening from a cursor taken at any time before the first claim, receiving, ticking and sending keep every pair of contenders settling |
| `J1939Claim.LowestNameWins` | j1939/client.go:281-353 | on every run, once all traffic is handled, exactly the client of the lowest NAME has not lost the address, and exactly that one holds or is claiming it |
| `J1939Claim.LosersStaySilent` | j1939/client.go:338-372 | on every run, after losing the address a client sends nothing from it but Cannot Claim, and traffic other than claims only ever comes from a claimed address |
| `J1939Claim.RequestsAreAnswered` | j1939/client.go:281-372 | on every run, a request that a client handles, and the loss of its address, are followed by a Claim or Cannot Claim of it, or one is due |
| `Mf4Blocks.AppendKeeps` | mf4/writer.go:499-524 | appending a block leaves all earlier ones in place, and the new one starts at a multiple of eight |
| `Mf4Blocks.PatchKeeps` | mf4/writer.go:526-548 | a patch inside one block that turns its encoding into another block's leaves every other block alone |
| `Mf4Blocks.FollowFinds` | mf4/writer.go:321-361 | a reader that follows the links of a chain finds exactly its blocks, in order |
| `Mf4Layout.DataAppended` | mf4/writer.go:321-361 | one flush adds a data block and a list, hooked to the end of the data chain with the right offset |
| `Mf4Layout.EventAppended` | mf4/writer.go:274-318 | one marker with its texts is hooked to the end of the event chain |
| `Mf4Layout.GroupAppended` | mf4/writer.go:420-467 | one channel group is hooked to the end of the group chain |
| `Mf4Layout.CounterKeepsLayout` | mf4/writer.go:365-380 | writing one cycle counter changes that counter only |
| `Mf4Reader.DataReads` | mf4/writer.go:321-361 | the data-list chain concatenates to the flushed bytes in order, and its offsets are the prefix sums |
| `Mf4Reader.EventsRead` | mf4/writer.go:274-318 | the event chain lists the markers in the order they were written, with times and texts |
| `Mf4Reader.GroupsRead` | mf4/writer.go:420-467 | the group chain lists the groups by record identifier, each with its cycle counter |
| `Mf4Reader.BlocksAreAligned` | mf4/writer.go:499-524 | every block starts at a multiple of eight and lies inside the file |
| `Mf4Records.RecordRoundTrip` | mf4/writer.go:237-269 | a record holds everything about the frame it was made from, payload or remote |
| `Mf4Channels.MembersDescribe` | mf4/writer.go:420-467 | the members a group declares cover, by offset, bits and name, the parts of every record that hold bus, identifier, format, length and direction |
| `Mf4Channels.DataMembersDescribe` | mf4/writer.go:420-467 | and for data records the payload and the flags of CAN FD |
| `Mf4Channels.DescribedReads` | mf4/writer.go:420-497 | a reader of the finished bytes finds behind every group its source, its channels and their names, as declared |
| `Mf4Writer.Writer.constructor` | mf4/writer.go:123-205 | the opening blocks are laid out and linked, and nothing has been written yet |
| `Mf4Writer.Writer.WriteFrame` | mf4/writer.go:209-269 | succeeds exactly for a valid frame at an acceptable time that does not run before the last one of its group, on an open writer; then it adds exactly its record under that group, otherwise it adds none |
| `Mf4Writer.Writer.WriteEvent` | mf4/writer.go:274-318 | succeeds exactly for a valid event at an acceptable time on an open writer; then the marker is added with its time after the start, otherwise nothing is |
| `Mf4Writer.Writer.Flush` | mf4/writer.go:321-361 | the buffer is empty afterwards, and events, groups and header are as before |
| `Mf4Writer.Writer.TimeOffset` | mf4/writer.go:392-407 | the first accepted time becomes the start of the measurement; earlier times are refused |
| `Mf4Writer.Writer.AddGroup` | mf4/writer.go:420-467 | a new channel group gets the next record identifier, its channels and a place at the end of the group chain |
| `Mf4Writer.Writer.Close` | mf4/writer.go:365-380 | afterwards the file reads back in full: identification, start time, all record bytes in order, all events in order, and for every group its description and a cycle count equal to its number of records |
| `CddBitfield.ReadPacked` | cdd/bitfield.go:152-161 | the bit loop returns the value gathered along the field's bits |
| `CddBitfield.WritePacked` | cdd/bitfield.go:163-171 | writes the value along the field's bits and no other bit of the payload |
| `CddBitfield.PackedIsShiftedAndMasked` | cdd/bitfield.go:143-161 | a packed field is the container's integer value in the container's byte order, shifted by the field's offset and cut to its width |
| `CddBitfield.PackedRoundTrip` | cdd/bitfield.go:143-171 | writing a field puts its value there and changes no other bit of the container's value |
| `CddLayout.ResolveDatatype` | cdd/parse.go:170-270 | whatever it accepts has a positive width, consistent counts, and a largest size below 2^32 bits |
| `CddLayout.ResolveContainer` | cdd/bitfield.go:15-45 | whatever it accepts is byte-aligned and ends below 2^32 bits |
| `CddRecord.DatatypeExactly` | cdd/parse.go:170-270 | a field resolves if and only if its datatype is known and sound, said condition by condition, and then to the field declared |
| `CddRecord.ContainerExactly` | cdd/bitfield.go:15-45 | a container resolves if and only if its datatype can contain fields, starts at a byte and ends below 2^32 bits |
| `CddLayout.GuardsOnlyRefuse` | cdd/parse.go:97-99 | what the cycle and depth guards let through does not depend on them |
| `CddLayout.AcyclicIsAccepted` | cdd/parse.go:127-146 | references that resolve and form no cycle, nested at most 256 deep, are never refused as references |
| `CddLayout.DepthNeedsManyReferences` | cdd/parse.go:97-99 | the cycle guard alone ends the recursion: the depth limit can refuse only documents of more than 256 shared DIDs |
| `CddLayout.PlacedIsTidy` | cdd/parse.go:90-160 | laid-out fields lie in order inside the record, pairwise disjoint, only the last one variable, for any nesting |
| `CddLayout.Resolver.AppendBitfield` | cdd/bitfield.go:14-81 | the in-place packing succeeds exactly when every child fits, with the specified fields and offset |
| `CddLayout.Resolver.AppendFields` | cdd/parse.go:90-160 | the recursive walk succeeds exactly when the items with all references written out can be placed, with the same fields and offset, and leaves the set of active references as it was |
| `CddLayout.Resolver.AppendReference` | cdd/parse.go:127-152 | the same for one reference, whatever way it fails |
| `CddLayout.ResolveFields` | cdd/parse.go:73-88 | succeeds exactly when the record can be laid out below 2^32 bits, with its least and its largest length |
| `CddRecord.RecordExactly` | cdd/parse.go:90-160 | items can be placed if and only if each is allowed where it stands; then every field lies where what is declared before it ends |
| `CddRecord.ResolvableExactly` | cdd/parse.go:73-88 | a record with references resolves if and only if they can all be written out, the items are acceptable, and the grown record stays below 2^32 bits |
| `CddRaw.RawRoundTrip` | cdd/codec.go:397-416 | an element of up to eight bytes is read back as written, in either byte order |
| `CddRaw.BytesRoundTrip` | cdd/codec.go:397-416 | bytes that are read as an element are written back unchanged |
| `CddRaw.ScalarRoundTrip` | cdd/codec.go:307-382 | an accepted value fits its width, stays within the limits, and decodes to itself |
| `CddRaw.EncodesExactly` | cdd/codec.go:307-382 | a value is accepted if and only if its width and encoding can carry it and it lies within the limits |
| `CddRaw.ReadScalarRoundTrip` | cdd/codec.go:307-382 | every readable raw value encodes back to itself, except a floating-point pattern that is infinite or not a number |
| `CddCodec.CompileRecordCodec` | cdd/codec.go:117-139 | the codec is usable exactly when names are distinct and every field is aligned, at most 64 bits wide, of a supported encoding and within reachable limits |
| `CddCodec.EncodeField` | cdd/codec.go:202-250 | succeeds exactly for a valid count of values that all encode, with the elements one behind the other |
| `CddCodec.FieldAcceptsExactly` | cdd/codec.go:202-305 | a field accepts as many values as it has room for, each one that it can carry within its limits |
| `CddCodec.WriteField` | cdd/codec.go:42-66 | stores the field's elements and leaves every bit that is not the field's as it was, also where the payload grows |
| `CddCodec.ApartHaveNoBitInCommon` | cdd/bitfield.go:143-150 | fields laid out one before the other own no bit in common |
| `CddCodec.Encode` | cdd/codec.go:28-68 | succeeds exactly when the values name exactly the fields and each field accepts its own; then every field holds its value and every other bit is zero |
| `CddCodec.ValidatePayloadLength` | cdd/codec.go:182-200 | accepts exactly the record's length, or the lengths with a permitted number of whole elements in the variable field |
| `CddCodec.Decode` | cdd/codec.go:73-102 | succeeds exactly for an accepted length with all elements readable; then it returns every field's values |
| `CddCodec.DecodeField` | cdd/codec.go:252-293 | fails exactly when some element is outside the limits or not text |
| `CddRoundTrip.EncodeThenDecode` | cdd/codec.go:28-102 | decoding an encoded record returns exactly the encoded values, packed, plain and variable |
| `CddRoundTrip.DecodeThenEncode` | cdd/codec.go:28-102 | what was decoded can be encoded again exactly when it holds no infinite or not-a-number element |
| `CddRoundTrip.InfinityIsReadOnly` | cdd/codec.go:307-382 | an input where it cannot: a record of one 32-bit float whose four bytes are positive infinity decodes, and Encode refuses the value |
| `CddRoundTrip.ReencodedIsTheSame` | cdd/codec.go:28-102 | encoding what was decoded gives the payload back with the reserved bits cleared, and unchanged where they were clear |
| `VirtualNetwork.StartKeeps` | drivers/virtual/virtual.go:284-288 | a broadcast that takes the network lock owes its packet to exactly the buses open then |
| `VirtualNetwork.QueueKeeps` | drivers/virtual/virtual.go:289-293 | a packet that fits a queue joins it behind all that its destination keeps of the source |
| `VirtualNetwork.RefuseKeeps` | drivers/virtual/virtual.go:293-296 | a full queue takes nothing; until the destination is failed the packet stays owed, whatever happens in between |
| `VirtualNetwork.FailKeeps` | drivers/virtual/virtual.go:254-266 | failing the destination, in a later step, ends what it is owed |
| `VirtualNetwork.TakeKeeps` | drivers/virtual/virtual.go:219 | a packet taken from the queue is kept while it is held |
| `VirtualNetwork.RecordKeeps` | drivers/virtual/virtual.go:219-234 | recording the held packet continues the recorded prefix |
| `VirtualNetwork.DropKeeps` | drivers/virtual/virtual.go:219-224 | a stopped bus drops what it holds, and records nothing after it |
| `VirtualNetwork.DeliveryIsPrefix` | drivers/virtual/virtual.go:187-299 | in every interleaving of channel operations and locked sections, what a destination recorded from a source is a prefix, in order, of what that source broadcast since the destination opened; nothing follows a dropped packet |
| `VirtualNetwork.NothingIsLost` | drivers/virtual/virtual.go:284-299 | a bus that has neither failed nor closed has recorded, holds or still queues everything of a source that is not broadcasting, and has recorded all of it when it holds and queues nothing |
| `VirtualNetwork.TransmitPrecedesReceive` | drivers/virtual/virtual.go:187-252 | in a shared capture every receive record stands behind the transmit record of its packet |

## Left out

- Native driver backends, device discovery and notifications, ASC output, UDS service wrappers and string formatting.
- Timers, deadlines and contexts: a timeout or a cancellation is a step that may happen at any point.
- Capture: chunk sequence numbers and generations do not wrap at 32 bits; the 24-byte packing of a record, and the bytes of a frame beyond its data length, are not represented; payload storage of a chunk is a sequence, not a reserved array.
- Capture: `Latest`, the unfiltered `Frames`/`Events` reads and `FramesBetween`/`EventsBetween` would repeat what is proved of the series reads and of the export.
- `Next`: channel and mutex mechanics; a waiter is a count and at most one arrival, as the buffered channel of one.
- ISO-TP: addressing beyond normal addressing, functional requests, and the retries of one frame against a full transmit queue.
- ISO-TP: an operation's reads and sends in `IsoTpExchange` are steps in program order; the frames they carry are those of `IsoTpLink`, without repeating the parsing there.
- ISO-TP: `Receive` continues from an unread position that an idle retention cursor may already have passed; the documented policy is to prune by `Cursor` then, so no retention claim is made for it.
- DBC codec: physical values (factor, offset, limits, labels) are opaque; the interface is raw integers.
- DbcActivity.OverlapsExactly: takes every condition to have a range and no range to be empty, as the parser hands them over; where a range starts beyond the width of its selector, the check compares signals that no frame makes active together, and the lemma counts such raw values too.
- DbcCodec.Encode: is stated for frames and messages of at most 2^32 bits; on longer ones the codec's 32-bit walk wraps. The same holds of DbcCodec.Patch, DbcCodec.EncodeThenDecode and DbcCodec.PatchThenDecode.
- DBC text: the formatting of physical numbers, UTF-8 validity, the layout and values of a signal line behind its marker (any text that lexes stands for them), the message a signal line belongs to, and records other than `SG_MUL_VAL_`.
- XCP: what an ECU does after a session-terminated event, retention while idle, the call gate's mechanics, capture loss, SHORT_UPLOAD memory contents, and sessions other than one client to one ECU.
- XcpAnswered.AnsweredDo: starts with nothing unanswered and no reply in flight; the way out of any other state is what the recovery theorems are about.
- XcpClient.Client.RunSession: ends at the first session-terminated event, after which the source makes no promise either.
- J1939: expiry of the client's deadlines, a bus that refuses a control frame, broadcast announcement timing, frames that are not extended data frames, and a decoder that also watches address claims.
- J1939Agreement.DecoderAgrees: takes the frames of a transfer that has not failed to reach the decoder before its session expires; the decoder then drops it, as it should.
- J1939 arbitration: dynamic choice of a new address after a loss, which the client leaves to its caller.
- Mf4Writer.Writer.constructor: lays out no attachments; they would be blocks of one more chain.
- MF4: display names, XML contents, compression, MD5, a failing output, and what a channel block says beyond name, type, offset, width and links.
- Mf4Writer.Writer.Close: states the read-back for files, record bytes and record counts below 2^64, which is what the format's counters hold.
- CDD: XML decoding, catalogues, group metadata of fields, choice labels, linear conversion of physical values (only its raw limits count), the search for a record's data proxy, and the resolution of ReverseBitFieldBytes to a flag.
- Virtual network: a capture that refuses a record, and the overrun event a failed bus records when it ends.
