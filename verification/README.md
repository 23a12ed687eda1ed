# GNSS receive path: a verified model

This project models the receive path and the control plane of the GNSS wrapper
and proves properties of the model with Dafny 4.11.
`dafny verify dfyconfig.toml` checks all of it.

## What is modelled

**Byte-stream framing.** `UbxProtocol` has the UBX checksum, the frame builder
and the frame check (u-blox ZED-F9R Interface Description UBX-19056845, sections
3.2 "UBX frame structure" and 3.4 "UBX checksum").  `UbxFraming` describes the
UBX parser as a three-phase machine over the bytes collected so far and proves
what it accepts: exactly the streams made of good frames and gaps without a sync
pair.  `UbxParser` is the parser as the source has it, with nine states, its
fields, its dispatcher and the record callback, proved to take the steps of that
machine.  `NmeaChecksum`, `NmeaFraming` and `NmeaParser` do the same for the
five-state NMEA parser with its fixed buffer.  `Coexistence` puts both parsers
on one line.  `FilePort` is the file channel with a kernel that may answer
short, interrupt or fail.  `Feeding` says what a parser has done after being fed
piece by piece, and `RecordReplay` joins parser, recorder, file channel and
worker loop into one recording and its replay.  A record callback whose write
fails leaves the parser by an exception, which nothing in the worker catches.

**Control plane.**  `Receiver` has the lifecycle of one receiver twice: as the
object with its fields, and as a step system in which the worker's exit falls
anywhere inside `stop()` and `terminate()`.  `Controller` is the record and
replay switching over all receivers, with every open, port initialisation and
worker exit free to go either way.  `FdManager` and `Worker` are the poll array
cache and the worker loop.  `AckHandshake` is `send_sync` against `handle_ack`,
one step per memory access.  `EventQueue` is the timed queue with any number of
producers and pollers.  `SigSlot` is the two-sided connection bookkeeping,
`SigSlotRuns` its runs over many signals and slots, and `SigSlotSteps` the
disconnects step by step.

**Two algorithms.** `Ini`, `IniFile` and `IniParser` are the INI reader and
writer, `IniReading` says what the reader makes of words, lines and files, and
`IniRoundTrip` which maps come back from a file; `Polygon` is the even-odd
point-in-polygon test over exact reals, and `PolygonConvex` what it decides for
convex polygons.

Concurrency is modelled by step systems: a run is any list of actions, an
action whose thread is not at that point does nothing, and a theorem about all
lists is a theorem about all interleavings.  Answers from outside (open, init,
poll, read, write, time) are parameters that no theorem constrains unless it
says so.

## Where the code differs from its documentation

The model follows the code.

* `README.md:306` calls co-existence on one UART transparent.  It holds exactly
  when no UBX frame holds a 0x24 byte (for the NMEA parser) and no sentence
  holds a sync pair (for the UBX parser): `Coexistence.NmeaCleanIff`,
  `Coexistence.UbxInStepIff`, `Coexistence.DollarFrameBreaksNmea`.
* `gnss_controller/gnss_controller.cpp:733` announces that original ports are
  restored when no replay could start.  The loop finds nothing saved, and
  receivers whose file had opened stay terminated:
  `Controller.NothingSaved`, `Controller.FailedReplayLeavesIdle`.
* `gnss_receiver/gnss_receiver.cpp:234` and line 376 speak of a reconfiguration
  after a time-out; the loop just goes round again.  The comment at lines
  281-284 says that a failed reconfiguration returns false; it does so only
  from the fifth on.
* `ext_libs/lib_event/libevent.h:527` says `poll()` returns nullptr once the
  queue is stopped.  Until the queue is resumed that holds exactly when no
  `poll()` is in its timed wait as `stop()` is called, and otherwise only those
  polls can still return their events: `EventQueue.StopDeliversIff`.
* `disconnect(slot, member_func)` removes every matching connection and
  decrements the slot's count once, so the two books agree exactly when no such
  call has found a member function twice: `SigSlot.AgreementIff`.  Between the
  steps of a disconnect no lock is held.  With any number of disconnects of a
  pair in progress, the slot's count stays sufficient exactly when the run has
  recovered since a slot's own disconnect last erased it; in a run that never
  removes a function twice, when at some moment since then the signal held no
  connection and nothing was still to unregister: `SigSlotSteps.AgreementIff`,
  `SigSlotSteps.SimpleAgreementIff`.  It is enough that no connect comes while a
  disconnect of the pair is in progress (`SigSlotSteps.QuietConnectsAgree`);
  `SigSlotSteps.LateConnect` and `SigSlotSteps.CrossedDisconnects` are runs in
  which a connection is left uncounted.
* `load` does not undo what `escape_string` did, and a quoted value is still
  read as a number or a keyword; and not every key can be read back from the
  line written for it.  `IniRoundTrip.RoundTripIff` says which maps come back.
* The polygon test answers false for every polygon of more than 1024 vertices:
  `Polygon.IsPointInside`.
* `send_sync` may return true although no acknowledgement of its frame begins
  during the call, exactly when the class and id left stored by an earlier call
  are not the frame's own, or an acknowledgement in progress as the call begins
  has passed, or can still pass, its comparisons: `AckHandshake.FalseSuccessIff`.

## Model

| member | source | states |
|---|---|---|
| UbxProtocol.ComputeChecksum | ext_libs/ubx_parser/include/ubx_protocol.h:132-141 | the loop with its 8-bit wrap computes the plain and the position-weighted byte sum modulo 256 |
| UbxProtocol.FletcherClosedForm | ext_libs/ubx_parser/include/ubx_protocol.h:115-141 | the running checksum equals sum(b_i) and sum((n-i)*b_i) modulo 256 for every byte string |
| UbxProtocol.BuildUbxFrame | ext_libs/ubx_parser/include/ubx_protocol.h:155-181 | the frame built for any payload, including what the 16-bit length does to a longer one |
| UbxProtocol.VerifyFrameChecksum | ext_libs/ubx_parser/include/ubx_protocol.h:238-251 | true exactly for frames of at least eight bytes whose last two are the checksum of bytes 2 to n-3 |
| UbxProtocol.BuiltVerifies | ext_libs/ubx_parser/include/ubx_protocol.h:155-251 | every built frame up to 65535 payload bytes verifies, and its fields and the two sums are where a reader looks for them |
| UbxProtocol.MonVerPoll | ext_libs/ubx_parser/include/ubx_protocol.h:155-181 | the poll for MON-VER is built as the eight bytes of the interface description |
| UbxProtocol.SingleByteErrorDetected | ext_libs/ubx_parser/include/ubx_protocol.h:238-251 | changing any one byte from the class to CK_B always makes verification fail |
| UbxProtocol.SwapUndetectedIff | ext_libs/ubx_parser/include/ubx_protocol.h:238-251 | swapping two covered bytes goes unnoticed exactly when distance times difference is a multiple of 256 |
| UbxProtocol.AdjacentSwapDetected | ext_libs/ubx_parser/include/ubx_protocol.h:238-251 | swapping two adjacent unequal covered bytes is always noticed |
| UbxFraming.GoodFramesAreBuiltFrames | ext_libs/ubx_parser/include/ubx_protocol.h:155-181 | the frames called good print exactly as the frames the builder assembles, and every built frame is one |
| UbxFraming.Decompose | ext_libs/ubx_parser/src/ubx_parser.cpp:97-251 | soundness on every input: the dispatched frames, printed, are disjoint contiguous pieces of the stream in order |
| UbxFraming.Completeness | ext_libs/ubx_parser/src/ubx_parser.cpp:97-235 | built frames within the limit, with noise free of sync pairs between them, are dispatched exactly, in order, with no discard |
| UbxFraming.RunWire | ext_libs/ubx_parser/src/ubx_parser.cpp:97-235 | from any point between frames, even after a stray first sync byte, a good frame gets through |
| UbxFraming.FrameVerdict | ext_libs/ubx_parser/src/ubx_parser.cpp:148-274 | what any bytes in the form of a frame give: rejected at the header beyond the limit, else dispatched or rejected as the two sums say, with which code, class and id |
| UbxFraming.CleanRunIff | ext_libs/ubx_parser/src/ubx_parser.cpp:97-235 | the parser rejects nothing and ends between frames exactly on streams of good frames and quiet gaps |
| UbxFraming.Unambiguous | ext_libs/ubx_parser/src/ubx_parser.cpp:97-235 | no stream can be read as frames and quiet gaps in two ways: frames and gaps are determined |
| UbxFraming.ChunkingIrrelevant | ext_libs/ubx_parser/src/ubx_parser.cpp:89-93 | cutting the stream into feed calls anywhere changes nothing |
| UbxFraming.RecordReplay | gnss_controller/gnss_controller.cpp:560-581 | what a recording of any live stream replays as: the same frames, and the same file again, each exactly when every frame fits the replay limit |
| UbxFraming.RunBounded | ext_libs/ubx_parser/src/ubx_parser.cpp:148-200 | the payload collected never exceeds the limit and every dispatched frame is good and within it |
| UbxFraming.FillerResynchronises | ext_libs/ubx_parser/src/ubx_parser.cpp:112-232 | from every reachable state enough filler brings the parser back to hunting |
| UbxFraming.SelfStabilising | ext_libs/ubx_parser/src/ubx_parser.cpp:97-274 | after any stream, limit+6 filler bytes, and the next good frame is dispatched |
| UbxFraming.StabilisationBoundTightIff | ext_libs/ubx_parser/src/ubx_parser.cpp:148-200 | limit+5 filler bytes can fail to suffice exactly when neither length byte of the limit is a sync byte |
| UbxFraming.Conservation | ext_libs/ubx_parser/src/ubx_parser.cpp:112-274 | sync pairs recognised equal frames decoded, frames discarded and one if in progress |
| UbxParser.Recorder.OnRawMessage | gnss_controller/gnss_controller.cpp:560-581 | the callback appends exactly the wire bytes of the frame, or throws and leaves a proper part of them; it cannot throw on an open writable file whose writes do not fail |
| UbxParser.Dispatcher.Dispatch | ext_libs/ubx_parser/src/ubx_dispatcher.cpp:45-62 | a decoder sees the frames whose class and id are registered, the raw callback sees every frame, and its exception is passed on |
| UbxParser.RegisteredExactly | ext_libs/ubx_parser/src/ubx_dispatcher.cpp:45-62 | over a run the frames decoded are exactly those dispatched with a registered class and id, as often and in that order |
| UbxParser.Dispatcher.DispatchError | ext_libs/ubx_parser/src/ubx_dispatcher.cpp:64-68 | the error callback gets each rejection, in order |
| UbxParser.Parser.constructor | ext_libs/ubx_parser/src/ubx_parser.cpp:38-45 | a new parser hunts, with both counters zero and the default limit |
| UbxParser.Parser.SetMaxPayloadLength | ext_libs/ubx_parser/src/ubx_parser.cpp:69-73 | zero becomes one; a frame whose header is in is not reconsidered |
| UbxParser.Parser.Reset | ext_libs/ubx_parser/src/ubx_parser.cpp:80-85 | back to hunting with both counters zero, the limit kept |
| UbxParser.Parser.VerifyChecksum | ext_libs/ubx_parser/src/internal/checksum.h:57-81 | the parser's own checksum agrees with the builder's |
| UbxParser.Parser.ProcessByte | ext_libs/ubx_parser/src/ubx_parser.cpp:97-235 | one byte through the nine states is one step of the framing machine, with counters, callbacks and record file to match |
| UbxParser.Parser.OnFrameComplete | ext_libs/ubx_parser/src/ubx_parser.cpp:239-251 | the frame dispatched is the fields collected, after the context was reset |
| UbxParser.Parser.DiscardFrame | ext_libs/ubx_parser/src/ubx_parser.cpp:255-274 | one more discard, reported with its class and id, and a reset context |
| UbxParser.Parser.Feed | ext_libs/ubx_parser/src/ubx_parser.cpp:89-93 | feeding a buffer is a run of the framing machine over it, up to the byte at which the record callback throws |
| Feeding.FeedAll | ext_libs/ubx_parser/src/ubx_parser.cpp:89-93 | any sequence of feed calls leaves the books of one run over the joined bytes, with a record callback or without, or over those up to the write that threw |
| RecordReplay.FileTurns | gnss_receiver/gnss_receiver.cpp:411-439 | asking what is available and reading at most a chunk yields the whole rest of the file, or a prefix if a read throws |
| RecordReplay.Replay | gnss_receiver/gnss_receiver.cpp:329-474 | the worker loop over those turns feeds the parser exactly those bytes, or a prefix if a read or the record callback throws |
| RecordReplay.ReplayOfFile | gnss_controller/gnss_controller.cpp:560-581 | a record file torn by a failed write replays as the frames that stand in it whole, with no discard |
| RecordReplay.RecordThenReplay | gnss_controller/gnss_controller.cpp:523-748 | with real parsers of any payload limit, recorder, file channel and worker loop: the replay decodes the same frames, discards nothing and records the same file; after a failed write it decodes all frames dispatched but the last, and after a failed read a prefix of them |
| NmeaChecksum.XorAllParity | ext_libs/nmea_parser/src/internal/checksum.h:30-36 | the checksum has a binary digit exactly when an odd number of the characters have it |
| NmeaChecksum.XorOfAB | ext_libs/nmea_parser/src/internal/checksum.h:30-36 | the checksum of "AB" is 3 |
| NmeaChecksum.ParseHexByteIff | ext_libs/nmea_parser/src/internal/checksum.h:45-58 | two characters are read as a byte exactly when they are its hexadecimal digits, in capital or small letters |
| NmeaChecksum.HexRoundTrip | ext_libs/nmea_parser/src/internal/checksum.h:45-58 | every checksum byte survives printing as two hex digits and parsing |
| NmeaFraming.Decompose | ext_libs/nmea_parser/src/nmea_parser.cpp:93-237 | soundness on every input from every phase: the dispatched sentences are disjoint pieces of the stream in order, each '$', its characters and an ending, whose checksum, if present, is theirs |
| NmeaFraming.CleanRunIff | ext_libs/nmea_parser/src/nmea_parser.cpp:93-237 | read without an error exactly: such pieces with bytes other than '$' between them, stopped anywhere in the last; and what is read |
| NmeaFraming.RunSentence | ext_libs/nmea_parser/src/nmea_parser.cpp:93-237 | a printed sentence, with its checksum or without, is read back as itself |
| NmeaFraming.RunFits | ext_libs/nmea_parser/src/nmea_parser.cpp:111-156 | the characters collected never exceed 256 on any input |
| NmeaFraming.Conservation | ext_libs/nmea_parser/src/nmea_parser.cpp:76-237 | sentences started equal decoded, discarded and one if in progress |
| NmeaFraming.InterruptionIsAnError | ext_libs/nmea_parser/src/nmea_parser.cpp:111-202 | a sentence arriving while another is unfinished always costs an error |
| NmeaFraming.MismatchRejected | ext_libs/nmea_parser/src/nmea_parser.cpp:206-237 | a checksum that is not that of the characters is reported as a mismatch, whatever stands before the LF |
| NmeaFraming.NoNumberRejected | ext_libs/nmea_parser/src/nmea_parser.cpp:158-175 | so are two characters that are no hexadecimal number |
| NmeaFraming.LongRejected | ext_libs/nmea_parser/src/nmea_parser.cpp:111-156 | the 257th character is reported as one too many |
| NmeaFraming.InterruptedRejected | ext_libs/nmea_parser/src/nmea_parser.cpp:111-202 | a '$' among the characters or before the LF is reported and begins a new sentence |
| NmeaFraming.SentenceAB | ext_libs/nmea_parser/src/nmea_parser.cpp:93-237 | "$AB*03" and "$AB" are dispatched |
| NmeaFraming.SentenceABWrong | ext_libs/nmea_parser/src/nmea_parser.cpp:206-237 | "$AB*04" is not |
| NmeaParser.Parser.ProcessByte | ext_libs/nmea_parser/src/nmea_parser.cpp:93-202 | one byte through the five states is one step of the sentence machine; every write stays inside the buffer |
| NmeaParser.Parser.OnSentenceComplete | ext_libs/nmea_parser/src/nmea_parser.cpp:206-237 | dispatched when the checksum is absent or right, discarded otherwise |
| NmeaParser.Parser.DiscardWithError | ext_libs/nmea_parser/src/nmea_parser.cpp:76-89 | one more discard, reported, and a reset context |
| NmeaParser.Parser.Reset | ext_libs/nmea_parser/src/nmea_parser.cpp:53-58 | idle with both counters zero |
| NmeaParser.Parser.Feed | ext_libs/nmea_parser/src/nmea_parser.cpp:62-66 | feeding a buffer is a run of the sentence machine over it |
| Coexistence.SentenceInvisibleIff | ext_libs/ubx_parser/src/ubx_parser.cpp:97-128 | a sentence passes the UBX parser by exactly when it holds no sync pair |
| Coexistence.UbxInStepIff | gnss_receiver/gnss_receiver.cpp:434-446 | the UBX parser is in step at every boundary of a mixed stream exactly when no sentence holds a sync pair |
| Coexistence.NmeaCleanIff | ext_libs/nmea_parser/src/nmea_parser.cpp:93-237 | the NMEA parser reads a mixed stream cleanly exactly when no frame holds a 0x24 byte, and then reads the sentences sent |
| Coexistence.BothParsers | README.md:306 | under both conditions each parser gets exactly its own items and discards nothing |
| Coexistence.DollarFrameBreaksNmea | README.md:306 | a concrete frame for which the unconditional promise fails |
| FilePort.Port.ReadLocked | ext_libs/io_helper/file/file_port.cpp:416-459 | short and interrupted kernel reads add up to one read of the file, or an error, through the turns of that loop |
| FilePort.Port.ReadBytes | ext_libs/io_helper/file/file_port.cpp:213-234 | the bytes returned, and when an exception leaves instead |
| FilePort.Port.Available | ext_libs/io_helper/file/file_port.cpp:236-273 | a read returns as many bytes as asked for exactly up to this number |
| FilePort.Port.WriteBytes | ext_libs/io_helper/file/file_port.cpp:310-348 | the whole buffer is appended, or an exception leaves a proper prefix behind |
| FilePort.ReadMeans | ext_libs/io_helper/file/file_port.cpp:416-459 | one read: which bytes, short only at the end of the file, never across it, and from its start only when it loops and begins at the end |
| FilePort.ReadsGivePrefix | ext_libs/io_helper/file/file_port.cpp:416-459 | successive reads concatenate to a prefix of the file, and to all of it once enough is asked for |
| FilePort.ReadReturnsIff | ext_libs/io_helper/file/file_port.cpp:416-459 | while the kernel does not fail, the loop can end exactly unless bytes are asked of an empty looping file |
| FilePort.LoopingReadsRepeat | ext_libs/io_helper/file/file_port.cpp:416-459 | with looping they walk round and round the file: byte i is the one at i modulo its length |
| FilePort.LoopingReadsProgress | ext_libs/io_helper/file/file_port.cpp:416-459 | and every read that asks for something gets at least one byte |
| FilePort.ReplayThroughFile | gnss_controller/gnss_controller.cpp:660-748 | a recording read back in pieces of any size dispatches the recorded frames |
| Receiver.CommandsKeepConsistency | gnss_receiver/gnss_receiver.cpp:34-223 | between commands a thread and a parser exist iff running, running_ implies running, and terminate reaches idle |
| Receiver.NextInvariant | gnss_receiver/gnss_receiver.cpp:85-223 | every step of command or worker keeps the invariant; a thread is created and the port swapped only when no worker exists; parsers die only after the join |
| Receiver.EverySchedule | gnss_receiver/gnss_receiver.cpp:34-223 | the invariant holds at every point of every interleaving |
| Receiver.StopProgress | gnss_receiver/gnss_receiver.cpp:140-178 | inside stop or terminate some step is possible and every step brings the return nearer |
| Receiver.StopAppearsAtomic | gnss_receiver/gnss_receiver.cpp:140-178 | whatever the worker does meanwhile, at the first moment stop or terminate has returned the receiver is in the state of the one-step command |
| Receiver.GnssReceiver.Initialize | gnss_receiver/gnss_receiver.cpp:34-83 | null config, reconfiguration, failure and success |
| Receiver.GnssReceiver.StartWorker | gnss_receiver/gnss_receiver.cpp:85-138 | starts only from initialised, with the current record callback given to the new parser |
| Receiver.GnssReceiver.StopWorker | gnss_receiver/gnss_receiver.cpp:140-165 | back to initialised without thread or parser, also after the worker exited by itself |
| Receiver.GnssReceiver.TerminateReceiver | gnss_receiver/gnss_receiver.cpp:167-178 | idle from every state |
| Receiver.GnssReceiver.SwapPort | gnss_receiver/gnss_receiver.cpp:211-223 | the port changes only when idle |
| Controller.PortBinding | gnss_controller/gnss_controller.cpp:523-806 | over all runs and failures: record and replay exclude each other, the replay vectors have one entry per receiver, each receiver has the port they say, saved and replay entries go together, and a record callback exists iff its file does |
| Controller.ApplyBound | gnss_controller/gnss_controller.cpp:135-806 | each command keeps that binding |
| Controller.LiveParsersReport | gnss_controller/gnss_controller.cpp:560-605 | while recording, every live worker's parser reports to its receiver's record file, and otherwise to none |
| Controller.RecordingIs | gnss_controller/gnss_controller.cpp:523-614 | what a recording that has started has made of each receiver: only its callback and that of its running parser |
| Controller.ReplayingIs | gnss_controller/gnss_controller.cpp:660-754 | what a replay that has started has made of each: running on its file, terminated, or untouched |
| Controller.RecordThenStop | gnss_controller/gnss_controller.cpp:523-656 | a recording that starts and stops leaves a receiver exactly as it was, unless its worker exits meanwhile |
| Controller.ReplayThenStop | gnss_controller/gnss_controller.cpp:660-806 | which receivers run again on their own ports after a replay, with every field, and which stay idle |
| Controller.FailedReplayLeavesIdle | gnss_controller/gnss_controller.cpp:682-748 | a replay that cannot start leaves the receivers it terminated as terminate does, on their own ports; unchanged are exactly those whose file did not open or that were idle before |
| Controller.StartedThenIdle | gnss_controller/gnss_controller.cpp:660-754 | a run in which a started receiver is left idle that way |
| Controller.NothingSaved | gnss_controller/gnss_controller.cpp:731-748 | the restore loop never does anything |
| Controller.GnssController.InitAllReceivers | gnss_controller/gnss_controller.cpp:268-283 | every receiver whose port opens is initialised with its own configuration, whatever became of the others, and the answer is whether all were |
| Controller.GnssController.StartAllReceivers | gnss_controller/gnss_controller.cpp:286-304 | every initialised receiver is started, and the answer is whether all could be |
| Controller.GnssController.StopAllReceivers | gnss_controller/gnss_controller.cpp:306-314 | every running receiver is initialised again, without a thread, keeping the binding |
| Controller.GnssController.TerminateAllReceivers | gnss_controller/gnss_controller.cpp:316-327 | every receiver is idle without a thread, keeping the binding |
| Controller.GnssController.StartRecord | gnss_controller/gnss_controller.cpp:523-614 | succeeds exactly when neither is active and some file opens; which receivers then have a file, and the callback loop |
| Controller.GnssController.StopRecord | gnss_controller/gnss_controller.cpp:616-656 | callbacks removed, files let go |
| Controller.GnssController.StartReplay | gnss_controller/gnss_controller.cpp:660-754 | succeeds exactly when neither is active and some receiver's file and port open; which receivers then replay, the swap loop with each of its failures, and the restore loop |
| Controller.GnssController.StopReplay | gnss_controller/gnss_controller.cpp:756-806 | all terminated, the replayed ones brought back |
| FdManager.MirrorUnique | ext_libs/lib_event/libevent.h:2780-2798 | the map determines the descriptors and event masks of the cached arrays |
| FdManager.Manager.AddFd | ext_libs/lib_event/libevent.h:2500-2530 | registered exactly if valid and new; the cache is marked stale |
| FdManager.Manager.RemoveFd | ext_libs/lib_event/libevent.h:2537-2552 | removed if present, and then the cache is marked stale |
| FdManager.Manager.EnableFd | ext_libs/lib_event/libevent.h:2559-2577 | enabled if present, the cache stale if that changed anything |
| FdManager.Manager.DisableFd | ext_libs/lib_event/libevent.h:2584-2602 | disabled if present, the cache stale if that changed anything |
| FdManager.Manager.ModifyEvents | ext_libs/lib_event/libevent.h:2610-2625 | mask replaced if present |
| FdManager.Manager.Clear | ext_libs/lib_event/libevent.h:2751-2758 | empty map, empty and fresh cache |
| FdManager.Manager.RebuildPollFds | ext_libs/lib_event/libevent.h:2780-2798 | the arrays are the enabled entries with their masks, in ascending order of descriptor |
| FdManager.Manager.Wait | ext_libs/lib_event/libevent.h:2632-2662 | the cache is fresh afterwards, and the answer is how many entries have any event |
| FdManager.Manager.ProcessEvents | ext_libs/lib_event/libevent.h:2667-2688 | exactly the ready entries are called, in order, once |
| FdManager.Manager.ReadyConcat | ext_libs/lib_event/libevent.h:2667-2688 | which calls those are: entry by entry in the order of the array |
| FdManager.Manager.ReadyOne | ext_libs/lib_event/libevent.h:2667-2688 | and for one entry its descriptor and events, if it has any event |
| Worker.TrailingFailuresMeaning | gnss_receiver/gnss_receiver.cpp:281-326 | the counter equals the failures since the last successful reconfiguration |
| Worker.FiveEndTheLoop | gnss_receiver/gnss_receiver.cpp:281-326 | no five such turns in a row fit into a loop that goes on |
| Worker.Loop.ReconfigurePort | gnss_receiver/gnss_receiver.cpp:284-326 | nothing is registered afterwards, and when the loop may go on |
| Worker.Loop.WaitAndProcess | gnss_receiver/gnss_receiver.cpp:260-279 | the flags are those of the one registered descriptor |
| Worker.Loop.Iterate | gnss_receiver/gnss_receiver.cpp:329-460 | from the answers alone: after a bad descriptor, a failed poll, an error event or a failed read nothing is registered and the count is zero or one more; after any other turn the descriptor is registered, the count unchanged and at most 2048 of the bytes read fed |
| Worker.Loop.Run | gnss_receiver/gnss_receiver.cpp:329-474 | five turns in a row that cannot bring the port back, and nothing else but stop() or an exception from the record callback, end the loop; without the exception running_ is false and nothing is registered; the parser has consumed exactly what the turns read |
| AckHandshake.NextInvariant | gnss_controller/serial_transport_impl.cpp:39-93 | every step of sender and handler keeps the stored pair and the evidence in order |
| AckHandshake.TrueMeansAcknowledged | gnss_controller/serial_transport_impl.cpp:39-93 | in every interleaving a true return follows a positive acknowledgement matched since the reset, of this very frame if it began after the stores |
| AckHandshake.OnlyPositiveAcksCount | gnss_controller/gnss_controller.cpp:197-208 | a NAK alone never yields true |
| AckHandshake.SetToggleDecides | gnss_controller/serial_transport_impl.cpp:75-85 | once the toggle is set the waiting call can only return true |
| AckHandshake.OwnAckInTimeIff | gnss_controller/serial_transport_impl.cpp:75-93 | an acknowledgement of the frame begun while waiting makes the call return true exactly when its three steps come before the wait gives up |
| AckHandshake.OldAckInWindow | gnss_controller/serial_transport_impl.cpp:67-76 | from every state between calls, whatever acknowledgement is in progress, one of the pair left stored that falls in the window makes the call return true |
| AckHandshake.FalseSuccessIff | gnss_controller/serial_transport_impl.cpp:39-93 | some interleaving returns true without an acknowledgement of the frame beginning in the call, or on that of another pair, exactly when the pair left stored is not the frame's own or the acknowledgement in progress can still set the toggle, or names another pair and can |
| AckHandshake.SerialTransport.SendSync | gnss_controller/serial_transport_impl.cpp:39-85 | for every behaviour of the parser thread: the call is exactly this run of the steps, so the toggle decides its answer; what true means, also with a quiet window, and which pair stays stored |
| AckHandshake.SerialTransport.HandleAck | gnss_controller/serial_transport_impl.cpp:87-93 | sets the toggle exactly on a positive acknowledgement of the stored pair |
| EventQueue.EveryInterleaving | ext_libs/lib_event/libevent.h:466-547 | accepted events are exactly those queued, held, delivered and dropped; every delivery was the least of its queue and less than a millisecond early, and no wait runs past its event's due time |
| EventQueue.PopMeans | ext_libs/lib_event/libevent.h:493-511 | what a poller takes is the least event, delivered at once if due and else held for the whole milliseconds left |
| EventQueue.NoStopNoLoss | ext_libs/lib_event/libevent.h:530-547 | without a stop nothing is ever dropped |
| EventQueue.OnePollerDrains | ext_libs/lib_event/libevent.h:493-522 | from every running state one poller by itself can deliver everything queued and lose nothing |
| EventQueue.StopDeliversIff | ext_libs/lib_event/libevent.h:508-547 | until a resume, a poll can return an event after stop() exactly when some poll is in its timed wait as stop() is called, and only events of those polls are returned, each at most once |
| EventQueue.StoppedAccounts | ext_libs/lib_event/libevent.h:466-547 | until a resume nothing more is accepted, and every accepted event is in a hand, delivered or dropped |
| EventQueue.Queue.Enqueue | ext_libs/lib_event/libevent.h:466-482 | taken if running, ignored if stopped |
| EventQueue.Queue.PollFirst | ext_libs/lib_event/libevent.h:493-511 | pops a least event and computes the whole-millisecond wait |
| EventQueue.Queue.PollSecond | ext_libs/lib_event/libevent.h:512-522 | a notified poller puts its event back, or loses it to a stop |
| EventQueue.Queue.Stop | ext_libs/lib_event/libevent.h:530-547 | the first stop empties the queue |
| EventQueue.Queue.Resume | ext_libs/lib_event/libevent.h:555-571 | accepts events again |
| SigSlot.CountLaw | ext_libs/lib_event/libevent.h:1029-1119 | over every run the signal's book is the plain list, and the slot's count exceeds its length by exactly the over-removed connections |
| SigSlot.HeldExactly | ext_libs/lib_event/libevent.h:1307-1429 | after every run the signal holds exactly the connections made and not removed since, in the order they were made |
| SigSlot.WithoutExactly | ext_libs/lib_event/libevent.h:1355-1366 | what a disconnect of one function leaves: all others, as often and in that order |
| SigSlot.AgreementIff | ext_libs/lib_event/libevent.h:1307-1429 | the count is never below the connections held, and equal exactly when no disconnect found a function twice |
| SigSlot.NoRepeatsAgree | ext_libs/lib_event/libevent.h:1307-1429 | runs that never hold one pair twice keep the books equal |
| SigSlot.ShortRunsAgree | ext_libs/lib_event/libevent.h:1307-1429 | fewer than three operations never make the books differ |
| SigSlot.DoubleConnect | ext_libs/lib_event/libevent.h:1340-1379 | three do, and only the slot's own disconnect clears the difference |
| SigSlotSteps.CountLaw | ext_libs/lib_event/libevent.h:1029-1119 | at every moment the slot's count is the connections held plus those still to unregister plus the slack of the run |
| SigSlotSteps.AgreementIff | ext_libs/lib_event/libevent.h:1086-1094 | over all lists of steps of one pair with any number of disconnects in progress, the slot's count is sufficient exactly when the run has recovered since the count was last erased |
| SigSlotSteps.SimpleAgreementIff | ext_libs/lib_event/libevent.h:1086-1094 | if no function is removed twice, that is: at some moment since then nothing was held and nothing still to unregister |
| SigSlotSteps.QuietConnectsAgree | ext_libs/lib_event/libevent.h:1086-1094 | the count is sufficient if no connect comes while a disconnect of the pair is in progress |
| SigSlotSteps.UninterruptedIsAtomic | ext_libs/lib_event/libevent.h:1340-1403 | without interruption the steps are the operations |
| SigSlotSteps.LateConnect | ext_libs/lib_event/libevent.h:1086-1094 | a connect before the take does no harm, one after it is left uncounted |
| SigSlotSteps.CrossedDisconnects | ext_libs/lib_event/libevent.h:1086-1403 | two crossing disconnects and a connect leave a connection uncounted |
| SigSlotRuns.Perform | ext_libs/lib_event/libevent.h:1029-1430 | each call on the objects acts on every pair as its operation says, and on no other |
| SigSlotRuns.Execute | ext_libs/lib_event/libevent.h:1029-1430 | after any run of calls on any number of signals and slots each pair's books are those of its own operations, and agree exactly when none of them removed a function twice |
| SigSlot.Slot.UnregisterOne | ext_libs/lib_event/libevent.h:1040-1054 | one less, the entry dropped at zero |
| SigSlot.Slot.UnregisterMany | ext_libs/lib_event/libevent.h:1062-1080 | n less, the entry dropped when none are left |
| SigSlot.Slot.Disconnect | ext_libs/lib_event/libevent.h:1086-1094 | both books lose the pair, no other pair changes |
| SigSlot.Slot.DisconnectAll | ext_libs/lib_event/libevent.h:1099-1119 | the same for every signal of the slot |
| SigSlot.Signal.Connect | ext_libs/lib_event/libevent.h:1308-1315 | one more in both books |
| SigSlot.Signal.DisconnectFn | ext_libs/lib_event/libevent.h:1340-1379 | exactly the connections with other functions remain, in order, and the count drops by one if any matched |
| SigSlot.Signal.DisconnectSlot | ext_libs/lib_event/libevent.h:1386-1403 | the whole entry goes, the count drops by its size |
| SigSlot.Signal.DisconnectAll | ext_libs/lib_event/libevent.h:1408-1430 | the same for every slot, and the callables go |
| Ini.LinesUnlines | ext_libs/ini_parser/ini_parser.h:548-551 | getline undoes writing line by line |
| Ini.DigitsRoundTrip | ext_libs/ini_parser/ini_parser.h:754-760 | reading the printed digits of a number gives the number |
| Ini.IntRoundTrip | ext_libs/ini_parser/ini_parser.h:754-760 | every 32-bit int survives printing and stoi |
| Ini.StringSurvivesIff | ext_libs/ini_parser/ini_parser.h:783-860 | a string comes back exactly when it survives: no reserved word or number, not escaped inside its quotes, not quoted-looking by itself |
| Ini.SurvivesIff | ext_libs/ini_parser/ini_parser.h:727-819 | the same for all values; null, booleans and ints always come back |
| Ini.ParseIntValue | ext_libs/ini_parser/ini_parser.h:754-760 | which number: the digits with their sign |
| Ini.DigitsValueSnoc | ext_libs/ini_parser/ini_parser.h:754-760 | in decimal |
| Ini.EscapeConcat | ext_libs/ini_parser/ini_parser.h:841-860 | escaping goes character by character |
| Ini.EscapeOne | ext_libs/ini_parser/ini_parser.h:841-860 | and this is what it makes of each |
| IniReading.TrimAt | ext_libs/ini_parser/ini_parser.h:661-673 | trimming cuts off all white space at both ends and nothing else |
| IniReading.ClassifyIff | ext_libs/ini_parser/ini_parser.h:676-724 | which lines are skipped, which are headers of which section, and which are entries with which key and value |
| IniReading.ParseValueIff | ext_libs/ini_parser/ini_parser.h:727-780 | what each text is read as: the nine words in any letters, numbers with a point, whole numbers, and else itself |
| IniReading.WordLineLoads | ext_libs/ini_parser/ini_parser.h:523-595 | a file with the line key = word loads as that key with what the word means |
| IniReading.LastLine | ext_libs/ini_parser/ini_parser.h:548-551 | the last line counts even without a line feed |
| IniReading.LoadNext | ext_libs/ini_parser/ini_parser.h:546-594 | what one more line does: a new or replaced entry under the section in force, a parse error with its number, or nothing |
| IniReading.LoadStopped | ext_libs/ini_parser/ini_parser.h:546-594 | nothing is read after a bad line |
| Ini.StaysTextIff | ext_libs/ini_parser/ini_parser.h:727-769 | a text stays a text exactly when it is empty, or neither a reserved word nor a complete number |
| Ini.ParseIntIff | ext_libs/ini_parser/ini_parser.h:754-760 | stoi takes the whole text exactly when it is white space, an optional sign and digits of a 32-bit number |
| Ini.DoubleSurvivesIff | ext_libs/ini_parser/ini_parser.h:727-819 | a double comes back exactly when its print has a point and is read as that double |
| Ini.PlainWordSurvives | ext_libs/ini_parser/ini_parser.h:727-769 | a plain word that is not reserved always comes back |
| Ini.OnlyReadable | ext_libs/ini_parser/ini_parser.h:682-724 | whatever stands in a line, only readable names and sections come of it |
| Ini.KeyLineReads | ext_libs/ini_parser/ini_parser.h:701-724 | a written entry is read as that key and value |
| Ini.HeaderLineReads | ext_libs/ini_parser/ini_parser.h:682-698 | a written section header is read as that section |
| IniFile.LoadFailsAtFirstBad | ext_libs/ini_parser/ini_parser.h:546-594 | loading fails exactly when some line is bad, at the first one, with its number and text |
| IniFile.PreserveMeaning | ext_libs/ini_parser/ini_parser.h:531-583 | PRESERVE succeeds when OVERWRITE does and gives its result with the old entries winning |
| IniFile.SavedText | ext_libs/ini_parser/ini_parser.h:597-657 | the text saved for one entry at the top and one under a section |
| IniFile.SaveThenLoad | ext_libs/ini_parser/ini_parser.h:523-657 | what is saved loads again, each value as what it reads back as, in whatever order it was written |
| IniRoundTrip.ReturnsStorable | ext_libs/ini_parser/ini_parser.h:597-724 | a map comes back only if each key splits into a section and a name that lines can give and no entry is written as a line that reads as a header |
| IniRoundTrip.RoundTripIff | ext_libs/ini_parser/ini_parser.h:523-657 | for every map, whatever its keys: load(save(m)) equals m exactly then and when every value survives |
| IniFile.RoundTripNeedsReadable | ext_libs/ini_parser/ini_parser.h:546-590 | no file at all loads into entries whose key is not a readable name under a readable section |
| IniParser.TrimText | ext_libs/ini_parser/ini_parser.h:661-673 | the two loops strip white space from both ends |
| IniParser.QuotingNeeded | ext_libs/ini_parser/ini_parser.h:822-838 | true exactly for empty strings and those with white space or one of # ; = : [ ] |
| IniParser.EscapeText | ext_libs/ini_parser/ini_parser.h:841-860 | the loop is the escape, character by character |
| IniParser.LowerText | ext_libs/ini_parser/ini_parser.h:772-780 | the loop lowers every character |
| IniParser.KeyValueText | ext_libs/ini_parser/ini_parser.h:783-819 | the line written for each kind of value |
| IniParser.Parser.LoadFrom | ext_libs/ini_parser/ini_parser.h:523-595 | the loop with its section state loads what the specification says, or stops with an error and the entries read so far |
| IniParser.Parser.Save | ext_libs/ini_parser/ini_parser.h:597-657 | the file holds every entry once, globals first, under its section |
| Polygon.IsPointInside | ext_libs/geomath/Geometric.h:116-139 | the loop computes the parity of crossed edges for 3 to 1024 vertices, and false otherwise |
| Polygon.RotationInvariant | ext_libs/geomath/Geometric.h:116-139 | rotating the vertex list does not change the answer |
| Polygon.ReversalInvariant | ext_libs/geomath/Geometric.h:116-139 | neither does reversing it |
| Polygon.CrossesSymmetric | ext_libs/geomath/Geometric.h:129-130 | an edge is crossed or not, whichever end it is seen from |
| Polygon.ChordSplits | ext_libs/geomath/Geometric.h:116-139 | a chord splits the polygon: inside the whole means inside exactly one part |
| Polygon.OutsideTheBoundingBox | ext_libs/geomath/Geometric.h:116-139 | false for every point left of, right of, above or below all vertices |
| Polygon.RectangleExact | ext_libs/geomath/Geometric.h:116-139 | a rectangle contains exactly its interior and its left and bottom sides |
| PolygonConvex.CrossesWithin | ext_libs/geomath/Geometric.h:129-130 | an edge is crossed exactly when it changes sides of the ray's height and the point is on its left, or on its right if it leads down |
| PolygonConvex.TriangleExact | ext_libs/geomath/Geometric.h:116-139 | a counter-clockwise triangle contains exactly its interior and the left and lower part of its border |
| PolygonConvex.ConvexExact | ext_libs/geomath/Geometric.h:116-139 | so does every convex polygon: inside means within each of its edges |
| PolygonConvex.ConvexClockwise | ext_libs/geomath/Geometric.h:116-139 | the same points when its vertices are listed clockwise |
| PolygonConvex.NeighboursShareNoPoint | ext_libs/geomath/Geometric.h:116-139 | convex polygons on either side of an edge share no point, not even on it |

## Left out

* UART, I2C, GPIO, termios, inotify, POSIX timers and signals: foreign calls, represented where needed by their answers.
* Exceptions that leave `start_record` and `start_replay` when a file cannot be opened: modelled as the boolean those functions test.
* Two concurrent `stop()` calls on one receiver: the controller serialises commands.
* The NMEA parser object inside a receiver: created and destroyed together with the UBX parser, which stands for both in `Receiver`.
* What becomes of the process when an exception leaves the worker loop, beyond the record file it leaves behind, and `poll()` interrupted by a signal: the worker's turns know only the error return.
* The NMEA parser in the worker loop: it is fed the same buffers as the UBX parser.
* Wrap-around of 64-bit counters, of the 32-bit connection counts and of the int casts in `available()` and the queue's wait.
* Fields of a sentence beyond its characters (a function of them), and the decoders, databases and frame builders above the two parsers.
* User data, names and error handlers of the fd manager, and its `POLLIN` and `POLLERR` bits other than as readable, error and other.
* Rounding of doubles: the polygon test uses exact reals, the queue exact nanoseconds; what stod and a stream make of an INI double are functions the theorems take as given.
* INI arrays and objects, typed access and `merge`.
- UbxFraming.RunBounded: assumes that the limit is not changed while a header is in, as a lowered limit does not stop a payload already being collected.
- IniRoundTrip.RoundTripIff: streams are taken to print doubles with digits, signs, a point and an exponent only.
- IniFile.SaveThenLoad: says nothing of maps that are not storable, which never come back (`IniRoundTrip.ReturnsStorable`); and streams are taken to print doubles in that way.
- FilePort.Port.ReadLocked: excludes bytes asked of an empty looping file, on which the source never returns (`FilePort.ReadReturnsIff`).
- FilePort.Port.ReadBytes: the same exclusion, when the port is open.
- Controller.PortBinding: takes each receiver command as one step, which `Receiver.StopAppearsAtomic` justifies.
- RecordReplay.Replay: the port's answers are taken before the loop runs over them, as nobody else reads the port.
- EventQueue.Queue.PollFirst: the heap inside `std::priority_queue` is a multiset with some least element on top.
