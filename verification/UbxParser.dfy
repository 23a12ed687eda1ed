// The UBX receive path as the source runs it: parser, dispatcher, recorder.
module UbxParser {
  import opened Basics
  import opened Bytes
  import opened UbxProtocol
  import opened UbxFraming
  import FilePort

  // What the raw callbacks of a run leave in the record file: every frame, or,
  // when the last of them threw, all frames before it and a proper part of it.
  predicate Written(before: seq<byte>, after: seq<byte>, frames: seq<Frame>, thrown: bool) {
    if !thrown then after == before + Recording(frames)
    else
      && frames != []
      && before + Recording(frames[..|frames| - 1]) <= after
      && after < before + Recording(frames)
  }

  lemma WrittenTwice(before: seq<byte>, middle: seq<byte>, after: seq<byte>,
                     frames: seq<Frame>, more: seq<Frame>, thrown: bool)
    requires Written(before, middle, frames, false) && Written(middle, after, more, thrown)
    ensures Written(before, after, frames + more, thrown)
  {
    hide Recording;
    RecordingAppend(frames, more);
    Assoc(before, Recording(frames), Recording(more));
    if thrown {
      var all, init := frames + more, more[..|more| - 1];
      assert all[..|all| - 1] == frames + init;
      RecordingAppend(frames, init);
      Assoc(before, Recording(frames), Recording(init));
    }
  }

  // The record callback with the file channel it captured.
  class Recorder {
    const port: FilePort.Port

    constructor (port: FilePort.Port)
      ensures this.port == port
    {
      this.port := port;
    }

    // Whether a write may throw.
    ghost predicate MayThrow()
      reads port
    {
      !port.isOpen || !port.writable || FilePort.Fails in port.script
    }

    // Rebuilds the frame byte by byte from the dispatched fields.
    method OnRawMessage(f: Frame) returns (thrown: bool)
      modifies port`file, port`script
      ensures Written(old(port.file), port.file, [f], thrown)
      ensures thrown || MayThrow() ==> old(MayThrow())
      ensures !port.isOpen || !port.writable ==> thrown && port.file == old(port.file)
    {
      var bytes := Serialised(f);
      NothingRecorded(f);
      thrown := port.WriteBytes(bytes);
      hide Recording;
      if thrown {
        ghost var k :| 0 <= k < |bytes| && port.file == old(port.file) + bytes[..k];
        ProperPart(old(port.file), bytes, k);
      }
    }

    method Serialised(f: Frame) returns (bytes: seq<byte>)
      ensures bytes == Wire(f)
    {
      hide LowByte, HighByte;
      bytes := [];
      bytes := bytes + [SYNC_1];
      bytes := bytes + [SYNC_2];
      bytes := bytes + [f.msgClass];
      bytes := bytes + [f.msgId];
      bytes := bytes + [LowByte(f.payloadLength)];
      bytes := bytes + [HighByte(f.payloadLength)];
      bytes := bytes + f.payload;
      bytes := bytes + [f.ckA];
      bytes := bytes + [f.ckB];
    }
  }

  lemma NothingRecorded(f: Frame)
    ensures Recording([]) == [] && Recording([f][..0]) == [] && Recording([f]) == Wire(f) != []
  {
    assert Wire(f) + [] == Wire(f);
  }

  lemma ProperPart(before: seq<byte>, bytes: seq<byte>, k: nat)
    requires k < |bytes|
    ensures before + [] <= before + bytes[..k] < before + bytes
  {
  }

  function Registered(decoders: set<(byte, byte)>, frames: seq<Frame>): seq<Frame> {
    if frames == [] then []
    else
      (if (frames[0].msgClass, frames[0].msgId) in decoders then [frames[0]] else [])
      + Registered(decoders, frames[1..])
  }

  lemma {:induction false} RegisteredAppend(decoders: set<(byte, byte)>, frames: seq<Frame>, more: seq<Frame>)
    ensures Registered(decoders, frames + more) == Registered(decoders, frames) + Registered(decoders, more)
  {
    if frames == [] {
      assert frames + more == more;
    } else {
      RegisteredAppend(decoders, frames[1..], more);
      assert (frames + more)[1..] == frames[1..] + more;
      var head := if (frames[0].msgClass, frames[0].msgId) in decoders then [frames[0]] else [];
      Assoc(head, Registered(decoders, frames[1..]), Registered(decoders, more));
    }
  }

  // The decoded frames are exactly those dispatched with a registered class and
  // id, each as often as it came and in the order they came.
  lemma {:induction false} RegisteredExactly(decoders: set<(byte, byte)>, frames: seq<Frame>) returns (at: seq<nat>)
    ensures PickedFrom(Registered(decoders, frames), frames, at)
    ensures forall i :: 0 <= i < |frames| ==> (i in at <==> (frames[i].msgClass, frames[i].msgId) in decoders)
  {
    if frames == [] {
      at := [];
    } else {
      var n := |frames| - 1;
      var init, last := frames[..n], frames[n];
      at := RegisteredExactly(decoders, init);
      RegisteredAppend(decoders, init, [last]);
      assert frames == init + [last];
      RegisteredOne(decoders, last);
      PickedNext(Registered(decoders, init), init, at, last);
      hide Registered, PickedFrom;
      if (last.msgClass, last.msgId) in decoders {
        at := at + [n];
      }
    }
  }

  lemma RegisteredOne(decoders: set<(byte, byte)>, f: Frame)
    ensures Registered(decoders, [f]) == if (f.msgClass, f.msgId) in decoders then [f] else []
  {
    assert [f][1..] == [];
  }

  lemma NothingReported(decoders: set<(byte, byte)>)
    ensures Recording([]) == [] && Registered(decoders, []) == []
  {
  }

  // Decoder and error callbacks are represented by the log of their calls.
  class Dispatcher {
    const decoders: set<(byte, byte)>
    var recorder: Recorder?
    var decoded: seq<Frame>
    var errors: seq<Reject>

    constructor (decoders: set<(byte, byte)>)
      ensures this.decoders == decoders && recorder == null && decoded == [] && errors == []
    {
      this.decoders := decoders;
      recorder := null;
      decoded, errors := [], [];
    }

    ghost function File(): seq<byte>
      reads Footprint()
    {
      if recorder == null then [] else recorder.port.file
    }

    // The file channel of the record callback comes with the dispatcher.
    ghost function Footprint(): set<object>
      reads this
    {
      {this} + (if recorder == null then {} else {recorder.port})
    }

    ghost predicate MayThrow()
      reads Footprint()
    {
      recorder != null && recorder.MayThrow()
    }

    method SetRawMessageCallback(r: Recorder?)
      modifies this
      ensures recorder == r && decoded == old(decoded) && errors == old(errors)
    {
      recorder := r;
    }

    // The raw callback sees every frame, whether or not a decoder took it.
    method Dispatch(f: Frame) returns (thrown: bool)
      modifies Footprint()
      ensures recorder == old(recorder) && errors == old(errors)
      ensures decoded == old(decoded) + if (f.msgClass, f.msgId) in decoders then [f] else []
      ensures if recorder == null then !thrown else Written(old(File()), File(), [f], thrown)
      ensures thrown || MayThrow() ==> old(MayThrow())
    {
      if (f.msgClass, f.msgId) in decoders {
        decoded := decoded + [f];
      }
      thrown := false;
      if recorder != null {
        thrown := recorder.OnRawMessage(f);
      }
    }

    method DispatchError(r: Reject)
      modifies this
      ensures recorder == old(recorder) && decoded == old(decoded) && errors == old(errors) + [r]
    {
      errors := errors + [r];
    }
  }

  lemma CollectShort(limit: nat, body: seq<byte>)
    requires |body| < 4
    ensures Collect(limit, body) == (InFrame(body), Silent)
  {
  }

  function Verdict(h: seq<byte>, payload: seq<byte>, a: byte, b: byte): Output
    requires |h| == 4
  {
    if Fletcher(h + payload) == Checksum(a, b)
    then Dispatch(Frame(h[0], h[1], Le16(h[2], h[3]), payload, a, b))
    else Discard(Reject(ChecksumMismatch, h[0], h[1]))
  }

  // What the specification does with the bytes after a header h.
  lemma CollectAfterHeader(limit: nat, h: seq<byte>, payload: seq<byte>, a: byte, b: byte)
    requires |h| == 4
    ensures var n := Le16(h[2], h[3]);
            && (|payload| < n ==> Collect(limit, (h + payload) + [b]) == (InFrame(h + (payload + [b])), Silent))
            && (|payload| == n ==> Collect(limit, (h + payload) + [b]) == (InFrame(h + payload + [b]), Silent))
            && (|payload| == n ==> Collect(limit, (h + payload + [a]) + [b]) == (Hunting, Verdict(h, payload, a, b)))
  {
    hide Fletcher, Le16;
    var n := Le16(h[2], h[3]);
    assert (h + payload) + [b] == h + (payload + [b]);
    if |payload| == n {
      var full := (h + payload + [a]) + [b];
      assert full[..4 + n] == h + payload;
      assert full[4..4 + n] == payload;
    }
  }

  // The run over one byte more, and what it adds to the logs.
  lemma OneMore(limit: nat, p: Phase, data: seq<byte>, i: nat, decoders: set<(byte, byte)>,
                decoded: seq<Frame>, errors: seq<Reject>)
    requires i < |data|
    ensures var r := Run(limit, p, data[..i]);
            var u := StepResult(limit, r.phase, data[i]);
            var w := Run(limit, p, data[..i + 1]);
            && w.phase == u.phase && w.frames == r.frames + u.frames && w.rejects == r.rejects + u.rejects
            && decoded + Registered(decoders, w.frames)
               == decoded + Registered(decoders, r.frames) + Registered(decoders, u.frames)
            && errors + w.rejects == errors + r.rejects + u.rejects
  {
    hide Run, StepResult, Registered;
    assert data[..i + 1] == data[..i] + [data[i]];
    RunSnoc(limit, p, data[..i], data[i]);
    var r := Run(limit, p, data[..i]);
    var u := StepResult(limit, r.phase, data[i]);
    RegisteredAppend(decoders, r.frames, u.frames);
    Assoc(decoded, Registered(decoders, r.frames), Registered(decoders, u.frames));
    Assoc(errors, r.rejects, u.rejects);
  }

  datatype ParseState =
    | WaitSync1 | WaitSync2 | WaitClass | WaitId | WaitLenLo | WaitLenHi
    | AccumulatePayload | WaitCkA | WaitCkB

  class Parser {
    const dispatcher: Dispatcher
    var state: ParseState
    var msgClass: byte
    var msgId: byte
    var payloadLength: nat
    var payloadBuffer: seq<byte>
    var receivedCkA: byte
    var receivedCkB: byte
    var lenLo: byte
    var lenHi: byte
    var framesDecoded: nat
    var framesDiscarded: nat
    var maxPayloadLen: nat

    ghost predicate Valid()
      reads this
    {
      && 1 <= maxPayloadLen < 65536
      && match state
         case AccumulatePayload => payloadLength == Le16(lenLo, lenHi) && |payloadBuffer| < payloadLength
         case WaitCkA => payloadLength == Le16(lenLo, lenHi) == |payloadBuffer|
         case WaitCkB => payloadLength == Le16(lenLo, lenHi) == |payloadBuffer|
         case _ => payloadBuffer == []
    }

    // The phase of the specification machine these fields stand for.
    ghost function View(): Phase
      reads this
    {
      match state
      case WaitSync1 => Hunting
      case WaitSync2 => HalfSync
      case WaitClass => InFrame([])
      case WaitId => InFrame([msgClass])
      case WaitLenLo => InFrame([msgClass, msgId])
      case WaitLenHi => InFrame([msgClass, msgId, lenLo])
      case AccumulatePayload => InFrame([msgClass, msgId, lenLo, lenHi] + payloadBuffer)
      case WaitCkA => InFrame([msgClass, msgId, lenLo, lenHi] + payloadBuffer)
      case WaitCkB => InFrame([msgClass, msgId, lenLo, lenHi] + payloadBuffer + [receivedCkA])
    }

    constructor (decoders: set<(byte, byte)>)
      ensures Valid() && View() == Hunting && maxPayloadLen == 4096
      ensures framesDecoded == 0 && framesDiscarded == 0
      ensures fresh(dispatcher) && dispatcher.decoders == decoders
      ensures dispatcher.recorder == null && dispatcher.decoded == [] && dispatcher.errors == []
    {
      dispatcher := new Dispatcher(decoders);
      state := WaitSync1;
      msgClass, msgId, payloadLength, payloadBuffer := 0, 0, 0, [];
      receivedCkA, receivedCkB, lenLo, lenHi := 0, 0, 0, 0;
      framesDecoded, framesDiscarded := 0, 0;
      maxPayloadLen := 4096;
    }

    // A limit of zero is raised to one.  A frame whose header has already been
    // accepted is not reconsidered.
    method SetMaxPayloadLength(maxLen: nat)
      requires Valid() && maxLen < 65536
      modifies this`maxPayloadLen
      ensures Valid() && View() == old(View())
      ensures maxPayloadLen == if maxLen == 0 then 1 else maxLen
    {
      maxPayloadLen := if maxLen == 0 then 1 else maxLen;
    }

    method ResetContext()
      modifies this
      ensures state == WaitSync1 && payloadBuffer == []
      ensures msgClass == msgId == payloadLength == receivedCkA == receivedCkB == lenLo == lenHi == 0
      ensures framesDecoded == old(framesDecoded) && framesDiscarded == old(framesDiscarded)
      ensures maxPayloadLen == old(maxPayloadLen)
    {
      state := WaitSync1;
      msgClass, msgId, payloadLength, payloadBuffer := 0, 0, 0, [];
      receivedCkA, receivedCkB, lenLo, lenHi := 0, 0, 0, 0;
    }

    method Reset()
      requires Valid()
      modifies this
      ensures Valid() && View() == Hunting
      ensures framesDecoded == 0 && framesDiscarded == 0 && maxPayloadLen == old(maxPayloadLen)
    {
      ResetContext();
      framesDecoded, framesDiscarded := 0, 0;
    }

    // The parser's own checksum: four header bytes, then the payload.
    method VerifyChecksum() returns (ok: bool)
      requires payloadLength == |payloadBuffer|
      ensures ok <==> Fletcher([msgClass, msgId, lenLo, lenHi] + payloadBuffer) == Checksum(receivedCkA, receivedCkB)
    {
      var header := [msgClass, msgId, lenLo, lenHi];
      assert [] + header == header;
      var ckA, ckB := Accumulate([], 0, 0, header);
      ckA, ckB := Accumulate(header, ckA, ckB, payloadBuffer);
      ok := ckA == receivedCkA && ckB == receivedCkB;
    }

    static method Accumulate(ghost before: seq<byte>, startA: byte, startB: byte, data: seq<byte>)
      returns (ckA: byte, ckB: byte)
      requires Checksum(startA, startB) == Fletcher(before)
      ensures Checksum(ckA, ckB) == Fletcher(before + data)
    {
      hide Fletcher;
      ckA, ckB := startA, startB;
      assert before + data[..0] == before;
      for i := 0 to |data|
        invariant Checksum(ckA, ckB) == Fletcher(before + data[..i])
      {
        assert before + data[..i + 1] == (before + data[..i]) + [data[i]];
        FletcherSnoc(before + data[..i], data[i]);
        ckA := (ckA + data[i]) % 256;
        ckB := (ckB + ckA) % 256;
      }
      assert data[..|data|] == data;
    }

    // Counters, callbacks and record file after the outputs of a run.
    twostate predicate Reported(frames: seq<Frame>, rejects: seq<Reject>, thrown: bool)
      reads this, dispatcher.Footprint()
    {
      && framesDecoded == old(framesDecoded) + |frames|
      && framesDiscarded == old(framesDiscarded) + |rejects|
      && maxPayloadLen == old(maxPayloadLen)
      && dispatcher.recorder == old(dispatcher.recorder)
      && dispatcher.decoded == old(dispatcher.decoded) + Registered(dispatcher.decoders, frames)
      && dispatcher.errors == old(dispatcher.errors) + rejects
      && (if dispatcher.recorder == null then !thrown
          else Written(old(dispatcher.File()), dispatcher.File(), frames, thrown))
      && (thrown || dispatcher.MayThrow() ==> old(dispatcher.MayThrow()))
    }

    method OnFrameComplete() returns (thrown: bool)
      modifies this, dispatcher.Footprint()
      ensures state == WaitSync1 && payloadBuffer == []
      ensures var f := old(Frame(msgClass, msgId, payloadLength, payloadBuffer, receivedCkA, receivedCkB));
              Reported([f], [], thrown)
    {
      var frame := Frame(msgClass, msgId, payloadLength, payloadBuffer, receivedCkA, receivedCkB);
      ResetContext();
      framesDecoded := framesDecoded + 1;
      RegisteredOne(dispatcher.decoders, frame);
      thrown := dispatcher.Dispatch(frame);
    }

    method DiscardFrame(code: ErrorCode)
      modifies this, dispatcher
      ensures state == WaitSync1 && payloadBuffer == []
      ensures Reported([], [old(Reject(code, msgClass, msgId))], false)
    {
      var info := Reject(code, msgClass, msgId);
      framesDiscarded := framesDiscarded + 1;
      ResetContext();
      dispatcher.DispatchError(info);
    }

    // The wait_len_hi case: the length is known and checked against the limit.
    method ProcessLengthHigh(b: byte)
      requires Valid() && state == WaitLenHi
      modifies this, dispatcher
      ensures Valid()
      ensures var r := StepResult(old(maxPayloadLen), old(View()), b);
              View() == r.phase && Reported(r.frames, r.rejects, false)
    {
      NothingReported(dispatcher.decoders);
      hide Le16, Fletcher, Recording, Registered;
      assert [msgClass, msgId, lenLo] + [b] == [msgClass, msgId, lenLo, b];
      lenHi := b;
      var len := Le16(lenLo, lenHi);
      payloadLength := len;
      if len > maxPayloadLen {
        DiscardFrame(PayloadTooLarge);
      } else if len == 0 {
        state := WaitCkA;
      } else {
        payloadBuffer := [];
        state := AccumulatePayload;
      }
    }

    // The wait_ck_b case: the frame is complete and judged.
    method ProcessChecksumB(b: byte) returns (thrown: bool)
      requires Valid() && state == WaitCkB
      modifies this, dispatcher.Footprint()
      ensures Valid()
      ensures var r := StepResult(old(maxPayloadLen), old(View()), b);
              View() == r.phase && Reported(r.frames, r.rejects, thrown)
    {
      CollectAfterHeader(maxPayloadLen, [msgClass, msgId, lenLo, lenHi], payloadBuffer, receivedCkA, b);
      hide Le16, Fletcher, Recording, Registered, Collect, Reported, Dispatcher.MayThrow, Dispatcher.File;
      thrown := Judge(b);
    }

    method Judge(b: byte) returns (thrown: bool)
      requires Valid() && state == WaitCkB
      modifies this, dispatcher.Footprint()
      ensures Valid() && state == WaitSync1
      ensures var o := Verdict(old([msgClass, msgId, lenLo, lenHi]), old(payloadBuffer), old(receivedCkA), b);
              Reported(if o.Dispatch? then [o.frame] else [], if o.Discard? then [o.reject] else [], thrown)
    {
      hide Le16, Fletcher, Recording, Registered, Written, Dispatcher.MayThrow, Dispatcher.File;
      receivedCkB := b;
      var ok := VerifyChecksum();
      thrown := false;
      if !ok {
        DiscardFrame(ChecksumMismatch);
      } else {
        thrown := OnFrameComplete();
      }
    }

    // The cases before the length is known: no output.
    method ProcessHeaderByte(b: byte)
      requires Valid() && state in {WaitSync1, WaitSync2, WaitClass, WaitId, WaitLenLo}
      modifies this`state, this`msgClass, this`msgId, this`lenLo
      ensures Valid()
      ensures StepResult(maxPayloadLen, old(View()), b) == Result(View(), [], [])
    {
      hide Collect;
      match state {
        case WaitSync1 =>
          if b == SYNC_1 {
            state := WaitSync2;
          }
        case WaitSync2 =>
          if b == SYNC_2 {
            state := WaitClass;
          } else if b == SYNC_1 {
          } else {
            state := WaitSync1;
          }
        case WaitClass =>
          CollectShort(maxPayloadLen, [b]);
          assert [] + [b] == [b];
          msgClass := b;
          state := WaitId;
        case WaitId =>
          CollectShort(maxPayloadLen, [msgClass, b]);
          assert [msgClass] + [b] == [msgClass, b];
          msgId := b;
          state := WaitLenLo;
        case WaitLenLo =>
          CollectShort(maxPayloadLen, [msgClass, msgId, b]);
          assert [msgClass, msgId] + [b] == [msgClass, msgId, b];
          lenLo := b;
          state := WaitLenHi;
      }
    }

    // The accumulate_payload and wait_ck_a cases: no output.
    method ProcessPayloadByte(b: byte)
      requires Valid() && state in {AccumulatePayload, WaitCkA}
      modifies this`state, this`payloadBuffer, this`receivedCkA
      ensures Valid()
      ensures StepResult(maxPayloadLen, old(View()), b) == Result(View(), [], [])
    {
      CollectAfterHeader(maxPayloadLen, [msgClass, msgId, lenLo, lenHi], payloadBuffer, receivedCkA, b);
      hide Collect, Le16;
      if state == AccumulatePayload {
        payloadBuffer := payloadBuffer + [b];
        if |payloadBuffer| == payloadLength {
          state := WaitCkA;
        }
      } else {
        receivedCkA := b;
        state := WaitCkB;
      }
    }

    // One byte through the nine states is one step of the specification.
    method ProcessByte(b: byte) returns (thrown: bool)
      requires Valid()
      modifies this, dispatcher.Footprint()
      ensures Valid()
      ensures var r := StepResult(old(maxPayloadLen), old(View()), b);
              View() == r.phase && Reported(r.frames, r.rejects, thrown)
    {
      NothingReported(dispatcher.decoders);
      hide StepResult, View, Recording, Registered;
      thrown := false;
      match state {
        case WaitLenHi => ProcessLengthHigh(b);
        case AccumulatePayload => ProcessPayloadByte(b);
        case WaitCkA => ProcessPayloadByte(b);
        case WaitCkB => thrown := ProcessChecksumB(b);
        case _ => ProcessHeaderByte(b);
      }
    }

    // Feeding a buffer is running the specification over it, up to the byte at
    // which the record callback throws, if it does.
    method Feed(data: seq<byte>) returns (thrown: bool, ghost n: nat)
      requires Valid()
      modifies this, dispatcher.Footprint()
      ensures Valid() && n <= |data| && (!thrown ==> n == |data|)
      ensures var r := Run(old(maxPayloadLen), old(View()), data[..n]);
              View() == r.phase && Reported(r.frames, r.rejects, thrown)
    {
      hide StepResult, Recording, Registered, View, Valid, Dispatcher.MayThrow, Dispatcher.File;
      ghost var limit, p, decoders := maxPayloadLen, View(), dispatcher.decoders;
      ghost var decoded, errors, file := dispatcher.decoded, dispatcher.errors, dispatcher.File();
      NothingReported(decoders);
      for i := 0 to |data|
        invariant Valid()
        invariant var r := Run(limit, p, data[..i]); View() == r.phase && Reported(r.frames, r.rejects, false)
      {
        hide Run, Written, Then;
        ghost var r := Run(limit, p, data[..i]);
        ghost var u := StepResult(limit, r.phase, data[i]);
        ghost var middle := dispatcher.File();
        thrown := ProcessByte(data[i]);
        OneMore(limit, p, data, i, decoders, decoded, errors);
        if dispatcher.recorder != null {
          WrittenTwice(file, middle, dispatcher.File(), r.frames, u.frames, thrown);
        }
        if thrown {
          return true, i + 1;
        }
      }
      assert data[..|data|] == data;
      return false, |data|;
    }
  }
}
