// The UBX framing language: what the nine-state parser means.
//
// The specification machine keeps only the bytes collected since the sync pair;
// the parser of UbxParser.dfy, with its nine states, header fields and payload
// buffer, is proved to follow it.
module UbxFraming {
  import opened Bytes
  import opened UbxProtocol

  datatype Frame = Frame(msgClass: byte, msgId: byte, payloadLength: nat, payload: seq<byte>, ckA: byte, ckB: byte)

  datatype ErrorCode = PayloadTooLarge | ChecksumMismatch

  datatype Reject = Reject(code: ErrorCode, msgClass: byte, msgId: byte)

  // The bytes the checksum covers.
  function Covered(f: Frame): seq<byte> {
    Header(f.msgClass, f.msgId, f.payloadLength) + f.payload
  }

  // The bytes after the sync pair.
  function Inner(f: Frame): seq<byte> {
    Covered(f) + [f.ckA, f.ckB]
  }

  // The frame as it stands on the wire and in a record file.
  function Wire(f: Frame): seq<byte> {
    [SYNC_1, SYNC_2] + Inner(f)
  }

  // A frame whose length field and checksum are right.
  predicate Good(f: Frame) {
    && f.payloadLength == |f.payload| < 65536
    && Checksum(f.ckA, f.ckB) == Fletcher(Covered(f))
  }

  predicate GoodWithin(limit: nat, f: Frame) {
    Good(f) && f.payloadLength <= limit
  }

  // A good frame prints as the frame the builder assembles, and every built
  // frame is the print of a good one.
  lemma GoodFramesAreBuiltFrames(f: Frame, c: byte, i: byte, p: seq<byte>)
    ensures Good(f) ==> Wire(f) == Built(f.msgClass, f.msgId, f.payload)
    ensures |p| < 65536 ==>
              var k := Fletcher(Header(c, i, |p|) + p);
              Good(Frame(c, i, |p|, p, k.a, k.b)) && Wire(Frame(c, i, |p|, p, k.a, k.b)) == Built(c, i, p)
  {
    if |p| < 65536 {
      var k := Fletcher(Header(c, i, |p|) + p);
      assert Covered(Frame(c, i, |p|, p, k.a, k.b)) == Header(c, i, |p|) + p;
      WireIsBuilt(Frame(c, i, |p|, p, k.a, k.b));
    }
    if Good(f) {
      WireIsBuilt(f);
    }
  }

  lemma WireIsBuilt(f: Frame)
    requires Good(f)
    ensures Wire(f) == Built(f.msgClass, f.msgId, f.payload)
  {
    var covered := Covered(f);
    assert [SYNC_1, SYNC_2] + (covered + [f.ckA, f.ckB]) == [SYNC_1, SYNC_2] + covered + [f.ckA, f.ckB];
  }

  // ----- The machine -------------------------------------------------------

  datatype Phase = Hunting | HalfSync | InFrame(body: seq<byte>)

  datatype Output = Silent | Dispatch(frame: Frame) | Discard(reject: Reject)

  function DeclaredLength(body: seq<byte>): nat
    requires |body| >= 4
  {
    Le16(body[2], body[3])
  }

  // The frame held by a complete body.
  function FrameOf(body: seq<byte>): Frame
    requires |body| >= 4 && |body| == DeclaredLength(body) + 6
  {
    var n := DeclaredLength(body);
    Frame(body[0], body[1], n, body[4..4 + n], body[4 + n], body[5 + n])
  }

  function Collect(limit: nat, body: seq<byte>): (Phase, Output) {
    if |body| < 4 then
      (InFrame(body), Silent)
    else
      var n := DeclaredLength(body);
      if |body| == 4 && n > limit then
        (Hunting, Discard(Reject(PayloadTooLarge, body[0], body[1])))
      else if |body| != n + 6 then
        (InFrame(body), Silent)
      else if Fletcher(body[..4 + n]) == Checksum(body[4 + n], body[5 + n]) then
        (Hunting, Dispatch(FrameOf(body)))
      else
        (Hunting, Discard(Reject(ChecksumMismatch, body[0], body[1])))
  }

  function Step(limit: nat, p: Phase, b: byte): (Phase, Output) {
    match p
    case Hunting => (if b == SYNC_1 then HalfSync else Hunting, Silent)
    case HalfSync => (if b == SYNC_2 then InFrame([]) else if b == SYNC_1 then HalfSync else Hunting, Silent)
    case InFrame(body) => Collect(limit, body + [b])
  }

  datatype Result = Result(phase: Phase, frames: seq<Frame>, rejects: seq<Reject>)

  // First one part of a run, then the rest.
  function Then(r: Result, u: Result): Result {
    Result(u.phase, r.frames + u.frames, r.rejects + u.rejects)
  }

  lemma ThenAssociative(r: Result, u: Result, v: Result)
    ensures Then(r, Then(u, v)) == Then(Then(r, u), v)
  {
    Assoc(r.frames, u.frames, v.frames);
    Assoc(r.rejects, u.rejects, v.rejects);
  }

  function StepResult(limit: nat, p: Phase, b: byte): Result {
    var (q, o) := Step(limit, p, b);
    Result(q, if o.Dispatch? then [o.frame] else [], if o.Discard? then [o.reject] else [])
  }

  function Run(limit: nat, p: Phase, s: seq<byte>): Result
    decreases |s|
  {
    if s == [] then Result(p, [], [])
    else
      var r := StepResult(limit, p, s[0]);
      Then(r, Run(limit, r.phase, s[1..]))
  }

  lemma {:induction false} RunConcat(limit: nat, p: Phase, s: seq<byte>, t: seq<byte>)
    ensures var r := Run(limit, p, s);
            Run(limit, p, s + t) == Then(r, Run(limit, r.phase, t))
    decreases |s|
  {
    hide StepResult;
    if s == [] {
      assert s + t == t;
    } else {
      hide Then;
      var r := StepResult(limit, p, s[0]);
      RunConcat(limit, r.phase, s[1..], t);
      assert (s + t)[1..] == s[1..] + t && (s + t)[0] == s[0];
      var u := Run(limit, r.phase, s[1..]);
      ThenAssociative(r, u, Run(limit, u.phase, t));
      assert Then(r, u).phase == u.phase by { ThenPhase(r, u); }
    }
  }

  lemma ThenPhase(r: Result, u: Result)
    ensures Then(r, u).phase == u.phase
  {
  }

  lemma RunSnoc(limit: nat, p: Phase, s: seq<byte>, b: byte)
    ensures Run(limit, p, s + [b]) == Then(Run(limit, p, s), StepResult(limit, Run(limit, p, s).phase, b))
  {
    RunConcat(limit, p, s, [b]);
    var q := Run(limit, p, s).phase;
    assert [b][1..] == [];
    var r := StepResult(limit, q, b);
    assert Run(limit, q, [b]) == Then(r, Result(r.phase, [], [])) == r;
  }

  // How the bytes are cut into pieces does not matter.
  function RunChunks(limit: nat, p: Phase, chunks: seq<seq<byte>>): Result
    decreases |chunks|
  {
    if chunks == [] then Result(p, [], [])
    else
      var r := Run(limit, p, chunks[0]);
      Then(r, RunChunks(limit, r.phase, chunks[1..]))
  }

  lemma {:induction false} ChunkingIrrelevant(limit: nat, p: Phase, chunks: seq<seq<byte>>)
    ensures RunChunks(limit, p, chunks) == Run(limit, p, Flatten(chunks))
    decreases |chunks|
  {
    if chunks == [] {
    } else {
      ChunkingIrrelevant(limit, Run(limit, p, chunks[0]).phase, chunks[1..]);
      RunConcat(limit, p, chunks[0], Flatten(chunks[1..]));
    }
  }

  // ----- Streams as frames with gaps ---------------------------------------

  // gaps[0] frame[0] gaps[1] frame[1] ... gaps[n]
  function Weave(gaps: seq<seq<byte>>, frames: seq<Frame>): seq<byte>
    requires |gaps| == |frames| + 1
  {
    if frames == [] then gaps[0]
    else gaps[0] + Wire(frames[0]) + Weave(gaps[1..], frames[1..])
  }

  // No sync pair anywhere inside; the last byte may still be the first sync byte.
  predicate Quiet(g: seq<byte>) {
    forall i :: 0 <= i < |g| - 1 ==> !(g[i] == SYNC_1 && g[i + 1] == SYNC_2)
  }

  predicate AllQuiet(gaps: seq<seq<byte>>) {
    forall i :: 0 <= i < |gaps| ==> Quiet(gaps[i])
  }

  predicate AllGood(limit: nat, frames: seq<Frame>) {
    forall i :: 0 <= i < |frames| ==> GoodWithin(limit, frames[i])
  }

  // The bytes a phase has already taken from the stream and not let go.
  function Pending(p: Phase): seq<byte> {
    match p
    case Hunting => []
    case HalfSync => [SYNC_1]
    case InFrame(body) => [SYNC_1, SYNC_2] + body
  }

  // Only what the machine can reach: a body stops short of a complete frame.
  predicate Open(p: Phase) {
    p.InFrame? && |p.body| >= 4 ==> |p.body| < DeclaredLength(p.body) + 6
  }

  lemma StepOpen(limit: nat, p: Phase, b: byte)
    requires Open(p)
    ensures Open(Step(limit, p, b).0)
  {
  }

  // A dispatched frame is good, within the limit when the limit held for its
  // header, and its print is exactly the bytes collected.
  lemma CollectDispatch(limit: nat, body: seq<byte>, b: byte)
    requires Open(InFrame(body))
    requires Collect(limit, body + [b]).1.Dispatch?
    ensures var f := Collect(limit, body + [b]).1.frame;
            Good(f) && Inner(f) == body + [b]
  {
    BodyShape(body + [b]);
  }

  lemma StepDispatch(limit: nat, p: Phase, b: byte)
    requires Open(p) && Step(limit, p, b).1.Dispatch?
    ensures var (q, o) := Step(limit, p, b);
            q == Hunting && Good(o.frame) && Pending(p) + [b] == Wire(o.frame)
  {
    CollectDispatch(limit, p.body, b);
    assert Pending(p) + [b] == [SYNC_1, SYNC_2] + (p.body + [b]);
  }

  lemma HeaderShape(body: seq<byte>)
    requires |body| >= 4
    ensures DeclaredLength(body) < 65536
    ensures Header(body[0], body[1], DeclaredLength(body)) == body[..4]
  {
    Le16Splits(body[2], body[3]);
    hide Le16, LowByte, HighByte;
    assert body[..4] == [body[0], body[1], body[2], body[3]];
  }

  lemma BodyShape(body: seq<byte>)
    requires |body| >= 4 && |body| == DeclaredLength(body) + 6
    ensures var f := FrameOf(body);
            Inner(f) == body && Covered(f) == body[..4 + f.payloadLength] && |f.payload| == f.payloadLength < 65536
  {
    hide Header, DeclaredLength;
    var n := DeclaredLength(body);
    var f := FrameOf(body);
    HeaderShape(body);
    assert body[..4] + body[4..4 + n] == body[..4 + n];
    assert body == body[..4 + n] + [f.ckA, f.ckB];
  }

  function Prepend(junk: seq<byte>, gaps: seq<seq<byte>>): seq<seq<byte>>
    requires gaps != []
  {
    [junk + gaps[0]] + gaps[1..]
  }

  lemma WeavePrepend(junk: seq<byte>, gaps: seq<seq<byte>>, frames: seq<Frame>)
    requires |gaps| == |frames| + 1
    ensures Weave(Prepend(junk, gaps), frames) == junk + Weave(gaps, frames)
  {
    if frames != [] {
      assert Prepend(junk, gaps)[1..] == gaps[1..];
    }
  }

  // The bytes a silent or discarding step lets go of.
  function Junk(limit: nat, p: Phase, b: byte): seq<byte> {
    var taken := Pending(p) + [b];
    taken[..Max(|taken| - |Pending(Step(limit, p, b).0)|)]
  }

  function Max(n: int): nat {
    if n < 0 then 0 else n
  }

  lemma StepLetsGo(limit: nat, p: Phase, b: byte)
    requires Open(p) && !Step(limit, p, b).1.Dispatch?
    ensures Pending(p) + [b] == Junk(limit, p, b) + Pending(Step(limit, p, b).0)
  {
    var q := Step(limit, p, b).0;
    match p
    case Hunting =>
    case HalfSync =>
    case InFrame(body) =>
      assert Pending(p) + [b] == [SYNC_1, SYNC_2] + (body + [b]);
  }

  // The input from phase p on, with what p had pending, is the dispatched
  // frames, printed, in order and without overlap, with other bytes between
  // them.  On a run that rejects nothing and does not stop inside a frame those
  // other bytes hold no sync pair.
  predicate Explains(limit: nat, p: Phase, s: seq<byte>, gaps: seq<seq<byte>>) {
    IsReading(Pending(p) + s, Run(limit, p, s), gaps)
  }

  predicate IsReading(input: seq<byte>, r: Result, gaps: seq<seq<byte>>) {
    && |gaps| == |r.frames| + 1
    && input == Weave(gaps, r.frames)
    && (forall i :: 0 <= i < |r.frames| ==> Good(r.frames[i]))
    && (r.rejects == [] && !r.phase.InFrame? ==> AllQuiet(gaps))
  }

  lemma RunCons(limit: nat, p: Phase, s: seq<byte>)
    requires s != []
    ensures var (q, o) := Step(limit, p, s[0]);
            Run(limit, p, s) == Emit(o, Run(limit, q, s[1..]))
  {
    var u := Run(limit, Step(limit, p, s[0]).0, s[1..]);
    assert [] + u.frames == u.frames && [] + u.rejects == u.rejects;
  }

  function Emit(o: Output, u: Result): Result {
    match o
    case Silent => u
    case Dispatch(f) => u.(frames := [f] + u.frames)
    case Discard(r) => u.(rejects := [r] + u.rejects)
  }

  lemma ReadDispatch(f: Frame, input: seq<byte>, u: Result, rest: seq<seq<byte>>)
    requires Good(f) && IsReading(input, u, rest)
    ensures IsReading(Wire(f) + input, Emit(Dispatch(f), u), [[]] + rest)
  {
    assert ([[]] + rest)[1..] == rest && ([f] + u.frames)[1..] == u.frames;
    assert [] + Wire(f) == Wire(f);
  }

  lemma ReadOther(o: Output, junk: seq<byte>, input: seq<byte>, u: Result, rest: seq<seq<byte>>)
    requires !o.Dispatch? && IsReading(input, u, rest)
    requires Emit(o, u).rejects == [] && !u.phase.InFrame? ==> AllQuiet(Prepend(junk, rest))
    ensures IsReading(junk + input, Emit(o, u), Prepend(junk, rest))
  {
    WeavePrepend(junk, rest, u.frames);
  }

  lemma ExplainDispatch(limit: nat, p: Phase, s: seq<byte>, rest: seq<seq<byte>>)
    requires Open(p) && s != [] && Step(limit, p, s[0]).1.Dispatch?
    requires Explains(limit, Hunting, s[1..], rest)
    ensures Explains(limit, p, s, [[]] + rest)
  {
    hide IsReading, Wire, Step, Run, Good, Emit;
    RunCons(limit, p, s);
    StepDispatch(limit, p, s[0]);
    var f := Step(limit, p, s[0]).1.frame;
    assert Pending(p) + s == Wire(f) + (Pending(Hunting) + s[1..]) by {
      assert Pending(p) + s == (Pending(p) + [s[0]]) + s[1..];
      assert Pending(Hunting) + s[1..] == s[1..];
    }
    ReadDispatch(f, Pending(Hunting) + s[1..], Run(limit, Hunting, s[1..]), rest);
  }

  lemma ExplainOther(limit: nat, p: Phase, s: seq<byte>, rest: seq<seq<byte>>)
    requires Open(p) && s != [] && !Step(limit, p, s[0]).1.Dispatch?
    requires Explains(limit, Step(limit, p, s[0]).0, s[1..], rest)
    ensures Explains(limit, p, s, Prepend(Junk(limit, p, s[0]), rest))
  {
    hide IsReading, Step, Run, Emit, Junk, AllQuiet, Prepend;
    var (q, o) := Step(limit, p, s[0]);
    var junk, u := Junk(limit, p, s[0]), Run(limit, q, s[1..]);
    RunCons(limit, p, s);
    assert Pending(p) + s == junk + (Pending(q) + s[1..]) by {
      StepLetsGo(limit, p, s[0]);
      assert Pending(p) + s == (Pending(p) + [s[0]]) + s[1..];
      Assoc(junk, Pending(q), s[1..]);
    }
    QuietPrepend(limit, p, s[0], s[1..], u, rest);
    ReadOther(o, junk, Pending(q) + s[1..], u, rest);
  }

  // Soundness, for every input.
  lemma {:induction false} Decompose(limit: nat, p: Phase, s: seq<byte>) returns (gaps: seq<seq<byte>>)
    requires Open(p)
    ensures Explains(limit, p, s, gaps)
    decreases |s|
  {
    if s == [] {
      gaps := [Pending(p)];
      assert Pending(p) + s == Pending(p);
    } else {
      StepOpen(limit, p, s[0]);
      gaps := Decompose(limit, Step(limit, p, s[0]).0, s[1..]);
      if Step(limit, p, s[0]).1.Dispatch? {
        StepDispatch(limit, p, s[0]);
        ExplainDispatch(limit, p, s, gaps);
        gaps := [[]] + gaps;
      } else {
        ExplainOther(limit, p, s, gaps);
        gaps := Prepend(Junk(limit, p, s[0]), gaps);
      }
    }
  }

  lemma QuietPrepend(limit: nat, p: Phase, b: byte, s: seq<byte>, u: Result, rest: seq<seq<byte>>)
    requires Open(p) && !Step(limit, p, b).1.Dispatch?
    requires IsReading(Pending(Step(limit, p, b).0) + s, u, rest)
    ensures Emit(Step(limit, p, b).1, u).rejects == [] && !u.phase.InFrame? ==>
              AllQuiet(Prepend(Junk(limit, p, b), rest))
  {
    var q := Step(limit, p, b).0;
    if Emit(Step(limit, p, b).1, u).rejects == [] && !u.phase.InFrame? {
      if q == HalfSync && rest[0] != [] {
        assert Weave(rest, u.frames)[0] == rest[0][0] by { WeaveHead(rest, u.frames); }
        assert (Pending(q) + s)[0] == SYNC_1;
      }
      QuietJunk(limit, p, b, rest[0]);
    }
  }

  lemma WeaveHead(gaps: seq<seq<byte>>, frames: seq<Frame>)
    requires |gaps| == |frames| + 1 && gaps[0] != []
    ensures Weave(gaps, frames) != [] && Weave(gaps, frames)[0] == gaps[0][0]
  {
  }

  lemma QuietJunk(limit: nat, p: Phase, b: byte, gap: seq<byte>)
    requires Step(limit, p, b).1 == Silent && Quiet(gap)
    requires Step(limit, p, b).0 == HalfSync && gap != [] ==> gap[0] == SYNC_1
    ensures Quiet(Junk(limit, p, b) + gap)
  {
  }

  // ----- Completeness ------------------------------------------------------

  function AfterQuiet(p: Phase, g: seq<byte>): Phase {
    if g == [] then p else if g[|g| - 1] == SYNC_1 then HalfSync else Hunting
  }

  // A byte of a quiet gap: no output, and what is left is still quiet.
  lemma QuietStep(limit: nat, p: Phase, g: seq<byte>)
    requires !p.InFrame? && g != [] && Quiet(Pending(p) + g)
    ensures var (q, o) := Step(limit, p, g[0]);
            o == Silent && q == AfterQuiet(p, [g[0]]) && !q.InFrame? && Quiet(Pending(q) + g[1..])
  {
    var taken := Pending(p) + g;
    if p.HalfSync? {
      assert taken[0] == SYNC_1 && taken[1] == g[0];
    }
    var left := Pending(Step(limit, p, g[0]).0) + g[1..];
    forall i | 0 <= i < |left| - 1 ensures !(left[i] == SYNC_1 && left[i + 1] == SYNC_2) {
      var off := |taken| - |left|;
      assert left[i] == taken[i + off] && left[i + 1] == taken[i + 1 + off];
    }
  }

  lemma {:induction false} RunQuiet(limit: nat, p: Phase, g: seq<byte>)
    requires !p.InFrame? && Quiet(Pending(p) + g)
    ensures Run(limit, p, g) == Result(AfterQuiet(p, g), [], [])
    decreases |g|
  {
    if g == [] {
      RunNothing(limit, p);
    } else {
      hide Run, Quiet, Pending, Step, AfterQuiet;
      var q := Step(limit, p, g[0]).0;
      QuietStep(limit, p, g);
      RunCons(limit, p, g);
      RunQuiet(limit, q, g[1..]);
      AfterQuietCons(p, g);
    }
  }

  lemma AfterQuietCons(p: Phase, g: seq<byte>)
    requires g != []
    ensures AfterQuiet(AfterQuiet(p, [g[0]]), g[1..]) == AfterQuiet(p, g)
  {
  }

  lemma HeaderBytes(msgClass: byte, msgId: byte, len: nat)
    requires len < 65536
    ensures var h := Header(msgClass, msgId, len);
            |h| == 4 && h[0] == msgClass && h[1] == msgId && Le16(h[2], h[3]) == len
  {
    Le16Joins(len);
    hide LowByte, HighByte, Le16;
  }

  lemma InnerParts(h: seq<byte>, payload: seq<byte>, a: byte, b: byte)
    requires |h| == 4
    ensures var body := h + payload + [a, b];
            var n := |payload|;
            && |body| == n + 6
            && body[0] == h[0] && body[1] == h[1] && body[2] == h[2] && body[3] == h[3]
            && body[4..4 + n] == payload && body[..4 + n] == h + payload
            && body[4 + n] == a && body[5 + n] == b
  {
  }

  // A frame whose length field is right, whatever its checksum.
  predicate Measured(f: Frame) {
    f.payloadLength == |f.payload| < 65536
  }

  lemma InnerShape(f: Frame)
    requires Measured(f)
    ensures var body := Inner(f);
            && |body| == f.payloadLength + 6
            && DeclaredLength(body) == f.payloadLength
            && FrameOf(body) == f
            && body[..4 + f.payloadLength] == Covered(f)
  {
    var h := Header(f.msgClass, f.msgId, f.payloadLength);
    HeaderBytes(f.msgClass, f.msgId, f.payloadLength);
    InnerParts(h, f.payload, f.ckA, f.ckB);
    hide Header, Le16, Fletcher;
  }

  // What a complete frame gives.
  function Judged(f: Frame): Output {
    if Fletcher(Covered(f)) == Checksum(f.ckA, f.ckB) then Dispatch(f)
    else Discard(Reject(ChecksumMismatch, f.msgClass, f.msgId))
  }

  lemma CollectPrefix(limit: nat, f: Frame, k: nat)
    requires Measured(f) && f.payloadLength <= limit && k <= |Inner(f)|
    ensures Collect(limit, Inner(f)[..k])
         == if k < |Inner(f)| then (InFrame(Inner(f)[..k]), Silent) else (Hunting, Judged(f))
  {
    hide Header, LowByte, HighByte, Le16, Fletcher;
    InnerShape(f);
    var body := Inner(f);
    if k == |body| {
      assert body[..k] == body;
    } else if k >= 4 {
      assert DeclaredLength(body[..k]) == DeclaredLength(body);
    }
  }

  lemma {:induction false} RunInner(limit: nat, f: Frame, k: nat)
    requires Measured(f) && f.payloadLength <= limit && k < |Inner(f)|
    ensures Run(limit, InFrame(Inner(f)[..k]), Inner(f)[k..])
         == Emit(Judged(f), Result(Hunting, [], []))
    decreases |Inner(f)| - k
  {
    hide Inner, Collect, Judged, Run;
    var body := Inner(f);
    CollectPrefix(limit, f, k + 1);
    assert body[..k] + [body[k]] == body[..k + 1];
    assert body[k..][1..] == body[k + 1..];
    RunCons(limit, InFrame(body[..k]), body[k..]);
    if k + 1 < |body| {
      RunInner(limit, f, k + 1);
    } else {
      RunNothing(limit, Hunting);
      assert body[k + 1..] == [];
    }
  }

  lemma RunNothing(limit: nat, p: Phase)
    ensures Run(limit, p, []) == Result(p, [], [])
  {
  }

  // A header that announces too much is enough to be rejected.
  lemma RunTooLarge(limit: nat, h: seq<byte>)
    requires |h| == 4 && Le16(h[2], h[3]) > limit
    ensures Run(limit, InFrame([]), h) == Result(Hunting, [], [Reject(PayloadTooLarge, h[0], h[1])])
  {
    hide Le16;
    var r := Reject(PayloadTooLarge, h[0], h[1]);
    assert [h[0], h[1], h[2]] + [h[3]] == h;
    var last := InFrame([h[0], h[1], h[2]]);
    assert StepResult(limit, last, h[3]) == Result(Hunting, [], [r]);
    RunNothing(limit, Hunting);
    assert h[1..] == [h[1], h[2], h[3]] && h[1..][1..] == [h[2], h[3]] && h[1..][1..][1..] == [h[3]];
    assert [] + [h[0]] == [h[0]] && [h[0]] + [h[1]] == [h[0], h[1]] && [h[0], h[1]] + [h[2]] == [h[0], h[1], h[2]];
    assert Run(limit, last, [h[3]]) == Result(Hunting, [], [r]);
    assert Run(limit, InFrame([h[0], h[1]]), [h[2], h[3]]) == Result(Hunting, [], [r]);
    assert Run(limit, InFrame([h[0]]), [h[1], h[2], h[3]]) == Result(Hunting, [], [r]);
  }

  // What becomes of any bytes in the form of a frame, from any point between
  // frames: rejected at its header if it announces more than the limit, else
  // dispatched or rejected as the two sums modulo 256 say.
  lemma FrameVerdict(limit: nat, p: Phase, c: byte, i: byte, payload: seq<byte>, a: byte, b: byte)
    requires !p.InFrame? && |payload| < 65536
    ensures var n := |payload|;
            var header: seq<byte> := [c, i, n % 256, n / 256];
            var w := [0xB5, 0x62] + (header + payload + [a, b]);
            && (n > limit ==>
                  Run(limit, p, [0xB5, 0x62] + header) == Result(Hunting, [], [Reject(PayloadTooLarge, c, i)]))
            && (n <= limit ==>
                  Run(limit, p, w)
                  == if a == Sum(header + payload) % 256 && b == WeightedSum(header + payload) % 256
                     then Result(Hunting, [Frame(c, i, n, payload, a, b)], [])
                     else Result(Hunting, [], [Reject(ChecksumMismatch, c, i)]))
  {
    var n := |payload|;
    var f := Frame(c, i, n, payload, a, b);
    var header: seq<byte> := [c, i, n % 256, n / 256];
    Le16Joins(n);
    if n > limit {
      RunSyncPair(limit, p, header);
      RunTooLarge(limit, header);
    } else {
      assert Header(c, i, n) == header;
      FletcherClosedForm(header + payload);
      RunSyncPair(limit, p, Inner(f));
      RunInner(limit, f, 0);
      assert Inner(f)[..0] == [] && Inner(f)[0..] == Inner(f);
    }
  }

  // From any point between frames a good frame within the limit is dispatched.
  lemma RunWire(limit: nat, p: Phase, f: Frame)
    requires !p.InFrame? && GoodWithin(limit, f)
    ensures Run(limit, p, Wire(f)) == Result(Hunting, [f], [])
  {
    var inner := Inner(f);
    assert Run(limit, InFrame([]), inner) == Result(Hunting, [f], []) by {
      RunInner(limit, f, 0);
      assert inner[..0] == [] && inner[0..] == inner;
    }
    RunSyncPair(limit, p, inner);
  }

  lemma RunSyncPair(limit: nat, p: Phase, inner: seq<byte>)
    requires !p.InFrame?
    ensures Run(limit, p, [SYNC_1, SYNC_2] + inner) == Run(limit, InFrame([]), inner)
  {
    var w := [SYNC_1, SYNC_2] + inner;
    assert w[1..] == [SYNC_2] + inner;
    assert w[1..][1..] == inner;
    assert Run(limit, HalfSync, w[1..]) == Run(limit, InFrame([]), inner);
  }

  lemma {:induction false} Completeness(limit: nat, gaps: seq<seq<byte>>, frames: seq<Frame>)
    requires |gaps| == |frames| + 1 && AllQuiet(gaps) && AllGood(limit, frames)
    ensures Run(limit, Hunting, Weave(gaps, frames)) == Result(AfterQuiet(Hunting, gaps[|frames|]), frames, [])
  {
    hide Wire, Run, Good, Quiet;
    assert Pending(Hunting) + gaps[0] == gaps[0];
    RunQuiet(limit, Hunting, gaps[0]);
    if frames == [] {
    } else {
      var f := frames[0];
      Completeness(limit, gaps[1..], frames[1..]);
      RunWire(limit, AfterQuiet(Hunting, gaps[0]), f);
      var rest := Weave(gaps[1..], frames[1..]);
      assert Weave(gaps, frames) == gaps[0] + (Wire(f) + rest);
      RunConcat(limit, Hunting, gaps[0], Wire(f) + rest);
      RunConcat(limit, AfterQuiet(Hunting, gaps[0]), Wire(f), rest);
      assert [f] + frames[1..] == frames;
    }
  }

  // ----- The exact language ------------------------------------------------

  ghost predicate Decomposes(limit: nat, s: seq<byte>, gaps: seq<seq<byte>>, frames: seq<Frame>) {
    && |gaps| == |frames| + 1
    && AllQuiet(gaps)
    && AllGood(limit, frames)
    && s == Weave(gaps, frames)
  }

  predicate CleanRun(limit: nat, s: seq<byte>) {
    var r := Run(limit, Hunting, s);
    r.rejects == [] && !r.phase.InFrame?
  }

  // Dispatched frames respect the limit.
  predicate Bounded(limit: nat, p: Phase) {
    p.InFrame? && |p.body| >= 4 ==> DeclaredLength(p.body) <= limit
  }

  lemma {:induction false} RunBounded(limit: nat, p: Phase, s: seq<byte>)
    requires Open(p) && Bounded(limit, p)
    ensures var r := Run(limit, p, s);
            && Open(r.phase) && Bounded(limit, r.phase)
            && AllGood(limit, r.frames)
    decreases |s|
  {
    if s == [] {
    } else {
      var (q, o) := Step(limit, p, s[0]);
      StepOpen(limit, p, s[0]);
      RunBounded(limit, q, s[1..]);
      if o.Dispatch? {
        CollectDispatch(limit, p.body, s[0]);
      }
    }
  }

  // The parser rejects nothing and ends between frames exactly on the streams
  // made of good frames and quiet gaps, and then it dispatches those frames.
  lemma CleanRunIff(limit: nat, s: seq<byte>)
    ensures CleanRun(limit, s) <==> exists gaps, frames :: Decomposes(limit, s, gaps, frames)
    ensures CleanRun(limit, s) ==> exists gaps :: Decomposes(limit, s, gaps, Run(limit, Hunting, s).frames)
  {
    if CleanRun(limit, s) {
      var gaps := Decompose(limit, Hunting, s);
      RunBounded(limit, Hunting, s);
      assert Pending(Hunting) + s == s;
      assert Decomposes(limit, s, gaps, Run(limit, Hunting, s).frames);
    }
    if gaps, frames :| Decomposes(limit, s, gaps, frames) {
      Completeness(limit, gaps, frames);
    }
  }

  // A quiet gap ends where the sync pair of the next frame begins.
  lemma GapNotShorter(a: seq<byte>, b: seq<byte>, frame: seq<byte>, rest: seq<byte>, other: seq<byte>)
    requires |frame| >= 2 && frame[0] == SYNC_1 && frame[1] == SYNC_2 && Quiet(b)
    requires a + frame + rest == b + frame + other
    ensures |a| >= |b|
  {
    var s := a + frame + rest;
    assert s[|a|] == SYNC_1 && s[|a| + 1] == SYNC_2;
    assert s == b + (frame + other) && s[|b|] == SYNC_1;
    assert forall k :: 0 <= k < |b| ==> s[k] == b[k];
  }

  lemma {:induction false} SameGaps(frames: seq<Frame>, g1: seq<seq<byte>>, g2: seq<seq<byte>>)
    requires |g1| == |g2| == |frames| + 1 && AllQuiet(g1) && AllQuiet(g2)
    requires Weave(g1, frames) == Weave(g2, frames)
    ensures g1 == g2
    decreases |frames|
  {
    hide Wire;
    if frames == [] {
    } else {
      var w, r1, r2 := Wire(frames[0]), Weave(g1[1..], frames[1..]), Weave(g2[1..], frames[1..]);
      WireStart(frames[0]);
      GapNotShorter(g1[0], g2[0], w, r1, r2);
      GapNotShorter(g2[0], g1[0], w, r2, r1);
      SameParts(g1[0], g2[0], w, r1, r2);
      SameGaps(frames[1..], g1[1..], g2[1..]);
      assert g1 == [g1[0]] + g1[1..] && g2 == [g2[0]] + g2[1..];
    }
  }

  lemma WireStart(f: Frame)
    ensures |Wire(f)| >= 2 && Wire(f)[0] == SYNC_1 && Wire(f)[1] == SYNC_2
  {
  }

  lemma SameParts(a: seq<byte>, b: seq<byte>, w: seq<byte>, r1: seq<byte>, r2: seq<byte>)
    requires |a| == |b| && a + w + r1 == b + w + r2
    ensures a == b && r1 == r2
  {
    assert a == (a + w + r1)[..|a|] && b == (b + w + r2)[..|b|];
    assert r1 == (a + w + r1)[|a| + |w|..] && r2 == (b + w + r2)[|b| + |w|..];
  }

  // A stream can be read as frames and quiet gaps in one way only.
  lemma Unambiguous(limit: nat, s: seq<byte>, g1: seq<seq<byte>>, f1: seq<Frame>, g2: seq<seq<byte>>, f2: seq<Frame>)
    requires Decomposes(limit, s, g1, f1) && Decomposes(limit, s, g2, f2)
    ensures f1 == f2 && g1 == g2
  {
    Completeness(limit, g1, f1);
    Completeness(limit, g2, f2);
    SameGaps(f1, g1, g2);
  }

  // ----- Record and replay -------------------------------------------------

  // What a recording of these frames puts in its file.
  function Recording(frames: seq<Frame>): seq<byte> {
    if frames == [] then [] else Wire(frames[0]) + Recording(frames[1..])
  }

  lemma {:induction false} RecordingAppend(frames: seq<Frame>, more: seq<Frame>)
    ensures Recording(frames + more) == Recording(frames) + Recording(more)
  {
    hide Wire;
    if frames == [] {
      assert frames + more == more;
    } else {
      RecordingAppend(frames[1..], more);
      assert (frames + more)[1..] == frames[1..] + more;
      Assoc(Wire(frames[0]), Recording(frames[1..]), Recording(more));
    }
  }

  function NoGaps(n: nat): (gaps: seq<seq<byte>>)
    ensures |gaps| == n + 1 && AllQuiet(gaps)
  {
    seq(n + 1, i => [])
  }

  lemma {:induction false} RecordingIsWeave(frames: seq<Frame>)
    ensures Recording(frames) == Weave(NoGaps(|frames|), frames)
  {
    var gaps := NoGaps(|frames|);
    if frames == [] {
    } else {
      RecordingIsWeave(frames[1..]);
      assert gaps[1..] == NoGaps(|frames[1..]|);
      assert gaps[0] + Wire(frames[0]) == Wire(frames[0]);
      assert Weave(gaps, frames) == gaps[0] + Wire(frames[0]) + Weave(gaps[1..], frames[1..]);
    }
  }

  predicate AllFit(frames: seq<Frame>, limit: nat) {
    forall i :: 0 <= i < |frames| ==> frames[i].payloadLength <= limit
  }

  // Two recordings of good frames are equal only if the frames are.
  lemma RecordingInjective(limit: nat, f1: seq<Frame>, f2: seq<Frame>)
    requires AllGood(limit, f1) && AllGood(limit, f2) && Recording(f1) == Recording(f2)
    ensures f1 == f2
  {
    RecordingIsWeave(f1);
    RecordingIsWeave(f2);
    Unambiguous(limit, Recording(f1), NoGaps(|f1|), f1, NoGaps(|f2|), f2);
  }

  // A recording of any live stream, cut into reads anywhere and replayed
  // through a parser with its own limit, gives the same frames, and the same
  // file again, exactly when every recorded frame fits the replay limit.
  lemma RecordReplay(liveLimit: nat, live: seq<byte>, replayLimit: nat, chunks: seq<seq<byte>>)
    requires Flatten(chunks) == Recording(Run(liveLimit, Hunting, live).frames)
    ensures var recorded := Run(liveLimit, Hunting, live).frames;
            var replay := RunChunks(replayLimit, Hunting, chunks);
            && (replay == Result(Hunting, recorded, []) <==> AllFit(recorded, replayLimit))
            && (replay.frames == recorded <==> AllFit(recorded, replayLimit))
            && (Recording(replay.frames) == Flatten(chunks) <==> AllFit(recorded, replayLimit))
            && (replayLimit == liveLimit ==> AllFit(recorded, replayLimit))
  {
    hide Run, Recording, Good, Wire, NoGaps;
    var recorded := Run(liveLimit, Hunting, live).frames;
    RunBounded(liveLimit, Hunting, live);
    ChunkingIrrelevant(replayLimit, Hunting, chunks);
    RunBounded(replayLimit, Hunting, Flatten(chunks));
    var replayed := Run(replayLimit, Hunting, Flatten(chunks)).frames;
    if AllFit(recorded, replayLimit) {
      RecordingIsWeave(recorded);
      Completeness(replayLimit, NoGaps(|recorded|), recorded);
      LastGapEmpty(|recorded|);
    }
    if Recording(replayed) == Recording(recorded) {
      RecordingInjective(liveLimit + replayLimit, replayed, recorded);
    }
  }

  lemma LastGapEmpty(n: nat)
    ensures NoGaps(n)[n] == []
  {
  }

  // ----- Self-stabilisation ------------------------------------------------

  predicate Filler(s: seq<byte>) {
    forall i :: 0 <= i < |s| ==> s[i] != SYNC_1 && s[i] != SYNC_2
  }

  // An upper bound on the filler still needed to leave a phase.
  function Distance(limit: nat, p: Phase): int {
    match p
    case Hunting => 0
    case HalfSync => 1
    case InFrame(body) => (if |body| < 4 then limit else DeclaredLength(body)) + 6 - |body|
  }

  lemma {:induction false} FillerResynchronises(limit: nat, p: Phase, s: seq<byte>)
    requires Open(p) && Bounded(limit, p) && Filler(s) && |s| >= Distance(limit, p)
    ensures Run(limit, p, s).phase == Hunting
    decreases |s|
  {
    if s == [] {
    } else {
      StepOpen(limit, p, s[0]);
      FillerResynchronises(limit, Step(limit, p, s[0]).0, s[1..]);
    }
  }

  // Wherever an earlier stream left the parser, limit + 6 filler bytes bring it
  // back, and the next good frame gets through.
  lemma SelfStabilising(limit: nat, before: seq<byte>, filler: seq<byte>, f: Frame)
    requires Filler(filler) && |filler| >= limit + 6 && GoodWithin(limit, f)
    ensures var r := Run(limit, Hunting, before + filler + Wire(f));
            r.phase == Hunting && r.frames != [] && r.frames[|r.frames| - 1] == f
  {
    var p := Run(limit, Hunting, before).phase;
    RunBounded(limit, Hunting, before);
    FillerResynchronises(limit, p, filler);
    RunConcat(limit, Hunting, before, filler);
    RunConcat(limit, Hunting, before + filler, Wire(f));
    RunWire(limit, Hunting, f);
  }

  // A body that is still short of the length it declares stays in the frame.
  lemma {:induction false} StaysInFrame(limit: nat, body: seq<byte>, s: seq<byte>)
    requires var t := body + s; |t| >= 4 && DeclaredLength(t) <= limit && |t| < DeclaredLength(t) + 6
    ensures Run(limit, InFrame(body), s).phase == InFrame(body + s)
    decreases |s|
  {
    hide Le16, Fletcher;
    if s == [] {
      assert body + s == body;
    } else {
      var next := body + [s[0]];
      assert next + s[1..] == body + s;
      assert |next| >= 4 ==> next[2] == (body + s)[2] && next[3] == (body + s)[3];
      StaysInFrame(limit, next, s[1..]);
    }
  }

  // After a bare sync pair, limit + 5 bytes whose third and fourth spell the
  // limit leave the parser inside the frame.
  lemma StabilisationBoundTight(limit: nat, filler: seq<byte>)
    requires limit < 65536 && |filler| == limit + 5
    requires filler[2] == LowByte(limit) && filler[3] == HighByte(limit)
    ensures Run(limit, InFrame([]), filler).phase == InFrame(filler)
  {
    Le16Joins(limit);
    assert [] + filler == filler;
    StaysInFrame(limit, [], filler);
  }

  predicate IsSync(b: byte) {
    b == SYNC_1 || b == SYNC_2
  }

  // limit + 5 filler bytes that do not bring the parser back.
  predicate TooShort(limit: nat, p: Phase, filler: seq<byte>) {
    && Open(p) && Bounded(limit, p) && Filler(filler) && |filler| == limit + 5
    && Run(limit, p, filler).phase != Hunting
  }

  // They exist exactly when neither length byte of the limit is a sync byte.
  lemma StabilisationBoundTightIff(limit: nat)
    requires limit < 65536
    ensures (exists p, filler :: TooShort(limit, p, filler)) <==> !IsSync(LowByte(limit)) && !IsSync(HighByte(limit))
  {
    if !IsSync(LowByte(limit)) && !IsSync(HighByte(limit)) {
      var filler: seq<byte> := [0, 0, LowByte(limit), HighByte(limit)] + seq(limit + 1, i => 0);
      StabilisationBoundTight(limit, filler);
      assert TooShort(limit, InFrame([]), filler);
    }
    hide LowByte, HighByte;
    if p, filler :| TooShort(limit, p, filler) {
      TooShortSpellsLimit(limit, p, filler);
    }
  }

  lemma TooShortSpellsLimit(limit: nat, p: Phase, filler: seq<byte>)
    requires limit < 65536 && TooShort(limit, p, filler)
    ensures filler[2] == LowByte(limit) && filler[3] == HighByte(limit)
  {
    hide Run, LowByte, HighByte;
    if Distance(limit, p) <= limit + 5 {
      FillerResynchronises(limit, p, filler);
    }
    assert p == InFrame([]);
    var head, tail := filler[..4], filler[4..];
    assert head + tail == filler;
    RunConcat(limit, p, head, tail);
    var q := Run(limit, p, head).phase;
    HeaderStep(limit, head);
    assert Filler(tail) && |tail| == limit + 1;
    if Distance(limit, q) <= limit + 1 {
      FillerResynchronises(limit, q, tail);
    }
    Le16Splits(head[2], head[3]);
  }

  // After the four header bytes the length is accepted or the frame is gone.
  lemma HeaderStep(limit: nat, head: seq<byte>)
    requires |head| == 4
    ensures Run(limit, InFrame([]), head).phase == if DeclaredLength(head) > limit then Hunting else InFrame(head)
  {
    hide Run, Le16;
    var p := InFrame([]);
    RunNothing(limit, p);
    assert [] + [head[0]] == [head[0]] && [head[0]] + [head[1]] == head[..2];
    assert head[..2] + [head[2]] == head[..3] && head[..3] + [head[3]] == head;
    RunSnoc(limit, p, [], head[0]);
    RunSnoc(limit, p, [head[0]], head[1]);
    RunSnoc(limit, p, head[..2], head[2]);
    RunSnoc(limit, p, head[..3], head[3]);
  }

  // ----- Conservation ------------------------------------------------------

  // How often a run recognises a sync pair.
  function Starts(limit: nat, p: Phase, s: seq<byte>): nat
    decreases |s|
  {
    if s == [] then 0
    else
      (if p == HalfSync && s[0] == SYNC_2 then 1 else 0) + Starts(limit, Step(limit, p, s[0]).0, s[1..])
  }

  function InProgress(p: Phase): nat {
    if p.InFrame? then 1 else 0
  }

  lemma {:induction false} Conservation(limit: nat, p: Phase, s: seq<byte>)
    ensures var r := Run(limit, p, s);
            InProgress(p) + Starts(limit, p, s) == |r.frames| + |r.rejects| + InProgress(r.phase)
    decreases |s|
  {
    if s == [] {
    } else {
      Conservation(limit, Step(limit, p, s[0]).0, s[1..]);
    }
  }
}
