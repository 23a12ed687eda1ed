// NMEA 0183 sentence framing: what the five-state parser means.
module NmeaFraming {
  import opened Bytes
  import opened NmeaChecksum

  const DOLLAR: byte := 36
  const STAR: byte := 42
  const CR: byte := 13
  const LF: byte := 10
  const BUFFER_LEN := 256

  // ----- The machine -------------------------------------------------------

  datatype Phase =
    | Idle
    | Text(body: seq<byte>)
    | HighDigit(body: seq<byte>)
    | LowDigit(body: seq<byte>, hi: byte)
    | Tail(body: seq<byte>, present: bool, received: byte)

  datatype Error = UnexpectedStart | SentenceTooLong | ChecksumMismatch

  // A dispatched sentence: its characters, whether a checksum came with it, and
  // that checksum (zero without one).  Fields are a function of the characters.
  datatype Sentence = Sentence(body: seq<byte>, present: bool, checksum: byte)

  datatype Output = Silent | Dispatch(sentence: Sentence) | Discard(error: Error)

  function Complete(body: seq<byte>, present: bool, received: byte): (Phase, Output) {
    (Idle,
     if present && XorAll(body) != received then Discard(ChecksumMismatch)
     else Dispatch(Sentence(body, present, received)))
  }

  function Step(p: Phase, b: byte): (Phase, Output) {
    match p
    case Idle => (if b == DOLLAR then Text([]) else Idle, Silent)
    case Text(body) =>
      if b == DOLLAR then (Text([]), Discard(UnexpectedStart))
      else if b == STAR then (HighDigit(body), Silent)
      else if b == CR then (Tail(body, false, 0), Silent)
      else if b == LF then Complete(body, false, 0)
      else if |body| >= BUFFER_LEN then (Idle, Discard(SentenceTooLong))
      else (Text(body + [b]), Silent)
    case HighDigit(body) => (LowDigit(body, b), Silent)
    case LowDigit(body, hi) =>
      (match ParseHexByte(hi, b)
       case NotHex => (Idle, Discard(ChecksumMismatch))
       case Value(v) => (Tail(body, true, v), Silent))
    case Tail(body, present, received) =>
      if b == LF then Complete(body, present, received)
      else if b == DOLLAR then (Text([]), Discard(UnexpectedStart))
      else (p, Silent)
  }

  datatype Result = Result(phase: Phase, sentences: seq<Sentence>, errors: seq<Error>)

  function Then(r: Result, u: Result): Result {
    Result(u.phase, r.sentences + u.sentences, r.errors + u.errors)
  }

  function StepResult(p: Phase, b: byte): Result {
    var (q, o) := Step(p, b);
    Result(q, if o.Dispatch? then [o.sentence] else [], if o.Discard? then [o.error] else [])
  }

  function Run(p: Phase, s: seq<byte>): Result
    decreases |s|
  {
    if s == [] then Result(p, [], [])
    else
      var r := StepResult(p, s[0]);
      Then(r, Run(r.phase, s[1..]))
  }

  lemma ThenAssociative(r: Result, u: Result, v: Result)
    ensures Then(r, Then(u, v)) == Then(Then(r, u), v)
    ensures Then(r, u).phase == u.phase
  {
    Assoc(r.sentences, u.sentences, v.sentences);
    Assoc(r.errors, u.errors, v.errors);
  }

  lemma {:induction false} RunConcat(p: Phase, s: seq<byte>, t: seq<byte>)
    ensures var r := Run(p, s);
            Run(p, s + t) == Then(r, Run(r.phase, t))
    decreases |s|
  {
    hide StepResult;
    if s == [] {
      assert s + t == t;
    } else {
      hide Then;
      var r := StepResult(p, s[0]);
      RunConcat(r.phase, s[1..], t);
      assert (s + t)[1..] == s[1..] + t && (s + t)[0] == s[0];
      var u := Run(r.phase, s[1..]);
      ThenAssociative(r, u, Run(u.phase, t));
    }
  }

  lemma RunOne(p: Phase, b: byte)
    ensures Run(p, [b]) == StepResult(p, b)
  {
    assert [b][1..] == [];
  }

  lemma RunSnoc(p: Phase, s: seq<byte>, b: byte)
    ensures Run(p, s + [b]) == Then(Run(p, s), StepResult(Run(p, s).phase, b))
  {
    RunConcat(p, s, [b]);
    RunOne(Run(p, s).phase, b);
  }

  // ----- Conservation ------------------------------------------------------

  function InProgress(p: Phase): nat {
    if p == Idle then 0 else 1
  }

  // Whether this byte opens a sentence.
  predicate Opens(p: Phase, b: byte) {
    b == DOLLAR && (p.Idle? || p.Text? || p.Tail?)
  }

  function Starts(p: Phase, s: seq<byte>): nat
    decreases |s|
  {
    if s == [] then 0
    else (if Opens(p, s[0]) then 1 else 0) + Starts(Step(p, s[0]).0, s[1..])
  }

  lemma {:induction false} Conservation(p: Phase, s: seq<byte>)
    ensures var r := Run(p, s);
            InProgress(p) + Starts(p, s) == |r.sentences| + |r.errors| + InProgress(r.phase)
    decreases |s|
  {
    if s == [] {
    } else {
      Conservation(Step(p, s[0]).0, s[1..]);
    }
  }

  // No phase ever holds more characters than the buffer.
  predicate Fits(p: Phase) {
    p != Idle ==> |p.body| <= BUFFER_LEN
  }

  lemma {:induction false} RunFits(p: Phase, s: seq<byte>)
    requires Fits(p)
    ensures Fits(Run(p, s).phase) && (Run(p, s).phase != Idle ==> |Run(p, s).phase.body| <= 256)
    ensures forall i :: 0 <= i < |Run(p, s).sentences| ==> |Run(p, s).sentences[i].body| <= 256
    decreases |s|
  {
    if s == [] {
    } else {
      RunFits(Step(p, s[0]).0, s[1..]);
    }
  }

  // ----- Whole sentences ---------------------------------------------------

  // A sentence on the wire, with its checksum or in the form some devices send.
  datatype Printed = Checked(body: seq<byte>) | Bare(body: seq<byte>)

  predicate PlainBody(body: seq<byte>) {
    && |body| <= BUFFER_LEN
    && DOLLAR !in body && STAR !in body && CR !in body && LF !in body
  }

  function Ending(s: Printed): seq<byte> {
    (match s
     case Checked(body) => [STAR, HexDigit(XorAll(body) / 16), HexDigit(XorAll(body) % 16)]
     case Bare(body) => []) + [CR, LF]
  }

  function Wire(s: Printed): seq<byte> {
    [DOLLAR] + s.body + Ending(s)
  }

  function Parsed(s: Printed): Sentence {
    if s.Checked? then Sentence(s.body, true, XorAll(s.body)) else Sentence(s.body, false, 0)
  }

  lemma {:induction false} RunBody(done: seq<byte>, rest: seq<byte>)
    requires PlainBody(done + rest)
    ensures Run(Text(done), rest) == Result(Text(done + rest), [], [])
    decreases |rest|
  {
    if rest == [] {
      assert done + rest == done;
    } else {
      var b := rest[0];
      assert (done + rest)[|done|] == b;
      assert b in done + rest;
      assert (done + [b]) + rest[1..] == done + rest;
      RunBody(done + [b], rest[1..]);
    }
  }

  lemma RunEnding(s: Printed)
    ensures Run(Text(s.body), Ending(s)) == Result(Idle, [Parsed(s)], [])
  {
    var x := XorAll(s.body);
    HexRoundTrip(x);
    hide XorAll, HexDigit, ParseHexByte;
    var q := Tail(s.body, s.Checked?, if s.Checked? then x else 0);
    assert Run(q, [CR, LF]) == Result(Idle, [Parsed(s)], []) by { Run2(q, CR, LF); }
    if s.Checked? {
      var e := [STAR, HexDigit(x / 16), HexDigit(x % 16)];
      assert Run(Text(s.body), e) == Result(q, [], []) by { Run3(Text(s.body), e[0], e[1], e[2]); }
      RunConcat(Text(s.body), e, [CR, LF]);
    } else {
      assert Ending(s) == [CR, LF];
      Run2(Text(s.body), CR, LF);
    }
  }

  lemma Run2(p: Phase, a: byte, b: byte)
    ensures var r := StepResult(p, a);
            Run(p, [a, b]) == Then(r, StepResult(r.phase, b))
  {
    assert [a, b][1..] == [b];
    RunOne(StepResult(p, a).phase, b);
  }

  lemma Run3(p: Phase, a: byte, b: byte, c: byte)
    ensures var r := StepResult(p, a);
            var u := StepResult(r.phase, b);
            Run(p, [a, b, c]) == Then(r, Then(u, StepResult(u.phase, c)))
  {
    assert [a, b, c][1..] == [b, c];
    Run2(StepResult(p, a).phase, b, c);
  }

  // A printed sentence is read back as itself.
  lemma RunSentence(s: Printed)
    requires PlainBody(s.body)
    ensures Run(Idle, Wire(s)) == Result(Idle, [Parsed(s)], [])
  {
    assert [] + s.body == s.body;
    RunBody([], s.body);
    RunEnding(s);
    hide Ending, XorAll;
    RunOne(Idle, DOLLAR);
    assert Run(Idle, [DOLLAR]) == Result(Text([]), [], []);
    RunConcat(Idle, [DOLLAR], s.body);
    RunConcat(Idle, [DOLLAR] + s.body, Ending(s));
  }

  // Without a '$' an idle parser stays idle.
  lemma {:induction false} RunNoDollar(s: seq<byte>)
    requires DOLLAR !in s
    ensures Run(Idle, s) == Result(Idle, [], [])
  {
    if s == [] {
    } else {
      RunNoDollar(s[1..]);
    }
  }

  // With one, an idle parser starts a sentence.
  lemma {:induction false} DollarStarts(s: seq<byte>)
    requires DOLLAR in s
    ensures Starts(Idle, s) >= 1
    decreases |s|
  {
    if s[0] != DOLLAR {
      assert DOLLAR in s[1..];
      DollarStarts(s[1..]);
    }
  }

  // A sentence arriving while another is unfinished costs an error.
  lemma InterruptionIsAnError(p: Phase, s: Printed)
    requires p != Idle
    ensures Run(p, Wire(s)).errors != []
  {
    var w := Wire(s);
    assert w[0] == DOLLAR;
    var head := w[..2];
    assert w == head + w[2..];
    RunConcat(p, head, w[2..]);
    assert head == [DOLLAR, w[1]];
    Run2(p, DOLLAR, w[1]);
    hide Run, Ending;
    assert Run(p, head).errors != [];
  }

  // ----- Streams as sentences with gaps ------------------------------------

  // What may stand between a checksum, or a CR, and the LF.
  predicate Inert(t: seq<byte>) {
    DOLLAR !in t && LF !in t
  }

  // What follows the characters once their end has been seen: a CR, or '*' and
  // the two digits of the checksum, in either case of letters.
  predicate Closes(t: seq<byte>, present: bool, received: byte) {
    if present then
      |t| >= 3 && t[0] == STAR && ParseHexByte(t[1], t[2]) == Value(received) && Inert(t[3..])
    else
      |t| >= 1 && t[0] == CR && received == 0 && Inert(t[1..])
  }

  // The bytes of an unfinished sentence that leave the machine in phase p.
  predicate Holds(p: Phase, held: seq<byte>) {
    match p
    case Idle => held == []
    case Text(body) => PlainBody(body) && held == [DOLLAR] + body
    case HighDigit(body) => PlainBody(body) && held == [DOLLAR] + body + [STAR]
    case LowDigit(body, hi) => PlainBody(body) && held == [DOLLAR] + body + [STAR, hi]
    case Tail(body, present, received) =>
      && PlainBody(body)
      && [DOLLAR] + body <= held
      && Closes(held[|body| + 1..], present, received)
  }

  // '$', the characters, and LF alone, CR ... LF or '*' with the checksum of the
  // characters ... LF.
  predicate Spells(piece: seq<byte>, s: Sentence) {
    && piece != []
    && piece[|piece| - 1] == LF
    && (Holds(Tail(s.body, s.present, s.checksum), piece[..|piece| - 1])
        || (Holds(Text(s.body), piece[..|piece| - 1]) && !s.present && s.checksum == 0))
    && (s.present ==> s.checksum == XorAll(s.body))
  }

  predicate AllSpell(pieces: seq<seq<byte>>, sentences: seq<Sentence>) {
    && |pieces| == |sentences|
    && forall i :: 0 <= i < |pieces| ==> Spells(pieces[i], sentences[i])
  }

  // gaps[0] pieces[0] gaps[1] pieces[1] ... gaps[n]
  function Weave(gaps: seq<seq<byte>>, pieces: seq<seq<byte>>): seq<byte>
    requires |gaps| == |pieces| + 1
  {
    if pieces == [] then gaps[0]
    else gaps[0] + pieces[0] + Weave(gaps[1..], pieces[1..])
  }

  predicate NoDollar(gaps: seq<seq<byte>>) {
    forall i :: 0 <= i < |gaps| ==> DOLLAR !in gaps[i]
  }

  // The bytes a step that dispatches nothing lets go of, and those it keeps.
  function LetGo(p: Phase, held: seq<byte>, b: byte): seq<byte> {
    var (q, o) := Step(p, b);
    if q.Idle? then held + [b] else if o.Discard? then held else []
  }

  function Kept(p: Phase, held: seq<byte>, b: byte): seq<byte> {
    var (q, o) := Step(p, b);
    if q.Idle? then [] else if o.Discard? then [b] else held + [b]
  }

  lemma StepLetsGo(p: Phase, held: seq<byte>, b: byte)
    ensures held + [b] == LetGo(p, held, b) + Kept(p, held, b)
  {
    hide Step;
    assert held + [b] == [] + (held + [b]) == (held + [b]) + [];
  }

  lemma StepHolds(p: Phase, held: seq<byte>, b: byte)
    requires Holds(p, held)
    ensures Holds(StepResult(p, b).phase, Kept(p, held, b))
  {
    match p
    case Idle =>
    case Text(body) => TextHolds(body, held, b);
    case HighDigit(body) => HighDigitHolds(body, held, b);
    case LowDigit(body, hi) => LowDigitHolds(body, held, hi, b);
    case Tail(_, _, _) => TailHolds(p, held, b);
  }

  lemma HighDigitHolds(body: seq<byte>, held: seq<byte>, b: byte)
    requires Holds(HighDigit(body), held)
    ensures Holds(StepResult(HighDigit(body), b).phase, Kept(HighDigit(body), held, b))
  {
    hide ParseHexByte, XorAll;
    assert [DOLLAR] + body + [STAR] + [b] == [DOLLAR] + body + [STAR, b];
  }

  lemma LowDigitHolds(body: seq<byte>, held: seq<byte>, hi: byte, b: byte)
    requires Holds(LowDigit(body, hi), held)
    ensures Holds(StepResult(LowDigit(body, hi), b).phase, Kept(LowDigit(body, hi), held, b))
  {
    hide ParseHexByte, XorAll;
    assert (held + [b])[|body| + 1..] == [STAR, hi, b];
  }

  lemma TextHolds(body: seq<byte>, held: seq<byte>, b: byte)
    requires Holds(Text(body), held)
    ensures Holds(StepResult(Text(body), b).phase, Kept(Text(body), held, b))
  {
    hide ParseHexByte, XorAll;
    assert [DOLLAR] + body + [b] == [DOLLAR] + (body + [b]);
    if b == CR {
      assert (held + [b])[|body| + 1..] == [b];
    }
  }

  lemma TailHolds(p: Phase, held: seq<byte>, b: byte)
    requires p.Tail? && Holds(p, held)
    ensures Holds(StepResult(p, b).phase, Kept(p, held, b))
  {
    hide ParseHexByte, XorAll;
    if b != LF && b != DOLLAR {
      var t := held[|p.body| + 1..];
      assert (held + [b])[|p.body| + 1..] == t + [b];
      ClosesSnoc(t, p.present, p.received, b);
    }
  }

  lemma ClosesSnoc(t: seq<byte>, present: bool, received: byte, b: byte)
    requires Closes(t, present, received) && b != LF && b != DOLLAR
    ensures Closes(t + [b], present, received)
  {
    hide ParseHexByte;
    var k := if present then 3 else 1;
    assert (t + [b])[k..] == t[k..] + [b];
  }

  // A dispatched sentence is spelled by the bytes held and the one just taken.
  lemma StepSpells(p: Phase, held: seq<byte>, b: byte)
    requires Holds(p, held) && StepResult(p, b).sentences != []
    ensures var r := StepResult(p, b);
            |r.sentences| == 1 && Spells(held + [b], r.sentences[0]) && Kept(p, held, b) == []
  {
    hide ParseHexByte, XorAll;
    assert (held + [b])[..|held|] == held;
  }

  // Only a rejected sentence takes a '$' with it.
  lemma LetGoNoDollar(p: Phase, held: seq<byte>, b: byte)
    requires StepResult(p, b).sentences == [] && StepResult(p, b).errors == [] && Holds(p, held)
    ensures DOLLAR !in LetGo(p, held, b)
  {
  }

  // The input, with what phase p held, is the dispatched sentences, spelled out
  // in order and without overlap, with other bytes between them, and then what
  // the machine still holds.  On a run without an error those other bytes hold
  // no '$'.
  predicate IsReading(
    input: seq<byte>, r: Result, gaps: seq<seq<byte>>, pieces: seq<seq<byte>>, left: seq<byte>)
  {
    && |gaps| == |pieces| + 1
    && input == Weave(gaps, pieces) + left
    && AllSpell(pieces, r.sentences)
    && Holds(r.phase, left)
    && (r.errors == [] ==> NoDollar(gaps))
  }

  lemma {:induction false} Decompose(p: Phase, held: seq<byte>, s: seq<byte>)
    returns (gaps: seq<seq<byte>>, pieces: seq<seq<byte>>, left: seq<byte>)
    requires Holds(p, held)
    ensures |gaps| == |pieces| + 1 && IsReading(held + s, Run(p, s), gaps, pieces, left)
    decreases |s|
  {
    hide StepResult, Kept, LetGo, Holds, Spells, Weave, IsReading, Then;
    if s == [] {
      gaps, pieces, left := [[]], [], held;
      ReadingNothing(p, held, s);
    } else {
      var b := s[0];
      var r := StepResult(p, b);
      StepHolds(p, held, b);
      StepLetsGo(p, held, b);
      var kept := Kept(p, held, b);
      var restGaps, restPieces;
      restGaps, restPieces, left := Decompose(r.phase, kept, s[1..]);
      var u := Run(r.phase, s[1..]);
      assert held + s == (held + [b]) + s[1..];
      if r.sentences != [] {
        StepSpells(p, held, b);
        gaps, pieces := [[]] + restGaps, [held + [b]] + restPieces;
        ReadingDispatch(held + [b], r, s[1..], u, restGaps, restPieces, left);
      } else {
        var dropped := LetGo(p, held, b);
        gaps, pieces := [dropped + restGaps[0]] + restGaps[1..], restPieces;
        if r.errors == [] {
          LetGoNoDollar(p, held, b);
        }
        Assoc(dropped, kept, s[1..]);
        ReadingDrop(dropped, r, kept + s[1..], u, restGaps, restPieces, left);
      }
    }
  }

  lemma ReadingNothing(p: Phase, held: seq<byte>, s: seq<byte>)
    requires Holds(p, held) && s == []
    ensures IsReading(held + s, Run(p, s), [[]], [], held)
  {
    hide Holds;
    assert [] + held == held + [];
  }

  lemma ReadingDispatch(piece: seq<byte>, r: Result, rest: seq<byte>, u: Result,
                        gaps: seq<seq<byte>>, pieces: seq<seq<byte>>, left: seq<byte>)
    requires IsReading([] + rest, u, gaps, pieces, left)
    requires |r.sentences| == 1 && Spells(piece, r.sentences[0])
    ensures IsReading(piece + rest, Then(r, u), [[]] + gaps, [piece] + pieces, left)
  {
    hide Spells, Holds;
    var g, k := [[]] + gaps, [piece] + pieces;
    assert g[1..] == gaps && k[1..] == pieces;
    assert [] + rest == rest;
    assert Weave(g, k) == piece + Weave(gaps, pieces);
    Assoc(piece, Weave(gaps, pieces), left);
  }

  lemma ReadingDrop(dropped: seq<byte>, r: Result, rest: seq<byte>, u: Result,
                    gaps: seq<seq<byte>>, pieces: seq<seq<byte>>, left: seq<byte>)
    requires gaps != [] && IsReading(rest, u, gaps, pieces, left)
    requires r.sentences == [] && (r.errors == [] ==> DOLLAR !in dropped)
    ensures IsReading(dropped + rest, Then(r, u), [dropped + gaps[0]] + gaps[1..], pieces, left)
  {
    hide Spells, Holds;
    var g := [dropped + gaps[0]] + gaps[1..];
    assert Then(r, u).sentences == u.sentences;
    assert g[1..] == gaps[1..];
    assert Weave(g, pieces) == dropped + Weave(gaps, pieces);
    Assoc(dropped, Weave(gaps, pieces), left);
  }

  // ----- The converse ------------------------------------------------------

  lemma {:induction false} RunInert(p: Phase, t: seq<byte>)
    requires p.Tail? && Inert(t)
    ensures Run(p, t) == Result(p, [], [])
    decreases |t|
  {
    if t == [] {
    } else {
      RunInert(p, t[1..]);
    }
  }

  // After '$' and the characters.
  lemma RunOpened(body: seq<byte>)
    requires PlainBody(body)
    ensures Run(Idle, [DOLLAR] + body) == Result(Text(body), [], [])
  {
    assert [] + body == body;
    RunBody([], body);
    RunOne(Idle, DOLLAR);
    RunConcat(Idle, [DOLLAR], body);
  }

  lemma RunCloses(body: seq<byte>, t: seq<byte>, present: bool, received: byte)
    requires Closes(t, present, received)
    ensures Run(Text(body), t) == Result(Tail(body, present, received), [], [])
  {
    hide ParseHexByte;
    var p := Tail(body, present, received);
    if present {
      assert t == [t[0], t[1], t[2]] + t[3..];
      Run3(Text(body), t[0], t[1], t[2]);
      RunInert(p, t[3..]);
      RunConcat(Text(body), [t[0], t[1], t[2]], t[3..]);
    } else {
      assert t == [t[0]] + t[1..];
      RunOne(Text(body), t[0]);
      RunInert(p, t[1..]);
      RunConcat(Text(body), [t[0]], t[1..]);
    }
  }

  // The bytes of an unfinished sentence do leave an idle machine in that phase.
  lemma RunHeld(p: Phase, held: seq<byte>)
    requires Holds(p, held)
    ensures Run(Idle, held) == Result(p, [], [])
  {
    if p != Idle {
      var head, t := [DOLLAR] + p.body, held[|p.body| + 1..];
      assert held == head + t;
      RunOpened(p.body);
      RunConcat(Idle, head, t);
      RunAfterText(p, held);
    }
  }

  lemma RunAfterText(p: Phase, held: seq<byte>)
    requires p != Idle && Holds(p, held)
    ensures Run(Text(p.body), held[|p.body| + 1..]) == Result(p, [], [])
  {
    var t := held[|p.body| + 1..];
    match p
    case Text(body) =>
    case HighDigit(body) =>
      assert t == [STAR];
      RunOne(Text(body), STAR);
    case LowDigit(body, hi) =>
      assert t == [STAR, hi];
      Run2(Text(body), STAR, hi);
    case Tail(body, present, received) =>
      RunCloses(body, t, present, received);
  }

  lemma RunSpelled(piece: seq<byte>, s: Sentence)
    requires Spells(piece, s)
    ensures Run(Idle, piece) == Result(Idle, [s], [])
  {
    var init := piece[..|piece| - 1];
    assert piece == init + [LF];
    var p := if Holds(Text(s.body), init) && !s.present && s.checksum == 0 then Text(s.body)
             else Tail(s.body, s.present, s.checksum);
    RunHeld(p, init);
    RunSnoc(Idle, init, LF);
    hide Run, Holds, XorAll;
  }

  lemma RunPastGap(gap: seq<byte>, t: seq<byte>)
    requires DOLLAR !in gap
    ensures Run(Idle, gap + t) == Run(Idle, t)
  {
    RunNoDollar(gap);
    RunConcat(Idle, gap, t);
    hide Run;
    var r := Run(Idle, t);
    assert Then(Result(Idle, [], []), r) == r;
  }

  // Bytes that open nothing, one sentence and the rest.
  lemma RunParts(gap: seq<byte>, piece: seq<byte>, s: Sentence, rest: seq<byte>)
    requires DOLLAR !in gap && Spells(piece, s)
    ensures Run(Idle, gap + piece + rest) == Then(Result(Idle, [s], []), Run(Idle, rest))
  {
    hide Run, Spells, Then;
    RunSpelled(piece, s);
    RunConcat(Idle, piece, rest);
    RunPastGap(gap, piece + rest);
    Assoc(gap, piece, rest);
  }

  lemma {:induction false} RunWeave(gaps: seq<seq<byte>>, pieces: seq<seq<byte>>, sentences: seq<Sentence>)
    requires |gaps| == |pieces| + 1 && NoDollar(gaps) && AllSpell(pieces, sentences)
    ensures Run(Idle, Weave(gaps, pieces)) == Result(Idle, sentences, [])
    decreases |pieces|
  {
    hide Spells, Run;
    if pieces == [] {
      RunNoDollar(gaps[0]);
    } else {
      RunWeave(gaps[1..], pieces[1..], sentences[1..]);
      RunParts(gaps[0], pieces[0], sentences[0], Weave(gaps[1..], pieces[1..]));
      assert [sentences[0]] + sentences[1..] == sentences;
    }
  }

  // A stream of sentences with bytes other than '$' between them, stopped
  // anywhere in the last one.
  ghost predicate Decomposes(s: seq<byte>, r: Result) {
    exists gaps, pieces, left :: r.errors == [] && IsReading(s, r, gaps, pieces, left)
  }

  // Exactly those streams are read without an error, and they decide what is read.
  lemma CleanRunIff(s: seq<byte>, r: Result)
    ensures Decomposes(s, r) <==> r.errors == [] && Run(Idle, s) == r
  {
    if r.errors == [] && Run(Idle, s) == r {
      var gaps, pieces, left := Decompose(Idle, [], s);
      assert [] + s == s;
    }
    if Decomposes(s, r) {
      var gaps, pieces, left :| IsReading(s, r, gaps, pieces, left);
      RunWeave(gaps, pieces, r.sentences);
      RunHeld(r.phase, left);
      RunConcat(Idle, Weave(gaps, pieces), left);
      hide Run;
      assert r == Result(r.phase, r.sentences + [], []);
    }
  }

  // ----- What becomes of bad sentences -------------------------------------

  // A checksum that is not that of the characters is reported as such.
  lemma MismatchRejected(body: seq<byte>, t: seq<byte>, received: byte)
    requires PlainBody(body) && Closes(t, true, received) && received != XorAll(body)
    ensures Run(Idle, [DOLLAR] + body + t + [LF]) == Result(Idle, [], [ChecksumMismatch])
  {
    var held := [DOLLAR] + body + t;
    assert held[|body| + 1..] == t;
    RunHeld(Tail(body, true, received), held);
    RunSnoc(Idle, held, LF);
    hide Run, XorAll;
  }

  // So are two characters after '*' that are no hexadecimal number.
  lemma NoNumberRejected(body: seq<byte>, hi: byte, lo: byte)
    requires PlainBody(body) && ParseHexByte(hi, lo) == NotHex
    ensures Run(Idle, [DOLLAR] + body + [STAR, hi] + [lo]) == Result(Idle, [], [ChecksumMismatch])
  {
    var held := [DOLLAR] + body + [STAR, hi];
    RunHeld(LowDigit(body, hi), held);
    RunSnoc(Idle, held, lo);
    hide Run, ParseHexByte;
  }

  // The 257th character is one too many.
  lemma LongRejected(body: seq<byte>, b: byte)
    requires PlainBody(body) && |body| == 256 && b !in {DOLLAR, STAR, CR, LF}
    ensures Run(Idle, [DOLLAR] + body + [b]) == Result(Idle, [], [SentenceTooLong])
  {
    RunHeld(Text(body), [DOLLAR] + body);
    RunSnoc(Idle, [DOLLAR] + body, b);
    hide Run;
  }

  // A '$' before the end rejects what was begun, and begins anew, except where
  // a digit of the checksum is due.
  lemma InterruptedRejected(p: Phase, held: seq<byte>)
    requires Holds(p, held) && (p.Text? || p.Tail?)
    ensures Run(Idle, held + [DOLLAR]) == Result(Text([]), [], [UnexpectedStart])
  {
    RunHeld(p, held);
    RunSnoc(Idle, held, DOLLAR);
    hide Run, Holds;
  }

  // "$AB*03", with the end of line of the standard, and "$AB" alone.
  lemma SentenceAB()
    ensures var ab := ['A' as byte, 'B' as byte];
            && Run(Idle, ['$' as byte] + ab + ['*' as byte, '0' as byte, '3' as byte, 13, 10])
               == Result(Idle, [Sentence(ab, true, 3)], [])
            && Run(Idle, ['$' as byte] + ab + [13, 10]) == Result(Idle, [Sentence(ab, false, 0)], [])
  {
    var ab := ['A' as byte, 'B' as byte];
    XorOfAB();
    hide XorAll;
    WireAB();
    RunSentence(Checked(ab));
    RunSentence(Bare(ab));
    hide Run, Wire;
  }

  lemma WireAB()
    ensures var ab := ['A' as byte, 'B' as byte];
            && Wire(Checked(ab)) == ['$' as byte] + ab + ['*' as byte, '0' as byte, '3' as byte, 13, 10]
            && Wire(Bare(ab)) == ['$' as byte] + ab + [13, 10]
  {
    XorOfAB();
    hide XorAll;
  }

  // "$AB*04"
  lemma SentenceABWrong()
    ensures Run(Idle, ['$' as byte, 'A' as byte, 'B' as byte, '*' as byte, '0' as byte, '4' as byte, 13, 10])
         == Result(Idle, [], [ChecksumMismatch])
  {
    var ab := ['A' as byte, 'B' as byte];
    var t := ['*' as byte, '0' as byte, '4' as byte, 13];
    XorOfAB();
    hide XorAll, Run;
    MismatchRejected(ab, t, 4);
    assert ['$' as byte] + ab + t + [10]
        == ['$' as byte, 'A' as byte, 'B' as byte, '*' as byte, '0' as byte, '4' as byte, 13, 10];
  }
}
