// The NMEA parser as the source runs it: five states over a fixed buffer.
module NmeaParser {
  import opened Bytes
  import opened NmeaChecksum
  import opened NmeaFraming

  datatype ParseState = WaitDollar | AccumulateSentence | WaitChecksumHi | WaitChecksumLo | WaitLf

  class Parser {
    const buf: array<byte>
    var state: ParseState
    var bufLen: nat
    var runningChecksum: byte
    var csHi: byte
    var receivedChecksum: byte
    var checksumPresent: bool
    var sentencesDecoded: nat
    var sentencesDiscarded: nat
    // The calls made to the dispatcher.
    var dispatched: seq<Sentence>
    var errors: seq<Error>

    ghost predicate Valid()
      reads this, buf
    {
      && buf.Length == BUFFER_LEN + 1
      && bufLen <= BUFFER_LEN
      && runningChecksum == XorAll(buf[..bufLen])
      && (state == AccumulateSentence ==> !checksumPresent && receivedChecksum == 0)
      && (state == WaitChecksumHi || state == WaitChecksumLo ==> checksumPresent)
      // Once the characters are complete a NUL stands after them.
      && (state != WaitDollar && state != AccumulateSentence ==> buf[bufLen] == 0)
    }

    ghost function View(): Phase
      requires Valid()
      reads this, buf
    {
      var body := buf[..bufLen];
      match state
      case WaitDollar => Idle
      case AccumulateSentence => Text(body)
      case WaitChecksumHi => HighDigit(body)
      case WaitChecksumLo => LowDigit(body, csHi)
      case WaitLf => Tail(body, checksumPresent, receivedChecksum)
    }

    constructor ()
      ensures Valid() && View() == Idle && fresh(buf)
      ensures sentencesDecoded == 0 && sentencesDiscarded == 0 && dispatched == [] && errors == []
    {
      buf := new byte[BUFFER_LEN + 1](_ => 0);
      state, bufLen, runningChecksum, csHi := WaitDollar, 0, 0, 0;
      receivedChecksum, checksumPresent := 0, false;
      sentencesDecoded, sentencesDiscarded, dispatched, errors := 0, 0, [], [];
    }

    twostate predicate Reported(sentences: seq<Sentence>, discards: seq<Error>)
      reads this
    {
      && sentencesDecoded == old(sentencesDecoded) + |sentences|
      && sentencesDiscarded == old(sentencesDiscarded) + |discards|
      && dispatched == old(dispatched) + sentences
      && errors == old(errors) + discards
    }

    method ResetContext()
      requires buf.Length == BUFFER_LEN + 1
      modifies this`state, this`bufLen, this`runningChecksum, this`csHi, this`receivedChecksum
      modifies this`checksumPresent, buf
      ensures Valid() && state == WaitDollar && bufLen == 0 && !checksumPresent && receivedChecksum == 0
      ensures buf[0] == 0 && runningChecksum == 0 && csHi == 0
    {
      state, bufLen := WaitDollar, 0;
      buf[0] := 0;
      runningChecksum, csHi, receivedChecksum, checksumPresent := 0, 0, 0, false;
    }

    method Reset()
      requires Valid()
      modifies this, buf
      ensures Valid() && View() == Idle && sentencesDecoded == 0 && sentencesDiscarded == 0
      ensures dispatched == old(dispatched) && errors == old(errors)
    {
      ResetContext();
      sentencesDecoded, sentencesDiscarded := 0, 0;
    }

    method DiscardWithError(code: Error)
      requires buf.Length == BUFFER_LEN + 1
      modifies this, buf
      ensures Valid() && state == WaitDollar && bufLen == 0 && !checksumPresent && receivedChecksum == 0
      ensures Reported([], [code])
    {
      sentencesDiscarded := sentencesDiscarded + 1;
      errors := errors + [code];
      ResetContext();
    }

    method OnSentenceComplete()
      requires Valid() && buf[bufLen] == 0
      modifies this, buf
      ensures Valid() && state == WaitDollar
      ensures var (_, o) := old(Complete(buf[..bufLen], checksumPresent, receivedChecksum));
              Reported(if o.Dispatch? then [o.sentence] else [], if o.Discard? then [o.error] else [])
    {
      var sentence := Sentence(buf[..bufLen], checksumPresent, receivedChecksum);
      if checksumPresent {
        if runningChecksum != receivedChecksum {
          DiscardWithError(ChecksumMismatch);
          return;
        }
      }
      sentencesDecoded := sentencesDecoded + 1;
      dispatched := dispatched + [sentence];
      ResetContext();
    }

    // The accumulate_sentence case.
    method ProcessText(b: byte)
      requires Valid() && state == AccumulateSentence
      modifies this, buf
      ensures Valid()
      ensures var r := StepResult(old(View()), b);
              View() == r.phase && Reported(r.sentences, r.errors)
    {
      hide Xor, XorAll;
      if b == DOLLAR {
        DiscardWithError(UnexpectedStart);
        buf[0] := 0;
        bufLen := 0;
        state := AccumulateSentence;
      } else if b == STAR {
        buf[bufLen] := 0;
        assert buf[..bufLen] == old(buf[..bufLen]);
        checksumPresent := true;
        state := WaitChecksumHi;
      } else if b == CR {
        buf[bufLen] := 0;
        assert buf[..bufLen] == old(buf[..bufLen]);
        checksumPresent := false;
        state := WaitLf;
      } else if b == LF {
        buf[bufLen] := 0;
        assert buf[..bufLen] == old(buf[..bufLen]);
        checksumPresent := false;
        OnSentenceComplete();
      } else if bufLen >= BUFFER_LEN {
        DiscardWithError(SentenceTooLong);
      } else {
        Append(b);
      }
    }

    method Append(b: byte)
      requires Valid() && state == AccumulateSentence && bufLen < BUFFER_LEN
      modifies this`bufLen, this`runningChecksum, buf
      ensures Valid() && View() == Text(old(buf[..bufLen]) + [b])
    {
      hide Xor, XorAll;
      buf[bufLen] := b;
      assert buf[..bufLen + 1] == old(buf[..bufLen]) + [b];
      XorSnoc(old(buf[..bufLen]), b);
      bufLen := bufLen + 1;
      runningChecksum := Xor(runningChecksum, b);
    }

    // The wait_lf case.
    method ProcessTail(b: byte)
      requires Valid() && state == WaitLf
      modifies this, buf
      ensures Valid()
      ensures var r := StepResult(old(View()), b);
              View() == r.phase && Reported(r.sentences, r.errors)
    {
      if b == CR {
      } else if b == LF {
        OnSentenceComplete();
      } else if b == DOLLAR {
        DiscardWithError(UnexpectedStart);
        ResetContext();
        state := AccumulateSentence;
      } else {
      }
    }

    // One byte through the five states is one step of the specification; every
    // write stays inside the buffer.
    method ProcessByte(b: byte)
      requires Valid()
      modifies this, buf
      ensures Valid()
      ensures var r := StepResult(old(View()), b);
              View() == r.phase && Reported(r.sentences, r.errors)
    {
      hide XorAll, Xor, ParseHexByte;
      match state {
        case WaitDollar =>
          if b == DOLLAR {
            ResetContext();
            state := AccumulateSentence;
          }
        case AccumulateSentence =>
          ProcessText(b);
        case WaitChecksumHi =>
          csHi := b;
          state := WaitChecksumLo;
        case WaitChecksumLo =>
          var parsed := ParseHexByte(csHi, b);
          if parsed.NotHex? {
            DiscardWithError(ChecksumMismatch);
          } else {
            receivedChecksum := parsed.v;
            state := WaitLf;
          }
        case WaitLf =>
          ProcessTail(b);
      }
    }

    method Feed(data: seq<byte>)
      requires Valid()
      modifies this, buf
      ensures Valid()
      ensures var r := Run(old(View()), data);
              View() == r.phase && Reported(r.sentences, r.errors)
    {
      hide StepResult, XorAll;
      ghost var p, sent, errs := View(), dispatched, errors;
      for i := 0 to |data|
        invariant Valid()
        invariant var r := Run(p, data[..i]); View() == r.phase && Reported(r.sentences, r.errors)
      {
        hide Run;
        ghost var r := Run(p, data[..i]);
        ghost var u := StepResult(r.phase, data[i]);
        ProcessByte(data[i]);
        assert data[..i + 1] == data[..i] + [data[i]];
        RunSnoc(p, data[..i], data[i]);
        Assoc(sent, r.sentences, u.sentences);
        Assoc(errs, r.errors, u.errors);
      }
      assert data[..|data|] == data;
    }
  }
}
