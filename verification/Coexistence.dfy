// Both parsers on the bytes of one UART.
module Coexistence {
  import opened Bytes
  import P = UbxProtocol
  import U = UbxFraming
  import N = NmeaFraming

  datatype Item = UbxItem(frame: U.Frame) | NmeaItem(sentence: N.Printed)

  function Wire(i: Item): seq<byte> {
    match i
    case UbxItem(f) => U.Wire(f)
    case NmeaItem(s) => N.Wire(s)
  }

  lemma WireOf(i: Item)
    ensures i.NmeaItem? ==> Wire(i) == N.Wire(i.sentence)
  {
  }

  function Stream(items: seq<Item>): seq<byte> {
    if items == [] then [] else Wire(items[0]) + Stream(items[1..])
  }

  function FramesOf(items: seq<Item>): seq<U.Frame> {
    if items == [] then []
    else if items[0].UbxItem? then [items[0].frame] + FramesOf(items[1..])
    else FramesOf(items[1..])
  }

  function SentencesOf(items: seq<Item>): seq<N.Sentence> {
    if items == [] then []
    else if items[0].NmeaItem? then [N.Parsed(items[0].sentence)] + SentencesOf(items[1..])
    else SentencesOf(items[1..])
  }

  // Whole frames within the limit and whole sentences.
  predicate WellFormed(limit: nat, items: seq<Item>) {
    forall k :: 0 <= k < |items| ==>
      match items[k]
      case UbxItem(f) => U.GoodWithin(limit, f)
      case NmeaItem(s) => N.PlainBody(s.body)
  }

  // No sync pair inside any sentence; true of ASCII text.
  predicate QuietSentences(items: seq<Item>) {
    forall k :: 0 <= k < |items| && items[k].NmeaItem? ==> U.Quiet(Wire(items[k]))
  }

  // No 0x24 byte inside any frame.
  predicate DollarFree(items: seq<Item>) {
    forall k :: 0 <= k < |items| && items[k].UbxItem? ==> N.DOLLAR !in Wire(items[k])
  }

  // ----- The UBX parser ----------------------------------------------------

  // A sentence passes the UBX parser by, without output and leaving it between
  // frames, exactly when it holds no sync pair.
  lemma SentenceInvisibleIff(limit: nat, s: N.Printed)
    ensures U.Run(limit, U.Hunting, N.Wire(s)) == U.Result(U.Hunting, [], []) <==> U.Quiet(N.Wire(s))
  {
    var w := N.Wire(s);
    EndsInLineFeed(s);
    assert U.Pending(U.Hunting) + w == w;
    if U.Quiet(w) {
      U.RunQuiet(limit, U.Hunting, w);
    }
    if U.Run(limit, U.Hunting, w) == U.Result(U.Hunting, [], []) {
      var gaps := U.Decompose(limit, U.Hunting, w);
      assert gaps[0] == w;
    }
  }

  lemma EndsInLineFeed(s: N.Printed)
    ensures N.Wire(s) != [] && N.Wire(s)[|N.Wire(s)| - 1] == N.LF
  {
  }

  // At every item boundary the UBX parser is between frames and has dispatched
  // exactly the frames sent so far, with nothing rejected.
  ghost predicate UbxInStep(limit: nat, items: seq<Item>) {
    forall k :: 0 <= k <= |items| ==>
      U.Run(limit, U.Hunting, Stream(items[..k])) == U.Result(U.Hunting, FramesOf(items[..k]), [])
  }

  lemma {:induction false} StreamSnoc(items: seq<Item>, last: Item)
    ensures Stream(items + [last]) == Stream(items) + Wire(last)
    ensures FramesOf(items + [last]) == FramesOf(items) + FramesOf([last])
  {
    hide Wire;
    assert FramesOf([]) == [] && Stream([]) == [];
    if items == [] {
      assert [] + [last] == [last];
      assert [last][1..] == [];
    } else {
      StreamSnoc(items[1..], last);
      assert (items + [last])[1..] == items[1..] + [last];
      Assoc(Wire(items[0]), Stream(items[1..]), Wire(last));
    }
  }

  lemma UbxStep(limit: nat, items: seq<Item>, last: Item)
    requires WellFormed(limit, [last])
    requires U.Run(limit, U.Hunting, Stream(items)) == U.Result(U.Hunting, FramesOf(items), [])
    ensures U.Run(limit, U.Hunting, Stream(items + [last])) == U.Result(U.Hunting, FramesOf(items + [last]), [])
       <==> QuietSentences([last])
  {
    StreamSnoc(items, last);
    U.RunConcat(limit, U.Hunting, Stream(items), Wire(last));
    assert [last][1..] == [];
    match last {
      case UbxItem(f) =>
        assert U.GoodWithin(limit, [last][0].frame);
        U.RunWire(limit, U.Hunting, f);
        assert FramesOf([last]) == [f] + FramesOf([]);
      case NmeaItem(s) =>
        SentenceInvisibleIff(limit, s);
        assert FramesOf([last]) == [];
        assert QuietSentences([last]) <==> U.Quiet(Wire([last][0]));
        var u := U.Run(limit, U.Hunting, N.Wire(s));
        hide U.Run, U.Quiet, Stream, N.Wire, QuietSentences, FramesOf;
        var fs := FramesOf(items);
        assert FramesOf(items + [last]) == fs;
        assert fs + u.frames == fs <==> u.frames == [] by { assert |fs + u.frames| == |fs| + |u.frames|; }
    }
  }

  lemma {:induction false} UbxInStepIff(limit: nat, items: seq<Item>)
    requires WellFormed(limit, items)
    ensures UbxInStep(limit, items) <==> QuietSentences(items)
  {
    if items == [] {
    } else {
      var n := |items| - 1;
      var front, last := items[..n], items[n];
      assert front + [last] == items;
      assert WellFormed(limit, front) && WellFormed(limit, [last]);
      assert QuietSentences(items) <==> QuietSentences(front) && QuietSentences([last]) by { QuietSplit(front, last); }
      UbxInStepIff(limit, front);
      assert forall k :: 0 <= k <= n ==> items[..k] == front[..k];
      assert items[..n + 1] == items && front[..n] == front;
      if UbxInStep(limit, front) {
        assert U.Run(limit, U.Hunting, Stream(front[..n])) == U.Result(U.Hunting, FramesOf(front[..n]), []);
        UbxStep(limit, front, last);
      }
      InStepSplit(limit, front, last);
    }
  }

  lemma QuietSplit(front: seq<Item>, last: Item)
    ensures QuietSentences(front + [last]) <==> QuietSentences(front) && QuietSentences([last])
  {
    var items := front + [last];
    assert forall k :: 0 <= k < |front| ==> items[k] == front[k];
    assert items[|front|] == last == [last][0];
  }

  lemma InStepSplit(limit: nat, front: seq<Item>, last: Item)
    ensures UbxInStep(limit, front + [last])
       <==> (UbxInStep(limit, front)
             && U.Run(limit, U.Hunting, Stream(front + [last])) == U.Result(U.Hunting, FramesOf(front + [last]), []))
  {
    hide U.Run, Stream, FramesOf;
    var items := front + [last];
    assert forall k :: 0 <= k <= |front| ==> items[..k] == front[..k];
    assert items[..|items|] == items;
  }

  // ----- The NMEA parser ---------------------------------------------------

  lemma {:induction false} NmeaForward(limit: nat, items: seq<Item>)
    requires WellFormed(limit, items) && DollarFree(items)
    ensures N.Run(N.Idle, Stream(items)) == N.Result(N.Idle, SentencesOf(items), [])
  {
    if items == [] {
    } else {
      var i := items[0];
      assert WellFormed(limit, items[1..]) && DollarFree(items[1..]) by { Tails(limit, items); }
      NmeaForward(limit, items[1..]);
      N.RunConcat(N.Idle, Wire(i), Stream(items[1..]));
      if i.NmeaItem? {
        N.RunSentence(i.sentence);
      } else {
        N.RunNoDollar(Wire(i));
      }
    }
  }

  lemma Tails(limit: nat, items: seq<Item>)
    requires items != [] && WellFormed(limit, items)
    ensures WellFormed(limit, items[1..])
    ensures DollarFree(items) ==> DollarFree(items[1..])
    ensures DollarFree(items) <== DollarFree(items[1..]) && (items[0].UbxItem? ==> N.DOLLAR !in Wire(items[0]))
  {
    assert forall k :: 0 <= k < |items[1..]| ==> items[1..][k] == items[k + 1];
    assert forall k :: 1 <= k < |items| ==> items[k] == items[1..][k - 1];
  }

  // Sentences dispatched, plus one if a sentence is open.
  function Taken(r: N.Result): nat {
    |r.sentences| + N.InProgress(r.phase)
  }

  // Once a sentence is open where none was sent, the count never recovers
  // without an error.
  lemma {:induction false} SurplusStays(limit: nat, p: N.Phase, items: seq<Item>)
    requires WellFormed(limit, items)
    ensures var r := N.Run(p, Stream(items));
            r.errors != [] || Taken(r) >= |SentencesOf(items)| + N.InProgress(p)
    decreases |items|
  {
    hide Wire;
    if items == [] {
    } else {
      var i := items[0];
      Tails(limit, items);
      var u := N.Run(p, Wire(i));
      SurplusStays(limit, u.phase, items[1..]);
      N.RunConcat(p, Wire(i), Stream(items[1..]));
      N.Conservation(p, Wire(i));
      if i.NmeaItem? {
        assert Wire(i) == N.Wire(i.sentence) by { WireOf(i); }
        if p == N.Idle {
          N.RunSentence(i.sentence);
        } else {
          N.InterruptionIsAnError(p, i.sentence);
        }
      }
    }
  }

  lemma {:induction false} DollarSpoils(limit: nat, items: seq<Item>)
    requires WellFormed(limit, items) && !DollarFree(items)
    ensures var r := N.Run(N.Idle, Stream(items));
            r.errors != [] || Taken(r) > |SentencesOf(items)|
  {
    var i := items[0];
    Tails(limit, items);
    var u := N.Run(N.Idle, Wire(i));
    N.RunConcat(N.Idle, Wire(i), Stream(items[1..]));
    if i.NmeaItem? {
      N.RunSentence(i.sentence);
      DollarSpoils(limit, items[1..]);
    } else if N.DOLLAR in Wire(i) {
      N.DollarStarts(Wire(i));
      N.Conservation(N.Idle, Wire(i));
      SurplusStays(limit, u.phase, items[1..]);
    } else {
      N.RunNoDollar(Wire(i));
      DollarSpoils(limit, items[1..]);
    }
  }

  // The NMEA parser ends idle with as many sentences as were sent and no
  // discard exactly when no frame holds a 0x24 byte; and then they are the
  // sentences sent.
  lemma NmeaCleanIff(limit: nat, items: seq<Item>)
    requires WellFormed(limit, items)
    ensures var r := N.Run(N.Idle, Stream(items));
            && (r.phase == N.Idle && r.errors == [] && |r.sentences| == |SentencesOf(items)| <==> DollarFree(items))
            && (DollarFree(items) ==> r == N.Result(N.Idle, SentencesOf(items), []))
  {
    if DollarFree(items) {
      NmeaForward(limit, items);
    } else {
      DollarSpoils(limit, items);
    }
  }

  // ----- Both --------------------------------------------------------------

  lemma BothParsers(limit: nat, items: seq<Item>)
    requires WellFormed(limit, items) && QuietSentences(items) && DollarFree(items)
    ensures U.Run(limit, U.Hunting, Stream(items)) == U.Result(U.Hunting, FramesOf(items), [])
    ensures N.Run(N.Idle, Stream(items)) == N.Result(N.Idle, SentencesOf(items), [])
  {
    UbxInStepIff(limit, items);
    NmeaCleanIff(limit, items);
    assert items[..|items|] == items;
  }

  // The documentation promises co-existence without a condition.  A one-byte
  // payload of 0x24 already breaks it.
  lemma DollarFrameBreaksNmea(limit: nat)
    requires limit >= 1
    ensures var f := U.Frame(5, 1, 1, [0x24], 43, 68);
            U.GoodWithin(limit, f) && N.Run(N.Idle, U.Wire(f)) != N.Result(N.Idle, [], [])
  {
    var f := U.Frame(5, 1, 1, [0x24], 43, 68);
    SampleChecksum();
    hide P.Fletcher;
    assert U.Covered(f) == [5, 1, 1, 0, 0x24];
    assert U.Wire(f)[6] == 0x24;
    N.DollarStarts(U.Wire(f));
    N.Conservation(N.Idle, U.Wire(f));
  }

  lemma SampleByte()
    ensures P.Fletcher([5]) == P.Checksum(5, 5)
  {
    assert [5][..0] == [];
  }

  lemma SampleHead()
    ensures P.Fletcher([5, 1, 1]) == P.Checksum(7, 18)
  {
    hide P.Fletcher;
    SampleByte();
    P.FletcherSnoc([5], 1);
    assert [5] + [1] == [5, 1];
    P.FletcherSnoc([5, 1], 1);
    assert [5, 1] + [1] == [5, 1, 1];
  }

  lemma SampleChecksum()
    ensures P.Fletcher([5, 1, 1, 0, 0x24]) == P.Checksum(43, 68)
  {
    SampleHead();
    hide P.Fletcher;
    P.FletcherSnoc([5, 1, 1], 0);
    assert [5, 1, 1] + [0] == [5, 1, 1, 0];
    P.FletcherSnoc([5, 1, 1, 0], 0x24);
    assert [5, 1, 1, 0] + [0x24] == [5, 1, 1, 0, 0x24];
  }
}
