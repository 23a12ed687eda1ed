// Feeding a parser piece by piece: what it has done after all of it.
module Feeding {
  import opened Bytes
  import opened UbxFraming
  import opened UbxParser

  // Feeding two buffers one after the other is feeding them joined.
  lemma FeedJoin(limit: nat, p: Phase, s: seq<byte>, t: seq<byte>, decoders: set<(byte, byte)>)
    ensures var r := Run(limit, p, s);
            var u := Run(limit, r.phase, t);
            var w := Run(limit, p, s + t);
            && w.phase == u.phase && w.frames == r.frames + u.frames && w.rejects == r.rejects + u.rejects
            && Registered(decoders, w.frames) == Registered(decoders, r.frames) + Registered(decoders, u.frames)
  {
    hide Run, Registered;
    RunConcat(limit, p, s, t);
    var r := Run(limit, p, s);
    var u := Run(limit, r.phase, t);
    RegisteredAppend(decoders, r.frames, u.frames);
  }

  lemma NothingFed(limit: nat, p: Phase, decoders: set<(byte, byte)>)
    ensures Run(limit, p, []) == Result(p, [], []) && Recording([]) == [] && Registered(decoders, []) == []
  {
  }

  // A parser's counters, decoder calls, errors and record file at some moment.
  datatype Books = Books(
    decoded: seq<Frame>,
    errors: seq<Reject>,
    file: seq<byte>,
    framesDecoded: nat,
    framesDiscarded: nat)

  ghost function BooksOf(parser: Parser): Books
    reads parser, parser.dispatcher.Footprint()
  {
    Books(parser.dispatcher.decoded, parser.dispatcher.errors, parser.dispatcher.File(),
          parser.framesDecoded, parser.framesDiscarded)
  }

  // The books c are the books b after the outputs of a run, with or without a
  // record callback.  Only that callback can throw, and then at the last frame.
  predicate Posted(b: Books, c: Books, r: Result, decoders: set<(byte, byte)>, recording: bool, thrown: bool) {
    && c.decoded == b.decoded + Registered(decoders, r.frames)
    && c.errors == b.errors + r.rejects
    && c.framesDecoded == b.framesDecoded + |r.frames|
    && c.framesDiscarded == b.framesDiscarded + |r.rejects|
    && if recording then Written(b.file, c.file, r.frames, thrown) else !thrown && c.file == b.file
  }

  lemma PostedTwice(b: Books, c: Books, d: Books, limit: nat, p: Phase, s: seq<byte>, t: seq<byte>,
      decoders: set<(byte, byte)>, recording: bool, thrown: bool)
    requires Posted(b, c, Run(limit, p, s), decoders, recording, false)
    requires Posted(c, d, Run(limit, Run(limit, p, s).phase, t), decoders, recording, thrown)
    ensures Posted(b, d, Run(limit, p, s + t), decoders, recording, thrown)
    ensures Run(limit, Run(limit, p, s).phase, t).phase == Run(limit, p, s + t).phase
  {
    hide Run, Recording, Registered, Written;
    FeedJoin(limit, p, s, t, decoders);
    var r := Run(limit, p, s);
    var u := Run(limit, r.phase, t);
    Assoc(b.decoded, Registered(decoders, r.frames), Registered(decoders, u.frames));
    Assoc(b.errors, r.rejects, u.rejects);
    if recording {
      WrittenTwice(b.file, c.file, d.file, r.frames, u.frames, thrown);
    }
  }

  // After `done`, starting in phase p with the books b; `thrown` when the record
  // callback threw at the last byte.
  ghost predicate Consumed(parser: Parser, p: Phase, b: Books, done: seq<byte>, thrown: bool)
    reads parser, parser.dispatcher.Footprint()
  {
    var r := Run(parser.maxPayloadLen, p, done);
    && parser.View() == r.phase
    && Posted(b, BooksOf(parser), r, parser.dispatcher.decoders, parser.dispatcher.recorder != null, thrown)
  }

  method FeedMore(parser: Parser, data: seq<byte>, ghost p: Phase, ghost b: Books, ghost done: seq<byte>)
    returns (thrown: bool, ghost n: nat)
    requires parser.Valid() && Consumed(parser, p, b, done, false)
    modifies parser, parser.dispatcher.Footprint()
    ensures parser.Valid() && parser.dispatcher.recorder == old(parser.dispatcher.recorder)
    ensures parser.maxPayloadLen == old(parser.maxPayloadLen)
    ensures n <= |data| && (!thrown ==> n == |data|) && Consumed(parser, p, b, done + data[..n], thrown)
    ensures thrown || parser.dispatcher.MayThrow() ==> old(parser.dispatcher.MayThrow())
  {
    hide Run, Recording, Registered, Written, Dispatcher.MayThrow;
    ghost var middle := BooksOf(parser);
    thrown, n := parser.Feed(data);
    PostedTwice(b, middle, BooksOf(parser), parser.maxPayloadLen, p, done, data[..n],
                parser.dispatcher.decoders, parser.dispatcher.recorder != null, thrown);
  }

  // A live stream, cut into feed calls anywhere, until the record callback throws.
  method FeedAll(parser: Parser, chunks: seq<seq<byte>>) returns (thrown: bool, ghost fed: seq<byte>)
    requires parser.Valid()
    modifies parser, parser.dispatcher.Footprint()
    ensures parser.Valid() && parser.dispatcher.recorder == old(parser.dispatcher.recorder)
    ensures parser.maxPayloadLen == old(parser.maxPayloadLen)
    ensures fed <= Flatten(chunks) && (!thrown ==> fed == Flatten(chunks))
    ensures Consumed(parser, old(parser.View()), old(BooksOf(parser)), fed, thrown)
    ensures thrown || parser.dispatcher.MayThrow() ==> old(parser.dispatcher.MayThrow())
  {
    ghost var p, b := parser.View(), BooksOf(parser);
    thrown, fed := false, [];
    NothingConsumed(parser);
    hide Consumed, Run, Dispatcher.MayThrow, BooksOf, Parser.View, Parser.Valid;
    for i := 0 to |chunks|
      invariant parser.Valid() && parser.dispatcher.recorder == old(parser.dispatcher.recorder)
      invariant parser.maxPayloadLen == old(parser.maxPayloadLen)
      invariant fed + Flatten(chunks[i..]) == Flatten(chunks)
      invariant Consumed(parser, p, b, fed, false)
      invariant parser.dispatcher.MayThrow() ==> old(parser.dispatcher.MayThrow())
    {
      NextChunk(fed, chunks, i);
      hide Flatten;
      ghost var n;
      thrown, n := FeedMore(parser, chunks[i], p, b, fed);
      fed := fed + chunks[i][..n];
      if thrown {
        return;
      }
      assert chunks[i][..n] == chunks[i];
    }
    assert chunks[|chunks|..] == [] && fed + [] == fed;
  }

  lemma NextChunk<T>(fed: seq<T>, chunks: seq<seq<T>>, i: nat)
    requires i < |chunks|
    ensures fed + Flatten(chunks[i..]) == fed + chunks[i] + Flatten(chunks[i + 1..])
    ensures forall n :: 0 <= n <= |chunks[i]| ==> fed + chunks[i][..n] <= fed + Flatten(chunks[i..])
  {
    assert chunks[i..][1..] == chunks[i + 1..];
    Assoc(fed, chunks[i], Flatten(chunks[i + 1..]));
  }

  lemma NothingConsumed(parser: Parser)
    ensures Consumed(parser, parser.View(), BooksOf(parser), [], false)
  {
    NothingFed(parser.maxPayloadLen, parser.View(), parser.dispatcher.decoders);
    hide Run, Recording, Registered;
  }
}
