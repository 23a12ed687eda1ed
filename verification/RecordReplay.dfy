// Record and replay end to end, with the objects that do it: the live parser
// writes the record file through the record callback, and the worker loop
// reads the file back through a file channel and feeds a second parser.
module RecordReplay {
  import opened Bytes
  import opened UbxProtocol
  import opened UbxFraming
  import opened UbxParser
  import opened Feeding
  import opened Worker
  import FdManager
  import FilePort

  // ----- The worker on a replay file ---------------------------------------

  const READABLE := FdManager.Revents(false, true, false)

  // A turn on a replay file: its descriptor always polls readable.
  function FileTurn(fd: nat, available: int, data: seq<byte>): Turn {
    Turn(false, fd, FdManager.Ready([READABLE]), available, false, data, false, -1)
  }

  predicate Smooth(turns: seq<Turn>) {
    forall i :: 0 <= i < |turns| ==> !turns[i].stopped && !Trouble(turns[i])
  }

  lemma {:induction false} SmoothNeverFails(turns: seq<Turn>)
    requires Smooth(turns)
    ensures TrailingFailures(turns) == 0
  {
    if turns == [] {
    } else {
      SmoothNeverFails(turns[..|turns| - 1]);
    }
  }

  lemma FileTurnFeeds(turns: seq<Turn>, fd: nat, available: int, data: seq<byte>)
    requires Smooth(turns) && 0 < |data| <= available && |data| <= READ_CHUNK_BYTES
    ensures Smooth(turns + [FileTurn(fd, available, data)])
    ensures Fed(turns + [FileTurn(fd, available, data)]) == Fed(turns) + data
  {
    var all := turns + [FileTurn(fd, available, data)];
    assert all[..|turns|] == turns;
  }

  lemma AvailableIsRest(file: seq<byte>, pos: nat, n: int)
    requires pos <= |file| && forall len: nat :: |FilePort.Read(file, false, pos, len).0| == len <==> len <= n
    ensures n == |file| - pos
  {
    var k := |file| - pos;
    assert |FilePort.Read(file, false, pos, k).0| == k;
    assert |FilePort.Read(file, false, pos, k + 1).0| != k + 1;
  }

  // What the worker's turns get from the file channel, until nothing is left
  // or a read throws.
  method FileTurns(port: FilePort.Port, fd: nat) returns (turns: seq<Turn>, thrown: bool)
    requires port.Valid() && port.isOpen && !port.loops
    modifies port`pos, port`script
    ensures port.Valid() && Smooth(turns)
    ensures Fed(turns) <= old(port.file[port.pos..])
    ensures !thrown ==> Fed(turns) == old(port.file[port.pos..])
    ensures thrown ==> FilePort.Fails in old(port.script)
  {
    turns, thrown := [], false;
    ghost var start := port.pos;
    EmptyHistory();
    assert port.file[start..start] == [];
    var avail := port.Available();
    AvailableIsRest(port.file, port.pos, avail);
    hide Fed, Smooth, Trouble, FilePort.Read;
    assert Smooth([]) by { NothingSmooth(); }
    while avail > 0
      invariant port.Valid() && start <= port.pos && avail == |port.file| - port.pos
      invariant FilePort.Fails in port.script ==> FilePort.Fails in old(port.script)
      invariant Smooth(turns) && Fed(turns) == port.file[start..port.pos]
    {
      ghost var from := port.pos;
      var failed, data := ReadSome(port, avail);
      if failed {
        return turns, true;
      }
      FilePort.Adjoin(port.file, start, from, port.pos);
      FileTurnFeeds(turns, fd, avail, data);
      turns := turns + [FileTurn(fd, avail, data)];
      avail := port.Available();
      AvailableIsRest(port.file, port.pos, avail);
    }
    assert port.file[start..port.pos] == port.file[start..];
  }

  lemma NothingSmooth()
    ensures Smooth([])
  {
  }

  // At most a chunk of what is available, which is then read in full.
  method ReadSome(port: FilePort.Port, avail: int) returns (thrown: bool, data: seq<byte>)
    requires port.Valid() && port.isOpen && !port.loops
    requires 0 < avail == |port.file| - port.pos
    modifies port`pos, port`script
    ensures port.Valid()
    ensures FilePort.Fails in port.script ==> FilePort.Fails in old(port.script)
    ensures thrown ==> FilePort.Fails in old(port.script)
    ensures !thrown ==> old(port.pos) < port.pos && data == port.file[old(port.pos)..port.pos]
    ensures !thrown ==> 0 < |data| <= avail && |data| <= READ_CHUNK_BYTES
  {
    var size := if avail > READ_CHUNK_BYTES then READ_CHUNK_BYTES else avail;
    thrown, data := port.ReadBytes(size);
  }

  lemma {:induction false} FedPrefix(turns: seq<Turn>, n: nat)
    requires n <= |turns|
    ensures Fed(turns[..n]) <= Fed(turns)
    decreases |turns|
  {
    if n == |turns| {
      assert turns[..n] == turns;
    } else {
      var init := turns[..|turns| - 1];
      FedPrefix(init, n);
      assert init[..n] == turns[..n];
    }
  }

  // The worker loop over a replay file.  The port is read by nobody else, so
  // its answers are taken first and the loop is run over them.  A read may
  // throw, and so may the record callback of the parser.
  method Replay(port: FilePort.Port, parser: Parser, fd: nat)
    returns (thrown: bool, broken: bool, ghost fed: seq<byte>)
    requires port.Valid() && port.isOpen && !port.loops && parser.Valid()
    requires port !in parser.dispatcher.Footprint()
    modifies port`pos, port`script, parser, parser.dispatcher.Footprint()
    ensures parser.Valid() && parser.dispatcher.recorder == old(parser.dispatcher.recorder)
    ensures parser.maxPayloadLen == old(parser.maxPayloadLen)
    ensures Consumed(parser, old(parser.View()), old(BooksOf(parser)), fed, broken)
    ensures fed <= old(port.file[port.pos..])
    ensures !thrown && !broken ==> fed == old(port.file[port.pos..])
    ensures thrown ==> FilePort.Fails in old(port.script)
    ensures broken ==> old(parser.dispatcher.MayThrow())
  {
    hide Consumed, Fed, TrailingFailures, Trouble, FilePort.Read, Dispatcher.MayThrow, BooksOf;
    var turns;
    turns, thrown := FileTurns(port, fd);
    var loop := new Loop(parser);
    var n, ended;
    n, ended, broken := loop.Run(turns);
    fed := loop.fed;
    SmoothPrefix(turns, n);
    SmoothNeverFails(turns[..n]);
    FedPrefix(turns, n);
    assert turns[..|turns|] == turns;
  }

  lemma SmoothPrefix(turns: seq<Turn>, n: nat)
    requires Smooth(turns) && n <= |turns|
    ensures Smooth(turns[..n])
  {
  }

  // ----- Record, then replay -----------------------------------------------

  // The frames of a record file that stand there whole.
  function Whole(frames: seq<Frame>, torn: bool): seq<Frame> {
    if torn && frames != [] then frames[..|frames| - 1] else frames
  }

  lemma RunPrefix(limit: nat, p: Phase, part: seq<byte>, all: seq<byte>)
    requires part <= all
    ensures Run(limit, p, part).frames <= Run(limit, p, all).frames
    ensures Run(limit, p, part).rejects <= Run(limit, p, all).rejects
  {
    RunConcat(limit, p, part, all[|part|..]);
    assert all == part + all[|part|..];
    hide Run;
  }

  lemma RunRecording(limit: nat, frames: seq<Frame>)
    requires AllGood(limit, frames)
    ensures Run(limit, Hunting, Recording(frames)) == Result(Hunting, frames, [])
  {
    hide Recording, Run, GoodWithin;
    RecordingIsWeave(frames);
    Completeness(limit, NoGaps(|frames|), frames);
    LastGapEmpty(|frames|);
  }

  lemma DispatchedFits(limit: nat, s: seq<byte>, f: Frame)
    requires Run(limit, Hunting, s).frames == [f]
    ensures |s| >= |Wire(f)|
  {
    var gaps := Decompose(limit, Hunting, s);
    hide Run, Wire;
    assert s == Weave(gaps, [f]) == gaps[0] + Wire(f) + Weave(gaps[1..], []);
  }

  // A frame cut short is not dispatched, and nothing is rejected for it.
  lemma RunCutShort(limit: nat, f: Frame, part: seq<byte>)
    requires GoodWithin(limit, f) && part < Wire(f)
    ensures Run(limit, Hunting, part).frames == [] && Run(limit, Hunting, part).rejects == []
  {
    hide Run, Wire, GoodWithin;
    RunPrefix(limit, Hunting, part, Wire(f));
    RunRecording(limit, [f]);
    NothingRecorded(f);
    if Run(limit, Hunting, part).frames == [f] {
      DispatchedFits(limit, part, f);
    }
  }

  // A record file, whole or torn by a failed write, replays as its whole frames.
  lemma ReplayOfFile(limit: nat, frames: seq<Frame>, file: seq<byte>, torn: bool)
    requires AllGood(limit, frames) && Written([], file, frames, torn)
    ensures var r := Run(limit, Hunting, file);
            r.frames == Whole(frames, torn) && r.rejects == [] && (!torn ==> r.phase == Hunting)
  {
    hide Run, Recording, GoodWithin;
    if torn {
      var init, last := frames[..|frames| - 1], frames[|frames| - 1];
      RunRecording(limit, init);
      assert frames == init + [last];
      RecordingAppend(init, [last]);
      NothingRecorded(last);
      var w := file[|Recording(init)|..];
      assert [] + Recording(init) == Recording(init) && [] + Recording(frames) == Recording(frames);
      assert file == Recording(init) + w && w < Wire(last);
      RunCutShort(limit, last, w);
      RunConcat(limit, Hunting, Recording(init), w);
    } else {
      assert file == Recording(frames);
      RunRecording(limit, frames);
    }
  }

  lemma {:induction false} RecordedPrefix(decoders: set<(byte, byte)>, frames: seq<Frame>, k: nat)
    requires k <= |frames|
    ensures Registered(decoders, frames[..k]) <= Registered(decoders, frames)
    ensures Recording(frames[..k]) <= Recording(frames)
  {
    assert frames == frames[..k] + frames[k..];
    RegisteredAppend(decoders, frames[..k], frames[k..]);
    RecordingAppend(frames[..k], frames[k..]);
  }

  // Replaying a part of a file and recording it again gives a part of the file.
  lemma RecordedAgain(frames: seq<Frame>, file: seq<byte>, torn: bool, again: seq<byte>, k: nat, tornAgain: bool)
    requires Written([], file, frames, torn) && k <= |Whole(frames, torn)|
    requires Written([], again, frames[..k], tornAgain)
    ensures again <= file
    ensures !torn && !tornAgain && k == |frames| ==> again == file
  {
    var whole := Whole(frames, torn);
    assert whole[..k] == frames[..k];
    RecordedPrefix({}, whole, k);
    hide Recording;
    assert [] + Recording(frames[..k]) == Recording(frames[..k]) && [] + Recording(whole) == Recording(whole);
    assert again <= Recording(frames[..k]) <= Recording(whole) <= file;
    assert !torn ==> file == Recording(frames);
    assert k == |frames| ==> frames[..k] == frames;
  }

  const NO_BOOKS := Books([], [], [], 0, 0)

  // What a recording parser that began with nothing has done.
  lemma FromNothing(parser: Parser, done: seq<byte>, thrown: bool)
    requires Consumed(parser, Hunting, NO_BOOKS, done, thrown) && parser.dispatcher.recorder != null
    ensures var r := Run(parser.maxPayloadLen, Hunting, done);
            && parser.View() == r.phase
            && Written([], parser.dispatcher.File(), r.frames, thrown)
            && parser.dispatcher.decoded == Registered(parser.dispatcher.decoders, r.frames)
            && parser.dispatcher.errors == r.rejects
            && parser.framesDecoded == |r.frames| && parser.framesDiscarded == |r.rejects|
  {
    hide Run, Recording, Registered, Written;
    var r := Run(parser.maxPayloadLen, Hunting, done);
    assert Posted(NO_BOOKS, BooksOf(parser), r, parser.dispatcher.decoders, true, thrown);
  }

  method NewRecordingParser(decoders: set<(byte, byte)>, limit: nat, writes: seq<FilePort.Outcome>)
    returns (parser: Parser)
    requires limit < 65536
    ensures fresh(parser) && fresh(parser.dispatcher.Footprint())
    ensures parser.Valid() && parser.View() == Hunting && parser.maxPayloadLen == if limit == 0 then 1 else limit
    ensures parser.dispatcher.decoders == decoders && parser.dispatcher.recorder != null
    ensures BooksOf(parser) == NO_BOOKS
    ensures parser.dispatcher.MayThrow() ==> FilePort.Fails in writes
  {
    parser := new Parser(decoders);
    parser.SetMaxPayloadLength(limit);
    var file := new FilePort.Port([], false, true, writes);
    var recorder := new Recorder(file);
    parser.dispatcher.SetRawMessageCallback(recorder);
  }

  // A live stream through a recording parser, cut anywhere: which of its frames
  // are dispatched, and what the record file then holds.
  method RecordLive(live: seq<seq<byte>>, decoders: set<(byte, byte)>, limit: nat, writes: seq<FilePort.Outcome>)
    returns (parser: Parser, torn: bool, ghost m: nat)
    requires limit < 65536
    ensures fresh(parser) && fresh(parser.dispatcher.Footprint()) && parser.dispatcher.recorder != null
    ensures var recorded := Run(if limit == 0 then 1 else limit, Hunting, Flatten(live)).frames;
            && m <= |recorded| && (if torn then m > 0 && FilePort.Fails in writes else m == |recorded|)
            && parser.dispatcher.decoded == Registered(decoders, recorded[..m]) && parser.framesDecoded == m
            && Written([], parser.dispatcher.File(), recorded[..m], torn)
  {
    hide Recording, Registered, Run, Consumed, Written, Dispatcher.MayThrow;
    ghost var taken;
    parser := NewRecordingParser(decoders, limit, writes);
    ghost var within, stream := parser.maxPayloadLen, Flatten(live);
    torn, taken := FeedAll(parser, live);
    FromNothing(parser, taken, torn);
    RunPrefix(within, Hunting, taken, stream);
    m := parser.framesDecoded;
    ghost var recorded := Run(within, Hunting, stream).frames;
    assert Run(within, Hunting, taken).frames == recorded[..m];
    assert !torn ==> recorded[..m] == recorded;
    assert torn ==> m > 0 by {
      TornMeansWritten(recorded[..m], parser.dispatcher.File(), torn);
    }
  }

  lemma TornMeansWritten(frames: seq<Frame>, file: seq<byte>, torn: bool)
    requires Written([], file, frames, torn)
    ensures torn ==> frames != []
  {
  }

  // A record file, whole or torn, through a fresh recording parser.
  method ReplayFile(file: seq<byte>, ghost frames: seq<Frame>, ghost torn: bool, decoders: set<(byte, byte)>,
      limit: nat, script: seq<FilePort.Outcome>, rewrites: seq<FilePort.Outcome>, fd: nat)
    returns (parser: Parser, thrown: bool, broken: bool, ghost k: nat)
    requires limit < 65536
    requires AllGood(if limit == 0 then 1 else limit, frames) && Written([], file, frames, torn)
    ensures fresh(parser) && fresh(parser.dispatcher.Footprint()) && parser.dispatcher.recorder != null
    ensures thrown ==> FilePort.Fails in script
    ensures broken ==> FilePort.Fails in rewrites
    ensures k <= |Whole(frames, torn)| <= |frames|
    ensures !thrown && !broken ==> k == |Whole(frames, torn)| && (!torn ==> parser.View() == Hunting)
    ensures parser.dispatcher.decoded == Registered(decoders, frames[..k]) && parser.framesDecoded == k
    ensures parser.dispatcher.errors == [] && parser.framesDiscarded == 0
    ensures Written([], parser.dispatcher.File(), frames[..k], broken)
  {
    hide Recording, Registered, Run, Consumed, Written, GoodWithin, Dispatcher.MayThrow;
    ghost var fed;
    var port := new FilePort.Port(file, false, false, script);
    parser := NewRecordingParser(decoders, limit, rewrites);
    ghost var within := parser.maxPayloadLen;
    thrown, broken, fed := Replay(port, parser, fd);
    FromNothing(parser, fed, broken);
    assert file[0..] == file;
    ReplayOfFile(within, frames, file, torn);
    RunPrefix(within, Hunting, fed, file);
    k := parser.framesDecoded;
    assert Run(within, Hunting, fed).frames == frames[..k];
  }

  // Record any live stream, cut anywhere, and replay the file through a fresh
  // parser with the same decoders and limit, however the kernel splits reads and
  // writes.  When nothing fails, the decoders see the same frames, nothing is
  // discarded, and recording the replay gives the same file.  When a write of
  // the recording fails (`torn`), the first m frames have been dispatched and
  // the replay dispatches all of them but the last, which is cut short in the
  // file; still nothing is discarded.  When a read fails (`thrown`) or a write
  // of the second recording does (`broken`), it dispatches the first k of those.
  method RecordThenReplay(live: seq<seq<byte>>, decoders: set<(byte, byte)>, limit: nat,
      writes: seq<FilePort.Outcome>, script: seq<FilePort.Outcome>, rewrites: seq<FilePort.Outcome>, fd: nat)
    returns (first: Parser, second: Parser, torn: bool, thrown: bool, broken: bool,
             ghost recorded: seq<Frame>, ghost m: nat, ghost k: nat)
    requires limit < 65536
    ensures recorded == Run(if limit == 0 then 1 else limit, Hunting, Flatten(live)).frames && m <= |recorded|
    ensures if torn then m > 0 && FilePort.Fails in writes else m == |recorded|
    ensures first.dispatcher.decoded == Registered(decoders, recorded[..m]) && first.framesDecoded == m
    ensures first.dispatcher.recorder != null && Written([], first.dispatcher.File(), recorded[..m], torn)
    ensures thrown ==> FilePort.Fails in script
    ensures broken ==> FilePort.Fails in rewrites
    ensures k <= |Whole(recorded[..m], torn)|
    ensures !thrown && !broken ==> k == (if torn then m - 1 else m) && (!torn ==> second.View() == Hunting)
    ensures second.dispatcher.decoded == Registered(decoders, recorded[..k]) && second.framesDecoded == k
    ensures second.dispatcher.errors == [] && second.framesDiscarded == 0
    ensures second.dispatcher.recorder != null && Written([], second.dispatcher.File(), recorded[..k], broken)
    ensures second.dispatcher.File() <= first.dispatcher.File()
    ensures !torn && !thrown && !broken ==> second.dispatcher.File() == first.dispatcher.File()
  {
    hide Recording, Registered, Run, Written, GoodWithin;
    ghost var within := if limit == 0 then 1 else limit;
    recorded := Run(within, Hunting, Flatten(live)).frames;
    first, torn, m := RecordLive(live, decoders, limit, writes);
    RunBounded(within, Hunting, Flatten(live));
    var file := first.dispatcher.recorder.port.file;
    second, thrown, broken, k := ReplayFile(file, recorded[..m], torn, decoders, limit, script, rewrites, fd);
    assert recorded[..m][..k] == recorded[..k];
    RecordedAgain(recorded[..m], file, torn, second.dispatcher.File(), k, broken);
  }
}
