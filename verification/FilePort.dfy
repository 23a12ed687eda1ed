// File channel: sequential and looping reads, and the write loop.
module FilePort {
  import opened Bytes
  import opened UbxFraming

  // What the operating system answers to one ::read or ::write.
  datatype Outcome = Moves(n: nat) | Interrupted | Fails

  function Min(a: nat, b: nat): nat {
    if a < b then a else b
  }

  // What one read of `len` bytes means, however the kernel splits it: the rest
  // of the file up to len; at the end of a looping file, the start of the file;
  // a read that ends at the end of the file does not wrap.
  function Read(file: seq<byte>, loops: bool, pos: nat, len: nat): (seq<byte>, nat)
    requires pos <= |file|
  {
    if pos < |file| then
      var k := Min(len, |file| - pos);
      (file[pos..pos + k], pos + k)
    else if loops && len > 0 then
      var k := Min(len, |file|);
      (file[..k], k)
    else
      ([], pos)
  }

  // These bytes stand in the file from this place on, counted round its end.
  predicate RoundFrom(file: seq<byte>, pos: nat, data: seq<byte>)
    requires file != []
  {
    forall i :: 0 <= i < |data| ==> data[i] == file[(pos + i) % |file|]
  }

  // A read gives the bytes from its position on, counted round the file when it
  // loops; it comes back with less than was asked for only at the end of the
  // file, never reads across that end, and begins anew only when it starts there.
  lemma ReadMeans(file: seq<byte>, loops: bool, pos: nat, len: nat)
    requires pos <= |file|
    ensures var (data, next) := Read(file, loops, pos, len);
            && |data| <= len && (|data| < len ==> next == |file|)
            && (data != [] ==> file != [] && RoundFrom(file, pos, data))
            && next == (if pos == |file| && data != [] then |data| else pos + |data|) <= |file|
            && (data != [] && pos == |file| ==> loops)
            && (loops && len > 0 && file != [] ==> data != [])
  {
    var k := |Read(file, loops, pos, len).0|;
    if file != [] {
      if pos < |file| {
        RoundInside(file, pos, k);
      } else {
        RoundAgain(file, k);
      }
      hide RoundFrom;
    }
  }

  lemma RoundInside(file: seq<byte>, pos: nat, k: nat)
    requires file != [] && pos + k <= |file|
    ensures RoundFrom(file, pos, file[pos..pos + k])
  {
    var data := file[pos..pos + k];
    forall i | 0 <= i < |data| ensures data[i] == file[(pos + i) % |file|] {
      OnceRound(pos + i, |file|);
    }
  }

  lemma RoundAgain(file: seq<byte>, k: nat)
    requires file != [] && k <= |file|
    ensures RoundFrom(file, |file|, file[..k])
  {
    var data := file[..k];
    forall i | 0 <= i < |data| ensures data[i] == file[(|file| + i) % |file|] {
      OnceRound(i, |file|);
    }
  }

  lemma OnceRound(i: nat, n: nat)
    requires n > 0
    ensures (n + i) % n == i % n && (i < n ==> i % n == i)
  {
    var q, r := i / n, i % n;
    assert n + i == n * (q + 1) + r;
    RemainderIs(n + i, n, q + 1, r);
  }

  lemma RemainderIs(x: nat, n: nat, q: nat, r: nat)
    requires r < n && x == n * q + r
    ensures x % n == r
  {
    var p, s := x / n, x % n;
    assert x == n * p + s;
    if p > q {
      LeastDifference(n, p - q);
    } else if p < q {
      LeastDifference(n, q - p);
    }
    assert n * (p - q) == r - s;
  }

  lemma LeastDifference(n: nat, d: nat)
    requires d > 0
    ensures n * d >= n
  {
  }

  lemma Adjoin(s: seq<byte>, i: nat, j: nat, k: nat)
    requires i <= j <= k <= |s|
    ensures s[i..j] + s[j..k] == s[i..k]
  {
  }

  // How much ::read moves: nothing at the end of the file, else at least a byte.
  function Kernel(rest: nat, want: nat, k: nat): (n: nat)
    ensures n <= rest && n <= want && (n == 0 <==> rest == 0 || want == 0)
    ensures 0 < k <= want && k <= rest ==> n == k
  {
    if rest == 0 then 0 else Min(Min(if k == 0 then 1 else k, want), rest)
  }

  // The loop of read_locked: still going, ended, or broken by a failed read.
  datatype ReadLoop = Going(pos: nat, total: nat) | Ended(pos: nat, total: nat) | Broken

  // One turn, with the answer ::read gives if it is asked.
  function TurnOf(size: nat, loops: bool, len: nat, s: ReadLoop, o: Outcome): ReadLoop {
    match s
    case Going(pos, total) =>
      if total >= len then Ended(pos, total)
      else if pos > size then Broken
      else
        (match o
         case Interrupted => s
         case Fails => Broken
         case Moves(k) =>
           var n := Kernel(size - pos, len - total, k);
           if n > 0 then Going(pos + n, total + n)
           else if loops && total == 0 then Going(0, 0)
           else Ended(pos, total))
    case _ => s
  }

  function Turns(size: nat, loops: bool, len: nat, s: ReadLoop, answers: seq<Outcome>): ReadLoop {
    if answers == [] then s
    else TurnOf(size, loops, len, Turns(size, loops, len, s, answers[..|answers| - 1]), answers[|answers| - 1])
  }

  lemma TurnsSnoc(size: nat, loops: bool, len: nat, s: ReadLoop, answers: seq<Outcome>, o: Outcome)
    ensures Turns(size, loops, len, s, answers + [o])
         == TurnOf(size, loops, len, Turns(size, loops, len, s, answers), o)
  {
    hide TurnOf;
    assert (answers + [o])[..|answers|] == answers;
  }

  // On an empty looping file no number of turns leaves the loop.
  lemma {:induction false} EmptyLoopGoesOn(len: nat, answers: seq<Outcome>)
    requires len > 0 && Fails !in answers
    ensures Turns(0, true, len, Going(0, 0), answers) == Going(0, 0)
  {
    if answers == [] {
    } else {
      EmptyLoopGoesOn(len, answers[..|answers| - 1]);
    }
  }

  // While the kernel does not fail, a read can return exactly when it asks for
  // nothing, or the file does not loop, or the file is not empty.
  lemma ReadReturnsIff(size: nat, loops: bool, len: nat, pos: nat)
    requires pos <= size
    ensures (exists answers :: Fails !in answers && Turns(size, loops, len, Going(pos, 0), answers).Ended?)
       <==> (len > 0 ==> !(loops && size == 0))
  {
    if len > 0 && loops && size == 0 {
      forall answers | Fails !in answers ensures !Turns(size, loops, len, Going(pos, 0), answers).Ended? {
        EmptyLoopGoesOn(len, answers);
      }
    } else {
      // One wrap, one full read, and the turn that finds nothing left to do.
      var a := Moves(len);
      TurnsSnoc(size, loops, len, Going(pos, 0), [], a);
      TurnsSnoc(size, loops, len, Going(pos, 0), [a], a);
      TurnsSnoc(size, loops, len, Going(pos, 0), [a, a], a);
      assert [] + [a] == [a] && [a] + [a] == [a, a] && [a, a] + [a] == [a, a, a];
      assert Turns(size, loops, len, Going(pos, 0), [a, a, a]).Ended?;
    }
  }

  // What one more answer does to a loop that is still going.
  lemma NextTurn(size: nat, loops: bool, len: nat, begin: ReadLoop, turns: seq<Outcome>,
      pos: nat, total: nat, o: Outcome)
    requires pos <= size && total < len && Turns(size, loops, len, begin, turns) == Going(pos, total)
    ensures o == Interrupted ==> Turns(size, loops, len, begin, turns + [o]) == Going(pos, total)
    ensures o.Moves? ==>
              var n := Kernel(size - pos, len - total, o.n);
              Turns(size, loops, len, begin, turns + [o])
              == if n > 0 then Going(pos + n, total + n)
                 else if loops && total == 0 then Going(0, 0)
                 else Ended(pos, total)
  {
    TurnsSnoc(size, loops, len, begin, turns, o);
  }

  lemma NoTurns(size: nat, loops: bool, len: nat, begin: ReadLoop)
    ensures Turns(size, loops, len, begin, []) == begin
  {
  }

  // The guard ends a loop that has read enough.
  lemma LastTurn(size: nat, loops: bool, len: nat, begin: ReadLoop, turns: seq<Outcome>, pos: nat, total: nat)
    requires total >= len && Turns(size, loops, len, begin, turns) == Going(pos, total)
    ensures Turns(size, loops, len, begin, turns + [Interrupted]) == Ended(pos, total)
  {
    TurnsSnoc(size, loops, len, begin, turns, Interrupted);
  }

  // Where the loop stops, it has read what a read means.
  lemma ReadMeaning(file: seq<byte>, loops: bool, from: nat, len: nat, start: nat, pos: nat)
    requires from <= |file| && start <= pos <= |file|
    requires start == from || (from == |file| && loops && start == 0 < len)
    requires pos - start == len || (pos - start < len && pos == |file| && !(loops && pos == start))
    requires len > 0 ==> !(loops && file == [])
    ensures (file[start..pos], pos) == Read(file, loops, from, len)
  {
    assert file[0..pos] == file[..pos];
    if pos == start {
      assert file[start..pos] == [];
    }
  }

  class Port {
    var isOpen: bool
    const loops: bool
    const writable: bool
    var file: seq<byte>
    var pos: nat
    // The answers still to come; once exhausted, calls complete in full.
    var script: seq<Outcome>

    ghost predicate Valid()
      reads this
    {
      pos <= |file|
    }

    constructor (file: seq<byte>, loops: bool, writable: bool, script: seq<Outcome>)
      ensures Valid() && isOpen && pos == 0
      ensures this.file == (if writable then [] else file) && this.loops == loops
      ensures this.writable == writable && this.script == script
    {
      isOpen := true;
      this.loops, this.writable, this.script := loops, writable, script;
      // Opening for writing truncates.
      this.file := if writable then [] else file;
      pos := 0;
    }

    // ::read on a regular file: zero only at the end, otherwise at least one byte.
    method SysRead(want: nat) returns (n: int, data: seq<byte>, eintr: bool, ghost answer: Outcome)
      requires Valid() && want > 0
      modifies this`pos, this`script
      ensures Valid()
      ensures n < 0 ==> data == [] && pos == old(pos) && |script| < |old(script)|
      ensures n < 0 ==> answer == if eintr then Interrupted else Fails
      ensures n < 0 && !eintr ==> Fails in old(script)
      ensures n >= 0 ==> n == |data| && n <= want && old(pos) + n <= |file|
                         && data == file[old(pos)..old(pos) + n] && pos == old(pos) + n
      ensures n >= 0 ==> answer.Moves? && n == Kernel(|file| - old(pos), want, answer.n)
      ensures |script| <= |old(script)|
      ensures Fails in script ==> Fails in old(script)
    {
      eintr, data := false, [];
      var rest := |file| - pos;
      if script == [] {
        n, answer := Min(want, rest), Moves(want);
      } else {
        var o := script[0];
        answer := o;
        script := script[1..];
        match o {
          case Interrupted => n, eintr := -1, true;
          case Fails => n := -1;
          case Moves(k) => n := Kernel(rest, want, k);
        }
      }
      if n > 0 {
        data := file[pos..pos + n];
        pos := pos + n;
      }
    }

    // The loop of read_locked is under way: begun at `from`, and having read
    // from `start` on.
    ghost predicate Reading(from: nat, len: nat, total: int, buf: seq<byte>, start: nat, turns: seq<Outcome>)
      reads this
    {
      && Valid() && 0 <= total == |buf| <= len
      && (start == from || (from == |file| && loops && start == 0 < len))
      && pos == start + total && buf == file[start..pos]
      && Turns(|file|, loops, len, Going(from, 0), turns) == Going(pos, total)
    }

    // One turn of that loop.
    method ReadTurn(len: nat, total: nat, buf: seq<byte>, ghost from: nat, ghost start: nat, ghost turns: seq<Outcome>)
      returns (n: int, eintr: bool, total': nat, buf': seq<byte>, ghost start': nat, ghost turns': seq<Outcome>)
      requires Reading(from, len, total, buf, start, turns) && total < len
      modifies this`pos, this`script
      ensures Valid() && |script| <= |old(script)| && (Fails in script ==> Fails in old(script))
      ensures n < 0 ==> |script| < |old(script)| && (!eintr ==> Fails in old(script))
      ensures n < 0 && eintr ==> Reading(from, len, total', buf', start', turns') && total' == total && pos == old(pos)
      ensures n > 0 ==> Reading(from, len, total', buf', start', turns') && total' > total
      ensures n == 0 ==> old(pos) == |file|
      ensures n == 0 && loops && total == 0 ==>
                Reading(from, len, 0, [], 0, turns') && total' == 0 && buf' == [] && start' == 0
      ensures n == 0 && !(loops && total == 0) ==>
                && pos == old(pos) && total' == total && buf' == buf
                && Turns(|file|, loops, len, Going(from, 0), turns') == Ended(pos, total)
    {
      hide Turns;
      total', buf', start' := total, buf, start;
      ghost var before, answer := pos, Interrupted;
      var data;
      n, data, eintr, answer := SysRead(len - total);
      NextTurn(|file|, loops, len, Going(from, 0), turns, before, total, answer);
      turns' := turns + [answer];
      if n == 0 && loops && total == 0 {
        pos, start' := 0, 0;
        assert file[0..0] == [];
      } else if n > 0 {
        Adjoin(file, start, before, pos);
        buf', total' := buf + data, total + n;
      }
    }

    // read_locked; `turns` are the answers its loop was given.
    method ReadLocked(len: nat) returns (total: int, buf: seq<byte>, ghost turns: seq<Outcome>)
      requires Valid()
      // Otherwise the source never returns.
      requires len > 0 ==> !(loops && file == [])
      modifies this`pos, this`script
      ensures Valid()
      ensures total >= 0 ==> total == |buf| && (buf, pos) == Read(file, loops, old(pos), len)
      ensures total >= 0 ==> Turns(|file|, loops, len, Going(old(pos), 0), turns) == Ended(pos, total)
      ensures total < 0 ==> total == -1 && Fails in old(script)
      ensures Fails in script ==> Fails in old(script)
    {
      hide Turns, Read;
      total, buf, turns := 0, [], [];
      ghost var from, start := pos, pos;
      NoTurns(|file|, loops, len, Going(pos, 0));
      while total < len
        invariant Reading(from, len, total, buf, start, turns)
        invariant Fails in script ==> Fails in old(script)
        decreases |script|, len - total, if pos == |file| then 1 else 0
      {
        var n, eintr, sum, more;
        ghost var start', turns';
        n, eintr, sum, more, start', turns' := ReadTurn(len, total, buf, from, start, turns);
        if n < 0 && !eintr {
          return -1, buf, turns';
        }
        if n == 0 && !(loops && total == 0) {
          ReadMeaning(file, loops, from, len, start, pos);
          return total, buf, turns';
        }
        total, buf, start, turns := sum, more, start', turns';
      }
      ReadMeaning(file, loops, from, len, start, pos);
      LastTurn(|file|, loops, len, Going(from, 0), turns, pos, total);
      turns := turns + [Interrupted];
    }

    method ReadBytes(maxLen: nat) returns (thrown: bool, buf: seq<byte>)
      requires Valid() && (maxLen > 0 && isOpen ==> !(loops && file == []))
      modifies this`pos, this`script
      ensures Valid()
      ensures maxLen > 0 && !isOpen ==> thrown
      ensures thrown ==> maxLen > 0 && (!isOpen || Fails in old(script))
      ensures !thrown && maxLen > 0 ==> (buf, pos) == Read(file, loops, old(pos), maxLen)
      ensures maxLen == 0 ==> buf == [] && pos == old(pos)
      ensures Fails in script ==> Fails in old(script)
    {
      buf := [];
      if maxLen == 0 {
        return false, [];
      }
      if !isOpen {
        return true, [];
      }
      var n, data;
      ghost var turns;
      n, data, turns := ReadLocked(maxLen);
      if n < 0 {
        return true, [];
      }
      return false, data;
    }

    // available(): what the next read can be asked for.
    method Available() returns (n: int)
      requires Valid()
      ensures !isOpen ==> n == -1
      ensures isOpen ==> forall len: nat :: |Read(file, loops, pos, len).0| == len <==> len <= n
    {
      if !isOpen {
        return -1;
      }
      var remaining := |file| - pos;
      if remaining > 0 {
        return remaining;
      }
      if loops && |file| > 0 {
        return |file|;
      }
      return 0;
    }

    // ::write at the end of the file: at least one byte unless it fails.
    method SysWrite(data: seq<byte>) returns (n: int, eintr: bool)
      requires data != []
      modifies this`file, this`script
      ensures |script| <= |old(script)|
      ensures n < 0 ==> file == old(file) && |script| < |old(script)|
      ensures n < 0 && !eintr ==> Fails in old(script)
      ensures n >= 0 ==> 1 <= n <= |data| && file == old(file) + data[..n]
      ensures Fails in script ==> Fails in old(script)
    {
      eintr := false;
      if script == [] {
        n := |data|;
      } else {
        var o := script[0];
        script := script[1..];
        match o {
          case Interrupted => n, eintr := -1, true;
          case Fails => n := -1;
          case Moves(k) => n := Min(if k == 0 then 1 else k, |data|);
        }
      }
      if n > 0 {
        file := file + data[..n];
      }
    }

    // write_bytes: all of the buffer is appended, or an exception leaves a
    // proper prefix of it behind.
    method WriteBytes(buf: seq<byte>) returns (thrown: bool)
      modifies this`file, this`script
      ensures !thrown ==> file == old(file) + buf
      ensures thrown ==> exists k :: 0 <= k < |buf| && file == old(file) + buf[..k]
      ensures buf != [] && (!isOpen || !writable) ==> thrown && file == old(file)
      ensures isOpen && writable && Fails !in old(script) ==> !thrown
      ensures Fails in script ==> Fails in old(script)
    {
      if buf == [] {
        return false;
      }
      if !isOpen || !writable {
        assert file == old(file) + buf[..0];
        return true;
      }
      var done := 0;
      while done < |buf|
        invariant 0 <= done <= |buf| && file == old(file) + buf[..done]
        invariant Fails in script ==> Fails in old(script)
        decreases |script|, |buf| - done
      {
        var n, eintr := SysWrite(buf[done..]);
        if n < 0 {
          if eintr {
            continue;
          }
          return true;
        }
        assert buf[..done] + buf[done..][..n] == buf[..done + n];
        done := done + n;
      }
      return false;
    }
  }

  // ----- Successive reads --------------------------------------------------

  function Reads(file: seq<byte>, loops: bool, pos: nat, lens: seq<nat>): seq<seq<byte>>
    requires pos <= |file|
    decreases |lens|
  {
    if lens == [] then []
    else
      var (data, next) := Read(file, loops, pos, lens[0]);
      [data] + Reads(file, loops, next, lens[1..])
  }

  // Without looping, the reads give back a prefix of what is left of the file,
  // and all of it once enough has been asked for.
  lemma {:induction false} ReadsGivePrefix(file: seq<byte>, pos: nat, lens: seq<nat>)
    requires pos <= |file|
    ensures Flatten(Reads(file, false, pos, lens)) <= file[pos..]
    ensures Total(lens) >= |file| - pos ==> Flatten(Reads(file, false, pos, lens)) == file[pos..]
    decreases |lens|
  {
    if lens == [] {
    } else {
      var (data, next) := Read(file, false, pos, lens[0]);
      ReadsGivePrefix(file, next, lens[1..]);
      var rest := Reads(file, false, next, lens[1..]);
      assert ([data] + rest)[1..] == rest;
      assert file[pos..] == data + file[next..];
    }
  }

  function Total(lens: seq<nat>): nat {
    if lens == [] then 0 else lens[0] + Total(lens[1..])
  }

  // The i-th byte of the endless repetition of a file.
  function Endless(file: seq<byte>, i: nat): byte
    requires file != []
  {
    if i < |file| then file[i] else Endless(file, i - |file|)
  }

  lemma {:induction false} EndlessIsRound(file: seq<byte>, i: nat)
    requires file != []
    ensures Endless(file, i) == file[i % |file|]
  {
    if i >= |file| {
      EndlessIsRound(file, i - |file|);
      OnceRound(i - |file|, |file|);
    }
  }

  // With looping, the reads walk round and round the file.
  lemma LoopingReadsRepeat(file: seq<byte>, pos: nat, lens: seq<nat>, i: nat)
    requires pos <= |file| && file != []
    requires i < |Flatten(Reads(file, true, pos, lens))|
    ensures Flatten(Reads(file, true, pos, lens))[i] == file[(pos + i) % |file|]
  {
    LoopingReadsEndless(file, pos, lens, i);
    EndlessIsRound(file, pos + i);
  }

  lemma {:induction false} LoopingReadsEndless(file: seq<byte>, pos: nat, lens: seq<nat>, i: nat)
    requires pos <= |file| && file != []
    requires i < |Flatten(Reads(file, true, pos, lens))|
    ensures Flatten(Reads(file, true, pos, lens))[i] == Endless(file, pos + i)
    decreases |lens|
  {
    var (data, next) := Read(file, true, pos, lens[0]);
    var rest := Reads(file, true, next, lens[1..]);
    assert ([data] + rest)[1..] == rest;
    assert Flatten([data] + rest) == data + Flatten(rest);
    if i >= |data| {
      LoopingReadsEndless(file, next, lens[1..], i - |data|);
    }
  }

  // And they get on: no read that asks for something comes back empty.
  lemma {:induction false} LoopingReadsProgress(file: seq<byte>, pos: nat, lens: seq<nat>)
    requires pos <= |file| && file != []
    ensures |Reads(file, true, pos, lens)| == |lens|
    ensures forall k :: 0 <= k < |lens| ==>
              |Reads(file, true, pos, lens)[k]| <= lens[k] && (lens[k] > 0 ==> |Reads(file, true, pos, lens)[k]| > 0)
    decreases |lens|
  {
    if lens == [] {
    } else {
      var (data, next) := Read(file, true, pos, lens[0]);
      LoopingReadsProgress(file, next, lens[1..]);
    }
  }

  // Record, then replay through a file channel: whatever sizes the reads have,
  // once the file is used up the parser has dispatched the recorded frames.
  lemma ReplayThroughFile(limit: nat, live: seq<byte>, lens: seq<nat>)
    requires Total(lens) >= |Recording(Run(limit, Hunting, live).frames)|
    ensures var recorded := Run(limit, Hunting, live).frames;
            RunChunks(limit, Hunting, Reads(Recording(recorded), false, 0, lens)) == Result(Hunting, recorded, [])
  {
    var recorded := Run(limit, Hunting, live).frames;
    var file := Recording(recorded);
    ReadsGivePrefix(file, 0, lens);
    assert file[0..] == file;
    RecordReplay(limit, live, limit, Reads(file, false, 0, lens));
    RunBounded(limit, Hunting, live);
  }
}
