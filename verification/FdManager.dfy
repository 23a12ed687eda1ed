// The fd event manager: a map of descriptors and a cached array for poll().
module FdManager {
  import opened Basics

  // Only what the receiver's callback asks of revents.
  datatype Revents = Revents(error: bool, readable: bool, other: bool) {
    predicate Any()
      ensures Any() <==> this != Revents(false, false, false)
    {
      error || readable || other
    }
  }

  const NO_EVENTS := Revents(false, false, false)

  datatype FdInfo = FdInfo(events: int, enabled: bool)

  datatype PollFd = PollFd(fd: int, events: int, revents: Revents)

  // The answer of poll(): failure, or the events of each array entry.
  datatype PollAnswer = PollFails | Ready(revents: seq<Revents>)

  function AnswerAt(a: PollAnswer, i: nat): Revents {
    if a.Ready? && i < |a.revents| then a.revents[i] else NO_EVENTS
  }

  // The two cached arrays mirror the enabled entries of the map, in ascending
  // order of descriptor.
  predicate Mirrors(fds: seq<PollFd>, ids: seq<int>, m: map<int, FdInfo>) {
    && |ids| == |fds|
    && (forall i, j :: 0 <= i < j < |ids| ==> ids[i] < ids[j])
    && (forall i :: 0 <= i < |ids| ==>
          ids[i] in m && m[ids[i]].enabled && fds[i].fd == ids[i] && fds[i].events == m[ids[i]].events)
    && (forall fd :: fd in m && m[fd].enabled ==> fd in ids)
  }

  function CountReady(fds: seq<PollFd>): nat {
    if fds == [] then 0 else (if fds[0].revents.Any() then 1 else 0) + CountReady(fds[1..])
  }

  lemma {:induction false} CountZero(fds: seq<PollFd>)
    ensures CountReady(fds) == 0 <==> forall i :: 0 <= i < |fds| ==> !fds[i].revents.Any()
  {
    if fds == [] {
    } else {
      CountZero(fds[1..]);
      assert forall i :: 1 <= i < |fds| ==> fds[i] == fds[1..][i - 1];
    }
  }

  lemma {:induction false} CountIsSize(fds: seq<PollFd>)
    ensures CountReady(fds) == |set i | 0 <= i < |fds| && fds[i].revents != NO_EVENTS|
  {
    var ready := set i | 0 <= i < |fds| && fds[i].revents != NO_EVENTS;
    if fds == [] {
      assert ready == {};
    } else {
      var n := |fds| - 1;
      CountIsSize(fds[..n]);
      CountSnoc(fds[..n], fds[n]);
      assert fds == fds[..n] + [fds[n]];
      var before := set i | 0 <= i < n && fds[..n][i].revents != NO_EVENTS;
      assert ready == if fds[n].revents != NO_EVENTS then before + {n} else before;
    }
  }

  lemma {:induction false} CountSnoc(fds: seq<PollFd>, p: PollFd)
    ensures CountReady(fds + [p]) == CountReady(fds) + if p.revents != NO_EVENTS then 1 else 0
  {
    if fds == [] {
      assert [] + [p] == [p] && [p][1..] == [];
    } else {
      CountSnoc(fds[1..], p);
      assert (fds + [p])[1..] == fds[1..] + [p];
    }
  }

  // The enabled descriptors, told entry by entry.
  lemma MirrorsMeans(fds: seq<PollFd>, ids: seq<int>, m: map<int, FdInfo>)
    requires Mirrors(fds, ids, m)
    ensures forall fd :: fd in m && m[fd].enabled <==> exists i :: 0 <= i < |fds| && fds[i].fd == fd
    ensures forall i :: 0 <= i < |fds| ==> fds[i].fd in m && fds[i].events == m[fds[i].fd].events
    ensures forall i, j :: 0 <= i < j < |fds| ==> fds[i].fd < fds[j].fd
  {
    forall fd | fd in m && m[fd].enabled ensures exists i :: 0 <= i < |fds| && fds[i].fd == fd {
      var i :| 0 <= i < |ids| && ids[i] == fd;
      assert fds[i].fd == fd;
    }
  }

  // A map has one mirror only, aside from what poll() filled in.
  lemma {:induction false} MirrorUnique(f: seq<PollFd>, a: seq<int>, g: seq<PollFd>, b: seq<int>, m: map<int, FdInfo>)
    requires Mirrors(f, a, m) && Mirrors(g, b, m)
    ensures a == b && |f| == |g|
    ensures forall i :: 0 <= i < |f| ==> f[i].fd == g[i].fd && f[i].events == g[i].events
  {
    assert forall x :: x in a <==> x in b;
    AscendingUnique(a, b);
  }

  lemma {:induction false} AscendingUnique(a: seq<int>, b: seq<int>)
    requires forall i, j :: 0 <= i < j < |a| ==> a[i] < a[j]
    requires forall i, j :: 0 <= i < j < |b| ==> b[i] < b[j]
    requires forall x :: x in a <==> x in b
    ensures a == b
  {
    assert a != [] ==> a[0] in a;
    assert b != [] ==> b[0] in b;
    if a == [] || b == [] {
    } else {
      assert a[0] in b && b[0] in a;
      assert a[0] == b[0];
      forall x ensures x in a[1..] <==> x in b[1..] {
        assert x in a[1..] <==> x in a && x != a[0];
        assert x in b[1..] <==> x in b && x != b[0];
      }
      AscendingUnique(a[1..], b[1..]);
      assert a == [a[0]] + a[1..] && b == [b[0]] + b[1..];
    }
  }

  // Taking up the least remaining descriptor extends the mirror by one entry, or
  // none if it is disabled.
  lemma MirrorGrows(fds: seq<PollFd>, ids: seq<int>, m: map<int, FdInfo>, rest: set<int>, k: int)
    requires rest <= m.Keys && k in rest && Mirrors(fds, ids, m - rest)
    requires forall i :: 0 <= i < |ids| ==> ids[i] < k
    ensures m[k].enabled ==> Mirrors(fds + [PollFd(k, m[k].events, NO_EVENTS)], ids + [k], m - (rest - {k}))
    ensures !m[k].enabled ==> Mirrors(fds, ids, m - (rest - {k}))
  {
    var more := m - (rest - {k});
    assert more == (m - rest)[k := m[k]];
  }

  lemma LeastKey(keys: set<int>) returns (k: int)
    requires keys != {}
    ensures k in keys && forall j :: j in keys ==> k <= j
    decreases |keys|
  {
    k := SomeMember(keys);
    var rest := keys - {k};
    if rest != {} {
      var y := LeastKey(rest);
      assert forall j :: j in keys ==> j == k || j in rest;
      k := if k < y then k else y;
    } else {
      assert forall j :: j in keys ==> j == k || j in rest;
    }
  }

  class Manager {
    var fdMap: map<int, FdInfo>
    var pollFds: seq<PollFd>
    var pollFdMap: seq<int>
    var modified: bool

    ghost predicate Valid()
      reads this
    {
      && (forall fd :: fd in fdMap ==> fd >= 0)
      && |pollFdMap| == |pollFds|
      && (!modified ==> Mirrors(pollFds, pollFdMap, fdMap))
    }

    constructor ()
      ensures Valid() && fdMap == map[] && pollFds == [] && !modified
    {
      fdMap, pollFds, pollFdMap, modified := map[], [], [], false;
    }

    method AddFd(fd: int, events: int) returns (ok: bool)
      requires Valid()
      modifies this
      ensures Valid()
      ensures ok <==> fd >= 0 && fd !in old(fdMap)
      ensures fdMap == if ok then old(fdMap)[fd := FdInfo(events, true)] else old(fdMap)
      ensures modified == (old(modified) || ok)
      ensures pollFds == old(pollFds) && pollFdMap == old(pollFdMap)
    {
      if fd < 0 {
        return false;
      }
      if fd in fdMap {
        return false;
      }
      fdMap := fdMap[fd := FdInfo(events, true)];
      modified := true;
      return true;
    }

    method RemoveFd(fd: int) returns (ok: bool)
      requires Valid()
      modifies this
      ensures Valid()
      ensures ok <==> fd in old(fdMap)
      ensures fdMap == old(fdMap) - {fd}
      ensures modified == (old(modified) || ok)
      ensures pollFds == old(pollFds) && pollFdMap == old(pollFdMap)
    {
      if fd !in fdMap {
        assert fdMap - {fd} == fdMap;
        return false;
      }
      fdMap := fdMap - {fd};
      modified := true;
      return true;
    }

    method EnableFd(fd: int) returns (ok: bool)
      requires Valid()
      modifies this
      ensures Valid()
      ensures ok <==> fd in old(fdMap)
      ensures fdMap == if ok then old(fdMap)[fd := old(fdMap)[fd].(enabled := true)] else old(fdMap)
      ensures modified == (old(modified) || fdMap != old(fdMap))
      ensures pollFds == old(pollFds) && pollFdMap == old(pollFdMap)
    {
      if fd !in fdMap {
        return false;
      }
      if !fdMap[fd].enabled {
        fdMap := fdMap[fd := fdMap[fd].(enabled := true)];
        modified := true;
      }
      return true;
    }

    method DisableFd(fd: int) returns (ok: bool)
      requires Valid()
      modifies this
      ensures Valid()
      ensures ok <==> fd in old(fdMap)
      ensures fdMap == if ok then old(fdMap)[fd := old(fdMap)[fd].(enabled := false)] else old(fdMap)
      ensures modified == (old(modified) || fdMap != old(fdMap))
      ensures pollFds == old(pollFds) && pollFdMap == old(pollFdMap)
    {
      if fd !in fdMap {
        return false;
      }
      if fdMap[fd].enabled {
        fdMap := fdMap[fd := fdMap[fd].(enabled := false)];
        modified := true;
      }
      return true;
    }

    method ModifyEvents(fd: int, events: int) returns (ok: bool)
      requires Valid()
      modifies this
      ensures Valid()
      ensures ok <==> fd in old(fdMap)
      ensures fdMap == if ok then old(fdMap)[fd := old(fdMap)[fd].(events := events)] else old(fdMap)
      ensures modified == (old(modified) || ok)
      ensures pollFds == old(pollFds) && pollFdMap == old(pollFdMap)
    {
      if fd !in fdMap {
        return false;
      }
      fdMap := fdMap[fd := fdMap[fd].(events := events)];
      modified := true;
      return true;
    }

    method Clear()
      modifies this
      ensures Valid() && fdMap == map[] && pollFds == [] && !modified
    {
      fdMap, pollFds, pollFdMap, modified := map[], [], [], false;
    }

    // Walks the map in key order, as std::map iterates.
    method RebuildPollFds()
      requires Valid()
      modifies this`pollFds, this`pollFdMap
      ensures Mirrors(pollFds, pollFdMap, fdMap)
      ensures forall fd :: fd in fdMap && fdMap[fd].enabled <==> exists i :: 0 <= i < |pollFds| && pollFds[i].fd == fd
      ensures forall i :: 0 <= i < |pollFds| ==>
                pollFds[i].fd in fdMap && pollFds[i].events == fdMap[pollFds[i].fd].events
      ensures forall i, j :: 0 <= i < j < |pollFds| ==> pollFds[i].fd < pollFds[j].fd
    {
      pollFds, pollFdMap := [], [];
      var rest := fdMap.Keys;
      while rest != {}
        invariant rest <= fdMap.Keys
        invariant Mirrors(pollFds, pollFdMap, fdMap - rest)
        invariant forall i, k :: 0 <= i < |pollFdMap| && k in rest ==> pollFdMap[i] < k
        decreases rest
      {
        ghost var least := LeastKey(rest);
        var k :| k in rest && forall j :: j in rest ==> k <= j;
        MirrorGrows(pollFds, pollFdMap, fdMap, rest, k);
        rest := rest - {k};
        if fdMap[k].enabled {
          pollFds := pollFds + [PollFd(k, fdMap[k].events, NO_EVENTS)];
          pollFdMap := pollFdMap + [k];
        }
      }
      assert fdMap - rest == fdMap;
      MirrorsMeans(pollFds, pollFdMap, fdMap);
    }

    // The number of array entries with events, 0 on timeout or without
    // descriptors, -1 when poll() fails.
    method Wait(answer: PollAnswer) returns (ret: int)
      requires Valid()
      modifies this
      ensures Valid() && !modified && fdMap == old(fdMap)
      ensures pollFds == [] ==> ret == 0
      ensures pollFds != [] && answer.PollFails? ==> ret == -1
      ensures pollFds != [] && answer.Ready? ==>
                && ret == |set i | 0 <= i < |pollFds| && pollFds[i].revents != NO_EVENTS|
                && ret == CountReady(pollFds)
                && forall i :: 0 <= i < |pollFds| ==> pollFds[i].revents == AnswerAt(answer, i)
    {
      if modified {
        RebuildPollFds();
        modified := false;
      }
      if pollFds == [] {
        return 0;
      }
      if answer.PollFails? {
        return -1;
      }
      var fds := pollFds;
      pollFds := seq(|fds|, i requires 0 <= i < |fds| => fds[i].(revents := AnswerAt(answer, i)));
      ret := CountReady(pollFds);
      CountIsSize(pollFds);
    }

    // The callbacks made, in array order, with their events.
    method ProcessEvents() returns (calls: seq<(int, Revents)>)
      requires Valid()
      modifies this`pollFds
      ensures Valid()
      ensures !modified ==> calls == Ready(old(pollFds))
      ensures |pollFds| == |old(pollFds)|
      ensures forall i :: 0 <= i < |pollFds| ==> pollFds[i] == old(pollFds)[i].(revents := NO_EVENTS)
    {
      calls := [];
      ghost var was := pollFds;
      for i := 0 to |pollFds|
        invariant |pollFds| == |was|
        invariant forall k :: 0 <= k < i ==> pollFds[k] == was[k].(revents := NO_EVENTS)
        invariant forall k :: i <= k < |was| ==> pollFds[k] == was[k]
        invariant !modified ==> calls == Ready(was[..i])
      {
        assert was[..i + 1] == was[..i] + [was[i]];
        ReadySnoc(was[..i], was[i]);
        if pollFds[i].revents != NO_EVENTS {
          var fd := pollFdMap[i];
          if fd in fdMap {
            calls := calls + [(fd, pollFds[i].revents)];
          }
          pollFds := pollFds[i := pollFds[i].(revents := NO_EVENTS)];
        }
      }
      assert was[..|was|] == was;
    }

    static function Ready(fds: seq<PollFd>): seq<(int, Revents)> {
      if fds == [] then []
      else
        var last := fds[|fds| - 1];
        Ready(fds[..|fds| - 1]) + if last.revents.Any() then [(last.fd, last.revents)] else []
    }

    // Entry by entry, in order, those with any event.
    static lemma ReadyOne(p: PollFd)
      ensures Ready([p]) == if p.revents != NO_EVENTS then [(p.fd, p.revents)] else []
    {
      assert [p][..0] == [];
    }

    static lemma {:induction false} ReadyConcat(a: seq<PollFd>, b: seq<PollFd>)
      ensures Ready(a + b) == Ready(a) + Ready(b)
    {
      if b == [] {
        assert a + b == a;
      } else {
        var n := |b| - 1;
        ReadyConcat(a, b[..n]);
        assert (a + b)[..|a + b| - 1] == a + b[..n];
        var last := if b[n].revents.Any() then [(b[n].fd, b[n].revents)] else [];
        assert (Ready(a) + Ready(b[..n])) + last == Ready(a) + (Ready(b[..n]) + last);
      }
    }

    static lemma ReadySnoc(fds: seq<PollFd>, p: PollFd)
      ensures Ready(fds + [p]) == Ready(fds) + if p.revents.Any() then [(p.fd, p.revents)] else []
    {
      assert (fds + [p])[..|fds|] == fds;
    }
  }
}
