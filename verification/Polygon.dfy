// The even-odd point-in-polygon test, over exact reals.
module Polygon {

  datatype Point = Point(x: real, y: real)

  const MAX_INPUT_POINTS := 1024

  // Where the line through a and b meets the height y.
  function Intercept(a: Point, b: Point, y: real): real
    requires a.y != b.y
  {
    (b.x - a.x) * (y - a.y) / (b.y - a.y) + a.x
  }

  predicate Above(a: Point, p: Point) {
    a.y > p.y
  }

  // Does the ray from p to the right cross the edge a-b?
  predicate Crosses(a: Point, b: Point, p: Point) {
    Above(a, p) != Above(b, p) && p.x < Intercept(a, b, p.y)
  }

  // Edges of the open path s that the ray crosses.
  function Crossings(s: seq<Point>, p: Point): nat {
    if |s| < 2 then 0 else (if Crosses(s[1], s[0], p) then 1 else 0) + Crossings(s[1..], p)
  }

  // The path that goes round once and returns to its first vertex.
  function Closed(pol: seq<Point>): seq<Point>
    requires pol != []
  {
    pol + [pol[0]]
  }

  // The even-odd rule.
  predicate EvenOdd(pol: seq<Point>, p: Point)
    requires pol != []
  {
    Crossings(Closed(pol), p) % 2 == 1
  }

  // ----- The loop ----------------------------------------------------------

  lemma {:induction false} CrossingsJoin(a: seq<Point>, x: Point, b: seq<Point>, p: Point)
    ensures Crossings(a + [x] + b, p) == Crossings(a + [x], p) + Crossings([x] + b, p)
    decreases |a|
  {
    hide Crosses;
    if a == [] {
      assert [] + [x] + b == [x] + b;
      assert [] + [x] == [x];
    } else {
      CrossingsJoin(a[1..], x, b, p);
      assert (a + [x] + b)[1..] == a[1..] + [x] + b;
      assert (a + [x])[1..] == a[1..] + [x];
      assert (a + [x] + b)[..2] == (a + [x])[..2];
    }
  }

  lemma CrossingsSnoc(s: seq<Point>, v: Point, p: Point)
    requires s != []
    ensures Crossings(s + [v], p) == Crossings(s, p) + if Crosses(v, s[|s| - 1], p) then 1 else 0
  {
    hide Crosses;
    var l := s[|s| - 1];
    assert s[..|s| - 1] + [l] == s;
    CrossingsJoin(s[..|s| - 1], l, [v], p);
    assert [l] + [v] == [l, v];
    assert [l, v][1..] == [v];
  }

  // The loop's condition.
  method EdgeCrossed(a: Point, b: Point, p: Point) returns (crossed: bool)
    ensures crossed <==> Crosses(a, b, p)
  {
    crossed := (a.y > p.y) != (b.y > p.y) && p.x < (b.x - a.x) * (p.y - a.y) / (b.y - a.y) + a.x;
  }

  // Above the size limit the loop does not run at all.
  method IsPointInside(pol: seq<Point>, p: Point) returns (c: bool)
    ensures c <==> 3 <= |pol| <= 1024 && EvenOdd(pol, p)
  {
    if |pol| < 3 {
      return false;
    }
    c := false;
    var n := |pol|;
    var i, j := 0, n - 1;
    ghost var last := pol[n - 1];
    assert [last] + pol[..0] == [last];
    while i < n && i < MAX_INPUT_POINTS && j < n && j < MAX_INPUT_POINTS
      invariant 0 <= i <= n && 0 <= j < n
      invariant j == if i == 0 then n - 1 else i - 1
      invariant n > MAX_INPUT_POINTS ==> i == 0
      invariant c <==> Crossings([last] + pol[..i], p) % 2 == 1
    {
      NextEdge(pol, i, p);
      var crossed := EdgeCrossed(pol[i], pol[j], p);
      if crossed {
        c := !c;
      }
      j := i;
      i := i + 1;
    }
    if n > MAX_INPUT_POINTS {
      return false;
    }
    assert pol[..n] == pol;
    CycleFromLast(pol, p);
  }

  lemma NextEdge(pol: seq<Point>, i: nat, p: Point)
    requires i < |pol|
    ensures var last := pol[|pol| - 1];
            Crossings([last] + pol[..i + 1], p)
            == Crossings([last] + pol[..i], p)
               + if Crosses(pol[i], if i == 0 then last else pol[i - 1], p) then 1 else 0
  {
    var last := pol[|pol| - 1];
    CrossingsSnoc([last] + pol[..i], pol[i], p);
    assert [last] + pol[..i] + [pol[i]] == [last] + pol[..i + 1];
  }

  // The loop starts with the edge that closes the cycle.
  lemma CycleFromLast(pol: seq<Point>, p: Point)
    requires pol != []
    ensures Crossings([pol[|pol| - 1]] + pol, p) == Crossings(Closed(pol), p)
  {
    hide Crosses;
    var l := pol[|pol| - 1];
    CrossingsSnoc(pol, pol[0], p);
    assert ([l] + pol)[1..] == pol;
  }

  // ----- Rotation and reversal ---------------------------------------------

  function Rotated(pol: seq<Point>, k: nat): seq<Point>
    requires k <= |pol|
  {
    pol[k..] + pol[..k]
  }

  lemma RotationInvariant(pol: seq<Point>, k: nat, p: Point)
    requires k <= |pol| && pol != []
    ensures Rotated(pol, k) != [] && (EvenOdd(Rotated(pol, k), p) <==> EvenOdd(pol, p))
  {
    hide Crosses, Crossings;
    if k == 0 || k == |pol| {
      assert Rotated(pol, k) == pol;
    } else {
      var x, y := pol[0], pol[k];
      var a, b := pol[1..k], pol[k + 1..];
      // Both cycles consist of the two arcs between x and y.
      assert Closed(pol) == ([x] + a) + [y] + (b + [x]);
      CrossingsJoin([x] + a, y, b + [x], p);
      assert Closed(Rotated(pol, k)) == ([y] + b) + [x] + (a + [y]);
      CrossingsJoin([y] + b, x, a + [y], p);
      assert ([x] + a) + [y] == [x] + (a + [y]);
      assert ([y] + b) + [x] == [y] + (b + [x]);
    }
  }

  function Reversed(s: seq<Point>): (r: seq<Point>)
    ensures |r| == |s|
  {
    if s == [] then [] else Reversed(s[1..]) + [s[0]]
  }

  // An edge is crossed or not, whichever end it is seen from.
  lemma CrossesSymmetric(a: Point, b: Point, p: Point)
    ensures Crosses(a, b, p) <==> Crosses(b, a, p)
  {
    if a.y != b.y {
      InterceptOnLine(a, b, p.y);
      InterceptOnLine(b, a, p.y);
      var r, q := Intercept(a, b, p.y), Intercept(b, a, p.y);
      hide Intercept;
      SamePoint(r, q, a, b, p.y);
    }
  }

  lemma InterceptOnLine(a: Point, b: Point, y: real)
    requires a.y != b.y
    ensures (Intercept(a, b, y) - a.x) * (b.y - a.y) == (b.x - a.x) * (y - a.y)
  {
    var n, h := (b.x - a.x) * (y - a.y), b.y - a.y;
    assert n / h * h == n;
  }

  lemma SamePoint(r: real, q: real, a: Point, b: Point, y: real)
    requires a.y != b.y
    requires (r - a.x) * (b.y - a.y) == (b.x - a.x) * (y - a.y)
    requires (q - b.x) * (a.y - b.y) == (a.x - b.x) * (y - b.y)
    ensures r == q
  {
    var h, w, u := b.y - a.y, b.x - a.x, y - a.y;
    assert (r - a.x) * h == w * u;
    Opposite(q - b.x, h, w, u, a.y - b.y, a.x - b.x, y - b.y);
    assert q - b.x + w == q - a.x;
    Cancel(r - a.x, q - a.x, h);
  }

  // Reversing the edge negates its height h and width w.
  lemma Opposite(d: real, h: real, w: real, u: real, k: real, v: real, t: real)
    requires k == -h && v == -w && t == u - h && d * k == v * t
    ensures (d + w) * h == w * u
  {
    assert d * k == -(d * h);
    assert v * t == -(w * u - w * h);
    assert (d + w) * h == d * h + w * h;
  }

  lemma Cancel(x: real, y: real, h: real)
    requires h != 0.0 && x * h == y * h
    ensures x == y
  {
    assert (x - y) * h == x * h - y * h;
  }

  lemma {:induction false} ReversedCrossings(s: seq<Point>, p: Point)
    ensures Crossings(Reversed(s), p) == Crossings(s, p)
    decreases |s|
  {
    hide Crosses;
    if |s| < 2 {
    } else {
      ReversedCrossings(s[1..], p);
      LastOfReversed(s[1..]);
      CrossingsSnoc(Reversed(s[1..]), s[0], p);
      CrossesSymmetric(s[0], s[1], p);
    }
  }

  lemma LastOfReversed(s: seq<Point>)
    requires s != []
    ensures Reversed(s)[|s| - 1] == s[0]
  {
  }

  lemma {:induction false} ReversedSnoc(s: seq<Point>, v: Point)
    ensures Reversed(s + [v]) == [v] + Reversed(s)
  {
    if s == [] {
    } else {
      assert (s + [v])[1..] == s[1..] + [v];
      ReversedSnoc(s[1..], v);
    }
  }

  lemma ReversalInvariant(pol: seq<Point>, p: Point)
    requires pol != []
    ensures Reversed(pol) != [] && (EvenOdd(Reversed(pol), p) <==> EvenOdd(pol, p))
  {
    hide Crosses, Crossings;
    var r, first := Reversed(pol), pol[0];
    ReversedCrossings(Closed(pol), p);
    ReversedSnoc(pol, first);
    LastOfReversed(pol);
    assert r[|r| - 1] == first;
    CycleFromLast(r, p);
  }

  // ----- Cutting along a chord ---------------------------------------------

  // A chord splits a polygon in two, and a point is inside the whole exactly
  // when it is inside one part but not both.
  lemma ChordSplits(x: Point, a: seq<Point>, y: Point, b: seq<Point>, p: Point)
    ensures EvenOdd([x] + a + [y] + b, p) <==> (EvenOdd([x] + a + [y], p) != EvenOdd([y] + b + [x], p))
  {
    hide Crosses, Crossings;
    var there, back := [x] + a + [y], [y] + b + [x];
    assert Closed([x] + a + [y] + b) == ([x] + a) + [y] + (b + [x]);
    CrossingsJoin([x] + a, y, b + [x], p);
    assert ([x] + a) + [y] == there && [y] + (b + [x]) == back;
    CrossingsSnoc(there, x, p);
    CrossingsSnoc(back, y, p);
    CrossesSymmetric(x, y, p);
    assert Closed(there) == there + [x] && Closed(back) == back + [y];
  }

  // ----- Points outside ----------------------------------------------------

  // The crossing lies between the two ends of the edge.
  lemma InterceptBetween(a: Point, b: Point, p: Point)
    requires Above(a, p) != Above(b, p)
    ensures (a.x <= Intercept(a, b, p.y) <= b.x) || (b.x <= Intercept(a, b, p.y) <= a.x)
  {
    var u, h, w := p.y - a.y, b.y - a.y, b.x - a.x;
    var t := u / h;
    assert 0.0 <= t <= 1.0 by {
      FractionBetween(u, h);
    }
    assert w * u / h == w * t by {
      ScaleDivision(w, u, h);
    }
    Between(w, t);
  }

  lemma FractionBetween(u: real, h: real)
    requires (0.0 <= u < h) || (h <= u < 0.0)
    ensures 0.0 <= u / h <= 1.0
  {
    var t := u / h;
    assert t * h == u;
    if t < 0.0 || t > 1.0 {
      OutOfRange(t, h);
    }
  }

  lemma OutOfRange(t: real, h: real)
    requires h != 0.0 && (t < 0.0 || t > 1.0)
    ensures !(0.0 <= t * h < h) && !(h <= t * h < 0.0)
  {
    assert (t - 1.0) * h == t * h - h;
  }

  lemma ScaleDivision(w: real, u: real, h: real)
    requires h != 0.0
    ensures w * u / h == w * (u / h)
  {
    assert w * (u / h) * h == w * (u / h * h) == w * u;
  }

  lemma Between(w: real, t: real)
    requires 0.0 <= t <= 1.0
    ensures 0.0 <= w * t <= w || w <= w * t <= 0.0
  {
  }

  lemma {:induction false} NoCrossings(s: seq<Point>, p: Point)
    requires || (forall v :: v in s ==> v.y <= p.y)
             || (forall v :: v in s ==> v.y > p.y)
             || (forall v :: v in s ==> v.x <= p.x)
    ensures Crossings(s, p) == 0
    decreases |s|
  {
    if |s| < 2 {
    } else {
      assert s[0] in s && s[1] in s;
      if Above(s[1], p) != Above(s[0], p) {
        InterceptBetween(s[1], s[0], p);
      }
      hide Crosses;
      forall v | v in s[1..] ensures v in s {
      }
      NoCrossings(s[1..], p);
    }
  }

  // Left of every vertex the ray crosses at each change of side, and round a
  // closed cycle the side changes an even number of times.
  lemma {:induction false} LeftCrossings(s: seq<Point>, p: Point)
    requires s != [] && forall v :: v in s ==> v.x > p.x
    ensures Crossings(s, p) % 2 == if Above(s[0], p) != Above(s[|s| - 1], p) then 1 else 0
    decreases |s|
  {
    if |s| < 2 {
    } else {
      assert s[0] in s && s[1] in s;
      if Above(s[1], p) != Above(s[0], p) {
        InterceptBetween(s[1], s[0], p);
      }
      assert Crosses(s[1], s[0], p) <==> Above(s[1], p) != Above(s[0], p);
      hide Crosses, Above;
      forall v | v in s[1..] ensures v in s {
      }
      LeftCrossings(s[1..], p);
    }
  }

  lemma OutsideTheBoundingBox(pol: seq<Point>, p: Point)
    requires pol != []
    requires || (forall v :: v in pol ==> v.x > p.x)
             || (forall v :: v in pol ==> v.x <= p.x)
             || (forall v :: v in pol ==> v.y > p.y)
             || (forall v :: v in pol ==> v.y <= p.y)
    ensures !EvenOdd(pol, p)
  {
    var cycle := Closed(pol);
    assert forall v :: v in cycle <==> v in pol;
    if forall v :: v in pol ==> v.x > p.x {
      LeftCrossings(cycle, p);
    } else {
      NoCrossings(cycle, p);
    }
  }

  // ----- What it is for ----------------------------------------------------

  // A rectangle contains exactly its interior, its left side and its bottom
  // side: rectangles that share a side share no point.
  lemma RectangleExact(x0: real, x1: real, y0: real, y1: real, p: Point)
    requires x0 < x1 && y0 < y1
    ensures EvenOdd([Point(x0, y0), Point(x1, y0), Point(x1, y1), Point(x0, y1)], p)
       <==> x0 <= p.x < x1 && y0 <= p.y < y1
  {
    var a, b, c, d := Point(x0, y0), Point(x1, y0), Point(x1, y1), Point(x0, y1);
    var cycle := Closed([a, b, c, d]);
    assert cycle == [a, b, c, d, a];
    assert cycle[1..] == [b, c, d, a] && [b, c, d, a][1..] == [c, d, a] && [c, d, a][1..] == [d, a];
    assert !Crosses(b, a, p) && !Crosses(d, c, p);
    assert Crosses(c, b, p) <==> y0 <= p.y < y1 && p.x < x1;
    assert Crosses(a, d, p) <==> y0 <= p.y < y1 && p.x < x0;
    hide Crosses;
    assert Crossings([d, a], p) == if Crosses(a, d, p) then 1 else 0;
    assert Crossings([c, d, a], p) == Crossings([d, a], p);
    assert Crossings([b, c, d, a], p) == Crossings([d, a], p) + if Crosses(c, b, p) then 1 else 0;
  }
}
