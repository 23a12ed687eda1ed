// Convex polygons: the even-odd test decides them exactly, border included.
module PolygonConvex {
  import opened Polygon

  // Twice the signed area of a-b-p: positive when p lies to the left of a-b.
  function Cross(a: Point, b: Point, p: Point): real {
    (b.x - a.x) * (p.y - a.y) - (b.y - a.y) * (p.x - a.x)
  }

  // To the left of a-b, or on its line when a-b leads down or level to the right.
  predicate Within(a: Point, b: Point, p: Point) {
    || Cross(a, b, p) > 0.0
    || (Cross(a, b, p) == 0.0 && (b.y < a.y || (b.y == a.y && b.x > a.x)))
  }

  predicate WithinTriangle(a: Point, b: Point, c: Point, p: Point) {
    Within(a, b, p) && Within(b, c, p) && Within(c, a, p)
  }

  // ----- Signed areas ------------------------------------------------------

  lemma CrossFlip(a: Point, b: Point, p: Point)
    ensures Cross(b, a, p) == -Cross(a, b, p)
  {
    var w, h := b.x - a.x, b.y - a.y;
    var u, v := p.x - a.x, p.y - a.y;
    assert Cross(b, a, p) == (-w) * (v - h) - (-h) * (u - w);
    assert (-w) * (v - h) == -(w * v) + w * h;
    assert (-h) * (u - w) == -(h * u) + h * w;
  }

  lemma CrossCyclic(a: Point, b: Point, c: Point)
    ensures Cross(b, c, a) == Cross(a, b, c)
  {
    var w, h := b.x - a.x, b.y - a.y;
    var u, v := c.x - a.x, c.y - a.y;
    assert Cross(b, c, a) == (u - w) * (-h) - (v - h) * (-w);
    assert (u - w) * (-h) == -(u * h) + w * h;
    assert (v - h) * (-w) == -(v * w) + h * w;
  }

  // The three triangles that p makes with the sides add up to the whole.
  lemma CrossSum(a: Point, b: Point, c: Point, p: Point)
    ensures Cross(a, b, p) + Cross(b, c, p) + Cross(c, a, p) == Cross(a, b, c)
  {
    var w, h := b.x - a.x, b.y - a.y;
    var u, v := c.x - a.x, c.y - a.y;
    var x, y := p.x - a.x, p.y - a.y;
    assert Cross(b, c, p) == (u - w) * (y - h) - (v - h) * (x - w);
    assert (u - w) * (y - h) == u * y - u * h - w * y + w * h;
    assert (v - h) * (x - w) == v * x - v * w - h * x + h * w;
    CrossFlip(a, c, p);
  }

  lemma Within1Of2(a: Point, b: Point, p: Point)
    requires a != b
    ensures Within(a, b, p) != Within(b, a, p)
  {
    CrossFlip(a, b, p);
    hide Cross;
  }

  // p is the mean of the corners, weighted with the areas opposite to them.
  lemma Barycentre(a: Point, b: Point, c: Point, p: Point)
    ensures Cross(b, c, p) * (a.y - p.y) + Cross(c, a, p) * (b.y - p.y) + Cross(a, b, p) * (c.y - p.y) == 0.0
    ensures Cross(b, c, p) * (a.x - p.x) + Cross(c, a, p) * (b.x - p.x) + Cross(a, b, p) * (c.x - p.x) == 0.0
  {
    CrossAt(a, b, p);
    CrossAt(b, c, p);
    CrossAt(c, a, p);
    hide Cross;
    Cancels(a.x - p.x, a.y - p.y, b.x - p.x, b.y - p.y, c.x - p.x, c.y - p.y);
  }

  lemma CrossAt(a: Point, b: Point, p: Point)
    ensures Cross(a, b, p) == (a.x - p.x) * (b.y - p.y) - (a.y - p.y) * (b.x - p.x)
  {
    CrossCyclic(p, a, b);
  }

  lemma Cancels(xa: real, ya: real, xb: real, yb: real, xc: real, yc: real)
    ensures (xb * yc - yb * xc) * ya + (xc * ya - yc * xa) * yb + (xa * yb - ya * xb) * yc == 0.0
    ensures (xb * yc - yb * xc) * xa + (xc * ya - yc * xa) * xb + (xa * yb - ya * xb) * xc == 0.0
  {
  }

  // Cross is affine in its last point.
  lemma CrossMean(a: Point, b: Point, c: Point, x: Point, y: Point, p: Point)
    ensures Cross(a, b, c) * Cross(x, y, p)
         == Cross(b, c, p) * Cross(x, y, a) + Cross(c, a, p) * Cross(x, y, b) + Cross(a, b, p) * Cross(x, y, c)
  {
    Barycentre(a, b, c, p);
    CrossSum(a, b, c, p);
    var l, w, h := Cross(x, y, p), y.x - x.x, y.y - x.y;
    CrossMoves(x, y, p, a);
    CrossMoves(x, y, p, b);
    CrossMoves(x, y, p, c);
    var i, j, k := Cross(b, c, p), Cross(c, a, p), Cross(a, b, p);
    hide Cross;
    Weighted(i, j, k, l, w, h, a.x - p.x, a.y - p.y, b.x - p.x, b.y - p.y, c.x - p.x, c.y - p.y);
  }

  lemma CrossMoves(x: Point, y: Point, p: Point, a: Point)
    ensures Cross(x, y, a) == Cross(x, y, p) + (y.x - x.x) * (a.y - p.y) - (y.y - x.y) * (a.x - p.x)
  {
    var w, h := y.x - x.x, y.y - x.y;
    assert w * (a.y - x.y) == w * (p.y - x.y) + w * (a.y - p.y);
    assert h * (a.x - x.x) == h * (p.x - x.x) + h * (a.x - p.x);
  }

  lemma Weighted(i: real, j: real, k: real, l: real, w: real, h: real,
                 xa: real, ya: real, xb: real, yb: real, xc: real, yc: real)
    requires i * ya + j * yb + k * yc == 0.0
    requires i * xa + j * xb + k * xc == 0.0
    ensures (i + j + k) * l == i * (l + w * ya - h * xa) + j * (l + w * yb - h * xb) + k * (l + w * yc - h * xc)
  {
    assert i * (l + w * ya - h * xa) == i * l + w * (i * ya) - h * (i * xa);
    assert j * (l + w * yb - h * xb) == j * l + w * (j * yb) - h * (j * xb);
    assert k * (l + w * yc - h * xc) == k * l + w * (k * yc) - h * (k * xc);
    assert w * (i * ya + j * yb + k * yc) == w * (i * ya) + w * (j * yb) + w * (k * yc);
    assert h * (i * xa + j * xb + k * xc) == h * (i * xa) + h * (j * xb) + h * (k * xc);
    assert (i + j + k) * l == i * l + j * l + k * l;
  }

  // ----- A nearby point off every line -------------------------------------

  // A little to the right and, when t is small, far less upwards.
  function Nudged(p: Point, e: real, t: real): Point {
    Point(p.x + e, p.y + t * e)
  }

  // The nudged point is strictly on the side that p counts as being on.
  predicate SideKept(a: Point, b: Point, p: Point, e: real, t: real) {
    var q := Nudged(p, e, t);
    if Within(a, b, p) then Cross(a, b, q) > 0.0 else Cross(a, b, q) < 0.0
  }

  predicate HeightKept(a: Point, p: Point, e: real, t: real) {
    var q := Nudged(p, e, t);
    if Above(a, p) then a.y > q.y else a.y < q.y
  }

  function Abs(x: real): real {
    if x < 0.0 then -x else x
  }

  // How far a nudge may go.
  lemma Room(x: real, y: real) returns (r: real)
    requires x > 0.0 && y >= 0.0
    ensures 0.0 < r <= 1.0 && r * y < x
  {
    if y < x {
      r := 1.0;
    } else {
      r := x / (2.0 * y);
      Halves(r, y, x);
    }
  }

  lemma Halves(r: real, y: real, x: real)
    requires r * (2.0 * y) == x && 0.0 < x <= y
    ensures r * y < x && 0.0 < r <= 1.0
  {
    assert r * (2.0 * y) == r * y + r * y;
    SignOfProduct(r, y);
    assert (r - 1.0) * y == r * y - y;
    SignOfProduct(r - 1.0, y);
  }

  lemma SignOfProduct(d: real, e: real)
    requires e > 0.0
    ensures (d * e > 0.0 <==> d > 0.0) && (d * e < 0.0 <==> d < 0.0)
  {
  }

  // A smaller nudge does as well.
  lemma Smaller(e: real, r: real, y: real)
    requires e <= r && y >= 0.0
    ensures e * y <= r * y
  {
    assert (r - e) * y == r * y - e * y;
  }

  lemma Shrunk(t: real, e: real)
    requires 0.0 < e && 0.0 < t <= 1.0
    ensures 0.0 < t * e <= e
  {
    SignOfProduct(t, e);
    assert (1.0 - t) * e == e - t * e;
    SignOfProduct(1.0 - t, e);
  }

  lemma AbsTimes(w: real, t: real)
    requires t >= 0.0
    ensures -(t * Abs(w)) <= w * t <= t * Abs(w)
  {
  }

  lemma CrossNudged(a: Point, b: Point, p: Point, e: real, t: real)
    ensures Cross(a, b, Nudged(p, e, t)) == Cross(a, b, p) + ((b.x - a.x) * (t * e) - (b.y - a.y) * e)
  {
    CrossMoves(a, b, p, Nudged(p, e, t));
  }

  lemma SideRoom(a: Point, b: Point, p: Point) returns (r: real)
    requires a != b
    ensures r > 0.0
    ensures forall e, t :: 0.0 < e <= r && 0.0 < t <= r ==> SideKept(a, b, p, e, t)
  {
    var c, w, h := Cross(a, b, p), b.x - a.x, b.y - a.y;
    hide Cross, SideKept;
    r := 1.0;
    if c != 0.0 {
      r := Room(Abs(c), Abs(w) + Abs(h));
    } else if h != 0.0 {
      r := Room(Abs(h), Abs(w));
    }
    forall e, t | 0.0 < e <= r && 0.0 < t <= r ensures SideKept(a, b, p, e, t) {
      if c != 0.0 {
        OffTheLine(a, b, p, r, e, t);
      } else if h != 0.0 {
        OnSlope(a, b, p, r, e, t);
      } else {
        OnLevel(a, b, p, e, t);
      }
    }
  }

  lemma CrossClose(a: Point, b: Point, p: Point, e: real, t: real)
    requires 0.0 < e && 0.0 < t <= 1.0
    ensures var m := Abs(b.x - a.x) + Abs(b.y - a.y);
            0.0 <= m && Abs(Cross(a, b, Nudged(p, e, t)) - Cross(a, b, p)) <= e * m
  {
    CrossNudged(a, b, p, e, t);
    hide Cross, Nudged;
    SmallChange(b.x - a.x, b.y - a.y, e, t);
  }

  lemma OffTheLine(a: Point, b: Point, p: Point, r: real, e: real, t: real)
    requires Cross(a, b, p) != 0.0 && 0.0 < e <= r <= 1.0 && 0.0 < t <= 1.0
    requires r * (Abs(b.x - a.x) + Abs(b.y - a.y)) < Abs(Cross(a, b, p))
    ensures SideKept(a, b, p, e, t)
  {
    hide Cross, Nudged, Abs;
    CrossClose(a, b, p, e, t);
    var c := Cross(a, b, p);
    SignStays(c, Cross(a, b, Nudged(p, e, t)) - c, r, e, Abs(b.x - a.x) + Abs(b.y - a.y));
  }

  lemma SignStays(c: real, d: real, r: real, e: real, m: real)
    requires 0.0 <= m && e <= r && Abs(d) <= e * m && r * m < Abs(c)
    ensures if c > 0.0 then c + d > 0.0 else c + d < 0.0
  {
    Smaller(e, r, m);
  }

  lemma SmallChange(w: real, h: real, e: real, t: real)
    requires 0.0 < e && 0.0 < t <= 1.0
    ensures 0.0 <= Abs(w) + Abs(h) && Abs(w * (t * e) - h * e) <= e * (Abs(w) + Abs(h))
  {
    Shrunk(t, e);
    AbsTimes(w, t * e);
    AbsTimes(h, e);
    Smaller(t * e, e, Abs(w));
    assert e * (Abs(w) + Abs(h)) == e * Abs(w) + e * Abs(h);
  }

  lemma OnSlope(a: Point, b: Point, p: Point, r: real, e: real, t: real)
    requires Cross(a, b, p) == 0.0 && a.y != b.y && 0.0 < e && 0.0 < t <= r
    requires r * Abs(b.x - a.x) < Abs(b.y - a.y)
    ensures SideKept(a, b, p, e, t)
  {
    CrossNudged(a, b, p, e, t);
    var w, h := b.x - a.x, b.y - a.y;
    hide Cross, Nudged;
    Smaller(t, r, Abs(w));
    AbsTimes(w, t);
    assert w * (t * e) - h * e == (w * t - h) * e;
    SignOfProduct(w * t - h, e);
  }

  lemma OnLevel(a: Point, b: Point, p: Point, e: real, t: real)
    requires Cross(a, b, p) == 0.0 && a.y == b.y && a != b && 0.0 < e && 0.0 < t
    ensures SideKept(a, b, p, e, t)
  {
    CrossNudged(a, b, p, e, t);
    hide Cross, Nudged;
    SignOfProduct(t, e);
    SignOfProduct(b.x - a.x, t * e);
  }

  lemma HeightRoom(a: Point, p: Point) returns (r: real)
    ensures r > 0.0
    ensures forall e, t :: 0.0 < e <= r && 0.0 < t <= r ==> HeightKept(a, p, e, t)
  {
    var d := a.y - p.y;
    r := 1.0;
    if d > 0.0 {
      r := Room(d, 1.0);
    }
    hide HeightKept;
    forall e, t | 0.0 < e <= r && 0.0 < t <= r ensures HeightKept(a, p, e, t) {
      HeightStays(a, p, e, t);
    }
  }

  lemma HeightStays(a: Point, p: Point, e: real, t: real)
    requires 0.0 < e <= 1.0 && 0.0 < t <= 1.0 && (a.y > p.y ==> e < a.y - p.y)
    ensures HeightKept(a, p, e, t)
  {
    Shrunk(t, e);
  }

  // ----- Triangles ---------------------------------------------------------

  // The ray meets an edge that goes up exactly on its left, and an edge that
  // goes down exactly on its right.
  lemma CrossesWithin(a: Point, b: Point, p: Point)
    ensures Crosses(a, b, p) <==> Above(a, p) != Above(b, p) && (Above(b, p) <==> Within(a, b, p))
  {
    if Above(a, p) != Above(b, p) {
      InterceptOnLine(a, b, p.y);
      var r, h := Intercept(a, b, p.y), b.y - a.y;
      hide Intercept;
      assert Cross(a, b, p) == (r - p.x) * h by {
        assert (r - a.x) * h == (r - p.x) * h + h * (p.x - a.x);
      }
      hide Cross;
      if h > 0.0 {
        SignOfProduct(r - p.x, h);
      } else {
        assert (r - p.x) * h == -((r - p.x) * -h);
        SignOfProduct(r - p.x, -h);
      }
    }
  }

  lemma Distinct(a: Point, b: Point, c: Point)
    requires Cross(a, b, c) > 0.0
    ensures a != b && b != c && c != a
  {
    CrossCyclic(a, b, c);
    CrossCyclic(b, c, a);
  }

  // What weights and heights of one point say about each other.
  lemma Balance(i: real, j: real, k: real, ya: real, yb: real, yc: real)
    requires i != 0.0 && j != 0.0 && k != 0.0 && ya != 0.0 && yb != 0.0 && yc != 0.0
    requires i + j + k > 0.0 && i * ya + j * yb + k * yc == 0.0
    requires (ya > 0.0) == (yb > 0.0)
    ensures i > 0.0 && j > 0.0 && k > 0.0 <==> (ya > 0.0) != (yc > 0.0) && (i > 0.0) == (j > 0.0)
  {
    TermSign(i, ya);
    TermSign(j, yb);
    TermSign(k, yc);
  }

  lemma TermSign(i: real, y: real)
    requires i != 0.0 && y != 0.0
    ensures i * y > 0.0 <==> (i > 0.0) == (y > 0.0)
    ensures i * y < 0.0 <==> (i > 0.0) != (y > 0.0)
  {
    if y > 0.0 {
      SignOfProduct(i, y);
    } else {
      assert i * y == -(i * -y);
      SignOfProduct(i, -y);
    }
  }

  lemma TriangleCase(a: Point, b: Point, c: Point, p: Point)
    requires Cross(a, b, c) > 0.0 && Above(a, p) == Above(b, p)
    ensures WithinTriangle(a, b, c, p) <==> Above(a, p) != Above(c, p) && Within(b, c, p) == Within(c, a, p)
  {
    var e := TriangleRoom(a, b, c, p);
    var h := HeightsRoom(a, b, c, p);
    e := if h < e then h else e;
    assert SideKept(a, b, p, e, e) && SideKept(b, c, p, e, e) && SideKept(c, a, p, e, e);
    assert HeightKept(a, p, e, e) && HeightKept(b, p, e, e) && HeightKept(c, p, e, e);
    var q := Nudged(p, e, e);
    Barycentre(a, b, c, q);
    CrossSum(a, b, c, q);
    hide Cross, Within, Nudged;
    Balance(Cross(b, c, q), Cross(c, a, q), Cross(a, b, q), a.y - q.y, b.y - q.y, c.y - q.y);
  }

  lemma TriangleRoom(a: Point, b: Point, c: Point, p: Point) returns (r: real)
    requires Cross(a, b, c) > 0.0
    ensures r > 0.0
    ensures forall e, t :: 0.0 < e <= r && 0.0 < t <= r ==> SideKept(a, b, p, e, t)
    ensures forall e, t :: 0.0 < e <= r && 0.0 < t <= r ==> SideKept(b, c, p, e, t)
    ensures forall e, t :: 0.0 < e <= r && 0.0 < t <= r ==> SideKept(c, a, p, e, t)
  {
    Distinct(a, b, c);
    hide SideKept, Cross;
    var r1 := SideRoom(a, b, p);
    var r2 := SideRoom(b, c, p);
    var r3 := SideRoom(c, a, p);
    r := Least(r1, r2, r3);
  }

  lemma HeightsRoom(a: Point, b: Point, c: Point, p: Point) returns (r: real)
    ensures r > 0.0
    ensures forall e, t :: 0.0 < e <= r && 0.0 < t <= r ==> HeightKept(a, p, e, t)
    ensures forall e, t :: 0.0 < e <= r && 0.0 < t <= r ==> HeightKept(b, p, e, t)
    ensures forall e, t :: 0.0 < e <= r && 0.0 < t <= r ==> HeightKept(c, p, e, t)
  {
    hide HeightKept;
    var r1 := HeightRoom(a, p);
    var r2 := HeightRoom(b, p);
    var r3 := HeightRoom(c, p);
    r := Least(r1, r2, r3);
  }

  function Least(x: real, y: real, z: real): (r: real)
    ensures r <= x && r <= y && r <= z && (r == x || r == y || r == z)
  {
    var m := if x < y then x else y;
    if m < z then m else z
  }

  // A triangle given counter-clockwise contains exactly its interior and the
  // part of its border that lies to the left or below.
  lemma TriangleExact(a: Point, b: Point, c: Point, p: Point)
    requires Cross(a, b, c) > 0.0
    ensures EvenOdd([a, b, c], p) <==> WithinTriangle(a, b, c, p)
  {
    CrossCyclic(a, b, c);
    CrossCyclic(b, c, a);
    TriangleParity(a, b, c, p);
    hide Cross, Within, EvenOdd, Above;
    if Above(a, p) == Above(b, p) {
      TriangleCase(a, b, c, p);
    } else if Above(b, p) == Above(c, p) {
      TriangleCase(b, c, a, p);
    } else {
      TriangleCase(c, a, b, p);
    }
  }

  lemma TriangleParity(a: Point, b: Point, c: Point, p: Point)
    ensures var i := Above(a, p) != Above(b, p) && (Above(b, p) <==> Within(a, b, p));
            var j := Above(b, p) != Above(c, p) && (Above(c, p) <==> Within(b, c, p));
            var k := Above(c, p) != Above(a, p) && (Above(a, p) <==> Within(c, a, p));
            EvenOdd([a, b, c], p) <==> ((i != j) != k)
  {
    CrossesWithin(a, b, p);
    CrossesWithin(b, c, p);
    CrossesWithin(c, a, p);
    CrossesSymmetric(a, b, p);
    CrossesSymmetric(b, c, p);
    CrossesSymmetric(c, a, p);
    hide Crosses, Within, Above;
    assert Closed([a, b, c]) == [a, b, c, a];
    assert [a, b, c, a][1..] == [b, c, a] && [b, c, a][1..] == [c, a];
    assert Crossings([c, a], p) == if Crosses(a, c, p) then 1 else 0;
    assert Crossings([b, c, a], p) == Crossings([c, a], p) + if Crosses(c, b, p) then 1 else 0;
  }

  // What a triangle contains lies to the left of every line that has the
  // triangle on its left.
  lemma TriangleLeft(a: Point, b: Point, c: Point, x: Point, y: Point, p: Point)
    requires Cross(a, b, c) > 0.0 && WithinTriangle(a, b, c, p) && x != y
    requires Cross(x, y, a) >= 0.0 && Cross(x, y, b) >= 0.0 && Cross(x, y, c) >= 0.0
    requires Cross(x, y, a) > 0.0 || Cross(x, y, b) > 0.0 || Cross(x, y, c) > 0.0
    ensures Within(x, y, p)
  {
    var e := TriangleRoom(a, b, c, p);
    var r := SideRoom(x, y, p);
    e := if r < e then r else e;
    assert SideKept(a, b, p, e, e) && SideKept(b, c, p, e, e) && SideKept(c, a, p, e, e);
    assert SideKept(x, y, p, e, e);
    var q := Nudged(p, e, e);
    CrossMean(a, b, c, x, y, q);
    hide Cross, Within, Nudged;
    MeanPositive(Cross(b, c, q), Cross(c, a, q), Cross(a, b, q), Cross(x, y, a), Cross(x, y, b), Cross(x, y, c));
    assert Cross(a, b, c) * Cross(x, y, q) > 0.0;
    SignOfProduct(Cross(x, y, q), Cross(a, b, c));
  }

  lemma MeanPositive(i: real, j: real, k: real, x: real, y: real, z: real)
    requires i > 0.0 && j > 0.0 && k > 0.0 && x >= 0.0 && y >= 0.0 && z >= 0.0
    requires x > 0.0 || y > 0.0 || z > 0.0
    ensures i * x + j * y + k * z > 0.0
  {
    SignOfProduct(x, i);
    SignOfProduct(y, j);
    SignOfProduct(z, k);
  }

  // ----- Convex polygons ---------------------------------------------------

  // Any three vertices, in order, turn to the left.
  predicate Convex(pol: seq<Point>) {
    && |pol| >= 3
    && forall i, j, k :: 0 <= i < j < k < |pol| ==> Cross(pol[i], pol[j], pol[k]) > 0.0
  }

  // Within every edge of the path s.
  predicate WithinAll(s: seq<Point>, p: Point) {
    forall i :: 0 <= i < |s| - 1 ==> Within(s[i], s[i + 1], p)
  }

  // The polygon without its second vertex.
  function Cut(pol: seq<Point>): seq<Point>
    requires |pol| >= 2
  {
    [pol[0]] + pol[2..]
  }

  lemma CutConvex(pol: seq<Point>)
    requires Convex(pol) && |pol| >= 4
    ensures Convex(Cut(pol))
  {
    hide Cross;
    var c := Cut(pol);
    forall i, j, k | 0 <= i < j < k < |c| ensures Cross(c[i], c[j], c[k]) > 0.0 {
      assert c[j] == pol[j + 1] && c[k] == pol[k + 1];
      assert c[i] == pol[if i == 0 then 0 else i + 1];
    }
  }

  // Round the polygon, and round the polygon without its second vertex.
  lemma WithinAllCut(pol: seq<Point>, p: Point)
    requires |pol| >= 3
    ensures var rest := WithinAll(pol[2..] + [pol[0]], p);
            && (WithinAll(Closed(pol), p) <==> Within(pol[0], pol[1], p) && Within(pol[1], pol[2], p) && rest)
            && (WithinAll(Closed(Cut(pol)), p) <==> Within(pol[0], pol[2], p) && rest)
  {
    hide Within;
    var t := pol[2..] + [pol[0]];
    WithinAllCons(pol[0], [pol[1]] + t, p);
    WithinAllCons(pol[1], t, p);
    WithinAllCons(pol[0], t, p);
    hide WithinAll;
    assert Closed(pol) == [pol[0]] + ([pol[1]] + t);
    assert Closed(Cut(pol)) == [pol[0]] + t;
  }

  lemma WithinAllCons(a: Point, s: seq<Point>, p: Point)
    requires s != []
    ensures WithinAll([a] + s, p) <==> Within(a, s[0], p) && WithinAll(s, p)
  {
    hide Within;
    var t := [a] + s;
    if WithinAll(t, p) {
      assert Within(t[0], t[1], p);
      forall i | 0 <= i < |s| - 1 ensures Within(s[i], s[i + 1], p) {
        assert Within(t[i + 1], t[i + 2], p);
      }
    }
  }

  // A point within all edges lies in one of the triangles that the first vertex
  // makes with an edge.
  lemma {:induction false} FanMember(pol: seq<Point>, p: Point) returns (i: nat)
    requires Convex(pol) && WithinAll(Closed(pol), p)
    ensures 1 <= i < |pol| - 1 && WithinTriangle(pol[0], pol[i], pol[i + 1], p)
    decreases |pol|
  {
    hide Cross, Within;
    WithinAllCut(pol, p);
    if |pol| == 3 {
      i := 1;
      WithinAllCons(pol[2], [pol[0]], p);
      assert pol[2..] + [pol[0]] == [pol[2]] + [pol[0]];
    } else {
      assert Cross(pol[0], pol[1], pol[2]) > 0.0;
      Distinct(pol[0], pol[1], pol[2]);
      Within1Of2(pol[0], pol[2], p);
      if Within(pol[0], pol[2], p) {
        CutConvex(pol);
        var k := FanMember(Cut(pol), p);
        i := k + 1;
        assert Cut(pol)[k] == pol[i] && Cut(pol)[k + 1] == pol[i + 1];
      } else {
        i := 1;
      }
    }
  }

  // So it lies to the left of every line with the polygon on its left, where at
  // most one vertex, z, may touch the line.
  lemma PolygonLeft(pol: seq<Point>, x: Point, y: Point, z: nat, p: Point)
    requires Convex(pol) && WithinAll(Closed(pol), p) && x != y
    requires forall j :: 0 <= j < |pol| ==> Cross(x, y, pol[j]) >= 0.0
    requires forall j :: 0 <= j < |pol| && j != z ==> Cross(x, y, pol[j]) > 0.0
    ensures Within(x, y, p)
  {
    hide Cross, Within, WithinAll;
    var i := FanMember(pol, p);
    assert Cross(pol[0], pol[i], pol[i + 1]) > 0.0;
    TriangleLeft(pol[0], pol[i], pol[i + 1], x, y, p);
  }

  // Beyond the chord from the first to the third vertex.
  lemma CornerWithinRest(pol: seq<Point>, p: Point)
    requires Convex(pol) && |pol| >= 4 && WithinTriangle(pol[0], pol[1], pol[2], p)
    ensures WithinAll(pol[2..] + [pol[0]], p)
  {
    hide Cross, Within;
    var t := pol[2..] + [pol[0]];
    forall i | 0 <= i < |t| - 1 ensures Within(t[i], t[i + 1], p) {
      var x, y := i + 2, if i + 3 < |pol| then i + 3 else 0;
      assert t[i] == pol[x] && t[i + 1] == pol[y];
      EdgeLeft(pol, x, y);
      TriangleLeft(pol[0], pol[1], pol[2], pol[x], pol[y], p);
    }
  }

  // The corner cut off lies to the left of the edges that remain.
  lemma EdgeLeft(pol: seq<Point>, x: nat, y: nat)
    requires Convex(pol) && |pol| >= 4
    requires 2 <= x < |pol| && y == if x + 1 < |pol| then x + 1 else 0
    ensures pol[x] != pol[y] && Cross(pol[0], pol[1], pol[2]) > 0.0
    ensures Cross(pol[x], pol[y], pol[0]) >= 0.0 && Cross(pol[x], pol[y], pol[2]) >= 0.0
    ensures Cross(pol[x], pol[y], pol[1]) > 0.0
  {
    CrossCyclic(pol[0], pol[x], pol[y]);
    CrossCyclic(pol[1], pol[x], pol[y]);
    CrossCyclic(pol[2], pol[x], pol[y]);
    CrossCyclic(pol[x], pol[y], pol[0]);
    CrossCyclic(pol[x], pol[y], pol[1]);
    CrossCyclic(pol[x], pol[y], pol[2]);
    Touches(pol[x], pol[y]);
    hide Cross;
    assert Cross(pol[0], pol[1], pol[2]) > 0.0;
    if y == 0 {
      assert Cross(pol[0], pol[1], pol[x]) > 0.0;
      assert x > 2 && Cross(pol[0], pol[2], pol[x]) > 0.0;
      Distinct(pol[0], pol[1], pol[x]);
    } else {
      assert Cross(pol[0], pol[x], pol[y]) > 0.0 && Cross(pol[1], pol[x], pol[y]) > 0.0;
      assert x > 2 ==> Cross(pol[2], pol[x], pol[y]) > 0.0;
      Distinct(pol[0], pol[x], pol[y]);
    }
  }

  lemma Touches(x: Point, y: Point)
    ensures Cross(x, y, x) == 0.0 && Cross(x, y, y) == 0.0
  {
  }

  lemma RestWithinCorner(pol: seq<Point>, p: Point)
    requires Convex(pol) && |pol| >= 4 && WithinAll(Closed(Cut(pol)), p)
    ensures Within(pol[0], pol[1], p) && Within(pol[1], pol[2], p)
  {
    CutConvex(pol);
    var c := Cut(pol);
    Touches(pol[0], pol[1]);
    Touches(pol[1], pol[2]);
    hide Cross, Within, WithinAll;
    assert Cross(pol[0], pol[1], pol[2]) > 0.0;
    Distinct(pol[0], pol[1], pol[2]);
    forall j | 0 < j < |c| ensures Cross(pol[0], pol[1], c[j]) > 0.0 {
      assert c[j] == pol[j + 1];
    }
    PolygonLeft(c, pol[0], pol[1], 0, p);
    forall j | 0 <= j < |c| && j != 1 ensures Cross(pol[1], pol[2], c[j]) > 0.0 {
      if j == 0 {
        CrossCyclic(pol[0], pol[1], pol[2]);
      } else {
        assert c[j] == pol[j + 1];
      }
    }
    PolygonLeft(c, pol[1], pol[2], 1, p);
  }

  // A convex polygon given counter-clockwise contains exactly the points within
  // each of its edges: its interior and the left and lower part of its border.
  lemma {:induction false} ConvexExact(pol: seq<Point>, p: Point)
    requires Convex(pol)
    ensures EvenOdd(pol, p) <==> WithinAll(Closed(pol), p)
    decreases |pol|
  {
    hide Cross, Within, EvenOdd;
    WithinAllCut(pol, p);
    assert Cross(pol[0], pol[1], pol[2]) > 0.0;
    TriangleExact(pol[0], pol[1], pol[2], p);
    if |pol| == 3 {
      assert pol == [pol[0], pol[1], pol[2]];
      WithinAllCons(pol[2], [pol[0]], p);
      assert pol[2..] + [pol[0]] == [pol[2]] + [pol[0]];
    } else {
      CutConvex(pol);
      ConvexExact(Cut(pol), p);
      CutSplits(pol, p);
      Distinct(pol[0], pol[1], pol[2]);
      Within1Of2(pol[0], pol[2], p);
      if WithinTriangle(pol[0], pol[1], pol[2], p) {
        CornerWithinRest(pol, p);
      }
      if WithinAll(Closed(Cut(pol)), p) {
        RestWithinCorner(pol, p);
      }
    }
  }

  lemma CutSplits(pol: seq<Point>, p: Point)
    requires |pol| >= 4
    ensures EvenOdd(pol, p) <==> EvenOdd([pol[0], pol[1], pol[2]], p) != EvenOdd(Cut(pol), p)
  {
    hide EvenOdd;
    var b := pol[3..];
    ChordSplits(pol[0], [pol[1]], pol[2], b, p);
    assert pol == [pol[0]] + [pol[1]] + [pol[2]] + b;
    assert [pol[0]] + [pol[1]] + [pol[2]] == [pol[0], pol[1], pol[2]];
    RotationInvariant(Cut(pol), 1, p);
    assert Rotated(Cut(pol), 1) == [pol[2]] + b + [pol[0]];
  }

  // The same polygon listed clockwise contains the same points.
  lemma ConvexClockwise(pol: seq<Point>, p: Point)
    requires Convex(pol)
    ensures Reversed(pol) != [] && (EvenOdd(Reversed(pol), p) <==> WithinAll(Closed(pol), p))
  {
    hide Cross, Within, EvenOdd;
    ReversalInvariant(pol, p);
    ConvexExact(pol, p);
  }

  // Two convex polygons on either side of an edge x-y share no point, not even
  // on that edge.
  lemma NeighboursShareNoPoint(pol: seq<Point>, other: seq<Point>, i: nat, j: nat, x: Point, y: Point, p: Point)
    requires Convex(pol) && Convex(other) && i < |pol| && j < |other| && x != y
    requires Closed(pol)[i] == x && Closed(pol)[i + 1] == y
    requires Closed(other)[j] == y && Closed(other)[j + 1] == x
    ensures !(EvenOdd(pol, p) && EvenOdd(other, p))
  {
    hide Cross, Within, EvenOdd;
    ConvexExact(pol, p);
    ConvexExact(other, p);
    Within1Of2(x, y, p);
    assert WithinAll(Closed(pol), p) ==> Within(x, y, p);
    assert WithinAll(Closed(other), p) ==> Within(y, x, p);
  }
}
