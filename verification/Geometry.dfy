/** Hand-drawn boundaries: when two closed segments share a point, and which two edges of a
    ring cross. Coordinates are exact reals. */
module Geometry {
  import opened Text

  datatype Position = Position(x: real, y: real)

  function Sub(a: Position, b: Position): (v: Position) { Position(a.x - b.x, a.y - b.y) }

  function Cross(u: Position, v: Position): (c: real) { u.x * v.y - u.y * v.x }

  function Min(a: real, b: real): (m: real) { if a <= b then a else b }

  function Max(a: real, b: real): (m: real) { if a <= b then b else a }

  /** Twice the signed area of the triangle a, b, c. */
  function Turn(a: Position, b: Position, c: Position): (d: real) {
    (b.x - a.x) * (c.y - a.y) - (b.y - a.y) * (c.x - a.x)
  }

  predicate InBox(a: Position, b: Position, p: Position) {
    Min(a.x, b.x) <= p.x <= Max(a.x, b.x) && Min(a.y, b.y) <= p.y <= Max(a.y, b.y)
  }

  function SegmentsCross(p1: Position, p2: Position, p3: Position, p4: Position): (cross: bool) {
    var d1, d2, d3, d4 := Turn(p3, p4, p1), Turn(p3, p4, p2), Turn(p1, p2, p3), Turn(p1, p2, p4);
    if ((d1 > 0.0 && d2 < 0.0) || (d1 < 0.0 && d2 > 0.0))
       && ((d3 > 0.0 && d4 < 0.0) || (d3 < 0.0 && d4 > 0.0)) then true
    else if d1 == 0.0 && InBox(p3, p4, p1) then true
    else if d2 == 0.0 && InBox(p3, p4, p2) then true
    else if d3 == 0.0 && InBox(p1, p2, p3) then true
    else d4 == 0.0 && InBox(p1, p2, p4)
  }

  /* ---- the closed segment as a set of points ---- */

  function At(a: Position, b: Position, t: real): (p: Position) {
    Position(a.x + t * (b.x - a.x), a.y + t * (b.y - a.y))
  }

  ghost predicate Touch(p1: Position, p2: Position, p3: Position, p4: Position, s: real, t: real) {
    0.0 <= s <= 1.0 && 0.0 <= t <= 1.0 && At(p1, p2, s) == At(p3, p4, t)
  }

  /** The two closed segments share a point. */
  ghost predicate Meet(p1: Position, p2: Position, p3: Position, p4: Position) {
    exists s, t :: Touch(p1, p2, p3, p4, s, t)
  }

  /* ---- soundness: every branch that answers true has a common point ---- */

  /** Any three plane vectors satisfy this identity. */
  lemma ThreeVectors(u: Position, v: Position, w: Position)
    ensures Cross(u, v) * w.x + Cross(v, w) * u.x + Cross(w, u) * v.x == 0.0
    ensures Cross(u, v) * w.y + Cross(v, w) * u.y + Cross(w, u) * v.y == 0.0
  {
  }

  lemma Turns(p1: Position, p2: Position, p3: Position, p4: Position)
    ensures var u, v, w := Sub(p2, p1), Sub(p4, p3), Sub(p1, p3);
            && Turn(p3, p4, p1) == Cross(v, w) && Turn(p1, p2, p3) == Cross(w, u)
            && Turn(p3, p4, p1) - Turn(p3, p4, p2) == Cross(u, v)
            && Turn(p1, p2, p3) - Turn(p1, p2, p4) == -Cross(u, v)
  {
  }

  /** Solving for one coordinate of the crossing point. */
  lemma Solve(k: real, a: real, b: real, w: real, u: real, v: real, s: real, t: real)
    requires k != 0.0 && k * w + a * u + b * v == 0.0 && s == a / k && t == -b / k
    ensures w + s * u == t * v
  {
    assert s * k == a && t * k == -b;
    assert k * (w + s * u - t * v) == 0.0 by {
      assert k * (s * u) == a * u && k * (t * v) == -b * v;
      assert k * (w + s * u - t * v) == k * w + k * (s * u) - k * (t * v);
    }
    assert w + s * u - t * v == 0.0;
  }

  /** `a / k` lies in [0, 1] when `a` lies between 0 and `k`. */
  lemma Ratio(a: real, k: real)
    requires (0.0 <= a <= k && k > 0.0) || (k <= a <= 0.0 && k < 0.0)
    ensures 0.0 <= a / k <= 1.0
  {
  }

  lemma ProperCrossing(p1: Position, p2: Position, p3: Position, p4: Position)
    requires var d1, d2 := Turn(p3, p4, p1), Turn(p3, p4, p2); (d1 > 0.0 && d2 < 0.0) || (d1 < 0.0 && d2 > 0.0)
    requires var d3, d4 := Turn(p1, p2, p3), Turn(p1, p2, p4); (d3 > 0.0 && d4 < 0.0) || (d3 < 0.0 && d4 > 0.0)
    ensures Meet(p1, p2, p3, p4)
  {
    var u, v, w := Sub(p2, p1), Sub(p4, p3), Sub(p1, p3);
    var k, d1, d3 := Cross(u, v), Turn(p3, p4, p1), Turn(p1, p2, p3);
    Turns(p1, p2, p3, p4);
    ThreeVectors(u, v, w);
    Ratio(d1, k);
    Ratio(-d3, k);
    Solve(k, d1, d3, w.x, u.x, v.x, d1 / k, -d3 / k);
    Solve(k, d1, d3, w.y, u.y, v.y, d1 / k, -d3 / k);
    assert Touch(p1, p2, p3, p4, d1 / k, -d3 / k);
  }

  /** A point of the line through a and b that lies in their box is a point of the segment. */
  /** How far along a segment a coordinate between its ends is. */
  lemma ShareOf(a: real, b: real, p: real) returns (t: real)
    requires a != b && Min(a, b) <= p <= Max(a, b)
    ensures t == (p - a) / (b - a) && 0.0 <= t <= 1.0
  {
    t := (p - a) / (b - a);
    Ratio(p - a, b - a);
  }

  lemma OnSegmentX(a: Position, b: Position, p: Position) returns (t: real)
    requires a.x != b.x && Min(a.x, b.x) <= p.x <= Max(a.x, b.x)
    requires (b.x - a.x) * (p.y - a.y) == (b.y - a.y) * (p.x - a.x)
    ensures 0.0 <= t <= 1.0 && At(a, b, t) == p
  {
    t := ShareOf(a.x, b.x, p.x);
    Along(b.x - a.x, b.y - a.y, p.x - a.x, p.y - a.y, t);
  }

  /** The same point with the axes exchanged. */
  function Turned(p: Position): (q: Position) { Position(p.y, p.x) }

  lemma OnSegment(a: Position, b: Position, p: Position) returns (t: real)
    requires Turn(a, b, p) == 0.0 && InBox(a, b, p)
    ensures 0.0 <= t <= 1.0 && At(a, b, t) == p
  {
    if a.x != b.x {
      t := OnSegmentX(a, b, p);
    } else if a.y != b.y {
      t := OnSegmentX(Turned(a), Turned(b), Turned(p));
    } else {
      t := 0.0;
    }
  }

  lemma Along(d: real, e: real, x: real, y: real, t: real)
    requires d != 0.0 && t == x / d && d * y == e * x
    ensures t * d == x && t * e == y
  {
    assert t * d == x;
    assert d * (t * e) == d * y by { assert d * (t * e) == (t * d) * e; }
  }

  lemma CrossingMeets(p1: Position, p2: Position, p3: Position, p4: Position)
    requires SegmentsCross(p1, p2, p3, p4)
    ensures Meet(p1, p2, p3, p4)
  {
    if Turn(p3, p4, p1) == 0.0 && InBox(p3, p4, p1) {
      var t := OnSegment(p3, p4, p1);
      assert Touch(p1, p2, p3, p4, 0.0, t);
    } else if Turn(p3, p4, p2) == 0.0 && InBox(p3, p4, p2) {
      var t := OnSegment(p3, p4, p2);
      assert Touch(p1, p2, p3, p4, 1.0, t);
    } else if Turn(p1, p2, p3) == 0.0 && InBox(p1, p2, p3) {
      var s := OnSegment(p1, p2, p3);
      assert Touch(p1, p2, p3, p4, s, 0.0);
    } else if Turn(p1, p2, p4) == 0.0 && InBox(p1, p2, p4) {
      var s := OnSegment(p1, p2, p4);
      assert Touch(p1, p2, p3, p4, s, 1.0);
    } else {
      ProperCrossing(p1, p2, p3, p4);
    }
  }

  /* ---- completeness: a common point is always found ---- */

  lemma Scale(k: real, r: real)
    requires 0.0 <= r <= 1.0 && k >= 0.0
    ensures 0.0 <= r * k <= k
  {
  }

  lemma Within(a: real, b: real, t: real)
    requires 0.0 <= t <= 1.0
    ensures Min(a, b) <= a + t * (b - a) <= Max(a, b)
  {
    if a <= b {
      Shift(a, b, b - a, t);
    } else {
      Shift(b, a, a - b, 1.0 - t);
      assert b + (1.0 - t) * (a - b) == a + t * (b - a);
    }
  }

  lemma Shift(a: real, b: real, k: real, t: real)
    requires 0.0 <= t <= 1.0 && k == b - a >= 0.0
    ensures a <= a + t * k <= b
  {
    Scale(k, t);
  }

  lemma AtInBox(a: Position, b: Position, t: real)
    requires 0.0 <= t <= 1.0
    ensures InBox(a, b, At(a, b, t))
  {
    hide Min, Max;
    Within(a.x, b.x, t);
    Within(a.y, b.y, t);
  }

  lemma AtEnds(a: Position, b: Position)
    ensures At(a, b, 0.0) == a && At(a, b, 1.0) == b
  {
  }

  /** What a common point says about the four turns. */
  lemma TurnsAtTouch(p1: Position, p2: Position, p3: Position, p4: Position, s: real, t: real)
    requires Touch(p1, p2, p3, p4, s, t)
    ensures var k := Cross(Sub(p2, p1), Sub(p4, p3));
            && Turn(p3, p4, p1) == s * k && Turn(p3, p4, p2) == (s - 1.0) * k
            && Turn(p1, p2, p3) == -(t * k) && Turn(p1, p2, p4) == (1.0 - t) * k
  {
    var u, v, w := Sub(p2, p1), Sub(p4, p3), Sub(p1, p3);
    var k := Cross(u, v);
    Turns(p1, p2, p3, p4);
    assert w.x == t * v.x - s * u.x && w.y == t * v.y - s * u.y;
    CrossCombination(u, v, w, s, t);
    assert (s - 1.0) * k == s * k - k && (1.0 - t) * k == k - t * k;
  }

  lemma CrossCombination(u: Position, v: Position, w: Position, s: real, t: real)
    requires w.x == t * v.x - s * u.x && w.y == t * v.y - s * u.y
    ensures Cross(v, w) == s * Cross(u, v) && Cross(w, u) == -(t * Cross(u, v))
  {
    assert v.x * w.y - v.y * w.x == s * (u.x * v.y - u.y * v.x);
    assert w.x * u.y - w.y * u.x == -(t * (u.x * v.y - u.y * v.x));
  }

  lemma Opposite(r: real, k: real, d: real, e: real)
    requires 0.0 < r < 1.0 && k != 0.0 && d == r * k && e == (r - 1.0) * k
    ensures (d > 0.0 && e < 0.0) || (d < 0.0 && e > 0.0)
  {
  }

  lemma CrossingPointFound(p1: Position, p2: Position, p3: Position, p4: Position, s: real, t: real)
    requires Touch(p1, p2, p3, p4, s, t) && Cross(Sub(p2, p1), Sub(p4, p3)) != 0.0
    ensures SegmentsCross(p1, p2, p3, p4)
  {
    hide Turn, InBox, Cross, At;
    var k := Cross(Sub(p2, p1), Sub(p4, p3));
    TurnsAtTouch(p1, p2, p3, p4, s, t);
    AtInBox(p1, p2, s);
    AtInBox(p3, p4, t);
    AtEnds(p1, p2);
    AtEnds(p3, p4);
    if 0.0 < s < 1.0 && 0.0 < t < 1.0 {
      Opposite(s, k, Turn(p3, p4, p1), Turn(p3, p4, p2));
      assert (1.0 - t) * k == -((t - 1.0) * k);
      Opposite(t, k, -Turn(p1, p2, p3), -Turn(p1, p2, p4));
    }
  }

  /** On one line: two intervals that share a point have an end of one inside the other. */
  lemma Overlap(a: real, b: real, s: real, t: real)
    requires 0.0 <= s <= 1.0 && 0.0 <= t <= 1.0 && a + s * (b - a) == t
    ensures 0.0 <= a <= 1.0 || 0.0 <= b <= 1.0 || Min(a, b) <= 0.0 <= Max(a, b)
  {
    Within(a, b, s);
  }

  /** Parallel segments: p1 and p2 measured along a nonzero p3p4. */
  /** Two vectors along one with a part in x, as multiples of it. */
  lemma AlongX(v: Position, w: Position) returns (a: real)
    requires v.x != 0.0 && v.x * w.y == v.y * w.x
    ensures w.x == a * v.x && w.y == a * v.y
  {
    a := w.x / v.x;
    Along(v.x, v.y, w.x, w.y, a);
  }

  lemma AlongAny(v: Position, w: Position) returns (a: real)
    requires (v.x != 0.0 || v.y != 0.0) && Cross(v, w) == 0.0
    ensures w.x == a * v.x && w.y == a * v.y
  {
    if v.x != 0.0 { a := AlongX(v, w); } else { a := AlongX(Position(v.y, v.x), Position(w.y, w.x)); }
  }

  lemma Parallel(u: Position, v: Position, w: Position) returns (a: real, b: real)
    requires v.x != 0.0 || v.y != 0.0
    requires Cross(v, w) == 0.0 && Cross(u, v) == 0.0
    ensures w.x == a * v.x && w.y == a * v.y && w.x + u.x == b * v.x && w.y + u.y == b * v.y
  {
    a := AlongAny(v, w);
    var sum := Position(w.x + u.x, w.y + u.y);
    assert Cross(v, sum) == Cross(v, w) - Cross(u, v);
    b := AlongAny(v, sum);
  }

  /** With all four turns zero, one end in the other's box is enough. */
  lemma EndInBox(p1: Position, p2: Position, p3: Position, p4: Position, s: real, t: real)
    requires Touch(p1, p2, p3, p4, s, t) && Cross(Sub(p2, p1), Sub(p4, p3)) == 0.0
    requires InBox(p3, p4, p1) || InBox(p3, p4, p2) || InBox(p1, p2, p3) || InBox(p1, p2, p4)
    ensures SegmentsCross(p1, p2, p3, p4)
  {
    hide Turn, InBox, Cross, Touch;
    TurnsAtTouch(p1, p2, p3, p4, s, t);
  }

  lemma CollinearPointFound(p1: Position, p2: Position, p3: Position, p4: Position, s: real, t: real)
    requires Touch(p1, p2, p3, p4, s, t) && Cross(Sub(p2, p1), Sub(p4, p3)) == 0.0
    ensures SegmentsCross(p1, p2, p3, p4)
  {
    hide SegmentsCross, InBox;
    if p3 == p4 {
      AtInBox(p1, p2, s);
      assert At(p3, p4, t) == p3;
    } else {
      var a, b := Parameters(p1, p2, p3, p4, s, t);
      Overlap(a, b, s, t);
      if 0.0 <= a <= 1.0 {
        AtInBox(p3, p4, a);
      } else if 0.0 <= b <= 1.0 {
        AtInBox(p3, p4, b);
      } else {
        Covers(p1, p2, p3, p4, a, b);
      }
    }
    EndInBox(p1, p2, p3, p4, s, t);
  }

  lemma Covers(p1: Position, p2: Position, p3: Position, p4: Position, a: real, b: real)
    requires p1 == At(p3, p4, a) && p2 == At(p3, p4, b) && Min(a, b) <= 0.0 <= Max(a, b)
    ensures InBox(p1, p2, p3)
  {
    Between(p4.x - p3.x, a, b);
    Between(p4.y - p3.y, a, b);
  }

  /** Both ends of p1p2 measured along p3p4, which they are collinear with. */
  lemma Parameters(p1: Position, p2: Position, p3: Position, p4: Position, s: real, t: real) returns (a: real, b: real)
    requires Touch(p1, p2, p3, p4, s, t) && Cross(Sub(p2, p1), Sub(p4, p3)) == 0.0 && p3 != p4
    ensures p1 == At(p3, p4, a) && p2 == At(p3, p4, b) && a + s * (b - a) == t
  {
    hide SegmentsCross, InBox;
    var u, v, w := Sub(p2, p1), Sub(p4, p3), Sub(p1, p3);
    TurnsAtTouch(p1, p2, p3, p4, s, t);
    Turns(p1, p2, p3, p4);
    a, b := Parallel(u, v, w);
    SameParameter(v, w, u, a, b, s, t);
  }

  /** Along a nonzero vector the parameter of a point is unique. */
  lemma SameParameter(v: Position, w: Position, u: Position, a: real, b: real, s: real, t: real)
    requires v.x != 0.0 || v.y != 0.0
    requires w.x == a * v.x && w.y == a * v.y && w.x + u.x == b * v.x && w.y + u.y == b * v.y
    requires w.x + s * u.x == t * v.x && w.y + s * u.y == t * v.y
    ensures a + s * (b - a) == t
  {
    Parameter(v.x, w.x, u.x, a, b, s, t);
    Parameter(v.y, w.y, u.y, a, b, s, t);
  }

  lemma Parameter(v: real, w: real, u: real, a: real, b: real, s: real, t: real)
    requires w == a * v && w + u == b * v && w + s * u == t * v
    ensures v == 0.0 || a + s * (b - a) == t
  {
    assert u == (b - a) * v;
    assert s * u == s * (b - a) * v;
    assert (a + s * (b - a) - t) * v == 0.0;
  }

  lemma Sign(a: real, c: real)
    ensures (a <= 0.0 <= c || c <= 0.0 <= a) ==> a * c <= 0.0
    ensures ((a >= 0.0 && c >= 0.0) || (a <= 0.0 && c <= 0.0)) ==> a * c >= 0.0
  {
  }

  /** Zero lies between a and b, so it lies between a times c and b times c. */
  lemma Between(c: real, a: real, b: real)
    requires Min(a, b) <= 0.0 <= Max(a, b)
    ensures Min(a * c, b * c) <= 0.0 <= Max(a * c, b * c)
  {
    Sign(a, c);
    Sign(b, c);
  }

  /** The predicate decides exactly whether the closed segments share a point, degenerate and
      collinear segments included. */
  lemma CrossIffMeet(p1: Position, p2: Position, p3: Position, p4: Position)
    ensures SegmentsCross(p1, p2, p3, p4) <==> Meet(p1, p2, p3, p4)
  {
    if SegmentsCross(p1, p2, p3, p4) { CrossingMeets(p1, p2, p3, p4); }
    if Meet(p1, p2, p3, p4) {
      var s, t :| Touch(p1, p2, p3, p4, s, t);
      if Cross(Sub(p2, p1), Sub(p4, p3)) == 0.0 { CollinearPointFound(p1, p2, p3, p4, s, t); }
      else { CrossingPointFound(p1, p2, p3, p4, s, t); }
    }
  }

  lemma MeetSwap(p1: Position, p2: Position, p3: Position, p4: Position)
    ensures Meet(p1, p2, p3, p4) <==> Meet(p3, p4, p1, p2)
  {
    hide At;
    if Meet(p1, p2, p3, p4) {
      var s, t :| Touch(p1, p2, p3, p4, s, t);
      assert Touch(p3, p4, p1, p2, t, s);
    }
    if Meet(p3, p4, p1, p2) {
      var s, t :| Touch(p3, p4, p1, p2, s, t);
      assert Touch(p1, p2, p3, p4, t, s);
    }
  }

  lemma AtFlip(a: Position, b: Position, t: real)
    ensures At(b, a, 1.0 - t) == At(a, b, t)
  {
    assert b.x + (1.0 - t) * (a.x - b.x) == a.x + t * (b.x - a.x);
    assert b.y + (1.0 - t) * (a.y - b.y) == a.y + t * (b.y - a.y);
  }

  lemma MeetFlip(p1: Position, p2: Position, p3: Position, p4: Position)
    requires Meet(p1, p2, p3, p4)
    ensures Meet(p2, p1, p4, p3)
  {
    hide At;
    var s, t :| Touch(p1, p2, p3, p4, s, t);
    AtFlip(p1, p2, s);
    AtFlip(p3, p4, t);
    assert Touch(p2, p1, p4, p3, 1.0 - s, 1.0 - t);
  }

  /* ---- rings ---- */

  type Ring = seq<Position>

  /** A ring without its closing corner. */
  function OpenRing(ring: Ring): (r: Ring) {
    if |ring| > 1 && ring[0] == ring[|ring| - 1] then ring[..|ring| - 1] else ring
  }

  /** A ring that ends on the corner it starts from. */
  function CloseRing(ring: Ring): (r: Ring) {
    if |ring| == 0 then []
    else if |ring| > 1 && ring[0] == ring[|ring| - 1] then ring
    else ring + [ring[0]]
  }

  /** Each of the two undoes the other exactly on the rings the other leaves alone. */
  lemma OpenCloseInverse(ring: Ring)
    ensures OpenRing(CloseRing(ring)) == ring <==> OpenRing(ring) == ring
    ensures CloseRing(OpenRing(ring)) == ring
       <==> ring == [] || (OpenRing(ring) != ring && OpenRing(OpenRing(ring)) == OpenRing(ring))
  {
    if OpenRing(ring) == ring && |ring| > 0 { assert CloseRing(ring)[..|ring|] == ring; }
  }

  function Next(i: nat, n: nat): (j: nat)
    requires i < n
    ensures j == if i + 1 == n then 0 else i + 1
  {
    (i + 1) % n
  }

  /** Edges i < j of a ring of n vertices that share a vertex by construction. */
  predicate Adjacent(n: nat, i: nat, j: nat) { j == i + 1 || (i == 0 && j == n - 1) }

  ghost predicate EdgesMeet(r: Ring, i: nat, j: nat)
    requires i < |r| && j < |r|
  {
    Meet(r[i], r[Next(i, |r|)], r[j], r[Next(j, |r|)])
  }

  ghost predicate Crossed(r: Ring, i: nat, j: nat) { i < j < |r| && !Adjacent(|r|, i, j) && EdgesMeet(r, i, j) }

  /** No two edges meet except neighbours at their common vertex. */
  ghost predicate Simple(r: Ring) { forall i: nat, j: nat :: !Crossed(r, i, j) }

  /** What the editor is told about a ring, open or closed. */
  ghost predicate Passes(ring: Ring) { |OpenRing(ring)| < 4 || Simple(OpenRing(ring)) }

  /** The first two edges that cross, in the order of the loops, or nothing. */
  method SelfIntersection(ring: Ring) returns (edges: Option<(nat, nat)>)
    ensures edges.None? <==> Passes(ring)
    ensures edges.Some? ==>
              var r, (i, j) := OpenRing(ring), edges.value;
              Crossed(r, i, j) && forall k: nat, l: nat :: (k < i || (k == i && l < j)) ==> !Crossed(r, k, l)
  {
    hide Meet, SegmentsCross;
    var r := OpenRing(ring);
    var n := |r|;
    if n < 4 { return None; }
    for i := 0 to n
      invariant forall k: nat, l: nat :: k < i ==> !Crossed(r, k, l)
    {
      for j := i + 1 to n
        invariant forall l: nat :: l < j ==> !Crossed(r, i, l)
      {
        if j == i + 1 || (i == 0 && j == n - 1) { continue; }
        CrossIffMeet(r[i], r[Next(i, n)], r[j], r[Next(j, n)]);
        if SegmentsCross(r[i], r[(i + 1) % n], r[j], r[(j + 1) % n]) {
          assert Crossed(r, i, j);
          return Some((i, j));
        }
      }
    }
    return None;
  }

  /* ---- where the ring starts, and which way round it was drawn ---- */

  function Rotate(r: Ring, k: nat): (q: Ring)
    requires k <= |r|
    ensures |q| == |r|
  {
    r[k..] + r[..k]
  }

  function Reverse(r: Ring): (q: Ring)
    ensures |q| == |r| && forall i :: 0 <= i < |r| ==> q[i] == r[|r| - 1 - i]
  {
    seq(|r|, i requires 0 <= i < |r| => r[|r| - 1 - i])
  }

  /** Two different edges, in either order, that are not neighbours and meet. */
  lemma CrossedEither(r: Ring, i: nat, j: nat)
    requires i < |r| && j < |r| && i != j && EdgesMeet(r, i, j)
    requires Next(i, |r|) != j && Next(j, |r|) != i
    ensures !Simple(r)
  {
    hide Meet;
    if i < j {
      assert Crossed(r, i, j);
    } else {
      MeetSwap(r[i], r[Next(i, |r|)], r[j], r[Next(j, |r|)]);
      assert Crossed(r, j, i);
    }
  }

  lemma RotateSimple(r: Ring, k: nat)
    requires k <= |r| && Simple(r)
    ensures Simple(Rotate(r, k))
  {
    hide Meet;
    var q, n := Rotate(r, k), |r|;
    forall i: nat, j: nat ensures !Crossed(q, i, j) {
      if Crossed(q, i, j) {
        CrossedEither(r, if i + k < n then i + k else i + k - n, if j + k < n then j + k else j + k - n);
      }
    }
  }

  lemma RotateBack(r: Ring, k: nat)
    requires k <= |r|
    ensures Rotate(Rotate(r, k), |r| - k) == r
  {
  }

  lemma ReverseSimple(r: Ring)
    requires Simple(r)
    ensures Simple(Reverse(r))
  {
    hide Meet;
    var q, n := Reverse(r), |r|;
    forall i: nat, j: nat ensures !Crossed(q, i, j) {
      if Crossed(q, i, j) {
        var a, b := if i < n - 1 then n - 2 - i else n - 1, if j < n - 1 then n - 2 - j else n - 1;
        MeetFlip(q[i], q[Next(i, n)], q[j], q[Next(j, n)]);
        assert EdgesMeet(r, a, b);
        CrossedEither(r, a, b);
      }
    }
  }

  /** Drawing the boundary the other way round never changes the answer. */
  lemma ReversalKeepsAnswer(ring: Ring)
    ensures Passes(Reverse(ring)) <==> Passes(ring)
  {
    hide Simple;
    var r, back := OpenRing(ring), OpenRing(Reverse(ring));
    if r == ring {
      assert Reverse(Reverse(r)) == r;
    } else {
      var front := Rotate(r, 1);
      assert front == ring[1..] && back == Reverse(front) && Reverse(back) == front;
      RotateBack(r, 1);
      if Simple(r) { RotateSimple(r, 1); }
      if Simple(front) { RotateSimple(front, |r| - 1); }
      if Simple(front) { ReverseSimple(front); }
      if Simple(back) { ReverseSimple(back); }
    }
    if Simple(r) { ReverseSimple(r); }
    if Simple(Reverse(r)) { ReverseSimple(Reverse(r)); }
  }

  /** A corner written twice is always reported, wherever it is in the open ring. */
  lemma DoubledCornerReported(r: Ring, i: nat)
    requires |r| >= 4 && i < |r| && r[i] == r[Next(i, |r|)]
    ensures !Simple(r)
  {
    var n := |r|;
    var j := Next(i, n);
    var h := if i == 0 then n - 1 else i - 1;
    AtEnds(r[h], r[i]);
    AtEnds(r[j], r[Next(j, n)]);
    assert Touch(r[h], r[i], r[j], r[Next(j, n)], 1.0, 0.0);
    CrossedEither(r, h, j);
  }

  /** The ring with the second copy of a corner written twice in a row taken out. */
  function Undoubled(r: Ring, k: nat): (q: Ring)
    requires 0 < k < |r|
  {
    if r[k - 1] == r[k] then r[..k - 1] + r[k..] else r
  }

  /** Where the seam falls between two different corners. */
  lemma PlainSeam(r: Ring, k: nat)
    requires 0 < k < |r| && OpenRing(r) == r && r[k - 1] != r[k]
    ensures Passes(Rotate(r, k)) <==> Passes(r)
  {
    hide Simple;
    assert OpenRing(Rotate(r, k)) == Rotate(r, k);
    RotationKeeps(r, k);
  }

  /** Where it falls on one corner written twice. */
  lemma DoubledSeam(r: Ring, k: nat)
    requires 0 < k < |r| && OpenRing(r) == r && r[k - 1] == r[k]
    ensures Passes(Rotate(r, k)) <==> Passes(Undoubled(r, k))
  {
    hide Simple;
    var q := Undoubled(r, k);
    assert OpenRing(q) == q;
    assert OpenRing(Rotate(r, k)) == r[k..] + r[..k - 1] == Rotate(q, k - 1);
    RotationKeeps(q, k - 1);
  }

  /** Starting the ring at another vertex gives the answer of the ring as drawn, unless the new
      seam falls on a corner written twice: that copy is then taken for the closing position,
      and the answer is the one without it, though the ring as drawn is always refused. */
  lemma RotationExact(r: Ring, k: nat)
    requires 0 < k < |r| && OpenRing(r) == r
    ensures Passes(Rotate(r, k)) <==> Passes(Undoubled(r, k))
    ensures r[k - 1] == r[k] && |r| >= 4 ==> !Passes(r)
  {
    hide Simple, Rotate;
    if r[k - 1] == r[k] {
      DoubledSeam(r, k);
      if |r| >= 4 { DoubledCornerReported(r, k - 1); }
    } else {
      PlainSeam(r, k);
    }
  }

  lemma RotationKeeps(r: Ring, k: nat)
    requires k < |r|
    ensures Simple(Rotate(r, k)) <==> Simple(r)
  {
    hide Simple;
    if k == 0 {
      assert Rotate(r, 0) == r;
    } else {
      RotateBack(r, k);
      if Simple(r) { RotateSimple(r, k); }
      if Simple(Rotate(r, k)) { RotateSimple(Rotate(r, k), |r| - k); }
    }
  }

  lemma UnitSidesApart(a: Position, b: Position, c: Position, d: Position)
    requires a == Position(0.0, 0.0) && b == Position(1.0, 0.0) && c == Position(1.0, 1.0) && d == Position(0.0, 1.0)
    ensures !SegmentsCross(d, a, b, c) && !SegmentsCross(a, b, c, d)
  {
  }

  lemma OppositeOfFour(i: nat, j: nat)
    requires i < j < 4 && !Adjacent(4, i, j)
    ensures (i == 0 && j == 2) || (i == 1 && j == 3)
  {
  }

  lemma OppositeEdges(a: Position, b: Position, c: Position, d: Position)
    ensures EdgesMeet([d, a, b, c], 0, 2) <==> Meet(d, a, b, c)
    ensures EdgesMeet([d, a, b, c], 1, 3) <==> Meet(a, b, c, d)
  {
    hide Meet;
  }

  lemma UnitSquareSimple(a: Position, b: Position, c: Position, d: Position)
    requires a == Position(0.0, 0.0) && b == Position(1.0, 0.0) && c == Position(1.0, 1.0) && d == Position(0.0, 1.0)
    ensures Simple([d, a, b, c])
  {
    UnitSidesApart(a, b, c, d);
    hide Meet, SegmentsCross, EdgesMeet, Adjacent;
    CrossIffMeet(d, a, b, c);
    CrossIffMeet(a, b, c, d);
    OppositeEdges(a, b, c, d);
    forall i: nat, j: nat ensures !Crossed([d, a, b, c], i, j) {
      if i < j < 4 && !Adjacent(4, i, j) { OppositeOfFour(i, j); }
    }
  }

  /** A square with one corner written twice: refused as drawn, accepted from that corner. */
  lemma RotationCanChangeAnswer(a: Position, b: Position, c: Position, d: Position)
    requires a == Position(0.0, 0.0) && b == Position(1.0, 0.0) && c == Position(1.0, 1.0) && d == Position(0.0, 1.0)
    ensures var r := [a, b, c, d, d]; OpenRing(r) == r && !Passes(r) && Passes(Rotate(r, 4))
  {
    hide Simple;
    var r := [a, b, c, d, d];
    DoubledCornerReported(r, 3);
    UnitSquareSimple(a, b, c, d);
    assert Rotate(r, 4) == [d, a, b, c, d];
    assert OpenRing(Rotate(r, 4)) == [d, a, b, c];
  }
}
