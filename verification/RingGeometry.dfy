/**
  The even-odd test behind the warning lookup: `_in_ring`, `_in_polygon`, `_in_geom`
  and the bounding box that is consulted first.

  Coordinates are exact reals, positions have two components (longitude `x`, latitude `y`).
 */
module RingGeometry {

  datatype Position = Position(x: real, y: real)

  type Ring = seq<Position>

  // ---------------------------------------------------------------- one edge

  /** The condition tested for the edge from the current vertex `a` to its predecessor `b`. */
  predicate Crosses(p: Position, a: Position, b: Position) {
    (a.y > p.y) != (b.y > p.y) && p.x < (b.x - a.x) * (p.y - a.y) / (b.y - a.y) + a.x
  }

  /** Twice the signed area of the triangle `a`, `b`, `p`: positive when `p` lies left of the directed line. */
  function Orient(a: Position, b: Position, p: Position): real {
    (b.x - a.x) * (p.y - a.y) - (b.y - a.y) * (p.x - a.x)
  }

  lemma Distribute(t: real, s: real, d: real)
    ensures (t - s) * d == t * d - s * d
  {
  }

  lemma ProductSign(x: real, y: real)
    ensures x > 0.0 && y > 0.0 ==> x * y > 0.0
    ensures x > 0.0 && y < 0.0 ==> x * y < 0.0
    ensures x < 0.0 && y > 0.0 ==> x * y < 0.0
    ensures x < 0.0 && y < 0.0 ==> x * y > 0.0
    ensures x == 0.0 || y == 0.0 ==> x * y == 0.0
  {
  }

  lemma QuotientCompare(k: real, n: real, d: real)
    requires d != 0.0
    ensures d > 0.0 ==> (k < n / d <==> k * d < n)
    ensures d < 0.0 ==> (k < n / d <==> k * d > n)
  {
    var q := n / d;
    assert q * d == n;
    MultiplyThrough(k, q, d);
  }

  lemma MultiplyThrough(k: real, q: real, d: real)
    ensures d > 0.0 ==> (k < q <==> k * d < q * d)
    ensures d < 0.0 ==> (k < q <==> k * d > q * d)
  {
    Distribute(k, q, d);
    ProductSign(k - q, d);
  }

  lemma Shifted(x: real, q: real, y: real)
    ensures x < q + y <==> x - y < q
  {
  }

  lemma Commute(d: real, k: real)
    ensures d * k == k * d
  {
  }

  lemma OrientIs(a: Position, b: Position, p: Position)
    ensures Orient(a, b, p) == (b.x - a.x) * (p.y - a.y) - (b.y - a.y) * (p.x - a.x)
  {
  }

  /** The division in the edge test is an orientation test: no quotient is needed to decide it. */
  lemma CrossesIsOrientation(p: Position, a: Position, b: Position)
    ensures Crosses(p, a, b) <==>
            (a.y <= p.y < b.y && Orient(a, b, p) > 0.0) || (b.y <= p.y < a.y && Orient(a, b, p) < 0.0)
  {
    if (a.y > p.y) != (b.y > p.y) {
      var k, n, d := p.x - a.x, (b.x - a.x) * (p.y - a.y), b.y - a.y;
      QuotientCompare(k, n, d);
      Shifted(p.x, n / d, a.x);
      Commute(d, k);
      OrientIs(a, b, p);
    }
  }

  lemma OrientAntisymmetric(a: Position, b: Position, p: Position)
    ensures Orient(a, b, p) == -Orient(b, a, p)
  {
  }

  lemma CrossesSymmetric(p: Position, a: Position, b: Position)
    ensures Crosses(p, a, b) == Crosses(p, b, a)
  {
    CrossesIsOrientation(p, a, b);
    CrossesIsOrientation(p, b, a);
    OrientAntisymmetric(a, b, p);
  }

  // ---------------------------------------------------------------- paths and rings

  /** Parity of the crossed edges of an open path. */
  ghost predicate PathParity(p: Position, path: seq<Position>) {
    |path| >= 2 && (Crosses(p, path[|path| - 1], path[|path| - 2]) != PathParity(p, path[..|path| - 1]))
  }

  /** Parity of the crossed edges of a ring, the edge from the last vertex back to the first included. */
  ghost predicate InRing(p: Position, ring: Ring) {
    ring != [] && PathParity(p, ring + [ring[0]])
  }

  lemma InRingClosingEdge(p: Position, ring: Ring)
    requires ring != []
    ensures InRing(p, ring) == (Crosses(p, ring[0], ring[|ring| - 1]) != PathParity(p, ring))
  {
    assert (ring + [ring[0]])[..|ring|] == ring;
  }

  /** `_in_ring`: one pass over the vertices, `j` trailing one step behind `i`. */
  method InRingLoop(p: Position, ring: Ring) returns (inside: bool)
    ensures inside == InRing(p, ring)
  {
    inside := false;
    var j := |ring| - 1;
    for i := 0 to |ring|
      invariant j == if i == 0 then |ring| - 1 else i - 1
      invariant inside == (i > 0 && (Crosses(p, ring[0], ring[|ring| - 1]) != PathParity(p, ring[..i])))
    {
      assert ring[..i + 1][..i] == ring[..i];
      if Crosses(p, ring[i], ring[j]) {
        inside := !inside;
      }
      j := i;
    }
    if ring != [] {
      assert ring[..|ring|] == ring;
      InRingClosingEdge(p, ring);
    }
  }

  /** Parity is additive along a path. */
  lemma {:induction false} PathParitySplit(p: Position, path: seq<Position>, k: nat)
    requires k < |path|
    ensures PathParity(p, path) == (PathParity(p, path[..k + 1]) != PathParity(p, path[k..]))
    decreases |path|
  {
    var n := |path|;
    if k == n - 1 {
      assert path[..k + 1] == path;
    } else {
      PathParitySplit(p, path[..n - 1], k);
      assert path[..n - 1][..k + 1] == path[..k + 1];
      assert path[..n - 1][k..] == path[k..][..n - 1 - k];
    }
  }

  lemma PathParityPair(p: Position, a: Position, b: Position)
    ensures PathParity(p, [a, b]) == Crosses(p, a, b)
  {
    CrossesSymmetric(p, a, b);
    assert [a, b][..1] == [a];
  }

  function Reversed(path: seq<Position>): (r: seq<Position>)
    ensures |r| == |path|
    ensures forall i :: 0 <= i < |r| ==> r[i] == path[|path| - 1 - i]
  {
    if path == [] then [] else Reversed(path[1..]) + [path[0]]
  }

  lemma {:induction false} PathParityReversed(p: Position, path: seq<Position>)
    ensures PathParity(p, Reversed(path)) == PathParity(p, path)
    decreases |path|
  {
    if |path| >= 2 {
      PathParityReversed(p, path[1..]);
      PathParitySplit(p, path, 1);
      assert path[..2] == [path[0], path[1]];
      PathParityPair(p, path[0], path[1]);
      assert Reversed(path)[..|path| - 1] == Reversed(path[1..]);
    }
  }

  // ---------------------------------------------------------------- the ring as a cyclic sequence

  /** A ring splits into two paths at any vertex. */
  lemma ChordOfClosed(p: Position, ring: Ring, k: nat)
    requires k < |ring|
    ensures InRing(p, ring) == (PathParity(p, ring[..k + 1]) != PathParity(p, ring[k..] + [ring[0]]))
  {
    var closed := ring + [ring[0]];
    PathParitySplit(p, closed, k);
    assert closed[..k + 1] == ring[..k + 1];
    assert closed[k..] == ring[k..] + [ring[0]];
  }

  lemma TurnedParts<T>(ring: seq<T>, k: nat)
    requires 0 < k < |ring|
    ensures var turned, n := ring[k..] + ring[..k], |ring|;
            turned[..n - k + 1] == ring[k..] + [ring[0]] && turned[n - k..] + [turned[0]] == ring[..k + 1]
  {
  }

  /** Starting the ring at another vertex does not change the answer. */
  lemma InRingRotated(p: Position, ring: Ring, k: nat)
    requires k <= |ring|
    ensures InRing(p, ring[k..] + ring[..k]) == InRing(p, ring)
  {
    if k == 0 || k == |ring| {
      assert ring[k..] + ring[..k] == ring;
    } else {
      var turned := ring[k..] + ring[..k];
      var n := |ring|;
      ChordOfClosed(p, ring, k);
      ChordOfClosed(p, turned, n - k);
      TurnedParts(ring, k);
    }
  }

  lemma {:induction false} ReversedSnoc(path: seq<Position>, x: Position)
    ensures Reversed(path + [x]) == [x] + Reversed(path)
  {
    if path == [] {
      assert path + [x] == [x];
    } else {
      ReversedSnoc(path[1..], x);
      assert (path + [x])[0] == path[0] && (path + [x])[1..] == path[1..] + [x];
      assert [x] + Reversed(path[1..]) + [path[0]] == [x] + (Reversed(path[1..]) + [path[0]]);
    }
  }

  lemma LastInFront<T>(back: seq<T>)
    requires back != []
    ensures var n := |back| - 1;
            back[n..] + back[..n] + [(back[n..] + back[..n])[0]] == [back[n]] + back
  {
  }

  /** Running around the ring the other way does not change the answer. */
  lemma InRingReversed(p: Position, ring: Ring)
    ensures InRing(p, Reversed(ring)) == InRing(p, ring)
  {
    if ring != [] {
      var back := Reversed(ring);
      var n := |ring|;
      var turned := back[n - 1..] + back[..n - 1];
      InRingRotated(p, back, n - 1);
      LastInFront(back);
      ReversedSnoc(ring, ring[0]);
      PathParityReversed(p, ring + [ring[0]]);
    }
  }

  /** The repeated closing position of section 3.1.6 of RFC 7946 is neutral. */
  lemma InRingClosingPosition(p: Position, ring: Ring)
    requires ring != []
    ensures InRing(p, ring + [ring[0]]) == InRing(p, ring)
  {
    var closed := ring + [ring[0]];
    assert (closed + [closed[0]])[..|closed|] == closed;
  }

  lemma ChordParts<T>(ring: seq<T>, i: nat, j: nat)
    requires i <= j < |ring|
    ensures var turned := ring[i..] + ring[..i];
            turned[..j - i + 1] == ring[i..j + 1] && turned[j - i..] + [turned[0]] == ring[j..] + ring[..i + 1]
  {
  }

  /** A chord cuts a ring in two, and the answers combine by exclusive or. */
  lemma InRingChord(p: Position, ring: Ring, i: nat, j: nat)
    requires i <= j < |ring|
    ensures InRing(p, ring) == (InRing(p, ring[i..j + 1]) != InRing(p, ring[j..] + ring[..i + 1]))
  {
    var turned := ring[i..] + ring[..i];
    var left, right := ring[i..j + 1], ring[j..] + ring[..i + 1];
    InRingRotated(p, ring, i);
    ChordOfClosed(p, turned, j - i);
    ChordParts(ring, i, j);
    InRingClosingEdge(p, left);
    InRingClosingEdge(p, right);
    CrossesSymmetric(p, ring[i], ring[j]);
  }

  // ---------------------------------------------------------------- extra vertices

  function Between(a: Position, b: Position, t: real): Position {
    Position(a.x + t * (b.x - a.x), a.y + t * (b.y - a.y))
  }

  lemma ScaleBounds(d: real, t: real)
    requires 0.0 <= t <= 1.0
    ensures d >= 0.0 ==> 0.0 <= t * d <= d
    ensures d <= 0.0 ==> d <= t * d <= 0.0
  {
    ProductSign(t, d);
    ProductSign(1.0 - t, d);
    Distribute(1.0, t, d);
  }

  lemma BetweenHeights(a: Position, b: Position, t: real)
    requires 0.0 <= t <= 1.0
    ensures a.y <= b.y ==> a.y <= Between(a, b, t).y <= b.y
    ensures b.y <= a.y ==> b.y <= Between(a, b, t).y <= a.y
  {
    var d := b.y - a.y;
    ScaleBounds(d, t);
    assert Between(a, b, t).y == a.y + t * d;
  }

  lemma BetweenOrient(a: Position, b: Position, t: real, p: Position)
    ensures Orient(a, Between(a, b, t), p) == t * Orient(a, b, p)
    ensures Orient(Between(a, b, t), b, p) == (1.0 - t) * Orient(a, b, p)
  {
    var v := Between(a, b, t);
    var dx, dy, ex, ey := b.x - a.x, b.y - a.y, p.x - a.x, p.y - a.y;
    assert Orient(a, v, p) == (t * dx) * ey - (t * dy) * ex;
    assert (t * dx) * ey == t * (dx * ey) && (t * dy) * ex == t * (dy * ex);
    var s := 1.0 - t;
    assert b.x - v.x == s * dx && b.y - v.y == s * dy;
    assert p.x - v.x == ex - t * dx && p.y - v.y == ey - t * dy;
    assert Orient(v, b, p) == (s * dx) * (ey - t * dy) - (s * dy) * (ex - t * dx);
    assert (s * dx) * (ey - t * dy) == s * (dx * ey) - s * t * (dx * dy);
    assert (s * dy) * (ex - t * dx) == s * (dy * ex) - s * t * (dx * dy);
  }

  /** A vertex on an edge splits the edge test by exclusive or. */
  lemma CrossesSplit(p: Position, a: Position, b: Position, t: real)
    requires 0.0 <= t <= 1.0
    ensures Crosses(p, a, b) == (Crosses(p, a, Between(a, b, t)) != Crosses(p, Between(a, b, t), b))
  {
    var v := Between(a, b, t);
    BetweenHeights(a, b, t);
    BetweenOrient(a, b, t, p);
    CrossesIsOrientation(p, a, b);
    CrossesIsOrientation(p, a, v);
    CrossesIsOrientation(p, v, b);
    ProductSign(t, Orient(a, b, p));
    ProductSign(1.0 - t, Orient(a, b, p));
    if t == 0.0 {
      assert v == a;
    } else if t == 1.0 {
      assert v == b;
    }
  }

  /** Inserting a vertex on any edge, the closing edge included, does not change the answer. */
  lemma InRingInsertOnEdge(p: Position, ring: Ring, k: nat, t: real)
    requires k < |ring| && 0.0 <= t <= 1.0
    ensures InRing(p, ring[..k + 1] + [Between(ring[k], ring[(k + 1) % |ring|], t)] + ring[k + 1..]) == InRing(p, ring)
  {
    var n := |ring|;
    var closed := ring + [ring[0]];
    var a, b := closed[k], closed[k + 1];
    assert b == ring[(k + 1) % n];
    var v := Between(a, b, t);
    var more := ring[..k + 1] + [v] + ring[k + 1..];
    assert more + [more[0]] == closed[..k + 1] + [v] + closed[k + 1..];
    InsertInPath(p, closed, k, t);
  }

  lemma InsertInPath(p: Position, path: seq<Position>, k: nat, t: real)
    requires k + 1 < |path| && 0.0 <= t <= 1.0
    ensures PathParity(p, path[..k + 1] + [Between(path[k], path[k + 1], t)] + path[k + 1..]) == PathParity(p, path)
  {
    var a, b := path[k], path[k + 1];
    var v := Between(a, b, t);
    var more := path[..k + 1] + [v] + path[k + 1..];
    PathParitySplit(p, path, k);
    PathParitySplit(p, more, k);
    assert more[..k + 1] == path[..k + 1];
    EdgeFirst(p, path[k..]);
    EdgeFirst(p, more[k..]);
    EdgeFirst(p, more[k + 1..]);
    assert more[k..][1..] == more[k + 1..] && more[k + 1..][1..] == path[k + 1..] == path[k..][1..];
    CrossesSplit(p, a, b, t);
  }

  lemma EdgeFirst(p: Position, path: seq<Position>)
    requires |path| >= 2
    ensures PathParity(p, path) == (Crosses(p, path[0], path[1]) != PathParity(p, path[1..]))
  {
    PathParitySplit(p, path, 1);
    assert path[..2] == [path[0], path[1]];
    PathParityPair(p, path[0], path[1]);
  }

  // ---------------------------------------------------------------- what the test means

  /** Rings of fewer than three vertices contain nothing. */
  lemma InRingDegenerate(p: Position, ring: Ring)
    requires |ring| < 3
    ensures !InRing(p, ring)
  {
    if |ring| == 1 {
      PathParityPair(p, ring[0], ring[0]);
      assert ring + [ring[0]] == [ring[0], ring[0]];
    } else if |ring| == 2 {
      var closed := ring + [ring[0]];
      PathParitySplit(p, closed, 1);
      assert closed[..2] == [ring[0], ring[1]] && closed[1..] == [ring[1], ring[0]];
      PathParityPair(p, ring[0], ring[1]);
      PathParityPair(p, ring[1], ring[0]);
      CrossesSymmetric(p, ring[0], ring[1]);
    }
  }

  lemma InRingTriangle(p: Position, a: Position, b: Position, c: Position)
    ensures InRing(p, [a, b, c]) == ((Crosses(p, a, b) != Crosses(p, b, c)) != Crosses(p, c, a))
  {
    var closed := [a, b, c, a];
    assert [a, b, c] + [a] == closed;
    PathParitySplit(p, closed, 1);
    PathParitySplit(p, closed[1..], 1);
    assert closed[..2] == [a, b] && closed[1..][..2] == [b, c] && closed[1..][1..] == [c, a];
    PathParityPair(p, a, b);
    PathParityPair(p, b, c);
    PathParityPair(p, c, a);
  }

  /** Twice the signed area of the triangle. */
  function Area(a: Position, b: Position, c: Position): real {
    Orient(a, b, c)
  }

  /** `p` lies strictly on the inner side of all three edges. */
  predicate StrictlyInside(p: Position, a: Position, b: Position, c: Position) {
    || (Orient(a, b, p) > 0.0 && Orient(b, c, p) > 0.0 && Orient(c, a, p) > 0.0)
    || (Orient(a, b, p) < 0.0 && Orient(b, c, p) < 0.0 && Orient(c, a, p) < 0.0)
  }

  /** Some edge has `p` strictly on its outer side, or there is no inside at all. */
  predicate StrictlyOutside(p: Position, a: Position, b: Position, c: Position) {
    || Area(a, b, c) == 0.0
    || (Area(a, b, c) > 0.0 && (Orient(a, b, p) < 0.0 || Orient(b, c, p) < 0.0 || Orient(c, a, p) < 0.0))
    || (Area(a, b, c) < 0.0 && (Orient(a, b, p) > 0.0 || Orient(b, c, p) > 0.0 || Orient(c, a, p) > 0.0))
  }

  /** The two linear relations between the three orientations (barycentric coordinates, up to scale). */
  lemma OrientRelations(p: Position, a: Position, b: Position, c: Position)
    ensures Orient(a, b, p) + Orient(b, c, p) + Orient(c, a, p) == Area(a, b, c)
    ensures Orient(b, c, p) * (a.y - p.y) + Orient(c, a, p) * (b.y - p.y) + Orient(a, b, p) * (c.y - p.y) == 0.0
  {
    OrientFromPoint(a, b, p);
    OrientFromPoint(b, c, p);
    OrientFromPoint(c, a, p);
    OrientShift(a, b, c, p);
    BarycentricZero(a.x - p.x, a.y - p.y, b.x - p.x, b.y - p.y, c.x - p.x, c.y - p.y);
  }

  lemma BarycentricZero(ux: real, uy: real, vx: real, vy: real, wx: real, wy: real)
    ensures (vx * wy - vy * wx) * uy + (wx * uy - wy * ux) * vy + (ux * vy - uy * vx) * wy == 0.0
  {
    assert (vx * wy - vy * wx) * uy == vx * wy * uy - vy * wx * uy;
    assert (wx * uy - wy * ux) * vy == wx * uy * vy - wy * ux * vy;
    assert (ux * vy - uy * vx) * wy == ux * vy * wy - uy * vx * wy;
  }

  lemma OrientShift(a: Position, b: Position, c: Position, p: Position)
    ensures Orient(a, b, p) + Orient(b, c, p) + Orient(c, a, p) == Orient(a, b, c)
  {
  }

  lemma OrientFromPoint(a: Position, b: Position, p: Position)
    ensures Orient(a, b, p) == (a.x - p.x) * (b.y - p.y) - (a.y - p.y) * (b.x - p.x)
  {
  }

  lemma FlatTriangle(ha: real, hb: real, hc: real, obc: real, oca: real)
    requires obc * ha + oca * hb + (-obc - oca) * hc == 0.0
    ensures obc * (ha - hc) + oca * (hb - hc) == 0.0
  {
  }

  /** One vertex above the horizontal through `p`, two not above: signs decide. */
  lemma ApexAbove(ha: real, hb: real, hc: real, oab: real, obc: real, oca: real)
    requires hc > 0.0 && ha <= 0.0 && hb <= 0.0
    requires obc * ha + oca * hb + oab * hc == 0.0
    ensures obc >= 0.0 && oca >= 0.0 ==> oab >= 0.0
    ensures obc <= 0.0 && oca <= 0.0 ==> oab <= 0.0
    ensures oab + obc + oca == 0.0 ==> (obc > 0.0 <==> oca < 0.0)
  {
    ProductSign(obc, ha);
    ProductSign(oca, hb);
    ProductSign(oab, hc);
    if oab + obc + oca == 0.0 {
      FlatTriangle(ha, hb, hc, obc, oca);
      ProductSign(obc, ha - hc);
      ProductSign(oca, hb - hc);
    }
  }

  /** The answer for a triangle whose vertex `c` alone lies above `p`. */
  lemma TriangleApexAbove(p: Position, a: Position, b: Position, c: Position)
    requires c.y > p.y && a.y <= p.y && b.y <= p.y
    ensures StrictlyInside(p, a, b, c) ==> InRing(p, [a, b, c])
    ensures StrictlyOutside(p, a, b, c) ==> !InRing(p, [a, b, c])
  {
    InRingTriangle(p, a, b, c);
    CrossesIsOrientation(p, a, b);
    CrossesIsOrientation(p, b, c);
    CrossesIsOrientation(p, c, a);
    OrientRelations(p, a, b, c);
    ApexAbove(a.y - p.y, b.y - p.y, c.y - p.y, Orient(a, b, p), Orient(b, c, p), Orient(c, a, p));
  }

  /** The answer for a triangle whose vertex `c` alone does not lie above `p`. */
  lemma TriangleApexBelow(p: Position, a: Position, b: Position, c: Position)
    requires c.y <= p.y && a.y > p.y && b.y > p.y
    ensures StrictlyInside(p, a, b, c) ==> InRing(p, [a, b, c])
    ensures StrictlyOutside(p, a, b, c) ==> !InRing(p, [a, b, c])
  {
    InRingTriangle(p, a, b, c);
    CrossesIsOrientation(p, a, b);
    CrossesIsOrientation(p, b, c);
    CrossesIsOrientation(p, c, a);
    OrientRelations(p, a, b, c);
    ApexBelow(a.y - p.y, b.y - p.y, c.y - p.y, Orient(a, b, p), Orient(b, c, p), Orient(c, a, p));
  }

  /** One vertex not above the horizontal through `p`, two above: signs decide. */
  lemma ApexBelow(ha: real, hb: real, hc: real, oab: real, obc: real, oca: real)
    requires hc <= 0.0 && ha > 0.0 && hb > 0.0
    requires obc * ha + oca * hb + oab * hc == 0.0
    ensures obc >= 0.0 && oca > 0.0 ==> oab > 0.0
    ensures obc < 0.0 && oca <= 0.0 ==> oab < 0.0
    ensures oab + obc + oca == 0.0 ==> (obc < 0.0 <==> oca > 0.0)
  {
    ProductSign(obc, ha);
    ProductSign(oca, hb);
    ProductSign(oab, hc);
    if oab + obc + oca == 0.0 {
      FlatTriangle(ha, hb, hc, obc, oca);
      ProductSign(obc, ha - hc);
      ProductSign(oca, hb - hc);
    }
  }

  /** No vertex or every vertex above `p`: no edge is crossed and `p` is not strictly inside. */
  lemma MissedNotInside(p: Position, a: Position, b: Position, c: Position)
    requires (a.y > p.y && b.y > p.y && c.y > p.y) || (a.y <= p.y && b.y <= p.y && c.y <= p.y)
    ensures !StrictlyInside(p, a, b, c)
  {
    OrientRelations(p, a, b, c);
    if StrictlyInside(p, a, b, c) {
      // All three products have one sign, so all heights vanish, and with them the orientations.
      MissedSigns(a.y - p.y, b.y - p.y, c.y - p.y, Orient(a, b, p), Orient(b, c, p), Orient(c, a, p));
      FlatOrient(a, b, p);
    }
  }

  lemma TriangleMissed(p: Position, a: Position, b: Position, c: Position)
    requires (a.y > p.y && b.y > p.y && c.y > p.y) || (a.y <= p.y && b.y <= p.y && c.y <= p.y)
    ensures !StrictlyInside(p, a, b, c) && !InRing(p, [a, b, c])
  {
    MissedNotInside(p, a, b, c);
    InRingTriangle(p, a, b, c);
  }

  lemma FlatOrient(a: Position, b: Position, p: Position)
    requires a.y == p.y == b.y
    ensures Orient(a, b, p) == 0.0
  {
  }

  lemma MissedSigns(ha: real, hb: real, hc: real, oab: real, obc: real, oca: real)
    requires (ha > 0.0 && hb > 0.0 && hc > 0.0) || (ha <= 0.0 && hb <= 0.0 && hc <= 0.0)
    requires obc * ha + oca * hb + oab * hc == 0.0
    requires (oab > 0.0 && obc > 0.0 && oca > 0.0) || (oab < 0.0 && obc < 0.0 && oca < 0.0)
    ensures ha == 0.0 && hb == 0.0 && hc == 0.0
  {
    ProductSign(obc, ha);
    ProductSign(oca, hb);
    ProductSign(oab, hc);
  }

  lemma TriangleTurned(p: Position, a: Position, b: Position, c: Position)
    ensures InRing(p, [b, c, a]) == InRing(p, [a, b, c])
    ensures StrictlyInside(p, b, c, a) == StrictlyInside(p, a, b, c)
    ensures StrictlyOutside(p, b, c, a) == StrictlyOutside(p, a, b, c)
  {
    InRingTriangle(p, a, b, c);
    InRingTriangle(p, b, c, a);
    OrientShift(a, b, c, p);
    OrientShift(b, c, a, p);
  }

  /**
    For every triangle, in either orientation or flattened to a segment, the even-odd test is
    membership: true strictly inside, false strictly outside.
   */
  lemma TriangleMembership(p: Position, a: Position, b: Position, c: Position)
    ensures StrictlyInside(p, a, b, c) ==> InRing(p, [a, b, c])
    ensures StrictlyOutside(p, a, b, c) ==> !InRing(p, [a, b, c])
  {
    TriangleTurned(p, a, b, c);
    TriangleTurned(p, b, c, a);
    var (ua, ub, uc) := (a.y > p.y, b.y > p.y, c.y > p.y);
    if ua == ub == uc {
      TriangleMissed(p, a, b, c);
    } else if ua == ub {
      if uc { TriangleApexAbove(p, a, b, c); } else { TriangleApexBelow(p, a, b, c); }
    } else if ub == uc {
      if ua { TriangleApexAbove(p, b, c, a); } else { TriangleApexBelow(p, b, c, a); }
    } else {
      if ub { TriangleApexAbove(p, c, a, b); } else { TriangleApexBelow(p, c, a, b); }
    }
  }

  /** Exclusive or over the triangles that fan out from the first vertex to the first `m` vertices. */
  ghost predicate FanParity(p: Position, ring: Ring, m: nat)
    requires m <= |ring|
  {
    m >= 3 && (FanParity(p, ring, m - 1) != InRing(p, [ring[0], ring[m - 2], ring[m - 1]]))
  }

  lemma {:induction false} FanPrefix(p: Position, ring: Ring, m: nat)
    requires m <= |ring|
    ensures InRing(p, ring[..m]) == FanParity(p, ring, m)
  {
    if m < 3 {
      InRingDegenerate(p, ring[..m]);
    } else {
      var part := ring[..m];
      var a, b, c := ring[0], ring[m - 2], ring[m - 1];
      FanPrefix(p, ring, m - 1);
      InRingChord(p, part, 0, m - 2);
      assert part[0..m - 1] == ring[..m - 1];
      assert part[m - 2..] + part[..1] == [b, c, a];
      TriangleTurned(p, a, b, c);
    }
  }

  /** Every ring is the exclusive or of its fan triangles, however it intersects itself. */
  lemma InRingIsFan(p: Position, ring: Ring)
    ensures InRing(p, ring) == FanParity(p, ring, |ring|)
  {
    FanPrefix(p, ring, |ring|);
    assert ring[..|ring|] == ring;
  }

  // ---------------------------------------------------------------- the bounding box

  datatype Box = Box(x1: real, y1: real, x2: real, y2: real)

  predicate OutsideBox(p: Position, box: Box) {
    p.x < box.x1 || p.x > box.x2 || p.y < box.y1 || p.y > box.y2
  }

  predicate Covers(box: Box, q: Position) {
    box.x1 <= q.x <= box.x2 && box.y1 <= q.y <= box.y2
  }

  lemma CrossingLiesBetween(p: Position, a: Position, b: Position)
    ensures p.x >= a.x && p.x >= b.x ==> !Crosses(p, a, b)
    ensures p.x < a.x && p.x < b.x ==> (Crosses(p, a, b) <==> (a.y > p.y) != (b.y > p.y))
  {
    CrossesIsOrientation(p, a, b);
    CrossesIsOrientation(p, b, a);
    CrossesSymmetric(p, a, b);
    if a.y <= p.y < b.y {
      UpwardEdge(p, a, b);
    } else if b.y <= p.y < a.y {
      UpwardEdge(p, b, a);
    }
  }

  lemma UpwardEdge(p: Position, a: Position, b: Position)
    requires a.y <= p.y < b.y
    ensures p.x >= a.x && p.x >= b.x ==> Orient(a, b, p) <= 0.0
    ensures p.x < a.x && p.x < b.x ==> Orient(a, b, p) > 0.0
  {
    var dx, dy, e, h := b.x - a.x, b.y - a.y, p.x - a.x, p.y - a.y;
    assert Orient(a, b, p) == dx * h - dy * e;
    Distribute(dx, e, h);
    Distribute(dy, h, e);
    ProductSign(dx - e, h);
    ProductSign(dy - h, e);
  }

  /** To the left of every vertex only the side changes count, and a closed path has an even number of them. */
  lemma {:induction false} ParityLeft(p: Position, path: seq<Position>)
    requires path != [] && forall q | q in path :: p.x < q.x
    ensures PathParity(p, path) == ((path[0].y > p.y) != (path[|path| - 1].y > p.y))
    decreases |path|
  {
    var n := |path|;
    if n >= 2 {
      ParityLeft(p, path[..n - 1]);
      CrossingLiesBetween(p, path[n - 1], path[n - 2]);
    }
  }

  lemma {:induction false} ParityZero(p: Position, path: seq<Position>)
    requires || (forall q | q in path :: p.x >= q.x)
             || (forall q | q in path :: q.y > p.y)
             || (forall q | q in path :: q.y <= p.y)
    ensures !PathParity(p, path)
    decreases |path|
  {
    var n := |path|;
    if n >= 2 {
      ParityZero(p, path[..n - 1]);
      CrossingLiesBetween(p, path[n - 1], path[n - 2]);
    }
  }

  lemma InRingOutsideBox(p: Position, ring: Ring, box: Box)
    requires forall q | q in ring :: Covers(box, q)
    requires OutsideBox(p, box)
    ensures !InRing(p, ring)
  {
    if ring != [] {
      var closed := ring + [ring[0]];
      assert forall q | q in closed :: q in ring;
      if p.x < box.x1 {
        ParityLeft(p, closed);
      } else {
        ParityZero(p, closed);
      }
    }
  }

  // ---------------------------------------------------------------- GeoJSON coordinates and `_bbox`

  /** Nested coordinate arrays as JSON delivers them. */
  datatype Coordinates = Number(value: real) | Array(items: seq<Coordinates>)

  predicate IsPosition(c: Coordinates) {
    c.Array? && |c.items| == 2 && c.items[0].Number?
  }

  /** Wherever a pair starts with a number its second entry is a number too: otherwise the conversion raises. */
  predicate Numeric(c: Coordinates) {
    match c
    case Number(_) => true
    case Array(items) =>
      if IsPosition(c) then items[1].Number? else forall i | 0 <= i < |items| :: Numeric(items[i])
  }

  /** The positions below `c`, in document order. */
  function Collected(c: Coordinates): seq<Position>
    requires Numeric(c)
    decreases c, 1, 0
  {
    match c
    case Number(_) => []
    case Array(items) =>
      if IsPosition(c) then [Position(items[0].value, items[1].value)] else CollectedAll(c, items)
  }

  function CollectedAll(ghost parent: Coordinates, items: seq<Coordinates>): seq<Position>
    requires forall i | 0 <= i < |items| :: items[i] < parent && Numeric(items[i])
    decreases parent, 0, |items|
  {
    if items == [] then [] else Collected(items[0]) + CollectedAll(parent, items[1..])
  }

  /** `sammeln`: appends every position below `c`; the two component lists are kept as one list of positions. */
  method Collect(c: Coordinates, ps0: seq<Position>) returns (ps: seq<Position>)
    requires Numeric(c)
    ensures ps == ps0 + Collected(c)
  {
    ps := ps0;
    if c.Number? {
      return;
    }
    if IsPosition(c) {
      return ps + [Position(c.items[0].value, c.items[1].value)];
    }
    for i := 0 to |c.items|
      invariant ps + CollectedAll(c, c.items[i..]) == ps0 + Collected(c)
    {
      assert c.items[i..][1..] == c.items[i + 1..];
      ps := Collect(c.items[i], ps);
    }
  }

  function Xs(ps: seq<Position>): (r: seq<real>) {
    seq(|ps|, i requires 0 <= i < |ps| => ps[i].x)
  }

  function Ys(ps: seq<Position>): (r: seq<real>) {
    seq(|ps|, i requires 0 <= i < |ps| => ps[i].y)
  }

  method MinMax(values: seq<real>) returns (lo: real, hi: real)
    requires values != []
    ensures lo in values && hi in values
    ensures forall v | v in values :: lo <= v <= hi
  {
    lo, hi := values[0], values[0];
    for i := 1 to |values|
      invariant lo in values && hi in values
      invariant forall k | 0 <= k < i :: lo <= values[k] <= hi
    {
      if values[i] < lo { lo := values[i]; }
      if values[i] > hi { hi := values[i]; }
    }
  }

  /** The smallest box around the positions, or the all-zero box when there are none. */
  ghost predicate IsBoundingBox(ps: seq<Position>, box: Box) {
    if ps == [] then box == Box(0.0, 0.0, 0.0, 0.0)
    else
      && (forall q | q in ps :: Covers(box, q))
      && (exists q | q in ps :: q.x == box.x1)
      && (exists q | q in ps :: q.y == box.y1)
      && (exists q | q in ps :: q.x == box.x2)
      && (exists q | q in ps :: q.y == box.y2)
  }

  /** `_bbox` */
  method BoundingBox(coordinates: Coordinates) returns (box: Box)
    requires Numeric(coordinates)
    ensures IsBoundingBox(Collected(coordinates), box)
  {
    var ps := Collect(coordinates, []);
    if ps == [] {
      return Box(0.0, 0.0, 0.0, 0.0);
    }
    var x1, x2 := MinMax(Xs(ps));
    var y1, y2 := MinMax(Ys(ps));
    box := Box(x1, y1, x2, y2);
    ExtremesBound(ps, box);
  }

  lemma ExtremesBound(ps: seq<Position>, box: Box)
    requires ps != []
    requires box.x1 in Xs(ps) && box.x2 in Xs(ps) && box.y1 in Ys(ps) && box.y2 in Ys(ps)
    requires forall v | v in Xs(ps) :: box.x1 <= v <= box.x2
    requires forall v | v in Ys(ps) :: box.y1 <= v <= box.y2
    ensures IsBoundingBox(ps, box)
  {
    var i1 :| 0 <= i1 < |ps| && Xs(ps)[i1] == box.x1;
    var i2 :| 0 <= i2 < |ps| && Xs(ps)[i2] == box.x2;
    var j1 :| 0 <= j1 < |ps| && Ys(ps)[j1] == box.y1;
    var j2 :| 0 <= j2 < |ps| && Ys(ps)[j2] == box.y2;
    assert ps[i1] in ps && ps[i2] in ps && ps[j1] in ps && ps[j2] in ps;
    forall q | q in ps ensures Covers(box, q) {
      var i :| 0 <= i < |ps| && ps[i] == q;
      assert Xs(ps)[i] in Xs(ps) && Ys(ps)[i] in Ys(ps);
    }
  }

  // ---------------------------------------------------------------- geometries

  /** The two supported geometry types; every other type is `Other`. */
  datatype Geometry = Polygon(rings: seq<Ring>) | MultiPolygon(polygons: seq<seq<Ring>>) | Other(any: Coordinates)

  /** `_in_polygon`: in the outer ring and in none of the holes. */
  ghost predicate InPolygon(p: Position, rings: seq<Ring>) {
    rings != [] && InRing(p, rings[0]) && forall i | 1 <= i < |rings| :: !InRing(p, rings[i])
  }

  /** `_in_geom` */
  ghost predicate InGeometry(p: Position, g: Geometry) {
    match g
    case Polygon(rings) => InPolygon(p, rings)
    case MultiPolygon(polygons) => exists i | 0 <= i < |polygons| :: InPolygon(p, polygons[i])
    case Other(_) => false
  }

  /** One ring alone is the polygon, and every further ring takes its own inside away. */
  lemma HoleTakesAway(p: Position, outer: Ring, rings: seq<Ring>, hole: Ring)
    ensures InPolygon(p, [outer]) <==> InRing(p, outer)
    ensures InPolygon(p, [outer] + rings + [hole]) <==> InPolygon(p, [outer] + rings) && !InRing(p, hole)
  {
    var before, after := [outer] + rings, [outer] + rings + [hole];
    assert forall i | 0 <= i < |before| :: after[i] == before[i];
    assert after[|before|] == hole;
  }

  /** A point inside a triangle is out of the polygon inside a triangular hole, and in it outside the hole. */
  lemma TriangleWithHole(p: Position, a: Position, b: Position, c: Position, d: Position, e: Position, f: Position)
    requires StrictlyInside(p, a, b, c)
    ensures StrictlyInside(p, d, e, f) ==> !InPolygon(p, [[a, b, c], [d, e, f]])
    ensures StrictlyOutside(p, d, e, f) ==> InPolygon(p, [[a, b, c], [d, e, f]])
  {
    HoleTakesAway(p, [a, b, c], [], [d, e, f]);
    assert [[a, b, c]] + [] + [[d, e, f]] == [[a, b, c], [d, e, f]] && [[a, b, c]] + [] == [[a, b, c]];
    TriangleMembership(p, a, b, c);
    TriangleMembership(p, d, e, f);
  }

  /** Several polygons together hold what any of them holds. */
  lemma OnePolygonMore(p: Position, polygons: seq<seq<Ring>>, rings: seq<Ring>)
    ensures !InGeometry(p, MultiPolygon([]))
    ensures InGeometry(p, MultiPolygon(polygons + [rings])) <==>
            InGeometry(p, MultiPolygon(polygons)) || InGeometry(p, Polygon(rings))
  {
    var all := polygons + [rings];
    assert all[|polygons|] == rings && forall i | 0 <= i < |polygons| :: all[i] == polygons[i];
  }

  method InPolygonTest(p: Position, rings: seq<Ring>) returns (inside: bool)
    ensures inside == InPolygon(p, rings)
  {
    if rings == [] {
      return false;
    }
    inside := InRingLoop(p, rings[0]);
    if !inside {
      return;
    }
    for i := 1 to |rings|
      invariant forall k | 1 <= k < i :: !InRing(p, rings[k])
    {
      var hole := InRingLoop(p, rings[i]);
      if hole {
        return false;
      }
    }
  }

  method InGeometryTest(p: Position, g: Geometry) returns (inside: bool)
    ensures inside == InGeometry(p, g)
  {
    match g
    case Polygon(rings) => inside := InPolygonTest(p, rings);
    case MultiPolygon(polygons) =>
      for i := 0 to |polygons|
        invariant forall k | 0 <= k < i :: !InPolygon(p, polygons[k])
      {
        inside := InPolygonTest(p, polygons[i]);
        if inside {
          return true;
        }
      }
      inside := false;
    case Other(_) => inside := false;
  }

  /** The coordinate arrays of a geometry. */
  function RingArray(ring: Ring): Coordinates {
    Array(seq(|ring|, i requires 0 <= i < |ring| => Array([Number(ring[i].x), Number(ring[i].y)])))
  }

  function PolygonArray(rings: seq<Ring>): Coordinates {
    Array(seq(|rings|, i requires 0 <= i < |rings| => RingArray(rings[i])))
  }

  function GeometryArray(g: Geometry): Coordinates {
    match g
    case Polygon(rings) => PolygonArray(rings)
    case MultiPolygon(polygons) => Array(seq(|polygons|, i requires 0 <= i < |polygons| => PolygonArray(polygons[i])))
    case Other(any) => any
  }

  lemma {:induction false} CollectedAllContains(parent: Coordinates, items: seq<Coordinates>, k: nat, q: Position)
    requires k < |items| && forall i | 0 <= i < |items| :: items[i] < parent && Numeric(items[i])
    requires q in Collected(items[k])
    ensures q in CollectedAll(parent, items)
    decreases |items|
  {
    if k > 0 {
      CollectedAllContains(parent, items[1..], k - 1, q);
    }
  }

  lemma RingArrayCollected(ring: Ring)
    ensures Numeric(RingArray(ring))
    ensures forall q | q in ring :: q in Collected(RingArray(ring))
  {
    var c := RingArray(ring);
    forall q | q in ring ensures q in Collected(c) {
      var k :| 0 <= k < |ring| && ring[k] == q;
      assert Collected(c.items[k]) == [q];
      CollectedAllContains(c, c.items, k, q);
    }
  }

  lemma PolygonArrayCollected(rings: seq<Ring>)
    ensures Numeric(PolygonArray(rings))
    ensures rings != [] ==> forall q | q in rings[0] :: q in Collected(PolygonArray(rings))
  {
    var c := PolygonArray(rings);
    forall i | 0 <= i < |rings| ensures Numeric(c.items[i]) {
      RingArrayCollected(rings[i]);
    }
    if rings != [] {
      forall q | q in rings[0] ensures q in Collected(c) {
        RingArrayCollected(rings[0]);
        CollectedAllContains(c, c.items, 0, q);
      }
    }
  }

  lemma MultiPolygonNumeric(polygons: seq<seq<Ring>>)
    ensures Numeric(GeometryArray(MultiPolygon(polygons)))
  {
    forall m | 0 <= m < |polygons| ensures Numeric(GeometryArray(MultiPolygon(polygons)).items[m]) {
      PolygonArrayCollected(polygons[m]);
    }
  }

  lemma MultiPolygonCollected(polygons: seq<seq<Ring>>, m: nat)
    requires m < |polygons| && polygons[m] != []
    ensures Numeric(GeometryArray(MultiPolygon(polygons)))
    ensures forall q | q in polygons[m][0] :: q in Collected(GeometryArray(MultiPolygon(polygons)))
  {
    MultiPolygonNumeric(polygons);
    var c := GeometryArray(MultiPolygon(polygons));
    forall q | q in polygons[m][0] ensures q in Collected(c) {
      PolygonArrayCollected(polygons[m]);
      CollectedAllContains(c, c.items, m, q);
    }
  }

  lemma OutsideBoxOfCollected(p: Position, ring: Ring, ps: seq<Position>, box: Box)
    requires forall q | q in ring :: q in ps
    requires IsBoundingBox(ps, box) && OutsideBox(p, box)
    ensures !InRing(p, ring)
  {
    if ring != [] {
      assert ring[0] in ps;
      InRingOutsideBox(p, ring, box);
    }
  }

  /**
    The box computed from the raw arrays never changes the answer: a point outside it is in no
    polygon of the geometry, holes, empty rings and empty geometries included.
   */
  lemma BoxFilterIsSound(p: Position, g: Geometry, box: Box)
    requires Numeric(GeometryArray(g))
    requires IsBoundingBox(Collected(GeometryArray(g)), box) && OutsideBox(p, box)
    ensures !InGeometry(p, g)
  {
    var ps := Collected(GeometryArray(g));
    match g
    case Other(_) =>
    case Polygon(rings) =>
      if rings != [] {
        PolygonArrayCollected(rings);
        OutsideBoxOfCollected(p, rings[0], ps, box);
      }
    case MultiPolygon(polygons) =>
      forall m | 0 <= m < |polygons| ensures !InPolygon(p, polygons[m]) {
        if polygons[m] != [] {
          MultiPolygonCollected(polygons, m);
          OutsideBoxOfCollected(p, polygons[m][0], ps, box);
        }
      }
  }

  // ---------------------------------------------------------------- the warning lookup

  datatype Warning = Warning(title: string, geometry: Geometry, box: Box)

  /** A loaded warning carries the box computed from its own coordinates. */
  ghost predicate Loaded(w: Warning) {
    && (w.geometry.Polygon? || w.geometry.MultiPolygon?)
    && Numeric(GeometryArray(w.geometry))
    && IsBoundingBox(Collected(GeometryArray(w.geometry)), w.box)
  }

  method LoadWarning(title: string, g: Geometry) returns (w: Warning)
    requires g.Polygon? || g.MultiPolygon?
    ensures Loaded(w) && w.geometry == g && w.title == title
  {
    if g.Polygon? {
      PolygonArrayCollected(g.rings);
    } else {
      MultiPolygonNumeric(g.polygons);
    }
    var box := BoundingBox(GeometryArray(g));
    w := Warning(title, g, box);
  }

  /** The warnings that contain the point, in list order. No box is involved. */
  ghost function Hits(p: Position, ws: seq<Warning>): seq<Warning> {
    if ws == [] then [] else (if InGeometry(p, ws[0].geometry) then [ws[0]] else []) + Hits(p, ws[1..])
  }

  /** The hits warning by warning: those in front come first, and the box plays no part. */
  lemma {:induction false} HitsParts(p: Position, a: seq<Warning>, w: Warning, b: seq<Warning>)
    ensures Hits(p, []) == []
    ensures Hits(p, a + ([w] + b)) == Hits(p, a) + (if InGeometry(p, w.geometry) then [w] else []) + Hits(p, b)
    decreases |a|
  {
    var all := a + ([w] + b);
    if a == [] {
      assert all[0] == w && all[1..] == b;
    } else {
      assert all[0] == a[0] && all[1..] == a[1..] + ([w] + b);
      HitsParts(p, a[1..], w, b);
      var first := if InGeometry(p, a[0].geometry) then [a[0]] else [];
      var hit := if InGeometry(p, w.geometry) then [w] else [];
      assert first + (Hits(p, a[1..]) + hit + Hits(p, b)) == first + Hits(p, a[1..]) + hit + Hits(p, b);
    }
  }

  lemma SkippedIsNoHit(p: Position, w: Warning)
    requires Loaded(w) && OutsideBox(p, w.box)
    ensures !InGeometry(p, w.geometry)
  {
    BoxFilterIsSound(p, w.geometry, w.box);
  }

  function Added(found: seq<Warning>, w: Warning, hit: bool): seq<Warning> {
    if hit then found + [w] else found
  }

  lemma HitsStep(p: Position, found: seq<Warning>, ws: seq<Warning>, i: nat, hit: bool)
    requires i < |ws| && hit == InGeometry(p, ws[i].geometry)
    ensures found + Hits(p, ws[i..]) == Added(found, ws[i], hit) + Hits(p, ws[i + 1..])
  {
    assert ws[i..][0] == ws[i] && ws[i..][1..] == ws[i + 1..];
  }

  /** One warning of the loop: the box first, then the geometry. */
  method IsHit(p: Position, w: Warning) returns (hit: bool)
    requires Loaded(w)
    ensures hit == InGeometry(p, w.geometry)
  {
    if OutsideBox(p, w.box) {
      SkippedIsNoHit(p, w);
      return false;
    }
    hit := InGeometryTest(p, w.geometry);
  }

  /** The loop of `warnungen_fuer`. */
  method AllHits(p: Position, ws: seq<Warning>) returns (found: seq<Warning>)
    requires forall i | 0 <= i < |ws| :: Loaded(ws[i])
    ensures found == Hits(p, ws)
  {
    found := [];
    for i := 0 to |ws|
      invariant found + Hits(p, ws[i..]) == Hits(p, ws)
    {
      var hit := IsHit(p, ws[i]);
      HitsStep(p, found, ws, i, hit);
      if hit {
        found := found + [ws[i]];
      }
    }
  }

  /** `warnungen_fuer`: with the box consulted first, the result is still the first three hits. */
  method WarningsFor(p: Position, ws: seq<Warning>) returns (found: seq<Warning>)
    requires forall i | 0 <= i < |ws| :: Loaded(ws[i])
    ensures found == if |Hits(p, ws)| <= 3 then Hits(p, ws) else Hits(p, ws)[..3]
  {
    found := AllHits(p, ws);
    if |found| > 3 {
      found := found[..3];
    }
  }
}
