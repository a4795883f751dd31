/**
 Point in polygon by ray casting, in exact reals: how many edges a ray to the east crosses, odd
 or even. The last vertex is joined to the first.
 */
module Geofence {

  datatype LatLon = LatLon(lat: real, lon: real)

  type Polygon = seq<LatLon>

  /** The edge has one end north of the latitude and the other not. */
  predicate Straddles(a: LatLon, b: LatLon, lat: real) {
    (a.lat > lat) != (b.lat > lat)
  }

  /** The longitude at which the edge from `b` to `a` crosses the latitude. */
  function CrossingLon(a: LatLon, b: LatLon, lat: real): real
    requires a.lat != b.lat
  {
    b.lon + (lat - b.lat) / (a.lat - b.lat) * (a.lon - b.lon)
  }

  predicate Crosses(a: LatLon, b: LatLon, p: LatLon) {
    Straddles(a, b, p.lat) && p.lon < CrossingLon(a, b, p.lat)
  }

  /** The parity of the edges along an open path. */
  predicate OddPath(path: Polygon, p: LatLon) {
    |path| >= 2 && (Crosses(path[1], path[0], p) != OddPath(path[1..], p))
  }

  predicate Inside(ps: Polygon, p: LatLon) {
    ps != [] && (OddPath(ps, p) != Crosses(ps[0], ps[|ps| - 1], p))
  }

  /** The test as written: one pass over the vertices, each with the one before it. */
  method Contains(ps: Polygon, lat: real, lon: real) returns (inside: bool)
    ensures inside == Inside(ps, LatLon(lat, lon))
  {
    hide CrossingLon, OddPath;
    var p := LatLon(lat, lon);
    inside := false;
    var i, j := 0, |ps| - 1;
    while i < |ps|
      invariant 0 <= i <= |ps| && j == (if i == 0 then |ps| - 1 else i - 1)
      invariant inside == (i > 0 && (OddPath(ps[..i], p) != Crosses(ps[0], ps[|ps| - 1], p)))
    {
      var pi, pj := ps[i], ps[j];
      if (pi.lat > lat) != (pj.lat > lat) {
        var crossLon := CrossingLon(pi, pj, lat);
        if lon < crossLon {
          inside := !inside;
        }
      }
      if i > 0 {
        PathSnoc(ps[..i], pi, p);
        assert ps[..i] + [pi] == ps[..i + 1];
      } else {
        ShortPath(ps[..1], p);
      }
      j, i := i, i + 1;
    }
    assert ps[..|ps|] == ps;
  }

  lemma ShortPath(path: Polygon, p: LatLon)
    requires |path| == 1
    ensures !OddPath(path, p)
  {}

  lemma {:induction false} PathSnoc(path: Polygon, a: LatLon, p: LatLon)
    requires path != []
    ensures OddPath(path + [a], p) == (OddPath(path, p) != Crosses(a, path[|path| - 1], p))
  {
    if |path| > 1 {
      PathSnoc(path[1..], a, p);
      assert (path + [a])[1..] == path[1..] + [a];
    }
  }

  /** Two paths that share an end, joined. */
  lemma {:induction false} PathJoin(x: Polygon, m: LatLon, y: Polygon, p: LatLon)
    ensures OddPath(x + [m] + y, p) == (OddPath(x + [m], p) != OddPath([m] + y, p))
  {
    if x == [] {
      assert x + [m] + y == [m] + y && x + [m] == [m];
    } else {
      PathJoin(x[1..], m, y, p);
      assert (x + [m] + y)[1..] == x[1..] + [m] + y && (x + [m])[1..] == x[1..] + [m];
    }
  }

  // ---- The direction of an edge ----

  lemma NonZeroProduct(x: real, d: real)
    requires x != 0.0 && d != 0.0
    ensures x * d != 0.0
  {
    if (x > 0.0) == (d > 0.0) {
      assert x * d > 0.0;
    } else {
      assert x * d < 0.0;
    }
  }

  lemma ShareComplement(u: real, d: real, t: real, s: real)
    requires d != 0.0 && t == u / d && s == (u - d) / (0.0 - d)
    ensures s == 1.0 - t
  {
    assert t * d == u;
    assert s * (0.0 - d) == u - d;
    assert (s - (1.0 - t)) * d == s * d - d + t * d == 0.0;
    if s != 1.0 - t {
      NonZeroProduct(s - (1.0 - t), d);
    }
  }

  /** An edge crosses a latitude at the same longitude whichever way it is walked. */
  lemma CrossingSymmetric(a: LatLon, b: LatLon, lat: real)
    requires a.lat != b.lat
    ensures CrossingLon(a, b, lat) == CrossingLon(b, a, lat)
  {
    var d := a.lat - b.lat;
    var t, s := (lat - b.lat) / d, (lat - a.lat) / (b.lat - a.lat);
    assert lat - a.lat == lat - b.lat - d && b.lat - a.lat == 0.0 - d;
    ShareComplement(lat - b.lat, d, t, s);
    assert b.lon + t * (a.lon - b.lon) == a.lon + (1.0 - t) * (b.lon - a.lon);
  }

  lemma CrossesSymmetric(a: LatLon, b: LatLon, p: LatLon)
    ensures Crosses(a, b, p) == Crosses(b, a, p)
  {
    if Straddles(a, b, p.lat) {
      CrossingSymmetric(a, b, p.lat);
    }
  }

  // ---- The choice of first vertex, and of direction ----

  lemma TurnOnce(ps: Polygon, p: LatLon)
    requires ps != []
    ensures Inside(ps[1..] + [ps[0]], p) == Inside(ps, p)
  {
    if |ps| > 1 {
      PathSnoc(ps[1..], ps[0], p);
    } else {
      assert ps[1..] + [ps[0]] == ps;
    }
  }

  /** Main: the answer does not depend on which vertex the polygon is drawn from. */
  lemma {:induction false} RotationInvariant(ps: Polygon, k: nat, p: LatLon)
    requires k <= |ps|
    ensures Inside(ps[k..] + ps[..k], p) == Inside(ps, p)
  {
    if k == 0 {
      assert ps[0..] + ps[..0] == ps;
    } else {
      var before := ps[k - 1..] + ps[..k - 1];
      RotationInvariant(ps, k - 1, p);
      TurnOnce(before, p);
      assert before[1..] + [before[0]] == ps[k..] + ps[..k];
    }
  }

  function Reverse(ps: Polygon): (r: Polygon)
    ensures |r| == |ps|
  {
    if ps == [] then [] else Reverse(ps[1..]) + [ps[0]]
  }

  lemma {:induction false} ReverseEnds(ps: Polygon)
    requires ps != []
    ensures Reverse(ps)[0] == ps[|ps| - 1] && Reverse(ps)[|ps| - 1] == ps[0]
  {
    if |ps| > 1 {
      ReverseEnds(ps[1..]);
    }
  }

  lemma {:induction false} PathReversed(ps: Polygon, p: LatLon)
    ensures OddPath(Reverse(ps), p) == OddPath(ps, p)
  {
    if |ps| > 1 {
      PathReversed(ps[1..], p);
      ReverseEnds(ps[1..]);
      PathSnoc(Reverse(ps[1..]), ps[0], p);
      CrossesSymmetric(ps[0], ps[1], p);
    }
  }

  /** Main: nor on the direction it is drawn in. */
  lemma ReversalInvariant(ps: Polygon, p: LatLon)
    ensures Inside(Reverse(ps), p) == Inside(ps, p)
  {
    if ps != [] {
      PathReversed(ps, p);
      ReverseEnds(ps);
      CrossesSymmetric(ps[0], ps[|ps| - 1], p);
    }
  }

  // ---- Cutting ----

  /** Main: cutting a polygon along the chord between any two vertices, its inside is what is in exactly one of the parts. */
  lemma CutAlongChord(ps: Polygon, i: nat, j: nat, p: LatLon)
    requires i < j < |ps|
    ensures Inside(ps, p) == (Inside(ps[i..j + 1], p) != Inside(ps[j..] + ps[..i + 1], p))
  {
    hide Crosses, OddPath;
    var near, far := ps[i..j + 1], ps[j..] + ps[..i + 1];
    var turned := ps[i..] + ps[..i];
    RotationInvariant(ps, i, p);
    // The whole outline, from vertex i round to vertex i again, is the two arcs.
    var arc := ps[j + 1..] + ps[..i];
    assert turned == ps[i..j] + [ps[j]] + arc;
    PathJoin(ps[i..j], ps[j], arc, p);
    assert ps[i..j] + [ps[j]] == near;
    assert far == [ps[j]] + arc + [ps[i]];
    PathSnoc([ps[j]] + arc, ps[i], p);
    var last := ([ps[j]] + arc)[|arc|];
    assert turned[|turned| - 1] == last && turned[0] == ps[i];
    assert far[0] == ps[j] && far[|far| - 1] == ps[i];
    CrossesSymmetric(ps[i], ps[j], p);
  }

  // ---- Outside the bounding box ----

  lemma Between(t: real, x: real, y: real, lo: real, hi: real)
    requires 0.0 <= t <= 1.0 && lo <= x <= hi && lo <= y <= hi
    ensures lo <= x + t * (y - x) <= hi
  {
    var s := 1.0 - t;
    assert x + t * (y - x) == s * x + t * y;
    Scaled(s, x - lo);
    Scaled(t, y - lo);
    Scaled(s, hi - x);
    Scaled(t, hi - y);
    assert s * (x - lo) + t * (y - lo) == s * x + t * y - lo;
    assert s * (hi - x) + t * (hi - y) == hi - (s * x + t * y);
  }

  lemma Scaled(s: real, x: real)
    requires 0.0 <= s && 0.0 <= x
    ensures 0.0 <= s * x
  {
    if s > 0.0 && x > 0.0 {
      assert s * x > 0.0;
    }
  }

  lemma ShareOfEdge(u: real, d: real)
    requires d != 0.0 && (0.0 <= u <= d || d <= u <= 0.0)
    ensures 0.0 <= u / d <= 1.0
  {
    var t := u / d;
    assert t * d == u;
    if t < 0.0 || t > 1.0 {
      if d > 0.0 {
        assert t * d < 0.0 || t * d > d;
      } else {
        assert t * d > 0.0 || t * d < d;
      }
    }
  }

  /** A crossing lies between the longitudes of the edge's ends. */
  lemma CrossingWithin(a: LatLon, b: LatLon, lat: real, lo: real, hi: real)
    requires Straddles(a, b, lat) && lo <= a.lon <= hi && lo <= b.lon <= hi
    ensures lo <= CrossingLon(a, b, lat) <= hi
  {
    ShareOfEdge(lat - b.lat, a.lat - b.lat);
    Between((lat - b.lat) / (a.lat - b.lat), b.lon, a.lon, lo, hi);
  }

  /** To the west, a path's crossings are its changes of side, so only its ends matter. */
  lemma {:induction false} WestPath(path: Polygon, p: LatLon)
    requires path != [] && forall q :: q in path ==> p.lon < q.lon
    ensures OddPath(path, p) == Straddles(path[0], path[|path| - 1], p.lat)
  {
    if |path| > 1 {
      assert path[0] in path && path[1] in path;
      WestPath(path[1..], p);
      WestCrosses(path[1], path[0], p);
    }
  }

  lemma WestCrosses(a: LatLon, b: LatLon, p: LatLon)
    requires p.lon < a.lon && p.lon < b.lon
    ensures Crosses(a, b, p) == Straddles(a, b, p.lat)
  {
    if Straddles(a, b, p.lat) {
      var lo, hi := if a.lon < b.lon then a.lon else b.lon, if a.lon < b.lon then b.lon else a.lon;
      CrossingWithin(a, b, p.lat, lo, hi);
    }
  }

  lemma EastCrosses(a: LatLon, b: LatLon, p: LatLon)
    requires a.lon <= p.lon && b.lon <= p.lon
    ensures !Crosses(a, b, p)
  {
    if Straddles(a, b, p.lat) {
      CrossingWithin(a, b, p.lat, if a.lon < b.lon then a.lon else b.lon, p.lon);
    }
  }

  lemma {:induction false} NoCrossings(path: Polygon, p: LatLon)
    requires forall a, b :: a in path && b in path ==> !Crosses(a, b, p)
    ensures !OddPath(path, p)
  {
    if |path| > 1 {
      assert path[0] in path && path[1] in path;
      NoCrossings(path[1..], p);
    }
  }

  /** Main: a point beyond any side of the polygon's bounding box is outside it. */
  lemma OutsideTheBox(ps: Polygon, p: LatLon)
    requires || (forall q :: q in ps ==> q.lat <= p.lat)
             || (forall q :: q in ps ==> p.lat < q.lat)
             || (forall q :: q in ps ==> q.lon <= p.lon)
             || (forall q :: q in ps ==> p.lon < q.lon)
    ensures !Inside(ps, p)
  {
    if ps != [] {
      assert ps[0] in ps && ps[|ps| - 1] in ps;
      if forall q :: q in ps ==> p.lon < q.lon {
        WestPath(ps, p);
        WestCrosses(ps[0], ps[|ps| - 1], p);
      } else {
        forall a, b | a in ps && b in ps
          ensures !Crosses(a, b, p)
        {
          if a.lon <= p.lon && b.lon <= p.lon {
            EastCrosses(a, b, p);
          }
        }
        NoCrossings(ps, p);
      }
    }
  }

  // ---- Which side of an edge ----

  /** Twice the signed area of the triangle from `p` to `q` to `r`: positive on one side of the line through `q` and `r`,
      negative on the other. */
  function Side(q: LatLon, r: LatLon, p: LatLon): real {
    (q.lon - p.lon) * (r.lat - p.lat) - (q.lat - p.lat) * (r.lon - p.lon)
  }

  predicate OneSign(x: real, y: real, z: real) {
    (x > 0.0 && y > 0.0 && z > 0.0) || (x < 0.0 && y < 0.0 && z < 0.0)
  }

  /** A quotient has the sign of its product with the square of what it was divided by. */
  lemma SignOfProduct(x: real, d: real)
    requires d != 0.0
    ensures d > 0.0 ==> (x > 0.0 <==> x * d > 0.0)
    ensures d < 0.0 ==> (x > 0.0 <==> x * d < 0.0)
  {
    if x != 0.0 {
      NonZeroProduct(x, d);
    }
  }

  /** How far east of the point an edge crosses, times the edge's rise, is the point's side of the edge. */
  lemma CrossingOffset(a: LatLon, b: LatLon, p: LatLon)
    requires a.lat != b.lat
    ensures (CrossingLon(a, b, p.lat) - p.lon) * (a.lat - b.lat) == Side(b, a, p)
  {
    var d, u, w := a.lat - b.lat, p.lat - b.lat, a.lon - b.lon;
    var t := u / d;
    assert t * d == u;
    assert t * w * d == u * w by {
      assert t * w * d == (t * d) * w;
    }
    var e := b.lon - p.lon;
    assert (e + t * w) * d == e * d + t * w * d;
    assert e * d + u * w == Side(b, a, p) by {
      var y := b.lat - p.lat;
      assert d == (a.lat - p.lat) - y && u == -y && w == (a.lon - p.lon) - e;
    }
  }

  /** An edge is crossed when it climbs past the point on one side of it, or comes down on the other. */
  lemma CrossesBySide(a: LatLon, b: LatLon, p: LatLon)
    ensures Crosses(a, b, p) <==> || (a.lat > p.lat >= b.lat && Side(b, a, p) > 0.0)
                                  || (b.lat > p.lat >= a.lat && Side(b, a, p) < 0.0)
  {
    if Straddles(a, b, p.lat) {
      CrossingOffset(a, b, p);
      SignOfProduct(CrossingLon(a, b, p.lat) - p.lon, a.lat - b.lat);
    }
  }

  lemma SidesBalance(a: LatLon, b: LatLon, c: LatLon, p: LatLon)
    ensures (a.lat - p.lat) * Side(b, c, p) + (b.lat - p.lat) * Side(c, a, p) + (c.lat - p.lat) * Side(a, b, p) == 0.0
    ensures Side(b, a, p) == -Side(a, b, p)
  {
    var ax, bx, cx, ay, by_, cy := a.lon - p.lon, b.lon - p.lon, c.lon - p.lon, a.lat - p.lat, b.lat - p.lat, c.lat - p.lat;
    SumCancels(ay * bx * cy, ay * by_ * cx, by_ * cy * ax);
    assert ay * (bx * cy - by_ * cx) == ay * bx * cy - ay * by_ * cx;
    assert by_ * (cx * ay - cy * ax) == ay * by_ * cx - by_ * cy * ax;
    assert cy * (ax * by_ - ay * bx) == by_ * cy * ax - ay * bx * cy;
  }

  lemma SumCancels(x: real, y: real, z: real)
    ensures (x - y) + (y - z) + (z - x) == 0.0
  {}

  /** With a zero sum, the third side takes the sign the other two share. */
  lemma ThirdSign(ya: real, yb: real, yc: real, sa: real, sb: real, sc: real)
    requires ya * sa + yb * sb + yc * sc == 0.0 && sa != 0.0
    requires (ya > 0.0 && yb <= 0.0 && yc <= 0.0) || (ya <= 0.0 && yb > 0.0 && yc > 0.0)
    ensures sb > 0.0 && sc > 0.0 ==> sa > 0.0
    ensures sb < 0.0 && sc < 0.0 ==> sa < 0.0
  {
    if (sb > 0.0 && sc > 0.0) || (sb < 0.0 && sc < 0.0) {
      Signs(ya, sa);
      Signs(yb, sb);
      Signs(yc, sc);
    }
  }

  lemma Signs(x: real, y: real)
    ensures (x > 0.0 && y > 0.0) || (x < 0.0 && y < 0.0) ==> x * y > 0.0
    ensures (x > 0.0 && y < 0.0) || (x < 0.0 && y > 0.0) ==> x * y < 0.0
    ensures x == 0.0 || y == 0.0 ==> x * y == 0.0
  {}

  lemma NoSharedSign(ya: real, yb: real, yc: real, sa: real, sb: real, sc: real)
    requires ya * sa + yb * sb + yc * sc == 0.0
    requires (ya > 0.0 && yb > 0.0 && yc > 0.0) || (ya <= 0.0 && yb <= 0.0 && yc <= 0.0)
    requires ya == 0.0 && yb == 0.0 ==> sc == 0.0
    ensures !OneSign(sa, sb, sc)
  {
    if OneSign(sa, sb, sc) {
      Signs(ya, sa);
      Signs(yb, sb);
      Signs(yc, sc);
    }
  }

  /** One corner lies apart from the other two: the ray can only cross the two edges that meet there. */
  lemma CornerApart(a: LatLon, b: LatLon, c: LatLon, p: LatLon)
    requires Side(a, b, p) != 0.0 && Side(b, c, p) != 0.0 && Side(c, a, p) != 0.0
    requires (a.lat > p.lat) != (b.lat > p.lat) && (b.lat > p.lat) == (c.lat > p.lat)
    ensures Inside([a, b, c], p) <==> OneSign(Side(a, b, p), Side(b, c, p), Side(c, a, p))
  {
    TriangleEdges(a, b, c, p);
    CrossesBySide(b, a, p);
    CrossesBySide(c, b, p);
    CrossesBySide(a, c, p);
    SidesBalance(a, b, c, p);
    SidesBalance(c, a, b, p);
    hide Side, Crosses, Inside;
    ThirdSign(a.lat - p.lat, b.lat - p.lat, c.lat - p.lat, Side(b, c, p), Side(c, a, p), Side(a, b, p));
  }

  lemma TriangleEdges(a: LatLon, b: LatLon, c: LatLon, p: LatLon)
    ensures Inside([a, b, c], p) == ((Crosses(b, a, p) != Crosses(c, b, p)) != Crosses(a, c, p))
  {
    hide Crosses;
    var ps := [a, b, c];
    assert ps[1..] == [b, c] && ps[1..][1..] == [c];
    assert !OddPath([c], p);
    assert OddPath([b, c], p) == Crosses(c, b, p);
  }

  /** Level with the point or to one side of it, all three: the ray crosses nothing, and the sides do not agree. */
  lemma NoneApart(a: LatLon, b: LatLon, c: LatLon, p: LatLon)
    requires (a.lat > p.lat) == (b.lat > p.lat) && (b.lat > p.lat) == (c.lat > p.lat)
    ensures !Inside([a, b, c], p) && !OneSign(Side(a, b, p), Side(b, c, p), Side(c, a, p))
  {
    TriangleEdges(a, b, c, p);
    SidesBalance(a, b, c, p);
    var ya, yb, yc := a.lat - p.lat, b.lat - p.lat, c.lat - p.lat;
    if ya == 0.0 && yb == 0.0 {
      assert Side(a, b, p) == 0.0;
    }
    hide Side, Crosses, Inside;
    NoSharedSign(ya, yb, yc, Side(b, c, p), Side(c, a, p), Side(a, b, p));
  }

  /** Main: a point on none of the lines through a triangle's edges is inside exactly when it is on the same side of all
      three, walking round. */
  lemma TriangleExactly(a: LatLon, b: LatLon, c: LatLon, p: LatLon)
    requires Side(a, b, p) != 0.0 && Side(b, c, p) != 0.0 && Side(c, a, p) != 0.0
    ensures Inside([a, b, c], p) <==> OneSign(Side(a, b, p), Side(b, c, p), Side(c, a, p))
  {
    var ps := [a, b, c];
    hide Side, Inside, OddPath;
    if (a.lat > p.lat) == (b.lat > p.lat) && (b.lat > p.lat) == (c.lat > p.lat) {
      NoneApart(a, b, c, p);
    } else if (b.lat > p.lat) == (c.lat > p.lat) {
      CornerApart(a, b, c, p);
    } else if (c.lat > p.lat) == (a.lat > p.lat) {
      CornerApart(b, c, a, p);
      RotationInvariant(ps, 1, p);
      assert ps[1..] + ps[..1] == [b, c, a];
    } else {
      CornerApart(c, a, b, p);
      RotationInvariant(ps, 2, p);
      assert ps[2..] + ps[..2] == [c, a, b];
    }
  }

  /** The point is on no line through an edge, or through the first vertex and another. */
  ghost predicate OffTheLines(ps: Polygon, p: LatLon) {
    && (forall k :: 1 <= k < |ps| ==> Side(ps[0], ps[k], p) != 0.0)
    && forall j, k :: 1 <= j && j + 1 == k < |ps| ==> Side(ps[j], ps[k], p) != 0.0
  }

  /** An odd number of the triangles from the first vertex to each edge have the point on one side of all their edges. */
  predicate OddTriangles(ps: Polygon, p: LatLon) {
    |ps| >= 3 &&
    (var k := |ps| - 1;
     OneSign(Side(ps[0], ps[k - 1], p), Side(ps[k - 1], ps[k], p), Side(ps[k], ps[0], p)) != OddTriangles(ps[..k], p))
  }

  /** Main: so of every polygon, convex or not, crossing itself or not: inside is in an odd number of its triangles. */
  lemma {:induction false} InsideExactly(ps: Polygon, p: LatLon)
    requires OffTheLines(ps, p)
    ensures Inside(ps, p) <==> OddTriangles(ps, p)
  {
    if |ps| < 3 {
      if |ps| == 2 {
        assert !OddPath(ps[1..], p);
        CrossesSymmetric(ps[0], ps[1], p);
      }
    } else {
      var k := |ps| - 1;
      InsideExactly(ps[..k], p);
      CutAlongChord(ps, 0, k - 1, p);
      SidesBalance(ps[k], ps[0], ps[0], p);
      TriangleExactly(ps[0], ps[k - 1], ps[k], p);
      var far := ps[k - 1..] + ps[..1];
      assert far == [ps[k - 1], ps[k], ps[0]];
      RotationInvariant(far, 2, p);
      assert far[2..] + far[..2] == [ps[0], ps[k - 1], ps[k]];
      assert ps[0..k - 1 + 1] == ps[..k];
      hide Inside, Side;
    }
  }
}
