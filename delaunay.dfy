/**
 * Incremental Bowyer-Watson triangulation (TopoBuilder/TerrainGenerator.cs,
 * DelaunayTriangulation, CreateSuperTriangle and the Edge struct).
 *
 * The working triangulation is a flat list of point indices, three per
 * triangle. The pure functions below say what one insertion step produces;
 * the methods do the list surgery the source does (scan, back-to-front
 * RemoveRange, appends) and are proved to compute exactly those functions.
 */
module Delaunay {
  import opened Geometry

  // ---------------------------------------------------------------------
  // Edges
  // ---------------------------------------------------------------------

  /** An undirected edge between two point indices, smaller index first. */
  datatype Edge = Edge(a: int, b: int)

  /** The Edge constructor: stores min(x, y) then max(x, y). */
  function MakeEdge(x: int, y: int): (e: Edge)
    ensures e.a <= e.b
    ensures (e.a == x && e.b == y) || (e.a == y && e.b == x)
  {
    if x <= y then Edge(x, y) else Edge(y, x)
  }

  /** Both traversal directions give the same edge. */
  lemma MakeEdgeIsUndirected(x: int, y: int)
    ensures MakeEdge(x, y) == MakeEdge(y, x)
  {
  }

  // ---------------------------------------------------------------------
  // The scaffold ("super") triangle
  // ---------------------------------------------------------------------

  datatype Box = Box(minX: real, maxX: real, minY: real, maxY: real)

  /** Spread below which all points are taken to coincide (1e-6). */
  const CoincidenceLimit: real := 0.000001

  /** Scale used when even the coordinate fallback is below the limit. */
  const FallbackScale: real := 100.0

  /** The bounding box, grown one point at a time as the source's loop does. */
  function BoundingBox(ps: seq<Point2>): (b: Box)
    requires |ps| > 0
    ensures forall k :: 0 <= k < |ps| ==> b.minX <= ps[k].x <= b.maxX && b.minY <= ps[k].y <= b.maxY
    decreases |ps|
  {
    if |ps| == 1 then Box(ps[0].x, ps[0].x, ps[0].y, ps[0].y)
    else
      var b := BoundingBox(ps[..|ps| - 1]);
      var p := ps[|ps| - 1];
      Box(if p.x < b.minX then p.x else b.minX, if p.x > b.maxX then p.x else b.maxX,
          if p.y < b.minY then p.y else b.minY, if p.y > b.maxY then p.y else b.maxY)
  }

  /** deltaMax after both fallbacks. */
  function Scale(b: Box): (d: real)
    ensures d > 0.0
    ensures d >= b.maxX - b.minX && d >= b.maxY - b.minY
  {
    var deltaMax := Max(b.maxX - b.minX, b.maxY - b.minY);
    var deltaMax' := if deltaMax < CoincidenceLimit
      then Max(Abs(b.minX), Max(Abs(b.maxX), Max(Abs(b.minY), Abs(b.maxY)))) + 1.0
      else deltaMax;
    if deltaMax' < CoincidenceLimit then FallbackScale else deltaMax'
  }

  /** The scaffold around the centre (midX, midY) with scale d. */
  function Scaffold(midX: real, midY: real, d: real): seq<Point2> {
    [Point2(midX - 20.0 * d, midY - 10.0 * d),
     Point2(midX + 20.0 * d, midY - 10.0 * d),
     Point2(midX, midY + 20.0 * d)]
  }

  /** The three scaffold vertices, or none for an empty input. */
  function SuperTriangle(ps: seq<Point2>): (st: seq<Point2>)
    ensures |st| == if |ps| == 0 then 0 else 3
  {
    if |ps| == 0 then []
    else
      var b := BoundingBox(ps);
      Scaffold((b.minX + b.maxX) / 2.0, (b.minY + b.maxY) / 2.0, Scale(b))
  }

  /** p lies strictly inside the counter-clockwise triangle (a, b, c). */
  predicate StrictlyInside(p: Point2, a: Point2, b: Point2, c: Point2) {
    Orientation(a, b, p) > 0.0 && Orientation(b, c, p) > 0.0 && Orientation(c, a, p) > 0.0
  }

  /** A point within half the scale d of the centre lies left of the scaffold's bottom edge. */
  lemma LeftOfBottomEdge(midX: real, midY: real, d: real, p: Point2)
    requires d > 0.0
    requires -d <= 2.0 * (p.x - midX) <= d && -d <= 2.0 * (p.y - midY) <= d
    ensures Orientation(Point2(midX - 20.0 * d, midY - 10.0 * d), Point2(midX + 20.0 * d, midY - 10.0 * d), p) > 0.0
  {
    var e := 40.0 * (p.y - midY) + 400.0 * d;
    assert Orientation(Point2(midX - 20.0 * d, midY - 10.0 * d), Point2(midX + 20.0 * d, midY - 10.0 * d), p) == d * e;
    PositiveProduct(d, e);
  }

  /** ... and left of its right edge ... */
  lemma LeftOfRightEdge(midX: real, midY: real, d: real, p: Point2)
    requires d > 0.0
    requires -d <= 2.0 * (p.x - midX) <= d && -d <= 2.0 * (p.y - midY) <= d
    ensures Orientation(Point2(midX + 20.0 * d, midY - 10.0 * d), Point2(midX, midY + 20.0 * d), p) > 0.0
  {
    var e := 400.0 * d - 20.0 * (p.y - midY) - 30.0 * (p.x - midX);
    assert Orientation(Point2(midX + 20.0 * d, midY - 10.0 * d), Point2(midX, midY + 20.0 * d), p) == d * e;
    PositiveProduct(d, e);
  }

  /** ... and left of its left edge. */
  lemma LeftOfLeftEdge(midX: real, midY: real, d: real, p: Point2)
    requires d > 0.0
    requires -d <= 2.0 * (p.x - midX) <= d && -d <= 2.0 * (p.y - midY) <= d
    ensures Orientation(Point2(midX, midY + 20.0 * d), Point2(midX - 20.0 * d, midY - 10.0 * d), p) > 0.0
  {
    var e := 400.0 * d - 20.0 * (p.y - midY) + 30.0 * (p.x - midX);
    assert Orientation(Point2(midX, midY + 20.0 * d), Point2(midX - 20.0 * d, midY - 10.0 * d), p) == d * e;
    PositiveProduct(d, e);
  }

  /** A point within half the scale of the centre is strictly inside the scaffold. */
  lemma ScaffoldEnclosesPoint(midX: real, midY: real, d: real, p: Point2)
    requires d > 0.0
    requires -d <= 2.0 * (p.x - midX) <= d && -d <= 2.0 * (p.y - midY) <= d
    ensures var st := Scaffold(midX, midY, d); StrictlyInside(p, st[0], st[1], st[2])
  {
    LeftOfBottomEdge(midX, midY, d, p);
    LeftOfRightEdge(midX, midY, d, p);
    LeftOfLeftEdge(midX, midY, d, p);
  }

  lemma PositiveProduct(d: real, e: real)
    requires d > 0.0 && e > 0.0
    ensures d * e > 0.0
  {
  }

  /** The scaffold triangle strictly encloses every input point. */
  lemma SuperTriangleEncloses(ps: seq<Point2>)
    requires |ps| > 0
    ensures var st := SuperTriangle(ps);
            forall k :: 0 <= k < |ps| ==> StrictlyInside(ps[k], st[0], st[1], st[2])
  {
    var b := BoundingBox(ps);
    var d := Scale(b);
    var midX, midY := (b.minX + b.maxX) / 2.0, (b.minY + b.maxY) / 2.0;
    forall k | 0 <= k < |ps|
      ensures var st := Scaffold(midX, midY, d); StrictlyInside(ps[k], st[0], st[1], st[2])
    {
      ScaffoldEnclosesPoint(midX, midY, d, ps[k]);
    }
  }

  /** The first part of CreateSuperTriangle: one pass for the bounding box. */
  method Bounds(points: seq<Point2>) returns (minX: real, maxX: real, minY: real, maxY: real)
    requires |points| > 0
    ensures Box(minX, maxX, minY, maxY) == BoundingBox(points)
  {
    minX, maxX, minY, maxY := points[0].x, points[0].x, points[0].y, points[0].y;
    for k := 1 to |points|
      invariant Box(minX, maxX, minY, maxY) == BoundingBox(points[..k])
    {
      assert points[..k + 1][..k] == points[..k];
      var p := points[k];
      if p.x < minX { minX := p.x; }
      if p.x > maxX { maxX := p.x; }
      if p.y < minY { minY := p.y; }
      if p.y > maxY { maxY := p.y; }
    }
    assert points[..|points|] == points;
  }

  /** CreateSuperTriangle: the bounding box, then the fallbacks for coincident points. */
  method CreateSuperTriangle(points: seq<Point2>) returns (st: seq<Point2>)
    ensures st == SuperTriangle(points)
    ensures |points| == 0 ==> st == []
    ensures |points| > 0 ==> |st| == 3 && forall k :: 0 <= k < |points| ==> StrictlyInside(points[k], st[0], st[1], st[2])
  {
    if |points| == 0 {
      return [];
    }
    var minX, maxX, minY, maxY := Bounds(points);
    var dx, dy := maxX - minX, maxY - minY;
    var deltaMax := Max(dx, dy);
    if deltaMax < CoincidenceLimit {
      deltaMax := Max(Abs(minX), Max(Abs(maxX), Max(Abs(minY), Abs(maxY)))) + 1.0;
    }
    if deltaMax < CoincidenceLimit {
      deltaMax := FallbackScale;
    }
    assert deltaMax == Scale(BoundingBox(points));
    var midX, midY := (minX + maxX) / 2.0, (minY + maxY) / 2.0;
    st := [Point2(midX - 20.0 * deltaMax, midY - 10.0 * deltaMax),
           Point2(midX + 20.0 * deltaMax, midY - 10.0 * deltaMax),
           Point2(midX, midY + 20.0 * deltaMax)];
    assert st == Scaffold(midX, midY, deltaMax);
    SuperTriangleEncloses(points);
  }

  // ---------------------------------------------------------------------
  // Flat triangle lists
  // ---------------------------------------------------------------------

  /**
   * The bad-triangle test on three point indices. The list operations below
   * hold for any such test; the triangulation instantiates it with the
   * in-circle test for the point being inserted (BadFor).
   */
  type TriangleTest = (int, int, int) -> bool

  /** Point k of P (k is always in range where this is used; see Mesh). */
  function At(P: seq<Point2>, k: int): Point2 {
    if 0 <= k < |P| then P[k] else Point2(0.0, 0.0)
  }

  /** Triangle (a, b, c) is bad for p: p lies inside its circumcircle. */
  function BadFor(P: seq<Point2>, p: Point2): TriangleTest {
    (a: int, b: int, c: int) => IsPointInCircumcircle(p, At(P, a), At(P, b), At(P, c))
  }

  /** The test used while inserting each point i. */
  type InsertionTests = int -> TriangleTest

  /** While point i is inserted, a triangle is bad when point i lies in its circumcircle. */
  function InCircleTests(P: seq<Point2>): InsertionTests {
    (i: int) => BadFor(P, At(P, i))
  }

  /** Every entry of t addresses one of m points. */
  predicate InBounds(t: seq<int>, m: int) {
    forall k :: 0 <= k < |t| ==> 0 <= t[k] < m
  }

  /** Multiples of 3 stay multiples of 3 three apart. */
  lemma ThreeApart(a: int, b: int)
    requires a - b == 3
    ensures a % 3 == 0 <==> b % 3 == 0
  {
  }

  /** t is a list of triples, each with three different indices. */
  predicate DistinctTriples(t: seq<int>)
    decreases |t|
  {
    t == [] || (|t| >= 3 && t[0] != t[1] && t[1] != t[2] && t[0] != t[2] && DistinctTriples(t[3..]))
  }

  lemma {:induction false} DistinctTriplesLength(t: seq<int>)
    requires DistinctTriples(t)
    ensures |t| % 3 == 0
    decreases |t|
  {
    if t != [] {
      DistinctTriplesLength(t[3..]);
      ThreeApart(|t|, |t| - 3);
    }
  }

  lemma {:induction false} DistinctTriplesConcat(s: seq<int>, t: seq<int>)
    requires DistinctTriples(s) && DistinctTriples(t)
    ensures DistinctTriples(s + t)
    decreases |s|
  {
    if s == [] {
      assert s + t == t;
    } else {
      DistinctTriplesConcat(s[3..], t);
      assert (s + t)[3..] == s[3..] + t;
      assert (s + t)[0] == s[0] && (s + t)[1] == s[1] && (s + t)[2] == s[2];
    }
  }

  lemma ConsTriple(x: int, y: int, z: int, rest: seq<int>)
    ensures DistinctTriples([x, y, z] + rest) <==> x != y && y != z && x != z && DistinctTriples(rest)
  {
    assert ([x, y, z] + rest)[3..] == rest;
  }

  /** The triangle at position j (a multiple of 3) is bad. */
  predicate BadAt(isBad: TriangleTest, t: seq<int>, j: int)
    requires 0 <= j && j + 3 <= |t|
  {
    isBad(t[j], t[j + 1], t[j + 2])
  }

  /** The three edges (1-2, 2-3, 3-1) of every bad triangle, in list order. */
  function BadEdges(isBad: TriangleTest, t: seq<int>): (es: seq<Edge>)
    requires |t| % 3 == 0
    ensures |es| % 3 == 0 && |es| <= |t|
    decreases |t|
  {
    if t == [] then []
    else
      ThreeApart(|t|, |t| - 3);
      var rest := BadEdges(isBad, t[3..]);
      ThreeApart(|rest| + 3, |rest|);
      (if BadAt(isBad, t, 0) then [MakeEdge(t[0], t[1]), MakeEdge(t[1], t[2]), MakeEdge(t[2], t[0])] else [])
      + rest
  }

  /**
   * The triangles that are not bad, in their original order: what is left
   * after the bad ones are removed. Exactly one triple goes per three
   * collected edges.
   */
  function Survivors(isBad: TriangleTest, t: seq<int>): (s: seq<int>)
    requires |t| % 3 == 0
    ensures |s| % 3 == 0 && |s| <= |t|
    decreases |t|
  {
    if t == [] then []
    else
      ThreeApart(|t|, |t| - 3);
      var rest := Survivors(isBad, t[3..]);
      ThreeApart(|rest| + 3, |rest|);
      if BadAt(isBad, t, 0) then rest else [t[0], t[1], t[2]] + rest
  }

  /** Three edges are collected for every triangle that does not survive. */
  lemma {:induction false} SurvivorsAndEdges(isBad: TriangleTest, t: seq<int>)
    requires |t| % 3 == 0
    ensures |Survivors(isBad, t)| + |BadEdges(isBad, t)| == |t|
    decreases |t|
  {
    if t != [] {
      ThreeApart(|t|, |t| - 3);
      SurvivorsAndEdges(isBad, t[3..]);
    }
  }

  /** No triangle left in the list is bad. */
  lemma {:induction false} SurvivorsAreGood(isBad: TriangleTest, t: seq<int>, j: int)
    requires |t| % 3 == 0
    requires 0 <= j && j % 3 == 0 && j + 3 <= |Survivors(isBad, t)|
    ensures !BadAt(isBad, Survivors(isBad, t), j)
    decreases |t|
  {
    ThreeApart(|t|, |t| - 3);
    var s := Survivors(isBad, t);
    var rest := Survivors(isBad, t[3..]);
    if BadAt(isBad, t, 0) {
      SurvivorsAreGood(isBad, t[3..], j);
    } else if j >= 3 {
      ThreeApart(j, j - 3);
      SurvivorsAreGood(isBad, t[3..], j - 3);
      assert s[j] == rest[j - 3] && s[j + 1] == rest[j - 2] && s[j + 2] == rest[j - 1];
    }
  }

  /** The triple at position m of s is (x, y, z). */
  predicate TripleAt(s: seq<int>, m: int, x: int, y: int, z: int) {
    0 <= m && m % 3 == 0 && m + 3 <= |s| && s[m] == x && s[m + 1] == y && s[m + 2] == z
  }

  /** Some triple of s is (x, y, z). */
  predicate HasTriple(s: seq<int>, x: int, y: int, z: int) {
    exists m :: 0 <= m && m % 3 == 0 && m + 3 <= |s| && s[m] == x && s[m + 1] == y && s[m + 2] == z
  }

  /** Every triangle that is not bad is kept, with its vertices in order. */
  lemma {:induction false} GoodTriangleSurvives(isBad: TriangleTest, t: seq<int>, j: int)
    requires |t| % 3 == 0
    requires 0 <= j && j % 3 == 0 && j + 3 <= |t| && !BadAt(isBad, t, j)
    ensures HasTriple(Survivors(isBad, t), t[j], t[j + 1], t[j + 2])
    decreases |t|
  {
    ThreeApart(|t|, |t| - 3);
    var s := Survivors(isBad, t);
    var rest := Survivors(isBad, t[3..]);
    if j == 0 {
      assert s == [t[0], t[1], t[2]] + rest;
      assert TripleAt(s, 0, t[0], t[1], t[2]);
    } else {
      ThreeApart(j, j - 3);
      assert t[3..][j - 3] == t[j] && t[3..][j - 2] == t[j + 1] && t[3..][j - 1] == t[j + 2];
      GoodTriangleSurvives(isBad, t[3..], j - 3);
      var m :| 0 <= m && m % 3 == 0 && m + 3 <= |rest| && rest[m] == t[j] && rest[m + 1] == t[j + 1] && rest[m + 2] == t[j + 2];
      if BadAt(isBad, t, 0) {
        assert s == rest;
        assert TripleAt(s, m, t[j], t[j + 1], t[j + 2]);
      } else {
        ThreeApart(m + 3, m);
        assert s == [t[0], t[1], t[2]] + rest;
        assert TripleAt(s, m + 3, t[j], t[j + 1], t[j + 2]);
      }
    }
  }

  /**
   * GroupBy(e => e).Where(g => g.Count() == 1).Select(g => g.Key): the
   * edges of xs that occur exactly once in all, in order.
   */
  function OnceIn(xs: seq<Edge>, all: seq<Edge>): (r: seq<Edge>)
    ensures forall e :: multiset(r)[e] == if multiset(all)[e] == 1 then multiset(xs)[e] else 0
    decreases |xs|
  {
    if xs == [] then []
    else
      assert xs == [xs[0]] + xs[1..];
      (if multiset(all)[xs[0]] == 1 then [xs[0]] else []) + OnceIn(xs[1..], all)
  }

  /**
   * The boundary of the hole: each edge that occurs exactly once among the
   * bad triangles' edges appears once, every other edge not at all.
   */
  function BoundaryEdges(es: seq<Edge>): (r: seq<Edge>)
    ensures forall e :: multiset(r)[e] == if multiset(es)[e] == 1 then 1 else 0
  {
    OnceIn(es, es)
  }

  /** Every boundary edge is one of the collected edges, and none repeats. */
  lemma BoundaryEdgesAreCollected(es: seq<Edge>)
    ensures forall k :: 0 <= k < |BoundaryEdges(es)| ==> BoundaryEdges(es)[k] in es
    ensures forall k, l :: 0 <= k < l < |BoundaryEdges(es)| ==> BoundaryEdges(es)[k] != BoundaryEdges(es)[l]
  {
    var r := BoundaryEdges(es);
    forall k | 0 <= k < |r|
      ensures r[k] in es
    {
      assert r[k] in multiset(r);
      assert r[k] in multiset(es);
    }
    forall k, l | 0 <= k < l < |r|
      ensures r[k] != r[l]
    {
      if r[k] == r[l] {
        TwiceCounted(r, k, l);
      }
    }
  }

  /** An element at two positions is counted at least twice. */
  lemma TwiceCounted(r: seq<Edge>, k: int, l: int)
    requires 0 <= k < l < |r| && r[k] == r[l]
    ensures multiset(r)[r[k]] >= 2
  {
    var x := r[k];
    assert r == r[..k] + [x] + r[k + 1..l] + [x] + r[l + 1..];
    assert multiset(r) == multiset(r[..k]) + multiset{x} + multiset(r[k + 1..l]) + multiset{x} + multiset(r[l + 1..]);
  }

  /** One new triangle (e.a, e.b, i) per boundary edge, in order. */
  function Fan(es: seq<Edge>, i: int): (t: seq<int>)
    ensures |t| == 3 * |es|
    decreases |es|
  {
    if es == [] then [] else [es[0].a, es[0].b, i] + Fan(es[1..], i)
  }

  /** The k-th added triangle is (es[k].a, es[k].b, i): i is always third. */
  lemma {:induction false} FanAt(es: seq<Edge>, i: int, k: int)
    requires 0 <= k < |es|
    ensures Fan(es, i)[3 * k] == es[k].a
    ensures Fan(es, i)[3 * k + 1] == es[k].b
    ensures Fan(es, i)[3 * k + 2] == i
    decreases |es|
  {
    if k > 0 {
      FanAt(es[1..], i, k - 1);
    }
  }

  /**
   * One insertion of point i: the triangles whose circumcircle holds point i
   * go, the others keep their order, and the hole is refilled with a fan
   * around i.
   */
  function InsertStep(isBad: TriangleTest, t: seq<int>, i: int): (r: seq<int>)
    requires |t| % 3 == 0
    ensures |r| % 3 == 0
  {
    var s := Survivors(isBad, t);
    var es := BoundaryEdges(BadEdges(isBad, t));
    PlusTriples(|s|, |es|);
    s + Fan(es, i)
  }

  lemma PlusTriples(a: int, b: int)
    requires a % 3 == 0
    ensures (a + 3 * b) % 3 == 0
  {
  }

  /** Index x is a point inserted before point i, or a scaffold vertex. */
  predicate Admitted(x: int, n: int, i: int) {
    0 <= x < i || n <= x < n + 3
  }

  /**
   * The shape of the working list before point i is inserted: triples of
   * distinct indices, each an already inserted point or a scaffold vertex.
   */
  predicate Mesh(t: seq<int>, n: int, i: int)
    decreases |t|
  {
    t == [] ||
    (&& |t| >= 3 && t[0] != t[1] && t[1] != t[2] && t[0] != t[2]
     && Admitted(t[0], n, i) && Admitted(t[1], n, i) && Admitted(t[2], n, i)
     && Mesh(t[3..], n, i))
  }

  lemma MeshCons(x: int, y: int, z: int, rest: seq<int>, n: int, i: int)
    ensures Mesh([x, y, z] + rest, n, i) <==>
            x != y && y != z && x != z && Admitted(x, n, i) && Admitted(y, n, i) && Admitted(z, n, i) && Mesh(rest, n, i)
  {
    assert ([x, y, z] + rest)[3..] == rest;
  }

  /** A mesh is a list of triples of distinct indices, all below n + 3 when i <= n. */
  lemma {:induction false} MeshShape(t: seq<int>, n: int, i: int)
    requires Mesh(t, n, i)
    ensures |t| % 3 == 0 && DistinctTriples(t)
    ensures 0 <= i <= n ==> InBounds(t, n + 3)
    decreases |t|
  {
    if t != [] {
      MeshShape(t[3..], n, i);
      ThreeApart(|t|, |t| - 3);
    }
  }

  /** Edges with a smaller first end, both ends admitted before point i. */
  predicate EdgesAdmitted(es: seq<Edge>, n: int, i: int) {
    forall k :: 0 <= k < |es| ==> es[k].a < es[k].b && Admitted(es[k].a, n, i) && Admitted(es[k].b, n, i)
  }

  lemma {:induction false} BadEdgesAdmitted(isBad: TriangleTest, t: seq<int>, n: int, i: int)
    requires |t| % 3 == 0 && Mesh(t, n, i)
    ensures EdgesAdmitted(BadEdges(isBad, t), n, i)
    decreases |t|
  {
    if t != [] {
      ThreeApart(|t|, |t| - 3);
      BadEdgesAdmitted(isBad, t[3..], n, i);
    }
  }

  lemma {:induction false} SurvivorsKeepMesh(isBad: TriangleTest, t: seq<int>, n: int, i: int)
    requires |t| % 3 == 0 && Mesh(t, n, i)
    ensures Mesh(Survivors(isBad, t), n, i)
    decreases |t|
  {
    if t != [] {
      ThreeApart(|t|, |t| - 3);
      SurvivorsKeepMesh(isBad, t[3..], n, i);
      MeshCons(t[0], t[1], t[2], Survivors(isBad, t[3..]), n, i);
    }
  }

  lemma BoundaryEdgesAdmitted(es: seq<Edge>, n: int, i: int)
    requires EdgesAdmitted(es, n, i)
    ensures EdgesAdmitted(BoundaryEdges(es), n, i)
  {
    BoundaryEdgesAreCollected(es);
  }

  /** The fan around a new point i < n is a mesh once i is admitted. */
  lemma {:induction false} FanMesh(es: seq<Edge>, n: int, i: int)
    requires 0 <= i < n && EdgesAdmitted(es, n, i)
    ensures Mesh(Fan(es, i), n, i + 1)
    decreases |es|
  {
    if es != [] {
      FanMesh(es[1..], n, i);
      MeshCons(es[0].a, es[0].b, i, Fan(es[1..], i), n, i + 1);
    }
  }

  lemma {:induction false} MeshConcat(s: seq<int>, t: seq<int>, n: int, i: int)
    requires Mesh(s, n, i) && Mesh(t, n, i)
    ensures Mesh(s + t, n, i)
    decreases |s|
  {
    if s == [] {
      assert s + t == t;
    } else {
      MeshConcat(s[3..], t, n, i);
      assert s + t == [s[0], s[1], s[2]] + (s[3..] + t);
      MeshCons(s[0], s[1], s[2], s[3..] + t, n, i);
    }
  }

  lemma {:induction false} MeshGrows(t: seq<int>, n: int, i: int)
    requires Mesh(t, n, i)
    ensures Mesh(t, n, i + 1)
    decreases |t|
  {
    if t != [] {
      MeshGrows(t[3..], n, i);
    }
  }

  /** An insertion step keeps the mesh shape and admits point i. */
  lemma InsertStepKeepsMesh(isBad: TriangleTest, n: int, t: seq<int>, i: int)
    requires 0 <= i < n && |t| % 3 == 0 && Mesh(t, n, i)
    ensures Mesh(InsertStep(isBad, t, i), n, i + 1)
  {
    var bad := BadEdges(isBad, t);
    BadEdgesAdmitted(isBad, t, n, i);
    BoundaryEdgesAdmitted(bad, n, i);
    FanMesh(BoundaryEdges(bad), n, i);
    SurvivorsKeepMesh(isBad, t, n, i);
    MeshGrows(Survivors(isBad, t), n, i);
    MeshConcat(Survivors(isBad, t), Fan(BoundaryEdges(bad), i), n, i + 1);
  }

  /** The scaffold triangle alone is a mesh before any point is inserted. */
  lemma InitialMesh(n: int)
    ensures Mesh([n, n + 1, n + 2], n, 0)
  {
    MeshCons(n, n + 1, n + 2, [], n, 0);
    assert [n, n + 1, n + 2] + [] == [n, n + 1, n + 2];
  }

  /**
   * The outer loop from point i on: insert points i, i + 1, ..., n - 1 in
   * turn into the working list t.
   */
  function Insertions(tests: InsertionTests, n: int, t: seq<int>, i: int): (r: seq<int>)
    requires 0 <= i <= n && |t| % 3 == 0
    ensures |r| % 3 == 0
    decreases n - i
  {
    if i == n then t else Insertions(tests, n, InsertStep(tests(i), t, i), i + 1)
  }

  /** Inserting the remaining points keeps the mesh shape, admitting all n points. */
  lemma {:induction false} InsertionsKeepMesh(tests: InsertionTests, n: int, t: seq<int>, i: int)
    requires 0 <= i <= n && |t| % 3 == 0 && Mesh(t, n, i)
    ensures Mesh(Insertions(tests, n, t, i), n, n)
    decreases n - i
  {
    if i < n {
      InsertStepKeepsMesh(tests(i), n, t, i);
      InsertionsKeepMesh(tests, n, InsertStep(tests(i), t, i), i + 1);
    }
  }

  /** The final filter: keep the triangles with no scaffold vertex. */
  function WithoutScaffold(t: seq<int>, n: int): (r: seq<int>)
    requires |t| % 3 == 0
    ensures |r| % 3 == 0 && |r| <= |t|
    decreases |t|
  {
    if t == [] then []
    else
      ThreeApart(|t|, |t| - 3);
      var rest := WithoutScaffold(t[3..], n);
      ThreeApart(|rest| + 3, |rest|);
      if t[0] < n && t[1] < n && t[2] < n then [t[0], t[1], t[2]] + rest else rest
  }

  /** What the filter keeps mentions original points only, in distinct triples. */
  lemma {:induction false} WithoutScaffoldShape(t: seq<int>, n: int)
    requires |t| % 3 == 0 && Mesh(t, n, n)
    ensures DistinctTriples(WithoutScaffold(t, n)) && InBounds(WithoutScaffold(t, n), n)
    decreases |t|
  {
    if t != [] {
      ThreeApart(|t|, |t| - 3);
      WithoutScaffoldShape(t[3..], n);
      ConsTriple(t[0], t[1], t[2], WithoutScaffold(t[3..], n));
    }
  }

  function ProjectAll(ps: seq<Point3>): (qs: seq<Point2>)
    ensures |qs| == |ps| && forall k :: 0 <= k < |ps| ==> qs[k] == Project(ps[k])
  {
    seq(|ps|, k requires 0 <= k < |ps| => Project(ps[k]))
  }

  /**
   * The triangulation the source returns: fewer than three points give
   * nothing; otherwise every point is inserted in order into the scaffold
   * and the triangles touching the scaffold are dropped.
   */
  function Triangulation(points: seq<Point3>): (r: seq<int>)
    ensures |points| < 3 ==> r == []
    ensures |r| % 3 == 0 && DistinctTriples(r) && InBounds(r, |points|)
  {
    var n := |points|;
    if n < 3 then []
    else
      var P := ProjectAll(points) + SuperTriangle(ProjectAll(points));
      var t := Insertions(InCircleTests(P), n, [n, n + 1, n + 2], 0);
      InitialMesh(n);
      InsertionsKeepMesh(InCircleTests(P), n, [n, n + 1, n + 2], 0);
      WithoutScaffoldShape(t, n);
      WithoutScaffold(t, n)
  }

  /** The test for point i of P is the in-circle test against P[i]. */
  lemma InsertionTestAt(P: seq<Point2>, i: int)
    requires 0 <= i < |P|
    ensures InCircleTests(P)(i) == BadFor(P, P[i])
  {
  }

  /** One step of Insertions. */
  lemma InsertionsUnfold(tests: InsertionTests, n: int, t: seq<int>, i: int)
    requires 0 <= i < n && |t| % 3 == 0
    ensures Insertions(tests, n, t, i) == Insertions(tests, n, InsertStep(tests(i), t, i), i + 1)
  {
  }

  // ---------------------------------------------------------------------
  // The imperative steps
  // ---------------------------------------------------------------------

  /**
   * bad lists exactly the positions of the bad triangles that end at or
   * before limit, in increasing order.
   */
  predicate BadPositionsBelow(isBad: TriangleTest, t: seq<int>, bad: seq<int>, limit: int)
    requires limit <= |t|
  {
    && (forall k :: 0 <= k < |bad| ==> 0 <= bad[k] && bad[k] % 3 == 0 && bad[k] + 3 <= limit && BadAt(isBad, t, bad[k]))
    && (forall k, l :: 0 <= k < l < |bad| ==> bad[k] < bad[l])
    && (forall j :: 0 <= j && j % 3 == 0 && j + 3 <= limit && BadAt(isBad, t, j) ==> j in bad)
  }

  /** The first loop: collect the bad triangles' positions and their edges. */
  method FindBadTriangles(isBad: TriangleTest, t: seq<int>) returns (bad: seq<int>, edges: seq<Edge>)
    requires |t| % 3 == 0
    ensures BadPositionsBelow(isBad, t, bad, |t|)
    ensures edges == BadEdges(isBad, t)
  {
    bad, edges := [], [];
    var j := 0;
    while j < |t|
      invariant 0 <= j <= |t| && j % 3 == 0
      invariant BadPositionsBelow(isBad, t, bad, j)
      invariant edges + BadEdges(isBad, t[j..]) == BadEdges(isBad, t)
    {
      BadEdgesUnfold(isBad, t, j);
      BadPositionsExtend(isBad, t, bad, j);
      ThreeApart(j + 3, j);
      var idx1, idx2, idx3 := t[j], t[j + 1], t[j + 2];
      ghost var rest := BadEdges(isBad, t[j + 3..]);
      if isBad(idx1, idx2, idx3) {
        assert BadAt(isBad, t, j);
        var e3 := [MakeEdge(idx1, idx2), MakeEdge(idx2, idx3), MakeEdge(idx3, idx1)];
        assert BadEdges(isBad, t[j..]) == e3 + rest;
        assert edges + (e3 + rest) == (edges + e3) + rest;
        bad := bad + [j];
        edges := edges + e3;
      } else {
        assert !BadAt(isBad, t, j);
        assert BadEdges(isBad, t[j..]) == [] + rest == rest;
      }
      j := j + 3;
    }
    assert t[|t|..] == [];
    assert edges + [] == edges;
  }

  /** BadEdges of the suffix at j, one triangle unfolded. */
  lemma BadEdgesUnfold(isBad: TriangleTest, t: seq<int>, j: int)
    requires |t| % 3 == 0 && 0 <= j && j % 3 == 0 && j + 3 <= |t|
    ensures |t[j..]| % 3 == 0 && |t[j + 3..]| % 3 == 0
    ensures BadEdges(isBad, t[j..]) ==
            (if BadAt(isBad, t, j) then [MakeEdge(t[j], t[j + 1]), MakeEdge(t[j + 1], t[j + 2]), MakeEdge(t[j + 2], t[j])] else [])
            + BadEdges(isBad, t[j + 3..])
  {
    RestIsTriples(t, j);
    ThreeApart(|t[j..]|, |t[j + 3..]|);
    assert t[j..][3..] == t[j + 3..];
  }

  /** Scanning the triangle at j extends the list of bad positions. */
  lemma BadPositionsExtend(isBad: TriangleTest, t: seq<int>, bad: seq<int>, j: int)
    requires 0 <= j && j % 3 == 0 && j + 3 <= |t|
    requires BadPositionsBelow(isBad, t, bad, j)
    ensures BadAt(isBad, t, j) ==> BadPositionsBelow(isBad, t, bad + [j], j + 3)
    ensures !BadAt(isBad, t, j) ==> BadPositionsBelow(isBad, t, bad, j + 3)
  {
    var bad' := if BadAt(isBad, t, j) then bad + [j] else bad;
    forall j' | 0 <= j' && j' % 3 == 0 && j' + 3 <= j + 3 && BadAt(isBad, t, j')
      ensures j' in bad'
    {
      if j' != j {
        ThreeApart(j + 3, j);
        assert j' in bad;
      }
    }
  }

  /** Where the untouched prefix ends once bad[k..] have been removed. */
  function Cut(t: seq<int>, bad: seq<int>, k: int): int
    requires 0 <= k <= |bad|
  {
    if k < |bad| then bad[k] else |t|
  }

  /** A run of good triangles survives unchanged. */
  lemma {:induction false} SurvivorsOfGoodRun(isBad: TriangleTest, t: seq<int>, lo: int, hi: int)
    requires |t| % 3 == 0
    requires 0 <= lo <= hi <= |t| && lo % 3 == 0 && hi % 3 == 0
    requires forall j :: lo <= j && j % 3 == 0 && j + 3 <= hi ==> !BadAt(isBad, t, j)
    ensures |t[lo..]| % 3 == 0 && |t[hi..]| % 3 == 0
    ensures Survivors(isBad, t[lo..]) == t[lo..hi] + Survivors(isBad, t[hi..])
    decreases hi - lo
  {
    RestIsTriples(t, lo);
    RestIsTriples(t, hi);
    if lo < hi {
      ThreeApart(lo + 3, lo);
      SurvivorsUnfold(isBad, t, lo);
      assert !BadAt(isBad, t, lo);
      SurvivorsOfGoodRun(isBad, t, lo + 3, hi);
      var head, run, rest := [t[lo], t[lo + 1], t[lo + 2]], t[lo + 3..hi], Survivors(isBad, t[hi..]);
      assert Survivors(isBad, t[lo..]) == head + (run + rest);
      assert head + (run + rest) == (head + run) + rest;
      assert head + run == t[lo..hi];
    } else {
      assert t[lo..hi] == [];
    }
  }

  /** Survivors of the suffix at j, one triangle unfolded. */
  lemma SurvivorsUnfold(isBad: TriangleTest, t: seq<int>, j: int)
    requires |t| % 3 == 0 && 0 <= j && j % 3 == 0 && j + 3 <= |t|
    ensures |t[j..]| % 3 == 0 && |t[j + 3..]| % 3 == 0
    ensures Survivors(isBad, t[j..]) ==
            (if BadAt(isBad, t, j) then [] else [t[j], t[j + 1], t[j + 2]]) + Survivors(isBad, t[j + 3..])
  {
    RestIsTriples(t, j);
    ThreeApart(|t[j..]|, |t[j + 3..]|);
    assert t[j..][3..] == t[j + 3..];
  }

  /** A suffix starting at a multiple of 3 is a list of triples. */
  lemma RestIsTriples(t: seq<int>, j: int)
    requires |t| % 3 == 0 && 0 <= j <= |t| && j % 3 == 0
    ensures |t[j..]| % 3 == 0
  {
  }

  /** The second loop: RemoveRange(bad[k], 3) for k from the back. */
  method RemoveBadTriangles(ghost isBad: TriangleTest, t: seq<int>, bad: seq<int>) returns (s: seq<int>)
    requires |t| % 3 == 0
    requires BadPositionsBelow(isBad, t, bad, |t|)
    ensures s == Survivors(isBad, t)
  {
    s := t;
    var k := |bad|;
    ghost var c := |t|;
    assert t[..|t|] == t && t[|t|..] == [];
    while k > 0
      invariant 0 <= k <= |bad| && c == Cut(t, bad, k)
      invariant c % 3 == 0 && 0 <= c <= |t| && |t[c..]| % 3 == 0
      invariant s == t[..c] + Survivors(isBad, t[c..])
    {
      k := k - 1;
      var b := bad[k];
      RemoveOne(isBad, t, bad, k, c);
      s := s[..b] + s[b + 3..];
      c := b;
    }
    NoBadBeforeFirst(isBad, t, bad);
  }

  /** The prefix before the first bad position is a run of good triangles. */
  lemma NoBadBeforeFirst(isBad: TriangleTest, t: seq<int>, bad: seq<int>)
    requires |t| % 3 == 0
    requires BadPositionsBelow(isBad, t, bad, |t|)
    ensures Cut(t, bad, 0) % 3 == 0 && 0 <= Cut(t, bad, 0) <= |t|
    ensures |t[Cut(t, bad, 0)..]| % 3 == 0
    ensures t[..Cut(t, bad, 0)] + Survivors(isBad, t[Cut(t, bad, 0)..]) == Survivors(isBad, t)
  {
    var c := Cut(t, bad, 0);
    forall j | 0 <= j && j % 3 == 0 && j + 3 <= c
      ensures !BadAt(isBad, t, j)
    {
      forall l | 0 <= l < |bad|
        ensures bad[l] != j
      {
        if 0 < l {
          assert bad[0] < bad[l];
        }
      }
    }
    SurvivorsOfGoodRun(isBad, t, 0, c);
    assert t[0..] == t && t[0..c] == t[..c];
  }

  /** The triangles strictly between bad[k] and the cut c are good. */
  lemma GapIsGood(isBad: TriangleTest, t: seq<int>, bad: seq<int>, k: int, c: int)
    requires |t| % 3 == 0
    requires BadPositionsBelow(isBad, t, bad, |t|)
    requires 0 <= k < |bad| && c == Cut(t, bad, k + 1)
    requires c % 3 == 0 && 0 <= c <= |t|
    ensures bad[k] + 3 <= c
    ensures forall j :: bad[k] + 3 <= j && j % 3 == 0 && j + 3 <= c ==> !BadAt(isBad, t, j)
  {
    var b := bad[k];
    if k + 1 < |bad| {
      assert b < bad[k + 1];
      ThreeApart(b + 3, b);
    }
    forall j | b + 3 <= j && j % 3 == 0 && j + 3 <= c
      ensures !BadAt(isBad, t, j)
    {
      forall l | 0 <= l < |bad|
        ensures bad[l] != j
      {
        if l < k {
          assert bad[l] < b;
        } else if k + 1 < l {
          assert bad[k + 1] < bad[l];
        }
      }
    }
  }

  /** Sequence algebra for one RemoveRange(b, 3) inside the untouched prefix. */
  lemma CutAlgebra(t: seq<int>, b: int, c: int, x: seq<int>, y: seq<int>)
    requires 0 <= b && b + 3 <= c <= |t|
    requires x == t[b + 3..c] + y
    ensures (t[..c] + y)[..b] + (t[..c] + y)[b + 3..] == t[..b] + x
  {
    var s := t[..c] + y;
    assert s[..b] == t[..b];
    assert s[b + 3..] == t[b + 3..c] + y;
  }

  /** Removing the triple at bad[k] moves the cut from c back to bad[k]. */
  lemma RemoveOne(isBad: TriangleTest, t: seq<int>, bad: seq<int>, k: int, c: int)
    requires |t| % 3 == 0
    requires BadPositionsBelow(isBad, t, bad, |t|)
    requires 0 <= k < |bad| && c == Cut(t, bad, k + 1)
    requires c % 3 == 0 && 0 <= c <= |t|
    ensures bad[k] + 3 <= c
    ensures |t[bad[k]..]| % 3 == 0 && |t[c..]| % 3 == 0
    ensures var s := t[..c] + Survivors(isBad, t[c..]);
            s[..bad[k]] + s[bad[k] + 3..] == t[..bad[k]] + Survivors(isBad, t[bad[k]..])
  {
    var b := bad[k];
    GapIsGood(isBad, t, bad, k, c);
    ThreeApart(b + 3, b);
    SurvivorsOfGoodRun(isBad, t, b + 3, c);
    RestIsTriples(t, b);
    assert t[b..][3..] == t[b + 3..];
    assert BadAt(isBad, t[b..], 0);
    CutAlgebra(t, b, c, Survivors(isBad, t[b..]), Survivors(isBad, t[c..]));
  }

  /** The third loop: append (edge.A, edge.B, i) for every boundary edge. */
  method AddFan(s: seq<int>, boundary: seq<Edge>, i: int) returns (t: seq<int>)
    ensures t == s + Fan(boundary, i)
  {
    t := s;
    for m := 0 to |boundary|
      invariant t + Fan(boundary[m..], i) == s + Fan(boundary, i)
    {
      assert boundary[m..][1..] == boundary[m + 1..];
      var edge := boundary[m];
      assert Fan(boundary[m..], i) == [edge.a, edge.b, i] + Fan(boundary[m + 1..], i);
      assert t + ([edge.a, edge.b, i] + Fan(boundary[m + 1..], i)) == (t + [edge.a, edge.b, i]) + Fan(boundary[m + 1..], i);
      t := t + [edge.a, edge.b, i];
    }
    assert boundary[|boundary|..] == [];
    assert t + [] == t;
  }

  /** One iteration of the outer loop of DelaunayTriangulation. */
  method InsertPoint(P: seq<Point2>, triangles: seq<int>, i: int) returns (next: seq<int>)
    requires 0 <= i < |P| && |triangles| % 3 == 0
    ensures next == InsertStep(BadFor(P, P[i]), triangles, i)
  {
    var currentPoint := P[i];
    var badTriangles, polygonEdges := FindBadTriangles(BadFor(P, currentPoint), triangles);
    var survivors := RemoveBadTriangles(BadFor(P, currentPoint), triangles, badTriangles);
    var boundaryEdges := BoundaryEdges(polygonEdges);
    next := AddFan(survivors, boundaryEdges, i);
  }

  /** The final loop: copy the triangles whose three indices are real points. */
  method RemoveScaffoldTriangles(triangles: seq<int>, n: int) returns (finalTriangles: seq<int>)
    requires |triangles| % 3 == 0
    ensures finalTriangles == WithoutScaffold(triangles, n)
  {
    finalTriangles := [];
    var i := 0;
    while i < |triangles|
      invariant 0 <= i <= |triangles| && i % 3 == 0
      invariant finalTriangles + WithoutScaffold(triangles[i..], n) == WithoutScaffold(triangles, n)
    {
      assert triangles[i..][3..] == triangles[i + 3..];
      var v1, v2, v3 := triangles[i], triangles[i + 1], triangles[i + 2];
      ghost var rest := WithoutScaffold(triangles[i + 3..], n);
      if v1 < n && v2 < n && v3 < n {
        assert WithoutScaffold(triangles[i..], n) == [v1, v2, v3] + rest;
        assert finalTriangles + ([v1, v2, v3] + rest) == (finalTriangles + [v1, v2, v3]) + rest;
        finalTriangles := finalTriangles + [v1, v2, v3];
      } else {
        assert WithoutScaffold(triangles[i..], n) == rest;
      }
      i := i + 3;
    }
    assert triangles[|triangles|..] == [];
    assert finalTriangles + [] == finalTriangles;
  }

  /** The outer loop: start from the scaffold triangle and insert points 0 .. n - 1. */
  method InsertAll(P: seq<Point2>, n: int) returns (triangles: seq<int>)
    requires 0 <= n <= |P|
    ensures triangles == Insertions(InCircleTests(P), n, [n, n + 1, n + 2], 0)
  {
    triangles := [n, n + 1, n + 2];
    ghost var tests := InCircleTests(P);
    for i := 0 to n
      invariant |triangles| % 3 == 0
      invariant Insertions(tests, n, triangles, i) == Insertions(tests, n, [n, n + 1, n + 2], 0)
    {
      InsertionTestAt(P, i);
      InsertionsUnfold(tests, n, triangles, i);
      triangles := InsertPoint(P, triangles, i);
    }
  }

  /**
   * DelaunayTriangulation: a list of index triples over the input points,
   * empty for fewer than three points, never mentioning a scaffold vertex.
   */
  method DelaunayTriangulation(points3d: seq<Point3>) returns (result: seq<int>)
    ensures result == Triangulation(points3d)
    ensures |points3d| < 3 ==> result == []
    ensures |result| % 3 == 0 && DistinctTriples(result) && InBounds(result, |points3d|)
  {
    var points2d := ProjectAll(points3d);
    var originalPointCount := |points2d|;
    if originalPointCount < 3 {
      return [];
    }
    var superTriangleVertices := CreateSuperTriangle(points2d);
    points2d := points2d + superTriangleVertices;
    var triangles := InsertAll(points2d, originalPointCount);
    result := RemoveScaffoldTriangles(triangles, originalPointCount);
  }
}
