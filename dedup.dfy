/**
 * The terrain pipeline's XY de-duplication (TopoBuilder/TerrainGenerator.cs,
 * CollectValidTextPoints3dIterative and Point2dComparer): the raw points are
 * grouped by their planar position with a 1 mm tolerance comparer, and each
 * group is replaced by its point of greatest elevation.
 *
 * The comparer's hash code is the grid cell (Math.Round of the coordinates
 * divided by the tolerance); the XOR mixing of the two cell coordinates is
 * not modelled, so equal hash codes mean equal cells.
 */
module PointDedup {
  import opened Geometry
  import opened Wrappers

  /** The smallest tolerance the comparer accepts (1e-9). */
  const MinTolerance: real := 0.000000001

  /** The XY tolerance the terrain pipeline groups with (1 mm). */
  const DedupTolerance: real := 0.001

  /** Math.Round, with midpoints rounded up. */
  function Round(v: real): int {
    (v + 0.5).Floor
  }

  lemma RoundBounds(v: real)
    ensures Round(v) as real - 0.5 <= v < Round(v) as real + 0.5
  {
  }

  /** Rounding an integer gives it back. */
  lemma RoundInteger(k: int)
    ensures Round(k as real) == k
  {
  }

  /** The comparer's tolerance: never below MinTolerance. */
  function EffectiveTolerance(tol: real): (t: real)
    ensures t >= MinTolerance && t >= tol
    ensures tol >= MinTolerance ==> t == tol
  {
    Max(tol, MinTolerance)
  }

  /** Point2dComparer.Equals: both coordinates differ by less than the tolerance. */
  predicate Close(tol: real, a: Point2, b: Point2) {
    var t := EffectiveTolerance(tol);
    Abs(a.x - b.x) < t && Abs(a.y - b.y) < t
  }

  datatype Cell = Cell(i: int, j: int)

  /** A coordinate times the comparer's inverse tolerance. */
  function Scaled(tol: real, v: real): real {
    v * (1.0 / EffectiveTolerance(tol))
  }

  /** Point2dComparer.GetHashCode before mixing: the rounded scaled coordinates. */
  function CellOf(tol: real, p: Point2): Cell {
    Cell(Round(Scaled(tol, p.x)), Round(Scaled(tol, p.y)))
  }

  /**
   * How GroupBy matches a new key against the key of an existing group:
   * equal hash codes, then Equals.
   */
  predicate Joins(tol: real, groupKey: Point2, key: Point2) {
    CellOf(tol, groupKey) == CellOf(tol, key) && Close(tol, groupKey, key)
  }

  /** Equals is symmetric. */
  lemma CloseIsSymmetric(tol: real, a: Point2, b: Point2)
    ensures Close(tol, a, b) <==> Close(tol, b, a)
  {
  }

  /** Equals is reflexive for every tolerance, thanks to the lower bound. */
  lemma CloseIsReflexive(tol: real, a: Point2)
    ensures Close(tol, a, a)
  {
  }

  /** Two values in the same rounding cell are less than the tolerance apart. */
  lemma SameRoundIsClose(tol: real, a: real, b: real)
    requires Round(Scaled(tol, a)) == Round(Scaled(tol, b))
    ensures Abs(a - b) < EffectiveTolerance(tol)
  {
    var t := EffectiveTolerance(tol);
    assert t > 0.0;
    var inv := 1.0 / t;
    var u, w := a * inv, b * inv;
    assert Scaled(tol, a) == u && Scaled(tol, b) == w;
    RoundBounds(u);
    RoundBounds(w);
    assert -1.0 < u - w < 1.0;
    assert inv * t == 1.0;
    assert a - b == (u - w) * t;
    if u - w >= 0.0 {
      FractionOf(u - w, t);
    } else {
      assert b - a == (w - u) * t;
      FractionOf(w - u, t);
    }
  }

  lemma FractionOf(x: real, t: real)
    requires 0.0 <= x < 1.0 && t > 0.0
    ensures x * t < t
  {
  }

  /** Points of one cell are always Equal. */
  lemma SameCellIsClose(tol: real, a: Point2, b: Point2)
    requires CellOf(tol, a) == CellOf(tol, b)
    ensures Close(tol, a, b)
  {
    SameRoundIsClose(tol, a.x, b.x);
    SameRoundIsClose(tol, a.y, b.y);
  }

  /** So GroupBy puts two keys together exactly when they share a cell. */
  lemma JoinsIsSameCell(tol: real, a: Point2, b: Point2)
    ensures Joins(tol, a, b) <==> CellOf(tol, a) == CellOf(tol, b)
  {
    if CellOf(tol, a) == CellOf(tol, b) {
      SameCellIsClose(tol, a, b);
    }
  }

  /**
   * The known limitation of hash-based grouping: two points closer than the
   * tolerance but on either side of a cell boundary stay in separate groups.
   */
  lemma CloseButInAdjacentCells()
    ensures var a, b := Point2(0.0004, 0.0), Point2(0.0006, 0.0);
            Close(DedupTolerance, a, b) && !Joins(DedupTolerance, a, b)
  {
    var a, b := Point2(0.0004, 0.0), Point2(0.0006, 0.0);
    assert 1.0 / EffectiveTolerance(DedupTolerance) == 1000.0;
    assert Scaled(DedupTolerance, 0.0004) == 0.4 && Round(0.4) == 0;
    assert Scaled(DedupTolerance, 0.0006) == 0.6 && Round(0.6) == 1;
  }

  // ---------------------------------------------------------------------
  // GroupBy
  // ---------------------------------------------------------------------

  /** A LINQ grouping: the key of its first element and its elements in order. */
  datatype Group = Group(key: Point2, members: seq<Point3>)

  /** The first group whose key the new key joins, if any. */
  function FindGroup(tol: real, gs: seq<Group>, key: Point2): (r: Option<nat>)
    ensures r.Some? ==> r.value < |gs| && Joins(tol, gs[r.value].key, key)
    ensures r.None? ==> forall k :: 0 <= k < |gs| ==> !Joins(tol, gs[k].key, key)
    decreases |gs|
  {
    if gs == [] then None
    else if Joins(tol, gs[0].key, key) then Some(0)
    else match FindGroup(tol, gs[1..], key)
      case None => None
      case Some(k) => Some(k + 1)
  }

  /** One element of the GroupBy pass: join its group, or open a new one. */
  function AddToGroups(tol: real, gs: seq<Group>, p: Point3): seq<Group> {
    match FindGroup(tol, gs, Project(p))
    case Some(k) => gs[k := Group(gs[k].key, gs[k].members + [p])]
    case None => gs + [Group(Project(p), [p])]
  }

  /** rawPoints.GroupBy(p => new Point2d(p.X, p.Y), comparer): groups in order of first appearance. */
  function GroupBy(tol: real, ps: seq<Point3>): (gs: seq<Group>)
    ensures |gs| <= |ps|
    ensures forall k :: 0 <= k < |gs| ==> |gs[k].members| > 0
    decreases |ps|
  {
    if ps == [] then []
    else AddToGroups(tol, GroupBy(tol, ps[..|ps| - 1]), ps[|ps| - 1])
  }

  /** The points of ps in cell c, in order. */
  function InCell(tol: real, ps: seq<Point3>, c: Cell): seq<Point3>
    decreases |ps|
  {
    if ps == [] then []
    else
      var last := ps[|ps| - 1];
      InCell(tol, ps[..|ps| - 1], c) + (if CellOf(tol, Project(last)) == c then [last] else [])
  }

  /**
   * What GroupBy builds: one group per occupied cell, keyed by the first
   * point of the cell and holding exactly the points of that cell in order.
   */
  predicate GroupsOf(tol: real, ps: seq<Point3>, gs: seq<Group>) {
    GroupsHoldCells(tol, ps, gs) && CellsDistinct(tol, gs) && CellsCovered(tol, ps, gs)
  }

  /** Group k holds the points of its key's cell, the key being the first one's. */
  predicate GroupsHoldCells(tol: real, ps: seq<Point3>, gs: seq<Group>) {
    forall k :: 0 <= k < |gs| ==>
      && gs[k].members == InCell(tol, ps, CellOf(tol, gs[k].key))
      && |gs[k].members| > 0 && gs[k].key == Project(gs[k].members[0])
  }

  /** No two groups share a cell. */
  predicate CellsDistinct(tol: real, gs: seq<Group>) {
    forall k, l :: 0 <= k < l < |gs| ==> CellOf(tol, gs[k].key) != CellOf(tol, gs[l].key)
  }

  /** Every point's cell has a group. */
  predicate CellsCovered(tol: real, ps: seq<Point3>, gs: seq<Group>) {
    forall m :: 0 <= m < |ps| ==> HasGroup(tol, gs, CellOf(tol, Project(ps[m])))
  }

  predicate HasGroup(tol: real, gs: seq<Group>, c: Cell) {
    exists k :: 0 <= k < |gs| && CellOf(tol, gs[k].key) == c
  }

  lemma {:induction false} GroupByGroupsByCell(tol: real, ps: seq<Point3>)
    ensures GroupsOf(tol, ps, GroupBy(tol, ps))
    decreases |ps|
  {
    if ps != [] {
      var front, p := ps[..|ps| - 1], ps[|ps| - 1];
      assert ps == front + [p];
      GroupByGroupsByCell(tol, front);
      var gs := GroupBy(tol, front);
      match FindGroup(tol, gs, Project(p))
      case Some(g) => JoinGroup(tol, front, gs, p, g);
      case None => OpenGroup(tol, front, gs, p);
    }
  }

  /** A point outside cell c does not change the points of c. */
  lemma InCellSnoc(tol: real, ps: seq<Point3>, p: Point3, c: Cell)
    ensures InCell(tol, ps + [p], c) == InCell(tol, ps, c) + (if CellOf(tol, Project(p)) == c then [p] else [])
  {
    assert (ps + [p])[..|ps + [p]| - 1] == ps;
  }

  /** A cell without a group holds no point. */
  lemma {:induction false} EmptyCell(tol: real, ps: seq<Point3>, c: Cell)
    requires forall m :: 0 <= m < |ps| ==> CellOf(tol, Project(ps[m])) != c
    ensures InCell(tol, ps, c) == []
    decreases |ps|
  {
    if ps != [] {
      EmptyCell(tol, ps[..|ps| - 1], c);
    }
  }

  /** The new point joins group g: only that group grows. */
  lemma JoinGroup(tol: real, ps: seq<Point3>, gs: seq<Group>, p: Point3, g: nat)
    requires GroupsOf(tol, ps, gs)
    requires g < |gs| && Joins(tol, gs[g].key, Project(p))
    ensures GroupsOf(tol, ps + [p], gs[g := Group(gs[g].key, gs[g].members + [p])])
  {
    var c := CellOf(tol, Project(p));
    var gs' := gs[g := Group(gs[g].key, gs[g].members + [p])];
    var ps' := ps + [p];
    JoinsIsSameCell(tol, gs[g].key, Project(p));
    forall k | 0 <= k < |gs'|
      ensures gs'[k].members == InCell(tol, ps', CellOf(tol, gs'[k].key))
      ensures |gs'[k].members| > 0 && gs'[k].key == Project(gs'[k].members[0])
    {
      InCellSnoc(tol, ps, p, CellOf(tol, gs[k].key));
      if k != g {
        assert CellOf(tol, gs[k].key) != c;
      }
    }
    forall m | 0 <= m < |ps'|
      ensures HasGroup(tol, gs', CellOf(tol, Project(ps'[m])))
    {
      if m < |ps| {
        assert ps'[m] == ps[m];
        assert HasGroup(tol, gs, CellOf(tol, Project(ps[m])));
        var k :| 0 <= k < |gs| && CellOf(tol, gs[k].key) == CellOf(tol, Project(ps[m]));
        assert gs'[k].key == gs[k].key;
      } else {
        assert gs'[g].key == gs[g].key;
      }
    }
  }

  /** The new point opens a group of its own at the end. */
  lemma OpenGroup(tol: real, ps: seq<Point3>, gs: seq<Group>, p: Point3)
    requires GroupsOf(tol, ps, gs)
    requires forall k :: 0 <= k < |gs| ==> !Joins(tol, gs[k].key, Project(p))
    ensures GroupsOf(tol, ps + [p], gs + [Group(Project(p), [p])])
  {
    var c := CellOf(tol, Project(p));
    var gs' := gs + [Group(Project(p), [p])];
    var ps' := ps + [p];
    forall k | 0 <= k < |gs|
      ensures CellOf(tol, gs[k].key) != c
    {
      JoinsIsSameCell(tol, gs[k].key, Project(p));
    }
    forall m | 0 <= m < |ps|
      ensures CellOf(tol, Project(ps[m])) != c
    {
      assert HasGroup(tol, gs, CellOf(tol, Project(ps[m])));
    }
    EmptyCell(tol, ps, c);
    forall k | 0 <= k < |gs'|
      ensures gs'[k].members == InCell(tol, ps', CellOf(tol, gs'[k].key))
      ensures |gs'[k].members| > 0 && gs'[k].key == Project(gs'[k].members[0])
    {
      InCellSnoc(tol, ps, p, CellOf(tol, gs'[k].key));
    }
    forall m | 0 <= m < |ps'|
      ensures HasGroup(tol, gs', CellOf(tol, Project(ps'[m])))
    {
      if m < |ps| {
        assert ps'[m] == ps[m];
        assert HasGroup(tol, gs, CellOf(tol, Project(ps[m])));
        var k :| 0 <= k < |gs| && CellOf(tol, gs[k].key) == CellOf(tol, Project(ps[m]));
        assert gs'[k] == gs[k];
      } else {
        assert gs'[|gs|].key == Project(p);
      }
    }
  }

  // ---------------------------------------------------------------------
  // Keeping the highest point of each group
  // ---------------------------------------------------------------------

  /**
   * g.OrderByDescending(p => p.Z).First(): the sort is stable, so this is the
   * first element of greatest Z.
   */
  function MaxZIndex(s: seq<Point3>): (k: nat)
    requires |s| > 0
    ensures k < |s|
    ensures forall j :: 0 <= j < |s| ==> s[j].z <= s[k].z
    ensures forall j :: 0 <= j < k ==> s[j].z < s[k].z
    decreases |s|
  {
    if |s| == 1 then 0
    else
      var k := MaxZIndex(s[..|s| - 1]);
      assert forall j :: 0 <= j < |s| - 1 ==> s[..|s| - 1][j] == s[j];
      if s[|s| - 1].z > s[k].z then |s| - 1 else k
  }

  /** The de-duplicated points: one per group, in order of first appearance. */
  function Dedup(tol: real, ps: seq<Point3>): (r: seq<Point3>)
    ensures |r| <= |ps|
  {
    var gs := GroupBy(tol, ps);
    seq(|gs|, k requires 0 <= k < |gs| => gs[k].members[MaxZIndex(gs[k].members)])
  }

  /** A point of the input. */
  predicate IsRawPoint(ps: seq<Point3>, q: Point3) {
    exists m :: 0 <= m < |ps| && ps[m] == q
  }

  lemma {:induction false} InCellMembers(tol: real, ps: seq<Point3>, c: Cell, i: int)
    requires 0 <= i < |InCell(tol, ps, c)|
    ensures IsRawPoint(ps, InCell(tol, ps, c)[i]) && CellOf(tol, Project(InCell(tol, ps, c)[i])) == c
    decreases |ps|
  {
    var front := ps[..|ps| - 1];
    if i < |InCell(tol, front, c)| {
      InCellMembers(tol, front, c, i);
      var m :| 0 <= m < |front| && front[m] == InCell(tol, front, c)[i];
      assert ps[m] == front[m];
    } else {
      assert InCell(tol, ps, c)[i] == ps[|ps| - 1];
    }
  }

  /** Every point of ps in cell c is among the points InCell lists. */
  lemma {:induction false} InCellComplete(tol: real, ps: seq<Point3>, c: Cell, m: int)
    requires 0 <= m < |ps| && CellOf(tol, Project(ps[m])) == c
    ensures exists i :: 0 <= i < |InCell(tol, ps, c)| && InCell(tol, ps, c)[i] == ps[m]
    decreases |ps|
  {
    var front := ps[..|ps| - 1];
    if m < |ps| - 1 {
      InCellComplete(tol, front, c, m);
      var i :| 0 <= i < |InCell(tol, front, c)| && InCell(tol, front, c)[i] == front[m];
      assert InCell(tol, ps, c)[i] == InCell(tol, front, c)[i];
    } else {
      assert InCell(tol, ps, c)[|InCell(tol, front, c)|] == ps[m];
    }
  }

  /**
   * Each kept point is a raw point, its cell holds no point of greater Z,
   * and no earlier point of its cell has the same Z.
   */
  lemma DedupKeepsFirstHighest(tol: real, ps: seq<Point3>, k: int)
    requires 0 <= k < |Dedup(tol, ps)|
    ensures var q := Dedup(tol, ps)[k];
            var members := InCell(tol, ps, CellOf(tol, Project(q)));
            && IsRawPoint(ps, q)
            && (forall m :: 0 <= m < |ps| && CellOf(tol, Project(ps[m])) == CellOf(tol, Project(q)) ==> ps[m].z <= q.z)
            && (exists i :: 0 <= i < |members| && members[i] == q && forall j :: 0 <= j < i ==> members[j].z < q.z)
  {
    var gs := GroupBy(tol, ps);
    GroupByGroupsByCell(tol, ps);
    var c := CellOf(tol, gs[k].key);
    var members := gs[k].members;
    var i := MaxZIndex(members);
    var q := members[i];
    assert Dedup(tol, ps)[k] == q;
    InCellMembers(tol, ps, c, i);
    assert CellOf(tol, Project(q)) == c;
    forall m | 0 <= m < |ps| && CellOf(tol, Project(ps[m])) == c
      ensures ps[m].z <= q.z
    {
      InCellComplete(tol, ps, c, m);
    }
  }

  /** Every input point has a kept point in its cell that is at least as high. */
  lemma DedupCoversInput(tol: real, ps: seq<Point3>, m: int)
    requires 0 <= m < |ps|
    ensures exists k :: 0 <= k < |Dedup(tol, ps)| &&
              CellOf(tol, Project(Dedup(tol, ps)[k])) == CellOf(tol, Project(ps[m])) && ps[m].z <= Dedup(tol, ps)[k].z
  {
    var gs := GroupBy(tol, ps);
    GroupByGroupsByCell(tol, ps);
    assert HasGroup(tol, gs, CellOf(tol, Project(ps[m])));
    var k :| 0 <= k < |gs| && CellOf(tol, gs[k].key) == CellOf(tol, Project(ps[m]));
    assert |Dedup(tol, ps)| == |gs|;
    DedupKeepsFirstHighest(tol, ps, k);
    var i := MaxZIndex(gs[k].members);
    InCellMembers(tol, ps, CellOf(tol, gs[k].key), i);
  }

  /** No two kept points share a cell. */
  lemma DedupCellsDistinct(tol: real, ps: seq<Point3>, k: int, l: int)
    requires 0 <= k < l < |Dedup(tol, ps)|
    ensures CellOf(tol, Project(Dedup(tol, ps)[k])) != CellOf(tol, Project(Dedup(tol, ps)[l]))
  {
    var gs := GroupBy(tol, ps);
    GroupByGroupsByCell(tol, ps);
    InCellMembers(tol, ps, CellOf(tol, gs[k].key), MaxZIndex(gs[k].members));
    InCellMembers(tol, ps, CellOf(tol, gs[l].key), MaxZIndex(gs[l].members));
  }
}
