/**
 * The terrain solid (TopoBuilder/TerrainGenerator.cs, CreateSolidFromTriangles):
 * one prism per triangle, extruded from the triangle's footprint at Z = 0 and
 * cut by the plane through its three 3D vertices, then all prisms united.
 *
 * The geometric rules the method applies before and after each call into
 * the solid kernel are modelled exactly: the index check, the degenerate
 * normal check, the footprint area limit, the extrusion height, the
 * direction of the cutting plane's normal and the Z-extent acceptance test.
 * What the kernel itself does (region creation, extrusion, slicing, volume
 * checks, boolean union) enters as a KernelReport per triangle.
 */
module Prisms {
  import opened Wrappers
  import opened Geometry
  import Delaunay

  datatype Vec3 = Vec3(x: real, y: real, z: real)

  /** Footprints smaller than this are not extruded (1e-7). */
  const MinRegionArea: real := 0.0000001

  /** Height of the prism above the highest vertex of its triangle (0.5). */
  const HeightBuffer: real := 0.5

  /** The smallest extrusion height the method allows (0.1). */
  const MinHeight: real := 0.1

  /** How far the extruded prism's base may lie from Z = 0 (0.001). */
  const BaseTolerance: real := 0.001

  /** Slack of the Z-extent test after slicing (0.01). */
  const SliceTolerance: real := 0.01

  function Sub(p: Point3, q: Point3): Vec3 {
    Vec3(p.x - q.x, p.y - q.y, p.z - q.z)
  }

  function Cross(a: Vec3, b: Vec3): Vec3 {
    Vec3(a.y * b.z - a.z * b.y, a.z * b.x - a.x * b.z, a.x * b.y - a.y * b.x)
  }

  function Negate(v: Vec3): Vec3 {
    Vec3(-v.x, -v.y, -v.z)
  }

  function LengthSq(v: Vec3): real {
    v.x * v.x + v.y * v.y + v.z * v.z
  }

  /** The normal (p2 - p1) x (p3 - p1) of the triangle's plane. */
  function Normal(p1: Point3, p2: Point3, p3: Point3): Vec3 {
    Cross(Sub(p2, p1), Sub(p3, p1))
  }

  /**
   * Length < 1e-9. Both sides are non-negative, so comparing the squared
   * length with 1e-18 is the same test without a square root.
   */
  predicate IsDegenerate(n: Vec3) {
    LengthSq(n) < Epsilon * Epsilon
  }

  /** The area of the triangle's footprint in the XY plane. */
  function FootprintArea(p1: Point3, p2: Point3, p3: Point3): real {
    Abs(Orientation(Project(p1), Project(p2), Project(p3))) / 2.0
  }

  /** The Z component of the normal is the orientation of the footprint. */
  lemma NormalZIsOrientation(p1: Point3, p2: Point3, p3: Point3)
    ensures Normal(p1, p2, p3).z == Orientation(Project(p1), Project(p2), Project(p3))
    ensures FootprintArea(p1, p2, p3) == Abs(Normal(p1, p2, p3).z) / 2.0
  {
  }

  function Max3(a: real, b: real, c: real): real {
    Max(a, Max(b, c))
  }

  function Min3(a: real, b: real, c: real): real {
    Min(a, Min(b, c))
  }

  /**
   * The extrusion height: the highest vertex, or 0 when every vertex is
   * below 0, plus the buffer, and never below MinHeight.
   */
  function ExtrusionHeight(maxZ: real): (h: real)
    ensures h == Max(maxZ, 0.0) + HeightBuffer
    ensures h >= HeightBuffer && h - maxZ >= HeightBuffer
  {
    var h := (if maxZ >= 0.0 then maxZ else 0.0) + HeightBuffer;
    if h < MinHeight then MinHeight else h
  }

  /**
   * The cutting plane's normal points down, so that the part kept by the
   * slice is the one below the triangle: the triangle normal, negated when
   * its Z component is not negative.
   */
  function SliceNormal(n: Vec3): (s: Vec3)
    ensures s == n || s == Negate(n)
    ensures s.z <= 0.0
    ensures LengthSq(s) == LengthSq(n)
  {
    if n.z >= 0.0 then Negate(n) else n
  }

  /** A normal that passed the degenerate check never gives a zero slice normal. */
  lemma SliceNormalIsNonZero(n: Vec3)
    requires !IsDegenerate(n)
    ensures SliceNormal(n) != Vec3(0.0, 0.0, 0.0)
  {
    assert LengthSq(SliceNormal(n)) >= Epsilon * Epsilon > 0.0;
    assert LengthSq(Vec3(0.0, 0.0, 0.0)) == 0.0;
  }

  /**
   * After slicing, the solid must rest on Z = 0 and its top must lie
   * between the lowest and the highest vertex, both within SliceTolerance.
   */
  predicate ZExtentsAccepted(minZ: real, maxZ: real, p1: Point3, p2: Point3, p3: Point3) {
    && Abs(minZ) <= SliceTolerance
    && maxZ <= Max3(p1.z, p2.z, p3.z) + SliceTolerance
    && maxZ >= Min3(p1.z, p2.z, p3.z) - SliceTolerance
  }

  /**
   * What the solid kernel did with one triangle's prism: whether the
   * footprint became exactly one region, whether the extruded prism is a
   * valid solid, the Z of its base before and after the correcting move,
   * whether the sliced prism is a valid solid, its Z extents, and whether
   * uniting it into the final solid succeeded.
   */
  datatype KernelReport = KernelReport(
    regionCreated: bool,
    extruded: bool,
    baseZ: real,
    movedBaseZ: real,
    sliced: bool,
    slicedMinZ: real,
    slicedMaxZ: real,
    unites: bool)

  /** The kernel's report for triangle number k. */
  type Kernel = nat -> KernelReport

  datatype SkipReason =
    | InvalidIndex
    | DegenerateTriangle
    | NoRegion
    | SmallRegion
    | ExtrusionFailed
    | BaseNotAtZero
    | ZeroSliceNormal
    | SliceFailed
    | ZExtentsRejected

  datatype PrismOutcome = Accepted(height: real, sliceNormal: Vec3) | Skipped(reason: SkipReason)

  predicate ValidIndex(vertices: seq<Point3>, idx: int) {
    0 <= idx < |vertices|
  }

  predicate ValidIndices(vertices: seq<Point3>, i1: int, i2: int, i3: int) {
    ValidIndex(vertices, i1) && ValidIndex(vertices, i2) && ValidIndex(vertices, i3)
  }

  /** The checks the method applies to one triangle, in the source's order. */
  function Prism(vertices: seq<Point3>, i1: int, i2: int, i3: int, report: KernelReport): (o: PrismOutcome)
    ensures o == Skipped(InvalidIndex) <==> !ValidIndices(vertices, i1, i2, i3)
    ensures ValidIndices(vertices, i1, i2, i3) && IsDegenerate(Normal(vertices[i1], vertices[i2], vertices[i3]))
            ==> o == Skipped(DegenerateTriangle)
    ensures o.Accepted? ==>
              var p1, p2, p3 := vertices[i1], vertices[i2], vertices[i3];
              var n := Normal(p1, p2, p3);
              && !IsDegenerate(n)
              && FootprintArea(p1, p2, p3) >= MinRegionArea
              && o.height == Max(Max3(p1.z, p2.z, p3.z), 0.0) + HeightBuffer
              && (o.sliceNormal == n || o.sliceNormal == Negate(n)) && o.sliceNormal.z <= 0.0
              && ZExtentsAccepted(report.slicedMinZ, report.slicedMaxZ, p1, p2, p3)
  {
    if !ValidIndices(vertices, i1, i2, i3) then Skipped(InvalidIndex)
    else
      var p1, p2, p3 := vertices[i1], vertices[i2], vertices[i3];
      var n := Normal(p1, p2, p3);
      if IsDegenerate(n) then Skipped(DegenerateTriangle)
      else if !report.regionCreated then Skipped(NoRegion)
      else if FootprintArea(p1, p2, p3) < MinRegionArea then Skipped(SmallRegion)
      else if !report.extruded then Skipped(ExtrusionFailed)
      else if Abs(report.baseZ) > BaseTolerance && Abs(report.movedBaseZ) > BaseTolerance then Skipped(BaseNotAtZero)
      else
        var s := SliceNormal(n);
        if s == Vec3(0.0, 0.0, 0.0) then Skipped(ZeroSliceNormal)
        else if !report.sliced then Skipped(SliceFailed)
        else if !ZExtentsAccepted(report.slicedMinZ, report.slicedMaxZ, p1, p2, p3) then Skipped(ZExtentsRejected)
        else Accepted(ExtrusionHeight(Max3(p1.z, p2.z, p3.z)), s)
  }

  /** The zero-slice-normal branch is never taken. */
  lemma NeverZeroSliceNormal(vertices: seq<Point3>, i1: int, i2: int, i3: int, report: KernelReport)
    ensures Prism(vertices, i1, i2, i3, report) != Skipped(ZeroSliceNormal)
  {
    if ValidIndices(vertices, i1, i2, i3) {
      var n := Normal(vertices[i1], vertices[i2], vertices[i3]);
      if !IsDegenerate(n) {
        SliceNormalIsNonZero(n);
      }
    }
  }

  /** A vertical triangle has a zero footprint and is never extruded. */
  lemma VerticalTriangleIsSkipped(vertices: seq<Point3>, i1: int, i2: int, i3: int, report: KernelReport)
    requires ValidIndices(vertices, i1, i2, i3)
    requires Orientation(Project(vertices[i1]), Project(vertices[i2]), Project(vertices[i3])) == 0.0
    ensures Prism(vertices, i1, i2, i3, report).Skipped?
  {
    assert FootprintArea(vertices[i1], vertices[i2], vertices[i3]) == 0.0;
  }

  /** One accepted prism in solidParts: its triangle's number and its parameters. */
  datatype Part = Part(triangle: nat, height: real, sliceNormal: Vec3)

  /** The outcome for triangle number k of the index list. */
  function PrismAt(vertices: seq<Point3>, t: seq<int>, kernel: Kernel, k: nat): PrismOutcome
    requires 3 * k + 2 < |t|
  {
    Prism(vertices, t[3 * k], t[3 * k + 1], t[3 * k + 2], kernel(k))
  }

  /** solidParts after the first m triangles. */
  function PrismParts(vertices: seq<Point3>, t: seq<int>, kernel: Kernel, m: nat): (parts: seq<Part>)
    requires 3 * m <= |t|
    ensures |parts| <= m
    ensures forall k :: 0 <= k < |parts| ==> parts[k].triangle < m
  {
    if m == 0 then []
    else
      var parts := PrismParts(vertices, t, kernel, m - 1);
      match PrismAt(vertices, t, kernel, m - 1)
      case Accepted(h, s) => parts + [Part(m - 1, h, s)]
      case Skipped(_) => parts
  }

  /** The parts are in triangle order. */
  lemma {:induction false} PrismPartsAreOrdered(vertices: seq<Point3>, t: seq<int>, kernel: Kernel, m: nat)
    requires 3 * m <= |t|
    ensures var parts := PrismParts(vertices, t, kernel, m);
            forall k, l :: 0 <= k < l < |parts| ==> parts[k].triangle < parts[l].triangle
  {
    if m > 0 {
      PrismPartsAreOrdered(vertices, t, kernel, m - 1);
      PrismPartsStep(vertices, t, kernel, m);
    }
  }

  /** Each part is an accepted triangle, with the height and slice normal its checks gave. */
  lemma {:induction false} PrismPartsAreAccepted(vertices: seq<Point3>, t: seq<int>, kernel: Kernel, m: nat)
    requires 3 * m <= |t|
    ensures var parts := PrismParts(vertices, t, kernel, m);
            forall k :: 0 <= k < |parts| ==>
              PrismAt(vertices, t, kernel, parts[k].triangle) == Accepted(parts[k].height, parts[k].sliceNormal)
  {
    if m > 0 {
      PrismPartsAreAccepted(vertices, t, kernel, m - 1);
      PrismPartsStep(vertices, t, kernel, m);
    }
  }

  /** Triangle m - 1 adds its part at the end, or nothing. */
  lemma PrismPartsStep(vertices: seq<Point3>, t: seq<int>, kernel: Kernel, m: nat)
    requires 0 < m && 3 * m <= |t|
    ensures var prev, parts := PrismParts(vertices, t, kernel, m - 1), PrismParts(vertices, t, kernel, m);
            match PrismAt(vertices, t, kernel, m - 1)
            case Accepted(h, s) => parts == prev + [Part(m - 1, h, s)]
            case Skipped(_) => parts == prev
  {
  }

  /** Every accepted triangle has its part. */
  lemma {:induction false} AcceptedTriangleHasPart(vertices: seq<Point3>, t: seq<int>, kernel: Kernel, m: nat, j: nat)
    requires j < m && 3 * m <= |t|
    requires PrismAt(vertices, t, kernel, j).Accepted?
    ensures exists k :: 0 <= k < |PrismParts(vertices, t, kernel, m)| && PrismParts(vertices, t, kernel, m)[k].triangle == j
  {
    var parts := PrismParts(vertices, t, kernel, m);
    if j == m - 1 {
      assert parts[|parts| - 1].triangle == j;
    } else {
      AcceptedTriangleHasPart(vertices, t, kernel, m - 1, j);
      var k :| 0 <= k < |PrismParts(vertices, t, kernel, m - 1)| && PrismParts(vertices, t, kernel, m - 1)[k].triangle == j;
      assert parts[k] == PrismParts(vertices, t, kernel, m - 1)[k];
    }
  }

  // ---------------------------------------------------------------------
  // Union
  // ---------------------------------------------------------------------

  /** The triangles of the parts whose union succeeds (keep) or fails (!keep), in order. */
  function Joined(parts: seq<Part>, kernel: Kernel, keep: bool): (r: seq<nat>)
    ensures |r| <= |parts|
  {
    if parts == [] then []
    else
      var last := parts[|parts| - 1];
      var r := Joined(parts[..|parts| - 1], kernel, keep);
      if kernel(last.triangle).unites == keep then r + [last.triangle] else r
  }

  function Triangles(parts: seq<Part>): (r: seq<nat>)
    ensures |r| == |parts| && forall k :: 0 <= k < |parts| ==> r[k] == parts[k].triangle
  {
    seq(|parts|, k requires 0 <= k < |parts| => parts[k].triangle)
  }

  /** Every part ends up in the final solid or stays separate, never both and never lost. */
  lemma {:induction false} JoinedSplitsParts(parts: seq<Part>, kernel: Kernel)
    ensures multiset(Joined(parts, kernel, true)) + multiset(Joined(parts, kernel, false)) == multiset(Triangles(parts))
  {
    if parts != [] {
      var init := parts[..|parts| - 1];
      JoinedSplitsParts(init, kernel);
      assert Triangles(parts) == Triangles(init) + [parts[|parts| - 1].triangle];
    }
  }

  /** A triangle is listed exactly when it has a part and the kernel's union answer is keep. */
  lemma {:induction false} JoinedMembers(parts: seq<Part>, kernel: Kernel, keep: bool, j: nat)
    ensures j in Joined(parts, kernel, keep) <==>
              exists k :: 0 <= k < |parts| && parts[k].triangle == j && kernel(j).unites == keep
  {
    if parts != [] {
      var init := parts[..|parts| - 1];
      JoinedMembers(init, kernel, keep, j);
      if j in Joined(init, kernel, keep) {
        var k :| 0 <= k < |init| && init[k].triangle == j && kernel(j).unites == keep;
        assert parts[k].triangle == j;
      }
      if exists k :: 0 <= k < |parts| && parts[k].triangle == j && kernel(j).unites == keep {
        var k :| 0 <= k < |parts| && parts[k].triangle == j && kernel(j).unites == keep;
        if k < |init| {
          assert init[k].triangle == j;
        }
      }
    }
  }

  /** The final solid: the triangles united into it, and the parts left separate. */
  datatype SolidOutcome = NoSolid | Solid(united: seq<nat>, separate: seq<nat>)

  /**
   * CreateSolidFromTriangles: an index list that is not a whole number of
   * triples ends in an exception; no accepted prism gives no solid;
   * otherwise the first part absorbs the others whose union succeeds.
   */
  function SolidFromTriangles(vertices: seq<Point3>, t: seq<int>, kernel: Kernel): Result<SolidOutcome, string> {
    if |t| % 3 != 0 then Failure("index out of range")
    else
      var parts := PrismParts(vertices, t, kernel, |t| / 3);
      if parts == [] then Success(NoSolid)
      else Success(Solid([parts[0].triangle] + Joined(parts[1..], kernel, true), Joined(parts[1..], kernel, false)))
  }

  /** The union loop over solidParts[1..]. */
  method UniteParts(parts: seq<Part>, kernel: Kernel) returns (united: seq<nat>, separate: seq<nat>)
    requires parts != []
    ensures united == [parts[0].triangle] + Joined(parts[1..], kernel, true)
    ensures separate == Joined(parts[1..], kernel, false)
  {
    united, separate := [parts[0].triangle], [];
    var j := 1;
    while j < |parts|
      invariant 1 <= j <= |parts|
      invariant united == [parts[0].triangle] + Joined(parts[1..j], kernel, true)
      invariant separate == Joined(parts[1..j], kernel, false)
    {
      assert parts[1..j + 1][..j - 1] == parts[1..j];
      if kernel(parts[j].triangle).unites {
        united := united + [parts[j].triangle];
      } else {
        separate := separate + [parts[j].triangle];
      }
      j := j + 1;
    }
    assert parts[1..j] == parts[1..];
  }

  /** The prism loop over the index list, three entries at a time, then the union. */
  method CreateSolidFromTriangles(vertices: seq<Point3>, triangleIndices: seq<int>, kernel: Kernel)
    returns (r: Result<SolidOutcome, string>)
    ensures r == SolidFromTriangles(vertices, triangleIndices, kernel)
  {
    var solidParts: seq<Part> := [];
    var i := 0;
    while i < |triangleIndices|
      invariant 0 <= i <= |triangleIndices| && i % 3 == 0
      invariant solidParts == PrismParts(vertices, triangleIndices, kernel, i / 3)
    {
      if i + 2 >= |triangleIndices| {
        return Failure("index out of range");
      }
      var idx1, idx2, idx3 := triangleIndices[i], triangleIndices[i + 1], triangleIndices[i + 2];
      var outcome := Prism(vertices, idx1, idx2, idx3, kernel(i / 3));
      if outcome.Accepted? {
        solidParts := solidParts + [Part(i / 3, outcome.height, outcome.sliceNormal)];
      }
      i := i + 3;
    }
    if solidParts == [] {
      return Success(NoSolid);
    }
    var united, separate := UniteParts(solidParts, kernel);
    return Success(Solid(united, separate));
  }

  /**
   * On the output of the triangulation the index check never fires and the
   * method never throws.
   */
  lemma TriangulationIsWellFormed(points: seq<Point3>, kernel: Kernel, k: nat)
    requires 3 * k + 2 < |Delaunay.Triangulation(points)|
    ensures SolidFromTriangles(points, Delaunay.Triangulation(points), kernel).Success?
    ensures PrismAt(points, Delaunay.Triangulation(points), kernel, k) != Skipped(InvalidIndex)
  {
    var t := Delaunay.Triangulation(points);
    assert 0 <= t[3 * k] < |points| && 0 <= t[3 * k + 1] < |points| && 0 <= t[3 * k + 2] < |points|;
  }
}
