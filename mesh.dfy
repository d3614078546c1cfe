/**
 * The visual surface (TopoBuilder/TerrainGenerator.cs, CreatePolyFaceMeshSurface):
 * every point becomes a mesh vertex, and every index triple becomes a face
 * record whose vertex numbers are 1-based and stored as 16-bit integers.
 */
module FaceMesh {
  import opened Wrappers
  import opened Geometry
  import Delaunay

  /** The (short) cast: two's complement wrap-around into -32768..32767. */
  function ToShort(v: int): (r: int)
    ensures -32768 <= r <= 32767
    ensures (v - r) % 65536 == 0
    ensures -32768 <= v <= 32767 ==> r == v
  {
    (v + 32768) % 65536 - 32768
  }

  /** A face record: three vertex numbers and a fourth 0, which marks a triangle. */
  datatype Face = Face(v1: int, v2: int, v3: int, v4: int)

  datatype Mesh = Mesh(vertices: seq<Point3>, faces: seq<Face>)

  /** The face record of triangle number k. */
  function FaceAt(t: seq<int>, k: nat): Face
    requires 3 * k + 2 < |t|
  {
    Face(ToShort(t[3 * k] + 1), ToShort(t[3 * k + 1] + 1), ToShort(t[3 * k + 2] + 1), 0)
  }

  /** The face records of the first m triangles. */
  function Faces(t: seq<int>, m: nat): (fs: seq<Face>)
    requires 3 * m <= |t|
    ensures |fs| == m
  {
    seq(m, k requires 0 <= k < m => FaceAt(t, k))
  }

  /**
   * CreatePolyFaceMeshSurface: an index list that is not a whole number of
   * triples throws, which the method turns into no mesh; a mesh without
   * faces is erased, so there is no mesh either.
   */
  function PolyFaceMesh(points: seq<Point3>, t: seq<int>): Option<Mesh> {
    if |t| % 3 != 0 || |t| == 0 then None
    else Some(Mesh(points, Faces(t, |t| / 3)))
  }

  method CreatePolyFaceMeshSurface(points3d: seq<Point3>, triangleIndices: seq<int>) returns (mesh: Option<Mesh>)
    ensures mesh == PolyFaceMesh(points3d, triangleIndices)
  {
    var vertices: seq<Point3> := [];
    var j := 0;
    while j < |points3d|
      invariant 0 <= j <= |points3d| && vertices == points3d[..j]
    {
      vertices := vertices + [points3d[j]];
      j := j + 1;
    }
    assert vertices == points3d;
    var faces: seq<Face> := [];
    var faceCount := 0;
    var i := 0;
    while i < |triangleIndices|
      invariant 0 <= i <= |triangleIndices| && i == 3 * faceCount
      invariant faces == Faces(triangleIndices, faceCount)
    {
      if i + 2 >= |triangleIndices| {
        return None;
      }
      faces := faces + [Face(ToShort(triangleIndices[i] + 1), ToShort(triangleIndices[i + 1] + 1),
                             ToShort(triangleIndices[i + 2] + 1), 0)];
      faceCount := faceCount + 1;
      i := i + 3;
    }
    if faceCount > 0 {
      return Some(Mesh(vertices, faces));
    } else {
      return None;
    }
  }

  /**
   * When every index addresses one of n <= 32767 points, each face record
   * holds the triangle's indices plus one: the 1-based numbers of the mesh's
   * vertices, with no wrap-around.
   */
  lemma FacesAreOneBased(t: seq<int>, n: nat, k: nat)
    requires 3 * k + 2 < |t| && n <= 32767 && Delaunay.InBounds(t, n)
    ensures var f := FaceAt(t, k);
            && f == Face(t[3 * k] + 1, t[3 * k + 1] + 1, t[3 * k + 2] + 1, 0)
            && 1 <= f.v1 <= n && 1 <= f.v2 <= n && 1 <= f.v3 <= n
  {
    assert 0 <= t[3 * k] < n && 0 <= t[3 * k + 1] < n && 0 <= t[3 * k + 2] < n;
  }

  /**
   * The triangulation of up to 32767 points gives a mesh exactly when it has
   * a triangle, and every face refers to the vertices of that triangle.
   */
  lemma TriangulationMesh(points: seq<Point3>)
    requires |points| <= 32767
    ensures var t := Delaunay.Triangulation(points);
            var m := PolyFaceMesh(points, t);
            && (m.Some? <==> t != [])
            && (m.Some? ==> m.value.vertices == points && |m.value.faces| * 3 == |t|)
            && (m.Some? ==> forall k :: 0 <= k < |m.value.faces| ==>
                  m.value.faces[k] == Face(t[3 * k] + 1, t[3 * k + 1] + 1, t[3 * k + 2] + 1, 0))
  {
    var t := Delaunay.Triangulation(points);
    var m := PolyFaceMesh(points, t);
    if m.Some? {
      forall k | 0 <= k < |m.value.faces|
        ensures m.value.faces[k] == Face(t[3 * k] + 1, t[3 * k + 1] + 1, t[3 * k + 2] + 1, 0)
      {
        FacesAreOneBased(t, |points|, k);
      }
    }
  }

  /** Index 32767 is vertex number 32768, which the 16-bit record cannot hold. */
  lemma VertexNumberWraps(t: seq<int>)
    requires |t| >= 3 && t[0] == 32767
    ensures FaceAt(t, 0).v1 == -32768
  {
  }
}
