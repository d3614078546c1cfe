# Topomaker terrain core in Dafny

This project models the geometry core of the Topomaker AutoCAD plug-in (TopoBuilder). That core turns elevation labels into terrain points, then triangulates and builds surfaces from them. The model covers:

- **Collecting points from labels** (`TopoBuilder/TopoCommands.cs`):
  - Each TEXT or MTEXT label of the chosen colour is cleaned of MText format codes, and the leftmost number in it is read as an elevation.
  - The label's insertion point is snapped to a grid of the drawing's tolerance.
  - A dictionary keeps the highest elevation per grid key. Every entry becomes one output point.
- **XY de-duplication** (`TopoBuilder/TerrainGenerator.cs`): raw points are grouped with a 1 mm tolerance comparer. The highest point of each group is kept.
- **Bowyer–Watson Delaunay triangulation** over a flat list of index triples. It is seeded with a scaffold ("super") triangle, uses an orientation-aware in-circle test, and drops the scaffold triangles at the end.
- **The polyface mesh records**: 1-based, 16-bit vertex numbers.
- **The rules around each prism of the terrain solid**:
  - the index and degenerate-normal checks;
  - the footprint area limit and the extrusion height;
  - the slice-normal direction and the Z-extent acceptance test;
  - the union loop.

Coordinates are exact `real`s. The tolerances of the source are named constants: 1e-9, 1e-7, 0.5, 0.1, 0.01 and 0.001.

Modules, one per file:

| file | module | what it holds |
|---|---|---|
| `wrappers.dfy` | `Wrappers` | `Option`, `Result` |
| `geometry.dfy` | `Geometry` | points; the orientation and in-circle determinants; `IsPointInCircumcircle` and what it means geometrically |
| `delaunay.dfy` | `Delaunay` | `Edge`, the scaffold triangle, one insertion step as pure functions, the mesh invariant, and the methods that do the list surgery |
| `dedup.dfy` | `PointDedup` | the tolerance comparer, `GroupBy`, and keeping the first highest point per group |
| `mesh.dfy` | `FaceMesh` | the face records of `CreatePolyFaceMeshSurface` |
| `prisms.dfy` | `Prisms` | the per-triangle checks and parameters of `CreateSolidFromTriangles`, and the union loop |
| `labels.dfy` | `Labels` | `CleanText` and `ParseElevation` as left-to-right scanners |
| `collector.dfy` | `Collector` | the grid key, the comparer, `GetEntityData`, the in-place dictionary (`PointMap`), `ProcessEntity`, `ProcessEntities` |

Stateful code follows the source's form:

- **Delaunay.** The triangulation loop, the bad-triangle scan, the back-to-front removal and the fan of new triangles are methods with loops. Each is proved equal to a pure function. Those functions then carry the lemmas: what survives, which edges bound the hole, and that the mesh invariant holds.
- **The dictionary.** The dictionary of `ProcessEntities` is the class `Collector.PointMap`. `ProcessEntity` updates it in place.
  - A ghost history `samples` records every sample given to it.
  - Its keys and values always equal the fold of `Insert` over that history.
  - The lemmas about the fold state the "highest elevation per key" promise.

## Model

| member | source | states |
|---|---|---|
| Geometry.CollinearIsNeverBad | TopoBuilder/TerrainGenerator.cs:632-635 | when \|orientation(a, b, c)\| < 1e-9 the in-circle test is false for every point |
| Geometry.InCircleIgnoresWinding | TopoBuilder/TerrainGenerator.cs:618-640 | swapping b and c flips both det and orientation, so the test's answer is unchanged |
| Geometry.InCircleIgnoresRotation | TopoBuilder/TerrainGenerator.cs:618-640 | rotating the vertices (a, b, c) to (b, c, a) leaves the test's answer unchanged |
| Geometry.VertexIsNeverBad | TopoBuilder/TerrainGenerator.cs:618-640 | a vertex of the triangle is never strictly inside its own circumcircle |
| Geometry.InCircleDetIdentity | TopoBuilder/TerrainGenerator.cs:618-628 | for a circle through a, b and c with centre o and squared radius r2, det = orientation · (r2 − \|p − o\|²) |
| Geometry.BadMeansInsideCircumcircle | TopoBuilder/TerrainGenerator.cs:614-641 | a point the test flags lies strictly inside the circle through a, b and c |
| Geometry.InsideCircumcircleIsBad | TopoBuilder/TerrainGenerator.cs:614-641 | conversely, a point inside the circle of a non-degenerate triangle, by more than the epsilon margin, is flagged |
| Delaunay.MakeEdge | TopoBuilder/TerrainGenerator.cs:649 | an edge stores min then max (a ≤ b), and {a, b} is the pair it was built from |
| Delaunay.MakeEdgeIsUndirected | TopoBuilder/TerrainGenerator.cs:645-653 | Edge(x, y) equals Edge(y, x) |
| Delaunay.BoundingBox | TopoBuilder/TerrainGenerator.cs:592-597 | every point lies within the min/max box |
| Delaunay.Scale | TopoBuilder/TerrainGenerator.cs:598-601 | after both fallbacks deltaMax > 0, and it is at least dx and dy |
| Delaunay.SuperTriangle | TopoBuilder/TerrainGenerator.cs:589-611 | no vertices for no points, otherwise three |
| Delaunay.SuperTriangleEncloses | TopoBuilder/TerrainGenerator.cs:603-610 | every input point lies strictly inside the scaffold triangle |
| Delaunay.Bounds | TopoBuilder/TerrainGenerator.cs:592-597 | the min/max loop computes the bounding box |
| Delaunay.CreateSuperTriangle | TopoBuilder/TerrainGenerator.cs:589-611 | empty for empty input; otherwise three vertices that strictly enclose every point |
| Delaunay.SurvivorsAndEdges | TopoBuilder/TerrainGenerator.cs:555-566 | each triple is either kept or contributes its three edges |
| Delaunay.SurvivorsAreGood | TopoBuilder/TerrainGenerator.cs:555-566 | no surviving triple is bad |
| Delaunay.GoodTriangleSurvives | TopoBuilder/TerrainGenerator.cs:555-566 | every good triple of the list survives the removal |
| Delaunay.FindBadTriangles | TopoBuilder/TerrainGenerator.cs:555-564 | the scan records exactly the positions of the bad triples, ascending, and exactly their edges |
| Delaunay.RemoveBadTriangles | TopoBuilder/TerrainGenerator.cs:566 | back-to-front RemoveRange at those positions leaves exactly the good triples, in their order |
| Delaunay.BoundaryEdges | TopoBuilder/TerrainGenerator.cs:569 | an edge is on the hole boundary once exactly when it occurs once among the bad edges, and never otherwise |
| Delaunay.BoundaryEdgesAreCollected | TopoBuilder/TerrainGenerator.cs:569 | boundary edges are bad edges and are listed without repetition |
| Delaunay.FanAt | TopoBuilder/TerrainGenerator.cs:572 | new triple k is (edge k's A, edge k's B, i) |
| Delaunay.AddFan | TopoBuilder/TerrainGenerator.cs:572 | the append loop adds one triple per boundary edge, in order |
| Delaunay.InsertPoint | TopoBuilder/TerrainGenerator.cs:550-572 | one pass of the outer loop computes one insertion step |
| Delaunay.InitialMesh | TopoBuilder/TerrainGenerator.cs:545-546 | the scaffold triple starts the mesh invariant |
| Delaunay.InsertStepKeepsMesh | TopoBuilder/TerrainGenerator.cs:548-573 | an insertion step keeps distinct triples whose indices are inserted points or scaffold vertices, and admits point i |
| Delaunay.InsertionsKeepMesh | TopoBuilder/TerrainGenerator.cs:548-573 | after all insertions every index is an original point or a scaffold vertex |
| Delaunay.InsertAll | TopoBuilder/TerrainGenerator.cs:548-573 | the outer loop inserts points 0 .. n−1 in order |
| Delaunay.WithoutScaffoldShape | TopoBuilder/TerrainGenerator.cs:576-583 | the final filter leaves distinct triples of original points only |
| Delaunay.RemoveScaffoldTriangles | TopoBuilder/TerrainGenerator.cs:576-583 | the final loop keeps exactly the triples with no scaffold vertex |
| Delaunay.Triangulation | TopoBuilder/TerrainGenerator.cs:536-584 | fewer than 3 points give []; the result is whole triples of distinct indices, all below the point count |
| Delaunay.DelaunayTriangulation | TopoBuilder/TerrainGenerator.cs:536-584 | the method computes Triangulation: empty below 3 points, a multiple of 3 long, and no scaffold index |
| PointDedup.RoundBounds | TopoBuilder/TerrainGenerator.cs:670-671 | the rounded value is within one half of its argument |
| PointDedup.RoundInteger | TopoBuilder/TerrainGenerator.cs:670-671 | rounding an integer gives it back |
| PointDedup.EffectiveTolerance | TopoBuilder/TerrainGenerator.cs:661-662 | the comparer's tolerance is never below 1e-9 and equals the given one when that is larger |
| PointDedup.CloseIsSymmetric | TopoBuilder/TerrainGenerator.cs:664-665 | the comparer's Equals is symmetric |
| PointDedup.CloseIsReflexive | TopoBuilder/TerrainGenerator.cs:664-665 | the comparer's Equals is reflexive |
| PointDedup.SameCellIsClose | TopoBuilder/TerrainGenerator.cs:664-671 | two points in the same hash cell are always Equals |
| PointDedup.JoinsIsSameCell | TopoBuilder/TerrainGenerator.cs:664-672 | GroupBy puts a point in a group exactly when the hashes match and Equals holds, which is exactly same cell |
| PointDedup.CloseButInAdjacentCells | TopoBuilder/TerrainGenerator.cs:664-673 | two points 0.2 mm apart across a cell border are Equals but never grouped |
| PointDedup.FindGroup | TopoBuilder/TerrainGenerator.cs:209 | finds the group the point joins, or proves none does |
| PointDedup.GroupByGroupsByCell | TopoBuilder/TerrainGenerator.cs:209 | one group per occupied cell and no two for the same cell; each is keyed by the cell's first point and holds exactly the cell's points, in input order |
| PointDedup.MaxZIndex | TopoBuilder/TerrainGenerator.cs:210 | picks the first point of greatest Z, as a stable descending sort followed by First does |
| PointDedup.Dedup | TopoBuilder/TerrainGenerator.cs:209-211 | the output is never longer than the input |
| PointDedup.DedupKeepsFirstHighest | TopoBuilder/TerrainGenerator.cs:209-211 | each output point is a raw point, has the greatest Z in its cell, and is the first such point |
| PointDedup.DedupCoversInput | TopoBuilder/TerrainGenerator.cs:209-211 | every raw point has an output point in its cell at least as high |
| PointDedup.DedupCellsDistinct | TopoBuilder/TerrainGenerator.cs:209-211 | no two output points share a cell |
| FaceMesh.ToShort | TopoBuilder/TerrainGenerator.cs:266-268 | the (short) cast lies in −32768..32767, agrees mod 65536, and is the identity on that range |
| FaceMesh.Faces | TopoBuilder/TerrainGenerator.cs:263-270 | one face record per triple |
| FaceMesh.CreatePolyFaceMeshSurface | TopoBuilder/TerrainGenerator.cs:260-284 | gives the vertices and face records; an incomplete triple (which throws) and no faces give no mesh |
| FaceMesh.FacesAreOneBased | TopoBuilder/TerrainGenerator.cs:266-268 | with indices below n ≤ 32767, each record holds the 1-based vertex numbers 1..n |
| FaceMesh.TriangulationMesh | TopoBuilder/TerrainGenerator.cs:260-282 | the triangulation gives a mesh exactly when it has a triangle, with every face the triple plus one |
| FaceMesh.VertexNumberWraps | TopoBuilder/TerrainGenerator.cs:266 | index 32767 becomes vertex number −32768 in the record |
| Prisms.NormalZIsOrientation | TopoBuilder/TerrainGenerator.cs:317-318 | the normal's Z is the footprint's orientation, so the footprint area is \|n.z\|/2 |
| Prisms.ExtrusionHeight | TopoBuilder/TerrainGenerator.cs:364-366 | the height is max(maxZ, 0) + 0.5, so it is at least 0.5 above the highest vertex |
| Prisms.SliceNormal | TopoBuilder/TerrainGenerator.cs:383-387 | the slice normal is ± the triangle normal, of equal length, with Z ≤ 0 |
| Prisms.SliceNormalIsNonZero | TopoBuilder/TerrainGenerator.cs:383-389 | a normal that passed the degenerate check never gives a zero slice normal |
| Prisms.Prism | TopoBuilder/TerrainGenerator.cs:311-412 | skipped for an invalid index exactly when one is out of range; degenerate normals are skipped; an accepted prism has area ≥ 1e-7, the height and slice normal above, and Z extents accepted |
| Prisms.NeverZeroSliceNormal | TopoBuilder/TerrainGenerator.cs:386-389 | the zero-slice-normal skip is never taken |
| Prisms.VerticalTriangleIsSkipped | TopoBuilder/TerrainGenerator.cs:317-358 | a triangle with a zero footprint never becomes a part |
| Prisms.PrismPartsAreOrdered | TopoBuilder/TerrainGenerator.cs:309-413 | the parts are in triangle order |
| Prisms.PrismPartsAreAccepted | TopoBuilder/TerrainGenerator.cs:309-413 | every part is an accepted triangle, with its height and slice normal |
| Prisms.AcceptedTriangleHasPart | TopoBuilder/TerrainGenerator.cs:309-413 | every accepted triangle has its part |
| Prisms.JoinedSplitsParts | TopoBuilder/TerrainGenerator.cs:440-461 | each later part is either united or left separate, never both and never lost |
| Prisms.JoinedMembers | TopoBuilder/TerrainGenerator.cs:442-461 | a triangle is united (left separate) exactly when it has a part and its union succeeds (fails) |
| Prisms.UniteParts | TopoBuilder/TerrainGenerator.cs:440-461 | the union loop starts from part 0 and absorbs each later part whose union succeeds |
| Prisms.CreateSolidFromTriangles | TopoBuilder/TerrainGenerator.cs:293-494 | the prism loop and union compute SolidFromTriangles: failure on an incomplete triple, no solid without parts |
| Prisms.TriangulationIsWellFormed | TopoBuilder/TerrainGenerator.cs:312-313 | on the triangulation's output the index check never fires and nothing throws |
| Labels.LineBreakRun | TopoBuilder/TopoCommands.cs:207 | the `[\r\n]+` alternative: the maximal run of line breaks |
| Labels.EnclosedAt | TopoBuilder/TopoCommands.cs:207 | the `\\[^;]+;` and `\{[^\}]+\}` alternatives: a match ends at the first closer, with at least one character between |
| Labels.FormatCodeAt | TopoBuilder/TopoCommands.cs:207 | a match stays within the text, and a line break always matches |
| Labels.TrimStart | TopoBuilder/TopoCommands.cs:209 | only white space is dropped, and the result does not start with white space |
| Labels.TrimEnd | TopoBuilder/TopoCommands.cs:209 | only white space is dropped, and the result does not end with white space |
| Labels.TrimStartIsSuffix | TopoBuilder/TopoCommands.cs:209 | what TrimStart leaves is a suffix of its input |
| Labels.TrimEndIsPrefix | TopoBuilder/TopoCommands.cs:209 | what TrimEnd leaves is a prefix of its input |
| Labels.ReplaceCodesRemovesLineBreaks | TopoBuilder/TopoCommands.cs:207 | after the regex replacement no \r or \n is left |
| Labels.ReplaceParagraphsClean | TopoBuilder/TopoCommands.cs:208 | after replacing \P no \P code is left, and no line break is introduced |
| Labels.CleanTextIsClean | TopoBuilder/TopoCommands.cs:205-210 | the cleaned text has no \r, \n or \P, and no white space at either end |
| Labels.CleanTextKeepsPlainText | TopoBuilder/TopoCommands.cs:205-210 | text with no backslash, no opening brace, no line break and no white space at either end is left as it is |
| Labels.CleanTextExample | TopoBuilder/TopoCommands.cs:205-210 | an alignment code and a trailing \P are stripped from "\A1;12.5\P", which becomes "12.5" |
| Labels.CleanTextDropsBracedGroup | TopoBuilder/TopoCommands.cs:207 | a braced font group, number included, is replaced as a whole |
| Labels.DigitRunIsMaximal | TopoBuilder/TopoCommands.cs:215 | `\d+` takes every digit of the run and stops at a non-digit |
| Labels.FindMatch | TopoBuilder/TopoCommands.cs:215 | finds the leftmost position where the pattern matches, or proves there is none |
| Labels.MatchEnd | TopoBuilder/TopoCommands.cs:215 | a match is nonempty and stays within the text |
| Labels.CommaToPoint | TopoBuilder/TopoCommands.cs:217 | every comma becomes a point, and nothing else changes |
| Labels.MatchParses | TopoBuilder/TopoCommands.cs:215-220 | the text of a match always parses as a number |
| Labels.ParseElevationFailsIffNoDigit | TopoBuilder/TopoCommands.cs:212-221 | parsing fails exactly when the text has no decimal digit |
| Labels.CommaReadsAsPoint | TopoBuilder/TopoCommands.cs:217 | a comma and a point give the same elevation |
| Labels.WrittenNumberMatch | TopoBuilder/TopoCommands.cs:215 | for an optional sign, digits, an optional separator and digits, after a prefix with no digit or sign, the match is exactly that number |
| Labels.ParsesWrittenNumber | TopoBuilder/TopoCommands.cs:212-221 | such a label parses to the signed value of the integer and fraction digits |
| Collector.Tolerance | TopoBuilder/TopoCommands.cs:106 | 0.1 in a millimetre drawing, 0.001 otherwise |
| Collector.Quantise | TopoBuilder/TopoCommands.cs:165-169 | the key has Z = 0 |
| Collector.KeyEqualsIsSymmetric | TopoBuilder/TopoCommands.cs:229-231 | the comparer's Equals is symmetric |
| Collector.KeyEqualsIsReflexive | TopoBuilder/TopoCommands.cs:229-231 | the comparer's Equals is reflexive for a non-negative tolerance |
| Collector.KeyHashOfQuantised | TopoBuilder/TopoCommands.cs:233-238 | the hash of a grid key is the grid cell the position was snapped to |
| Collector.LookupIsKeyEquality | TopoBuilder/TopoCommands.cs:165-238 | two grid keys match in the dictionary (same hash and Equals) exactly when they are equal |
| Collector.NeighbourKeysStaySeparate | TopoBuilder/TopoCommands.cs:229-238 | neighbouring grid keys are Equals yet hash differently, so they stay separate entries |
| Collector.GetEntityData | TopoBuilder/TopoCommands.cs:185-203 | fails exactly for entities other than TEXT and MTEXT |
| Collector.EntityTextIsClean | TopoBuilder/TopoCommands.cs:185-210 | the text handed on has no line break, no \P and no outer white space |
| Collector.SampleOf | TopoBuilder/TopoCommands.cs:158-169 | the sample's key has Z = 0 |
| Collector.Insert | TopoBuilder/TopoCommands.cs:172-180 | an absent key gets z, a present one max(old, z), every other entry unchanged |
| Collector.InsertKeepsWellKeyed | TopoBuilder/TopoCommands.cs:172-180 | the update keeps each key listed once, and only entry keys listed |
| Collector.FoldIsWellKeyed | TopoBuilder/TopoCommands.cs:172-180 | any sequence of updates keeps each key listed once |
| Collector.FoldKeys | TopoBuilder/TopoCommands.cs:172-180 | a key is in the dictionary exactly when some sample had it |
| Collector.FoldIsUpperBound | TopoBuilder/TopoCommands.cs:172-180 | each key's value is at least every elevation sampled for it |
| Collector.FoldIsAttained | TopoBuilder/TopoCommands.cs:172-180 | each key's value is one of the elevations sampled for it |
| Collector.OutputIsHighestPerKey | TopoBuilder/TopoCommands.cs:135-143 | each output point sits on a sampled key at the highest elevation sampled there |
| Collector.PointMap.constructor | TopoBuilder/TopoCommands.cs:107 | the dictionary starts empty |
| Collector.PointMap.TryGetValue | TopoBuilder/TopoCommands.cs:172 | found exactly when the key is present, with its value |
| Collector.PointMap.SetValue | TopoBuilder/TopoCommands.cs:175 | overwrites one entry's value and nothing else |
| Collector.PointMap.Add | TopoBuilder/TopoCommands.cs:179 | appends a new key with its value and nothing else |
| Collector.PointMap.KeepHighest | TopoBuilder/TopoCommands.cs:172-180 | the dictionary becomes Insert of the sample, and the history grows by it |
| Collector.ProcessEntity | TopoBuilder/TopoCommands.cs:153-183 | true exactly when the label gives a sample; false leaves the dictionary untouched; true applies Insert |
| Collector.LabelsGiveSamples | TopoBuilder/TopoCommands.cs:111-132 | every label of the target colour that gives a sample contributes it |
| Collector.LabelReachesOutput | TopoBuilder/TopoCommands.cs:111-143 | every such label has an output point at its grid key, at its elevation or higher |
| Collector.Mismatches | TopoBuilder/TopoCommands.cs:118-121 | at most one mismatch per label |
| Collector.ProcessSelected | TopoBuilder/TopoCommands.cs:113-131 | one loop pass adds that label's sample, counts it if processed, or counts a mismatch |
| Collector.ProcessEntities | TopoBuilder/TopoCommands.cs:95-151 | the points are the dictionary's entries after all samples; processed counts the samples, colorMismatch the other colours |
| Collector.AddPoints | TopoBuilder/TopoCommands.cs:135-143 | one point per entry, in dictionary order, at the entry's elevation |

## Left out

- Floating point: coordinates and elevations are exact reals, so the model has no rounding error in the determinants, cross products or tolerance divisions.
- PointDedup.Round: `Math.Round` rounds midpoints to even; the model rounds them up. Cells differ only for coordinates exactly on a half step.
- Hash codes: the XOR mixing of the two cell numbers (and `double.GetHashCode`) is not modelled, so equal hash codes are taken to mean equal cells; hash collisions, which the comparer's Equals would then settle, are not represented.
- Labels.ParseElevation: the number is read exactly from its digits; `double.TryParse` culture and `NumberStyles` details, and overflow to infinity, are not modelled.
- Labels.IsDigit: `\d` is taken as the ASCII digits; .NET also matches other Unicode decimal digits.
- The solid kernel (`Region.CreateFromCurves`, `Extrude`, `Slice`, `BooleanOperation`, `GeometricExtents`, `ValidateSolid`) enters as one `KernelReport` per triangle; the geometric outcome of extruding and slicing is not modelled.
- `IsZeroLength` is taken as an exact zero test; the kernel's own tolerance is not modelled.
- Prisms.CreateSolidFromTriangles: the disposal checks in the union loop, the final-solid validation and the exception paths inside one triangle (which skip it) are not modelled; an incomplete last triple gives the failure the method rethrows.
- AutoCAD host plumbing: the selection, the transaction, layer creation, entity colours (given as `Selected.color`), the drawing units (given as `Units`), `WriteMessage` logging, and appending entities to model space.
- Collector.ProcessEntities: the `errors` counter and the exception handler around each entity are left out, since the modelled operations do not throw.
- The static `GeneratedTerrainPoints` list is global output and is not modelled.
- `TopoBuilder/AlignmentCommands.cs` is not part of this model.
- Collector.PointMap: the comparer-based dictionary is keyed by structural equality of grid keys (justified by `LookupIsKeyEquality`), and its enumeration order is taken to be insertion order, which `Dictionary` gives when nothing is removed.
- Collector.Samples: only one direction is proved — every target-colour label that gives a sample contributes it (`LabelsGiveSamples`); that every sample comes from such a label is not proved.
- The Delaunay empty-circle property of the final triangulation is not proved; the model proves the list invariants and the meaning of each step.
