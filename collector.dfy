/**
 * Elevation points from height labels (TopoBuilder/TopoCommands.cs,
 * ProcessEntities, ProcessEntity, GetEntityData and Point2dComparer).
 *
 * Each TEXT or MTEXT label of the sample's colour gives a sample: its
 * insertion point snapped to a grid of the drawing's tolerance, with Z = 0,
 * and the elevation read from its text. A dictionary keeps, per grid key,
 * the highest elevation seen, and every entry becomes one output point.
 */
module Collector {
  import opened Wrappers
  import opened Geometry
  import Labels
  import PointDedup

  // ---------------------------------------------------------------------
  // Tolerance, keys and the dictionary's comparer
  // ---------------------------------------------------------------------

  /** The drawing's insertion units, as far as the tolerance depends on them. */
  datatype Units = Millimeters | OtherUnits

  /** The grid step: 0.1 in a millimetre drawing, 0.001 otherwise. */
  function Tolerance(units: Units): (tol: real)
    ensures tol > 0.0
    ensures units == Millimeters ==> tol == 0.1
    ensures units != Millimeters ==> tol == 0.001
  {
    if units == Millimeters then 0.1 else 0.001
  }

  /** The grid cell of a coordinate: Math.Round(v / tol). */
  function CellIndex(tol: real, v: real): int
    requires tol > 0.0
  {
    PointDedup.Round(v / tol)
  }

  /** The dictionary key of a position: its coordinates snapped to the grid, and Z = 0. */
  function Quantise(tol: real, position: Point3): (key: Point3)
    requires tol > 0.0
    ensures key.z == 0.0
  {
    Point3(CellIndex(tol, position.x) as real * tol, CellIndex(tol, position.y) as real * tol, 0.0)
  }

  /** Point2dComparer.Equals: both planar distances at most the tolerance. */
  predicate KeyEquals(tol: real, a: Point3, b: Point3) {
    Abs(a.x - b.x) <= tol && Abs(a.y - b.y) <= tol
  }

  /** Point2dComparer.GetHashCode before the two cells are mixed. */
  function KeyHash(tol: real, p: Point3): PointDedup.Cell
    requires tol > 0.0
  {
    PointDedup.Cell(CellIndex(tol, p.x), CellIndex(tol, p.y))
  }

  lemma KeyEqualsIsSymmetric(tol: real, a: Point3, b: Point3)
    ensures KeyEquals(tol, a, b) <==> KeyEquals(tol, b, a)
  {
  }

  lemma KeyEqualsIsReflexive(tol: real, a: Point3)
    requires tol >= 0.0
    ensures KeyEquals(tol, a, a)
  {
  }

  /** A snapped coordinate lies on its own grid line. */
  lemma CellOfSnapped(tol: real, c: int)
    requires tol > 0.0
    ensures CellIndex(tol, c as real * tol) == c
  {
    assert c as real * tol / tol == c as real;
    PointDedup.RoundInteger(c);
  }

  /** The hash code of a key is the cell it was snapped from. */
  lemma KeyHashOfQuantised(tol: real, position: Point3)
    requires tol > 0.0
    ensures KeyHash(tol, Quantise(tol, position)) == PointDedup.Cell(CellIndex(tol, position.x), CellIndex(tol, position.y))
  {
    var cx, cy := CellIndex(tol, position.x), CellIndex(tol, position.y);
    CellOfSnapped(tol, cx);
    CellOfSnapped(tol, cy);
    assert Quantise(tol, position) == Point3(cx as real * tol, cy as real * tol, 0.0);
  }

  /**
   * On snapped keys the dictionary's lookup (equal hash codes and Equals)
   * finds exactly the equal key, so the dictionary is a map on keys.
   */
  lemma LookupIsKeyEquality(tol: real, p: Point3, q: Point3)
    requires tol > 0.0
    ensures var a, b := Quantise(tol, p), Quantise(tol, q);
            (KeyHash(tol, a) == KeyHash(tol, b) && KeyEquals(tol, a, b)) <==> a == b
  {
    KeyHashOfQuantised(tol, p);
    KeyHashOfQuantised(tol, q);
  }

  /**
   * Keys of neighbouring cells are Equal under the comparer, whose test is
   * "at most the tolerance", yet their hash codes differ, so they stay two
   * entries.
   */
  lemma NeighbourKeysStaySeparate()
    ensures var tol := Tolerance(Millimeters);
            var a, b := Quantise(tol, Point3(0.0, 0.0, 7.0)), Quantise(tol, Point3(0.1, 0.0, 9.0));
            KeyEquals(tol, a, b) && a != b && KeyHash(tol, a) != KeyHash(tol, b)
  {
    var tol := Tolerance(Millimeters);
    CellOfSnapped(tol, 0);
    CellOfSnapped(tol, 1);
    assert CellIndex(tol, 0.1) == 1 by {
      assert 0.1 / tol == 1.0;
      PointDedup.RoundInteger(1);
    }
    assert CellIndex(tol, 0.0) == 0 by {
      assert 0.0 / tol == 0.0;
      PointDedup.RoundInteger(0);
    }
  }

  // ---------------------------------------------------------------------
  // Labels
  // ---------------------------------------------------------------------

  /** A selected entity: single-line text, multi-line text, or anything else. */
  datatype Entity =
    | DBText(position: Point3, textString: string)
    | MText(location: Point3, contents: string)
    | OtherEntity

  /** GetEntityData: the insertion point and the cleaned text of a text entity. */
  function GetEntityData(ent: Entity): (r: Option<(Point3, string)>)
    ensures r.None? <==> ent.OtherEntity?
  {
    match ent
    case DBText(position, textString) => Some((position, Labels.CleanText(textString)))
    case MText(location, contents) => Some((location, Labels.CleanText(contents)))
    case OtherEntity => None
  }

  /**
   * The text GetEntityData hands to ParseElevation has no line break, no \P
   * code and no white space at either end.
   */
  lemma EntityTextIsClean(ent: Entity)
    requires !ent.OtherEntity?
    ensures var text := GetEntityData(ent).value.1;
            && Labels.NoLineBreaks(text) && Labels.NoParagraphCode(text)
            && (text != [] ==> !Labels.IsWhiteSpace(text[0]) && !Labels.IsWhiteSpace(text[|text| - 1]))
  {
    if ent.DBText? {
      Labels.CleanTextIsClean(ent.textString);
    } else {
      Labels.CleanTextIsClean(ent.contents);
    }
  }

  /** One elevation sample: the dictionary key and the elevation. */
  datatype Sample = Sample(key: Point3, z: real)

  /** What ProcessEntity adds for an entity, when it adds anything. */
  function SampleOf(ent: Entity, tol: real): (r: Option<Sample>)
    requires tol > 0.0
    ensures r.Some? ==> r.value.key.z == 0.0
  {
    match GetEntityData(ent)
    case None => None
    case Some((position, text)) =>
      match Labels.ParseElevation(text)
      case None => None
      case Some(z) => Some(Sample(Quantise(tol, position), z))
  }

  // ---------------------------------------------------------------------
  // The dictionary, as a value
  // ---------------------------------------------------------------------

  /** The dictionary's keys in insertion order, and its entries. */
  datatype Table = Table(keys: seq<Point3>, values: map<Point3, real>)

  /** Each key listed once, and the listed keys are the entries' keys. */
  ghost predicate WellKeyed(t: Table) {
    && (forall i, j :: 0 <= i < j < |t.keys| ==> t.keys[i] != t.keys[j])
    && (forall k :: k in t.values <==> k in t.keys)
  }

  /**
   * The update ProcessEntity makes: an absent key gets the elevation, a
   * present one keeps the greater of its value and the elevation, and every
   * other entry is left as it was.
   */
  function Insert(t: Table, s: Sample): (r: Table)
    ensures r.values.Keys == t.values.Keys + {s.key}
    ensures r.values[s.key] == if s.key in t.values then Max(t.values[s.key], s.z) else s.z
    ensures forall k :: k in t.values && k != s.key ==> r.values[k] == t.values[k]
  {
    if s.key in t.values then
      Table(t.keys, t.values[s.key := if s.z > t.values[s.key] then s.z else t.values[s.key]])
    else
      Table(t.keys + [s.key], t.values[s.key := s.z])
  }

  /** An insertion keeps each key listed once, and only the entries' keys listed. */
  lemma InsertKeepsWellKeyed(t: Table, s: Sample)
    requires WellKeyed(t)
    ensures WellKeyed(Insert(t, s))
  {
  }

  /** The dictionary after the samples ss, starting empty. */
  function Fold(ss: seq<Sample>): Table {
    if ss == [] then Table([], map[]) else Insert(Fold(ss[..|ss| - 1]), ss[|ss| - 1])
  }

  /** One more sample is one more insertion. */
  lemma FoldStep(ss: seq<Sample>, s: Sample)
    ensures Fold(ss + [s]) == Insert(Fold(ss), s)
  {
    assert (ss + [s])[..|ss|] == ss;
  }

  lemma {:induction false} FoldIsWellKeyed(ss: seq<Sample>)
    ensures WellKeyed(Fold(ss))
  {
    if ss != [] {
      FoldIsWellKeyed(ss[..|ss| - 1]);
      InsertKeepsWellKeyed(Fold(ss[..|ss| - 1]), ss[|ss| - 1]);
    }
  }

  /** A key is in the dictionary exactly when some sample had it. */
  lemma {:induction false} FoldKeys(ss: seq<Sample>, k: Point3)
    ensures k in Fold(ss).values <==> exists j :: 0 <= j < |ss| && ss[j].key == k
  {
    if ss != [] {
      var init := ss[..|ss| - 1];
      FoldKeys(init, k);
      if exists j :: 0 <= j < |init| && init[j].key == k {
        var j :| 0 <= j < |init| && init[j].key == k;
        assert ss[j].key == k;
      }
      if exists j :: 0 <= j < |ss| && ss[j].key == k {
        var j :| 0 <= j < |ss| && ss[j].key == k;
        if j < |init| {
          assert init[j].key == k;
        }
      }
    }
  }

  /** An insertion never lowers an entry. */
  lemma InsertKeepsEntry(t: Table, s: Sample, k: Point3)
    requires k in t.values
    ensures k in Insert(t, s).values && t.values[k] <= Insert(t, s).values[k]
  {
  }

  /** Each key's value is at least every elevation sampled for it. */
  lemma {:induction false} FoldIsUpperBound(ss: seq<Sample>, j: nat)
    requires j < |ss|
    ensures ss[j].key in Fold(ss).values && ss[j].z <= Fold(ss).values[ss[j].key]
  {
    var init := ss[..|ss| - 1];
    if j < |init| {
      FoldIsUpperBound(init, j);
      assert init[j] == ss[j];
      InsertKeepsEntry(Fold(init), ss[|ss| - 1], ss[j].key);
    }
  }

  /** Each key's value is one of the elevations sampled for it. */
  lemma {:induction false} FoldIsAttained(ss: seq<Sample>, k: Point3)
    requires k in Fold(ss).values
    ensures exists j :: 0 <= j < |ss| && ss[j].key == k && ss[j].z == Fold(ss).values[k]
  {
    var init := ss[..|ss| - 1];
    var last := ss[|ss| - 1];
    if k == last.key && (k !in Fold(init).values || last.z > Fold(init).values[k]) {
      assert ss[|ss| - 1].key == k;
    } else {
      FoldIsAttained(init, k);
      var j :| 0 <= j < |init| && init[j].key == k && init[j].z == Fold(init).values[k];
      assert ss[j] == init[j];
    }
  }

  /** The dictionary's entries as points, in its order, each at its entry's elevation. */
  function Entries(t: Table): (points: seq<Point3>)
    requires WellKeyed(t)
    ensures |points| == |t.keys|
  {
    seq(|t.keys|, i requires 0 <= i < |t.keys| => Point3(t.keys[i].x, t.keys[i].y, t.values[t.keys[i]]))
  }

  /** The output points after the samples ss. */
  function Output(ss: seq<Sample>): (points: seq<Point3>)
    ensures |points| == |Fold(ss).keys|
  {
    FoldIsWellKeyed(ss);
    Entries(Fold(ss))
  }

  /**
   * Each output point is a sampled key (so it lies on the grid with Z = 0
   * before the elevation is put in) at the highest elevation sampled there.
   */
  lemma OutputIsHighestPerKey(ss: seq<Sample>, i: nat)
    requires forall j :: 0 <= j < |ss| ==> ss[j].key.z == 0.0
    requires i < |Fold(ss).keys|
    ensures var p := Output(ss)[i];
            var key := Point3(p.x, p.y, 0.0);
            && (exists j :: 0 <= j < |ss| && ss[j].key == key && ss[j].z == p.z)
            && (forall j :: 0 <= j < |ss| && ss[j].key == key ==> ss[j].z <= p.z)
  {
    FoldIsWellKeyed(ss);
    var t := Fold(ss);
    var k := t.keys[i];
    FoldKeys(ss, k);
    var j0 :| 0 <= j0 < |ss| && ss[j0].key == k;
    assert k == Point3(k.x, k.y, 0.0);
    FoldIsAttained(ss, k);
    forall j | 0 <= j < |ss| && ss[j].key == k
      ensures ss[j].z <= t.values[k]
    {
      FoldIsUpperBound(ss, j);
    }
  }

  // ---------------------------------------------------------------------
  // The dictionary, as the object the source updates
  // ---------------------------------------------------------------------

  /** Dictionary<Point3d, double> with the key comparer reduced to key equality. */
  class PointMap {
    var keys: seq<Point3>
    var values: map<Point3, real>
    /** The samples recorded so far, in order. */
    ghost var samples: seq<Sample>

    /** The entries are the fold of the recorded samples, each key listed once. */
    ghost predicate Valid()
      reads this
    {
      WellKeyed(Table(keys, values)) && Table(keys, values) == Fold(samples)
    }

    constructor ()
      ensures Valid() && keys == [] && values == map[] && samples == []
    {
      keys := [];
      values := map[];
      samples := [];
    }

    method TryGetValue(key: Point3) returns (found: bool, value: real)
      ensures found <==> key in values
      ensures found ==> value == values[key]
    {
      found := key in values;
      value := if found then values[key] else 0.0;
    }

    /** The indexer's setter on a present key. */
    method SetValue(key: Point3, value: real)
      requires WellKeyed(Table(keys, values)) && key in values
      modifies this
      ensures WellKeyed(Table(keys, values))
      ensures keys == old(keys) && values == old(values)[key := value] && samples == old(samples)
    {
      values := values[key := value];
    }

    /** Add, which the source calls only for an absent key. */
    method Add(key: Point3, value: real)
      requires WellKeyed(Table(keys, values)) && key !in values
      modifies this
      ensures WellKeyed(Table(keys, values))
      ensures keys == old(keys) + [key] && values == old(values)[key := value] && samples == old(samples)
    {
      keys := keys + [key];
      values := values[key := value];
    }

    /** Keeps the highest elevation per key: adds an absent key, raises a lower value. */
    method KeepHighest(key: Point3, z: real)
      requires Valid()
      modifies this
      ensures Valid() && samples == old(samples) + [Sample(key, z)]
      ensures Table(keys, values) == Insert(old(Table(keys, values)), Sample(key, z))
    {
      ghost var t := Table(keys, values);
      var found, existingZ := TryGetValue(key);
      if found {
        if z > existingZ {
          SetValue(key, z);
        }
      } else {
        Add(key, z);
      }
      assert Table(keys, values) == Insert(t, Sample(key, z));
      FoldStep(samples, Sample(key, z));
      samples := samples + [Sample(key, z)];
    }
  }

  /**
   * ProcessEntity: reads the label, snaps its position and keeps the higher
   * elevation per key; a label that is not text or has no number leaves the
   * dictionary untouched and gives false.
   */
  method ProcessEntity(ent: Entity, pointMap: PointMap, tolerance: real) returns (ok: bool)
    requires pointMap.Valid() && tolerance > 0.0
    modifies pointMap
    ensures pointMap.Valid()
    ensures ok <==> SampleOf(ent, tolerance).Some?
    ensures pointMap.samples == old(pointMap.samples) + if ok then [SampleOf(ent, tolerance).value] else []
    ensures !ok ==> pointMap.keys == old(pointMap.keys) && pointMap.values == old(pointMap.values)
    ensures ok ==> Table(pointMap.keys, pointMap.values)
                   == Insert(old(Table(pointMap.keys, pointMap.values)), SampleOf(ent, tolerance).value)
  {
    ghost var sample := SampleOf(ent, tolerance);
    var data := GetEntityData(ent);
    if data.None? {
      assert sample.None?;
      return false;
    }
    var (position, text) := data.value;
    var parsed := Labels.ParseElevation(text);
    if parsed.None? {
      assert sample.None?;
      return false;
    }
    var z := parsed.value;
    var key := Quantise(tolerance, position);
    assert sample == Some(Sample(key, z));
    pointMap.KeepHighest(key, z);
    return true;
  }

  // ---------------------------------------------------------------------
  // ProcessEntities
  // ---------------------------------------------------------------------

  /** A selected label with its effective colour index. */
  datatype Selected = Selected(entity: Entity, color: int)

  /** The samples given by the first k labels that have the target colour and give one. */
  function Samples(selection: seq<Selected>, k: nat, target: int, tol: real): (ss: seq<Sample>)
    requires k <= |selection| && tol > 0.0
    ensures |ss| <= k
    ensures forall j :: 0 <= j < |ss| ==> ss[j].key.z == 0.0
  {
    if k == 0 then []
    else
      var s := selection[k - 1];
      var sample := SampleOf(s.entity, tol);
      if s.color == target && sample.Some? then Samples(selection, k - 1, target, tol) + [sample.value]
      else Samples(selection, k - 1, target, tol)
  }

  /** Every one of the first k labels of the target colour that gives a sample contributes it. */
  lemma {:induction false} LabelsGiveSamples(selection: seq<Selected>, k: nat, target: int, tol: real, i: nat)
    requires i < k <= |selection| && tol > 0.0
    requires selection[i].color == target && SampleOf(selection[i].entity, tol).Some?
    ensures SampleOf(selection[i].entity, tol).value in Samples(selection, k, target, tol)
  {
    var prev := Samples(selection, k - 1, target, tol);
    if i < k - 1 {
      LabelsGiveSamples(selection, k - 1, target, tol, i);
      assert prev <= Samples(selection, k, target, tol);
    }
  }

  /**
   * Every label of the target colour that gives a sample shows up in the
   * output: a point at its grid key, at its elevation or a higher one.
   */
  lemma LabelReachesOutput(selection: seq<Selected>, target: int, tol: real, i: nat)
    requires i < |selection| && tol > 0.0
    requires selection[i].color == target && SampleOf(selection[i].entity, tol).Some?
    ensures var s := SampleOf(selection[i].entity, tol).value;
            exists p :: p in Output(Samples(selection, |selection|, target, tol))
                        && p.x == s.key.x && p.y == s.key.y && s.z <= p.z
  {
    var s := SampleOf(selection[i].entity, tol).value;
    var ss := Samples(selection, |selection|, target, tol);
    LabelsGiveSamples(selection, |selection|, target, tol, i);
    var j :| 0 <= j < |ss| && ss[j] == s;
    FoldIsUpperBound(ss, j);
    FoldIsWellKeyed(ss);
    var t := Fold(ss);
    var m :| 0 <= m < |t.keys| && t.keys[m] == s.key;
    assert Output(ss)[m] == Point3(s.key.x, s.key.y, t.values[s.key]);
  }

  /** The number of labels of another colour among the first k. */
  function Mismatches(selection: seq<Selected>, k: nat, target: int): (n: nat)
    requires k <= |selection|
    ensures n <= k
  {
    if k == 0 then 0
    else Mismatches(selection, k - 1, target) + if selection[k - 1].color != target then 1 else 0
  }

  /**
   * ProcessEntities: every label of the target colour goes through
   * ProcessEntity, then each dictionary entry becomes a point at its
   * elevation. Also returns the processed and colour-mismatch counters.
   */
  method ProcessEntities(selection: seq<Selected>, targetColorIndex: int, units: Units)
    returns (points: seq<Point3>, processed: nat, colorMismatch: nat)
    ensures var ss := Samples(selection, |selection|, targetColorIndex, Tolerance(units));
            points == Output(ss) && processed == |ss|
    ensures colorMismatch == Mismatches(selection, |selection|, targetColorIndex)
  {
    var tolerance := Tolerance(units);
    var pointMap := new PointMap();
    processed, colorMismatch := 0, 0;
    var k := 0;
    while k < |selection|
      invariant 0 <= k <= |selection| && fresh(pointMap) && pointMap.Valid()
      invariant pointMap.samples == Samples(selection, k, targetColorIndex, tolerance)
      invariant processed == |pointMap.samples|
      invariant colorMismatch == Mismatches(selection, k, targetColorIndex)
    {
      processed, colorMismatch := ProcessSelected(selection, k, targetColorIndex, tolerance, pointMap,
                                                   processed, colorMismatch);
      k := k + 1;
    }
    points := AddPoints(pointMap);
  }

  /**
   * One pass of the first loop of ProcessEntities: a label of another colour
   * is counted as a mismatch, one of the target colour goes through
   * ProcessEntity and is counted when it gives a sample.
   */
  method ProcessSelected(selection: seq<Selected>, k: nat, target: int, tolerance: real, pointMap: PointMap,
                         processed0: nat, colorMismatch0: nat)
    returns (processed: nat, colorMismatch: nat)
    requires k < |selection| && tolerance > 0.0
    requires pointMap.Valid() && pointMap.samples == Samples(selection, k, target, tolerance)
    requires processed0 == |pointMap.samples| && colorMismatch0 == Mismatches(selection, k, target)
    modifies pointMap
    ensures pointMap.Valid() && pointMap.samples == Samples(selection, k + 1, target, tolerance)
    ensures processed == |pointMap.samples| && colorMismatch == Mismatches(selection, k + 1, target)
  {
    processed, colorMismatch := processed0, colorMismatch0;
    var obj := selection[k];
    if obj.color != target {
      colorMismatch := colorMismatch + 1;
    } else {
      var ok := ProcessEntity(obj.entity, pointMap, tolerance);
      if ok {
        processed := processed + 1;
      }
    }
  }

  /** The second loop of ProcessEntities: one point per dictionary entry, in its order. */
  method AddPoints(pointMap: PointMap) returns (points: seq<Point3>)
    requires pointMap.Valid()
    ensures points == Entries(Table(pointMap.keys, pointMap.values))
  {
    points := [];
    var i := 0;
    while i < |pointMap.keys|
      invariant 0 <= i <= |pointMap.keys|
      invariant points == Entries(Table(pointMap.keys, pointMap.values))[..i]
    {
      var key := pointMap.keys[i];
      points := points + [Point3(key.x, key.y, pointMap.values[key])];
      i := i + 1;
    }
  }
}
