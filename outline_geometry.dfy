/** The geometry that outline cleaning works on, and its first step, ring reduction: every
    polygon part keeps only its exterior ring `poly[0]`. The geometry library itself
    (validity, repair, area, bounding box, containment) is given as a value of
    `GeometryOps`. */
module OutlineGeometry {
  import opened Wrappers

  datatype Point = Point(x: real, y: real)

  /** A ring is a closed line of vertices; a polygon is its exterior ring followed by its holes. */
  type Ring = seq<Point>
  type Polygon = seq<Ring>

  /** A feature geometry: null, a single polygon, or a multipolygon. */
  datatype Geometry = Null | Single(poly: Polygon) | Multi(parts: seq<Polygon>)

  /** An axis-aligned rectangle, as `boundingBox()` returns it. */
  datatype Box = Box(xMin: real, yMin: real, xMax: real, yMax: real)

  /** `outer.contains(inner)` of two rectangles. */
  predicate BoxContains(outer: Box, inner: Box) {
    outer.xMin <= inner.xMin && outer.yMin <= inner.yMin && inner.xMax <= outer.xMax && inner.yMax <= outer.yMax
  }

  /** The geometry library: `isGeosValid`, `makeValid`, `area`, `boundingBox` and `contains`. */
  datatype GeometryOps = GeometryOps(
    isValid: Geometry -> bool,
    makeValid: Geometry -> Geometry,
    area: Geometry -> real,
    bbox: Geometry -> Box,
    contains: (Geometry, Geometry) -> bool)

  predicate NoVertex(p: Polygon) {
    forall i :: 0 <= i < |p| ==> p[i] == []
  }

  /** `isEmpty()`: the geometry has no vertex at all. */
  predicate IsEmpty(g: Geometry) {
    match g
    case Null => true
    case Single(p) => NoVertex(p)
    case Multi(ps) => forall i :: 0 <= i < |ps| ==> NoVertex(ps[i])
  }

  /** `[[poly[0]] for poly in parts if poly and len(poly) > 0]`. */
  function Exteriors(ps: seq<Polygon>): seq<Polygon> {
    if ps == [] then []
    else
      var last := ps[|ps| - 1];
      Exteriors(ps[..|ps| - 1]) + (if |last| > 0 then [[last[0]]] else [])
  }

  /** Every part of the reduced multipolygon is a single ring. */
  predicate OneRingEach(ps: seq<Polygon>) {
    forall i :: 0 <= i < |ps| ==> |ps[i]| == 1
  }

  /** No part is kept with holes, none is made up, and each exterior of a non-empty part is kept;
      the result is empty exactly when every part is. */
  lemma {:induction false} ExteriorsMeaning(ps: seq<Polygon>)
    ensures |Exteriors(ps)| <= |ps|
    ensures OneRingEach(Exteriors(ps))
    ensures forall e :: e in Exteriors(ps) ==> exists i :: 0 <= i < |ps| && |ps[i]| > 0 && e == [ps[i][0]]
    ensures forall i :: 0 <= i < |ps| && |ps[i]| > 0 ==> [ps[i][0]] in Exteriors(ps)
    ensures Exteriors(ps) == [] <==> forall i :: 0 <= i < |ps| ==> ps[i] == []
  {
    if ps != [] {
      var init := ps[..|ps| - 1];
      var last := ps[|ps| - 1];
      ExteriorsMeaning(init);
      forall e | e in Exteriors(ps) ensures exists i :: 0 <= i < |ps| && |ps[i]| > 0 && e == [ps[i][0]] {
        if e in Exteriors(init) {
          var i :| 0 <= i < |init| && |init[i]| > 0 && e == [init[i][0]];
          assert ps[i] == init[i];
        } else {
          assert ps[|ps| - 1] == last;
        }
      }
      forall i | 0 <= i < |ps| && |ps[i]| > 0 ensures [ps[i][0]] in Exteriors(ps) {
        if i < |init| {
          assert ps[i] == init[i];
        }
      }
      if Exteriors(ps) == [] {
        forall i | 0 <= i < |ps| ensures ps[i] == [] {
          if i < |init| {
            assert ps[i] == init[i];
          }
        }
      }
    }
  }

  /** Parts that already are single rings are left as they are. */
  lemma {:induction false} ExteriorsOfOneRingEach(ps: seq<Polygon>)
    requires OneRingEach(ps)
    ensures Exteriors(ps) == ps
  {
    if ps != [] {
      ExteriorsOfOneRingEach(ps[..|ps| - 1]);
      assert ps[|ps| - 1] == [ps[|ps| - 1][0]];
      assert ps[..|ps| - 1] + [ps[|ps| - 1]] == ps;
    }
  }

  // ---------------------------------------------------------------- the two reductions

  /** The new geometry `clean_outline_layer_batch` records for a feature, or None when it
      records nothing: null and empty geometries are skipped, an invalid one is repaired
      first, and a multipolygon is replaced only when some part is non-empty. */
  function BatchChange(ops: GeometryOps, g: Geometry): Option<Geometry> {
    if IsEmpty(g) then None
    else
      var h := if ops.isValid(g) then g else ops.makeValid(g);
      match h
      case Multi(ps) => if Exteriors(ps) != [] then Some(Multi(Exteriors(ps))) else None
      case Single(p) => if |p| > 0 then Some(Single([p[0]])) else None
      case Null => None
  }

  /** The geometry of the feature once the change (if any) is written. */
  function BatchApply(ops: GeometryOps, g: Geometry): Geometry {
    match BatchChange(ops, g)
    case Some(h) => h
    case None => g
  }

  /** The new geometry `clean_outline_layer` writes, or None: it neither skips empty geometries
      nor repairs invalid ones, and it rewrites every non-empty multipolygon, even into an
      empty one. */
  function OldChange(g: Geometry): Option<Geometry> {
    match g
    case Single(p) => if |p| > 0 then Some(Single([p[0]])) else None
    case Multi(ps) => if ps != [] then Some(Multi(Exteriors(ps))) else None
    case Null => None
  }

  function OldApply(g: Geometry): Geometry {
    match OldChange(g)
    case Some(h) => h
    case None => g
  }

  /** A recorded change keeps exactly the exterior ring of each non-empty part, of the geometry
      as repaired; null and empty geometries get no change, and every valid geometry with a
      vertex gets one. */
  lemma BatchChangeMeaning(ops: GeometryOps, g: Geometry)
    ensures IsEmpty(g) ==> BatchChange(ops, g).None?
    ensures BatchChange(ops, g).Some? ==>
      var h := if ops.isValid(g) then g else ops.makeValid(g);
      match BatchChange(ops, g).value
      case Single(r) => h.Single? && |h.poly| > 0 && r == [h.poly[0]]
      case Multi(ps) =>
        && h.Multi? && ps != [] && OneRingEach(ps)
        && (forall e :: e in ps ==> exists i :: 0 <= i < |h.parts| && |h.parts[i]| > 0 && e == [h.parts[i][0]])
        && (forall i :: 0 <= i < |h.parts| && |h.parts[i]| > 0 ==> [h.parts[i][0]] in ps)
      case Null => false
    ensures !IsEmpty(g) && ops.isValid(g) ==> BatchChange(ops, g).Some?
  {
    var h := if ops.isValid(g) then g else ops.makeValid(g);
    if h.Multi? {
      ExteriorsMeaning(h.parts);
    }
  }

  /** Reducing twice is reducing once, provided the reduced geometry is valid (otherwise the
      second pass would repair it). */
  lemma BatchApplyIdempotent(ops: GeometryOps, g: Geometry)
    requires ops.isValid(BatchApply(ops, g))
    ensures BatchApply(ops, BatchApply(ops, g)) == BatchApply(ops, g)
  {
    var h := if ops.isValid(g) then g else ops.makeValid(g);
    if BatchChange(ops, g).Some? && h.Multi? {
      ExteriorsMeaning(h.parts);
      ExteriorsOfOneRingEach(Exteriors(h.parts));
    }
  }

  /** The older reduction: a polygon keeps its exterior ring, a non-empty multipolygon becomes
      the exteriors of its non-empty parts, and null or empty inputs are unchanged. */
  lemma OldChangeMeaning(g: Geometry)
    ensures g.Single? ==> OldChange(g) == if g.poly == [] then None else Some(Single([g.poly[0]]))
    ensures g.Multi? && g.parts != [] ==>
      && OldChange(g).Some? && OldChange(g).value.Multi?
      && var ps := OldChange(g).value.parts;
         && OneRingEach(ps)
         && (forall e :: e in ps ==> exists i :: 0 <= i < |g.parts| && |g.parts[i]| > 0 && e == [g.parts[i][0]])
         && (forall i :: 0 <= i < |g.parts| && |g.parts[i]| > 0 ==> [g.parts[i][0]] in ps)
         && (ps == [] <==> forall i :: 0 <= i < |g.parts| ==> g.parts[i] == [])
    ensures g.Null? || g == Multi([]) ==> OldApply(g) == g
  {
    if g.Multi? {
      ExteriorsMeaning(g.parts);
    }
  }

  lemma OldApplyIdempotent(g: Geometry)
    ensures OldApply(OldApply(g)) == OldApply(g)
  {
    if g.Multi? && g.parts != [] {
      ExteriorsMeaning(g.parts);
      ExteriorsOfOneRingEach(Exteriors(g.parts));
    }
  }

  /** On a valid geometry with a vertex the two reductions record the same change. */
  lemma ReductionsAgreeOnValid(ops: GeometryOps, g: Geometry)
    requires !IsEmpty(g) && ops.isValid(g)
    ensures BatchChange(ops, g) == OldChange(g)
  {
    if g.Multi? {
      ExteriorsMeaning(g.parts);
    }
  }

  /** They differ on empty geometries: a multipolygon of empty polygons has no vertex, so the
      newer reduction skips it while the older one writes an empty multipolygon. */
  lemma EmptyPartsExample(ops: GeometryOps)
    ensures BatchChange(ops, Multi([[]])).None?
    ensures OldChange(Multi([[]])) == Some(Multi([]))
  {
    assert Exteriors([[]]) == Exteriors([]) + [];
  }
}
