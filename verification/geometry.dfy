/**
  The wrapper `is_point_in_polygon` around the geometry library. The library
  itself (building a point and a polygon over floating-point coordinates, and
  the `contains` and `touches` predicates) is a parameter; each of its
  operations may raise, which `None` stands for.
 */
module Geometry {
  import opened Options
  import opened PyJson

  /** A vertex as the wrapper hands it to the library: `(coord[0], coord[1])`. */
  type Vertex = (Json, Json)

  /** The geometry library over shapes of type `Shape`. */
  datatype Shapely<!Shape> = Shapely(
    point: (Json, Json) -> Option<Shape>,
    polygon: (seq<Vertex>, Option<seq<seq<Vertex>>>) -> Option<Shape>,
    contains: (Shape, Shape) -> Option<bool>,
    touches: (Shape, Shape) -> Option<bool>)

  /** The ring split: the exterior ring, and the holes when there is more than
      one ring (`None` when the polygon is built without a holes argument). */
  datatype Rings = Rings(exterior: seq<Vertex>, holes: Option<seq<seq<Vertex>>>)

  /** `[(coord[0], coord[1]) for coord in coords]`. */
  function VerticesOf(coords: seq<Json>): (r: Option<seq<Vertex>>)
    ensures r.Some? <==> forall i :: 0 <= i < |coords| ==> PairLike(coords[i])
    ensures r.Some? ==> |r.value| == |coords|
    ensures r.Some? ==> forall i :: 0 <= i < |coords| ==> r.value[i] == (At(coords[i], 0).value, At(coords[i], 1).value)
  {
    if coords == [] then Some([])
    else
      var x :- At(coords[0], 0);
      var y :- At(coords[0], 1);
      var rest :- VerticesOf(coords[1..]);
      Some([(x, y)] + rest)
  }

  /** The vertices of one ring, read as the comprehension over `ring` reads them. */
  function RingVertices(ring: Json): Option<seq<Vertex>>
  {
    var coords :- Elements(ring);
    VerticesOf(coords)
  }

  /** The vertices of every hole ring, in order; `None` if any ring is malformed. */
  function HoleVertices(holes: seq<Json>): (r: Option<seq<seq<Vertex>>>)
    ensures r.Some? <==> forall i :: 0 <= i < |holes| ==> RingVertices(holes[i]).Some?
    ensures r.Some? ==> |r.value| == |holes|
    ensures r.Some? ==> forall i :: 0 <= i < |holes| ==> r.value[i] == RingVertices(holes[i]).value
  {
    if holes == [] then Some([])
    else
      var first :- RingVertices(holes[0]);
      var rest :- HoleVertices(holes[1..]);
      Some([first] + rest)
  }

  /** Splits the zone's rings: ring 0 is the exterior and every later ring is a
      hole. Only a non-empty list of well-formed rings can be split. */
  function ZoneRings(zone: Json): (r: Option<Rings>)
    ensures r.Some? <==>
      zone.JArray? && |zone.items| >= 1 && forall i :: 0 <= i < |zone.items| ==> RingVertices(zone.items[i]).Some?
    ensures r.Some? ==> r.value.exterior == RingVertices(zone.items[0]).value
    ensures r.Some? ==> (r.value.holes.Some? <==> |zone.items| > 1)
    ensures r.Some? && r.value.holes.Some? ==>
      && |r.value.holes.value| == |zone.items| - 1
      && forall i :: 1 <= i < |zone.items| ==> r.value.holes.value[i - 1] == RingVertices(zone.items[i]).value
  {
    match zone
    case JArray(rings) =>
      if rings == [] then None
      else
        var exterior :- RingVertices(rings[0]);
        if |rings| > 1 then
          var holes :- HoleVertices(rings[1..]);
          Some(Rings(exterior, Some(holes)))
        else
          Some(Rings(exterior, None))
    // Ring 0 of a string is a one-character string, and the single "vertex"
    // read from it has no second component (see OnlyListsHaveRings).
    case _ => None
  }

  /** `polygon.contains(point) or polygon.touches(point)`, where a raising
      predicate makes the whole test false. */
  function Covers<Shape>(lib: Shapely<Shape>, polygon: Shape, point: Shape): (r: bool)
    ensures r <==>
      || lib.contains(polygon, point) == Some(true)
      || (lib.contains(polygon, point) == Some(false) && lib.touches(polygon, point) == Some(true))
  {
    match lib.contains(polygon, point)
    case None => false
    case Some(inside) =>
      if inside then true
      else
        match lib.touches(polygon, point)
        case None => false
        case Some(onBoundary) => onBoundary
  }

  /** What `is_point_in_polygon(lat, lon, zone)` returns. */
  function PointInPolygon<Shape>(lib: Shapely<Shape>, lat: Json, lon: Json, zone: Json): (r: bool)
    ensures r ==> lib.point(lon, lat).Some?
    ensures r ==> ZoneRings(zone).Some?
    ensures ZoneRings(zone).Some? ==>
      var rings := ZoneRings(zone).value;
      && (r ==> lib.polygon(rings.exterior, rings.holes).Some?)
      && (lib.point(lon, lat).Some? && lib.polygon(rings.exterior, rings.holes).Some? ==>
            r == Covers(lib, lib.polygon(rings.exterior, rings.holes).value, lib.point(lon, lat).value))
  {
    match lib.point(lon, lat)
    case None => false
    case Some(point) =>
      match ZoneRings(zone)
      case None => false
      case Some(rings) =>
        match lib.polygon(rings.exterior, rings.holes)
        case None => false
        case Some(polygon) => Covers(lib, polygon, point)
  }

  /** An empty list of rings raises an IndexError, so the point is out of zone. */
  lemma EmptyZoneIsOutOfZone<Shape>(lib: Shapely<Shape>, lat: Json, lon: Json)
    ensures !PointInPolygon(lib, lat, lon, JArray([]))
  {
  }

  /** A point the library reports on the zone's boundary is in zone. */
  lemma BoundaryIsInZone<Shape>(lib: Shapely<Shape>, lat: Json, lon: Json, zone: Json, polygon: Shape, point: Shape)
    requires lib.point(lon, lat) == Some(point)
    requires ZoneRings(zone).Some?
    requires lib.polygon(ZoneRings(zone).value.exterior, ZoneRings(zone).value.holes) == Some(polygon)
    requires lib.contains(polygon, point).Some? && lib.touches(polygon, point) == Some(true)
    ensures PointInPolygon(lib, lat, lon, zone)
  {
  }

  /** A zone whose first ring can be read is a list: for a string, ring 0 is a
      one-character string, whose single "vertex" has no second component. */
  lemma OnlyListsHaveRings(zone: Json)
    requires At(zone, 0).Some? && RingVertices(At(zone, 0).value).Some?
    ensures zone.JArray?
  {
  }

  /** The wrapper: ring 0 becomes the exterior, and the loop collects every
      later ring as a hole; anything that raises makes the answer false. */
  method IsPointInPolygon<Shape>(lib: Shapely<Shape>, lat: Json, lon: Json, zone: Json) returns (inZone: bool)
    ensures inZone == PointInPolygon(lib, lat, lon, zone)
  {
    var point := lib.point(lon, lat);
    if point.None? {
      return false;
    }
    var exteriorRing := At(zone, 0);
    if exteriorRing.None? {
      return false;
    }
    var exterior := RingVertices(exteriorRing.value);
    if exterior.None? {
      return false;
    }
    OnlyListsHaveRings(zone);
    var polygon;
    if Len(zone).value > 1 {
      var rest := Elements(Tail(zone).value).value;
      var holes: seq<seq<Vertex>> := [];
      var i := 0;
      while i < |rest|
        invariant 0 <= i <= |rest|
        invariant |holes| == i
        invariant forall j :: 0 <= j < i ==> RingVertices(rest[j]) == Some(holes[j])
      {
        var hole := RingVertices(rest[i]);
        if hole.None? {
          assert rest[i] == zone.items[i + 1];
          assert ZoneRings(zone).None?;
          return false;
        }
        holes := holes + [hole.value];
        i := i + 1;
      }
      assert HoleVertices(rest).Some?;
      assert HoleVertices(rest).value == holes;
      assert ZoneRings(zone) == Some(Rings(exterior.value, Some(holes)));
      polygon := lib.polygon(exterior.value, Some(holes));
    } else {
      assert ZoneRings(zone) == Some(Rings(exterior.value, None));
      polygon := lib.polygon(exterior.value, None);
    }
    if polygon.None? {
      return false;
    }
    inZone := Covers(lib, polygon.value, point.value);
  }
}
