/**
 * The collision-shape JSON of src/utils/polygon_body.ts: extracting the landing
 * line, and the filter that keeps the landing polygon out of the physics body.
 *
 * A shape is {polygons: [{name, points}]}; a missing field is None. Building
 * the Matter bodies from the remaining polygons is not modelled.
 */
module PolygonBody {
  import opened Wrappers
  import opened Geometry

  /** The name that marks the polygon holding the landing line. */
  const LandingName: string := "landing"

  datatype Polygon = Polygon(name: string, points: Option<seq<Vec>>)

  datatype CollisionJson = CollisionJson(polygons: Option<seq<Polygon>>)

  /** The two errors getLandingLine throws. */
  datatype LandingLineError = NoPolygons | LandingPolygonInvalid

  /** The index of the first polygon, from i on, named "landing". */
  function FindLandingFrom(polygons: seq<Polygon>, i: nat): (r: Option<nat>)
    requires i <= |polygons|
    ensures r.Some? ==> i <= r.value < |polygons| && polygons[r.value].name == LandingName
    ensures r.Some? ==> forall j :: i <= j < r.value ==> polygons[j].name != LandingName
    ensures r.None? ==> forall j :: i <= j < |polygons| ==> polygons[j].name != LandingName
    decreases |polygons| - i
  {
    if i == |polygons| then None
    else if polygons[i].name == LandingName then Some(i)
    else FindLandingFrom(polygons, i + 1)
  }

  /** Array.find for the landing polygon: the first one named "landing". */
  function FindLanding(polygons: seq<Polygon>): (r: Option<nat>)
    ensures r.Some? ==> r.value < |polygons| && polygons[r.value].name == LandingName
    ensures r.Some? ==> forall j :: 0 <= j < r.value ==> polygons[j].name != LandingName
    ensures r.None? ==> forall j :: 0 <= j < |polygons| ==> polygons[j].name != LandingName
  {
    FindLandingFrom(polygons, 0)
  }

  /**
   * getLandingLine: the two points of the first polygon named "landing", in their
   * order; an error when the shape has no polygons, or when that polygon is
   * missing or does not have exactly two points.
   */
  function GetLandingLine(json: Option<CollisionJson>): (r: Result<(Vec, Vec), LandingLineError>)
    ensures (json.None? || json.value.polygons.None?) <==> r == Failure(NoPolygons)
    ensures r.Success? <==>
      json.Some? && json.value.polygons.Some?
      && var found := FindLanding(json.value.polygons.value);
         found.Some?
         && var points := json.value.polygons.value[found.value].points;
            points.Some? && |points.value| == 2
    ensures r.Success? ==>
      var polygon := json.value.polygons.value[FindLanding(json.value.polygons.value).value];
      r.value == (polygon.points.value[0], polygon.points.value[1])
  {
    if json.None? || json.value.polygons.None? then Failure(NoPolygons)
    else
      var polygons := json.value.polygons.value;
      match FindLanding(polygons)
      case None => Failure(LandingPolygonInvalid)
      case Some(k) =>
        var points := polygons[k].points;
        if points.None? || |points.value| != 2 then Failure(LandingPolygonInvalid)
        else Success((points.value[0], points.value[1]))
  }

  /** A landing polygon listed before another one wins, whatever the later one holds. */
  lemma FirstLandingPolygonWins(before: seq<Polygon>, landing: Polygon, after: seq<Polygon>)
    requires landing.name == LandingName
    requires forall j :: 0 <= j < |before| ==> before[j].name != LandingName
    requires landing.points.Some? && |landing.points.value| == 2
    ensures GetLandingLine(Some(CollisionJson(Some(before + [landing] + after))))
         == Success((landing.points.value[0], landing.points.value[1]))
  {
    var polygons := before + [landing] + after;
    assert polygons[|before|] == landing;
    assert forall j :: 0 <= j < |before| ==> polygons[j] == before[j];
  }

  /** The polygons setPolygonBody turns into collision parts: all but those named "landing". */
  function CollisionPolygons(polygons: seq<Polygon>): (parts: seq<Polygon>)
    ensures |parts| <= |polygons|
    decreases |polygons|
  {
    if polygons == [] then []
    else if polygons[0].name == LandingName then CollisionPolygons(polygons[1..])
    else [polygons[0]] + CollisionPolygons(polygons[1..])
  }

  /** A polygon is a collision part exactly when it is in the shape and not named "landing". */
  lemma {:induction false} CollisionPolygonsMembers(polygons: seq<Polygon>, p: Polygon)
    ensures p in CollisionPolygons(polygons) <==> p in polygons && p.name != LandingName
    decreases |polygons|
  {
    if polygons != [] {
      CollisionPolygonsMembers(polygons[1..], p);
      assert polygons == [polygons[0]] + polygons[1..];
    }
  }

  /** The filter keeps the order: it distributes over concatenation. */
  lemma {:induction false} CollisionPolygonsAppend(a: seq<Polygon>, b: seq<Polygon>)
    ensures CollisionPolygons(a + b) == CollisionPolygons(a) + CollisionPolygons(b)
    decreases |a|
  {
    if a == [] {
      assert a + b == b;
    } else {
      CollisionPolygonsAppend(a[1..], b);
      assert (a + b)[1..] == a[1..] + b;
    }
  }

  /** Filtering twice is filtering once. */
  lemma {:induction false} CollisionPolygonsIdempotent(polygons: seq<Polygon>)
    ensures CollisionPolygons(CollisionPolygons(polygons)) == CollisionPolygons(polygons)
    decreases |polygons|
  {
    if polygons != [] {
      CollisionPolygonsIdempotent(polygons[1..]);
      if polygons[0].name != LandingName {
        var rest := CollisionPolygons(polygons[1..]);
        assert ([polygons[0]] + rest)[1..] == rest;
      }
    }
  }

  /** What setPolygonBody works with: nothing for a shape without polygons. */
  function BodyPolygons(json: Option<CollisionJson>): (parts: seq<Polygon>)
    ensures forall p :: p in parts ==> p.name != LandingName
  {
    if json.None? || json.value.polygons.None? then []
    else
      var polygons := json.value.polygons.value;
      forall p ensures p in CollisionPolygons(polygons) ==> p.name != LandingName {
        CollisionPolygonsMembers(polygons, p);
      }
      CollisionPolygons(polygons)
  }
}
