/**
 * Footprints. The SAFE manifest gives each footprint as the text of a
 * `gml:coordinates` element, a list of `lat,lon` pairs; the RVL NetCDF
 * attribute gives a GeoJSON FeatureCollection whose positions are
 * `[lon, lat]` (section 3.1.1 of RFC 7946). Coordinates are kept as the
 * tokens they are read from: the model decides which token becomes which
 * axis and how many points, rings and polygons are built.
 */
module Geometry {
  import opened Wrappers
  import opened Text
  import opened Failures

  /** A point, longitude first, each coordinate as its textual token. */
  datatype Point = Point(lon: string, lat: string)

  /** A polygon as a list of linear rings. */
  datatype Polygon = Polygon(rings: seq<seq<Point>>)

  datatype Geometry =
    | MultiPoint(points: seq<Point>)
    | MultiPolygon(polygons: seq<Polygon>)
    | SinglePolygon(polygon: Polygon)

  /**
   * `zip(coord[0::2], coord[1::2])` read as (lat, lon) pairs: one point per
   * complete pair, an odd last token is dropped.
   */
  function LatLonPoints(coord: seq<string>): (pts: seq<Point>)
    ensures |pts| == |coord| / 2
    ensures forall k :: 0 <= k < |pts| ==> pts[k] == Point(coord[2 * k + 1], coord[2 * k])
  {
    if |coord| < 2 then []
    else
      var rest := LatLonPoints(coord[2..]);
      assert forall k :: 1 <= k < |rest| + 1 ==> coord[2..][2 * (k - 1)] == coord[2 * k];
      [Point(coord[1], coord[0])] + rest
  }

  /** The footprint `_get_footprint_from_manifest` builds from the coordinates texts, in document order. */
  function SafeFootprint(coordinatesSet: seq<string>): Geometry {
    if |coordinatesSet| == 1 && |Tokens(coordinatesSet[0])| <= 4 then
      MultiPoint(LatLonPoints(Tokens(coordinatesSet[0])))
    else
      MultiPolygon(seq(|coordinatesSet|, i requires 0 <= i < |coordinatesSet| =>
                         Polygon([LatLonPoints(Tokens(coordinatesSet[i]))])))
  }

  /**
   * `_get_footprint_from_manifest`: appends one point per pair for a short
   * single footprint, otherwise one single-ring polygon per footprint.
   */
  method GetFootprintFromManifest(coordinatesSet: seq<string>) returns (g: Geometry)
    ensures g == SafeFootprint(coordinatesSet)
  {
    if |coordinatesSet| == 1 && |Tokens(coordinatesSet[0])| <= 4 {
      var coord := Tokens(coordinatesSet[0]);
      var points: seq<Point> := [];
      var k := 0;
      while k < |coord| / 2
        invariant 0 <= k <= |coord| / 2
        invariant points == LatLonPoints(coord)[..k]
      {
        ghost var all := LatLonPoints(coord);
        assert all[..k + 1] == all[..k] + [all[k]];
        points := points + [Point(coord[2 * k + 1], coord[2 * k])];
        k := k + 1;
      }
      assert LatLonPoints(coord)[..k] == LatLonPoints(coord);
      return MultiPoint(points);
    }
    var polygons: seq<Polygon> := [];
    var i := 0;
    while i < |coordinatesSet|
      invariant 0 <= i <= |coordinatesSet|
      invariant |polygons| == i
      invariant forall j :: 0 <= j < i ==> polygons[j] == Polygon([LatLonPoints(Tokens(coordinatesSet[j]))])
    {
      polygons := polygons + [Polygon([LatLonPoints(Tokens(coordinatesSet[i]))])];
      i := i + 1;
    }
    return MultiPolygon(polygons);
  }

  /**
   * The shape of a SAFE footprint: a multipoint of at most two points exactly
   * for one short coordinates text, whose points take the longitude from the
   * second token of each pair; otherwise one single-ring polygon per text, in
   * order; no text at all gives an empty multipolygon, not an error.
   */
  lemma SafeFootprintShape(coordinatesSet: seq<string>)
    ensures SafeFootprint(coordinatesSet).MultiPoint? <==>
              |coordinatesSet| == 1 && |Tokens(coordinatesSet[0])| <= 4
    ensures SafeFootprint(coordinatesSet).MultiPoint? ==>
              var coord := Tokens(coordinatesSet[0]);
              var pts := SafeFootprint(coordinatesSet).points;
              |pts| <= 2 && forall k :: 0 <= k < |pts| ==> pts[k] == Point(coord[2 * k + 1], coord[2 * k])
    ensures SafeFootprint(coordinatesSet).MultiPolygon? ==>
              var ps := SafeFootprint(coordinatesSet).polygons;
              |ps| == |coordinatesSet| &&
              forall i :: 0 <= i < |ps| ==> |ps[i].rings| == 1 && |ps[i].rings[0]| == |Tokens(coordinatesSet[i])| / 2
    ensures coordinatesSet == [] ==> SafeFootprint(coordinatesSet) == MultiPolygon([])
  {
  }

  /** A GeoJSON feature, reduced to the `coordinates` of its geometry: rings of positions. */
  datatype Feature = Feature(coordinates: seq<seq<seq<string>>>)

  /** A GeoJSON object with its `type` member and its `features` (section 3.3 of RFC 7946). */
  datatype FeatureCollection = FeatureCollection(kind: string, features: seq<Feature>)

  /** A feature the RVL reader accepts: it has an outer ring, and each of its positions two coordinates. */
  predicate WellFormed(f: Feature) {
    |f.coordinates| > 0 && forall c :: c in f.coordinates[0] ==> |c| >= 2
  }

  /** The outer ring of a feature: `Point(c[0], c[1])` for each position `c`. */
  function OuterRing(f: Feature): (r: Result<seq<Point>, Error>)
    ensures r.Ok? <==> WellFormed(f)
    ensures r.Ok? ==> |r.value| == |f.coordinates[0]| &&
                      forall k :: 0 <= k < |r.value| ==>
                        r.value[k] == Point(f.coordinates[0][k][0], f.coordinates[0][k][1])
  {
    if |f.coordinates| == 0 then Err(IndexError("coordinates[0]"))
    else
      var ring := f.coordinates[0];
      if exists c :: c in ring && |c| < 2 then Err(IndexError("c[1]"))
      else Ok(seq(|ring|, k requires 0 <= k < |ring| => Point(ring[k][0], ring[k][1])))
  }

  /** One single-ring polygon per feature, in order; the first malformed feature fails the whole. */
  function FeaturePolygons(features: seq<Feature>): Result<seq<Polygon>, Error> {
    if features == [] then Ok([])
    else
      var init :- FeaturePolygons(features[..|features| - 1]);
      var ring :- OuterRing(features[|features| - 1]);
      Ok(init + [Polygon([ring])])
  }

  /** Once a prefix of the features fails, the whole list fails with the same error. */
  lemma {:induction false} FailureSticks(features: seq<Feature>, n: nat)
    requires n <= |features| && FeaturePolygons(features[..n]).Err?
    ensures FeaturePolygons(features) == FeaturePolygons(features[..n])
    decreases |features|
  {
    if n < |features| {
      var init := features[..|features| - 1];
      assert init[..n] == features[..n];
      FailureSticks(init, n);
    } else {
      assert features[..n] == features;
    }
  }

  /** The footprint the RVL reader builds: a lone polygon for one feature, else a multipolygon. */
  function RvlFootprint(fc: FeatureCollection): Result<Geometry, Error> {
    if fc.kind != "FeatureCollection" then Err(NotFeatureCollection(fc.kind))
    else
      var polygons :- FeaturePolygons(fc.features);
      if |polygons| == 1 then Ok(SinglePolygon(polygons[0])) else Ok(MultiPolygon(polygons))
  }

  /** The RVL footprint loop: appends one polygon per feature, then unwraps a single one. */
  method BuildRvlFootprint(fc: FeatureCollection) returns (r: Result<Geometry, Error>)
    ensures r == RvlFootprint(fc)
  {
    if fc.kind != "FeatureCollection" {
      return Err(NotFeatureCollection(fc.kind));
    }
    var polygons: seq<Polygon> := [];
    var i := 0;
    while i < |fc.features|
      invariant 0 <= i <= |fc.features|
      invariant FeaturePolygons(fc.features[..i]) == Ok(polygons)
    {
      assert fc.features[..i + 1][..i] == fc.features[..i];
      var ring := OuterRing(fc.features[i]);
      if ring.Err? {
        assert FeaturePolygons(fc.features[..i + 1]) == Err(ring.error);
        FailureSticks(fc.features, i + 1);
        return Err(ring.error);
      }
      polygons := polygons + [Polygon([ring.value])];
      i := i + 1;
    }
    assert fc.features[..i] == fc.features;
    if |polygons| == 1 {
      return Ok(SinglePolygon(polygons[0]));
    }
    return Ok(MultiPolygon(polygons));
  }

  lemma FeaturePolygonsSpec(features: seq<Feature>)
    ensures FeaturePolygons(features).Ok? <==> forall i :: 0 <= i < |features| ==> WellFormed(features[i])
    ensures FeaturePolygons(features).Ok? ==>
              var ps := FeaturePolygons(features).value;
              |ps| == |features| &&
              forall i :: 0 <= i < |ps| ==> ps[i] == Polygon([OuterRing(features[i]).value])
  {
    FeaturePolygonsOk(features);
    if FeaturePolygons(features).Ok? {
      FeaturePolygonsValues(features);
    }
  }

  /** The polygons are built exactly when every feature is well formed. */
  lemma {:induction false} FeaturePolygonsOk(features: seq<Feature>)
    ensures FeaturePolygons(features).Ok? <==> forall i :: 0 <= i < |features| ==> WellFormed(features[i])
  {
    if features != [] {
      var init := features[..|features| - 1];
      FeaturePolygonsOk(init);
      assert forall i :: 0 <= i < |init| ==> init[i] == features[i];
      assert (forall i :: 0 <= i < |features| ==> WellFormed(features[i])) <==>
             (forall i :: 0 <= i < |init| ==> WellFormed(init[i])) && WellFormed(features[|features| - 1]);
    }
  }

  /** The polygons are the features' outer rings, in order. */
  lemma {:induction false} FeaturePolygonsValues(features: seq<Feature>)
    requires FeaturePolygons(features).Ok?
    ensures var ps := FeaturePolygons(features).value;
            |ps| == |features| &&
            forall i :: 0 <= i < |ps| ==> OuterRing(features[i]).Ok? && ps[i] == Polygon([OuterRing(features[i]).value])
  {
    if features != [] {
      var init := features[..|features| - 1];
      var r := FeaturePolygons(init);
      var o := OuterRing(features[|features| - 1]);
      assert r.Ok? && o.Ok?;
      FeaturePolygonsValues(init);
      var ps := r.value + [Polygon([o.value])];
      assert FeaturePolygons(features).value == ps;
      forall i | 0 <= i < |ps|
        ensures OuterRing(features[i]).Ok? && ps[i] == Polygon([OuterRing(features[i]).value])
      {
        if i < |init| {
          assert init[i] == features[i];
          assert OuterRing(init[i]).Ok? && r.value[i] == Polygon([OuterRing(init[i]).value]);
          assert ps[i] == r.value[i];
        } else {
          assert i == |features| - 1;
          assert ps[i] == Polygon([o.value]);
        }
      }
    }
  }

  /**
   * The shape of an RVL footprint: it exists exactly when the object is a
   * FeatureCollection of well-formed features; it is a lone polygon exactly
   * when there is one feature, and otherwise holds one polygon per feature.
   */
  lemma RvlFootprintShape(fc: FeatureCollection)
    ensures RvlFootprint(fc).Ok? <==>
              fc.kind == "FeatureCollection" && forall i :: 0 <= i < |fc.features| ==> WellFormed(fc.features[i])
    ensures RvlFootprint(fc).Ok? ==> (RvlFootprint(fc).value.SinglePolygon? <==> |fc.features| == 1)
    ensures RvlFootprint(fc).Ok? && RvlFootprint(fc).value.SinglePolygon? ==>
              RvlFootprint(fc).value.polygon == Polygon([OuterRing(fc.features[0]).value])
    ensures RvlFootprint(fc).Ok? && RvlFootprint(fc).value.MultiPolygon? ==>
              |RvlFootprint(fc).value.polygons| == |fc.features|
  {
    FeaturePolygonsSpec(fc.features);
  }
}
