/**
 * Track polyline geometry: a GeoJSON LineString (RFC 7946, positions written
 * `[longitude, latitude]` as section 3.1.1 says, a LineString as section 3.1.4
 * describes) projected into a padded SVG view box with the Y axis flipped, its
 * cumulative arc-length table, and the two position queries built on that table.
 *
 * Numbers are exact reals. The Euclidean length of a segment (`Math.sqrt` of the
 * squared coordinate differences) is left abstract: every operation that needs it
 * takes a `SegmentLength` and asks only that it be non-negative and zero exactly
 * when the two points coincide.
 */
module GeoUtils {
  import opened Wrappers
  import opened Numeric

  datatype Point = Point(x: real, y: real)

  datatype GeoBounds = GeoBounds(minLat: real, maxLat: real, minLon: real, maxLon: real)

  /** Width and height of the SVG surface; `padding` is a fraction of the width. */
  datatype ViewBox = ViewBox(width: real, height: real, padding: real)

  /** The point both queries answer with when the polyline is empty. */
  const FallbackCenter := Point(200.0, 120.0)

  /** The view box the polyline builder projects into: 400 by 240 with 5% padding. */
  const TrackViewBox := ViewBox(400.0, 240.0, 0.05)

  /** The length of the segment between two points. */
  type SegmentLength = (Point, Point) -> real

  /** What the model assumes of the Euclidean segment length. */
  ghost predicate IsSegmentLength(len: SegmentLength)
  {
    forall p: Point, q: Point :: 0.0 <= len(p, q) && (len(p, q) == 0.0 <==> p == q)
  }

  // ---------------------------------------------------------------------------
  // Projection
  // ---------------------------------------------------------------------------

  predicate PositiveSpan(bounds: GeoBounds)
  {
    bounds.minLon < bounds.maxLon && bounds.minLat < bounds.maxLat
  }

  predicate InBounds(lat: real, lon: real, bounds: GeoBounds)
  {
    bounds.minLat <= lat <= bounds.maxLat && bounds.minLon <= lon <= bounds.maxLon
  }

  /** The padding in pixels; the source uses the width-based value on both axes. */
  function PaddingPx(viewBox: ViewBox): real
  {
    viewBox.width * viewBox.padding
  }

  /** The padded box leaves a usable area of non-negative width and height. */
  predicate RoomyViewBox(viewBox: ViewBox)
  {
    0.0 <= PaddingPx(viewBox)
    && 2.0 * PaddingPx(viewBox) <= viewBox.width
    && 2.0 * PaddingPx(viewBox) <= viewBox.height
  }

  predicate InPaddedBox(p: Point, viewBox: ViewBox)
  {
    PaddingPx(viewBox) <= p.x <= viewBox.width - PaddingPx(viewBox)
    && PaddingPx(viewBox) <= p.y <= viewBox.height - PaddingPx(viewBox)
  }

  /** `projectLatLonToSVG`: linear in longitude for x, linear and flipped in latitude for y.
      The offset of x from the padding is to the usable width what the longitude's offset
      from the western bound is to the longitude span; likewise for y, measured from the
      northern bound. */
  function ProjectLatLonToSvg(lat: real, lon: real, bounds: GeoBounds, viewBox: ViewBox): (p: Point)
    requires PositiveSpan(bounds)
    ensures (p.x - PaddingPx(viewBox)) * (bounds.maxLon - bounds.minLon)
         == (lon - bounds.minLon) * (viewBox.width - 2.0 * PaddingPx(viewBox))
    ensures (p.y - PaddingPx(viewBox)) * (bounds.maxLat - bounds.minLat)
         == (bounds.maxLat - lat) * (viewBox.height - 2.0 * PaddingPx(viewBox))
  {
    var normalizedX := (lon - bounds.minLon) / (bounds.maxLon - bounds.minLon);
    var normalizedY := (lat - bounds.minLat) / (bounds.maxLat - bounds.minLat);
    var paddingPx := PaddingPx(viewBox);
    var usableWidth := viewBox.width - 2.0 * paddingPx;
    var usableHeight := viewBox.height - 2.0 * paddingPx;
    assert normalizedX * (bounds.maxLon - bounds.minLon) == lon - bounds.minLon;
    assert (1.0 - normalizedY) * (bounds.maxLat - bounds.minLat) == bounds.maxLat - lat;
    Point(paddingPx + normalizedX * usableWidth, paddingPx + (1.0 - normalizedY) * usableHeight)
  }

  /** A coordinate inside the bounds lands inside the padded view box. */
  lemma ProjectInPaddedBox(lat: real, lon: real, bounds: GeoBounds, viewBox: ViewBox)
    requires PositiveSpan(bounds) && InBounds(lat, lon, bounds) && RoomyViewBox(viewBox)
    ensures InPaddedBox(ProjectLatLonToSvg(lat, lon, bounds, viewBox), viewBox)
  {
    var normalizedX := (lon - bounds.minLon) / (bounds.maxLon - bounds.minLon);
    var normalizedY := (lat - bounds.minLat) / (bounds.maxLat - bounds.minLat);
    var paddingPx := PaddingPx(viewBox);
    UnitRatio(lon - bounds.minLon, bounds.maxLon - bounds.minLon);
    UnitRatio(lat - bounds.minLat, bounds.maxLat - bounds.minLat);
    ScaleWithin(normalizedX, viewBox.width - 2.0 * paddingPx);
    ScaleWithin(1.0 - normalizedY, viewBox.height - 2.0 * paddingPx);
  }

  /** The north-west corner of the bounds goes to the top-left corner of the padded box,
      the south-east corner to its bottom-right corner. */
  lemma ProjectCorners(bounds: GeoBounds, viewBox: ViewBox)
    requires PositiveSpan(bounds)
    ensures ProjectLatLonToSvg(bounds.maxLat, bounds.minLon, bounds, viewBox)
         == Point(PaddingPx(viewBox), PaddingPx(viewBox))
    ensures ProjectLatLonToSvg(bounds.minLat, bounds.maxLon, bounds, viewBox)
         == Point(viewBox.width - PaddingPx(viewBox), viewBox.height - PaddingPx(viewBox))
  {
    var spanLon := bounds.maxLon - bounds.minLon;
    var spanLat := bounds.maxLat - bounds.minLat;
    assert spanLon / spanLon == 1.0;
    assert spanLat / spanLat == 1.0;
    assert 0.0 / spanLon == 0.0;
    assert 0.0 / spanLat == 0.0;
  }

  /** A positive linear scaling `pad + ((v - lo) / span) * usable` is strictly increasing in
      v, and its flipped form `pad + (1 - (v - lo) / span) * usable` strictly decreasing. */
  lemma LinearRises(v1: real, v2: real, lo: real, span: real, usable: real, pad: real)
    requires 0.0 < span && 0.0 < usable
    ensures v1 < v2 <==> pad + ((v1 - lo) / span) * usable < pad + ((v2 - lo) / span) * usable
    ensures v1 < v2 <==> pad + (1.0 - (v2 - lo) / span) * usable < pad + (1.0 - (v1 - lo) / span) * usable
  {
    var n1, n2 := (v1 - lo) / span, (v2 - lo) / span;
    assert n2 - n1 == (v2 - v1) / span;
    assert n2 * usable - n1 * usable == (n2 - n1) * usable;
    assert (1.0 - n1) * usable - (1.0 - n2) * usable == (n2 - n1) * usable;
  }

  /** x depends on longitude alone and grows with it; y depends on latitude alone and
      shrinks as latitude grows (north is up). */
  lemma ProjectOrientation(lat1: real, lon1: real, lat2: real, lon2: real, bounds: GeoBounds, viewBox: ViewBox)
    requires PositiveSpan(bounds)
    requires 2.0 * PaddingPx(viewBox) < viewBox.width && 2.0 * PaddingPx(viewBox) < viewBox.height
    ensures var p1, p2 := ProjectLatLonToSvg(lat1, lon1, bounds, viewBox), ProjectLatLonToSvg(lat2, lon2, bounds, viewBox);
      (lon1 < lon2 <==> p1.x < p2.x) && (lat1 < lat2 <==> p2.y < p1.y)
  {
    var p1, p2 := ProjectLatLonToSvg(lat1, lon1, bounds, viewBox), ProjectLatLonToSvg(lat2, lon2, bounds, viewBox);
    var spanLon := bounds.maxLon - bounds.minLon;
    var spanLat := bounds.maxLat - bounds.minLat;
    var pad := PaddingPx(viewBox);
    var usableWidth := viewBox.width - 2.0 * pad;
    var usableHeight := viewBox.height - 2.0 * pad;
    assert p1.x == pad + ((lon1 - bounds.minLon) / spanLon) * usableWidth;
    assert p2.x == pad + ((lon2 - bounds.minLon) / spanLon) * usableWidth;
    assert p1.y == pad + (1.0 - (lat1 - bounds.minLat) / spanLat) * usableHeight;
    assert p2.y == pad + (1.0 - (lat2 - bounds.minLat) / spanLat) * usableHeight;
    LinearRises(lon1, lon2, bounds.minLon, spanLon, usableWidth, pad);
    LinearRises(lat1, lat2, bounds.minLat, spanLat, usableHeight, pad);
  }

  // ---------------------------------------------------------------------------
  // Polyline builder
  // ---------------------------------------------------------------------------

  /** A GeoJSON position, longitude first. Elements after the second (altitude) are ignored
      by the source's destructuring and are not represented. */
  datatype Position = Position(lon: real, lat: real)

  /** The part of a GeoJSON geometry object the builder reads. */
  datatype Geometry = Geometry(kind: string, coordinates: Option<seq<Position>>)

  datatype Feature = Feature(geometry: Option<Geometry>)

  /** A GeoJSON FeatureCollection; `features` may be absent. */
  datatype GeoJson = GeoJson(features: Option<seq<Feature>>)

  /** The coordinates of the first feature when it is a LineString with at least one
      position; `None` on every input the builder rejects. */
  function TrackCoordinates(doc: GeoJson): (r: Option<seq<Position>>)
    ensures r.Some? ==> |r.value| > 0
  {
    if doc.features.None? || |doc.features.value| == 0 then None
    else
      var feature := doc.features.value[0];
      if feature.geometry.None? || feature.geometry.value.kind != "LineString" then None
      else
        var coordinates := feature.geometry.value.coordinates;
        if coordinates.None? || |coordinates.value| == 0 then None
        else Some(coordinates.value)
  }

  /** The bounds of a single position. */
  function PositionBounds(c: Position): GeoBounds
  {
    GeoBounds(c.lat, c.lat, c.lon, c.lon)
  }

  /** One step of the bounds scan: `Math.min`/`Math.max` of each bound with the position. */
  function Widen(bounds: GeoBounds, c: Position): GeoBounds
  {
    GeoBounds(Min(bounds.minLat, c.lat), Max(bounds.maxLat, c.lat),
              Min(bounds.minLon, c.lon), Max(bounds.maxLon, c.lon))
  }

  /** The bounds the scan computes, folded left over the positions. */
  function BoundsOf(cs: seq<Position>): (bounds: GeoBounds)
    requires |cs| > 0
    decreases |cs|
    ensures bounds.minLat <= bounds.maxLat && bounds.minLon <= bounds.maxLon
  {
    if |cs| == 1 then PositionBounds(cs[0])
    else Widen(BoundsOf(cs[..|cs| - 1]), cs[|cs| - 1])
  }

  /** Every position lies inside the bounds. */
  ghost predicate Encloses(bounds: GeoBounds, cs: seq<Position>)
  {
    forall i :: 0 <= i < |cs| ==> InBounds(cs[i].lat, cs[i].lon, bounds)
  }

  /** Every bound is the latitude or longitude of some position. */
  ghost predicate Attained(bounds: GeoBounds, cs: seq<Position>)
  {
    && (exists i :: 0 <= i < |cs| && cs[i].lat == bounds.minLat)
    && (exists i :: 0 <= i < |cs| && cs[i].lat == bounds.maxLat)
    && (exists i :: 0 <= i < |cs| && cs[i].lon == bounds.minLon)
    && (exists i :: 0 <= i < |cs| && cs[i].lon == bounds.maxLon)
  }

  /** The scanned bounds are the tightest box around the positions. */
  lemma {:induction false} BoundsOfIsTight(cs: seq<Position>)
    requires |cs| > 0
    ensures Encloses(BoundsOf(cs), cs) && Attained(BoundsOf(cs), cs)
  {
    if |cs| == 1 {
      assert cs[0].lat == BoundsOf(cs).minLat;
    } else {
      var n := |cs| - 1;
      var init := cs[..n];
      BoundsOfIsTight(init);
      var b0, b := BoundsOf(init), BoundsOf(cs);
      assert forall i :: 0 <= i < n ==> cs[i] == init[i];
      var i1 :| 0 <= i1 < n && init[i1].lat == b0.minLat;
      var i2 :| 0 <= i2 < n && init[i2].lat == b0.maxLat;
      var i3 :| 0 <= i3 < n && init[i3].lon == b0.minLon;
      var i4 :| 0 <= i4 < n && init[i4].lon == b0.maxLon;
      assert cs[if b.minLat == cs[n].lat then n else i1].lat == b.minLat;
      assert cs[if b.maxLat == cs[n].lat then n else i2].lat == b.maxLat;
      assert cs[if b.minLon == cs[n].lon then n else i3].lon == b.minLon;
      assert cs[if b.maxLon == cs[n].lon then n else i4].lon == b.maxLon;
    }
  }

  /** The `forEach` over the coordinates that widens the `bounds` record. The source starts
      from +Infinity/-Infinity; since `Math.min(Infinity, v) == v`, the record after the
      first position holds that position's values, which is where this loop starts. */
  method ComputeBounds(coordinates: seq<Position>) returns (bounds: GeoBounds)
    requires |coordinates| > 0
    ensures bounds == BoundsOf(coordinates)
    ensures Encloses(bounds, coordinates) && Attained(bounds, coordinates)
  {
    bounds := PositionBounds(coordinates[0]);
    var i := 1;
    while i < |coordinates|
      invariant 1 <= i <= |coordinates|
      invariant bounds == BoundsOf(coordinates[..i])
    {
      assert coordinates[..i + 1][..i] == coordinates[..i];
      bounds := Widen(bounds, coordinates[i]);
      i := i + 1;
    }
    assert coordinates[..i] == coordinates;
    BoundsOfIsTight(coordinates);
  }

  /** `buildPolylineFromGeoJSON`: an empty polyline exactly when the document is rejected;
      otherwise one projected point per position, in order, each inside the padded 400x240
      box. */
  method BuildPolylineFromGeoJson(doc: GeoJson) returns (polyline: seq<Point>)
    requires TrackCoordinates(doc).Some? ==> PositiveSpan(BoundsOf(TrackCoordinates(doc).value))
    ensures polyline == [] <==> TrackCoordinates(doc).None?
    ensures TrackCoordinates(doc).Some? ==>
      var cs := TrackCoordinates(doc).value;
      && |polyline| == |cs|
      && (forall i :: 0 <= i < |cs| ==>
            polyline[i] == ProjectLatLonToSvg(cs[i].lat, cs[i].lon, BoundsOf(cs), TrackViewBox))
    ensures forall i :: 0 <= i < |polyline| ==> InPaddedBox(polyline[i], TrackViewBox)
  {
    if doc.features.None? || |doc.features.value| == 0 {
      return [];
    }
    var feature := doc.features.value[0];
    // reading `type` of a missing geometry throws, and the catch returns []
    if feature.geometry.None? || feature.geometry.value.kind != "LineString" {
      return [];
    }
    var coordinates := feature.geometry.value.coordinates;
    if coordinates.None? || |coordinates.value| == 0 {
      return [];
    }
    var cs := coordinates.value;
    var bounds := ComputeBounds(cs);
    polyline := seq(|cs|, i requires 0 <= i < |cs| => ProjectLatLonToSvg(cs[i].lat, cs[i].lon, bounds, TrackViewBox));
    forall i | 0 <= i < |cs|
      ensures InPaddedBox(polyline[i], TrackViewBox)
    {
      ProjectInPaddedBox(cs[i].lat, cs[i].lon, bounds, TrackViewBox);
    }
  }

  // ---------------------------------------------------------------------------
  // Cumulative arc length
  // ---------------------------------------------------------------------------

  /** The cumulative distance table: entry i is the length of the polyline up to point i.
      An empty polyline still yields the single entry 0. */
  function Cumulative(ps: seq<Point>, len: SegmentLength): (cum: seq<real>)
    decreases |ps|
    ensures |cum| == if |ps| == 0 then 1 else |ps|
    ensures cum[0] == 0.0
  {
    if |ps| <= 1 then [0.0]
    else
      var prev := Cumulative(ps[..|ps| - 1], len);
      prev + [prev[|prev| - 1] + len(ps[|ps| - 2], ps[|ps| - 1])]
  }

  /** The total length of the polyline: the last entry of the table. */
  function TotalLength(ps: seq<Point>, len: SegmentLength): real
  {
    var cum := Cumulative(ps, len);
    cum[|cum| - 1]
  }

  /** Each entry is the previous entry plus the length of the segment ending at that point. */
  lemma {:induction false} CumulativeStep(ps: seq<Point>, len: SegmentLength, i: nat)
    requires 1 <= i < |ps|
    ensures Cumulative(ps, len)[i] == Cumulative(ps, len)[i - 1] + len(ps[i - 1], ps[i])
  {
    var init := ps[..|ps| - 1];
    if i < |ps| - 1 {
      CumulativeStep(init, len, i);
      assert init[i - 1] == ps[i - 1] && init[i] == ps[i];
    }
  }

  /** Entries are non-negative and never decrease. */
  ghost predicate Ascending(cum: seq<real>)
  {
    forall i, j :: 0 <= i <= j < |cum| ==> 0.0 <= cum[i] <= cum[j]
  }

  /** The table never decreases, so every entry lies between 0 and the total. */
  lemma {:induction false} CumulativeMonotone(ps: seq<Point>, len: SegmentLength)
    requires IsSegmentLength(len)
    ensures Ascending(Cumulative(ps, len))
  {
    var cum := Cumulative(ps, len);
    if |ps| > 1 {
      var init := ps[..|ps| - 1];
      CumulativeMonotone(init, len);
      var prev := Cumulative(init, len);
      var last := prev[|prev| - 1] + len(ps[|ps| - 2], ps[|ps| - 1]);
      assert cum == prev + [last];
      assert 0.0 <= len(ps[|ps| - 2], ps[|ps| - 1]);
      forall i, j | 0 <= i <= j < |cum|
        ensures 0.0 <= cum[i] <= cum[j]
      {
        if i == j {
        } else if j < |prev| {
          assert cum[i] == prev[i] && cum[j] == prev[j];
        } else {
          assert 0.0 <= prev[i] <= prev[|prev| - 1];
        }
      }
    }
  }

  /** `calculateCumulativeDistances`: pushes the running total after each segment. */
  method CumulativeDistances(polyline: seq<Point>, len: SegmentLength) returns (distances: seq<real>)
    ensures distances == Cumulative(polyline, len)
  {
    distances := [0.0];
    var total := 0.0;
    var i := 1;
    while i < |polyline|
      invariant |polyline| == 0 ==> distances == [0.0]
      invariant |polyline| > 0 ==> 1 <= i <= |polyline| && distances == Cumulative(polyline[..i], len)
      invariant total == distances[|distances| - 1]
    {
      assert polyline[..i + 1][..i] == polyline[..i];
      var dist := len(polyline[i - 1], polyline[i]);
      total := total + dist;
      distances := distances + [total];
      i := i + 1;
    }
    assert |polyline| > 0 ==> polyline[..i] == polyline;
  }

  // ---------------------------------------------------------------------------
  // Position to point
  // ---------------------------------------------------------------------------

  /** The point at fraction t of the way from a to b. */
  function Lerp(a: Point, b: Point, t: real): Point
  {
    Point(a.x + t * (b.x - a.x), a.y + t * (b.y - a.y))
  }

  /** The point at fraction t along segment k, from point k to point k + 1. */
  function SegmentPoint(ps: seq<Point>, k: nat, t: real): Point
    requires k + 1 < |ps|
  {
    Lerp(ps[k], ps[k + 1], t)
  }

  /** The point lies on one of the polyline's segments. */
  ghost predicate OnPolyline(p: Point, ps: seq<Point>)
  {
    exists k: nat, t :: k + 1 < |ps| && 0.0 <= t <= 1.0 && p == SegmentPoint(ps, k, t)
  }

  /** The first index k >= i whose table entry reaches the target, or |cum| when none does. */
  function FirstReaching(target: real, cum: seq<real>, i: nat): (k: nat)
    requires 1 <= i <= |cum|
    decreases |cum| - i
    ensures i <= k <= |cum|
    ensures forall j :: i <= j < k ==> cum[j] < target
    ensures k < |cum| ==> target <= cum[k]
  {
    if i == |cum| || target <= cum[i] then i else FirstReaching(target, cum, i + 1)
  }

  /** The distance along the track that position `pos` asks for, after clamping. */
  function TargetDistance(pos: real, total: real): real
  {
    Clamp01(pos) * total
  }

  /** How far `target` lies from `start` towards `end`, as a fraction of the segment. */
  function SegmentFraction(target: real, start: real, end: real): real
    requires start != end
  {
    (target - start) / (end - start)
  }

  /** What the scan answers once it stops at index k (k == |cum| when no entry reached the
      target): the start of a zero-length segment, or the interpolated point. */
  function ScanAnswer(target: real, ps: seq<Point>, cum: seq<real>, k: nat): Point
    requires |ps| == |cum| && 1 <= k <= |cum|
  {
    if k == |cum| then ps[|ps| - 1]
    else if cum[k] - cum[k - 1] == 0.0 then ps[k - 1]
    else SegmentPoint(ps, k - 1, SegmentFraction(target, cum[k - 1], cum[k]))
  }

  /** The point `pointForPos` answers for a position along the track: the fallback centre
      for an empty polyline, the only point of a one-point polyline. */
  function PointAt(pos: real, ps: seq<Point>, len: SegmentLength): (r: Point)
    ensures |ps| == 0 ==> r == FallbackCenter
    ensures |ps| == 1 ==> r == ps[0]
  {
    if |ps| == 0 then FallbackCenter
    else if |ps| == 1 then ps[0]
    else
      var cum := Cumulative(ps, len);
      var target := TargetDistance(pos, cum[|cum| - 1]);
      ScanAnswer(target, ps, cum, FirstReaching(target, cum, 1))
  }

  /** `pointForPos`: scans the table for the first entry reaching the target distance and
      interpolates inside that segment. */
  method PointForPos(pos: real, polyline: seq<Point>, len: SegmentLength) returns (r: Point)
    requires IsSegmentLength(len)
    ensures r == PointAt(pos, polyline, len)
    ensures |polyline| == 0 ==> r == FallbackCenter
    ensures |polyline| == 1 ==> r == polyline[0]
    ensures |polyline| >= 2 ==> OnPolyline(r, polyline)
  {
    if |polyline| == 0 {
      return FallbackCenter;
    }
    if |polyline| == 1 {
      return polyline[0];
    }
    var distances := CumulativeDistances(polyline, len);
    var totalDistance := distances[|distances| - 1];
    var targetDistance := TargetDistance(pos, totalDistance);
    var i := 1;
    while i < |distances|
      invariant 1 <= i <= |distances|
      invariant FirstReaching(targetDistance, distances, i) == FirstReaching(targetDistance, distances, 1)
    {
      if targetDistance <= distances[i] {
        var segmentStart := distances[i - 1];
        var segmentEnd := distances[i];
        var segmentLength := segmentEnd - segmentStart;
        if segmentLength == 0.0 {
          PointAtOnSegment(pos, polyline, len);
          return polyline[i - 1];
        }
        var t := SegmentFraction(targetDistance, segmentStart, segmentEnd);
        PointAtOnSegment(pos, polyline, len);
        return SegmentPoint(polyline, i - 1, t);
      }
      i := i + 1;
    }
    assert polyline[|polyline| - 1] == SegmentPoint(polyline, |polyline| - 2, 1.0);
    return polyline[|polyline| - 1];
  }

  /** The clamped target lies between 0 and a non-negative total, and the two ends of the
      position range ask for the two ends of the track. */
  lemma TargetDistanceWithin(pos: real, total: real)
    requires 0.0 <= total
    ensures 0.0 <= TargetDistance(pos, total) <= total
    ensures TargetDistance(0.0, total) == 0.0
    ensures TargetDistance(1.0, total) == total
  {
    ScaleWithin(Clamp01(pos), total);
  }

  /** A target between the ends of a rising segment gives a fraction in [0, 1], and the
      segment's own end gives exactly 1. */
  lemma SegmentFractionWithin(target: real, start: real, end: real)
    requires start < end && start <= target <= end
    ensures 0.0 <= SegmentFraction(target, start, end) <= 1.0
    ensures SegmentFraction(end, start, end) == 1.0
  {
    assert (end - start) / (end - start) == 1.0;
    UnitRatio(target - start, end - start);
  }

  /** With two or more points the scan always finds a segment (the fallback after the loop
      is never taken), and the answer lies on that segment. */
  lemma PointAtOnSegment(pos: real, ps: seq<Point>, len: SegmentLength)
    requires IsSegmentLength(len) && |ps| >= 2
    ensures var cum := Cumulative(ps, len);
      FirstReaching(TargetDistance(pos, cum[|cum| - 1]), cum, 1) < |cum|
    ensures OnPolyline(PointAt(pos, ps, len), ps)
  {
    var cum := Cumulative(ps, len);
    var total := cum[|cum| - 1];
    CumulativeMonotone(ps, len);
    var target := TargetDistance(pos, total);
    TargetDistanceWithin(pos, total);
    var k := FirstReaching(target, cum, 1);
    assert k < |cum|;
    assert cum[k - 1] <= target by {
      if k > 1 {
        assert cum[k - 1] < target;
      }
    }
    assert PointAt(pos, ps, len) == ScanAnswer(target, ps, cum, k);
    if cum[k] - cum[k - 1] == 0.0 {
      assert ScanAnswer(target, ps, cum, k) == SegmentPoint(ps, k - 1, 0.0);
    } else {
      SegmentFractionWithin(target, cum[k - 1], cum[k]);
    }
  }

  /** Positions below 0 answer like 0 and positions above 1 answer like 1. */
  lemma PointAtClamps(pos: real, ps: seq<Point>, len: SegmentLength)
    ensures pos < 0.0 ==> PointAt(pos, ps, len) == PointAt(0.0, ps, len)
    ensures 1.0 < pos ==> PointAt(pos, ps, len) == PointAt(1.0, ps, len)
  {
    if |ps| >= 2 && (pos < 0.0 || 1.0 < pos) {
      var cum := Cumulative(ps, len);
      var edge := if pos < 0.0 then 0.0 else 1.0;
      assert TargetDistance(pos, cum[|cum| - 1]) == TargetDistance(edge, cum[|cum| - 1]);
    }
  }

  /** Position 0 is the first point. */
  lemma PointAtStart(ps: seq<Point>, len: SegmentLength)
    requires IsSegmentLength(len) && |ps| >= 1
    ensures PointAt(0.0, ps, len) == ps[0]
  {
    if |ps| >= 2 {
      var cum := Cumulative(ps, len);
      var total := cum[|cum| - 1];
      CumulativeMonotone(ps, len);
      TargetDistanceWithin(0.0, total);
      assert FirstReaching(0.0, cum, 1) == 1;
      if cum[1] - cum[0] != 0.0 {
        assert SegmentFraction(0.0, cum[0], cum[1]) == 0.0;
        assert SegmentPoint(ps, 0, 0.0) == ps[0];
      }
    }
  }

  /** Position 1 is the last point, even when the track ends in repeated points. */
  lemma PointAtEnd(ps: seq<Point>, len: SegmentLength)
    requires IsSegmentLength(len) && |ps| >= 1
    ensures PointAt(1.0, ps, len) == ps[|ps| - 1]
  {
    if |ps| >= 2 {
      var cum := Cumulative(ps, len);
      var total := cum[|cum| - 1];
      CumulativeMonotone(ps, len);
      TargetDistanceWithin(1.0, total);
      PointAtOnSegment(1.0, ps, len);
      var k := FirstReaching(total, cum, 1);
      assert cum[k] == total;
      assert PointAt(1.0, ps, len) == ScanAnswer(total, ps, cum, k);
      if cum[k] - cum[k - 1] == 0.0 {
        assert k == 1;
        assert cum[0] == total;
        SameArcLengthSamePoint(ps, len, 0, |ps| - 1);
      } else {
        SegmentFractionWithin(total, cum[k - 1], cum[k]);
        assert SegmentPoint(ps, k - 1, 1.0) == ps[k];
        SameArcLengthSamePoint(ps, len, k, |ps| - 1);
      }
    }
  }

  // ---------------------------------------------------------------------------
  // Point to nearest position
  // ---------------------------------------------------------------------------

  /** `dx * dx + dy * dy` for the segment from p to q. */
  function SquaredLength(p: Point, q: Point): real
  {
    (q.x - p.x) * (q.x - p.x) + (q.y - p.y) * (q.y - p.y)
  }

  /** Where the click projects onto segment k, as a fraction of the segment clamped to
      [0, 1]; 0 for a zero-length segment, which the source measures from its start. */
  function SegmentParam(click: Point, ps: seq<Point>, k: nat): (t: real)
    requires k + 1 < |ps|
    ensures 0.0 <= t <= 1.0
  {
    var p1, p2 := ps[k], ps[k + 1];
    var segmentLengthSq := SquaredLength(p1, p2);
    if segmentLengthSq == 0.0 then 0.0
    else Clamp01(((click.x - p1.x) * (p2.x - p1.x) + (click.y - p1.y) * (p2.y - p1.y)) / segmentLengthSq)
  }

  /** The candidate nearest point the scan considers on segment k. */
  function SegmentCandidate(click: Point, ps: seq<Point>, k: nat): Point
    requires k + 1 < |ps|
  {
    var p1, p2 := ps[k], ps[k + 1];
    if SquaredLength(p1, p2) == 0.0 then p1
    else SegmentPoint(ps, k, SegmentParam(click, ps, k))
  }

  /** The distance from the click to the candidate on segment k. */
  function CandidateDistance(click: Point, ps: seq<Point>, len: SegmentLength, k: nat): real
    requires k + 1 < |ps|
  {
    len(click, SegmentCandidate(click, ps, k))
  }

  /** The length of fraction t of a segment of length d. */
  function PartOf(t: real, d: real): real
  {
    t * d
  }

  /** A fraction in [0, 1] of a length lies between 0 and that length; of a positive length,
      it is 0 only for t = 0 and dividing by the length recovers t. */
  lemma PartOfWithin(t: real, d: real)
    requires 0.0 <= d
    ensures 0.0 <= t <= 1.0 ==> 0.0 <= PartOf(t, d) <= d
    ensures d != 0.0 ==> PartOf(t, d) / d == t
    ensures d != 0.0 && PartOf(t, d) == 0.0 ==> t == 0.0
  {
    if 0.0 <= t <= 1.0 {
      ScaleWithin(t, d);
    }
  }

  /** The distance along the track to the point at fraction t of segment k. */
  function ArcLength(ps: seq<Point>, len: SegmentLength, k: nat, t: real): real
    requires k + 1 < |ps|
  {
    Cumulative(ps, len)[k] + PartOf(t, len(ps[k], ps[k + 1]))
  }

  /** The distance along the track to the candidate on segment k. */
  function AlongTrack(click: Point, ps: seq<Point>, len: SegmentLength, k: nat): real
    requires k + 1 < |ps|
  {
    ArcLength(ps, len, k, SegmentParam(click, ps, k))
  }

  /** Segment k holds the closest candidate, and it is the first segment that does:
      every earlier candidate is strictly farther, no later one is closer. */
  ghost predicate IsNearestSegment(click: Point, ps: seq<Point>, len: SegmentLength, k: nat)
  {
    && k + 1 < |ps|
    && (forall j :: 0 <= j < k ==> CandidateDistance(click, ps, len, k) < CandidateDistance(click, ps, len, j))
    && (forall j :: k < j < |ps| - 1 ==> CandidateDistance(click, ps, len, k) <= CandidateDistance(click, ps, len, j))
  }

  /** Each candidate lies on its segment. */
  lemma CandidateOnSegment(click: Point, ps: seq<Point>, k: nat)
    requires k + 1 < |ps|
    ensures SegmentCandidate(click, ps, k) == SegmentPoint(ps, k, SegmentParam(click, ps, k))
    ensures OnPolyline(SegmentCandidate(click, ps, k), ps)
  {
    if SquaredLength(ps[k], ps[k + 1]) == 0.0 {
      assert SegmentPoint(ps, k, 0.0) == ps[k];
    }
  }

  /** The earliest closest segment is unique, so ties always resolve the same way. */
  lemma NearestSegmentUnique(click: Point, ps: seq<Point>, len: SegmentLength, k1: nat, k2: nat)
    requires IsNearestSegment(click, ps, len, k1) && IsNearestSegment(click, ps, len, k2)
    ensures k1 == k2
  {
    NearestAgainst(click, ps, len, k1, k2);
    NearestAgainst(click, ps, len, k2, k1);
  }

  /** How the nearest segment k compares with another segment j. */
  lemma NearestAgainst(click: Point, ps: seq<Point>, len: SegmentLength, k: nat, j: nat)
    requires IsNearestSegment(click, ps, len, k) && j + 1 < |ps|
    ensures j < k ==> CandidateDistance(click, ps, len, k) < CandidateDistance(click, ps, len, j)
    ensures k < j ==> CandidateDistance(click, ps, len, k) <= CandidateDistance(click, ps, len, j)
  {
  }

  /** `nearestPointOnPolyline`: scans every segment, keeps the first candidate of least
      distance, and reports its distance along the track as a fraction of the total. */
  method NearestPointOnPolyline(click: Point, polyline: seq<Point>, len: SegmentLength)
    returns (pos: real, point: Point)
    requires IsSegmentLength(len)
    requires |polyline| >= 2 ==> 0.0 < TotalLength(polyline, len)
    ensures |polyline| == 0 ==> pos == 0.0 && point == FallbackCenter
    ensures |polyline| == 1 ==> pos == 0.0 && point == polyline[0]
    ensures |polyline| >= 2 ==> 0.0 <= pos <= 1.0
    ensures |polyline| >= 2 ==>
      exists k: nat ::
        (IsNearestSegment(click, polyline, len, k)
         && point == SegmentCandidate(click, polyline, k)
         && pos == Clamp01(AlongTrack(click, polyline, len, k) / TotalLength(polyline, len)))
  {
    if |polyline| == 0 {
      return 0.0, FallbackCenter;
    }
    if |polyline| == 1 {
      return 0.0, polyline[0];
    }
    var distances := CumulativeDistances(polyline, len);
    var totalDistance := distances[|distances| - 1];
    // minDist starts at +Infinity: `found` is false until the first segment is measured
    var found := false;
    var minDist := 0.0;
    var bestPos := 0.0;
    var bestPoint := polyline[0];
    ghost var best: nat := 0;
    var i := 0;
    while i < |polyline| - 1
      invariant 0 <= i <= |polyline| - 1
      invariant found <==> 0 < i
      invariant found ==> (best < i
        && minDist == CandidateDistance(click, polyline, len, best)
        && bestPoint == SegmentCandidate(click, polyline, best)
        && bestPos == AlongTrack(click, polyline, len, best) / totalDistance)
      invariant found ==> forall j :: 0 <= j < best ==>
        minDist < CandidateDistance(click, polyline, len, j)
      invariant found ==> forall j :: best < j < i ==>
        minDist <= CandidateDistance(click, polyline, len, j)
    {
      var p1 := polyline[i];
      var p2 := polyline[i + 1];
      if SquaredLength(p1, p2) == 0.0 {
        // degenerate segment: measure to p1
        var dist := len(click, p1);
        if !found || dist < minDist {
          minDist := dist;
          bestPoint := p1;
          bestPos := distances[i] / totalDistance;
          best := i;
          found := true;
        }
        i := i + 1;
        continue;
      }
      var t := SegmentParam(click, polyline, i);
      var nearest := SegmentPoint(polyline, i, t);
      var dist := len(click, nearest);
      if !found || dist < minDist {
        minDist := dist;
        bestPoint := nearest;
        var distanceAlongTrack := distances[i] + PartOf(t, len(p1, p2));
        bestPos := distanceAlongTrack / totalDistance;
        best := i;
        found := true;
      }
      i := i + 1;
    }
    bestPos := Max(0.0, Min(1.0, bestPos));
    return bestPos, bestPoint;
  }

  /** Interpolating between two equal points gives that point. */
  lemma SegmentPointOfEqualEnds(ps: seq<Point>, k: nat, t: real)
    requires k + 1 < |ps| && ps[k] == ps[k + 1]
    ensures SegmentPoint(ps, k, t) == ps[k]
  {
    assert t * (ps[k + 1].x - ps[k].x) == 0.0;
    assert t * (ps[k + 1].y - ps[k].y) == 0.0;
  }

  /** A point on segment k lies between the segment's two table entries. */
  lemma ArcLengthWithin(ps: seq<Point>, len: SegmentLength, k: nat, t: real)
    requires IsSegmentLength(len) && k + 1 < |ps| && 0.0 <= t <= 1.0
    ensures var cum := Cumulative(ps, len);
      0.0 <= cum[k] <= ArcLength(ps, len, k, t) <= cum[k + 1] <= TotalLength(ps, len)
  {
    var cum := Cumulative(ps, len);
    CumulativeMonotone(ps, len);
    CumulativeStep(ps, len, k + 1);
    PartOfWithin(t, len(ps[k], ps[k + 1]));
    assert cum[k + 1] <= cum[|cum| - 1];
  }

  /** Inside a segment of positive length the fraction is recovered from the distance. */
  lemma ArcLengthFraction(ps: seq<Point>, len: SegmentLength, k: nat, t: real)
    requires IsSegmentLength(len) && k + 1 < |ps|
    requires var cum := Cumulative(ps, len); cum[k + 1] != cum[k]
    ensures var cum := Cumulative(ps, len);
      SegmentFraction(ArcLength(ps, len, k, t), cum[k], cum[k + 1]) == t
  {
    var cum := Cumulative(ps, len);
    CumulativeStep(ps, len, k + 1);
    SegmentFractionOfPart(ArcLength(ps, len, k, t), cum[k], cum[k + 1], len(ps[k], ps[k + 1]), t);
  }

  /** The point fraction t of the way from `start` to `end` lies at fraction t. */
  lemma SegmentFractionOfPart(s: real, start: real, end: real, d: real, t: real)
    requires d != 0.0 && end == start + d && s == start + PartOf(t, d)
    ensures SegmentFraction(s, start, end) == t
  {
    assert s - start == PartOf(t, d);
    assert end - start == d;
    assert PartOf(t, d) / d == t;
  }

  /** A segment whose table entries are equal has equal ends, and a point at the segment's
      starting distance is the segment's start. */
  lemma ArcLengthAtStart(ps: seq<Point>, len: SegmentLength, k: nat, t: real)
    requires IsSegmentLength(len) && k + 1 < |ps|
    ensures var cum := Cumulative(ps, len); cum[k + 1] == cum[k] ==> ps[k] == ps[k + 1]
    ensures ArcLength(ps, len, k, t) == Cumulative(ps, len)[k] ==> SegmentPoint(ps, k, t) == ps[k]
  {
    CumulativeStep(ps, len, k + 1);
    var segment := len(ps[k], ps[k + 1]);
    PartOfWithin(t, segment);
    if segment == 0.0 {
      SegmentPointOfEqualEnds(ps, k, t);
    }
  }

  /** Reading a distance back as a fraction of the total and clamping it gives the distance. */
  lemma TargetDistanceOfFraction(s: real, total: real)
    requires 0.0 <= s <= total && 0.0 < total
    ensures 0.0 <= s / total <= 1.0
    ensures TargetDistance(s / total, total) == s
  {
    UnitRatio(s, total);
  }

  /** The arc-length parameterisation is well defined: the point `pointForPos` gives for the
      distance along the track to a point on segment k is that point, whichever earlier
      segment the scan stops at. */
  lemma PointAtArcLength(ps: seq<Point>, len: SegmentLength, k: nat, t: real)
    requires IsSegmentLength(len) && k + 1 < |ps| && 0.0 < TotalLength(ps, len) && 0.0 <= t <= 1.0
    ensures PointAt(ArcLength(ps, len, k, t) / TotalLength(ps, len), ps, len) == SegmentPoint(ps, k, t)
  {
    var cum := Cumulative(ps, len);
    var total := cum[|cum| - 1];
    var s := ArcLength(ps, len, k, t);
    CumulativeMonotone(ps, len);
    ArcLengthWithin(ps, len, k, t);
    ArcLengthAtStart(ps, len, k, t);
    TargetDistanceOfFraction(s, total);
    var i := FirstReaching(s, cum, 1);
    assert i <= k + 1;
    assert PointAt(s / total, ps, len) == ScanAnswer(s, ps, cum, i);
    if i == k + 1 {
      if cum[k + 1] - cum[k] == 0.0 {
        SegmentPointOfEqualEnds(ps, k, t);
      } else {
        ArcLengthFraction(ps, len, k, t);
      }
    } else {
      // the scan stops at an earlier segment whose end already reaches s
      assert cum[i] <= cum[k];
      assert s == cum[k] == cum[i];
      if cum[i] - cum[i - 1] == 0.0 {
        assert i == 1;
        SameArcLengthSamePoint(ps, len, 0, k);
      } else {
        SegmentFractionWithin(s, cum[i - 1], cum[i]);
        assert SegmentPoint(ps, i - 1, 1.0) == ps[i];
        SameArcLengthSamePoint(ps, len, i, k);
      }
    }
  }

  /** Points whose table entries are equal coincide (the segments between them have length 0). */
  lemma {:induction false} SameArcLengthSamePoint(ps: seq<Point>, len: SegmentLength, i: nat, k: nat)
    requires IsSegmentLength(len) && i <= k < |ps|
    requires var cum := Cumulative(ps, len); cum[i] == cum[k]
    ensures ps[i] == ps[k]
    decreases k - i
  {
    var cum := Cumulative(ps, len);
    CumulativeMonotone(ps, len);
    if i < k {
      CumulativeStep(ps, len, i + 1);
      assert cum[i] <= cum[i + 1] <= cum[k];
      assert len(ps[i], ps[i + 1]) == 0.0;
      SameArcLengthSamePoint(ps, len, i + 1, k);
    }
  }

  /** `pointForPos` undoes `nearestPointOnPolyline`: the position it reports leads back to
      the point it reports. Over exact reals the final clamp changes nothing, because the
      distance along the track to any candidate already lies between 0 and the total. */
  lemma PointForNearestPosition(click: Point, ps: seq<Point>, len: SegmentLength, k: nat)
    requires IsSegmentLength(len) && k + 1 < |ps| && 0.0 < TotalLength(ps, len)
    ensures 0.0 <= AlongTrack(click, ps, len, k) / TotalLength(ps, len) <= 1.0
    ensures PointAt(Clamp01(AlongTrack(click, ps, len, k) / TotalLength(ps, len)), ps, len)
         == SegmentCandidate(click, ps, k)
  {
    var t := SegmentParam(click, ps, k);
    ArcLengthWithin(ps, len, k, t);
    TargetDistanceOfFraction(ArcLength(ps, len, k, t), TotalLength(ps, len));
    CandidateOnSegment(click, ps, k);
    PointAtArcLength(ps, len, k, t);
  }

  /** The 10 by 10 square traced along three sides, 30 units long: position 0.5 lies 15
      units along, halfway up the second side. */
  lemma SquareHalfway(len: SegmentLength)
    requires len(Point(0.0, 0.0), Point(10.0, 0.0)) == 10.0
    requires len(Point(10.0, 0.0), Point(10.0, 10.0)) == 10.0
    requires len(Point(10.0, 10.0), Point(0.0, 10.0)) == 10.0
    ensures PointAt(0.5, [Point(0.0, 0.0), Point(10.0, 0.0), Point(10.0, 10.0), Point(0.0, 10.0)], len)
         == Point(10.0, 5.0)
  {
    var ps := [Point(0.0, 0.0), Point(10.0, 0.0), Point(10.0, 10.0), Point(0.0, 10.0)];
    assert ps[..3][..2] == ps[..2];
    assert Cumulative(ps, len) == [0.0, 10.0, 20.0, 30.0];
    assert TargetDistance(0.5, 30.0) == 15.0;
  }
}
