/**
 * The arithmetic `update_map` does on coordinates so that a route draws on a
 * flat map: the antimeridian shift of the destination, the bearing brought
 * into [0, 360), the remap of the sampled path and the viewport box.
 */
module Display {
  import opened PyFloat

  /** A map position as Leaflet takes it: (latitude, longitude) in degrees. */
  type LatLng = (real, real)

  /**
   * The destination longitude after `if s_lon - d_lon > 180: d_lon += 360`.
   * The test uses the start longitude as parsed, which may be infinite, NaN
   * or out of range when the start point itself is invalid.
   */
  function ShiftDestLon(sLon: Float, dLon: real): (r: real)
    ensures r == dLon || r == dLon + 360.0
    ensures r == dLon + 360.0 <==> sLon.PosInf? || (sLon.Finite? && sLon.v - dLon > 180.0)
    ensures sLon.Finite? && -180.0 <= sLon.v <= 180.0 && -180.0 <= dLon <= 180.0 ==>
              sLon.v - r <= 180.0
              && (r == dLon + 360.0 ==> 180.0 <= r < 360.0)
              && (r > 180.0 ==> r == dLon + 360.0)
  {
    if Gt(Sub(sLon, Finite(dLon)), Finite(180.0)) then dLon + 360.0 else dLon
  }

  /** A route from 170 E to 170 W, entering the Western Hemisphere from the west, has its destination drawn at 190. */
  lemma CrossingIntoWestShifted()
    ensures ShiftDestLon(Finite(170.0), -170.0) == 190.0
  {
  }

  /** The opposite crossing, from 170 W to 170 E, entering the Eastern Hemisphere, is left as it is. */
  lemma CrossingIntoEastNotShifted()
    ensures ShiftDestLon(Finite(-170.0), 170.0) == 170.0
  {
  }

  /** With start longitude `inf` (a point that is not shown) the destination still moves. */
  lemma InfiniteStartShifts(dLon: real)
    ensures ShiftDestLon(PosInf, dLon) == dLon + 360.0
    ensures ShiftDestLon(NaN, dLon) == dLon && ShiftDestLon(NegInf, dLon) == dLon
  {
  }

  /**
   * `(x + 360) % 360`, applied to the forward azimuth and to path longitudes:
   * a value in [0, 360) for the same direction as `x`; for `x` in [-180, 180]
   * it is `x` itself when that is not negative and `x + 360` when it is.
   */
  function Wrap360(x: real): (r: real)
    ensures 0.0 <= r < 360.0
    ensures SameAngle(x, r)
    ensures 0.0 <= x < 360.0 ==> r == x
    ensures -360.0 <= x < 0.0 ==> r == x + 360.0
  {
    var r := Mod360(x + 360.0);
    SameAngleTurn(x, x);
    AngleTransfer(x, x + 360.0, r);
    if 0.0 <= x < 360.0 then
      Mod360Unique(x + 360.0, x);
      r
    else
      r
  }

  /** One point of the path comprehension: `(lon + 360) % 360 if shift_right else lon`. */
  function RemapLon(lon: real, shiftRight: bool): (r: real)
    ensures !shiftRight ==> r == lon
    ensures shiftRight ==> 0.0 <= r < 360.0 && SameAngle(lon, r)
    ensures shiftRight && 0.0 <= lon < 360.0 ==> r == lon
    ensures shiftRight && -360.0 <= lon < 0.0 ==> r == lon + 360.0
  {
    if shiftRight then Wrap360(lon) else lon
  }

  /**
   * `[(lat, remap(lon)) for lon, lat in gc_lonlat]`: the solver's
   * (longitude, latitude) pairs become (latitude, longitude) positions; order,
   * count and latitudes are kept, and longitudes are moved into [0, 360) only
   * when `shiftRight`.
   */
  function RemapPath(lonLat: seq<(real, real)>, shiftRight: bool): (pts: seq<LatLng>)
    ensures |pts| == |lonLat|
    ensures forall i :: 0 <= i < |pts| ==> pts[i].0 == lonLat[i].1
    ensures !shiftRight ==> forall i :: 0 <= i < |pts| ==> pts[i].1 == lonLat[i].0
    ensures shiftRight ==> forall i :: 0 <= i < |pts| ==>
              0.0 <= pts[i].1 < 360.0 && SameAngle(lonLat[i].0, pts[i].1)
  {
    seq(|lonLat|, i requires 0 <= i < |lonLat| => (lonLat[i].1, RemapLon(lonLat[i].0, shiftRight)))
  }

  /** The viewport box `[[south, west], [north, east]]`. */
  datatype Bounds = Bounds(southWest: LatLng, northEast: LatLng)

  predicate Contains(b: Bounds, p: LatLng) {
    b.southWest.0 <= p.0 <= b.northEast.0 && b.southWest.1 <= p.1 <= b.northEast.1
  }

  /** Python's `min(a, b)`: `b` only when it is strictly smaller. */
  function PyMin(a: real, b: real): (r: real)
    ensures r == a || r == b
    ensures r <= a && r <= b
  {
    if b < a then b else a
  }

  /** Python's `max(a, b)`: `b` only when it is strictly larger. */
  function PyMax(a: real, b: real): (r: real)
    ensures r == a || r == b
    ensures r >= a && r >= b
  {
    if b > a then b else a
  }

  /**
   * `[[min(s_lat, d_lat), min(s_lon, d_lon)], [max(s_lat, d_lat), max(s_lon, d_lon)]]`:
   * the smallest box holding both points, each edge on one of them.
   */
  function FitBounds(sLat: real, sLon: real, dLat: real, dLon: real): (b: Bounds)
    ensures b.southWest.0 <= b.northEast.0 && b.southWest.1 <= b.northEast.1
    ensures Contains(b, (sLat, sLon)) && Contains(b, (dLat, dLon))
    ensures b.southWest.0 in {sLat, dLat} && b.northEast.0 in {sLat, dLat}
    ensures b.southWest.1 in {sLon, dLon} && b.northEast.1 in {sLon, dLon}
  {
    Bounds((PyMin(sLat, dLat), PyMin(sLon, dLon)), (PyMax(sLat, dLat), PyMax(sLon, dLon)))
  }

  /** Any box that holds both points holds the fitted one. */
  lemma FitBoundsIsSmallest(sLat: real, sLon: real, dLat: real, dLon: real, other: Bounds)
    requires Contains(other, (sLat, sLon)) && Contains(other, (dLat, dLon))
    ensures Contains(other, FitBounds(sLat, sLon, dLat, dLon).southWest)
    ensures Contains(other, FitBounds(sLat, sLon, dLat, dLon).northEast)
  {
  }
}
