/**
 * The `update_map` callback: from the four text boxes to the start marker,
 * destination marker, route polyline, result text and map bounds. The
 * geodesic solver, Python's float literal grammar and number formatting are
 * passed in as functions.
 */
module UpdateMap {
  import opened Wrappers
  import opened PyFloat
  import opened Validation
  import opened Display

  /** `geod.inv(lon1, lat1, lon2, lat2)`: forward azimuth, back azimuth, distance in metres. */
  datatype Inverse = Inverse(fwdAzDeg: real, backAzDeg: real, distM: real)

  type InverseSolver = (real, real, real, real) -> Inverse

  /** The arguments of `geod.npts(lon1, lat1, lon2, lat2, npts, radians, initial_idx, terminus_idx)`. */
  datatype NptsQuery = NptsQuery(lon1: real, lat1: real, lon2: real, lat2: real,
                                 npts: int, radians: bool, initialIdx: int, terminusIdx: int)

  /** `geod.npts`: (longitude, latitude) pairs along the geodesic. */
  type PathSampler = NptsQuery -> seq<(real, real)>

  /** An f-string fixed-point format `f"{x:.<digits>f}"`. */
  type Formatter = (real, nat) -> string

  /** Number of segments requested from the sampler. */
  const Segments: int := 1024

  // Written as two literals so that the verifier can read off its first character.
  const Prompt: string := "Enter " + "both Start and Destination coordinates to compute distance and azimuth."

  datatype Marker = Marker(position: LatLng, tooltip: string, popup: string)

  datatype Polyline = Polyline(positions: seq<LatLng>, color: string, weight: int)

  /** The five callback outputs, in the order the callback returns them. */
  datatype Outputs = Outputs(startLayer: Option<Marker>, destLayer: Option<Marker>,
                             lineLayer: Option<Polyline>, resultBox: string, mapBounds: Option<Bounds>)

  /** A marker at (lat, lon) with a tooltip and a popup `f"{head}{lat:.3f}, {lon:.3f}"`. */
  function PointMarker(fmt: Formatter, lat: real, lon: real, tooltip: string, head: string): Marker {
    Marker((lat, lon), tooltip, head + fmt(lat, 3) + ", " + fmt(lon, 3))
  }

  /** The result text for a solved route; it never reads as the prompt. */
  function Summary(fmt: Formatter, distKm: real, az: real): (text: string)
    ensures text != Prompt
    ensures |text| > 10 && text[..10] == "Distance: "
  {
    var head := "Distance: ";
    var text := head + (fmt(distKm, 3) + " km\nAzimuth (Start \U{2192} Dest): " + fmt(az, 1)
      + "\U{00B0} (clockwise from true North)");
    assert text[..10] == head;
    assert Prompt[0] == 'E';
    assert text[0] == 'D';
    text
  }

  /**
   * The body of the callback once the four boxes are parsed. Every output is a
   * function of the four values alone (and of the solver and formatter): the
   * method reads and keeps no state.
   */
  method Draw(sLat: Float, sLon: Float, dLat: Float, dLon: Float,
              inv: InverseSolver, npts: PathSampler, fmt: Formatter)
    returns (out: Outputs)
    // The start marker is there exactly when the start point is valid, at the parsed position.
    ensures out.startLayer.Some? <==> ValidLatLon(Some(sLat), Some(sLon))
    ensures out.startLayer.Some? ==> out.startLayer.value == PointMarker(fmt, sLat.v, sLon.v, "Start", "Start: ")
    // The destination marker is there exactly when the destination is valid, moved east by a
    // whole turn when the start longitude is more than 180 degrees east of it.
    ensures out.destLayer.Some? <==> ValidLatLon(Some(dLat), Some(dLon))
    ensures out.destLayer.Some? ==> out.destLayer.value == PointMarker(fmt, dLat.v, ShiftDestLon(sLon, dLon.v), "Destination", "Dest: ")
    // Line, bounds and route text need both points; otherwise the text is the prompt.
    ensures out.lineLayer.Some? <==> ValidLatLon(Some(sLat), Some(sLon)) && ValidLatLon(Some(dLat), Some(dLon))
    ensures out.mapBounds.Some? <==> out.lineLayer.Some?
    ensures out.resultBox == Prompt <==> out.lineLayer.None?
    ensures out.lineLayer.Some? ==>
      var shownLon := ShiftDestLon(sLon, dLon.v);
      var solved := inv(sLon.v, sLat.v, shownLon, dLat.v);
      && out.lineLayer.value == Polyline(RemapPath(npts(NptsQuery(sLon.v, sLat.v, shownLon, dLat.v, Segments, false, 0, 0)),
                                                   shownLon > 180.0), "blue", 3)
      && out.resultBox == Summary(fmt, solved.distM / 1000.0, Wrap360(solved.fwdAzDeg))
      && out.mapBounds == Some(FitBounds(sLat.v, sLon.v, dLat.v, shownLon))
    // Both markers lie inside the bounds.
    ensures out.mapBounds.Some? ==>
      Contains(out.mapBounds.value, out.startLayer.value.position)
      && Contains(out.mapBounds.value, out.destLayer.value.position)
  {
    var dLon := dLon;
    var startOk := ValidLatLon(Some(sLat), Some(sLon));
    var destOk := ValidLatLon(Some(dLat), Some(dLon));

    var startMarker: Option<Marker> := None;
    var destMarker: Option<Marker> := None;
    var line: Option<Polyline> := None;
    var bounds: Option<Bounds> := None;
    var result: string;

    if startOk {
      startMarker := Some(PointMarker(fmt, sLat.v, sLon.v, "Start", "Start: "));
    }

    if destOk {
      // `if s_lon - d_lon > 180: d_lon += 360`; later steps read the new value.
      dLon := Finite(ShiftDestLon(sLon, dLon.v));
      destMarker := Some(PointMarker(fmt, dLat.v, dLon.v, "Destination", "Dest: "));
    }

    if startOk && destOk {
      var solved := inv(sLon.v, sLat.v, dLon.v, dLat.v);
      var az := Wrap360(solved.fwdAzDeg);
      var distKm := solved.distM / 1000.0;
      var gcLonLat := npts(NptsQuery(sLon.v, sLat.v, dLon.v, dLat.v, Segments, false, 0, 0));
      var shiftRight := Gt(dLon, Finite(180.0));
      var gcPoints := RemapPath(gcLonLat, shiftRight);
      line := Some(Polyline(gcPoints, "blue", 3));
      result := Summary(fmt, distKm, az);
      bounds := Some(FitBounds(sLat.v, sLon.v, dLat.v, dLon.v));
    } else {
      result := Prompt;
    }

    out := Outputs(startMarker, destMarker, line, result, bounds);
  }

  /** One run of the callback: parse the four boxes, then draw. */
  method Update(startLatS: RawValue, startLonS: RawValue, destLatS: RawValue, destLonS: RawValue,
                float: FloatLiteral, inv: InverseSolver, npts: PathSampler, fmt: Formatter)
    returns (out: Outputs)
    ensures var sLat, sLon := ParseFloat(startLatS, float), ParseFloat(startLonS, float);
      && (out.startLayer.Some? <==> ValidLatLon(Some(sLat), Some(sLon)))
      && (out.startLayer.Some? ==> out.startLayer.value == PointMarker(fmt, sLat.v, sLon.v, "Start", "Start: "))
    ensures var sLon, dLat, dLon := ParseFloat(startLonS, float), ParseFloat(destLatS, float), ParseFloat(destLonS, float);
      && (out.destLayer.Some? <==> ValidLatLon(Some(dLat), Some(dLon)))
      && (out.destLayer.Some? ==> out.destLayer.value == PointMarker(fmt, dLat.v, ShiftDestLon(sLon, dLon.v), "Destination", "Dest: "))
    ensures out.lineLayer.Some? <==>
      && ValidLatLon(Some(ParseFloat(startLatS, float)), Some(ParseFloat(startLonS, float)))
      && ValidLatLon(Some(ParseFloat(destLatS, float)), Some(ParseFloat(destLonS, float)))
    ensures out.mapBounds.Some? <==> out.lineLayer.Some?
    ensures out.resultBox == Prompt <==> out.lineLayer.None?
    ensures out.lineLayer.Some? ==>
      var sLat, sLon := ParseFloat(startLatS, float), ParseFloat(startLonS, float);
      var dLat, dLon := ParseFloat(destLatS, float), ParseFloat(destLonS, float);
      var shownLon := ShiftDestLon(sLon, dLon.v);
      var solved := inv(sLon.v, sLat.v, shownLon, dLat.v);
      && out.lineLayer.value == Polyline(RemapPath(npts(NptsQuery(sLon.v, sLat.v, shownLon, dLat.v, Segments, false, 0, 0)),
                                                   shownLon > 180.0), "blue", 3)
      && out.resultBox == Summary(fmt, solved.distM / 1000.0, Wrap360(solved.fwdAzDeg))
      && out.mapBounds == Some(FitBounds(sLat.v, sLon.v, dLat.v, shownLon))
    ensures out.mapBounds.Some? ==>
      Contains(out.mapBounds.value, out.startLayer.value.position)
      && Contains(out.mapBounds.value, out.destLayer.value.position)
  {
    var sLat := ParseFloat(startLatS, float);
    var sLon := ParseFloat(startLonS, float);
    var dLat := ParseFloat(destLatS, float);
    var dLon := ParseFloat(destLonS, float);
    out := Draw(sLat, sLon, dLat, dLon, inv, npts, fmt);
  }
}
