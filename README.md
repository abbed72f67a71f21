# Aviation-Navigation: distance and azimuth callback

The application is a Dash web page with a Leaflet map and four text boxes:
start latitude and longitude, destination latitude and longitude. After each
edit the `update_map` callback takes the four texts and does the following:

- it reads each text as a float (`parse_float`);
- it decides whether the start and the destination are points (`valid_lat_lon`);
- it places a marker on each valid point;
- when both points are valid, it asks the WGS84 geodesic solver for distance
  and forward azimuth, samples the great-circle path, draws it as a polyline,
  writes a result text and fits the map to both points;
- otherwise it writes a fixed prompt.

To keep a route across the antimeridian drawn as one piece, a route that
enters the Western Hemisphere from the west (start longitude more than 180
degrees east of the destination) moves the destination one turn east. When the
shifted destination longitude is above 180, the sampled path is brought into
[0, 360) as well; a destination shifted to exactly 180 leaves the path as it is.

The model is in five modules:

- `Wrappers` (`wrappers.dfy`): `Option`, for absent markers, line and bounds.
- `PyFloat` (`py_float.dfy`): Python floats as a finite exact real, `inf`,
  `-inf` or `nan`.
  - It gives Python's comparisons and subtraction on them, with NaN comparing
    false.
  - It gives the remainder `x % 360` as `x - 360 * floor(x / 360)`, and the
    relation "same angle" (a whole number of turns apart).
- `Validation` (`validation.dfy`):
  - `str.strip()` with Python's whitespace set;
  - `str()` of a text box value, including `None`;
  - `parse_float`, with NaN in place of the exception;
  - `valid_lat_lon`.
- `Display` (`display.dfy`):
  - the destination shift `if s_lon - d_lon > 180: d_lon += 360`;
  - `(x + 360) % 360`, for the azimuth and for path longitudes;
  - the path comprehension;
  - the `min`/`max` viewport box.
- `UpdateMap` (`update_map.dfy`): the callback itself.
  - `Update` parses the four boxes and hands the values to `Draw`.
  - `Draw` follows the callback step by step: it sets the four outputs to
    `None`, reassigns them under `start_ok`, `dest_ok` and both, and reassigns
    the local destination longitude, which the later steps read.

Three things are parameters of the model, not parts of it:

- the geodesic solver (`geod.inv`, `geod.npts`);
- Python's float literal grammar;
- f-string number formatting.

The model states nothing about their results beyond their types.

The model follows the code where the code and its own description differ:

- `parse_float`'s docstring promises `None` on failure, but the code returns
  `math.nan`. `valid_lat_lon` therefore always gets a value, and its `None`
  branch is reached only through direct calls. The model keeps that branch
  (`ValidLatLon` takes `Option<Float>`).
- The shift test `s_lon - d_lon > 180` runs whenever the destination is
  valid, even when the start is not a point.
  - A start longitude of `inf` shifts the destination.
  - A start of `nan` or `-inf` never does.
  - `InfiniteStartShifts` records this.
- Only the crossing into the Western Hemisphere is handled. A route from
  170 W to 170 E, crossing into the Eastern Hemisphere, is not shifted
  (`CrossingIntoEastNotShifted`).
- The start marker is never shifted.
- The solver calls, the remap test `d_lon > 180` and the bounds all read the
  shifted destination longitude.

## Model

| member | source | states |
|---|---|---|
| `PyFloat.Lt` | app.py:22 | Python `<` on floats: false whenever NaN takes part, the order of reals on finite values, true for `-inf` below anything else and anything below `inf`, false with `inf` on the left or `-inf` on the right |
| `PyFloat.Le` | app.py:22 | Python `<=`: false with NaN, the real order on finite values, true against `-inf` on the left or `inf` on the right, false for `inf <= finite` and `finite <= -inf` |
| `PyFloat.Gt` | app.py:153 | Python `>`: the real order on finite values, false with NaN, true for `inf` above anything else (so `inf > 180` holds) and anything above `-inf`, false with `-inf` on the left or `inf` on the right |
| `PyFloat.Sub` | app.py:153 | Python `-`: exact on finite values, NaN in gives NaN out, and subtracting a finite value keeps the sign of an infinity |
| `PyFloat.Mod360` | app.py:163 | Python `x % 360` is in [0, 360), is the same angle as `x`, and is `x` itself for `x` already in [0, 360) |
| `PyFloat.Mod360Unique` | app.py:163 | any value in [0, 360) on the same angle as `x` equals `x % 360`, so the remainder is determined by the angle |
| `PyFloat.SameAngleTurn` | app.py:163 | adding 360 keeps the angle, and "same angle" is symmetric |
| `PyFloat.AngleTransfer` | app.py:163 | two values on the same angle as a third are on the same angle as each other |
| `Validation.IsSpace` | app.py:13 | Python's whitespace set: space, tab, newline and carriage return are in it; digits, `.`, signs and the exponent letters are not |
| `Validation.FirstNonSpace` | app.py:13 | the first kept index of `strip` lies within the text |
| `Validation.EndNonSpace` | app.py:13 | the end index of `strip` lies within the text |
| `Validation.FirstNonSpaceSpec` | app.py:13 | every character before the first kept index is whitespace and the one at it is not |
| `Validation.EndNonSpaceSpec` | app.py:13 | every character from the end index on is whitespace and the one before it is not |
| `Validation.FirstNonSpaceUnique` | app.py:13 | those two facts determine the first kept index |
| `Validation.EndNonSpaceUnique` | app.py:13 | those two facts determine the end index |
| `Validation.StripChars` | app.py:13 | `strip(chars)` never makes the text longer |
| `Validation.StripCharsSpec` | app.py:13 | the stripped text neither starts nor ends with a removed character, and it is empty exactly when the whole text consists of removed characters |
| `Validation.StripCharsSlice` | app.py:13 | for text that is not all whitespace, the stripped text is the slice between the first and the last kept character |
| `Validation.StripCharsIgnoresPadding` | app.py:13 | adding removed characters at either end never changes the stripped text |
| `Validation.Strip` | app.py:13 | `strip()` never makes the text longer |
| `Validation.StripSpec` | app.py:13 | `strip()` leaves no Python whitespace at either end, and it yields the empty text exactly for blank text |
| `Validation.StripIgnoresPadding` | app.py:13 | whitespace typed around a number does not change what `strip()` returns |
| `Validation.ParseFloatIgnoresPadding` | app.py:10-15 | (with `UnparseableMeansInvalid`, the contract of `ParseFloat`, which reads `float()` of `Strip(Str(raw))`; `Str` is `str()` on a box value, "None" for an empty box) a text box value padded with whitespace parses to the same float as the bare text |
| `Validation.UnparseableMeansInvalid` | app.py:10-22 | a text `float()` rejects yields NaN and never an exception, and a coordinate pair with NaN in either place is not a point, whatever the other part is |
| `Validation.ValidLatLon` | app.py:18-22 | a pair is a point exactly when both parts are present and finite, the latitude is in [-90, 90] and the longitude in [-180, 180] |
| `Display.ShiftDestLon` | app.py:151-154 | the destination longitude grows by exactly 360 (exactly when the start longitude is `inf` or finite and more than 180 east of it) or stays. For valid points the start is then at most 180 east of it, a shifted longitude lies in [180, 360), and a longitude above 180 was shifted |
| `Display.CrossingIntoWestShifted` | app.py:151-154 | a route from 170 E to 170 W draws its destination at 190 |
| `Display.CrossingIntoEastNotShifted` | app.py:151-154 | a route from 170 W to 170 E is left unshifted |
| `Display.InfiniteStartShifts` | app.py:133-154 | a start longitude of `inf` shifts any destination, and `nan` or `-inf` shift none |
| `Display.Wrap360` | app.py:163 | `(x + 360) % 360` lies in [0, 360) on the same angle as `x`: it is `x` for `x` in [0, 360) and `x + 360` for `x` in [-360, 0) |
| `Display.RemapLon` | app.py:169 | one path longitude: untouched without `shift_right`, otherwise moved into [0, 360) on the same angle |
| `Display.RemapPath` | app.py:168-169 | the remapped path has the sampler's length and order and keeps every latitude. It swaps each pair into (lat, lon). Longitudes are untouched without `shift_right` and otherwise in [0, 360) on the same angle |
| `Display.PyMin` | app.py:178 | Python's `min` of two values is one of them and at most both |
| `Display.PyMax` | app.py:178 | Python's `max` of two values is one of them and at least both |
| `Display.FitBounds` | app.py:178 | the viewport box has each minimum at most its maximum, holds both endpoints, and has every edge on one of the endpoints |
| `Display.FitBoundsIsSmallest` | app.py:178 | every box holding both endpoints holds the viewport box |
| `UpdateMap.Summary` | app.py:176-180 | the result text for a solved route starts with "Distance: " and is never the prompt |
| `UpdateMap.Draw` | app.py:137-182 | see the list below the table |
| `UpdateMap.Update` | app.py:131-182 | the same outputs as `Draw`, for the floats `parse_float` reads from the four text boxes |

`UpdateMap.Draw` states:

- The start marker is present exactly when the start is a point
  (`ValidLatLon`), and it is the `PointMarker` at the parsed start, unshifted,
  with tooltip "Start" and popup head "Start: " (app.py:145-149).
- The destination marker is present exactly when the destination is a point,
  and it is the `PointMarker` at the shifted longitude, with tooltip
  "Destination" and popup head "Dest: " (app.py:151-158).
- The line is present exactly when both are points, and so are the bounds.
- The text is the prompt exactly when the line is absent.
- Otherwise the outputs are as follows:
  - the line is the remapped sample of the solver called with the shifted
    longitude and 1024 segments;
  - the text reports the solver distance over 1000 and `(fwd + 360) % 360`;
  - the bounds are the box of the start and the shifted destination.
- The box holds both markers.

## Left out

- The geodesic solver (`geod.inv`, `geod.npts`, app.py:7, 162 and 167) is a
  function parameter. The model claims no distance values, bearing accuracy
  or point count. The remap keeps whatever length the sampler returns.
- Python's `float()` literal grammar is a parameter from text to an optional
  float. The model states the outcome of `float(str(s).strip())` (a float, or
  the exception turned into NaN), not which texts are numbers.
- The f-string formats `:.3f` and `:.1f` (app.py:148, 157 and 176) are a
  parameter from a number and a digit count to text.
- IEEE rounding and overflow are not modelled: finite floats are exact reals.
  - For a tiny negative `x` such as `-1e-20`, Python's `x + 360` already
    rounds to `360.0`, so `(x + 360) % 360` is `0.0`.
  - The model's `Wrap360` returns the exact `x + 360`, just below 360: the
    two land on opposite sides of the 0/360 seam.
  - Very large sums do not overflow to `inf`.
- The Dash page layout, widgets, tile layer and styling (app.py:25-116), the
  callback decorator wiring (app.py:120-130) and `app.run` (app.py:185-186)
  are user interface and framework plumbing.
- Leaflet marker children are modelled by their tooltip and popup texts. The
  polyline is modelled by its positions, colour and weight. Nothing is
  rendered.
