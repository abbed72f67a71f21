/**
 * Reading a coordinate from a text box (`parse_float`) and deciding whether a
 * latitude/longitude pair is a point at all (`valid_lat_lon`).
 */
module Validation {
  import opened Wrappers
  import opened PyFloat

  /**
   * The characters Python's `str.isspace` accepts, which `str.strip()`
   * removes: tab to carriage return, the four information separators,
   * space, NEL, no-break space and the Unicode space and line separators.
   */
  predicate IsSpace(c: char)
    ensures c == ' ' || c == '\t' || c == '\n' || c == '\r' ==> IsSpace(c)
    ensures '0' <= c <= '9' || c == '.' || c == '-' || c == '+' || c == 'e' || c == 'E' ==> !IsSpace(c)
  {
    var n := c as int;
    (9 <= n <= 13) || (28 <= n <= 32) || n == 0x85 || n == 0xA0 || n == 0x1680
    || (0x2000 <= n <= 0x200A) || n == 0x2028 || n == 0x2029 || n == 0x202F || n == 0x205F || n == 0x3000
  }

  /*
   * The stripping functions below take the set of characters to remove as a
   * predicate `ws`, as Python's `str.strip(chars)` does; `Strip` is the
   * no-argument form with Python's whitespace.
   */

  /** Every character of `s` from index `lo` up to `hi` satisfies `ws`. */
  predicate SpacesIn(s: string, lo: nat, hi: nat, ws: char -> bool)
    requires lo <= hi <= |s|
  {
    forall k :: lo <= k < hi ==> ws(s[k])
  }

  predicate AllSpace(s: string, ws: char -> bool) {
    SpacesIn(s, 0, |s|, ws)
  }

  /** Index of the first character of `s` outside `ws`, or `|s|` when there is none. */
  function FirstNonSpace(s: string, ws: char -> bool): (n: nat)
    ensures n <= |s|
  {
    if |s| == 0 || !ws(s[0]) then 0 else FirstNonSpace(s[1..], ws) + 1
  }

  /** Index just past the last character of `s` outside `ws`, or 0 when there is none. */
  function EndNonSpace(s: string, ws: char -> bool): (n: nat)
    ensures n <= |s|
  {
    if |s| == 0 || !ws(s[|s| - 1]) then |s| else EndNonSpace(s[..|s| - 1], ws)
  }

  /** Everything before `FirstNonSpace` is in `ws`, and the character at it is not. */
  lemma {:induction false} FirstNonSpaceSpec(s: string, ws: char -> bool)
    ensures SpacesIn(s, 0, FirstNonSpace(s, ws), ws)
    ensures FirstNonSpace(s, ws) < |s| ==> !ws(s[FirstNonSpace(s, ws)])
  {
    if |s| > 0 && ws(s[0]) {
      FirstNonSpaceSpec(s[1..], ws);
      var m := FirstNonSpace(s[1..], ws);
      assert forall k :: 1 <= k < m + 1 ==> s[k] == s[1..][k - 1];
    }
  }

  /** Everything from `EndNonSpace` on is in `ws`, and the character before it is not. */
  lemma {:induction false} EndNonSpaceSpec(s: string, ws: char -> bool)
    ensures SpacesIn(s, EndNonSpace(s, ws), |s|, ws)
    ensures EndNonSpace(s, ws) > 0 ==> !ws(s[EndNonSpace(s, ws) - 1])
  {
    if |s| > 0 && ws(s[|s| - 1]) {
      EndNonSpaceSpec(s[..|s| - 1], ws);
      var m := EndNonSpace(s[..|s| - 1], ws);
      assert forall k :: m <= k < |s| - 1 ==> s[k] == s[..|s| - 1][k];
    }
  }

  /** The two properties above pin down a single index each. */
  lemma FirstNonSpaceUnique(s: string, m: nat, ws: char -> bool)
    requires m <= |s| && SpacesIn(s, 0, m, ws)
    requires m < |s| ==> !ws(s[m])
    ensures m == FirstNonSpace(s, ws)
  {
    FirstNonSpaceSpec(s, ws);
  }

  lemma EndNonSpaceUnique(s: string, m: nat, ws: char -> bool)
    requires m <= |s| && SpacesIn(s, m, |s|, ws)
    requires m > 0 ==> !ws(s[m - 1])
    ensures m == EndNonSpace(s, ws)
  {
    EndNonSpaceSpec(s, ws);
  }

  /**
   * `s.strip(chars)`: the slice of `s` between its first and its last
   * character outside `ws`, and empty when there is no such character.
   */
  function StripChars(s: string, ws: char -> bool): (r: string)
    ensures |r| <= |s|
  {
    var a, b := FirstNonSpace(s, ws), EndNonSpace(s, ws);
    if a < b then s[a..b] else []
  }

  /** The stripped text neither starts nor ends with `ws`, and it is empty exactly for all-`ws` text. */
  lemma StripCharsSpec(s: string, ws: char -> bool)
    ensures var r := StripChars(s, ws); r == [] || (!ws(r[0]) && !ws(r[|r| - 1]))
    ensures StripChars(s, ws) == [] <==> AllSpace(s, ws)
  {
    FirstNonSpaceSpec(s, ws);
    EndNonSpaceSpec(s, ws);
    var a, b := FirstNonSpace(s, ws), EndNonSpace(s, ws);
    if a < b {
      assert StripChars(s, ws)[0] == s[a];
      assert StripChars(s, ws)[b - a - 1] == s[b - 1];
    }
  }

  /** When `s` is not all `ws`, stripping it keeps exactly `s[FirstNonSpace..EndNonSpace]`. */
  lemma StripCharsSlice(s: string, ws: char -> bool, a: nat, b: nat)
    requires !AllSpace(s, ws) && a == FirstNonSpace(s, ws) && b == EndNonSpace(s, ws)
    ensures a < b <= |s| && StripChars(s, ws) == s[a..b]
  {
    StripCharsSpec(s, ws);
  }

  /** Runs of `ws` characters join up. */
  lemma SpacesInJoin(s: string, lo: nat, mid: nat, hi: nat, ws: char -> bool)
    requires lo <= mid <= hi <= |s|
    requires SpacesIn(s, lo, mid, ws) && SpacesIn(s, mid, hi, ws)
    ensures SpacesIn(s, lo, hi, ws)
  {
  }

  /** A run of `ws` characters in the middle part is a run in `pre + s + post`, shifted by `|pre|`. */
  lemma SpacesInMiddle(pre: string, s: string, post: string, lo: nat, hi: nat, ws: char -> bool)
    requires lo <= hi <= |s| && SpacesIn(s, lo, hi, ws)
    ensures SpacesIn(pre + s + post, |pre| + lo, |pre| + hi, ws)
  {
    var u := pre + s + post;
    forall k | |pre| + lo <= k < |pre| + hi ensures ws(u[k]) {
      assert u[k] == s[k - |pre|];
    }
  }

  /** Padding made of `ws` characters is a run in `pre + s + post`. */
  lemma SpacesInPadding(pre: string, s: string, post: string, ws: char -> bool)
    ensures AllSpace(pre, ws) ==> SpacesIn(pre + s + post, 0, |pre|, ws)
    ensures AllSpace(post, ws) ==> SpacesIn(pre + s + post, |pre| + |s|, |pre + s + post|, ws)
  {
    var u := pre + s + post;
    if AllSpace(pre, ws) {
      forall k | 0 <= k < |pre| ensures ws(u[k]) {
        assert u[k] == pre[k];
      }
    }
    if AllSpace(post, ws) {
      forall k | |pre| + |s| <= k < |u| ensures ws(u[k]) {
        assert u[k] == post[k - |pre| - |s|];
      }
    }
  }

  /** Padding a string that is not all `ws` shifts its first kept index by the padding. */
  lemma PaddedFirst(pre: string, s: string, post: string, ws: char -> bool)
    requires AllSpace(pre, ws) && !AllSpace(s, ws)
    ensures FirstNonSpace(pre + s + post, ws) == |pre| + FirstNonSpace(s, ws)
  {
    var u := pre + s + post;
    var p, a := |pre|, FirstNonSpace(s, ws);
    assert a < |s| && !ws(s[a]) by {
      FirstNonSpaceSpec(s, ws);
    }
    assert SpacesIn(u, 0, p + a, ws) by {
      FirstNonSpaceSpec(s, ws);
      SpacesInPadding(pre, s, post, ws);
      SpacesInMiddle(pre, s, post, 0, a, ws);
      SpacesInJoin(u, 0, p, p + a, ws);
    }
    assert !ws(u[p + a]) by {
      assert u[p + a] == s[a];
    }
    FirstNonSpaceUnique(u, p + a, ws);
  }

  /** ... and its end index by the same amount. */
  lemma PaddedEnd(pre: string, s: string, post: string, ws: char -> bool)
    requires AllSpace(post, ws) && !AllSpace(s, ws)
    ensures EndNonSpace(pre + s + post, ws) == |pre| + EndNonSpace(s, ws)
  {
    var u := pre + s + post;
    var p, b := |pre|, EndNonSpace(s, ws);
    assert 0 < b && !ws(s[b - 1]) by {
      EndNonSpaceSpec(s, ws);
    }
    assert SpacesIn(u, p + b, |u|, ws) by {
      EndNonSpaceSpec(s, ws);
      SpacesInPadding(pre, s, post, ws);
      SpacesInMiddle(pre, s, post, b, |s|, ws);
      SpacesInJoin(u, p + b, p + |s|, |u|, ws);
    }
    assert !ws(u[p + b - 1]) by {
      assert u[p + b - 1] == s[b - 1];
    }
    EndNonSpaceUnique(u, p + b, ws);
  }

  /** A slice of the middle part is a slice of `pre + s + post`, shifted by `|pre|`. */
  lemma MiddleSlice(pre: string, s: string, post: string, a: nat, b: nat)
    requires a <= b <= |s|
    ensures (pre + s + post)[|pre| + a..|pre| + b] == s[a..b]
  {
    var u := pre + s + post;
    forall k | 0 <= k < b - a ensures u[|pre| + a..|pre| + b][k] == s[a..b][k] {
      assert u[|pre| + a..|pre| + b][k] == u[|pre| + (a + k)];
      assert u[|pre| + (a + k)] == s[a + k];
    }
  }

  lemma PaddedAllSpace(pre: string, s: string, post: string, ws: char -> bool)
    requires AllSpace(pre, ws) && AllSpace(s, ws) && AllSpace(post, ws)
    ensures AllSpace(pre + s + post, ws)
  {
    var u := pre + s + post;
    SpacesInPadding(pre, s, post, ws);
    SpacesInMiddle(pre, s, post, 0, |s|, ws);
    SpacesInJoin(u, 0, |pre|, |pre| + |s|, ws);
    SpacesInJoin(u, 0, |pre| + |s|, |u|, ws);
  }

  /** Characters of `ws` around the text never change what `strip` returns. */
  lemma StripCharsIgnoresPadding(pre: string, s: string, post: string, ws: char -> bool)
    requires AllSpace(pre, ws) && AllSpace(post, ws)
    ensures StripChars(pre + s + post, ws) == StripChars(s, ws)
  {
    if AllSpace(s, ws) {
      PaddedAllSpace(pre, s, post, ws);
      StripCharsSpec(pre + s + post, ws);
      StripCharsSpec(s, ws);
    } else {
      PaddedText(pre, s, post, ws);
    }
  }

  /** The case of text that is not all `ws`: both strips cut out the same slice. */
  lemma PaddedText(pre: string, s: string, post: string, ws: char -> bool)
    requires AllSpace(pre, ws) && AllSpace(post, ws) && !AllSpace(s, ws)
    ensures StripChars(pre + s + post, ws) == StripChars(s, ws)
  {
    var u := pre + s + post;
    var p, a, b := |pre|, FirstNonSpace(s, ws), EndNonSpace(s, ws);
    StripCharsSlice(s, ws, a, b);
    assert !AllSpace(u, ws) by {
      FirstNonSpaceSpec(s, ws);
      assert u[p + a] == s[a];
    }
    PaddedFirst(pre, s, post, ws);
    PaddedEnd(pre, s, post, ws);
    StripCharsSlice(u, ws, p + a, p + b);
    MiddleSlice(pre, s, post, a, b);
  }

  /** `str.strip()` with no argument: removes Python whitespace at both ends. */
  function Strip(s: string): (r: string)
    ensures |r| <= |s|
  {
    StripChars(s, IsSpace)
  }

  /** The result of `strip()` neither starts nor ends with whitespace; it is empty exactly for blank text. */
  lemma StripSpec(s: string)
    ensures var r := Strip(s); r == [] || (!IsSpace(r[0]) && !IsSpace(r[|r| - 1]))
    ensures Strip(s) == [] <==> AllSpace(s, IsSpace)
  {
    StripCharsSpec(s, IsSpace);
  }

  /** Whitespace around the text never changes what `strip()` returns. */
  lemma StripIgnoresPadding(pre: string, s: string, post: string)
    requires AllSpace(pre, IsSpace) && AllSpace(post, IsSpace)
    ensures Strip(pre + s + post) == Strip(s)
  {
    StripCharsIgnoresPadding(pre, s, post, IsSpace);
  }

  /** What a Dash text box delivers: nothing yet (Python `None`) or the typed text. */
  datatype RawValue = NoValue | Text(s: string)

  /** Python's `str(s)` on such a value. */
  function Str(raw: RawValue): string {
    match raw
    case NoValue => "None"
    case Text(s) => s
  }

  /**
   * Python's `float(text)`: its literal grammar is not modelled, only its
   * outcome, a float or `None` for the raised `ValueError`.
   */
  type FloatLiteral = string -> Option<Float>

  /**
   * `parse_float`: the float the stripped text denotes, and NaN instead of an
   * exception when it denotes none. The result always exists.
   */
  function ParseFloat(raw: RawValue, float: FloatLiteral): Float {
    match float(Strip(Str(raw)))
    case Some(x) => x
    case None => NaN
  }

  /** The same text padded with whitespace parses to the same float. */
  lemma ParseFloatIgnoresPadding(pre: string, s: string, post: string, float: FloatLiteral)
    requires AllSpace(pre, IsSpace) && AllSpace(post, IsSpace)
    ensures ParseFloat(Text(pre + s + post), float) == ParseFloat(Text(s), float)
  {
    StripIgnoresPadding(pre, s, post);
  }

  /**
   * `valid_lat_lon`: both parts present, and the Python comparisons
   * `-90.0 <= lat <= 90.0` and `-180.0 <= lon <= 180.0` hold; NaN and the
   * infinities fail them.
   */
  function ValidLatLon(lat: Option<Float>, lon: Option<Float>): (ok: bool)
    ensures ok <==> lat.Some? && lon.Some? && lat.value.Finite? && lon.value.Finite?
                    && -90.0 <= lat.value.v <= 90.0 && -180.0 <= lon.value.v <= 180.0
  {
    if lat.None? || lon.None? then
      false
    else
      (Le(Finite(-90.0), lat.value) && Le(lat.value, Finite(90.0)))
      && (Le(Finite(-180.0), lon.value) && Le(lon.value, Finite(180.0)))
  }

  /**
   * Text that is not a number never raises: it yields NaN, and a point with
   * NaN in either component is not a point, whatever the other component is.
   */
  lemma UnparseableMeansInvalid(raw: RawValue, float: FloatLiteral, other: Float)
    requires float(Strip(Str(raw))).None?
    ensures ParseFloat(raw, float).NaN?
    ensures !ValidLatLon(Some(ParseFloat(raw, float)), Some(other))
    ensures !ValidLatLon(Some(other), Some(ParseFloat(raw, float)))
  {
  }
}
