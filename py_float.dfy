/**
 * Python floats as the program sees them: a finite number, an infinity or
 * NaN. Finite values are exact reals; IEEE rounding is not modelled.
 */
module PyFloat {

  datatype Float = Finite(v: real) | PosInf | NegInf | NaN

  /** Python's `a < b` on floats: every comparison involving NaN is False. */
  function Lt(a: Float, b: Float): (r: bool)
    ensures r ==> !a.NaN? && !b.NaN?
    ensures a.Finite? && b.Finite? ==> (r <==> a.v < b.v)
    ensures !a.NaN? && !b.NaN? && ((a.NegInf? && !b.NegInf?) || (b.PosInf? && !a.PosInf?)) ==> r
    ensures a.PosInf? || b.NegInf? ==> !r
  {
    if a.NaN? || b.NaN? then false
    else if a.Finite? && b.Finite? then a.v < b.v
    else if a.NegInf? then !b.NegInf?
    else b.PosInf? && !a.PosInf?
  }

  /** Python's `a <= b`: false when either side is NaN, otherwise "not b < a". */
  function Le(a: Float, b: Float): (r: bool)
    ensures r ==> !a.NaN? && !b.NaN?
    ensures a.Finite? && b.Finite? ==> (r <==> a.v <= b.v)
    ensures !a.NaN? && !b.NaN? && (a.NegInf? || b.PosInf?) ==> r
    ensures (a.PosInf? && !b.PosInf?) || (b.NegInf? && !a.NegInf?) ==> !r
  {
    !a.NaN? && !b.NaN? && !Lt(b, a)
  }

  /** Python's `a > b`. */
  function Gt(a: Float, b: Float): (r: bool)
    ensures a.Finite? && b.Finite? ==> (r <==> a.v > b.v)
    ensures a.NaN? || b.NaN? ==> !r
    ensures !a.NaN? && !b.NaN? && ((a.PosInf? && !b.PosInf?) || (b.NegInf? && !a.NegInf?)) ==> r
    ensures a.NegInf? || b.PosInf? ==> !r
  {
    Lt(b, a)
  }

  /** Python's `a - b` with the IEEE rules for infinities and NaN. */
  function Sub(a: Float, b: Float): (r: Float)
    ensures a.Finite? && b.Finite? ==> r == Finite(a.v - b.v)
    ensures a.NaN? || b.NaN? ==> r.NaN?
    ensures b.Finite? ==> (r.PosInf? <==> a.PosInf?) && (r.NegInf? <==> a.NegInf?)
  {
    if a.NaN? || b.NaN? then NaN
    else if a.Finite? && b.Finite? then Finite(a.v - b.v)
    else if a.Finite? then (if b.PosInf? then NegInf else PosInf)
    else if a == b then NaN
    else a
  }

  /** `q` is an integer. */
  predicate IsWhole(q: real) {
    q.Floor as real == q
  }

  /** `a` and `b` denote the same direction: they differ by a whole number of turns. */
  predicate SameAngle(a: real, b: real) {
    IsWhole((a - b) / 360.0)
  }

  /**
   * Python's `x % 360` on a finite float: the sign follows the divisor, so
   * the result lies in [0, 360) and differs from `x` by whole turns.
   */
  function Mod360(x: real): (r: real)
    ensures 0.0 <= r < 360.0
    ensures SameAngle(x, r)
    ensures 0.0 <= x < 360.0 ==> r == x
  {
    var k := (x / 360.0).Floor;
    assert (x - (x - 360.0 * k as real)) / 360.0 == k as real;
    x - 360.0 * k as real
  }

  /** Two values on the same angle differ by a whole number of turns. */
  lemma TurnsBetween(a: real, b: real)
    requires SameAngle(a, b)
    ensures a - b == 360.0 * ((a - b) / 360.0).Floor as real
  {
  }

  /** A whole number of turns apart is the same angle. */
  lemma WholeTurns(a: real, b: real, n: int)
    requires a - b == 360.0 * n as real
    ensures SameAngle(a, b)
  {
    assert (a - b) / 360.0 == n as real;
  }

  /** The result of `x % 360` is the only value in [0, 360) on the same angle as `x`. */
  lemma Mod360Unique(x: real, r: real)
    requires 0.0 <= r < 360.0
    requires SameAngle(x, r)
    ensures r == Mod360(x)
  {
    var m := Mod360(x);
    TurnsBetween(x, r);
    TurnsBetween(x, m);
    var a := ((x - r) / 360.0).Floor;
    var b := ((x - m) / 360.0).Floor;
    assert r - m == 360.0 * (b - a) as real;
  }

  /** Adding a whole turn does not change the angle. */
  lemma SameAngleTurn(a: real, b: real)
    requires SameAngle(a, b)
    ensures SameAngle(a + 360.0, b) && SameAngle(b, a)
  {
    var k := ((a - b) / 360.0).Floor;
    TurnsBetween(a, b);
    WholeTurns(a + 360.0, b, k + 1);
    WholeTurns(b, a, -k);
  }

  /** Being the same angle carries over from `a` to anything on the same angle as `a`. */
  lemma AngleTransfer(a: real, b: real, c: real)
    requires SameAngle(b, a) && SameAngle(b, c)
    ensures SameAngle(a, c)
  {
    TurnsBetween(b, a);
    TurnsBetween(b, c);
    WholeTurns(a, c, ((b - c) / 360.0).Floor - ((b - a) / 360.0).Floor);
  }
}
