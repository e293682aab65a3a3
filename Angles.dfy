/** Decimal degrees to degrees, arc-minutes and arc-seconds (the helper the
    dashboard uses to print azimuth and elevation).  Arithmetic is exact over
    `real`; the string formatting of the original is not modelled, the three
    numeric fields are returned instead. */
module Angles {

  function Abs(x: real): (r: real)
    ensures r >= 0.0 && (r == x || r == -x)
  {
    if x < 0.0 then -x else x
  }

  /** Python's `int(x)` on a float: truncation toward zero. */
  function Trunc(x: real): (n: int)
    ensures Abs(n as real) <= Abs(x) < Abs(n as real) + 1.0
    ensures x >= 0.0 ==> n >= 0
    ensures x <= 0.0 ==> n <= 0
  {
    if x >= 0.0 then x.Floor else -((-x).Floor)
  }

  /** The three numeric parts of the displayed angle.  Only `deg` carries a sign. */
  datatype Dms = Dms(deg: int, min: int, sec: real)

  /** The fraction of a degree that the minutes and seconds fields stand for. */
  function Fraction(d: Dms): real
  {
    d.min as real / 60.0 + d.sec / 3600.0
  }

  /** What a well-formed decomposition of `x` looks like: the degrees are `x`
      truncated toward zero, minutes and seconds are in range, and together
      the parts add up to the magnitude of `x`. */
  ghost predicate IsDmsOf(x: real, d: Dms)
  {
    && Abs(d.deg as real) <= Abs(x) < Abs(d.deg as real) + 1.0
    && (x >= 0.0 ==> d.deg >= 0)
    && (x <= 0.0 ==> d.deg <= 0)
    && 0 <= d.min <= 59
    && 0.0 <= d.sec < 60.0
    && Abs(x) == Abs(d.deg as real) + Fraction(d)
  }

  /** graus_para_dms, as written: truncate, take the absolute remainder, split
      it into whole minutes and the seconds left over. */
  function ToDms(x: real): (d: Dms)
    ensures IsDmsOf(x, d)
  {
    var graus := Trunc(x);
    var minutosFloat := Abs(x - graus as real) * 60.0;
    var minutos := Trunc(minutosFloat);
    Dms(graus, minutos, (minutosFloat - minutos as real) * 60.0)
  }

  /** The decomposition is determined by its defining properties: any triple
      with them is the one ToDms returns. */
  lemma DmsUnique(x: real, d: Dms)
    requires IsDmsOf(x, d)
    ensures d == ToDms(x)
  {
    var e := ToDms(x);
    assert d.deg == e.deg by {
      if x >= 0.0 {
        assert d.deg as real <= x < d.deg as real + 1.0;
        assert e.deg as real <= x < e.deg as real + 1.0;
      } else {
        assert -(d.deg as real) <= -x < -(d.deg as real) + 1.0;
        assert -(e.deg as real) <= -x < -(e.deg as real) + 1.0;
      }
    }
    assert Fraction(d) == Fraction(e);
    assert d.min == e.min by {
      assert d.min as real <= Fraction(d) * 60.0 < d.min as real + 1.0;
      assert e.min as real <= Fraction(e) * 60.0 < e.min as real + 1.0;
    }
  }

  /** How a reader takes the displayed triple back to a number: the
      fractional part takes the sign of the degrees field. */
  function Reading(d: Dms): real
  {
    if d.deg < 0 then d.deg as real - Fraction(d) else d.deg as real + Fraction(d)
  }

  /** Outside (-1, 0) the displayed triple gives back exactly the input. */
  lemma ReadingExact(x: real)
    requires x <= -1.0 || x >= 0.0
    ensures Reading(ToDms(x)) == x
  {
    var d := ToDms(x);
    if x <= -1.0 {
      assert d.deg <= -1;
    }
  }

  /** Inside (-1, 0) the degrees field is 0 and the sign of the input is
      lost: the triple reads as the positive angle -x. */
  lemma SignLost(x: real)
    requires -1.0 < x < 0.0
    ensures ToDms(x).deg == 0
    ensures Reading(ToDms(x)) == -x
    ensures Reading(ToDms(x)) != x
  {
  }

  /** A concrete instance: -0.5 degrees (half a degree below the horizon)
      is shown as 0 degrees 30 minutes 0 seconds, the same as +0.5. */
  lemma SignLostExample()
    ensures ToDms(-0.5) == Dms(0, 30, 0.0)
    ensures ToDms(0.5) == ToDms(-0.5)
  {
    DmsUnique(-0.5, Dms(0, 30, 0.0));
    DmsUnique(0.5, Dms(0, 30, 0.0));
  }

  /** The default latitude of the dashboard, -23.5505, is
      -23 degrees 33 minutes 1.8 seconds; exactly, over the reals. */
  lemma DefaultLatitudeExample()
    ensures ToDms(-23.5505) == Dms(-23, 33, 1.8)
  {
    DmsUnique(-23.5505, Dms(-23, 33, 1.8));
  }

  /** The corrected decomposition: the sign is a field of its own, so it
      survives when the whole degrees are 0. */
  datatype SignedDms = SignedDms(negative: bool, deg: nat, min: nat, sec: real)

  function ToSignedDms(x: real): (d: SignedDms)
    ensures d.negative <==> x < 0.0
    ensures d.deg as real <= Abs(x) < d.deg as real + 1.0
    ensures d.min <= 59 && 0.0 <= d.sec < 60.0
  {
    var m := ToDms(Abs(x));
    SignedDms(x < 0.0, m.deg, m.min, m.sec)
  }

  function SignedReading(d: SignedDms): real
  {
    var magnitude := d.deg as real + d.min as real / 60.0 + d.sec / 3600.0;
    if d.negative then -magnitude else magnitude
  }

  /** The corrected decomposition gives back every input exactly, including
      those in (-1, 0). */
  lemma SignedRoundTrip(x: real)
    ensures SignedReading(ToSignedDms(x)) == x
  {
    var m := ToDms(Abs(x));
    assert Abs(x) == m.deg as real + Fraction(m);
  }

  /** Away from (-1, 0) the corrected decomposition shows the same numbers
      as the original one. */
  lemma SignedAgreesOutsideUnit(x: real)
    requires x <= -1.0 || x >= 0.0
    ensures var s, d := ToSignedDms(x), ToDms(x);
      (if s.negative then -(s.deg as int) else s.deg as int) == d.deg
      && s.min == d.min && s.sec == d.sec
  {
    var d := ToDms(x);
    var flipped := Dms(-d.deg, d.min, d.sec);
    if x < 0.0 {
      DmsUnique(Abs(x), flipped);
    } else {
      DmsUnique(Abs(x), d);
    }
  }
}
