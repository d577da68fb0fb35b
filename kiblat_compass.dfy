/** The Qibla compass: the bearing normalisation, the smoothed device heading
    and the needle angle composed from the two. Angles are in degrees and are
    modelled exactly over `real`; the great-circle trigonometry that yields the
    raw bearing is an input (`rawBearing`), not part of the model. */
module KiblatCompass {
  import opened Wrappers
  import opened JsMath

  /** The observer's position, as delivered by the geolocation provider. */
  datatype Coordinates = Coordinates(latitude: real, longitude: real)

  /** `(q + 360) % 360`: the same direction as `q` (they differ by whole
      turns), less than a turn in size, and in [0, 360) for any `q` from −360
      on, so for every bearing `atan2` can give. */
  function Normalize(q: real): (r: real)
    ensures -360.0 < r < 360.0
    ensures q >= -360.0 ==> r >= 0.0
    ensures WholeTurns(q - r)
  {
    var x := q + 360.0;
    var y := x / 360.0;
    var t := Trunc(y);
    var f := y - t as real;
    assert -1.0 < f < 1.0;
    assert y >= 0.0 ==> f >= 0.0;
    var r := Remainder(x, 360.0);
    assert r == 360.0 * f;
    assert q - r == 360.0 * (t - 1) as real;
    assert (q - r) / 360.0 == (t - 1) as real;
    r
  }

  /** `d` degrees is a whole number of turns. */
  predicate WholeTurns(d: real) {
    (d / 360.0).Floor as real == d / 360.0
  }

  lemma NormalizeRange(q: real)
    requires -180.0 <= q <= 180.0
    ensures 0.0 <= Normalize(q) < 360.0
    ensures Normalize(q) == if q >= 0.0 then q else q + 360.0
  {
    var x := q + 360.0;
    if q >= 0.0 {
      assert 1.0 <= x / 360.0 < 2.0;
      assert Trunc(x / 360.0) == 1;
    } else {
      assert 0.0 <= x / 360.0 < 1.0;
      assert Trunc(x / 360.0) == 0;
    }
  }

  /** One `deviceorientation` event applied to the stored heading: an event
      without an `alpha` reading changes nothing; otherwise a missing heading, or
      one that is exactly 0 (which the truthiness test takes for missing), is
      replaced by the raw reading, and any other heading moves a fifth of the
      way toward the reading. No wrap-around at 0/360 is applied. */
  function NextHeading(prev: Option<real>, alpha: Option<real>): (r: Option<real>)
    ensures alpha.None? ==> r == prev
    ensures alpha.Some? ==> r.Some?
    ensures alpha.Some? && prev.Some? ==> Between(r.value, prev.value, alpha.value)
  {
    match alpha
    case None => prev
    case Some(a) =>
      if prev.Some? && prev.value != 0.0 then Some(prev.value * 0.8 + a * 0.2)
      else Some(a)
  }

  /** `x` lies between `a` and `b`, whichever is larger. */
  predicate Between(x: real, a: real, b: real) {
    (a <= x <= b) || (b <= x <= a)
  }

  /** The heading after a sequence of events, oldest first. It is still
      unknown exactly when it was unknown at the start and no event carried a
      reading. */
  function Track(start: Option<real>, samples: seq<Option<real>>): (r: Option<real>)
    ensures r.None? <==> start.None? && forall i :: 0 <= i < |samples| ==> samples[i].None?
    decreases |samples|
  {
    if samples == [] then start
    else
      var r := Track(NextHeading(start, samples[0]), samples[1..]);
      assert forall i :: 1 <= i < |samples| ==> samples[i] == samples[1..][i - 1];
      r
  }

  lemma NullSampleKeepsHeading(prev: Option<real>)
    ensures NextHeading(prev, None) == prev
  {
  }

  lemma FirstSampleInitializes(a: real)
    ensures NextHeading(None, Some(a)) == Some(a)
  {
  }

  lemma SmoothingStep(h: real, a: real)
    requires h != 0.0
    ensures NextHeading(Some(h), Some(a)) == Some(0.8 * h + 0.2 * a)
  {
  }

  /** A stored heading of exactly 0 behaves like no heading at all. */
  lemma ZeroHeadingIsAbsent(a: Option<real>)
    requires a.Some?
    ensures NextHeading(Some(0.0), a) == NextHeading(None, a) == a
  {
  }

  predicate InCircle(x: real) {
    0.0 <= x <= 360.0
  }

  /** A reading and a heading within [0, 360] give a heading within [0, 360]. */
  lemma NextHeadingInRange(prev: Option<real>, alpha: Option<real>)
    requires prev.Some? ==> InCircle(prev.value)
    requires alpha.Some? ==> InCircle(alpha.value)
    ensures NextHeading(prev, alpha).Some? ==> InCircle(NextHeading(prev, alpha).value)
  {
  }

  /** Over a whole stream of in-range readings the heading stays in range. */
  lemma {:induction false} TrackInRange(start: Option<real>, samples: seq<Option<real>>)
    requires start.Some? ==> InCircle(start.value)
    requires forall i :: 0 <= i < |samples| ==> samples[i].Some? ==> InCircle(samples[i].value)
    ensures Track(start, samples).Some? ==> InCircle(Track(start, samples).value)
    decreases |samples|
  {
    if samples != [] {
      NextHeadingInRange(start, samples[0]);
      TrackInRange(NextHeading(start, samples[0]), samples[1..]);
    }
  }

  /** A stream that keeps reading the same angle `c`: once the heading is `c`
      (or after the first reading, from no heading), it stays `c`. */
  lemma {:induction false} ConstantStreamIsFixed(start: Option<real>, c: real, samples: seq<Option<real>>)
    requires start == None || start == Some(c)
    requires forall i :: 0 <= i < |samples| ==> samples[i] == Some(c)
    ensures samples != [] ==> Track(start, samples) == Some(c)
    ensures samples == [] ==> Track(start, samples) == start
    decreases |samples|
  {
    if samples != [] {
      assert NextHeading(start, samples[0]) == Some(c);
      ConstantStreamIsFixed(Some(c), c, samples[1..]);
    }
  }

  /** Linear averaging ignores the circle: 350 then 10 gives 282, not a heading near 354. */
  lemma NoWrapAround()
    ensures Track(None, [Some(350.0), Some(10.0)]) == Some(282.0)
  {
  }

  /** Because a heading of 0 counts as missing, 0 then 90 gives 90, with no smoothing. */
  lemma ZeroThenNinety()
    ensures Track(None, [Some(0.0), Some(90.0)]) == Some(90.0)
  {
  }

  /** The needle angle: the Qibla bearing relative to the device heading, only
      when both are known. */
  function NeedleRotation(heading: Option<real>, qibla: Option<real>): (r: Option<real>)
    ensures r.Some? <==> heading.Some? && qibla.Some?
    ensures r.Some? ==> heading.value + r.value == qibla.value
  {
    if heading.Some? && qibla.Some? then Some(qibla.value - heading.value) else None
  }

  /** The state of one compass view: the smoothed heading and the Qibla bearing. */
  class Compass {
    var heading: Option<real>
    var qibla: Option<real>

    /** Both start out unknown. */
    constructor ()
      ensures heading == None && qibla == None
    {
      heading := None;
      qibla := None;
    }

    /** The bearing effect: nothing happens while the location is unknown;
        otherwise the raw great-circle bearing `rawBearing(location)`, an
        `atan2` result in degrees, is normalised and stored. */
    method UpdateQibla(location: Option<Coordinates>, rawBearing: Coordinates -> real)
      requires forall c :: -180.0 <= rawBearing(c) <= 180.0
      modifies this`qibla
      ensures location == None ==> qibla == old(qibla)
      ensures location.Some? ==> qibla == Some(Normalize(rawBearing(location.value)))
      ensures location.Some? ==> 0.0 <= qibla.value < 360.0
    {
      if location == None {
        return;
      }
      var q := rawBearing(location.value);
      NormalizeRange(q);
      qibla := Some(Normalize(q));
    }

    /** `handleOrientation`: one event folded into the stored heading. */
    method HandleOrientation(alpha: Option<real>)
      modifies this`heading
      ensures heading == NextHeading(old(heading), alpha)
    {
      if alpha.Some? {
        heading := if heading.Some? && heading.value != 0.0
                   then Some(heading.value * 0.8 + alpha.value * 0.2)
                   else Some(alpha.value);
      }
    }

    /** The rotation the needle effect applies, if any. */
    function Needle(): (r: Option<real>)
      reads this
      ensures r.Some? <==> heading.Some? && qibla.Some?
    {
      NeedleRotation(heading, qibla)
    }
  }
}
