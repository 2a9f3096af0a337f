/**
 * Recruitment: turning the force profile into a firing-rate profile per
 * motor unit. Below a unit's range the unit is silent, inside it the rate
 * follows a rescaled logistic curve, and the first sample above the range
 * latches the unit at its maximum rate for the rest of the run.
 */
module Recruitment {
  import opened Catalog

  /** Steepness of the logistic curve across a unit's recruitment range. */
  const Steepness: real := 10.0

  /**
   * The rate of one sample judged on its own force: 0 at or below the
   * range, the rescaled logistic value inside it, the maximum above it.
   */
  function SampleRate(u: MotorUnit, sigmoid: real -> real, f: real): real
  {
    if f <= u.minForce then 0.0
    else if f > u.maxForce then u.maxRate
    else RecruitingRate(u, sigmoid, f)
  }

  /**
   * The rate for a force strictly inside the recruitment range: the
   * position within the range, scaled by the steepness, through the
   * logistic function, rescaled from (1/2, 1) to (0, maxRate).
   */
  function RecruitingRate(u: MotorUnit, sigmoid: real -> real, f: real): real
    requires u.minForce < f <= u.maxForce
  {
    u.maxRate * (2.0 * sigmoid(Steepness * (f - u.minForce) / (u.maxForce - u.minForce)) - 1.0)
  }

  /** The first index whose force exceeds `limit`, or |force| when none does. */
  function FirstExceedance(force: seq<real>, limit: real): (k: nat)
    ensures k <= |force|
    ensures forall j :: 0 <= j < k ==> force[j] <= limit
    ensures k < |force| ==> force[k] > limit
  {
    if |force| == 0 || force[0] > limit then 0
    else 1 + FirstExceedance(force[1..], limit)
  }

  /**
   * What the recruitment loop leaves for one unit: one rate per force
   * sample; the per-sample rule up to the first exceedance of the unit's
   * upper threshold, and the maximum rate from there to the end, whatever
   * the later forces are.
   */
  ghost predicate Latched(u: MotorUnit, sigmoid: real -> real, force: seq<real>, rates: seq<real>)
  {
    var k := FirstExceedance(force, u.maxForce);
    |rates| == |force| &&
    (forall i :: 0 <= i < k ==> rates[i] == SampleRate(u, sigmoid, force[i])) &&
    (forall i :: k <= i < |rates| ==> rates[i] == u.maxRate)
  }

  /** The recruitment loop for one unit, on a zero-initialised array with the saturating slice fill and early exit. */
  method UnitFiringRates(u: MotorUnit, sigmoid: real -> real, force: seq<real>) returns (rates: seq<real>)
    requires u.minForce <= u.maxForce
    ensures Latched(u, sigmoid, force, rates)
  {
    var a := new real[|force|](_ => 0.0);
    var i := 0;
    while i < |force|
      invariant 0 <= i <= |force| == a.Length
      invariant forall j :: 0 <= j < i ==> force[j] <= u.maxForce
      invariant forall j :: 0 <= j < i ==> a[j] == SampleRate(u, sigmoid, force[j])
    {
      var f := force[i];
      if f <= u.minForce {
        a[i] := 0.0;
      } else if f > u.maxForce {
        forall j | i <= j < a.Length {
          a[j] := u.maxRate;
        }
        ExceedanceAt(force, u.maxForce, i);
        break;
      } else {
        a[i] := RecruitingRate(u, sigmoid, f);
      }
      i := i + 1;
    }
    if i == |force| {
      ExceedanceAt(force, u.maxForce, i);
    }
    rates := a[..];
  }

  /** Recruitment for every unit of the catalog, in catalog order. */
  method CalculateFiringRates(sigmoid: real -> real, force: seq<real>) returns (rates: seq<seq<real>>)
    ensures |rates| == |Units()|
    ensures forall k :: 0 <= k < |Units()| ==> Latched(Units()[k], sigmoid, force, rates[k])
  {
    rates := [];
    for k := 0 to |Units()|
      invariant |rates| == k
      invariant forall m :: 0 <= m < k ==> Latched(Units()[m], sigmoid, force, rates[m])
    {
      var r := UnitFiringRates(Units()[k], sigmoid, force);
      rates := rates + [r];
    }
  }

  /** The first exceedance is pinned down by its two defining properties. */
  lemma ExceedanceAt(force: seq<real>, limit: real, k: nat)
    requires k <= |force|
    requires forall j :: 0 <= j < k ==> force[j] <= limit
    requires k < |force| ==> force[k] > limit
    ensures FirstExceedance(force, limit) == k
  {
  }

  /** The logistic value of a positive input, rescaled to (0, 1), scales a maximum rate to a value between 0 and that maximum. */
  lemma ScaledBounds(m: real, sv: real, r: real)
    requires 0.0 <= m && 0.5 < sv < 1.0
    requires r == m * (2.0 * sv - 1.0)
    ensures 0.0 <= r <= m
    ensures 0.0 < m ==> 0.0 < r < m
  {
    var s := 2.0 * sv - 1.0;
    assert m - r == m * (1.0 - s);
    if 0.0 < m {
      assert 0.0 < m * (1.0 - s) && 0.0 < m * s;
    }
  }

  /**
   * Every sample rate lies in [0, maxRate]; inside the recruitment range
   * it lies strictly between 0 and maxRate.
   */
  lemma SampleRateBounds(u: MotorUnit, sigmoid: real -> real, f: real)
    requires UpperHalfOnPositives(sigmoid)
    requires 0.0 <= u.maxRate
    ensures 0.0 <= SampleRate(u, sigmoid, f) <= u.maxRate
    ensures u.minForce < f <= u.maxForce && 0.0 < u.maxRate ==> 0.0 < SampleRate(u, sigmoid, f) < u.maxRate
  {
    if u.minForce < f <= u.maxForce {
      var x := Steepness * (f - u.minForce) / (u.maxForce - u.minForce);
      PositiveQuotient(Steepness * (f - u.minForce), u.maxForce - u.minForce);
      ScaledBounds(u.maxRate, sigmoid(x), SampleRate(u, sigmoid, f));
    }
  }

  lemma PositiveQuotient(a: real, d: real)
    requires 0.0 < a && 0.0 < d
    ensures 0.0 < a / d
  {
  }

  lemma DivMonotone(x: real, y: real, d: real)
    requires x <= y && 0.0 < d
    ensures x / d <= y / d
  {
    assert y / d - x / d == (y - x) / d;
  }

  lemma ScaledMonotone(m: real, sx: real, sy: real, rx: real, ry: real)
    requires 0.0 <= m && sx <= sy
    requires rx == m * (2.0 * sx - 1.0) && ry == m * (2.0 * sy - 1.0)
    ensures rx <= ry
  {
    assert ry - rx == 2.0 * m * (sy - sx);
    assert 0.0 <= m * (sy - sx);
  }

  /** With a monotone logistic function, more force never gives a lower sample rate. */
  lemma SampleRateMonotone(u: MotorUnit, sigmoid: real -> real, f: real, g: real)
    requires UpperHalfOnPositives(sigmoid) && Monotone(sigmoid)
    requires 0.0 <= u.maxRate
    requires f <= g
    ensures SampleRate(u, sigmoid, f) <= SampleRate(u, sigmoid, g)
  {
    SampleRateBounds(u, sigmoid, f);
    SampleRateBounds(u, sigmoid, g);
    if u.minForce < f && g <= u.maxForce {
      var d := u.maxForce - u.minForce;
      DivMonotone(Steepness * (f - u.minForce), Steepness * (g - u.minForce), d);
      var x := Steepness * (f - u.minForce) / d;
      var y := Steepness * (g - u.minForce) / d;
      ScaledMonotone(u.maxRate, sigmoid(x), sigmoid(y), SampleRate(u, sigmoid, f), SampleRate(u, sigmoid, g));
    }
  }

  /** Every rate the recruitment loop produces lies in [0, maxRate]. */
  lemma LatchedRatesBounded(u: MotorUnit, sigmoid: real -> real, force: seq<real>, rates: seq<real>)
    requires UpperHalfOnPositives(sigmoid)
    requires 0.0 <= u.maxRate
    requires Latched(u, sigmoid, force, rates)
    ensures forall i :: 0 <= i < |rates| ==> 0.0 <= rates[i] <= u.maxRate
  {
    var k := FirstExceedance(force, u.maxForce);
    forall i | 0 <= i < |rates| ensures 0.0 <= rates[i] <= u.maxRate {
      if i < k {
        SampleRateBounds(u, sigmoid, force[i]);
      }
    }
  }

  /**
   * On a non-decreasing force profile the latch changes nothing: every
   * rate equals the per-sample rule applied to its own force.
   */
  lemma LatchAgreesWithSampleRule(u: MotorUnit, sigmoid: real -> real, force: seq<real>, rates: seq<real>)
    requires u.minForce <= u.maxForce
    requires NonDecreasing(force)
    requires Latched(u, sigmoid, force, rates)
    ensures forall i :: 0 <= i < |rates| ==> rates[i] == SampleRate(u, sigmoid, force[i])
  {
    var k := FirstExceedance(force, u.maxForce);
    forall i | k <= i < |rates| ensures rates[i] == SampleRate(u, sigmoid, force[i]) {
      assert force[k] <= force[i];
    }
  }

  /**
   * On a non-decreasing force profile with a monotone logistic function,
   * each unit's firing rate never falls.
   */
  lemma LatchedRatesRise(u: MotorUnit, sigmoid: real -> real, force: seq<real>, rates: seq<real>)
    requires UpperHalfOnPositives(sigmoid) && Monotone(sigmoid)
    requires 0.0 <= u.maxRate && u.minForce <= u.maxForce
    requires NonDecreasing(force)
    requires Latched(u, sigmoid, force, rates)
    ensures NonDecreasing(rates)
  {
    LatchAgreesWithSampleRule(u, sigmoid, force, rates);
    forall i, j | 0 <= i <= j < |rates| ensures rates[i] <= rates[j] {
      SampleRateMonotone(u, sigmoid, force[i], force[j]);
    }
  }

  /** A unit whose lower threshold is never passed stays silent throughout. */
  lemma SilentBelowRange(u: MotorUnit, sigmoid: real -> real, force: seq<real>, rates: seq<real>)
    requires u.minForce < u.maxForce
    requires forall i :: 0 <= i < |force| ==> force[i] <= u.minForce
    requires Latched(u, sigmoid, force, rates)
    ensures forall i :: 0 <= i < |rates| ==> rates[i] == 0.0
  {
    ExceedanceAt(force, u.maxForce, |force|);
  }

  /**
   * The latch holds whatever the later forces are: after force 30 has
   * saturated the first unit, a fall back to 10 keeps it at 3 Hz although
   * the per-sample rule would give less.
   */
  lemma LatchIgnoresFallingForce(sigmoid: real -> real, rates: seq<real>)
    requires UpperHalfOnPositives(sigmoid)
    requires Latched(Units()[0], sigmoid, [30.0, 10.0], rates)
    ensures rates == [3.0, 3.0]
    ensures SampleRate(Units()[0], sigmoid, 10.0) < rates[1]
  {
    var u := Units()[0];
    ExceedanceAt([30.0, 10.0], u.maxForce, 0);
    SampleRateBounds(u, sigmoid, 10.0);
  }
}
