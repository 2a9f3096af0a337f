/**
 * The fixed configuration of the EMG simulator: the time grid, the force
 * ramp applied to the muscle, the catalog of three motor units, and the
 * properties assumed of the logistic function that shapes recruitment.
 */
module Catalog {

  /** Simulated duration in seconds. */
  const Duration: nat := 10

  /** Samples per second. */
  const SamplingRate: nat := 2000

  /** Number of samples on the grid (duration times sampling rate). */
  const SampleCount: nat := Duration * SamplingRate

  /** Time, in seconds, of sample `i` on the uniform grid starting at 0. */
  function Time(i: nat): real
  {
    i as real / SamplingRate as real
  }

  /** A motor unit: its identifier, its recruitment range and its maximum firing rate (Hz). */
  datatype MotorUnit = MotorUnit(id: nat, minForce: real, maxForce: real, maxRate: real)

  /** The three motor units, in identifier order. */
  function Units(): (units: seq<MotorUnit>)
    ensures |units| == 3
    ensures forall k :: 0 <= k < |units| ==> units[k].id == k + 1
    ensures forall k :: 0 <= k < |units| ==> 0.0 <= units[k].minForce < units[k].maxForce
    ensures forall k :: 0 <= k < |units| ==> 0.0 < units[k].maxRate
    ensures units[0].minForce == 0.0 && units[|units| - 1].maxForce == 60.0
    ensures forall k :: 0 < k < |units| ==> units[k].minForce == units[k - 1].maxForce
    ensures forall k :: 0 < k < |units| ==> units[k - 1].maxRate < units[k].maxRate
  {
    [ MotorUnit(1, 0.0, 20.0, 3.0),
      MotorUnit(2, 20.0, 40.0, 6.0),
      MotorUnit(3, 40.0, 60.0, 8.0) ]
  }

  /**
   * The force ramp for a target force: it rises by target/10 newtons per
   * second along the time grid, starting at 0.
   */
  function ForceProfile(target: real, n: nat): (force: seq<real>)
    ensures |force| == n
    ensures n > 0 ==> force[0] == 0.0
  {
    seq(n, i requires 0 <= i < n => target / Duration as real * Time(i))
  }

  ghost predicate NonDecreasing(s: seq<real>)
  {
    forall i, j :: 0 <= i <= j < |s| ==> s[i] <= s[j]
  }

  /** A non-negative target gives a rising ramp, the shape recruitment relies on. */
  lemma RampRises(target: real, n: nat)
    requires 0.0 <= target
    ensures NonDecreasing(ForceProfile(target, n))
  {
    var force := ForceProfile(target, n);
    var slope := target / Duration as real;
    assert 0.0 <= slope;
    forall i, j | 0 <= i <= j < n ensures force[i] <= force[j] {
      assert Time(i) <= Time(j);
      MulMonotone(slope, Time(i), Time(j));
    }
  }

  /** A non-positive target never pushes the force above 0. */
  lemma RampNeverPositive(target: real, n: nat)
    requires target <= 0.0
    ensures forall i :: 0 <= i < n ==> ForceProfile(target, n)[i] <= 0.0
  {
    var force := ForceProfile(target, n);
    var slope := target / Duration as real;
    forall i | 0 <= i < n ensures force[i] <= 0.0 {
      assert 0.0 <= Time(i);
      MulMonotone(-slope, 0.0, Time(i));
    }
  }

  lemma MulMonotone(c: real, x: real, y: real)
    requires 0.0 <= c && x <= y
    ensures c * x <= c * y
  {
    assert c * y - c * x == c * (y - x);
  }

  /** Holds of a function that maps every positive input into the open interval (1/2, 1), as the logistic function does. */
  ghost predicate UpperHalfOnPositives(sigmoid: real -> real)
  {
    forall x :: 0.0 < x ==> 0.5 < sigmoid(x) < 1.0
  }

  /** Holds of a non-decreasing function. */
  ghost predicate Monotone(sigmoid: real -> real)
  {
    forall x, y :: x <= y ==> sigmoid(x) <= sigmoid(y)
  }

  /** Both assumptions on the logistic function can be met at once. */
  lemma SigmoidAssumptionsSatisfiable()
    ensures exists sigmoid: real -> real :: UpperHalfOnPositives(sigmoid) && Monotone(sigmoid)
  {
    var s := (x: real) => if x <= 0.0 then 0.5 else 1.0 - 0.5 / (1.0 + x);
    forall x | 0.0 < x ensures 0.5 < s(x) < 1.0 {
      assert 0.0 < 0.5 / (1.0 + x) < 0.5;
    }
    forall x, y | x <= y ensures s(x) <= s(y) {
      if 0.0 < x {
        assert 0.5 / (1.0 + y) <= 0.5 / (1.0 + x) by {
          assert 0.5 * (1.0 + x) <= 0.5 * (1.0 + y);
        }
      } else if 0.0 < y {
        assert 0.5 / (1.0 + y) < 0.5;
      }
    }
    assert UpperHalfOnPositives(s) && Monotone(s);
  }
}
