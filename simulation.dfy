/**
 * The simulation pipeline from force ramp to EMG signal, and what it
 * guarantees for a zero target force and for the default target of 55 N.
 */
module Simulation {
  import opened Catalog
  import opened Recruitment
  import opened Spikes
  import opened Compositor

  /**
   * With no force applied, every unit stays silent, draws no spikes and
   * adds nothing, so the EMG signal is flat.
   */
  lemma ZeroForceGivesFlatEmg(target: real, n: nat, sigmoid: real -> real, draw: Sampler, templates: seq<seq<real>>,
                              rates: seq<seq<real>>, trains: seq<seq<nat>>, muaps: seq<seq<real>>, emg: seq<real>)
    requires target <= 0.0
    requires ZeroMeanGivesZero(draw)
    requires |rates| == |Units()|
    requires forall k :: 0 <= k < |Units()| ==> Latched(Units()[k], sigmoid, ForceProfile(target, n), rates[k])
    requires IsDrawnFrom(rates, draw, trains)
    requires |muaps| == |trains| <= |templates|
    requires forall u :: 0 <= u < |trains| ==> IsContribution(trains[u], templates[u], muaps[u])
    requires forall u :: 0 <= u < |muaps| ==> |muaps[u]| == n
    requires IsComposite(muaps, n, emg)
    ensures forall k, i :: 0 <= k < |rates| && 0 <= i < |rates[k]| ==> rates[k][i] == 0.0
    ensures forall k, i :: 0 <= k < |trains| && 0 <= i < |trains[k]| ==> trains[k][i] == 0
    ensures forall j :: 0 <= j < n ==> emg[j] == 0.0
  {
    var force := ForceProfile(target, n);
    RampNeverPositive(target, n);
    forall k | 0 <= k < |Units()| ensures forall i :: 0 <= i < |rates[k]| ==> rates[k][i] == 0.0 {
      SilentBelowRange(Units()[k], sigmoid, force, rates[k]);
    }
    SilentRatesGiveNoSpikes(rates, draw, trains);
    forall u | 0 <= u < |muaps| ensures forall j :: 0 <= j < n ==> muaps[u][j] == 0.0 {
      SilentTrainIsFlat(trains[u], templates[u], muaps[u]);
    }
    SilentUnitsGiveFlatEmg(muaps, n, emg);
  }

  /**
   * Recruitment, spike generation and composition in sequence, for a
   * target force and a grid of n samples.
   */
  method RunSimulation(target: real, n: nat, sigmoid: real -> real, draw: Sampler, templates: seq<seq<real>>)
    returns (force: seq<real>, rates: seq<seq<real>>, trains: seq<seq<nat>>, emg: seq<real>, muaps: seq<seq<real>>)
    requires |Units()| <= |templates|
    ensures force == ForceProfile(target, n)
    ensures |rates| == |Units()|
    ensures forall k :: 0 <= k < |Units()| ==> Latched(Units()[k], sigmoid, force, rates[k])
    ensures IsDrawnFrom(rates, draw, trains)
    ensures |muaps| == |trains|
    ensures forall u :: 0 <= u < |trains| ==> IsContribution(trains[u], templates[u], muaps[u])
    ensures forall u :: 0 <= u < |muaps| ==> |muaps[u]| == n
    ensures IsComposite(muaps, n, emg)
    ensures target <= 0.0 && ZeroMeanGivesZero(draw) ==> forall j :: 0 <= j < n ==> emg[j] == 0.0
  {
    force := ForceProfile(target, n);
    rates := CalculateFiringRates(sigmoid, force);
    trains := GenerateSpikeTrains(rates, draw);
    emg, muaps := GenerateEmg(trains, templates, n);
    if target <= 0.0 && ZeroMeanGivesZero(draw) {
      ZeroForceGivesFlatEmg(target, n, sigmoid, draw, templates, rates, trains, muaps, emg);
    }
  }

  /** The default target force, in newtons. */
  const DefaultTarget: real := 55.0

  /** Sample i of the default ramp is 5.5 N/s times i/2000 s. */
  lemma DefaultRampValues()
    ensures forall i :: 0 <= i < SampleCount ==> ForceProfile(DefaultTarget, SampleCount)[i] == 11.0 * i as real / 4000.0
  {
  }

  /**
   * The default ramp first exceeds 20 N at sample 7273 and 40 N at sample
   * 14546, and never exceeds 60 N.
   */
  lemma DefaultRampCrossings()
    ensures FirstExceedance(ForceProfile(DefaultTarget, SampleCount), 20.0) == 7273
    ensures FirstExceedance(ForceProfile(DefaultTarget, SampleCount), 40.0) == 14546
    ensures FirstExceedance(ForceProfile(DefaultTarget, SampleCount), 60.0) == SampleCount
  {
    var force := ForceProfile(DefaultTarget, SampleCount);
    DefaultRampValues();
    ExceedanceAt(force, 20.0, 7273);
    ExceedanceAt(force, 40.0, 14546);
    ExceedanceAt(force, 60.0, SampleCount);
  }

  /**
   * Under the default 55 N ramp over 20000 samples, the first unit latches
   * at 3 Hz from sample 7273 (about 3.64 s, when the force passes 20 N)
   * and the second at 6 Hz from sample 14546; the third never reaches
   * 60 N and stays strictly below 8 Hz throughout.
   */
  lemma DefaultRampSaturation(sigmoid: real -> real, rates: seq<seq<real>>)
    requires UpperHalfOnPositives(sigmoid)
    requires |rates| == |Units()|
    requires Latched(Units()[0], sigmoid, ForceProfile(DefaultTarget, SampleCount), rates[0])
    requires Latched(Units()[1], sigmoid, ForceProfile(DefaultTarget, SampleCount), rates[1])
    requires Latched(Units()[2], sigmoid, ForceProfile(DefaultTarget, SampleCount), rates[2])
    ensures forall i :: 7273 <= i < SampleCount ==> rates[0][i] == 3.0
    ensures rates[0][7272] < 3.0
    ensures forall i :: 14546 <= i < SampleCount ==> rates[1][i] == 6.0
    ensures rates[1][14545] < 6.0
    ensures forall i :: 0 <= i < SampleCount ==> rates[2][i] < 8.0
  {
    var force := ForceProfile(DefaultTarget, SampleCount);
    DefaultRampValues();
    DefaultRampCrossings();
    assert 0.0 < force[7272] <= 20.0 < force[14545] <= 40.0;
    SampleRateBounds(Units()[0], sigmoid, force[7272]);
    SampleRateBounds(Units()[1], sigmoid, force[14545]);
    forall i | 0 <= i < SampleCount ensures rates[2][i] < 8.0 {
      SampleRateBounds(Units()[2], sigmoid, force[i]);
    }
  }
}
