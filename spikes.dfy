/**
 * Spike generation: each sample of each unit's spike train is one draw
 * from a seeded Poisson sampler whose mean is the firing rate at that
 * sample converted from spikes per second to spikes per sample.
 */
module Spikes {
  import opened Catalog

  /**
   * A seeded sampler: given a unit's catalog position, a sample index and
   * the expected spike count of that sample, it returns a spike count.
   */
  type Sampler = (nat, nat, real) -> nat

  /** Holds of a sampler that, like a Poisson draw of mean 0, never returns a spike for mean 0. */
  ghost predicate ZeroMeanGivesZero(draw: Sampler)
  {
    forall k, i :: draw(k, i, 0.0) == 0
  }

  /** Expected spikes in one sample interval at a rate given in Hz. */
  function PerSampleMean(rate: real): real
  {
    rate / SamplingRate as real
  }

  /** Trains with the rates' shapes, every count drawn at its own sample's mean. */
  ghost predicate IsDrawnFrom(rates: seq<seq<real>>, draw: Sampler, trains: seq<seq<nat>>)
  {
    |trains| == |rates| &&
    (forall k :: 0 <= k < |rates| ==> |trains[k]| == |rates[k]|) &&
    (forall k, i :: 0 <= k < |rates| && 0 <= i < |rates[k]| ==> trains[k][i] == draw(k, i, PerSampleMean(rates[k][i])))
  }

  /** One spike train per unit, filled sample by sample into a zero-initialised array. */
  method GenerateSpikeTrains(rates: seq<seq<real>>, draw: Sampler) returns (trains: seq<seq<nat>>)
    ensures IsDrawnFrom(rates, draw, trains)
  {
    trains := [];
    for k := 0 to |rates|
      invariant |trains| == k
      invariant forall m :: 0 <= m < k ==> |trains[m]| == |rates[m]|
      invariant forall m, i :: 0 <= m < k && 0 <= i < |rates[m]| ==> trains[m][i] == draw(m, i, PerSampleMean(rates[m][i]))
    {
      var a := new nat[|rates[k]|](_ => 0);
      for i := 0 to |rates[k]|
        invariant forall j :: 0 <= j < i ==> a[j] == draw(k, j, PerSampleMean(rates[k][j]))
      {
        a[i] := draw(k, i, PerSampleMean(rates[k][i]));
      }
      trains := trains + [a[..]];
    }
  }

  /** Units that never fire at a non-zero rate get all-zero spike trains. */
  lemma SilentRatesGiveNoSpikes(rates: seq<seq<real>>, draw: Sampler, trains: seq<seq<nat>>)
    requires ZeroMeanGivesZero(draw)
    requires forall k, i :: 0 <= k < |rates| && 0 <= i < |rates[k]| ==> rates[k][i] == 0.0
    requires IsDrawnFrom(rates, draw, trains)
    ensures forall k, i :: 0 <= k < |trains| && 0 <= i < |trains[k]| ==> trains[k][i] == 0
  {
    forall k, i | 0 <= k < |trains| && 0 <= i < |trains[k]| ensures trains[k][i] == 0 {
      assert PerSampleMean(rates[k][i]) == 0.0;
    }
  }
}
