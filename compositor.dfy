/**
 * The signal compositor: each motor unit's contribution is built by
 * overlap-adding its waveform template at every sample whose spike count
 * is non-zero, truncated at the end of the grid; the EMG signal is the
 * sample-wise sum of the contributions.
 */
module Compositor {

  /**
   * What a spike at sample i adds to sample j: the template value j - i
   * samples into the waveform, when sample i holds a non-zero count and
   * the template is long enough to reach j. The size of the count does
   * not matter, only whether it is zero.
   */
  function Term(spikes: seq<nat>, template: seq<real>, j: nat, i: nat): real
    requires i < |spikes|
  {
    if spikes[i] != 0 && i <= j && j - i < |template| then template[j - i] else 0.0
  }

  /** The sum of what the spikes at samples 0 .. m-1 add to sample j. */
  function Partial(spikes: seq<nat>, template: seq<real>, j: nat, m: nat): real
    requires m <= |spikes|
  {
    if m == 0 then 0.0 else Partial(spikes, template, j, m - 1) + Term(spikes, template, j, m - 1)
  }

  /** Sample j of a unit's contribution: the sum of template[j - i] over the spike samples i <= j the template reaches from. */
  function Contribution(spikes: seq<nat>, template: seq<real>, j: nat): real
  {
    Partial(spikes, template, j, |spikes|)
  }

  /** A unit's contribution over the whole grid, one value per spike-train sample. */
  ghost predicate IsContribution(spikes: seq<nat>, template: seq<real>, muap: seq<real>)
  {
    |muap| == |spikes| &&
    forall j :: 0 <= j < |muap| ==> muap[j] == Contribution(spikes, template, j)
  }

  /** Overlap-add for one unit, into a zero-initialised array, with the template cut at the end of the array. */
  method OverlapAdd(spikes: seq<nat>, template: seq<real>) returns (muap: seq<real>)
    ensures IsContribution(spikes, template, muap)
  {
    var a := new real[|spikes|](_ => 0.0);
    for i := 0 to |spikes|
      invariant forall j :: 0 <= j < a.Length ==> a[j] == Partial(spikes, template, j, i)
    {
      if spikes[i] != 0 {
        var start := i;
        var end := start + |template|;
        if end > a.Length {
          end := a.Length;
          var head := template[..end - start];
          forall j | start <= j < end {
            a[j] := a[j] + head[j - start];
          }
        } else {
          forall j | start <= j < end {
            a[j] := a[j] + template[j - start];
          }
        }
      }
    }
    muap := a[..];
  }

  /** The sum of sample j over the first m contributions. */
  function ColumnSum(muaps: seq<seq<real>>, j: nat, m: nat): real
    requires m <= |muaps|
    requires forall u :: 0 <= u < m ==> j < |muaps[u]|
  {
    if m == 0 then 0.0 else ColumnSum(muaps, j, m - 1) + muaps[m - 1][j]
  }

  /** Holds of a signal of n samples that is the sample-wise sum of the contributions. */
  ghost predicate IsComposite(muaps: seq<seq<real>>, n: nat, emg: seq<real>)
    requires forall u :: 0 <= u < |muaps| ==> |muaps[u]| == n
  {
    |emg| == n &&
    forall j :: 0 <= j < n ==> emg[j] == ColumnSum(muaps, j, |muaps|)
  }

  /** The summation into a zero-initialised signal, one contribution at a time. */
  method SumContributions(muaps: seq<seq<real>>, n: nat) returns (emg: seq<real>)
    requires forall u :: 0 <= u < |muaps| ==> |muaps[u]| == n
    ensures IsComposite(muaps, n, emg)
  {
    var a := new real[n](_ => 0.0);
    for u := 0 to |muaps|
      invariant forall j :: 0 <= j < n ==> a[j] == ColumnSum(muaps, j, u)
    {
      forall j | 0 <= j < n {
        a[j] := a[j] + muaps[u][j];
      }
    }
    emg := a[..];
  }

  /**
   * The overlap-add and summation stages: one contribution per spike train,
   * each unit using the template at its own position, and their sum.
   */
  method GenerateEmg(trains: seq<seq<nat>>, templates: seq<seq<real>>, n: nat)
    returns (emg: seq<real>, muaps: seq<seq<real>>)
    requires |trains| <= |templates|
    requires forall u :: 0 <= u < |trains| ==> |trains[u]| == n
    ensures |muaps| == |trains|
    ensures forall u :: 0 <= u < |trains| ==> IsContribution(trains[u], templates[u], muaps[u])
    ensures forall u :: 0 <= u < |muaps| ==> |muaps[u]| == n
    ensures IsComposite(muaps, n, emg)
  {
    muaps := [];
    for u := 0 to |trains|
      invariant |muaps| == u
      invariant forall v :: 0 <= v < u ==> IsContribution(trains[v], templates[v], muaps[v])
    {
      var muap := OverlapAdd(trains[u], templates[u]);
      muaps := muaps + [muap];
    }
    emg := SumContributions(muaps, n);
  }

  /** A sample receives nothing from spikes that come after it or are absent. */
  lemma {:induction false} PartialOfNoSpikes(spikes: seq<nat>, template: seq<real>, j: nat, m: nat)
    requires m <= |spikes|
    requires forall i :: 0 <= i < m && i <= j ==> spikes[i] == 0
    ensures Partial(spikes, template, j, m) == 0.0
  {
    if m > 0 {
      PartialOfNoSpikes(spikes, template, j, m - 1);
    }
  }

  /** Two spike trains with non-zero counts at the same samples up to j give sample j the same value. */
  lemma {:induction false} PartialDependsOnPresence(s: seq<nat>, t: seq<nat>, template: seq<real>, j: nat, m: nat)
    requires m <= |s| && m <= |t|
    requires forall i :: 0 <= i < m && i <= j ==> (s[i] == 0 <==> t[i] == 0)
    ensures Partial(s, template, j, m) == Partial(t, template, j, m)
  {
    if m > 0 {
      PartialDependsOnPresence(s, t, template, j, m - 1);
    }
  }

  /** Spikes after sample j add nothing to it. */
  lemma {:induction false} PartialStopsAtSample(spikes: seq<nat>, template: seq<real>, j: nat, m: nat)
    requires j < m <= |spikes|
    ensures Partial(spikes, template, j, m) == Partial(spikes, template, j, j + 1)
  {
    if m > j + 1 {
      PartialStopsAtSample(spikes, template, j, m - 1);
    }
  }

  /**
   * Spike counts act as booleans: trains that are non-zero at the same
   * samples, such as one holding 2 where the other holds 1, give the same
   * contribution everywhere.
   */
  lemma CountMagnitudeIgnored(s: seq<nat>, t: seq<nat>, template: seq<real>)
    requires |s| == |t|
    requires forall i :: 0 <= i < |s| ==> (s[i] == 0 <==> t[i] == 0)
    ensures forall j :: 0 <= j < |s| ==> Contribution(s, template, j) == Contribution(t, template, j)
  {
    forall j | 0 <= j < |s| ensures Contribution(s, template, j) == Contribution(t, template, j) {
      PartialDependsOnPresence(s, t, template, j, |s|);
    }
  }

  /**
   * The overlap-add never writes before a spike: sample j depends only on
   * which of the samples 0 .. j hold spikes.
   */
  lemma ContributionIsCausal(s: seq<nat>, t: seq<nat>, template: seq<real>, j: nat)
    requires j < |s| && j < |t|
    requires forall i :: 0 <= i <= j ==> (s[i] == 0 <==> t[i] == 0)
    ensures Contribution(s, template, j) == Contribution(t, template, j)
  {
    PartialStopsAtSample(s, template, j, |s|);
    PartialStopsAtSample(t, template, j, |t|);
    PartialDependsOnPresence(s, t, template, j, j + 1);
  }

  /** An all-zero spike train gives an all-zero contribution. */
  lemma SilentTrainIsFlat(spikes: seq<nat>, template: seq<real>, muap: seq<real>)
    requires forall i :: 0 <= i < |spikes| ==> spikes[i] == 0
    requires IsContribution(spikes, template, muap)
    ensures forall j :: 0 <= j < |muap| ==> muap[j] == 0.0
  {
    forall j | 0 <= j < |muap| ensures muap[j] == 0.0 {
      PartialOfNoSpikes(spikes, template, j, |spikes|);
    }
  }

  /** A single spike at sample s places one copy of the template there, cut at the end of the grid. */
  lemma {:induction false} SingleSpikePlacesTemplate(spikes: seq<nat>, template: seq<real>, s: nat, j: nat, m: nat)
    requires s < |spikes| && spikes[s] != 0
    requires forall i :: 0 <= i < |spikes| && i != s ==> spikes[i] == 0
    requires m <= |spikes|
    ensures Partial(spikes, template, j, m) == if s < m && s <= j < s + |template| then template[j - s] else 0.0
  {
    if m > 0 {
      SingleSpikePlacesTemplate(spikes, template, s, j, m - 1);
    }
  }

  /** A train with one spike at sample s contributes exactly the template shifted to s, truncated at the end. */
  lemma SingleSpikeContribution(spikes: seq<nat>, template: seq<real>, s: nat, muap: seq<real>)
    requires s < |spikes| && spikes[s] != 0
    requires forall i :: 0 <= i < |spikes| && i != s ==> spikes[i] == 0
    requires IsContribution(spikes, template, muap)
    ensures forall j :: 0 <= j < |muap| ==> muap[j] == if s <= j < s + |template| then template[j - s] else 0.0
  {
    forall j | 0 <= j < |muap| ensures muap[j] == if s <= j < s + |template| then template[j - s] else 0.0 {
      SingleSpikePlacesTemplate(spikes, template, s, j, |spikes|);
    }
  }

  /** Silent units add nothing: with every contribution zero at sample j, so is their sum. */
  lemma {:induction false} ColumnSumOfSilence(muaps: seq<seq<real>>, j: nat, m: nat)
    requires m <= |muaps|
    requires forall u :: 0 <= u < m ==> j < |muaps[u]| && muaps[u][j] == 0.0
    ensures ColumnSum(muaps, j, m) == 0.0
  {
    if m > 0 {
      ColumnSumOfSilence(muaps, j, m - 1);
    }
  }

  /** When only unit v is active at sample j, the sum at j is that unit's value. */
  lemma {:induction false} ColumnSumOfOneUnit(muaps: seq<seq<real>>, j: nat, m: nat, v: nat)
    requires v < m <= |muaps|
    requires forall u :: 0 <= u < m ==> j < |muaps[u]|
    requires forall u :: 0 <= u < m && u != v ==> muaps[u][j] == 0.0
    ensures ColumnSum(muaps, j, m) == muaps[v][j]
  {
    if m - 1 == v {
      ColumnSumOfSilence(muaps, j, m - 1);
    } else {
      ColumnSumOfOneUnit(muaps, j, m - 1, v);
    }
  }

  /** If every unit is silent, the EMG signal is all zero. */
  lemma SilentUnitsGiveFlatEmg(muaps: seq<seq<real>>, n: nat, emg: seq<real>)
    requires forall u :: 0 <= u < |muaps| ==> |muaps[u]| == n
    requires forall u, j :: 0 <= u < |muaps| && 0 <= j < n ==> muaps[u][j] == 0.0
    requires IsComposite(muaps, n, emg)
    ensures forall j :: 0 <= j < n ==> emg[j] == 0.0
  {
    forall j | 0 <= j < n ensures emg[j] == 0.0 {
      ColumnSumOfSilence(muaps, j, |muaps|);
    }
  }

  /** With one unit active and the others silent, the EMG signal is that unit's contribution. */
  lemma LoneUnitIsEmg(muaps: seq<seq<real>>, n: nat, emg: seq<real>, v: nat)
    requires v < |muaps|
    requires forall u :: 0 <= u < |muaps| ==> |muaps[u]| == n
    requires forall u, j :: 0 <= u < |muaps| && u != v && 0 <= j < n ==> muaps[u][j] == 0.0
    requires IsComposite(muaps, n, emg)
    ensures emg == muaps[v]
  {
    forall j | 0 <= j < n ensures emg[j] == muaps[v][j] {
      ColumnSumOfOneUnit(muaps, j, |muaps|, v);
    }
  }
}
