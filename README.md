# EMG simulator: verified model of recruitment and overlap-add composition

This project models the core of `EMGSimulator` in `emg_sim.py`, a simulator
of a surface electromyography (EMG) signal. The simulator drives three motor
units with a linear force ramp. It has four stages:

- Recruitment turns the force into a firing rate per unit. A unit is silent
  at or below its lower threshold. Inside its range it follows a rescaled
  logistic curve. From the first sample whose force passes its upper
  threshold, it is latched at its maximum rate.
- A Poisson draw per sample turns rates into spike counts.
- Overlap-add places the unit's waveform template at every sample with a
  non-zero count, cut at the end of the grid.
- Summation adds the per-unit contributions into the EMG signal.

Modules, one per component:

- `Catalog` (`catalog.dfy`): the time grid (10 s at 2000 Hz), the force ramp,
  the three motor units (thresholds [0,20], [20,40], [40,60] N; maximum rates
  3, 6, 8 Hz), and the two properties assumed of the logistic function.
- `Recruitment` (`recruitment.dfy`): the per-sample rule, the first
  exceedance of the upper threshold, and the recruitment loop. The loop is an
  imperative method over a zero-initialised array, with the saturating slice
  fill and the early `break`.
- `Spikes` (`spikes.dfy`): spike generation through an injected, seeded
  sampler.
- `Compositor` (`compositor.dfy`): overlap-add and summation. Both are
  imperative methods over zero-initialised arrays. Each is proved against a
  gather-style definition: sample j of a contribution is the sum of
  `template[j - i]` over the spike samples `i <= j` with `j - i < |template|`.
- `Simulation` (`simulation.dfy`): the pipeline, and two end-to-end
  properties. A zero or negative target gives a flat signal. The default 55 N
  run latches the first two units at known samples and never latches the
  third.

Three points about the code's own behaviour, which the model follows:

- The code does not check that a unit's upper threshold exceeds its lower
  one, and it needs no such check. The dividing branch runs only when
  `min < force <= max`, so the divisor is positive whenever it is evaluated.
  `RecruitingRate` carries that as its precondition.
- A unit's range is closed at the top. The code saturates only when force is
  strictly above the upper threshold, so a force equal to it takes the
  logistic branch.
- Rates go to the sampler unchecked. The model proves that no rate is ever
  negative (`Recruitment.LatchedRatesBounded`), so a negative Poisson mean
  never arises.

## Model

| member | source | states |
|---|---|---|
| Catalog.Units | emg_sim.py:15-16 | three units with ids 1..3; each has 0 <= min < max and a positive maximum rate; the ranges are contiguous from 0 to 60 N; the maximum rates strictly increase |
| Catalog.ForceProfile | emg_sim.py:12-13 | one force value per grid sample, starting at 0 N |
| Catalog.RampRises | emg_sim.py:9-13 | a non-negative target gives a non-decreasing force profile |
| Catalog.RampNeverPositive | emg_sim.py:9-13 | a non-positive target keeps every force sample at or below 0 |
| Catalog.SigmoidAssumptionsSatisfiable | emg_sim.py:3 | some function meets both assumptions placed on `expit`: it maps positives into (1/2, 1), and it is monotone |
| Recruitment.FirstExceedance | emg_sim.py:33-38 | the index returned is the first whose force exceeds the limit, or the length when none does: every earlier force is at or below the limit, and the force at the index is above it |
| Recruitment.UnitFiringRates | emg_sim.py:31-40 | the rate array has one entry per force sample. Before the first exceedance of the upper threshold, each entry is the per-sample rule: 0 at or below the lower threshold, the rescaled logistic value inside the range. From the first exceedance to the end, every entry is the maximum rate, whatever the later forces are |
| Recruitment.CalculateFiringRates | emg_sim.py:28-41 | one rate profile per catalog unit, in catalog order; each satisfies the latched-profile property for its unit |
| Recruitment.SampleRateBounds | emg_sim.py:34-40 | with `expit` mapping positives into (1/2, 1), every sample rate lies in [0, maxRate]; for a force strictly inside the range and a positive maximum, it lies strictly between 0 and maxRate |
| Recruitment.SampleRateMonotone | emg_sim.py:34-40 | with a monotone `expit`, a larger force never gives a smaller sample rate |
| Recruitment.LatchedRatesBounded | emg_sim.py:33-40 | every rate the recruitment loop leaves lies in [0, maxRate] |
| Recruitment.LatchAgreesWithSampleRule | emg_sim.py:36-38 | on a non-decreasing force profile, the latch gives the same rates as evaluating every sample on its own |
| Recruitment.LatchedRatesRise | emg_sim.py:33-40 | on a non-decreasing force profile with a monotone `expit`, each unit's rate profile is non-decreasing |
| Recruitment.SilentBelowRange | emg_sim.py:34-35 | a unit whose lower threshold is never passed has an all-zero rate profile |
| Recruitment.LatchIgnoresFallingForce | emg_sim.py:36-38 | force 30 N then 10 N on unit 1 gives rates [3, 3], although the per-sample rule at 10 N is below 3: the latch ignores a falling force |
| Spikes.GenerateSpikeTrains | emg_sim.py:43-49 | one train per rate profile, of the same length; count i is the sampler's draw at mean rate[i]/2000 |
| Spikes.SilentRatesGiveNoSpikes | emg_sim.py:47-48 | if the sampler never fires at mean 0, all-zero rates give all-zero spike trains |
| Compositor.OverlapAdd | emg_sim.py:59-69 | the contribution has one sample per spike-train sample; sample j is the sum of template[j - i] over the samples i <= j with a non-zero count and j - i < the template length; every write falls inside the array, including in the truncating branch |
| Compositor.SumContributions | emg_sim.py:72-77 | the signal has n samples; sample j is the sum of sample j over all contributions |
| Compositor.GenerateEmg | emg_sim.py:57-79 | one contribution per spike train, using that unit's template, each n samples long; the signal is their sample-wise sum |
| Compositor.PartialOfNoSpikes | emg_sim.py:61-62 | a sample receives nothing from samples without spikes |
| Compositor.PartialDependsOnPresence | emg_sim.py:61-62 | partial sums depend only on which samples hold a non-zero count |
| Compositor.PartialStopsAtSample | emg_sim.py:63-69 | spikes after sample j add nothing to sample j |
| Compositor.CountMagnitudeIgnored | emg_sim.py:61-62 | trains that are non-zero at the same samples give the same contribution, so a count of 2 adds exactly what a count of 1 adds |
| Compositor.ContributionIsCausal | emg_sim.py:63-69 | sample j of a contribution depends only on which of samples 0..j hold spikes: nothing is written before a spike |
| Compositor.SilentTrainIsFlat | emg_sim.py:60-62 | an all-zero spike train gives an all-zero contribution |
| Compositor.SingleSpikePlacesTemplate | emg_sim.py:63-69 | with a single spike at s, the partial sum at j is template[j - s] when s has been passed and s <= j < s + template length, and 0 otherwise |
| Compositor.SingleSpikeContribution | emg_sim.py:63-69 | a train with one spike at s contributes the template shifted to s and cut at the end of the grid |
| Compositor.ColumnSumOfSilence | emg_sim.py:73-77 | a sum over contributions that are all zero at sample j is zero there |
| Compositor.ColumnSumOfOneUnit | emg_sim.py:73-77 | when only unit v is non-zero at sample j, the sum at j is unit v's value |
| Compositor.SilentUnitsGiveFlatEmg | emg_sim.py:73-77 | if every unit's contribution is zero, the EMG signal is all zero |
| Compositor.LoneUnitIsEmg | emg_sim.py:73-77 | with every other unit silent, the EMG signal equals the one active unit's contribution |
| Simulation.ZeroForceGivesFlatEmg | emg_sim.py:129-132 | with a target force <= 0 and a sampler that never fires at mean 0, every rate is 0, every spike count is 0, and the EMG signal is all zero |
| Simulation.RunSimulation | emg_sim.py:129-132 | recruitment, spike generation and composition in sequence, with the guarantee of each stage. A target force <= 0 gives a flat EMG signal |
| Simulation.DefaultRampCrossings | emg_sim.py:9-16 | on the default 55 N ramp of 20000 samples, the force first exceeds 20 N at sample 7273 and 40 N at sample 14546, and never exceeds 60 N |
| Simulation.DefaultRampSaturation | emg_sim.py:9-16 | on the default ramp, unit 1 is at 3 Hz from sample 7273 and below it at 7272. Unit 2 is at 6 Hz from 14546 and below it at 14545. Unit 3 stays strictly below 8 Hz throughout |

## Left out

- `generate_biphasic_muap` and the template loop (emg_sim.py:24-26, 53-55) are left out. They are floating-point Gaussian arithmetic. Templates are inputs of any length, and `muap_params` (emg_sim.py:17-21) goes with them.
- `expit` is left out: it is a floating-point library function. It becomes the parameter `sigmoid`, and the lemmas that need its shape assume it maps positives into (1/2, 1) and is monotone.
- `poisson.rvs` is left out: it is a random sampler in a library outside the model. It becomes the parameter `draw`, a seeded sampler indexed by unit and sample. Its distribution, with mean rate/2000 per sample, is not modelled. Only "a draw at mean 0 gives 0" is assumed, where a property needs it.
- The grid length is a parameter `n`: the source computes it in floating point through `np.arange`. The default configuration has `SampleCount` = 20000 samples, and grid times are exact `i / 2000`.
- All arithmetic is on exact reals; floating-point rounding is not modelled.
- The dictionaries keyed by unit ids 1..3 become sequences indexed by catalog position. Ids are kept in `MotorUnit.id`.
- Spike counts are natural numbers. The source stores them in float arrays, and overlap-add only tests them against zero.
- `export_to_mat`, `plot_all`, the export and plot calls of `run_simulation`, and `__main__` are left out (emg_sim.py:81-139). They are file output and plotting; `force_value` (emg_sim.py:14) is used only in a plot label.
- Recruitment.UnitFiringRates: requires `minForce <= maxForce`, which every catalog unit meets. For an inverted range, the source would latch only at the first force above both thresholds. The model does not state that case.
