# Verified models of the audio engine's measurement, design and cache code

This project models the hardest self-contained algorithms of the audio engine and proves what they are for.
Arithmetic on samples is over the reals; counts, bytes, machine words and timestamps have the source's widths.

- **Fitting** (`LinearSystems`, `Elimination`, `Minors`, `GaussJordan`, `LeastSquares`, `FitAcceptance`, `WindowFit`, `ComponentFit`,
  `ToneRecovery`, `WholePeriods`, `ChannelLevel`, `SineFit`, `SineAcceptance`, `SlowSine`): the in-place Gauss-Jordan solvers keep the set of
  solutions and accept exactly the matrices whose elimination meets its pivots, the accumulated normal equations are those of the
  window, and the fitters therefore return the unique least-squares optimum; probes that fill the window with whole periods,
  tones at zero and half the rate included, are always accepted and come back exactly, as do such tones in the sine fit.
- **Trials** (`Trials`, `TrialSchedule`, `TrialPublication`, `TrialFields`): the alternating scheduler gives every engine what it
  would have had alone, the validator accepts exactly the cases that republish from their own records, and every published field of
  an accepted case says what it is named for.
- **Rendering** (`Render`, `Interleaving`): any adapter whatever is a step function; the driver ends, loses nothing and dates its
  first output. Its interleaved input and the fitters' reading of one channel undo each other.
- **Files** (`Wav`, `WavRoundTrip`): the chunk walk and the sample decoder invert a writer. The layout is the one of the IBM and
  Microsoft Multimedia Programming Interface and Data Specifications 1.0, chapter 2.
- **Gapless comparison** (`Gapless`): wildcard matching, the sample hash, the reference search and seek offsets.
- **Design** (`Bessel`, `HalfBand`): the truncated Bessel series and the half-band kernel built on it.
- **Loudness cache** (`LoudnessIdentity`, `LoudnessStore`, `LoudnessRuns`, `LoudnessGain`): identities, their persisted form, and the
  table as a refinement of "what was last written for this identity".
- **Latency** (`OrderStatistics`, `Latency`, `LatencyRecords`): nearest-rank statistics and the accounting of instrumented calls.
- `Arithmetic`, `Vectors`, `Octets` and `Outcomes` hold what the others share.

Code that updates arrays or fields in the source is a method over arrays or a class here, proved against a specification
function or predicate; expressions are functions. What a method leaves to its environment is a parameter: the measurement of a
trial, the adapter, the clock, file metadata, the digest, text decoding and URL origins. The elementary functions are parameters
too, and each lemma names the facts about them that it needs.

Where the code does less than its documentation or its name suggests, the condition is proved beside a concrete input:

- positive pivot floors refuse some regular systems: `GaussJordan.TinyRegular`, and as windows `SlowSine.SlowToneRefused`; two and
  three columns are decided in closed form by `Minors.PairDecides` and `Minors.MinorsDecide`, any width by the elimination of the
  matrix (`GaussJordan.Solve`);
- the analysis window can wrap around: `Render.WindowSoundIff`, `Render.WindowWraps`. The wrapping needs a minimum of zero; the
  source's own callers ask for 32 and 1024 frames and are safe by the first lemma;
- a chunk that ends inside a frame can overrun the reference: `Gapless.LastSliceDecides`, `Gapless.PartialFrameOverruns`;
- a kernel whose sum misses the guard is not rescaled: `HalfBand.UnityGainIff`, `HalfBand.StraightLineMissesGuard`; with a true
  sine and root it cannot happen at any length, by `HalfBand.UnityGain`;
- a cached gain goes stale when the loudness is reassigned: `LoudnessGain.GainAfterReassignment`, `LoudnessGain.StaleGain`;
- a row with the text path encoding keeps a foreign key, and writing it back makes it unreadable:
  `LoudnessIdentity.TextRowKeepsForeignKey`, `LoudnessIdentity.TextRowExample`, `LoudnessRuns.WriteBackReadable`,
  `LoudnessRuns.WriteBackExample`.

Verify everything with `dafny verify dfyconfig.toml`.

## Model

| member | source | states |
|---|---|---|
| `LinearSystems.ExchangeKeeps` | benches/resampler_comparison_support/signal.rs:205-206 | Exchanging two rows leaves the set of solutions unchanged |
| `LinearSystems.ScaleKeeps` | benches/resampler_comparison_support/signal.rs:207-211 | Dividing a row by its non-zero pivot leaves the set of solutions unchanged |
| `LinearSystems.ReduceKeeps` | benches/resampler_comparison_support/signal.rs:216-220 | Subtracting a multiple of the pivot row leaves the set of solutions unchanged |
| `LinearSystems.IdentitySolved` | benches/resampler_comparison_support/signal.rs:223 | A system that equals the identity after reduction has its right-hand side as the only solution, and so does every equivalent system, which is then regular |
| `Elimination.NoPivotVector` | benches/resampler_comparison_support/signal.rs:202-204 | A reduced matrix without a pivot in the next column takes a vector with an entry one to exactly the entries left in that column |
| `Elimination.StepReduces` | benches/resampler_comparison_support/signal.rs:207-221 | A pivot step reduces one more column |
| `Elimination.RefusedVector` | benches/resampler_comparison_support/signal.rs:198-222 | A refused matrix takes some vector with an entry one to negligible entries: pulled back through every step to the matrix the caller gave |
| `GaussJordan.LastLargest` | benches/resampler_comparison_support/signal.rs:199-201 | The pivot row is of largest magnitude; of several, the last, as the source's maximum picks |
| `GaussJordan.FirstLargest` | benches/audio_quality_measurements.rs:4284-4292 | The pivot row is of largest magnitude; of several, the first |
| `GaussJordan.BringUp` | benches/resampler_comparison_support/signal.rs:205-206 | Bringing the pivot row up leaves an equivalent system and the columns already reduced |
| `GaussJordan.ClearColumn` | benches/resampler_comparison_support/signal.rs:207-221 | Scaling the pivot row and clearing its column leaves an equivalent system with one more reduced column |
| `GaussJordan.FitStep` | benches/resampler_comparison_support/signal.rs:205-221 | A whole pivot step in place leaves an equivalent system whose matrix is the swapped and cleared one |
| `GaussJordan.Solve` | benches/resampler_comparison_support/signal.rs:192-224 | In place: an accepted answer is the unique solution of the original system, which is regular; entries beyond the width are untouched; a system is accepted exactly when the elimination of its matrix meets no negligible pivot, a refused matrix takes some vector with an entry one to entries of at most the floor, and with floor zero exactly the singular ones are refused |
| `GaussJordan.Solve3x3` | benches/audio_quality_measurements.rs:4282-4318 | The same for the three-column twin and its own strict floor; acceptance is decided in closed form by the lead entry, the larger lead minor and the determinant |
| `Minors.MinorsDecide` | benches/audio_quality_measurements.rs:4283-4317 | For every rule a three by three matrix is accepted exactly when its lead entry, its larger minor with the lead row and its determinant are large enough in turn |
| `Minors.PairDecides` | benches/resampler_comparison_support/signal.rs:192-224 | A two by two matrix is accepted exactly when its lead entry and its determinant are large enough in turn |
| `Minors.Sylvester` | benches/audio_quality_measurements.rs:4301-4315 | The entry left after two steps is the determinant over a minor |
| `GaussJordan.TinyRegular` | benches/audio_quality_measurements.rs:4293-4295 | Concrete family of regular matrices that a positive floor refuses |
| `LeastSquares.NormalEquationsFit` | benches/resampler_comparison_support/signal.rs:131-165 | The solution of regular normal equations leaves an error orthogonal to every column, is strictly better than every other coefficient vector, and splits the energy into fitted and residual energy |
| `LeastSquares.SingularHasNoBestFit` | benches/resampler_comparison_support/signal.rs:202-204 | With a singular normal matrix no coefficient vector is the unique best fit, whatever was observed |
| `LeastSquares.ExactRecovery` | benches/resampler_comparison_support/signal.rs:153-188 | Observations that are an exact combination of the columns are recovered with zero residual |
| `LeastSquares.EnergyExpansion` | benches/resampler_comparison_support/signal.rs:159-165 | Signal energy, fitted energy and residual energy for arbitrary coefficients, with the cross term that orthogonality removes |
| `FitAcceptance.NearlyNullIsNearlySilent` | benches/resampler_comparison_support/signal.rs:146-158 | A vector on which the normal matrix is negligible is a combination of the columns whose energy over the window is at most the floor times the size of its coefficients |
| `FitAcceptance.RefusedNearlySilent` | benches/resampler_comparison_support/signal.rs:153-158 | A refused window has such a nearly silent combination with a coefficient one |
| `FitAcceptance.DominantAccepted` | benches/resampler_comparison_support/signal.rs:198-222 | A matrix whose diagonal entries exceed the rest of their rows by more than the floor is accepted |
| `FitAcceptance.OrthogonalAccepted` | benches/resampler_comparison_support/signal.rs:153-158 | Orthogonal columns whose energies exceed the floor are accepted |
| `WindowFit.Sum.Add` | benches/resampler_comparison_support/signal.rs:14-21 | Without rounding the carried correction is always zero and the running value is the exact sum |
| `WindowFit.Accumulate` | benches/resampler_comparison_support/signal.rs:139-144 | One frame adds its products to the upper triangle and the right-hand side, and nothing else |
| `WindowFit.Normalise` | benches/resampler_comparison_support/signal.rs:131-152 | After all frames the mirrored matrix and the vector are the normal equations of the window |
| `WindowFit.ResidualEnergy` | benches/resampler_comparison_support/signal.rs:159-165 | The second pass computes the squared error of the fitted coefficients |
| `WindowFit.FitWindow` | benches/resampler_comparison_support/signal.rs:131-165 | The loops return the unique least-squares optimum of the window together with its residual energy, exactly when the elimination of the normal matrix meets no pivot at or below the floor; otherwise some combination of the columns is nearly silent |
| `ComponentFit.FoldFrequency` | benches/resampler_comparison_support/signal.rs:32-35 | The folded frequency is at most half the rate and congruent to the frequency or to its negative |
| `ComponentFit.AngleReduced` | benches/resampler_comparison_support/signal.rs:27-30 | A tone's angle at a frame is that share of its turns less the whole ones, and within one turn |
| `ComponentFit.WindowFramesLargest` | benches/resampler_comparison_support/signal.rs:87-91 | The window holds n frames exactly when at least n were asked for and the buffer has them from the start on |
| `ComponentFit.PlanColumns` | benches/resampler_comparison_support/signal.rs:92-107 | Each requested frequency gets a cosine and a sine column, or one column at zero and at half the rate, and a constant is added unless zero was requested |
| `ComponentFit.FitComponents` | benches/resampler_comparison_support/signal.rs:65-189 | A fit is published exactly for good geometry, enough frames and columns whose normal matrix is accepted, whatever the samples; it belongs to the unique best fit of exactly the requested window and channel |
| `Interleaving.InterleavedAt` | benches/resampler_comparison_support/quality.rs:50-55 | In the driver's input the sample of a frame and a channel stands channel places after that frame's start |
| `Interleaving.SampleOfInterleaved` | benches/resampler_comparison_support/signal.rs:133-135 | What the fit reads for a channel and a frame of an interleaved signal is the signal there |
| `Interleaving.WindowOfInterleaved` | benches/resampler_comparison_support/signal.rs:133-163 | The window of a channel of an interleaved signal is exactly that channel's samples from the start on |
| `Interleaving.OtherChannelsIgnored` | benches/resampler_comparison_support/signal.rs:133-163 | Signals that agree on a channel give it the same windows, whatever the other channels hold |
| `Interleaving.BufferRebuilt` | benches/resampler_comparison_support/signal.rs:133-135 | Every buffer of whole frames is its own channels interleaved again |
| `Interleaving.SuppliedAt` | benches/resampler_comparison_support/quality.rs:50-59 | What the adapter is given holds every sample of the signal at its place, narrowed for the narrower format |
| `Interleaving.LevelOfSignal` | benches/resampler_comparison_support/signal.rs:226-252 | The level measured on an interleaved signal is the mean square of the samples of that channel over that window |
| `ToneRecovery.BoundaryTone` | benches/resampler_comparison_support/signal.rs:23-30 | At zero and at half the rate the samples of a tone all have one magnitude, its amplitude times the sine of its phase |
| `ToneRecovery.TonesRecovered` | benches/resampler_comparison_support/signal.rs:65-189 | A fitted window made of the requested tones and a constant is resolved exactly: the residual is zero and every published component is all that can be seen of its tone: amplitude, phase and level, or at zero and half the rate amplitude times the sine of the phase |
| `WholePeriods.WholeSumsVanish` | benches/resampler_comparison_support/signal.rs:27-30 | Over whole periods of a tone below the rate its sines and its cosines sum to zero |
| `WholePeriods.ColumnsOrthogonal` | benches/resampler_comparison_support/signal.rs:109-145 | Over whole periods different columns are orthogonal, with energy half the window, at zero and half the rate all of it |
| `WholePeriods.PeriodicAccepted` | benches/resampler_comparison_support/signal.rs:153-158 | One or two tones from zero to half the rate that fill the window with whole periods are always accepted |
| `WholePeriods.ConstantAccepted` | benches/resampler_comparison_support/signal.rs:153-158 | A constant alone is always accepted, with no fact about the sine |
| `WholePeriods.HalfRateAccepted` | benches/resampler_comparison_support/signal.rs:92-107 | A tone at half the rate is accepted over every window of two frames or more, whole periods or not |
| `WholePeriods.RotatesIsTrigonometric` | benches/resampler_comparison_support/signal.rs:27-30 | A sine and cosine that go around once per turn satisfy the identities of the analysis |
| `WholePeriods.ResolveProbe` | benches/resampler_comparison_support/signal.rs:65-189 | For such a probe in the window, boundaries included, a fit is published exactly when the window is long enough, leaves nothing over and finds of every tone all that can be seen |
| `ToneRecovery.FoldedSamples` | benches/resampler_comparison_support/signal.rs:32-35 | Sampled at a rate, a tone and its folded image have the same cosines, and the same sines up to one fixed sign |
| `ToneRecovery.PhasePreserved` | benches/resampler_comparison_support/signal.rs:27-30 | Reducing the phase in integers makes the oscillator exactly periodic however large the frame index |
| `ChannelLevel.ChannelMeanSquare` | benches/resampler_comparison_support/signal.rs:226-251 | Fails exactly on bad geometry; otherwise the mean square of exactly that channel and window |
| `ChannelLevel.FitSplitsLevel` | benches/resampler_comparison_support/signal.rs:159-188 | The channel level is the fitted share plus the published residual, so the residual is never larger than the level |
| `SineFit.Accumulate` | benches/audio_quality_measurements.rs:4248-4262 | The three-column accumulation yields the normal equations of sine, cosine and constant over the window |
| `SineFit.TakenLargest` | benches/audio_quality_measurements.rs:4238-4240 | As many frames are taken as were asked for and are left after the skip |
| `SineFit.FitSine` | benches/audio_quality_measurements.rs:4228-4279 | Publishes exactly for windows that are long enough and whose normal matrix has large enough minors; amplitude and residual are those of the unique best fit over the window it takes |
| `SineAcceptance.PeriodicSineAccepted` | benches/audio_quality_measurements.rs:4248-4264 | A tone that fills the window with whole periods is accepted |
| `SineAcceptance.SineRecovered` | benches/audio_quality_measurements.rs:4264-4279 | A published sine fit of exactly a tone and a constant leaves nothing over and finds the amplitude |
| `SineAcceptance.ResolveSine` | benches/audio_quality_measurements.rs:4228-4279 | On a tone that fills the window with whole periods, and a constant, the fit returns exactly when the window is long enough, leaves nothing over and finds the amplitude |
| `SlowSine.SlowToneRefused` | benches/audio_quality_measurements.rs:4248-4264 | Family of windows, of a tone too slow for the pivot floor, that are refused although their normal equations have exactly one solution |
| `Trials.CaseAccumulator.constructor` | benches/resampler_comparison_support/measurement.rs:89-100 | A fresh accumulator has one empty slot per trial and the identity of its engine, rate and capacity |
| `Trials.CaseAccumulator.Push` | benches/resampler_comparison_support/measurement.rs:102-122 | A record goes into the empty slot its index names; a foreign identity, an index outside the schedule and a filled slot are errors that change nothing |
| `TrialSchedule.AloneFromFresh` | benches/resampler_comparison_support/measurement.rs:231-265 | From fresh slots an engine holds exactly the trials before its first unsound measurement, each in its own slot |
| `TrialSchedule.FailsIffUnsound` | benches/resampler_comparison_support/measurement.rs:247-262 | An engine fails exactly when some measurement is an error, has the wrong index or the wrong identity |
| `TrialSchedule.OrderKeeps` | benches/resampler_comparison_support/measurement.rs:240-243 | Alternating the order neither loses nor repeats an engine |
| `TrialSchedule.CollectScheduledTrials` | benches/resampler_comparison_support/measurement.rs:231-265 | Every engine ends with the slots and failure it would have had running alone, whatever the other engines do, and the calls made are those of the schedule |
| `TrialSchedule.MeasuredUntilFailure` | benches/resampler_comparison_support/measurement.rs:244-246 | An engine is measured on every trial up to and including its failure and never again |
| `TrialSchedule.UnfailedSchedule` | benches/resampler_comparison_support/measurement.rs:239-243 | Without failures the calls are each even trial ascending and each odd trial descending |
| `TrialSchedule.PositionOccupied` | benches/resampler_comparison_support/measurement.rs:240-243 | The closed form for an engine's place in a trial is where the order puts it |
| `TrialSchedule.FairOrder` | benches/resampler_comparison_support/measurement.rs:229-243 | Over an even number of trials all engines have the same total position, for every number of engines |
| `TrialPublication.CompleteRecords` | benches/resampler_comparison_support/measurement.rs:124-140 | Complete exactly when there is a trial and every slot is filled; then record i is slot i |
| `TrialPublication.ValidateCaseTrials` | benches/resampler_comparison_support/measurement.rs:269-305 | Accepts exactly the cases whose records are in order, carry the expected identity, and republish to every stored field |
| `TrialPublication.FinishedCaseIsTruthful` | benches/resampler_comparison_support/measurement.rs:142-226 | A case finished from in-order trials under the stated conditions is accepted, whatever latency pass is attached |
| `TrialPublication.TruthfulWork` | benches/resampler_comparison_support/measurement.rs:164-176 | In an accepted case the validity flag says that quality passed and that every trial consumed the scheduled frames, produced the expected ones and ended its drain; and a valid case's warm-up, steady and drain frames add up in every trial |
| `TrialPublication.FinishSucceeds` | benches/resampler_comparison_support/measurement.rs:142-226 | Closing an accumulator succeeds exactly when there is a trial, every slot is filled, and every distribution can be made: each column summarizes, and the cycle counters are there for no trial or for all and summarize |
| `TrialPublication.FirstRate` | benches/resampler_comparison_support/measurement.rs:273-276 | A case is judged by the first rate pair with its id |
| `Trials.DurationTimesRate` | benches/resampler_comparison_support/measurement.rs:179-180 | The buffer duration times the rate is the chunk in nanoseconds |
| `TrialFields.AcceptedFields` | benches/resampler_comparison_support/measurement.rs:142-226 | In an accepted case each distribution summarizes its own measurement of the records, the cycle distributions are there exactly when the counters are, the utilizations are the median and the 95th percentile of the buffer times against the duration of a buffer, each work column holds its own counter of every trial, and case and records name one engine, rate pair and capacity |
| `TrialFields.DecimalSpells` | benches/resampler_comparison_support/measurement.rs:41-53 | Numbers in the key are their decimal digits |
| `TrialFields.CaseKeyNames` | benches/resampler_comparison_support/measurement.rs:41-53 | The key holds every field of the identity behind its own label and before the next |
| `TrialPublication.CollectedCaseIsTruthful` | benches/resampler_comparison_support/measurement.rs:231-305 | From measurement to publication: an engine publishes exactly when there is a trial, all its measurements are sound and every distribution can be made; the case is accepted and holds its own measurements |
| `Render.BuildInput` | benches/resampler_comparison_support/quality.rs:50-55 | The driver's input is frame by frame, channel by channel |
| `Render.CallBound` | benches/resampler_comparison_support/quality.rs:78-82 | The call bound is eight calls for each chunk the input fills or begins and 4096 more, within a machine word |
| `Render.ChunkEndExact` | benches/resampler_comparison_support/quality.rs:92-93 | A call offers a whole chunk or what is left of the input, and never nothing |
| `Render.ValidateDriverProgress` | benches/resampler_comparison_support/quality.rs:194-216 | Progress is refused exactly when it claims more than was offered or fits, or supplied frames vanish without effect |
| `Render.FeedAll` | benches/resampler_comparison_support/quality.rs:78-139 | For every adapter feeding ends within its call bound; success consumed all frames, and each failure is explained by the run |
| `Render.DrainAll` | benches/resampler_comparison_support/quality.rs:141-177 | On every outcome the drains are the adapter's answers, within the call bound, and all but the last were productive and unfinished; a failure is a refusal after productive calls or a stall |
| `Render.RenderSignal` | benches/resampler_comparison_support/quality.rs:38-192 | On every outcome the calls were made on the adapter in turn, offered the input in order and stayed within bounds; success has the stated figures, and a failure stopped the feeding before any drain or the draining after the whole input |
| `Render.ConsumedInOrder` | benches/resampler_comparison_support/quality.rs:84-139 | The consumed pieces put end to end are the input up to the cursor |
| `Render.EmittedFrames` | benches/resampler_comparison_support/quality.rs:218-239 | What is kept is as many whole frames as the calls produced |
| `Render.FirstOutputSpan` | benches/resampler_comparison_support/quality.rs:133-137 | The first-output figures are present exactly when some call produced output and name the first such call |
| `Render.RenderedConserves` | benches/resampler_comparison_support/quality.rs:38-192 | A successful rendering consumed exactly the whole input in order, kept exactly what was produced, and dated its first output within the input |
| `Render.WindowExact` | benches/resampler_comparison_support/quality.rs:241-260 | The window in closed form: a tenth of a second or 4096 frames, a quarter of the usable stream at most, is kept away from both of its ends |
| `Render.WindowSoundIff` | benches/resampler_comparison_support/quality.rs:241-260 | The analysis window lies in the usable stream and keeps half of it exactly when a minimum is asked for or the rendering reaches past the delay |
| `Render.WindowWraps` | benches/resampler_comparison_support/quality.rs:241-260 | Concrete input for which the window length wraps around |
| `Wav.ReadWavFormat` | benches/audio_quality_measurements.rs:4103-4145 | Only formats with a supported depth and at least one channel are accepted |
| `Wav.DecodePcmSamples` | benches/audio_quality_measurements.rs:4159-4212 | Bad block alignment and partial frames are errors; otherwise the samples are those the bytes spell, in order |
| `Wav.WalkChunks` | benches/audio_quality_measurements.rs:4077-4095 | The cursor walk ends, never reads outside the file, and decides the file's meaning as its chunk list does |
| `Wav.ReadPcmWav` | benches/audio_quality_measurements.rs:4066-4101 | The result is the meaning of the file's chunks, error by error |
| `WavRoundTrip.WalkIffWritten` | benches/audio_quality_measurements.rs:4077-4095 | The walk finds a list of chunks exactly when the bytes are those chunks written with word padding |
| `WavRoundTrip.LastChunksKept` | benches/audio_quality_measurements.rs:4088-4092 | The last format chunk and the last data chunk are the ones used |
| `WavRoundTrip.FirstBadFormat` | benches/audio_quality_measurements.rs:4088-4089 | Selection fails exactly when some format chunk is bad, with the first one's error |
| `WavRoundTrip.SampleRoundTrip` | benches/audio_quality_measurements.rs:4184-4205 | Decoding inverts the little-endian two's-complement writer for every sample of 16, 24 and 32 bits |
| `WavRoundTrip.ShiftedBack` | benches/audio_quality_measurements.rs:4188-4193 | Shifting up and arithmetically back down is 24-bit sign extension |
| `WavRoundTrip.SamplesRoundTrip` | benches/audio_quality_measurements.rs:4159-4212 | Whole sample sequences survive writing and decoding |
| `WavRoundTrip.FormatMeans` | benches/audio_quality_measurements.rs:4103-4157 | A written format chunk, plain or extensible, is read as its fields say: the first complaint in the reader's order, or the format |
| `WavRoundTrip.FormatReading` | benches/audio_quality_measurements.rs:4103-4145 | Every chunk long enough is some fields and an extension and is read as they say; a shorter one is refused |
| `WavRoundTrip.FormatRoundTrip` | benches/audio_quality_measurements.rs:4103-4145 | A plain format chunk is read back as it was written |
| `WavRoundTrip.FileRoundTrip` | benches/audio_quality_measurements.rs:4066-4101 | Reading a written file gives the written samples at full scale, for any number of other chunks in any order |
| `WavRoundTrip.FileSpells` | benches/audio_quality_measurements.rs:4069-4095 | The reader finds the header of a written file and then exactly its chunks |
| `WavRoundTrip.WriteThenRead` | benches/audio_quality_measurements.rs:4066-4101 | A file written from any accepted format fields, in-range samples and other chunks before, between and after is read back as those samples, scaled |
| `Gapless.MatchIffSplits` | benches/audio_gapless_comparison_perf.rs:465-477 | The matcher says yes exactly when the value splits into pieces that the pattern's symbols allow |
| `Gapless.Fnv1aExtend` | benches/audio_gapless_comparison_perf.rs:899-905 | The loop is the fold of xor and wrapping multiplication |
| `Gapless.Fnv1a` | benches/audio_gapless_comparison_perf.rs:895-897 | The hash of a stream starts from the offset |
| `Gapless.XorBitAt` | benches/audio_gapless_comparison_perf.rs:901 | Every bit of the exclusive or is set exactly when the two words differ there |
| `Gapless.FnvChunks` | benches/audio_gapless_comparison_perf.rs:899-905 | The hash depends only on the concatenated stream, not on its chunks |
| `Gapless.StepInverts` | benches/audio_gapless_comparison_perf.rs:901-902 | One step can be undone, because the prime is odd |
| `Gapless.FnvBijective` | benches/audio_gapless_comparison_perf.rs:899-905 | For a fixed stream the hash is a bijection of the incoming hash |
| `Gapless.OneSampleDetected` | benches/audio_gapless_comparison_perf.rs:899-905 | Streams that differ in exactly one sample's bits hash differently |
| `Gapless.SampleDelta` | benches/audio_gapless_comparison_perf.rs:907-920 | The largest difference and the mean squared difference over the common length; none when it is empty |
| `Gapless.LargestBounds` | benches/audio_gapless_comparison_perf.rs:914-918 | The largest difference bounds every difference and is one of them |
| `Gapless.SquaresOfDifferences` | benches/audio_gapless_comparison_perf.rs:914-918 | The summed squares are those of the differences |
| `Gapless.LastSliceDecides` | benches/audio_gapless_comparison_perf.rs:880-883 | All compared slices lie in the reference exactly when the last one does |
| `Gapless.WholeFramesFit` | benches/audio_gapless_comparison_perf.rs:868-883 | For whole-frame chunks every slice fits exactly when the reference holds the compared samples |
| `Gapless.PartialFrameOverruns` | benches/audio_gapless_comparison_perf.rs:880-883 | Concrete chunk ending inside a frame whose last slice overruns the reference |
| `Gapless.ComparedPart` | benches/audio_gapless_comparison_perf.rs:869-870 | The compared part is the whole chunk or 128 frames of it, whichever is shorter |
| `Gapless.SpanIsCandidates` | benches/audio_gapless_comparison_perf.rs:870-878 | When some frame within 8192 of the center leaves room for the compared frames, the span searched is exactly all such frames |
| `Gapless.SpanWithoutCandidates` | benches/audio_gapless_comparison_perf.rs:870-878 | Otherwise a single frame is tried, the last that leaves room |
| `Gapless.NearestReference` | benches/audio_gapless_comparison_perf.rs:859-890 | Among all frames within 8192 of the center that leave room for the compared frames, the earliest of least mean squared difference; when there is none, the last frame that leaves room |
| `Gapless.OffsetExact` | benches/audio_gapless_comparison_perf.rs:922-940 | Nothing for a difference outside 64 bits, zero for none, the difference itself without a time base, and otherwise the whole part of the exact quotient if it fits; intermediate products never overflow |
| `Bessel.NoExitWhileGrowing` | src/dsp.rs:38-40 | The exit test cannot succeed while the terms still grow |
| `Bessel.RemainderShrinks` | src/dsp.rs:35-40 | Once terms shrink, the sum plus its certain remainder never grows again |
| `Bessel.ExitCost` | src/dsp.rs:38-40 | After an exit no number of further terms adds more than 32e-16 of the result |
| `Bessel.TruncationBound` | src/dsp.rs:31-43 | The result is at least one and short of the 64-term sum by at most 32e-16 of itself; after an exit the same holds of every longer sum |
| `Bessel.TruncatedNearlyMonotone` | src/dsp.rs:31-43 | A larger argument gives at least the result, up to the truncation bound |
| `Bessel.SumSeries` | src/dsp.rs:34-41 | The loop stops at the first negligible term, or at term 64 |
| `Bessel.ModifiedBesselI0` | src/dsp.rs:31-43 | The result is the truncated series of a quarter of the squared argument, and at least one |
| `Bessel.TermClosed` | src/dsp.rs:34-37 | Each term is a power of the quarter square over a squared factorial |
| `HalfBand.HalfbandLowpassKernel` | src/dsp.rs:59-109 | The array filled and rescaled in place is the designed kernel, rescaled |
| `HalfBand.Rescale` | src/dsp.rs:90-106 | The carried taps are divided by their sum exactly when it passes the guard; all others stay |
| `HalfBand.DesignShape` | src/dsp.rs:68-88 | For every odd sine the kernel before rescaling is symmetric and exactly zero at even offsets but the centre |
| `HalfBand.PositionExact` | src/dsp.rs:70-71 | Positions run from minus one at the first tap to one at the last, in proportion to the offset |
| `HalfBand.TapValue` | src/dsp.rs:70-87 | With true sine and root each tap before rescaling is the ideal one times the Bessel value of beta shortened by its position, over the Bessel value of beta |
| `HalfBand.EdgeTap` | src/dsp.rs:70-87 | The outermost tap times the Bessel value of beta is the ideal tap |
| `HalfBand.IdealTap` | src/dsp.rs:74-85 | The ideal response: one half at the centre, nothing at other even offsets, alternating signs over the half turns at odd ones |
| `HalfBand.UnityGainIff` | src/dsp.rs:90-108 | For every odd sine the kernel is symmetric, zero at even offsets, and sums to one exactly when the sum before rescaling passes the guard; otherwise it is unchanged |
| `HalfBand.StraightLineMissesGuard` | src/dsp.rs:90-108 | Concrete odd function in place of the sine, and three taps, for which the guard is missed and nothing is rescaled |
| `HalfBand.WindowFalls` | src/dsp.rs:69-72 | With a true square root the window only falls away from the centre, up to the truncation bound |
| `HalfBand.TapsDecay` | src/dsp.rs:73-87 | Each tap is at most its neighbour nearer the centre, up to a slack that only very long kernels need |
| `HalfBand.UnityGain` | src/dsp.rs:45-57 | With true sine and root the sum before rescaling is at least 0.499, so the kernel of every accepted length sums to one, for every beta |
| `HalfBand.SymmetricResponse` | src/dsp.rs:45-51 | The response and its reflection about a quarter of the input rate add up to twice the centre tap at every angle |
| `LoudnessIdentity.EncodeLocalPath` | src/loudness_db.rs:224-244 | The loop writes the marker and every unit, low byte first on windows |
| `LoudnessIdentity.PathRoundTrip` | src/loudness_db.rs:253-293 | For every unit sequence, a native encoding decodes to its path and to no other; odd wide encodings and foreign markers are refused |
| `LoudnessIdentity.DecodingErrors` | src/loudness_db.rs:253-293 | Which locators are refused as another platform's and which as no encoding at all |
| `LoudnessIdentity.CacheKey` | src/loudness_db.rs:196-212 | The loop renders namespace, mark and digest in hexadecimal |
| `LoudnessIdentity.HexReadsBack` | src/loudness_db.rs:207-210 | Two digits a byte, the high one first, in the order of the bytes |
| `LoudnessIdentity.KeyText` | src/loudness_db.rs:196-212 | A key is its namespace, the digest mark and the digest in hexadecimal |
| `LoudnessIdentity.PreimageParts` | src/loudness_db.rs:196-201 | The digest is fed the domain, the namespace, a zero and the payload |
| `LoudnessIdentity.RemoteIdentityShows` | src/loudness_db.rs:69-74 | A remote identity keeps of its address only the digest and the origin |
| `LoudnessIdentity.HexTextDetermines` | src/loudness_db.rs:203-211 | The hexadecimal text determines the digest |
| `LoudnessIdentity.KeysAreNamespaced` | src/loudness_db.rs:214-222 | A key passes the validity test of its own namespace and never that of the other |
| `LoudnessIdentity.ValidExactly` | src/loudness_db.rs:214-222 | A text is valid exactly when it is the namespace, the mark and some digest of 32 bytes in hexadecimal |
| `LoudnessIdentity.KeysDistinguish` | src/loudness_db.rs:58-76 | Two locations have the same key exactly when they are the same location, unless their digests collide |
| `LoudnessIdentity.IdentityRoundTrip` | src/loudness_db.rs:98-153 | Every location's identity is restored from its persisted columns |
| `LoudnessIdentity.AcceptedNativeRow` | src/loudness_db.rs:116-130 | A local row restores the identity of a path exactly when its locator is that path's encoding and its key that of the locator |
| `LoudnessIdentity.TextRowAccepted` | src/loudness_db.rs:116-130 | A row with the text encoding is accepted exactly when its text decodes and its key is that of the locator, and names the path the text spells |
| `LoudnessIdentity.RemoteRowAccepted` | src/loudness_db.rs:131-150 | A remote row is accepted exactly without a locator, under the hexadecimal key of some digest and with an origin as its label; each refusal has its own error |
| `LoudnessIdentity.TextRowKeepsForeignKey` | src/loudness_db.rs:116-130 | A row with the text encoding is accepted under a key that differs from the key of the path it names, unless the digests of two different inputs collide |
| `LoudnessIdentity.TextRowExample` | src/loudness_db.rs:116-130 | Concrete text row in a well-behaved environment: accepted, without the key of the path it names |
| `LoudnessStore.LoudnessDatabase.InitSchema` | src/loudness_db.rs:529-606 | A table of the current schema keeps all its rows; any other is dropped; the result is current |
| `LoudnessStore.LoudnessDatabase.Upsert` | src/loudness_db.rs:609-632 | One row is inserted or replaced, or a violated constraint changes nothing |
| `LoudnessStore.UpsertedExactly` | src/loudness_db.rs:570-632 | A record is refused exactly when its source is local without a path or remote with one; otherwise its row alone is written |
| `LoudnessStore.LoudnessDatabase.BatchUpsert` | src/loudness_db.rs:771-800 | All records are stored and counted, or none and the error of the first failing one is returned |
| `LoudnessStore.LoudnessDatabase.SetAlbumGain` | src/loudness_db.rs:806-826 | Every stored identity of the list gets the gain, and nothing else changes |
| `LoudnessStore.LoudnessDatabase.Delete` | src/loudness_db.rs:829-837 | The identity's row is removed, and the answer says whether it was there |
| `LoudnessStore.LoudnessDatabase.GetOutdatedTracks` | src/loudness_db.rs:752-768 | Succeeds exactly when every outdated row decodes, and then lists each outdated identity once, in any order |
| `LoudnessStore.LoudnessDatabase.GetStats` | src/loudness_db.rs:840-865 | The counts are those of the rows |
| `LoudnessStore.ListingMatchesCount` | src/loudness_db.rs:752-859 | A listing is as long as the outdated count |
| `LoudnessRuns.Session` | src/loudness_db.rs:489-606 | Opening a file without a current table and executing commands leaves the rows of the run |
| `LoudnessRuns.RunAgrees` | src/loudness_db.rs:529-837 | Refinement: over every run no command fails, every key belongs to a location of the run, and every identity holds what was last written for it |
| `LoudnessRuns.GetReturnsLastWritten` | src/loudness_db.rs:635-654 | After every run a look-up returns what was last written and never an error, so never an identity mismatch |
| `LoudnessRuns.FreshUnlessScanned` | src/loudness_db.rs:687-745 | A scan is needed unless the last-written record is by this scanner, local, and its file looks now as it did then |
| `LoudnessStore.ScanExactly` | src/loudness_db.rs:687-745 | On any table no scan is needed exactly while this scanner's row of a local source bears the stamp that its file has now |
| `LoudnessStore.LoudnessDatabase.GetFresh` | src/loudness_db.rs:661-670 | The record only while no scan is needed |
| `LoudnessRuns.GetFreshReturnsFresh` | src/loudness_db.rs:661-670 | After every run a fresh look-up returns what was last written exactly while no scan is needed, and never an error |
| `LoudnessRuns.RowsSound` | src/loudness_db.rs:570-592 | In every reachable state rows meet the constraints, decode to the identity of their key, and the key is valid in its namespace |
| `LoudnessRuns.ListedNeedScan` | src/loudness_db.rs:687-768 | In every reachable state the listing succeeds, is as long as the outdated count, and every entry needs a scan whatever the files look like |
| `LoudnessRuns.ListedExactly` | src/loudness_db.rs:747-768 | After every run an identity is listed exactly when something was written for it and that was by another scanner version or the identity is remote |
| `LoudnessRuns.ListedNeverFresh` | src/loudness_db.rs:687-768 | After every run the listed identities are exactly the stored ones that need a scan whatever the files look like |
| `LoudnessRuns.BatchIsUpserts` | src/loudness_db.rs:771-800 | A batch that succeeds leaves the rows that upserting its records one by one leaves |
| `LoudnessRuns.WriteBackReadable` | src/loudness_db.rs:609-654 | Writing back the record just read keeps its row readable exactly when the source is remote or the digests of the stored and the native locator agree; otherwise the row no longer decodes, for look-ups and listings alike |
| `LoudnessRuns.WriteBackExample` | src/loudness_db.rs:609-654 | Concrete table whose only row reads back until the record just read is written back |
| `LoudnessGain.LoudnessRecord.GainLinear` | src/loudness_db.rs:393-403 | The answer is the gain for the target unless a false cache entry for that target is hit, and a true cache stays true |
| `LoudnessGain.GainsOf` | src/loudness_db.rs:393-403 | Over any run of requests every answer is the gain for its own target |
| `LoudnessGain.GainAfterReassignment` | src/loudness_db.rs:393-403 | After the loudness is reassigned the answer is right exactly when the target was not cached or its gain did not change |
| `LoudnessGain.StaleGain` | src/loudness_db.rs:393-403 | Concrete record, target and new loudness whose second answer is stale |
| `OrderStatistics.SortSamples` | benches/resampler_comparison_support/latency.rs:168-169 | Ascending order and the same samples |
| `OrderStatistics.SortedIsRanked` | benches/resampler_comparison_support/latency.rs:170 | Position k - 1 of the sorted samples is the least sample that at least k samples do not exceed |
| `OrderStatistics.RankedPermutes` | benches/resampler_comparison_support/latency.rs:161-187 | Order statistics do not depend on the order of the samples |
| `OrderStatistics.RankInRange` | benches/resampler_comparison_support/latency.rs:170 | The nearest rank of a percentile is always a position of the samples |
| `OrderStatistics.RankIsLeast` | benches/resampler_comparison_support/latency.rs:170 | The nearest rank is the least position, counted from one, that reaches the percentile's share of the samples |
| `Latency.SummarizeCallbackSamples` | benches/support/mod.rs:620-651 | Fails exactly on no samples or the first non-positive one; otherwise summarizes |
| `Latency.SummarizeCalls` | benches/resampler_comparison_support/latency.rs:161-187 | Succeeds exactly on non-empty non-negative durations, zeros included, and then summarizes the raw samples |
| `Latency.SummaryIsUnique` | benches/resampler_comparison_support/latency.rs:161-187 | The description by ranks determines the whole distribution |
| `Latency.SummaryPermutes` | benches/resampler_comparison_support/latency.rs:161-187 | Reordering the samples changes no statistic |
| `Latency.SummaryAscends` | benches/resampler_comparison_support/latency.rs:177-186 | Minimum, median, the three percentiles and maximum are in order |
| `LatencyRecords.DrainAdapter` | benches/resampler_comparison_support/mod.rs:1434-1451 | Draining ends with the adapter or at the call bound, with a saturating count |
| `LatencyRecords.DrainedExact` | benches/resampler_comparison_support/mod.rs:1434-1451 | The frames drained are all that the drains produced, as far as a machine word holds them; the last drain finished, or none did and no call was left |
| `LatencyRecords.AboveCounts` | benches/resampler_comparison_support/latency.rs:106 | Every duration either exceeds the limit or is at most the limit |
| `LatencyRecords.ShareExact` | benches/resampler_comparison_support/latency.rs:98-105 | The published share times the buffer duration is a hundred times the 99th percentile |
| `LatencyRecords.ShareWithoutDuration` | benches/resampler_comparison_support/latency.rs:98-105 | Without a rate or a chunk the share is no number, nothing or without end |
| `LatencyRecords.Measure` | benches/resampler_comparison_support/latency.rs:35-113 | Succeeds exactly when the run is measurable; then counters, totals, distribution and utilization, also for an empty chunk or a zero rate, are those of the calls made, the last of which marks the end |
| `LatencyRecords.Validate` | benches/resampler_comparison_support/latency.rs:115-159 | Accepts exactly the records whose statistics are those of their own samples and whose work adds up |
| `LatencyRecords.WorkAdmittedExactly` | benches/resampler_comparison_support/latency.rs:126-143 | The work is admitted exactly when every timed call consumed 512 frames and the warm-up 32 times as many, record and drain say so, and the output of all calls is the one expected and fits a machine word |
| `LatencyRecords.MeasuredIsAccepted` | benches/resampler_comparison_support/latency.rs:35-159 | A measured record is accepted exactly when it claims to be valid, was fed the standard chunk, and its frames fit a machine word |
| `LatencyRecords.AcceptedAddsUp` | benches/resampler_comparison_support/latency.rs:115-159 | In an accepted record frames fed are the standard chunk times all calls, and expected output frames are exactly those that came out |

## Left out

- GaussJordan.Solve: beyond three columns the exact condition for acceptance is the elimination of the matrix; a closed form by minors is given for two and three columns only.
- Gapless.NearestReference: requires that its slices fit, where the source panics; `LastSliceDecides` and `WholeFramesFit` say when that is.
- HalfBand.HalfbandLowpassKernel: requires the length that the source asserts, where the source panics.
- LatencyRecords.Measure: requires at least one channel, where the source panics; running totals are unbounded.
- Floating point: rounding, NaN, infinities (but for the utilization quotient) and the finiteness checks are not modelled; compensated sums are exact here, and no error bound is claimed.
- Square roots that only scale a result are left out: amplitudes, RMS levels and RMS errors appear squared, and decibels do not appear.
- Bit patterns of samples: the hash works on 64-bit words; how a float becomes a word is not modelled.
- Error texts are datatype values without their wording; paths and indices inside the messages are kept only where a caller could use them.
- The compensated sum is a value and not a class, because the source copies it inside arrays.
- Measuring a trial is a function of engine and trial, so a measurement that depends on earlier calls of other engines is not modelled.
- Summarising trial samples is any function with a result or an error; the statistics proved for call latency are not tied to it.
- The latency pass attached to a case is carried as an opaque value by the trial validator.
- Rendering: buffer allocation limits and machine-word overflow of positions are not modelled; the analysis window has its machine words and wraps as an optimised build does.
- Time bases of seek offsets are taken as 32-bit fractions.
- SQL text, SQLite, locking, poisoned locks, the file system, vacuuming and index order: rows are a map, listing order is arbitrary, and constraint checks see only the table created here.
- A row of a kept table whose columns suffice but whose constraints differ is not modelled, nor is a column that stores NaN as null.
- Equality of paths is equality of their units; redundant separators that the platform ignores are not identified.
- Freshness is judged in one step; a file or row that changes between the check and the read is not modelled.
- URL parsing is a function from a URL to its origin and a test for origins; redaction of secrets is not stated.
- The path encoding of platforms that are neither unix nor windows is lossy and only its decoding is modelled.
- Digest injectivity is a hypothesis on the locations a run speaks of, never on all inputs.
- The library sort is modelled by insertion; only its result matters here. The two zeros of floating point are one, also as divisors.
- Timers, thread pinning, reports, JSON, command lines, thresholds and case tables are input and output or finite data.
- Wav.ReadWavFormat: its own contract does not say which fields are read or which error is returned; `FormatMeans` and `FormatReading` do, for every chunk.
