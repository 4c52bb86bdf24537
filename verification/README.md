# Fixed-point speech codecs of AetherVoice

This project models the three fixed-point speech codecs the application carries in source
form, and proves what they rest on: that an encoder, which embeds a copy of its decoder,
and the decoder at the other end never drift apart, that what the decoder rebuilds is the
signal to within stated errors, that arithmetic in 16 and 32 bits does not lose what the
algorithms need, and that the bit formats are exact.

- **GSM 06.10** (`Gsm*.dfy`, `Gsm0610.dfy`): preprocessing, LPC analysis, lattice filters,
  long term prediction, regular pulse excitation, three frame formats, and the codec object.
- **G.722** (`G722*.dfy`): quantisers, adaptive predictors, mirror filters, packed streams.
- **BroadVoice16** (`Bv16*.dfy`): ITU-T basic operators, gain and excitation coding, level
  estimation, prediction filters, line spectrum stabilisation, both bit formats.

`FixedPoint.dfy` and `Bits.dfy` hold the arithmetic and the bit strings they share. `dafny
verify dfyconfig.toml` verifies everything.

## Reading the model

Each loop or in-place update of the source is a method over arrays or fields, proved equal
to a function on values; the theorems are about those functions. Runs are sequences, the
newest element last. Products are written `Mul`, repeated addition, so that a proof that
does not need their value does not see it. Integer widths are subset types, and every
conversion to 16 bits in the source is an explicit `Wrap16`; that one is exact where the
source relies on it is a lemma.

The helpers `saturate`, `saturate15`, `saturated_add16` and their kin and `top_bit` are
declared in headers that are not part of this model; they have their usual saturating and
bit-index meaning. State structures are taken from their uses: `dp0` has 280 words, `v`
nine, `u` eight. Only the portable branches are modelled.

## Findings

- The question "? overflow ?" at gsm0610_lpc.c:451 has the answer no, for every frame and
  lag (`GsmLpc.FrameAcfNormalises`).
- Rescaling after the autocorrelation turns every sample from 32760 up into -32768 when
  scaling by 4 bits was needed, and is within 8 otherwise: an exact condition
  (`GsmLpc.RescaledError`).
- The synthesis lattice retraces the analysis lattice stage by stage if and only if no stage
  saturates (`GsmShortTerm.LatticeInverse`). The sample alone comes back somewhat more often:
  if and only if no stage saturates, or a residual before the first that does lies at the
  opposite end of the range and absorbs the error (`GsmShortTerm.SampleComesBack`, with
  `GsmShortTerm.SaturationCanBeAbsorbed` for an input of that kind and
  `GsmShortTerm.SaturationLosesInput` for one that is lost).
- The encoder and the decoder of BroadVoice16 negate codevectors differently. They agree
  if and only if no negated entry is -32768, and scaling by `mult_r` never produces one.
- The error the excitation search of BroadVoice16 measures from its two responses is the
  noise the memory update then leaves, up to rounding (`Bv16Superposition.ErrorIsNoise`), so
  the search does minimise it (`Bv16Superposition.WinnerHasLeastNoise`).
- The mirror filters of G.722 do not reconstruct exactly, but to within 46 units of full
  scale input, 22 samples later (`G722Mirror.MirrorDelay`).
- The decoder of the 76 byte GSM format does not mask its bytes. It can use a block if and
  only if the bytes of `bc`, `Mc`, `xmaxc` and `xMc` are below 4, 4, 64 and 8
  (`GsmPacking.PlainUnitDecodesIff`); a `bc` of 4 indexes past `gsm_QLB`
  (`GsmPacking.PlainCanFail`). Lags and log area ratios may be any byte, the encoder's own
  blocks always qualify, and the two packed formats accept every block.
- `gsm0610_encode`, `gsm0610_decode` and `g722_encode` read whole units whatever length they
  are told, and so past the end of an input that is not whole units, and of no other
  (`GsmCodec.ReadsInside`, `G722Objects.ReadsInside`). The methods take the length as the
  source does, and demand only that what is read exists.

## Model

| member | source | states |
|---|---|---|
| GsmCodec.StreamLockstep | AetherVoice/jni/spandsp/gsm0610_encode.c:312-340 | whole-run lockstep through any of the three formats: the encoder's bytes are whole units that meet what the decoder demands, the frames read back from them are its own, and they leave the decoder with the encoder's residual history, log area ratio buffers and buffer index |
| GsmCodec.RunLockstep | AetherVoice/jni/spandsp/gsm0610_decode.c:79-102 | over every run of frames from states in step, every parameter fits its field and the states stay in step |
| GsmCodec.FrameLockstep | AetherVoice/jni/spandsp/gsm0610_encode.c:71-106 | one frame: every parameter fits, all four lags are in 40..120, and the decoder rebuilds the encoder's state |
| GsmCodec.SubsLockstep | AetherVoice/jni/spandsp/gsm0610_long_term.c:352-434 | the sliding 280 word buffer and the shifting 120 word window agree after each sub-segment of a frame |
| GsmCodec.SubLockstep | AetherVoice/jni/spandsp/gsm0610_long_term.c:398-434 | one sub-segment: the lag received is valid, so the fallback to the last valid lag is not taken, and the histories agree |
| GsmCodec.SubTracksSignal | AetherVoice/jni/spandsp/gsm0610_long_term.c:375-394 | the 40 samples that enter the history miss the signal by at most what the excitation quantiser misses its prediction error by, wherever that fits 16 bits |
| GsmCodec.DeemphasisTracks | AetherVoice/jni/spandsp/gsm0610_decode.c:59-76 | over any run in which no pre-emphasis saturates, the memory of the de-emphasis stays within seven of the compensated sample |
| GsmCodec.OutputFollowsInput | AetherVoice/jni/spandsp/gsm0610_preprocess.c:73-149 | from reset, the output sample is twice the compensated input sample to within 21, unless that is clipped |
| GsmCodec.ShortTermRoundTrip | AetherVoice/jni/spandsp/gsm0610_short_term.c:301-361 | over runs of frames with their four-segment schedule of coefficients the synthesis filter gives back the analysed signal bit for bit and the memories stay equal, if no stage saturates |
| GsmCodec.RunScheduleStable | AetherVoice/jni/spandsp/gsm0610_short_term.c:159-204 | no coefficient of any segment of any run is -1.0 |
| GsmCodec.AnalysedConcat | AetherVoice/jni/spandsp/gsm0610_short_term.c:208-254 | filtering segment by segment is filtering the joined segments with the joined schedule |
| GsmCodec.CarriesUnique | AetherVoice/jni/spandsp/gsm0610_decode.c:314-352 | a stream of units determines the frames it carries |
| GsmCodec.CarriesFits | AetherVoice/jni/spandsp/gsm0610_decode.c:314-352 | every parameter read from a stream of either bit format fits its field |
| GsmCodec.CarriedDecode | AetherVoice/jni/spandsp/gsm0610_decode.c:322-328 | a stream gives frames the decoder can use if and only if, in the plain format, its index bytes are in range; a carrying stream is whole units |
| GsmCodec.ReadsInside | AetherVoice/jni/spandsp/gsm0610_encode.c:318-337 | encoder and decoder stay inside an input of len elements if and only if len is a whole number of units: 160 or 320 samples, 76, 65 or 33 bytes |
| FixedPoint.LoopEndWhole | AetherVoice/jni/spandsp/gsm0610_encode.c:318-337 | the loop that only asks for i < len ends a whole number of steps on, and at len itself if and only if they fit |
| GsmCodec.LarsOfFrameFit | AetherVoice/jni/spandsp/gsm0610_lpc.c:550-585 | the eight coded log area ratios fit 6, 6, 5, 5, 4, 4, 3 and 3 bits |
| Gsm0610.State.constructor | AetherVoice/jni/spandsp/gsm0610_encode.c:116-129 | a new state is at reset, and in step with itself as decoder |
| Gsm0610.State.EncodeAFrame | AetherVoice/jni/spandsp/gsm0610_encode.c:71-106 | in place, the frame and the new state are those of the frame function; arrays of the decoder side are untouched |
| Gsm0610.State.EncodeSubsInPlace | AetherVoice/jni/spandsp/gsm0610_encode.c:84-105 | the loop over the sliding buffer followed by the copy of its last 120 words is four sub-segment steps |
| Gsm0610.State.EncodeSubInPlace | AetherVoice/jni/spandsp/gsm0610_long_term.c:375-394 | prediction, quantisation and reconstruction written over the aliased dp and dpp give the next history |
| Gsm0610.State.DecodeAFrame | AetherVoice/jni/spandsp/gsm0610_decode.c:79-102 | in place, the samples and the new state are those of the frame function, for any lag and any log area ratio |
| Gsm0610.State.DecodeSubInPlace | AetherVoice/jni/spandsp/gsm0610_decode.c:90-98 | one sub-segment: history shifted, last valid lag kept, forty residual samples written |
| Gsm0610.State.Postprocessing | AetherVoice/jni/spandsp/gsm0610_decode.c:59-76 | de-emphasis, doubling and truncation over any length, carrying msr |
| Gsm0610.State.ShortTermAnalysisFilter | AetherVoice/jni/spandsp/gsm0610_short_term.c:301-329 | the four in-place segments filter the frame with its schedule and toggle the buffers |
| Gsm0610.State.ShortTermSynthesisFilter | AetherVoice/jni/spandsp/gsm0610_short_term.c:332-361 | the same for synthesis |
| Gsm0610.State.Encode | AetherVoice/jni/spandsp/gsm0610_encode.c:312-340 | for any len, the bytes carry exactly the frames of the run over the samples read, in all three formats |
| Gsm0610.State.Decode | AetherVoice/jni/spandsp/gsm0610_decode.c:314-352 | for any len, the samples are those of the run over the frames the bytes read carry |
| GsmPreprocess.MeanStaysInRange | AetherVoice/jni/spandsp/gsm0610_preprocess.c:73-149 | from reset, whatever the input, the removed mean stays within the input range |
| GsmPreprocess.PreStepExact | AetherVoice/jni/spandsp/gsm0610_preprocess.c:73-149 | hence no saturation and no 16 bit conversion of the offset compensation ever changes a value |
| GsmPreprocess.Compensated | AetherVoice/jni/spandsp/gsm0610_preprocess.c:73-149 | the compensated sample is the downscaled one less a running mean that stays inside the range of the input |
| GsmPreprocess.Preprocess | AetherVoice/jni/spandsp/gsm0610_preprocess.c:73-149 | the loop computes the run function over any input |
| GsmArith.LAddSaturates | AetherVoice/jni/spandsp/gsm0610_local.h:63-95 | the sum in unsigned halves is the saturating sum for all pairs |
| GsmArith.MultRIsRound15 | AetherVoice/jni/spandsp/gsm0610_local.h:123-133 | the rounded product fits 16 bits except for -1.0 times -1.0 |
| GsmArith.NormShifts | AetherVoice/jni/spandsp/gsm0610_lpc.c:76-89 | shifting a positive number by its norm puts it between 2^30 and 2^31 |
| GsmLpc.GsmDiv | AetherVoice/jni/spandsp/gsm0610_lpc.c:100-134 | the bit by bit division is min(32767, floor(num * 2^15 / denom)) |
| GsmLpc.ScaledIsRounded | AetherVoice/jni/spandsp/gsm0610_lpc.c:277-330 | the scaling multiplication is division by 2^scalauto, rounded to nearest |
| GsmLpc.ScaledBound | AetherVoice/jni/spandsp/gsm0610_lpc.c:277-330 | scaled samples stay within 2048 |
| GsmLpc.AcfBounds | AetherVoice/jni/spandsp/gsm0610_lpc.c:277-412 | every correlation is at most the energy in magnitude, over any prefix, and the energy of a scaled frame stays inside 30 bits |
| GsmLpc.AcfSums | AetherVoice/jni/spandsp/gsm0610_lpc.c:277-412 | the unrolled sums are the correlations, none leaving 32 bits on the way |
| GsmLpc.Autocorrelation | AetherVoice/jni/spandsp/gsm0610_lpc.c:277-422 | the sums are doubled and the samples scaled and rescaled in place |
| GsmLpc.FrameAcfNormalises | AetherVoice/jni/spandsp/gsm0610_lpc.c:436-454 | the shift that normalises the energy overflows for no lag: the answer to the question in the source at line 451 |
| GsmLpc.RescaledError | AetherVoice/jni/spandsp/gsm0610_lpc.c:413-421 | rescaling is within 8 of the sample if and only if the scaling is less than 4 or the sample below 32760; otherwise the sample becomes -32768 |
| GsmLpc.ReflectionGain | AetherVoice/jni/spandsp/gsm0610_lpc.c:466-500 | the product that updates P[0] takes off at most P[0] and adds nothing |
| GsmLpc.EnergiesFall | AetherVoice/jni/spandsp/gsm0610_lpc.c:456-500 | from state to state of the recursion P[0] stays non-negative and never increases |
| GsmLpc.FrameEnergies | AetherVoice/jni/spandsp/gsm0610_lpc.c:426-503 | the same for every frame, starting from at least 2^14 |
| GsmLpc.ReflectionsAt | AetherVoice/jni/spandsp/gsm0610_lpc.c:464-503 | coefficient i is that of state i of the recursion while no state has had P[0] below the magnitude of P[1], and zero from the first such state on |
| GsmLpc.FrameReflectionsAt | AetherVoice/jni/spandsp/gsm0610_lpc.c:426-503 | the same for the eight coefficients of every frame, all zero for a silent one |
| GsmLpc.ReflectionMeans | AetherVoice/jni/spandsp/gsm0610_lpc.c:477-483 | a coefficient is min(32767, floor(|P[1]| * 2^15 / P[0])) with the sign opposite to P[1], never -32768, and its division meets the precondition of gsm_div |
| GsmLpc.ReflectionCoefficients | AetherVoice/jni/spandsp/gsm0610_lpc.c:426-503 | the in-place recursion gives the coefficients of the recursive specification; every division meets its precondition |
| GsmLevinson.RunHoldsErrors | AetherVoice/jni/spandsp/gsm0610_lpc.c:456-503 | without rounding, P and K of the recursion hold the correlations of the prediction error with later and earlier samples, for any coefficients |
| GsmLevinson.NormalEquations | AetherVoice/jni/spandsp/gsm0610_lpc.c:456-503 | with the quotients -P[1] / P[0] as coefficients, the predictor stepped up from them solves the normal equations of every order up to 8 |
| GsmLevinson.StepIsRounded | AetherVoice/jni/spandsp/gsm0610_lpc.c:488-500 | a step of the fixed-point recursion is that step, each cell rounded to nearest, where its sum fits |
| GsmLpc.LarQuantisation | AetherVoice/jni/spandsp/gsm0610_short_term.c:59-89 | coding and decoding any log area ratio gives it back to within half a step, at the end codes from the inner side only |
| GsmLpc.RatioUndone | AetherVoice/jni/spandsp/gsm0610_short_term.c:159-204 | from a reflection coefficient to its log area ratio and back changes it by at most one |
| GsmLpc.CoefficientQuantisation | AetherVoice/jni/spandsp/gsm0610_lpc.c:507-585 | from coefficient to code to coefficient: at most a step and three off, but for the end codes |
| GsmLpc.TransformToLogAreaRatios | AetherVoice/jni/spandsp/gsm0610_lpc.c:507-546 | in place, each coefficient becomes its log area ratio, never overflowing |
| GsmLpc.QuantizationAndCoding | AetherVoice/jni/spandsp/gsm0610_lpc.c:550-585 | in place, each ratio becomes its code |
| GsmLpc.AnalysedLarsFit | AetherVoice/jni/spandsp/gsm0610_lpc.c:550-585 | each coded ratio of each frame fits its bits |
| GsmLpc.LpcAnalysis | AetherVoice/jni/spandsp/gsm0610_lpc.c:588-598 | frame in, eight coded ratios out |
| GsmShortTerm.LatticeInverse | AetherVoice/jni/spandsp/gsm0610_short_term.c:208-298 | every intermediate value of the analysis lattice comes back in the synthesis lattice if and only if no stage saturated |
| GsmShortTerm.SampleRestored | AetherVoice/jni/spandsp/gsm0610_short_term.c:208-298 | one sample: input and memories come back |
| GsmShortTerm.PerfectReconstruction | AetherVoice/jni/spandsp/gsm0610_short_term.c:208-298 | the same over runs of any length and any schedule of coefficients |
| GsmShortTerm.SampleComesBack | AetherVoice/jni/spandsp/gsm0610_short_term.c:208-298 | for all eight stages: the sample comes back if and only if no stage saturates or, below the first that does, some residual is at the end of the range away from which it saturates |
| GsmShortTerm.SaturationCanBeAbsorbed | AetherVoice/jni/spandsp/gsm0610_short_term.c:208-298 | stage 3 saturates, the residual before stage 0 absorbs it, and the sample and all memories come back |
| GsmShortTerm.SaturationLosesInput | AetherVoice/jni/spandsp/gsm0610_short_term.c:208-298 | saturation at the first stage always loses the sample; a full scale input with coefficient 0.5 and memory 100 does not come back |
| GsmShortTerm.SegmentRpStable | AetherVoice/jni/spandsp/gsm0610_short_term.c:159-204 | no interpolated ratio gives -32768, so the special cases of the synthesis loop are unreachable |
| GsmShortTerm.DecodeLogAreaRatios | AetherVoice/jni/spandsp/gsm0610_short_term.c:59-89 | in place decoding of the eight ratios |
| GsmShortTerm.InterpolationMeans | AetherVoice/jni/spandsp/gsm0610_short_term.c:106-155 | the four segments move from the previous ratio to the current one in quarters, each rounded down by at most two |
| GsmShortTerm.Coefficients | AetherVoice/jni/spandsp/gsm0610_short_term.c:106-155 | the four interpolation loops |
| GsmShortTerm.LarpToRp | AetherVoice/jni/spandsp/gsm0610_short_term.c:159-204 | in place conversion to reflection coefficients |
| GsmShortTerm.AnalyseSample | AetherVoice/jni/spandsp/gsm0610_short_term.c:208-254 | one pass over the in-place memory is one simultaneous step |
| GsmShortTerm.SynthesiseSample | AetherVoice/jni/spandsp/gsm0610_short_term.c:257-298 | one descending pass over the in-place memory is one simultaneous step |
| GsmShortTerm.ShortTermAnalysisFiltering | AetherVoice/jni/spandsp/gsm0610_short_term.c:208-254 | filtering a stretch of the frame in place |
| GsmShortTerm.ShortTermSynthesisFiltering | AetherVoice/jni/spandsp/gsm0610_short_term.c:257-298 | the same for synthesis |
| GsmLongTerm.SearchFindsBest | AetherVoice/jni/spandsp/gsm0610_long_term.c:70-236 | the lag found is the smallest with the greatest positive correlation, 40 if none is positive |
| GsmLongTerm.BestLagUnique | AetherVoice/jni/spandsp/gsm0610_long_term.c:70-236 | that description determines lag and maximum |
| GsmLongTerm.ScaledSegBits | AetherVoice/jni/spandsp/gsm0610_long_term.c:270-303 | after scaling every sample is in -512..511 |
| GsmLongTerm.CrossBound | AetherVoice/jni/spandsp/gsm0610_long_term.c:70-236 | no partial correlation leaves 32 bits |
| GsmLongTerm.LtpFits | AetherVoice/jni/spandsp/gsm0610_long_term.c:299-330 | maximum, rescaled maximum and power stay inside 32 bits |
| GsmLongTerm.CodedGainShifts | AetherVoice/jni/spandsp/gsm0610_long_term.c:331-346 | the normalising shift of the maximum cannot overflow |
| GsmLongTerm.GainIsPlaced | AetherVoice/jni/spandsp/gsm0610_long_term.c:331-346 | the gain code places the ratio of correlation to power between the decision levels, to within two units of Q15 above and one part in 2^14 below |
| GsmLongTerm.GainCorrelation | AetherVoice/jni/spandsp/gsm0610_long_term.c:299-330 | the correlation the gain is coded from is the unscaled one, whatever the scaling, up to the magnitudes it was scaled by |
| GsmLongTerm.PowerIsScaled | AetherVoice/jni/spandsp/gsm0610_long_term.c:299-330 | and the power that of the history, up to the bits its division by eight drops |
| GsmLongTerm.ResidualRestores | AetherVoice/jni/spandsp/gsm0610_long_term.c:363-370 | adding the prediction to the residual gives the signal if and only if the difference did not saturate |
| GsmLongTerm.ReconstructionError | AetherVoice/jni/spandsp/gsm0610_long_term.c:418-428 | from any residual the reconstruction misses the signal by no more than it misses the residual |
| GsmLongTerm.PeriodicPredicted | AetherVoice/jni/spandsp/gsm0610_long_term.c:363-370 | a signal that repeats the history lag samples back is predicted to within one |
| GsmLongTerm.MaxCrossCorr | AetherVoice/jni/spandsp/gsm0610_long_term.c:70-236 | the search loop |
| GsmLongTerm.EvaluateLtpParameters | AetherVoice/jni/spandsp/gsm0610_long_term.c:253-348 | lag in 40..120 and gain code in 0..3 for every signal and history |
| GsmLongTerm.LongTermAnalysisFiltering | AetherVoice/jni/spandsp/gsm0610_long_term.c:352-371 | prediction written over the aliased buffer while the history below it is read |
| GsmLongTerm.LongTermSynthesisFiltering | AetherVoice/jni/spandsp/gsm0610_long_term.c:398-434 | reconstruction, then the shift of the window |
| GsmRpe.WeightingFilter | AetherVoice/jni/spandsp/gsm0610_rpe.c:61-232 | the accumulating macros compute the weighted sums |
| GsmRpe.WeightingIsEven | AetherVoice/jni/spandsp/gsm0610_rpe.c:61-232 | the weighting filter has no phase: reversed input gives reversed output |
| GsmRpe.WeightingOfConstant | AetherVoice/jni/spandsp/gsm0610_rpe.c:61-232 | it amplifies a constant by 22766 / 8192, rounded to nearest |
| GsmRpe.GridOfIsBest | AetherVoice/jni/spandsp/gsm0610_rpe.c:236-344 | the grid chosen is the first of greatest energy |
| GsmRpe.RpeGridSelection | AetherVoice/jni/spandsp/gsm0610_rpe.c:236-344 | the shared partial sums give that grid and its pulses |
| GsmRpe.PeakCodeBounds | AetherVoice/jni/spandsp/gsm0610_rpe.c:387-430 | the coded maximum is in 0..63 and the block lies below its next step |
| GsmRpe.XmaxcToExpMant | AetherVoice/jni/spandsp/gsm0610_rpe.c:348-384 | the normalising loop ends with exponent in -4..6 and mantissa in 0..7 |
| GsmRpe.ShiftExact | AetherVoice/jni/spandsp/gsm0610_rpe.c:431-478 | the 16 bit shift up to the quantiser loses no bits |
| GsmRpe.SampleError | AetherVoice/jni/spandsp/gsm0610_rpe.c:387-523 | the code is in 0..7 and the rebuilt sample within half a step, (9 + mant) * 2^(exp + 2), and one unit |
| GsmRpe.BlockError | AetherVoice/jni/spandsp/gsm0610_rpe.c:387-523 | the same for every pulse of every block: a tighter bound than one full step |
| GsmRpe.ApcmQuantization | AetherVoice/jni/spandsp/gsm0610_rpe.c:387-478 | the method computes that quantisation |
| GsmRpe.ApcmInverseQuantization | AetherVoice/jni/spandsp/gsm0610_rpe.c:482-523 | and its inverse |
| GsmRpe.RpeGridPositioning | AetherVoice/jni/spandsp/gsm0610_rpe.c:527-560 | the jump into the loop writes pulses on the grid and zeros elsewhere |
| GsmRpe.PositionedBack | AetherVoice/jni/spandsp/gsm0610_rpe.c:527-560 | pulses go back to the grid they were taken from |
| GsmRpe.ExcitationError | AetherVoice/jni/spandsp/gsm0610_rpe.c:563-598 | the excitation rebuilt for a residual is, on its grid, the weighted residual to within half a step |
| GsmRpe.RpeEncoding | AetherVoice/jni/spandsp/gsm0610_rpe.c:563-582 | the encoder replaces its residual by exactly what the decoder rebuilds |
| GsmRpe.RpeDecoding | AetherVoice/jni/spandsp/gsm0610_rpe.c:585-598 | the decoder rebuilds it from the parameters |
| GsmPacking.PackWav49 | AetherVoice/jni/spandsp/gsm0610_encode.c:170-262 | 65 bytes are the 152 fields, lowest bit first |
| GsmPacking.UnpackWav49 | AetherVoice/jni/spandsp/gsm0610_decode.c:127-266 | the fields read are the 65 bytes, lowest bit first, and fit |
| GsmPacking.Wav49Bijective | AetherVoice/jni/spandsp/gsm0610_decode.c:127-266 | blocks are equal if and only if their pairs of frames are: with the two contracts, a bijection |
| GsmPacking.Wav49Writer.Put | AetherVoice/jni/spandsp/gsm0610_encode.c:170-262 | a field entering a register from the top appends to the bit string |
| GsmPacking.Wav49Reader.Take | AetherVoice/jni/spandsp/gsm0610_decode.c:127-266 | a field leaving a register at the bottom continues the bit string |
| GsmPacking.PackVoip | AetherVoice/jni/spandsp/gsm0610_encode.c:265-309 | 33 bytes are magic nibble and 76 fields, highest bit first |
| GsmPacking.UnpackVoip | AetherVoice/jni/spandsp/gsm0610_decode.c:269-311 | nibble and fields read are the 33 bytes |
| GsmPacking.VoipBijective | AetherVoice/jni/spandsp/gsm0610_decode.c:269-311 | blocks are equal if and only if nibble and frame are |
| GsmPacking.PackPlain | AetherVoice/jni/spandsp/gsm0610_encode.c:147-167 | the low byte of each parameter of any frame, in order |
| GsmPacking.PlainKeeps | AetherVoice/jni/spandsp/gsm0610_encode.c:147-167 | those bytes are the parameters themselves if and only if each is in 0..255 |
| GsmPacking.UnpackPlain | AetherVoice/jni/spandsp/gsm0610_decode.c:105-124 | the bytes as parameters, unmasked |
| GsmPacking.PlainBijective | AetherVoice/jni/spandsp/gsm0610_decode.c:105-124 | blocks are equal if and only if frames are |
| GsmPacking.PlainUnitDecodesIff | AetherVoice/jni/spandsp/gsm0610_decode.c:105-124 | unmasked, a block gives parameters within what the tables and assertions of the decoder admit if and only if its index bytes are in range |
| GsmPacking.PlainCanFail | AetherVoice/jni/spandsp/gsm0610_long_term.c:418-419 | a block of zeros but for a 4 gives a gain index past the four entries of gsm_QLB |
| G722Objects.CodecLockstep | AetherVoice/jni/spandsp/g722.c:478-635 | for every input, rate and mode, encoder and decoder bands end equal over the whole run |
| G722Objects.PackedCodecLockstep | AetherVoice/jni/spandsp/g722.c:617-632 | packed streams: the decoder holds a prefix of the codes, at most two are on the way, and its bands are the encoder's at that point |
| G722Objects.EncoderRunConcat | AetherVoice/jni/spandsp/g722.c:506-634 | any split of the input into calls gives the same codes and state |
| G722Objects.DecoderRunConcat | AetherVoice/jni/spandsp/g722.c:313-434 | the same for the decoder |
| G722Objects.RingsLimited | AetherVoice/jni/spandsp/g722.c:523-530 | the rings only ever hold limited samples |
| G722Objects.SynthesisExact | AetherVoice/jni/spandsp/g722.c:425-431 | bands limited to 15 bits make sums, differences and doublings fit 16 bits |
| G722Mirror.MirrorDelay | AetherVoice/jni/spandsp/g722.c:425-431 | from reset and for every input, with the bands passed on unchanged, transmit and receive filter give back the limited input 22 samples later to within 46 |
| G722Mirror.ConstantPair | AetherVoice/jni/spandsp/g722.c:425-431 | with rings full of a constant pair the pair comes out to within three |
| G722Objects.LowFollows | AetherVoice/jni/spandsp/g722.c:332-357 | at 6, 7 and 8 bits the decoded low band sample misses the one encoded by at most the distance of the outer levels of the cells that share its code, and one, but for the last cells |
| G722Objects.HighFollows | AetherVoice/jni/spandsp/g722.c:585-596 | the decoded high band sample misses the one encoded by at most the decision level, for differences below it |
| G722Objects.QuantiseLow | AetherVoice/jni/spandsp/g722.c:542-552 | the search loop |
| G722Objects.Encoder.EncodePass | AetherVoice/jni/spandsp/g722.c:538-613 | one pass over the band objects is one step; the code fits its bits |
| G722Objects.Encoder.Put | AetherVoice/jni/spandsp/g722.c:615-626 | a code enters the bit buffer and at most one byte leaves, nothing lost |
| G722Objects.Encoder.Encode | AetherVoice/jni/spandsp/g722.c:478-635 | for any len, data and state of a call are those of the run over the samples read, in every mode |
| G722Objects.ReadsInside | AetherVoice/jni/spandsp/g722.c:506-530 | the encoder stays inside len samples if and only if it takes them one by one or they are whole pairs |
| G722Objects.Decoder.Get | AetherVoice/jni/spandsp/g722.c:313-325 | a code leaves the bit buffer; the measure 8 * (len - j) + in_bits falls by the code width |
| G722Objects.Decoder.DecodePass | AetherVoice/jni/spandsp/g722.c:332-432 | one pass over the band objects and rings is one step |
| G722Objects.Decoder.Decode | AetherVoice/jni/spandsp/g722.c:297-436 | samples and state of a call are those of the run, and the loop ends |
| G722Objects.Core.Push | AetherVoice/jni/spandsp/g722.c:423-428 | writing at the ring pointer is pushing onto the window |
| G722Codec.RunLockstep | AetherVoice/jni/spandsp/g722.c:332-407 | equal bands over every run at 6, 7 and 8 bits, codes in range, state invariant kept |
| G722Codec.RunEmbedding | AetherVoice/jni/spandsp/g722.c:332-352 | dropping the one or two low bits of every code of a stream leaves the same bands |
| G722Codec.StepLockstep | AetherVoice/jni/spandsp/g722.c:538-613 | one step of both |
| G722Codec.StepEmbedding | AetherVoice/jni/spandsp/g722.c:332-352 | one code |
| G722Codec.BandLockstep | AetherVoice/jni/spandsp/g722.c:554-575 | limiting before or after the 16 bit conversion adapts a band alike |
| G722Codec.AdvanceKeeps | AetherVoice/jni/spandsp/g722.c:363-407 | after a step the low band has det in 32..16384 and nb in 0..18432, the high band det in 8..16384 and nb in 0..22528, and stable poles |
| G722Codec.PackedPrefix | AetherVoice/jni/spandsp/g722.c:313-330 | from the two bit buffers alone: the codes read are a prefix of those written and bits are conserved |
| G722Codec.PackedLockstep | AetherVoice/jni/spandsp/g722.c:617-632 | bands after the codes that arrived are the encoder's after as many |
| G722Band.Block4Exact | AetherVoice/jni/spandsp/g722.c:185-255 | every step lands in the stability triangle, and from it no 16 bit conversion truncates |
| G722Band.NextZeroExact | AetherVoice/jni/spandsp/g722.c:234-250 | zero coefficients adapt without saturation or truncation |
| G722Band.SecondPoleFollows | AetherVoice/jni/spandsp/g722.c:199-215 | the second pole coefficient moves with the agreement of the partial signals two apart, against four times the first, on top of its leakage |
| G722Band.ZeroFollows | AetherVoice/jni/spandsp/g722.c:234-250 | each zero coefficient moves so that the prediction from the same delays follows the difference |
| G722Band.PredictsLinearly | AetherVoice/jni/spandsp/g722.c:185-255 | the prediction is the linear one from the last two reconstructed samples and the last six differences, to within eight units if nothing is clipped |
| G722Band.BandObject.UpdateZeros | AetherVoice/jni/spandsp/g722.c:236-250 | the descending in-place pass is the simultaneous update of coefficients, delays and sum |
| G722Band.BandObject.Update | AetherVoice/jni/spandsp/g722.c:185-255 | block4 in place is the band step |
| G722Quant.CellIsUnique | AetherVoice/jni/spandsp/g722.c:542-552 | the search picks the one cell that holds the difference |
| G722Quant.InverseInCell | AetherVoice/jni/spandsp/g722.c:94-152 | the six bit inverse value lies in that cell up to one unit |
| G722Quant.QuantisationError | AetherVoice/jni/spandsp/g722.c:94-152 | and is off by at most the width of the cell and one, with the sign of the difference |
| G722Codec.LowQuantisation | AetherVoice/jni/spandsp/g722.c:332-352 | the same at 6, 7 and 8 bits: between the outer levels of the cells that share a code, with the sign of the difference |
| G722Quant.HighQuantisation | AetherVoice/jni/spandsp/g722.c:586-592 | the high band value has the sign of the difference and lies on its side of the decision level; a difference below the level is missed by at most the level |
| G722Quant.LowAdaptationRises | AetherVoice/jni/spandsp/g722.c:556-568 | larger differences adapt the low band scale factor up by more, whatever their sign; the innermost cells adapt it down |
| G722Quant.HighAdaptation | AetherVoice/jni/spandsp/g722.c:588-605 | differences from the decision level on adapt the high band up, smaller ones down |
| G722Quant.QuantLow | AetherVoice/jni/spandsp/g722.c:542-552 | the index is at least 4: the reserved codewords are not sent |
| G722Quant.LevelsRise | AetherVoice/jni/spandsp/g722.c:114-124 | decision levels do not decrease |
| G722Quant.NbAgree | AetherVoice/jni/spandsp/g722.c:561-566 | the encoder's 16 bit sum never truncates, so both adaptations agree |
| G722Quant.ScaleBounds | AetherVoice/jni/spandsp/g722.c:373-377 | scale factors stay in range and the 16 bit conversion is exact |
| G722Quant.ScaleDoubles | AetherVoice/jni/spandsp/g722.c:570-574 | the scale factor doubles with every 2048 of its logarithm, up to the bits shifted out |
| G722Qmf.AnalysisExact | AetherVoice/jni/spandsp/g722.c:521-540 | the transmit filter fits 32 bits and truncates neither band |
| G722Qmf.CircularDotProduct | AetherVoice/jni/spandsp/vector_int.c:263-270 | two straight products over the ring are the product of the window |
| G722Qmf.DotProduct | AetherVoice/jni/spandsp/vector_int.c:52-260 | the loop, inside 32 bits |
| Bv16Codec.RunLockstep | AetherVoice/jni/bx16_fixedp/bv16/decoder.c:113-146 | gain memory, levels, synthesis memories and output signal equal over whole runs of frames |
| Bv16Codec.FrameLockstep | AetherVoice/jni/bx16_fixedp/bv16/encoder.c:162-186 | one frame |
| Bv16Codec.EncoderState.QuantiseFrame | AetherVoice/jni/bx16_fixedp/bv16/encoder.c:161-186 | in place from the gain on: what is sent, gain memory, levels and the five excitation memories are those of the frame function |
| Bv16Codec.DecoderState.SynthesiseFrame | AetherVoice/jni/bx16_fixedp/bv16/decoder.c:86-146 | in place up to the postfilter: signal, gain memory, levels and synthesis memories are those of the frame function |
| Bv16Codec.ScaleExcitation | AetherVoice/jni/bx16_fixedp/bv16/encoder.c:169-178 | gain mantissa, exponent and the scaled codebook |
| Bv16Codec.ExcitationScaleIs | AetherVoice/jni/bx16_fixedp/bv16/encoder.c:169-174 | the excitation gain is two thirds of the linear gain, normalised, to within rounding |
| Bv16Codec.ResetInStep | AetherVoice/jni/bx16_fixedp/bv16/decoder.c:40-66 | encoder and decoder start in step |
| Bv16Codec.SynthesisAgrees | AetherVoice/jni/bx16_fixedp/bv16/excdec.c:35-130 | with equal gain the synthesis reproduces the memories of the quantiser |
| Bv16ExcQuan.QuantiserLockstep | AetherVoice/jni/bx16_fixedp/bv16/excquan.c:310-402 | synthesis from the chosen indices gives the quantiser's memories, and both excitations are equal if and only if no negated entry is -32768 |
| Bv16ExcQuan.FrameIsSynthesis | AetherVoice/jni/bx16_fixedp/bv16/excquan.c:234-308 | noise feedback coding leaves the memories of plain synthesis |
| Bv16ExcQuan.VectorIsSynthesis | AetherVoice/jni/bx16_fixedp/bv16/excquan.c:112-134 | predicting four samples ahead is predicting sample by sample |
| Bv16ExcQuan.BestOfIsBest | AetherVoice/jni/bx16_fixedp/bv16/excquan.c:189-232 | the search finds the first candidate of least energy |
| Bv16ExcQuan.BestIsUnique | AetherVoice/jni/bx16_fixedp/bv16/excquan.c:189-232 | which that determines |
| Bv16Superposition.ErrorIsNoise | AetherVoice/jni/bx16_fixedp/bv16/excquan.c:136-232 | the error the search measures for a candidate is, scaled, the noise that choosing it leaves in the memory: every sample, every filter, every exponent, up to rounding bounded by the gain of the filters, if nothing saturates |
| Bv16Superposition.CandidateSuperposed | AetherVoice/jni/bx16_fixedp/bv16/excquan.c:48-183 | after each sample the memories are those of the zero-input response plus the scaled zero-state response |
| Bv16Superposition.WinnerHasLeastNoise | AetherVoice/jni/bx16_fixedp/bv16/excquan.c:189-232 | so no candidate leaves noise of a root energy lower than the one chosen by more than four times that rounding |
| Bv16Superposition.FlatIsExact | AetherVoice/jni/bx16_fixedp/bv16/excquan.c:136-232 | with filters without memory a few bits of headroom are enough for nothing to saturate |
| Bv16Superposition.ErrorIsShapedNoise | AetherVoice/jni/bx16_fixedp/bv16/excquan.c:234-308 | the coding error of a sample is the noise shaped by the short-term filter, which is the long-term noise and its own feedback, to within one |
| Bv16ExcQuan.SearchCodebook | AetherVoice/jni/bx16_fixedp/bv16/excquan.c:189-232 | the loop |
| Bv16ExcQuan.ZeroInputResponse | AetherVoice/jni/bx16_fixedp/bv16/excquan.c:136-183 | the response to zero excitation, leaving the memories of the frame as they were |
| Bv16ExcQuan.ZeroStateResponses | AetherVoice/jni/bx16_fixedp/bv16/excquan.c:48-107 | the sixteen responses from empty memories |
| Bv16ExcQuan.PitchVectors | AetherVoice/jni/bx16_fixedp/bv16/excquan.c:112-134 | the predictions of a vector |
| Bv16ExcQuan.Buffers.UpdateMem | AetherVoice/jni/bx16_fixedp/bv16/excquan.c:234-308 | the five memories after a vector |
| Bv16ExcQuan.Buffers.QuantiseVector | AetherVoice/jni/bx16_fixedp/bv16/excquan.c:362-394 | one vector: index and memories |
| Bv16ExcQuan.ExcQuan | AetherVoice/jni/bx16_fixedp/bv16/excquan.c:310-402 | a frame in place: indices and all five memories |
| Bv16Excitation.ExcDecWSynth | AetherVoice/jni/bx16_fixedp/bv16/excdec.c:35-130 | a frame at the decoder in place: long buffer, short memory, signal and energy |
| Bv16Excitation.ExcitationLockstep | AetherVoice/jni/bx16_fixedp/bv16/excdec.c:35-130 | equal memories over runs, whatever the indices, gains and filters |
| Bv16Analysis.AzFilter | AetherVoice/jni/bx16_fixedp/bvcommon/allzero.c:31-57 | the loops of the all-zero filter, over any stretch |
| Bv16Analysis.ShortTermUndone | AetherVoice/jni/bx16_fixedp/bv16/excdec.c:110-118 | short-term synthesis excited by the residual of azfilter gives back the sample or the next value, if nothing saturates |
| Bv16Analysis.PitchResidualEnergy | AetherVoice/jni/bx16_fixedp/bv16/ptquan.c:126-139 | the loop over the pitch prediction residual |
| Bv16Analysis.LongTermUndone | AetherVoice/jni/bx16_fixedp/bv16/excdec.c:98-109 | long-term synthesis excited by that residual gives back the sample or the next value, if nothing saturates |
| Bv16Excitation.ExcitationAgrees | AetherVoice/jni/bx16_fixedp/bv16/excdec.c:66-80 | the wrapped product with the sign and the saturating negation agree if and only if no negated entry is -32768 |
| Bv16Excitation.ScaledNegatable | AetherVoice/jni/bx16_fixedp/bv16/encoder.c:176-178 | which a codebook scaled by mult_r never holds |
| Bv16Gain.GainRunLockstep | AetherVoice/jni/bx16_fixedp/bv16/gaindec.c:36-104 | over every run of residual energies the decoder's gain memory, levels and gains are the encoder's |
| Bv16Gain.GainLockstep | AetherVoice/jni/bx16_fixedp/bv16/gainquan.c:37-125 | one frame, with the invariant on lgpm and prevlg |
| Bv16Gain.NeverSuspicious | AetherVoice/jni/bx16_fixedp/bv16/gaindec.c:83-97 | the index the encoder settles on never takes the decoder's limit branch |
| Bv16Gain.WithinLimit | AetherVoice/jni/bx16_fixedp/bv16/gainquan.c:100-105 | the two tests differ by less than one unit of Q9, no sum saturating |
| Bv16Gain.SteppedDownStops | AetherVoice/jni/bx16_fixedp/bv16/gainquan.c:100-105 | the decrementing loop stops at the highest entry within the limit, or at the lowest |
| Bv16Gain.DecodedBounds | AetherVoice/jni/bx16_fixedp/bv16/gainquan.c:63-82 | log-gains stay in range and their sums exact |
| Bv16Gain.CodebookOrdered | AetherVoice/jni/bx16_fixedp/bv16/gainquan.c:69-78 | the search order is ascending |
| Bv16Gain.Nearest | AetherVoice/jni/bx16_fixedp/bv16/gainquan.c:69-78 | the first nearest entry |
| Bv16GainLaw.NearestIsClosest | AetherVoice/jni/bx16_fixedp/bv16/gainquan.c:63-82 | the entry found decodes to a log-gain as near to the wanted one as any entry, up to the rounding of the prediction error |
| Bv16GainLaw.BinHolds | AetherVoice/jni/bx16_fixedp/bv16/gainquan.c:84-97 | each bin of the limit table holds the log-gain differences of two octaves from its lower end on, the outer bins also those beyond |
| Bv16GainLaw.GainIsRoot | AetherVoice/jni/bx16_fixedp/bv16/gainquan.c:37-62 | the linear gain of the log-gain of an energy is its square root: the square is within five per cent, through both tables, for every energy |
| Bv16Gain.GainState.GainQuan | AetherVoice/jni/bx16_fixedp/bv16/gainquan.c:37-125 | the method computes index, state and gain |
| Bv16Gain.GainState.GainDec | AetherVoice/jni/bx16_fixedp/bv16/gaindec.c:36-104 | the decoder's method, error branch included |
| Bv16Gain.LevelState.Estimate | AetherVoice/jni/bx16_fixedp/bv16/levelest.c:32-116 | the level estimation in place |
| Bv16GainLaw.LevelsAreLeaky | AetherVoice/jni/bx16_fixedp/bv16/levelest.c:32-116 | each level moves from its old value towards its target by its weight: extremes towards the mean, the mean towards their midpoint, the level towards the log-gain through two stages; the threshold is a fifth of the way from mean to maximum |
| Bv16Gain.ResetInStep | AetherVoice/jni/bx16_fixedp/bv16/decoder.c:40-60 | both reset states are in step |
| Bv16Gain.MantissaIndex | AetherVoice/jni/bx16_fixedp/bvcommon/mathutil.c:71-101 | the logarithm reads its table inside its bounds |
| Bv16Gain.FractionIndex | AetherVoice/jni/bx16_fixedp/bvcommon/mathutil.c:41-60 | and so does the power |
| Bv16Oper32.Div32Accuracy | AetherVoice/jni/bx16_fixedp/itug729ilib/oper_32b.c:187-217 | the result is at most 112 units below and four above num * 2^31 / denom: within the claim of 24 bits |
| Bv16Oper32.ReciprocalBounds | AetherVoice/jni/bx16_fixedp/itug729ilib/oper_32b.c:187-217 | the Newton step for the reciprocal |
| Bv16Oper32.Mpy32Value | AetherVoice/jni/bx16_fixedp/itug729ilib/oper_32b.c:102-111 | the product undershoots the exact one by less than six |
| Bv16Oper32.Mpy3216Value | AetherVoice/jni/bx16_fixedp/itug729ilib/oper_32b.c:133-141 | the short product drops exactly the remainder of one truncation |
| Bv16Oper32.ExtractValue | AetherVoice/jni/bx16_fixedp/itug729ilib/oper_32b.c:46-80 | composing what was extracted only clears the low bit |
| Bv16Basop.DivSLoop | AetherVoice/jni/bx16_fixedp/itug191lib/basop32.c:2133-2192 | the division loop is the floor of the scaled quotient, or 32767 for equal operands |
| Bv16Basop.LShlLoop | AetherVoice/jni/bx16_fixedp/itug191lib/basop32.c:1461-1503 | the saturating shift loop |
| Bv16Basop.DoubledIsShift | AetherVoice/jni/bx16_fixedp/itug191lib/basop32.c:1461-1503 | saturating at every doubling is saturating the whole shift |
| Bv16Basop.NormLLoop | AetherVoice/jni/bx16_fixedp/itug191lib/basop32.c:2227-2258 | the normalising loop |
| Bv16Basop.NormLNormalises | AetherVoice/jni/bx16_fixedp/itug191lib/basop32.c:2227-2258 | a positive number shifted by its norm lies in 2^30..2^31 - 1 |
| Bv16Basop.MultRoundNeverMin | AetherVoice/jni/bx16_fixedp/itug191lib/basop32.c:1405-1425 | a rounded product is never -32768 |
| Bv16Lsp.StabiliseLsp | AetherVoice/jni/bx16_fixedp/bvcommon/stblzlsp.c:32-81 | in place, sorting then spacing |
| Bv16Lsp.StabilisedProper | AetherVoice/jni/bx16_fixedp/bvcommon/stblzlsp.c:32-81 | the result has first at least 49, gaps at least 410 and last at most 32694; input is unchanged if and only if it has; the function is idempotent |
| Bv16Lsp.OrderLsp | AetherVoice/jni/bx16_fixedp/bvcommon/stblzlsp.c:45-57 | the do loop ends and sorts |
| Bv16Lsp.ExchangePass | AetherVoice/jni/bx16_fixedp/bvcommon/stblzlsp.c:46-56 | each exchanging pass has fewer inversions, a permutation |
| Bv16Lsp.InversionRemoved | AetherVoice/jni/bx16_fixedp/bvcommon/stblzlsp.c:50-54 | an exchange removes exactly one inversion |
| Bv16Lsp.OrderUnique | AetherVoice/jni/bx16_fixedp/bvcommon/stblzlsp.c:45-57 | the sorted permutation is unique |
| Bv16Lsp.CheckStable | AetherVoice/jni/bx16_fixedp/bvcommon/stblzlsp.c:83-98 | the flag is exactly non-negative first and no reversal |
| Bv16Packing.BitPack | AetherVoice/jni/bx16_fixedp/bv16/bitpack.c:66-139 | ten bytes are the fifteen indices, highest bit first |
| Bv16Packing.BitUnPack | AetherVoice/jni/bx16_fixedp/bv16/bitpack.c:175-215 | the indices read are the ten bytes |
| Bv16Packing.PackingBijective | AetherVoice/jni/bx16_fixedp/bv16/bitpack.c:66-215 | blocks are equal if and only if frames are |
| Bv16Packing.PackedBitsAreG192 | AetherVoice/jni/bx16_fixedp/bv16/g192.c:80-101 | the packed bytes, bit by bit, are exactly the 80 bits of the G.192 frame |
| Bv16Packing.Int2Bin | AetherVoice/jni/bx16_fixedp/bv16/g192.c:65-78 | bits written from the last back |
| Bv16Packing.Bin2Int | AetherVoice/jni/bx16_fixedp/bv16/g192.c:51-63 | the value of bits |
| Bv16Packing.WriteG192 | AetherVoice/jni/bx16_fixedp/bv16/g192.c:80-101 | sync word, length and the 80 bits, each as one of the two bit words |
| Bv16Packing.ReadG192 | AetherVoice/jni/bx16_fixedp/bv16/g192.c:104-130 | bad frame flag and the frame the bits stand for |
| Bv16Packing.G192RoundTrip | AetherVoice/jni/bx16_fixedp/bv16/g192.c:51-130 | a frame read from the bits of another is that frame |

## Left out

- MMX and x86 assembly branches, and the JNI, socket and library code: foreign code or plumbing.
- The SILK codec: the macros, tables and helpers it rests on are not part of this model.
- Spectral quantisation of BroadVoice16: encoder and decoder round the stability candidate
  differently (lspquan.c:245-249 against lspdec.c:74-88), so no lockstep is claimed and the
  coefficients are a shared input.
- Pitch search, postfilter, packet loss concealment, preprocessing and coefficient
  conversion of BroadVoice16: heuristic choices, outside the state the lockstep is about.
- The update of `per`, `atplc` and the erasure counters of the BroadVoice16 decoder: read by
  concealment only; frames are taken as received without erasures.
- Reading and writing files in g192.c: the bit arrays are modelled, on whole records.
- The Overflow flag, the WMOPS counters and the carry operators: read by nothing modelled.
- Options of g722_encode_init and g722_decode_init as integers: a rate is 6, 7 or 8 bits and
  the options are flags.
- The stop bands of the mirror filters, and perceptual quality: not exact claims.
- The codebook search of pitchtapquan: only its residual loop is modelled.
- Bv16ExcQuan.ZeroStateResponses: the short local buffers of one codevector are sequences that grow by one element, not arrays.
