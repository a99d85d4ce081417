# spikify encoders in Dafny

spikify turns sampled signals into spike trains for spiking neural networks.
This project models its twelve encoders and proves properties of them:

- **Rate coding.** `poisson_rate` draws an exponential inter-spike gap for every block of samples.
- **Temporal contrast.** `step_forward`, `zero_cross_step_forward`, `moving_window` and `threshold_based_representation` compare each sample with a base, a threshold or a trailing mean.
- **Deconvolution.** `ben_spiker`, `bens_spiker`, `hough_spiker` and `modified_hough_spiker` greedily subtract a boxcar kernel from a residual copy of the signal.
- **Global reference.** `phase_encoding` and `time_to_first_spike` quantise the normalised rate of each block, into a phase level or a first-spike position.
- **Latency.** `burst_encoding` gives each block a burst whose size and spacing follow its rate.

Samples are `real`s and spike trains are `seq<int>`. Each encoder's exceptions are values of an
`Error` datatype inside a `Result`, one constructor per cause. The code has
three shapes:

- **Pure array expressions** become functions with contracts. These are zero-cross, the threshold-based representation, the phase and time-to-first-spike encoders, and the block-rate reduction they share with burst and Poisson coding.
- **Loops over a spike array** become methods. This covers step-forward, moving window, the loop of each deconvolution scan, and the block loops of burst and Poisson coding. Each method works on `array`/`array2` state and is proved equal to a specification function.
- **The deconvolution scans** share one model. `Deconvolution.Scan` is the residual and spike state after `t` positions. Its invariant is `Deconvolution.ResidualIsInputMinusCover`: the residual is the input minus the kernels already subtracted over each sample.

Modules, one per file:

- `Common` holds the errors, sums and means, `np.ceil`, `np.searchsorted`, `np.linspace`, bits, counts and the row flattening.
- `BlockRate` holds the clip, block mean and normalise reduction.
- `Deconvolution` holds the shared scan.
- Every other file holds one encoder.

Transcendental functions and randomness are parameters:

- `arcsin` and pi/2 go with their facts (`ArcsinFacts`).
- `ln` goes with `LnFacts` or `LnIncreasing`.
- A square root goes with `IsSqrt`.
- `draw(i)` is the uniform draw of block `i`.

## Model

| member | source | states |
|---|---|---|
| Common.Max0 | spikify/encoding/temporal/deconvolution/modified_hough_spiker_algorithm.py:48 | np.maximum(x, 0): non-negative, at least x, and equal to x or to 0 |
| Common.Sum | spikify/encoding/temporal/global_referenced/phase_encoding_algorithm.py:25 | a sum of non-negative terms is non-negative |
| Common.Mean | spikify/encoding/temporal/global_referenced/phase_encoding_algorithm.py:25 | a mean of non-negative samples is non-negative |
| Common.SumMonotone | spikify/encoding/temporal/contrast/moving_window_algorithm.py:26 | a pointwise larger sequence has a larger sum |
| Common.MeanBounds | spikify/encoding/temporal/contrast/moving_window_algorithm.py:26 | a mean lies between any lower and upper bound of its samples |
| Common.Linspace | spikify/encoding/temporal/global_referenced/phase_encoding_algorithm.py:36 | num points starting at lo with the constant step (hi - lo) / (num - 1) |
| Common.Ceil | spikify/encoding/temporal/latency/burst_encoding_algorithm.py:40-41 | np.ceil cast to int is the least integer not below x |
| Common.SearchSorted | spikify/encoding/temporal/global_referenced/phase_encoding_algorithm.py:37 | left-side insertion index: every edge before it is below v, the edge at it is at least v |
| Common.SearchSortedUnique | spikify/encoding/temporal/global_referenced/phase_encoding_algorithm.py:37 | those two conditions determine the index |
| Common.SearchSortedMonotone | spikify/encoding/temporal/global_referenced/time_to_spike_algorithm.py:43 | a larger query never gets an earlier index |
| Common.LinspaceBounds | spikify/encoding/temporal/global_referenced/phase_encoding_algorithm.py:36 | every linspace point lies in [lo, hi] |
| Common.LinspaceLast | spikify/encoding/temporal/global_referenced/phase_encoding_algorithm.py:36 | linspace ends exactly at hi |
| Common.LinspaceBelowLast | spikify/encoding/temporal/global_referenced/phase_encoding_algorithm.py:36 | every point before the last lies strictly below hi |
| Common.Classify | spikify/encoding/temporal/contrast/step_forward_algorithm.py:22-27 | +1 iff above base + threshold, -1 iff not above and below base - threshold, 0 iff inside the band |
| Common.ConcatLength | spikify/encoding/temporal/global_referenced/time_to_spike_algorithm.py:50 | flattening rows of length L gives rows * L entries |
| Common.ConcatBlock | spikify/encoding/temporal/global_referenced/time_to_spike_algorithm.py:50 | row i of the flattened array is the slice [i*L, i*L + L) |
| Common.ConcatZeros | spikify/encoding/rate/poisson_rate_algorithm.py:95 | zero rows flatten to zeros |
| Common.ConcatPrepend | spikify/encoding/temporal/global_referenced/time_to_spike_algorithm.py:50 | flattening a leading row in front of others puts its entries first |
| BlockRate.ClipNegative | spikify/encoding/temporal/global_referenced/phase_encoding_algorithm.py:22 | same length, non-negative, keeps non-negative samples, zero exactly at the non-positive ones |
| BlockRate.Chunks | spikify/encoding/temporal/global_referenced/phase_encoding_algorithm.py:25 | reshape(-1, L): nb rows of L samples that laid end to end give back the signal |
| BlockRate.Blocks | spikify/encoding/temporal/global_referenced/phase_encoding_algorithm.py:25 | reshape(-1, L) gives n / L rows of L samples |
| BlockRate.BlockMeans | spikify/encoding/temporal/global_referenced/phase_encoding_algorithm.py:22-25 | one non-negative mean per block |
| BlockRate.MeanZeroIff | spikify/encoding/temporal/global_referenced/phase_encoding_algorithm.py:22-25 | a block mean is 0 exactly when no sample of the block is positive |
| BlockRate.Silent | spikify/encoding/temporal/global_referenced/phase_encoding_algorithm.py:22-25 | a block is silent exactly when every clipped sample of it is 0 |
| BlockRate.MaxOf | spikify/encoding/temporal/global_referenced/phase_encoding_algorithm.py:28 | signal.max() bounds every entry and is attained |
| BlockRate.Rates | spikify/encoding/temporal/global_referenced/phase_encoding_algorithm.py:22-30 | one rate per block, each in [0, 1] |
| BlockRate.RateZeroIff | spikify/encoding/temporal/global_referenced/phase_encoding_algorithm.py:22-30 | a rate is 0 exactly when its block has no positive sample |
| BlockRate.RatesKeepOrder | spikify/encoding/temporal/global_referenced/phase_encoding_algorithm.py:28-30 | normalisation keeps the order of block means |
| BlockRate.RatesReachOne | spikify/encoding/temporal/global_referenced/phase_encoding_algorithm.py:28-30 | when some sample is positive, some block has rate exactly 1 |
| BlockRate.RatesSilent | spikify/encoding/temporal/global_referenced/phase_encoding_algorithm.py:22-30 | with no positive sample, every rate is 0 (the max-is-0 branch) |
| BlockRate.RatesConstant | spikify/encoding/temporal/global_referenced/time_to_spike_algorithm.py:27-35 | a positive constant signal has every rate 1 |
| PhaseEncodingAlgorithm.FromBits | spikify/encoding/temporal/global_referenced/phase_encoding_algorithm.py:43 | a binary sequence read big-endian is a number in [0, 2^len) |
| PhaseEncodingAlgorithm.Bits | spikify/encoding/temporal/global_referenced/phase_encoding_algorithm.py:43 | k big-endian bits, all binary |
| PhaseEncodingAlgorithm.BitsRoundTrip | spikify/encoding/temporal/global_referenced/phase_encoding_algorithm.py:43 | reading back k bits of a number below 2^k gives the number |
| PhaseEncodingAlgorithm.FromBitsRoundTrip | spikify/encoding/temporal/global_referenced/phase_encoding_algorithm.py:43 | a binary sequence's value is below 2^len, and writing it back gives the sequence |
| PhaseEncodingAlgorithm.LowBits | spikify/encoding/temporal/global_referenced/phase_encoding_algorithm.py:43 | the last k of m + k bits are the k low bits, the [:, -num_bits:] slice |
| PhaseEncodingAlgorithm.PhaseLevel | spikify/encoding/temporal/global_referenced/phase_encoding_algorithm.py:33-40 | the clipped level is below 2^k |
| PhaseEncodingAlgorithm.PhaseRow | spikify/encoding/temporal/global_referenced/phase_encoding_algorithm.py:43 | one binary row of min(k, 8) bits per block, after the uint8 cast |
| PhaseEncodingAlgorithm.PhaseRows | spikify/encoding/temporal/global_referenced/phase_encoding_algorithm.py:43 | row i is the row of rate i |
| PhaseEncodingAlgorithm.PhaseEncoding | spikify/encoding/temporal/global_referenced/phase_encoding_algorithm.py:18-45 | EmptySignal iff empty; NotMultiple iff the reshape fails; otherwise (n / k) * min(k, 8) binary spikes, n of them when k <= 8 |
| PhaseEncodingAlgorithm.WideLevelsShorten | spikify/encoding/temporal/global_referenced/phase_encoding_algorithm.py:43 | above 8 bits the output is shorter than the signal |
| PhaseEncodingAlgorithm.LevelAtZero | spikify/encoding/temporal/global_referenced/phase_encoding_algorithm.py:33-40 | rate 0 gets level 0 |
| PhaseEncodingAlgorithm.LevelAtOne | spikify/encoding/temporal/global_referenced/phase_encoding_algorithm.py:33-40 | rate 1 gets the top level 2^k - 1, thanks to the clip |
| PhaseEncodingAlgorithm.LevelMonotone | spikify/encoding/temporal/global_referenced/phase_encoding_algorithm.py:33-40 | a higher rate never gets a lower level |
| PhaseEncodingAlgorithm.RowIsLevelBits | spikify/encoding/temporal/global_referenced/phase_encoding_algorithm.py:43 | up to 8 bits a row is the k-bit form of the level and decodes back to it |
| PhaseEncodingAlgorithm.WideRow | spikify/encoding/temporal/global_referenced/phase_encoding_algorithm.py:43 | above 8 bits a row holds the level modulo 256 |
| PhaseEncodingAlgorithm.DecodeBlock | spikify/encoding/temporal/global_referenced/phase_encoding_algorithm.py:25-43 | block i of the output decodes to the phase level of block i's rate |
| PhaseEncodingAlgorithm.SilentBlockZeros | spikify/encoding/temporal/global_referenced/phase_encoding_algorithm.py:22-43 | a block with no positive sample encodes as k zeros |
| PhaseEncodingAlgorithm.PeakBlockOnes | spikify/encoding/temporal/global_referenced/phase_encoding_algorithm.py:28-43 | a block at rate 1 encodes as k ones |
| TimeToSpikeAlgorithm.Intensity | spikify/encoding/temporal/global_referenced/time_to_spike_algorithm.py:39 | 0.1 * ln(1 / rate): non-negative for a rate in (0, 1], zero at rate 1; the silent value 2 for rate 0, above every bin |
| TimeToSpikeAlgorithm.TtfsLevel | spikify/encoding/temporal/global_referenced/time_to_spike_algorithm.py:39-47 | the clipped level lies inside the interval |
| TimeToSpikeAlgorithm.OneHot | spikify/encoding/temporal/global_referenced/time_to_spike_algorithm.py:46-47 | a binary row with a 1 exactly at position j |
| TimeToSpikeAlgorithm.OneHotCount | spikify/encoding/temporal/global_referenced/time_to_spike_algorithm.py:46-47 | such a row holds exactly one spike |
| TimeToSpikeAlgorithm.TtfsRows | spikify/encoding/temporal/global_referenced/time_to_spike_algorithm.py:46-47 | row i is one-hot at the level of rate i |
| TimeToSpikeAlgorithm.TimeToFirstSpike | spikify/encoding/temporal/global_referenced/time_to_spike_algorithm.py:18-50 | EmptySignal iff empty; NotMultiple iff length is not a multiple; otherwise n binary spikes |
| TimeToSpikeAlgorithm.BlockSpike | spikify/encoding/temporal/global_referenced/time_to_spike_algorithm.py:39-50 | every block holds exactly one spike, at its rate's level |
| TimeToSpikeAlgorithm.LevelAtZero | spikify/encoding/temporal/global_referenced/time_to_spike_algorithm.py:39-47 | a silent block (intensity 2) spikes at the last position |
| TimeToSpikeAlgorithm.LevelAtOne | spikify/encoding/temporal/global_referenced/time_to_spike_algorithm.py:39-47 | the busiest block spikes at the first position |
| TimeToSpikeAlgorithm.LevelMonotone | spikify/encoding/temporal/global_referenced/time_to_spike_algorithm.py:39-47 | a higher rate never spikes later |
| TimeToSpikeAlgorithm.ZeroRows | tests/encoding/temporal/global_referenced/test_time_to_spike.py:68-76 | six zeros with interval 2 give three rows spiking at the last position |
| TimeToSpikeAlgorithm.ConstantRows | tests/encoding/temporal/global_referenced/test_time_to_spike.py:43-50 | a constant signal with interval 2 gives three rows spiking at the first position |
| TimeToSpikeAlgorithm.ZeroSignal | tests/encoding/temporal/global_referenced/test_time_to_spike.py:68-76 | six zeros with interval 2 give [0, 1, 0, 1, 0, 1] |
| TimeToSpikeAlgorithm.ConstantSignal | tests/encoding/temporal/global_referenced/test_time_to_spike.py:43-50 | a constant signal with interval 2 gives [1, 0, 1, 0, 1, 0] |
| BurstEncodingAlgorithm.SpikeNum | spikify/encoding/temporal/latency/burst_encoding_algorithm.py:40 | ceil(rate * n_max): 0..n_max spikes for a rate in [0, 1], none at rate 0, at least one for a positive rate |
| BurstEncodingAlgorithm.Isi | spikify/encoding/temporal/latency/burst_encoding_algorithm.py:41 | ceil(t_max - rate * (t_max - t_min)) lies in [t_min, t_max], or in [t_max, t_min] when t_min > t_max; t_max at rate 0 |
| BurstEncodingAlgorithm.Span | spikify/encoding/temporal/latency/burst_encoding_algorithm.py:40-44 | spike_num * (ISI + 1) is 0 at rate 0 and at most n_max * (t_max + 1) |
| BurstEncodingAlgorithm.RequiredLength | spikify/encoding/temporal/latency/burst_encoding_algorithm.py:44 | np.max of the block spans: bounds every span and is attained by some block |
| BurstEncodingAlgorithm.BurstRow | spikify/encoding/temporal/latency/burst_encoding_algorithm.py:53-54 | a binary row of L samples |
| BurstEncodingAlgorithm.BurstRowAt | spikify/encoding/temporal/latency/burst_encoding_algorithm.py:53-54 | a one at offset p exactly when p = k * (ISI + 1) for some k < spike_num |
| BurstEncodingAlgorithm.BurstRowCount | spikify/encoding/temporal/latency/burst_encoding_algorithm.py:53-54 | a burst that fits holds max(spike_num, 0) spikes |
| BurstEncodingAlgorithm.BurstRows | spikify/encoding/temporal/latency/burst_encoding_algorithm.py:39-54 | row i is the burst of rate i, with a non-negative ISI |
| BurstEncodingAlgorithm.BurstSpec | spikify/encoding/temporal/latency/burst_encoding_algorithm.py:20-57 | EmptySignal, NotMultiple and InsufficientLength each iff their condition (some block's span exceeds L); Ok iff every span fits; n binary spikes |
| BurstEncodingAlgorithm.FillBurst | spikify/encoding/temporal/latency/burst_encoding_algorithm.py:53-54 | writes row b as the burst and leaves every other row alone |
| BurstEncodingAlgorithm.FillBursts | spikify/encoding/temporal/latency/burst_encoding_algorithm.py:49-54 | every row of the zeroed array becomes its block's burst |
| BurstEncodingAlgorithm.EncodeBlocks | spikify/encoding/temporal/latency/burst_encoding_algorithm.py:40-57 | the flattened array equals the specified rows laid end to end |
| BurstEncodingAlgorithm.BurstEncoding | spikify/encoding/temporal/latency/burst_encoding_algorithm.py:20-57 | returns exactly BurstSpec, errors included |
| BurstEncodingAlgorithm.RowsBlock | spikify/encoding/temporal/latency/burst_encoding_algorithm.py:52-57 | the slice of row i is its burst and counts max(spike_num, 0) spikes |
| BurstEncodingAlgorithm.BurstValue | spikify/encoding/temporal/latency/burst_encoding_algorithm.py:49-57 | a successful encoding is the block bursts laid end to end |
| BurstEncodingAlgorithm.BurstBlock | spikify/encoding/temporal/latency/burst_encoding_algorithm.py:40-57 | block i of the output is its burst with exactly max(spike_num, 0) spikes |
| BurstEncodingAlgorithm.SilentBlockEmpty | spikify/encoding/temporal/latency/burst_encoding_algorithm.py:29-54 | a block with no positive sample gets no spike |
| BurstEncodingAlgorithm.PeakBlock | spikify/encoding/temporal/latency/burst_encoding_algorithm.py:35-54 | a block at rate 1 gets n_max spikes t_min + 1 apart |
| BurstEncodingAlgorithm.OneBlockBurst | tests/encoding/temporal/latency/test_burst_encoding.py:9-19 | one block of six, n_max 3, ISI 1..5 gives [1, 0, 1, 0, 1, 0] |
| BurstEncodingAlgorithm.ShortStream | tests/encoding/temporal/latency/test_burst_encoding.py:64-72 | [1, 1] with length 3 gives NotMultiple; with length 2, InsufficientLength |
| BurstEncodingAlgorithm.InvertedIsiRange | spikify/encoding/temporal/latency/burst_encoding_algorithm.py:41-54 | with t_min 5 above t_max 1 the ISI of a full-rate block is 5, so one spike (n_max 1) fits a block of six at its start |
| PoissonRateAlgorithm.Gap | spikify/encoding/rate/poisson_rate_algorithm.py:87-89 | -ln(1 - u) / (rate * L): positive for a draw in (0, 1), zero for a zero draw |
| PoissonRateAlgorithm.SpikeTime | spikify/encoding/rate/poisson_rate_algorithm.py:88-90 | the k-th cumulative time is 0 for k = 0 and positive for a positive gap and k >= 1 |
| PoissonRateAlgorithm.Written | spikify/encoding/rate/poisson_rate_algorithm.py:88-92 | a written position lies inside the row and needs at least one spike time |
| PoissonRateAlgorithm.Hit | spikify/encoding/rate/poisson_rate_algorithm.py:90 | searchsorted(bins, t) - 1 lies in [-1, L] |
| PoissonRateAlgorithm.Slot | spikify/encoding/rate/poisson_rate_algorithm.py:92 | a kept index, with -1 counted from the end, names a position of the row |
| PoissonRateAlgorithm.Marked | spikify/encoding/rate/poisson_rate_algorithm.py:90-92 | a binary row with a 1 exactly at the positions some kept time writes |
| PoissonRateAlgorithm.MarkedNone | spikify/encoding/rate/poisson_rate_algorithm.py:79 | before any write the row is zero |
| PoissonRateAlgorithm.MarkedStep | spikify/encoding/rate/poisson_rate_algorithm.py:91-92 | writing time k sets its slot when kept and changes nothing else |
| PoissonRateAlgorithm.PoissonRow | spikify/encoding/rate/poisson_rate_algorithm.py:85-92 | one binary row of L per block |
| PoissonRateAlgorithm.PoissonRows | spikify/encoding/rate/poisson_rate_algorithm.py:85-92 | row i uses rate i and draw i |
| PoissonRateAlgorithm.PoissonSpec | spikify/encoding/rate/poisson_rate_algorithm.py:57-96 | EmptySignal iff empty; NotMultiple iff length is not a multiple; otherwise n binary spikes |
| PoissonRateAlgorithm.FillPoisson | spikify/encoding/rate/poisson_rate_algorithm.py:90-92 | row b becomes the marked row and no other row changes |
| PoissonRateAlgorithm.FillBlocks | spikify/encoding/rate/poisson_rate_algorithm.py:79-92 | every row of the zeroed array becomes its block's row; blocks at rate 0 stay zero |
| PoissonRateAlgorithm.PoissonRate | spikify/encoding/rate/poisson_rate_algorithm.py:57-96 | returns exactly PoissonSpec, errors included |
| PoissonRateAlgorithm.BinEdge | spikify/encoding/rate/poisson_rate_algorithm.py:82 | edge j of linspace(0, 1, L + 1) is j / L |
| PoissonRateAlgorithm.PositiveBinIndex | spikify/encoding/rate/poisson_rate_algorithm.py:82-90 | for t > 0 the searchsorted index is min(ceil(t * L), L + 1) |
| PoissonRateAlgorithm.EdgeBelow | spikify/encoding/rate/poisson_rate_algorithm.py:82-90 | edge j lies below a positive time t exactly when j < ceil(t * L) |
| PoissonRateAlgorithm.BinIndex | spikify/encoding/rate/poisson_rate_algorithm.py:82-90 | searchsorted over the edges is 0 for t <= 0, else min(ceil(t * L), L + 1) |
| PoissonRateAlgorithm.KeptIff | spikify/encoding/rate/poisson_rate_algorithm.py:90-91 | a positive time passes the spike_times < L filter exactly when t <= 1 |
| PoissonRateAlgorithm.HitKept | spikify/encoding/rate/poisson_rate_algorithm.py:90-91 | spike time k + 1 is kept iff it is at most 1, and then writes bin ceil(t * L) - 1 |
| PoissonRateAlgorithm.MarkedBins | spikify/encoding/rate/poisson_rate_algorithm.py:87-92 | for a positive gap the marked positions are exactly the bins of the times k * gap (1 <= k <= L) that do not pass 1 |
| PoissonRateAlgorithm.RowBins | spikify/encoding/rate/poisson_rate_algorithm.py:86-92 | a positive-rate block spikes exactly at the bins of its kept spike times |
| PoissonRateAlgorithm.SpikesIffShortGap | spikify/encoding/rate/poisson_rate_algorithm.py:87-92 | a gap of at most 1 marks its own bin; a longer gap marks nothing |
| PoissonRateAlgorithm.ZeroDrawMarksLast | spikify/encoding/rate/poisson_rate_algorithm.py:88-92 | a zero draw gives index -1 throughout, so only the last position spikes |
| PoissonRateAlgorithm.PoissonBlock | spikify/encoding/rate/poisson_rate_algorithm.py:79-95 | block i of the output is the row of block i's rate and draw |
| PoissonRateAlgorithm.SilentBlockEmpty | spikify/encoding/rate/poisson_rate_algorithm.py:68-92 | a block with no positive sample gets no spike, whatever its draw |
| PoissonRateAlgorithm.SilentSignal | spikify/encoding/rate/poisson_rate_algorithm.py:68-95 | a signal with no positive sample encodes to all zeros |
| PoissonRateAlgorithm.ZeroSignal | tests/encoding/rate/test_poisson_rate.py:57-63 | [0, 0, 0, 0] with interval 4 gives four zeros |
| ThresholdBasedAlgorithm.Diffs | spikify/encoding/temporal/contrast/threshold_based_algorithm.py:57 | the n - 1 first differences |
| ThresholdBasedAlgorithm.Variation | spikify/encoding/temporal/contrast/threshold_based_algorithm.py:59 | n entries: position 0 repeats the second difference, position i is s[i] - s[i-1] |
| ThresholdBasedAlgorithm.SquaredDeviations | spikify/encoding/temporal/contrast/threshold_based_algorithm.py:58 | one non-negative squared deviation per entry |
| ThresholdBasedAlgorithm.PopulationStd | spikify/encoding/temporal/contrast/threshold_based_algorithm.py:58 | np.std is non-negative |
| ThresholdBasedAlgorithm.Threshold | spikify/encoding/temporal/contrast/threshold_based_algorithm.py:58 | with a non-negative factor the threshold is at least the mean variation |
| ThresholdBasedAlgorithm.Mark | spikify/encoding/temporal/contrast/threshold_based_algorithm.py:62-63 | a mark is -1, 0 or 1 |
| ThresholdBasedAlgorithm.MarkMeaning | spikify/encoding/temporal/contrast/threshold_based_algorithm.py:62-63 | -1 iff below -threshold, 1 iff above threshold and not below -threshold, 0 iff inside the band |
| ThresholdBasedAlgorithm.ThresholdBasedRepresentation | spikify/encoding/temporal/contrast/threshold_based_algorithm.py:51-65 | EmptySignal iff empty; IndexOutOfRange iff 1 or 2 samples (variation[1] missing); otherwise n ternary spikes |
| ThresholdBasedAlgorithm.SpikeRule | spikify/encoding/temporal/contrast/threshold_based_algorithm.py:62-63 | -1 iff below -threshold; +1 iff above threshold and not below -threshold (the later write wins) |
| ThresholdBasedAlgorithm.FirstRepeatsThird | spikify/encoding/temporal/contrast/threshold_based_algorithm.py:59-63 | the inserted copy makes output 0 equal output 2 |
| ThresholdBasedAlgorithm.ConstantSilent | spikify/encoding/temporal/contrast/threshold_based_algorithm.py:57-63 | a constant signal has zero threshold and no spike |
| ThresholdBasedAlgorithm.PeakStatistics | spikify/encoding/temporal/contrast/threshold_based_algorithm.py:57-59 | on the tests' peak the differences have mean 0 and std 1 |
| ThresholdBasedAlgorithm.PeakThreshold | spikify/encoding/temporal/contrast/threshold_based_algorithm.py:57-59 | on the tests' peak the threshold is the factor and the variation is four 1s then three -1s |
| ThresholdBasedAlgorithm.PeakMarks | spikify/encoding/temporal/contrast/threshold_based_algorithm.py:57-63 | for any factor, the tests' peak encodes as four Mark(1.0, factor) followed by three Mark(-1.0, factor) |
| ThresholdBasedAlgorithm.PeakExamples | tests/encoding/temporal/contrast/test_threshold_based.py:47-61 | factors 1 and 2 give all zeros; factor 0.1 gives [1, 1, 1, 1, -1, -1, -1] |
| ThresholdBasedAlgorithm.DocThreshold | spikify/encoding/temporal/contrast/threshold_based_algorithm.py:57-58 | on the documented signal (lines 35-36) with factor 0.5 the threshold lies in [0.1, 0.2), since the mean difference is 0.1 and sqrt(0.028) < 0.2 |
| ThresholdBasedAlgorithm.DocExample | spikify/encoding/temporal/contrast/threshold_based_algorithm.py:33-39 | the documented call returns [0, 1, 0, -1, 1, 0] for any square root |
| ZeroCrossStepForwardAlgorithm.ZeroCrossStepForward | spikify/encoding/temporal/contrast/zero_cross_step_forward_algorithm.py:18-29 | an error exactly for the empty signal, which is EmptySignal; otherwise n binary spikes |
| ZeroCrossStepForwardAlgorithm.SpikeIff | spikify/encoding/temporal/contrast/zero_cross_step_forward_algorithm.py:24-27 | a sample spikes iff its clipped value exceeds the threshold |
| ZeroCrossStepForwardAlgorithm.NonNegativeThreshold | spikify/encoding/temporal/contrast/zero_cross_step_forward_algorithm.py:24-27 | with threshold >= 0: spikes iff the sample exceeds it; non-positive samples never spike |
| ZeroCrossStepForwardAlgorithm.NegativeThreshold | spikify/encoding/temporal/contrast/zero_cross_step_forward_algorithm.py:24-27 | with a negative threshold every sample spikes |
| ZeroCrossStepForwardAlgorithm.Pointwise | spikify/encoding/temporal/contrast/zero_cross_step_forward_algorithm.py:24-27 | output i depends only on sample i |
| ZeroCrossStepForwardAlgorithm.Ramp | tests/encoding/temporal/contrast/test_zero_cross_step_forward.py:9-15 | 0..9 at threshold 5 spikes at the last four samples |
| ZeroCrossStepForwardAlgorithm.MixedSigns | tests/encoding/temporal/contrast/test_zero_cross_step_forward.py:40-46 | [-1, -2, -3, 4, 5, -6, 7] at threshold 5 spikes only at 7 |
| ZeroCrossStepForwardAlgorithm.ZeroThreshold | tests/encoding/temporal/contrast/test_zero_cross_step_forward.py:63-69 | threshold 0 spikes at the positive samples |
| MovingWindowAlgorithm.Baseline | spikify/encoding/temporal/contrast/moving_window_algorithm.py:26 | the trailing mean of a non-negative signal is non-negative |
| MovingWindowAlgorithm.BaselineBounds | spikify/encoding/temporal/contrast/moving_window_algorithm.py:26 | every baseline lies between any bounds of the samples |
| MovingWindowAlgorithm.MovingWindowSpikes | spikify/encoding/temporal/contrast/moving_window_algorithm.py:25-31 | for a window of at least 1: +1 iff above baseline + threshold, -1 iff not above and below baseline - threshold; for a window below 1 (an empty slice with a NaN mean) no spike |
| MovingWindowAlgorithm.MovingWindow | spikify/encoding/temporal/contrast/moving_window_algorithm.py:18-33 | EmptySignal for the empty signal; otherwise, for any window, the loop's array equals MovingWindowSpikes |
| MovingWindowAlgorithm.ConstantSilent | spikify/encoding/temporal/contrast/moving_window_algorithm.py:25-31 | a constant signal with a non-negative threshold gives no spike |
| MovingWindowAlgorithm.LongWindow | spikify/encoding/temporal/contrast/moving_window_algorithm.py:26 | a window at least the signal's length makes every baseline the whole mean |
| MovingWindowAlgorithm.TrailingWindowOnly | spikify/encoding/temporal/contrast/moving_window_algorithm.py:26-31 | past the first window, output t depends only on samples t - w .. t |
| StepForwardAlgorithm.Moved | spikify/encoding/temporal/contrast/step_forward_algorithm.py:24-27 | the base moves only on a spike |
| StepForwardAlgorithm.MovedDirection | spikify/encoding/temporal/contrast/step_forward_algorithm.py:24-27 | an up-spike raises the base, a down-spike lowers it, strictly for a positive threshold |
| StepForwardAlgorithm.MovedUndone | spikify/encoding/temporal/contrast/step_forward_algorithm.py:24-27 | an up-step followed by a down-step gives back the base |
| StepForwardAlgorithm.Run | spikify/encoding/temporal/contrast/step_forward_algorithm.py:20-27 | after t samples, t ternary spikes |
| StepForwardAlgorithm.StepForwardSpikes | spikify/encoding/temporal/contrast/step_forward_algorithm.py:17-29 | n ternary spikes |
| StepForwardAlgorithm.StepForward | spikify/encoding/temporal/contrast/step_forward_algorithm.py:17-29 | IndexOutOfRange on an empty signal (signal[0]); otherwise the loop's array equals the intended spikes |
| StepForwardAlgorithm.BaseSteps | spikify/encoding/temporal/contrast/step_forward_algorithm.py:20-27 | the base is the first sample plus (ups - downs) threshold steps |
| StepForwardAlgorithm.BaseInvariant | spikify/encoding/temporal/contrast/step_forward_algorithm.py:20-27 | base == signal[0] + threshold * (ups - downs) after every prefix |
| StepForwardAlgorithm.RunPrefix | spikify/encoding/temporal/contrast/step_forward_algorithm.py:21-27 | later samples never change spikes already emitted |
| StepForwardAlgorithm.FirstQuiet | spikify/encoding/temporal/contrast/step_forward_algorithm.py:20-23 | with a non-negative threshold the first sample never spikes |
| StepForwardAlgorithm.Ramp | tests/encoding/temporal/contrast/test_step_forward.py:9-15 | [0, 2, 4, 6, 4, 2, 0] at threshold 2 gives [0, 0, 1, 1, 0, 0, -1] |
| StepForwardAlgorithm.Alternating | tests/encoding/temporal/contrast/test_step_forward.py:48-54 | [0, 5, 0, -5, 0] at threshold 4 gives [0, 1, 0, -1, 0] |
| StepForwardAlgorithm.Boundary | tests/encoding/temporal/contrast/test_step_forward.py:71-77 | [10, 0, -10] at threshold 5 gives [0, -1, -1] |
| StepForwardAlgorithm.RunAsWritten | spikify/encoding/temporal/contrast/step_forward_algorithm.py:21-27 | the loop as written: when it succeeds after t samples it holds t spikes |
| StepForwardAlgorithm.StepForwardAsWritten | spikify/encoding/temporal/contrast/step_forward_algorithm.py:17-29 | IndexError iff empty; the intended train when no up-spike occurs; NameError as soon as one does |
| StepForwardAlgorithm.AsWrittenFailsOnRise | spikify/encoding/temporal/contrast/step_forward_algorithm.py:22-24 | the code as written agrees with the intended loop until the first up-spike and raises a NameError once there is one |
| StepForwardAlgorithm.RampAsWritten | spikify/encoding/temporal/contrast/step_forward_algorithm.py:24 | on the tests' ramp the code as written raises, while the intended loop gives the expected train |
| Deconvolution.Starts | spikify/encoding/temporal/deconvolution/ben_spiker_algorithm.py:34 | the number of visited positions is between 1 and n; a BSA or HSA window (the same range at hough_spiker_algorithm.py:68) never runs past the end; MHSA (modified_hough_spiker_algorithm.py:39) or a window of 1 visits all n |
| Deconvolution.KernelDistance | spikify/encoding/temporal/deconvolution/ben_spiker_algorithm.py:37 | error1 is non-negative |
| Deconvolution.Magnitude | spikify/encoding/temporal/deconvolution/ben_spiker_algorithm.py:38 | error2 is non-negative |
| Deconvolution.WindowSums | spikify/encoding/temporal/deconvolution/ben_spiker_algorithm.py:37-38 | error1 and error2 of a three-sample window, term by term |
| Deconvolution.GainBound | spikify/encoding/temporal/deconvolution/ben_spiker_algorithm.py:37-41 | error2 - error1 is at most the window length |
| Deconvolution.MatchCount | spikify/encoding/temporal/deconvolution/hough_spiker_algorithm.py:70 | match_count == window exactly when every residual sample reaches 1 |
| Deconvolution.Shortfall | spikify/encoding/temporal/deconvolution/modified_hough_spiker_algorithm.py:48 | the error is non-negative and zero exactly when the window dominates the kernel |
| Deconvolution.MatchesMeaning | spikify/encoding/temporal/deconvolution/hough_spiker_algorithm.py:70-73 | HSA matches iff match_count == window; a BSA threshold above the window never matches (ben_spiker_algorithm.py:37-41); a negative MHSA threshold never matches and a non-negative one matches every dominating window (modified_hough_spiker_algorithm.py:48-51) |
| Deconvolution.WindowEnd | spikify/encoding/temporal/deconvolution/modified_hough_spiker_algorithm.py:41 | end_index = min(t + w, n) for MHSA, t + w for BSA and HSA |
| Deconvolution.Lower | spikify/encoding/temporal/deconvolution/ben_spiker_algorithm.py:42 | subtracts 1 inside [lo, hi) and keeps every other sample |
| Deconvolution.SubtractKernel | spikify/encoding/temporal/deconvolution/ben_spiker_algorithm.py:42 | the in-place update leaves the residual equal to Lower of the old one |
| Deconvolution.EmptyWindowMatches | spikify/encoding/temporal/deconvolution/ben_spiker_algorithm.py:36-41 | on the empty window BSA matches iff threshold <= 0, HSA always (hough_spiker_algorithm.py:70-73), MHSA iff threshold >= 0 (modified_hough_spiker_algorithm.py:44-51) |
| Deconvolution.EmptyWindowOutcome | spikify/encoding/temporal/deconvolution/ben_spiker_algorithm.py:34-43 | with window 0 every window is empty: an IndexError (spikes[n]) exactly when BSA or HSA matches the empty window (see EmptyWindowMatches); otherwise every sample spikes exactly when the empty window matches (hough_spiker_algorithm.py:68-75 and modified_hough_spiker_algorithm.py:39-53 as well) |
| Deconvolution.Scan | spikify/encoding/temporal/deconvolution/ben_spiker_algorithm.py:31-43 | after t positions: binary spikes, none at or beyond t |
| Deconvolution.ScanAdvance | spikify/encoding/temporal/deconvolution/ben_spiker_algorithm.py:34-43 | one visit lowers the window and spikes exactly when it matches |
| Deconvolution.Encode | spikify/encoding/temporal/deconvolution/ben_spiker_algorithm.py:25-45 | n binary spikes |
| Deconvolution.SpikeRule | spikify/encoding/temporal/deconvolution/ben_spiker_algorithm.py:34-43 | spike at p iff p was visited and its residual window matched |
| Deconvolution.EncodeRule | spikify/encoding/temporal/deconvolution/ben_spiker_algorithm.py:34-43 | a full scan spikes at p iff p is a visited position whose window matches |
| Deconvolution.ScanStep | spikify/encoding/temporal/deconvolution/ben_spiker_algorithm.py:41-42 | a step changes the residual only inside its window, by one, on a spike |
| Deconvolution.Cover | spikify/encoding/temporal/deconvolution/ben_spiker_algorithm.py:34-43 | the number of kernels over sample i is at most the positions visited, and 0 before any spike or before the window reaches i |
| Deconvolution.ResidualIsInputMinusCover | spikify/encoding/temporal/deconvolution/ben_spiker_algorithm.py:31-43 | residual = input - number of recorded kernels covering the sample |
| Deconvolution.ResidualBelowInput | spikify/encoding/temporal/deconvolution/ben_spiker_algorithm.py:42 | the residual never rises above the input |
| Deconvolution.FinalResidual | spikify/encoding/temporal/deconvolution/ben_spiker_algorithm.py:31-45 | the invariant at the end of a full scan |
| Deconvolution.TailSilent | spikify/encoding/temporal/deconvolution/ben_spiker_algorithm.py:34 | BSA and HSA never spike in the last w - 1 positions |
| Deconvolution.BsaSilentAboveWindow | spikify/encoding/temporal/deconvolution/ben_spiker_algorithm.py:37-41 | a BSA threshold above the window length never spikes |
| Deconvolution.MhsaSilentBelowZero | spikify/encoding/temporal/deconvolution/modified_hough_spiker_algorithm.py:48-51 | a negative MHSA threshold never spikes |
| Deconvolution.HoughRule | spikify/encoding/temporal/deconvolution/hough_spiker_algorithm.py:68-75 | HSA spikes at p iff p <= n - w and the residual window dominates the kernel |
| Deconvolution.HoughTouchedNonNegative | spikify/encoding/temporal/deconvolution/hough_spiker_algorithm.py:70-74 | every residual sample a subtraction touched stays non-negative |
| Deconvolution.HoughSilentBelowOne | spikify/encoding/temporal/deconvolution/hough_spiker_algorithm.py:70-75 | a signal entirely below 1 never spikes |
| BenSpikerAlgorithm.BenSpiker | spikify/encoding/temporal/deconvolution/ben_spiker_algorithm.py:18-45 | EmptySignal when empty; WindowTooLong when window >= n; then NegativeWindow (boxcar's ValueError) for a negative window, EmptyWindowOutcome for window 0, otherwise the BSA scan |
| BenSpikerAlgorithm.BsaScan | spikify/encoding/temporal/deconvolution/ben_spiker_algorithm.py:25-45 | the array loop returns the BSA spike train |
| BenSpikerAlgorithm.BsaVisit | spikify/encoding/temporal/deconvolution/ben_spiker_algorithm.py:36-43 | one iteration moves the arrays from scan state t to t + 1 |
| BenSpikerAlgorithm.FiveSamples | tests/encoding/temporal/deconvolution/test_ben_spiker.py:99-108 | [5, 5, 5, 0, 0], window 3, threshold 1 gives [1, 1, 0, 0, 0] |
| BenSpikerAlgorithm.RiseAndFall | tests/encoding/temporal/deconvolution/test_ben_spiker.py:13-18 | the 11-sample rise and fall, window 3, threshold 2 gives [0, 1, 1, 1, 1, 1, 1, 1, 0, 0, 0] |
| HoughSpikerAlgorithm.HoughSpiker | spikify/encoding/temporal/deconvolution/hough_spiker_algorithm.py:52-77 | EmptySignal when empty; WindowTooLong when window > n; then NegativeWindow for a negative window, EmptyWindowOutcome for window 0, otherwise the HSA scan |
| HoughSpikerAlgorithm.HoughScan | spikify/encoding/temporal/deconvolution/hough_spiker_algorithm.py:59-77 | the array loop returns the HSA spike train |
| HoughSpikerAlgorithm.HoughVisit | spikify/encoding/temporal/deconvolution/hough_spiker_algorithm.py:70-75 | one iteration moves the arrays from scan state t to t + 1 |
| HoughSpikerAlgorithm.WindowOfSignalLength | spikify/encoding/temporal/deconvolution/hough_spiker_algorithm.py:55-68 | a window of the signal's length is accepted, visits one position and spikes nowhere else |
| HoughSpikerAlgorithm.ZeroSignal | tests/encoding/temporal/deconvolution/test_hough_spiker.py:36-44 | a zero signal never spikes |
| HoughSpikerAlgorithm.FiveSamples | tests/encoding/temporal/deconvolution/test_hough_spiker.py:79-87 | [5, 5, 5, 0, 0], window 3 gives [1, 0, 0, 0, 0] |
| HoughSpikerAlgorithm.RiseAndFall | tests/encoding/temporal/deconvolution/test_hough_spiker.py:13-17 | the 11-sample rise and fall, window 3, gives [0, 1, 1, 1, 1, 1, 1, 1, 0, 0, 0] |
| HoughSpikerAlgorithm.DocExamplePrefix | spikify/encoding/temporal/deconvolution/hough_spiker_algorithm.py:36-40 | the documented example's residual and spikes after three positions |
| HoughSpikerAlgorithm.DocExample | spikify/encoding/temporal/deconvolution/hough_spiker_algorithm.py:36-40 | [0.1, 0.2, 4.1, 1.0, 3.0, 0.3, 0.1], window 3 gives [0, 0, 1, 0, 0, 0, 0] |
| ModifiedHoughSpikerAlgorithm.ModifiedHoughSpiker | spikify/encoding/temporal/deconvolution/modified_hough_spiker_algorithm.py:23-55 | EmptySignal when empty; WindowTooLong when window > n; then NegativeWindow for a negative window, EmptyWindowOutcome for window 0, otherwise the MHSA scan |
| ModifiedHoughSpikerAlgorithm.MhsaScan | spikify/encoding/temporal/deconvolution/modified_hough_spiker_algorithm.py:29-55 | the array loop returns the MHSA spike train |
| ModifiedHoughSpikerAlgorithm.MhsaVisit | spikify/encoding/temporal/deconvolution/modified_hough_spiker_algorithm.py:41-53 | one iteration moves the arrays from scan state t to t + 1 |
| ModifiedHoughSpikerAlgorithm.FiveSampleShortfalls | spikify/encoding/temporal/deconvolution/modified_hough_spiker_algorithm.py:48 | the errors of the windows met in the five-sample case |
| ModifiedHoughSpikerAlgorithm.FiveSamples | tests/encoding/temporal/deconvolution/test_modified_hough_spiker.py:92-101 | [5, 5, 5, 0, 0], window 3, threshold 1 gives [1, 1, 0, 0, 1] |
| ModifiedHoughSpikerAlgorithm.ZeroSignal | tests/encoding/temporal/deconvolution/test_modified_hough_spiker.py:39-55 | [0, 0, 0, 0], window 3, threshold 0.5 gives no spike |
| ModifiedHoughSpikerAlgorithm.RiseAndFall | tests/encoding/temporal/deconvolution/test_modified_hough_spiker.py:13-18 | the 11-sample rise and fall, window 3, threshold 2 gives [1, 1, 1, 1, 1, 1, 1, 1, 0, 1, 1] |
| BensSpikerAlgorithm.Column | spikify/encoding/temporal/deconvolution/bens_spiker_algorithm.py:90-92 | signal[:, j] has one entry per sample, entry t of row t |
| BensSpikerAlgorithm.Windows | spikify/encoding/temporal/deconvolution/bens_spiker_algorithm.py:67-68 | an int window is repeated for every feature; a list is kept |
| BensSpikerAlgorithm.Thresholds | spikify/encoding/temporal/deconvolution/bens_spiker_algorithm.py:73-77 | a float is repeated; an int scalar fails when its length is taken; a list of the wrong length fails; otherwise one per feature |
| BensSpikerAlgorithm.FeatureSpikes | spikify/encoding/temporal/deconvolution/bens_spiker_algorithm.py:89-99 | BSA of one column: n binary spikes |
| BensSpikerAlgorithm.Assemble | spikify/encoding/temporal/deconvolution/bens_spiker_algorithm.py:100-101 | the input's shape, flattened exactly for one feature, entry (t, j) from column j |
| BensSpikerAlgorithm.SubtractColumnKernel | spikify/encoding/temporal/deconvolution/bens_spiker_algorithm.py:98 | lowers the window in column j only |
| BensSpikerAlgorithm.ScanColumn | spikify/encoding/temporal/deconvolution/bens_spiker_algorithm.py:90-99 | column j of the spikes becomes the BSA scan of column j; other columns unchanged |
| BensSpikerAlgorithm.ScanFeatures | spikify/encoding/temporal/deconvolution/bens_spiker_algorithm.py:86-99 | every spike column is its feature's BSA spikes |
| BensSpikerAlgorithm.BensSpikerSpec | spikify/encoding/temporal/deconvolution/bens_spiker_algorithm.py:59-103 | EmptySignal iff no samples; a result has the input's shape and binary entries |
| BensSpikerAlgorithm.BensSpiker | spikify/encoding/temporal/deconvolution/bens_spiker_algorithm.py:59-103 | returns exactly BensSpikerSpec, with the checks in bens_spiker's order |
| BensSpikerAlgorithm.BensOutcome | spikify/encoding/temporal/deconvolution/bens_spiker_algorithm.py:59-77 | each error iff its condition and the earlier checks passed; Ok iff every check passes |
| BensSpikerAlgorithm.BensPerFeature | spikify/encoding/temporal/deconvolution/bens_spiker_algorithm.py:62-101 | a result keeps the shape and holds in column j the BSA of column j alone |
| BensSpikerAlgorithm.FeatureIndependence | spikify/encoding/temporal/deconvolution/bens_spiker_algorithm.py:89-99 | features do not interact: equal columns give equal spike columns |
| BensSpikerAlgorithm.OneFeature | spikify/encoding/temporal/deconvolution/bens_spiker_algorithm.py:62-71 | a 1-D signal with scalar parameters gives the BSA train, here also for window == n |
| BensSpikerAlgorithm.DocExampleColumn | spikify/encoding/temporal/deconvolution/bens_spiker_algorithm.py:39-44 | BSA of the documented signal, window 3, threshold 0.5, is [0, 0, 1, 0, 0, 0, 0] |
| BensSpikerAlgorithm.DocExample | spikify/encoding/temporal/deconvolution/bens_spiker_algorithm.py:39-44 | the documented call returns [0, 0, 1, 0, 0, 0, 0] |

## Left out

- Floating point: samples, means and thresholds are exact reals. An equality that rounding could break in numpy holds exactly here, for example a block rate of exactly 1 or the peak's standard deviation of exactly 1.
- numpy dtypes are not modelled: the int8 spike arrays, the int64 kernel of ben_spiker, and integer signals copied without a float cast. Spikes are mathematical integers.
- arcsin, ln, sqrt and pi are parameters with the facts the proofs need. The irrational values of the documented phase, time-to-first-spike and Poisson examples, and the phase-encoding test, are not modelled. The threshold_based example needs only a bound on its square root and is proved: see DocExample.
- np.random.random is a parameter `draw`, one value per block.
- The Poisson vectorised searchsorted over np.cumsum is modelled as one spike time k * gap per k. The zero draw's index -1, which numpy reads as the last position, is modelled (ZeroDrawMarksLast).
- Inputs are one-dimensional sequences, except for bens_spiker, which also takes samples × features.
- Non-array inputs and the TypeError tests are not modelled.
- Some parameters outside the documented domain are assumed away as preconditions. The source does not check them, and numpy's behaviour for them is not modelled:
  - A block length or interval of zero or less, function by function:
    - phase_encoding's num_bits: phase_encoding_algorithm.py has no multiple check, so a non-empty signal fails at `signal.reshape(-1, num_bits)` (line 25) with a ValueError.
    - time_to_first_spike's interval (time_to_spike_algorithm.py:21), poisson_rate's interval_length (poisson_rate_algorithm.py:60) and burst_encoding's length (burst_encoding_algorithm.py:23): each runs `len % L` first, which raises ZeroDivisionError at 0. A negative L gives a remainder of 0 or a negative one. A negative remainder fails the multiple check with a ValueError. A remainder of 0 is followed by `reshape(-1, L)`, which raises a ValueError.
  - A negative t_min or t_max in burst_encoding. numpy does not reject these. Take a block of rate 1 with n_max = 3, t_min = -3 and t_max = 0. ISI + 1 is -2, and `arange(0, -6, -2)` is [0, -2, -4]. The negative required_length passes the length check. `spikes[i, spike_times[:length]] = 1` (burst_encoding_algorithm.py:54) then wraps the negative indices around the row, and the call returns a train, for every length except 3. At length 3, index -4 is out of range and the call raises IndexError. A t_min above t_max with both non-negative only inverts the ISI range, and that case is modelled: see Isi and InvertedIsiRange.
  - A bens_spiker window below 1 for some feature. A negative window makes boxcar raise a ValueError. A window of 0 runs the per-feature loop over range(n + 1) with empty kernels. That feature then raises IndexError at spikes[n, j] when its threshold is at most 0, and otherwise stays all zero.
- The window below 1 of moving_window, ben_spiker, hough_spiker and modified_hough_spiker is modelled: see MovingWindowSpikes and EmptyWindowOutcome. Window 0 is modelled by its outcome, not by running the scan loop over empty windows.
- The package `__init__` re-exports are not modelled.
- test_moving_window.py calls moving_window without its threshold argument, a TypeError as written. The model follows the function's own signature.
- test_step_forward.py:17-22 expects a ValueError on an empty signal. The code has no check and fails at signal[0] with an IndexError, which is what StepForward returns.
- test_hough_spiker.py:27-34 expects an error for a window equal to the signal's length. hough_spiker checks `window_length > len(signal)`, so it accepts that window. HoughSpiker follows the code: see WindowOfSignalLength.
- ben_spiker rejects a window equal to the signal's length (`>=`), while bens_spiker accepts it (`>`). Each is modelled as written.
- test_burst_encoding.py:64-72 is named as an insufficient-length test, but its input fails the multiple-of-length check first. ShortStream states both outcomes.
- phase_encoding above 8 bits keeps the uint8 cast of the level (modulo 256), so the output is shorter than the signal. This is modelled, not corrected: see WideLevelsShorten and WideRow.
- StepForwardAlgorithm.StepForward models the evidently intended base update. See Findings for the code as written.

## Findings

| source | as written | input that shows it | evidently intended | confidence | as-written member | corrected member |
|---|---|---|---|---|---|---|
| spikify/encoding/temporal/contrast/step_forward_algorithm.py:24 | `base += thresholds` names an undefined variable, so the first up-spike raises NameError | the tests' ramp [0, 2, 4, 6, 4, 2, 0] at threshold 2 | `base += threshold`, giving [0, 0, 1, 1, 0, 0, -1] as test_step_forward.py:9-15 expects | not executed | StepForwardAlgorithm.RampAsWritten | StepForwardAlgorithm.StepForward |
