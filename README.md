# ssjlatbin in Dafny

A model of the processing core of `ssjlatbin`, which turns DMSP SSJ particle
detector data into one fixed-width row per orbit, binned by latitude:

- **Channel flux integration** (`fluxcalculations.dfy`). The 19 channel widths come from the centre energies. The total energy or number flux of each sample is summed over a chosen channel subset, and non-finite entries are zeroed in the caller's array. An optional uncertainty filter zeroes the samples whose quadrature-summed uncertainty is at or above a percentage tolerance. The average particle energy is also modelled.
- **Helpers** (`tools.dfy`): the finite-difference derivative, whose last value repeats the first difference, and the positional median date.
- **Reading a spacecraft day in context** (`cdf.dfy`):
  - the table of derived variables that `_define_ssj_dataframe_contents` adds to the configuration;
  - the three-day continuity check;
  - orbit numbering from equator-crossing boundaries;
  - each orbit's start time;
  - the whole-orbit filter of `get_orbit_numbered_ssj_dataframe`.
- **Latitude binning, array variant** (`latbin.dfy`). The four quadrant edge lists are built, and pre-allocated (orbits × bins) arrays are filled in the nested loops of `bin_by_latitude`. The bin-count check is modelled exactly as written.
- **Latitude binning, label variant** (`latbinpandas.dfy`). Each sample gets at most one `dawn_42.5`-style bin label and the frame is averaged per (orbit, label). It has its own hemisphere, direction and interval conventions, so only the bin layout is shared with the array variant.
- **File naming and frame conversions** (`io.dfy`):
  - the CDF file name and the match-count rules of `ssjcdffn`;
  - the conversion from latitude-binned arrays to a labelled frame, and back. The frame-building half is modelled both as written, where the missing pandas import makes it a NameError, and as intended;
  - the round trip between the labels `latbin_label` writes and the parser reads.

Supporting modules:
- `wrappers.dfy`: Option, Result, and the Python exception classes.
- `floats.dfy`: finite, infinite or NaN values.
- `sequences.dfy`: sorting, `np.unique`, `np.arange` and `np.nanmean`.
- `text.dfy`:
  - decimal digits;
  - one-decimal formatting and parsing;
  - `str.split`.

Modelling conventions:
- Floating-point numbers are reals. An entry that may be non-finite is a `Floats.V`, and a NaN that marks a missing value is `None`.
- Times are integer nanoseconds (the pandas `int64` view) and dates are whole days since the epoch. A Python `datetime` is a time in whole microseconds.
- Latitude bin edges are integer degrees. `delta_lat` must be positive.
- Python exceptions are `Failure(...)` results.
- The foreign inputs are parameters: the pass detector's boundary indices, the file listing under the CDF root, and the day files' rows.

## Model

| member | source | states |
|---|---|---|
| FluxCalculations.ChannelEnergiesDecrease | ssjlatbin/fluxcalculations.py:14-16 | The 19 channel centre energies strictly decrease. |
| FluxCalculations.ChannelWidth | ssjlatbin/fluxcalculations.py:30-35 | Every channel width is positive. |
| FluxCalculations.HardyChannelWidths | ssjlatbin/fluxcalculations.py:18-36 | The loop returns 19 widths: `w[0]=E0-E1`, `w[k]=(E[k-1]-E[k+1])/2` for 1≤k≤17, and `w[18]=E17-E18`. Each equals ChannelWidth(k) and is positive. |
| FluxCalculations.ParseMode | ssjlatbin/fluxcalculations.py:38-40 | Succeeds exactly for 'energy' and 'number', and any other mode is a ValueError. Energy mode is chosen exactly by 'energy'. |
| FluxCalculations.NumberFactor | ssjlatbin/fluxcalculations.py:82-83 | The number-mode factor `w[c]/E[c]*pi*1e4` of every channel is positive. |
| FluxCalculations.ChannelFactor | ssjlatbin/fluxcalculations.py:82-86 | The factor in either mode is positive, so a channel adds flux of the sign of its entry. |
| FluxCalculations.ChannelSumSnoc | ssjlatbin/fluxcalculations.py:78-88 | Appending a channel to the list adds exactly that channel's contribution to the sum. |
| FluxCalculations.Contribution | ssjlatbin/fluxcalculations.py:80-87 | Definition: channel c's share of one sample is its finite value (0 after the zeroing) times the channel's conversion factor. |
| FluxCalculations.ChannelSum | ssjlatbin/fluxcalculations.py:76-90 | Definition: a sample's integrated flux is the sum of the channels' contributions, in loop order from a zero start. |
| FluxCalculations.NonFiniteChannelIsIsolated | ssjlatbin/fluxcalculations.py:78-88 | A non-finite entry in channel c contributes nothing. The sum equals the sum over the channel list with every occurrence of c removed, so the other channels are unaffected. |
| FluxCalculations.EnergyContributionScalesNumber | ssjlatbin/fluxcalculations.py:84-86 | In energy mode a channel's contribution is its number-mode contribution times `E[c]*1.6e-19*1e3`. |
| FluxCalculations.AfterIntegration | ssjlatbin/fluxcalculations.py:80-81 | An entry as integration leaves it counts the same as before: its finite value, or 0. |
| FluxCalculations.SanitizedRow | ssjlatbin/fluxcalculations.py:80-81 | After zeroing, the selected channels' entries are finite and the unselected channels' entries are unchanged. |
| FluxCalculations.Integral | ssjlatbin/fluxcalculations.py:76-90 | One integrated flux per sample. |
| FluxCalculations.SquaredSum | ssjlatbin/fluxcalculations.py:54-63 | The quadrature sum of the uncertainty contributions is non-negative. |
| FluxCalculations.TooUncertainIsRatioTest | ssjlatbin/fluxcalculations.py:100 | For every non-negative `std`, the root-free test on `std²` holds exactly when the literal `std/flux*100 >= tol` holds in IEEE arithmetic. For a nonzero flux that is the real ratio. For a zero flux it holds exactly when `std > 0`: the ratio is +inf, while 0/0 is NaN and compares false. |
| FluxCalculations.TooUncertain | ssjlatbin/fluxcalculations.py:100 | Definition: the ratio test `std/flux*100 >= tol` written on the variance without a square root, with the sign cases of the flux. |
| FluxCalculations.TooUncertainMonotone | ssjlatbin/fluxcalculations.py:100 | A sample suppressed at one tolerance is suppressed at every smaller tolerance. |
| FluxCalculations.ZeroToleranceSuppresses | ssjlatbin/fluxcalculations.py:100-101 | With tolerance 0, every non-negative flux with a positive uncertainty is zeroed. |
| FluxCalculations.LargeToleranceKeeps | ssjlatbin/fluxcalculations.py:100-101 | A positive flux is kept exactly when the tolerance is positive and tol²·flux² > 100²·variance, i.e. the tolerance exceeds the relative uncertainty in percent. |
| FluxCalculations.FluxWithTolerance | ssjlatbin/fluxcalculations.py:92-107 | **Results.** One value per sample. Without both an uncertainty matrix and a tolerance, the result is the plain integral. With both, a sample is 0 exactly when it is too uncertain, and otherwise it is its integrated flux. |
| FluxCalculations.SanitizingKeepsSum | ssjlatbin/fluxcalculations.py:78-88 | Zeroing the non-finite entries of any channel set leaves every channel sum unchanged. |
| FluxCalculations.SanitizingKeepsSquaredSum | ssjlatbin/fluxcalculations.py:93-98 | The uncertainty is computed from the array that integration has already modified. It equals the uncertainty of the original array. |
| FluxCalculations.ZeroNonFiniteColumn | ssjlatbin/fluxcalculations.py:80-81 | In column c every non-finite entry becomes 0, and nothing else in the array changes. |
| FluxCalculations.AddColumn | ssjlatbin/fluxcalculations.py:82-88 | Every running total gains the contribution of column c (its square, for the uncertainty), and nothing else changes. |
| FluxCalculations.IntegrateInPlace | ssjlatbin/fluxcalculations.py:66-90 | `_integrate_flux`. A bad mode is a ValueError and leaves the array unchanged. Otherwise the result is the integral of the original rows. Each entry is left as AfterIntegration: non-finite selected entries become 0 and all other entries are unchanged. |
| FluxCalculations.IntegratedFluxVariance | ssjlatbin/fluxcalculations.py:42-64 | `_integrated_flux_std` before its square root. Each sample gets the quadrature sum of its channels' contributions of `rel*diff`, with non-finite products zeroed. Neither input array changes. |
| FluxCalculations.IntegrateFlux | ssjlatbin/fluxcalculations.py:92-107 | `integrate_flux`: a ValueError for a bad mode, with the array unchanged. Otherwise the result is FluxWithTolerance of the original rows, and the array is left as `_integrate_flux` leaves it. |
| FluxCalculations.AverageEnergy | ssjlatbin/fluxcalculations.py:113 | Finite exactly when the number flux is nonzero. Then `e*N*1.6e-19*1000 == Ef`. |
| FluxCalculations.AverageParticleEnergy | ssjlatbin/fluxcalculations.py:109-114 | Elementwise average energy, one value per sample. |
| FluxCalculations.SingleChannelAverageEnergy | ssjlatbin/fluxcalculations.py:109-114 | With the same single channel for both fluxes and a nonzero entry, the average energy is exactly that channel's centre energy. |
| Floats.Zeroed | ssjlatbin/fluxcalculations.py:80-81 | `x[~isfinite(x)] = 0`: the result is finite, and it is the value itself when that was finite and 0 otherwise. |
| Floats.Mul | ssjlatbin/fluxcalculations.py:50 | IEEE product: finite exactly when both factors are finite, and then the real product. |
| Tools.DateOf | ssjlatbin/tools.py:9 | The date of a time is the day containing it. |
| Tools.Diff | ssjlatbin/tools.py:14 | `np.diff`: one element fewer (none for an empty input), each element the difference of neighbours. |
| Tools.Derivative | ssjlatbin/tools.py:11-16 | Fails with IndexError exactly for fewer than two values. Otherwise it has the input's length, with `r[i] = y[i+1]-y[i]` for `i < n-1` and a last element of `y[1]-y[0]`. |
| Tools.DerivativeTelescopes | ssjlatbin/tools.py:14-15 | `y[0]` plus the first k derivative values is `y[k]`. |
| Tools.MedianDate | ssjlatbin/tools.py:7-9 | Fails with IndexError exactly for an empty index. Otherwise it is the date of one of the index's times. |
| Tools.MedianDatePermutationInvariant | ssjlatbin/tools.py:7-9 | The median date does not depend on the order of the rows. |
| Tools.MedianDateOfSorted | ssjlatbin/tools.py:9 | For a sorted index it is the date of the element at position n//2 (positional, not a statistical median). |
| Sequences.SortByKey | ssjlatbin/tools.py:9 | `sort_index`: a sorted permutation of the input. |
| Sequences.SortIsPermutationInvariant | ssjlatbin/tools.py:9 | Two permutations of one index sort to the same sequence. |
| Cdf.TotalingFunctions | ssjlatbin/cdf.py:29-34 | Six totaling functions. |
| Cdf.TotalingIndex | ssjlatbin/cdf.py:30-34 | Function `2c+f` integrates channel set c (soft, hard, all) in flux type f (energy, number), under the key `<set>_<type>`. |
| Cdf.DerivedEntries | ssjlatbin/cdf.py:39-41 | Twelve derived entries, one per species and totaling function. |
| Cdf.DerivedIndex | ssjlatbin/cdf.py:39-41 | Entry `6s+f` pairs species s with totaling function f. |
| Cdf.DerivedKeyAt | ssjlatbin/cdf.py:41 | The key of each entry is `<ele or ion>_<set>_<type>`. |
| Cdf.SplitDerivedKey | ssjlatbin/cdf.py:41 | A derived key splits on '_' into its species, set and flux type. |
| Cdf.DerivedKeyInjective | ssjlatbin/cdf.py:39-41 | The twelve keys are pairwise distinct. |
| Cdf.DerivedValuesAre | ssjlatbin/cdf.py:32-41 | Each entry maps to the species' `*_DIFF_ENERGY_FLUX` variable, totalled over its channel set in its flux type. |
| Cdf.DefinedContents | ssjlatbin/cdf.py:29-42 | After applying the entries, all twelve keys `{ele,ion}_{soft,hard,total}_{energy,number}` are present with the right variable, channels and mode. Every other key keeps its presence and its value. |
| Cdf.SsjConfig.DefineSsjDataframeContents | ssjlatbin/cdf.py:19-42 | The nested loops update the configuration's table in place, exactly as DefinedContents describes. They leave the channel lists alone and return the table. |
| Cdf.ConsecutiveDays | ssjlatbin/cdf.py:80-95 | **Result.** The three days succeed exactly when all are non-empty and their median dates are the current day −1 and +1, and the result is their concatenation. **Errors.** The error is IndexError when a median date cannot be taken, and ValueError for a wrong date. |
| Cdf.ConsecutiveDaysOrderFree | ssjlatbin/cdf.py:87-92 | Whether the check passes does not depend on the order of rows within each day. |
| Cdf.XingZero | ssjlatbin/cdf.py:109-114 | The first full-orbit segment containing a sample dated on the reference day, or none when no segment does. |
| Cdf.FirstDateSegmentFrom | ssjlatbin/cdf.py:109-114 | The search from segment k finds the first segment holding a sample of the day, not before k. None means no segment from k on holds one. |
| Cdf.RefDate | ssjlatbin/cdf.py:104-107 | Definition: a datetime reference stands for its date, and a date stands for itself. |
| Cdf.Covers | ssjlatbin/cdf.py:120 | Definition: sample i lies in the slice `[eqx[k]:eqx[k+1]]` of segment k. |
| Cdf.XingZeroUnique | ssjlatbin/cdf.py:109-114 | Any index with that first-segment property is the one the search finds. |
| Cdf.LastCovering | ssjlatbin/cdf.py:120-121 | The last segment whose slice covers a sample, or none. |
| Cdf.Clamp | ssjlatbin/cdf.py:121 | Python slice bounds are clamped to the array length. |
| Cdf.Numbered | ssjlatbin/cdf.py:119-121 | Each sample is numbered after the last segment that wrote it, as `k - xing_zero`. A sample that no segment covers stays NaN. |
| Cdf.Label | ssjlatbin/cdf.py:120 | Definition: a sample covered last by segment k gets `k - xing_zero`, and an uncovered one keeps NaN. |
| Cdf.OrbitNumbering | ssjlatbin/cdf.py:98-123 | RuntimeError exactly when no segment contains the reference date. A datetime reference is reduced to its date first. Otherwise there is one orbit number per sample. |
| Cdf.NumberOrbits | ssjlatbin/cdf.py:98-123 | The search loop with `break` and the slice-filling loop compute OrbitNumbering. |
| Cdf.CoveringUnique | ssjlatbin/cdf.py:110-121 | With strictly increasing boundaries a sample lies in at most one segment. |
| Cdf.SegmentNumber | ssjlatbin/cdf.py:119-121 | With strictly increasing boundaries, samples in `[eqx[k], eqx[k+1])` get `k - xing_zero`. |
| Cdf.OutsideUnnumbered | ssjlatbin/cdf.py:119-121 | Samples before the first boundary, or at or after the last, stay unnumbered. |
| Cdf.NumbersMonotone | ssjlatbin/cdf.py:110-121 | Orbit numbers do not decrease along the samples. |
| Cdf.AdjacentSegmentsDifferByOne | ssjlatbin/cdf.py:119-121 | Samples of adjacent segments have orbit numbers differing by exactly 1. |
| Cdf.NegativeOrbitsBeforeDay | ssjlatbin/cdf.py:109-121 | No sample numbered below 0 is dated on the reference day. |
| Cdf.OrbitZeroTouchesDay | ssjlatbin/cdf.py:109-121 | Some sample of orbit 0 is dated on the reference day. |
| Cdf.MinTimeOf | ssjlatbin/cdf.py:128 | The least time among an orbit's samples, or none for an orbit without samples. |
| Cdf.OrbitStartTime | ssjlatbin/cdf.py:125-128 | Each numbered sample gets a time of its own orbit that is no later than any of that orbit's times. Unnumbered samples get NaN. |
| Cdf.DayOrbitNumbers | ssjlatbin/cdf.py:141-142 | Exactly the orbit numbers of samples dated on the day. |
| Cdf.KeepBetween | ssjlatbin/cdf.py:143-145 | Keeps every complete row whose orbit lies in the bounds, with its multiplicity, and drops all others. |
| Cdf.Kept | ssjlatbin/cdf.py:143-145 | Definition: a row survives `dropna` and the bounds test when it has every column and its orbit number lies in [lo, hi]. |
| Cdf.KeptIffWithin | ssjlatbin/cdf.py:142-144 | Lying between the least and greatest orbit seen on the day is the same as lying within the day's orbits. |
| Cdf.WholeOrbitsOfDay | ssjlatbin/cdf.py:141-145 | **Errors.** ValueError (the `nanmin` of an empty array) exactly when no row is on the day. **Result.** The rows kept are exactly the NaN-free rows whose orbit lies between the day's least and greatest orbit numbers, with their multiplicities. They are sorted by time and all complete. |
| Cdf.OrbitNumberedDay | ssjlatbin/cdf.py:130-145 | **Errors.** The continuity check's error comes first, then the RuntimeError when the numbering finds no segment. **Result.** Once the numbering succeeds, the call succeeds with the complete rows of the day's orbits, each with its multiplicity, sorted by time. |
| Cdf.NumberedRows | ssjlatbin/cdf.py:137-139 | Each stacked row keeps its time and gains its orbit number, with the orbit start time and the latitude derivative as columns. |
| Cdf.DayHasRows | ssjlatbin/cdf.py:109-116 | A successful numbering implies some row is on the reference day. |
| Cdf.NoDayIsRuntimeError | ssjlatbin/cdf.py:115-144 | With no row on the day, the call fails with the numbering's RuntimeError. The empty-minimum ValueError on line 143 is never reached. |
| Latbin.DawnDusk | ssjlatbin/latbin.py:7-22 | (N,asc) and (S,asc) give 1, and (N,desc) and (S,desc) give −1. Exactly the other pairs are a ValueError. |
| Latbin.AscDescMasks | ssjlatbin/latbin.py:24-32 | IndexError for fewer than two latitudes. Otherwise `asc[i]` holds iff the derivative is positive and `desc[i]` iff it is negative, where the last step repeats the first. |
| Latbin.MasksDisjoint | ssjlatbin/latbin.py:27-31 | No sample is both ascending and descending, and a sample with zero derivative is neither. |
| Latbin.QuadrantEdges | ssjlatbin/latbin.py:53-56 | Each quadrant's `np.arange` edge list has one more entry than the quadrant has bins. |
| Sequences.Arange | ssjlatbin/latbin.py:53-56 | `np.arange` on integers: entries `start + i*step`. |
| Sequences.ArangeStopsAtStop | ssjlatbin/latbin.py:53-56 | Every entry is short of `stop`, and one more step would reach or pass it. |
| Latbin.QuadrantBins | ssjlatbin/latbin.py:65 | One bin per pair of adjacent edges. |
| Latbin.Layout | ssjlatbin/latbin.py:62-65 | The columns the loops visit: 4 × the per-quadrant bin count, in the order N-asc, N-desc, S-desc, S-asc. |
| Latbin.BinEdges | ssjlatbin/latbin.py:53-65 | Bin b of quadrant q runs from `start + b*step` to `start + (b+1)*step`, with the quadrant's start and signed step (N-asc 0→max, N-desc max→0, S-desc 0→−max, S-asc −max→0). |
| Latbin.LayoutAt | ssjlatbin/latbin.py:61-79 | The running counter `i_lat_bin` for bin b of quadrant q is `q*m+b`, and the layout there is that bin. |
| Latbin.QuadrantFlag | ssjlatbin/latbin.py:68 | The flag of every quadrant is a successful `_dawn_dusk`: 1 ascending, −1 descending. |
| Latbin.QuadrantBinsDisjoint | ssjlatbin/latbin.py:70-73 | With `(start,end]` on increasing edges and `[end,start)` on decreasing ones, no latitude lies in two bins of one quadrant. |
| Latbin.InLatBin | ssjlatbin/latbin.py:70-73 | Definition: `(start, end]` on increasing edges and `[end, start)` on decreasing ones. |
| Latbin.Selected | ssjlatbin/latbin.py:74 | Definition: the sample is in the orbit, in the quadrant's direction and in the bin's latitude range. |
| Latbin.Cell | ssjlatbin/latbin.py:78 | Definition: the NaN-skipping mean of the selected samples' values. |
| Sequences.Unique | ssjlatbin/latbin.py:46 | `np.unique`: strictly increasing, with the same elements as the input. |
| Sequences.Dedup | ssjlatbin/latbin.py:46 | On sorted input: strictly increasing, with the same elements and the same first element. |
| Latbin.FirstIndexOf | ssjlatbin/latbin.py:59 | The first sample of an orbit. |
| Sequences.NanMean | ssjlatbin/latbin.py:78 | NaN exactly when every value is NaN (or there are none). |
| Latbin.EmptyCellIsMissing | ssjlatbin/latbin.py:74-78 | A cell with no selected non-NaN sample is NaN. |
| Latbin.BinCountAtLeastColumns | ssjlatbin/latbin.py:45-65 | The loops visit at least `n_bins` columns per orbit. |
| Latbin.ColumnsMatchIff | ssjlatbin/latbin.py:45-65 | The loops visit exactly `n_bins` columns iff `max_lat` is a multiple of `delta_lat`. Otherwise they overrun the array. |
| Latbin.NBins | ssjlatbin/latbin.py:45 | Definition: `n_bins` as the integer quotient `4*max_lat // delta_lat`. |
| Latbin.ExactQuadrantBins | ssjlatbin/latbin.py:45-56 | When `max_lat` is a multiple of `delta_lat`, each quadrant holds `max_lat/delta_lat` bins and `n_bins = 4*max_lat/delta_lat`. |
| Latbin.VisitBin | ssjlatbin/latbin.py:66-78 | One bin visit writes cell (orbit, k). In the first orbit it also writes bin k's midpoint and flag. Nothing else changes. |
| Latbin.Midpoint | ssjlatbin/latbin.py:67 | Definition: the bin centre `(lat_start+lat_end)/2`. |
| Latbin.Flag | ssjlatbin/latbin.py:68 | Definition: the dawn/dusk flag of the bin's quadrant, 1 ascending and −1 descending. |
| Latbin.FillQuadrant | ssjlatbin/latbin.py:64-79 | A quadrant's bins fill its consecutive columns with their cells, and set midpoints and flags in the first orbit. When the columns run out, the array is too narrow for the layout. |
| Latbin.FillRow | ssjlatbin/latbin.py:62-79 | One orbit completes exactly when the layout has `n_bins` columns. Its row is then the cells of the layout in order, and no other row changes. |
| Latbin.FillOrbits | ssjlatbin/latbin.py:57-79 | **Success and shape.** Succeeds exactly when there are no orbits or the layout has `n_bins` columns. One row per distinct orbit. **Contents.** Each orbit's time is its first sample's time. Cell (o, j) is the cell of layout bin j for orbit o. The midpoints and flags are those of the layout, or NaN without orbits. |
| Latbin.FillBins | ssjlatbin/latbin.py:46-81 | Allocation and fill compute the specification FillSpec: the arrays above, or IndexError for an overrun. |
| Latbin.FillSpec | ssjlatbin/latbin.py:45-81 | Definition of what the loops produce: IndexError when an orbit exists and the layout has more bins than `n_bins`. Otherwise one row per distinct orbit with its first time, and one column per bin with its centre, flag and cells. |
| Latbin.LiteralCheckMeaning | ssjlatbin/latbin.py:43 | The literal test `mod(max_lat*4/delta_lat, delta_lat) != 0` fails exactly when `(4*max_lat) mod delta_lat² ≠ 0`. |
| Latbin.LiteralCheckFails | ssjlatbin/latbin.py:43 | Definition: the literal test `mod(max_lat*4/delta_lat, delta_lat) != 0` on reals. |
| Latbin.BinByLatitude | ssjlatbin/latbin.py:34-81 | As written: IndexError for fewer than two samples, ValueError when the literal test fails, and otherwise the FillSpec arrays. Each cell is the NaN-ignoring mean of `y` over the selected samples: the orbit's samples with the quadrant's direction and the bin's latitudes. |
| Latbin.DefaultConfigRejected | ssjlatbin/latbin.py:43-44 | The default `max_lat=80, delta_lat=5` is rejected, although 80 is a multiple of 5 and the loops would fill exactly its 64 columns. |
| Latbin.OverrunPassesCheck | ssjlatbin/latbin.py:43-79 | `max_lat=1, delta_lat=2` passes the literal test, but the fill overruns `n_bins` and raises IndexError. |
| Latbin.IntendedCheckIsExact | ssjlatbin/latbin.py:43-79 | With at least one orbit, testing `max_lat mod delta_lat ≠ 0` rejects exactly the configurations the fill cannot complete. |
| Latbin.BinByLatitudeIntended | ssjlatbin/latbin.py:34-81 | The corrected binning: ValueError exactly when `max_lat` is not a multiple of `delta_lat`, and otherwise always a success with the FillSpec arrays. |
| LatbinPandas.DawnDusk | ssjlatbin/latbin_pandas.py:4-19 | 'dawn' for (N,asc) and (S,asc), and 'dusk' for (N,desc) and (S,desc). Exactly the other pairs are a ValueError. |
| LatbinPandas.DefineLatbins | ssjlatbin/latbin_pandas.py:21-27 | The four edge lists are `0..max` step +d, `max..0` step −d, `0..−max` step −d and `−max..0` step +d, of equal length. The first list's last edge is in `[max, max+d)`. They are the array variant's edges. |
| LatbinPandas.LatbinLabel | ssjlatbin/latbin_pandas.py:29-30 | A label exists exactly when `_dawn_dusk` succeeds, and its error is a ValueError. |
| LatbinPandas.LatbinLabelPieces | ssjlatbin/latbin_pandas.py:29-30 | The label splits on '_' into the sector and the centre `(lat1+lat2)/2` to one decimal. |
| LatbinPandas.LabelTextPieces | ssjlatbin/latbin_pandas.py:30 | A label of a sector without '_' splits into the sector and the centre text. |
| LatbinPandas.CentreValue | ssjlatbin/latbin_pandas.py:30 | The half-degree centre of two integer edges is exact to one decimal and reads back unchanged. |
| LatbinPandas.LabelOfBin | ssjlatbin/latbin_pandas.py:47-51 | `latbin_label` of bin b of quadrant q is that bin's category. |
| LatbinPandas.QuadrantSector | ssjlatbin/latbin_pandas.py:47 | Every quadrant of the loop has a sector: dawn ascending, dusk descending. |
| LatbinPandas.Categories | ssjlatbin/latbin_pandas.py:43-51 | One category per bin of the layout. |
| LatbinPandas.CategoryAt | ssjlatbin/latbin_pandas.py:51 | Category j is the label of layout bin j. |
| LatbinPandas.EdgeSumsDiffer | ssjlatbin/latbin_pandas.py:47-51 | Two different bins of the same sector (dawn or dusk) have different edge sums, hence different centres. |
| LatbinPandas.LabelTextInjective | ssjlatbin/latbin_pandas.py:30 | Among sectors of one length, a label determines both its sector and its centre. |
| LatbinPandas.BinCategoriesDiffer | ssjlatbin/latbin_pandas.py:47-51 | Two different bins of the quadrant loops get different category labels. |
| LatbinPandas.CategoriesDistinct | ssjlatbin/latbin_pandas.py:47-65 | The categories are pairwise distinct, so they can define the ordered categorical. |
| LatbinPandas.Hemisphere | ssjlatbin/latbin_pandas.py:40 | `pd.cut` on `[-91, 0, 91]`: S exactly on (−91, 0], N exactly on (0, 91], and none outside. |
| LatbinPandas.Direction | ssjlatbin/latbin_pandas.py:41 | Descending exactly when the derivative is ≤ 0, ascending exactly when it is > 0. |
| LatbinPandas.HemiColumn | ssjlatbin/latbin_pandas.py:40 | One hemisphere per sample. |
| LatbinPandas.DirColumn | ssjlatbin/latbin_pandas.py:41 | One direction per sample. |
| LatbinPandas.SameQuadrantDisjoint | ssjlatbin/latbin_pandas.py:52-54 | Two bins of one quadrant share at most an edge. |
| LatbinPandas.BinsDisjoint | ssjlatbin/latbin_pandas.py:52-57 | No sample matches two bins: `[min,max)` plus the hemisphere and direction tests make the conditions pairwise disjoint. |
| LatbinPandas.Matches | ssjlatbin/latbin_pandas.py:52-57 | Definition: `[min, max)` of the edges, the bin's hemisphere and the bin's direction. |
| LatbinPandas.MatchBounds | ssjlatbin/latbin_pandas.py:52-57 | Assume `max_lat` is a multiple of `delta_lat`. A matched sample then has `-max_lat ≤ lat < max_lat`. It is non-negative in the north and negative in the south. |
| LatbinPandas.CoveringBin | ssjlatbin/latbin_pandas.py:40-57 | Assume `max_lat` is a multiple of `delta_lat` and the latitude column is `glats`. Then every latitude in `[-max_lat, max_lat)` other than 0 (and inside (−91, 91]) matches some bin. |
| LatbinPandas.Mask | ssjlatbin/latbin_pandas.py:52-57 | One condition entry per sample. |
| LatbinPandas.Conditions | ssjlatbin/latbin_pandas.py:52-57 | One condition per bin, each as long as the frame. |
| LatbinPandas.ConditionAt | ssjlatbin/latbin_pandas.py:52-57 | Condition j at sample i is exactly "sample i matches bin j". |
| LatbinPandas.Select | ssjlatbin/latbin_pandas.py:61 | `np.select`: the choice of the first true condition, or none when none is true. |
| LatbinPandas.Labels | ssjlatbin/latbin_pandas.py:61 | One label (or none) per sample. |
| LatbinPandas.LabelIsOnlyMatch | ssjlatbin/latbin_pandas.py:52-61 | A sample is labelled exactly when some bin matches it, and its label is then that bin's category. |
| LatbinPandas.LabelledIff | ssjlatbin/latbin_pandas.py:40-61 | Assume `max_lat` is a multiple of `delta_lat` and binning is by `glats`. A sample is labelled exactly when `-max_lat ≤ glat < max_lat`, `glat ≠ 0` and `glat` is in (−91, 91]. So latitude 0 and latitudes beyond `±max_lat` get no label. |
| LatbinPandas.EquatorLabelledWhenUneven | ssjlatbin/latbin_pandas.py:40-57 | Take `max_lat=7, delta_lat=5`, which is not a multiple. An ascending sample at latitude 0 is then labelled: the S-asc bin `[-2, 3)` contains it. |
| LatbinPandas.ColumnMean | ssjlatbin/latbin_pandas.py:70 | A group's mean is NaN exactly when the group is empty. |
| LatbinPandas.TimeMean | ssjlatbin/latbin_pandas.py:68-71 | The mean time is none exactly for an empty group, and otherwise lies between the group's earliest and latest time. |
| LatbinPandas.GroupMeans | ssjlatbin/latbin_pandas.py:70 | One row per distinct orbit and one entry per category. |
| LatbinPandas.GroupRows | ssjlatbin/latbin_pandas.py:65-70 | **Keys and emptiness.** Entry (o, c) is the group of the o-th distinct orbit and category c. Its time is missing exactly when no sample of that orbit carries that label, and its latitude mean is missing exactly then. **Order.** Orbits increase from row to row. |
| LatbinPandas.Members | ssjlatbin/latbin_pandas.py:70 | One membership flag per sample: the sample has orbit o and category c. |
| LatbinPandas.GroupOf | ssjlatbin/latbin_pandas.py:70 | Definition: a group's keys with the mean of every numeric column and of the time over its members. |
| LatbinPandas.SingleSampleGroup | ssjlatbin/latbin_pandas.py:70 | A group of one sample holds that sample's values. |
| LatbinPandas.MeanIgnoresNonMembers | ssjlatbin/latbin_pandas.py:70 | A group's mean depends only on its members' values. |
| LatbinPandas.ColumnMaskIsMask | ssjlatbin/latbin_pandas.py:52-57 | The mask built from `nanmin`/`nanmax` of the edges and the frame's `hemi` and `asc_desc` columns is the bin's match mask. |
| LatbinPandas.AppendQuadrant | ssjlatbin/latbin_pandas.py:48-57 | One quadrant's inner loop extends the categories and conditions by exactly that quadrant's part. |
| LatbinPandas.BuildBins | ssjlatbin/latbin_pandas.py:43-57 | The loops over the four quadrants produce exactly the categories and conditions for the layout. |
| LatbinPandas.BinByLatitude | ssjlatbin/latbin_pandas.py:32-72 | **Frame changes.** The frame gains the `hemi` and `asc_desc` columns. **Errors.** ValueError exactly when `max_lat` is 0, since `np.select` then gets no conditions; `latbin` and `time` are left alone. **Result.** Otherwise the frame gains `latbin` and `time`, and the result is the mean of every (orbit, category) group. Other columns are unchanged. |
| LatbinPandas.NoBinsIff | ssjlatbin/latbin_pandas.py:21-61 | The quadrant loops produce no category exactly when `max_lat` is 0. |
| Text.Pad2 | ssjlatbin/io.py:21 | `{:02d}`: at least two digits (exactly two below 100), reading back as the number. |
| Text.SplitPieces | ssjlatbin/io.py:98 | `str.split`: no piece contains the separator, and joining the pieces gives the string back. |
| Text.Split | ssjlatbin/io.py:98 | `str.split` always gives at least one piece. |
| Text.ParseFormatTenths | ssjlatbin/io.py:105 | A number of tenths printed to one decimal reads back as that number. |
| Text.FormatTenths | ssjlatbin/latbin_pandas.py:30 | `'{:.1f}'` of a whole number of tenths: at least three characters ending in '.' and a digit, with '-' exactly for a negative value. |
| Text.ParseDecimal | ssjlatbin/io.py:105 | `np.float` on a plain decimal: a failure is a ValueError, and text without a leading '-' reads as a non-negative value. |
| Text.FormatTenthsInjective | ssjlatbin/io.py:62 | Different numbers of tenths print differently. |
| Io.FileNamePieces | ssjlatbin/io.py:21 | The file name splits on '_' into `dmsp-fNN`, `ssj`, `precipitating-electrons-ions` and `YYYYMMDD`, then the pieces of `v<version>.cdf`. |
| Io.SsjCdfFileName | ssjlatbin/io.py:21 | Definition: the file name is its fields joined by '_'. |
| Io.FileNameInjective | ssjlatbin/io.py:21 | Assume two-digit months and days. Different satellites, dates or versions then give different file names. |
| Io.Matching | ssjlatbin/io.py:22 | The recursive glob: exactly the listed files whose last path component is the name. |
| Io.BaseName | ssjlatbin/io.py:22 | Definition: the last '/'-separated component of a path. |
| Io.SsjCdfFn | ssjlatbin/io.py:15-27 | IOError exactly for no match and RuntimeError exactly for several. Exactly one match returns its path, joined to the root. |
| Io.SsjCdfFnUnique | ssjlatbin/io.py:22-27 | Given a listing without repeats and one file of the expected name, the result is that file in any listing order. |
| Io.RoundHalfEven | ssjlatbin/io.py:62 | Rounds to a nearest integer, taking the even one on a tie. |
| Io.RoundHalfEvenUnique | ssjlatbin/io.py:62 | That rounding is unique. |
| Io.FormatLat | ssjlatbin/io.py:62 | `'{:.1f}'`: at least three characters, starting with '-' exactly for a negative latitude. |
| Io.FormatLatTenths | ssjlatbin/io.py:62 | A latitude of t tenths prints as t tenths. |
| Io.ParseFormatLat | ssjlatbin/io.py:105 | The printed latitude reads back as the latitude rounded to tenths, within 0.05 of it. |
| Io.FormatLatHasNoSeparator | ssjlatbin/io.py:62 | The printed latitude contains no '_'. |
| Io.FlagSector | ssjlatbin/io.py:56-61 | 1 is dawn and −1 is dusk. Exactly the other flags are a ValueError. |
| Io.SectorFlag | ssjlatbin/io.py:99-104 | Any prefix other than dawn or dusk is a ValueError. |
| Io.SectorFlagInverse | ssjlatbin/io.py:56-104 | The two mappings are inverse to each other wherever they succeed. |
| Io.ColumnLabel | ssjlatbin/io.py:56-62 | A label exists exactly for flags ±1, and otherwise it is a ValueError. |
| Io.ColumnLabelPieces | ssjlatbin/io.py:62 | A label splits on '_' into exactly its sector and its printed latitude. |
| Io.ParseLabel | ssjlatbin/io.py:98-105 | A failure is a ValueError. |
| Io.ParseLabelPieces | ssjlatbin/io.py:98-105 | A name reads exactly when it splits into two pieces, a dawn/dusk prefix and a number. The reading is then their flag and value. |
| Io.LabelRoundTrip | ssjlatbin/io.py:62-105 | Reading back a written label recovers the flag exactly and the latitude rounded to one decimal. |
| Io.StoreKeysOnce | ssjlatbin/io.py:54-63 | A Python dict lists each of its keys once, in insertion order. |
| Io.Insert | ssjlatbin/io.py:63 | Definition: `d[k] = v` sets the value and appends k to the keys only when it is new. |
| Io.Store | ssjlatbin/io.py:63 | Definition: the dictionary after inserting the entries in order into an empty one. |
| Io.StoreLastWins | ssjlatbin/io.py:63 | Under a repeated label, the last column stored wins. |
| Io.StoreDistinct | ssjlatbin/io.py:54-63 | With distinct labels, the keys are the labels in order. |
| Io.FluxFrameOf | ssjlatbin/io.py:54-64 | The conversion as intended, with pandas imported: ValueError exactly when some flag is neither 1 nor −1. Otherwise the frame is indexed by t. |
| Io.FluxFrameLabels | ssjlatbin/io.py:54-64 | The frame's labels are its column keys, each once, and each is the label of some bin. |
| Io.FluxFrameColumn | ssjlatbin/io.py:62-63 | The column under the label of bin i (the last bin with that label) is `fluxes[:, i]`. |
| Io.FluxFrameDistinct | ssjlatbin/io.py:55-64 | When the labels are distinct there is one column per bin, in bin order. |
| Io.FluxFrameLabelled | ssjlatbin/io.py:54-64 | Of the intended conversion (FluxFrameOf): when every bin's label is a given distinct name, the frame succeeds, its labels are those names in order, and each holds its bin's column of fluxes. |
| Io.StoreStep | ssjlatbin/io.py:62-63 | Storing one more bin inserts its label and its column of fluxes into the dictionary built so far. |
| Io.LatbinnedFluxToDataframe | ssjlatbin/io.py:29-64 | The loop, with pandas imported, builds FluxFrameOf, failing at the first bad flag. |
| Io.LatbinnedFluxToDataframeAsWritten | ssjlatbin/io.py:54-64 | As the module is written it never returns a frame: ValueError exactly when some flag is neither 1 nor −1, and NameError (no `pd`) exactly when the intended conversion succeeds. |
| Io.FirstTimeIsFirst | ssjlatbin/io.py:92 | The orbit's `first()` time is missing only when all are missing. Otherwise it is the first time present. |
| Io.FirstTime | ssjlatbin/io.py:92 | Definition: `first()`, the first time present among an orbit's groups. |
| Io.ToPyDatetime | ssjlatbin/io.py:92 | `to_pydatetime()` keeps a missing time missing, and otherwise gives the whole microsecond at or below the nanosecond time. |
| Io.ToPyDatetimeUnique | ssjlatbin/io.py:92 | That microsecond is the only multiple of 1000 ns less than a microsecond below the time. |
| Io.Times | ssjlatbin/io.py:92 | Definition: one time per orbit, its `first()` time made a datetime. |
| Io.Unstack | ssjlatbin/io.py:93 | One row per orbit and one entry per label column. |
| Io.LatbinnedFluxErrors | ssjlatbin/io.py:92-107 | **Errors.** KeyError when the column does not exist. Otherwise ValueError exactly when some label does not read. **Shape.** A result has a time and a row per orbit, and a latitude and a flag per column. |
| Io.LatbinnedFluxOf | ssjlatbin/io.py:66-107 | Definition of the conversion's value: KeyError for a missing variable, then the labels' readings, with the first times as datetimes and the unstacked fluxes. |
| Io.LatbinnedFluxReadings | ssjlatbin/io.py:97-106 | Each column's flag and latitude are the reading of its label. Each orbit's time is its first time cut to whole microseconds by `to_pydatetime()`, and flux (o, i) is the chosen variable of that group. |
| Io.FillColumn | ssjlatbin/io.py:106 | Writes column icol from the unstacked column, and writes nothing else. |
| Io.DataframeToLatbinnedFlux | ssjlatbin/io.py:66-107 | The column loop over the pre-allocated arrays computes LatbinnedFluxOf, failing at the first label that does not read. |
| Io.LabelTextReads | ssjlatbin/io.py:98-105 | A label made by `latbin_label` reads back as the flag of its direction and exactly its bin centre. |
| Io.LabelTextWritten | ssjlatbin/io.py:55-62 | Writing that flag and centre gives the same label again. |
| Io.CategoryReads | ssjlatbin/io.py:98-105 | A bin's category reads back as the flag of its direction and exactly its centre. |
| Io.CategoryWritten | ssjlatbin/io.py:55-62 | Writing a bin's flag and centre as a column label gives its category again. |
| Io.LayoutCategories | ssjlatbin/latbin_pandas.py:43-51 | Position by position, the categories are those of the layout's bins. |
| Io.CategoriesRoundTrip | ssjlatbin/io.py:62-105 | For any bins and their categories in order, every category reads as its bin's (flag, centre), and writing those back gives the category again. |
| Io.FluxReadsBins | ssjlatbin/io.py:92-107 | A frame whose columns are the categories of some bins converts to arrays without error when the variable exists. The flags and latitudes are the bins' own. |
| Io.FrameOfBins | ssjlatbin/io.py:29-64 | When those categories are distinct, writing the arrays back with the intended conversion (FluxFrameOf) gives a frame indexed by the orbits' times. Its labels are the categories in order, and each holds its bin's unstacked fluxes. |
| Io.FluxRoundTrip | ssjlatbin/io.py:92-107 | Take the output of the label binning, whose columns are the categories, and an existing variable. Converting it to arrays always succeeds. It recovers every bin's dawn/dusk flag and its exact centre latitude. |
| Io.FrameRoundTrip | ssjlatbin/io.py:29-64 | Writing those arrays back with the intended conversion (FluxFrameOf) gives a frame indexed by the orbits' times. Its labels are exactly the categories in order, and each category's column is that bin's unstacked fluxes. |

## Left out

- `read_config` (TOML parsing) and reading the CDF files (`_read_ssj_cdf`, pycdflib's `ReadOnlyCDF`): file I/O. The configuration values and the day files' rows are parameters.
- The filesystem search in `ssjcdffn`: the list of files below the CDF root is an input, and Matching stands for the recursive glob.
- `simple_passes`, the foreign equator-pass detector: its boundary indices are an input. Boundaries are not required to be in range or increasing. Slices are clamped as Python clamps them, and the properties about ordering assume strictly increasing boundaries.
- `solar_zenith_angle` and `datetimearr2jd` in `_read_ssj_cdf`: foreign calls.
- `get_orbit_numbered_ssj_range_dataframe`: a multi-day loading loop around file reads that catches IOError.
- `ssjlatbin/netcdf.py` is not part of this model: a file wrapper with float calendar arithmetic.
- `print` and `log.debug` diagnostics.
- IEEE rounding: values are reals, and `np.pi` and 1.6e-19 are decimals. NaN and infinities are modelled only where the code checks for them (`np.isfinite`, division by a zero flux).
- The square root at `fluxcalculations.py:64`. IntegratedFluxVariance returns the quadrature sum, and the tolerance test is stated on squares. TooUncertainIsRatioTest shows this equals the literal test for any non-negative root.
- FluxCalculations.IntegrateFlux: requires that the uncertainty array does not alias the flux array (the caller passes two different CDF variables).
- FluxCalculations.AverageEnergy: the non-finite results are not told apart (±inf versus NaN for a zero number flux).
- Latbin.BinByLatitude: `n_bins = int(round(4*max_lat/delta_lat))` is the integer quotient. The two agree whenever the literal test passes, because the quotient is then a whole number.
- Latitude bin edges are integer degrees. `np.arange` with non-integer steps is not modelled, and `delta_lat > 0` is required.
- Pandas `groupby`, `Categorical`, `unstack` and `pd.cut` are modelled as operations on sequences. The grouping keeps every category, which is the categorical default. Samples without a label belong to no group, and columns are numeric.
- LatbinPandas.TimeMean: the mean time rounds down to whole nanoseconds, where pandas takes a float mean before converting back.
- The `lat_bin_centers` list (`latbin_pandas.py:46-50`) is built but never used by the source, so it is not modelled.
- Io.ParseLabel: the latitude text is read by a decimal parser for optional sign, digits and optional fraction. The other forms `np.float` accepts (exponents, `inf`, `nan`, spaces) are not modelled. No label written at `io.py:62` uses them.
- Io.DataframeToLatbinnedFlux: `fluxvar` is the position of the variable among a group's numeric columns, and a position past the end is the KeyError. `np.float` is the parsed value itself.
- Io.FluxFrameLabelled: states the intended conversion FluxFrameOf, which assumes `import pandas as pd`; as written, io.py:64 raises NameError (see Findings).
- Io.FrameOfBins: its write-back half is the intended conversion FluxFrameOf; as written, io.py:64 raises NameError (see Findings).
- Io.FrameRoundTrip: its write-back half is the intended conversion FluxFrameOf; as written, io.py:64 raises NameError (see Findings).
- Io.SsjCdfFnUnique: assumes a listing without repeated paths, as a directory walk gives.
- The NaN-filled pre-allocation of the output arrays: entries the loops always overwrite start as `None` or 0.0.

## Findings

| source | as written | input that shows it | evidently intended | confidence | as-written member | corrected member |
|---|---|---|---|---|---|---|
| ssjlatbin/latbin.py:43 | Raises unless `(max_lat*4/delta_lat) mod delta_lat == 0`, i.e. unless `delta_lat²` divides `4*max_lat` | `max_lat=80, delta_lat=5` (the defaults): rejected, though 80/5 = 16 bins per quadrant fill exactly 64 columns | Reject exactly when `max_lat` is not a multiple of `delta_lat` | not executed | Latbin.DefaultConfigRejected | Latbin.BinByLatitudeIntended |
| ssjlatbin/latbin.py:43 | The same test accepts configurations whose quadrants need more columns than `n_bins` | `max_lat=1, delta_lat=2`: passes (4*1/2 = 2, 2 mod 2 = 0), `n_bins = 2`, but the four quadrants visit 4 bins and the first orbit's third bin raises IndexError at `bin_lats[2] = ...` (latbin.py:67), before `binned_y` is written | Reject it, since 1 is not a multiple of 2 | not executed | Latbin.OverrunPassesCheck | Latbin.IntendedCheckIsExact |
| ssjlatbin/io.py:64 | `pd.DataFrame(datadict,index=t)`, but the module imports only `datetime`, `glob`, `toml` and `numpy` (io.py:4-7), so `pd` is undefined | any `lats_dawn_dusk_flag` of only 1 and −1, including the empty one: NameError instead of a frame | Import pandas as `pd` and return the frame | not executed | Io.LatbinnedFluxToDataframeAsWritten | Io.LatbinnedFluxToDataframe |
