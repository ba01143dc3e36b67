# cfi: the pair search and design of a meteor-radar wind correlation function

`cfi_dac.py` estimates the correlation function of the mesospheric neutral
wind from meteor-radar measurements. Each measurement has a time, a height,
a latitude and longitude, a Doppler shift and a Bragg vector. For one lag
specification (a reference height band, a vertical, horizontal and temporal
lag, and the resolutions of each), `cfi` does the following:

- It keeps the measurements in an hour-of-day band.
- It scans the working set in overlapping time windows (width 2·dtau, step
  dtau) and records every pair (k, l) whose offsets fall inside the lag
  cells. A dictionary makes sure each unordered pair is recorded once.
  Pairs closer than 2 km or 2 s are dropped.
- It weights each pair by the reciprocal of a diurnal count of pairs. The
  count is a 48-bin histogram, floored at one and interpolated linearly over
  bin centres pinned to 0 h and 24 h.
- For each pair it fills one row of the least-squares design: the six
  Bragg-vector products (uu, vv, ww, uv, uw, vw), the Doppler product
  (2π)²·dop_k·dop_l, and both scaled by the pair's weight.

The helper `vel` looks up a gridded mean wind at a measurement's time and
altitude. It turns both into integer grid indices and clamps them.

The model is written over Dafny `real`. There is one module per part:

- `Common` (common.dfy): the measurement record, the lag specification and
  its defaults, `mod 24`, and numpy's `where` and fancy indexing.
- `HourFilter` (hour_filter.dfy): the hour-of-day subset.
- `PairFinder` (pair_finder.dfy): the windows, the bands, the pair
  predicates, and the window, reference and lag loops. Pairs go into seven
  parallel lists and the key set of `pair_dict`.
- `Diurnal` (diurnal.dfy): the count floor (in place on an array), the
  pinned bin centres, the linear interpolant and the weight.
- `Design` (design.dfy): the row and observation of a pair. The four arrays
  A, Ao, m and mo are filled row by row.
- `Vel` (vel.dfy): the index computation and clamping of `vel`, with the
  as-written and a corrected height index.
- `Inversion` (cfi.dfy): `cfi` from the hour filter up to the
  least-squares solve. It floors the histogram counts and pins the bin
  centres in place on arrays, as the source does.

## Model

| member | source | states |
|---|---|---|
| `Common.Mod24` | cfi_dac.py:161 | numpy `mod(x, 24)`: the result is in [0, 24) and differs from x by a whole multiple of 24 |
| `Common.HourOfDay` | cfi_dac.py:161 | the UTC hour of day of a time in seconds lies in [0, 24) |
| `Common.Where` | cfi_dac.py:163 | `n.where(mask)[0]`: an index is in the result iff it is below n and the mask holds there; the result is strictly ascending |
| `Common.Keep` | cfi_dac.py:220-223 | `idx1[mask]`: an entry is kept iff it is in the input and the mask holds for it |
| `Common.WhereAll` | cfi_dac.py:163 | a mask that holds everywhere selects exactly 0, 1, …, n−1 in order |
| `HourFilter.HourIndices` | cfi_dac.py:161-163 | `t_idx` holds exactly the in-range indices whose hour of day is within dhour_of_day/2 of hour_of_day, ascending |
| `HourFilter.SelectHours` | cfi_dac.py:161-170 | the working set keeps every measurement in the band, and only such measurements; it has one entry per index of `t_idx`, and entry j is the measurement at t_idx[j], all fields subset together |
| `HourFilter.DefaultBandKeepsAll` | cfi_dac.py:144-170 | with the defaults hour_of_day = 0 and dhour_of_day = 48, the subset is the whole table |
| `HourFilter.BandDoesNotWrap` | cfi_dac.py:163 | the band does not wrap at midnight: 00:30 is not within 2 h of 23:00 |
| `PairFinder.MinTime` | cfi_dac.py:187-188 | `n.min(t)` is a lower bound of all times and is attained |
| `PairFinder.MaxTime` | cfi_dac.py:187-193 | `n.max(t)` is an upper bound of all times and is attained |
| `PairFinder.Trunc` | cfi_dac.py:187 | Python `int()` truncates toward zero, for both signs |
| `PairFinder.WindowCount` | cfi_dac.py:187-190 | the loop runs int(span/dtau) times: n ≤ span/dtau < n+1 for dtau > 0, and never for dtau < 0 |
| `PairFinder.ReferenceIndices` | cfi_dac.py:198 | `idx0` holds exactly the measurements strictly inside the reference height band and strictly inside the window |
| `PairFinder.LaggedIndices` | cfi_dac.py:199 | `idx1` holds exactly the measurements strictly inside the lagged band (h0+s_z) and the window shifted by tau |
| `PairFinder.Matches` | cfi_dac.py:215-223 | `idxt` holds exactly the members of idx1 that pass the spatial (distance or east/north), vertical, self-exclusion and temporal tests for k |
| `PairFinder.AcceptedMetFirst` | cfi_dac.py:209-231 | a pair accepted at reference k of window i whose key is new was met before its swap: no earlier window, and no earlier reference in window i, offers the swap |
| `PairFinder.MetFirstOneWay` | cfi_dac.py:190-231 | of two distinct indices, at most one order is met first |
| `PairFinder.RecordKeepsState` | cfi_dac.py:225-237 | accepting an eligible pair that was met first and whose key is new keeps the lists parallel, unique and oriented as met, and keeps the keys equal to the pairs in both orders |
| `PairFinder.ScanMatches` | cfi_dac.py:224-237 | after the loop over idxt every eligible (k, l) of the window, and every pair offered earlier in the scan, is a key; the recorded state stays consistent; keys only grow and each of the seven lists only grows at its end |
| `PairFinder.EnterReference` | cfi_dac.py:209 | idx0 is ascending, so once the references before position ki are scanned, every pair offered at a smaller reference index is a key |
| `PairFinder.ScanWindow` | cfi_dac.py:197-237 | after one window every pair that window or an earlier one offers is a key; the recorded state stays consistent; keys only grow and each list only grows at its end |
| `PairFinder.ScanWindows` | cfi_dac.py:187-237 | the result meets `Outcome`: parallel lists holding each pair's realized lags, no unordered pair twice, keys = pairs in both orders, every pair offered by a window and past the floor, every pair stored in the order the scan met it first, every offered pair recorded, and no pairs without windows |
| `PairFinder.RecordedAsMet` | cfi_dac.py:187-237 | of the two orders of an offered pair, the lists hold exactly the one met first (earliest window, then the smaller reference index) and never the other |
| `PairFinder.FindPairs` | cfi_dac.py:187-237 | an empty working set and dtau = 0 are the two error cases, exactly; otherwise the result meets `Outcome` over the windows of the data |
| `PairFinder.WindowsShape` | cfi_dac.py:187-195 | there are int((max−min)/dtau) windows; window i starts at min + i·dtau and ends 2·dtau later, except the last, which ends at max |
| `PairFinder.WindowsInsideSpan` | cfi_dac.py:187-195 | a window exists only for dtau > 0, and every window is a non-empty interval inside [min t, max t] |
| `PairFinder.ReferenceIsInterior` | cfi_dac.py:198 | because the bounds are strict, a member of any reference set lies strictly between min t and max t |
| `PairFinder.ExtremesNeverReference` | cfi_dac.py:187-198 | the earliest and the latest measurements are in no reference set |
| `PairFinder.ShortSpanNoWindows` | cfi_dac.py:187-190 | a span shorter than dtau gives no window |
| `PairFinder.ShortSpanNoPairs` | cfi_dac.py:187-190 | hence such a span gives no pair and no key |
| `PairFinder.InteriorPairOffered` | cfi_dac.py:187-223 | the windows lose only the two ends of the span: when the span holds one step, a pair in the two bands that passes the per-pair tests and the floor, with t[k] and t[l] − tau strictly between min t and max t, is offered by some window |
| `PairFinder.WindowHolding` | cfi_dac.py:190-195 | two times less than dtau/2 apart, strictly between t0 and the end, lie strictly inside one of the n ≥ 1 windows |
| `PairFinder.InteriorPairRecorded` | cfi_dac.py:187-237 | hence such a pair is recorded after the search, in one of its two orders |
| `PairFinder.ListsMeetFloor` | cfi_dac.py:223-237 | every recorded pair has k ≠ l, a recorded distance above 2 km, a time lag above 2 s in magnitude and within dtau/2 of tau |
| `PairFinder.KeysAreBothOrders` | cfi_dac.py:225-230 | the key set of pair_dict is the set of recorded pairs together with their swaps |
| `PairFinder.FloorBySquares` | cfi_dac.py:226-228 | with a true square root, the 2 km floor holds iff the squared flat-earth distance exceeds 4 |
| `Diurnal.Floored` | cfi_dac.py:249 | every floored count is at least 1; counts ≥ 1 are unchanged and the others become 1 |
| `Diurnal.FloorCounts` | cfi_dac.py:249 | the masked assignment on the array leaves it equal to `Floored` of its old contents |
| `Diurnal.Centres` | cfi_dac.py:250-254 | 48 centres; the first is 0 and the last 24; the others are midpoints of consecutive edges |
| `Diurnal.PinCentres` | cfi_dac.py:250-254 | the array filled with midpoints and overwritten at both ends equals `Centres` |
| `Diurnal.CentresIncrease` | cfi_dac.py:243-254 | edges strictly increasing inside [0, 24) give strictly increasing pinned centres |
| `Diurnal.SearchLeft` | cfi_dac.py:255 | `searchsorted` (left): every entry before the returned index is below x, and the entry at it (if any) is not |
| `Diurnal.Interp` | cfi_dac.py:255 | the linear interpolant is defined exactly on [first centre, last centre] (None outside, as `interp1d` raises) |
| `Diurnal.InterpWithin` | cfi_dac.py:255 | an interpolated value stays within any bounds that hold for all nodes |
| `Diurnal.InterpAtNode` | cfi_dac.py:255 | at a node the interpolant returns that node's value |
| `Diurnal.InterpBetween` | cfi_dac.py:255 | between neighbouring nodes i and i+1 the interpolant is defined and lies on the chord through them: ys[i] + (ys[i+1] − ys[i])/(xs[i+1] − xs[i])·(x − xs[i]) |
| `Diurnal.WeightHour` | cfi_dac.py:273 | the lookup hour mod((t−t0)/3600, 24) lies in [0, 24) |
| `Diurnal.CountAt` | cfi_dac.py:255-273 | `countf` at a pair's lookup hour is always defined and at least 1 |
| `Diurnal.Weight` | cfi_dac.py:273 | every weight 1/countf(…) lies in (0, 1] |
| `Diurnal.WeightAtCentre` | cfi_dac.py:255-273 | at a bin centre the weight is 1 / that bin's floored count |
| `Diurnal.HistogramGivesTable` | cfi_dac.py:243-255 | flooring the counts and pinning the centres of a histogram over [0, 24) always gives a table ready for lookup |
| `Diurnal.Mod24Shift` | cfi_dac.py:161 | shifting a time by whole days does not change its hour of day |
| `Diurnal.WeightHourAtMidnightStart` | cfi_dac.py:243-273 | when the earliest time is a UTC midnight, the lookup hour equals the hour the histogram was built from |
| `Diurnal.WeightHourIsNotHourOfDay` | cfi_dac.py:243-273 | otherwise they differ: with t0 at 01:00 a pair at 02:00 is looked up at hour 1, its histogram hour being 2 |
| `Design.Row` | cfi_dac.py:275-291 | the row has six entries, in `sf_names` order; what they mean is `RowIsBilinear` |
| `Design.Scaled` | cfi_dac.py:275-293 | entry c of the weighted row is w times entry c of the row |
| `Design.RowSymmetric` | cfi_dac.py:275-294 | row and observation do not depend on the order of the pair |
| `Design.RowIsBilinear` | cfi_dac.py:275-291 | Ao[pi]·x equals bkᵀ C bl for the symmetric 3×3 covariance C whose unique entries are x in `sf_names` order (line 32) |
| `Design.ScaledDot` | cfi_dac.py:275-293 | a row scaled by w has w times the product with any x |
| `Design.WeightedResidual` | cfi_dac.py:273-294 | the weighted equation of a pair is its unweighted equation times w, for every candidate x |
| `Design.FillRow` | cfi_dac.py:270-294 | one pass of the loop makes row pi meet `RowOk` with weight w and keeps the rows before it |
| `Design.BuildDesign` | cfi_dac.py:259-294 | fresh arrays of |pairs| rows; every row pi meets `RowOk`: ws[pi] is the weight of pair pi, Ao and mo hold its products and observation, and A and m are those scaled by ws[pi] |
| `Vel.RoundHalfEven` | cfi_dac.py:40 | `n.round` is within 0.5 of x, and a tie goes to the even integer |
| `Vel.RoundIsNearest` | cfi_dac.py:40 | no integer is nearer to x than its rounding |
| `Vel.TimeIndex` | cfi_dac.py:40-44 | ti lies in [0, nt−1] (−1 only on an empty time axis) and is a valid time index nearest to the time offset; it is the half-to-even rounding when that is in range, 0 below and nt−1 above |
| `Vel.HeightIndex` | cfi_dac.py:41-42 | hi is at most nh−1 and equals nh−1 when the floor is at least nh; otherwise alt lies in the step [r0 + hi·dh, r0 + (hi+1)·dh) for dh > 0 and in (r0 + (hi+1)·dh, r0 + hi·dh] for dh < 0, for any hi, negative included |
| `Vel.FloorBinEitherSign` | cfi_dac.py:41 | the floored offset names the height step that holds the altitude, for either sign of dh |
| `Vel.FloorBinDownward` | cfi_dac.py:41 | with dh < 0 the floored offset k names the step (r0 + (k+1)·dh, r0 + k·dh] |
| `Vel.FloorBin` | cfi_dac.py:41 | the floored offset names the step of width dh that holds the altitude |
| `Vel.PyIndex` | cfi_dac.py:45 | Python indexing succeeds exactly for −n ≤ i < n and reads position i mod n |
| `Vel.VelAt` | cfi_dac.py:35-45 | the lookup fails exactly on an empty axis or hi < −nh; otherwise it reads (u, v) at ti and hi, with a negative hi wrapped to hi + nh |
| `Vel.Vel` | cfi_dac.py:35-45 | over an array of measurements it fails iff some lookup fails; otherwise entry i is the lookup of measurement i |
| `Vel.BelowGridReadsTop` | cfi_dac.py:41-45 | as written, an altitude one step below the grid reads the wind of the top gate |
| `Vel.RowReadNotMonotone` | cfi_dac.py:41-45 | as written, altitude r0 − dh reads row nh−1 while the higher altitude r0 reads row 0 |
| `Vel.ClampedHeightIndex` | cfi_dac.py:41-42 | with hi clamped like ti, it lies in [0, nh−1] and equals the floor when that is in range |
| `Vel.VelAtClamped` | cfi_dac.py:40-45 | with both indices clamped, the lookup succeeds exactly when both axes are non-empty |
| `Vel.ClampedRowMonotone` | cfi_dac.py:41-42 | with the clamp, a higher altitude never reads a lower row |
| `Inversion.Cfi` | cfi_dac.py:152-294 | the search runs on the hour-of-day subset, and its two errors are exactly an empty subset and dtau = 0. On success the pairs meet `Outcome`, and row pi of the design meets `RowOk` for pair pi, with the weight table built from the histogram and hours counted from the subset's earliest time |
| `Inversion.PairsInRange` | cfi_dac.py:270-271 | every recorded pair indexes the working set, as the design loop needs |

## Left out

- `get_meas` (cfi_dac.py:48-124) is not part of this model. It reads an HDF5 file, computes NaN-aware statistics and subtracts the mean wind. `vel` is modelled on its own.
- The least-squares solve, the normal-matrix inverse, the residual σ and the NaN fallback of the `try`/`except` (cfi_dac.py:295-309) are not modelled. They are IEEE floating-point linear algebra, and NaN does not exist over `real`. The same goes for `ws=n.array(w)` at line 296.
- `n.histogram` is not modelled, so its counts and 49 edges are inputs of `Inversion.Cfi`.
- `Inversion.Cfi` requires strictly increasing edges inside [0, 24). When all binned hours are equal, numpy widens the range to ±0.5 h, which can leave [0, 24); that case is not modelled.
- `scipy.interpolate.interp1d` is modelled by its formula (`Diurnal.Interp`), not as library code. Its out-of-range `ValueError` is `None`, which the weight lookup provably never meets.
- The realized-lag means returned at line 320 are not modelled: they are means of possibly empty lists.
- The sweep drivers (`hor_acfs`, `ver_acfs`, `temporal_acfs`, `mean_wind_cf`, `example*`, lines 323-585), the MPI setup (lines 23-24), plotting and printing are not modelled.
- Doubles are modelled as reals. Rounding error is not modelled, and m[pi] is w·((2π)²·dk·dl) rather than the left-to-right float product.
- (2π)² is the decimal constant 39.47841760435743.
- `n.sqrt` is a parameter `sqrt` of the search. Only `PairFinder.FloorBySquares` assumes it is a true square root (`IsSqrt`).
- `vel`'s integer indices are unbounded. The int64 width of `dtype=n.int` is not modelled.
- `Vel.VelAt` requires dt ≠ 0 and dh ≠ 0. A zero step makes numpy convert inf/NaN to an unspecified integer, which is not modelled.
- `vel`'s arguments `lats` and `lons` are unused by the source, and so do not appear.
- The lookup hour of the weight, mod((t[k]−t0)/3600, 24) (line 273), is modelled as written. The histogram instead uses mod(tods/3600, 24) (line 243). `Diurnal.WeightHourAtMidnightStart` and `Diurnal.WeightHourIsNotHourOfDay` state when the two agree and that they differ otherwise.
- PairFinder.FindPairs: states which pairs are recorded, in which of their two orders, with which lags, and that the loops only append. It does not state the relative order of the entries in the final lists (by window, then by reference index, then by lag index).

## Findings

| source | as written | input that shows it | evidently intended | confidence | as-written member | corrected member |
|---|---|---|---|---|---|---|
| cfi_dac.py:41-45 | hi = floor((alt − rgs[0])/dh) is clamped only from above, so a negative hi indexes from the top of the height axis | alt = rgs[0] − dh gives hi = −1, which reads v[:, ti, nh−1], the highest gate, while alt = rgs[0] reads gate 0 | hi clamped into [0, nh−1] like ti, so an altitude below the grid reads the lowest gate | medium; not executed | `Vel.RowReadNotMonotone` | `Vel.ClampedRowMonotone` |
