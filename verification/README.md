# bayes_opt_mdk2 verification pipeline: a Dafny model

This project models the core of `bayes_opt_mdk2`. That system tunes the
parameters of the MEDSLIK-II oil-spill simulator by Bayesian optimisation,
and it scores every simulation against a satellite slick observation with
the Fractions Skill Score (FSS). The model covers:

- the FSS itself: `fss_init`, `fss_accum` and `fss_compute` in `library/Metrics/metrics.py` (module `Fss`);
- the proleptic Gregorian ordinal behind `date(...).toordinal()` (`Calendar`);
- the dates and time alignment of the pipeline: observation and slick identifiers, the simulation timeline, `find_nearest`, the `config1.txt` readers and the experiment identifier (`Dates`);
- the floating-parcel filter, the parcels' extent and its widening by the observation (`Parcels`);
- the comparison grid, the six-column event set, the nearest-neighbour densification, the NaN clean-up and the overlay codes (`Grid`);
- one verification, `compute_sin_fss`, and the script version of it in `compute_fss/test_compute_fss.py` (`SingleFss`);
- the multi-observation selector `compute_multi_fss_service_impl` (`MultiFss`);
- the `MetricsService` facade, which turns every exception into `None`, and the contingency scores (`MetricsFacade`);
- the TOML configuration routines of `ConfigServiceImpl` and `ConfigService` (`Config`);
- the path and result-file routines of `PathController` (`Paths`);
- the configuration rewrite and the best-score bookkeeping of `ExecutionServiceImpl` (`Execution`);
- the parameter and bounds dictionaries (`SimParams`);
- the setup/run workflow with its mode checks and exception wrapping (`Workflow`);
- the start-up checks of `main.py` (`Startup`);
- the objective function the optimiser calls (`Objective`);
- the optimiser's screen logger in `bayes_opt/logger.py` (`ScreenLogger`).

`Base` holds the shared `Result`/`Option` types and the Python exceptions
the core raises. `Text` holds the string routines Python gives for free:
`int()`, `str()`, `'%02d'`, `split`, `join`, `strip`, `ljust` and
`center`.

Everything is a value. A dictionary is an insertion-ordered association
list, because the order of Python dicts matters to the result files. File
contents, the configuration and environment values, and the observation
list appear as parameters. Reals stand for floats; NaN is a separate
constructor where the source produces it.

Where the source has a defect (see "## Findings"), both readings are
modelled. The code as written is what the callers use: the service
wrappers and the selector as written score every slick with
`SingleFss.ServiceFssAsWritten`, which builds the timeline from the
two-digit year and marks cells with the strict `within` join. The
corrected readings (`SingleFss.ServiceFss`, `MultiFss.Select`,
`Objective.Objective`) sit next to them, with the intended properties
proved about them.

## Model

| member | source | states |
|---|---|---|
| Calendar.DaysInMonth | src/serviceImpl/MetricsServiceImpl.py:182 | every month `date()` accepts has between 28 and 31 days |
| Calendar.Ordinal | src/serviceImpl/MetricsServiceImpl.py:182 | `date(y, m, d).toordinal()` succeeds exactly for a valid proleptic Gregorian date, whose ordinal is at least 1; otherwise it raises ValueError |
| Calendar.DaysBeforeYearAgrees | src/serviceImpl/MetricsServiceImpl.py:182 | the closed-form count of days before a year equals the year-by-year count of 365/366-day years |
| Calendar.DaysBeforeMonthLast | src/serviceImpl/MetricsServiceImpl.py:182 | the days before December plus December's length make up the whole year |
| Calendar.OrdinalNextDay | src/serviceImpl/MetricsServiceImpl.py:182 | the next calendar day has an ordinal exactly one larger, so consecutive dates are one whole day apart, including across month and year ends |
| Calendar.OrdinalDayOne | src/serviceImpl/MetricsServiceImpl.py:182 | 1 January of year 1 is day 1 |
| Calendar.OrdinalExample | src/serviceImpl/MetricsServiceImpl.py:182 | 24 August 2021 is day 738026 |
| Calendar.OrdinalLeapDay | src/serviceImpl/MetricsServiceImpl.py:182 | 29 February is rejected in 2021 and accepted in 2020, as day 737484 |
| Fss.Binarize | library/Metrics/metrics.py:78-85 | the binary field has the input's shape and holds 1 exactly at the finite cells at or above the threshold; a non-finite cell is first set to thr - 1 and so reads 0 |
| Fss.Counts | library/Metrics/metrics.py:89-94 | the window counts have the field's shape, and a scale of 1 or less leaves the binary field unchanged |
| Fss.Init | library/Metrics/metrics.py:55 | a fresh object keeps the threshold and scale and starts from consistent (zero) sums |
| Fss.Accumulate | library/Metrics/metrics.py:73-98 | ValueError with the source's message exactly when the two fields are not 2-D arrays of the same shape; otherwise threshold and scale are kept, consistency is kept and no sum decreases |
| Fss.Compute | library/Metrics/metrics.py:118-121 | ZeroDivisionError exactly when the denominator is zero and the sums are still plain Python floats; with numpy sums a zero denominator gives NaN; otherwise the score is 2 Sfo / (Sff + Soo), which lies in [0, 1] |
| Fss.Score | library/Metrics/metrics.py:32-34 | `fss` raises ValueError exactly on a shape mismatch, and a defined score lies in [0, 1] |
| Fss.ScoreAlgebra | library/Metrics/metrics.py:118-121 | on consistent sums, 1 - (Sff - 2 Sfo + Soo) / (Sff + Soo) equals 2 Sfo / (Sff + Soo), which lies in [0, 1] |
| Fss.DotSymmetric | library/Metrics/metrics.py:97 | the cross sum of forecast and observation fractions does not depend on their order |
| Fss.Gap | library/Metrics/metrics.py:118 | the numerator Sff - 2 Sfo + Soo is a sum of squares: never negative, and zero exactly when the two fields are equal |
| Fss.DotNonNeg | library/Metrics/metrics.py:96-98 | sums of products of non-negative fractions are non-negative |
| Fss.SelfZero | library/Metrics/metrics.py:96-98 | a field's sum of squares is zero exactly when the field is all zero |
| Fss.BoxBounds | library/Metrics/metrics.py:90-91 | a window over a binary field counts between 0 and its area |
| Fss.BoxCovers | library/Metrics/metrics.py:90-91 | a window's count is at least each cell it covers |
| Fss.BoxZero | library/Metrics/metrics.py:90-91 | windows over an all-zero field count 0 (the zero padding adds nothing) |
| Fss.CountAt | library/Metrics/metrics.py:90-91 | unfolding step of `Fss.Counts`: for a scale above 1, each count is the count of the window of that size around the cell |
| Fss.CountsBounded | library/Metrics/metrics.py:89-94 | on a binary field every count lies between 0 and the window area |
| Fss.FractionsInUnit | library/Metrics/metrics.py:89-94 | on a binary field every neighbourhood fraction lies in [0, 1] |
| Fss.FractionsSmallScale | library/Metrics/metrics.py:92-94 | with scale 1 or less the fractions are the binary field itself |
| Fss.FractionsEqual | library/Metrics/metrics.py:89-94 | two fractions fields are equal exactly when their window counts are |
| Fss.CountsZero | library/Metrics/metrics.py:89-94 | the counts vanish everywhere exactly when the binary field does, because every window contains its own centre |
| Fss.BinarizeFacts | library/Metrics/metrics.py:78-85 | the binarised field is 0/1, and all zero exactly when the input has no event |
| Fss.ContributionConsistent | library/Metrics/metrics.py:96-98 | one accumulation adds non-negative sums with 2 Sfo <= Sff + Soo |
| Fss.ComputeAfterInit | library/Metrics/metrics.py:55 | computing straight after init divides the float 0.0 by 0.0 and raises ZeroDivisionError |
| Fss.ScoreSymmetric | library/Metrics/metrics.py:32-34 | swapping forecast and observation leaves the score, or the error, unchanged |
| Fss.ScoreNaNIff | library/Metrics/metrics.py:32-34 | on same-shaped fields the score is defined, and it is NaN exactly when neither field has an event |
| Fss.ScorePerfectIff | library/Metrics/metrics.py:32-34 | a defined score is 1 exactly when the two fractions fields coincide |
| Fss.ScoreIdentical | library/Metrics/metrics.py:32-34 | a field scored against itself gives 1, or NaN when it holds no event |
| Fss.ScoreZeroIff | library/Metrics/metrics.py:32-34 | a defined score is 0 exactly when the two fractions fields never overlap |
| Fss.AccumulateTwice | library/Metrics/metrics.py:60-98 | accumulating two pairs in either order gives the same object, whose sums are both contributions added to the start |
| Fss.AccumulateValue | library/Metrics/metrics.py:96-98 | a successful accumulation adds exactly the pair's contribution to the three sums |
| Parcels.FloatingFrom | src/serviceImpl/MetricsServiceImpl.py:114 | the positions from a start on whose status is 1 or 2: strictly increasing, each floating, and none missing |
| Parcels.FloatingIndices | src/serviceImpl/MetricsServiceImpl.py:114 | `nonzero()` of the floating mask: exactly the positions of the floating particles, in increasing order |
| Parcels.SurfaceParcels | src/serviceImpl/MetricsServiceImpl.py:86-123 | one parcel per floating particle, in order, with its longitude, latitude and total (evaporative plus non-evaporative) volume divided by the barrel-to-tonnes factor |
| Parcels.SurfaceParcelsAreFloating | compute_fss/test_compute_fss_lib.py:43-49 | the filter keeps the particles' order, loses no floating particle and never yields more parcels than particles |
| Parcels.Hull | src/serviceImpl/MetricsServiceImpl.py:327-330 | the min/max box holds every parcel, and each of its four sides is attained by some parcel |
| Parcels.ParcelExtent | compute_fss/test_compute_fss_lib.py:174-185 | `np.min` raises exactly on no parcels; otherwise the result holds every parcel and lies inside every box that does, so it is the least such box |
| Parcels.FirstBounds | src/serviceImpl/MetricsServiceImpl.py:324-332 | only row 0 of the observation's bounds is used, and a slick with no feature fails the lookup |
| Parcels.Widen | src/serviceImpl/MetricsServiceImpl.py:332-339 | the four comparisons give the least box holding both the parcels' extent and the observation's bounds |
| Parcels.WidenIdempotent | src/serviceImpl/MetricsServiceImpl.py:332-339 | widening by bounds already inside changes nothing, and widening twice by the same bounds is widening once |
| Grid.Ceil | src/serviceImpl/MetricsServiceImpl.py:141-142 | the least integer not below a real |
| Grid.AxisCount | src/serviceImpl/MetricsServiceImpl.py:141-148 | `arange(lo, hi + c, c)[:-1]` has no entry exactly when hi <= lo; otherwise its n cells starting at lo end at or beyond hi, and n - 1 cells would not reach it |
| Grid.MakeGrid | src/serviceImpl/MetricsServiceImpl.py:125-156 | the grid starts at the box's lower-left corner, is empty along an axis exactly when the box is flat there, and otherwise covers the box |
| Grid.Index | src/serviceImpl/MetricsServiceImpl.py:148-151 | the polygon list runs x-major (y varies fastest), and every cell's number is below the cell count |
| Grid.CellAt | src/serviceImpl/MetricsServiceImpl.py:148-151 | every position of the polygon list names a cell of the grid |
| Grid.IndexRoundTrip | src/serviceImpl/MetricsServiceImpl.py:148-151 | numbering and position are inverse: each cell has exactly one number and each number one cell |
| Grid.InsideOneCell | src/serviceImpl/MetricsServiceImpl.py:376 | a point strictly inside two cells' squares is inside one cell, so the 'within' join gives a parcel at most one cell |
| Grid.SquareFromCorner | compute_fss/test_compute_fss_lib.py:57-59 | every cell's square starts right of and above the grid's lower-left corner |
| Grid.CellOfPoint | src/serviceImpl/MetricsServiceImpl.py:141-151 | the closed squares cover the grid's box: every point of it lies on the square of some cell |
| Grid.WithinIsOn | src/serviceImpl/MetricsServiceImpl.py:376 | a cell with a parcel strictly inside its square also has one on it, so the closed test only adds cells |
| Grid.EdgeParcelInNoCell | src/serviceImpl/MetricsServiceImpl.py:376 | a parcel on the grid's left or bottom edge is strictly inside no cell, so the 'within' join drops it |
| Grid.ParcelOnSomeCell | src/serviceImpl/MetricsServiceImpl.py:327-342 | every parcel inside the box the grid was laid over lies on the square of some cell, as long as the grid has cells |
| Grid.FreshEventSet | compute_fss/test_compute_fss_lib.py:194-195 | `zeros((n, 6)) * nan` gives n rows of six NaNs |
| Grid.EventRow | src/serviceImpl/MetricsServiceImpl.py:364-401 | one finished event-set row holds the cell's number, the centre of its square, and the model, observation and intersection marks, each 1 or NaN: 1 exactly when the cell holds a parcel, touches the slick, and both |
| Grid.FillEventSet | src/serviceImpl/MetricsServiceImpl.py:364-401 | the four filling loops produce the event set whose row k holds k, the centre of cell k's square, and the model, observation and intersection marks of that cell |
| Grid.MarkColumn | src/serviceImpl/MetricsServiceImpl.py:386-401 | one marking loop sets its column to 1 exactly on the selected cells, leaves NaN elsewhere and changes no other column |
| Grid.Densify | src/serviceImpl/MetricsServiceImpl.py:406-412 | the interpolated array has one row per latitude and one column per longitude, and an empty grid fails |
| Grid.ZeroNaN | src/serviceImpl/MetricsServiceImpl.py:415-416 | the shape is kept, NaN becomes 0 and every number is kept |
| Grid.PresenceArray | src/serviceImpl/MetricsServiceImpl.py:406-416 | after densifying and the NaN clean-up, entry [j][i] of the model (observation) array is 1 exactly when cell (i, j) holds a parcel (touches the slick), and 0 otherwise |
| Grid.DensifyCentres | src/serviceImpl/MetricsServiceImpl.py:406 | the meshgrid entry [j][i] is the centre of cell (i, j): each cell is sampled at its own centroid |
| Grid.AsField | src/serviceImpl/MetricsServiceImpl.py:427 | a 0/1 array becomes a valid finite field of the same shape for the score |
| Grid.Union | src/serviceImpl/MetricsServiceImpl.py:418-419 | the overlay keeps the arrays' shape |
| Grid.UnionCodes | src/serviceImpl/MetricsServiceImpl.py:418-419 | on 0/1 arrays the overlay codes each cell uniquely, so both arrays can be read back: NaN for neither, 1 for model only, 2 for observation only, 3 for both |
| SingleFss.ScalesAreTheOddWindows | src/serviceImpl/MetricsServiceImpl.py:422 | the window sizes scored are exactly the odd numbers from 1 to 149 |
| SingleFss.Bounds | src/serviceImpl/MetricsServiceImpl.py:324 | the observation's bounds table has one row per feature, each that feature's box |
| SingleFss.ObservationDate | src/serviceImpl/MetricsServiceImpl.py:169-187 | the observation date is read from the identifier in row 0, and a slick without rows fails the label lookup with KeyError |
| SingleFss.ScoreAt | src/serviceImpl/MetricsServiceImpl.py:427 | a defined score of the two presence arrays at one window lies in [0, 1] |
| SingleFss.Table | src/serviceImpl/MetricsServiceImpl.py:422-430 | the score table has one row per window size, in order, each holding its window and a score that lies in [0, 1] when defined |
| SingleFss.Evaluate | src/serviceImpl/MetricsServiceImpl.py:364-430 | from the grid on, the comparison fails exactly on a grid without cells; otherwise it yields the finished event set, two arrays of the grid's shape and one score per window |
| SingleFss.EvaluateArrays | src/serviceImpl/MetricsServiceImpl.py:379-416 | entry [j][i] of the model (observation) array is 1 exactly when cell (i, j) holds a parcel (touches the slick), and 0 otherwise |
| SingleFss.EvaluateBinary | src/serviceImpl/MetricsServiceImpl.py:411-430 | both arrays are 0/1 and the table scores exactly them |
| SingleFss.NoEventIffZero | src/serviceImpl/MetricsServiceImpl.py:427 | at threshold 1 a presence array has no event exactly when it is 0 everywhere |
| SingleFss.ZeroIffUnmarked | src/serviceImpl/MetricsServiceImpl.py:379-416 | a presence array is 0 everywhere exactly when no cell carries its mark |
| SingleFss.EvaluateMarks | src/serviceImpl/MetricsServiceImpl.py:379-416 | both presence arrays of a grid with cells, entry by entry, are the marks of their cells |
| SingleFss.ScoreNaNIffNothing | src/serviceImpl/MetricsServiceImpl.py:426-430 | a window's score is NaN exactly when neither the model nor the observation marks any cell |
| SingleFss.ScorePerfectWhenAgreeing | src/serviceImpl/MetricsServiceImpl.py:426-430 | when the model marks exactly the cells the observation marks, and at least one, every window scores 1 |
| SingleFss.ModelAt | src/serviceImpl/MetricsServiceImpl.py:376-388 | a cell is marked when a floating parcel is `within` its square (strict test) or lies on the closed square (corrected test), and every strictly marked cell is marked by the closed test too |
| SingleFss.EveryParcelMarks | src/serviceImpl/MetricsServiceImpl.py:376-388 | with the closed cell test, every parcel inside the grid's box marks the model column of some cell |
| SingleFss.EvaluateEvents | src/serviceImpl/MetricsServiceImpl.py:364-401 | row k of the scored event set is the event row of cell k |
| SingleFss.LayOut | src/serviceImpl/MetricsServiceImpl.py:324-342 | the frame fails on no parcel (numpy's min) and then on no observed feature; otherwise it holds every parcel and the first feature, and the grid is laid over it (service) or over the parcels' extent (script) |
| SingleFss.LayOutLeast | src/serviceImpl/MetricsServiceImpl.py:327-339 | the frame lies inside every box holding all parcels and the first feature |
| SingleFss.Compare | src/serviceImpl/MetricsServiceImpl.py:274-430 | a comparison without snapshots fails; a successful one used the nearest snapshot, names the experiment after the simulation string and that snapshot, has a grid with cells and scores every window, finest first; the cell test is a parameter, strict (`within`) in the code as written |
| SingleFss.CompareFails | src/serviceImpl/MetricsServiceImpl.py:296-342 | the failures arise in order: no floating parcel, no observed feature, then a grid without cells, and nothing else fails |
| SingleFss.CompareParts | src/serviceImpl/MetricsServiceImpl.py:278-430 | a successful comparison is the layout of the nearest snapshot's floating parcels followed by the scores on its grid of the cells the chosen test (`within` as written) marks |
| SingleFss.StrictMarksFewer | src/serviceImpl/MetricsServiceImpl.py:376-388 | where the comparison with the `within` join succeeds, the closed test succeeds on the same snapshot and grid, with the same observed array and a model array at least as large in every cell |
| SingleFss.StrictEvaluatesFewer | src/serviceImpl/MetricsServiceImpl.py:376-416 | on one grid, the `within` join gives the same observed array as the closed test and never a larger model entry |
| SingleFss.VariantsAgree | compute_fss/test_compute_fss.py:49-63 | when the first feature lies inside the parcels' extent, the script (grid laid before widening) and the service (grid laid after) give the same outcome, whichever cell test both use |
| SingleFss.LayOutsAgree | compute_fss/test_compute_fss.py:49-63 | a first feature inside the parcels' extent widens nothing, so both variants lay the same grid |
| SingleFss.ServiceFssAsWritten | src/serviceImpl/MetricsServiceImpl.py:197-430 | `compute_sin_fss` as written fails as the timeline built from the two-digit year does, then on an empty slick; a success is the comparison of the observation's date with that timeline, named after the simulation string, on the widened grid with the `within` join |
| SingleFss.ServiceFss | src/serviceImpl/MetricsServiceImpl.py:197-430 | corrected, `compute_sin_fss` fails as the timeline of year 2000 + yy does, then on an empty slick; a success is the comparison with that timeline on the widened grid with the closed cell test |
| SingleFss.ServiceAsWrittenMatchesLast | src/serviceImpl/MetricsServiceImpl.py:197-282 | as written, for a run with a two-digit year and any observation from the year 2000 on, the service compares the observation with the last snapshot of the run |
| SingleFss.ScriptFss | compute_fss/test_compute_fss.py:17-104 | the script fails as the `config1.txt` timeline does; a success is the comparison with the `config1.txt` timeline and name on the grid over the parcels alone, with the `within` join |
| MultiFss.DropZeros | src/serviceImpl/MetricsServiceImpl.py:528 | the text keeps no '0' and grows no longer, and a text with no '0' is kept as it is |
| MultiFss.TwelfthsTruncated | src/serviceImpl/MetricsServiceImpl.py:531 | `int(n / 12)` is floor division for non-negative n and truncates toward zero otherwise |
| MultiFss.DayCountOfLength | src/serviceImpl/MetricsServiceImpl.py:528-531 | the corrected reading of a run length written in decimal gives a twelfth of its hours |
| MultiFss.DayCountAsWrittenWithoutZeros | src/serviceImpl/MetricsServiceImpl.py:528 | a run length without a '0' digit is read the same as written and corrected |
| MultiFss.DayCountDropsZeros | src/serviceImpl/MetricsServiceImpl.py:528-531 | a 120-hour run written "0120" counts 1 day as written and 10 corrected |
| MultiFss.DayCountDropsAllDays | src/serviceImpl/MetricsServiceImpl.py:528-531 | as written, any run length written as '0', one digit d and zeros counts 0 days; corrected it counts d·10^k / 12 |
| MultiFss.CandidatesListed | src/serviceImpl/MetricsServiceImpl.py:531-533 | a folder is a candidate exactly when it is listed for one of the first `days` days from the start |
| MultiFss.Selected | src/serviceImpl/MetricsServiceImpl.py:552-560 | reference selection: the candidates within the run's horizon, in order, and nothing else |
| MultiFss.Scan | src/serviceImpl/MetricsServiceImpl.py:551-582 | the loop yields at most one detection per candidate, the i-th written to directory str(i) |
| MultiFss.ScanReadsAll | src/serviceImpl/MetricsServiceImpl.py:552-560 | a successful scan read every candidate's date, and the run length when there was a candidate |
| MultiFss.ScanSelects | src/serviceImpl/MetricsServiceImpl.py:552-582 | a successful scan scores exactly the selected slicks, in order, each with its own score |
| MultiFss.ScanSucceeds | src/serviceImpl/MetricsServiceImpl.py:552-582 | conversely, the scan succeeds when every date reads and every selected slick scores |
| MultiFss.DirectoriesDistinct | src/serviceImpl/MetricsServiceImpl.py:563 | distinct detections are written to distinct directories |
| MultiFss.MaxSkipNaN | src/serviceImpl/MetricsServiceImpl.py:585 | the column maximum skips NaN; it is NaN exactly when no entry is a number, and otherwise it is an entry at least every number |
| MultiFss.MaxSkipNaNOrderFree | src/serviceImpl/MetricsServiceImpl.py:585 | the maximum does not depend on the order of the rows |
| MultiFss.FinestScore | src/serviceImpl/MetricsServiceImpl.py:571-579 | a detection's score is the window-1 score of its comparison (the service as written, or corrected), read back from row 0 of the saved table, and it exists exactly when the comparison succeeds |
| MultiFss.SelectWith | src/serviceImpl/MetricsServiceImpl.py:522-588 | once the day count is known, an unreadable start fails the selector and with no candidate the result is NaN; slicks are scored by the service as written or corrected, as chosen |
| MultiFss.SelectAsWritten | src/serviceImpl/MetricsServiceImpl.py:511-588 | as written, the selector lists the days counted after dropping the run length's zeros and scores every slick with `compute_sin_fss` as written |
| MultiFss.Select | src/serviceImpl/MetricsServiceImpl.py:511-588 | corrected, the selector lists the days counted from the run length as written in the configuration and scores every slick with the corrected comparison |
| MultiFss.ScanBest | src/serviceImpl/MetricsServiceImpl.py:552-585 | the maximum of a successful scan is the best score over the selected slicks, NaN when none scores a number |
| MultiFss.SelectIsBestSelected | src/serviceImpl/MetricsServiceImpl.py:511-588 | the selector's value is the best finest-scale score over the slicks of the listed days within the horizon |
| MultiFss.SelectWithValue | src/serviceImpl/MetricsServiceImpl.py:543-585 | a successful selection is the maximum of its scan over the listed candidates |
| MultiFss.SelectAsWrittenWithoutZeros | src/serviceImpl/MetricsServiceImpl.py:528 | with no '0' in the run length, the selector as written lists the days the corrected count gives, so it differs from the corrected selector only in how it scores each slick |
| MetricsFacade.Quotient | src/serviceImpl/MetricsServiceImpl.py:55 | Python float division: ZeroDivisionError exactly on a zero divisor, otherwise the quotient times the divisor gives the dividend back |
| MetricsFacade.ScoresAreFractions | compute_fss/test_compute_fss_lib.py:15-18 | with non-negative counts and at least one event, erre and esse are defined and lie in [0, 1] |
| MetricsFacade.FbiasIsRatio | compute_fss/test_compute_fss_lib.py:15-20 | whenever all three are defined, the frequency bias is erre divided by esse |
| MetricsFacade.ErreIsEsseIff | compute_fss/test_compute_fss_lib.py:15-18 | erre and esse agree exactly when misses and false alarms are equal |
| MetricsFacade.ErreServiceAsWritten | src/service/MetricsService.py:17-22 | as written, the erre wrapper is None exactly on a zero total and otherwise returns (a + c) / total, the esse formula |
| MetricsFacade.ErreService | src/service/MetricsService.py:17-22 | corrected, the erre wrapper is None exactly on a zero total and otherwise returns (a + b) / total |
| MetricsFacade.ErreServiceReturnsEsse | src/service/MetricsService.py:17-22 | the wrapper as written is the esse result with the exception swallowed, and it agrees with the corrected one exactly when b == c |
| MetricsFacade.ErreServiceOneMiss | src/service/MetricsService.py:17-22 | on a = 0, b = 1, c = 0, d = 0 the wrapper as written answers 0 where erre is 1 |
| MetricsFacade.FbiasService | src/service/MetricsService.py:24-29 | the bias wrapper is None exactly when hits plus false alarms is zero, and otherwise returns (a + b) / (a + c) |
| MetricsFacade.BarrelToTonnes | src/serviceImpl/MetricsServiceImpl.py:72-84 | the conversion factor raises ZeroDivisionError exactly for a zero density |
| MetricsFacade.TonnesUndoesFactor | src/serviceImpl/MetricsServiceImpl.py:111-121 | the tonnes figure of a parcel times the conversion factor gives its barrels back |
| MetricsFacade.NearestService | src/service/MetricsService.py:66-71 | the wrapper answers None exactly on an empty timeline, and otherwise a nearest index |
| MetricsFacade.SimDateService | src/service/MetricsService.py:80-85 | the wrapper answers a value exactly when the simulation date can be read |
| MetricsFacade.SlickDateService | src/service/MetricsService.py:87-92 | the wrapper answers a value exactly when the slick date can be read |
| MetricsFacade.SlickDateServiceReads | src/serviceImpl/MetricsServiceImpl.py:499-509 | a slick identifier with a valid date is always read, as the ordinal of its day plus its hour in days |
| MetricsFacade.SinFssService | src/service/MetricsService.py:73-78 | the single-comparison wrapper always returns None; its outputs are written exactly when `compute_sin_fss` as written succeeds, and they are that comparison's outcome |
| MetricsFacade.MultiFssService | src/service/MetricsService.py:94-99 | the multi-observation wrapper is None exactly when the selector as written raises, and otherwise that selector's maximum |
| MetricsFacade.MultiFssServiceNoCandidates | src/serviceImpl/MetricsServiceImpl.py:549-588 | when the listed days hold no candidate folder, the service answers NaN, not None |
| Config.Components | src/serviceImpl/ConfigServiceImpl.py:41 | `key.split('.')` always has at least one component |
| Config.Lookup | src/serviceImpl/ConfigServiceImpl.py:41-44 | the descent fails only with TypeError (indexing a leaf) or with KeyError naming a component of the key |
| Config.Put | src/serviceImpl/ConfigServiceImpl.py:65-68 | a successful assignment leaves a table at the root |
| Config.Get | src/serviceImpl/ConfigServiceImpl.py:40-46 | a missing configuration reads as None; otherwise the call succeeds exactly when the descent does, with the node it reaches |
| Config.Set | src/serviceImpl/ConfigServiceImpl.py:65-68 | a missing configuration cannot be indexed (TypeError); otherwise it is the assignment along the key's components |
| Config.LookupAfterPut | src/serviceImpl/ConfigServiceImpl.py:65-68 | after a successful assignment the same path reads the new value |
| Config.PutKeepsOthers | src/serviceImpl/ConfigServiceImpl.py:65-68 | an assignment changes nothing outside its own path: every diverging path reads as before, errors included |
| Config.PutBelow | src/serviceImpl/ConfigServiceImpl.py:65-68 | below the assigned path the tree is the assigned value |
| Config.PutFailsIff | src/serviceImpl/ConfigServiceImpl.py:65-68 | an assignment fails exactly when the descent to the parent fails or reaches a leaf, with the descent's own KeyError; a new last component is simply added |
| Config.DottedKey | src/serviceImpl/ConfigServiceImpl.py:40-44 | a dotted key made of dot-free components addresses exactly those components |
| Config.GetConfigValue | src/service/ConfigService.py:36-44 | `get_config_value` gives the node exactly when the configuration exists and the descent succeeds, and None otherwise |
| Config.SetConfigValue | src/service/ConfigService.py:46-67 | a failed assignment becomes KeyError naming the key and saves nothing; a successful one updates the configuration and saves it once, and a failing save becomes the generic exception carrying the writer's message |
| Config.SetThenGet | src/service/ConfigService.py:36-58 | after a successful `set_config_value` the same key reads the new value, and the saved file holds the updated tree |
| Config.SetKeepsOthers | src/service/ConfigService.py:36-58 | after a successful `set_config_value` every key whose components diverge from the assigned one reads as before |
| Config.LoadConfig | src/service/ConfigService.py:25-34 | loading succeeds exactly on a parsed file; a missing file becomes FileNotFoundError with the path, a decode error the generic exception with the decoder's message |
| Paths.PathJoin | src/controller/PathController.py:113 | `os.path.join` with an absolute second part gives that part |
| Paths.JoinedUnder | src/controller/PathController.py:126-128 | joining a relative name keeps the base in front and makes the name the last piece |
| Paths.SimPieces | src/controller/PathController.py:98 | the simulation string has twelve '_'-separated fields |
| Paths.SimStrFields | src/controller/PathController.py:77-98 | when no configured value holds an underscore, the simulation string splits back into its twelve fields |
| Paths.DetectionDirsDistinct | src/controller/PathController.py:115-128 | detection directories sit under the result directory, are named "detection_" and the counter, and different counters name different directories |
| Paths.HeaderColumns | src/controller/PathController.py:49 | the header columns are the configured keys in reverse order followed by FSS |
| Paths.HeaderReadsBack | src/controller/PathController.py:49-56 | without commas in the keys, the header line splits back into the reversed keys followed by FSS |
| Paths.FileLines | src/controller/PathController.py:35-75 | read back line by line, the result file is the header followed by one line per written row, in order |
| Paths.HeaderFree | src/controller/PathController.py:49-56 | the header is a single line |
| Paths.NamesShareStart | src/controller/PathController.py:201-243 | the observation folder and the simulator's output folder are named by the same "20"-prefixed start fields |
| Paths.CasesDirIsTupleText | src/controller/PathController.py:31-33 | for an absolute cases path the directory created as written is a relative name starting with "(", never the cases/sim_name directory of the results |
| Paths.CasesDirUnderCases | src/controller/PathController.py:31-33 | the corrected cases directory lies under the cases path and is named by the run |
| Paths.ResultDirUnderCases | src/controller/PathController.py:100-113 | the result directory lies under the corrected cases directory |
| Execution.DropFirstDot | src/serviceImpl/ExecutionServiceImpl.py:46 | `replace('.', '', 1)` removes at most one character and invents none |
| Execution.FirstRun | src/serviceImpl/ExecutionServiceImpl.py:47 | `re.findall(r'\s+', line)[0]` is a non-empty run of whitespace, and there is none only when the line holds no whitespace |
| Execution.SpaceRun | src/serviceImpl/ExecutionServiceImpl.py:47 | the whitespace at the front of a text is a prefix of it made of whitespace |
| Execution.FirstKey | src/serviceImpl/ExecutionServiceImpl.py:50-58 | the first key in dict order that occurs in the line, and no earlier key occurs; none when no key occurs |
| Execution.RewriteLine | src/serviceImpl/ExecutionServiceImpl.py:44-63 | a line that is not numeric, or holds no key, is copied; the only failure is IndexError at a numeric line holding a key but no whitespace |
| Execution.NumericTokenHasNoSpace | src/serviceImpl/ExecutionServiceImpl.py:44-46 | the first token of a numeric line holds no whitespace |
| Execution.DigitOrDot | src/serviceImpl/ExecutionServiceImpl.py:46 | in a numeric token every character other than the first '.' is a digit |
| Execution.NumericRun | src/serviceImpl/ExecutionServiceImpl.py:44-47 | on a numeric line the first whitespace run starts with a space, and there is none exactly when the line holds no space |
| Execution.RewrittenLine | src/serviceImpl/ExecutionServiceImpl.py:50-58 | a rewritten line is the value of the first matching key, the template's whitespace run and the key; the value becomes the line's first token |
| Execution.RewriteAll | src/serviceImpl/ExecutionServiceImpl.py:39-63 | the template lines are written in order, each as its rewrite, until the first line whose rewrite raises, and that exception is the stop |
| Execution.UpdateConfig2 | src/serviceImpl/ExecutionServiceImpl.py:25-65 | every failure, an unreadable template included, becomes UpdateConfigException with the update prefix; a success writes one rewritten line per template line |
| Execution.UpdateFailsOnlyAtBareNumber | src/serviceImpl/ExecutionServiceImpl.py:43-65 | a failed rewrite stopped at a numeric line holding a key and no space, after writing every earlier line |
| Execution.UpdateSucceeds | src/serviceImpl/ExecutionServiceImpl.py:43-65 | a template whose numeric lines all hold a space is rewritten in full |
| Execution.ColumnIndex | src/serviceImpl/ExecutionServiceImpl.py:99-101 | a column name's first position in the header, none when it is absent |
| Execution.Column | src/serviceImpl/ExecutionServiceImpl.py:99-101 | reading a column raises KeyError with its name exactly when the header lacks it; otherwise one entry per row |
| Execution.Improves | src/serviceImpl/ExecutionServiceImpl.py:103 | a None score cannot be compared (TypeError); otherwise the copy happens exactly when the maximum is NaN or the score is a number above it |
| Execution.SaveBestAsWritten | src/serviceImpl/ExecutionServiceImpl.py:98-107 | as written, a header without a 'Metric' column raises KeyError("Metric") |
| Execution.SaveBest | src/serviceImpl/ExecutionServiceImpl.py:98-107 | corrected to read 'FSS', the decision fails exactly when the score is None |
| Execution.SaveBestAsWrittenRaises | src/serviceImpl/ExecutionServiceImpl.py:98-107 | the result file's header never has a 'Metric' column, so the lookup as written always raises |
| Execution.SaveBestIsNewRecord | src/serviceImpl/ExecutionServiceImpl.py:98-107 | reading 'FSS', a numeric score is kept exactly when it beats every number in the file; a NaN score is kept exactly when the file holds no number |
| Execution.FssLast | src/controller/PathController.py:49 | FSS is the last column of the result file's header |
| SimParams.Store | src/serviceImpl/MDK2SimParamsServiceImpl.py:27-28 | `d[k] = v` maps k to v, keeps an existing key's place and appends a new key last |
| SimParams.ZipDict | src/serviceImpl/MDK2SimParamsServiceImpl.py:27-28 | `dict(zip(ks, vs))` stores no more keys than the shorter list has entries |
| SimParams.ZipKeys | src/serviceImpl/MDK2SimParamsServiceImpl.py:27-28 | the zipped dict's keys are exactly the keys paired with a value |
| SimParams.ZipLastWins | src/serviceImpl/MDK2SimParamsServiceImpl.py:27-28 | a repeated key carries the value of its last pair |
| SimParams.ZipDistinct | src/serviceImpl/MDK2SimParamsServiceImpl.py:27-28 | with distinct keys the dict is the zip itself: keys in list order up to the shorter list, each with the value at its position |
| SimParams.StoreNew | src/serviceImpl/MDK2SimParamsServiceImpl.py:27-28 | unfolding step of `SimParams.Store`: storing a new key appends it to the order |
| SimParams.ZipOrderFromKeys | src/serviceImpl/MDK2SimParamsServiceImpl.py:27-28 | the zipped dict's key order depends only on the keys and on how many values there are |
| SimParams.ParamsDict | src/serviceImpl/MDK2SimParamsServiceImpl.py:27-34 | both parameter dicts hold only configured names that have a value |
| SimParams.BoundsDict | src/serviceImpl/BayOptBoundsServiceImpl.py:23-24 | the bounds dict holds only configured names that have a bound |
| SimParams.BoundsMatchParams | src/serviceImpl/BayOptBoundsServiceImpl.py:23-24 | when both lists cover every name, the bounds dict and the parameter dict have the same keys in the same order |
| SimParams.ParticlesDict | src/serviceImpl/MDK2SimParamsServiceImpl.py:30-31 | the particle dict exists exactly when the configured count parses with `int()` (ValueError otherwise) and has the single particle key mapped to that count |
| SimParams.ParticlesOfCount | src/serviceImpl/MDK2SimParamsServiceImpl.py:30-31 | a count written in decimal is read back as that count |
| SimParams.MapOver | src/controller/ObjFunctionController.py:39 | a conversion over a dict's keys succeeds exactly when every value converts, and otherwise stops with the first key's exception |
| SimParams.MapValues | src/controller/ObjFunctionController.py:39 | `{k: f(v) for k, v in d.items()}` keeps the key order and maps each value, failing exactly when some value fails |
| SimParams.StoreAllAt | src/controller/ObjFunctionController.py:42 | after storing keys one by one, a key is present when it was before or was stored, with the stored value when stored |
| SimParams.StoreAllKeepsOrder | src/controller/ObjFunctionController.py:42 | the stores never move a key that was already there |
| SimParams.Merge | src/controller/ObjFunctionController.py:42 | `{**a, **b}` is a well-formed dict |
| SimParams.FirstShared | src/serviceImpl/WorkflowServiceImpl.py:101 | the first key of a sequence that a map holds, and none exactly when it holds none of them |
| SimParams.KeywordMerge | src/serviceImpl/WorkflowServiceImpl.py:101 | unpacking a second dict as keywords raises TypeError naming its first key the first dict already holds, and succeeds exactly when they share no key, with the first dict's keys followed by the second's |
| SimParams.MergeDisjoint | src/serviceImpl/WorkflowServiceImpl.py:101 | merging dicts without a shared key appends the second's keys in order and joins the maps |
| SimParams.StoreAllFresh | src/serviceImpl/WorkflowServiceImpl.py:101 | storing keys a dict does not hold appends them in their order |
| SimParams.MergeRightWins | src/controller/ObjFunctionController.py:42 | the merge keeps every key of both, takes a shared key's value from the right, and keeps the left-hand keys first in their order |
| SimParams.RoundOnce | src/controller/ObjFunctionController.py:39-73 | the written (`f'{v}'`) and the shown (`str()`) texts of the parameters both come from the one `round(np.float32(v), decimal_precision)`: both exist exactly when every value rounds, keep the parameters' order, and under each key are the two renderings of the same rounded value |
| SimParams.Config2Params | src/controller/ObjFunctionController.py:39-42 | the configuration text dict exists exactly when every parameter's text exists |
| SimParams.ParticlesWin | src/controller/ObjFunctionController.py:39-42 | in the merged configuration the particle key carries the particle count even when the optimiser has a parameter of that name; every other parameter carries its written text, in the optimiser's order |
| Workflow.NameOf | src/serviceImpl/WorkflowServiceImpl.py:51-55 | the name of the first enum member carrying the value, None exactly when no member carries it |
| Workflow.ServiceModeNames | src/serviceImpl/WorkflowServiceImpl.py:29-31 | the service's modes: 0 is BAYESOPT, 1 is MEDSLIK, and no other value has a name |
| Workflow.CheckMode | src/serviceImpl/WorkflowServiceImpl.py:72-76 | a mode passes exactly when some member carries it; otherwise WrongConfigurationException lists the members and their values |
| Workflow.ControllerAcceptsTwoModes | src/controller/WorkflowController.py:27-29 | the controller's check accepts exactly 0 and 1 and otherwise names both modes in its message |
| Workflow.ModeListText | src/controller/WorkflowController.py:53-54 | the controller's message lists `{'BAYES_OPT': 0, 'MEDSLIK': 1}` |
| Workflow.ChecksAgree | src/controller/WorkflowController.py:49-54 | the service's check and the controller's accept the same values |
| Workflow.Perform | src/serviceImpl/WorkflowServiceImpl.py:106-143 | the steps are attempted in order, every step before the last attempted one passed, and the run stops exactly at the first step whose exception escapes |
| Workflow.PerformSteps | src/serviceImpl/WorkflowServiceImpl.py:106-143 | unfolding step of `Workflow.Perform`: a step that passes is followed by the rest of the steps |
| Workflow.WithTemplate | src/service/ExecutionService.py:24-28 | the configuration-writing step raises exactly what the template rewrite raises |
| Workflow.UpdateAlwaysPasses | src/service/ExecutionService.py:24-28 | the configuration writer never stops a stage, because its service catches what the rewrite raises |
| Workflow.EntriesOf | src/serviceImpl/ExecutionServiceImpl.py:50 | the rewriter receives the dict's items in insertion order |
| Workflow.SetupParams | src/serviceImpl/WorkflowServiceImpl.py:130-135 | a mode-1 configuration exists only when the particle dict does and is then the merge of the parameters' written texts and the particles; a missing particle dict raises AttributeError |
| Workflow.Config1Params | src/serviceImpl/WorkflowServiceImpl.py:92-101 | `dict(**sim_extent, **sim_date, **sim_coords)` raises TypeError when a getter answered None or two of the dicts share a key; otherwise it holds the three dicts' keys in their order and their values |
| Workflow.SetupByMode | src/serviceImpl/WorkflowServiceImpl.py:90-143 | building the combined getter dict comes first and its TypeError stops setup before any step in every mode; after it an unknown mode does nothing, mode 0 generates then compiles, and mode 1 generates, builds the merged configuration, writes it and compiles; then only generation, the parameter conversion or a missing particle dict can stop it, since the configuration writer and compilation catch their exceptions |
| Workflow.SetupNeedsGetters | src/serviceImpl/WorkflowServiceImpl.py:92-101 | a getter that answered None (src/service/MDK2SimExtentService.py:21-27 returns None on any exception) stops setup with TypeError before anything is generated, whatever the mode |
| Workflow.SetupWritesMergedConfig | src/serviceImpl/WorkflowServiceImpl.py:130-138 | in mode 1 the simulator's configuration carries the particle count under the particle key and every other parameter in its written text, parameters first |
| Workflow.RunByMode | src/serviceImpl/WorkflowServiceImpl.py:170-198 | an unknown mode does nothing; mode 0 creates the result file first and removes the detection folders only after probe and maximize; mode 1 runs the model and then scores, and neither step ever stops it |
| Workflow.WrapValueError | src/controller/WorkflowController.py:59-72 | `except ValueError: raise wrap(e)` replaces a ValueError by its wrapper and lets everything else through |
| Workflow.SetupController | src/controller/WorkflowController.py:59-63 | the controller's setup performs the same steps as the implementation |
| Workflow.RunController | src/controller/WorkflowController.py:68-72 | the controller's run performs the same steps as the implementation |
| Workflow.SetupWrapsOnce | src/service/WorkflowService.py:38-42 | a ValueError of the setup leaves the controller wrapped exactly once in SetupException, because the wrapper is not a ValueError; other exceptions pass unchanged |
| Workflow.RunWrapsOnce | src/service/WorkflowService.py:47-51 | a ValueError of the run leaves the controller wrapped exactly once in RunException; other exceptions pass unchanged |
| Startup.BelowTotal | src/main/main.py:24 | Python's string order is total: two different strings are ordered one way or the other |
| Startup.BelowAsymmetric | src/main/main.py:24 | no two strings are ordered both ways |
| Startup.BelowTransitive | src/main/main.py:24 | the string order is transitive |
| Startup.Insert | src/main/main.py:24 | insertion into a sorted list keeps it sorted and adds exactly the new element |
| Startup.Sort | src/main/main.py:24 | `sorted` returns the same elements, in order |
| Startup.SortedUnique | src/main/main.py:24 | two sorted lists with the same elements are the same list |
| Startup.SortEqualIff | src/main/main.py:24 | `sorted(a) == sorted(b)` exactly when the lists hold the same elements equally often |
| Startup.CheckParametersMatch | src/main/main.py:23-25 | the parameter check passes exactly when both key lists hold the same keys equally often, and otherwise raises ValueError with the source's message |
| Startup.MatchIffSameKeys | src/main/main.py:54 | on the keys of two dicts the check passes exactly when the dicts have the same keys, in whatever order |
| Startup.ConfiguredDictsMatch | src/main/main.py:44-54 | parameters and bounds built from lists that cover every configured name pass the check |
| Startup.CheckParticles | src/main/main.py:31-33 | a failing particle check raises ValueError with the source's message |
| Startup.LeastParticleCount | src/main/main.py:31-33 | 572 is the least particle count accepted, and every larger count is accepted |
| Startup.RandomState | src/main/main.py:47 | the seed is None exactly for the text "None"; any other text is `int()` of it, raising ValueError when that fails |
| Startup.RandomStateOfSeed | src/main/main.py:47 | a seed written in decimal is read back as that seed |
| Startup.Attempt | src/main/main.py:50-72 | the stages start in order up to and including the first that raises, and that exception is the one reported |
| Startup.Main | src/main/main.py:35-72 | `main` raises exactly when the seed cannot be read, with the seed's exception; everything inside the `try` is caught |
| Startup.MainStopsAtFirstFailure | src/main/main.py:50-72 | inside the `try` main starts the stages in order and stops at the first that raises, printing it with the source's prefix; when none raises all five run and nothing is printed |
| Startup.MainGuards | src/main/main.py:50-68 | setup never starts unless the parameters match, the particles suffice and the mode is known, and run never starts unless setup went through |
| ScreenLogger.Fit | library/bayesian_optimization_core/bayes_opt/logger.py:61-66 | a cell longer than the cell size is cut to exactly the cell size; a shorter one is kept |
| ScreenLogger.FormatNumber | library/bayesian_optimization_core/bayes_opt/logger.py:48-66 | every number cell is exactly twenty characters wide |
| ScreenLogger.FormatText | library/bayesian_optimization_core/bayes_opt/logger.py:68-86 | every text cell is exactly twenty characters wide |
| ScreenLogger.FormatBool | library/bayesian_optimization_core/bayes_opt/logger.py:88-100 | every flag cell is exactly twenty characters wide |
| ScreenLogger.FormatKey | library/bayesian_optimization_core/bayes_opt/logger.py:102-110 | every key cell is exactly twenty characters wide |
| ScreenLogger.NumberCell | library/bayesian_optimization_core/bayes_opt/logger.py:48-66 | a number whose text fits is shown whole and left-aligned with spaces after it; a longer one keeps its first twenty characters when it has a '.', otherwise its first seventeen and "..." |
| ScreenLogger.LongIntEllipsis | library/bayesian_optimization_core/bayes_opt/logger.py:49-65 | a long int never hits the '.' cut: it shows its first seventeen digits and "..." |
| ScreenLogger.TextCell | library/bayesian_optimization_core/bayes_opt/logger.py:74-86 | a text label shows its first twenty characters, left-aligned |
| ScreenLogger.BoolCell | library/bayesian_optimization_core/bayes_opt/logger.py:88-100 | because `5 > 20` is false, a flag always shows as the word True or False, never as one letter |
| ScreenLogger.KeyCell | library/bayesian_optimization_core/bayes_opt/logger.py:102-110 | a short key is centred with the odd space on the right; a longer one is cut to the cell size |
| ScreenLogger.LineLength | library/bayesian_optimization_core/bayes_opt/logger.py:136 | a line of n full cells is 23n + 1 characters long |
| ScreenLogger.HeaderCells | library/bayesian_optimization_core/bayes_opt/logger.py:138-149 | the header has the iteration and target cells, the constraint cell when constrained, and one cell per parameter, each full width |
| ScreenLogger.Header | library/bayesian_optimization_core/bayes_opt/logger.py:138-166 | the header is its line, a newline and a rule of dashes as long as the line, and the length kept is 23 per cell plus one |
| ScreenLogger.StepCells | library/bayesian_optimization_core/bayes_opt/logger.py:112-123 | a step has one full-width cell per header column |
| ScreenLogger.StepAlignsWithHeader | library/bayesian_optimization_core/bayes_opt/logger.py:112-166 | without colour codes a step line is exactly as long as the header line, so every value sits under its heading |
| ScreenLogger.IsNewMax | library/bayesian_optimization_core/bayes_opt/logger.py:168-176 | a maximum is new exactly when there is one and it beats an already recorded one; the first maximum seen is recorded and is not new |
| ScreenLogger.StartThenEnd | library/bayesian_optimization_core/bayes_opt/logger.py:178-201 | starting prints the header and keeps its length; ending then prints a rule of '=' of that same length |
| ScreenLogger.QuietStep | library/bayesian_optimization_core/bayes_opt/logger.py:181-184 | in verbose mode 1 a step that finds no new maximum prints nothing |
| ScreenLogger.SilentLogger | library/bayesian_optimization_core/bayes_opt/logger.py:199-200 | with verbose 0 nothing is ever printed |
| Objective.RowValues | src/controller/ObjFunctionController.py:73 | the row is the parameters' shown texts in the optimiser's order, followed by the score's text |
| Objective.Head | src/controller/ObjFunctionController.py:47-58 | every call with usable parameters first creates the given cases directory, then writes the configuration, then runs the simulator, and appends nothing yet |
| Objective.Unfold | src/controller/ObjFunctionController.py:28-80 | unfolding step of `Objective.ObjectiveWith`: a call whose parameters are usable consists of those three steps followed by the scoring, the best-detection decision and the row, whose values then all exist |
| Objective.ObjectiveWith | src/controller/ObjFunctionController.py:28-80 | whatever column the best detections are looked up under, a call that returns gives the FSS service's answer |
| Objective.ObjectiveAsWritten | src/controller/ObjFunctionController.py:28-80 | as written (tuple-text cases directory, 'Metric' lookup), unless a parameter is named 'Metric', no call returns |
| Objective.Objective | src/controller/ObjFunctionController.py:28-80 | corrected, a call returns only a score the FSS service actually produced, never None |
| Objective.StagesOrder | src/controller/ObjFunctionController.py:47-80 | after the three fixed steps the effects keep their order, and a call returns exactly when its last effect is the row |
| Objective.EffectOrder | src/controller/ObjFunctionController.py:33-80 | the steps happen in the source's order, none twice; nothing happens exactly when the parameters are unusable; a call returns exactly when it ends by appending its row |
| Objective.WritesMergedConfig | src/controller/ObjFunctionController.py:39-52 | the configuration written carries the particle count under the particle key and every other parameter as `f'{v}'` of its rounded value (`written`, not the `str()` the row uses), the parameters first in their own order |
| Objective.WrittenParams | src/controller/ObjFunctionController.py:39-42 | the merged parameters hold every key of either dict, the particle count under a particle key, and `f'{v}'` of the rounded value under every other key, parameters first |
| Objective.ConfigNeverStops | src/service/ExecutionService.py:24-28 | whatever the template holds, the simulator runs after the configuration is written |
| Objective.ReturnsFssAndRow | src/controller/ObjFunctionController.py:63-80 | a call that returns gives the FSS service's answer, and its last effect is the row of the parameters' shown texts, which then all exist |
| Objective.RowShown | src/controller/ObjFunctionController.py:71-78 | the row goes to the result file of the run's directory and holds `str()` of each rounded parameter (`shown`, not the `f'{v}'` the configuration gets) in the optimiser's order, then the answer's text |
| Objective.RowMatchesHeader | src/controller/PathController.py:49-75 | a row has as many columns as the header exactly when the optimiser passes as many parameters as are configured, and each value sits under its own name exactly when the optimiser's order is the reverse of the configured one |
| Objective.AsWrittenNeverScores | src/controller/ObjFunctionController.py:47-80 | as written, the call creates the tuple-text cases directory, writes the configuration and runs the simulator, and then the best-detection lookup raises KeyError('Metric'), so the objective never appends a row and never returns a score |
| Objective.CorrectedScores | src/controller/ObjFunctionController.py:47-80 | corrected, the call creates the joined cases directory; a scored run returns its score after five effects, the fourth being the best-detection decision; an unscored run (None) stops with TypeError before any row is written |
| Dates.FloatReadsIntText | src/serviceImpl/MetricsServiceImpl.py:497-560 | `float()` reads every text `int()` reads, with the same value, and on text without '.', 'e' or 'E' the two accept the same strings |
| Dates.FloatTrailingDot | src/serviceImpl/MetricsServiceImpl.py:560 | `float("1.")` is 1.0 where `int()` raises |
| Dates.FloatLeadingDot | src/serviceImpl/MetricsServiceImpl.py:560 | `float(".5")` is 0.5 where `int()` raises |
| Dates.FloatExponent | src/serviceImpl/MetricsServiceImpl.py:560 | `float("1e2")` is 100.0 where `int()` raises |
| Dates.FloatNeedsDigits | src/serviceImpl/MetricsServiceImpl.py:560 | `float()` refuses a lone '.', an exponent without digits before it and an exponent mark without digits after it |
| Dates.ScanDigits | src/serviceImpl/MetricsServiceImpl.py:560 | in the whole part every further digit is appended to the mantissa: a run of k digits multiplies it by 10^k and adds their value |
| Dates.DecimalOfDigits | src/serviceImpl/MetricsServiceImpl.py:560 | a non-empty run of digits reads as the number it writes |
| Dates.DecimalReadsDigitRun | src/serviceImpl/MetricsServiceImpl.py:560 | the decimal reader agrees with the digit-run reader of `int()` on every digit run, and accepts nothing else when there is no '.' and no exponent mark |
| Dates.IntFieldsAsDay | src/serviceImpl/MetricsServiceImpl.py:497-509 | four fields that read as integers and name a valid day give the day reader the ordinal of that day plus the hour in days, the same instant the observation date reads |
| Dates.DayInstantOfFields | src/serviceImpl/MetricsServiceImpl.py:497-509 | fields that read as a valid day give its ordinal plus the hour in days |
| Dates.SlickDateOfFields | src/serviceImpl/MetricsServiceImpl.py:499-509 | what the date fields of an identifier read as decides the slick date: the ordinal of the day plus the hour in days |
| Dates.ObsDateOfFields | src/serviceImpl/MetricsServiceImpl.py:158-187 | once the minutes parse, the observation date is the same instant; the minutes' value never matters |
| Dates.ObsDateNeedsMinutes | src/serviceImpl/MetricsServiceImpl.py:179 | unreadable minutes make the observation date fail |
| Dates.ObsDateIsSlickDate | src/serviceImpl/MetricsServiceImpl.py:158-187 | whenever the observation date is defined it equals the slick date of the same identifier |
| Dates.Identifier | src/serviceImpl/MetricsServiceImpl.py:175-179 | a well-formed `YYYYMMDD_HHMM` identifier has thirteen characters before its tail |
| Dates.FieldPositions | src/serviceImpl/MetricsServiceImpl.py:175-179 | the fields sit at positions 0-3, 4-5, 6-7, 9-10 and 11-12, whatever they hold |
| Dates.IdentifierParses | src/serviceImpl/MetricsServiceImpl.py:175-179 | the fields of a well-formed identifier read as the numbers written into it |
| Dates.IdentifierSlickDate | src/serviceImpl/MetricsServiceImpl.py:499-509 | a well-formed identifier's slick date is the ordinal of its day plus its hour in days, for any two-digit hour |
| Dates.IdentifierObsDate | src/serviceImpl/MetricsServiceImpl.py:158-187 | a well-formed identifier's observation date is the same instant |
| Dates.SlickDateIgnores | src/serviceImpl/MetricsServiceImpl.py:509 | the separator at position 8 and everything from position 11 on never affect the slick date |
| Dates.ObsDateIgnores | src/serviceImpl/MetricsServiceImpl.py:175-185 | the separator and everything after the minutes never affect the observation date |
| Dates.SameSlickFields | src/serviceImpl/MetricsServiceImpl.py:509 | identifiers with the same date fields have the same slick date |
| Dates.SameObsFields | src/serviceImpl/MetricsServiceImpl.py:175-185 | identifiers with the same date and minute fields have the same observation date |
| Dates.SlickDateNextDay | src/serviceImpl/MetricsServiceImpl.py:509 | identifiers one calendar day apart at the same hour are exactly 1.0 apart |
| Dates.SlickDateNextHour | src/serviceImpl/MetricsServiceImpl.py:509 | identifiers one hour apart on the same day are exactly 1/24 apart |
| Dates.CenturyPrefix | compute_fss/test_compute_fss_lib.py:106-110 | `int('20' + yy)` for a two-digit year is the year 2000 + yy |
| Dates.SimDateOfFields | src/serviceImpl/MetricsServiceImpl.py:484-497 | `get_sim_date` of readable fields is the ordinal of day dd of month mm of year 2000 + yy plus the hour in days |
| Dates.SimDateNextDay | src/serviceImpl/MetricsServiceImpl.py:497 | simulation starts one day apart within a month are exactly 1.0 apart |
| Dates.SimDateNextHour | src/serviceImpl/MetricsServiceImpl.py:497 | simulation starts one hour apart are exactly 1/24 apart |
| Dates.Timeline | src/serviceImpl/MetricsServiceImpl.py:215-219 | the timeline has one snapshot per hour of the run, none for a non-positive length, the k-th at start + (hour + 1 + k) / 24 |
| Dates.TimelineIncreasing | src/serviceImpl/MetricsServiceImpl.py:216-219 | consecutive snapshots are exactly one hour apart, so the timeline is strictly increasing |
| Dates.RunTimelineOfFields | src/serviceImpl/MetricsServiceImpl.py:197-221 | a run whose fields all read well yields the timeline of its start day |
| Dates.RunTimelineFields | src/serviceImpl/MetricsServiceImpl.py:197-221 | a successful timeline read valid month and day fields, a readable hour and run length, and is the timeline they describe |
| Dates.CorrectedIsFourDigitYear | src/serviceImpl/MetricsServiceImpl.py:204 | the corrected reading is the code as written given the four-digit year |
| Dates.Dist | src/serviceImpl/MetricsServiceImpl.py:238 | `abs(a - v)` is never negative and is zero exactly when a == v |
| Dates.FirstMin | src/serviceImpl/MetricsServiceImpl.py:238 | among the first n entries, the first index at the least distance |
| Dates.Nearest | src/serviceImpl/MetricsServiceImpl.py:223-240 | `find_nearest` raises exactly on an empty array; otherwise it gives an index at the least distance, and the first such |
| Dates.NearestUnique | src/serviceImpl/MetricsServiceImpl.py:238 | the contract determines the answer: any first minimiser is the index returned |
| Dates.NearestOnTimeline | src/serviceImpl/MetricsServiceImpl.py:274-278 | an instant that is itself snapshot k is matched to snapshot k |
| Dates.NearestBeyondEnd | src/serviceImpl/MetricsServiceImpl.py:238 | an instant at or after the end of an increasing timeline is matched to the last snapshot |
| Dates.EarlyOrdinal | src/serviceImpl/MetricsServiceImpl.py:204 | every day of the years 1-99 comes before day 36161 |
| Dates.AsWrittenMatchesLast | src/serviceImpl/MetricsServiceImpl.py:204-278 | as written, with a two-digit year, every observation from the year 2000 on is matched to the last snapshot of the run |
| Dates.CorrectedTimeline | src/serviceImpl/MetricsServiceImpl.py:197-221 | with the century restored, a readable run is the timeline of its start day in year 2000 + yy |
| Dates.IndexOf | compute_fss/test_compute_fss_lib.py:84 | the first position of a character, none when it does not occur |
| Dates.Field | compute_fss/test_compute_fss_lib.py:84-85 | the text matched by `=(.*)\n` holds no newline, and a line without '=' fails with AttributeError |
| Dates.FieldOfLine | compute_fss/test_compute_fss_lib.py:84-85 | a `key=value` line gives back its value |
| Dates.Line | compute_fss/test_compute_fss_lib.py:83 | `lines[i]` succeeds exactly for an index below the line count |
| Dates.SimId | compute_fss/test_compute_fss_lib.py:78-86 | `get_mdksim_id` is the field of the first line of `config1.txt`, IndexError for an empty file |
| Dates.YearFieldCentury | compute_fss/test_compute_fss_lib.py:106-110 | a two-digit year field is read as year 2000 + yy |
| Dates.IntFieldIs | compute_fss/test_compute_fss_lib.py:98-100 | unfolding step of `Dates.IntField`: an integer field is `int()` of its text |
| Dates.ConfigTimeline | compute_fss/test_compute_fss_lib.py:88-132 | a `config1.txt` whose fields all read well gives the timeline of its start day in year 2000 + yy, of the length in columns 11-14 of line 1 |
| Dates.XpIdentifier | compute_fss/test_compute_fss_lib.py:165-166 | the experiment identifier is the simulation name, '_', the snapshot number and "h_" |
| Dates.XpIdentifierHour | src/serviceImpl/MetricsServiceImpl.py:282 | the one-based snapshot number can be read back from the experiment identifier |
| Text.Slice | src/serviceImpl/MetricsServiceImpl.py:175-179 | `s[a:b]` clamps out-of-range bounds, so a short text gives a short or empty slice; in range it is the ordinary slice |
| Text.Repeat | library/bayesian_optimization_core/bayes_opt/logger.py:166 | `c * n` is n copies of c |
| Text.Reverse | src/controller/PathController.py:49 | `[::-1]` puts entry i at position n - 1 - i |
| Text.NatToString | src/controller/PathController.py:126 | `str(n)` is a non-empty digit run without a leading zero |
| Text.Pad2 | compute_fss/test_compute_fss_lib.py:166 | `'%02d' % n` is at least two digits |
| Text.Digits | src/serviceImpl/MetricsServiceImpl.py:175 | a fixed-width numeric field has exactly its width in digits |
| Text.PadRight | library/bayesian_optimization_core/bayes_opt/logger.py:96-99 | `'{:<w}'` pads to width w and starts with the text |
| Text.Center | library/bayesian_optimization_core/bayes_opt/logger.py:103-106 | `'{:^w}'` pads to width w |
| Text.Split | src/serviceImpl/ConfigServiceImpl.py:41 | `split(sep)` always yields at least one piece |
| Text.NatToStringValue | src/controller/PathController.py:126 | the digits `str(n)` writes have the value n |
| Text.ParseNatToString | src/controller/PathController.py:126 | `int(str(n)) == n` |
| Text.ParseDigitRun | src/serviceImpl/MetricsServiceImpl.py:175-179 | `int()` reads a plain run of digits as its value |
| Text.ParseIntReads | src/controller/ObjFunctionController.py:40 | `int()` of text succeeds exactly when, after the surrounding whitespace and one optional sign, a non-empty digit run remains; it answers the digits' positional value, negated after '-', and otherwise raises ValueError quoting the text |
| Text.ParsePad2 | compute_fss/test_compute_fss_lib.py:166 | `int()` reads back what `'%02d'` writes |
| Text.DigitsValueOf | src/serviceImpl/MetricsServiceImpl.py:175 | a fixed-width field's digits read back as the number modulo 10^width |
| Text.ParseDigits | src/serviceImpl/MetricsServiceImpl.py:175-179 | `int()` reads back a fixed-width field whose number fits the width |
| Text.JoinSplit | src/serviceImpl/ConfigServiceImpl.py:41 | joining the pieces of a split with the separator restores the text |
| Text.SplitAround | src/controller/PathController.py:126-128 | a separator between two texts splits them apart: the pieces of the whole are the pieces of each side |
| Text.StripKeeps | src/serviceImpl/MetricsServiceImpl.py:560 | stripping whitespace never brings in a character that was not there |
| Text.SplitJoin | src/controller/PathController.py:52 | splitting a join of separator-free pieces gives the pieces back |
| Text.SplitPiecesFree | src/serviceImpl/ConfigServiceImpl.py:41 | no piece of a split contains the separator |
| Text.SplitFirstPiece | src/serviceImpl/ExecutionServiceImpl.py:44 | the first piece of a split is the text up to the first separator |

## Left out

- Reading and writing files: netCDF snapshots, shapefiles, CSV result files and TOML configuration files become parameters (their contents as values) or returned texts. `makedirs`, directory copies and removals, and the `glob`/`strptime` listing of observation folders are reduced to the names they would produce.
- Geometry: `sjoin`, `dissolve`, CRS reprojection and centroids become predicates on points and squares. The parcels' `within` join is the strict test (`Grid.HasParcelWithin`), which the code as written uses; the closed test (`Grid.HasParcelOn`) is the corrected reading. The observation's join (the default `intersects`) is the `hit` parameter.
- `NearestNDInterpolator`: it is evaluated only at the grid's own centres, where the nearest sample is the cell's own, so the model reads the cell's value there. Its KD-tree search is not modelled.
- Floating point: reals stand for `np.float32`/`float64`/`longdouble`. Rounding such as `round(..., 4)`, `np.arange` drift and the `grid_resolution/110` degree conversion are exact here. A float's decimal rendering (`repr`, `'{:.4f}'`) is an opaque text.
- The Bayesian optimiser itself (`BayesianOptimization`, the Gaussian process, the acquisition function, `JSONLogger`) and the optimiser's internal tracker `_update_tracker` in `bayes_opt/observer.py`.
- Compiling and running the simulator (`subprocess`) and the plots and `savetxt` output of `create_out_file`: each is an effect without a value.
- The DTO and domain getter classes: their fields are read directly.
- The decimal precision getter at `src/serviceImpl/WorkflowServiceImpl.py:95`: its effect is part of the `round` field of `SimParams.Rounding`, which `Workflow.SetupParams` gets as `SimParams.ConfigText`.
- `MDK2SimParamsService.get_config_values` (`src/service/MDK2SimParamsService.py:29-35`): it calls a method the implementation does not define, so it always answers `None`, and nothing calls it.
- Unicode: `isdigit`, `int()`, `float()`, `strip()` and the `\s` of `re` patterns are modelled for ASCII digits and ASCII whitespace only (`Text.IsSpace`: blank, '\t' to '\r' and 0x1C to 0x1F, what `str.isspace` accepts below 128); non-ASCII whitespace such as U+00A0 and non-ASCII digits are not modelled.
- Text.ParseIntReads: underscores between digits (`int("1_0")` is 10 in Python) raise ValueError in `Text.ParseInt`; the texts the program hands to `int()` are configuration numbers, fixed-width date fields and `str()` of ints, which are normally written without them, so the digit-grouping rule was left out.
- SimParams.Rounding: `round(np.float32(v), …)` and the two renderings of its result, Python float's repr (`written`) and numpy's shortest float32 text (`shown`), are opaque functions; the model keeps them apart and ties them to one rounding, but does not compute float32 arithmetic or either text.
- Dates.ParseFloat: `float()` is modelled for decimal text (sign, digits with at most one '.', optional exponent). The texts `inf`, `infinity` and `nan` in any case, and underscores between digits, raise here where Python returns a value; the fields it reads hold decimal numbers.
- SingleFss.ServiceFss: this is the corrected pipeline (four-digit year, closed cell test), not what `compute_sin_fss` computes. The code as written is `SingleFss.ServiceFssAsWritten`, which `MetricsFacade.SinFssService`, `MetricsFacade.MultiFssService` and `MultiFss.SelectAsWritten` use; `SingleFss.ServiceAsWrittenMatchesLast` states what it does to an observation from 2000 on, and `SingleFss.StrictMarksFewer` how its cell test relates to the closed one.
- Density 0: `MetricsFacade.BarrelToTonnes` models the conversion called with a Python float, which raises ZeroDivisionError at density 0. In the pipeline the density is a netCDF attribute, a numpy scalar, so the factor becomes inf and every volume divided by it 0; `Parcels.SurfaceParcels` models that case and gives 0 t.
- Environment parsing in `PathDTO` and the timestamp of a run are parameters.
- The colour codes of the screen logger are a parameter: a function from text to text that the model applies to every cell.
- Calendar.DaysInMonth: states only the 28-31 range. The exact month lengths are pinned down by `Calendar.DaysBeforeMonthStep` and `Calendar.DaysBeforeMonthLast`, which relate them to the year length.
- SimParams.Merge: states only that the merged dict is well formed. What it holds is stated by `SimParams.MergeRightWins`.
- ScreenLogger.FormatNumber: states the cell width only, because a float's digits are an opaque text here.

## Findings

| source | as written | input that shows it | evidently intended | confidence | as-written member | corrected member |
|---|---|---|---|---|---|---|
| src/serviceImpl/MetricsServiceImpl.py:204 | the simulation start date is built with `int(yy)`, the two-digit year, so the timeline falls in years 1-99 | a run starting 2021-08-09 (yy = "21") against an observation in 2021 | year 2000 + yy, as `compute_fss/test_compute_fss_lib.py:106-110` does | high, not executed | SingleFss.ServiceAsWrittenMatchesLast | Dates.CorrectedTimeline |
| src/serviceImpl/ExecutionServiceImpl.py:99-101 | the best-score bookkeeping reads a column named 'Metric', but the result file's header names the score 'FSS' | any result file written by `PathController.create_final_result_file_and_result_dir` | read the 'FSS' column | high, not executed | Execution.SaveBestAsWrittenRaises | Execution.SaveBestIsNewRecord |
| src/service/MetricsService.py:17-22 | `erre_sbl_2021_service` calls `esse_sbl_2021` | a = 0, b = 1, c = 0, d = 0: erre is 1, the wrapper answers 0 | call `erre_sbl_2021` | high, not executed | MetricsFacade.ErreServiceOneMiss | MetricsFacade.ErreService |
| src/serviceImpl/MetricsServiceImpl.py:376 | parcels are joined to grid squares with `op='within'`, and a point on a square's boundary is not within it | a parcel exactly on the grid's left or bottom edge | every parcel inside the grid marks a square | medium, not executed | Grid.EdgeParcelInNoCell | SingleFss.EveryParcelMarks |
| src/serviceImpl/MetricsServiceImpl.py:528-531 | the run length is read after dropping every '0' character, so "0120" hours becomes 12 and `int(12/12)` lists 1 day instead of 10 | simulation length "0120" | read the whole number: 120 hours, 10 listed days | high, not executed | MultiFss.DayCountDropsZeros | MultiFss.DayCountOfLength |
| src/controller/PathController.py:32 | the cases directory is named by an f-string of a tuple, `"('<path>', '<name>')"` | cases path "/cases", run name "run1" | the path joined with the run name | high, not executed | Paths.CasesDirIsTupleText | Paths.CasesDirUnderCases |
| src/controller/ObjFunctionController.py:63-80 | because of the 'Metric' lookup above, every call that reaches the scoring step raises | any usable parameter set | the call returns the FSS score | high, not executed | Objective.AsWrittenNeverScores | Objective.CorrectedScores |
