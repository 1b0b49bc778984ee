# EchoMap, verified

EchoMap turns round-trip times that a client measured to a set of probes into a verdict about
where the client can be. This project models that computation in Dafny and proves what it
guarantees: the geometry and the verdict, the statistical spoofing checks, the choice of probes,
single-use challenge tokens under concurrency, the rate limiter, the latency index and the
coordinate printer.

`dafny verify dfyconfig.toml` checks everything. One module per component:

| module | component |
|---|---|
| `Sorting`, `Statistics`, `Medians` | sorting with a comparison, exact sums, means and variances, the upper median |
| `Geometry`, `Intersection`, `Sampling` | distance circles, the 101 by 101 sampling grid, how finely it samples |
| `Exclusions`, `Delays` | excluded regions, the effect of added delay on the circles |
| `Jitter` | range check, variation check, probe correlation, VPN signature |
| `Engine`, `Verdicts`, `Server` | the located result and its score, the verdict, the request handler with its store |
| `DelayedVerdicts` | what added delay does to the kept grid points and to the verdict |
| `ProbeSelection` | nearest probe per region, then the nearest of the rest |
| `Tokens`, `TokenRuns` | the token table as a class, and every interleaving of its locked sections as a state machine |
| `RateLimit` | the per-key window limiter as a class, and its runs |
| `Dataset`, `Labels` | the city-pair index and best match; number and coordinate printing |

## Conventions

- `float64` values are exact reals; round-trip times, counts and clock readings are integers.
- Great-circle distance is a parameter `Earth.dist`. Theorems that need it ask for a pseudometric
  (`Geometry.Pseudometric`), and `Geometry.FlatEarthIsPseudometric` exhibits one, which the
  counterexamples and the exact conditions on `FLAT_EARTH` use. The longitude half-width of the grid is
  the parameter `Earth.lonHalf`.
- A standard deviation is represented by its square, and thresholds on a coefficient of variation
  by thresholds on its square.
- `sort.Slice` is `Sorting.SortSlice`: some permutation, in order when the comparison is a strict
  weak order on the elements, nothing promised about ties. Results therefore hold for every tie order.
- The keyed hash, challenge identifiers, the clock, the dataset answers, the probe table and the
  reference regions are parameters. The probe table has distinct identifiers
  (internal/challenge/challenge.go:50-98), which `SelectProbes` and the handler require.
- Runs of the token machine assume that no challenge identifier is issued twice (`TokenRuns.FreshIds`),
  runs of the limiter that the clock does not go backwards (`RateLimit.Ordered`).

## Where the code and its documentation disagree

The model follows the code.

- The program's README (line 63) says delay only makes circles bigger. The overhead threshold in
  `MaxDistanceFromRTT` makes that false for some delays under 10 ms. The delays for which it holds are none
  at all and those of at least 10 ms, exactly: for one round trip (`Delays.SafeDelayIff`), for a delay on
  whole sample lists (`Delays.SafeShiftIff`), and for the pair check (`Delays.SafeForPairsIff`).
  `Delays.DelayOnlyWidens` says what then follows for measurements.
- Lines 63 and 221 of the program's README also say delay never makes the answer wrong. Even among delays
  of 10 ms and more that is false: delaying the smallest circle moves the sampling grid, and a submission
  can turn REJECTED although the user stands in every widened circle (`DelayedVerdicts.DelayCanReject`).
  On `FLAT_EARTH`, a delay of the measurement with the smallest circle is safe for the verdict exactly when
  it leaves its distance bound as it was or that bound was 0, whatever the other measurements are delayed by
  (`DelayedVerdicts.SafeForVerdictIff`). A single kept location is lost exactly when the moved grid misses it
  (`DelayedVerdicts.LostIffOffGrid`).
- internal/ratelimit/ratelimit.go:15 says sliding window. The window is anchored at the first request
  after the previous one ran out, so an interval of one window length can admit almost twice the limit
  (`RateLimit.RateBound`, `RateLimit.RateBoundAttained`), and a refusal can follow that many admissions
  (`RateLimit.RefusalIsEarned`, `RateLimit.RefusalAfterMost`). With a limit below 1 the first request of
  every window still passes. The configurations that do keep the promise are exactly those with a limit of
  1, or a window of one clock tick and a limit of at least 1 (`RateLimit.SlidingLimitIff`,
  `RateLimit.RefusalsExactIff`); a window of zero or less limits nothing (`RateLimit.NoWindowNoLimit`).
- The comment at internal/geo/geo.go:195 says a region is excluded when it lies outside all circles. The code
  asks for half of them (`Exclusions.ExclusionsExactly`).
- internal/geo/fallback_test.go:9 expects a fall-back to the smallest circle when circles do not overlap.
  `IntersectCircles` returns the zero region, which is centred as expected exactly when a grid point is
  kept after all or the smallest circle is centred at (0, 0) (`Intersection.FallBackIff`).
- `PhysicallyImpossible` (internal/geo/engine.go:183) is also set when all sampled locations in every
  circle are one and the same point (`Verdicts.RejectedIff`, `Verdicts.RejectedWithCommonPoint`), and when
  the circles overlap where no grid point lies. On `FLAT_EARTH` a shared location is sure to prevent both
  exactly when it has a fiftieth of the smallest radius to spare in every circle (`Sampling.RoomIff`).
- The comparison in `BestMatch` is not an order in general (`Dataset.ComparisonCanCycle`), and a dataset
  and three measurements exist whose candidates all beat each other in a circle
  (`Dataset.BestMatchCanFaceACycle`); `Dataset.ComparisonOrdersIff` says exactly when it is an order.
- internal/challenge/challenge.go:49 speaks of 27 servers and internal/grpcserver/server.go:48 of 14 regions;
  the table holds 30 probes in 13 regions, so 16 targets are 13 regional ones and 3 extras.

## Model

| member | source | states |
|---|---|---|
| Sorting.SortSlice | internal/dataset/dataset.go:235-240 | the contract of `sort.Slice`: always a permutation, in order whenever the comparison is a strict weak order on the elements |
| Sorting.BeforeIff | internal/dataset/dataset.go:72 | one name comes before another exactly when, where they stop agreeing, it ends or has the smaller character |
| Medians.SortIntsSorts | internal/geo/geo.go:306-308 | the sorted copy is ascending and has the same elements with the same multiplicities |
| Medians.MedianRank | internal/geo/geo.go:302-310 | the median is a sample with at most n/2 samples below it and more than n/2 at or below it |
| Medians.MedianFromRank | internal/geo/geo.go:302-310 | that rank determines the median: any value with it is the median |
| Medians.MedianPermutation | internal/geo/geo.go:302-310 | the median does not depend on the order of the samples |
| Medians.MedianRaised | internal/geo/geo.go:302-310 | raising each sample by at least d, amounts differing, raises the median by at least d |
| Statistics.Popoviciu | internal/geo/jitter.go:195-205 | variance of values in an interval is at most the square of half its width |
| Statistics.Samuelson | internal/geo/jitter.go:154-160 | a squared deviation from the mean is at most (n - 1) times the variance, for every term |
| Statistics.MomentsPermutation | internal/geo/jitter.go:184-205 | mean and variance do not depend on the order of the terms |
| Geometry.ReachesIff | internal/geo/geo.go:72-85 | which round trips reach a given distance: 10 microseconds a kilometre, after 10 ms of overhead that shorter round trips are spared |
| Geometry.NoSamplesNoReach | internal/geo/geo.go:302-305 | without samples the median is 0 and so is the distance bound |
| Geometry.CheckRatios | internal/geo/geo.go:262-296 | the nested loops with early exit accept exactly when every pair of circles is close enough to meet |
| Geometry.InconsistentMeansNowhere | internal/geo/geo.go:286-291 | when that check fails, no location at all lies in every circle |
| Geometry.IntersectCircles | internal/geo/geo.go:89-165 | the loops over circles and grid points compute the region specified by the kept points, their centroid and its farthest kept point |
| Geometry.SmallestIndex | internal/geo/geo.go:100-105 | the chosen box circle is the first of least radius |
| Geometry.FindSmallest | internal/geo/geo.go:100-105 | the scan with strict comparison finds that circle |
| Geometry.SampleGrid | internal/geo/geo.go:107-139 | the two grid loops collect exactly the specified kept points in order |
| Geometry.InsideEvery | internal/geo/geo.go:126-133 | the loop left at the first excluding circle decides membership in all circles |
| Geometry.Summarise | internal/geo/geo.go:146-164 | the two summary loops compute the centroid and the largest distance from it |
| Intersection.KeptExactly | internal/geo/geo.go:119-139 | the kept points are those of a strictly increasing list of grid numbers, and that list holds exactly the grid points lying in every circle |
| Intersection.KeptIff | internal/geo/geo.go:119-139 | a point is kept exactly when it is one of the 101 by 101 grid points and lies in every circle |
| Intersection.CentreKept | internal/geo/geo.go:100-139 | when the smallest circle's centre lies in all circles it is kept, as grid point (50, 50), so the region is not empty |
| Intersection.KeptInBoxSteps | internal/geo/geo.go:107-139 | for every distance and longitude half-width: kept are exactly the locations in all circles that lie whole fiftieths of radius / 111 in latitude, and of the half-width in longitude, from the smallest circle's centre, 50 each way |
| Intersection.BoxCorners | internal/geo/geo.go:107-117 | each of the four corners of that box is kept exactly when it lies in all circles, and nothing outside the box is kept |
| Intersection.FarthestIsMaximum | internal/geo/geo.go:155-162 | the radius loop yields an upper bound on all distances that is attained, or 0 |
| Intersection.SummaryOfKept | internal/geo/geo.go:146-164 | the region centre stays inside any latitude and longitude box around the kept points, and the radius is the attained maximum distance to a kept point |
| Intersection.CentreBalances | internal/geo/geo.go:146-153 | the latitudes and longitudes of the kept points add up to their number times the centre's |
| Intersection.SingleCircleIsRegion | internal/geo/geo.go:94-98 | with one circle the region holds exactly the locations that circle allows |
| Intersection.ZeroRadius | internal/geo/geo.go:141-164 | the radius is 0 exactly when every kept point is at distance 0 from the centroid, and then all kept points coincide |
| Intersection.InconsistentMeansEmptyRegion | internal/geo/geo.go:119-144 | a failed pair check empties the grid and zeroes the region, although the two functions never call each other |
| Intersection.AddingLargerCircle | internal/geo/geo.go:100-139 | a further circle not strictly smaller than the smallest adds no kept point, so emptiness persists |
| Intersection.EnlargingCircle | internal/geo/geo.go:100-139 | enlarging any circle but the chosen smallest removes no kept point |
| Intersection.AddingCircleIff | internal/geo/geo.go:100-144 | on `FLAT_EARTH`: a further circle is sure to add no kept point, and to leave an empty grid empty, exactly when its radius is at least the smallest one or negative |
| Intersection.FallBackIff | internal/geo/geo.go:141-144 | an empty grid yields a region centred on the smallest circle exactly when that circle is centred at (0, 0) |
| Sampling.ZeroRadiusIff | internal/geo/geo.go:141-164 | where different locations are apart, the region has radius 0 exactly when no two different locations are kept |
| Sampling.RoomIff | internal/geo/geo.go:107-144 | on `FLAT_EARTH`: a location with some room to spare in every circle always leaves a kept point, and always leaves a region of positive radius, exactly when that room is at least a fiftieth of the smallest radius |
| Sampling.RoomNotRejected | internal/geo/engine.go:183 | on `FLAT_EARTH`: a submission whose circles share a location with that much room is not REJECTED |
| Exclusions.ComputeExclusions | internal/geo/geo.go:191-220 | the result is a reordering of the exclusions of the reference regions, confidences descending |
| Exclusions.CountOutside | internal/geo/geo.go:197-203 | the counting loop agrees with the recursive count of excluding circles |
| Exclusions.ExcludedMeansOutside | internal/geo/geo.go:205-211 | a region is excluded exactly when there are circles and at least half of them rule it out; an excluded reference point never lies in all circles |
| Exclusions.ExclusionsExactly | internal/geo/geo.go:191-213 | reported are exactly the reference regions that half the circles leave outside, each with its name and the share of circles that do |
| Delays.DelayNeverShrinksIff | internal/geo/geo.go:72-85 | exact condition on a round trip and a delay for the distance bound not to shrink |
| Delays.SafeDelayIff | internal/geo/geo.go:72-85 | a delay is harmless for every round trip exactly when it is 0 or at least the 10 ms overhead |
| Delays.SafeShiftIff | internal/geo/geo.go:72-85 | the same delays, added to every sample of a list, are exactly those that never shrink the bound of its median |
| Delays.SafeForPairsIff | internal/geo/geo.go:262-296 | one delay on every sample of every measurement never breaks a passing pair check for the same delays exactly; the safe ones are safe whatever the distance |
| Delays.DelayOnlyWidens | internal/geo/geo.go:72-85 | measurements left alone or raised by at least 10 ms per sample: no circle shrinks, and a passing pair check still passes |
| Delays.DelayNeverExpels | internal/geo/geo.go:191-220 | under such delays a location in all circles stays in all of them, and every excluded region was excluded before with at least that confidence |
| Delays.SmallDelayCanBreakConsistency | internal/geo/geo.go:72-85 | one microsecond on two samples at the threshold turns consistent measurements inconsistent |
| DelayedVerdicts.DelayKeepsSamples | internal/geo/geo.go:100-139 | delays that leave the bound of the smallest circle alone lose no kept point |
| DelayedVerdicts.LostIffOffGrid | internal/geo/geo.go:107-139 | after any delays of at least 10 ms, a kept point is lost exactly when it is not on the grid around the new smallest circle |
| DelayedVerdicts.DelayNeverRejects | internal/geo/engine.go:183 | for every pseudometric: with two kept points apart before and the smallest circle left alone, the delayed submission is not REJECTED |
| DelayedVerdicts.UntouchedKeepsVerdict | internal/geo/engine.go:183 | where different locations are apart, a submission that is not REJECTED stays so under delays that leave the bound of the smallest circle alone |
| DelayedVerdicts.SafeForVerdictIff | internal/geo/engine.go:183 | on `FLAT_EARTH`: delays that move the smallest circle's bound from that of one round trip to that of another never turn a submission REJECTED, exactly when the bound stays as it was or was 0 |
| DelayedVerdicts.DelayCanReject | internal/geo/engine.go:183 | 100 ms at the nearest probe turn a concrete submission REJECTED, although the user stands in all the widened circles |
| Jitter.CheckJitter | internal/geo/geo.go:224-258 | one pass computes spread and mean; the answer is the range rule, the reported jitter the spread |
| Jitter.MeanFloat | internal/geo/jitter.go:184-193 | the loop computes the mean, 0 for no samples |
| Jitter.VarianceFloat | internal/geo/jitter.go:195-205 | the loop computes the mean squared deviation from the given mean, 0 for fewer than two samples |
| Jitter.AnalyzeJitter | internal/geo/jitter.go:23-52 | the answer is the variation rule on the squared coefficient of variation, mean and variance of the samples |
| Jitter.VariationBelowSpread | internal/geo/jitter.go:28-34 | the variance is at most the square of half the spread |
| Jitter.NarrowSpreadIsFlagged | internal/geo/jitter.go:46-49 | a spread under 2% of a mean above 50 ms is always flagged |
| Jitter.VariationSubsumesRange | internal/geo/geo.go:245-255 | whatever `CheckJitter` calls abnormal, `AnalyzeJitter` calls abnormal, for all samples |
| Jitter.SubsumptionIsStrict | internal/geo/jitter.go:46-49 | samples that only `AnalyzeJitter` flags |
| Jitter.FewSamplesPass | internal/geo/jitter.go:23-26 | fewer than two samples pass both checks and have no variation |
| Jitter.PairRange | internal/geo/geo.go:224-258 | for two samples, in whole microseconds: the range check fails exactly when they are equal, or average above 50 ms and lie less than 0.5% of that apart |
| Jitter.PairVariationNormal | internal/geo/jitter.go:23-52 | for two samples, in whole microseconds: the variation check passes exactly when they differ, average above 0, vary by 80% at most, and by 1% at least above 50 ms |
| Jitter.CorrelateProbes | internal/geo/jitter.go:62-128 | consistent exactly when the first probe of some order by median meets all others; always consistent when the pair check passes |
| Jitter.RatiosImplyHub | internal/geo/jitter.go:118-124 | the pair check implies the correlation check for every reordering of the measurements, hence every tie order |
| Jitter.HubMissesInconsistency | internal/geo/jitter.go:114-124 | the converse fails: a concrete case |
| Jitter.HubDecidesIff | internal/geo/jitter.go:114-124 | the correlation check implies the pair check for up to two measurements, and for every larger number it does not |
| Jitter.DetectVPN | internal/geo/jitter.go:132-182 | true exactly on the VPN pattern over the mean and variance of the medians and every probe's variation |
| Jitter.MedianMoments | internal/geo/jitter.go:137-160 | the three loops compute mean and variance of the medians |
| Jitter.VpnMeansFlat | internal/geo/jitter.go:154-166 | when flagged, every squared deviation of a median is below 0.0025 (n - 1) times the squared mean |
| Jitter.VpnMediansWithinFifth | internal/geo/jitter.go:154-166 | with up to 17 probes every flagged median is within a fifth of the mean |
| Jitter.PairVpn | internal/geo/jitter.go:137-166 | one sample from each of two probes is flagged exactly when they average 50 ms or more and vary by less than 5% |
| Jitter.SteadyPairVpn | internal/geo/jitter.go:168-181 | the same two samples from both of two probes are flagged exactly when the upper is 50 ms or more and they vary by 3% at most |
| Jitter.VpnMeasurementOrder | internal/geo/jitter.go:132-182 | reordering the measurements does not change the flag |
| Jitter.VpnSampleOrder | internal/geo/jitter.go:132-182 | reordering the samples inside measurements does not change the flag |
| Engine.ComputeScore | internal/geo/engine.go:189-230 | the running score equals a sum of points in twentieths, clamped, and 0 for a zero radius |
| Engine.DatasetOnlyAdds | internal/geo/engine.go:167-171 | confidence lies between the physics-only confidence and that plus 0.15, all within 0 to 1 |
| Engine.ScoreIsMonotone | internal/geo/engine.go:189-230 | more probes, a smaller radius, a closer match and a check that passes never lower the score |
| Engine.ScoreInParts | internal/geo/engine.go:189-230 | what each piece of evidence is worth: 0.1 and 0.2 for 3 and 6 probes and for radii below 2000 and 500 km, 0.05 and 0.15 for errors below 0.6 and 0.3, 0.25 between a check that passes and one that fails, all capped at 1 |
| Engine.Locate | internal/geo/engine.go:84-187 | every field of the result: region, flags, both scores, exclusions up to order, probe results with expected times, first fastest probe; the empty result for no measurements |
| Engine.ProbeLine | internal/geo/engine.go:93-113 | a probe's line: median and spread of its samples in milliseconds, its distance bound |
| Engine.ExpectedIff | internal/geo/engine.go:127-154 | a match is reported exactly when the dataset names a city, and expected times are the dataset's, 0 without one |
| Engine.NearestHasLeastMedian | internal/geo/engine.go:157-165 | the nearest probe is the first of those with the least median |
| Engine.LocatedExclusions | internal/geo/engine.go:122-123 | the result's exclusions are those of the regions that half the circles rule out, the surest first |
| Engine.MeasureProbes | internal/geo/engine.go:89-114 | the loop builds the circle and result of every probe and notes any abnormal jitter |
| Engine.FillExpected | internal/geo/engine.go:138-153 | expected times are filled in for exactly the probes the dataset answers for |
| Engine.NearestProbe | internal/geo/engine.go:157-165 | the first of the probes with the lowest median |
| Verdicts.Evaluate | internal/grpcserver/server.go:98-139 | flags overwritten after locating, status by priority, and the suspicious bit that leaves the pair check out |
| Verdicts.VerdictSummary | internal/grpcserver/server.go:105-110 | OR-ing the correlation flag in never changes the ratio flag: it equals the failed pair check |
| Verdicts.InconsistentIsRejected | internal/grpcserver/server.go:132-139 | a failed pair check always ends in REJECTED with a zero region and no confidence |
| Verdicts.SuspiciousIsRecorded | internal/grpcserver/server.go:174 | SUSPICIOUS arises only from the VPN pattern or abnormal jitter, so the stored bit is set although it ignores the pair check |
| Verdicts.RatioAnomalyMeansRejected | internal/grpcserver/server.go:204-210 | the ratio anomaly is only logged beside a REJECTED result |
| Verdicts.RejectedIff | internal/geo/engine.go:183 | REJECTED exactly for two or more probes whose kept points are all at distance 0 from their centroid |
| Verdicts.RejectedMeans | internal/geo/engine.go:183 | the same in terms of the region: two or more probes and radius 0 |
| Verdicts.SuspiciousIff | internal/grpcserver/server.go:132-139 | SUSPICIOUS exactly when not rejected and the VPN pattern or abnormal jitter was seen |
| Verdicts.RejectedWithCommonPoint | internal/geo/engine.go:183 | two probes rejected although a sampled location lies in both circles |
| Verdicts.ConfirmedIff | internal/grpcserver/server.go:137-139 | for any number of probes, none and one included, CONFIRMED exactly with a positive radius, no flag, and at least five twentieths from probes, radius and dataset |
| Verdicts.ConfirmedInNumbers | internal/geo/engine.go:189-230 | the same evidence in numbers of probes, kilometres and match error |
| Verdicts.ConfirmedEvidence | internal/grpcserver/server.go:132-139 | CONFIRMED implies at least one probe, a sampled point in all circles, all pairs meeting, normal jitter everywhere, no VPN pattern, and three probes or a radius below 2000 km |
| Verdicts.ConfidenceBounds | internal/grpcserver/server.go:141-147 | the same confidence bounds for every verdict, the empty submission included |
| Verdicts.EmptyIsPlausible | internal/geo/engine.go:85-87 | an empty submission is PLAUSIBLE with no confidence and nothing flagged |
| Server.Handler.FetchChallenge | internal/grpcserver/server.go:37-68 | refuses exactly the empty client; otherwise issues one entry and returns its identifier, token and expiry in seconds, the 16-probe selection as targets with ping count, and the timeout, integers wrapped to 32 bits |
| Server.Handler.BuildProbeMap | internal/grpcserver/server.go:217-224 | maps identifiers to table coordinates, all of the table's when it has at most 100 probes |
| Server.IssuedTargetsAreAccepted | internal/grpcserver/server.go:49-96 | whatever resolving reports returns, it is a success when every report names a handed-out target |
| Server.ResolvedInFull | internal/grpcserver/server.go:81-95 | every report becomes the measurement of the probe it names, with exactly its samples, at that probe's place in the table |
| Server.Handler.ResolveReports | internal/grpcserver/server.go:79-96 | measurements carry the reported samples and the table's coordinates; refused, for a table of at most 100 probes, exactly when an identifier is not in it |
| Server.Handler.SubmitMeasurement | internal/grpcserver/server.go:71-214 | consumes the challenge whatever happens; which error when; on success the verdict of the resolved reports, stored under a free key with the issued client, and the anomalies; keeps the store invariant |
| Server.TargetsTellProbes | internal/grpcserver/server.go:51-59 | each target has its probe's identifier, host and port and the common number of pings |
| Server.RecordTellsVerdict | internal/grpcserver/server.go:166-188 | a stored result carries the verdict's status, confidence, region and suspicious bit, and the matched city and error or neither |
| Server.AnomaliesIff | internal/grpcserver/server.go:190-210 | an anomaly is logged once for each of abnormal jitter, VPN and inconsistency that the verdict shows, and no other |
| Server.SavingKeepsStore | internal/grpcserver/server.go:165-211 | inserting a result of a consumed challenge and appending its anomalies keeps every record with the client it was issued to, and every anomaly beside a record of the same client |
| Server.Handler.Save | internal/grpcserver/server.go:165-211 | the whole new store and anomaly list, the store unchanged when the key is taken; for a result of a consumed challenge, keeps: records name the issued client, SUSPICIOUS has its bit, ratio anomalies sit beside REJECTED |
| ProbeSelection.NearestIsLeast | internal/challenge/challenge.go:212-221 | a region's first nearest probe is in the table and no farther than any probe of the region |
| ProbeSelection.Exchange | internal/challenge/challenge.go:210-230 | any set covering all regions can be turned, at no cost and no change of size, into one holding every region's nearest probe |
| ProbeSelection.FirstAreLeast | internal/challenge/challenge.go:245-256 | no k of the remaining probes have a smaller total distance than the first k in sorted order |
| ProbeSelection.GreedyIsLeast | internal/challenge/challenge.go:175-183 | regional nearest plus nearest of the rest has the least total distance of all covering sets of that size |
| ProbeSelection.SelectProbes | internal/challenge/challenge.go:184-259 | everything when count allows; with one slot per region, exactly count distinct probes, each region's nearest, least total of all covering subsets; otherwise the nearest of the alphabetically first regions, one when count is not positive |
| ProbeSelection.SelectedFromTable | internal/challenge/challenge.go:184-259 | for every count, selected probes are the table's, each reported at its distance from the estimate |
| ProbeSelection.AllAreSelected | internal/challenge/challenge.go:185-192 | with room for the whole table, the whole table in its order |
| ProbeSelection.LeastDistances | internal/challenge/challenge.go:194-259 | with one slot per region: no choice of as many table probes that covers every region has a smaller sum of distances from the estimate |
| ProbeSelection.NearestAreSelected | internal/challenge/challenge.go:210-256 | with one slot per region: first every region's nearest table probe, in order of region, the first of several; then the others, nearest first |
| ProbeSelection.FirstRegionsAreSelected | internal/challenge/challenge.go:210-230 | with fewer slots: the nearest table probes of the alphabetically first regions, one when count is not positive |
| ProbeSelection.PickHeads | internal/challenge/challenge.go:194-230 | nearest probes of the alphabetically first regions, stopped at count but never before one |
| ProbeSelection.GroupByRegion | internal/challenge/challenge.go:195-198 | the groups partition the table by region in table order |
| ProbeSelection.SortedRegions | internal/challenge/challenge.go:204-208 | map keys in any iteration order become the strictly ascending list of regions |
| ProbeSelection.NearestIn | internal/challenge/challenge.go:213-221 | the scan finds the first probe of least distance |
| Tokens.Manager.GenerateToken | internal/challenge/challenge.go:110-138 | adds exactly the issued entry: it expires the configured time from now, with the hash over identifier, client and that time; returns the identifier, that hash and the expiry in whole seconds |
| Tokens.Manager.GetClientID | internal/challenge/challenge.go:141-149 | the client of a live challenge, empty otherwise |
| Tokens.Manager.ValidateToken | internal/challenge/challenge.go:152-173 | removes the entry whatever the outcome; exactly when it is unknown, expired, invalid or accepted, in that order |
| TokenRuns.StepKeepsOneHolder | internal/challenge/challenge.go:153-158 | under every step, at most one submission holds the entry of a challenge |
| TokenRuns.RunKeepsInv | internal/challenge/challenge.go:110-173 | the table, submission, holder and store invariants hold after every interleaving of the locked sections |
| TokenRuns.BarredForGood | internal/challenge/challenge.go:152-158 | a submission without the entry of a consumed challenge never gets it in the rest of the run |
| TokenRuns.AtMostOneSuccess | internal/challenge/challenge.go:151-158 | two submissions that succeed on one challenge at any two times of a run are the same one, even when the first success was dropped in between |
| TokenRuns.SuccessIsEarned | internal/challenge/challenge.go:160-173 | success means the issued token was presented and checked no later than its expiry |
| TokenRuns.SuccessIsInTime | internal/challenge/challenge.go:119-173 | in every run, a success on a challenge was checked no later than the configured time after its issue step, with the hash made for that client and time |
| TokenRuns.IssuedSplits | internal/challenge/challenge.go:124-158 | issued challenges are the live and the consumed ones, disjointly |
| TokenRuns.RecordsNameTheirClient | internal/grpcserver/server.go:73-76 | no result is lost to a duplicate key, and a stored result names the issued client exactly when its writer read the client after the challenge was issued |
| TokenRuns.EarlyReadLosesTheClient | internal/grpcserver/server.go:73-76 | a run in which a challenge issued to a client ends with a stored result that names no one |
| TokenRuns.SerialSubmission | internal/grpcserver/server.go:73-186 | an uninterrupted submission at the end of any run: the entry gone whatever the outcome, the decision that of the entry found, and a result stored under a free key with the issued client exactly when accepted with known probes |
| TokenRuns.SerialOutcome | internal/challenge/challenge.go:152-173 | the outcome of an uninterrupted submission in terms of the issue step: unknown when not live, expired after the configured time, invalid for another token in time, accepted otherwise and only then |
| RateLimit.Limiter.Allow | internal/ratelimit/ratelimit.go:38-57 | the decision and the client table are those of the run extended by this request; other keys untouched |
| RateLimit.RateBound | internal/ratelimit/ratelimit.go:38-57 | over every run, the most requests of a key that an interval of any length admits: a full window for every window length begun, and all but one of another unless the length is one tick past a multiple |
| RateLimit.RateBoundAttained | internal/ratelimit/ratelimit.go:45-56 | for every length some run attains that bound; over one window length of two ticks or more, twice the limit less one |
| RateLimit.SlidingLimitIff | internal/ratelimit/ratelimit.go:15-57 | no interval of one window length ever admits more than the limit, exactly when the limit is 1, or the window is one tick and the limit at least 1 |
| RateLimit.RefusalsExactIff | internal/ratelimit/ratelimit.go:38-57 | every refusal follows exactly the limit of admissions in the last window length for those same configurations, and no others |
| RateLimit.NoWindowNoLimit | internal/ratelimit/ratelimit.go:45-49 | a window length of zero or less admits everything |
| RateLimit.CountIsAdmitted | internal/ratelimit/ratelimit.go:51-56 | a window's counter is the number of requests admitted since its anchor |
| RateLimit.RefusalIsEarned | internal/ratelimit/ratelimit.go:51-53 | a refusal means exactly the capacity, the limit but at least 1, was admitted since the anchor, and between that and the interval maximum in the last window length |
| RateLimit.RefusalAfterMost | internal/ratelimit/ratelimit.go:45-56 | for every configuration a run ends in a refusal that follows that maximum |
| RateLimit.KeysAreIndependent | internal/ratelimit/ratelimit.go:44-56 | a key's window and decisions in an interleaved run equal those of the run filtered to that key |
| Dataset.FromEntries | internal/dataset/dataset.go:47-63 | the loop builds the last-wins index and city table, cities at (0, 0) left out |
| Dataset.LoadRows | internal/dataset/dataset.go:102-123 | header and short rows skipped; the same index over the rows read, all cities kept |
| Dataset.RowColumns | internal/dataset/dataset.go:108-116 | what stands in which of the nine columns |
| Dataset.CityIsLastPlaced | internal/dataset/dataset.go:52-61 | a city is known exactly when some entry mentions it with accepted coordinates, and lies where the last such mention puts it |
| Dataset.PairKeySymmetric | internal/dataset/dataset.go:71-76 | the joined key does not depend on the order of the names |
| Dataset.NoBarIsUnambiguous | internal/dataset/dataset.go:67-76 | names without a bar have a key that splits one way only |
| Dataset.KeyDetermines | internal/dataset/dataset.go:71-76 | an unambiguous key belongs to one unordered pair |
| Dataset.LookupIsLastMatch | internal/dataset/dataset.go:144-147 | after any entries, lookup returns the last entry of the unordered pair, and nothing exactly when there is none |
| Dataset.LookupAgreesIff | internal/dataset/dataset.go:52-54 | lookup agrees with the scan for every list of entries exactly when the key is unambiguous |
| Dataset.ScoreCity | internal/dataset/dataset.go:196-227 | the loop computes mean normalised error and match count over the measurements with data |
| Dataset.ErrorIff | internal/dataset/dataset.go:200-219 | a probe's error is the distance of its median from the expected time, above or below, relative to that time; it has one exactly with a known city and a positive expected time |
| Dataset.ScoreIsMean | internal/dataset/dataset.go:196-227 | a city's score times the number of measurements with data is the sum of their errors; none exactly without any |
| Dataset.BestMatch | internal/dataset/dataset.go:186-249 | for every map iteration order: no match exactly when no city has data; where the comparison orders the candidates nothing beats the choice, and with errors equal or a band apart it has least error and most matches among those |
| Dataset.ComparisonOrdersIff | internal/dataset/dataset.go:235-240 | exact condition on triples of candidates for the tie-band comparison to be a strict weak order |
| Dataset.UnbeatenIsNearBest | internal/dataset/dataset.go:235-247 | an unbeaten candidate is within 0.01 of the least error and has the most matches among those less than 0.01 from it |
| Dataset.SeparatedArgmin | internal/dataset/dataset.go:235-247 | with errors equal or a band apart, unbeaten means least error and most matches among those |
| Dataset.ComparisonCanCycle | internal/dataset/dataset.go:235-240 | three candidates that beat each other in a circle, so none is unbeaten |
| Dataset.BestMatchCanFaceACycle | internal/dataset/dataset.go:186-249 | a dataset built from six entries and three measurements whose candidates are exactly three such cities |
| Labels.IntToStr | internal/geo/reverse.go:56-79 | digit loop and in-place reversal yield the decimal text, and a bare minus for the least 64-bit integer |
| Labels.ReverseInPlace | internal/geo/reverse.go:70-73 | the two-index loop reverses the buffer |
| Labels.PrintParseIff | internal/geo/reverse.go:56-79 | parsing the printed text gives the number back exactly when it is not the least 64-bit integer |
| Labels.FormatFloat | internal/geo/reverse.go:35-54 | whole part, point and exactly two fraction digits of the value truncated towards zero, when the whole part fits in 64 bits; a bare minus for the whole part when it is the least 64-bit integer |
| Labels.TwoPlacesParse | internal/geo/reverse.go:38-50 | the text always parses, to its whole part and hundredths |
| Labels.NonNegativeTruncates | internal/geo/reverse.go:35-54 | from 0 up, the parsed value v satisfies v <= f < v + 0.01 |
| Labels.PrintedWithinHundredthIff | internal/geo/reverse.go:38-50 | on all reals, within a hundredth exactly outside (-1, -0.01], where the sign is lost |
| Labels.RegionLabel | internal/geo/reverse.go:20-33 | city, then both coordinates as magnitude, degree sign and hemisphere letter, when both fit in 64 bits |
| Labels.PrintedCoordinates | internal/geo/reverse.go:20-79 | digits, minus sign, point, degree sign and hemisphere letters in concrete texts |
| Labels.CoordinateReadsBack | internal/geo/reverse.go:22-32 | with the hemisphere letter every coordinate, negative ones included, reads back within a hundredth towards zero |

## Left out

- Floating-point rounding, 64-bit overflow of sums of round-trip times, trigonometry and great-circle distance itself.
- gRPC wiring, the limiter's interceptor, start-up, configuration, generated protocol code and the command-line client.
- The RIPE Atlas and Globalping clients.
- SQL: the store is a map whose insert fails on a duplicate key, plus an anomaly list; queries over it are not modelled.
- Cryptography: the keyed hash is an arbitrary function, and freshness of challenge identifiers is a hypothesis.
- The concrete probe, city and reference-region tables, `ReverseGeocode`, `CitiesInRegion`, `Cities` and `LookupByProbeCoords`: fixed data, filters and argmins.
- The block of `CorrelateProbes` that computes a distance ratio and then does nothing with it (internal/geo/jitter.go:94-112).
- The default branch of `formatFloat`, which no caller reaches.
- CSV decoding itself: rows arrive split, and trimming and number parsing are parameters.
- Timestamps, the region label and the detail texts of stored records.
- Server.Handler.SubmitMeasurement: runs without interleaving; `TokenRuns` covers the interleavings of its locked sections.
- Labels.FormatFloat: promises nothing of values whose whole part does not fit in 64 bits, for which the conversion is platform-defined and here the parameter `beyond`.
- Labels.RegionLabel: likewise promises nothing of coordinates beyond 64 bits.
- Intersection.AddingCircleIff: exact on `FLAT_EARTH`; for every distance `Intersection.AddingLargerCircle` gives the safe half.
- Sampling.RoomIff: exact on `FLAT_EARTH`; the room needed under the great-circle distance is not stated.
- DelayedVerdicts.SafeForVerdictIff: exact on `FLAT_EARTH`; for every distance under which different locations are apart `DelayedVerdicts.UntouchedKeepsVerdict` gives the safe half.
- ProbeSelection.SelectProbes: fills in all distances once at the start, where the source computes each distance when it needs it.
- Dataset.BestMatch: promises only a candidate when the comparison does not order the candidates, as `sort.Slice` does.
