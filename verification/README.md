# LapLens lap segmentation and scoring, in Dafny

This project models the core of LapLens, a telemetry analyser for Toyota GR86
race cars. The model follows the pipeline's own order:

- **Input normalisation.** Sentinel-lap repair, a time sort and z-score outlier blanking (`DataLoader`). Also vehicle-id parsing and track-name lookup (`Identifiers`).
- **Segmentation.** Lap-crossing detection on the wrapping lap-distance channel (`Segmenter`). First-match sector assignment over half-open ranges (`Sectors`). Brake and throttle bins (`Channels`).
- **Aggregation.** Per-lap and per-(lap, sector) timing tables and delta-to-best (`Aggregator`), chained as `process_full_session` does (`Session`).
- **Scoring.**
  - The least-squares trend, the fastest three-lap stint and the first breakthrough (`StoryTrend`).
  - The consistency score and the risk index (`StoryScores`).
  - Sector ranking, the optimal lap and the capped recommendation rules (`StorySectors`).
- **Chart helpers.** Lap-time formatting, the pace category, the lap-chart colours and heavy-braking zone extraction (`Visualizations`).
- **Configuration.** The sector tables and every threshold, held as one immutable record (`Config`).

A pandas frame is modelled column by column (`Telemetry.Frame`). Each channel is an
`Option<seq<...>>`, where `None` means the column is absent. Timestamps are
`Option<real>` seconds, where `None` is `NaT`. The tables the scoring layer reads
(`TimedLap`, `SectorEntry`) carry numeric times. Sorting, `unique()`, `groupby` and
the stable `list.sort(reverse=True)` are defined once in `Collections`.

Several inputs are parameters of the model:

- Standard deviations. A std is an input `std` with `std >= 0` and `std * std` equal to the variance, so no square root is taken.
- Timestamp parsing (`pd.to_datetime`). A time is a number or `None`.
- The rounded consistency and risk scores that the recommendation rules compare against.

## Model

| member | source | states |
|---|---|---|
| Config.SectorsFor | utils/telemetry_processor.py:28 | "Barber" and "COTA" select their tables; every other name, including "default", selects no table |
| Config.ConfigurationConsistent | config/config.py:12-58 | Barber's ranges cover [0, 2400) and COTA's cover [0, 5513) contiguously; brake edges 0 < 20 < 50 and throttle edges 0 < 50 < 90 < 100 increase; the lap threshold is 100 and the sentinel is 32768 |
| Segmenter.DetectedLaps | utils/telemetry_processor.py:49-59 | detected laps start at 1, never fall, stay within 1..i+1, and go up by exactly one from the previous row when the row is a crossing and stay equal otherwise |
| Segmenter.DetectLaps | utils/telemetry_processor.py:30-66 | only the lap column changes; with no distance the existing laps are kept or every row gets lap 1; the whole column is replaced by detected laps when it is absent or holds 32768 anywhere, and is kept otherwise |
| Segmenter.DetectLapsMonotone | utils/telemetry_processor.py:58-63 | whenever the detected laps replace the column, the result starts at 1 and never falls |
| Sectors.SectorIndex | utils/telemetry_processor.py:127-133 | the chosen range is the first that contains the distance; if none contains it, the last range is chosen |
| Sectors.CoveredSector | utils/telemetry_processor.py:121-133 | over a covering table, distances in [0, length) lie in exactly one range and get its name; overrun and negative distances get the last sector's name |
| Sectors.AssignSectors | utils/telemetry_processor.py:109-135 | only the sector column changes; with no table or no distance channel every row is 'S1.a', otherwise each row gets the sector of its distance |
| Sectors.AssignedNamesFromTable | utils/telemetry_processor.py:121-133 | every label is a name from the table, or 'S1.a' when there is no table or no distance |
| Sectors.BarberOverrun | config/config.py:13-20 | at Barber, 2399.9, 2400.1 and -0.5 fall into "S3.b", 0.0 into "S1.a" and 400.0 into "S1.b" |
| Channels.BrakeZoneOf | utils/telemetry_processor.py:203-207 | the brake bins are right-closed: (0,20] none, (20,50] light, above 50 heavy, and no bin at or below 0 |
| Channels.ThrottleZoneOf | utils/telemetry_processor.py:229-233 | the throttle bins are (0,50] off, (50,90] partial and (90,100] full; 0 and readings above 100 get no bin |
| Channels.ZonesMonotone | utils/telemetry_processor.py:203-233 | a larger reading never falls into a lower bin |
| Channels.Intensity | utils/telemetry_processor.py:195-201 | brake intensity is the mean of front and rear when both exist, else the single one present, else 0 |
| Channels.BrakingIntensity | utils/telemetry_processor.py:182-211 | only the intensity and zone columns change, and every row's zone is the bin of its intensity |
| Channels.NoBrakeChannelsNoZones | utils/telemetry_processor.py:200-207 | with no brake channels every intensity is 0, so no row gets a braking zone |
| Channels.ThrottleMetrics | utils/telemetry_processor.py:213-235 | without a throttle channel the frame is unchanged, otherwise each row's throttle zone is the bin of its reading |
| Aggregator.LapKeys | utils/telemetry_processor.py:84 | the laps grouped over are the distinct lap values, ascending |
| Aggregator.LapTableAscending | utils/telemetry_processor.py:84-105 | lap records come out in strictly ascending lap order |
| Aggregator.LapTableCovers | utils/telemetry_processor.py:84-105 | a record exists for a lap exactly when some row carries that lap |
| Aggregator.LapTableCounts | utils/telemetry_processor.py:84-105 | each record counts the rows of its lap, and the counts add up to the number of rows |
| Aggregator.LapTableTimes | utils/telemetry_processor.py:90-102 | a lap time is the last row's time minus the first row's time, or None when there is no time column; speeds are present exactly when the speed channel is, and the average never exceeds the maximum |
| Aggregator.LapTimesNonNegative | utils/telemetry_processor.py:90-95 | on time-sorted rows every lap time is at least 0 |
| Aggregator.PairsOrdered | utils/telemetry_processor.py:156-160 | (lap, sector) groups are visited in ascending lap order, then in table order |
| Aggregator.SectorTableSound | utils/telemetry_processor.py:160-178 | every sector record names a table sector and a (lap, sector) pair that occurs in some row |
| Aggregator.SectorTableComplete | utils/telemetry_processor.py:156-178 | every row whose sector is in the table is covered by a record for its (lap, sector) |
| Aggregator.SectorTableOrdered | utils/telemetry_processor.py:156-178 | sector records are ordered by lap, then by table order |
| Aggregator.SectorTableTimes | utils/telemetry_processor.py:165-176 | a sector time is the last minus the first time of its (lap, sector) rows, or None without a time column |
| Aggregator.LapDeltas | utils/telemetry_processor.py:276-302 | only deltas change; every delta present is the lap time minus one reference time common to all records; a reference lap that no record has makes the lookup fail |
| Aggregator.LapDeltasToBest | utils/telemetry_processor.py:294-300 | against the best lap, a delta exists exactly for timed laps and equals the lap time minus the time of a fastest lap, so it is at least 0 and is 0 exactly for laps tied at the minimum |
| Aggregator.LapDeltasToReference | utils/telemetry_processor.py:294-300 | every delta is the lap time minus the time of the first record of the reference lap, and missing when either is missing; that record's own delta is 0 |
| Aggregator.SectorDeltasSpec | utils/telemetry_processor.py:318-326 | a timed sector's delta is its time minus the time of a fastest row with the same sector name, so it is at least 0 and is 0 exactly at that group's minimum |
| Session.Enrich | utils/telemetry_processor.py:398-407 | the enriched frame has the detected laps, then the sectors assigned on them, then the brake intensity of the input's brake channels with each row's brake bin, and each row's throttle bin when `ath` exists; time, speed, distance and throttle are kept |
| Session.ProcessFullSession | utils/telemetry_processor.py:395-421 | the run fails exactly when the frame has no time column and the sector table has at least one record, because the sector deltas then subtract from Python `None` |
| Session.SessionTables | utils/telemetry_processor.py:385-421 | whenever the run completes, the telemetry is the enriched frame and keeps every row; the lap records are the lap table of that frame with deltas added, ascending and counting every row; the sector records are the sector table with deltas added; a lap or sector record has a delta exactly when it has a time, and that delta is at least 0; every row whose sector is a table sector is covered by the sector record of its (lap, sector); with no sector table every sector record is 'S1.a' |
| Session.LapFacts | utils/telemetry_processor.py:411-412 | the session's lap records are the enriched frame's lap table with deltas added against the best lap: ascending, counting every row, and a record has a delta exactly when it has a lap time, never below 0 |
| Session.SectorFacts | utils/telemetry_processor.py:414-415 | the session's sector records are the sector table with deltas added; a record has a delta exactly when it has a sector time, never below 0; with no sector table every record is 'S1.a' |
| Session.SectorCoverage | utils/telemetry_processor.py:414-415 | after deltas are added, every row whose sector is a table sector still has the sector record of its (lap, sector) |
| DataLoader.CleanLapNumbers | utils/data_loader.py:199-233 | the frame is unchanged without a lap column, without a distance channel, or without a 32768 row; otherwise only rows holding 32768 are rewritten, each with its detected lap |
| DataLoader.CleanAgreesWithDetect | utils/data_loader.py:223-231 | a repaired row gets the same lap that lap detection assigns to it |
| DataLoader.CleanRemovesSentinel | utils/data_loader.py:217-231 | on frames shorter than 32767 rows no 32768 survives the repair |
| DataLoader.TimeSource | utils/data_loader.py:248-255 | times come from meta_time if present, else timestamp, else the row index |
| DataLoader.SortOrder | utils/data_loader.py:257 | the sort order is a permutation of the row indices: every row appears exactly once |
| DataLoader.SortOrderOrdered | utils/data_loader.py:257 | the sort order lists rows by ascending time, with NaT rows last |
| DataLoader.PermutationBounds | utils/data_loader.py:257 | the sort order is a permutation of the row indices |
| DataLoader.NormalizeTimestamps | utils/data_loader.py:235-259 | the result keeps the row count, has a time column, and is sorted ascending by it with NaT rows last |
| DataLoader.NormalizeIsRowPermutation | utils/data_loader.py:235-259 | every output row is some input row, each used once |
| DataLoader.FilterColumn | utils/data_loader.py:274-284 | the row count is kept; a cell is blanked exactly when it lies more than 3 sample standard deviations from the mean; a column with fewer than two values is unchanged |
| DataLoader.ZeroSpreadUnchanged | utils/data_loader.py:278-282 | a column whose values are all equal loses no cell |
| DataLoader.FilterOutliers | utils/data_loader.py:261-286 | no row is dropped, only listed columns that exist change, and a column listed k times is filtered k times in a row, each pass on the values the previous one left |
| DataLoader.FilterOutliersOnce | utils/data_loader.py:274-284 | a present column listed once is filtered once from its input values; an unlisted column is unchanged |
| DataLoader.PreprocessDataset | utils/data_loader.py:288-306 | the result is the cleaned, time-normalised frame with at most its GPS columns changed; when both GPS columns exist each is filtered once, otherwise nothing is filtered; the row count is kept and the rows end time-sorted |
| DataLoader.PreprocessRepairsInFileOrder | utils/data_loader.py:299-302 | lap repair runs in file order: each output row carries the lap it was repaired to before the sort moved it |
| Identifiers.MatchVehicleId | config/config.py:66 | a match means the id starts with "GR86-", then a digit run, "-", and a digit run |
| Identifiers.MatchVehicleIdRoundTrip | utils/data_loader.py:176-178 | "GR86-c-n" followed by anything that does not start with a digit parses back to (c, n) |
| Identifiers.ParseVehicleId | utils/data_loader.py:166-180 | the result is ("Unknown", "000") exactly when the id does not match |
| Identifiers.DisplayNameUnassigned | utils/data_loader.py:182-197 | the display name takes the unassigned form exactly when the car number is "000", which includes every id that does not match |
| Identifiers.ContainsAt | utils/data_loader.py:408-409 | the substring test holds exactly when the key occurs at some position |
| Identifiers.ExtractTrackName | utils/data_loader.py:395-428 | the result is always a track-table value or "Unknown Track" |
| Identifiers.ExtractTrackNameFirstKey | utils/data_loader.py:405-428 | the result is the value of the first table key found in the lower-cased path, and "Unknown Track" exactly when no key occurs |
| Visualizations.SecondsOf | utils/visualizations.py:394-395 | whole minutes times 60 plus the remainder give back the input, and the remainder lies in [0, 60) |
| Visualizations.FormatLapTime | utils/visualizations.py:390-391 | the output is "N/A" exactly for a missing value |
| Visualizations.FormatLapTimeParse | utils/visualizations.py:393-397 | for a present non-negative time, the printed minutes times 60000 plus the printed seconds field in milliseconds equal the time rounded to the millisecond, even when the field reads "60.000" |
| Visualizations.FormatLapTimeAgrees | utils/visualizations.py:393-397 | the text as written equals the corrected text exactly when the remainder after whole minutes is below 59.9995 s |
| Visualizations.FormatLapTimeField | utils/visualizations.py:395-397 | the printed milliseconds of the remainder lie in [0, 60000], and reach 60000 exactly when the remainder is at least 59.9995 |
| Visualizations.FormatLapTimeOverflow | utils/visualizations.py:394-397 | 59.9999 s is printed "0:60.000" |
| Visualizations.FormatLapTimeRoundTrip | utils/visualizations.py:381-397 | the corrected format parses back to the rounded millisecond count, and its seconds field stays below 60 |
| Visualizations.PaceCategory | utils/visualizations.py:400-418 | a lap equal to the best is Best, at most 2% slower is Fast, at most 5% slower is Medium, and anything else is Slow |
| Visualizations.PaceMonotone | utils/visualizations.py:411-418 | a slower lap never gets a faster category |
| Visualizations.LapChartColoursAgree | utils/visualizations.py:33-50 | each bar's colour is the colour of its pace category against the session best |
| Visualizations.BrakeZones | utils/visualizations.py:188-210 | the zones emitted are those of the reference run definition, in row order |
| Visualizations.ZonesAreClosedRuns | utils/visualizations.py:194-210 | every zone spans a maximal heavy-braking run that closes before the last row, from its first row's distance to the closing row's distance |
| Visualizations.ClosedRunsAreZones | utils/visualizations.py:194-210 | every heavy-braking run that closes is emitted as a zone; a run still open at the last row is not |
| StoryTrend.SortByLap | utils/story_generator.py:159 | sorting by lap keeps the laps and puts them in ascending lap order |
| StoryTrend.LinearSlope | utils/story_generator.py:104-108 | on lap times that lie on a line of slope b (with laps not all equal) the fitted slope is b |
| StoryTrend.TrendOf | utils/story_generator.py:110-119 | the trend is improving exactly below -0.1, declining exactly above 0.1, and consistent otherwise |
| StoryTrend.TrendOfLinear | utils/story_generator.py:104-119 | laps falling faster than 0.1 s per lap read as improving, rising faster read as declining, and the rest as consistent |
| StoryTrend.AnalyzeTrajectory | utils/story_generator.py:85-138 | fewer than 3 laps give insufficient data with slope 0; otherwise the slope is the least-squares slope and the trend is its category, and the fastest stint is the first smallest three-lap window in lap order; the improvement rate is the slope's magnitude |
| StoryTrend.FastestStint | utils/story_generator.py:547-572 | no stint exists below 3 laps; otherwise the stint is the first three-lap window in lap order with the smallest mean, and it reports its start lap plus 2 as the end |
| StoryTrend.StintUnique | utils/story_generator.py:559-570 | the fastest-stint description picks exactly one window |
| StoryTrend.FirstBreak | utils/story_generator.py:159-163 | the scan stops at the first lap that improves on its predecessor by more than 0.3 s |
| StoryTrend.Breakthroughs | utils/story_generator.py:140-197 | fewer than 2 laps give none; otherwise the moment is the first lap in lap order that gains more than 0.3 s, or, if none does, the first fastest lap with improvement 0 |
| StoryTrend.BreakthroughIsFaster | utils/story_generator.py:160-163 | a breakthrough lap is more than 0.3 s faster than the lap before it |
| StoryScores.ScoreOfCv | utils/story_generator.py:235-245 | the score lies in [0, 10], is 10 up to a cv of 0.5 and 0 from 15 on |
| StoryScores.ScoreLipschitz | utils/story_generator.py:235-245 | the score never rises with cv and falls at most 5/3 per unit of cv, so the pieces join without jumps |
| StoryScores.ScoreAnchors | utils/story_generator.py:235-245 | the score is 10, 7.5, 5.625, 2.5 and 0 at cv 0.5, 2, 5, 10 and 15 |
| StoryScores.ConsistencyRatingMonotone | utils/story_generator.py:247-257 | a higher score never gets a lower rating |
| StoryScores.ConsistencyScore | utils/story_generator.py:199-265 | fewer than 3 laps give score 0 and no rating; otherwise the score is the piecewise score of the coefficient of variation std / mean * 100 (0 when the mean is 0), rated by its bands, with the population std and the max-minus-min range |
| StoryScores.ConsistencyOfIdenticalLaps | utils/story_generator.py:219-237 | identical positive lap times score 10, rate excellent and have range 0 |
| StoryScores.LowerSpreadScoresHigher | utils/story_generator.py:211-237 | of two sessions of at least 3 laps with the same positive mean, the one with the smaller variance never gets the lower consistency score |
| StoryScores.CornerVariance | utils/story_generator.py:310-311 | corner variance is at most 10, and is 10 with fewer than two speeds or a zero mean speed; with a positive mean it is 10 exactly when std is at least a fifth of the mean, and otherwise 50 std / mean |
| StoryScores.CornerVarianceMonotone | utils/story_generator.py:310-311 | with a positive mean speed, a larger speed std never lowers the corner component |
| StoryScores.BrakingAggression | utils/story_generator.py:288-292 | with k heavy-braking rows out of n, the component is 10 when 20 k >= n and 200 k / n otherwise |
| StoryScores.ThrottleAggression | utils/story_generator.py:299-303 | with k full-throttle rows out of n, the component is 10 when 2 k >= n and 20 k / n otherwise |
| StoryScores.RiskIndex | utils/story_generator.py:267-339 | an empty frame gives 0 and no rating; otherwise a component is reported exactly when its channel exists and is the braking, throttle or corner component of that channel, a missing one counts 5, the score is 0.4 brake + 0.3 throttle + 0.3 corner, and the rating follows its bands |
| StoryScores.RiskBounds | utils/story_generator.py:291-324 | the risk score is at most 10 and at least 0 when the mean speed is positive; with none of the three channels it is 5, rated balanced |
| StoryScores.RiskIsWeightedMean | utils/story_generator.py:318-320 | the risk score lies between the smallest and the largest component |
| StoryScores.BrakingSaturates | utils/story_generator.py:287-293 | heavy braking on at least 5% of the rows makes the risk index's braking component 10 |
| StoryScores.ThrottleSaturates | utils/story_generator.py:298-304 | full throttle on at least half of the rows makes the risk index's throttle component 10 |
| StorySectors.PerformanceOf | utils/story_generator.py:364-373 | a range below 0.1 s is a strength, one of 0.3 s or more a weakness, and anything between is neutral |
| StorySectors.InsightOf | utils/story_generator.py:357-394 | best and worst are times of rows of the sector and bound every such row's time from below and above, the average is the mean of the sector's times, and the range is worst minus best, with its performance band |
| StorySectors.SectorNarrative | utils/story_generator.py:341-398 | there is one insight per distinct sector, sorted by range descending, with ties in first-appearance order |
| StorySectors.SectorNarrativeCovers | utils/story_generator.py:357-394 | every sector of the table gets an insight built from its own times, and only those sectors do |
| StorySectors.SectorNarrativeDistinct | utils/story_generator.py:357 | no sector is reported twice |
| StorySectors.FindOptimalLap | utils/story_generator.py:400-468 | empty sector data gives no times and gain 0; lap data missing makes the best-lap lookup fail; otherwise optimal is the sum of per-sector minima, gain is best lap minus optimal (not clamped), and gaps are above 0.05, sorted descending, and equal gaps keep sector-name order |
| StorySectors.GapEntries | utils/story_generator.py:434-446 | each gap is the best lap's first time in a sector minus that sector's best, kept only above 0.05 s |
| StorySectors.OptimalBelowAnyPick | utils/story_generator.py:415-416 | the optimal lap is no slower than any lap assembled from one recorded time per sector |
| StorySectors.Recommendations | utils/story_generator.py:470-543 | between one and three recommendations, and the generic one alone exactly when no rule fires |
| StorySectors.RecommendationsRules | utils/story_generator.py:493-543 | each rule's advice appears exactly under its condition; the two risk branches never both appear; the trend advice is dropped only when three earlier rules fired; sector advice comes first |
| StorySectors.SectorAdviceWidest | utils/story_generator.py:500-506 | the sector rule fires exactly when some sector's range exceeds 0.3 s, and it names a sector with the widest range |

## Left out

- **I/O and UI.**
  - File loading, CSV/ZIP reading, caching and the long-to-wide pivot are left out.
  - Vehicle listing and filtering, session summaries and `get_lap_summary` are left out.
  - The Streamlit pages, Plotly figure construction, the GPS processor and the narrative prose are left out.
  - Recommendations and moments are modelled as outcomes (`Advice`, `Moment`), not as their f-strings.
- **Steering and g-force.** `calculate_steering_smoothness` and `calculate_g_force_metrics` add columns that nothing modelled reads, and they need rolling windows and square roots.
- **Square roots.** A standard deviation is an input whose square is the variance.
- **Timestamp parsing.** `pd.to_datetime` is external: a time is a number, or `None` for NaT.
- **Floating point.** Arithmetic is exact over reals. There are no NaN lap times in the scoring layer, and binary rounding is not modelled.
- **NaN channel cells.** The distance, speed, brake, throttle and brake-intensity channels hold a number in every row, but in the source a cell can be NaN (for example a gap left by the long-to-wide pivot). A NaN distance is never a crossing and, as the previous row, blocks the next row's crossing. A NaN speed or brake reading is skipped by pandas' mean and max, and falls in no bin of `pd.cut`. The model does not represent these cells.
- **Zero mean lap time.** numpy divides by a zero mean to an infinite or NaN coefficient of variation; every band test then fails and `max(0.0, ...)` yields 0. StoryScores.ConsistencyScore states that outcome (score 0) directly.
- Session.ProcessFullSession: a frame without a time column whose sector table has records makes `calculate_sector_deltas` raise `TypeError`. The model returns `None` for that run and does not model the exception itself, and Session.SessionTables speaks only of runs that complete.
- **Rounding.** Python `round(...)` on returned scores and times is not applied. The recommendation rules take the already rounded scores as inputs.
- DataLoader.SortOrder: rows with equal times, and the NaT rows placed last, follow one fixed order. pandas' default sort is not guaranteed stable, so the model picks one of the orders pandas may produce.
- StoryTrend.SortByLap: pandas' default sort is not guaranteed stable; the model keeps equal laps in table order. The laps of a lap table are distinct, so no tie can arise and the order is the same.
- StoryTrend.Slope: `np.polyfit` on laps that all share one number is degenerate. There the model returns 0 instead of the fit's arbitrary value.
- **Unicode.** Identifiers.Lower folds ASCII letters only, and `\d` matches ASCII digits only. Unicode case folding and digits are not modelled.
- Identifiers.ExtractTrackName: the file name and parent directory are split on `/` only. `pathlib` normalisation (repeated or trailing separators, Windows paths) is not modelled.
- Visualizations.FormatLapTime: rounding to milliseconds is half-up on the exact value. Python formats the binary double, so results can differ at exact halves.

## Findings

| source | as written | input that shows it | evidently intended | confidence | as-written member | corrected member |
|---|---|---|---|---|---|---|
| utils/visualizations.py:394-397 | minutes come from the unrounded value and the remainder is then rounded to 3 decimals, so a remainder of 59.9995 s or more prints as a seconds field of "60.000" | 59.9999 s prints "0:60.000" instead of "1:00.000" | round to milliseconds first and split the rounded total into minutes and seconds, so the seconds field stays below 60 | not executed | Visualizations.FormatLapTimeOverflow | Visualizations.FormatLapTimeRoundTrip |
