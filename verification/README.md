# Port-risk mapping: a Dafny model of the analysis scripts' data logic

The repository maps the risk that fishing and transshipment trips carry
illegal, unreported and unregulated (IUU) catch, and estimates the effect of
the Port State Measures Agreement (PSMA) on foreign port visits. This project
models three analysis scripts. It covers their deterministic data handling,
not their statistics:

- `codes/transshipment_analysis.py` drops incomplete encounters and one-hot
  encodes each trip's features, including the "with" indicators and
  loitering. It splits trips into observed and to-be-predicted, scores and
  classifies them, and places them on encounter and loitering points. It
  selects feature pairs for the SHAP effect table: importance blocks, class
  pairs with replacement, the candidate set `combo` without
  mutually-exclusive pairs, and the solo/combo split. It then applies the
  "more than one qualifying sample" guard and uses diag + diag + 2·cross as
  the value of a pair.
- `codes/at_sea_analysis.py` does the same for fishing trips: the predictor
  filters, the observed subset, the predicted subset restricted to vessel
  classes seen among observed trips, the combined table, and the 19-column
  effect layout.
- `codes/baci_analysis.py` prepares the port-visit panel:
  - the PSMA party lists, with Denmark, Greenland and the Faroe Islands
    corrected by hand;
  - the territory-to-sovereign mapping, where the last pair wins, and the
    foreign-visit filter;
  - the analysis-variable dispatch, with its exit;
  - visit counts per (year, port), keeping 2015 and 2017;
  - the ports seen in both years;
  - the cumulative-share cutoff at 0.95 and the removal of small ports;
  - the response scaled by its maximum.

Modules, one concept each:

| module | file | content |
|---|---|---|
| `Wrappers` | `wrappers.dfy` | `Option`, `Result` and the ways a script stops (`sys.exit`, `list.remove` of a missing item, an empty selection) |
| `Seqs` | `seqs.dfy` | `unique` in first-appearance order, sums, `list.remove`, boolean row selection |
| `Risk` | `risk.dfy` | the risk score and the three risk classes (thresholds 0 and 2) |
| `Dummies` | `dummies.dfy` | one-hot columns and 0/1 indicators |
| `TripEncoding` | `trip_encoding.dfy` | the transshipment feature row per trip |
| `TripSplit` | `trip_split.dfy` | the observed/predicted splits and combined tables of both scripts, placement and classification |
| `FeaturePairs` | `feature_pairs.dfy` | column blocks, pairs with replacement, `combo`, `combo2`, `solo_idx`/`combo_idx` |
| `Layouts` | `layouts.dfy` | the concrete 25-column and 19-column layouts |
| `ShapEffects` | `shap_effects.dfy` | block sums of an interaction matrix, qualifying samples, effect cells |
| `Psma` | `psma.dfy` | PSMA party lists by year of entry into force |
| `Sovereignty` | `sovereignty.dfy` | visit cleaning, territory pairs, the sovereign mapping, foreign visits |
| `VisitPanel` | `visit_panel.dfy` | dispatch, counts, both-years filter, cutoff, removal, scaling, the whole preparation |

The port cutoff is the strict test `proportion > 0.95` of
`codes/baci_analysis.py` (lines 119-120), which `VisitPanel.Exceeds` models.

## Model

| member | source | states |
|---|---|---|
| `Seqs.Unique` | codes/transshipment_analysis.py:29 | the distinct values, each once, exactly those of the input |
| `Seqs.UniqueOrder` | codes/baci_analysis.py:60 | the distinct values come in order of first appearance, as `drop_duplicates` and `Series.unique` list them |
| `Seqs.RemoveFirst` | codes/baci_analysis.py:37 | fails iff the item is absent; otherwise removes exactly one occurrence, the first |
| `Seqs.Filter` | codes/baci_analysis.py:79 | a row is kept iff it satisfies the mask, as often as it occurred |
| `Seqs.SumPermutation` | codes/baci_analysis.py:118-119 | reordering rows does not change the total number of visits |
| `Risk.Score` | codes/transshipment_analysis.py:79 | the score lies between minus the no-risk count and the sum of the risky counts, and is non-negative when no visit was no-risk |
| `Risk.Class` | codes/transshipment_analysis.py:126-127 | class 0 iff score < 0, class 1 iff 0 <= score < 2, class 2 iff score >= 2 |
| `Risk.Classify` | codes/at_sea_analysis.py:102 | each score gets its own class, position by position |
| `Risk.ClassMonotone` | codes/at_sea_analysis.py:65-66 | a higher score never gets a lower class |
| `Risk.ScoreMonotone` | codes/at_sea_analysis.py:31 | more risky visits and fewer no-risk visits never lower the score or the class |
| `Risk.OnlyNoRisk` | codes/transshipment_analysis.py:72-79 | a trip seen only at no-risk ports is observed, scores minus its count and is class 0 |
| `Dummies.OneHot` | codes/transshipment_analysis.py:29-31 | one 0/1 column per category, 1 exactly where the category equals the value |
| `Dummies.OneHotSum` | codes/transshipment_analysis.py:30-31 | the columns add up to the number of times the value occurs among the categories |
| `Dummies.OneHotExactlyOne` | codes/transshipment_analysis.py:35-37 | over distinct categories containing the value, exactly one column is 1 |
| `Dummies.Indicator` | codes/transshipment_analysis.py:59 | the indicator is 1 iff the count is positive |
| `TripEncoding.DropIncomplete` | codes/transshipment_analysis.py:20 | a record survives iff its encounter has all four predictors |
| `TripEncoding.DropIncompleteAppend` | codes/transshipment_analysis.py:20-21 | `dropna` keeps row order: dropping from a concatenation is concatenating the drops |
| `TripEncoding.CategoriesOf` | codes/transshipment_analysis.py:46-54 | the categories of each attribute are exactly the values some record has, each listed once |
| `TripEncoding.First` | codes/transshipment_analysis.py:25 | the representative record of a trip is its first record: no earlier record has that trip |
| `TripEncoding.FirstAt` | codes/transshipment_analysis.py:25 | a record with no earlier record of its trip is the one picked for that trip |
| `TripEncoding.FirstComplete` | codes/transshipment_analysis.py:20-25 | after `dropna`, the record picked for a trip is its first complete encounter in file order |
| `TripEncoding.NeighbourCount` | codes/transshipment_analysis.py:47-58 | the per-trip count is positive iff some record of the trip met that flag or class |
| `TripEncoding.WithIndicators` | codes/transshipment_analysis.py:44-60 | each with_* column is 1 iff the trip met that flag or class |
| `TripEncoding.LoiteringCount` | codes/transshipment_analysis.py:64-65 | the loitering count is positive iff the trip has a loitering event with a vessel id |
| `TripEncoding.EncodeTripSpec` | codes/transshipment_analysis.py:25-67 | the row has one 1 among the time-at-sea columns and one among the carrier-flag columns; with_* columns are 1 iff the trip met that value; loitering + no_loitering = 1, and loitering = 1 iff the trip loitered |
| `TripEncoding.TripsListed` | codes/transshipment_analysis.py:25 | every record's trip appears in the list of trips |
| `TripEncoding.EncodeTrips` | codes/transshipment_analysis.py:25 | one row per trip: no trip twice, every trip of the records present |
| `TripEncoding.EncodeTripsRows` | codes/transshipment_analysis.py:25-67 | each row carries its trip's first-record tier counts and the trip's feature row |
| `TripEncoding.PredictorTiers` | codes/transshipment_analysis.py:20-25 | the encoded table has a row for each trip with a complete encounter, and that row carries the tier counts of the trip's first complete encounter in file order |
| `TripSplit.SplitObserved` | codes/transshipment_analysis.py:71-75 | the first part holds exactly the observed trips, the second exactly the others |
| `TripSplit.SplitObservedPartition` | codes/transshipment_analysis.py:103 | the two parts together are a permutation of the trips |
| `TripSplit.ScoreTrip` | codes/transshipment_analysis.py:73-109 | a trip is marked observed iff it has assessed visits; an observed trip scores low/3 + 2 med/3 + high - no, any other trip the model's prediction on its feature row; it keeps its id |
| `TripSplit.CombinePermutes` | codes/transshipment_analysis.py:112 | scoring the two parts gives the same rows as scoring all trips |
| `TripSplit.CombineIsPartition` | codes/transshipment_analysis.py:103-112 | the combined table is a permutation of all scored trips: same length, every trip present |
| `TripSplit.CombineScores` | codes/transshipment_analysis.py:73-112 | the combined table holds exactly the scored trips: each observed trip with its tier score, each other trip with its prediction |
| `TripSplit.CombineObservedFirst` | codes/transshipment_analysis.py:112 | the observed rows come first, then the predicted rows |
| `TripSplit.Lookup` | codes/transshipment_analysis.py:116 | a trip without a score gets none, otherwise the score of a row with its id |
| `TripSplit.Place` | codes/transshipment_analysis.py:115-123 | a point is kept iff its trip has a score; it carries that score and its class |
| `TripSplit.PlaceAll` | codes/transshipment_analysis.py:115-127 | every placed point is an encounter or loitering point whose trip has that score, with the class of the score; every such point whose trip is scored is placed |
| `TripSplit.WithPredictors` | codes/at_sea_analysis.py:18-20 | a trip is kept iff flag group, vessel class and time at sea are non-empty |
| `TripSplit.ObservedFishing` | codes/at_sea_analysis.py:25 | a trip is observed iff it has assessed visits |
| `TripSplit.Classes` | codes/at_sea_analysis.py:87 | the vessel classes that occur among the rows |
| `TripSplit.ToPredict` | codes/at_sea_analysis.py:86-87 | the unobserved trips whose vessel class occurs among observed trips |
| `TripSplit.SplitFishingSpec` | codes/at_sea_analysis.py:18-87 | observed iff usable and observed; predicted iff usable, unobserved and of an observed class; never both |
| `TripSplit.ScoreFishing` | codes/at_sea_analysis.py:92-97 | predicted rows first with the model's score, then observed rows with their own score |
| `TripSplit.Predicted` | codes/at_sea_analysis.py:59-64 | every row gets the model's prediction, keeping its trip id |
| `TripSplit.ScoreObserved` | codes/at_sea_analysis.py:74 | every observed trip keeps its computed score |
| `TripSplit.ObservedRowPresent` | codes/at_sea_analysis.py:97 | every observed trip has a row with its tier score in the combined table |
| `TripSplit.PredictedRowPresent` | codes/at_sea_analysis.py:92-97 | every to-predict trip has a row with the model's score in the combined table |
| `TripSplit.FishingRowsFromSplit` | codes/at_sea_analysis.py:18-97 | every observed row of the combined table is a usable trip with assessed visits and its tier score; every predicted row is a usable trip without them, of a vessel class some observed trip has, with the model's score |
| `TripSplit.FishingTripsScored` | codes/at_sea_analysis.py:18-97 | every usable trip with assessed visits has its tier-scored row, and every usable trip without them whose vessel class occurs among observed trips has its model-scored row |
| `TripSplit.FishingTables` | codes/at_sea_analysis.py:59-102 | the combined table is the model table of the to-predict rows followed by the observed table; observed rows keep their class |
| `TripSplit.Tabulate` | codes/at_sea_analysis.py:102 | every row keeps trip, score and kind and gets the class of its score |
| `TripSplit.TabulateOrdered` | codes/transshipment_analysis.py:127 | rows with higher scores never get lower classes |
| `FeaturePairs.TilingOrdered` | codes/transshipment_analysis.py:140-144 | an earlier slice ends before a later one starts |
| `FeaturePairs.ClassOf` | codes/transshipment_analysis.py:197-202 | a column belongs to exactly one class |
| `FeaturePairs.Labels` | codes/at_sea_analysis.py:165 | column c is labelled k iff class k contains c |
| `FeaturePairs.ClassOfMonotone` | codes/transshipment_analysis.py:197-201 | later columns never belong to earlier classes |
| `FeaturePairs.PairsSpec` | codes/transshipment_analysis.py:146 | combinations with replacement: exactly the pairs i <= j, in lexicographic order, n(n+1)/2 of them |
| `FeaturePairs.WithinPairs` | codes/transshipment_analysis.py:190 | `combinations` of one block: the pairs of distinct columns inside it |
| `FeaturePairs.WithinAll` | codes/transshipment_analysis.py:190-192 | the union of those pairs over the exclusive blocks |
| `FeaturePairs.AllPairs` | codes/transshipment_analysis.py:189 | the pairs i <= j < n |
| `FeaturePairs.AllPairsListed` | codes/at_sea_analysis.py:157 | the enumeration lists exactly the set of pairs |
| `FeaturePairs.ComboSetSpec` | codes/transshipment_analysis.py:189-193 | a pair is a candidate iff it is ordered, in range and not two distinct columns of one exclusive block |
| `FeaturePairs.DiagonalKept` | codes/at_sea_analysis.py:157-161 | every column paired with itself is a candidate |
| `FeaturePairs.CrossPairKept` | codes/at_sea_analysis.py:158-161 | columns of different exclusive blocks always pair |
| `FeaturePairs.ComboList` | codes/transshipment_analysis.py:193 | the list holds every candidate exactly once |
| `FeaturePairs.ClassPair` | codes/transshipment_analysis.py:202 | the class pair of a candidate is a key of the effect table |
| `FeaturePairs.OffDiagonalSpansClasses` | codes/transshipment_analysis.py:249-250 | when all wide classes are exclusive, an off-diagonal candidate joins two different classes |
| `FeaturePairs.IndicesWhere` | codes/transshipment_analysis.py:206 | the increasing indices of the diagonal (or off-diagonal) candidates |
| `FeaturePairs.SoloComboPartition` | codes/at_sea_analysis.py:170-206 | every candidate index is in exactly one of `solo_idx` and `combo_idx` |
| `Layouts.TransTiling` | codes/transshipment_analysis.py:140-144 | the importance slices and the effect classes each tile the 25 columns |
| `Layouts.TransPairCounts` | codes/transshipment_analysis.py:146-147 | 15 importance pairs and 136 effect class pairs |
| `Layouts.TransLabels` | codes/transshipment_analysis.py:197-201 | the class list: five 0s, five 1s, one each of 2 to 14, two 15s |
| `Layouts.TransExclusiveDropped` | codes/transshipment_analysis.py:190-192 | two columns of time at sea, carrier flag or loitering never form a candidate |
| `Layouts.TransKept` | codes/transshipment_analysis.py:189-193 | diagonal pairs and pairs outside a common exclusive block are candidates |
| `Layouts.TransOffDiagonal` | codes/transshipment_analysis.py:249-250 | every off-diagonal transshipment candidate spans two classes |
| `Layouts.AtSeaTiling` | codes/at_sea_analysis.py:120-122 | flag, gear and tas tile the 19 columns |
| `Layouts.AtSeaPairCount` | codes/at_sea_analysis.py:125-126 | 6 importance pairs |
| `Layouts.AtSeaLabels` | codes/at_sea_analysis.py:165 | five 0s, nine 1s, five 2s |
| `Layouts.AtSeaOffDiagonal` | codes/at_sea_analysis.py:213-214 | every off-diagonal at-sea candidate spans two classes |
| `ShapEffects.BlockSumSplitRows` | codes/transshipment_analysis.py:150 | a block sum splits at any row boundary |
| `ShapEffects.BlockSumSingle` | codes/transshipment_analysis.py:183 | a one-by-one block sum is the single entry |
| `ShapEffects.PairSums` | codes/at_sea_analysis.py:129 | entry t is the interaction mass of the t-th block pair |
| `ShapEffects.PairSumsBalance` | codes/transshipment_analysis.py:146-150 | for a symmetric interaction matrix, the diagonal block pairs once plus the others twice add up to the sum of all entries |
| `ShapEffects.Qualifying` | codes/transshipment_analysis.py:253 | the increasing sample indices where both columns are 1 |
| `ShapEffects.SampleValue` | codes/transshipment_analysis.py:249-251 | solo: the class's diagonal mass; pair: diag a + diag b + 2 cross |
| `ShapEffects.SingletonValue` | codes/transshipment_analysis.py:172-173 | for single-column classes: m[c][c], or m[a][a] + m[b][b] + 2 m[a][b] |
| `ShapEffects.CellValues` | codes/transshipment_analysis.py:254 | one value per qualifying sample, in sample order |
| `ShapEffects.Cell` | codes/transshipment_analysis.py:256-268 | a cell is emitted iff more than one sample qualifies |
| `ShapEffects.Summarize` | codes/transshipment_analysis.py:247-277 | exactly the cells of listed pairs with more than one sample survive `dropna` |
| `ShapEffects.SummarizeSpec` | codes/transshipment_analysis.py:211-238 | a pair has a row iff it is listed and qualifies; the row holds its samples' values |
| `ShapEffects.EffectEmitted` | codes/at_sea_analysis.py:243 | a candidate has an effect row iff more than one sample qualifies |
| `ShapEffects.EffectValuesFromActiveSamples` | codes/at_sea_analysis.py:217-218 | every summarised value comes from a sample where the pair is present |
| `Psma.InYearIsYear` | codes/baci_analysis.py:25-26 | the window [y-01-01, y+1-01-01) holds exactly the dates of year y |
| `Psma.Parties` | codes/baci_analysis.py:19-30 | the codes of usable rows whose entry into force falls in the year |
| `Psma.Party2016` | codes/baci_analysis.py:30-32 | the 2016 parties plus Denmark |
| `Psma.Party2017` | codes/baci_analysis.py:35-39 | fails iff Denmark is not a 2017 party; otherwise adds Greenland and the Faroes and keeps Denmark iff it was listed twice |
| `Sovereignty.Dependencies` | codes/baci_analysis.py:58-59 | the pairs of 200NM zones of territories that are not their own sovereign |
| `Sovereignty.DependenciesAppend` | codes/baci_analysis.py:58-60 | the selected pairs keep table order: selecting from a concatenation is concatenating the selections |
| `Sovereignty.TerritoryPairs` | codes/baci_analysis.py:60-66 | the distinct zone pairs, in order of their first appearance in the table, followed by the four hand-added pairs |
| `Sovereignty.LastMatch` | codes/baci_analysis.py:73-75 | reference: the sovereign of the last pair naming the code |
| `Sovereignty.OverwriteIsLastMatch` | codes/baci_analysis.py:70-75 | the loop agrees with the reference |
| `Sovereignty.SovereignSpec` | codes/baci_analysis.py:73-75 | an unnamed code maps to itself; a named one to the last pair's sovereign |
| `Sovereignty.LaterPairsDecide` | codes/baci_analysis.py:62-75 | a code named in pairs appended later is mapped by those pairs, whatever came before |
| `Sovereignty.LastMatchAt` | codes/baci_analysis.py:73-75 | a pair that no later pair of its territory overrides is that territory's last match |
| `Sovereignty.UniqueLastMatch` | codes/baci_analysis.py:60-75 | among the distinct pairs, a pair whose first appearance is followed by no pair of its territory decides that territory |
| `Sovereignty.AdditionsSilent` | codes/baci_analysis.py:62-66 | the added pairs name no code other than the four added territories |
| `Sovereignty.LaterZoneWins` | codes/baci_analysis.py:57-75 | zone order decides: zone rows (T, A) then (T, B), with no later row of T, map T to B |
| `Sovereignty.AppliedOnce` | codes/baci_analysis.py:73-75 | when x maps to y and y maps on to z, x still maps to y: the mapping is not chained |
| `Sovereignty.AdditionsWin` | codes/baci_analysis.py:62-66 | Macau and Hong Kong map to China, Mayotte to France, Aland to Finland, whatever the zone table says |
| `Sovereignty.Clean` | codes/baci_analysis.py:47-52 | a call is kept iff its port is not a 2017 party and port, flag and class are present |
| `Sovereignty.ForeignCalls` | codes/baci_analysis.py:79 | exactly the calls whose port and flag sovereigns differ, with multiplicity; port and flag always differ |
| `VisitPanel.Select` | codes/baci_analysis.py:89-101 | one class, all fishing gear, or fishing vessels of one flag group; any other name exits |
| `VisitPanel.Add` | codes/baci_analysis.py:105 | adding a call raises its group's count iff stamped, or opens its group |
| `VisitPanel.Count` | codes/baci_analysis.py:105-107 | the groups have distinct keys |
| `VisitPanel.CountKeys` | codes/baci_analysis.py:105 | there is a group iff some call has that (year, port) |
| `VisitPanel.CountVisits` | codes/baci_analysis.py:105-106 | each group counts the calls of its key with a start timestamp |
| `VisitPanel.ToCell` | codes/baci_analysis.py:111-112 | psma is 1 iff the port was a 2016 party; after is 0 iff the year is 2015 |
| `VisitPanel.Aggregate` | codes/baci_analysis.py:108-112 | only 2015 and 2017 rows, with 0/1 psma and after columns |
| `VisitPanel.AggregateVisits` | codes/baci_analysis.py:105-106 | each row counts the calls of its (year, port) that have a start timestamp |
| `VisitPanel.AggregateKeys` | codes/baci_analysis.py:105-108 | a row exists iff the (year, port) occurs among the calls and the year is 2015 or 2017 |
| `VisitPanel.BothYears` | codes/baci_analysis.py:113-114 | exactly the rows of ports with a before and an after row; the result keeps that property |
| `VisitPanel.SortDesc` | codes/baci_analysis.py:118 | a descending permutation of the counts |
| `VisitPanel.FirstExceeding` | codes/baci_analysis.py:119-120 | the first position whose cumulative share exceeds 95% |
| `VisitPanel.ExceedingIsPositive` | codes/baci_analysis.py:120 | that position holds a positive count |
| `VisitPanel.Cutoff` | codes/baci_analysis.py:118-120 | fails iff there are no visits; otherwise a positive count that occurs |
| `VisitPanel.CutoffShare` | codes/baci_analysis.py:117-121 | counts of at least the cutoff carry more than 95% of the visits; counts above it carry at most 95% |
| `VisitPanel.RemoveSmall` | codes/baci_analysis.py:121-123 | every row of a port with a row below the cutoff goes; the rest stay whole; all kept rows reach the cutoff |
| `VisitPanel.RemoveSmallKeepsPorts` | codes/baci_analysis.py:113-123 | ports seen before and after remain so after the removal |
| `VisitPanel.Max` | codes/baci_analysis.py:138 | the maximum occurs and bounds every count |
| `VisitPanel.Ratio` | codes/baci_analysis.py:138 | a share of the maximum is in [0, 1], positive iff the count is, 1 iff it is the maximum |
| `VisitPanel.RatioMonotone` | codes/baci_analysis.py:138 | scaling keeps the order of counts |
| `VisitPanel.Scale` | codes/baci_analysis.py:137-138 | fails on no rows or a zero maximum; otherwise order-preserving values in [0, 1], 1 exactly at the maxima |
| `VisitPanel.TrimRows` | codes/baci_analysis.py:118-123 | trimmed rows are input rows with visits, and ports stay seen in both periods |
| `VisitPanel.TrimResponse` | codes/baci_analysis.py:137-138 | the response lies in (0, 1] and reaches 1 |
| `VisitPanel.TrimmedPanel` | codes/baci_analysis.py:113-138 | trimming rows of 2015/2017 with their indicators, of ports seen in both years, keeps all of that, leaves rows with visits, and gives a response in (0, 1] reaching 1 |
| `VisitPanel.TrimErrors` | codes/baci_analysis.py:120-138 | trimming fails only on an empty selection, never on a zero maximum |
| `VisitPanel.CutEmptiesPanel` | codes/baci_analysis.py:118-123 | the cut can remove every row, after which `np.max` fails |
| `VisitPanel.PanelSpec` | codes/baci_analysis.py:35-138 | a prepared panel has 2015/2017 rows of ports seen in both years, correct indicators, visits per row, a response in (0, 1] that reaches 1 |
| `VisitPanel.PanelErrors` | codes/baci_analysis.py:37-101 | the removal of a missing Denmark fails first, then an unknown variable exits, and otherwise only an empty selection can fail |

## Left out

- Model fitting and prediction are left out: the xgboost training and
  prediction, the SHAP interaction values, and the PyMC3 hierarchical model
  with its patsy design matrices (lines 128-168 of `codes/baci_analysis.py`).
  Predictions enter the model as a function parameter, and each sample's
  interaction matrix enters as data.
- Summary statistics are left out: mean, standard deviation, standard error
  and quantiles of the effect cells, and the absolute-value summaries of the
  importance table. They are floating-point library calls. An effect cell
  carries the values and the baseline they are computed from.
- File reading and writing, `country_converter` and date parsing are left
  out. Each treaty row carries its ISO3 code and parsed date, and each
  timestamp is reduced to whether it is present.
- Floating point is left out. Scores, shares and the response are exact
  reals, and the share test `cumsum / sum > 0.95` is written
  `100 * prefix > 95 * total`.
- Row order is modelled loosely:
  - `groupby` sorts its keys, but the model keeps first appearance.
  - `combo` comes from a Python set whose order is unspecified, so only its
    contents are modelled.
- The at-sea one-hot design matrix (`get_dummies`, lines 40 and 88 of
  `codes/at_sea_analysis.py`, with columns in sorted category order) is left
  out. Only its 19-column layout is modelled. The trained model's prediction
  enters as a function of the trip.
- The labour-abuse variants are left out; they are commented out in the
  scripts. So is `codes/fishing_bin_la.py`, which builds and runs a
  warehouse query.
- `TripEncoding.EncodeTrips` lists trips in order of first appearance, not
  in the sorted order of `groupby`.
- `FeaturePairs.ComboList` fixes one order (lexicographic) for the set
  `combo`. The scripts' order is that of Python set iteration.
- `VisitPanel.Count` lists groups in order of first appearance, not sorted
  by (year, port).
- `Sovereignty.Clean` states which calls are kept, not how often. Later
  filters state multiplicities.
- `VisitPanel.Scale` reports a zero maximum as a failure, where numpy would
  return NaN. `VisitPanel.TrimErrors` shows this case
  never arises in the preparation.
- `ShapEffects.Cell` returns the qualifying values and the baseline instead
  of their mean, spread and quantiles.
