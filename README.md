# Retro-funding distribution engine, modelled in Dafny

This project models the core of the retro-funding API: the engine that turns
the votes cast on a pool into a ranked distribution of funds over its
applications.

A vote is a ballot that is meant to spread 100 percentage points over the
pool's metrics (neither the source nor the model enforces the sum). Each application has a raw score per metric. The engine works in
four steps:

1. It normalizes each raw score against the metric's maximum and orientation.
2. It weights each normalized score by the metric's share of the votes.
3. It sums the weighted scores per application.
4. It turns the sums into percentages and sorts them in descending order.

Two policies give a metric its share:

- **flat**: the summed share of the first ballot item naming the metric;
- **weighted**: every ballot item's share scaled by the voter's voting
  weight, then renormalized to 100.

The dispatcher `calculate` picks one of the two from the pool's eligibility
criteria. The project also models:

- the preparation of the score rows from a metrics snapshot file, with the
  per-metric bounds;
- the legacy engine, which runs on hard-coded votes and scores;
- the eligibility criteria service: criteria records, their validation, and
  voter eligibility.

Modules, one per file:

- `Types` (`types.dfy`): the shared records (`Ballot`, `Vote`,
  `MetricFetcherResponse`, `Bounds`, `PreparedCalculationData`,
  `Distribution`, `EligibilityCriteria`) and the error kinds.
- `Distributions` (`distributions.dfy`): the shared machinery.
  - Record keys in insertion order (`Dedup`), and sums over them.
  - The percentage entries.
  - The descending sort: an in-place insertion sort on an `array`, proved
    sorted and a permutation.
- `Calculate` (`calculate.dfy`): `src/utils/calculate.ts`.
- `Applications` (`applications.dfy`): `src/utils/applications.ts`.
- `LegacyCalculations` (`legacy.dfy`): `src/calculations/index.ts`.
- `EligibilityCriteriaService` (`eligibility.dfy`):
  `src/service/EligibilityCriteriaService.ts`. The criteria table is a class
  whose `map` field the save operation updates.

Modelling choices:

- Decimal.js (64 significant digits) and JavaScript numbers are modelled as
  exact `real` arithmetic.
- The loops of the source are `method`s with loop invariants. Most are
  proved equal to a recursive specification function, and the properties
  are proved about those functions; the others (the eligibility
  validation, the snapshot selection and the sort) are characterised
  directly by their contracts.
- JavaScript records (`Record<string, …>`) are `map`s. A record's key order
  is the order of first insertion (`Dedup`). This key order decides the
  order of `Object.values`, of `Object.entries`, and so of the sort's input.
- The model cannot see the database, the indexer, the metrics file, the
  clock or the `viem` checks. These become parameters: the stored votes,
  the "pool is finalised" flag, the criteria, the indexer's applications,
  the metrics file's contents, and `isAddress` / `isHex` as functions
  `string -> bool`.
- Where the source would produce Infinity or NaN, or throw a `TypeError`,
  the model takes a precondition instead. These are a division by a zero
  maximum, reading the bounds of a metric that has none, and a weighted
  ballot item naming a metric outside the pool. The preconditions cover
  only what the source reaches: nothing for a finalised pool, and only the
  score rows before the first one outside the pool. Everything the source checks and throws on is modelled as a
  `Result` failure: NotFound, BadRequest, ActionNotAllowed, ServerError, and
  a plain `Error` (`Unexpected`).

## Model

| member | source | states |
|---|---|---|
| Calculate.GetApprovedAlloApplicationIds | src/utils/calculate.ts:35-38 | No indexer data gives no ids. Otherwise the result is the ids of the approved applications. |
| Calculate.ApprovedIds | src/utils/calculate.ts:36-38 | Every id kept belongs to an APPROVED application, and every APPROVED application's id is kept. The result is no longer than the input. |
| Calculate.NormalizeScore | src/utils/calculate.ts:67-77 | A raw score between 0 and the maximum normalizes into [0, 1], in either orientation. |
| Calculate.NormalizeComplement | src/utils/calculate.ts:72-75 | The increasing and decreasing normalizations of one score add up to 1. |
| Calculate.NormalizeMonotone | src/utils/calculate.ts:72-75 | With a positive maximum, a higher raw score normalizes higher on an increasing metric and lower on a decreasing one. |
| Calculate.NormalizeAtMaximum | src/utils/calculate.ts:72-75 | The maximum itself normalizes to 1 when increasing and to 0 when decreasing. |
| Calculate.FirstShare | src/utils/calculate.ts:198-200 | The result is None exactly when no ballot item names the metric. Otherwise it is the share of the first item naming it. |
| Calculate.FirstMatchUnique | src/utils/calculate.ts:198-200 | The first match is unique. |
| Calculate.VoteMassConcat | src/utils/calculate.ts:197-205 | The flat vote mass of two vote lists together is the sum of their masses. |
| Calculate.ExtraBallotMass | src/utils/calculate.ts:89-90 | Pushing the what-if ballot adds exactly its own first-match share to every metric's mass. |
| Calculate.WeightedMetricShares | src/utils/calculate.ts:262-285 | Each pool metric starts at zero. Every ballot item then adds share × weight / 100 to its metric. The resulting map equals `RawShares`, the weighted mass of every pool metric. |
| Calculate.AddItemShare | src/utils/calculate.ts:276-284 | One ballot item adds its weighted share to its own metric and leaves every other metric unchanged. |
| Calculate.NormalizedShares | src/utils/calculate.ts:292-300 | The renormalized record has exactly the pool's metrics as keys. |
| Calculate.RenormalizeShares | src/utils/calculate.ts:287-300 | The loop over the record's entries computes `NormalizedShares`. A metric's value is its share of the total × 100, or 100 / (length of the metric list) when the total is zero. |
| Calculate.NormalizedSharesSum | src/utils/calculate.ts:287-300 | The renormalized shares add up to 100 when the total is nonzero. They also add up to 100 when the total is zero and the metric list has no repeats. |
| Calculate.EqualSplitSum | src/utils/calculate.ts:297-298 | With a zero total and distinct metrics, the equal split adds up to 100. |
| Calculate.ProportionalSplitSum | src/utils/calculate.ts:299 | With a nonzero total, the proportional shares add up to 100. |
| Calculate.NoVotesEqualSplit | src/utils/calculate.ts:288-298 | Without weighted votes, every pool metric gets 100 / (length of the metric list). |
| Calculate.ItemsShareNone | src/utils/calculate.ts:276-284 | A ballot that does not name the metric adds nothing to it. |
| Calculate.ItemsShareSingle | src/utils/calculate.ts:276-284 | On a ballot naming the metric at most once, the weighted share is the flat first-match share × weight / 100. |
| Calculate.FirstShareAtLast | src/utils/calculate.ts:198-200 | When only the last item names the metric, that item is the first match. |
| Calculate.FirstShareBeforeLast | src/utils/calculate.ts:198-200 | A last item naming another metric leaves the first match unchanged. |
| Calculate.FullWeightMatchesFlat | src/utils/calculate.ts:197-205 | Suppose every voter has weight 100 and no ballot names the metric twice. Then the weighted policy's raw share equals the flat policy's vote mass (lines 269-285 against lines 197-205). |
| Calculate.ScorableWhenInPool | src/utils/calculate.ts:189-195 | Once a row's metric is in the pool, its bounds and its metric weight can be read. |
| Calculate.BoundsReadyInPool | src/utils/calculate.ts:180-195 | When every row scores a pool metric, the rows the loop reaches are all of them, so every row has bounds with a nonzero maximum. |
| Calculate.AppScoreStep | src/utils/calculate.ts:210-215 | Row i adds its contribution to its own application's score and nothing to any other application's. |
| Calculate.AppScoreAbsent | src/utils/calculate.ts:211-213 | An application with no rows scores 0. |
| Calculate.AccumulateScores | src/utils/calculate.ts:180-216 | The loop fails exactly when some row's metric is outside the pool. Otherwise it returns the record keys in first-seen order and each application's summed contributions, equal to `AppTotals`. |
| Calculate.AddRowScore | src/utils/calculate.ts:207-215 | After row i, the keys and totals are those of the prefix with row i added. A new application starts at 0. |
| Calculate.ScoreIdsStep | src/utils/calculate.ts:211-213 | A row adds its application id to the record keys exactly when the id is new. |
| Calculate.TotalStep | src/utils/calculate.ts:211-215 | A running total extended by row i's contribution is the score on the longer prefix. |
| Calculate.PercentagesSum | src/utils/calculate.ts:218-235 | The percentages add up to 100 when the total is nonzero, and are all 0 when it is zero. |
| Calculate.RankedScoresFacts | src/utils/calculate.ts:218-242 | A ranked result has these properties: it has one entry per application id of the score rows and no other; its ids are distinct; it is sorted in descending order; each percentage is the application's score over the total × 100 (0 when the total is 0); and the percentages add up to 100 when the total is nonzero, else they are all 0. |
| Calculate.NoVotesNoScore | src/utils/calculate.ts:197-208 | Without votes, every application of the flat policy scores 0. |
| Calculate.NoVotesZeroTotal | src/utils/calculate.ts:218-229 | Without votes the flat total is 0, so every percentage is 0. |
| Calculate.WeightedSharesCover | src/utils/calculate.ts:292-300 | Every pool metric has a renormalized share. |
| Calculate.CalculateDistribution | src/utils/calculate.ts:171-243 | NotFound when a row scores a metric outside the pool. Otherwise a ranked distribution of the application scores under the flat vote masses. |
| Calculate.CalculateWeightedDistribution | src/utils/calculate.ts:255-359 | A plain Error when a row scores a metric outside the pool. Otherwise a ranked distribution of the application scores under the renormalized weighted shares. |
| Calculate.WeightOf | src/utils/calculate.ts:105-106 | A voter's weight, read with `?? ''` and `?? 0`. |
| Calculate.WeightedVotes | src/utils/calculate.ts:102-114 | Every kept vote is admitted: its weight is in (0, 100], and its voter is defined and address-shaped. Its weight is the weight the criteria give its voter. |
| Calculate.WeightedVotesMembership | src/utils/calculate.ts:102-114 | A vote survives the filter exactly when it is one of the votes and its weighted form is admitted. |
| Calculate.Calculate | src/utils/calculate.ts:79-125 | ActionNotAllowed for every finalised pool, whatever its data. Otherwise, weighted criteria run the weighted policy on the admitted votes. Any other criteria, or none, run the flat policy on the stored votes plus the what-if ballot. |
| Applications.GetApplicationsMetrics | src/utils/applications.ts:10-30 | The result holds a requested id exactly when the metrics file has it, with the file's snapshot. |
| Applications.CollectValidValues | src/utils/applications.ts:56-71 | Every metric's array of valid values is `ValidValues`. No array is empty. |
| Applications.CollectAppValues | src/utils/applications.ts:63-70 | One snapshot appends its present values, in round-metric order, to their metrics' arrays. |
| Applications.PushAppValue | src/utils/applications.ts:64-69 | A present value is pushed as `Number(v)` onto its metric's array, created on first push. A null or missing value pushes nothing. |
| Applications.PushedLookup | src/utils/applications.ts:64-69 | That push seen from one metric: only the pushed metric's array grows. |
| Applications.SeqMin | src/utils/applications.ts:79 | The minimum is one of the values and at most every value. |
| Applications.SeqMax | src/utils/applications.ts:80 | The maximum is one of the values and at least every value. |
| Applications.ComputeBounds | src/utils/applications.ts:73-83 | A round metric gets bounds exactly when its array of valid values is non-empty. The bounds are that array's min and max. |
| Applications.GetApplicationMetrics | src/utils/applications.ts:32-117 | No ids give no rows and no bounds. Otherwise the bounds are those of the present values of the requested snapshots. The rows are one per requested application with a snapshot × round metric, in that order, each value filled from the bounds. |
| Applications.RowsCount | src/utils/applications.ts:87-114 | There are as many rows as requested applications with a snapshot × round metrics. |
| Applications.RowAt | src/utils/applications.ts:87-114 | Row k·\|M\| + j is round metric j of the k-th requested application with a snapshot. A non-number value is replaced by the minimum on an increasing metric and the maximum on a decreasing one, when the metric has bounds. |
| Applications.RowsFromSnapshots | src/utils/applications.ts:87-114 | Every row belongs to a requested application that has a snapshot, and names a round metric. |
| Applications.PresentValueCollected | src/utils/applications.ts:63-69 | Every present value of a round metric is collected. |
| Applications.CollectedValueOrigin | src/utils/applications.ts:57-71 | Every collected value is the `Number` of a present value of some requested snapshot. |
| Applications.BoundsExactlyWhenPresent | src/utils/applications.ts:57-83 | A metric has bounds exactly when it is a round metric with a present value in some requested snapshot. Then min ≤ max, both are collected values, each equal to some present snapshot value, and every present value lies between them. |
| Applications.AppRowsWellScored | src/utils/applications.ts:93-113 | Each row of one application is well scored: with bounds, its score is a number within them; without bounds, it is the snapshot's missing or null value. |
| Applications.RowsWellScored | src/utils/applications.ts:87-114 | Every generated row is well scored against the bounds of the same run. |
| Applications.GetApplicationMetricsFacts | src/utils/applications.ts:32-117 | The result has the row count above. Every row's application was requested and is in the file. Every row is well scored against the returned bounds. |
| LegacyCalculations.GetHardcodedVotes | src/calculations/index.ts:7-45 | Five votes, each with a three-item ballot. |
| LegacyCalculations.Gr8LucasMetricFetcher | src/calculations/index.ts:48-107 | Fifteen score rows, three for each of five applications. |
| LegacyCalculations.HardcodedBallotsSumTo100 | src/calculations/index.ts:7-45 | Every hard-coded ballot has three items whose shares add up to 100. |
| LegacyCalculations.FindMetric | src/calculations/index.ts:177-179 | None exactly when no pool metric has the name. Otherwise the first pool metric of that name, as `find` returns it. |
| LegacyCalculations.IsMetricIncreasing | src/calculations/index.ts:116-122 | NotFound exactly when no pool metric has the name. Otherwise the orientation test of the first metric of that name. |
| LegacyCalculations.ComputeMetricBounds | src/calculations/index.ts:145-164 | The `forEach` computes `LegacyBounds`: the first row of a metric sets both bounds, and later rows widen them. |
| LegacyCalculations.LegacyBoundsFacts | src/calculations/index.ts:145-164 | Every row's metric has bounds, and every score lies within its metric's bounds. |
| LegacyCalculations.LegacyBoundsAttained | src/calculations/index.ts:145-164 | Both bounds of a metric are scores of rows of that metric. |
| LegacyCalculations.PositiveScoresNonzeroMaxima | src/calculations/index.ts:184-188 | Positive scores have nonzero maxima, so the division at line 188 is defined. |
| LegacyCalculations.FixturesNonzeroMaxima | src/calculations/index.ts:48-107 | The hard-coded scores have nonzero maxima. |
| LegacyCalculations.LegacyNormalize | src/calculations/index.ts:187-192 | For a raw score between 0 and the maximum, an increasing metric gives [0, 1] and a decreasing one gives [0.1, 1.1]. |
| LegacyCalculations.LegacyNormalizeOffset | src/calculations/index.ts:187-192 | The legacy normalization equals the current one, offset by 0.1 on a decreasing metric. |
| LegacyCalculations.HardcodedVoteMasses | src/calculations/index.ts:194-200 | On the hard-coded votes, the metric masses are 200, 190 and 110. |
| LegacyCalculations.FixtureContribution | src/calculations/index.ts:196-199 | A fixture ballot gives each of its three metrics its own share. |
| LegacyCalculations.LegacyAppScoreStep | src/calculations/index.ts:205-209 | Row i adds its contribution to its own application only. |
| LegacyCalculations.LegacyAppScoreAbsent | src/calculations/index.ts:206-208 | An application with no rows scores 0. |
| LegacyCalculations.LegacyAccumulate | src/calculations/index.ts:169-210 | NotFound at the first row whose metric the pool lacks. Otherwise the record keys in first-seen order and each application's summed contributions. |
| LegacyCalculations.AddLegacyRowScore | src/calculations/index.ts:202-209 | After row i, the keys and totals are those of the prefix with row i added. |
| LegacyCalculations.LegacyIdsStep | src/calculations/index.ts:206-208 | A row adds its application id to the keys exactly when the id is new. |
| LegacyCalculations.LegacyTotalStep | src/calculations/index.ts:206-209 | A running total extended by row i's contribution is the score on the longer prefix. |
| LegacyCalculations.LegacyPercentagesSum | src/calculations/index.ts:212-228 | A positive total gives percentages adding up to 100. Any other total gives 0 everywhere. |
| LegacyCalculations.LegacyDistribute | src/calculations/index.ts:145-235 | NotFound when a row's metric is outside the pool. Otherwise the ranked legacy percentages. |
| LegacyCalculations.CalculateDistributions | src/calculations/index.ts:124-236 | NotFound without a pool. Otherwise the legacy engine on the hard-coded votes and scores, whose maxima are nonzero. |
| LegacyCalculations.LegacyOutcomeFacts | src/calculations/index.ts:212-235 | A legacy outcome has these properties: it has one entry per application of the rows; its ids are distinct; it is sorted in descending order; each percentage is the score's share of a positive total × 100, else 0; and the percentages add up to 100 when the total is positive, else they are all 0. |
| Distributions.Dedup | src/utils/calculate.ts:211-213 | The record keys are the distinct ids, each kept once. |
| Distributions.DedupSnoc | src/utils/calculate.ts:211-213 | Adding an id that is already a key changes nothing. A new id is appended. |
| Distributions.SumValuesScaled | src/utils/calculate.ts:227-229 | Dividing every value by the total and multiplying by 100 scales the sum the same way. |
| Distributions.EntriesSum | src/utils/calculate.ts:225-235 | The entries' percentages add up to the record's values. |
| Distributions.SumPercentagesPermutation | src/utils/calculate.ts:238-240 | Reordering the entries keeps the sum of their percentages. |
| Distributions.DistinctIdsPermutation | src/utils/calculate.ts:238-240 | Reordering the entries keeps their ids distinct. |
| Distributions.SortByPercentage | src/utils/calculate.ts:238-240 | The in-place sort leaves the array in descending order of percentage and a permutation of its old contents. |
| Distributions.InsertLeft | src/utils/calculate.ts:238-240 | One insertion step extends the sorted prefix by one element and keeps the multiset. |
| Distributions.Rank | src/utils/calculate.ts:237-242 | The ranked copy of the entries is sorted in descending order and is a permutation of them. |
| Distributions.RankedKeeps | src/utils/calculate.ts:237-242 | Ranking keeps the length, the percentage sum, the set of entries and the distinctness of the ids. |
| Distributions.RankedIds | src/utils/calculate.ts:237-242 | Ranking keeps the set of application ids. |
| EligibilityCriteriaService.ValidateEligibilityCriteriaData | src/service/EligibilityCriteriaService.ts:76-87 | Passes exactly when the data is not Linear or every Linear voter is hex. A failure is BadRequest. |
| EligibilityCriteriaService.VoterEligible | src/service/EligibilityCriteriaService.ts:63-72 | NotFound exactly when there are no criteria. Otherwise true exactly when the pool is Linear and the voter is on its allow-list, compared exactly. |
| EligibilityCriteriaService.EligibleVotersAreHex | src/service/EligibilityCriteriaService.ts:67-87 | On validated criteria, only hex voters are eligible. |
| EligibilityCriteriaService.WeightedPoolsAdmitNobody | src/service/EligibilityCriteriaService.ts:67-72 | A weighted pool admits no voter through this check, not even one holding a weight. |
| EligibilityCriteriaService.EligibilityCriteriaStore.constructor | src/service/EligibilityCriteriaService.ts:89 | An empty criteria table that keeps its invariant. |
| EligibilityCriteriaService.EligibilityCriteriaStore.GetEligibilityCriteriaByChainIdAndAlloPoolId | src/service/EligibilityCriteriaService.ts:43-50 | Returns a record exactly when one is stored under (chainId, alloPoolId). Under the invariant it is that pool's record. |
| EligibilityCriteriaService.EligibilityCriteriaStore.SaveEligibilityCriteria | src/service/EligibilityCriteriaService.ts:14-41 | BadRequest, with the table unchanged, when the chain id or the pool id is missing, or when validation fails. Otherwise it inserts the record under (chainId, alloPoolId), or replaces the record already there, and returns it. The invariant is kept: one record per key, and validated Linear allow-lists only. |
| EligibilityCriteriaService.EligibilityCriteriaStore.IsVoterEligible | src/service/EligibilityCriteriaService.ts:52-73 | `VoterEligible` of the stored criteria. An eligible voter is hex. |

## Left out

- I/O and orchestration: the pool, vote, metric and criteria lookups, the indexer call, the `isPoolFinalised` check, and reading `metrics.json`. Their results are parameters. `prepareCalculationData` (`src/utils/calculate.ts:128-168`) is not modelled as an operation.
  - Its `isMetricIncreasing` lookup becomes the `isIncreasingMap` field of the prepared data.
  - With that map as given data, an unknown metric is read as decreasing (`IsIncreasing`).
  - The NotFound it throws for a missing pool is not modelled.
- `fetchVotes` in both engines: the stored votes are a parameter of `Calculate.Calculate`, and the legacy engine always uses `GetHardcodedVotes`.
- Decimal.js precision (64 digits, rounding down) and JavaScript floating point: all arithmetic is exact `real`.
- A zero maximum and a missing bounds entry are preconditions (`BoundsReady`, `NonzeroMaxima`), required only of a pool that is not finalised and only of the score rows the loop reaches before a row outside the pool:
  - Decimal.js would divide by zero to Infinity or NaN;
  - a missing bounds entry is a `TypeError` when the bounds are destructured.
- `Calculate.CalculateWeightedDistribution`: a ballot item naming a metric outside the pool is a precondition (`BallotsInPool`), required by `Calculate.Calculate` only of a pool that is not finalised. The source fails there by reading `.plus` of `undefined`.
- Score rows reach the two current policies as numbers. The non-number or NaN scores that `getApplicationMetrics` can pass on, and that `new Decimal(...)` would parse or reject, are not modelled between the two files.
- `Number(...)` of a snapshot value is modelled only for numbers and numeric strings (`NumericText`).
  - A string that does not parse (NaN), booleans, and other JSON kinds are not modelled.
  - A `null` snapshot for a whole application is not modelled either; the first pass would throw on it.
- `invalidApplications` in `getApplicationMetrics` is built but never read or returned, so it is not modelled.
- Sort stability: `Rank` promises a descending order and a permutation, not which of two equal percentages comes first.
  - JavaScript orders integer-like record keys first. The model uses insertion order for every key.
- `Calculate.NormalizedSharesSum`: in the zero-total case it requires a metric list without repeats. The source divides by the length of the list, so with repeated metrics the equal split does not add up to 100.
- `EligibilityCriteriaService.EligibilityCriteriaStore.SaveEligibilityCriteria`: the ServerError branch after the upsert is kept, but it cannot be taken, because the model's table always returns the row just written. The database id is not modelled; the record is keyed by (chainId, alloPoolId).
- The eligibility type and its data are one value (`EligibilityData`): `Linear` carries the allow-list and `Weighted` carries the weight record, which the source reads as `data.voters`.
  - A record whose type and data disagree is not modelled.
  - Neither is a partial record without type or data.
- The legacy output field is named `distribution_percentage` in the source. The model reuses `Distribution.distributionPercentage`.
- The legacy `!appToWeightedScores[id]` test also resets a score of 0 to 0. That leaves the value unchanged, so the model treats it as an absence test.

## Code and documentation

Where the repository's documentation and its code differ, the model follows the code:

- eligibility on a Linear pool compares addresses exactly, so letter case matters;
- the zero-total equal split divides by the length of the pool's metric list.
