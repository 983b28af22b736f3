/** The current distribution engine: score normalization, the flat policy,
    the weighted policy, the dispatcher that picks one of them, and the
    filter that keeps the approved applications of a round. */
module Calculate {
  import opened Types
  import opened Distributions

  // ---------------------------------------------------------------------
  // Approved applications

  datatype Status = PENDING | APPROVED | REJECTED

  /** An application as the indexer reports it. */
  datatype IndexerApplication = IndexerApplication(id: string, status: Status)

  /** The ids of the approved applications, in indexer order; no indexer
      data at all yields no ids. */
  function GetApprovedAlloApplicationIds(applications: Option<seq<IndexerApplication>>): (ids: seq<string>)
    ensures applications.None? ==> ids == []
    ensures applications.Some? ==> ids == ApprovedIds(applications.value)
  {
    match applications
    case None => []
    case Some(apps) => ApprovedIds(apps)
  }

  function ApprovedIds(apps: seq<IndexerApplication>): (ids: seq<string>)
    ensures |ids| <= |apps|
    ensures forall id <- ids :: exists app <- apps :: app.status == APPROVED && app.id == id
    ensures forall app <- apps :: app.status == APPROVED ==> app.id in ids
  {
    if apps == [] then []
    else
      var rest := ApprovedIds(apps[1..]);
      assert forall app <- apps[1..] :: app in apps;
      if apps[0].status == APPROVED then [apps[0].id] + rest else rest
  }

  // ---------------------------------------------------------------------
  // Score normalization

  /** The raw score divided by the metric's maximum; for a decreasing metric
      the complement of that ratio. */
  function NormalizeScore(rawScore: real, maxValue: real, isIncreasing: bool): (r: real)
    requires maxValue != 0.0
    ensures 0.0 <= rawScore <= maxValue ==> 0.0 <= r <= 1.0
  {
    var normalizedScore := rawScore / maxValue;
    if !isIncreasing then 1.0 - normalizedScore else normalizedScore
  }

  /** The two orientations of one score add up to one. */
  lemma NormalizeComplement(rawScore: real, maxValue: real)
    requires maxValue != 0.0
    ensures NormalizeScore(rawScore, maxValue, true) + NormalizeScore(rawScore, maxValue, false) == 1.0
  {
  }

  /** A higher raw score normalizes higher on an increasing metric and lower
      on a decreasing one. */
  lemma NormalizeMonotone(low: real, high: real, maxValue: real)
    requires maxValue > 0.0 && low <= high
    ensures NormalizeScore(low, maxValue, true) <= NormalizeScore(high, maxValue, true)
    ensures NormalizeScore(low, maxValue, false) >= NormalizeScore(high, maxValue, false)
  {
    assert low / maxValue <= high / maxValue;
  }

  /** The application holding the maximum gets 1 on an increasing metric
      and 0 on a decreasing one (the degenerate single-application case). */
  lemma NormalizeAtMaximum(maxValue: real)
    requires maxValue != 0.0
    ensures NormalizeScore(maxValue, maxValue, true) == 1.0
    ensures NormalizeScore(maxValue, maxValue, false) == 0.0
  {
    DivSelf(maxValue);
  }

  lemma DivSelf(x: real)
    requires x != 0.0
    ensures x / x == 1.0
  {
  }

  /** `isIncreasingMap[m] as boolean`: a metric missing from the map reads
      as `undefined`, which the engine treats as decreasing. */
  function IsIncreasing(isIncreasingMap: map<string, bool>, metricIdentifier: string): bool {
    metricIdentifier in isIncreasingMap && isIncreasingMap[metricIdentifier]
  }

  // ---------------------------------------------------------------------
  // Flat vote mass

  /** `k` is the first ballot item naming `metricIdentifier`. */
  predicate IsFirstMatch(ballot: seq<Ballot>, metricIdentifier: string, k: int) {
    && 0 <= k < |ballot|
    && ballot[k].metricIdentifier == metricIdentifier
    && forall j | 0 <= j < k :: ballot[j].metricIdentifier != metricIdentifier
  }

  lemma FirstMatchUnique(ballot: seq<Ballot>, metricIdentifier: string, k: int, k': int)
    requires IsFirstMatch(ballot, metricIdentifier, k) && IsFirstMatch(ballot, metricIdentifier, k')
    ensures k == k'
  {
    assert !(k < k') by {
      assert ballot[k].metricIdentifier == metricIdentifier;
    }
    assert !(k' < k) by {
      assert ballot[k'].metricIdentifier == metricIdentifier;
    }
  }

  /** `ballot.find(item => item.metricIdentifier === metricIdentifier)?.voteShare`. */
  function FirstShare(ballot: seq<Ballot>, metricIdentifier: string): (r: Option<real>)
    ensures r.None? <==> forall k | 0 <= k < |ballot| :: ballot[k].metricIdentifier != metricIdentifier
    ensures r.Some? ==> exists k :: IsFirstMatch(ballot, metricIdentifier, k) && ballot[k].voteShare == r.value
  {
    if ballot == [] then None
    else if ballot[0].metricIdentifier == metricIdentifier then
      assert IsFirstMatch(ballot, metricIdentifier, 0);
      Some(ballot[0].voteShare)
    else
      var r := FirstShare(ballot[1..], metricIdentifier);
      assert forall k | IsFirstMatch(ballot[1..], metricIdentifier, k) :: IsFirstMatch(ballot, metricIdentifier, k + 1);
      r
  }

  /** What one vote adds to the flat mass of a metric: the share of its
      first ballot item naming the metric, else nothing. */
  function FlatContribution(vote: Vote, metricIdentifier: string): real {
    match vote.ballot
    case None => 0.0
    case Some(items) => FirstShare(items, metricIdentifier).GetOr(0.0)
  }

  /** `votes.reduce(...)`: the flat vote mass of a metric. */
  function VoteMass(votes: seq<Vote>, metricIdentifier: string): real {
    if votes == [] then 0.0
    else VoteMass(votes[..|votes| - 1], metricIdentifier) + FlatContribution(votes[|votes| - 1], metricIdentifier)
  }

  /** The mass of two vote lists together is the sum of their masses; in
      particular one extra (what-if) ballot adds exactly its own contribution. */
  lemma {:induction false} VoteMassConcat(votes: seq<Vote>, more: seq<Vote>, metricIdentifier: string)
    ensures VoteMass(votes + more, metricIdentifier) == VoteMass(votes, metricIdentifier) + VoteMass(more, metricIdentifier)
  {
    if more == [] {
      assert votes + more == votes;
    } else {
      var more' := more[..|more| - 1];
      assert (votes + more)[..|votes + more| - 1] == votes + more';
      VoteMassConcat(votes, more', metricIdentifier);
    }
  }

  lemma ExtraBallotMass(votes: seq<Vote>, extra: Vote, metricIdentifier: string)
    ensures VoteMass(votes + [extra], metricIdentifier) == VoteMass(votes, metricIdentifier) + FlatContribution(extra, metricIdentifier)
  {
    VoteMassConcat(votes, [extra], metricIdentifier);
    assert [extra][..0] == [];
  }

  /** The flat branch's weight of every pool metric: its vote mass. */
  function FlatWeights(pool: PoolMetrics, votes: seq<Vote>): (weights: map<string, real>)
  {
    map m | m in pool.metricIdentifiers :: VoteMass(votes, m)
  }

  // ---------------------------------------------------------------------
  // Weighted vote shares

  /** A vote share scaled by the voter's weight (a percentage). */
  function Portion(voteShare: real, weight: real): real {
    voteShare * weight / 100.0
  }

  /** What a ballot adds to a metric under the weighted policy: every item
      naming it (not only the first), scaled by weight / 100. */

  function ItemsShare(items: seq<Ballot>, weight: real, metricIdentifier: string): real {
    if items == [] then 0.0
    else
      var item := items[|items| - 1];
      ItemsShare(items[..|items| - 1], weight, metricIdentifier)
        + (if item.metricIdentifier == metricIdentifier then Portion(item.voteShare, weight) else 0.0)
  }

  function WeightedContribution(vote: WeightedVote, metricIdentifier: string): real {
    match vote.vote.ballot
    case None => 0.0
    case Some(items) => ItemsShare(items, vote.voterVotingWeight, metricIdentifier)
  }

  /** The summed weighted share of one metric over all votes. */
  function WeightedMass(votes: seq<WeightedVote>, metricIdentifier: string): real {
    if votes == [] then 0.0
    else WeightedMass(votes[..|votes| - 1], metricIdentifier) + WeightedContribution(votes[|votes| - 1], metricIdentifier)
  }

  /** The weighted shares of the pool's metrics, before renormalization. */
  function RawShares(metrics: seq<string>, votes: seq<WeightedVote>): map<string, real> {
    map m | m in metrics :: WeightedMass(votes, m)
  }

  predicate BallotInPool(metrics: seq<string>, vote: Vote) {
    match vote.ballot
    case None => true
    case Some(items) => forall item <- items :: item.metricIdentifier in metrics
  }

  /** Every ballot item of every vote names a pool metric (a ballot item
      naming another metric makes the source dereference `undefined`). */
  predicate BallotsInPool(metrics: seq<string>, votes: seq<WeightedVote>) {
    forall v <- votes :: BallotInPool(metrics, v.vote)
  }

  /** Steps 1 and 2 of the weighted policy: a zero per pool metric, then the
      weighted share of every ballot item added to its metric. */
  method WeightedMetricShares(metrics: seq<string>, votes: seq<WeightedVote>) returns (shares: map<string, real>)
    requires BallotsInPool(metrics, votes)
    ensures shares == RawShares(metrics, votes)
  {
    shares := map[];
    for k := 0 to |metrics|
      invariant forall m :: m in shares <==> m in metrics[..k]
      invariant forall m | m in shares :: shares[m] == 0.0
    {
      shares := shares[metrics[k] := 0.0];
    }
    assert metrics[..|metrics|] == metrics;
    for i := 0 to |votes|
      invariant forall m :: m in shares <==> m in metrics
      invariant forall m | m in shares :: shares[m] == WeightedMass(votes[..i], m)
    {
      var vote := votes[i];
      assert votes[..i + 1][..i] == votes[..i];
      assert vote in votes;
      if vote.vote.ballot.Some? {
        var items := vote.vote.ballot.value;
        var voterWeight := vote.voterVotingWeight;
        for j := 0 to |items|
          invariant forall m :: m in shares <==> m in metrics
          invariant forall m | m in shares ::
            shares[m] == WeightedMass(votes[..i], m) + ItemsShare(items[..j], voterWeight, m)
        {
          assert items[j] in items;
          shares := AddItemShare(shares, votes[..i], items, j, voterWeight);
        }
        assert items[..|items|] == items;
      }
    }
    assert votes[..|votes|] == votes;
  }

  /** The inner step of step 2: ballot item `j` adds its weighted share to
      its metric. */
  method AddItemShare(shares: map<string, real>, before: seq<WeightedVote>, items: seq<Ballot>, j: int, voterWeight: real)
    returns (shares': map<string, real>)
    requires 0 <= j < |items| && items[j].metricIdentifier in shares
    requires forall m | m in shares :: shares[m] == WeightedMass(before, m) + ItemsShare(items[..j], voterWeight, m)
    ensures forall m :: m in shares' <==> m in shares
    ensures forall m | m in shares' :: shares'[m] == WeightedMass(before, m) + ItemsShare(items[..j + 1], voterWeight, m)
  {
    var item := items[j];
    var weightedShare := item.voteShare * voterWeight / 100.0;
    shares' := shares[item.metricIdentifier := shares[item.metricIdentifier] + weightedShare];
    assert items[..j + 1][..j] == items[..j];
    assert forall m ::
        ItemsShare(items[..j + 1], voterWeight, m)
        == ItemsShare(items[..j], voterWeight, m) + (if item.metricIdentifier == m then Portion(item.voteShare, voterWeight) else 0.0);
  }

  /** One metric's renormalized share: its share of the summed total, times
      100; when the total is zero, an equal split over `count` metrics. */
  function ShareOfTotal(share: real, total: real, count: nat): real
    requires count > 0
  {
    if total == 0.0 then 100.0 / count as real else share / total * 100.0
  }

  /** Step 3 of the weighted policy, over the pool's metric list (the equal
      split divides by the length of that list). */
  function NormalizedShares(metrics: seq<string>, shares: map<string, real>): (normalized: map<string, real>)
    requires forall m <- metrics :: m in shares
    ensures forall m :: m in normalized <==> m in metrics
  {
    var keys := Dedup(metrics);
    var total := SumValues(keys, shares);
    map m | m in keys :: ShareOfTotal(shares[m], total, |metrics|)
  }

  /** The loop of step 3, over the entries of the share record in key order. */
  method RenormalizeShares(metrics: seq<string>, shares: map<string, real>) returns (normalized: map<string, real>)
    requires forall m <- metrics :: m in shares
    ensures normalized == NormalizedShares(metrics, shares)
  {
    var keys := Dedup(metrics);
    var totalWeightedShares := SumValues(keys, shares);
    ghost var target := NormalizedShares(metrics, shares);
    normalized := map[];
    for k := 0 to |keys|
      invariant forall m :: m in normalized <==> m in keys[..k]
      invariant forall m | m in normalized :: m in target && normalized[m] == target[m]
    {
      var metricId := keys[k];
      assert metricId in keys && keys[..k + 1] == keys[..k] + [metricId];
      assert target[metricId] == ShareOfTotal(shares[metricId], totalWeightedShares, |metrics|);
      normalized := normalized[metricId := ShareOfTotal(shares[metricId], totalWeightedShares, |metrics|)];
    }
    assert keys[..|keys|] == keys;
  }

  /** The renormalized shares of the pool's metrics add up to 100, unless
      the summed total is zero and the metric list repeats an entry (the
      equal split divides by the length of the list, not by the number of
      distinct metrics). */
  lemma NormalizedSharesSum(metrics: seq<string>, shares: map<string, real>)
    requires forall m <- metrics :: m in shares
    requires SumValues(Dedup(metrics), shares) != 0.0 || (metrics != [] && Distinct(metrics))
    ensures SumValues(Dedup(metrics), NormalizedShares(metrics, shares)) == 100.0
  {
    if SumValues(Dedup(metrics), shares) == 0.0 {
      EqualSplitSum(metrics, shares);
    } else {
      ProportionalSplitSum(metrics, shares);
    }
  }

  lemma EqualSplitSum(metrics: seq<string>, shares: map<string, real>)
    requires forall m <- metrics :: m in shares
    requires SumValues(Dedup(metrics), shares) == 0.0
    requires metrics != [] && Distinct(metrics)
    ensures SumValues(Dedup(metrics), NormalizedShares(metrics, shares)) == 100.0
  {
    var normalized := NormalizedShares(metrics, shares);
    DedupOfDistinct(metrics);
    assert forall k <- metrics :: k in normalized && normalized[k] == 100.0 / |metrics| as real;
    SumValuesEqualSplit(metrics, normalized);
  }

  lemma ProportionalSplitSum(metrics: seq<string>, shares: map<string, real>)
    requires forall m <- metrics :: m in shares
    requires SumValues(Dedup(metrics), shares) != 0.0
    ensures SumValues(Dedup(metrics), NormalizedShares(metrics, shares)) == 100.0
  {
    var keys := Dedup(metrics);
    var total := SumValues(keys, shares);
    var normalized := NormalizedShares(metrics, shares);
    assert forall k <- keys :: normalized[k] == shares[k] / total * 100.0;
    SumValuesScaled(keys, shares, normalized, total);
    DivSelfCancel(total);
  }

  /** With no weighted votes at all every pool metric gets an equal share. */
  lemma NoVotesEqualSplit(metrics: seq<string>)
    ensures forall m <- metrics :: m in NormalizedShares(metrics, RawShares(metrics, []))
    ensures forall m <- metrics ::
      NormalizedShares(metrics, RawShares(metrics, []))[m] == 100.0 / |metrics| as real
  {
    var keys := Dedup(metrics);
    SumValuesConstant(keys, RawShares(metrics, []), 0.0);
  }

  /** A ballot that names a metric at most once. */
  predicate NamesAtMostOnce(items: seq<Ballot>, metricIdentifier: string) {
    forall i, j | 0 <= i < j < |items| :: items[i].metricIdentifier == metricIdentifier ==> items[j].metricIdentifier != metricIdentifier
  }

  lemma {:induction false} ItemsShareNone(items: seq<Ballot>, weight: real, metricIdentifier: string)
    requires forall item <- items :: item.metricIdentifier != metricIdentifier
    ensures ItemsShare(items, weight, metricIdentifier) == 0.0
  {
    if items != [] {
      ItemsShareNone(items[..|items| - 1], weight, metricIdentifier);
    }
  }

  /** On a ballot naming a metric at most once, the weighted policy's share
      is the flat policy's share scaled by weight / 100. */
  lemma {:induction false} ItemsShareSingle(items: seq<Ballot>, weight: real, metricIdentifier: string)
    requires NamesAtMostOnce(items, metricIdentifier)
    ensures ItemsShare(items, weight, metricIdentifier) == Portion(FirstShare(items, metricIdentifier).GetOr(0.0), weight)
  {
    if items != [] {
      var items', item := items[..|items| - 1], items[|items| - 1];
      NamesAtMostOncePrefix(items, metricIdentifier);
      ItemsShareSingle(items', weight, metricIdentifier);
      if item.metricIdentifier == metricIdentifier {
        ItemsShareNone(items', weight, metricIdentifier);
        FirstShareAtLast(items, metricIdentifier);
        assert ItemsShare(items, weight, metricIdentifier) == Portion(item.voteShare, weight);
      } else {
        FirstShareBeforeLast(items, metricIdentifier);
        assert ItemsShare(items, weight, metricIdentifier) == ItemsShare(items', weight, metricIdentifier);
      }
    }
  }

  lemma NamesAtMostOncePrefix(items: seq<Ballot>, metricIdentifier: string)
    requires items != [] && NamesAtMostOnce(items, metricIdentifier)
    ensures NamesAtMostOnce(items[..|items| - 1], metricIdentifier)
  {
    assert forall i | 0 <= i < |items| - 1 :: items[..|items| - 1][i] == items[i];
  }

  /** When only the last item names the metric, it is the first match. */
  lemma FirstShareAtLast(items: seq<Ballot>, metricIdentifier: string)
    requires items != [] && items[|items| - 1].metricIdentifier == metricIdentifier
    requires NamesAtMostOnce(items, metricIdentifier)
    ensures FirstShare(items, metricIdentifier) == Some(items[|items| - 1].voteShare)
  {
    assert IsFirstMatch(items, metricIdentifier, |items| - 1);
    var k :| IsFirstMatch(items, metricIdentifier, k) && items[k].voteShare == FirstShare(items, metricIdentifier).value;
    FirstMatchUnique(items, metricIdentifier, k, |items| - 1);
  }

  /** A last item naming another metric does not change the first match. */
  lemma FirstShareBeforeLast(items: seq<Ballot>, metricIdentifier: string)
    requires items != [] && items[|items| - 1].metricIdentifier != metricIdentifier
    ensures FirstShare(items, metricIdentifier) == FirstShare(items[..|items| - 1], metricIdentifier)
  {
    var items' := items[..|items| - 1];
    var first := FirstShare(items, metricIdentifier);
    var first' := FirstShare(items', metricIdentifier);
    if first.Some? {
      var k :| IsFirstMatch(items, metricIdentifier, k) && items[k].voteShare == first.value;
      assert IsFirstMatch(items', metricIdentifier, k);
      var k' :| IsFirstMatch(items', metricIdentifier, k') && items'[k'].voteShare == first'.value;
      FirstMatchUnique(items', metricIdentifier, k, k');
    } else {
      assert first'.None?;
    }
  }

  /** The weighted votes without their weights. */
  function Unweighted(votes: seq<WeightedVote>): (r: seq<Vote>)
    ensures |r| == |votes|
  {
    seq(|votes|, k requires 0 <= k < |votes| => votes[k].vote)
  }

  /** When every voter carries the full weight 100 and no ballot names a
      metric twice, the weighted policy's raw share of that metric is the
      flat policy's vote mass of the same ballots. */
  lemma {:induction false} FullWeightMatchesFlat(votes: seq<WeightedVote>, metricIdentifier: string)
    requires forall v <- votes :: v.voterVotingWeight == 100.0
    requires forall v <- votes :: v.vote.ballot.Some? ==> NamesAtMostOnce(v.vote.ballot.value, metricIdentifier)
    ensures WeightedMass(votes, metricIdentifier) == VoteMass(Unweighted(votes), metricIdentifier)
  {
    if votes != [] {
      var votes', v := votes[..|votes| - 1], votes[|votes| - 1];
      assert Unweighted(votes)[..|votes| - 1] == Unweighted(votes');
      FullWeightMatchesFlat(votes', metricIdentifier);
      if v.vote.ballot.Some? {
        ItemsShareSingle(v.vote.ballot.value, 100.0, metricIdentifier);
      }
    }
  }

  // ---------------------------------------------------------------------
  // Per-application scores

  predicate InPool(pool: PoolMetrics, row: MetricFetcherResponse) {
    row.metricIdentifier in pool.metricIdentifiers
  }

  predicate ScoresInPool(data: PreparedCalculationData) {
    forall row <- data.applicationToMetricsScores :: InPool(data.pool, row)
  }

  /** The row's metric has bounds with a nonzero maximum (the source reads
      `metricsBounds[m].maxValue` and divides by it unguarded). */
  predicate RowBoundsReady(data: PreparedCalculationData, row: MetricFetcherResponse) {
    row.metricIdentifier in data.metricsBounds && data.metricsBounds[row.metricIdentifier].maxValue != 0.0
  }

  /** Rows `0..k` all score pool metrics, so the loop reaches row `k`. */
  predicate InPoolUpTo(data: PreparedCalculationData, k: int) {
    forall j | 0 <= j <= k && j < |data.applicationToMetricsScores| :: InPool(data.pool, data.applicationToMetricsScores[j])
  }

  /** Every row the scoring loop reaches before it meets a metric outside
      the pool (and throws) has bounds ready. */
  predicate BoundsReady(data: PreparedCalculationData) {
    forall k | 0 <= k < |data.applicationToMetricsScores| && InPoolUpTo(data, k) ::
      RowBoundsReady(data, data.applicationToMetricsScores[k])
  }

  /** When every row scores a pool metric, every row has bounds ready. */
  lemma BoundsReadyInPool(data: PreparedCalculationData)
    requires ScoresInPool(data) && BoundsReady(data)
    ensures forall row <- data.applicationToMetricsScores :: RowBoundsReady(data, row)
  {
    var rows := data.applicationToMetricsScores;
    forall row <- rows ensures RowBoundsReady(data, row) {
      var k :| 0 <= k < |rows| && rows[k] == row;
      assert InPoolUpTo(data, k) by {
        forall j | 0 <= j <= k && j < |rows| ensures InPool(data.pool, rows[j]) {
          assert rows[j] in rows;
        }
      }
    }
  }

  predicate Scorable(data: PreparedCalculationData, weights: map<string, real>, row: MetricFetcherResponse) {
    && row.metricIdentifier in data.metricsBounds
    && data.metricsBounds[row.metricIdentifier].maxValue != 0.0
    && row.metricIdentifier in weights
  }

  /** What one score row adds to its application: the normalized score times
      the metric's weight, over 100. */
  function Contribution(data: PreparedCalculationData, weights: map<string, real>, row: MetricFetcherResponse): real
    requires Scorable(data, weights, row)
  {
    var maxValue := data.metricsBounds[row.metricIdentifier].maxValue;
    var normalizedScore := NormalizeScore(row.metricScore, maxValue, IsIncreasing(data.isIncreasingMap, row.metricIdentifier));
    normalizedScore * weights[row.metricIdentifier] / 100.0
  }

  function ScoreIds(rows: seq<MetricFetcherResponse>): (ids: seq<string>)
    ensures |ids| == |rows|
  {
    seq(|rows|, k requires 0 <= k < |rows| => rows[k].alloApplicationId)
  }

  /** The summed contributions of the rows of application `id`. */
  function AppScore(data: PreparedCalculationData, weights: map<string, real>, rows: seq<MetricFetcherResponse>, id: string): real
    requires forall row <- rows :: Scorable(data, weights, row)
  {
    if rows == [] then 0.0
    else
      var row := rows[|rows| - 1];
      AppScore(data, weights, rows[..|rows| - 1], id)
        + (if row.alloApplicationId == id then Contribution(data, weights, row) else 0.0)
  }

  lemma ScorableWhenInPool(data: PreparedCalculationData, weights: map<string, real>)
    requires ScoresInPool(data) && BoundsReady(data)
    requires forall m <- data.pool.metricIdentifiers :: m in weights
    ensures forall row <- data.applicationToMetricsScores :: Scorable(data, weights, row)
  {
    BoundsReadyInPool(data);
  }

  /** Adding row `i`'s contribution to its application extends the scores
      of the prefix `rows[..i]` to the prefix `rows[..i + 1]`. */
  lemma AppScoreStep(data: PreparedCalculationData, weights: map<string, real>, rows: seq<MetricFetcherResponse>, i: int, id: string)
    requires 0 <= i < |rows|
    requires forall row <- rows[..i + 1] :: Scorable(data, weights, row)
    ensures forall row <- rows[..i] :: Scorable(data, weights, row)
    ensures AppScore(data, weights, rows[..i + 1], id)
            == AppScore(data, weights, rows[..i], id)
               + (if rows[i].alloApplicationId == id then Contribution(data, weights, rows[i]) else 0.0)
  {
    assert rows[..i + 1][..i] == rows[..i];
  }

  /** An application without rows scores nothing. */
  lemma {:induction false} AppScoreAbsent(data: PreparedCalculationData, weights: map<string, real>, rows: seq<MetricFetcherResponse>, id: string)
    requires forall row <- rows :: Scorable(data, weights, row)
    requires id !in ScoreIds(rows)
    ensures AppScore(data, weights, rows, id) == 0.0
  {
    if rows != [] {
      var rows' := rows[..|rows| - 1];
      assert ScoreIds(rows') == ScoreIds(rows)[..|rows| - 1];
      assert ScoreIds(rows)[|rows| - 1] == rows[|rows| - 1].alloApplicationId;
      AppScoreAbsent(data, weights, rows', id);
    }
  }

  /** `appToWeightedScores` after the loop: every application id of the
      rows, with its summed contributions. */
  function AppTotals(data: PreparedCalculationData, weights: map<string, real>): (totals: map<string, real>)
    requires forall row <- data.applicationToMetricsScores :: Scorable(data, weights, row)
  {
    var rows := data.applicationToMetricsScores;
    map id | id in Dedup(ScoreIds(rows)) :: AppScore(data, weights, rows, id)
  }

  /** `ids` and `totals` are the record keys and the per-application scores
      after the rows `rows` were added. */
  ghost predicate Accumulated(data: PreparedCalculationData, weights: map<string, real>, rows: seq<MetricFetcherResponse>,
                        ids: seq<string>, totals: map<string, real>)
    requires forall row <- rows :: Scorable(data, weights, row)
  {
    && ids == Dedup(ScoreIds(rows))
    && (forall id :: id in totals <==> id in ids)
    && (forall id | id in totals :: totals[id] == AppScore(data, weights, rows, id))
  }

  /** The loop over the score rows shared by both policies: it stops at the
      first row whose metric is not a pool metric (the caller throws), and
      otherwise adds every row's contribution to its application. */
  method AccumulateScores(data: PreparedCalculationData, weights: map<string, real>)
    returns (inPool: bool, ids: seq<string>, totals: map<string, real>)
    requires BoundsReady(data)
    requires forall m <- data.pool.metricIdentifiers :: m in weights
    ensures inPool <==> ScoresInPool(data)
    ensures inPool ==> ScoresInPool(data) && ids == Dedup(ScoreIds(data.applicationToMetricsScores))
    ensures inPool ==> ScoresInPool(data) && totals == AppTotals(data, weights)
  {
    var rows := data.applicationToMetricsScores;
    ids, totals := [], map[];
    var i := 0;
    while i < |rows|
      invariant 0 <= i <= |rows|
      invariant forall row <- rows[..i] :: InPool(data.pool, row) && Scorable(data, weights, row)
      invariant InPoolUpTo(data, i - 1)
      invariant Accumulated(data, weights, rows[..i], ids, totals)
    {
      var row := rows[i];
      assert row in rows;
      if row.metricIdentifier !in data.pool.metricIdentifiers {
        return false, ids, totals;
      }
      assert InPoolUpTo(data, i);
      assert RowBoundsReady(data, rows[i]);
      assert rows[..i + 1] == rows[..i] + [row];
      ids, totals := AddRowScore(data, weights, rows, i, ids, totals);
      i := i + 1;
    }
    assert rows[..|rows|] == rows;
    inPool := true;
  }

  /** The body of that loop for row `i`: a zero for an application seen for
      the first time, then the row's contribution added to it. */
  method AddRowScore(data: PreparedCalculationData, weights: map<string, real>, rows: seq<MetricFetcherResponse>, i: int,
                     ids: seq<string>, totals: map<string, real>)
    returns (ids': seq<string>, totals': map<string, real>)
    requires 0 <= i < |rows|
    requires forall row <- rows[..i + 1] :: Scorable(data, weights, row)
    requires forall row <- rows[..i] :: Scorable(data, weights, row)
    requires Accumulated(data, weights, rows[..i], ids, totals)
    ensures Accumulated(data, weights, rows[..i + 1], ids', totals')
  {
    var row := rows[i];
    assert row in rows[..i + 1];
    var weightedScore := Contribution(data, weights, row);
    ScoreIdsStep(rows, i);
    var id := row.alloApplicationId;
    ids', totals' := ids, totals;
    if id !in totals' {
      ids' := ids' + [id];
      totals' := totals'[id := 0.0];
    }
    totals' := totals'[id := totals'[id] + weightedScore];
    forall x | x in totals' ensures totals'[x] == AppScore(data, weights, rows[..i + 1], x) {
      var before := if x in totals then totals[x] else 0.0;
      if x !in totals {
        assert x !in ScoreIds(rows[..i]);
      }
      TotalStep(data, weights, rows, i, x, before);
    }
  }

  /** Row `i` adds its application id to the record keys if it is new. */
  lemma ScoreIdsStep(rows: seq<MetricFetcherResponse>, i: int)
    requires 0 <= i < |rows|
    ensures
      var id := rows[i].alloApplicationId;
      Dedup(ScoreIds(rows[..i + 1])) == if id in ScoreIds(rows[..i]) then Dedup(ScoreIds(rows[..i])) else Dedup(ScoreIds(rows[..i])) + [id]
  {
    assert ScoreIds(rows[..i + 1]) == ScoreIds(rows[..i]) + [rows[i].alloApplicationId];
    DedupSnoc(ScoreIds(rows[..i]), rows[i].alloApplicationId);
  }

  /** The effect of row `i` on the running total of application `x`. */
  lemma TotalStep(data: PreparedCalculationData, weights: map<string, real>, rows: seq<MetricFetcherResponse>, i: int, x: string, before: real)
    requires 0 <= i < |rows|
    requires forall row <- rows[..i + 1] :: Scorable(data, weights, row)
    requires forall row <- rows[..i] :: Scorable(data, weights, row)
    requires x in ScoreIds(rows[..i]) ==> before == AppScore(data, weights, rows[..i], x)
    requires x !in ScoreIds(rows[..i]) ==> before == 0.0
    ensures
      before + (if rows[i].alloApplicationId == x then Contribution(data, weights, rows[i]) else 0.0)
      == AppScore(data, weights, rows[..i + 1], x)
  {
    AppScoreStep(data, weights, rows, i, x);
    if x !in ScoreIds(rows[..i]) {
      AppScoreAbsent(data, weights, rows[..i], x);
    }
  }

  // ---------------------------------------------------------------------
  // Percentages

  /** An application's share of the total, as a percentage; zero for every
      application when the total is zero. */
  function DistributionPercentage(score: real, total: real): real {
    if total == 0.0 then 0.0 else score / total * 100.0
  }

  function Percentages(ids: seq<string>, totals: map<string, real>): seq<Distribution>
    requires forall id <- ids :: id in totals
  {
    var total := SumValues(ids, totals);
    Entries(ids, map id | id in totals :: DistributionPercentage(totals[id], total))
  }

  /** The percentages add up to 100 when the total is nonzero, and are all
      zero otherwise. */
  lemma PercentagesSum(ids: seq<string>, totals: map<string, real>)
    requires forall id <- ids :: id in totals
    ensures SumValues(ids, totals) != 0.0 ==> SumPercentages(Percentages(ids, totals)) == 100.0
    ensures SumValues(ids, totals) == 0.0 ==> forall d <- Percentages(ids, totals) :: d.distributionPercentage == 0.0
  {
    var total := SumValues(ids, totals);
    var pct := map id | id in totals :: DistributionPercentage(totals[id], total);
    EntriesSum(ids, pct);
    if total != 0.0 {
      SumValuesScaled(ids, totals, pct, total);
      DivSelfCancel(total);
    }
  }

  /** The sum of all application scores. */
  function TotalScore(data: PreparedCalculationData, weights: map<string, real>): real
    requires forall row <- data.applicationToMetricsScores :: Scorable(data, weights, row)
  {
    SumValues(Dedup(ScoreIds(data.applicationToMetricsScores)), AppTotals(data, weights))
  }

  /** The ranked percentages of the applications under the given metric weights. */
  predicate RankedScores(data: PreparedCalculationData, weights: map<string, real>, r: seq<Distribution>)
    requires forall row <- data.applicationToMetricsScores :: Scorable(data, weights, row)
  {
    Ranked(Percentages(Dedup(ScoreIds(data.applicationToMetricsScores)), AppTotals(data, weights)), r)
  }

  /** What a ranked distribution is: one entry per application id of the
      score rows and no other, each entry the application's score over the
      total as a percentage, the percentages adding up to 100 (or all zero
      when the total is zero), ordered by percentage, descending. */
  lemma RankedScoresFacts(data: PreparedCalculationData, weights: map<string, real>, r: seq<Distribution>)
    requires forall row <- data.applicationToMetricsScores :: Scorable(data, weights, row)
    requires RankedScores(data, weights, r)
    ensures forall id :: id in AppIds(r) <==> id in ScoreIds(data.applicationToMetricsScores)
    ensures Distinct(AppIds(r))
    ensures SortedDesc(r)
    ensures forall d <- r ::
      d.distributionPercentage == DistributionPercentage(AppScore(data, weights, data.applicationToMetricsScores, d.alloApplicationId), TotalScore(data, weights))
    ensures TotalScore(data, weights) != 0.0 ==> SumPercentages(r) == 100.0
    ensures TotalScore(data, weights) == 0.0 ==> forall d <- r :: d.distributionPercentage == 0.0
  {
    var rows := data.applicationToMetricsScores;
    var ids := Dedup(ScoreIds(rows));
    var totals := AppTotals(data, weights);
    var entries := Percentages(ids, totals);
    RankedKeeps(entries, r);
    RankedIds(entries, r);
    PercentagesSum(ids, totals);
    forall d <- r ensures
      d.distributionPercentage == DistributionPercentage(AppScore(data, weights, rows, d.alloApplicationId), TotalScore(data, weights))
    {
      assert d in entries;
    }
  }

  /** With no votes no metric has mass, so every application gets 0%. */
  lemma {:induction false} NoVotesNoScore(data: PreparedCalculationData, rows: seq<MetricFetcherResponse>, id: string)
    requires forall row <- rows :: Scorable(data, FlatWeights(data.pool, []), row)
    ensures AppScore(data, FlatWeights(data.pool, []), rows, id) == 0.0
  {
    if rows != [] {
      var row := rows[|rows| - 1];
      assert row in rows;
      NoVotesNoScore(data, rows[..|rows| - 1], id);
      assert FlatWeights(data.pool, [])[row.metricIdentifier] == 0.0;
      assert Contribution(data, FlatWeights(data.pool, []), row) == 0.0;
    }
  }

  lemma NoVotesZeroTotal(data: PreparedCalculationData)
    requires forall row <- data.applicationToMetricsScores :: Scorable(data, FlatWeights(data.pool, []), row)
    ensures TotalScore(data, FlatWeights(data.pool, [])) == 0.0
  {
    var weights := FlatWeights(data.pool, []);
    var ids := Dedup(ScoreIds(data.applicationToMetricsScores));
    var totals := AppTotals(data, weights);
    forall id <- ids ensures id in totals && totals[id] == 0.0 {
      NoVotesNoScore(data, data.applicationToMetricsScores, id);
    }
    SumValuesZero(ids, totals);
  }

  // ---------------------------------------------------------------------
  // The two policies

  /** The specified outcome of the flat policy: NotFound when a row scores a
      metric outside the pool, else the ranked percentages under the vote masses. */
  predicate FlatOutcome(data: PreparedCalculationData, votes: seq<Vote>, r: Result<seq<Distribution>>)
    requires BoundsReady(data)
  {
    if !ScoresInPool(data) then r == Failure(NotFound)
    else
      BoundsReadyInPool(data);
      r.Success? && RankedScores(data, FlatWeights(data.pool, votes), r.value)
  }

  /** The renormalized weighted shares of the pool's metrics. */
  function WeightedShares(data: PreparedCalculationData, votes: seq<WeightedVote>): map<string, real> {
    var metrics := data.pool.metricIdentifiers;
    NormalizedShares(metrics, RawShares(metrics, votes))
  }

  /** The specified outcome of the weighted policy: a plain error when a
      row scores a metric outside the pool, else the ranked percentages
      under the renormalized weighted shares. */
  predicate WeightedOutcome(data: PreparedCalculationData, votes: seq<WeightedVote>, r: Result<seq<Distribution>>)
    requires BoundsReady(data)
  {
    if !ScoresInPool(data) then r == Failure(Unexpected)
    else
      BoundsReadyInPool(data);
      r.Success? && RankedScores(data, WeightedShares(data, votes), r.value)
  }

  lemma WeightedSharesCover(data: PreparedCalculationData, votes: seq<WeightedVote>)
    ensures forall m <- data.pool.metricIdentifiers :: m in WeightedShares(data, votes)
  {
  }

  method CalculateDistribution(data: PreparedCalculationData, votes: seq<Vote>) returns (r: Result<seq<Distribution>>)
    requires BoundsReady(data)
    ensures FlatOutcome(data, votes, r)
  {
    var weights := FlatWeights(data.pool, votes);
    var inPool, ids, totals := AccumulateScores(data, weights);
    if !inPool {
      return Failure(NotFound);
    }
    var distributions := Rank(Percentages(ids, totals));
    r := Success(distributions);
  }

  method CalculateWeightedDistribution(data: PreparedCalculationData, votes: seq<WeightedVote>) returns (r: Result<seq<Distribution>>)
    requires BoundsReady(data)
    requires BallotsInPool(data.pool.metricIdentifiers, votes)
    ensures WeightedOutcome(data, votes, r)
  {
    var metrics := data.pool.metricIdentifiers;
    var shares := WeightedMetricShares(metrics, votes);
    var normalizedMetricShares := RenormalizeShares(metrics, shares);
    WeightedSharesCover(data, votes);
    var inPool, ids, totals := AccumulateScores(data, normalizedMetricShares);
    if !inPool {
      return Failure(Unexpected);
    }
    var distributions := Rank(Percentages(ids, totals));
    r := Success(distributions);
  }

  // ---------------------------------------------------------------------
  // Dispatch

  /** `data.voters[vote.voter ?? ''] ?? 0`. */
  function WeightOf(weights: map<string, real>, voter: Option<string>): real {
    var key := voter.GetOr("");
    if key in weights then weights[key] else 0.0
  }

  /** The weighted-vote filter: a weight in (0, 100] and a defined,
      address-shaped voter. */
  predicate Admitted(vote: WeightedVote, isAddress: string -> bool) {
    && 0.0 < vote.voterVotingWeight <= 100.0
    && vote.vote.voter.Some?
    && isAddress(vote.vote.voter.value)
  }

  /** `votes.map(...).filter(...)` of the weighted branch. */
  function WeightedVotes(votes: seq<Vote>, weights: map<string, real>, isAddress: string -> bool): (r: seq<WeightedVote>)
    ensures |r| <= |votes|
    ensures forall v <- r :: Admitted(v, isAddress) && v.voterVotingWeight == WeightOf(weights, v.vote.voter)
  {
    if votes == [] then []
    else
      var weighted := WeightedVote(votes[0], WeightOf(weights, votes[0].voter));
      var rest := WeightedVotes(votes[1..], weights, isAddress);
      if Admitted(weighted, isAddress) then [weighted] + rest else rest
  }

  /** A vote survives the filter exactly when its voter's weight admits it. */
  lemma {:induction false} WeightedVotesMembership(votes: seq<Vote>, weights: map<string, real>, isAddress: string -> bool, vote: Vote)
    ensures WeightedVote(vote, WeightOf(weights, vote.voter)) in WeightedVotes(votes, weights, isAddress)
      <==> vote in votes && Admitted(WeightedVote(vote, WeightOf(weights, vote.voter)), isAddress)
  {
    if votes != [] {
      WeightedVotesMembership(votes[1..], weights, isAddress, vote);
      assert votes == [votes[0]] + votes[1..];
    }
  }

  /** The stored votes with the what-if ballot, if any, pushed at the end. */
  function AllVotes(votes: seq<Vote>, unAccountedBallots: Option<Vote>): seq<Vote> {
    if unAccountedBallots.Some? then votes + [unAccountedBallots.value] else votes
  }

  predicate IsWeightedCriteria(criteria: Option<EligibilityCriteria>) {
    criteria.Some? && criteria.value.data.EligibilityType() == Weighted
  }

  function CriteriaWeights(criteria: Option<EligibilityCriteria>): map<string, real>
    requires IsWeightedCriteria(criteria)
  {
    criteria.value.data.weights
  }

  /** `calculate`: pushes the what-if ballot, refuses a finalised pool, and
      runs the weighted policy on the admitted votes of a weighted pool and
      the flat policy on all votes otherwise (including when the pool has no
      criteria). The fetched data, the stored votes, the finalised flag, the
      criteria and the address check are inputs. */
  method Calculate(
    data: PreparedCalculationData,
    storedVotes: seq<Vote>,
    unAccountedBallots: Option<Vote>,
    poolFinalised: bool,
    eligibilityCriteria: Option<EligibilityCriteria>,
    isAddress: string -> bool)
    returns (r: Result<seq<Distribution>>)
    requires !poolFinalised ==> BoundsReady(data)
    requires !poolFinalised && IsWeightedCriteria(eligibilityCriteria) ==>
      BallotsInPool(data.pool.metricIdentifiers,
        WeightedVotes(AllVotes(storedVotes, unAccountedBallots), CriteriaWeights(eligibilityCriteria), isAddress))
    ensures poolFinalised ==> r == Failure(ActionNotAllowed)
    ensures !poolFinalised && IsWeightedCriteria(eligibilityCriteria) ==>
      WeightedOutcome(data,
        WeightedVotes(AllVotes(storedVotes, unAccountedBallots), CriteriaWeights(eligibilityCriteria), isAddress), r)
    ensures !poolFinalised && !IsWeightedCriteria(eligibilityCriteria) ==>
      FlatOutcome(data, AllVotes(storedVotes, unAccountedBallots), r)
  {
    var votes := storedVotes;
    if unAccountedBallots.Some? {
      votes := votes + [unAccountedBallots.value];
    }
    if poolFinalised {
      return Failure(ActionNotAllowed);
    }
    if IsWeightedCriteria(eligibilityCriteria) {
      var weightedVotes := WeightedVotes(votes, CriteriaWeights(eligibilityCriteria), isAddress);
      r := CalculateWeightedDistribution(data, weightedVotes);
      return;
    }
    r := CalculateDistribution(data, votes);
  }
}
