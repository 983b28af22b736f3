/** The legacy distribution engine: it runs on hard-coded votes and scores,
    takes the bounds over all rows, normalizes a decreasing metric with a
    positive offset, and only divides by a positive total. */
module LegacyCalculations {
  import opened Types
  import opened Distributions
  import Calculate

  /** One item of a legacy ballot; the metric is named, not identified. */
  datatype LegacyBallotItem = LegacyBallotItem(metricName: string, metricId: int, voteShare: real)

  /** A legacy vote (`Partial<Vote>`): only its ballot is read. */
  datatype LegacyVote = LegacyVote(ballot: Option<seq<LegacyBallotItem>>)

  /** One score row of the legacy metric fetcher. */
  datatype LegacyScore = LegacyScore(alloApplicationId: string, metricName: string, metricScore: real)

  datatype Orientation = Increase | Decrease

  /** The part of a pool's metric the legacy engine reads. */
  datatype LegacyMetric = LegacyMetric(name: string, orientation: Orientation)

  datatype LegacyPool = LegacyPool(metrics: seq<LegacyMetric>)

  // ---------------------------------------------------------------------
  // Fixtures

  function FixtureBallot(twitterAccountAge: real, gasFees: real, userEngagement: real): LegacyVote {
    LegacyVote(Some([
      LegacyBallotItem("twitterAccountAge", 1, twitterAccountAge),
      LegacyBallotItem("gasFees", 2, gasFees),
      LegacyBallotItem("userEngagement", 3, userEngagement)]))
  }

  /** `getHardcodedVotes`: five ballots over the same three metrics. */
  function GetHardcodedVotes(): seq<LegacyVote> {
    [ FixtureBallot(50.0, 30.0, 20.0),
      FixtureBallot(40.0, 50.0, 10.0),
      FixtureBallot(60.0, 20.0, 20.0),
      FixtureBallot(30.0, 60.0, 10.0),
      FixtureBallot(20.0, 30.0, 50.0) ]
  }

  function FixtureScores(app: string, twitterAccountAge: real, gasFees: real, userEngagement: real): seq<LegacyScore> {
    [ LegacyScore(app, "twitterAccountAge", twitterAccountAge),
      LegacyScore(app, "gasFees", gasFees),
      LegacyScore(app, "userEngagement", userEngagement) ]
  }

  /** `gr8LucasMetricFetcher`: three scores for each of five applications. */
  function Gr8LucasMetricFetcher(): seq<LegacyScore> {
    FixtureScores("app1", 2.0, 30.0, 0.5)
    + FixtureScores("app2", 1.0, 20.0, 0.7)
    + FixtureScores("app3", 3.0, 40.0, 0.4)
    + FixtureScores("app4", 0.5, 10.0, 0.6)
    + FixtureScores("app5", 4.0, 50.0, 0.2)
  }

  function SumShares(items: seq<LegacyBallotItem>): real {
    if items == [] then 0.0 else SumShares(items[..|items| - 1]) + items[|items| - 1].voteShare
  }

  /** Every hard-coded ballot gives its three metrics shares adding up to 100. */
  lemma HardcodedBallotsSumTo100()
    ensures forall v <- GetHardcodedVotes() :: v.ballot.Some? && |v.ballot.value| == 3 && SumShares(v.ballot.value) == 100.0
  {
    forall t: real, g: real, e: real ensures SumShares(FixtureBallot(t, g, e).ballot.value) == t + g + e {
      FixtureBallotShares(t, g, e);
    }
  }

  lemma FixtureBallotShares(t: real, g: real, e: real)
    ensures SumShares(FixtureBallot(t, g, e).ballot.value) == t + g + e
  {
    var items := FixtureBallot(t, g, e).ballot.value;
    assert items[..2] == [items[0], items[1]];
    assert items[..2][..1] == [items[0]];
    assert items[..2][..1][..0] == [];
    assert SumShares(items[..2][..1]) == t;
    assert SumShares(items[..2]) == t + g;
  }

  // ---------------------------------------------------------------------
  // Metric lookup

  /** Position `k` holds the first metric named `name`. */
  predicate IsFirstMetric(metrics: seq<LegacyMetric>, name: string, k: int) {
    && 0 <= k < |metrics|
    && metrics[k].name == name
    && forall j | 0 <= j < k :: metrics[j].name != name
  }

  /** `metrics.find(metric => metric.name === name)`. */
  function FindMetric(metrics: seq<LegacyMetric>, name: string): (r: Option<LegacyMetric>)
    ensures r.None? <==> forall m <- metrics :: m.name != name
    ensures r.Some? ==> exists k :: IsFirstMetric(metrics, name, k) && metrics[k] == r.value
  {
    if metrics == [] then None
    else if metrics[0].name == name then
      assert IsFirstMetric(metrics, name, 0);
      Some(metrics[0])
    else
      assert metrics == [metrics[0]] + metrics[1..];
      var r := FindMetric(metrics[1..], name);
      assert forall k | IsFirstMetric(metrics[1..], name, k) :: IsFirstMetric(metrics, name, k + 1);
      r
  }

  /** `isMetricIncreasing`: NotFound for a name no pool metric has, else
      whether the first metric of that name is an increasing one. */
  function IsMetricIncreasing(metrics: seq<LegacyMetric>, name: string): (r: Result<bool>)
    ensures r.Failure? <==> forall m <- metrics :: m.name != name
    ensures r.Failure? ==> r.error == NotFound
    ensures r.Success? ==> exists k :: IsFirstMetric(metrics, name, k) && r.value == (metrics[k].orientation == Increase)
  {
    match FindMetric(metrics, name)
    case None => Failure(NotFound)
    case Some(metric) => Success(metric.orientation == Increase)
  }

  // ---------------------------------------------------------------------
  // Bounds

  function Names(rows: seq<LegacyScore>): (names: seq<string>)
    ensures |names| == |rows|
  {
    seq(|rows|, k requires 0 <= k < |rows| => rows[k].metricName)
  }

  /** The bounds after the rows `rows`: a first row of a metric sets both
      bounds to its score, a later one widens them. */
  function LegacyBounds(rows: seq<LegacyScore>): MetricBounds {
    if rows == [] then map[]
    else
      var bounds := LegacyBounds(rows[..|rows| - 1]);
      var row := rows[|rows| - 1];
      if row.metricName !in bounds then bounds[row.metricName := Bounds(row.metricScore, row.metricScore)]
      else
        var b := bounds[row.metricName];
        bounds[row.metricName := Bounds(
          if b.minValue <= row.metricScore then b.minValue else row.metricScore,
          if b.maxValue >= row.metricScore then b.maxValue else row.metricScore)]
  }

  /** The `forEach` over the rows that precomputes the bounds. */
  method ComputeMetricBounds(rows: seq<LegacyScore>) returns (metricBounds: MetricBounds)
    ensures metricBounds == LegacyBounds(rows)
  {
    metricBounds := map[];
    for i := 0 to |rows|
      invariant metricBounds == LegacyBounds(rows[..i])
    {
      var row := rows[i];
      assert rows[..i + 1][..i] == rows[..i];
      if row.metricName !in metricBounds {
        metricBounds := metricBounds[row.metricName := Bounds(row.metricScore, row.metricScore)];
      } else {
        var b := metricBounds[row.metricName];
        metricBounds := metricBounds[row.metricName := Bounds(
          if b.minValue <= row.metricScore then b.minValue else row.metricScore,
          if b.maxValue >= row.metricScore then b.maxValue else row.metricScore)];
      }
    }
    assert rows[..|rows|] == rows;
  }

  /** Every metric named by a row has bounds, and every score lies within
      its metric's bounds. */
  lemma {:induction false} LegacyBoundsFacts(rows: seq<LegacyScore>)
    ensures forall row <- rows :: row.metricName in LegacyBounds(rows)
    ensures forall row <- rows ::
      LegacyBounds(rows)[row.metricName].minValue <= row.metricScore <= LegacyBounds(rows)[row.metricName].maxValue
  {
    if rows != [] {
      var rows', row := rows[..|rows| - 1], rows[|rows| - 1];
      LegacyBoundsFacts(rows');
      assert rows == rows' + [row];
    }
  }

  /** Both bounds of every metric are scores of rows of that metric (so no
      other metric has bounds). */
  lemma {:induction false} LegacyBoundsAttained(rows: seq<LegacyScore>, m: string)
    requires m in LegacyBounds(rows)
    ensures exists row <- rows :: row.metricName == m && row.metricScore == LegacyBounds(rows)[m].maxValue
    ensures exists row <- rows :: row.metricName == m && row.metricScore == LegacyBounds(rows)[m].minValue
  {
    var rows', row := rows[..|rows| - 1], rows[|rows| - 1];
    assert rows == rows' + [row];
    var bounds' := LegacyBounds(rows');
    if m in bounds' {
      LegacyBoundsAttained(rows', m);
      var r1 :| r1 in rows' && r1.metricName == m && r1.metricScore == bounds'[m].maxValue;
      var r2 :| r2 in rows' && r2.metricName == m && r2.metricScore == bounds'[m].minValue;
      assert r1 in rows && r2 in rows && row in rows;
    } else {
      assert row in rows;
    }
  }

  /** Every metric's maximum is nonzero (the engine divides by it). */
  predicate NonzeroMaxima(rows: seq<LegacyScore>) {
    forall m | m in LegacyBounds(rows) :: LegacyBounds(rows)[m].maxValue != 0.0
  }

  /** Positive scores have nonzero maxima. */
  lemma PositiveScoresNonzeroMaxima(rows: seq<LegacyScore>)
    requires forall row <- rows :: row.metricScore > 0.0
    ensures NonzeroMaxima(rows)
  {
    forall m | m in LegacyBounds(rows) ensures LegacyBounds(rows)[m].maxValue != 0.0 {
      LegacyBoundsAttained(rows, m);
    }
  }

  /** The hard-coded scores are all positive, so the engine never divides by zero on them. */
  lemma FixturesNonzeroMaxima()
    ensures NonzeroMaxima(Gr8LucasMetricFetcher())
  {
    PositiveScoresNonzeroMaxima(Gr8LucasMetricFetcher());
  }

  // ---------------------------------------------------------------------
  // Normalization and vote mass

  const POSITIVE_CONSTANT: real := 0.1

  /** The raw score over the metric's maximum; for a decreasing metric the
      complement of that ratio plus a positive offset. */
  function LegacyNormalize(rawScore: real, maxValue: real, isIncreasing: bool): (r: real)
    requires maxValue != 0.0
    ensures 0.0 <= rawScore <= maxValue ==> (isIncreasing ==> 0.0 <= r <= 1.0) && (!isIncreasing ==> 0.1 <= r <= 1.1)
  {
    var normalizedScore := rawScore / maxValue;
    assert 0.0 <= rawScore <= maxValue ==> 0.0 <= normalizedScore <= 1.0 by {
      if 0.0 <= rawScore <= maxValue {
        Calculate.NormalizeAtMaximum(maxValue);
        Calculate.NormalizeMonotone(0.0, rawScore, maxValue);
        Calculate.NormalizeMonotone(rawScore, maxValue, maxValue);
        assert Calculate.NormalizeScore(rawScore, maxValue, true) == normalizedScore;
      }
    }
    if !isIncreasing then POSITIVE_CONSTANT + (1.0 - normalizedScore) else normalizedScore
  }

  /** The legacy normalization is the current one, offset by 0.1 on a
      decreasing metric. */
  lemma LegacyNormalizeOffset(rawScore: real, maxValue: real, isIncreasing: bool)
    requires maxValue != 0.0
    ensures LegacyNormalize(rawScore, maxValue, isIncreasing)
            == Calculate.NormalizeScore(rawScore, maxValue, isIncreasing) + (if isIncreasing then 0.0 else 0.1)
  {
  }

  /** A legacy vote as a vote of the current engine: no voter, and each
      ballot item keeping its metric name and share, in order. */
  function ToVote(vote: LegacyVote): Vote {
    match vote.ballot
    case None => Vote(None, None)
    case Some(items) =>
      Vote(None, Some(seq(|items|, k requires 0 <= k < |items| => Ballot(items[k].metricName, items[k].voteShare))))
  }

  function ToVotes(votes: seq<LegacyVote>): (r: seq<Vote>)
    ensures |r| == |votes|
  {
    seq(|votes|, k requires 0 <= k < |votes| => ToVote(votes[k]))
  }

  /** `votes.reduce(...)` of the legacy engine: the share of the first ballot
      item naming the metric, summed over the votes. */
  function LegacyVoteMass(votes: seq<LegacyVote>, metricName: string): real {
    Calculate.VoteMass(ToVotes(votes), metricName)
  }

  /** The hard-coded metrics each get a mass of 200, 190 and 110. */
  lemma HardcodedVoteMasses()
    ensures LegacyVoteMass(GetHardcodedVotes(), "twitterAccountAge") == 200.0
    ensures LegacyVoteMass(GetHardcodedVotes(), "gasFees") == 190.0
    ensures LegacyVoteMass(GetHardcodedVotes(), "userEngagement") == 110.0
  {
    var votes := ToVotes(GetHardcodedVotes());
    assert votes[0] == ToVote(FixtureBallot(50.0, 30.0, 20.0));
    assert votes[1] == ToVote(FixtureBallot(40.0, 50.0, 10.0));
    assert votes[2] == ToVote(FixtureBallot(60.0, 20.0, 20.0));
    assert votes[3] == ToVote(FixtureBallot(30.0, 60.0, 10.0));
    assert votes[4] == ToVote(FixtureBallot(20.0, 30.0, 50.0));
    FixtureContribution(50.0, 30.0, 20.0);
    FixtureContribution(40.0, 50.0, 10.0);
    FixtureContribution(60.0, 20.0, 20.0);
    FixtureContribution(30.0, 60.0, 10.0);
    FixtureContribution(20.0, 30.0, 50.0);
    VoteMassOfFive(votes, "twitterAccountAge");
    VoteMassOfFive(votes, "gasFees");
    VoteMassOfFive(votes, "userEngagement");
  }

  lemma VoteMassOfFive(votes: seq<Vote>, m: string)
    requires |votes| == 5
    ensures Calculate.VoteMass(votes, m)
            == Calculate.FlatContribution(votes[0], m) + Calculate.FlatContribution(votes[1], m)
               + Calculate.FlatContribution(votes[2], m) + Calculate.FlatContribution(votes[3], m)
               + Calculate.FlatContribution(votes[4], m)
  {
    assert votes[..1] == [] + [votes[0]];
    assert votes[..2] == votes[..1] + [votes[1]];
    assert votes[..3] == votes[..2] + [votes[2]];
    assert votes[..4] == votes[..3] + [votes[3]];
    assert votes == votes[..4] + [votes[4]];
    Calculate.ExtraBallotMass([], votes[0], m);
    Calculate.ExtraBallotMass(votes[..1], votes[1], m);
    Calculate.ExtraBallotMass(votes[..2], votes[2], m);
    Calculate.ExtraBallotMass(votes[..3], votes[3], m);
    Calculate.ExtraBallotMass(votes[..4], votes[4], m);
  }

  /** A fixture ballot gives each of its three metrics its own share. */
  lemma FixtureContribution(t: real, g: real, e: real)
    ensures Calculate.FlatContribution(ToVote(FixtureBallot(t, g, e)), "twitterAccountAge") == t
    ensures Calculate.FlatContribution(ToVote(FixtureBallot(t, g, e)), "gasFees") == g
    ensures Calculate.FlatContribution(ToVote(FixtureBallot(t, g, e)), "userEngagement") == e
  {
    var items := ToVote(FixtureBallot(t, g, e)).ballot.value;
    assert items == [Ballot("twitterAccountAge", t), Ballot("gasFees", g), Ballot("userEngagement", e)];
    assert items[1..] == [Ballot("gasFees", g), Ballot("userEngagement", e)];
    assert items[1..][1..] == [Ballot("userEngagement", e)];
    assert "twitterAccountAge"[0] != "gasFees"[0] && "twitterAccountAge"[0] != "userEngagement"[0];
    assert "gasFees"[0] != "userEngagement"[0];
    assert Calculate.FirstShare(items[1..], "gasFees") == Some(g);
    assert Calculate.FirstShare(items[1..][1..], "userEngagement") == Some(e);
    assert Calculate.FirstShare(items[1..], "userEngagement") == Some(e);
  }

  // ---------------------------------------------------------------------
  // Per-application scores

  /** The pool has a metric of the row's name. */
  predicate InLegacyPool(pool: LegacyPool, row: LegacyScore) {
    FindMetric(pool.metrics, row.metricName).Some?
  }

  predicate Ready(pool: LegacyPool, bounds: MetricBounds, row: LegacyScore) {
    && InLegacyPool(pool, row)
    && row.metricName in bounds
    && bounds[row.metricName].maxValue != 0.0
  }

  /** What one row adds to its application. */
  function LegacyContribution(pool: LegacyPool, votes: seq<LegacyVote>, bounds: MetricBounds, row: LegacyScore): real
    requires Ready(pool, bounds, row)
  {
    var isIncreasing := IsMetricIncreasing(pool.metrics, row.metricName).value;
    var normalizedScore := LegacyNormalize(row.metricScore, bounds[row.metricName].maxValue, isIncreasing);
    normalizedScore * LegacyVoteMass(votes, row.metricName) / 100.0
  }

  function RowIds(rows: seq<LegacyScore>): (ids: seq<string>)
    ensures |ids| == |rows|
  {
    seq(|rows|, k requires 0 <= k < |rows| => rows[k].alloApplicationId)
  }

  function LegacyAppScore(pool: LegacyPool, votes: seq<LegacyVote>, bounds: MetricBounds, rows: seq<LegacyScore>, id: string): real
    requires forall row <- rows :: Ready(pool, bounds, row)
  {
    if rows == [] then 0.0
    else
      var row := rows[|rows| - 1];
      LegacyAppScore(pool, votes, bounds, rows[..|rows| - 1], id)
        + (if row.alloApplicationId == id then LegacyContribution(pool, votes, bounds, row) else 0.0)
  }

  lemma LegacyAppScoreStep(pool: LegacyPool, votes: seq<LegacyVote>, bounds: MetricBounds, rows: seq<LegacyScore>, i: int, id: string)
    requires 0 <= i < |rows|
    requires forall row <- rows[..i + 1] :: Ready(pool, bounds, row)
    ensures forall row <- rows[..i] :: Ready(pool, bounds, row)
    ensures LegacyAppScore(pool, votes, bounds, rows[..i + 1], id)
            == LegacyAppScore(pool, votes, bounds, rows[..i], id)
               + (if rows[i].alloApplicationId == id then LegacyContribution(pool, votes, bounds, rows[i]) else 0.0)
  {
    assert rows[..i + 1][..i] == rows[..i];
  }

  lemma {:induction false} LegacyAppScoreAbsent(pool: LegacyPool, votes: seq<LegacyVote>, bounds: MetricBounds, rows: seq<LegacyScore>, id: string)
    requires forall row <- rows :: Ready(pool, bounds, row)
    requires id !in RowIds(rows)
    ensures LegacyAppScore(pool, votes, bounds, rows, id) == 0.0
  {
    if rows != [] {
      var rows' := rows[..|rows| - 1];
      assert RowIds(rows') == RowIds(rows)[..|rows| - 1];
      assert RowIds(rows)[|rows| - 1] == rows[|rows| - 1].alloApplicationId;
      LegacyAppScoreAbsent(pool, votes, bounds, rows', id);
    }
  }

  /** `appToWeightedScores` after the loop. */
  function LegacyTotals(pool: LegacyPool, votes: seq<LegacyVote>, bounds: MetricBounds, rows: seq<LegacyScore>): map<string, real>
    requires forall row <- rows :: Ready(pool, bounds, row)
  {
    map id | id in Dedup(RowIds(rows)) :: LegacyAppScore(pool, votes, bounds, rows, id)
  }

  ghost predicate LegacyAccumulated(pool: LegacyPool, votes: seq<LegacyVote>, bounds: MetricBounds, rows: seq<LegacyScore>,
                                    ids: seq<string>, totals: map<string, real>)
    requires forall row <- rows :: Ready(pool, bounds, row)
  {
    && ids == Dedup(RowIds(rows))
    && (forall id :: id in totals <==> id in ids)
    && (forall id | id in totals :: totals[id] == LegacyAppScore(pool, votes, bounds, rows, id))
  }

  /** The scoring loop: NotFound at the first row whose metric the pool
      lacks, else every row's contribution added to its application. */
  method LegacyAccumulate(pool: LegacyPool, votes: seq<LegacyVote>, bounds: MetricBounds, rows: seq<LegacyScore>)
    returns (found: bool, ids: seq<string>, totals: map<string, real>)
    requires forall row <- rows :: row.metricName in bounds && bounds[row.metricName].maxValue != 0.0
    ensures found <==> forall row <- rows :: InLegacyPool(pool, row)
    ensures found ==> (forall row <- rows :: Ready(pool, bounds, row)) && ids == Dedup(RowIds(rows))
    ensures found ==> (forall row <- rows :: Ready(pool, bounds, row)) && totals == LegacyTotals(pool, votes, bounds, rows)
  {
    ids, totals := [], map[];
    var i := 0;
    while i < |rows|
      invariant 0 <= i <= |rows|
      invariant forall row <- rows[..i] :: Ready(pool, bounds, row)
      invariant LegacyAccumulated(pool, votes, bounds, rows[..i], ids, totals)
    {
      var row := rows[i];
      assert row in rows;
      var metricDetails := FindMetric(pool.metrics, row.metricName);
      if metricDetails.None? {
        return false, ids, totals;
      }
      assert rows[..i + 1] == rows[..i] + [row];
      ids, totals := AddLegacyRowScore(pool, votes, bounds, rows, i, ids, totals);
      i := i + 1;
    }
    assert rows[..|rows|] == rows;
    found := true;
  }

  method AddLegacyRowScore(pool: LegacyPool, votes: seq<LegacyVote>, bounds: MetricBounds, rows: seq<LegacyScore>, i: int,
                           ids: seq<string>, totals: map<string, real>)
    returns (ids': seq<string>, totals': map<string, real>)
    requires 0 <= i < |rows|
    requires forall row <- rows[..i + 1] :: Ready(pool, bounds, row)
    requires forall row <- rows[..i] :: Ready(pool, bounds, row)
    requires LegacyAccumulated(pool, votes, bounds, rows[..i], ids, totals)
    ensures LegacyAccumulated(pool, votes, bounds, rows[..i + 1], ids', totals')
  {
    var row := rows[i];
    assert row in rows[..i + 1];
    var weightedScore := LegacyContribution(pool, votes, bounds, row);
    LegacyIdsStep(rows, i);
    var id := row.alloApplicationId;
    ids', totals' := ids, totals;
    if id !in totals' {
      ids' := ids' + [id];
      totals' := totals'[id := 0.0];
    }
    totals' := totals'[id := totals'[id] + weightedScore];
    forall x | x in totals' ensures totals'[x] == LegacyAppScore(pool, votes, bounds, rows[..i + 1], x) {
      var before := if x in totals then totals[x] else 0.0;
      if x !in totals {
        assert x !in RowIds(rows[..i]);
      }
      LegacyTotalStep(pool, votes, bounds, rows, i, x, before);
    }
  }

  /** Row `i` adds its application id to the record keys if it is new. */
  lemma LegacyIdsStep(rows: seq<LegacyScore>, i: int)
    requires 0 <= i < |rows|
    ensures
      var id := rows[i].alloApplicationId;
      Dedup(RowIds(rows[..i + 1])) == if id in RowIds(rows[..i]) then Dedup(RowIds(rows[..i])) else Dedup(RowIds(rows[..i])) + [id]
  {
    assert RowIds(rows[..i + 1]) == RowIds(rows[..i]) + [rows[i].alloApplicationId];
    DedupSnoc(RowIds(rows[..i]), rows[i].alloApplicationId);
  }

  /** The effect of row `i` on the running total of application `x`. */
  lemma LegacyTotalStep(pool: LegacyPool, votes: seq<LegacyVote>, bounds: MetricBounds, rows: seq<LegacyScore>, i: int, x: string, before: real)
    requires 0 <= i < |rows|
    requires forall row <- rows[..i + 1] :: Ready(pool, bounds, row)
    requires forall row <- rows[..i] :: Ready(pool, bounds, row)
    requires x in RowIds(rows[..i]) ==> before == LegacyAppScore(pool, votes, bounds, rows[..i], x)
    requires x !in RowIds(rows[..i]) ==> before == 0.0
    ensures
      before + (if rows[i].alloApplicationId == x then LegacyContribution(pool, votes, bounds, rows[i]) else 0.0)
      == LegacyAppScore(pool, votes, bounds, rows[..i + 1], x)
  {
    LegacyAppScoreStep(pool, votes, bounds, rows, i, x);
    if x !in RowIds(rows[..i]) {
      LegacyAppScoreAbsent(pool, votes, bounds, rows[..i], x);
    }
  }

  // ---------------------------------------------------------------------
  // Percentages and the engine

  /** The share of the total only when the total is positive, else 0. */
  function LegacyPercentage(score: real, total: real): real {
    if total > 0.0 then score / total * 100.0 else 0.0
  }

  function LegacyEntries(ids: seq<string>, totals: map<string, real>): seq<Distribution>
    requires forall id <- ids :: id in totals
  {
    var total := SumValues(ids, totals);
    Entries(ids, map id | id in totals :: LegacyPercentage(totals[id], total))
  }

  /** A positive total yields percentages adding up to 100; any other total
      yields 0 for every application. */
  lemma LegacyPercentagesSum(ids: seq<string>, totals: map<string, real>)
    requires forall id <- ids :: id in totals
    ensures SumValues(ids, totals) > 0.0 ==> SumPercentages(LegacyEntries(ids, totals)) == 100.0
    ensures SumValues(ids, totals) <= 0.0 ==> forall d <- LegacyEntries(ids, totals) :: d.distributionPercentage == 0.0
  {
    var total := SumValues(ids, totals);
    var pct := map id | id in totals :: LegacyPercentage(totals[id], total);
    EntriesSum(ids, pct);
    if total > 0.0 {
      SumValuesScaled(ids, totals, pct, total);
      DivSelfCancel(total);
    }
  }

  /** The specified outcome of the legacy engine on given votes and rows. */
  predicate LegacyOutcome(pool: LegacyPool, votes: seq<LegacyVote>, rows: seq<LegacyScore>, r: Result<seq<Distribution>>)
    requires NonzeroMaxima(rows)
  {
    LegacyBoundsFacts(rows);
    if !(forall row <- rows :: InLegacyPool(pool, row)) then r == Failure(NotFound)
    else
      var bounds := LegacyBounds(rows);
      r.Success? && Ranked(LegacyEntries(Dedup(RowIds(rows)), LegacyTotals(pool, votes, bounds, rows)), r.value)
  }

  /** The body of `calculateDistributions` once the pool, the votes and the
      rows are at hand. */
  method LegacyDistribute(pool: LegacyPool, votes: seq<LegacyVote>, rows: seq<LegacyScore>) returns (r: Result<seq<Distribution>>)
    requires NonzeroMaxima(rows)
    ensures LegacyOutcome(pool, votes, rows, r)
  {
    var metricBounds := ComputeMetricBounds(rows);
    LegacyBoundsFacts(rows);
    var found, ids, totals := LegacyAccumulate(pool, votes, metricBounds, rows);
    if !found {
      return Failure(NotFound);
    }
    var distributions := Rank(LegacyEntries(ids, totals));
    r := Success(distributions);
  }

  /** `calculateDistributions`: NotFound without a pool, else the legacy
      engine on the hard-coded votes and scores. The pool lookup is an input. */
  method CalculateDistributions(pool: Option<LegacyPool>) returns (r: Result<seq<Distribution>>)
    ensures pool.None? ==> r == Failure(NotFound)
    ensures pool.Some? ==> NonzeroMaxima(Gr8LucasMetricFetcher()) && LegacyOutcome(pool.value, GetHardcodedVotes(), Gr8LucasMetricFetcher(), r)
  {
    if pool.None? {
      return Failure(NotFound);
    }
    FixturesNonzeroMaxima();
    r := LegacyDistribute(pool.value, GetHardcodedVotes(), Gr8LucasMetricFetcher());
  }

  /** The sum of all application scores. */
  function LegacyTotal(pool: LegacyPool, votes: seq<LegacyVote>, rows: seq<LegacyScore>): real
    requires NonzeroMaxima(rows)
    requires forall row <- rows :: InLegacyPool(pool, row)
  {
    LegacyBoundsFacts(rows);
    SumValues(Dedup(RowIds(rows)), LegacyTotals(pool, votes, LegacyBounds(rows), rows))
  }

  /** One application's summed contributions under the bounds of all rows. */
  function LegacyScoreOf(pool: LegacyPool, votes: seq<LegacyVote>, rows: seq<LegacyScore>, id: string): real
    requires NonzeroMaxima(rows)
    requires forall row <- rows :: InLegacyPool(pool, row)
  {
    LegacyBoundsFacts(rows);
    LegacyAppScore(pool, votes, LegacyBounds(rows), rows, id)
  }

  /** What a legacy distribution is: one entry per application id of the
      rows and no other, the percentages adding up to 100 when the total is
      positive and all zero otherwise, ordered by percentage, descending. */
  lemma LegacyOutcomeFacts(pool: LegacyPool, votes: seq<LegacyVote>, rows: seq<LegacyScore>, r: Result<seq<Distribution>>)
    requires NonzeroMaxima(rows)
    requires forall row <- rows :: InLegacyPool(pool, row)
    requires LegacyOutcome(pool, votes, rows, r)
    ensures r.Success?
    ensures forall id :: id in AppIds(r.value) <==> id in RowIds(rows)
    ensures Distinct(AppIds(r.value))
    ensures SortedDesc(r.value)
    ensures forall d <- r.value ::
      d.distributionPercentage == LegacyPercentage(LegacyScoreOf(pool, votes, rows, d.alloApplicationId), LegacyTotal(pool, votes, rows))
    ensures LegacyTotal(pool, votes, rows) > 0.0 ==> SumPercentages(r.value) == 100.0
    ensures LegacyTotal(pool, votes, rows) <= 0.0 ==> forall d <- r.value :: d.distributionPercentage == 0.0
  {
    LegacyBoundsFacts(rows);
    var ids := Dedup(RowIds(rows));
    var totals := LegacyTotals(pool, votes, LegacyBounds(rows), rows);
    var entries := LegacyEntries(ids, totals);
    RankedKeeps(entries, r.value);
    RankedIds(entries, r.value);
    LegacyPercentagesSum(ids, totals);
    forall d <- r.value ensures
      d.distributionPercentage == LegacyPercentage(LegacyScoreOf(pool, votes, rows, d.alloApplicationId), LegacyTotal(pool, votes, rows))
    {
      assert d in entries;
    }
  }
}
