/** The calculation data preparer's view of application metrics: the
    snapshot of each requested application, the per-metric bounds over the
    values present in those snapshots, and the score rows, in which a
    missing value is replaced by its metric's worst bound. */
module Applications {
  import opened Types

  /** A metric value as it sits in a snapshot read from JSON; `Missing` is a
      property that is not there (`undefined`). */
  datatype MetricValue =
    | Missing
    | Null
    | Num(value: real)
    | NumericText(parsed: real)  // a string that `Number(...)` parses to `parsed`

  /** The metrics of one application, keyed by metric identifier. */
  type Snapshot = map<string, MetricValue>

  /** A metric of the round together with its orientation. */
  datatype RoundMetric = RoundMetric(identifier: string, isIncreasing: bool)

  /** A score row as produced here: its score is a number, except where the
      snapshot's value was not a number and its metric has no bounds. */
  datatype ScoreRow = ScoreRow(alloApplicationId: string, metricIdentifier: string, metricScore: MetricValue)

  function ValueOf(snapshot: Snapshot, metricIdentifier: string): MetricValue {
    if metricIdentifier in snapshot then snapshot[metricIdentifier] else Missing
  }

  /** Neither `null` nor `undefined`. */
  predicate IsPresent(v: MetricValue) {
    v.Num? || v.NumericText?
  }

  /** `Number(v)` of a present value. */
  function NumberOf(v: MetricValue): real
    requires IsPresent(v)
  {
    if v.Num? then v.value else v.parsed
  }

  function Identifiers(metrics: seq<RoundMetric>): (r: seq<string>)
    ensures |r| == |metrics|
  {
    seq(|metrics|, j requires 0 <= j < |metrics| => metrics[j].identifier)
  }

  // ---------------------------------------------------------------------
  // Snapshot selection

  /** The snapshots of the requested applications that the metrics file has. */
  function Selected(applicationIds: seq<string>, metricsFile: map<string, Snapshot>): map<string, Snapshot> {
    map id | id in metricsFile && id in applicationIds :: metricsFile[id]
  }

  /** `_getApplicationsMetrics`: the metrics file's snapshot of every requested
      application that has one, and nothing else. The file's contents are a
      parameter. */
  method GetApplicationsMetrics(applicationIds: seq<string>, metricsFile: map<string, Snapshot>)
    returns (result: map<string, Snapshot>)
    ensures forall id :: id in result <==> id in applicationIds && id in metricsFile
    ensures forall id | id in result :: result[id] == metricsFile[id]
  {
    result := map[];
    for i := 0 to |applicationIds|
      invariant forall id :: id in result <==> id in applicationIds[..i] && id in metricsFile
      invariant forall id | id in result :: result[id] == metricsFile[id]
    {
      var id := applicationIds[i];
      assert applicationIds[..i + 1] == applicationIds[..i] + [id];
      if id in metricsFile {
        result := result[id := metricsFile[id]];
      }
    }
    assert applicationIds[..|applicationIds|] == applicationIds;
  }

  // ---------------------------------------------------------------------
  // First pass: the valid values of every metric

  /** The values one snapshot pushes for metric `m`, in round-metric order. */
  function AppValues(snapshot: Snapshot, metrics: seq<RoundMetric>, m: string): seq<real> {
    if metrics == [] then []
    else
      var metric := metrics[|metrics| - 1];
      var value := ValueOf(snapshot, metric.identifier);
      AppValues(snapshot, metrics[..|metrics| - 1], m)
        + (if metric.identifier == m && IsPresent(value) then [NumberOf(value)] else [])
  }

  /** `validMetricValues[m]` after the first pass over `applicationIds`. */
  function ValidValues(applicationIds: seq<string>, selected: map<string, Snapshot>, metrics: seq<RoundMetric>, m: string): seq<real> {
    if applicationIds == [] then []
    else
      var id := applicationIds[|applicationIds| - 1];
      ValidValues(applicationIds[..|applicationIds| - 1], selected, metrics, m)
        + (if id in selected then AppValues(selected[id], metrics, m) else [])
  }

  /** A record of arrays read with `?? []`. */
  function Lookup(valid: map<string, seq<real>>, m: string): seq<real> {
    if m in valid then valid[m] else []
  }

  /** The first pass: every present value of every round metric, converted
      with `Number`, pushed onto its metric's array (created on first push). */
  method CollectValidValues(applicationIds: seq<string>, selected: map<string, Snapshot>, metrics: seq<RoundMetric>)
    returns (valid: map<string, seq<real>>)
    ensures forall m :: Lookup(valid, m) == ValidValues(applicationIds, selected, metrics, m)
    ensures forall m | m in valid :: valid[m] != []
  {
    valid := map[];
    for i := 0 to |applicationIds|
      invariant forall m :: Lookup(valid, m) == ValidValues(applicationIds[..i], selected, metrics, m)
      invariant forall m | m in valid :: valid[m] != []
    {
      var applicationId := applicationIds[i];
      assert applicationIds[..i + 1][..i] == applicationIds[..i];
      if applicationId in selected {
        valid := CollectAppValues(valid, selected[applicationId], metrics);
      }
    }
    assert applicationIds[..|applicationIds|] == applicationIds;
  }

  /** The inner loop of the first pass, over the round metrics of one snapshot. */
  method CollectAppValues(valid: map<string, seq<real>>, snapshot: Snapshot, metrics: seq<RoundMetric>)
    returns (valid': map<string, seq<real>>)
    requires forall m | m in valid :: valid[m] != []
    ensures forall m :: Lookup(valid', m) == Lookup(valid, m) + AppValues(snapshot, metrics, m)
    ensures forall m | m in valid' :: valid'[m] != []
  {
    valid' := valid;
    for j := 0 to |metrics|
      invariant forall m :: Lookup(valid', m) == Lookup(valid, m) + AppValues(snapshot, metrics[..j], m)
      invariant forall m | m in valid' :: valid'[m] != []
    {
      valid' := PushAppValue(valid, valid', snapshot, metrics, j);
    }
    assert metrics[..|metrics|] == metrics;
  }

  /** One step of that inner loop: round metric `j` pushes its value, if
      present, onto its array. */
  method PushAppValue(valid: map<string, seq<real>>, current: map<string, seq<real>>, snapshot: Snapshot, metrics: seq<RoundMetric>, j: int)
    returns (next: map<string, seq<real>>)
    requires 0 <= j < |metrics|
    requires forall m :: Lookup(current, m) == Lookup(valid, m) + AppValues(snapshot, metrics[..j], m)
    requires forall m | m in current :: current[m] != []
    ensures forall m :: Lookup(next, m) == Lookup(valid, m) + AppValues(snapshot, metrics[..j + 1], m)
    ensures forall m | m in next :: next[m] != []
  {
    var metric := metrics[j];
    var metricValue := ValueOf(snapshot, metric.identifier);
    next := current;
    if IsPresent(metricValue) {
      next := current[metric.identifier := Lookup(current, metric.identifier) + [NumberOf(metricValue)]];
    }
    forall m ensures Lookup(next, m) == Lookup(valid, m) + AppValues(snapshot, metrics[..j + 1], m) {
      PushedLookup(valid, current, snapshot, metrics, j, m);
    }
  }

  /** The effect of that step on the array of one metric `m`. */
  lemma PushedLookup(valid: map<string, seq<real>>, current: map<string, seq<real>>, snapshot: Snapshot, metrics: seq<RoundMetric>, j: int, m: string)
    requires 0 <= j < |metrics|
    requires Lookup(current, m) == Lookup(valid, m) + AppValues(snapshot, metrics[..j], m)
    ensures
      var metric := metrics[j];
      var value := ValueOf(snapshot, metric.identifier);
      var next := if IsPresent(value) then current[metric.identifier := Lookup(current, metric.identifier) + [NumberOf(value)]] else current;
      Lookup(next, m) == Lookup(valid, m) + AppValues(snapshot, metrics[..j + 1], m)
  {
    assert metrics[..j + 1][..j] == metrics[..j];
    var metric := metrics[j];
    var value := ValueOf(snapshot, metric.identifier);
    var before := AppValues(snapshot, metrics[..j], m);
    if metric.identifier == m && IsPresent(value) {
      var pushed := [NumberOf(value)];
      assert AppValues(snapshot, metrics[..j + 1], m) == before + pushed;
      assert (Lookup(valid, m) + before) + pushed == Lookup(valid, m) + (before + pushed);
    } else {
      assert AppValues(snapshot, metrics[..j + 1], m) == before;
    }
  }

  // ---------------------------------------------------------------------
  // Bounds

  /** `Math.min(...values)`. */
  function SeqMin(values: seq<real>): (r: real)
    requires values != []
    ensures r in values
    ensures forall x <- values :: r <= x
  {
    if |values| == 1 then values[0]
    else
      var rest := SeqMin(values[1..]);
      assert values == [values[0]] + values[1..];
      if values[0] <= rest then values[0] else rest
  }

  /** `Math.max(...values)`. */
  function SeqMax(values: seq<real>): (r: real)
    requires values != []
    ensures r in values
    ensures forall x <- values :: x <= r
  {
    if |values| == 1 then values[0]
    else
      var rest := SeqMax(values[1..]);
      assert values == [values[0]] + values[1..];
      if values[0] >= rest then values[0] else rest
  }

  /** The bounds of every round metric that has at least one valid value. */
  function MetricBoundsOf(applicationIds: seq<string>, selected: map<string, Snapshot>, metrics: seq<RoundMetric>): MetricBounds {
    map m | m in Identifiers(metrics) && ValidValues(applicationIds, selected, metrics, m) != [] ::
      Bounds(SeqMin(ValidValues(applicationIds, selected, metrics, m)), SeqMax(ValidValues(applicationIds, selected, metrics, m)))
  }

  /** The bounds loop over the round metrics. */
  method ComputeBounds(metrics: seq<RoundMetric>, valid: map<string, seq<real>>) returns (metricsBounds: MetricBounds)
    ensures forall m :: m in metricsBounds <==> m in Identifiers(metrics) && Lookup(valid, m) != []
    ensures forall m | m in metricsBounds ::
      metricsBounds[m] == Bounds(SeqMin(Lookup(valid, m)), SeqMax(Lookup(valid, m)))
  {
    metricsBounds := map[];
    for j := 0 to |metrics|
      invariant forall m :: m in metricsBounds <==> m in Identifiers(metrics[..j]) && Lookup(valid, m) != []
      invariant forall m | m in metricsBounds ::
        metricsBounds[m] == Bounds(SeqMin(Lookup(valid, m)), SeqMax(Lookup(valid, m)))
    {
      var metric := metrics[j];
      assert Identifiers(metrics[..j + 1]) == Identifiers(metrics[..j]) + [metric.identifier];
      var values := Lookup(valid, metric.identifier);
      if |values| > 0 {
        metricsBounds := metricsBounds[metric.identifier := Bounds(SeqMin(values), SeqMax(values))];
      }
    }
    assert metrics[..|metrics|] == metrics;
  }

  // ---------------------------------------------------------------------
  // Second pass: the score rows

  /** A snapshot value that is not a number becomes the metric's minimum on
      an increasing metric and its maximum on a decreasing one, when the
      metric has bounds; otherwise it is passed on unchanged. */
  function Fill(value: MetricValue, metric: RoundMetric, metricsBounds: MetricBounds): MetricValue {
    if value.Num? then value
    else if metric.identifier in metricsBounds then
      var bounds := metricsBounds[metric.identifier];
      Num(if metric.isIncreasing then bounds.minValue else bounds.maxValue)
    else value
  }

  /** `roundMetrics.map(...)` for one application. */
  function AppRows(applicationId: string, snapshot: Snapshot, metrics: seq<RoundMetric>, metricsBounds: MetricBounds): (rows: seq<ScoreRow>)
    ensures |rows| == |metrics|
  {
    seq(|metrics|, j requires 0 <= j < |metrics| =>
      ScoreRow(applicationId, metrics[j].identifier, Fill(ValueOf(snapshot, metrics[j].identifier), metrics[j], metricsBounds)))
  }

  /** `applicationIds.flatMap(...)`: the rows of every requested application
      that has a snapshot, in request order. */
  function GenerateRows(applicationIds: seq<string>, selected: map<string, Snapshot>, metrics: seq<RoundMetric>, metricsBounds: MetricBounds): seq<ScoreRow> {
    if applicationIds == [] then []
    else
      var id := applicationIds[|applicationIds| - 1];
      GenerateRows(applicationIds[..|applicationIds| - 1], selected, metrics, metricsBounds)
        + (if id in selected then AppRows(id, selected[id], metrics, metricsBounds) else [])
  }

  /** `getApplicationMetrics`: no ids give no rows and no bounds; otherwise
      the snapshots are selected, the valid values collected, the bounds
      computed and the rows generated. */
  method GetApplicationMetrics(applicationIds: seq<string>, roundMetrics: seq<RoundMetric>, metricsFile: map<string, Snapshot>)
    returns (applicationMetrics: seq<ScoreRow>, metricsBounds: MetricBounds)
    ensures applicationIds == [] ==> applicationMetrics == [] && metricsBounds == map[]
    ensures metricsBounds == MetricBoundsOf(applicationIds, Selected(applicationIds, metricsFile), roundMetrics)
    ensures applicationMetrics == GenerateRows(applicationIds, Selected(applicationIds, metricsFile), roundMetrics, metricsBounds)
  {
    if |applicationIds| == 0 {
      assert MetricBoundsOf(applicationIds, Selected(applicationIds, metricsFile), roundMetrics) == map[];
      return [], map[];
    }
    var applicationMetricsMap := GetApplicationsMetrics(applicationIds, metricsFile);
    assert applicationMetricsMap == Selected(applicationIds, metricsFile);
    var validMetricValues := CollectValidValues(applicationIds, applicationMetricsMap, roundMetrics);
    metricsBounds := ComputeBounds(roundMetrics, validMetricValues);
    assert metricsBounds == MetricBoundsOf(applicationIds, applicationMetricsMap, roundMetrics);
    applicationMetrics := GenerateRows(applicationIds, applicationMetricsMap, roundMetrics, metricsBounds);
  }

  // ---------------------------------------------------------------------
  // Properties

  /** The requested applications that have a snapshot, in request order. */
  function PresentIds(applicationIds: seq<string>, selected: map<string, Snapshot>): (r: seq<string>)
    ensures forall id <- r :: id in applicationIds && id in selected
  {
    if applicationIds == [] then []
    else
      var id := applicationIds[|applicationIds| - 1];
      var r' := PresentIds(applicationIds[..|applicationIds| - 1], selected);
      assert forall x <- applicationIds[..|applicationIds| - 1] :: x in applicationIds;
      r' + (if id in selected then [id] else [])
  }

  lemma MulBelow(k: int, p: int, n: int, j: int)
    requires 0 <= k < p && 0 <= j < n
    ensures 0 <= k * n + j < p * n
  {
    assert k * n + j < (k + 1) * n;
    assert (k + 1) * n <= p * n;
  }

  /** One row per present application and round metric. */
  lemma {:induction false} RowsCount(applicationIds: seq<string>, selected: map<string, Snapshot>, metrics: seq<RoundMetric>, metricsBounds: MetricBounds)
    ensures |GenerateRows(applicationIds, selected, metrics, metricsBounds)| == |PresentIds(applicationIds, selected)| * |metrics|
  {
    if applicationIds != [] {
      var ids' := applicationIds[..|applicationIds| - 1];
      var id := applicationIds[|applicationIds| - 1];
      RowsCount(ids', selected, metrics, metricsBounds);
      var p := |PresentIds(ids', selected)|;
      if id in selected {
        assert |PresentIds(applicationIds, selected)| == p + 1;
        assert |GenerateRows(applicationIds, selected, metrics, metricsBounds)|
          == |GenerateRows(ids', selected, metrics, metricsBounds)| + |metrics|;
        MulSucc(p, |metrics|);
      } else {
        assert PresentIds(applicationIds, selected) == PresentIds(ids', selected);
        assert GenerateRows(applicationIds, selected, metrics, metricsBounds) == GenerateRows(ids', selected, metrics, metricsBounds);
      }
    }
  }

  lemma MulSucc(p: int, n: int)
    ensures (p + 1) * n == p * n + n
  {
  }

  /** Row `k * |metrics| + j` is metric `j` of the `k`-th present
      application, its value filled from the bounds. */
  lemma {:induction false} RowAt(applicationIds: seq<string>, selected: map<string, Snapshot>, metrics: seq<RoundMetric>, metricsBounds: MetricBounds, k: int, j: int)
    requires 0 <= k < |PresentIds(applicationIds, selected)| && 0 <= j < |metrics|
    ensures 0 <= k * |metrics| + j < |GenerateRows(applicationIds, selected, metrics, metricsBounds)|
    ensures
      var id := PresentIds(applicationIds, selected)[k];
      GenerateRows(applicationIds, selected, metrics, metricsBounds)[k * |metrics| + j]
      == ScoreRow(id, metrics[j].identifier, Fill(ValueOf(selected[id], metrics[j].identifier), metrics[j], metricsBounds))
  {
    var ids', id := applicationIds[..|applicationIds| - 1], applicationIds[|applicationIds| - 1];
    var rows', present' := GenerateRows(ids', selected, metrics, metricsBounds), PresentIds(ids', selected);
    var rows, present := GenerateRows(applicationIds, selected, metrics, metricsBounds), PresentIds(applicationIds, selected);
    var n := |metrics|;
    RowsCount(ids', selected, metrics, metricsBounds);
    RowsCount(applicationIds, selected, metrics, metricsBounds);
    MulBelow(k, |present|, n, j);
    if k < |present'| {
      RowAt(ids', selected, metrics, metricsBounds, k, j);
      MulBelow(k, |present'|, n, j);
      assert present[k] == present'[k];
      assert rows[k * n + j] == rows'[k * n + j];
    } else {
      assert id in selected && present[k] == id;
      assert rows == rows' + AppRows(id, selected[id], metrics, metricsBounds);
      assert k * n == |rows'|;
    }
  }

  /** Every row belongs to a requested application that has a snapshot, and
      scores one of the round's metrics. */
  lemma {:induction false} RowsFromSnapshots(applicationIds: seq<string>, selected: map<string, Snapshot>, metrics: seq<RoundMetric>, metricsBounds: MetricBounds)
    ensures forall r <- GenerateRows(applicationIds, selected, metrics, metricsBounds) ::
      r.alloApplicationId in applicationIds && r.alloApplicationId in selected && r.metricIdentifier in Identifiers(metrics)
  {
    if applicationIds != [] {
      var ids', id := applicationIds[..|applicationIds| - 1], applicationIds[|applicationIds| - 1];
      RowsFromSnapshots(ids', selected, metrics, metricsBounds);
      assert forall x <- ids' :: x in applicationIds;
      if id in selected {
        forall r <- AppRows(id, selected[id], metrics, metricsBounds)
          ensures r.metricIdentifier in Identifiers(metrics)
        {
          var j :| 0 <= j < |metrics| && AppRows(id, selected[id], metrics, metricsBounds)[j] == r;
          assert Identifiers(metrics)[j] == r.metricIdentifier;
        }
      }
    }
  }

  /** Some requested application with a snapshot has a present value for `m`. */
  predicate HasPresentValue(applicationIds: seq<string>, selected: map<string, Snapshot>, m: string) {
    exists id <- applicationIds :: id in selected && IsPresent(ValueOf(selected[id], m))
  }

  lemma {:induction false} AppValuesContains(snapshot: Snapshot, metrics: seq<RoundMetric>, j: int)
    requires 0 <= j < |metrics| && IsPresent(ValueOf(snapshot, metrics[j].identifier))
    ensures NumberOf(ValueOf(snapshot, metrics[j].identifier)) in AppValues(snapshot, metrics, metrics[j].identifier)
  {
    if j < |metrics| - 1 {
      var metrics' := metrics[..|metrics| - 1];
      assert metrics'[j] == metrics[j];
      AppValuesContains(snapshot, metrics', j);
    }
  }

  /** Every present value of a round metric is collected. */
  lemma {:induction false} PresentValueCollected(applicationIds: seq<string>, selected: map<string, Snapshot>, metrics: seq<RoundMetric>, k: int, j: int)
    requires 0 <= k < |applicationIds| && applicationIds[k] in selected && 0 <= j < |metrics|
    requires IsPresent(ValueOf(selected[applicationIds[k]], metrics[j].identifier))
    ensures NumberOf(ValueOf(selected[applicationIds[k]], metrics[j].identifier))
            in ValidValues(applicationIds, selected, metrics, metrics[j].identifier)
  {
    var ids' := applicationIds[..|applicationIds| - 1];
    if k < |ids'| {
      assert ids'[k] == applicationIds[k];
      PresentValueCollected(ids', selected, metrics, k, j);
    } else {
      AppValuesContains(selected[applicationIds[k]], metrics, j);
    }
  }

  lemma {:induction false} AppValuesOrigin(snapshot: Snapshot, metrics: seq<RoundMetric>, m: string, x: real)
    requires x in AppValues(snapshot, metrics, m)
    ensures m in Identifiers(metrics) && IsPresent(ValueOf(snapshot, m)) && NumberOf(ValueOf(snapshot, m)) == x
  {
    var metrics' := metrics[..|metrics| - 1];
    assert Identifiers(metrics) == Identifiers(metrics') + [metrics[|metrics| - 1].identifier];
    if x in AppValues(snapshot, metrics', m) {
      AppValuesOrigin(snapshot, metrics', m, x);
    }
  }

  /** Every collected value is the present value of some requested
      application that has a snapshot. */
  lemma {:induction false} CollectedValueOrigin(applicationIds: seq<string>, selected: map<string, Snapshot>, metrics: seq<RoundMetric>, m: string, x: real)
    requires x in ValidValues(applicationIds, selected, metrics, m)
    ensures m in Identifiers(metrics)
    ensures exists id <- applicationIds :: id in selected && IsPresent(ValueOf(selected[id], m)) && NumberOf(ValueOf(selected[id], m)) == x
  {
    var ids', id := applicationIds[..|applicationIds| - 1], applicationIds[|applicationIds| - 1];
    if x in ValidValues(ids', selected, metrics, m) {
      CollectedValueOrigin(ids', selected, metrics, m, x);
      var id' :| id' in ids' && id' in selected && IsPresent(ValueOf(selected[id'], m)) && NumberOf(ValueOf(selected[id'], m)) == x;
      assert id' in applicationIds;
    } else {
      AppValuesOrigin(selected[id], metrics, m, x);
    }
  }

  /** A round metric has bounds exactly when some requested application
      with a snapshot has a present value for it; then the minimum is at
      most the maximum, both are collected values attained by some present
      snapshot value, and every present value lies between them. */
  lemma BoundsExactlyWhenPresent(applicationIds: seq<string>, selected: map<string, Snapshot>, metrics: seq<RoundMetric>, m: string)
    ensures m in MetricBoundsOf(applicationIds, selected, metrics)
            <==> m in Identifiers(metrics) && HasPresentValue(applicationIds, selected, m)
    ensures m in MetricBoundsOf(applicationIds, selected, metrics) ==>
      var b := MetricBoundsOf(applicationIds, selected, metrics)[m];
      && b.minValue <= b.maxValue
      && forall id <- applicationIds | id in selected && IsPresent(ValueOf(selected[id], m)) ::
           b.minValue <= NumberOf(ValueOf(selected[id], m)) <= b.maxValue
    ensures m in MetricBoundsOf(applicationIds, selected, metrics) ==>
      var b := MetricBoundsOf(applicationIds, selected, metrics)[m];
      && b.minValue in ValidValues(applicationIds, selected, metrics, m)
      && b.maxValue in ValidValues(applicationIds, selected, metrics, m)
      && (exists id <- applicationIds :: id in selected && IsPresent(ValueOf(selected[id], m)) && NumberOf(ValueOf(selected[id], m)) == b.minValue)
      && (exists id <- applicationIds :: id in selected && IsPresent(ValueOf(selected[id], m)) && NumberOf(ValueOf(selected[id], m)) == b.maxValue)
  {
    var values := ValidValues(applicationIds, selected, metrics, m);
    if values != [] {
      CollectedValueOrigin(applicationIds, selected, metrics, m, values[0]);
    }
    if m in MetricBoundsOf(applicationIds, selected, metrics) {
      var b := MetricBoundsOf(applicationIds, selected, metrics)[m];
      CollectedValueOrigin(applicationIds, selected, metrics, m, b.minValue);
      CollectedValueOrigin(applicationIds, selected, metrics, m, b.maxValue);
    }
    if m in Identifiers(metrics) {
      var j :| 0 <= j < |metrics| && Identifiers(metrics)[j] == m;
      forall id <- applicationIds | id in selected && IsPresent(ValueOf(selected[id], m))
        ensures NumberOf(ValueOf(selected[id], m)) in values
      {
        var k :| 0 <= k < |applicationIds| && applicationIds[k] == id;
        PresentValueCollected(applicationIds, selected, metrics, k, j);
      }
    }
  }

  /** What a row's score is once the bounds come from the same snapshots:
      on a metric with bounds, a number between them (a present number kept,
      a missing value or a text replaced by the worst bound); on a metric
      without bounds, the snapshot's missing or null value. */
  predicate WellScored(r: ScoreRow, metricsBounds: MetricBounds) {
    if r.metricIdentifier in metricsBounds then
      && r.metricScore.Num?
      && metricsBounds[r.metricIdentifier].minValue <= r.metricScore.value <= metricsBounds[r.metricIdentifier].maxValue
    else !IsPresent(r.metricScore)
  }

  lemma AppRowsWellScored(applicationIds: seq<string>, selected: map<string, Snapshot>, metrics: seq<RoundMetric>, id: string)
    requires id in applicationIds && id in selected
    ensures forall r <- AppRows(id, selected[id], metrics, MetricBoundsOf(applicationIds, selected, metrics)) ::
      WellScored(r, MetricBoundsOf(applicationIds, selected, metrics))
  {
    var bounds := MetricBoundsOf(applicationIds, selected, metrics);
    var rows := AppRows(id, selected[id], metrics, bounds);
    forall j | 0 <= j < |metrics| ensures WellScored(rows[j], bounds) {
      var m := metrics[j].identifier;
      assert Identifiers(metrics)[j] == m;
      BoundsExactlyWhenPresent(applicationIds, selected, metrics, m);
    }
  }

  /** Every generated row is well scored against the bounds of the same run. */
  lemma {:induction false} RowsWellScored(applicationIds: seq<string>, selected: map<string, Snapshot>, metrics: seq<RoundMetric>, prefix: nat)
    requires prefix <= |applicationIds|
    ensures forall r <- GenerateRows(applicationIds[..prefix], selected, metrics, MetricBoundsOf(applicationIds, selected, metrics)) ::
      WellScored(r, MetricBoundsOf(applicationIds, selected, metrics))
  {
    if prefix > 0 {
      var id := applicationIds[prefix - 1];
      assert applicationIds[..prefix][..prefix - 1] == applicationIds[..prefix - 1];
      RowsWellScored(applicationIds, selected, metrics, prefix - 1);
      if id in selected {
        AppRowsWellScored(applicationIds, selected, metrics, id);
      }
    }
  }

  /** The rows `getApplicationMetrics` returns: one per present application
      and round metric, each of a requested application with a snapshot, and
      each well scored against the bounds it returns. */
  lemma GetApplicationMetricsFacts(applicationIds: seq<string>, roundMetrics: seq<RoundMetric>, metricsFile: map<string, Snapshot>,
                                   applicationMetrics: seq<ScoreRow>, metricsBounds: MetricBounds)
    requires metricsBounds == MetricBoundsOf(applicationIds, Selected(applicationIds, metricsFile), roundMetrics)
    requires applicationMetrics == GenerateRows(applicationIds, Selected(applicationIds, metricsFile), roundMetrics, metricsBounds)
    ensures |applicationMetrics| == |PresentIds(applicationIds, Selected(applicationIds, metricsFile))| * |roundMetrics|
    ensures forall r <- applicationMetrics :: r.alloApplicationId in applicationIds && r.alloApplicationId in metricsFile
    ensures forall r <- applicationMetrics :: WellScored(r, metricsBounds)
  {
    var selected := Selected(applicationIds, metricsFile);
    RowsCount(applicationIds, selected, roundMetrics, metricsBounds);
    RowsFromSnapshots(applicationIds, selected, roundMetrics, metricsBounds);
    RowsWellScored(applicationIds, selected, roundMetrics, |applicationIds|);
    assert applicationIds[..|applicationIds|] == applicationIds;
  }
}
