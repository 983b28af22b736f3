/** Values shared by the distribution engine, the calculation data preparer,
    the legacy engine and the eligibility service: the error taxonomy, the
    optional/failure wrappers, ballots, score rows, bounds, pools, prepared
    calculation data, distributions and eligibility criteria. */
module Types {

  /** `undefined`/`null` versus a present value. */
  datatype Option<+T> = None | Some(value: T) {
    function GetOr(default: T): T {
      match this
      case Some(v) => v
      case None => default
    }
  }

  /** The typed errors the service layer throws. `Unexpected` is a plain
      `Error` that is not one of the service's own error classes. */
  datatype Error = NotFound | BadRequest | ActionNotAllowed | ServerError | Unexpected

  /** A computation that either returns a value or throws one of the errors above. */
  datatype Result<+T> = Success(value: T) | Failure(error: Error)

  /** A computation that returns nothing or throws. */
  datatype Outcome = Pass | Fail(error: Error)

  /** One item of a ballot: the share (a percentage) of the voter's influence
      given to one metric. */
  datatype Ballot = Ballot(metricIdentifier: string, voteShare: real)

  /** A vote as the engine receives it (`Partial<Vote>`): the voter and the
      ballot may both be missing. */
  datatype Vote = Vote(voter: Option<string>, ballot: Option<seq<Ballot>>)

  /** A vote decorated with the voting weight of its voter (weighted pools). */
  datatype WeightedVote = WeightedVote(vote: Vote, voterVotingWeight: real)

  /** One raw score of one application on one metric. */
  datatype MetricFetcherResponse =
    MetricFetcherResponse(alloApplicationId: string, metricIdentifier: string, metricScore: real)

  /** The bounds of one metric over the applications of one calculation run. */
  datatype Bounds = Bounds(minValue: real, maxValue: real)

  /** `MetricBounds`: bounds keyed by metric identifier. */
  type MetricBounds = map<string, Bounds>

  /** The part of a pool the engine reads. */
  datatype PoolMetrics = PoolMetrics(metricIdentifiers: seq<string>)

  /** Everything the engine needs, fetched in advance by the preparer. */
  datatype PreparedCalculationData = PreparedCalculationData(
    pool: PoolMetrics,
    isIncreasingMap: map<string, bool>,
    applicationToMetricsScores: seq<MetricFetcherResponse>,
    metricsBounds: MetricBounds)

  /** One entry of the computed distribution. */
  datatype Distribution = Distribution(alloApplicationId: string, distributionPercentage: real)

  datatype EligibilityType = Linear | Weighted

  /** The `data` column of an eligibility criteria record: an allow-list of
      voters for a linear pool, a mapping from voter to a weight for a
      weighted pool. */
  datatype EligibilityData =
    | LinearData(voters: seq<string>)
    | WeightedData(weights: map<string, real>)
  {
    function EligibilityType(): EligibilityType {
      if LinearData? then Linear else Weighted
    }
  }

  /** One stored eligibility criteria record, unique per (chainId, alloPoolId). */
  datatype EligibilityCriteria =
    EligibilityCriteria(chainId: int, alloPoolId: string, data: EligibilityData)
}
