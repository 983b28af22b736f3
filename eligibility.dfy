/** The eligibility criteria service: criteria records kept per
    (chainId, alloPoolId), validated on save, and the voter eligibility
    check they answer. */
module EligibilityCriteriaService {
  import opened Types

  /** A criteria record as a caller submits it (`Partial<EligibilityCriteria>`):
      the chain and the pool may be missing. */
  datatype EligibilityCriteriaInput =
    EligibilityCriteriaInput(chainId: Option<int>, alloPoolId: Option<string>, data: EligibilityData)

  /** What validation accepts: every voter of a linear allow-list passes the
      hex check; weighted data is not checked. */
  predicate ValidData(data: EligibilityData, isHex: string -> bool) {
    data.EligibilityType() == Linear ==> forall voter <- data.voters :: isHex(voter)
  }

  /** `validateEligibilityCriteriaData`: BadRequest at the first voter of a
      linear allow-list that is not hex, otherwise nothing. */
  method ValidateEligibilityCriteriaData(data: EligibilityData, isHex: string -> bool) returns (r: Outcome)
    ensures r.Pass? <==> ValidData(data, isHex)
    ensures r.Fail? ==> r.error == BadRequest
  {
    if data.EligibilityType() == Linear {
      var voters := data.voters;
      for i := 0 to |voters|
        invariant forall k | 0 <= k < i :: isHex(voters[k])
      {
        if !isHex(voters[i]) {
          return Fail(BadRequest);
        }
      }
    }
    r := Pass;
  }

  /** The body of `isVoterEligible` once the criteria are looked up:
      NotFound without criteria; on a linear pool, whether the voter is on
      the allow-list (exact, case-sensitive match); false on any other pool. */
  function VoterEligible(criteria: Option<EligibilityCriteria>, voter: string): (r: Result<bool>)
    ensures r.Failure? <==> criteria.None?
    ensures r.Failure? ==> r.error == NotFound
    ensures r.Success? ==> (r.value <==> criteria.value.data.EligibilityType() == Linear && voter in criteria.value.data.voters)
  {
    match criteria
    case None => Failure(NotFound)
    case Some(c) =>
      if c.data.EligibilityType() == Linear then Success(voter in c.data.voters) else Success(false)
  }

  /** On validated criteria only hex voters are eligible. */
  lemma EligibleVotersAreHex(criteria: EligibilityCriteria, voter: string, isHex: string -> bool)
    requires ValidData(criteria.data, isHex)
    requires VoterEligible(Some(criteria), voter) == Success(true)
    ensures isHex(voter)
  {
  }

  /** A voter of a weighted pool is never eligible through this check, not
      even one holding a weight. */
  lemma WeightedPoolsAdmitNobody(chainId: int, alloPoolId: string, weights: map<string, real>, voter: string)
    ensures VoterEligible(Some(EligibilityCriteria(chainId, alloPoolId, WeightedData(weights))), voter) == Success(false)
  {
  }

  /** The criteria table: at most one record per (chainId, alloPoolId),
      written only through `SaveEligibilityCriteria`. The hex check is fixed
      when the table is created. */
  class EligibilityCriteriaStore {
    var rows: map<(int, string), EligibilityCriteria>
    const isHex: string -> bool

    /** Every record sits under its own key, and every linear allow-list
      passed validation. */
    ghost predicate Valid()
      reads this
    {
      forall key | key in rows ::
        && rows[key].chainId == key.0
        && rows[key].alloPoolId == key.1
        && ValidData(rows[key].data, isHex)
    }

    constructor(isHex: string -> bool)
      ensures rows == map[] && this.isHex == isHex
      ensures Valid()
    {
      rows := map[];
      this.isHex := isHex;
    }

    /** `getEligibilityCriteriaByChainIdAndAlloPoolId`. */
    function GetEligibilityCriteriaByChainIdAndAlloPoolId(chainId: int, alloPoolId: string): (r: Option<EligibilityCriteria>)
      reads this
      ensures r.Some? <==> (chainId, alloPoolId) in rows
      ensures Valid() && r.Some? ==> r.value.chainId == chainId && r.value.alloPoolId == alloPoolId
    {
      if (chainId, alloPoolId) in rows then Some(rows[(chainId, alloPoolId)]) else None
    }

    /** `saveEligibilityCriteria`: BadRequest without a chain or a pool, or
      when validation fails, with the table unchanged; otherwise the record is
      inserted, or replaces the one under the same (chainId, alloPoolId), and
      is returned. */
    method SaveEligibilityCriteria(input: EligibilityCriteriaInput) returns (r: Result<EligibilityCriteria>)
      requires Valid()
      modifies this
      ensures Valid()
      ensures input.chainId.None? || input.alloPoolId.None? ==> r == Failure(BadRequest) && rows == old(rows)
      ensures input.chainId.Some? && input.alloPoolId.Some? && !ValidData(input.data, isHex) ==>
        r == Failure(BadRequest) && rows == old(rows)
      ensures input.chainId.Some? && input.alloPoolId.Some? && ValidData(input.data, isHex) ==>
        && r == Success(EligibilityCriteria(input.chainId.value, input.alloPoolId.value, input.data))
        && rows == old(rows)[(input.chainId.value, input.alloPoolId.value) := r.value]
    {
      if input.chainId.None? || input.alloPoolId.None? {
        return Failure(BadRequest);
      }
      var validation := ValidateEligibilityCriteriaData(input.data, isHex);
      if validation.Fail? {
        return Failure(validation.error);
      }
      var key := (input.chainId.value, input.alloPoolId.value);
      rows := rows[key := EligibilityCriteria(key.0, key.1, input.data)];
      var criteria := GetEligibilityCriteriaByChainIdAndAlloPoolId(key.0, key.1);
      if criteria.None? {
        return Failure(ServerError);
      }
      r := Success(criteria.value);
    }

    /** `isVoterEligible`. */
    method IsVoterEligible(chainId: int, alloPoolId: string, voter: string) returns (r: Result<bool>)
      requires Valid()
      ensures r == VoterEligible(GetEligibilityCriteriaByChainIdAndAlloPoolId(chainId, alloPoolId), voter)
      ensures r == Success(true) ==> isHex(voter)
    {
      var eligibilityCriteria := GetEligibilityCriteriaByChainIdAndAlloPoolId(chainId, alloPoolId);
      if eligibilityCriteria.None? {
        return Failure(NotFound);
      }
      if eligibilityCriteria.value.data.EligibilityType() == Linear {
        return Success(voter in eligibilityCriteria.value.data.voters);
      }
      r := Success(false);
    }
  }
}
