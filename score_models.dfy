/** Performance scores: the stored record `ScoreDb` with its range-checking constructor,
    the partial-update request `UpdateScore`, and the conversion of a creation request. */
module ScoreModels {
  import opened Common

  /** ScoreDb.cs: one appraisal of an employee in a position, written by an author. */
  datatype ScoreDb = ScoreDb(
    id: Guid,
    employeeId: Guid,
    authorId: Guid,
    positionId: Guid,
    createdAt: Instant,
    efficiencyScore: int,
    engagementScore: int,
    competencyScore: int)

  /** A score on the 1..5 scale. */
  predicate InScoreRange(v: int)
  {
    1 <= v <= 5
  }

  /** All three scores of a record lie on the scale. */
  predicate ScoresInRange(s: ScoreDb)
  {
    InScoreRange(s.efficiencyScore) && InScoreRange(s.engagementScore) && InScoreRange(s.competencyScore)
  }

  /** The validating constructor of ScoreDb: each score is checked in turn, efficiency,
      engagement, competency, and the first one off the scale is the one reported. */
  function NewScoreDb(
    id: Guid, employeeId: Guid, authorId: Guid, positionId: Guid, createdAt: Instant,
    efficiencyScore: int, engagementScore: int, competencyScore: int): (r: Result<ScoreDb>)
    ensures r.Success? <==>
              InScoreRange(efficiencyScore) && InScoreRange(engagementScore) && InScoreRange(competencyScore)
    ensures !InScoreRange(efficiencyScore) ==> r == Failure(InvalidArgument("efficiencyScore"))
    ensures InScoreRange(efficiencyScore) && !InScoreRange(engagementScore) ==>
              r == Failure(InvalidArgument("engagementScore"))
    ensures InScoreRange(efficiencyScore) && InScoreRange(engagementScore) && !InScoreRange(competencyScore) ==>
              r == Failure(InvalidArgument("competencyScore"))
    ensures r.Success? ==> ScoresInRange(r.value)
    ensures r.Success? ==> (r.value.id == id && r.value.employeeId == employeeId && r.value.authorId == authorId
              && r.value.positionId == positionId && r.value.createdAt == createdAt
              && r.value.efficiencyScore == efficiencyScore && r.value.engagementScore == engagementScore
              && r.value.competencyScore == competencyScore)
  {
    if efficiencyScore <= 0 || efficiencyScore >= 6 then Failure(InvalidArgument("efficiencyScore"))
    else if engagementScore <= 0 || engagementScore >= 6 then Failure(InvalidArgument("engagementScore"))
    else if competencyScore <= 0 || competencyScore >= 6 then Failure(InvalidArgument("competencyScore"))
    else Success(ScoreDb(id, employeeId, authorId, positionId, createdAt,
                         efficiencyScore, engagementScore, competencyScore))
  }

  /** UpdateScore.cs: a partial update; an absent field is left as it is. */
  datatype UpdateScore = UpdateScore(
    id: Guid,
    createdAt: Option<Instant>,
    efficiencyScore: Option<int>,
    engagementScore: Option<int>,
    competencyScore: Option<int>)

  /** An optional score is either absent or on the scale. */
  predicate OptionalInScoreRange(o: Option<int>)
  {
    o.Some? ==> InScoreRange(o.value)
  }

  /** Every score the update supplies lies on the scale. */
  predicate UpdateScoresInRange(u: UpdateScore)
  {
    OptionalInScoreRange(u.efficiencyScore) && OptionalInScoreRange(u.engagementScore)
    && OptionalInScoreRange(u.competencyScore)
  }

  /** The constructor of UpdateScore, with the clock reading `now` as a parameter: the id must
      not be `Guid.Empty`, a supplied creation time must not lie after `now`, and each supplied
      score must be on the scale; absent values stay absent. */
  function NewUpdateScore(
    id: Guid, createdAt: Option<Instant>, efficiencyScore: Option<int>,
    engagementScore: Option<int>, competencyScore: Option<int>, now: Instant): (r: Result<UpdateScore>)
    ensures r.Success? <==>
              id != EmptyGuid && (createdAt.Some? ==> createdAt.value <= now)
              && OptionalInScoreRange(efficiencyScore) && OptionalInScoreRange(engagementScore)
              && OptionalInScoreRange(competencyScore)
    ensures id == EmptyGuid ==> r == Failure(InvalidArgument("id"))
    ensures id != EmptyGuid && createdAt.Some? && createdAt.value > now ==> r == Failure(InvalidArgument("createdAt"))
    ensures r.Success? ==> UpdateScoresInRange(r.value)
    ensures r.Success? ==> (r.value.id == id && r.value.createdAt == createdAt
              && r.value.efficiencyScore == efficiencyScore && r.value.engagementScore == engagementScore
              && r.value.competencyScore == competencyScore)
  {
    if id == EmptyGuid then Failure(InvalidArgument("id"))
    else if createdAt.Some? && createdAt.value > now then Failure(InvalidArgument("createdAt"))
    else if efficiencyScore.Some? && (efficiencyScore.value < 1 || efficiencyScore.value > 5) then
      Failure(InvalidArgument("efficiencyScore"))
    else if engagementScore.Some? && (engagementScore.value < 1 || engagementScore.value > 5) then
      Failure(InvalidArgument("engagementScore"))
    else if competencyScore.Some? && (competencyScore.value < 1 || competencyScore.value > 5) then
      Failure(InvalidArgument("competencyScore"))
    else Success(UpdateScore(id, createdAt, efficiencyScore, engagementScore, competencyScore))
  }

  /** A request to record a score (`CreateScore`); its own checks are not part of this model. */
  datatype CreateScore = CreateScore(
    employeeId: Guid,
    authorId: Guid,
    positionId: Guid,
    efficiencyScore: int,
    engagementScore: int,
    competencyScore: int)

  /** ScoreConverter's CreateScore overload: a fresh id and the current instant go through the
      validating constructor, so a score off the scale is an ArgumentException. */
  function ScoreDbFromCreate(c: CreateScore, freshId: Guid, now: Instant): (r: Result<ScoreDb>)
    ensures r.Success? <==> InScoreRange(c.efficiencyScore) && InScoreRange(c.engagementScore)
                             && InScoreRange(c.competencyScore)
    ensures r.Failure? ==> r.error.InvalidArgument?
    ensures r.Success? ==> (r.value.id == freshId && r.value.createdAt == now
              && r.value.employeeId == c.employeeId && r.value.authorId == c.authorId
              && r.value.positionId == c.positionId && ScoresInRange(r.value)
              && r.value.efficiencyScore == c.efficiencyScore && r.value.engagementScore == c.engagementScore
              && r.value.competencyScore == c.competencyScore)
  {
    NewScoreDb(freshId, c.employeeId, c.authorId, c.positionId, now,
               c.efficiencyScore, c.engagementScore, c.competencyScore)
  }
}
