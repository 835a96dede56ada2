/** ScoreRepository: the table of appraisals, keyed by id, with add, get, partial update and
    delete, and five paged queries that filter by a key and by an inclusive creation period. */
module ScoreStore {
  import opened Common
  import opened Sequences
  import opened Paging
  import opened ScoreModels
  import opened PositionModels
  import opened Hierarchy

  // ----- Identity and lookup -----

  /** `k` is the first row with the id. */
  predicate IsFirstWithId(s: seq<ScoreDb>, k: int, id: Guid)
  {
    0 <= k < |s| && s[k].id == id && forall j :: 0 <= j < k ==> s[j].id != id
  }

  predicate HasId(s: seq<ScoreDb>, id: Guid)
  {
    exists k :: 0 <= k < |s| && s[k].id == id
  }

  /** No two rows share an id (the primary key). */
  predicate IdsUnique(s: seq<ScoreDb>)
  {
    forall i, j :: 0 <= i < j < |s| ==> s[i].id != s[j].id
  }

  /** Every stored score lies on the 1..5 scale. */
  predicate AllInRange(s: seq<ScoreDb>)
  {
    forall i :: 0 <= i < |s| ==> ScoresInRange(s[i])
  }

  /** A row appended under an unused id is the first (and only) row with that id. */
  lemma {:induction false} AppendedIsFirstWithId(s: seq<ScoreDb>, d: ScoreDb)
    requires !HasId(s, d.id)
    ensures IsFirstWithId(s + [d], |s|, d.id)
    ensures IdsUnique(s) ==> IdsUnique(s + [d])
  {
    var t := s + [d];
    forall j | 0 <= j < |s|
      ensures t[j].id != d.id
    {
      assert t[j] == s[j];
    }
  }

  /** Once a row is removed from a table with unique ids, its id is gone. */
  lemma {:induction false} RemovedIdIsGone(s: seq<ScoreDb>, k: nat)
    requires IdsUnique(s) && k < |s|
    ensures !HasId(RemoveAt(s, k), s[k].id)
    ensures IdsUnique(RemoveAt(s, k))
  {
    var t := RemoveAt(s, k);
    forall j | 0 <= j < |t|
      ensures t[j].id != s[k].id
    {
      if j < k {
        assert t[j] == s[j];
      } else {
        assert t[j] == s[j + 1];
      }
    }
    forall i, j | 0 <= i < j < |t|
      ensures t[i].id != t[j].id
    {
      var i' := if i < k then i else i + 1;
      var j' := if j < k then j else j + 1;
      assert t[i] == s[i'] && t[j] == s[j'];
    }
  }

  // ----- Partial update -----

  /** What an update writes into the stored record: each supplied score; the creation time, the
      id and the three references are never touched, whatever the request carries. */
  function ApplyScoreUpdate(d: ScoreDb, u: UpdateScore): (r: ScoreDb)
    ensures r.id == d.id && r.employeeId == d.employeeId && r.authorId == d.authorId
    ensures r.positionId == d.positionId && r.createdAt == d.createdAt
    ensures r.efficiencyScore == Coalesce(u.efficiencyScore, d.efficiencyScore)
    ensures r.engagementScore == Coalesce(u.engagementScore, d.engagementScore)
    ensures r.competencyScore == Coalesce(u.competencyScore, d.competencyScore)
  {
    d.(efficiencyScore := Coalesce(u.efficiencyScore, d.efficiencyScore),
       engagementScore := Coalesce(u.engagementScore, d.engagementScore),
       competencyScore := Coalesce(u.competencyScore, d.competencyScore))
  }

  /** An update that supplies no score changes nothing, even when it supplies a creation time;
      applying an update twice is applying it once; and an update whose supplied scores are on
      the scale keeps a record on the scale. */
  lemma ScoreUpdateLaws(d: ScoreDb, u: UpdateScore)
    ensures u.efficiencyScore.None? && u.engagementScore.None? && u.competencyScore.None? ==>
              ApplyScoreUpdate(d, u) == d
    ensures ApplyScoreUpdate(ApplyScoreUpdate(d, u), u) == ApplyScoreUpdate(d, u)
    ensures ScoresInRange(d) && UpdateScoresInRange(u) ==> ScoresInRange(ApplyScoreUpdate(d, u))
  {
  }

  /** The row updated in place is still the first with its id, and uniqueness and the scale are kept. */
  lemma {:induction false} UpdateKeepsTable(s: seq<ScoreDb>, k: int, u: UpdateScore)
    requires IsFirstWithId(s, k, u.id)
    ensures var t := s[k := ApplyScoreUpdate(s[k], u)];
            IsFirstWithId(t, k, u.id) && (IdsUnique(s) ==> IdsUnique(t))
            && (AllInRange(s) && UpdateScoresInRange(u) ==> AllInRange(t))
  {
    var t := s[k := ApplyScoreUpdate(s[k], u)];
    assert forall i :: 0 <= i < |s| ==> t[i].id == s[i].id;
    if AllInRange(s) && UpdateScoresInRange(u) {
      forall i | 0 <= i < |t|
        ensures ScoresInRange(t[i])
      {
        if i == k {
          ScoreUpdateLaws(s[k], u);
        }
      }
    }
  }

  // ----- Queries -----

  /** The start-bound condition: no start, or created on or after it. */
  predicate AfterStart(createdAt: Instant, start: Option<Instant>)
  {
    start.None? || createdAt >= start.value
  }

  /** The end-bound condition: no end, or created on or before it. */
  predicate BeforeEnd(createdAt: Instant, end: Option<Instant>)
  {
    end.None? || createdAt <= end.value
  }

  /** The inclusive creation period of the queries. */
  predicate InPeriod(createdAt: Instant, start: Option<Instant>, end: Option<Instant>)
  {
    AfterStart(createdAt, start) && BeforeEnd(createdAt, end)
  }

  /** The key each query filters by before the period. */
  datatype ScoreKey =
    | AnyScore                        // GetScoresAsync
    | OfEmployee(employeeId: Guid)    // GetScoresByEmployeeIdAsync
    | ForPosition(positionId: Guid)   // GetScoresByPositionIdAsync
    | ByAuthor(authorId: Guid)        // GetScoresByAuthorIdAsync
    | OfEmployees(holders: seq<Guid>) // GetScoresSubordinatesByEmployeeIdAsync

  predicate KeyMatches(x: ScoreDb, key: ScoreKey)
  {
    match key
    case AnyScore => true
    case OfEmployee(e) => x.employeeId == e
    case ForPosition(p) => x.positionId == p
    case ByAuthor(a) => x.authorId == a
    case OfEmployees(hs) => x.employeeId in hs
  }

  /** The first step of a query: the whole table for `GetScoresAsync`, a `Where` on the key for
      the others. */
  function Keyed(s: seq<ScoreDb>, key: ScoreKey): (r: seq<ScoreDb>)
    ensures r == Where(s, (x: ScoreDb) => KeyMatches(x, key))
  {
    if key.AnyScore? then
      WhereAll(s, (x: ScoreDb) => KeyMatches(x, key));
      s
    else Where(s, (x: ScoreDb) => KeyMatches(x, key))
  }

  /** `if (startDate.HasValue) query = query.Where(s => s.CreatedAt >= start)`. */
  function FromStart(rows: seq<ScoreDb>, start: Option<Instant>): (r: seq<ScoreDb>)
    ensures r == Where(rows, (x: ScoreDb) => AfterStart(x.createdAt, start))
  {
    if start.Some? then
      WhereCongruent(rows, (x: ScoreDb) => x.createdAt >= start.value, (x: ScoreDb) => AfterStart(x.createdAt, start));
      Where(rows, (x: ScoreDb) => x.createdAt >= start.value)
    else
      WhereAll(rows, (x: ScoreDb) => AfterStart(x.createdAt, start));
      rows
  }

  /** `if (endDate.HasValue) query = query.Where(s => s.CreatedAt <= end)`. */
  function UntilEnd(rows: seq<ScoreDb>, end: Option<Instant>): (r: seq<ScoreDb>)
    ensures r == Where(rows, (x: ScoreDb) => BeforeEnd(x.createdAt, end))
  {
    if end.Some? then
      WhereCongruent(rows, (x: ScoreDb) => x.createdAt <= end.value, (x: ScoreDb) => BeforeEnd(x.createdAt, end));
      Where(rows, (x: ScoreDb) => x.createdAt <= end.value)
    else
      WhereAll(rows, (x: ScoreDb) => BeforeEnd(x.createdAt, end));
      rows
  }

  /** The query as the source builds it, the key filter and then the two period filters, proved
      to be the single filter by key and period; in table order. */
  function SelectScores(s: seq<ScoreDb>, key: ScoreKey, start: Option<Instant>, end: Option<Instant>)
    : (r: seq<ScoreDb>)
    ensures r == Where(s, (x: ScoreDb) => KeyMatches(x, key) && InPeriod(x.createdAt, start, end))
    ensures forall x :: x in r <==> x in s && KeyMatches(x, key) && InPeriod(x.createdAt, start, end)
    ensures multiset(r) <= multiset(s)
  {
    var kps := (x: ScoreDb) => KeyMatches(x, key) && AfterStart(x.createdAt, start);
    WhereThenWhere(s, (x: ScoreDb) => KeyMatches(x, key), (x: ScoreDb) => AfterStart(x.createdAt, start), kps);
    WhereThenWhere(s, kps, (x: ScoreDb) => BeforeEnd(x.createdAt, end),
                   (x: ScoreDb) => KeyMatches(x, key) && InPeriod(x.createdAt, start, end));
    UntilEnd(FromStart(Keyed(s, key), start), end)
  }

  /** Every row of a page of a query is a stored row that matches the key and the period. */
  lemma {:induction false} PageRowsMatch(s: seq<ScoreDb>, key: ScoreKey, start: Option<Instant>, end: Option<Instant>,
                                         pageNumber: int, pageSize: int)
    ensures forall x :: x in Slice(SelectScores(s, key, start, end), pageNumber, pageSize) ==>
              x in s && KeyMatches(x, key) && InPeriod(x.createdAt, start, end)
  {
    var selected := SelectScores(s, key, start, end);
    forall x | x in Slice(selected, pageNumber, pageSize)
      ensures x in s && KeyMatches(x, key) && InPeriod(x.createdAt, start, end)
    {
      assert x in selected;
    }
  }

  /** Without a key and without bounds the query returns the whole table. */
  lemma NoFilterKeepsAll(s: seq<ScoreDb>)
    ensures SelectScores(s, AnyScore, None, None) == s
  {
    var key := AnyScore;
    var start: Option<Instant> := None;
    var end: Option<Instant> := None;
    WhereAll(s, (x: ScoreDb) => KeyMatches(x, key) && InPeriod(x.createdAt, start, end));
  }

  /** Widening the period never loses a score. */
  lemma WiderPeriodKeepsMore(s: seq<ScoreDb>, key: ScoreKey, start: Instant, end: Instant,
                             wideStart: Instant, wideEnd: Instant, x: ScoreDb)
    requires wideStart <= start && end <= wideEnd
    ensures x in SelectScores(s, key, Some(start), Some(end)) ==> x in SelectScores(s, key, Some(wideStart), Some(wideEnd))
  {
  }

  class ScoreRepository {
    var scores: seq<ScoreDb>

    constructor(initial: seq<ScoreDb>)
      ensures scores == initial
    {
      scores := initial;
    }

    /** AddScoreAsync: the request goes through the range-checking conversion with a fresh id and
        the current instant; a score off the scale is an ArgumentException and nothing is stored. */
    method AddScore(c: CreateScore, freshId: Guid, now: Instant) returns (r: Result<ScoreDb>)
      modifies this
      ensures r.Success? <==> InScoreRange(c.efficiencyScore) && InScoreRange(c.engagementScore)
                               && InScoreRange(c.competencyScore)
      ensures r.Failure? ==> r.error.InvalidArgument? && scores == old(scores)
      ensures r.Success? ==> scores == old(scores) + [r.value] && ScoresInRange(r.value)
      ensures r.Success? ==> (r.value.id == freshId && r.value.createdAt == now
                              && r.value.employeeId == c.employeeId && r.value.authorId == c.authorId
                              && r.value.positionId == c.positionId
                              && r.value.efficiencyScore == c.efficiencyScore
                              && r.value.engagementScore == c.engagementScore
                              && r.value.competencyScore == c.competencyScore)
      ensures AllInRange(old(scores)) ==> AllInRange(scores)
      ensures r.Success? && !HasId(old(scores), freshId) ==>
                IsFirstWithId(scores, |old(scores)|, freshId) && (IdsUnique(old(scores)) ==> IdsUnique(scores))
    {
      var converted := ScoreDbFromCreate(c, freshId, now);
      if converted.Failure? {
        return Failure(converted.error);
      }
      var d := converted.value;
      if !HasId(scores, freshId) {
        AppendedIsFirstWithId(scores, d);
      }
      scores := scores + [d];
      r := Success(d);
    }

    /** GetScoreByIdAsync: the first score with the id, or ScoreNotFound. */
    function GetScore(id: Guid): (r: Result<ScoreDb>)
      reads this
      ensures r.Failure? <==> !HasId(scores, id)
      ensures r.Failure? ==> r.error == ScoreNotFound
      ensures r.Success? ==> exists k :: IsFirstWithId(scores, k, id) && r.value == scores[k]
    {
      match FirstIndex(scores, (x: ScoreDb) => x.id == id)
      case None => Failure(ScoreNotFound)
      case Some(k) =>
        assert IsFirstWithId(scores, k, id);
        Success(scores[k])
    }

    /** UpdateScoreAsync: replaces each supplied score of the first record with the id; the
        supplied creation time is ignored. */
    method UpdateScore(u: UpdateScore) returns (r: Result<ScoreDb>)
      modifies this
      ensures r.Failure? <==> !HasId(old(scores), u.id)
      ensures r.Failure? ==> r == Failure(ScoreNotFound) && scores == old(scores)
      ensures r.Success? ==>
                exists k :: IsFirstWithId(old(scores), k, u.id)
                            && scores == old(scores)[k := ApplyScoreUpdate(old(scores)[k], u)]
                            && r.value == scores[k] && r.value.createdAt == old(scores)[k].createdAt
      ensures IdsUnique(old(scores)) ==> IdsUnique(scores)
      ensures AllInRange(old(scores)) && UpdateScoresInRange(u) ==> AllInRange(scores)
    {
      var found := FirstIndex(scores, (x: ScoreDb) => x.id == u.id);
      if found.None? {
        return Failure(ScoreNotFound);
      }
      var k := found.value;
      assert IsFirstWithId(scores, k, u.id);
      UpdateKeepsTable(scores, k, u);
      scores := scores[k := ApplyScoreUpdate(scores[k], u)];
      r := Success(scores[k]);
    }

    /** DeleteScoreAsync: removes the first score with the id. */
    method DeleteScore(id: Guid) returns (r: Result<()>)
      modifies this
      ensures r.Failure? <==> !HasId(old(scores), id)
      ensures r.Failure? ==> r == Failure(ScoreNotFound) && scores == old(scores)
      ensures r.Success? ==>
                exists k :: IsFirstWithId(old(scores), k, id)
                            && scores == RemoveAt(old(scores), k)
                            && multiset(scores) + multiset{old(scores)[k]} == multiset(old(scores))
      ensures r.Success? && IdsUnique(old(scores)) ==> !HasId(scores, id) && IdsUnique(scores)
      ensures AllInRange(old(scores)) ==> AllInRange(scores)
    {
      var found := FirstIndex(scores, (x: ScoreDb) => x.id == id);
      if found.None? {
        return Failure(ScoreNotFound);
      }
      var k := found.value;
      assert IsFirstWithId(scores, k, id);
      RemoveAtMultiset(scores, k);
      if IdsUnique(scores) {
        RemovedIdIsGone(scores, k);
      }
      scores := RemoveAt(scores, k);
      r := Success(());
    }

    /** GetScoresAsync: every score in the period, one page of them, with the page computed from
        the count. */
    function GetScores(pageNumber: int, pageSize: nat, start: Option<Instant>, end: Option<Instant>)
      : (r: Paged<ScoreDb>)
      reads this
      requires pageSize > 0
      ensures r.page == PageFor(pageNumber, |SelectScores(scores, AnyScore, start, end)|, pageSize)
      ensures r.items == Slice(SelectScores(scores, AnyScore, start, end), pageNumber, pageSize)
      ensures forall x :: x in r.items ==> x in scores && InPeriod(x.createdAt, start, end)
    {
      PageRowsMatch(scores, AnyScore, start, end, pageNumber, pageSize);
      Paginate(SelectScores(scores, AnyScore, start, end), pageNumber, pageSize)
    }

    /** GetScoresByEmployeeIdAsync: the employee's scores in the period; the page is built as
        `new Page(pageNumber, totalItems, pageSize)`, so the count lands in TotalPages. */
    function GetScoresByEmployeeId(employeeId: Guid, pageNumber: int, pageSize: nat,
                                   start: Option<Instant>, end: Option<Instant>): (r: Paged<ScoreDb>)
      reads this
      ensures r.page == SwappedPageFor(pageNumber, |SelectScores(scores, OfEmployee(employeeId), start, end)|, pageSize)
      ensures r.items == Slice(SelectScores(scores, OfEmployee(employeeId), start, end), pageNumber, pageSize)
      ensures forall x :: x in r.items ==> x in scores && KeyMatches(x, OfEmployee(employeeId)) && InPeriod(x.createdAt, start, end)
    {
      var selected := SelectScores(scores, OfEmployee(employeeId), start, end);
      PageRowsMatch(scores, OfEmployee(employeeId), start, end, pageNumber, pageSize);
      Paged(Slice(selected, pageNumber, pageSize), SwappedPageFor(pageNumber, |selected|, pageSize))
    }

    /** GetScoresByPositionIdAsync: the scores given in the position, in the period; the same
        swapped page. */
    function GetScoresByPositionId(positionId: Guid, pageNumber: int, pageSize: nat,
                                   start: Option<Instant>, end: Option<Instant>): (r: Paged<ScoreDb>)
      reads this
      ensures r.page == SwappedPageFor(pageNumber, |SelectScores(scores, ForPosition(positionId), start, end)|, pageSize)
      ensures r.items == Slice(SelectScores(scores, ForPosition(positionId), start, end), pageNumber, pageSize)
      ensures forall x :: x in r.items ==> x in scores && KeyMatches(x, ForPosition(positionId)) && InPeriod(x.createdAt, start, end)
    {
      var selected := SelectScores(scores, ForPosition(positionId), start, end);
      PageRowsMatch(scores, ForPosition(positionId), start, end, pageNumber, pageSize);
      Paged(Slice(selected, pageNumber, pageSize), SwappedPageFor(pageNumber, |selected|, pageSize))
    }

    /** GetScoresByAuthorIdAsync: the scores the author wrote, in the period; the same swapped page. */
    function GetScoresByAuthorId(authorId: Guid, pageNumber: int, pageSize: nat,
                                 start: Option<Instant>, end: Option<Instant>): (r: Paged<ScoreDb>)
      reads this
      ensures r.page == SwappedPageFor(pageNumber, |SelectScores(scores, ByAuthor(authorId), start, end)|, pageSize)
      ensures r.items == Slice(SelectScores(scores, ByAuthor(authorId), start, end), pageNumber, pageSize)
      ensures forall x :: x in r.items ==> x in scores && KeyMatches(x, ByAuthor(authorId)) && InPeriod(x.createdAt, start, end)
    {
      var selected := SelectScores(scores, ByAuthor(authorId), start, end);
      PageRowsMatch(scores, ByAuthor(authorId), start, end, pageNumber, pageSize);
      Paged(Slice(selected, pageNumber, pageSize), SwappedPageFor(pageNumber, |selected|, pageSize))
    }

    /** GetScoresSubordinatesByEmployeeIdAsync: the scores of every employee among the
        current-subordinate rows (the manager's own row included), in the period, with the page
        computed from the count. */
    function GetScoresSubordinates(subordinates: seq<PositionHierarchyWithEmployeeIdDb>, pageNumber: int,
                                   pageSize: nat, start: Option<Instant>, end: Option<Instant>): (r: Paged<ScoreDb>)
      reads this
      requires pageSize > 0
      ensures r.page == PageFor(pageNumber, |SelectScores(scores, OfEmployees(HolderIds(subordinates)), start, end)|, pageSize)
      ensures r.items == Slice(SelectScores(scores, OfEmployees(HolderIds(subordinates)), start, end), pageNumber, pageSize)
      ensures forall x :: x in r.items ==>
                x in scores && KeyMatches(x, OfEmployees(HolderIds(subordinates))) && InPeriod(x.createdAt, start, end)
    {
      PageRowsMatch(scores, OfEmployees(HolderIds(subordinates)), start, end, pageNumber, pageSize);
      Paginate(SelectScores(scores, OfEmployees(HolderIds(subordinates)), start, end), pageNumber, pageSize)
    }
  }

  // ----- Scenarios -----

  /** Three scores of one employee, asked for in pages of ten: the by-employee page claims ten
      items and a next page, although the second page is empty. */
  lemma {:induction false} ByEmployeeMisreportsPage(repo: ScoreRepository, e: Guid, a: ScoreDb, b: ScoreDb, c: ScoreDb)
    requires repo.scores == [a, b, c]
    requires a.employeeId == e && b.employeeId == e && c.employeeId == e
    ensures repo.GetScoresByEmployeeId(e, 1, 10, None, None).page.totalItems == 10
    ensures repo.GetScoresByEmployeeId(e, 1, 10, None, None).page.HasNextPage()
    ensures repo.GetScoresByEmployeeId(e, 2, 10, None, None).items == []
  {
    var s := repo.scores;
    forall x | x in s
      ensures KeyMatches(x, OfEmployee(e)) && InPeriod(x.createdAt, None, None)
    {
    }
    WhereAll(s, (x: ScoreDb) => KeyMatches(x, OfEmployee(e)) && InPeriod(x.createdAt, None, None));
    assert |SelectScores(s, OfEmployee(e), None, None)| == 3;
  }

  /** The update of the repository test: scores 1, 2, 3 updated with efficiency 5 and
      competency 4 read 5, 2, 4, with the creation time kept. */
  lemma TwoOfThreeScoresUpdated(d: ScoreDb, id: Guid, createdAt: Option<Instant>)
    requires d.efficiencyScore == 1 && d.engagementScore == 2 && d.competencyScore == 3
    ensures var r := ApplyScoreUpdate(d, UpdateScore(id, createdAt, Some(5), None, Some(4)));
            r.efficiencyScore == 5 && r.engagementScore == 2 && r.competencyScore == 4 && r.createdAt == d.createdAt
  {
  }

  /** The date-range test: of a score one day old and one forty days old, the period from three
      days ago to now keeps only the first. */
  lemma {:induction false} PeriodKeepsRecentScore(recent: ScoreDb, old40: ScoreDb, now: Instant, day: nat)
    requires day > 0
    requires recent.createdAt == now - day && old40.createdAt == now - 40 * day
    ensures SelectScores([recent, old40], AnyScore, Some(now - 3 * day), Some(now)) == [recent]
  {
    var s := [recent, old40];
    var p := (x: ScoreDb) => KeyMatches(x, AnyScore) && InPeriod(x.createdAt, Some(now - 3 * day), Some(now));
    assert p(recent) && !p(old40);
    assert s[1..] == [old40];
    assert Where([old40], p) == [] by {
      assert [old40][1..] == [];
    }
  }
}
