/** PostHistoryRepository: the table of pay-grade assignments, keyed by the pair
    (post, employee), with add, get, partial update and delete, and the two date-window
    queries. It has the same shape as the position-assignment store, except that its queries
    keep table order instead of sorting. */
module PostHistoryStore {
  import opened Common
  import opened Sequences
  import opened Paging
  import opened HistoryModels
  import opened PositionModels
  import opened Hierarchy
  import opened Windows

  /** `k` is the first row with the key (postId, employeeId). */
  predicate IsFirstWithKey(s: seq<PostHistoryDb>, k: int, postId: Guid, employeeId: Guid)
  {
    0 <= k < |s| && s[k].postId == postId && s[k].employeeId == employeeId
    && forall j :: 0 <= j < k ==> !(s[j].postId == postId && s[j].employeeId == employeeId)
  }

  predicate HasKey(s: seq<PostHistoryDb>, postId: Guid, employeeId: Guid)
  {
    exists k :: 0 <= k < |s| && s[k].postId == postId && s[k].employeeId == employeeId
  }

  /** What an update writes into the stored record: each supplied date, and nothing else. */
  function ApplyPostHistoryUpdate(h: PostHistoryDb, u: UpdatePostHistory): (r: PostHistoryDb)
    ensures r.postId == h.postId && r.employeeId == h.employeeId
    ensures (r.startDate, r.endDate) == UpdatedDates(h.startDate, h.endDate, u.startDate, u.endDate)
  {
    var (s, e) := UpdatedDates(h.startDate, h.endDate, u.startDate, u.endDate);
    h.(startDate := s, endDate := e)
  }

  /** Supplying only an end date keeps the start; supplying nothing keeps the record; a closed
      interval stays closed. */
  lemma PostHistoryUpdateLaws(h: PostHistoryDb, u: UpdatePostHistory)
    ensures u.startDate.None? ==> ApplyPostHistoryUpdate(h, u).startDate == h.startDate
    ensures u.startDate.None? && u.endDate.None? ==> ApplyPostHistoryUpdate(h, u) == h
    ensures h.endDate.Some? ==> ApplyPostHistoryUpdate(h, u).endDate.Some?
  {
  }

  /** The records of one employee inside the window, in table order. */
  function EmployeeHistory(s: seq<PostHistoryDb>, employeeId: Guid,
                           start: Option<Date>, end: Option<Date>, today: Date): (r: seq<PostHistoryDb>)
    ensures forall x :: x in r <==> x in s && x.employeeId == employeeId && InWindow(x.endDate, start, end, today)
    ensures multiset(r) <= multiset(s)
    ensures r == Where(s, (x: PostHistoryDb) => x.employeeId == employeeId && InWindow(x.endDate, start, end, today))
  {
    var keep := (h: PostHistoryDb) => h.employeeId == employeeId;
    var endOf := (h: PostHistoryDb) => h.endDate;
    SelectInWindowIsWhere(s, keep, endOf, start, end, today,
                          (x: PostHistoryDb) => x.employeeId == employeeId && InWindow(x.endDate, start, end, today));
    SelectInWindow(s, keep, endOf, start, end, today)
  }

  /** The records of the given holders inside the window, in table order. */
  function HoldersHistory(s: seq<PostHistoryDb>, holders: seq<Guid>,
                          start: Option<Date>, end: Option<Date>, today: Date): (r: seq<PostHistoryDb>)
    ensures forall x :: x in r <==> x in s && x.employeeId in holders && InWindow(x.endDate, start, end, today)
    ensures multiset(r) <= multiset(s)
    ensures r == Where(s, (x: PostHistoryDb) => x.employeeId in holders && InWindow(x.endDate, start, end, today))
  {
    var keep := (h: PostHistoryDb) => h.employeeId in holders;
    var endOf := (h: PostHistoryDb) => h.endDate;
    SelectInWindowIsWhere(s, keep, endOf, start, end, today,
                          (x: PostHistoryDb) => x.employeeId in holders && InWindow(x.endDate, start, end, today));
    SelectInWindow(s, keep, endOf, start, end, today)
  }

  class PostHistoryRepository {
    var histories: seq<PostHistoryDb>

    constructor(initial: seq<PostHistoryDb>)
      ensures histories == initial
    {
      histories := initial;
    }

    /** AddPostHistoryAsync: stores the interval as given and returns it. No check against
        the employee's other intervals is made, so overlapping and several open intervals are
        accepted. */
    method AddPostHistory(c: CreatePostHistory) returns (r: BasePostHistory)
      modifies this
      ensures histories == old(histories) + [PostHistoryDb(c.postId, c.employeeId, c.startDate, c.endDate)]
      ensures r == BasePostHistory(c.postId, c.employeeId, c.startDate, c.endDate)
    {
      var d := PostHistoryDbFromCreate(Some(c)).value;
      histories := histories + [d];
      r := PostHistoryFromDb(Some(d)).value;
    }

    /** GetPostHistoryByIdAsync: the first record with the key, or PostHistoryNotFound. */
    function GetPostHistory(postId: Guid, employeeId: Guid): (r: Result<BasePostHistory>)
      reads this
      ensures r.Failure? <==> !HasKey(histories, postId, employeeId)
      ensures r.Failure? ==> r.error == PostHistoryNotFound
      ensures r.Success? ==> exists k :: IsFirstWithKey(histories, k, postId, employeeId)
                                         && Some(r.value) == PostHistoryFromDb(Some(histories[k]))
    {
      match FirstIndex(histories, (h: PostHistoryDb) => h.postId == postId && h.employeeId == employeeId)
      case None => Failure(PostHistoryNotFound)
      case Some(k) =>
        assert IsFirstWithKey(histories, k, postId, employeeId);
        Success(PostHistoryFromDb(Some(histories[k])).value)
    }

    /** UpdatePostHistoryAsync: overwrites the supplied dates of the first record with the
        key; every other record, and the key itself, stay as they were. */
    method UpdatePostHistory(u: UpdatePostHistory) returns (r: Result<BasePostHistory>)
      modifies this
      ensures r.Failure? <==> !HasKey(old(histories), u.postId, u.employeeId)
      ensures r.Failure? ==> r == Failure(PostHistoryNotFound) && histories == old(histories)
      ensures r.Success? ==>
                exists k :: IsFirstWithKey(old(histories), k, u.postId, u.employeeId)
                            && histories == old(histories)[k := ApplyPostHistoryUpdate(old(histories)[k], u)]
                            && Some(r.value) == PostHistoryFromDb(Some(histories[k]))
    {
      var found := FirstIndex(histories, (h: PostHistoryDb) => h.postId == u.postId && h.employeeId == u.employeeId);
      if found.None? {
        return Failure(PostHistoryNotFound);
      }
      var k := found.value;
      assert IsFirstWithKey(histories, k, u.postId, u.employeeId);
      histories := histories[k := ApplyPostHistoryUpdate(histories[k], u)];
      r := Success(PostHistoryFromDb(Some(histories[k])).value);
    }

    /** DeletePostHistoryAsync: removes the first record with the key. */
    method DeletePostHistory(postId: Guid, employeeId: Guid) returns (r: Result<()>)
      modifies this
      ensures r.Failure? <==> !HasKey(old(histories), postId, employeeId)
      ensures r.Failure? ==> r == Failure(PostHistoryNotFound) && histories == old(histories)
      ensures r.Success? ==>
                exists k :: IsFirstWithKey(old(histories), k, postId, employeeId)
                            && histories == RemoveAt(old(histories), k)
                            && multiset(histories) + multiset{old(histories)[k]} == multiset(old(histories))
    {
      var found := FirstIndex(histories, (h: PostHistoryDb) => h.postId == postId && h.employeeId == employeeId);
      if found.None? {
        return Failure(PostHistoryNotFound);
      }
      var k := found.value;
      assert IsFirstWithKey(histories, k, postId, employeeId);
      RemoveAtMultiset(histories, k);
      histories := RemoveAt(histories, k);
      r := Success(());
    }

    /** GetPostHistoryByEmployeeIdAsync: the employee's records in the window, in table order
        with no sorting, one page of them; the page counts every record in the window. */
    function GetPostHistoryByEmployeeId(employeeId: Guid, pageNumber: int, pageSize: nat,
                                        start: Option<Date>, end: Option<Date>, today: Date)
      : (r: Paged<PostHistoryDb>)
      reads this
      requires pageSize > 0
      ensures r.page == PageFor(pageNumber, |EmployeeHistory(histories, employeeId, start, end, today)|, pageSize)
      ensures r.items == Slice(EmployeeHistory(histories, employeeId, start, end, today), pageNumber, pageSize)
      ensures forall x :: x in r.items ==>
                x in histories && x.employeeId == employeeId && InWindow(x.endDate, start, end, today)
    {
      Paginate(EmployeeHistory(histories, employeeId, start, end, today), pageNumber, pageSize)
    }

    /** GetSubordinatesPostHistoryAsync: the records, in the window, of every employee
        among the current-subordinate rows (the manager's own row included), in table order with
        no sorting, one page of them. */
    function GetSubordinatesPostHistory(subordinates: seq<PositionHierarchyWithEmployeeIdDb>,
                                        pageNumber: int, pageSize: nat,
                                        start: Option<Date>, end: Option<Date>, today: Date)
      : (r: Paged<PostHistoryDb>)
      reads this
      requires pageSize > 0
      ensures r.page == PageFor(pageNumber, |HoldersHistory(histories, HolderIds(subordinates), start, end, today)|, pageSize)
      ensures r.items == Slice(HoldersHistory(histories, HolderIds(subordinates), start, end, today), pageNumber, pageSize)
      ensures forall x :: x in r.items ==>
                x in histories && InWindow(x.endDate, start, end, today)
                && exists i :: 0 <= i < |subordinates| && subordinates[i].employeeId == x.employeeId
    {
      Paginate(HoldersHistory(histories, HolderIds(subordinates), start, end, today), pageNumber, pageSize)
    }
  }

  /** The three records of the date-range test, relative to `today`: one ending 40 days ago,
      one ending 30 days ago, and one still open. */
  function ThreeRecords(e: Guid, today: Date): seq<PostHistoryDb>
  {
    [PostHistoryDb(Guid(1), e, today - 50, Some(today - 40)),
     PostHistoryDb(Guid(2), e, today - 39, Some(today - 30)),
     PostHistoryDb(Guid(3), e, today - 29, None)]
  }

  /** A start bound 35 days back drops the record that ended before it and keeps the other two,
      the open one included. */
  lemma ThreeRecordsBoundedWindow(e: Guid, today: Date)
    ensures EmployeeHistory(ThreeRecords(e, today), e, Some(today - 35), None, today) == ThreeRecords(e, today)[1..]
  {
    var s := ThreeRecords(e, today);
    var start: Option<Date> := Some(today - 35);
    var end: Option<Date> := None;
    var p := (x: PostHistoryDb) => x.employeeId == e && InWindow(x.endDate, start, end, today);
    assert !p(s[0]) && p(s[1]) && p(s[2]);
    KeepTail(s, 1, p);
    assert Where(s, p) == Where(s[1..], p);
  }

  /** Without bounds every record of the employee is kept. */
  lemma ThreeRecordsUnbounded(e: Guid, today: Date)
    ensures EmployeeHistory(ThreeRecords(e, today), e, None, None, today) == ThreeRecords(e, today)
  {
    var s := ThreeRecords(e, today);
    var start: Option<Date> := None;
    var end: Option<Date> := None;
    var p := (x: PostHistoryDb) => x.employeeId == e && InWindow(x.endDate, start, end, today);
    forall x | x in s ensures p(x) {
      var i :| 0 <= i < |s| && s[i] == x;
    }
    WhereAll(s, p);
  }

  /** The same, through the repository: page 1 of 2 holds two of the three records, and the
      bounded query reports the two that remain. */
  lemma ThreeRecordsQueries(repo: PostHistoryRepository, e: Guid, today: Date)
    requires repo.histories == ThreeRecords(e, today)
    ensures repo.GetPostHistoryByEmployeeId(e, 1, 2, None, None, today).page == Page(1, 2, 3)
    ensures |repo.GetPostHistoryByEmployeeId(e, 1, 2, None, None, today).items| == 2
    ensures repo.GetPostHistoryByEmployeeId(e, 1, 10, Some(today - 35), None, today).items == ThreeRecords(e, today)[1..]
    ensures repo.GetPostHistoryByEmployeeId(e, 1, 10, Some(today - 35), None, today).page.totalItems == 2
  {
    ThreeRecordsBoundedWindow(e, today);
    ThreeRecordsUnbounded(e, today);
    assert CeilDiv(3, 2) == 2;
  }

  /** The ten pay-grade records of the subordinate tests, for employees 11 to 14 and posts 21
      to 24; dates are written as yyyymmdd numbers, which order as the dates do. Records 1 to 3
      end on 2020-01-01. */
  function TenRecords(): seq<PostHistoryDb>
  {
    [PostHistoryDb(Guid(21), Guid(11), 20150101, None),
     PostHistoryDb(Guid(22), Guid(12), 20150101, Some(20200101)),
     PostHistoryDb(Guid(23), Guid(13), 20150101, Some(20200101)),
     PostHistoryDb(Guid(24), Guid(14), 20150101, Some(20200101)),
     PostHistoryDb(Guid(22), Guid(14), 20200101, Some(20250101)),
     PostHistoryDb(Guid(23), Guid(12), 20200101, Some(20250101)),
     PostHistoryDb(Guid(24), Guid(13), 20200101, Some(20250101)),
     PostHistoryDb(Guid(22), Guid(13), 20250101, None),
     PostHistoryDb(Guid(23), Guid(14), 20250101, None),
     PostHistoryDb(Guid(24), Guid(12), 20250101, None)]
  }

  /** Some current-subordinate row is held by `e`. */
  predicate HoldsRow(subordinates: seq<PositionHierarchyWithEmployeeIdDb>, e: Guid)
  {
    exists i :: 0 <= i < |subordinates| && subordinates[i].employeeId == e
  }

  /** With the manager (employee 11) and the three others among the holders, all ten records
      are kept without a window. */
  lemma {:induction false} TenRecordsUnbounded(holders: seq<Guid>, today: Date)
    requires Guid(11) in holders && Guid(12) in holders && Guid(13) in holders && Guid(14) in holders
    ensures HoldersHistory(TenRecords(), holders, None, None, today) == TenRecords()
  {
    var s := TenRecords();
    var start: Option<Date> := None;
    var end: Option<Date> := None;
    var all := (x: PostHistoryDb) => x.employeeId in holders && InWindow(x.endDate, start, end, today);
    forall x | x in s ensures all(x) {
      var i :| 0 <= i < |s| && s[i] == x;
    }
    WhereAll(s, all);
  }

  lemma TenRecordsLength()
    ensures |TenRecords()| == 10
  {
  }

  /** Which of the ten records a start bound of 2020-02-01 keeps, one record at a time. */
  lemma {:induction false} FebruaryWindowPicks(holders: seq<Guid>, today: Date, p: PostHistoryDb -> bool)
    requires Guid(11) in holders && Guid(12) in holders && Guid(13) in holders && Guid(14) in holders
    requires forall x :: p(x) == (x.employeeId in holders && InWindow(x.endDate, Some(20200201), None, today))
    ensures var s := TenRecords(); p(s[0]) && !p(s[1]) && !p(s[2]) && !p(s[3])
    ensures forall i :: 4 <= i < 10 ==> p(TenRecords()[i])
  {
    var s := TenRecords();
    assert p(s[4]) && p(s[5]) && p(s[6]) && p(s[7]) && p(s[8]) && p(s[9]);
  }

  /** Of four rows of which only the first is kept, filtering leaves the first. */
  lemma {:induction false} KeepOnlyFirstOfFour(s: seq<PostHistoryDb>, p: PostHistoryDb -> bool)
    requires |s| >= 4 && p(s[0]) && !p(s[1]) && !p(s[2]) && !p(s[3])
    ensures Where(s[..4], p) == s[..1]
  {
    var h := s[..4];
    assert h[1..][1..][1..][1..] == [];
    assert Where(h[1..][1..][1..], p) == [];
    assert Where(h[1..][1..], p) == [];
    assert Where(h[1..], p) == [];
  }

  /** Rows from `k` on that are all kept filter to themselves. */
  lemma {:induction false} KeepTail(s: seq<PostHistoryDb>, k: nat, p: PostHistoryDb -> bool)
    requires k <= |s|
    requires forall i :: k <= i < |s| ==> p(s[i])
    ensures Where(s[k..], p) == s[k..]
  {
    forall x | x in s[k..] ensures p(x) {
      var j :| 0 <= j < |s[k..]| && s[k..][j] == x;
      assert x == s[k + j];
    }
    WhereAll(s[k..], p);
  }

  /** Filtering ten rows of which the window keeps the first and the last six. */
  lemma {:induction false} KeepFirstAndLastSix(s: seq<PostHistoryDb>, p: PostHistoryDb -> bool)
    requires |s| == 10
    requires p(s[0]) && !p(s[1]) && !p(s[2]) && !p(s[3])
    requires forall i :: 4 <= i < 10 ==> p(s[i])
    ensures Where(s, p) == s[..1] + s[4..]
    ensures |Where(s, p)| == 7
  {
    WhereSplitAt(s, 4, p);
    KeepOnlyFirstOfFour(s, p);
    KeepTail(s, 4, p);
  }

  /** A start bound of 2020-02-01 drops the three records that ended before it. */
  lemma {:induction false} TenRecordsFromFebruary2020(holders: seq<Guid>, today: Date)
    requires Guid(11) in holders && Guid(12) in holders && Guid(13) in holders && Guid(14) in holders
    ensures HoldersHistory(TenRecords(), holders, Some(20200201), None, today)
            == TenRecords()[..1] + TenRecords()[4..]
  {
    var start: Option<Date> := Some(20200201);
    var end: Option<Date> := None;
    var p := (x: PostHistoryDb) => x.employeeId in holders && InWindow(x.endDate, start, end, today);
    FebruaryWindowPicks(holders, today, p);
    KeepFirstAndLastSix(TenRecords(), p);
  }

  /** So seven of the ten records fall in that window. */
  lemma SevenFromFebruary2020(holders: seq<Guid>, today: Date)
    requires Guid(11) in holders && Guid(12) in holders && Guid(13) in holders && Guid(14) in holders
    ensures |HoldersHistory(TenRecords(), holders, Some(20200201), None, today)| == 7
  {
    var start: Option<Date> := Some(20200201);
    var end: Option<Date> := None;
    var p := (x: PostHistoryDb) => x.employeeId in holders && InWindow(x.endDate, start, end, today);
    FebruaryWindowPicks(holders, today, p);
    KeepFirstAndLastSix(TenRecords(), p);
  }

  /** The four employees of the ten records all hold a current-subordinate row. */
  lemma {:induction false} FourHolders(subordinates: seq<PositionHierarchyWithEmployeeIdDb>)
    requires HoldsRow(subordinates, Guid(11)) && HoldsRow(subordinates, Guid(12))
    requires HoldsRow(subordinates, Guid(13)) && HoldsRow(subordinates, Guid(14))
    ensures var holders := HolderIds(subordinates);
            Guid(11) in holders && Guid(12) in holders && Guid(13) in holders && Guid(14) in holders
  {
  }

  /** Through the repository without a window: ten records in pages of three are four pages,
      three of them on the first. */
  lemma {:induction false} TenRecordsInPagesOfThree(repo: PostHistoryRepository,
                                                    subordinates: seq<PositionHierarchyWithEmployeeIdDb>, today: Date)
    requires repo.histories == TenRecords()
    requires HoldsRow(subordinates, Guid(11)) && HoldsRow(subordinates, Guid(12))
    requires HoldsRow(subordinates, Guid(13)) && HoldsRow(subordinates, Guid(14))
    ensures repo.GetSubordinatesPostHistory(subordinates, 1, 3, None, None, today).page == Page(1, 4, 10)
    ensures |repo.GetSubordinatesPostHistory(subordinates, 1, 3, None, None, today).items| == 3
  {
    FourHolders(subordinates);
    var all := HoldersHistory(repo.histories, HolderIds(subordinates), None, None, today);
    TenRecordsUnbounded(HolderIds(subordinates), today);
    TenRecordsLength();
    FirstOfFourPages(all);
  }

  /** Ten rows in pages of three: four pages, three rows on the first. */
  lemma FirstOfFourPages(s: seq<PostHistoryDb>)
    requires |s| == 10
    ensures Paginate(s, 1, 3).page == Page(1, 4, 10)
    ensures |Paginate(s, 1, 3).items| == 3
  {
    assert CeilDiv(10, 3) == 4;
    PageSize(s, 1, 3);
  }

  /** Through the repository from 2020-02-01: the seven records in the window, in pages of four,
      are two pages, four of them on the first. */
  lemma {:induction false} SevenRecordsInPagesOfFour(repo: PostHistoryRepository,
                                                     subordinates: seq<PositionHierarchyWithEmployeeIdDb>, today: Date)
    requires repo.histories == TenRecords()
    requires HoldsRow(subordinates, Guid(11)) && HoldsRow(subordinates, Guid(12))
    requires HoldsRow(subordinates, Guid(13)) && HoldsRow(subordinates, Guid(14))
    ensures repo.GetSubordinatesPostHistory(subordinates, 1, 4, Some(20200201), None, today).page == Page(1, 2, 7)
    ensures |repo.GetSubordinatesPostHistory(subordinates, 1, 4, Some(20200201), None, today).items| == 4
  {
    FourHolders(subordinates);
    var kept := HoldersHistory(repo.histories, HolderIds(subordinates), Some(20200201), None, today);
    SevenFromFebruary2020(HolderIds(subordinates), today);
    FirstOfTwoPages(kept);
  }

  /** Seven rows in pages of four: two pages, four rows on the first. */
  lemma FirstOfTwoPages(s: seq<PostHistoryDb>)
    requires |s| == 7
    ensures Paginate(s, 1, 4).page == Page(1, 2, 7)
    ensures |Paginate(s, 1, 4).items| == 4
  {
    assert CeilDiv(7, 4) == 2;
    PageSize(s, 1, 4);
  }
}
