/** PositionHistoryRepository: the table of position assignments, keyed by the pair
    (position, employee), with add, get, partial update and delete, the date-window queries
    and the current-position lookup. The rows the database's recursive current-subordinates
    function returns are a parameter of the queries that use it. */
module PositionHistoryStore {
  import opened Common
  import opened Sequences
  import opened Paging
  import opened HistoryModels
  import opened PositionModels
  import opened Hierarchy
  import opened Windows

  /** `k` is the first row with the key (positionId, employeeId). */
  predicate IsFirstWithKey(s: seq<PositionHistoryDb>, k: int, positionId: Guid, employeeId: Guid)
  {
    0 <= k < |s| && s[k].positionId == positionId && s[k].employeeId == employeeId
    && forall j :: 0 <= j < k ==> !(s[j].positionId == positionId && s[j].employeeId == employeeId)
  }

  predicate HasKey(s: seq<PositionHistoryDb>, positionId: Guid, employeeId: Guid)
  {
    exists k :: 0 <= k < |s| && s[k].positionId == positionId && s[k].employeeId == employeeId
  }

  /** What an update writes into the stored record: each supplied date, and nothing else. */
  function ApplyPositionHistoryUpdate(h: PositionHistoryDb, u: UpdatePositionHistory): (r: PositionHistoryDb)
    ensures r.positionId == h.positionId && r.employeeId == h.employeeId
    ensures (r.startDate, r.endDate) == UpdatedDates(h.startDate, h.endDate, u.startDate, u.endDate)
  {
    var (s, e) := UpdatedDates(h.startDate, h.endDate, u.startDate, u.endDate);
    h.(startDate := s, endDate := e)
  }

  /** Supplying only an end date keeps the start; supplying nothing keeps the record; a closed
      interval stays closed. */
  lemma PositionHistoryUpdateLaws(h: PositionHistoryDb, u: UpdatePositionHistory)
    ensures u.startDate.None? ==> ApplyPositionHistoryUpdate(h, u).startDate == h.startDate
    ensures u.startDate.None? && u.endDate.None? ==> ApplyPositionHistoryUpdate(h, u) == h
    ensures h.endDate.Some? ==> ApplyPositionHistoryUpdate(h, u).endDate.Some?
  {
  }

  /** `OrderByDescending(x => x.StartDate)`. */
  predicate StartsNoEarlier(a: PositionHistoryDb, b: PositionHistoryDb)
  {
    a.startDate >= b.startDate
  }

  function OrderByStartDescending(rows: seq<PositionHistoryDb>): (r: seq<PositionHistoryDb>)
    ensures multiset(r) == multiset(rows)
    ensures forall i, j :: 0 <= i < j < |r| ==> r[i].startDate >= r[j].startDate
  {
    assert IsTotal(StartsNoEarlier) && IsTransitive(StartsNoEarlier);
    var r := SortBy(rows, StartsNoEarlier);
    assert forall i, j :: 0 <= i < j < |r| ==> StartsNoEarlier(r[i], r[j]);
    r
  }

  /** The records of one employee inside the window, in table order. */
  function EmployeeHistory(s: seq<PositionHistoryDb>, employeeId: Guid,
                           start: Option<Date>, end: Option<Date>, today: Date): (r: seq<PositionHistoryDb>)
    ensures forall x :: x in r <==> x in s && x.employeeId == employeeId && InWindow(x.endDate, start, end, today)
    ensures multiset(r) <= multiset(s)
    ensures r == Where(s, (x: PositionHistoryDb) => x.employeeId == employeeId && InWindow(x.endDate, start, end, today))
  {
    var keep := (h: PositionHistoryDb) => h.employeeId == employeeId;
    var endOf := (h: PositionHistoryDb) => h.endDate;
    SelectInWindowIsWhere(s, keep, endOf, start, end, today,
                          (x: PositionHistoryDb) => x.employeeId == employeeId && InWindow(x.endDate, start, end, today));
    SelectInWindow(s, keep, endOf, start, end, today)
  }

  /** The records of the given holders inside the window, in table order. */
  function HoldersHistory(s: seq<PositionHistoryDb>, holders: seq<Guid>,
                          start: Option<Date>, end: Option<Date>, today: Date): (r: seq<PositionHistoryDb>)
    ensures forall x :: x in r <==> x in s && x.employeeId in holders && InWindow(x.endDate, start, end, today)
    ensures multiset(r) <= multiset(s)
    ensures r == Where(s, (x: PositionHistoryDb) => x.employeeId in holders && InWindow(x.endDate, start, end, today))
  {
    var keep := (h: PositionHistoryDb) => h.employeeId in holders;
    var endOf := (h: PositionHistoryDb) => h.endDate;
    SelectInWindowIsWhere(s, keep, endOf, start, end, today,
                          (x: PositionHistoryDb) => x.employeeId in holders && InWindow(x.endDate, start, end, today));
    SelectInWindow(s, keep, endOf, start, end, today)
  }

  class PositionHistoryRepository {
    var histories: seq<PositionHistoryDb>

    constructor(initial: seq<PositionHistoryDb>)
      ensures histories == initial
    {
      histories := initial;
    }

    /** AddPositionHistoryAsync: stores the interval as given and returns it. No check against
        the employee's other intervals is made, so overlapping and several open intervals are
        accepted. */
    method AddPositionHistory(c: CreatePositionHistory) returns (r: BasePositionHistory)
      modifies this
      ensures histories == old(histories) + [PositionHistoryDb(c.positionId, c.employeeId, c.startDate, c.endDate)]
      ensures r == BasePositionHistory(c.positionId, c.employeeId, c.startDate, c.endDate)
    {
      var d := PositionHistoryDbFromCreate(Some(c)).value;
      histories := histories + [d];
      r := PositionHistoryFromDb(Some(d)).value;
    }

    /** GetPositionHistoryByIdAsync: the first record with the key, or PositionHistoryNotFound. */
    function GetPositionHistory(positionId: Guid, employeeId: Guid): (r: Result<BasePositionHistory>)
      reads this
      ensures r.Failure? <==> !HasKey(histories, positionId, employeeId)
      ensures r.Failure? ==> r.error == PositionHistoryNotFound
      ensures r.Success? ==> exists k :: IsFirstWithKey(histories, k, positionId, employeeId)
                                         && Some(r.value) == PositionHistoryFromDb(Some(histories[k]))
    {
      match FirstIndex(histories, (h: PositionHistoryDb) => h.positionId == positionId && h.employeeId == employeeId)
      case None => Failure(PositionHistoryNotFound)
      case Some(k) =>
        assert IsFirstWithKey(histories, k, positionId, employeeId);
        Success(PositionHistoryFromDb(Some(histories[k])).value)
    }

    /** UpdatePositionHistoryAsync: overwrites the supplied dates of the first record with the
        key; every other record, and the key itself, stay as they were. */
    method UpdatePositionHistory(u: UpdatePositionHistory) returns (r: Result<BasePositionHistory>)
      modifies this
      ensures r.Failure? <==> !HasKey(old(histories), u.positionId, u.employeeId)
      ensures r.Failure? ==> r == Failure(PositionHistoryNotFound) && histories == old(histories)
      ensures r.Success? ==>
                exists k :: IsFirstWithKey(old(histories), k, u.positionId, u.employeeId)
                            && histories == old(histories)[k := ApplyPositionHistoryUpdate(old(histories)[k], u)]
                            && Some(r.value) == PositionHistoryFromDb(Some(histories[k]))
    {
      var found := FirstIndex(histories, (h: PositionHistoryDb) => h.positionId == u.positionId && h.employeeId == u.employeeId);
      if found.None? {
        return Failure(PositionHistoryNotFound);
      }
      var k := found.value;
      assert IsFirstWithKey(histories, k, u.positionId, u.employeeId);
      histories := histories[k := ApplyPositionHistoryUpdate(histories[k], u)];
      r := Success(PositionHistoryFromDb(Some(histories[k])).value);
    }

    /** DeletePositionHistoryAsync: removes the first record with the key. */
    method DeletePositionHistory(positionId: Guid, employeeId: Guid) returns (r: Result<()>)
      modifies this
      ensures r.Failure? <==> !HasKey(old(histories), positionId, employeeId)
      ensures r.Failure? ==> r == Failure(PositionHistoryNotFound) && histories == old(histories)
      ensures r.Success? ==>
                exists k :: IsFirstWithKey(old(histories), k, positionId, employeeId)
                            && histories == RemoveAt(old(histories), k)
                            && multiset(histories) + multiset{old(histories)[k]} == multiset(old(histories))
    {
      var found := FirstIndex(histories, (h: PositionHistoryDb) => h.positionId == positionId && h.employeeId == employeeId);
      if found.None? {
        return Failure(PositionHistoryNotFound);
      }
      var k := found.value;
      assert IsFirstWithKey(histories, k, positionId, employeeId);
      RemoveAtMultiset(histories, k);
      histories := RemoveAt(histories, k);
      r := Success(());
    }

    /** GetPositionHistoryByEmployeeIdAsync: the employee's records in the window, latest start
        first, one page of them; the page counts every record in the window. */
    function GetPositionHistoryByEmployeeId(employeeId: Guid, pageNumber: int, pageSize: nat,
                                            start: Option<Date>, end: Option<Date>, today: Date)
      : (r: Paged<PositionHistoryDb>)
      reads this
      requires pageSize > 0
      ensures r.page == PageFor(pageNumber, |EmployeeHistory(histories, employeeId, start, end, today)|, pageSize)
      ensures r.items == Slice(OrderByStartDescending(EmployeeHistory(histories, employeeId, start, end, today)),
                               pageNumber, pageSize)
      ensures forall x :: x in r.items ==>
                x in histories && x.employeeId == employeeId && InWindow(x.endDate, start, end, today)
    {
      var rows := EmployeeHistory(histories, employeeId, start, end, today);
      var ordered := OrderByStartDescending(rows);
      forall x | x in ordered ensures x in rows {
        assert x in multiset(ordered);
      }
      Paginate(ordered, pageNumber, pageSize)
    }

    /** GetCurrentEmployeePositionByEmployeeIdAsync: the first record of the employee with no end
        date, or PositionHistoryNotFound. */
    function GetCurrentEmployeePosition(employeeId: Guid): (r: Result<BasePositionHistory>)
      reads this
      ensures r.Failure? <==> forall i :: 0 <= i < |histories| ==> !(histories[i].employeeId == employeeId && histories[i].endDate.None?)
      ensures r.Failure? ==> r.error == PositionHistoryNotFound
      ensures r.Success? ==> r.value.employeeId == employeeId && r.value.endDate.None?
      ensures r.Success? ==> exists k :: 0 <= k < |histories| && Some(r.value) == PositionHistoryFromDb(Some(histories[k]))
                                         && forall j :: 0 <= j < k ==> !(histories[j].employeeId == employeeId && histories[j].endDate.None?)
    {
      match FirstIndex(histories, (h: PositionHistoryDb) => h.employeeId == employeeId && h.endDate.None?)
      case None => Failure(PositionHistoryNotFound)
      case Some(k) => Success(PositionHistoryFromDb(Some(histories[k])).value)
    }

    /** GetCurrentSubordinatesPositionHistoryAsync: the records, in the window, of every employee
        among the current-subordinate rows (the manager's own row included), in table order with
        no sorting, one page of them. */
    function GetCurrentSubordinatesPositionHistory(subordinates: seq<PositionHierarchyWithEmployeeIdDb>,
                                                   pageNumber: int, pageSize: nat,
                                                   start: Option<Date>, end: Option<Date>, today: Date)
      : (r: Paged<PositionHistoryDb>)
      reads this
      requires pageSize > 0
      ensures r.page == PageFor(pageNumber, |HoldersHistory(histories, HolderIds(subordinates), start, end, today)|, pageSize)
      ensures r.items == Slice(HoldersHistory(histories, HolderIds(subordinates), start, end, today), pageNumber, pageSize)
      ensures forall x :: x in r.items ==>
                x in histories && InWindow(x.endDate, start, end, today)
                && exists i :: 0 <= i < |subordinates| && subordinates[i].employeeId == x.employeeId
    {
      Paginate(HoldersHistory(histories, HolderIds(subordinates), start, end, today), pageNumber, pageSize)
    }
  }

  /** GetCurrentSubordinatesAsync over the rows `subordinates` the closure function returned:
      ordered by level then title, then one page of them. */
  function GetCurrentSubordinates(subordinates: seq<PositionHierarchyWithEmployeeIdDb>, pageNumber: int, pageSize: nat)
    : (r: Paged<PositionHierarchyWithEmployeeIdDb>)
    requires pageSize > 0
    ensures r.page == PageFor(pageNumber, |subordinates|, pageSize)
    ensures r.items == Slice(OrderWithEmployeeByLevelThenTitle(subordinates), pageNumber, pageSize)
    ensures forall x :: x in r.items ==> x in subordinates
  {
    var ordered := OrderWithEmployeeByLevelThenTitle(subordinates);
    forall x | x in ordered ensures x in subordinates {
      assert x in multiset(ordered);
    }
    Paginate(ordered, pageNumber, pageSize)
  }

  /** The manager's own row counts: four positions held (the manager's and three below it)
      fit on one page of any size from four up. */
  lemma {:induction false} FourHoldersOnOnePage(subordinates: seq<PositionHierarchyWithEmployeeIdDb>, pageSize: nat)
    requires |subordinates| == 4 && pageSize >= 4
    ensures GetCurrentSubordinates(subordinates, 1, pageSize).page == Page(1, 1, 4)
    ensures |GetCurrentSubordinates(subordinates, 1, pageSize).items| == 4
  {
    var c := CeilDiv(4, pageSize);
    if c > 1 {
      MulMonotone(1, c - 1, pageSize);
    }
  }
}
