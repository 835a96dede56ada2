/** PositionRepository: the table of positions with add, get, update and delete, and the
    sub-tree query. The table is the sequence `positions`; a lookup is LINQ `FirstOrDefault`,
    the first matching row. The sub-tree rows the database's recursive function returns are a
    parameter of the query. */
module PositionStore {
  import opened Common
  import opened Sequences
  import opened Paging
  import opened PositionModels
  import opened Hierarchy

  /** The core `UpdatePosition`: the key (id and company) and the fields to replace, each optional. */
  datatype UpdatePosition = UpdatePosition(id: Guid, companyId: Guid, parentId: Option<Guid>, title: Option<string>)

  /** No two positions share an id. */
  predicate IdsUnique(s: seq<PositionDb>)
  {
    forall i, j :: (0 <= i < |s| && 0 <= j < |s| && s[i].id == s[j].id) ==> i == j
  }

  /** No two positions of one company share a title. */
  predicate TitlesUnique(s: seq<PositionDb>)
  {
    forall i, j :: (0 <= i < |s| && 0 <= j < |s| && i != j && s[i].companyId == s[j].companyId)
                   ==> s[i].title != s[j].title
  }

  /** Some position of `companyId` is titled `title` (the duplicate check of Add). */
  predicate TitleInCompany(s: seq<PositionDb>, companyId: Guid, title: string)
  {
    exists i :: 0 <= i < |s| && s[i].companyId == companyId && s[i].title == title
  }

  /** Some position other than `u.id`, in `u`'s company, already has the requested title. An
      absent title compares as SQL `NULL` and matches no stored title, so it never conflicts. */
  predicate TitleTakenByOther(s: seq<PositionDb>, u: UpdatePosition)
  {
    exists i :: 0 <= i < |s| && s[i].id != u.id && s[i].companyId == u.companyId && Some(s[i].title) == u.title
  }

  /** `k` is the first row with id `id` and company `companyId`. */
  predicate IsFirstWithKey(s: seq<PositionDb>, k: int, id: Guid, companyId: Guid)
  {
    0 <= k < |s| && s[k].id == id && s[k].companyId == companyId
    && forall j :: 0 <= j < k ==> !(s[j].id == id && s[j].companyId == companyId)
  }

  /** `k` is the first row with id `id`. */
  predicate IsFirstWithId(s: seq<PositionDb>, k: int, id: Guid)
  {
    0 <= k < |s| && s[k].id == id && forall j :: 0 <= j < k ==> s[j].id != id
  }

  /** What an update writes into the stored record: the supplied title and parent, each only
      when present; id and company are never touched and no cycle check is made. */
  function ApplyPositionUpdate(d: PositionDb, u: UpdatePosition): (r: PositionDb)
    ensures r.id == d.id && r.companyId == d.companyId
    ensures u.title.Some? ==> r.title == u.title.value
    ensures u.title.None? ==> r.title == d.title
    ensures u.parentId.Some? ==> r.parentId == u.parentId
    ensures u.parentId.None? ==> r.parentId == d.parentId
  {
    d.(title := Coalesce(u.title, d.title), parentId := if u.parentId.Some? then u.parentId else d.parentId)
  }

  /** An update that supplies nothing leaves the record as it was, and applying an update a
      second time changes nothing more. */
  lemma PositionUpdateLaws(d: PositionDb, u: UpdatePosition)
    ensures u.title.None? && u.parentId.None? ==> ApplyPositionUpdate(d, u) == d
    ensures ApplyPositionUpdate(ApplyPositionUpdate(d, u), u) == ApplyPositionUpdate(d, u)
  {
  }

  /** Appending a position whose title is new in its company keeps titles unique; appending one
      with a fresh id keeps ids unique. */
  lemma {:induction false} AppendKeepsUniqueness(s: seq<PositionDb>, d: PositionDb)
    ensures TitlesUnique(s) && !TitleInCompany(s, d.companyId, d.title) ==> TitlesUnique(s + [d])
    ensures IdsUnique(s) && (forall i :: 0 <= i < |s| ==> s[i].id != d.id) ==> IdsUnique(s + [d])
  {
    var t := s + [d];
    if TitlesUnique(s) && !TitleInCompany(s, d.companyId, d.title) {
      forall i, j | 0 <= i < |t| && 0 <= j < |t| && i != j && t[i].companyId == t[j].companyId
        ensures t[i].title != t[j].title
      {
        if i == |s| {
          assert !(s[j].companyId == d.companyId && s[j].title == d.title);
        } else if j == |s| {
          assert !(s[i].companyId == d.companyId && s[i].title == d.title);
        }
      }
    }
  }

  /** An update that passed both of its checks keeps ids and titles unique. */
  lemma {:induction false} UpdateKeepsUniqueness(s: seq<PositionDb>, k: int, u: UpdatePosition)
    requires IdsUnique(s) && TitlesUnique(s)
    requires IsFirstWithKey(s, k, u.id, u.companyId)
    requires !TitleTakenByOther(s, u)
    ensures IdsUnique(s[k := ApplyPositionUpdate(s[k], u)])
    ensures TitlesUnique(s[k := ApplyPositionUpdate(s[k], u)])
  {
    var t := s[k := ApplyPositionUpdate(s[k], u)];
    forall i, j | 0 <= i < |t| && 0 <= j < |t| && i != j && t[i].companyId == t[j].companyId
      ensures t[i].title != t[j].title
    {
      if i == k && u.title.Some? {
        assert !(s[j].id != u.id && s[j].companyId == u.companyId && Some(s[j].title) == u.title);
      } else if j == k && u.title.Some? {
        assert !(s[i].id != u.id && s[i].companyId == u.companyId && Some(s[i].title) == u.title);
      }
    }
  }

  /** Removing a row keeps ids and titles unique. */
  lemma {:induction false} RemoveKeepsUniqueness(s: seq<PositionDb>, k: nat)
    requires k < |s|
    ensures IdsUnique(s) ==> IdsUnique(RemoveAt(s, k))
    ensures TitlesUnique(s) ==> TitlesUnique(RemoveAt(s, k))
  {
    var t := RemoveAt(s, k);
    if IdsUnique(s) {
      forall i, j | 0 <= i < |t| && 0 <= j < |t| && t[i].id == t[j].id ensures i == j {
        var i' := if i < k then i else i + 1;
        var j' := if j < k then j else j + 1;
        assert s[i'].id == s[j'].id;
      }
    }
    if TitlesUnique(s) {
      forall i, j | 0 <= i < |t| && 0 <= j < |t| && i != j && t[i].companyId == t[j].companyId
        ensures t[i].title != t[j].title
      {
        var i' := if i < k then i else i + 1;
        var j' := if j < k then j else j + 1;
        assert t[i] == s[i'] && t[j] == s[j'];
      }
    }
  }

  class PositionRepository {
    var positions: seq<PositionDb>

    constructor(initial: seq<PositionDb>)
      ensures positions == initial
    {
      positions := initial;
    }

    /** AddPositionAsync: converts the request (a null request or a blank title is an
        ArgumentException), refuses a title already used in the company, and otherwise appends
        the new record with the fresh id. */
    method AddPosition(position: Option<CreatePosition>, freshId: Guid) returns (r: Result<Position>)
      modifies this
      ensures position.None? ==> r == Failure(InvalidArgument("position")) && positions == old(positions)
      ensures position.Some? && IsBlank(position.value.title) ==>
                r == Failure(InvalidArgument("title")) && positions == old(positions)
      ensures position.Some? && !IsBlank(position.value.title)
              && TitleInCompany(old(positions), position.value.companyId, position.value.title) ==>
                r == Failure(PositionAlreadyExists) && positions == old(positions)
      ensures r.Success? <==> position.Some? && !IsBlank(position.value.title)
                              && !TitleInCompany(old(positions), position.value.companyId, position.value.title)
      ensures r.Success? ==>
                var d := PositionDb(freshId, position.value.parentId, position.value.title, position.value.companyId);
                positions == old(positions) + [d] && Some(r.value) == PositionFromDb(Some(d))
      ensures old(TitlesUnique(positions)) ==> TitlesUnique(positions)
      ensures old(IdsUnique(positions)) && (forall i :: 0 <= i < |old(positions)| ==> old(positions)[i].id != freshId)
              ==> IdsUnique(positions)
    {
      var converted := PositionDbFromCreate(position, freshId);
      if converted.Failure? {
        return Failure(converted.error);
      }
      if converted.value.None? {
        return Failure(InvalidArgument("position"));
      }
      var d := converted.value.value;
      var existing := FirstIndex(positions, (p: PositionDb) => p.companyId == d.companyId && p.title == d.title);
      if existing.Some? {
        return Failure(PositionAlreadyExists);
      }
      AppendKeepsUniqueness(positions, d);
      positions := positions + [d];
      r := Success(PositionFromDb(Some(d)).value);
    }

    /** GetPositionByIdAsync: the first position with the id, or PositionNotFound. */
    function GetPositionById(id: Guid): (r: Result<Position>)
      reads this
      ensures r.Failure? <==> forall i :: 0 <= i < |positions| ==> positions[i].id != id
      ensures r.Failure? ==> r.error == PositionNotFound
      ensures r.Success? ==> exists k :: IsFirstWithId(positions, k, id) && Some(r.value) == PositionFromDb(Some(positions[k]))
    {
      match FirstIndex(positions, (p: PositionDb) => p.id == id)
      case None => Failure(PositionNotFound)
      case Some(k) =>
        assert IsFirstWithId(positions, k, id);
        Success(PositionFromDb(Some(positions[k])).value)
    }

    /** UpdatePositionAsync: the record is looked up by id and company; a title used by another
        position of the company is refused; then the supplied title and parent are written. */
    method UpdatePosition(u: UpdatePosition) returns (r: Result<Position>)
      modifies this
      ensures (forall k :: !IsFirstWithKey(old(positions), k, u.id, u.companyId)) ==>
                r == Failure(PositionNotFound) && positions == old(positions)
      ensures (exists k :: IsFirstWithKey(old(positions), k, u.id, u.companyId)) && TitleTakenByOther(old(positions), u) ==>
                r == Failure(PositionAlreadyExists) && positions == old(positions)
      ensures r.Success? <==> (exists k :: IsFirstWithKey(old(positions), k, u.id, u.companyId))
                              && !TitleTakenByOther(old(positions), u)
      ensures r.Success? ==>
                exists k :: IsFirstWithKey(old(positions), k, u.id, u.companyId)
                            && positions == old(positions)[k := ApplyPositionUpdate(old(positions)[k], u)]
                            && Some(r.value) == PositionFromDb(Some(positions[k]))
      ensures old(IdsUnique(positions) && TitlesUnique(positions)) ==> IdsUnique(positions) && TitlesUnique(positions)
    {
      var found := FirstIndex(positions, (p: PositionDb) => p.id == u.id && p.companyId == u.companyId);
      if found.None? {
        forall k ensures !IsFirstWithKey(positions, k, u.id, u.companyId) {
        }
        return Failure(PositionNotFound);
      }
      var k := found.value;
      assert IsFirstWithKey(positions, k, u.id, u.companyId);
      var other := FirstIndex(positions, (p: PositionDb) => p.id != u.id && p.companyId == u.companyId && Some(p.title) == u.title);
      if other.Some? {
        return Failure(PositionAlreadyExists);
      }
      if IdsUnique(positions) && TitlesUnique(positions) {
        UpdateKeepsUniqueness(positions, k, u);
      }
      positions := positions[k := ApplyPositionUpdate(positions[k], u)];
      r := Success(PositionFromDb(Some(positions[k])).value);
    }

    /** DeletePositionAsync: removes the first position with the id, or fails with PositionNotFound. */
    method DeletePosition(id: Guid) returns (r: Result<()>)
      modifies this
      ensures r.Failure? <==> forall i :: 0 <= i < |old(positions)| ==> old(positions)[i].id != id
      ensures r.Failure? ==> r.error == PositionNotFound && positions == old(positions)
      ensures r.Success? ==> exists k :: IsFirstWithId(old(positions), k, id) && positions == RemoveAt(old(positions), k)
                                         && multiset(positions) + multiset{old(positions)[k]} == multiset(old(positions))
      ensures old(IdsUnique(positions)) ==> IdsUnique(positions)
      ensures old(TitlesUnique(positions)) ==> TitlesUnique(positions)
    {
      var found := FirstIndex(positions, (p: PositionDb) => p.id == id);
      if found.None? {
        return Failure(PositionNotFound);
      }
      var k := found.value;
      assert IsFirstWithId(positions, k, id);
      RemoveAtMultiset(positions, k);
      RemoveKeepsUniqueness(positions, k);
      positions := RemoveAt(positions, k);
      r := Success(());
    }
  }

  /** GetSubordinatesAsync over the rows `subtree` the closure function returned: ordered by
      level then title, then sliced; the page counts every row of the sub-tree. */
  function GetSubordinates(subtree: seq<PositionHierarchyDb>, pageNumber: int, pageSize: nat)
    : (r: Paged<PositionHierarchyDb>)
    requires pageSize > 0
    ensures r.page == PageFor(pageNumber, |subtree|, pageSize)
    ensures r.items == Slice(OrderByLevelThenTitle(subtree), pageNumber, pageSize)
    ensures forall x :: x in r.items ==> x in subtree
    ensures forall i, j :: 0 <= i < j < |r.items| ==> r.items[i].level <= r.items[j].level
  {
    var ordered := OrderByLevelThenTitle(subtree);
    var r := Paginate(ordered, pageNumber, pageSize);
    forall x | x in r.items ensures x in subtree {
      assert x in multiset(ordered);
    }
    SliceKeepsOrder(ordered, pageNumber, pageSize);
    r
  }

  /** A page of a level-ordered sequence is level-ordered. */
  lemma {:induction false} SliceKeepsOrder(s: seq<PositionHierarchyDb>, pageNumber: int, pageSize: nat)
    requires forall i, j :: 0 <= i < j < |s| ==> s[i].level <= s[j].level
    ensures var p := Slice(s, pageNumber, pageSize);
            forall i, j :: 0 <= i < j < |p| ==> p[i].level <= p[j].level
  {
    var skip := (pageNumber - 1) * pageSize;
    var rest := Skip(s, skip);
    assert forall i, j :: 0 <= i < j < |rest| ==> rest[i].level <= rest[j].level by {
      if 0 < skip < |s| {
        forall i, j | 0 <= i < j < |rest| ensures rest[i].level <= rest[j].level {
          assert rest[i] == s[skip + i] && rest[j] == s[skip + j];
        }
      }
    }
  }

  /** The first page of a sub-tree starts with its head, at level 0. */
  lemma HeadOpensFirstPage(subtree: seq<PositionHierarchyDb>, head: Guid, pageSize: nat)
    requires pageSize > 0
    requires IsSubtreeOf(subtree, head)
    ensures var p := GetSubordinates(subtree, 1, pageSize);
            |p.items| > 0 && p.items[0].positionId == head && p.items[0].level == 0 && !p.page.HasPreviousPage()
  {
    HeadSortsFirst(subtree, head);
  }

  /** A head with fifteen children (sixteen rows) in pages of five: 16 items, 4 pages, and the
      first two pages full. */
  lemma SixteenRowsInPagesOfFive(subtree: seq<PositionHierarchyDb>)
    requires |subtree| == 16
    ensures GetSubordinates(subtree, 1, 5).page.totalItems == 16
    ensures GetSubordinates(subtree, 1, 5).page.totalPages == 4
    ensures |GetSubordinates(subtree, 1, 5).items| == 5 && |GetSubordinates(subtree, 2, 5).items| == 5
  {
    assert CeilDiv(16, 5) == 4;
  }

  /** The five rows `GetSubordinatesById` returns for CEO in the sub-tree test: CEO over CTO
      and CFO, CTO over Team Lead and Architect. */
  function CeoSubtree(): seq<PositionHierarchyDb>
  {
    [PositionHierarchyDb(Guid(1), None, "CEO", 0),
     PositionHierarchyDb(Guid(2), Some(Guid(1)), "CTO", 1),
     PositionHierarchyDb(Guid(3), Some(Guid(1)), "CFO", 1),
     PositionHierarchyDb(Guid(4), Some(Guid(2)), "Team Lead", 2),
     PositionHierarchyDb(Guid(5), Some(Guid(2)), "Architect", 2)]
  }

  /** The same rows in level-then-title order. */
  function CeoSubtreeOrdered(): seq<PositionHierarchyDb>
  {
    var s := CeoSubtree();
    [s[0], s[2], s[1], s[4], s[3]]
  }

  lemma {:induction false} CeoSubtreeOrderedIsSorted()
    ensures forall i, j :: 0 <= i < j < |CeoSubtreeOrdered()| ==> HierarchyLe(CeoSubtreeOrdered()[i], CeoSubtreeOrdered()[j])
  {
    var e := CeoSubtreeOrdered();
    assert TitleLe("FO", "TO");
    assert TitleLe("CFO", "CTO");
    assert TitleLe("Architect", "Team Lead");
    assert HierarchyLe(e[1], e[2]);
    assert HierarchyLe(e[3], e[4]);
  }

  /** The rows of the test form CEO's sub-tree. */
  lemma CeoSubtreeShape()
    ensures IsSubtreeOf(CeoSubtree(), Guid(1))
  {
    var rows := CeoSubtree();
    assert rows[0].positionId == Guid(1) && rows[0].level == 0;
    assert rows[1].parentId == Some(rows[0].positionId);
    assert rows[2].parentId == Some(rows[0].positionId);
    assert rows[3].parentId == Some(rows[1].positionId);
    assert rows[4].parentId == Some(rows[1].positionId);
  }

  lemma CeoSubtreeDistinct()
    ensures DistinctLevelTitles(CeoSubtree())
    ensures multiset(CeoSubtreeOrdered()) == multiset(CeoSubtree())
  {
    CeoTitlesDistinct();
    CeoSubtreePermutation();
  }

  lemma CeoTitlesDistinct()
    ensures DistinctLevelTitles(CeoSubtree())
  {
    var rows := CeoSubtree();
    assert "CTO" != "CFO" by { assert "CTO"[1] != "CFO"[1]; }
    assert "Team Lead" != "Architect" by { assert "Team Lead"[0] != "Architect"[0]; }
    forall i, j | 0 <= i < |rows| && 0 <= j < |rows| && rows[i].level == rows[j].level
                  && rows[i].title == rows[j].title
      ensures rows[i] == rows[j]
    {
      assert i == j || i + j == 3 || i + j == 7;
    }
  }

  lemma CeoSubtreePermutation()
    ensures multiset(CeoSubtreeOrdered()) == multiset(CeoSubtree())
  {
    var rows := CeoSubtree();
    assert rows == [rows[0], rows[1], rows[2], rows[3], rows[4]];
    assert CeoSubtreeOrdered() == [rows[0], rows[2], rows[1], rows[4], rows[3]];
  }

  /** The sub-tree of the test comes back in the order CEO, CFO, CTO, Architect, Team Lead, all
      on one page of ten. */
  lemma CeoSubtreeOrder()
    ensures GetSubordinates(CeoSubtree(), 1, 10).items == CeoSubtreeOrdered()
    ensures GetSubordinates(CeoSubtree(), 1, 10).page == Page(1, 1, 5)
  {
    CeoSubtreeDistinct();
    CeoSubtreeOrderedIsSorted();
    OrderIsDetermined(CeoSubtree(), CeoSubtreeOrdered());
    assert CeilDiv(5, 10) == 1;
  }
}
