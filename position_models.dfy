/** Positions: the stored record `PositionDb` with its validating constructor, the core
    models `Position` and `CreatePosition`, the hierarchy rows the sub-tree queries return,
    and the converters between them. A converter takes and returns `Option` values
    because every overload maps `null` to `null`. */
module PositionModels {
  import opened Common

  /** PositionDb.cs: a node of a company's reporting-line forest; an absent parent marks a root. */
  datatype PositionDb = PositionDb(id: Guid, parentId: Option<Guid>, title: string, companyId: Guid)

  /** The validating constructor of PositionDb. Its three `Guid.TryParse(g.ToString())` checks
      accept every Guid, so only a blank title is refused. */
  function NewPositionDb(id: Guid, parentId: Option<Guid>, title: string, companyId: Guid): (r: Result<PositionDb>)
    ensures r.Success? <==> !IsBlank(title)
    ensures r.Failure? ==> r.error == InvalidArgument("title")
    ensures r.Success? ==> (r.value.id == id && r.value.parentId == parentId
                            && r.value.title == title && r.value.companyId == companyId)
  {
    if IsBlank(title) then Failure(InvalidArgument("title"))
    else Success(PositionDb(id, parentId, title, companyId))
  }

  /** A position as the core sees it: a missing parent reads as `Guid.Empty`. */
  datatype Position = Position(id: Guid, parentId: Guid, title: string, companyId: Guid)

  /** A request to create a position, with an optional parent. */
  datatype CreatePosition = CreatePosition(parentId: Option<Guid>, title: string, companyId: Guid)

  /** PositionConverter, CreatePosition overload: a fresh id, the rest copied, through the
      validating constructor. */
  function PositionDbFromCreate(c: Option<CreatePosition>, freshId: Guid): (r: Result<Option<PositionDb>>)
    ensures c.None? ==> r == Success(None)
    ensures c.Some? ==> (r.Success? <==> !IsBlank(c.value.title))
    ensures r.Failure? ==> r.error == InvalidArgument("title")
    ensures c.Some? && r.Success? ==> r.value == Some(PositionDb(freshId, c.value.parentId, c.value.title, c.value.companyId))
  {
    match c
    case None => Success(None)
    case Some(p) =>
      match NewPositionDb(freshId, p.parentId, p.title, p.companyId)
      case Failure(e) => Failure(e)
      case Success(d) => Success(Some(d))
  }

  /** PositionConverter, Position overload: the id is kept, and the parent is always present
      (possibly as `Guid.Empty`) because the core parent is not nullable. */
  function PositionDbFromPosition(p: Option<Position>): (r: Result<Option<PositionDb>>)
    ensures p.None? ==> r == Success(None)
    ensures p.Some? ==> (r.Success? <==> !IsBlank(p.value.title))
    ensures p.Some? && r.Success? ==> r.value == Some(PositionDb(p.value.id, Some(p.value.parentId), p.value.title, p.value.companyId))
  {
    match p
    case None => Success(None)
    case Some(q) =>
      match NewPositionDb(q.id, Some(q.parentId), q.title, q.companyId)
      case Failure(e) => Failure(e)
      case Success(d) => Success(Some(d))
  }

  /** PositionConverter, PositionDb overload: an absent parent becomes `Guid.Empty`. */
  function PositionFromDb(d: Option<PositionDb>): (r: Option<Position>)
    ensures r.None? <==> d.None?
    ensures d.Some? ==> r.value.id == d.value.id && r.value.title == d.value.title && r.value.companyId == d.value.companyId
    ensures d.Some? ==> r.value.parentId == if d.value.parentId.Some? then d.value.parentId.value else EmptyGuid
  {
    match d
    case None => None
    case Some(x) => Some(Position(x.id, Coalesce(x.parentId, EmptyGuid), x.title, x.companyId))
  }

  /** Position -> PositionDb -> Position gives the position back whenever its title is not blank. */
  lemma {:induction false} PositionRoundTrip(p: Position)
    requires !IsBlank(p.title)
    ensures PositionDbFromPosition(Some(p)).Success?
    ensures PositionFromDb(PositionDbFromPosition(Some(p)).value) == Some(p)
  {
    var d := PositionDbFromPosition(Some(p));
    assert d.value == Some(PositionDb(p.id, Some(p.parentId), p.title, p.companyId));
  }

  /** PositionDb -> Position -> PositionDb is the identity exactly when the record has a parent
      and a non-blank title: a root comes back with `Guid.Empty` as an explicit parent. */
  lemma {:induction false} PositionDbRoundTrip(d: PositionDb)
    ensures PositionDbFromPosition(PositionFromDb(Some(d))) == Success(Some(d)) <==>
              d.parentId.Some? && !IsBlank(d.title)
  {
    var p := PositionFromDb(Some(d)).value;
    if !IsBlank(d.title) {
      assert PositionDbFromPosition(Some(p)).value == Some(PositionDb(d.id, Some(p.parentId), d.title, d.companyId));
    }
  }

  /** A root read back and written again has `Guid.Empty` as its parent. */
  lemma RootComesBackWithEmptyParent(d: PositionDb)
    requires d.parentId.None? && !IsBlank(d.title)
    ensures PositionDbFromPosition(PositionFromDb(Some(d))) == Success(Some(d.(parentId := Some(EmptyGuid))))
  {
  }

  // ----- Hierarchy rows -----

  /** PositionHierarchyDb.cs: one row of a sub-tree query, with its depth below the query root. */
  datatype PositionHierarchyDb = PositionHierarchyDb(positionId: Guid, parentId: Option<Guid>, title: string, level: int)

  /** The core hierarchy row `PositionHierarchy`. */
  datatype PositionHierarchy = PositionHierarchy(positionId: Guid, parentId: Option<Guid>, title: string, level: int)

  /** PositionHierarchyWithEmployeeIdDb.cs: a row of the current-subordinates query, carrying
      the employee who holds the position. */
  datatype PositionHierarchyWithEmployeeIdDb =
    PositionHierarchyWithEmployeeIdDb(employeeId: Guid, positionId: Guid, parentId: Option<Guid>, title: string, level: int)

  /** PositionHierarchyConverter, core-to-record overload. */
  function HierarchyDbFromCore(h: Option<PositionHierarchy>): (r: Option<PositionHierarchyDb>)
    ensures r.None? <==> h.None?
    ensures h.Some? ==> (r.value.positionId == h.value.positionId && r.value.parentId == h.value.parentId
                         && r.value.title == h.value.title && r.value.level == h.value.level)
  {
    match h
    case None => None
    case Some(x) => Some(PositionHierarchyDb(x.positionId, x.parentId, x.title, x.level))
  }

  /** PositionHierarchyConverter, record-to-core overload. */
  function HierarchyFromDb(d: Option<PositionHierarchyDb>): (r: Option<PositionHierarchy>)
    ensures r.None? <==> d.None?
    ensures d.Some? ==> (r.value.positionId == d.value.positionId && r.value.parentId == d.value.parentId
                         && r.value.title == d.value.title && r.value.level == d.value.level)
  {
    match d
    case None => None
    case Some(x) => Some(PositionHierarchy(x.positionId, x.parentId, x.title, x.level))
  }

  /** The two hierarchy converters are inverse to each other, so no field, the level included, is lost. */
  lemma HierarchyRoundTrips(h: Option<PositionHierarchy>, d: Option<PositionHierarchyDb>)
    ensures HierarchyFromDb(HierarchyDbFromCore(h)) == h
    ensures HierarchyDbFromCore(HierarchyFromDb(d)) == d
  {
  }
}
