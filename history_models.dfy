/** Assignment intervals: an employee holding a position (`PositionHistoryDb`) or a pay grade
    (`PostHistoryDb`) from a start date to an optional end date, with the core models and
    converters of both. The two dimensions have the same shape and are kept apart as the
    source keeps them. */
module HistoryModels {
  import opened Common

  /** PositionHistoryDb.cs: an absent end date marks the current assignment. */
  datatype PositionHistoryDb = PositionHistoryDb(positionId: Guid, employeeId: Guid, startDate: Date, endDate: Option<Date>)

  /** The core `BasePositionHistory`. */
  datatype BasePositionHistory = BasePositionHistory(positionId: Guid, employeeId: Guid, startDate: Date, endDate: Option<Date>)

  /** The core `CreatePositionHistory`; its own checks are not part of this model. */
  datatype CreatePositionHistory = CreatePositionHistory(positionId: Guid, employeeId: Guid, startDate: Date, endDate: Option<Date>)

  /** The core `UpdatePositionHistory`: the key and the dates to overwrite, each optional. */
  datatype UpdatePositionHistory = UpdatePositionHistory(positionId: Guid, employeeId: Guid, startDate: Option<Date>, endDate: Option<Date>)

  /** PositionHistoryConverter, CreatePositionHistory overload. */
  function PositionHistoryDbFromCreate(c: Option<CreatePositionHistory>): (r: Option<PositionHistoryDb>)
    ensures r.None? <==> c.None?
    ensures c.Some? ==> (r.value.positionId == c.value.positionId && r.value.employeeId == c.value.employeeId
                         && r.value.startDate == c.value.startDate && r.value.endDate == c.value.endDate)
  {
    match c
    case None => None
    case Some(x) => Some(PositionHistoryDb(x.positionId, x.employeeId, x.startDate, x.endDate))
  }

  /** PositionHistoryConverter, BasePositionHistory overload. */
  function PositionHistoryDbFromBase(b: Option<BasePositionHistory>): (r: Option<PositionHistoryDb>)
    ensures r.None? <==> b.None?
    ensures b.Some? ==> (r.value.positionId == b.value.positionId && r.value.employeeId == b.value.employeeId
                         && r.value.startDate == b.value.startDate && r.value.endDate == b.value.endDate)
  {
    match b
    case None => None
    case Some(x) => Some(PositionHistoryDb(x.positionId, x.employeeId, x.startDate, x.endDate))
  }

  /** PositionHistoryConverter, PositionHistoryDb overload. */
  function PositionHistoryFromDb(d: Option<PositionHistoryDb>): (r: Option<BasePositionHistory>)
    ensures r.None? <==> d.None?
    ensures d.Some? ==> (r.value.positionId == d.value.positionId && r.value.employeeId == d.value.employeeId
                         && r.value.startDate == d.value.startDate && r.value.endDate == d.value.endDate)
  {
    match d
    case None => None
    case Some(x) => Some(BasePositionHistory(x.positionId, x.employeeId, x.startDate, x.endDate))
  }

  /** Base -> record -> Base, and record -> Base -> record, are the identity. */
  lemma PositionHistoryRoundTrips(b: Option<BasePositionHistory>, d: Option<PositionHistoryDb>)
    ensures PositionHistoryFromDb(PositionHistoryDbFromBase(b)) == b
    ensures PositionHistoryDbFromBase(PositionHistoryFromDb(d)) == d
  {
  }

  /** PostHistoryDb.cs */
  datatype PostHistoryDb = PostHistoryDb(postId: Guid, employeeId: Guid, startDate: Date, endDate: Option<Date>)

  /** The core `BasePostHistory`. */
  datatype BasePostHistory = BasePostHistory(postId: Guid, employeeId: Guid, startDate: Date, endDate: Option<Date>)

  /** The core `CreatePostHistory`; its own checks are not part of this model. */
  datatype CreatePostHistory = CreatePostHistory(postId: Guid, employeeId: Guid, startDate: Date, endDate: Option<Date>)

  /** The core `UpdatePostHistory`. */
  datatype UpdatePostHistory = UpdatePostHistory(postId: Guid, employeeId: Guid, startDate: Option<Date>, endDate: Option<Date>)

  /** PostHistoryConverter, CreatePostHistory overload. */
  function PostHistoryDbFromCreate(c: Option<CreatePostHistory>): (r: Option<PostHistoryDb>)
    ensures r.None? <==> c.None?
    ensures c.Some? ==> (r.value.postId == c.value.postId && r.value.employeeId == c.value.employeeId
                         && r.value.startDate == c.value.startDate && r.value.endDate == c.value.endDate)
  {
    match c
    case None => None
    case Some(x) => Some(PostHistoryDb(x.postId, x.employeeId, x.startDate, x.endDate))
  }

  /** PostHistoryConverter, BasePostHistory overload. */
  function PostHistoryDbFromBase(b: Option<BasePostHistory>): (r: Option<PostHistoryDb>)
    ensures r.None? <==> b.None?
    ensures b.Some? ==> (r.value.postId == b.value.postId && r.value.employeeId == b.value.employeeId
                         && r.value.startDate == b.value.startDate && r.value.endDate == b.value.endDate)
  {
    match b
    case None => None
    case Some(x) => Some(PostHistoryDb(x.postId, x.employeeId, x.startDate, x.endDate))
  }

  /** PostHistoryConverter, PostHistoryDb overload. */
  function PostHistoryFromDb(d: Option<PostHistoryDb>): (r: Option<BasePostHistory>)
    ensures r.None? <==> d.None?
    ensures d.Some? ==> (r.value.postId == d.value.postId && r.value.employeeId == d.value.employeeId
                         && r.value.startDate == d.value.startDate && r.value.endDate == d.value.endDate)
  {
    match d
    case None => None
    case Some(x) => Some(BasePostHistory(x.postId, x.employeeId, x.startDate, x.endDate))
  }

  /** Base -> record -> Base, and record -> Base -> record, are the identity. */
  lemma PostHistoryRoundTrips(b: Option<BasePostHistory>, d: Option<PostHistoryDb>)
    ensures PostHistoryFromDb(PostHistoryDbFromBase(b)) == b
    ensures PostHistoryDbFromBase(PostHistoryFromDb(d)) == d
  {
  }

  /** The partial update of an interval: a supplied date replaces the stored one, an absent one
      leaves it. The end date can be moved but never cleared, so a closed interval stays closed. */
  function UpdatedDates(startDate: Date, endDate: Option<Date>, newStart: Option<Date>, newEnd: Option<Date>)
    : (r: (Date, Option<Date>))
    ensures r.0 == Coalesce(newStart, startDate)
    ensures endDate.Some? ==> r.1.Some?
    ensures newEnd.None? ==> r.1 == endDate
    ensures newEnd.Some? ==> r.1 == newEnd
  {
    (if newStart.Some? then newStart.value else startDate,
     if newEnd.Some? then Some(newEnd.value) else endDate)
  }

  /** Applying the same partial update twice changes nothing more. */
  lemma UpdatedDatesIdempotent(startDate: Date, endDate: Option<Date>, newStart: Option<Date>, newEnd: Option<Date>)
    ensures var (s, e) := UpdatedDates(startDate, endDate, newStart, newEnd);
            UpdatedDates(s, e, newStart, newEnd) == (s, e)
  {
  }
}
