/** EducationRepository: an employee's education records, keyed by id, with add and update
    guarded by a duplicate check on (employee, institution, study field, start, end), get,
    delete and a paged list. Records are read back through Education's constructor, which
    checks them against today's date and parses the level name; both are parameters here. */
module EducationStore {
  import opened Common
  import opened Sequences
  import opened Paging
  import opened EducationModels

  // ----- Keys and invariants -----

  /** Two records describe the same education: the duplicate key (the level is not part of it).
      `EndDate` is nullable on both sides and compared with C# semantics, so two open records match. */
  predicate SameKey(a: EducationDb, b: EducationDb)
  {
    a.employeeId == b.employeeId && a.institution == b.institution && a.studyField == b.studyField
    && a.startDate == b.startDate && a.endDate == b.endDate
  }

  /** Some stored record has the key of `d`. */
  predicate HasDuplicate(s: seq<EducationDb>, d: EducationDb)
  {
    exists i :: 0 <= i < |s| && SameKey(s[i], d)
  }

  /** No two stored records share the duplicate key. */
  predicate NoDuplicates(s: seq<EducationDb>)
  {
    forall i, j :: 0 <= i < j < |s| ==> !SameKey(s[i], s[j])
  }

  /** No two stored records share an id. */
  predicate IdsUnique(s: seq<EducationDb>)
  {
    forall i, j :: 0 <= i < j < |s| ==> s[i].id != s[j].id
  }

  /** `k` is the first record with the id. */
  predicate IsFirstWithId(s: seq<EducationDb>, k: int, id: Guid)
  {
    0 <= k < |s| && s[k].id == id && forall j :: 0 <= j < k ==> s[j].id != id
  }

  predicate HasId(s: seq<EducationDb>, id: Guid)
  {
    exists k :: 0 <= k < |s| && s[k].id == id
  }

  /** `k` is the first record with the id that also belongs to the employee (the update's lookup). */
  predicate IsFirstOfEmployee(s: seq<EducationDb>, k: int, id: Guid, employeeId: Guid)
  {
    0 <= k < |s| && s[k].id == id && s[k].employeeId == employeeId
    && forall j :: 0 <= j < k ==> !(s[j].id == id && s[j].employeeId == employeeId)
  }

  predicate HasIdOfEmployee(s: seq<EducationDb>, id: Guid, employeeId: Guid)
  {
    exists k :: 0 <= k < |s| && s[k].id == id && s[k].employeeId == employeeId
  }

  /** A record appended when none has its key keeps the table free of duplicates, and one
      appended under an unused id keeps the ids unique. */
  lemma {:induction false} AppendKeepsInvariants(s: seq<EducationDb>, d: EducationDb)
    ensures NoDuplicates(s) && !HasDuplicate(s, d) ==> NoDuplicates(s + [d])
    ensures IdsUnique(s) && !HasId(s, d.id) ==> IdsUnique(s + [d])
  {
    var t := s + [d];
    assert forall j :: 0 <= j < |s| ==> t[j] == s[j];
  }

  /** Removing a record keeps both invariants. */
  lemma {:induction false} RemoveKeepsInvariants(s: seq<EducationDb>, k: nat)
    requires k < |s|
    ensures NoDuplicates(s) ==> NoDuplicates(RemoveAt(s, k))
    ensures IdsUnique(s) ==> IdsUnique(RemoveAt(s, k)) && !HasId(RemoveAt(s, k), s[k].id)
  {
    var t := RemoveAt(s, k);
    forall i, j | 0 <= i < j < |t|
      ensures t[i] == s[if i < k then i else i + 1] && t[j] == s[if j < k then j else j + 1]
    {
    }
    if IdsUnique(s) {
      forall j | 0 <= j < |t|
        ensures t[j].id != s[k].id
      {
        if j < k {
          assert t[j] == s[j];
        } else {
          assert t[j] == s[j + 1];
        }
      }
    }
  }

  /** Adding the same request twice: whatever fresh ids are drawn, the second conversion has the
      key of the first record, so the second add is a duplicate. */
  lemma {:induction false} SecondAddIsDuplicate(s: seq<EducationDb>, c: CreateEducation, id1: Guid, id2: Guid,
                                                today: Date, levelName: EducationLevel -> string)
    requires EducationDbFromCreate(c, id1, today, levelName).Success?
    ensures EducationDbFromCreate(c, id2, today, levelName).Success?
    ensures HasDuplicate(s + [EducationDbFromCreate(c, id1, today, levelName).value],
                         EducationDbFromCreate(c, id2, today, levelName).value)
  {
    var t := s + [EducationDbFromCreate(c, id1, today, levelName).value];
    assert SameKey(t[|s|], EducationDbFromCreate(c, id2, today, levelName).value);
  }

  // ----- Reading back -----

  /** EducationConverter's EducationDb overload: the stored record through Education's
      constructor, which re-checks the strings and the dates against today and parses the level. */
  function EducationFromDb(d: EducationDb, today: Date, parseLevel: string -> Option<EducationLevel>)
    : (r: Result<Education>)
    ensures r.Success? <==> !IsBlank(d.institution) && !IsBlank(d.studyField)
                             && DatesValid(d.startDate, d.endDate, today) && parseLevel(d.level).Some?
    ensures r.Success? ==> r.value == Education(d.id, d.employeeId, d.institution, parseLevel(d.level).value,
                                                 d.studyField, d.startDate, d.endDate)
  {
    NewEducation(d.id, d.employeeId, d.institution, d.level, d.studyField, d.startDate, d.endDate,
                 today, parseLevel)
  }

  /** `Select(e => Convert(e))` over a page: the first record that fails its constructor fails
      the whole query. */
  function EducationsFromDb(rows: seq<EducationDb>, today: Date, parseLevel: string -> Option<EducationLevel>)
    : (r: Result<seq<Education>>)
    ensures r.Success? <==> forall i :: 0 <= i < |rows| ==> EducationFromDb(rows[i], today, parseLevel).Success?
    ensures r.Success? ==> |r.value| == |rows|
    ensures r.Success? ==> forall i :: 0 <= i < |rows| ==>
                             EducationFromDb(rows[i], today, parseLevel) == Success(r.value[i])
    ensures r.Failure? ==> r.error.InvalidArgument?
  {
    if rows == [] then Success([])
    else
      match EducationFromDb(rows[0], today, parseLevel)
      case Failure(e) => Failure(e)
      case Success(first) =>
        match EducationsFromDb(rows[1..], today, parseLevel)
        case Failure(e) => Failure(e)
        case Success(rest) =>
          assert forall i :: 1 <= i < |rows| ==> rows[i] == rows[1..][i - 1];
          Success([first] + rest)
  }

  // ----- Partial update -----

  /** What an update writes into the stored record: each supplied field, the level by its name;
      the id and the employee never change. Nothing is re-validated, so a blank institution or a
      start after the end can be written. */
  function ApplyEducationUpdate(d: EducationDb, u: UpdateEducation, levelName: EducationLevel -> string)
    : (r: EducationDb)
    ensures r.id == d.id && r.employeeId == d.employeeId
    ensures r.institution == Coalesce(u.institution, d.institution)
    ensures r.studyField == Coalesce(u.studyField, d.studyField)
    ensures r.level == if u.level.Some? then levelName(u.level.value) else d.level
    ensures r.startDate == Coalesce(u.startDate, d.startDate)
    ensures r.endDate == if u.endDate.Some? then u.endDate else d.endDate
  {
    d.(institution := Coalesce(u.institution, d.institution),
       studyField := Coalesce(u.studyField, d.studyField),
       level := if u.level.Some? then levelName(u.level.value) else d.level,
       startDate := Coalesce(u.startDate, d.startDate),
       endDate := if u.endDate.Some? then u.endDate else d.endDate)
  }

  /** An update supplying nothing changes nothing; applying an update twice is applying it once. */
  lemma EducationUpdateLaws(d: EducationDb, u: UpdateEducation, levelName: EducationLevel -> string)
    ensures u.institution.None? && u.studyField.None? && u.level.None? && u.startDate.None? && u.endDate.None? ==>
              ApplyEducationUpdate(d, u, levelName) == d
    ensures ApplyEducationUpdate(ApplyEducationUpdate(d, u, levelName), u, levelName) == ApplyEducationUpdate(d, u, levelName)
  {
  }

  /** The update's duplicate check as written: another record of the employee whose columns equal
      the request's values. An absent string or start date is null, and a non-null column never
      equals null, so a request that omits any of them matches no record at all. */
  predicate ClashesAsWritten(e: EducationDb, u: UpdateEducation)
  {
    e.id != u.id && e.employeeId == u.employeeId
    && Some(e.institution) == u.institution && Some(e.studyField) == u.studyField
    && Some(e.startDate) == u.startDate && e.endDate == u.endDate
  }

  /** The duplicate check on the record as it will be stored: another record with the merged key. */
  predicate ClashesWithMerged(e: EducationDb, merged: EducationDb)
  {
    e.id != merged.id && SameKey(e, merged)
  }

  /** A full update (every key field supplied) is checked alike by both versions. */
  lemma {:induction false} FullUpdateChecksAgree(e: EducationDb, d: EducationDb, u: UpdateEducation,
                                                 levelName: EducationLevel -> string)
    requires d.id == u.id && d.employeeId == u.employeeId
    requires u.institution.Some? && u.studyField.Some? && u.startDate.Some? && u.endDate.Some?
    ensures ClashesAsWritten(e, u) <==> ClashesWithMerged(e, ApplyEducationUpdate(d, u, levelName))
  {
  }

  /** Two records of one employee that differ only in the institution, and an update of the
      second that supplies only the first's institution. */
  function MitRecord(): EducationDb
  {
    EducationDb(Guid(1), Guid(100), "MIT", "Bachelor", "CS", 20100901, Some(20140601))
  }

  function HarvardRecord(): EducationDb
  {
    EducationDb(Guid(2), Guid(100), "Harvard", "Bachelor", "CS", 20100901, Some(20140601))
  }

  function RenameToMit(): UpdateEducation
  {
    UpdateEducation(Guid(2), Guid(100), Some("MIT"), None, None, None, None)
  }

  /** The as-written check lets that update through, and the table ends up with two records
      with the same key. */
  lemma {:induction false} PartialUpdateSlipsPastCheck(levelName: EducationLevel -> string)
    ensures NoDuplicates([MitRecord(), HarvardRecord()])
    ensures !ClashesAsWritten(MitRecord(), RenameToMit()) && !ClashesAsWritten(HarvardRecord(), RenameToMit())
    ensures !NoDuplicates([MitRecord(), ApplyEducationUpdate(HarvardRecord(), RenameToMit(), levelName)])
  {
    var s := [MitRecord(), ApplyEducationUpdate(HarvardRecord(), RenameToMit(), levelName)];
    assert SameKey(s[0], s[1]);
  }

  /** The check on the merged record catches that update. */
  lemma MergedCheckCatchesRename(levelName: EducationLevel -> string)
    ensures ClashesWithMerged(MitRecord(), ApplyEducationUpdate(HarvardRecord(), RenameToMit(), levelName))
  {
  }

  /** With ids unique, an update that passes the merged check keeps the table free of duplicates. */
  lemma {:induction false} MergedCheckKeepsNoDuplicates(s: seq<EducationDb>, k: int, merged: EducationDb)
    requires NoDuplicates(s) && IdsUnique(s) && 0 <= k < |s| && merged.id == s[k].id
    requires forall i :: 0 <= i < |s| ==> !ClashesWithMerged(s[i], merged)
    ensures NoDuplicates(s[k := merged]) && IdsUnique(s[k := merged])
  {
    var t := s[k := merged];
    forall i, j | 0 <= i < j < |t|
      ensures !SameKey(t[i], t[j])
    {
      if i == k {
        assert s[j].id != merged.id;
        assert !ClashesWithMerged(s[j], merged);
      } else if j == k {
        assert s[i].id != merged.id;
        assert !ClashesWithMerged(s[i], merged);
      }
    }
  }

  class EducationRepository {
    var educations: seq<EducationDb>

    constructor(initial: seq<EducationDb>)
      ensures educations == initial
    {
      educations := initial;
    }

    /** AddEducationAsync: converts the request with a fresh id (a record the stored-record
        constructor refuses is an ArgumentException), refuses a duplicate key, stores the record,
        and reads it back; a failure of that last step comes after the record is stored. */
    method AddEducation(c: CreateEducation, freshId: Guid, today: Date,
                        levelName: EducationLevel -> string, parseLevel: string -> Option<EducationLevel>)
      returns (r: Result<Education>)
      modifies this
      ensures EducationDbFromCreate(c, freshId, today, levelName).Failure? ==>
                r.Failure? && r.error.InvalidArgument? && educations == old(educations)
      ensures EducationDbFromCreate(c, freshId, today, levelName).Success? ==>
                var d := EducationDbFromCreate(c, freshId, today, levelName).value;
                (HasDuplicate(old(educations), d) ==> r == Failure(EducationAlreadyExists) && educations == old(educations))
                && (!HasDuplicate(old(educations), d) ==>
                      educations == old(educations) + [d] && r == EducationFromDb(d, today, parseLevel))
      ensures NoDuplicates(old(educations)) ==> NoDuplicates(educations)
      ensures IdsUnique(old(educations)) && !HasId(old(educations), freshId) ==> IdsUnique(educations)
    {
      var converted := EducationDbFromCreate(c, freshId, today, levelName);
      if converted.Failure? {
        return Failure(converted.error);
      }
      var d := converted.value;
      var existing := FirstIndex(educations, (e: EducationDb) => SameKey(e, d));
      if existing.Some? {
        return Failure(EducationAlreadyExists);
      }
      AppendKeepsInvariants(educations, d);
      educations := educations + [d];
      r := EducationFromDb(d, today, parseLevel);
    }

    /** GetEducationByIdAsync: the first record with the id, read back, or EducationNotFound. */
    function GetEducation(id: Guid, today: Date, parseLevel: string -> Option<EducationLevel>): (r: Result<Education>)
      reads this
      ensures !HasId(educations, id) <==> r == Failure(EducationNotFound)
      ensures HasId(educations, id) ==>
                exists k :: IsFirstWithId(educations, k, id) && r == EducationFromDb(educations[k], today, parseLevel)
    {
      match FirstIndex(educations, (e: EducationDb) => e.id == id)
      case None => Failure(EducationNotFound)
      case Some(k) =>
        assert IsFirstWithId(educations, k, id);
        EducationFromDb(educations[k], today, parseLevel)
    }

    /** UpdateEducationAsync as written: the record must match both the id and the employee; the
        duplicate check compares the other records with the request's raw values; then each
        supplied field is written and the record is read back (a failure of that step comes after
        the write). */
    method UpdateEducation(u: UpdateEducation, today: Date, levelName: EducationLevel -> string,
                           parseLevel: string -> Option<EducationLevel>) returns (r: Result<Education>)
      modifies this
      ensures !HasIdOfEmployee(old(educations), u.id, u.employeeId) ==>
                r == Failure(EducationNotFound) && educations == old(educations)
      ensures HasIdOfEmployee(old(educations), u.id, u.employeeId) ==>
                exists k :: IsFirstOfEmployee(old(educations), k, u.id, u.employeeId)
                  && ((exists i :: 0 <= i < |old(educations)| && ClashesAsWritten(old(educations)[i], u)) ==>
                        r == Failure(EducationAlreadyExists) && educations == old(educations))
                  && ((forall i :: 0 <= i < |old(educations)| ==> !ClashesAsWritten(old(educations)[i], u)) ==>
                        var merged := ApplyEducationUpdate(old(educations)[k], u, levelName);
                        educations == old(educations)[k := merged] && r == EducationFromDb(merged, today, parseLevel))
    {
      var found := FirstIndex(educations, (e: EducationDb) => e.id == u.id && e.employeeId == u.employeeId);
      if found.None? {
        return Failure(EducationNotFound);
      }
      var k := found.value;
      assert IsFirstOfEmployee(educations, k, u.id, u.employeeId);
      var clash := FirstIndex(educations, (e: EducationDb) => ClashesAsWritten(e, u));
      if clash.Some? {
        return Failure(EducationAlreadyExists);
      }
      var merged := ApplyEducationUpdate(educations[k], u, levelName);
      educations := educations[k := merged];
      r := EducationFromDb(merged, today, parseLevel);
    }

    /** The update with the duplicate check on the merged record; it keeps the table free of
        duplicates. */
    method UpdateEducationChecked(u: UpdateEducation, today: Date, levelName: EducationLevel -> string,
                                  parseLevel: string -> Option<EducationLevel>) returns (r: Result<Education>)
      modifies this
      ensures !HasIdOfEmployee(old(educations), u.id, u.employeeId) ==>
                r == Failure(EducationNotFound) && educations == old(educations)
      ensures HasIdOfEmployee(old(educations), u.id, u.employeeId) ==>
                exists k :: IsFirstOfEmployee(old(educations), k, u.id, u.employeeId)
                  && var merged := ApplyEducationUpdate(old(educations)[k], u, levelName);
                     ((exists i :: 0 <= i < |old(educations)| && ClashesWithMerged(old(educations)[i], merged)) ==>
                        r == Failure(EducationAlreadyExists) && educations == old(educations))
                     && ((forall i :: 0 <= i < |old(educations)| ==> !ClashesWithMerged(old(educations)[i], merged)) ==>
                           educations == old(educations)[k := merged] && r == EducationFromDb(merged, today, parseLevel))
      ensures NoDuplicates(old(educations)) && IdsUnique(old(educations)) ==>
                NoDuplicates(educations) && IdsUnique(educations)
    {
      var found := FirstIndex(educations, (e: EducationDb) => e.id == u.id && e.employeeId == u.employeeId);
      if found.None? {
        return Failure(EducationNotFound);
      }
      var k := found.value;
      assert IsFirstOfEmployee(educations, k, u.id, u.employeeId);
      var merged := ApplyEducationUpdate(educations[k], u, levelName);
      var clash := FirstIndex(educations, (e: EducationDb) => ClashesWithMerged(e, merged));
      if clash.Some? {
        return Failure(EducationAlreadyExists);
      }
      if NoDuplicates(educations) && IdsUnique(educations) {
        MergedCheckKeepsNoDuplicates(educations, k, merged);
      }
      educations := educations[k := merged];
      r := EducationFromDb(merged, today, parseLevel);
    }

    /** GetEducationsAsync: the employee's records in table order, one page of them read back;
        the page is built as `new Page(pageNumber, totalCount, pageSize)`, so the count lands in
        TotalPages. */
    function GetEducations(employeeId: Guid, pageNumber: int, pageSize: nat, today: Date,
                           parseLevel: string -> Option<EducationLevel>): (r: Result<Paged<Education>>)
      reads this
      ensures var mine := Where(educations, (e: EducationDb) => e.employeeId == employeeId);
              var rows := Slice(mine, pageNumber, pageSize);
              (r.Success? <==> EducationsFromDb(rows, today, parseLevel).Success?)
              && (r.Success? ==> r.value.items == EducationsFromDb(rows, today, parseLevel).value
                                 && r.value.page == SwappedPageFor(pageNumber, |mine|, pageSize))
      ensures r.Success? ==> forall x :: x in r.value.items ==> x.employeeId == employeeId
    {
      var mine := Where(educations, (e: EducationDb) => e.employeeId == employeeId);
      var rows := Slice(mine, pageNumber, pageSize);
      match EducationsFromDb(rows, today, parseLevel)
      case Failure(e) => Failure(e)
      case Success(items) =>
        assert forall i :: 0 <= i < |items| ==> items[i].employeeId == rows[i].employeeId && rows[i] in mine;
        Success(Paged(items, SwappedPageFor(pageNumber, |mine|, pageSize)))
    }

    /** DeleteEducationAsync: removes the first record with the id. */
    method DeleteEducation(id: Guid) returns (r: Result<()>)
      modifies this
      ensures !HasId(old(educations), id) <==> r == Failure(EducationNotFound)
      ensures r.Failure? ==> educations == old(educations)
      ensures r.Success? ==>
                exists k :: IsFirstWithId(old(educations), k, id) && educations == RemoveAt(old(educations), k)
      ensures NoDuplicates(old(educations)) ==> NoDuplicates(educations)
      ensures r.Success? && IdsUnique(old(educations)) ==> IdsUnique(educations) && !HasId(educations, id)
    {
      var found := FirstIndex(educations, (e: EducationDb) => e.id == id);
      if found.None? {
        return Failure(EducationNotFound);
      }
      var k := found.value;
      assert IsFirstWithId(educations, k, id);
      RemoveKeepsInvariants(educations, k);
      educations := RemoveAt(educations, k);
      r := Success(());
    }
  }

  /** The paging test: ten records of one employee in pages of three. The list reports ten
      pages, where the test expects the four that `PageFor` gives. */
  lemma {:induction false} TenEducationsInPagesOfThree(mine: seq<EducationDb>)
    requires |mine| == 10
    ensures SwappedPageFor(1, |mine|, 3).totalPages == 10
    ensures PageFor(1, |mine|, 3).totalPages == 4
    ensures |Slice(mine, 1, 3)| == 3 && |Slice(mine, 2, 3)| == 3
  {
    assert CeilDiv(10, 3) == 4;
    PageSize(mine, 1, 3);
    PageSize(mine, 2, 3);
  }
}
