/** Education records: the core model `Education`, the requests `CreateEducation` and
    `UpdateEducation`, and the stored `EducationDb`, each with its validating constructor.
    "Today" is a parameter; the mapping between level names and `EducationLevel` values
    is an opaque function passed in by the caller. */
module EducationModels {
  import opened Common

  /** A member of the `EducationLevel` enumeration; its members and names are not part of this model. */
  datatype EducationLevel = EducationLevel(ordinal: nat)

  /** Education.cs */
  datatype Education = Education(
    id: Guid,
    employeeId: Guid,
    institution: string,
    level: EducationLevel,
    studyField: string,
    startDate: Date,
    endDate: Option<Date>)

  /** CreateEducation.cs */
  datatype CreateEducation = CreateEducation(
    employeeId: Guid,
    institution: string,
    level: EducationLevel,
    studyField: string,
    startDate: Date,
    endDate: Option<Date>)

  /** UpdateEducation.cs: every field but the two ids is optional. */
  datatype UpdateEducation = UpdateEducation(
    id: Guid,
    employeeId: Guid,
    institution: Option<string>,
    level: Option<EducationLevel>,
    studyField: Option<string>,
    startDate: Option<Date>,
    endDate: Option<Date>)

  /** EducationDb.cs: the level is stored by name. */
  datatype EducationDb = EducationDb(
    id: Guid,
    employeeId: Guid,
    institution: string,
    level: string,
    studyField: string,
    startDate: Date,
    endDate: Option<Date>)

  /** The date rule of the full constructors: the start is neither after today nor after a
      present end, and a present end is not after today. */
  predicate DatesValid(startDate: Date, endDate: Option<Date>, today: Date)
  {
    startDate <= today && (endDate.Some? ==> startDate <= endDate.value <= today)
  }

  /** The constructor of Education. The two `Guid.TryParse(id.ToString())` checks accept every
      Guid, so they have no branch here; the level name is parsed last and may fail. */
  function NewEducation(
    id: Guid, employeeId: Guid, institution: string, level: string, studyField: string,
    startDate: Date, endDate: Option<Date>, today: Date,
    parseLevel: string -> Option<EducationLevel>): (r: Result<Education>)
    ensures r.Success? <==> !IsBlank(institution) && !IsBlank(studyField)
                             && DatesValid(startDate, endDate, today) && parseLevel(level).Some?
    ensures IsBlank(institution) ==> r == Failure(InvalidArgument("institution"))
    ensures !IsBlank(institution) && IsBlank(studyField) ==> r == Failure(InvalidArgument("studyField"))
    ensures r.Success? ==> r.value == Education(id, employeeId, institution, parseLevel(level).value,
                                                 studyField, startDate, endDate)
  {
    if IsBlank(institution) then Failure(InvalidArgument("institution"))
    else if IsBlank(studyField) then Failure(InvalidArgument("studyField"))
    else if startDate > today || (endDate.Some? && startDate > endDate.value) then
      Failure(InvalidArgument("startDate"))
    else if endDate.Some? && endDate.value > today then Failure(InvalidArgument("endDate"))
    else
      match parseLevel(level)
      case None => Failure(InvalidArgument("level"))
      case Some(l) => Success(Education(id, employeeId, institution, l, studyField, startDate, endDate))
  }

  /** The constructor of CreateEducation: the same checks as Education's, without an id. */
  function NewCreateEducation(
    employeeId: Guid, institution: string, level: string, studyField: string,
    startDate: Date, endDate: Option<Date>, today: Date,
    parseLevel: string -> Option<EducationLevel>): (r: Result<CreateEducation>)
    ensures r.Success? <==> !IsBlank(institution) && !IsBlank(studyField)
                             && DatesValid(startDate, endDate, today) && parseLevel(level).Some?
    ensures IsBlank(institution) ==> r == Failure(InvalidArgument("institution"))
    ensures r.Success? ==> r.value == CreateEducation(employeeId, institution, parseLevel(level).value,
                                                       studyField, startDate, endDate)
  {
    if IsBlank(institution) then Failure(InvalidArgument("institution"))
    else if IsBlank(studyField) then Failure(InvalidArgument("studyField"))
    else if startDate > today || (endDate.Some? && startDate > endDate.value) then
      Failure(InvalidArgument("startDate"))
    else if endDate.Some? && endDate.value > today then Failure(InvalidArgument("endDate"))
    else
      match parseLevel(level)
      case None => Failure(InvalidArgument("level"))
      case Some(l) => Success(CreateEducation(employeeId, institution, l, studyField, startDate, endDate))
  }

  /** The date rule of a partial update: the order of start and end is checked only when both
      are supplied, and each supplied date must not be after today. */
  predicate UpdateDatesValid(startDate: Option<Date>, endDate: Option<Date>, today: Date)
  {
    (startDate.Some? && endDate.Some? ==> startDate.value <= endDate.value)
    && (startDate.Some? ==> startDate.value <= today)
    && (endDate.Some? ==> endDate.value <= today)
  }

  /** The constructor of UpdateEducation: dates as `UpdateDatesValid` says, a supplied level is
      parsed and an absent one stays absent; strings are not checked. */
  function NewUpdateEducation(
    id: Guid, employeeId: Guid, institution: Option<string>, level: Option<string>,
    studyField: Option<string>, startDate: Option<Date>, endDate: Option<Date>, today: Date,
    parseLevel: string -> Option<EducationLevel>): (r: Result<UpdateEducation>)
    ensures r.Success? <==> UpdateDatesValid(startDate, endDate, today)
                             && (level.Some? ==> parseLevel(level.value).Some?)
    ensures r.Success? ==> (r.value.id == id && r.value.employeeId == employeeId
              && r.value.institution == institution && r.value.studyField == studyField
              && r.value.startDate == startDate && r.value.endDate == endDate)
    ensures r.Success? ==> (r.value.level.None? <==> level.None?)
    ensures r.Success? && level.Some? ==> r.value.level == parseLevel(level.value)
  {
    if startDate.Some? && endDate.Some? && startDate.value > endDate.value then
      Failure(InvalidArgument("startDate"))
    else if startDate.Some? && startDate.value > today then Failure(InvalidArgument("startDate"))
    else if endDate.Some? && endDate.value > today then Failure(InvalidArgument("endDate"))
    else
      var parsed := if level.Some? then parseLevel(level.value) else None;
      if level.Some? && parsed.None? then Failure(InvalidArgument("level"))
      else Success(UpdateEducation(id, employeeId, institution, parsed, studyField, startDate, endDate))
  }

  /** The validating constructor of EducationDb: institution, level name and study field must not
      be blank (checked in that order), then the date rule. */
  function NewEducationDb(
    id: Guid, employeeId: Guid, institution: string, level: string, studyField: string,
    startDate: Date, endDate: Option<Date>, today: Date): (r: Result<EducationDb>)
    ensures r.Success? <==> !IsBlank(institution) && !IsBlank(level) && !IsBlank(studyField)
                             && DatesValid(startDate, endDate, today)
    ensures IsBlank(institution) ==> r == Failure(InvalidArgument("institution"))
    ensures !IsBlank(institution) && IsBlank(level) ==> r == Failure(InvalidArgument("level"))
    ensures r.Success? ==> r.value == EducationDb(id, employeeId, institution, level, studyField, startDate, endDate)
  {
    if IsBlank(institution) then Failure(InvalidArgument("institution"))
    else if IsBlank(level) then Failure(InvalidArgument("level"))
    else if IsBlank(studyField) then Failure(InvalidArgument("studyField"))
    else if startDate > today || (endDate.Some? && startDate > endDate.value) then
      Failure(InvalidArgument("startDate"))
    else if endDate.Some? && endDate.value > today then Failure(InvalidArgument("endDate"))
    else Success(EducationDb(id, employeeId, institution, level, studyField, startDate, endDate))
  }

  /** `DateOnly`'s default value, 0001-01-01, as day 0 of the encoding. */
  const DateOnlyMinValue: Date := 0

  /** The parameterless constructor of EducationDb: empty strings, default ids and dates, and no checks. */
  function EmptyEducationDb(): (r: EducationDb)
    ensures r.institution == "" && r.level == "" && r.studyField == ""
    ensures r.id == EmptyGuid && r.employeeId == EmptyGuid && r.endDate.None?
  {
    EducationDb(EmptyGuid, EmptyGuid, "", "", "", DateOnlyMinValue, None)
  }

  /** The record the parameterless constructor makes is one the validating constructor refuses,
      whatever day it is. */
  lemma EmptyEducationDbIsRejected(today: Date)
    ensures var e := EmptyEducationDb();
            NewEducationDb(e.id, e.employeeId, e.institution, e.level, e.studyField, e.startDate, e.endDate, today)
            == Failure(InvalidArgument("institution"))
  {
  }

  /** EducationConverter's CreateEducation overload, with `ToStringVal` passed in as `levelName`
      and the fresh id as a parameter. */
  function EducationDbFromCreate(c: CreateEducation, freshId: Guid, today: Date,
                                 levelName: EducationLevel -> string): (r: Result<EducationDb>)
    ensures r.Success? <==> !IsBlank(c.institution) && !IsBlank(levelName(c.level)) && !IsBlank(c.studyField)
                             && DatesValid(c.startDate, c.endDate, today)
    ensures r.Success? ==> (r.value.id == freshId && r.value.employeeId == c.employeeId
              && r.value.level == levelName(c.level) && r.value.institution == c.institution
              && r.value.studyField == c.studyField && r.value.startDate == c.startDate && r.value.endDate == c.endDate)
  {
    NewEducationDb(freshId, c.employeeId, c.institution, levelName(c.level), c.studyField,
                   c.startDate, c.endDate, today)
  }

  /** A request accepted by CreateEducation's constructor converts to a stored record on the same
      day whenever the level has a non-blank name: the two constructors apply the same rules. */
  lemma {:induction false} AcceptedCreateConverts(
    employeeId: Guid, institution: string, level: string, studyField: string,
    startDate: Date, endDate: Option<Date>, today: Date,
    parseLevel: string -> Option<EducationLevel>, levelName: EducationLevel -> string, freshId: Guid)
    requires NewCreateEducation(employeeId, institution, level, studyField, startDate, endDate, today, parseLevel).Success?
    requires !IsBlank(levelName(parseLevel(level).value))
    ensures var c := NewCreateEducation(employeeId, institution, level, studyField, startDate, endDate,
                                        today, parseLevel).value;
            EducationDbFromCreate(c, freshId, today, levelName).Success?
  {
    var c := NewCreateEducation(employeeId, institution, level, studyField, startDate, endDate,
                                today, parseLevel).value;
    assert c.level == parseLevel(level).value;
  }

  /** A stored record that passed its constructor reads back as an Education with the same
      fields, provided the level name parses back to the level it names. */
  lemma {:induction false} StoredEducationReadsBack(
    c: CreateEducation, freshId: Guid, today: Date,
    parseLevel: string -> Option<EducationLevel>, levelName: EducationLevel -> string)
    requires EducationDbFromCreate(c, freshId, today, levelName).Success?
    requires parseLevel(levelName(c.level)) == Some(c.level)
    ensures var d := EducationDbFromCreate(c, freshId, today, levelName).value;
            NewEducation(d.id, d.employeeId, d.institution, d.level, d.studyField, d.startDate, d.endDate,
                         today, parseLevel)
            == Success(Education(freshId, c.employeeId, c.institution, c.level, c.studyField, c.startDate, c.endDate))
  {
    var d := EducationDbFromCreate(c, freshId, today, levelName).value;
    assert d.level == levelName(c.level);
  }
}
