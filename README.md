# HR staffing store: a Dafny model of the repositories

This project models the data layer of an HR application: the EF Core repositories that store
positions (a per-company reporting tree), position and pay-grade assignment histories,
performance scores, education records and employees. It also models the small record classes
with validating constructors and the converters between stored records and core models.

Each repository is a Dafny class over a `seq` of stored records. Add, update and delete are
methods that change that sequence. Gets and paged queries are functions over it. `FirstOrDefault`
is the first matching row. `Where`, `OrderBy ... ThenBy`, `Skip` and `Take` are modelled on
sequences, and each filter or sort is proved to agree with an independent description of what it
keeps. Errors the source throws are `Failure` values of a `Result`.

Modelling choices:
- Dates and instants are integers. A `DateOnly` is encoded as `yyyymmdd` where a test fixes one.
- "Today", "now" and `Guid.NewGuid()` are parameters.
- `Guid` is a datatype with a distinguished `EmptyGuid`.
- Page counts use integer ceiling division.

Module layout, one file per part of the source:
- **Shared pieces**: `Common`, `Sequences`, `Paging`, `Windows` (the date window of the history
  queries) and `Hierarchy` (the order of sub-tree rows).
- **Record models and converters**: one module per entity group.
- **Stores**: one module per repository.

## Model

| member | source | states |
|---|---|---|
| Paging.DefaultPageIsEmpty | src/Project.Core/Models/Page.cs:12-24 | A default page has all three counts 0, and neither flag holds. |
| Paging.PageFlagsAtBounds | src/Project.Core/Models/Page.cs:22-24 | Page 1 (or lower) has no previous page. A page at or past TotalPages has no next page. HasPreviousPage holds exactly from page 2 on. |
| Paging.CeilDiv | src/Database/Database.Repositories/PositionRepository.cs:164 | The page count is the least r with r·size ≥ count. It is 0 exactly for no items. |
| Paging.Slice | src/Database/Database.Repositories/PositionRepository.cs:156-158 | A page holds at most pageSize rows, all from the input. A page that starts inside the input is the contiguous run starting at (p-1)·size. |
| Paging.PageFor | src/Database/Database.Repositories/PositionRepository.cs:164 | The page keeps the requested number and the count. TotalPages is the ceiling of count/size. |
| Paging.Paginate | src/Database/Database.Repositories/PostHistoryRepository.cs:183-194 | The page keeps the requested number and the full item count. Its page count is the least one that holds every row, and it has a next page exactly when rows remain after it. The items are at most a page of input rows: the run starting at (p-1)·size when that offset lies inside the input. |
| Paging.PageForFlags | src/Project.Core/Models/Page.cs:22-24 | On a correctly built page, HasNextPage holds exactly when rows remain after it, and HasPreviousPage exactly when rows come before it. |
| Paging.PageBeyondLastIsEmpty | src/Database/Database.Repositories/PositionRepository.cs:156-158 | A page number past the last page gives an empty page, not an error. |
| Paging.PageSize | src/Database/Database.Repositories/PositionRepository.cs:156-158 | Every page up to the last is full. The last page holds the remainder and is not empty. |
| Paging.PagesUpToPrefix | src/Database/Database.Repositories/PositionRepository.cs:156-158 | Pages 1..k laid end to end are the first k·size rows. |
| Paging.AllPagesReassemble | src/Database/Database.Repositories/PositionRepository.cs:156-164 | Pages 1..TotalPages laid end to end give back the whole ordered result. |
| Paging.SwappedPageFor | src/Database/Database.Repositories/ScoreRepository.cs:174 | `new Page(pageNumber, totalItems, pageSize)` puts the item count in TotalPages and the page size in TotalItems. |
| Paging.SwappedPageMisreports | src/Database/Database.Repositories/ScoreRepository.cs:174 | For 3 rows in pages of 10, the swapped page claims 10 items and a next page. The correct page claims 3 items and no next page. |
| Windows.FilterByWindow | src/Database/Database.Repositories/PositionHistoryRepository.cs:195-199 | The two conditional filters keep exactly the rows in the window. With a start bound, the row is open or ends on or after the start. With an end bound, it ends on or before the end, or it is open and the end is today. |
| Windows.WindowIsOneFilter | src/Database/Database.Repositories/PositionHistoryRepository.cs:195-199 | In each of the four bound cases, applying the two filters in turn equals the single window filter. |
| Windows.SelectInWindow | src/Database/Database.Repositories/PostHistoryRepository.cs:219-225 | A key filter followed by the window keeps exactly the rows that pass both. The result is a sub-multiset of the input. |
| Windows.SelectInWindowIsWhere | src/Database/Database.Repositories/PostHistoryRepository.cs:219-225 | The combined filter equals `Where` by any predicate that agrees with both conditions. |
| Windows.NoBoundsKeepsAll | src/Database/Database.Repositories/PositionHistoryRepository.cs:195-199 | Without bounds, the window keeps every row. |
| Windows.OpenIntervalPassesEndOnlyToday | src/Database/Database.Repositories/PositionHistoryRepository.cs:198-199 | An open interval passes an end bound exactly when the bound is today. A closed one passes exactly when it ends on or before the bound. |
| Windows.StartBoundMonotone | src/Database/Database.Repositories/PositionHistoryRepository.cs:196 | A row kept by a later start bound is kept by every earlier one. |
| Hierarchy.TitleLeTotal | src/Database/Database.Repositories/PositionRepository.cs:154 | Ordinal title order is total. |
| Hierarchy.TitleLeTransitive | src/Database/Database.Repositories/PositionRepository.cs:154 | Ordinal title order is transitive. |
| Hierarchy.TitleLeAntisymmetric | src/Database/Database.Repositories/PositionRepository.cs:154 | Ordinal title order is antisymmetric. |
| Hierarchy.LevelTitleLeIsTotalOrder | src/Database/Database.Repositories/PositionRepository.cs:153-154 | Level first, then title, is a total order on (level, title) pairs. |
| Hierarchy.HierarchyLeIsTotalPreorder | src/Database/Database.Repositories/PositionRepository.cs:153-154 | The row order of the sub-tree query is total and transitive. |
| Hierarchy.HierarchyWithEmployeeLeIsTotalPreorder | src/Database/Database.Repositories/PositionHistoryRepository.cs:238-239 | The row order of the current-subordinates query is total and transitive. |
| Hierarchy.OrderByLevelThenTitle | src/Database/Database.Repositories/PositionRepository.cs:152-154 | The sorted rows are a permutation of the input, ordered by level. Equal levels are ordered by title. |
| Hierarchy.OrderWithEmployeeByLevelThenTitle | src/Database/Database.Repositories/PositionHistoryRepository.cs:237-239 | The same as above, for current-subordinate rows. |
| Hierarchy.HolderIds | src/Database/Database.Repositories/PositionHistoryRepository.cs:297-298 | One id per row. An id is present exactly when some row's holder has it. |
| Hierarchy.OrderIsDetermined | src/Database/Database.Repositories/PositionRepository.cs:152-154 | When no two rows share both level and title, any ordered permutation of the rows is the sort's result. |
| Hierarchy.HeadSortsFirst | src/Tests/Project.Repository.Tests/PositionRepositoryTests.cs:232-273 | In a sub-tree, the head (the only level-0 row) sorts first. |
| Hierarchy.ChildrenHangUnderHead | src/Tests/Project.Repository.Tests/PositionRepositoryTests.cs:232-273 | A level-1 row of a sub-tree has the head as its parent. |
| PositionModels.NewPositionDb | src/Database/Database.Models/PositionDb.cs:12-26 | Only a blank title is refused, since the Guid checks accept every Guid. On success, the four fields equal the arguments. |
| PositionModels.PositionDbFromCreate | src/Database/Database.Models/Converters/PositionConverter.cs:9-19 | null maps to null. The record gets a fresh id and the request's parent, title and company. A blank title fails. |
| PositionModels.PositionDbFromPosition | src/Database/Database.Models/Converters/PositionConverter.cs:23-33 | null maps to null. The id, title and company are kept, and the parent is always present. |
| PositionModels.PositionFromDb | src/Database/Database.Models/Converters/PositionConverter.cs:37-47 | null maps to null. An absent parent becomes `Guid.Empty`. |
| PositionModels.PositionRoundTrip | src/Database/Database.Models/Converters/PositionConverter.cs:28-47 | Position → record → Position is the identity when the title is not blank. |
| PositionModels.PositionDbRoundTrip | src/Database/Database.Models/Converters/PositionConverter.cs:28-47 | Record → Position → record is the identity exactly when the record has a parent and a non-blank title. |
| PositionModels.RootComesBackWithEmptyParent | src/Database/Database.Models/Converters/PositionConverter.cs:42-47 | A root comes back with `Guid.Empty` as an explicit parent. |
| PositionModels.HierarchyDbFromCore | src/Database/Database.Models/Converters/PositionHierarchyConverter.cs:9-18 | null maps to null. The id, parent, title and level are copied. |
| PositionModels.HierarchyFromDb | src/Database/Database.Models/Converters/PositionHierarchyConverter.cs:22-31 | null maps to null. The id, parent, title and level are copied. |
| PositionModels.HierarchyRoundTrips | src/Database/Database.Models/Converters/PositionHierarchyConverter.cs:14-31 | The two converters are mutually inverse, so the level is preserved. |
| PostModels.EmptyPostDb | src/Database/Database.Models/PostDb.cs:11-15 | The parameterless record has an empty title, no histories and a zero salary. |
| PostModels.NewPostDb | src/Database/Database.Models/PostDb.cs:17-29 | A blank title is refused first, then a salary ≤ 0. On success, the fields equal the arguments and there are no histories. |
| PostModels.EmptyPostDbIsRejected | src/Database/Database.Models/PostDb.cs:11-23 | The parameterless record is one the validating constructor refuses. |
| PostModels.PostDbFromCreate | src/Database/Database.Models/Converters/PostConverter.cs:9-18 | null maps to null. A fresh id is assigned and the constructor's checks apply. |
| PostModels.PostDbFromPost | src/Database/Database.Models/Converters/PostConverter.cs:22-30 | null maps to null. The id and fields are kept, and the constructor's checks apply. |
| PostModels.PostFromDb | src/Database/Database.Models/Converters/PostConverter.cs:34-42 | null maps to null. The four fields are copied. |
| PostModels.PostDbRoundTrip | src/Database/Database.Models/Converters/PostConverter.cs:27-42 | Record → Post → record succeeds exactly for a valid record, and then keeps the id, title, salary and company. |
| PostModels.PostRoundTrip | src/Database/Database.Models/Converters/PostConverter.cs:27-42 | Post → record → Post is the identity on valid posts. |
| HistoryModels.PositionHistoryDbFromCreate | src/Database/Database.Models/Converters/PositionHistoryConverter.cs:9-18 | null maps to null. The position, employee, start and end are copied. |
| HistoryModels.PositionHistoryDbFromBase | src/Database/Database.Models/Converters/PositionHistoryConverter.cs:22-31 | null maps to null. The four fields are copied. |
| HistoryModels.PositionHistoryFromDb | src/Database/Database.Models/Converters/PositionHistoryConverter.cs:35-44 | null maps to null. The four fields are copied. |
| HistoryModels.PositionHistoryRoundTrips | src/Database/Database.Models/Converters/PositionHistoryConverter.cs:27-44 | Both round trips are the identity. |
| HistoryModels.PostHistoryDbFromCreate | src/Database/Database.Models/Converters/PostHistoryConverter.cs:9-18 | null maps to null. The post, employee, start and end are copied. |
| HistoryModels.PostHistoryDbFromBase | src/Database/Database.Models/Converters/PostHistoryConverter.cs:22-31 | null maps to null. The four fields are copied. |
| HistoryModels.PostHistoryFromDb | src/Database/Database.Models/Converters/PostHistoryConverter.cs:35-44 | null maps to null. The four fields are copied. |
| HistoryModels.PostHistoryRoundTrips | src/Database/Database.Models/Converters/PostHistoryConverter.cs:27-44 | Both round trips are the identity. |
| HistoryModels.UpdatedDates | src/Database/Database.Repositories/PositionHistoryRepository.cs:113-117 | A supplied date replaces the stored one and an absent one keeps it, so a closed interval is never reopened. |
| HistoryModels.UpdatedDatesIdempotent | src/Database/Database.Repositories/PositionHistoryRepository.cs:113-117 | Applying the same date update twice equals applying it once. |
| PartyModels.EmployeeFromDb | src/Database/Database.Models/Converters/EmployeeConverter.cs:9-20 | null maps to null. Every field, the id included, is copied. |
| PartyModels.EmployeeDbFromCreation | src/Database/Database.Models/Converters/EmployeeConverter.cs:40-52 | null maps to null. A fresh id is assigned and every field is copied. |
| PartyModels.EmployeeDbFromEmployee | src/Database/Database.Models/Converters/EmployeeConverter.cs:56-68 | null maps to null. The employee's own id is dropped for a fresh one, and every other field is copied. |
| PartyModels.EmployeeRoundTripLosesId | src/Database/Database.Models/Converters/EmployeeConverter.cs:13-20 | Employee → record → Employee changes only the id. It is the identity exactly when the fresh id equals the old one. |
| PartyModels.EmployeeDbRoundTripLosesId | src/Database/Database.Models/Converters/EmployeeConverter.cs:61-68 | Record → Employee → record changes only the id. |
| PartyModels.CompanyDbFromCreation | src/Database/Database.Models/Converters/CompanyConverter.cs:9-22 | null maps to null. A fresh id is assigned and the eight details are copied. |
| PartyModels.CompanyDbFromCompany | src/Database/Database.Models/Converters/CompanyConverter.cs:27-40 | null maps to null. The id and all details are kept. |
| PartyModels.CompanyFromDb | src/Database/Database.Models/Converters/CompanyConverter.cs:44-57 | null maps to null. The id and all details are kept. |
| PartyModels.CompanyRoundTrips | src/Database/Database.Models/Converters/CompanyConverter.cs:32-57 | Both round trips are the identity. |
| PartyModels.CreatedCompanyReadsBack | src/Database/Database.Models/Converters/CompanyConverter.cs:14-22 | A created company reads back with the fresh id and exactly the requested details. |
| ScoreModels.NewScoreDb | src/Database/Database.Models/ScoreDb.cs:19-37 | Efficiency, engagement and competency are checked in that order against 1..5, and the first failure names the field. On success, all fields equal the arguments. |
| ScoreModels.NewUpdateScore | src/Project.Core/Models/Score/UpdateScore.cs:12-33 | `Guid.Empty` is refused, then a creation time after now, then a supplied score off the scale. On success, fields are stored as given and absent ones stay absent. |
| ScoreModels.ScoreDbFromCreate | src/Database/Database.Models/Converters/ScoreConverter.cs:9-24 | A fresh id and the current instant are assigned, and the 1..5 checks apply. |
| ScoreStore.AppendedIsFirstWithId | src/Database/Database.Repositories/ScoreRepository.cs:33-36 | A row appended under an unused id is the first row with it, and unique ids stay unique. |
| ScoreStore.RemovedIdIsGone | src/Database/Database.Repositories/ScoreRepository.cs:102-111 | With unique ids, a removed row's id is gone and the ids stay unique. |
| ScoreStore.ApplyScoreUpdate | src/Database/Database.Repositories/ScoreRepository.cs:83-85 | Each supplied score is replaced. The creation time, the references and the id never change. |
| ScoreStore.ScoreUpdateLaws | src/Database/Database.Repositories/ScoreRepository.cs:83-85 | An update that supplies no score changes nothing, even one that supplies a time. The update is idempotent and keeps scores on the scale. |
| ScoreStore.UpdateKeepsTable | src/Database/Database.Repositories/ScoreRepository.cs:74-89 | The updated row stays the first with its id. Unique ids and the scale are kept. |
| ScoreStore.Keyed | src/Database/Database.Repositories/ScoreRepository.cs:160 | The key filter of each query is `Where` by the key. |
| ScoreStore.FromStart | src/Database/Database.Repositories/ScoreRepository.cs:130-131 | The optional start filter keeps exactly the rows created on or after the start. |
| ScoreStore.UntilEnd | src/Database/Database.Repositories/ScoreRepository.cs:132-133 | The optional end filter keeps exactly the rows created on or before the end. |
| ScoreStore.SelectScores | src/Database/Database.Repositories/ScoreRepository.cs:126-133 | The three filters in turn keep exactly the rows matching the key and the inclusive period. The result is a sub-multiset of the table. |
| ScoreStore.PageRowsMatch | src/Database/Database.Repositories/ScoreRepository.cs:135-140 | Every row on a page is a stored row matching the key and the period. |
| ScoreStore.NoFilterKeepsAll | src/Database/Database.Repositories/ScoreRepository.cs:126-133 | Without bounds, GetScores keeps the whole table. |
| ScoreStore.WiderPeriodKeepsMore | src/Database/Database.Repositories/ScoreRepository.cs:130-133 | Widening the period never loses a score. |
| ScoreStore.ScoreRepository.AddScore | src/Database/Database.Repositories/ScoreRepository.cs:23-45 | A score off the scale is an ArgumentException and nothing is stored. Otherwise exactly one row is appended, with the fresh id and now. The scale invariant is kept. |
| ScoreStore.ScoreRepository.GetScore | src/Database/Database.Repositories/ScoreRepository.cs:47-68 | The result is ScoreNotFound exactly when no row has the id. Otherwise it is the first such row. |
| ScoreStore.ScoreRepository.UpdateScore | src/Database/Database.Repositories/ScoreRepository.cs:70-96 | Unknown id → NotFound, table unchanged. Otherwise only that row changes, by ApplyScoreUpdate, and the creation time is kept. Unique ids and the scale are kept. |
| ScoreStore.ScoreRepository.DeleteScore | src/Database/Database.Repositories/ScoreRepository.cs:98-121 | Unknown id → NotFound. Otherwise exactly the first row with the id is removed. |
| ScoreStore.ScoreRepository.GetScores | src/Database/Database.Repositories/ScoreRepository.cs:123-153 | The query returns the page of the period's scores, with a correctly built page. |
| ScoreStore.ScoreRepository.GetScoresByEmployeeId | src/Database/Database.Repositories/ScoreRepository.cs:155-186 | The query returns the employee's scores in the period, on the swapped page. |
| ScoreStore.ScoreRepository.GetScoresByPositionId | src/Database/Database.Repositories/ScoreRepository.cs:188-219 | The query returns the position's scores in the period, on the swapped page. |
| ScoreStore.ScoreRepository.GetScoresByAuthorId | src/Database/Database.Repositories/ScoreRepository.cs:221-252 | The query returns the author's scores in the period, on the swapped page. |
| ScoreStore.ScoreRepository.GetScoresSubordinates | src/Database/Database.Repositories/ScoreRepository.cs:254-296 | The query returns the scores of the current subordinates' holders in the period, with a correctly built page. |
| ScoreStore.ByEmployeeMisreportsPage | src/Database/Database.Repositories/ScoreRepository.cs:174 | For three scores in pages of 10, the page claims 10 items and a next page, yet page 2 is empty. |
| ScoreStore.TwoOfThreeScoresUpdated | src/Tests/Project.Repository.Tests/ScoreRepositoryTests.cs:187-201 | Scores 1, 2, 3 updated with efficiency 5 and competency 4 become 5, 2, 4. |
| ScoreStore.PeriodKeepsRecentScore | src/Tests/Project.Repository.Tests/ScoreRepositoryTests.cs:324-339 | Of scores 1 and 40 days old, the last three days keep only the recent one. |
| EducationModels.NewEducation | src/Project.Core/Models/Education/Education.cs:13-39 | A blank institution, then a blank study field, is refused. A start after today or after the end is refused, as is an end after today, and so is an unparsable level. On success, the fields are stored as given. |
| EducationModels.NewCreateEducation | src/Project.Core/Models/Education/CreateEducation.cs:13-36 | The same checks without an id. An omitted end stays absent. |
| EducationModels.NewUpdateEducation | src/Project.Core/Models/Education/UpdateEducation.cs:13-34 | The order check applies only when both dates are supplied. Each supplied date must not be after today. A level is mapped only when supplied. |
| EducationModels.NewEducationDb | src/Database/Database.Models/EducationDb.cs:21-44 | A blank institution, level or study field is refused, as are the date rules. On success, all seven fields equal the arguments. |
| EducationModels.EmptyEducationDb | src/Database/Database.Models/EducationDb.cs:13-18 | The parameterless record has empty strings, empty ids and no end. |
| EducationModels.EmptyEducationDbIsRejected | src/Database/Database.Models/EducationDb.cs:13-30 | The parameterless record is one the validating constructor refuses. |
| EducationModels.EducationDbFromCreate | src/Database/Database.Models/Converters/EducationConverter.cs:9-22 | A fresh id is assigned, the level is stored by name, and the record constructor's checks apply. |
| EducationModels.AcceptedCreateConverts | src/Database/Database.Models/Converters/EducationConverter.cs:14-21 | A request its own constructor accepted converts to a stored record whenever the level's name is not blank. |
| EducationModels.StoredEducationReadsBack | src/Database/Database.Models/Converters/EducationConverter.cs:40-52 | A stored record whose level name parses back reads back as the requested education. |
| EducationStore.AppendKeepsInvariants | src/Database/Database.Repositories/EducationRepository.cs:27-42 | An append that passed the duplicate check keeps the table free of duplicates. One under an unused id keeps ids unique. |
| EducationStore.RemoveKeepsInvariants | src/Database/Database.Repositories/EducationRepository.cs:154-163 | Removing a row keeps both invariants, and the removed id is gone. |
| EducationStore.SecondAddIsDuplicate | src/Tests/Project.Repository.Tests/EducationRepositoryTests.cs:101-119 | Adding the same request twice makes the second add a duplicate, whatever the fresh ids. |
| EducationStore.EducationFromDb | src/Database/Database.Models/Converters/EducationConverter.cs:40-52 | The read-back succeeds exactly when the record passes Education's checks today, and then it copies the fields. |
| EducationStore.EducationsFromDb | src/Database/Database.Repositories/EducationRepository.cs:132-136 | Converting a page succeeds exactly when every row converts, row by row. Otherwise it fails with an ArgumentException. |
| EducationStore.ApplyEducationUpdate | src/Database/Database.Repositories/EducationRepository.cs:107-112 | Each supplied field is written, the level by its name. The ids never change. |
| EducationStore.EducationUpdateLaws | src/Database/Database.Repositories/EducationRepository.cs:107-112 | An empty update is the identity, and the update is idempotent. |
| EducationStore.FullUpdateChecksAgree | src/Database/Database.Repositories/EducationRepository.cs:92-105 | When every key field is supplied, the check as written equals the check on the merged record. |
| EducationStore.PartialUpdateSlipsPastCheck | src/Database/Database.Repositories/EducationRepository.cs:92-112 | Renaming one of two otherwise equal records to the other's institution passes the check as written and leaves a duplicate. |
| EducationStore.MergedCheckCatchesRename | src/Database/Database.Repositories/EducationRepository.cs:92-112 | The check on the merged record catches that rename. |
| EducationStore.MergedCheckKeepsNoDuplicates | src/Database/Database.Repositories/EducationRepository.cs:92-112 | An update that passes the merged check keeps the table free of duplicates and its ids unique. |
| EducationStore.EducationRepository.AddEducation | src/Database/Database.Repositories/EducationRepository.cs:22-54 | A conversion failure is an ArgumentException, and a duplicate key (level excluded) is EducationAlreadyExists, both leaving the table unchanged. Otherwise one record is appended and read back; a read-back failure comes after storing. |
| EducationStore.EducationRepository.GetEducation | src/Database/Database.Repositories/EducationRepository.cs:56-77 | Unknown id → EducationNotFound. Otherwise the first record with the id is read back. |
| EducationStore.EducationRepository.UpdateEducation | src/Database/Database.Repositories/EducationRepository.cs:79-123 | No record with the id and employee → NotFound. A record matching the raw request values → AlreadyExists. Otherwise the merged record replaces it. |
| EducationStore.EducationRepository.UpdateEducationChecked | src/Database/Database.Repositories/EducationRepository.cs:79-123 | The same update with the clash checked on the merged record, keeping the table free of duplicates. |
| EducationStore.EducationRepository.GetEducations | src/Database/Database.Repositories/EducationRepository.cs:125-148 | The query returns the employee's records, one page read back, on the swapped page. Every item belongs to the employee. |
| EducationStore.EducationRepository.DeleteEducation | src/Database/Database.Repositories/EducationRepository.cs:150-173 | Unknown id → NotFound. Otherwise exactly the first record with the id is removed, keeping both invariants. |
| EducationStore.TenEducationsInPagesOfThree | src/Tests/Project.Repository.Tests/EducationRepositoryTests.cs:196-225 | For ten records in pages of three, the list reports 10 pages where the test expects PageFor's 4. Pages 1 and 2 hold three records each. |
| EmployeeStore.OmittedContactsNeverClash | src/Database/Database.Repositories/EmployeeRepository.cs:101-105 | On a table whose required e-mail column is set, an update that supplies neither e-mail nor phone clashes with no employee. |
| EmployeeStore.AppendKeepsInvariants | src/Database/Database.Repositories/EmployeeRepository.cs:27-35 | An append that no record's id, e-mail or phone clashes with keeps ids and contacts unique. |
| EmployeeStore.RemoveKeepsInvariants | src/Database/Database.Repositories/EmployeeRepository.cs:51-54 | Removing a row keeps ids and contacts unique, and the removed id is gone. |
| EmployeeStore.ApplyEmployeeUpdate | src/Database/Database.Repositories/EmployeeRepository.cs:114-119 | Supplied e-mail, phone, name, photo and duties are written. The birth date is always overwritten, and the id never changes. |
| EmployeeStore.EmployeeUpdateLaws | src/Database/Database.Repositories/EmployeeRepository.cs:114-119 | The update is idempotent. A full update reads back as exactly the request. An empty one changes only the birth date. |
| EmployeeStore.UpdateCheckKeepsContactsUnique | src/Database/Database.Repositories/EmployeeRepository.cs:101-119 | An update that passed the contact check keeps e-mails and phones unique, because an absent value keeps an already unique one. |
| EmployeeStore.EmployeeRepository.AddEmployeeAsWritten | src/Database/Database.Repositories/EmployeeRepository.cs:22-45 | Every add is EmployeeAlreadyExists and nothing is stored. |
| EmployeeStore.EmployeeRepository.AddEmployee | src/Database/Database.Repositories/EmployeeRepository.cs:27-38 | A record with the id, e-mail or phone already stored → AlreadyExists, table unchanged. Otherwise the record is appended and read back with the request's fields. Ids and contacts stay unique. A table whose required name, phone and e-mail columns are set keeps them set. |
| EmployeeStore.EmployeeRepository.DeleteEmployee | src/Database/Database.Repositories/EmployeeRepository.cs:47-67 | Unknown id → EmployeeNotFound. Otherwise exactly the first employee with the id is removed. The required name, phone and e-mail columns stay set. |
| EmployeeStore.EmployeeRepository.GetEmployee | src/Database/Database.Repositories/EmployeeRepository.cs:74-94 | Unknown id → EmployeeNotFound. Otherwise the first employee with the id is converted. |
| EmployeeStore.EmployeeRepository.UpdateEmployee | src/Database/Database.Repositories/EmployeeRepository.cs:96-135 | The contact clash is checked first, giving AlreadyExists even for an unknown id. Then an unknown id → NotFound. Otherwise the first employee with the id is replaced by ApplyEmployeeUpdate, and contacts stay unique. The required name, phone and e-mail columns stay set. |
| EmployeeStore.EmployeeRepository.GetSubordinatesByDirector | src/Database/Database.Repositories/EmployeeRepository.cs:69-72 | Any director gets an empty list on a default page. |
| EmployeeStore.UnusedRequestIsNotTaken | src/Tests/Project.Repository.Tests/EmployeeRepositoryTests.cs:65-92 | A request whose id, e-mail and phone are unused is taken by nobody, so the corrected add stores it. |
| PositionStore.ApplyPositionUpdate | src/Database/Database.Repositories/PositionRepository.cs:109-110 | A supplied title or parent is written. The id and company never change. |
| PositionStore.PositionUpdateLaws | src/Database/Database.Repositories/PositionRepository.cs:109-110 | An empty update is the identity, and the update is idempotent. |
| PositionStore.AppendKeepsUniqueness | src/Database/Database.Repositories/PositionRepository.cs:35-50 | An append whose title is new in its company keeps titles unique. One under an unused id keeps ids unique. |
| PositionStore.UpdateKeepsUniqueness | src/Database/Database.Repositories/PositionRepository.cs:95-111 | An update that passed its checks keeps ids and titles unique. |
| PositionStore.RemoveKeepsUniqueness | src/Database/Database.Repositories/PositionRepository.cs:130-136 | Removing a row keeps ids and titles unique. |
| PositionStore.PositionRepository.AddPosition | src/Database/Database.Repositories/PositionRepository.cs:24-57 | A null request or blank title → ArgumentException. A title taken in the company → PositionAlreadyExist. Otherwise exactly one position is appended with the fresh id, and uniqueness is kept. |
| PositionStore.PositionRepository.GetPositionById | src/Database/Database.Repositories/PositionRepository.cs:59-80 | Unknown id → PositionNotFound. Otherwise the first position with the id is converted. |
| PositionStore.PositionRepository.UpdatePosition | src/Database/Database.Repositories/PositionRepository.cs:82-121 | No position with id and company → NotFound. Another position of the company with the title → AlreadyExist. Otherwise only that row changes, and uniqueness is kept. No cycle check is made. |
| PositionStore.PositionRepository.DeletePosition | src/Database/Database.Repositories/PositionRepository.cs:123-146 | Unknown id → NotFound. Otherwise exactly the first position with the id is removed, and uniqueness is kept. |
| PositionStore.GetSubordinates | src/Database/Database.Repositories/PositionRepository.cs:148-171 | The page of the sub-tree sorted by level then title, with a correctly built page. Items come from the sub-tree, in level order. |
| PositionStore.SliceKeepsOrder | src/Database/Database.Repositories/PositionRepository.cs:156-158 | A page of a level-ordered sequence is level-ordered. |
| PositionStore.HeadOpensFirstPage | src/Tests/Project.Repository.Tests/PositionRepositoryTests.cs:232-273 | The first page of a sub-tree starts with its head, at level 0. |
| PositionStore.SixteenRowsInPagesOfFive | src/Tests/Project.Repository.Tests/PositionRepositoryTests.cs:275-310 | A head with 15 children in pages of 5 gives 16 items, 4 pages and full first pages. |
| PositionStore.CeoSubtreeOrderedIsSorted | src/Tests/Project.Repository.Tests/PositionRepositoryTests.cs:232-273 | The expected order of the test is sorted by level then title. |
| PositionStore.CeoSubtreeShape | src/Tests/Project.Repository.Tests/PositionRepositoryTests.cs:232-273 | The test's rows form CEO's sub-tree. |
| PositionStore.CeoSubtreeDistinct | src/Tests/Project.Repository.Tests/PositionRepositoryTests.cs:232-273 | The rows have distinct (level, title) pairs, and the expected order is a permutation of them. |
| PositionStore.CeoSubtreeOrder | src/Tests/Project.Repository.Tests/PositionRepositoryTests.cs:232-273 | The query returns CEO, CFO, CTO, Architect, Team Lead on one page of five items. |
| PositionHistoryStore.ApplyPositionHistoryUpdate | src/Database/Database.Repositories/PositionHistoryRepository.cs:113-117 | Only the supplied dates are written, and the key never changes. |
| PositionHistoryStore.PositionHistoryUpdateLaws | src/Database/Database.Repositories/PositionHistoryRepository.cs:113-117 | Supplying no start keeps the start. An empty update is the identity. A closed interval stays closed. |
| PositionHistoryStore.OrderByStartDescending | src/Database/Database.Repositories/PositionHistoryRepository.cs:205 | The result is a permutation of the input with start dates non-increasing. |
| PositionHistoryStore.EmployeeHistory | src/Database/Database.Repositories/PositionHistoryRepository.cs:192-199 | The employee's rows in the window, in table order. |
| PositionHistoryStore.HoldersHistory | src/Database/Database.Repositories/PositionHistoryRepository.cs:300-306 | The rows of the given holders in the window, in table order. |
| PositionHistoryStore.PositionHistoryRepository.AddPositionHistory | src/Database/Database.Repositories/PositionHistoryRepository.cs:26-53 | Exactly the given interval is appended and returned, with no overlap check. |
| PositionHistoryStore.PositionHistoryRepository.GetPositionHistory | src/Database/Database.Repositories/PositionHistoryRepository.cs:55-91 | Absent key → NotFound. Otherwise the first record with the key is returned. |
| PositionHistoryStore.PositionHistoryRepository.UpdatePositionHistory | src/Database/Database.Repositories/PositionHistoryRepository.cs:93-138 | Absent key → NotFound, table unchanged. Otherwise only that record's supplied dates change. |
| PositionHistoryStore.PositionHistoryRepository.DeletePositionHistory | src/Database/Database.Repositories/PositionHistoryRepository.cs:140-177 | Absent key → NotFound. Otherwise exactly the first record with the key is removed. |
| PositionHistoryStore.PositionHistoryRepository.GetPositionHistoryByEmployeeId | src/Database/Database.Repositories/PositionHistoryRepository.cs:179-224 | The page of the employee's windowed rows, latest start first, with a correctly built page. |
| PositionHistoryStore.PositionHistoryRepository.GetCurrentEmployeePosition | src/Database/Database.Repositories/PositionHistoryRepository.cs:265-284 | The result is NotFound exactly when the employee has no open record. Otherwise it is an open record of the employee. |
| PositionHistoryStore.PositionHistoryRepository.GetCurrentSubordinatesPositionHistory | src/Database/Database.Repositories/PositionHistoryRepository.cs:286-330 | The page of the holders' windowed rows, unsorted, with a correctly built page. |
| PositionHistoryStore.GetCurrentSubordinates | src/Database/Database.Repositories/PositionHistoryRepository.cs:226-263 | The page of the subordinate rows sorted by level then title. |
| PositionHistoryStore.FourHoldersOnOnePage | src/Tests/Project.Repository.Tests/PositionHistoryRepositoryTests.cs:300-307 | Four rows, the manager's own included, give 4 items on 1 page. |
| PostHistoryStore.ApplyPostHistoryUpdate | src/Database/Database.Repositories/PostHistoryRepository.cs:101-105 | Only the supplied dates are written, and the key never changes. |
| PostHistoryStore.PostHistoryUpdateLaws | src/Tests/Project.Repository.Tests/PostHistoryRepositoryTests.cs:204-231 | Supplying only an end keeps the start. An empty update is the identity. A closed interval stays closed. |
| PostHistoryStore.EmployeeHistory | src/Database/Database.Repositories/PostHistoryRepository.cs:174-181 | The employee's rows in the window, in table order. |
| PostHistoryStore.HoldersHistory | src/Database/Database.Repositories/PostHistoryRepository.cs:219-225 | The rows of the given holders in the window, in table order. |
| PostHistoryStore.PostHistoryRepository.AddPostHistory | src/Database/Database.Repositories/PostHistoryRepository.cs:25-47 | Exactly the given interval is appended and returned. |
| PostHistoryStore.PostHistoryRepository.GetPostHistory | src/Database/Database.Repositories/PostHistoryRepository.cs:49-81 | Absent key → NotFound. Otherwise the first record with the key is returned. |
| PostHistoryStore.PostHistoryRepository.UpdatePostHistory | src/Database/Database.Repositories/PostHistoryRepository.cs:83-124 | Absent key → NotFound, table unchanged. Otherwise only that record's supplied dates change. |
| PostHistoryStore.PostHistoryRepository.DeletePostHistory | src/Database/Database.Repositories/PostHistoryRepository.cs:126-159 | Absent key → NotFound. Otherwise exactly the first record with the key is removed. |
| PostHistoryStore.PostHistoryRepository.GetPostHistoryByEmployeeId | src/Database/Database.Repositories/PostHistoryRepository.cs:161-201 | The page of the employee's windowed rows in table order, with a correctly built page. |
| PostHistoryStore.PostHistoryRepository.GetSubordinatesPostHistory | src/Database/Database.Repositories/PostHistoryRepository.cs:203-245 | The page of the holders' windowed rows, with a correctly built page. |
| PostHistoryStore.ThreeRecordsBoundedWindow | src/Tests/Project.Repository.Tests/PostHistoryRepositoryTests.cs:283-313 | A start bound 35 days back drops the record that ended 40 days ago. |
| PostHistoryStore.ThreeRecordsUnbounded | src/Tests/Project.Repository.Tests/PostHistoryRepositoryTests.cs:251-279 | Without bounds, all three records are kept. |
| PostHistoryStore.ThreeRecordsQueries | src/Tests/Project.Repository.Tests/PostHistoryRepositoryTests.cs:251-313 | Three records in pages of 2 give 2 pages with 2 items on the first. The 35-day window keeps the later two. |
| PostHistoryStore.TenRecordsUnbounded | src/Tests/Project.Repository.Tests/PostHistoryRepositoryTests.cs:317-357 | With all four employees among the holders, all ten records are kept. |
| PostHistoryStore.FebruaryWindowPicks | src/Tests/Project.Repository.Tests/PostHistoryRepositoryTests.cs:361-402 | A start bound of 2020-02-01 keeps the first record and the last six, and drops records 2 to 4. |
| PostHistoryStore.KeepFirstAndLastSix | src/Tests/Project.Repository.Tests/PostHistoryRepositoryTests.cs:361-402 | Filtering those ten rows keeps the first and the last six, seven in all. |
| PostHistoryStore.TenRecordsFromFebruary2020 | src/Tests/Project.Repository.Tests/PostHistoryRepositoryTests.cs:361-402 | The window from 2020-02-01 is exactly those seven records. |
| PostHistoryStore.SevenFromFebruary2020 | src/Tests/Project.Repository.Tests/PostHistoryRepositoryTests.cs:391-402 | Seven records fall in that window. |
| PostHistoryStore.FourHolders | src/Tests/Project.Repository.Tests/PostHistoryRepositoryTests.cs:317-357 | The four employees holding subordinate rows are among the holder ids. |
| PostHistoryStore.TenRecordsInPagesOfThree | src/Tests/Project.Repository.Tests/PostHistoryRepositoryTests.cs:346-357 | Ten records in pages of 3 give 10 items, 4 pages, and 3 on the first page. |
| PostHistoryStore.SevenRecordsInPagesOfFour | src/Tests/Project.Repository.Tests/PostHistoryRepositoryTests.cs:391-402 | From 2020-02-01 in pages of 4, there are 7 items, 2 pages and 4 on the first. |
| PostHistoryStore.FirstOfTwoPages | src/Database/Database.Repositories/PostHistoryRepository.cs:183-194 | Seven rows in pages of four make two pages with four rows on the first. |

## Left out

- Asynchrony, logging, `SaveChangesAsync` and transactions are not modelled. Each operation is one sequential step over the table.
- Concurrency is not modelled, so the check-then-insert races are absent.
- The database's own uniqueness constraints and schema configuration are left out, except the required name, phone and e-mail columns of employees (`EmployeeStore.RequiredColumnsSet`), and so are the DI plumbing and the service layer. The services only wrap the repositories with logging.
- `GetSubordinatesById` and `GetCurrentSubordinatesIdByEmployeeId`, the recursive closure functions on the database context, are not part of this model. Their rows are a parameter of the queries that use them. The `Hierarchy.IsSubtreeOf` predicate states only what the tests fix about them.
- A page size of 0 or less is left out. In the source it is a floating-point division whose `Math.Ceiling` result is cast to `int`. The paged queries require a positive page size.
- Paging.CeilDiv: `Math.Ceiling` over `double` is exact ceiling division for the counts involved, so it is modelled on integers. `int` overflow of `(pageNumber - 1) * pageSize` is not modelled.
- The clock and time zones are parameters:
  - "today" and "now" are passed in;
  - the `ToUniversalTime` and `.DateTime` conversions of the score queries are the identity;
  - the by-position and by-author queries use `.DateTime`, not `ToUniversalTime`, and differ only in time zone.
- Paging.Slice: a page number of 0 or less gives a negative OFFSET, which the database refuses. The model returns the first page instead.
- ScoreStore.ScoreRepository.GetScores: the query has no ORDER BY before `Skip`, so the database may return the rows in any order. The model's table order stands for that unspecified order, so which rows land on a page is fixed only up to it.
- ScoreStore.ScoreRepository.GetScoresByEmployeeId: table order stands for the database's unspecified row order, as for GetScores.
- ScoreStore.ScoreRepository.GetScoresByPositionId: table order stands for the database's unspecified row order, as for GetScores.
- ScoreStore.ScoreRepository.GetScoresByAuthorId: table order stands for the database's unspecified row order, as for GetScores.
- ScoreStore.ScoreRepository.GetScoresSubordinates: table order stands for the database's unspecified row order, as for GetScores.
- EducationStore.EducationRepository.GetEducations: table order stands for the database's unspecified row order, as for GetScores.
- PositionHistoryStore.PositionHistoryRepository.GetCurrentSubordinatesPositionHistory: table order stands for the database's unspecified row order, as for GetScores.
- PostHistoryStore.PostHistoryRepository.GetPostHistoryByEmployeeId: table order stands for the database's unspecified row order, as for GetScores.
- PostHistoryStore.PostHistoryRepository.GetSubordinatesPostHistory: table order stands for the database's unspecified row order, as for GetScores.
- Hierarchy.OrderByLevelThenTitle: the sort is stable, so rows with equal level and title keep table order. SQL leaves the order of such ties unspecified. `Hierarchy.OrderIsDetermined` shows that the order is fixed when there are no ties.
- Hierarchy.OrderWithEmployeeByLevelThenTitle: ties keep table order, as for OrderByLevelThenTitle.
- PositionHistoryStore.OrderByStartDescending: rows with equal start dates keep table order, which SQL does not fix.
- PositionStore.GetSubordinates: the order of level-and-title ties is fixed to table order, as for OrderByLevelThenTitle.
- PositionHistoryStore.GetCurrentSubordinates: the order of level-and-title ties is fixed to table order, as for OrderByLevelThenTitle.
- PositionHistoryStore.PositionHistoryRepository.GetPositionHistoryByEmployeeId: rows with equal start dates keep table order, as for OrderByStartDescending.
- String comparison is ordinal, and no database collation is modelled.
- Title order is ordinal character order.
- A null argument where the model takes a plain value is not modelled. This covers a null `CreationEmployee`, `CreateEducation` or `UpdateEducation`. A null `CreatePosition` is modelled.
- ScoreStore.ScoreRepository.GetScore and the other score operations return the stored `ScoreDb`. The `ScoreConverter` conversion to `BaseScore` and its time-zone shift are not modelled.
- ScoreStore.ScoreRepository.GetScoresSubordinates: the manager's null-position check at ScoreRepository.cs:262-266 is not modelled, because the list it tests is never null.
- The validating constructors of the request models are not modelled:
  - `CreatePositionHistory`, `CreatePostHistory`, `CreateScore` and `Post`;
  - the update requests other than `UpdateScore` and `UpdateEducation`.
  The repositories store what they are given.
- The `EducationLevel` enumeration and its name mapping are not modelled. They appear as opaque parameters: `levelName` and a `parseLevel` that may fail.
- The `EducationConverter` overload from `Education` is not modelled, because no repository uses it.
- The DTO converter, the `*Page` holders, the exceptions and the interfaces are plain data and are left out.

## Findings

| source | as written | input that shows it | evidently intended | confidence | as-written member | corrected member |
|---|---|---|---|---|---|---|
| src/Database/Database.Repositories/ScoreRepository.cs:174 | `new Page(pageNumber, totalItems, pageSize)` passes the count as TotalPages and the page size as TotalItems. ScoreRepository.cs:207 and 240 and EducationRepository.cs:141 do the same. | Three scores of one employee, page 1 of size 10: the page claims 10 items and a next page, and page 2 is empty. The education paging test expects 4 pages for 10 records in pages of 3; the code reports 10. | `new Page(pageNumber, ceil(count/size), count)`, as the other queries build it | high, not executed | ScoreStore.ByEmployeeMisreportsPage | Paging.PageForFlags |
| src/Database/Database.Repositories/EmployeeRepository.cs:31 | The guard tests the converted record `employee`, which is never null, instead of the lookup result `foundEmployee`. | Any request into an empty table is refused, including the one the repository's add test expects to succeed. | Refuse only when the lookup found a record with the id, e-mail or phone | high, not executed | EmployeeStore.EmployeeRepository.AddEmployeeAsWritten | EmployeeStore.EmployeeRepository.AddEmployee |
| src/Database/Database.Repositories/EducationRepository.cs:92-105 | The update's duplicate check compares the other records with the request's raw optional values. An omitted field is null, which matches no stored value. | There are two records (MIT, CS, 2010-09-01 to 2014-06-01) and (Harvard, same). An update of the second supplying only the institution "MIT" passes the check, and the table then holds two records with the same key. | Check the record as it will be after the merge | medium, not executed | EducationStore.PartialUpdateSlipsPastCheck | EducationStore.EducationRepository.UpdateEducationChecked |
