/** EmployeeRepository: employees keyed by id, with add, get, delete, a partial update
    guarded by an e-mail/phone uniqueness check, and a subordinates query that is not
    implemented yet. */
module EmployeeStore {
  import opened Common
  import opened Sequences
  import opened Paging
  import opened PartyModels

  // ----- Keys and invariants -----

  predicate HasId(s: seq<EmployeeDb>, id: Guid)
  {
    exists k :: 0 <= k < |s| && s[k].id == id
  }

  predicate IsFirstWithId(s: seq<EmployeeDb>, k: int, id: Guid)
  {
    0 <= k < |s| && s[k].id == id && forall j :: 0 <= j < k ==> s[j].id != id
  }

  predicate IdsUnique(s: seq<EmployeeDb>)
  {
    forall i, j :: 0 <= i < j < |s| ==> s[i].id != s[j].id
  }

  /** Two employees share a contact: the same e-mail (two absent e-mails count, as SQL's
      `IS NULL` match does under C# null semantics), or the same phone when both have one. */
  predicate ContactsClash(a: EmployeeDb, b: EmployeeDb)
  {
    a.email == b.email || (a.phone.Some? && a.phone == b.phone)
  }

  /** No two employees share a contact. */
  predicate ContactsUnique(s: seq<EmployeeDb>)
  {
    forall i, j :: 0 <= i < j < |s| ==> !ContactsClash(s[i], s[j])
  }

  /** The lookup of the add: a record with the new id, e-mail or phone, each compared with
      C# null semantics. It refuses at least every contact clash. */
  predicate TakenBy(e: EmployeeDb, d: EmployeeDb)
  {
    e.id == d.id || e.email == d.email || e.phone == d.phone
  }

  /** The update's uniqueness check: another employee with the requested e-mail (compared
      with C# null semantics, so an absent e-mail matches every absent one), or with the
      requested phone when both are present. */
  predicate UpdateClash(e: EmployeeDb, u: Employee)
  {
    e.id != u.employeeId
    && (e.email == u.email || (e.phone.Some? && u.phoneNumber.Some? && e.phone == u.phoneNumber))
  }

  /** The full name, phone and e-mail columns are required by the table's schema: a stored
      row always holds all three, whatever the record type lets a caller leave empty. */
  predicate RequiredColumnsSet(s: seq<EmployeeDb>)
  {
    forall i :: 0 <= i < |s| ==> s[i].fullName.Some? && s[i].phone.Some? && s[i].email.Some?
  }

  /** On a table whose required columns are set, an update that supplies neither e-mail nor
      phone clashes with nobody: an absent e-mail in the request never matches a stored one. */
  lemma {:induction false} OmittedContactsNeverClash(s: seq<EmployeeDb>, u: Employee)
    requires RequiredColumnsSet(s) && u.email.None? && u.phoneNumber.None?
    ensures forall i :: 0 <= i < |s| ==> !UpdateClash(s[i], u)
  {
    forall i | 0 <= i < |s|
      ensures !UpdateClash(s[i], u)
    {
      assert s[i].email.Some?;
    }
  }

  lemma {:induction false} AppendKeepsInvariants(s: seq<EmployeeDb>, d: EmployeeDb)
    requires IdsUnique(s) && ContactsUnique(s)
    requires forall i :: 0 <= i < |s| ==> !TakenBy(s[i], d)
    ensures IdsUnique(s + [d]) && ContactsUnique(s + [d])
  {
    var t := s + [d];
    assert forall j :: 0 <= j < |s| ==> t[j] == s[j];
  }

  lemma {:induction false} RemoveKeepsInvariants(s: seq<EmployeeDb>, k: nat)
    requires k < |s|
    ensures ContactsUnique(s) ==> ContactsUnique(RemoveAt(s, k))
    ensures IdsUnique(s) ==> IdsUnique(RemoveAt(s, k)) && !HasId(RemoveAt(s, k), s[k].id)
  {
    var t := RemoveAt(s, k);
    forall i, j | 0 <= i < j < |t|
      ensures t[i] == s[if i < k then i else i + 1] && t[j] == s[if j < k then j else j + 1]
    {
    }
    if IdsUnique(s) {
      forall j | 0 <= j < |t|
        ensures t[j].id != s[k].id
      {
        if j < k {
          assert t[j] == s[j];
        } else {
          assert t[j] == s[j + 1];
        }
      }
    }
  }

  // ----- Partial update -----

  /** What an update writes: each supplied e-mail, phone, name, photo and duties, and the
      birth date always; the id never changes. */
  function ApplyEmployeeUpdate(d: EmployeeDb, u: Employee): (r: EmployeeDb)
    ensures r.id == d.id && r.birthDate == u.birthDate
    ensures r.email == (if u.email.Some? then u.email else d.email)
    ensures r.phone == (if u.phoneNumber.Some? then u.phoneNumber else d.phone)
    ensures r.fullName == (if u.fullName.Some? then u.fullName else d.fullName)
    ensures r.photo == (if u.photo.Some? then u.photo else d.photo)
    ensures r.duties == (if u.duties.Some? then u.duties else d.duties)
  {
    d.(email := if u.email.Some? then u.email else d.email,
       phone := if u.phoneNumber.Some? then u.phoneNumber else d.phone,
       fullName := if u.fullName.Some? then u.fullName else d.fullName,
       birthDate := u.birthDate,
       photo := if u.photo.Some? then u.photo else d.photo,
       duties := if u.duties.Some? then u.duties else d.duties)
  }

  /** Applying an update twice is applying it once; an update that supplies every field reads
      back as exactly the requested employee; one that supplies nothing changes only the birth
      date. */
  lemma {:induction false} EmployeeUpdateLaws(d: EmployeeDb, u: Employee)
    ensures ApplyEmployeeUpdate(ApplyEmployeeUpdate(d, u), u) == ApplyEmployeeUpdate(d, u)
    ensures (u.employeeId == d.id && u.email.Some? && u.phoneNumber.Some? && u.fullName.Some?
             && u.photo.Some? && u.duties.Some?) ==> EmployeeFromDb(Some(ApplyEmployeeUpdate(d, u))) == Some(u)
    ensures u.email.None? && u.phoneNumber.None? && u.fullName.None? && u.photo.None? && u.duties.None? ==>
              ApplyEmployeeUpdate(d, u) == d.(birthDate := u.birthDate)
  {
    var m := ApplyEmployeeUpdate(d, u);
    assert EmployeeFromDb(Some(m)).value == Employee(m.id, m.fullName, m.phone, m.email, m.birthDate, m.photo, m.duties);
  }

  /** When no other employee clashes with the request, none clashes with the merged record
      either: an absent e-mail or phone keeps the old value, which was already unique. */
  lemma {:induction false} UpdateCheckKeepsContactsUnique(s: seq<EmployeeDb>, k: int, u: Employee)
    requires IdsUnique(s) && ContactsUnique(s) && 0 <= k < |s| && s[k].id == u.employeeId
    requires forall i :: 0 <= i < |s| ==> !UpdateClash(s[i], u)
    ensures IdsUnique(s[k := ApplyEmployeeUpdate(s[k], u)]) && ContactsUnique(s[k := ApplyEmployeeUpdate(s[k], u)])
  {
    var m := ApplyEmployeeUpdate(s[k], u);
    var t := s[k := m];
    forall i | 0 <= i < |s| && i != k
      ensures !ContactsClash(s[i], m) && !ContactsClash(m, s[i])
    {
      assert s[i].id != u.employeeId;
      assert !UpdateClash(s[i], u);
      if i < k {
        assert !ContactsClash(s[i], s[k]);
      } else {
        assert !ContactsClash(s[k], s[i]);
      }
    }
    forall i, j | 0 <= i < j < |t|
      ensures !ContactsClash(t[i], t[j])
    {
      if i != k && j != k {
        assert t[i] == s[i] && t[j] == s[j];
      }
    }
  }

  class EmployeeRepository {
    var employees: seq<EmployeeDb>

    constructor(initial: seq<EmployeeDb>)
      ensures employees == initial
    {
      employees := initial;
    }

    /** AddEmployeeAsync as written: the guard tests the freshly converted record, which is
        never null, instead of the lookup's result, so every add is refused. */
    method AddEmployeeAsWritten(c: CreationEmployee, freshId: Guid) returns (r: Result<Employee>)
      modifies this
      ensures r == Failure(EmployeeAlreadyExists)
      ensures employees == old(employees)
    {
      var d := EmployeeDbFromCreation(Some(c), freshId).value;
      var found := FirstIndex(employees, (e: EmployeeDb) => TakenBy(e, d));
      // The guard tests `d`, which is never null, rather than `found`: the insert after it
      // is unreachable.
      r := Failure(EmployeeAlreadyExists);
    }

    /** The add with the guard on the lookup: refused when a record has the new id, e-mail or
        phone; otherwise stored and read back with the request's fields. */
    method AddEmployee(c: CreationEmployee, freshId: Guid) returns (r: Result<Employee>)
      modifies this
      ensures var d := EmployeeDbFromCreation(Some(c), freshId).value;
              ((exists i :: 0 <= i < |old(employees)| && TakenBy(old(employees)[i], d)) ==>
                 r == Failure(EmployeeAlreadyExists) && employees == old(employees))
              && ((forall i :: 0 <= i < |old(employees)| ==> !TakenBy(old(employees)[i], d)) ==>
                    employees == old(employees) + [d]
                    && r == Success(Employee(freshId, Some(c.fullName), Some(c.phoneNumber), Some(c.email),
                                             c.birthDate, c.photo, c.duties)))
      ensures IdsUnique(old(employees)) && ContactsUnique(old(employees)) ==>
                IdsUnique(employees) && ContactsUnique(employees)
      ensures RequiredColumnsSet(old(employees)) ==> RequiredColumnsSet(employees)
    {
      var d := EmployeeDbFromCreation(Some(c), freshId).value;
      var found := FirstIndex(employees, (e: EmployeeDb) => TakenBy(e, d));
      if found.Some? {
        return Failure(EmployeeAlreadyExists);
      }
      if IdsUnique(employees) && ContactsUnique(employees) {
        AppendKeepsInvariants(employees, d);
      }
      employees := employees + [d];
      r := Success(EmployeeFromDb(Some(d)).value);
    }

    /** DeleteEmployeeAsync: removes the first employee with the id. */
    method DeleteEmployee(id: Guid) returns (r: Result<()>)
      modifies this
      ensures !HasId(old(employees), id) <==> r == Failure(EmployeeNotFound)
      ensures r.Failure? ==> employees == old(employees)
      ensures r.Success? ==>
                exists k :: IsFirstWithId(old(employees), k, id) && employees == RemoveAt(old(employees), k)
      ensures ContactsUnique(old(employees)) ==> ContactsUnique(employees)
      ensures r.Success? && IdsUnique(old(employees)) ==> IdsUnique(employees) && !HasId(employees, id)
      ensures RequiredColumnsSet(old(employees)) ==> RequiredColumnsSet(employees)
    {
      var found := FirstIndex(employees, (e: EmployeeDb) => e.id == id);
      if found.None? {
        return Failure(EmployeeNotFound);
      }
      var k := found.value;
      assert IsFirstWithId(employees, k, id);
      RemoveKeepsInvariants(employees, k);
      employees := RemoveAt(employees, k);
      r := Success(());
    }

    /** GetEmployeeByIdAsync: the first employee with the id, or EmployeeNotFound. */
    function GetEmployee(id: Guid): (r: Result<Employee>)
      reads this
      ensures !HasId(employees, id) <==> r == Failure(EmployeeNotFound)
      ensures HasId(employees, id) ==>
                exists k :: IsFirstWithId(employees, k, id) && r.Success? && Some(r.value) == EmployeeFromDb(Some(employees[k]))
      ensures r.Success? ==> r.value.employeeId == id
    {
      match FirstIndex(employees, (e: EmployeeDb) => e.id == id)
      case None => Failure(EmployeeNotFound)
      case Some(k) =>
        assert IsFirstWithId(employees, k, id);
        Success(EmployeeFromDb(Some(employees[k])).value)
    }

    /** UpdateEmployeeAsync: the uniqueness check runs first, so a request for an unknown id
        whose e-mail is taken is refused as a duplicate; then the employee must exist; then
        the supplied fields are written. The contact uniqueness of the table is kept. */
    method UpdateEmployee(u: Employee) returns (r: Result<Employee>)
      modifies this
      ensures (exists i :: 0 <= i < |old(employees)| && UpdateClash(old(employees)[i], u)) ==>
                r == Failure(EmployeeAlreadyExists) && employees == old(employees)
      ensures (forall i :: 0 <= i < |old(employees)| ==> !UpdateClash(old(employees)[i], u)) ==>
                (!HasId(old(employees), u.employeeId) ==> r == Failure(EmployeeNotFound) && employees == old(employees))
                && (HasId(old(employees), u.employeeId) ==>
                      exists k :: IsFirstWithId(old(employees), k, u.employeeId)
                        && employees == old(employees)[k := ApplyEmployeeUpdate(old(employees)[k], u)]
                        && r.Success? && Some(r.value) == EmployeeFromDb(Some(employees[k])))
      ensures IdsUnique(old(employees)) && ContactsUnique(old(employees)) ==>
                IdsUnique(employees) && ContactsUnique(employees)
      ensures RequiredColumnsSet(old(employees)) ==> RequiredColumnsSet(employees)
    {
      var clash := FirstIndex(employees, (e: EmployeeDb) => UpdateClash(e, u));
      if clash.Some? {
        return Failure(EmployeeAlreadyExists);
      }
      var found := FirstIndex(employees, (e: EmployeeDb) => e.id == u.employeeId);
      if found.None? {
        return Failure(EmployeeNotFound);
      }
      var k := found.value;
      assert IsFirstWithId(employees, k, u.employeeId);
      if IdsUnique(employees) && ContactsUnique(employees) {
        UpdateCheckKeepsContactsUnique(employees, k, u);
      }
      employees := employees[k := ApplyEmployeeUpdate(employees[k], u)];
      r := Success(EmployeeFromDb(Some(employees[k])).value);
    }

    /** GetSubordinatesByDirectorIdAsync: not implemented; an empty list on a default page,
        whoever the director is. */
    function GetSubordinatesByDirector(directorId: Guid): (r: Paged<Employee>)
      ensures r.items == [] && !r.page.HasPreviousPage() && !r.page.HasNextPage()
      ensures r.page.totalItems == 0
    {
      Paged([], DefaultPage)
    }
  }

  /** A request whose id, e-mail and phone are all unused is taken by nobody, so the corrected
      add stores it, where the add as written refuses it (the repository's own tests add such a
      request to an empty table and expect it back). */
  lemma {:induction false} UnusedRequestIsNotTaken(s: seq<EmployeeDb>, c: CreationEmployee, freshId: Guid)
    requires !HasId(s, freshId)
    requires forall i :: 0 <= i < |s| ==> s[i].email != Some(c.email) && s[i].phone != Some(c.phoneNumber)
    ensures forall i :: 0 <= i < |s| ==> !TakenBy(s[i], EmployeeDbFromCreation(Some(c), freshId).value)
  {
  }
}
