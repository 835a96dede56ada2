/** Employees and companies: the stored records and the converters between them and the core
    models. Every reference-typed field of `Employee` and `EmployeeDb` is optional here: the
    parameterless `Employee()` leaves them null and the update path coalesces them, so null
    reaches the converters whatever the declared nullability says. */
module PartyModels {
  import opened Common

  /** EmployeeDb.cs */
  datatype EmployeeDb = EmployeeDb(
    id: Guid,
    fullName: Option<string>,
    phone: Option<string>,
    email: Option<string>,
    birthDate: Date,
    photo: Option<string>,
    duties: Option<string>)

  /** The core `Employee`. */
  datatype Employee = Employee(
    employeeId: Guid,
    fullName: Option<string>,
    phoneNumber: Option<string>,
    email: Option<string>,
    birthDate: Date,
    photo: Option<string>,
    duties: Option<string>)

  /** The core `CreationEmployee`: name, phone and e-mail are required, photo and duties are not. */
  datatype CreationEmployee = CreationEmployee(
    fullName: string,
    phoneNumber: string,
    email: string,
    birthDate: Date,
    photo: Option<string>,
    duties: Option<string>)

  /** EmployeeConverter, EmployeeDb overload: every field is copied. */
  function EmployeeFromDb(d: Option<EmployeeDb>): (r: Option<Employee>)
    ensures r.None? <==> d.None?
    ensures d.Some? ==> (r.value.employeeId == d.value.id && r.value.fullName == d.value.fullName
                         && r.value.phoneNumber == d.value.phone && r.value.email == d.value.email
                         && r.value.birthDate == d.value.birthDate && r.value.photo == d.value.photo
                         && r.value.duties == d.value.duties)
  {
    match d
    case None => None
    case Some(x) => Some(Employee(x.id, x.fullName, x.phone, x.email, x.birthDate, x.photo, x.duties))
  }

  /** EmployeeConverter, CreationEmployee overload: a fresh id, every field copied. */
  function EmployeeDbFromCreation(c: Option<CreationEmployee>, freshId: Guid): (r: Option<EmployeeDb>)
    ensures r.None? <==> c.None?
    ensures c.Some? ==> (r.value.id == freshId && r.value.fullName == Some(c.value.fullName)
                         && r.value.phone == Some(c.value.phoneNumber) && r.value.email == Some(c.value.email)
                         && r.value.birthDate == c.value.birthDate && r.value.photo == c.value.photo
                         && r.value.duties == c.value.duties)
  {
    match c
    case None => None
    case Some(x) => Some(EmployeeDb(freshId, Some(x.fullName), Some(x.phoneNumber), Some(x.email),
                                    x.birthDate, x.photo, x.duties))
  }

  /** EmployeeConverter, Employee overload: it too draws a fresh id, so the employee's own id is dropped. */
  function EmployeeDbFromEmployee(e: Option<Employee>, freshId: Guid): (r: Option<EmployeeDb>)
    ensures r.None? <==> e.None?
    ensures e.Some? ==> (r.value.id == freshId && r.value.fullName == e.value.fullName
                         && r.value.phone == e.value.phoneNumber && r.value.email == e.value.email
                         && r.value.birthDate == e.value.birthDate && r.value.photo == e.value.photo
                         && r.value.duties == e.value.duties)
  {
    match e
    case None => None
    case Some(x) => Some(EmployeeDb(freshId, x.fullName, x.phoneNumber, x.email, x.birthDate, x.photo, x.duties))
  }

  /** Employee -> EmployeeDb -> Employee keeps every field but the id, which becomes the fresh one;
      so the round trip is the identity exactly when the fresh id happens to equal the old one. */
  lemma {:induction false} EmployeeRoundTripLosesId(e: Employee, freshId: Guid)
    ensures EmployeeFromDb(EmployeeDbFromEmployee(Some(e), freshId)) == Some(e.(employeeId := freshId))
    ensures EmployeeFromDb(EmployeeDbFromEmployee(Some(e), freshId)) == Some(e) <==> freshId == e.employeeId
  {
    var d := EmployeeDbFromEmployee(Some(e), freshId).value;
    assert d == EmployeeDb(freshId, e.fullName, e.phoneNumber, e.email, e.birthDate, e.photo, e.duties);
  }

  /** EmployeeDb -> Employee -> EmployeeDb keeps every field but the id. */
  lemma {:induction false} EmployeeDbRoundTripLosesId(d: EmployeeDb, freshId: Guid)
    ensures EmployeeDbFromEmployee(EmployeeFromDb(Some(d)), freshId) == Some(d.(id := freshId))
  {
    var e := EmployeeFromDb(Some(d)).value;
    assert e == Employee(d.id, d.fullName, d.phone, d.email, d.birthDate, d.photo, d.duties);
  }

  /** CompanyDb.cs: the company's registration details. */
  datatype CompanyDb = CompanyDb(
    companyId: Guid, title: string, registrationDate: Date, phoneNumber: string, email: string,
    inn: string, kpp: string, ogrn: string, address: string)

  /** The core `Company`. */
  datatype Company = Company(
    companyId: Guid, title: string, registrationDate: Date, phoneNumber: string, email: string,
    inn: string, kpp: string, ogrn: string, address: string)

  /** The core `CreationCompany`: the same details without an id. */
  datatype CreationCompany = CreationCompany(
    title: string, registrationDate: Date, phoneNumber: string, email: string,
    inn: string, kpp: string, ogrn: string, address: string)

  /** CompanyConverter, CreationCompany overload: a fresh id and the eight details copied. */
  function CompanyDbFromCreation(c: Option<CreationCompany>, freshId: Guid): (r: Option<CompanyDb>)
    ensures r.None? <==> c.None?
    ensures c.Some? ==> (r.value.companyId == freshId && r.value.title == c.value.title
                         && r.value.registrationDate == c.value.registrationDate
                         && r.value.phoneNumber == c.value.phoneNumber && r.value.email == c.value.email
                         && r.value.inn == c.value.inn && r.value.kpp == c.value.kpp
                         && r.value.ogrn == c.value.ogrn && r.value.address == c.value.address)
  {
    match c
    case None => None
    case Some(x) => Some(CompanyDb(freshId, x.title, x.registrationDate, x.phoneNumber, x.email,
                                   x.inn, x.kpp, x.ogrn, x.address))
  }

  /** CompanyConverter, Company overload: the id and all details are kept. */
  function CompanyDbFromCompany(c: Option<Company>): (r: Option<CompanyDb>)
    ensures r.None? <==> c.None?
    ensures c.Some? ==> (r.value.companyId == c.value.companyId && r.value.title == c.value.title
                         && r.value.registrationDate == c.value.registrationDate
                         && r.value.phoneNumber == c.value.phoneNumber && r.value.email == c.value.email
                         && r.value.inn == c.value.inn && r.value.kpp == c.value.kpp
                         && r.value.ogrn == c.value.ogrn && r.value.address == c.value.address)
  {
    match c
    case None => None
    case Some(x) => Some(CompanyDb(x.companyId, x.title, x.registrationDate, x.phoneNumber, x.email,
                                   x.inn, x.kpp, x.ogrn, x.address))
  }

  /** CompanyConverter, CompanyDb overload. */
  function CompanyFromDb(d: Option<CompanyDb>): (r: Option<Company>)
    ensures r.None? <==> d.None?
    ensures d.Some? ==> (r.value.companyId == d.value.companyId && r.value.title == d.value.title
                         && r.value.registrationDate == d.value.registrationDate
                         && r.value.phoneNumber == d.value.phoneNumber && r.value.email == d.value.email
                         && r.value.inn == d.value.inn && r.value.kpp == d.value.kpp
                         && r.value.ogrn == d.value.ogrn && r.value.address == d.value.address)
  {
    match d
    case None => None
    case Some(x) => Some(Company(x.companyId, x.title, x.registrationDate, x.phoneNumber, x.email,
                                 x.inn, x.kpp, x.ogrn, x.address))
  }

  /** Company -> CompanyDb -> Company and back are the identity. */
  lemma CompanyRoundTrips(c: Option<Company>, d: Option<CompanyDb>)
    ensures CompanyFromDb(CompanyDbFromCompany(c)) == c
    ensures CompanyDbFromCompany(CompanyFromDb(d)) == d
  {
  }

  /** A created company reads back with the fresh id and exactly the requested details. */
  lemma CreatedCompanyReadsBack(c: CreationCompany, freshId: Guid)
    ensures CompanyFromDb(CompanyDbFromCreation(Some(c), freshId)) ==
              Some(Company(freshId, c.title, c.registrationDate, c.phoneNumber, c.email, c.inn, c.kpp, c.ogrn, c.address))
  {
  }
}
