/** backend/routers/auth.py: company sign-up, company-scoped login and the
    current user's profile. bcrypt and the JWT encoder are parameters:
    `hashPassword`, `verifyPassword` (plain, hashed) and `issueToken` (the
    token for a user id). */
module AuthRouter {
  import opened Wrappers
  import opened Models

  datatype SignupRequest = SignupRequest(
    name: string,
    email: string,
    password: string,
    companyName: string,
    themeId: string)

  datatype LoginRequest = LoginRequest(email: string, password: string, companyName: string)

  datatype UserResponse = UserResponse(
    id: int,
    name: string,
    email: string,
    role: Role,
    companyId: Option<int>,
    companyName: string,
    departmentId: Option<int>,
    departmentName: Option<string>)

  datatype TokenResponse = TokenResponse(accessToken: string, user: UserResponse)

  predicate CompanyNameTaken(companies: seq<Company>, name: string)
  {
    exists c :: c in companies && c.name == name
  }

  /** Any user in any company has this email. */
  predicate EmailUsedAnywhere(users: seq<User>, email: string)
  {
    exists u :: u in users && u.email == email
  }

  /** `signup`: 400 when the company name exists, then 400 when the email is
      used in any company; otherwise one new company with the requested theme
      and one new admin user belonging to it. */
  method Signup(db: Database, data: SignupRequest, hashPassword: string -> string, issueToken: int -> string)
    returns (r: Response<TokenResponse>)
    requires db.Valid()
    modifies db
    ensures db.Valid()
    ensures CompanyNameTaken(old(db.companies), data.companyName)
      ==> r == Err(HttpError(400, "Company name already registered"))
    ensures !CompanyNameTaken(old(db.companies), data.companyName) && EmailUsedAnywhere(old(db.users), data.email)
      ==> r == Err(HttpError(400, "Email already registered"))
    ensures r.Err? ==> (db.companies == old(db.companies) && db.users == old(db.users)
      && (CompanyNameTaken(old(db.companies), data.companyName) || EmailUsedAnywhere(old(db.users), data.email)))
    ensures r.Ok? ==> (exists c: Company, u: User ::
      c.name == data.companyName && c.themeId == data.themeId && c.customLabels.None?
      && (forall c' :: c' in old(db.companies) ==> c'.id != c.id)
      && u.name == data.name && u.email == data.email && u.hashedPassword == hashPassword(data.password)
      && u.role == Admin && u.companyId == Some(c.id) && u.departmentId.None?
      && (forall u' :: u' in old(db.users) ==> u'.id != u.id)
      && db.companies == old(db.companies) + [c]
      && db.users == old(db.users) + [u]
      && r.value == TokenResponse(issueToken(u.id),
           UserResponse(u.id, u.name, u.email, Admin, Some(c.id), c.name, None, None)))
    ensures db.students == old(db.students) && db.attendance == old(db.attendance)
      && db.departments == old(db.departments)
  {
    if exists c :: c in db.companies && c.name == data.companyName {
      return Err(HttpError(400, "Company name already registered"));
    }
    if exists u :: u in db.users && u.email == data.email {
      return Err(HttpError(400, "Email already registered"));
    }
    var company := Company(db.nextCompanyId, data.companyName, data.themeId, None);
    forall i | 0 <= i < |db.companies| ensures CompaniesCompatible(db.companies[i], company) {
      assert db.companies[i] in db.companies;
    }
    db.companies := db.companies + [company];
    db.nextCompanyId := db.nextCompanyId + 1;

    var user := User(db.nextUserId, data.name, data.email, hashPassword(data.password), Admin, Some(company.id), None);
    forall i | 0 <= i < |db.users| ensures UsersCompatible(db.users[i], user) {
      assert db.users[i] in db.users;
    }
    db.users := db.users + [user];
    db.nextUserId := db.nextUserId + 1;
    r := Ok(TokenResponse(issueToken(user.id),
      UserResponse(user.id, user.name, user.email, user.role, Some(company.id), company.name, None, None)));
  }

  /** The first company with this name. */
  function CompanyByName(companies: seq<Company>, name: string): (r: Option<Company>)
    ensures r.Some? ==> r.value in companies && r.value.name == name
    ensures r.None? <==> !CompanyNameTaken(companies, name)
  {
    if companies == [] then None
    else if companies[0].name == name then Some(companies[0])
    else
      assert forall c :: c in companies[1..] ==> c in companies;
      assert companies == [companies[0]] + companies[1..];
      CompanyByName(companies[1..], name)
  }

  /** The first user of the company with this email. */
  function UserInCompany(users: seq<User>, email: string, companyId: int): (r: Option<User>)
    ensures r.Some? ==> r.value in users && r.value.email == email && r.value.companyId == Some(companyId)
    ensures r.None? <==> !exists u :: u in users && u.email == email && u.companyId == Some(companyId)
  {
    if users == [] then None
    else if users[0].email == email && users[0].companyId == Some(companyId) then Some(users[0])
    else
      assert forall u :: u in users[1..] ==> u in users;
      assert users == [users[0]] + users[1..];
      UserInCompany(users[1..], email, companyId)
  }

  function DepartmentName(departments: seq<Department>, id: Option<int>): Option<string>
  {
    match DepartmentById(departments, id)
    case Some(d) => Some(d.name)
    case None => None
  }

  /** `login`: 401 for an unknown company name; the user is looked up only
      inside that company, and a missing user and a wrong password give the
      same 401. */
  function Login(db: Database, data: LoginRequest, verifyPassword: (string, string) -> bool, issueToken: int -> string)
    : (r: Response<TokenResponse>)
    reads db
    ensures !CompanyNameTaken(db.companies, data.companyName) ==> r == Err(HttpError(401, "Invalid company name"))
    ensures r.Err? && CompanyNameTaken(db.companies, data.companyName) ==> r == Err(HttpError(401, "Invalid email or password"))
    ensures r.Ok? ==> exists c, u :: (c in db.companies && c.name == data.companyName
      && u in db.users && u.email == data.email && u.companyId == Some(c.id)
      && verifyPassword(data.password, u.hashedPassword)
      && r.value.accessToken == issueToken(u.id)
      && r.value.user == UserResponse(u.id, u.name, u.email, u.role, Some(c.id), c.name,
           u.departmentId, DepartmentName(db.departments, u.departmentId)))
  {
    match CompanyByName(db.companies, data.companyName)
    case None => Err(HttpError(401, "Invalid company name"))
    case Some(company) =>
      match UserInCompany(db.users, data.email, company.id)
      case None => Err(HttpError(401, "Invalid email or password"))
      case Some(user) =>
        if !verifyPassword(data.password, user.hashedPassword) then Err(HttpError(401, "Invalid email or password"))
        else Ok(TokenResponse(issueToken(user.id),
          UserResponse(user.id, user.name, user.email, user.role, Some(company.id), company.name,
            user.departmentId, DepartmentName(db.departments, user.departmentId))))
  }

  /** A user whose email exists only in other companies cannot log in through
      this company. */
  lemma LoginScoped(db: Database, data: LoginRequest, verifyPassword: (string, string) -> bool, issueToken: int -> string)
    requires CompanyNameTaken(db.companies, data.companyName)
    requires forall c, u :: (c in db.companies && c.name == data.companyName && u in db.users && u.email == data.email
      ==> u.companyId != Some(c.id))
    ensures Login(db, data, verifyPassword, issueToken) == Err(HttpError(401, "Invalid email or password"))
  {
    var company := CompanyByName(db.companies, data.companyName).value;
    assert UserInCompany(db.users, data.email, company.id).None?;
  }

  /** With names unique per table, the right password of the one user with
      this email in the named company logs that user in. */
  lemma LoginSucceeds(db: Database, data: LoginRequest, verifyPassword: (string, string) -> bool,
                      issueToken: int -> string, c: Company, u: User)
    requires db.CompaniesValid() && db.UsersValid()
    requires c in db.companies && c.name == data.companyName
    requires u in db.users && u.email == data.email && u.companyId == Some(c.id)
    requires verifyPassword(data.password, u.hashedPassword)
    ensures Login(db, data, verifyPassword, issueToken).Ok?
    ensures Login(db, data, verifyPassword, issueToken).value.user.id == u.id
    ensures Login(db, data, verifyPassword, issueToken).value.user.companyName == data.companyName
  {
    var c0 := CompanyByName(db.companies, data.companyName).value;
    var i :| 0 <= i < |db.companies| && db.companies[i] == c;
    var i0 :| 0 <= i0 < |db.companies| && db.companies[i0] == c0;
    assert i == i0;
    var u0 := UserInCompany(db.users, data.email, c.id).value;
    var j :| 0 <= j < |db.users| && db.users[j] == u;
    var j0 :| 0 <= j0 < |db.users| && db.users[j0] == u0;
    assert j == j0;
  }

  /** `get_me`: the caller's profile; the company name is "" when the caller's
      company row does not exist, and the department name is absent when the
      caller has no department row. */
  function GetMe(db: Database, current: User): (r: UserResponse)
    reads db
    ensures r.id == current.id && r.name == current.name && r.email == current.email && r.role == current.role
    ensures r.companyId == current.companyId && r.departmentId == current.departmentId
    ensures CompanyById(db.companies, current.companyId).None? ==> r.companyName == ""
    ensures CompanyById(db.companies, current.companyId).Some? ==> r.companyName == CompanyById(db.companies, current.companyId).value.name
    ensures DepartmentById(db.departments, current.departmentId).None? ==> r.departmentName.None?
    ensures DepartmentById(db.departments, current.departmentId).Some?
      ==> r.departmentName == Some(DepartmentById(db.departments, current.departmentId).value.name)
  {
    var companyName := match CompanyById(db.companies, current.companyId)
      case Some(c) => c.name
      case None => "";
    UserResponse(current.id, current.name, current.email, current.role, current.companyId, companyName,
      current.departmentId, DepartmentName(db.departments, current.departmentId))
  }
}
