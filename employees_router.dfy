/** backend/routers/employees.py: an admin lists, creates and deletes the
    employee accounts of their own company. The random choices of
    `secrets.choice` are a parameter (`picks`), and so is bcrypt
    (`hashPassword`). */
module EmployeesRouter {
  import opened Wrappers
  import opened Seqs
  import opened Models

  /** The body of `POST /api/employees/`. */
  datatype EmployeeCreate = EmployeeCreate(name: string, email: string, departmentId: Option<int>)

  datatype EmployeeResponse = EmployeeResponse(
    id: int,
    name: string,
    email: string,
    role: Role,
    departmentId: Option<int>,
    departmentName: Option<string>,
    generatedPassword: Option<string>)

  /** `n` consecutive characters starting at `first`. */
  function CharRange(first: char, n: nat): (r: string)
    requires first as int + n < 0xD800
    ensures |r| == n
    ensures forall i :: 0 <= i < n ==> r[i] as int == first as int + i
  {
    seq(n, i requires 0 <= i < n => (first as int + i) as char)
  }

  /** `string.ascii_letters + string.digits`: a-z, A-Z, 0-9. */
  const PasswordAlphabet: string := CharRange('a', 26) + CharRange('A', 26) + CharRange('0', 10)

  predicate IsAsciiLetterOrDigit(c: char)
  {
    'a' <= c <= 'z' || 'A' <= c <= 'Z' || '0' <= c <= '9'
  }

  lemma AlphabetShape()
    ensures |PasswordAlphabet| == 62
    ensures forall i :: 0 <= i < 62 ==> IsAsciiLetterOrDigit(PasswordAlphabet[i])
    ensures forall i, j :: 0 <= i < j < 62 ==> PasswordAlphabet[i] != PasswordAlphabet[j]
  {
    assert forall i :: 0 <= i < 62 ==> (PasswordAlphabet[i] as int ==
      if i < 26 then 'a' as int + i else if i < 52 then 'A' as int + i - 26 else '0' as int + i - 52);
  }

  /** `generate_password`: one character of the alphabet per pick. */
  function GeneratePassword(picks: seq<nat>): (r: string)
    requires forall i :: 0 <= i < |picks| ==> picks[i] < 62
    ensures |r| == |picks|
    ensures forall i :: 0 <= i < |r| ==> IsAsciiLetterOrDigit(r[i])
  {
    AlphabetShape();
    seq(|picks|, i requires 0 <= i < |picks| => PasswordAlphabet[picks[i]])
  }

  /** Every string over the alphabet is some sequence of picks, so nothing
      but length and alphabet is fixed. */
  lemma EveryPasswordPossible(pw: string)
    requires forall i :: 0 <= i < |pw| ==> IsAsciiLetterOrDigit(pw[i])
    ensures exists picks: seq<nat> ::
      (forall i :: 0 <= i < |picks| ==> picks[i] < 62) && GeneratePassword(picks) == pw
  {
    var picks := seq(|pw|, i requires 0 <= i < |pw| => PickOf(pw[i]));
    assert GeneratePassword(picks) == pw;
  }

  function PickOf(c: char): (n: nat)
    requires IsAsciiLetterOrDigit(c)
    ensures n < 62 && PasswordAlphabet[n] == c
  {
    AlphabetShape();
    if 'a' <= c <= 'z' then c as int - 'a' as int
    else if 'A' <= c <= 'Z' then c as int - 'A' as int + 26
    else c as int - '0' as int + 52
  }

  /** `User.company_id == company, User.role == UserRole.employee`. */
  function IsEmployeeOf(company: Option<int>): User -> bool
  {
    (u: User) => u.companyId == company && u.role == Employee
  }

  function OutsideCompany(company: Option<int>): User -> bool
  {
    (u: User) => u.companyId != company
  }

  /** The company's employees, newest first. */
  function EmployeesOf(users: seq<User>, company: Option<int>): (r: seq<User>)
    requires Pairwise(users, UsersCompatible)
    ensures forall u :: u in r <==> u in users && u.companyId == company && u.role == Employee
    ensures forall i, j :: 0 <= i < j < |r| ==> r[i].id > r[j].id
  {
    var mine := Filter(users, IsEmployeeOf(company));
    PairwiseFilter(users, UsersCompatible, IsEmployeeOf(company));
    forall u ensures u in mine <==> u in users && u.companyId == company && u.role == Employee {
      FilterMembers(users, IsEmployeeOf(company), u);
    }
    var r := Reverse(mine);
    assert forall u :: u in r <==> u in mine by {
      forall u ensures u in r <==> u in mine {
        if u in mine {
          var k :| 0 <= k < |mine| && mine[k] == u;
          assert r[|mine| - 1 - k] == u;
        }
      }
    }
    r
  }

  /** An `EmployeeResponse` for `u`; `department_name` follows the
      `department_id` reference, and is None when it leads nowhere. */
  function EmployeeView(u: User, departments: seq<Department>, password: Option<string>): EmployeeResponse
  {
    EmployeeResponse(u.id, u.name, u.email, u.role, u.departmentId,
      match DepartmentById(departments, u.departmentId)
      case Some(d) => Some(d.name)
      case None => None,
      password)
  }

  /** `list_employees`. */
  method ListEmployees(db: Database, current: User) returns (result: seq<EmployeeResponse>)
    requires db.UsersValid() && current.role == Admin
    ensures |result| == |EmployeesOf(db.users, current.companyId)|
    ensures forall i :: 0 <= i < |result| ==>
      result[i] == EmployeeView(EmployeesOf(db.users, current.companyId)[i], db.departments, None)
  {
    var employees := EmployeesOf(db.users, current.companyId);
    result := [];
    var i := 0;
    while i < |employees|
      invariant 0 <= i <= |employees|
      invariant |result| == i
      invariant forall k :: 0 <= k < i ==> result[k] == EmployeeView(employees[k], db.departments, None)
    {
      var emp := employees[i];
      var deptName := match DepartmentById(db.departments, emp.departmentId)
        case Some(d) => Some(d.name)
        case None => None;
      result := result + [EmployeeResponse(emp.id, emp.name, emp.email, emp.role, emp.departmentId, deptName, None)];
      i := i + 1;
    }
  }

  predicate EmailTaken(users: seq<User>, company: Option<int>, email: string)
  {
    exists u :: u in users && u.email == email && u.companyId == company
  }

  predicate HasDepartment(departments: seq<Department>, company: Option<int>, id: int)
  {
    exists d :: d in departments && d.id == id && d.companyId == company
  }

  /** `if data.department_id:` — a null or zero id skips the check. */
  predicate Truthy(id: Option<int>)
  {
    id.Some? && id.value != 0
  }

  /** `create_employee`: 400 when the email is used in the caller's company,
      400 when a truthy department id is not a department of that company;
      otherwise a new employee of the caller's company with the given
      department id (stored as sent) and a ten-character generated password,
      of which only the hash is stored. */
  method CreateEmployee(db: Database, current: User, data: EmployeeCreate, picks: seq<nat>, hashPassword: string -> string)
    returns (r: Response<EmployeeResponse>)
    requires db.Valid() && current.role == Admin
    requires |picks| == 10 && forall i :: 0 <= i < |picks| ==> picks[i] < 62
    modifies db
    ensures db.Valid()
    ensures EmailTaken(old(db.users), current.companyId, data.email)
      ==> r == Err(HttpError(400, "Email already registered in this company"))
    ensures !EmailTaken(old(db.users), current.companyId, data.email)
      && Truthy(data.departmentId) && !HasDepartment(db.departments, current.companyId, data.departmentId.value)
      ==> r == Err(HttpError(400, "Department not found"))
    ensures r.Err? ==> (db.users == old(db.users)
      && (EmailTaken(old(db.users), current.companyId, data.email)
          || (Truthy(data.departmentId) && !HasDepartment(db.departments, current.companyId, data.departmentId.value))))
    ensures r.Ok? ==> (exists u: User ::
      u.name == data.name && u.email == data.email && u.role == Employee
      && u.companyId == current.companyId && u.departmentId == data.departmentId
      && (forall v :: v in old(db.users) ==> v.id != u.id)
      && db.users == old(db.users) + [u]
      && r.value == EmployeeView(u, db.departments, r.value.generatedPassword))
    ensures r.Ok? ==> (r.value.generatedPassword.Some?
      && |r.value.generatedPassword.value| == 10
      && (forall i :: 0 <= i < 10 ==> IsAsciiLetterOrDigit(r.value.generatedPassword.value[i]))
      && db.users[|db.users| - 1].hashedPassword == hashPassword(r.value.generatedPassword.value))
    ensures Filter(db.users, OutsideCompany(current.companyId)) == Filter(old(db.users), OutsideCompany(current.companyId))
    ensures db.students == old(db.students) && db.attendance == old(db.attendance)
      && db.companies == old(db.companies) && db.departments == old(db.departments)
  {
    var c := current.companyId;
    if exists u :: u in db.users && u.email == data.email && u.companyId == c {
      return Err(HttpError(400, "Email already registered in this company"));
    }
    if data.departmentId.Some? && data.departmentId.value != 0 {
      if !exists d :: d in db.departments && d.id == data.departmentId.value && d.companyId == c {
        return Err(HttpError(400, "Department not found"));
      }
    }
    var raw := GeneratePassword(picks);
    var user := User(db.nextUserId, data.name, data.email, hashPassword(raw), Employee, c, data.departmentId);
    forall i | 0 <= i < |db.users| ensures UsersCompatible(db.users[i], user) {
      assert db.users[i] in db.users;
    }
    PairwiseAppend(db.users, UsersCompatible, user);
    FilterAppend(db.users, [user], OutsideCompany(c));
    assert [user][..0] == [];
    db.users := db.users + [user];
    db.nextUserId := db.nextUserId + 1;
    r := Ok(EmployeeView(user, db.departments, Some(raw)));
  }

  predicate IsCompanyEmployee(users: seq<User>, company: Option<int>, id: int)
  {
    exists u :: u in users && u.id == id && u.companyId == company && u.role == Employee
  }

  function OtherUser(id: int): User -> bool
  {
    (u: User) => u.id != id
  }

  /** Removing an employee of `company` by id spares every other company's
      users and every admin. */
  lemma RemoveEmployee(us: seq<User>, company: Option<int>, id: int)
    requires Pairwise(us, UsersCompatible) && IsCompanyEmployee(us, company, id)
    ensures Filter(Filter(us, OtherUser(id)), OutsideCompany(company)) == Filter(us, OutsideCompany(company))
    ensures forall u :: u in us && (u.companyId != company || u.role == Admin) ==> u in Filter(us, OtherUser(id))
  {
    var k :| 0 <= k < |us| && us[k].id == id && us[k].companyId == company && us[k].role == Employee;
    forall i | 0 <= i < |us| ensures (us[i].id == id) == (i == k) {
      if i < k {
        assert UsersCompatible(us[i], us[k]);
      } else if i > k {
        assert UsersCompatible(us[k], us[i]);
      }
    }
    FilterFilter(us, OtherUser(id), OutsideCompany(company));
    forall u | u in us && (u.companyId != company || u.role == Admin) ensures u in Filter(us, OtherUser(id)) {
      FilterMembers(us, OtherUser(id), u);
    }
  }

  /** `delete_employee`: 404 unless the id is an employee of the caller's
      company (an admin, another company's user or a missing id all give
      404); otherwise exactly that user is removed. */
  method DeleteEmployee(db: Database, current: User, employeeId: int) returns (r: Response<()>)
    requires db.Valid() && current.role == Admin
    modifies db
    ensures db.Valid()
    ensures r.Err? <==> !IsCompanyEmployee(old(db.users), current.companyId, employeeId)
    ensures r.Err? ==> r.error == HttpError(404, "Employee not found") && db.users == old(db.users)
    ensures r.Ok? ==> db.users == Filter(old(db.users), OtherUser(employeeId))
    ensures forall u :: u in old(db.users) && (u.companyId != current.companyId || u.role == Admin) ==> u in db.users
    ensures Filter(db.users, OutsideCompany(current.companyId)) == Filter(old(db.users), OutsideCompany(current.companyId))
    ensures db.students == old(db.students) && db.attendance == old(db.attendance)
      && db.companies == old(db.companies) && db.departments == old(db.departments)
  {
    var c := current.companyId;
    if !exists u :: u in db.users && u.id == employeeId && u.companyId == c && u.role == Employee {
      return Err(HttpError(404, "Employee not found"));
    }
    var us := db.users;
    RemoveEmployee(us, c, employeeId);
    PairwiseFilter(us, UsersCompatible, OtherUser(employeeId));
    BelowFilter(us, UserKey, db.nextUserId, OtherUser(employeeId));
    db.users := Filter(us, OtherUser(employeeId));
    r := Ok(());
  }
}
