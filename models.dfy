/** The persistent entities of the backend and the in-memory database that
    holds them. `Student` and `Attendance` follow backend/models.py; the
    company, user and department tables are the ones the routers query (their
    classes are not part of this model, so their fields are the ones the routers
    read and write). Each table is a sequence in insertion order; ids come from
    one auto-increment counter per table, so a higher id means a later row
    (the `created_at` order). Dates are day numbers. */
module Models {
  import opened Wrappers
  import opened Seqs

  /** A calendar day, counted in days; ISO `YYYY-MM-DD` strings sort the same way. */
  type Date = int

  /** `AttendanceStatus`: exactly two values. */
  datatype Status = Present | Absent

  datatype Student = Student(id: int, name: string, rollNumber: string, department: string)

  datatype Attendance = Attendance(id: int, studentId: int, date: Date, status: Status)

  datatype Role = Admin | Employee

  /** The seven label fields of a company's custom labels (`CustomLabels`,
      snake_case on the wire: member_label ... group_placeholder). */
  datatype Labels = Labels(
    memberLabel: string,
    memberLabelPlural: string,
    idLabel: string,
    groupLabel: string,
    namePlaceholder: string,
    idPlaceholder: string,
    groupPlaceholder: string)

  /** The text stored in `companies.custom_labels`: either what `json.dumps`
      wrote for some labels, or text that does not decode to labels. */
  datatype LabelColumn = Json(labels: Labels) | Garbage(text: string)

  datatype Company = Company(id: int, name: string, themeId: string, customLabels: Option<LabelColumn>)

  datatype User = User(
    id: int,
    name: string,
    email: string,
    hashedPassword: string,
    role: Role,
    companyId: Option<int>,
    departmentId: Option<int>)

  datatype Department = Department(id: int, name: string, companyId: Option<int>)

  // ---- Table invariants, stated on the table values ----
  // Each table's rows are pairwise compatible: ids strictly increase along the
  // table (so they are unique), and the table's uniqueness constraint holds.

  function StudentKey(s: Student): int { s.id }
  function AttendanceKey(a: Attendance): int { a.id }
  function CompanyKey(c: Company): int { c.id }
  function UserKey(u: User): int { u.id }
  function DepartmentKey(d: Department): int { d.id }

  /** Ids ascend and `roll_number` is unique. */
  predicate StudentsCompatible(a: Student, b: Student)
  {
    a.id < b.id && a.rollNumber != b.rollNumber
  }

  predicate AttendanceCompatible(a: Attendance, b: Attendance)
  {
    a.id < b.id
  }

  /** Ids ascend and company names are unique. */
  predicate CompaniesCompatible(a: Company, b: Company)
  {
    a.id < b.id && a.name != b.name
  }

  /** Ids ascend and emails are unique within a company. */
  predicate UsersCompatible(a: User, b: User)
  {
    a.id < b.id && (a.companyId == b.companyId ==> a.email != b.email)
  }

  /** Ids ascend and department names are unique within a company. */
  predicate DepartmentsCompatible(a: Department, b: Department)
  {
    a.id < b.id && (a.companyId == b.companyId ==> a.name != b.name)
  }

  /** The ids of a list of students. */
  function StudentIds(students: seq<Student>): set<int>
  {
    set s | s in students :: s.id
  }

  predicate HasStudent(students: seq<Student>, id: int)
  {
    exists s :: s in students && s.id == id
  }

  /** Every attendance row references an existing student (`ForeignKey("students.id")`). */
  predicate AttendanceReferencesStudents(attendance: seq<Attendance>, students: seq<Student>)
  {
    forall a :: a in attendance ==> HasStudent(students, a.studentId)
  }

  /** The whole database: five tables and their id counters. */
  class Database {
    var students: seq<Student>
    var attendance: seq<Attendance>
    var companies: seq<Company>
    var users: seq<User>
    var departments: seq<Department>
    var nextStudentId: int
    var nextAttendanceId: int
    var nextCompanyId: int
    var nextUserId: int
    var nextDepartmentId: int

    ghost predicate StudentsValid()
      reads this
    {
      Pairwise(students, StudentsCompatible) && Below(students, StudentKey, nextStudentId)
    }

    ghost predicate AttendanceValid()
      reads this
    {
      Pairwise(attendance, AttendanceCompatible) && Below(attendance, AttendanceKey, nextAttendanceId)
      && AttendanceReferencesStudents(attendance, students)
    }

    ghost predicate CompaniesValid()
      reads this
    {
      Pairwise(companies, CompaniesCompatible) && Below(companies, CompanyKey, nextCompanyId)
    }

    ghost predicate UsersValid()
      reads this
    {
      Pairwise(users, UsersCompatible) && Below(users, UserKey, nextUserId)
    }

    ghost predicate DepartmentsValid()
      reads this
    {
      Pairwise(departments, DepartmentsCompatible) && Below(departments, DepartmentKey, nextDepartmentId)
    }

    ghost predicate Valid()
      reads this
    {
      StudentsValid() && AttendanceValid() && CompaniesValid() && UsersValid() && DepartmentsValid()
    }

    /** An empty database. */
    constructor ()
      ensures Valid()
      ensures students == [] && attendance == [] && companies == [] && users == [] && departments == []
    {
      students, attendance, companies, users, departments := [], [], [], [], [];
      nextStudentId, nextAttendanceId, nextCompanyId, nextUserId, nextDepartmentId := 1, 1, 1, 1, 1;
    }
  }

  /** The first row whose id is `id`, if there is one: the lookup behind
      `.filter(X.id == id).first()` and behind a relationship attribute. */
  function FirstById<T>(rows: seq<T>, key: T -> int, id: Option<int>): (r: Option<T>)
    ensures r.Some? ==> id.Some? && r.value in rows && key(r.value) == id.value
    ensures r.None? ==> id.None? || forall i :: 0 <= i < |rows| ==> key(rows[i]) != id.value
  {
    if id.None? || rows == [] then None
    else if key(rows[0]) == id.value then Some(rows[0])
    else FirstById(rows[1..], key, id)
  }

  /** The department a user's `department_id` points to, if there is one
      (the `user.department` relationship). */
  function DepartmentById(departments: seq<Department>, id: Option<int>): Option<Department>
  {
    FirstById(departments, DepartmentKey, id)
  }

  /** The company with the given id (`db.query(Company).filter(Company.id == ...).first()`). */
  function CompanyById(companies: seq<Company>, id: Option<int>): Option<Company>
  {
    FirstById(companies, CompanyKey, id)
  }
}
