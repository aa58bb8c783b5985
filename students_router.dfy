/** backend/routers/students.py: list, create (unique roll number) and delete
    (cascading to the student's attendance rows). */
module StudentsRouter {
  import opened Wrappers
  import opened Seqs
  import opened Models

  /** The body of `POST /api/students/`. */
  datatype StudentCreate = StudentCreate(name: string, rollNumber: string, department: string)

  lemma {:induction false} ReverseMultiset<T>(s: seq<T>)
    ensures multiset(Reverse(s)) == multiset(s)
  {
    if s != [] {
      ReverseMultiset(s[..|s| - 1]);
      assert s == s[..|s| - 1] + [s[|s| - 1]];
    }
  }

  /** `get_students`: every student, newest (highest id) first. */
  function GetStudents(db: Database): (r: seq<Student>)
    reads db
    requires db.StudentsValid()
    ensures multiset(r) == multiset(db.students)
    ensures forall i, j :: 0 <= i < j < |r| ==> r[i].id > r[j].id
  {
    ReverseMultiset(db.students);
    Reverse(db.students)
  }

  predicate RollNumberTaken(students: seq<Student>, rollNumber: string)
  {
    exists s :: s in students && s.rollNumber == rollNumber
  }

  lemma StudentsGrow(attendance: seq<Attendance>, students: seq<Student>, x: Student)
    requires AttendanceReferencesStudents(attendance, students)
    ensures AttendanceReferencesStudents(attendance, students + [x])
  {
    forall a | a in attendance ensures HasStudent(students + [x], a.studentId) {
      var s :| s in students && s.id == a.studentId;
      assert s in students + [x];
    }
  }

  /** `create_student`: 400 when the roll number exists, otherwise exactly one
      new student with the given fields and a fresh id. */
  method CreateStudent(db: Database, student: StudentCreate) returns (r: Response<Student>)
    requires db.Valid()
    modifies db
    ensures db.Valid()
    ensures r.Err? <==> RollNumberTaken(old(db.students), student.rollNumber)
    ensures r.Err? ==> r.error.code == 400 && db.students == old(db.students)
    ensures r.Ok? ==> (db.students == old(db.students) + [r.value]
      && r.value.name == student.name && r.value.rollNumber == student.rollNumber
      && r.value.department == student.department
      && !HasStudent(old(db.students), r.value.id))
    ensures db.attendance == old(db.attendance) && db.companies == old(db.companies)
      && db.users == old(db.users) && db.departments == old(db.departments)
  {
    if exists s :: s in db.students && s.rollNumber == student.rollNumber {
      return Err(HttpError(400, "Roll number already exists"));
    }
    var created := Student(db.nextStudentId, student.name, student.rollNumber, student.department);
    forall i | 0 <= i < |db.students| ensures StudentsCompatible(db.students[i], created) {
      assert db.students[i] in db.students;
    }
    PairwiseAppend(db.students, StudentsCompatible, created);
    StudentsGrow(db.attendance, db.students, created);
    db.students := db.students + [created];
    db.nextStudentId := db.nextStudentId + 1;
    r := Ok(created);
  }

  /** The cascade of `Student.attendances` (`delete-orphan`). */
  function AttendanceOf(id: int): Attendance -> bool
  {
    (a: Attendance) => a.studentId != id
  }

  function OtherStudent(id: int): Student -> bool
  {
    (s: Student) => s.id != id
  }

  /** `delete_student`: 404 for a missing id; otherwise the student and all of
      their attendance rows are removed, and nothing else. */
  method DeleteStudent(db: Database, studentId: int) returns (r: Response<()>)
    requires db.Valid()
    modifies db
    ensures db.Valid()
    ensures r.Err? <==> !HasStudent(old(db.students), studentId)
    ensures r.Err? ==> (r.error.code == 404 && db.students == old(db.students)
      && db.attendance == old(db.attendance))
    ensures r.Ok? ==> (db.students == Filter(old(db.students), OtherStudent(studentId))
      && db.attendance == Filter(old(db.attendance), AttendanceOf(studentId)))
    ensures !HasStudent(db.students, studentId)
    ensures forall a :: a in db.attendance ==> a.studentId != studentId
    ensures db.companies == old(db.companies) && db.users == old(db.users)
      && db.departments == old(db.departments)
  {
    if !exists s :: s in db.students && s.id == studentId {
      forall a | a in db.attendance ensures a.studentId != studentId {
      }
      return Err(HttpError(404, "Student not found"));
    }
    var students := Filter(db.students, OtherStudent(studentId));
    var attendance := Filter(db.attendance, AttendanceOf(studentId));
    PairwiseFilter(db.students, StudentsCompatible, OtherStudent(studentId));
    BelowFilter(db.students, StudentKey, db.nextStudentId, OtherStudent(studentId));
    PairwiseFilter(db.attendance, AttendanceCompatible, AttendanceOf(studentId));
    BelowFilter(db.attendance, AttendanceKey, db.nextAttendanceId, AttendanceOf(studentId));
    forall a | a in attendance ensures HasStudent(students, a.studentId) && a.studentId != studentId {
      FilterMembers(db.attendance, AttendanceOf(studentId), a);
      var s :| s in db.students && s.id == a.studentId;
      FilterMembers(db.students, OtherStudent(studentId), s);
    }
    forall s | s in students ensures s.id != studentId {
      FilterMembers(db.students, OtherStudent(studentId), s);
    }
    db.students := students;
    db.attendance := attendance;
    r := Ok(());
  }
}
