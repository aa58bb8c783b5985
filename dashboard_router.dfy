/** backend/routers/dashboard.py: today's figures and the last seven days.
    The server's clock is the `today` parameter. */
module DashboardRouter {
  import opened Seqs
  import opened Models
  import opened AttendanceRouter

  datatype DashboardStats = DashboardStats(
    totalStudents: nat,
    presentToday: nat,
    absentToday: nat,
    attendancePercentage: real)

  /** One bar of the weekly chart; `date` stands for its `"%a %d"` label. */
  datatype WeeklyData = WeeklyData(date: Date, present: nat, absent: nat, total: nat)

  function HasStatus(st: Status): Attendance -> bool
  {
    (a: Attendance) => a.status == st
  }

  /** Rows of day `d` with status `st`, counted among that day's rows. */
  function DayCount(table: seq<Attendance>, d: Date, st: Status): nat
  {
    CountWhere(Filter(table, OnDate(d)), HasStatus(st))
  }

  /** Every row of a day is either present or absent, so the two counts add
      up to the day's rows. */
  lemma DaySplit(table: seq<Attendance>, d: Date)
    ensures DayCount(table, d, Present) + DayCount(table, d, Absent) == |Filter(table, OnDate(d))|
  {
    CountPartition(Filter(table, OnDate(d)), HasStatus(Present), HasStatus(Absent));
  }

  /** `get_dashboard_stats`; the percentage is the exact quotient, before
      `round(..., 1)`. */
  function GetDashboardStats(db: Database, today: Date): (r: DashboardStats)
    reads db
    ensures r.totalStudents == |db.students|
    ensures r.presentToday == DayCount(db.attendance, today, Present)
    ensures r.absentToday == DayCount(db.attendance, today, Absent)
    ensures r.presentToday + r.absentToday == |Filter(db.attendance, OnDate(today))|
    ensures r.totalStudents == 0 ==> r.attendancePercentage == 0.0
    ensures r.totalStudents > 0 ==>
      r.attendancePercentage * (r.totalStudents as real) == (r.presentToday as real) * 100.0
  {
    DaySplit(db.attendance, today);
    var total := |db.students|;
    var present := DayCount(db.attendance, today, Present);
    var absent := DayCount(db.attendance, today, Absent);
    var pct := if total > 0 then (present as real) / (total as real) * 100.0 else 0.0;
    DashboardStats(total, present, absent, pct)
  }

  predicate DifferentStudents(a: Attendance, b: Attendance)
  {
    a.studentId != b.studentId
  }

  function StudentIdsOf(rows: seq<Attendance>): set<int>
  {
    set a | a in rows :: a.studentId
  }

  lemma {:induction false} DistinctStudentIds(rows: seq<Attendance>)
    requires Pairwise(rows, DifferentStudents)
    ensures |StudentIdsOf(rows)| == |rows|
  {
    if rows != [] {
      var rows' := rows[..|rows| - 1];
      var x := rows[|rows| - 1];
      assert rows == rows' + [x];
      DistinctStudentIds(rows');
      assert StudentIdsOf(rows) == StudentIdsOf(rows') + {x.studentId};
      assert x.studentId !in StudentIdsOf(rows') by {
        forall a | a in rows' ensures a.studentId != x.studentId {
          var k :| 0 <= k < |rows'| && rows'[k] == a;
          assert DifferentStudents(rows[k], rows[|rows| - 1]);
        }
      }
    }
  }

  lemma {:induction false} IdsAtMost(students: seq<Student>)
    ensures |StudentIds(students)| <= |students|
  {
    if students != [] {
      var s' := students[..|students| - 1];
      assert students == s' + [students[|students| - 1]];
      IdsAtMost(s');
      assert StudentIds(students) == StudentIds(s') + {students[|students| - 1].id};
    }
  }

  /** Rows of the table that name pairwise different students are no more
      than the students: every row references an existing student. */
  lemma DistinctRowsAtMostRoster(db: Database, rows: seq<Attendance>)
    requires db.Valid()
    requires forall a :: a in rows ==> a in db.attendance
    requires Pairwise(rows, DifferentStudents)
    ensures |rows| <= |db.students|
  {
    DistinctStudentIds(rows);
    forall id | id in StudentIdsOf(rows) ensures id in StudentIds(db.students) {
      var a :| a in rows && a.studentId == id;
      var s :| s in db.students && s.id == id;
    }
    IdsAtMost(db.students);
    SubsetCardinality(StudentIdsOf(rows), StudentIds(db.students));
  }

  /** Today's percentage cannot exceed 100 as long as no student was marked
      twice today. The endpoint itself does not ensure this: `mark_attendance`
      stores a payload that names a student twice, and then the figure can
      pass 100. */
  lemma PercentageAtMost100(db: Database, today: Date)
    requires db.Valid()
    requires Pairwise(Filter(db.attendance, OnDate(today)), DifferentStudents)
    ensures GetDashboardStats(db, today).attendancePercentage <= 100.0
  {
    var rows := Filter(db.attendance, OnDate(today));
    var present := Filter(rows, HasStatus(Present));
    PairwiseFilter(rows, DifferentStudents, HasStatus(Present));
    forall a | a in present ensures a in db.attendance {
      FilterMembers(rows, HasStatus(Present), a);
      FilterMembers(db.attendance, OnDate(today), a);
    }
    DistinctRowsAtMostRoster(db, present);
    var total := |db.students|;
    if total > 0 {
      var r := GetDashboardStats(db, today);
      assert r.presentToday == |present|;
      assert r.attendancePercentage * (total as real) <= 100.0 * (total as real);
    }
  }

  lemma SubsetCardinality(a: set<int>, b: set<int>)
    requires a <= b
    ensures |a| <= |b|
  {
    assert b == a + (b - a);
  }

  /** `get_weekly_data`: seven entries, oldest day first, ending today; each
      entry's total is that day's number of rows, and the last entry agrees
      with today's dashboard figures. */
  method GetWeeklyData(db: Database, today: Date) returns (result: seq<WeeklyData>)
    ensures |result| == 7
    ensures forall k :: 0 <= k < 7 ==> (result[k].date == today - 6 + k
      && result[k].present == DayCount(db.attendance, today - 6 + k, Present)
      && result[k].absent == DayCount(db.attendance, today - 6 + k, Absent)
      && result[k].total == |Filter(db.attendance, OnDate(today - 6 + k))|)
    ensures result[6].present == GetDashboardStats(db, today).presentToday
      && result[6].absent == GetDashboardStats(db, today).absentToday
  {
    result := [];
    var i := 6;
    while i >= 0
      invariant -1 <= i <= 6
      invariant |result| == 6 - i
      invariant forall k :: 0 <= k < |result| ==> (result[k].date == today - 6 + k
        && result[k].present == DayCount(db.attendance, today - 6 + k, Present)
        && result[k].absent == DayCount(db.attendance, today - 6 + k, Absent)
        && result[k].total == |Filter(db.attendance, OnDate(today - 6 + k))|)
    {
      var day := today - i;
      var present := DayCount(db.attendance, day, Present);
      var absent := DayCount(db.attendance, day, Absent);
      DaySplit(db.attendance, day);
      result := result + [WeeklyData(day, present, absent, present + absent)];
      i := i - 1;
    }
  }
}
