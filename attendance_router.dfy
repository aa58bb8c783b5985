/** backend/routers/attendance.py: bulk marking of one day (which replaces
    whatever that day held), listing by date, and the recent history. */
module AttendanceRouter {
  import opened Wrappers
  import opened Seqs
  import opened Text
  import opened Models

  /** One entry of the bulk payload. */
  datatype AttendanceRecord = AttendanceRecord(studentId: int, status: Status)

  /** The body of `POST /api/attendance/`. */
  datatype AttendanceBulkCreate = AttendanceBulkCreate(date: Date, records: seq<AttendanceRecord>)

  function OnDate(d: Date): Attendance -> bool
  {
    (a: Attendance) => a.date == d
  }

  function OffDate(d: Date): Attendance -> bool
  {
    (a: Attendance) => a.date != d
  }

  /** What a stored row says, without its id and date. */
  function Entry(a: Attendance): AttendanceRecord
  {
    AttendanceRecord(a.studentId, a.status)
  }

  function Entries(rows: seq<Attendance>): (r: seq<AttendanceRecord>)
    ensures |r| == |rows|
    ensures forall i :: 0 <= i < |rows| ==> r[i] == Entry(rows[i])
  {
    seq(|rows|, i requires 0 <= i < |rows| => Entry(rows[i]))
  }

  /** What the table says about day `d`, in insertion order. */
  function DayEntries(table: seq<Attendance>, d: Date): seq<AttendanceRecord>
  {
    Entries(Filter(table, OnDate(d)))
  }

  /** The table after the rows of day `d` are deleted and `rows` are added. */
  function ReplaceDay(table: seq<Attendance>, d: Date, rows: seq<Attendance>): seq<Attendance>
  {
    Filter(table, OffDate(d)) + rows
  }

  predicate AllOn(rows: seq<Attendance>, d: Date)
  {
    forall i :: 0 <= i < |rows| ==> rows[i].date == d
  }

  /** After a successful submission, day `d` holds exactly the submitted
      entries, in order, duplicates included. */
  lemma ReplaceDayThisDay(table: seq<Attendance>, d: Date, rows: seq<Attendance>)
    requires AllOn(rows, d)
    ensures DayEntries(ReplaceDay(table, d, rows), d) == Entries(rows)
  {
    FilterAppend(Filter(table, OffDate(d)), rows, OnDate(d));
    FilterNone(Filter(table, OffDate(d)), OnDate(d));
    FilterAll(rows, OnDate(d));
  }

  /** ... and every other day is left exactly as it was. */
  lemma ReplaceDayOtherDay(table: seq<Attendance>, d: Date, rows: seq<Attendance>, e: Date)
    requires AllOn(rows, d) && e != d
    ensures Filter(ReplaceDay(table, d, rows), OnDate(e)) == Filter(table, OnDate(e))
  {
    FilterAppend(Filter(table, OffDate(d)), rows, OnDate(e));
    FilterNone(rows, OnDate(e));
    FilterFilter(table, OffDate(d), OnDate(e));
  }

  /** Re-submitting a day discards the earlier submission entirely. */
  lemma ReplaceDayTwice(table: seq<Attendance>, d: Date, first: seq<Attendance>, second: seq<Attendance>)
    requires AllOn(first, d)
    ensures ReplaceDay(ReplaceDay(table, d, first), d, second) == ReplaceDay(table, d, second)
  {
    FilterAppend(Filter(table, OffDate(d)), first, OffDate(d));
    FilterTwice(table, OffDate(d));
    FilterNone(first, OffDate(d));
  }

  /** The rows created for the payload: one per entry, in order, with ids
      counted up from `firstId`. */
  function NewRows(payload: AttendanceBulkCreate, firstId: int): (r: seq<Attendance>)
    ensures |r| == |payload.records|
    ensures AllOn(r, payload.date)
    ensures Entries(r) == payload.records
    ensures Pairwise(r, AttendanceCompatible)
    ensures forall i :: 0 <= i < |r| ==> firstId <= r[i].id < firstId + |r|
  {
    seq(|payload.records|, i requires 0 <= i < |payload.records| =>
      Attendance(firstId + i, payload.records[i].studentId, payload.date, payload.records[i].status))
  }

  function StudentNotFound(id: int): string
  {
    "Student " + IntString(id) + " not found"
  }

  /** `mark_attendance`. The day's old rows are deleted and committed first;
      then each entry's student is looked up in order, and the first unknown
      one aborts with 404 (the deletion stays, none of the new rows is kept).
      Otherwise the new rows are committed after the untouched other days. */
  method MarkAttendance(db: Database, payload: AttendanceBulkCreate) returns (r: Response<seq<Attendance>>)
    requires db.Valid()
    modifies db
    ensures db.Valid()
    ensures r.Err? <==> exists i :: 0 <= i < |payload.records| && !HasStudent(db.students, payload.records[i].studentId)
    ensures r.Err? ==> (db.attendance == Filter(old(db.attendance), OffDate(payload.date))
      && r.error.code == 404
      && exists k :: 0 <= k < |payload.records| && !HasStudent(db.students, payload.records[k].studentId)
           && (forall i :: 0 <= i < k ==> HasStudent(db.students, payload.records[i].studentId))
           && r.error.detail == StudentNotFound(payload.records[k].studentId))
    ensures r.Ok? ==> (db.attendance == ReplaceDay(old(db.attendance), payload.date, r.value)
      && AllOn(r.value, payload.date)
      && Entries(r.value) == payload.records
      && forall i, j :: 0 <= i < |old(db.attendance)| && 0 <= j < |r.value| ==> old(db.attendance)[i].id < r.value[j].id)
    ensures db.students == old(db.students) && db.companies == old(db.companies)
      && db.users == old(db.users) && db.departments == old(db.departments)
  {
    var d := payload.date;
    // The delete is committed before any entry is looked at.
    PairwiseFilter(db.attendance, AttendanceCompatible, OffDate(d));
    BelowFilter(db.attendance, AttendanceKey, db.nextAttendanceId, OffDate(d));
    forall a | a in Filter(db.attendance, OffDate(d)) ensures HasStudent(db.students, a.studentId) {
      FilterMembers(db.attendance, OffDate(d), a);
    }
    db.attendance := Filter(db.attendance, OffDate(d));

    var firstId := db.nextAttendanceId;
    var rows := NewRows(payload, firstId);
    var records: seq<Attendance> := [];
    var i := 0;
    while i < |payload.records|
      invariant 0 <= i <= |payload.records|
      invariant records == rows[..i]
      invariant forall k :: 0 <= k < i ==> HasStudent(db.students, payload.records[k].studentId)
    {
      var rec := payload.records[i];
      if !exists s :: s in db.students && s.id == rec.studentId {
        return Err(HttpError(404, StudentNotFound(rec.studentId)));
      }
      records := records + [Attendance(firstId + i, rec.studentId, d, rec.status)];
      i := i + 1;
    }
    assert records == rows;

    forall k, j | 0 <= k < |db.attendance| && 0 <= j < |records|
      ensures AttendanceCompatible(db.attendance[k], records[j])
    {
    }
    PairwiseConcat(db.attendance, records, AttendanceCompatible);
    forall a | a in db.attendance + records ensures HasStudent(db.students, a.studentId) {
      if a in records {
        var k :| 0 <= k < |records| && records[k] == a;
        assert Entries(records)[k] == payload.records[k];
      }
    }
    forall k, j | 0 <= k < |old(db.attendance)| && 0 <= j < |records|
      ensures old(db.attendance)[k].id < records[j].id
    {
    }
    db.attendance := db.attendance + records;
    db.nextAttendanceId := firstId + |records|;
    r := Ok(records);
  }

  // ---- Reading ----

  predicate DateDescending(rows: seq<Attendance>)
  {
    forall i, j :: 0 <= i < j < |rows| ==> rows[i].date >= rows[j].date
  }

  lemma DescendingCons(x: Attendance, s: seq<Attendance>)
    requires DateDescending(s) && (s != [] ==> x.date >= s[0].date)
    ensures DateDescending([x] + s)
  {
  }

  /** `x` placed before the first row of `s` with an earlier date. */
  function InsertByDate(x: Attendance, s: seq<Attendance>): (r: seq<Attendance>)
    requires DateDescending(s)
    ensures multiset(r) == multiset(s) + multiset{x}
    ensures DateDescending(r)
    ensures r[0] == x || r[0] == s[0]
  {
    if s == [] then [x]
    else if s[0].date < x.date then DescendingCons(x, s); [x] + s
    else
      var t := InsertByDate(x, s[1..]);
      assert s == [s[0]] + s[1..];
      DescendingCons(s[0], t);
      [s[0]] + t
  }

  /** `ORDER BY date DESC`: the same rows, latest day first. Rows of the same
      day keep their table order here; the database may order them either way. */
  function SortByDateDesc(s: seq<Attendance>): (r: seq<Attendance>)
    ensures multiset(r) == multiset(s)
    ensures DateDescending(r)
  {
    if s == [] then []
    else
      assert s == s[..|s| - 1] + [s[|s| - 1]];
      InsertByDate(s[|s| - 1], SortByDateDesc(s[..|s| - 1]))
  }

  /** `get_attendance_by_date`: the rows of the given day (all rows when no
      day is given), latest day first. */
  function GetAttendanceByDate(db: Database, date: Option<Date>): (r: seq<Attendance>)
    reads db
    ensures DateDescending(r)
    ensures date.Some? ==> multiset(r) == multiset(Filter(db.attendance, OnDate(date.value)))
    ensures date.None? ==> multiset(r) == multiset(db.attendance)
  {
    match date
    case Some(d) => SortByDateDesc(Filter(db.attendance, OnDate(d)))
    case None => SortByDateDesc(db.attendance)
  }

  /** `get_attendance_history`: at most 100 rows, latest first, and no row
      left out is later than a row returned. */
  function GetAttendanceHistory(db: Database): (r: seq<Attendance>)
    reads db
    ensures |r| == if |db.attendance| < 100 then |db.attendance| else 100
    ensures DateDescending(r)
    ensures multiset(r) <= multiset(db.attendance)
    ensures forall a, i :: a in db.attendance && 0 <= i < |r| && a.date > r[i].date ==> a in r
  {
    var s := SortByDateDesc(db.attendance);
    var r := Take(s, 100);
    HistoryIsLatest(s, r, db.attendance);
    r
  }

  lemma HistoryIsLatest(s: seq<Attendance>, r: seq<Attendance>, table: seq<Attendance>)
    requires DateDescending(s) && multiset(s) == multiset(table) && r <= s
    ensures multiset(r) <= multiset(table)
    ensures forall a, i :: a in table && 0 <= i < |r| && a.date > r[i].date ==> a in r
  {
    assert s == r + s[|r|..];
    forall a, i | a in table && 0 <= i < |r| && a.date > r[i].date ensures a in r {
      assert a in multiset(s);
      var k :| 0 <= k < |s| && s[k] == a;
      assert s[i] == r[i];
      assert k < |r|;
      assert r[k] == a;
    }
  }
}
