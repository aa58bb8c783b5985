/** frontend/src/pages/Dashboard.jsx: the CSV export of the history, the
    grouping of the history by date, the per-date counts, the "Not Marked"
    figure and the empty-chart condition. Dates are the ISO text the API
    sends; statuses are its text "present" or "absent". */
module DashboardPage {
  import opened Wrappers
  import opened Seqs
  import opened Models
  import opened Text
  import opened Csv
  import opened ThemeContext
  import opened AttendanceRouter
  import opened DashboardRouter

  /** One history record as the page receives it; `student` is null when the
      record's student is missing. */
  datatype HistoryRecord = HistoryRecord(date: string, student: Option<Student>, status: string)

  // ---- CSV export ----

  /** The header: the occupation's id and group labels, or 'ID' and 'Group'
      without an occupation. */
  function CsvHeader(occupation: Option<Occupation>): (r: Row)
    ensures |r| == 5 && r[0] == "Date" && r[1] == "Name" && r[4] == "Status"
    ensures r[2] == (if occupation.Some? then occupation.value.idLabel else "ID")
    ensures r[3] == (if occupation.Some? then occupation.value.groupLabel else "Group")
  {
    match occupation
    case Some(o) => ["Date", "Name", o.idLabel, o.groupLabel, "Status"]
    case None => ["Date", "Name", "ID", "Group", "Status"]
  }

  /** One record's fields; a missing student gives three empty fields. */
  function CsvRow(rec: HistoryRecord): (r: Row)
    ensures |r| == 5 && r[0] == rec.date && r[4] == rec.status
    ensures rec.student.None? ==> r[1] == "" && r[2] == "" && r[3] == ""
    ensures rec.student.Some? ==>
      r[1] == rec.student.value.name && r[2] == rec.student.value.rollNumber
      && r[3] == rec.student.value.department
  {
    match rec.student
    case Some(s) => [rec.date, s.name, s.rollNumber, s.department, rec.status]
    case None => [rec.date, "", "", "", rec.status]
  }

  /** The header followed by one row per record, in history order. */
  function CsvTable(history: seq<HistoryRecord>, occupation: Option<Occupation>): (t: seq<Row>)
    ensures |t| == |history| + 1 && t[0] == CsvHeader(occupation)
    ensures forall i :: 0 <= i < |history| ==> t[i + 1] == CsvRow(history[i])
  {
    [CsvHeader(occupation)] + seq(|history|, i requires 0 <= i < |history| => CsvRow(history[i]))
  }

  /** `exportCSV` with the quote inside a field doubled: the text reads back
      as the header and one row per record. */
  function ExportCsv(history: seq<HistoryRecord>, occupation: Option<Occupation>): (csv: string)
    ensures ParseDocument(csv) == Some(CsvTable(history, occupation))
  {
    var t := CsvTable(history, occupation);
    DocumentRoundTrip(t);
    Document(t)
  }

  /** `exportCSV` as the page writes it. */
  function ExportCsvAsWritten(history: seq<HistoryRecord>, occupation: Option<Occupation>): string
  {
    AsWrittenDocument(CsvTable(history, occupation))
  }

  /** The export as written agrees with `ExportCsv` whenever no field holds a
      double quote. */
  lemma ExportAgreesWithoutQuotes(history: seq<HistoryRecord>, occupation: Option<Occupation>)
    requires forall i, j :: 0 <= i < |CsvTable(history, occupation)| && 0 <= j < 5
               ==> '"' !in CsvTable(history, occupation)[i][j]
    ensures ExportCsvAsWritten(history, occupation) == ExportCsv(history, occupation)
  {
    AgreesWithoutQuotes(CsvTable(history, occupation));
  }

  /** Two different records that the page exports alike: a quote-comma-quote
      inside a name shifts the rest of the row. */
  lemma ExportAsWrittenAmbiguous()
    ensures ExportCsvAsWritten([HistoryRecord("d", Some(Student(1, "x\",\"y", "z", "g")), "present")], None)
         == ExportCsvAsWritten([HistoryRecord("d", Some(Student(1, "x", "y\",\"z", "g")), "present")], None)
  {
    var a := HistoryRecord("d", Some(Student(1, "x\",\"y", "z", "g")), "present");
    var b := HistoryRecord("d", Some(Student(1, "x", "y\",\"z", "g")), "present");
    var plain: Row := ["x", "y", "z", "g", "present"];
    var tailA: Row := ["x\",\"y", "z", "g", "present"];
    var tailB: Row := ["x", "y\",\"z", "g", "present"];
    assert CsvRow(a) == ["d"] + tailA;
    assert CsvRow(b) == ["d"] + tailB;
    assert "x" + "\",\"" + "y" == "x\",\"y";
    assert "y" + "\",\"" + "z" == "y\",\"z";
    assert tailA == ["x" + "\",\"" + "y"] + ["z", "g", "present"];
    AsWrittenSplitsField("x", "y", ["z", "g", "present"]);
    assert ["x", "y"] + ["z", "g", "present"] == plain;
    assert AsWrittenLine(tailA) == AsWrittenLine(plain);
    assert tailB == ["x"] + (["y" + "\",\"" + "z"] + ["g", "present"]);
    AsWrittenSplitsField("y", "z", ["g", "present"]);
    assert ["y", "z"] + ["g", "present"] == plain[1..];
    AsWrittenLineCons("x", ["y" + "\",\"" + "z"] + ["g", "present"]);
    AsWrittenLineCons("x", plain[1..]);
    assert ["x"] + plain[1..] == plain;
    assert AsWrittenLine(tailB) == AsWrittenLine(plain);
    AsWrittenLineCons("d", tailA);
    AsWrittenLineCons("d", tailB);
    assert AsWrittenLine(CsvRow(a)) == AsWrittenLine(CsvRow(b));
    var ta := CsvTable([a], None);
    var tb := CsvTable([b], None);
    assert seq(|ta|, i requires 0 <= i < |ta| => AsWrittenLine(ta[i]))
        == seq(|tb|, i requires 0 <= i < |tb| => AsWrittenLine(tb[i]));
  }

  // ---- Grouping by date ----

  function DateIs(d: string): HistoryRecord -> bool
  {
    (r: HistoryRecord) => r.date == d
  }

  function DatesOf(history: seq<HistoryRecord>): set<string>
  {
    set r | r in history :: r.date
  }

  /** The records of one date, in history order. */
  function Bucket(history: seq<HistoryRecord>, d: string): seq<HistoryRecord>
  {
    Filter(history, DateIs(d))
  }

  /** The distinct dates in order of first appearance: the key order of the
      `byDate` object. */
  function FirstDates(history: seq<HistoryRecord>): (r: seq<string>)
    ensures forall d :: d in r <==> d in DatesOf(history)
    ensures |r| == |DatesOf(history)|
  {
    if history == [] then []
    else
      var h := history[..|history| - 1];
      var x := history[|history| - 1];
      assert history == h + [x];
      assert DatesOf(history) == DatesOf(h) + {x.date};
      assert x.date in FirstDates(h) <==> x.date in DatesOf(h);
      if x.date in FirstDates(h) then FirstDates(h) else FirstDates(h) + [x.date]
  }

  /** `byDate`: each date of the history mapped to its records. */
  function Buckets(history: seq<HistoryRecord>): map<string, seq<HistoryRecord>>
  {
    map d | d in DatesOf(history) :: Bucket(history, d)
  }

  /** The grouping loop: the buckets and the order their keys were added in. */
  method GroupByDate(history: seq<HistoryRecord>) returns (byDate: map<string, seq<HistoryRecord>>, keys: seq<string>)
    ensures byDate == Buckets(history)
    ensures keys == FirstDates(history)
  {
    byDate := map[];
    keys := [];
    var i := 0;
    while i < |history|
      invariant 0 <= i <= |history|
      invariant byDate == Buckets(history[..i])
      invariant keys == FirstDates(history[..i])
    {
      var rec := history[i];
      ghost var h := history[..i];
      assert history[..i + 1] == h + [rec];
      GroupingStep(h, rec);
      var bucket := if rec.date in byDate then byDate[rec.date] else [];
      if rec.date !in byDate {
        keys := keys + [rec.date];
      }
      byDate := byDate[rec.date := bucket + [rec]];
      assert byDate == Buckets(h + [rec]);
      i := i + 1;
    }
    assert history[..i] == history;
  }

  /** One step of the loop: the record is pushed onto its date's bucket,
      which is created (and its date listed) on first sight. */
  lemma GroupingStep(h: seq<HistoryRecord>, rec: HistoryRecord)
    ensures Buckets(h + [rec]) == Buckets(h)[rec.date :=
      (if rec.date in Buckets(h) then Buckets(h)[rec.date] else []) + [rec]]
    ensures FirstDates(h + [rec]) ==
      if rec.date in Buckets(h) then FirstDates(h) else FirstDates(h) + [rec.date]
  {
    var h' := h + [rec];
    assert h'[..|h|] == h;
    assert DatesOf(h') == DatesOf(h) + {rec.date};
    var b := Buckets(h);
    var b' := Buckets(h');
    var target := b[rec.date := (if rec.date in b then b[rec.date] else []) + [rec]];
    assert b'.Keys == target.Keys;
    forall d | d in b'.Keys ensures b'[d] == target[d] {
      if d == rec.date {
        assert Bucket(h', d) == Bucket(h, d) + [rec];
        if rec.date !in b {
          forall i | 0 <= i < |h| ensures !DateIs(d)(h[i]) {
            assert h[i] in h;
          }
          FilterNone(h, DateIs(d));
        }
      } else {
        assert Bucket(h', d) == Bucket(h, d);
      }
    }
  }

  /** Every record lies in the bucket of its own date and in no other. */
  lemma GroupingPlacesEachRecord(history: seq<HistoryRecord>, rec: HistoryRecord, d: string)
    requires rec in history
    ensures rec.date in Buckets(history)
    ensures d in Buckets(history) ==> (rec in Buckets(history)[d] <==> d == rec.date)
  {
    FilterMembers(history, DateIs(d), rec);
  }

  /** Sum of the bucket sizes over a list of dates. */
  function BucketTotal(history: seq<HistoryRecord>, dates: seq<string>): nat
  {
    if dates == [] then 0 else |Bucket(history, dates[0])| + BucketTotal(history, dates[1..])
  }

  function Occurrences(dates: seq<string>, d: string): nat
  {
    if dates == [] then 0 else (if dates[0] == d then 1 else 0) + Occurrences(dates[1..], d)
  }

  lemma {:induction false} BucketTotalSnoc(h: seq<HistoryRecord>, x: HistoryRecord, dates: seq<string>)
    ensures BucketTotal(h + [x], dates) == BucketTotal(h, dates) + Occurrences(dates, x.date)
  {
    if dates != [] {
      BucketTotalSnoc(h, x, dates[1..]);
      assert (h + [x])[..|h|] == h;
    }
  }

  lemma {:induction false} OccursOnce(dates: seq<string>, d: string)
    requires d in dates
    requires forall i, j :: 0 <= i < j < |dates| ==> dates[i] != dates[j]
    ensures Occurrences(dates, d) == 1
  {
    if dates[0] == d {
      assert forall i :: 0 <= i < |dates| - 1 ==> dates[1..][i] == dates[i + 1];
      assert d !in dates[1..];
      OccursNot(dates[1..], d);
    } else {
      OccursOnce(dates[1..], d);
    }
  }

  lemma {:induction false} OccursNot(dates: seq<string>, d: string)
    requires d !in dates
    ensures Occurrences(dates, d) == 0
  {
    if dates != [] {
      OccursNot(dates[1..], d);
    }
  }

  /** The bucket sizes add up to the history's length, over any list that
      names each date of the history exactly once. */
  lemma {:induction false} BucketsSumToHistory(history: seq<HistoryRecord>, dates: seq<string>)
    requires forall d :: d in DatesOf(history) ==> d in dates
    requires forall i, j :: 0 <= i < j < |dates| ==> dates[i] != dates[j]
    ensures BucketTotal(history, dates) == |history|
  {
    if history == [] {
      BucketTotalEmpty(dates);
    } else {
      var h := history[..|history| - 1];
      var x := history[|history| - 1];
      assert history == h + [x];
      assert DatesOf(history) == DatesOf(h) + {x.date};
      BucketsSumToHistory(h, dates);
      BucketTotalSnoc(h, x, dates);
      OccursOnce(dates, x.date);
    }
  }

  lemma {:induction false} BucketTotalEmpty(dates: seq<string>)
    ensures BucketTotal([], dates) == 0
  {
    if dates != [] {
      BucketTotalEmpty(dates[1..]);
    }
  }

  // ---- Sorted dates ----

  predicate Descending(s: seq<string>)
  {
    forall i :: 0 <= i < |s| - 1 ==> LexLe(s[i + 1], s[i])
  }

  lemma DescendingCons(x: string, s: seq<string>)
    requires Descending(s) && (s != [] ==> LexLe(s[0], x))
    ensures Descending([x] + s)
  {
    forall i | 0 <= i < |s| ensures ([x] + s)[i + 1] == s[i] {
    }
  }

  function InsertDescending(x: string, s: seq<string>): (r: seq<string>)
    requires Descending(s)
    ensures multiset(r) == multiset(s) + multiset{x}
    ensures Descending(r)
    ensures r[0] == x || r[0] == s[0]
  {
    if s == [] then [x]
    else if LexLe(s[0], x) then DescendingCons(x, s); [x] + s
    else
      LexLeTotal(x, s[0]);
      assert s == [s[0]] + s[1..];
      var t := InsertDescending(x, s[1..]);
      DescendingCons(s[0], t);
      [s[0]] + t
  }

  /** `sort((a, b) => b.localeCompare(a))`, with code-point order standing for
      the locale order (the two agree on ISO dates). */
  function SortDescending(s: seq<string>): (r: seq<string>)
    ensures multiset(r) == multiset(s)
    ensures Descending(r)
  {
    if s == [] then []
    else
      assert s == s[..|s| - 1] + [s[|s| - 1]];
      InsertDescending(s[|s| - 1], SortDescending(s[..|s| - 1]))
  }

  /** `sortedDates`: every date of the history, each once, latest first. */
  lemma SortedDatesMeaning(history: seq<HistoryRecord>)
    ensures forall d :: d in SortDescending(FirstDates(history)) <==> d in DatesOf(history)
    ensures |SortDescending(FirstDates(history))| == |DatesOf(history)|
    ensures Descending(SortDescending(FirstDates(history)))
  {
    var keys := FirstDates(history);
    var r := SortDescending(keys);
    assert forall d :: d in r <==> d in multiset(r);
    assert forall d :: d in keys <==> d in multiset(keys);
    assert |r| == |multiset(r)|;
  }

  // ---- Counts ----

  function StatusIs(status: string): HistoryRecord -> bool
  {
    (r: HistoryRecord) => r.status == status
  }

  /** A date's present and absent badges add up to its records when every
      status is 'present' or 'absent'. */
  lemma DateCountsAddUp(recs: seq<HistoryRecord>)
    requires forall i :: 0 <= i < |recs| ==> recs[i].status == "present" || recs[i].status == "absent"
    ensures CountWhere(recs, StatusIs("present")) + CountWhere(recs, StatusIs("absent")) == |recs|
  {
    CountPartition(recs, StatusIs("present"), StatusIs("absent"));
  }

  /** The "Not Marked" figure of today's summary. */
  function NotMarked(stats: DashboardStats): int
  {
    stats.totalStudents as int - stats.presentToday as int - stats.absentToday as int
  }

  /** "Not Marked" is the number of students minus today's rows, and is not
      negative while nobody is marked twice today. */
  lemma NotMarkedMeaning(db: Database, today: Date)
    requires db.Valid()
    ensures NotMarked(GetDashboardStats(db, today)) == |db.students| - |Filter(db.attendance, OnDate(today))|
    ensures Pairwise(Filter(db.attendance, OnDate(today)), DifferentStudents)
            ==> NotMarked(GetDashboardStats(db, today)) >= 0
  {
    var rows := Filter(db.attendance, OnDate(today));
    if Pairwise(rows, DifferentStudents) {
      forall a | a in rows ensures a in db.attendance {
        FilterMembers(db.attendance, OnDate(today), a);
      }
      DistinctRowsAtMostRoster(db, rows);
    }
  }

  /** The chart's empty state. */
  predicate ChartEmpty(weekly: seq<WeeklyData>)
  {
    |weekly| == 0 || forall k :: 0 <= k < |weekly| ==> weekly[k].total == 0
  }

  /** For the seven entries `get_weekly_data` returns, the chart is empty
      exactly when no row is dated within those seven days. */
  lemma ChartEmptyMeaning(table: seq<Attendance>, today: Date, weekly: seq<WeeklyData>)
    requires |weekly| == 7
    requires forall k :: 0 <= k < 7 ==> weekly[k].total == |Filter(table, OnDate(today - 6 + k))|
    ensures ChartEmpty(weekly) <==> forall a :: a in table ==> !(today - 6 <= a.date <= today)
  {
    forall a | a in table && today - 6 <= a.date <= today ensures !ChartEmpty(weekly) {
      var k := a.date - today + 6;
      FilterMembers(table, OnDate(today - 6 + k), a);
      assert weekly[k].total > 0;
    }
    if forall a :: a in table ==> !(today - 6 <= a.date <= today) {
      forall k | 0 <= k < 7 ensures weekly[k].total == 0 {
        forall i | 0 <= i < |table| ensures !OnDate(today - 6 + k)(table[i]) {
          assert table[i] in table;
        }
        FilterNone(table, OnDate(today - 6 + k));
      }
    }
  }
}
