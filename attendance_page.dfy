/** frontend/src/pages/Attendance.jsx: the `studentId -> status` map of the
    day being marked. It starts with everyone present, is rebuilt from the
    day's stored records, is edited by toggling one member or marking
    everyone, and is submitted as one record per roster member. */
module AttendancePage {
  import opened Seqs
  import opened Models
  import opened AttendanceRouter

  type StatusMap = map<int, Status>

  function RecordIds(records: seq<AttendanceRecord>): set<int>
  {
    set r | r in records :: r.studentId
  }

  /** Every roster member mapped to `status`, and nothing else. */
  function Uniform(roster: seq<Student>, status: Status): (m: StatusMap)
    ensures m.Keys == StudentIds(roster)
    ensures forall k :: k in m ==> m[k] == status
  {
    map id | id in StudentIds(roster) :: status
  }

  /** The record statuses by student, a later record overwriting an earlier
      one for the same student. */
  function RecordMap(records: seq<AttendanceRecord>): (m: StatusMap)
    ensures m.Keys == RecordIds(records)
  {
    if records == [] then map[]
    else
      var last := records[|records| - 1];
      assert records == records[..|records| - 1] + [last];
      RecordMap(records[..|records| - 1])[last.studentId := last.status]
  }

  /** The status a student gets is that of their last record. */
  lemma {:induction false} LastRecordWins(records: seq<AttendanceRecord>, k: int) returns (i: nat)
    requires k in RecordIds(records)
    ensures i < |records| && records[i].studentId == k && RecordMap(records)[k] == records[i].status
    ensures forall j :: i < j < |records| ==> records[j].studentId != k
  {
    var n := |records| - 1;
    if records[n].studentId == k {
      i := n;
    } else {
      var prefix := records[..n];
      assert records == prefix + [records[n]];
      var r :| r in records && r.studentId == k;
      assert r in prefix;
      i := LastRecordWins(prefix, k);
    }
  }

  /** The non-empty branch of `loadExisting`: the record map, plus every roster
      member without a record as present. */
  function Merge(roster: seq<Student>, records: seq<AttendanceRecord>): (m: StatusMap)
    ensures m.Keys == RecordIds(records) + StudentIds(roster)
  {
    var rm := RecordMap(records);
    map k | k in RecordIds(records) + StudentIds(roster) :: if k in rm then rm[k] else Present
  }

  /** `loadExisting`: the merge when the day has records, otherwise everyone
      present. */
  function Reconciled(roster: seq<Student>, records: seq<AttendanceRecord>): StatusMap
  {
    if |records| > 0 then Merge(roster, records) else Uniform(roster, Present)
  }

  /** The two branches agree: with no records, the merge is everyone present. */
  lemma ReconciledIsMerge(roster: seq<Student>, records: seq<AttendanceRecord>)
    ensures Reconciled(roster, records) == Merge(roster, records)
  {
    if records == [] {
      assert RecordIds(records) == {};
    }
  }

  /** What reconciliation yields: keys are the roster ids plus the record ids
      (records of members not on the roster stay); a member with records gets
      the last one's status, everyone else on the roster is present. */
  lemma ReconciledMeaning(roster: seq<Student>, records: seq<AttendanceRecord>)
    ensures Reconciled(roster, records).Keys == StudentIds(roster) + RecordIds(records)
    ensures forall k :: k in StudentIds(roster) && k !in RecordIds(records) ==> Reconciled(roster, records)[k] == Present
    ensures forall k :: k in RecordIds(records) ==> Reconciled(roster, records)[k] == RecordMap(records)[k]
  {
    ReconciledIsMerge(roster, records);
  }

  // ---- The loops ----

  /** `forEach(s => { obj[s.id] = status })` over a fresh object. */
  method FillStatuses(roster: seq<Student>, status: Status) returns (m: StatusMap)
    ensures m == Uniform(roster, status)
  {
    m := map[];
    var i := 0;
    while i < |roster|
      invariant 0 <= i <= |roster|
      invariant m.Keys == StudentIds(roster[..i])
      invariant forall k :: k in m ==> m[k] == status
    {
      assert roster[..i + 1] == roster[..i] + [roster[i]];
      m := m[roster[i].id := status];
      i := i + 1;
    }
    assert roster[..i] == roster;
  }

  /** The initial load: every fetched member present, no other key. */
  method InitialLoad(roster: seq<Student>) returns (m: StatusMap)
    ensures m.Keys == StudentIds(roster)
    ensures forall k :: k in m ==> m[k] == Present
  {
    m := FillStatuses(roster, Present);
  }

  /** `loadExisting`, with the fetched rows of the day. */
  method LoadExisting(roster: seq<Student>, rows: seq<Attendance>) returns (m: StatusMap)
    ensures m == Reconciled(roster, Entries(rows))
  {
    var records := Entries(rows);
    if |rows| > 0 {
      m := map[];
      var i := 0;
      while i < |rows|
        invariant 0 <= i <= |rows|
        invariant m == RecordMap(records[..i])
      {
        assert records[..i + 1][..i] == records[..i];
        m := m[rows[i].studentId := rows[i].status];
        i := i + 1;
      }
      assert records[..i] == records;
      var rm := m;
      var j := 0;
      while j < |roster|
        invariant 0 <= j <= |roster|
        invariant m.Keys == rm.Keys + StudentIds(roster[..j])
        invariant forall k :: k in m ==> m[k] == if k in rm then rm[k] else Present
      {
        assert roster[..j + 1] == roster[..j] + [roster[j]];
        if roster[j].id !in m {
          m := m[roster[j].id := Present];
        }
        j := j + 1;
      }
      assert roster[..j] == roster;
    } else {
      m := FillStatuses(roster, Present);
    }
  }

  /** `markAll(status)`: exactly the roster ids, all mapped to `status`; any
      earlier entry is dropped. */
  method MarkAll(roster: seq<Student>, status: Status) returns (m: StatusMap)
    ensures m.Keys == StudentIds(roster)
    ensures forall k :: k in m ==> m[k] == status
  {
    m := FillStatuses(roster, status);
  }

  // ---- Pure parts ----

  /** `toggle(id)`: present becomes absent; anything else, a missing key
      included, becomes present. */
  function Toggle(m: StatusMap, id: int): (r: StatusMap)
    ensures r.Keys == m.Keys + {id}
    ensures forall k :: k in m && k != id ==> r[k] == m[k]
    ensures r[id] == if id in m && m[id] == Present then Absent else Present
  {
    m[id := if id in m && m[id] == Present then Absent else Present]
  }

  /** Toggling a key that is there twice restores the map. */
  lemma ToggleTwice(m: StatusMap, id: int)
    requires id in m
    ensures Toggle(Toggle(m, id), id) == m
  {
  }

  /** The number of entries with a given status (`Object.values(...).filter`). */
  function CountStatus(m: StatusMap, status: Status): nat
  {
    |set k | k in m && m[k] == status|
  }

  lemma CountsAddUp(m: StatusMap)
    ensures CountStatus(m, Present) + CountStatus(m, Absent) == |m|
  {
    var p := set k | k in m && m[k] == Present;
    var a := set k | k in m && m[k] == Absent;
    assert m.Keys == p + a;
    assert p * a == {};
  }

  /** `records` of `handleSubmit`: one per roster member in roster order, with
      the member's status. Every state the page reaches covers the roster. */
  function SubmitRecords(roster: seq<Student>, m: StatusMap): (r: seq<AttendanceRecord>)
    requires StudentIds(roster) <= m.Keys
    ensures |r| == |roster|
    ensures forall i :: 0 <= i < |roster| ==> r[i] == AttendanceRecord(roster[i].id, m[roster[i].id])
  {
    seq(|roster|, i requires 0 <= i < |roster| => AttendanceRecord(roster[i].id, m[roster[i].id]))
  }

  /** Every state the page produces covers the roster. */
  lemma Covers(roster: seq<Student>, m: StatusMap, records: seq<AttendanceRecord>, id: int, status: Status)
    ensures StudentIds(roster) <= Uniform(roster, status).Keys
    ensures StudentIds(roster) <= Reconciled(roster, records).Keys
    ensures StudentIds(roster) <= m.Keys ==> StudentIds(roster) <= Toggle(m, id).Keys
  {
    ReconciledMeaning(roster, records);
  }

  predicate DistinctIds(roster: seq<Student>)
  {
    forall i, j :: 0 <= i < j < |roster| ==> roster[i].id != roster[j].id
  }

  lemma {:induction false} DistinctRoster(roster: seq<Student>)
    requires DistinctIds(roster)
    ensures |StudentIds(roster)| == |roster|
  {
    if roster != [] {
      var prefix := roster[..|roster| - 1];
      var last := roster[|roster| - 1];
      assert roster == prefix + [last];
      DistinctRoster(prefix);
      assert StudentIds(roster) == StudentIds(prefix) + {last.id};
      assert last.id !in StudentIds(prefix) by {
        forall s | s in prefix ensures s.id != last.id {
          var k :| 0 <= k < |prefix| && prefix[k] == s;
          assert roster[k] == s;
        }
      }
    }
  }

  /** After marking everyone absent: nobody present, the whole roster absent. */
  lemma MarkAllAbsentCounts(roster: seq<Student>)
    requires DistinctIds(roster)
    ensures CountStatus(Uniform(roster, Absent), Present) == 0
    ensures CountStatus(Uniform(roster, Absent), Absent) == |roster|
  {
    var m := Uniform(roster, Absent);
    assert (set k | k in m && m[k] == Present) == {};
    assert (set k | k in m && m[k] == Absent) == StudentIds(roster);
    DistinctRoster(roster);
  }

  /** The records of a roster prefix rebuild the map on that prefix. */
  lemma {:induction false} SubmitPrefix(roster: seq<Student>, m: StatusMap, n: nat)
    requires StudentIds(roster) <= m.Keys && n <= |roster|
    ensures RecordMap(SubmitRecords(roster, m)[..n]) == map k | k in StudentIds(roster[..n]) :: m[k]
  {
    var recs := SubmitRecords(roster, m);
    if n > 0 {
      SubmitPrefix(roster, m, n - 1);
      assert recs[..n][..n - 1] == recs[..n - 1];
      assert roster[..n] == roster[..n - 1] + [roster[n - 1]];
      assert StudentIds(roster[..n]) == StudentIds(roster[..n - 1]) + {roster[n - 1].id};
    } else {
      assert StudentIds(roster[..0]) == {};
    }
  }

  /** Submitting and loading the day back gives the same map, when the map's
      keys are exactly the roster. */
  lemma SubmitThenReload(roster: seq<Student>, m: StatusMap)
    requires m.Keys == StudentIds(roster)
    ensures Reconciled(roster, SubmitRecords(roster, m)) == m
  {
    var recs := SubmitRecords(roster, m);
    SubmitPrefix(roster, m, |roster|);
    assert recs[..|roster|] == recs;
    assert roster[..|roster|] == roster;
    ReconciledIsMerge(roster, recs);
    assert RecordIds(recs) == StudentIds(roster) by {
      forall k | k in StudentIds(roster) ensures k in RecordIds(recs) {
        var s :| s in roster && s.id == k;
        var i :| 0 <= i < |roster| && roster[i] == s;
        assert recs[i].studentId == k;
      }
    }
  }
}
