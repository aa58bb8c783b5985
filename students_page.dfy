/** frontend/src/pages/Students.jsx: the search filter over the roster and
    the form state after an add. */
module StudentsPage {
  import opened Wrappers
  import opened Seqs
  import opened Models
  import opened Text
  import opened StudentsRouter

  /** The filter's test for one member, with `q` already lower-cased. */
  function MatchesQuery(q: string): Student -> bool
  {
    (s: Student) =>
      Contains(Lower(s.name), q) || Contains(Lower(s.rollNumber), q) || Contains(Lower(s.department), q)
  }

  /** The search effect: the members whose lower-cased name, roll number or
      department contains the lower-cased search text, in roster order. */
  function SearchFilter(students: seq<Student>, search: string): (r: seq<Student>)
    ensures forall s :: s in r <==> (s in students && (Contains(Lower(s.name), Lower(search))
      || Contains(Lower(s.rollNumber), Lower(search)) || Contains(Lower(s.department), Lower(search))))
    ensures IsSubsequence(r, students)
  {
    var r := Filter(students, MatchesQuery(Lower(search)));
    forall s ensures s in r <==> s in students && MatchesQuery(Lower(search))(s) {
      FilterMembers(students, MatchesQuery(Lower(search)), s);
    }
    FilterIsSubsequence(students, MatchesQuery(Lower(search)));
    r
  }

  /** An empty search keeps the whole roster, as the load does. */
  lemma EmptySearchKeepsAll(students: seq<Student>)
    ensures SearchFilter(students, "") == students
  {
    forall i | 0 <= i < |students| ensures MatchesQuery(Lower(""))(students[i]) {
      ContainsEmpty(Lower(students[i].name));
    }
    FilterAll(students, MatchesQuery(Lower("")));
  }

  /** Searches that differ only in the case of ASCII letters agree. */
  lemma CaseInsensitive(students: seq<Student>, a: string, b: string)
    requires Lower(a) == Lower(b)
    ensures SearchFilter(students, a) == SearchFilter(students, b)
  {
  }

  /** Searching for the lower-cased text is searching for the text. */
  lemma SearchLowered(students: seq<Student>, search: string)
    ensures SearchFilter(students, Lower(search)) == SearchFilter(students, search)
  {
    LowerIdempotent(search);
  }

  /** The add dialog: whether it is shown, the form and the error text. */
  datatype AddDialog = AddDialog(showModal: bool, form: StudentCreate, error: string)

  const EmptyForm := StudentCreate("", "", "")

  const AddFailed := "Failed to add. Please try again."

  /** `handleAdd` once `createStudent` has settled: success closes the dialog
      and resets the form to three empty strings; failure keeps the form and
      shows the server's detail, or a fixed text when it has none. */
  function AfterAdd(dialog: AddDialog, outcome: Response<Student>): (r: AddDialog)
    ensures outcome.Ok? ==> r == AddDialog(false, StudentCreate("", "", ""), "")
    ensures outcome.Err? ==> (r.showModal == dialog.showModal && r.form == dialog.form
      && r.error == (if outcome.error.detail != "" then outcome.error.detail else AddFailed))
  {
    match outcome
    case Ok(_) => AddDialog(false, EmptyForm, "")
    case Err(e) => dialog.(error := if e.detail != "" then e.detail else AddFailed)
  }
}
