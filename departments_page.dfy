/** frontend/src/pages/Departments.jsx: the create and rename guards, which
    trim the typed name and send nothing when it is blank, and the add/edit
    state of the page. */
module DepartmentsPage {
  import opened Wrappers
  import opened Text
  import opened DepartmentsRouter

  /** The request a typed name gives: nothing for a blank name, otherwise
      the name with the surrounding white space cut. */
  function NameRequest(text: string): (r: Option<DepartmentCreate>)
    ensures r.None? <==> AllSpace(text)
    ensures r.Some? ==> r.value.name != [] && Trim(r.value.name) == r.value.name
  {
    if Trim(text) == "" then None
    else
      TrimIdempotent(text);
      Some(DepartmentCreate(Trim(text)))
  }

  /** The name sent is the typed text with only white space cut from its
      two ends. */
  lemma NameRequestCutsSpace(text: string) returns (a: nat, b: nat)
    requires NameRequest(text).Some?
    ensures a <= b <= |text|
    ensures NameRequest(text) == Some(DepartmentCreate(text[a..b]))
    ensures AllSpace(text[..a]) && AllSpace(text[b..])
  {
    var t := Trim(text);
    assert NameRequest(text) == Some(DepartmentCreate(t));
    a := TrimSlice(text);
    b := a + |t|;
    assert text[a..b] == t;
  }

  /** The page's own state: the add form and the row being renamed. */
  datatype PageState = PageState(showAdd: bool, newName: string, editId: Option<int>, editName: string)

  /** A successful create clears the name and hides the form, so the
      create button (`handleCreate`, which sends `NameRequest(newName)`)
      sends nothing until a name is typed again. */
  function CreateSucceeded(s: PageState): (r: PageState)
    ensures r == s.(newName := "", showAdd := false)
    ensures NameRequest(r.newName).None?
  {
    s.(newName := "", showAdd := false)
  }

  /** Cancel hides the form and clears the name. */
  function Cancel(s: PageState): (r: PageState)
    ensures !r.showAdd && r.newName == "" && r.editId == s.editId && r.editName == s.editName
    ensures NameRequest(r.newName).None?
  {
    s.(showAdd := false, newName := "")
  }

  /** `handleUpdate(id)`: the rename request, if any. */
  function HandleUpdate(s: PageState, id: int): (r: Option<(int, DepartmentCreate)>)
    ensures r.None? <==> AllSpace(s.editName)
    ensures r.Some? ==> r.value.0 == id && Some(r.value.1) == NameRequest(s.editName)
  {
    match NameRequest(s.editName)
    case None => None
    case Some(data) => Some((id, data))
  }

  /** A successful rename leaves edit mode. */
  function UpdateSucceeded(s: PageState): (r: PageState)
    ensures r.editId.None? && r.showAdd == s.showAdd && r.newName == s.newName
  {
    s.(editId := None)
  }

  datatype Key = Enter | Escape | Other

  /** A key in the rename input: Enter commits (the state stays until the
      request settles), Escape leaves edit mode, any other key does nothing. */
  function RenameKey(s: PageState, id: int, key: Key): (r: (PageState, Option<(int, DepartmentCreate)>))
    ensures key == Enter ==> r == (s, HandleUpdate(s, id))
    ensures key == Escape ==> r.0 == s.(editId := None) && r.1.None?
    ensures key == Other ==> r == (s, None)
  {
    match key
    case Enter => (s, HandleUpdate(s, id))
    case Escape => (s.(editId := None), None)
    case Other => (s, None)
  }
}
