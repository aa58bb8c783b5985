/** frontend/src/pages/Settings.jsx: the settings draft (the selected preset
    and the seven labels), how it is initialised from the stored settings,
    changed by picking a preset or editing one label, and saved; and the
    department requests of the page. `THEMES` is the catalog of presets. */
module SettingsPage {
  import opened Wrappers
  import opened Models
  import opened Text
  import opened ThemeContext
  import opened SettingsRouter
  import opened DepartmentsRouter
  import opened DepartmentsPage

  /** The editable state: `selectedTheme` and `labels`. */
  datatype Draft = Draft(selectedTheme: string, labels: Labels)

  /** The preset a stored theme id falls back to: its own, or corporate. */
  function BaseOccupation(themeId: string): (o: Occupation)
    ensures o in Catalog
    ensures Lookup(themeId).Some? ==> o == Lookup(themeId).value
    ensures Lookup(themeId).None? ==> o == Corporate
  {
    match Lookup(themeId)
    case Some(o) => o
    case None => Corporate
  }

  /** The draft once the settings have loaded: the stored id or 'corporate'
      when it is empty; the stored labels as they are, or else the labels of
      the stored preset (corporate for an unknown id). */
  function LoadDraft(settings: CompanyResponse): (d: Draft)
    ensures d.selectedTheme == if settings.themeId != "" then settings.themeId else "corporate"
    ensures settings.customLabels.Some? ==> d.labels == settings.customLabels.value
    ensures settings.customLabels.None? ==> d.labels == ProjectLabels(BaseOccupation(settings.themeId))
  {
    var selected := if settings.themeId != "" then settings.themeId else "corporate";
    match settings.customLabels
    case Some(labels) => Draft(selected, labels)
    case None => Draft(selected, ProjectLabels(BaseOccupation(settings.themeId)))
  }

  /** `handleThemeSelect(id)` for a preset id: the selection becomes `id` and
      the whole label draft becomes that preset's labels. */
  function SelectTheme(d: Draft, id: string): (r: Draft)
    requires Lookup(id).Some?
    ensures r.selectedTheme == id
    ensures r.labels == ProjectLabels(Lookup(id).value)
  {
    Draft(id, ProjectLabels(Lookup(id).value))
  }

  /** Picking a preset gives the draft a company on that preset without
      custom labels loads with, whatever the draft was. */
  lemma SelectMatchesLoad(d: Draft, c: Company, id: string)
    requires Lookup(id).Some? && c.themeId == id && c.customLabels.None?
    ensures SelectTheme(d, id) == LoadDraft(View(c))
  {
  }

  /** The seven label keys. */
  datatype LabelKey =
    MemberLabel | MemberLabelPlural | IdLabel | GroupLabel | NamePlaceholder | IdPlaceholder | GroupPlaceholder

  function GetLabel(labels: Labels, key: LabelKey): string
  {
    match key
    case MemberLabel => labels.memberLabel
    case MemberLabelPlural => labels.memberLabelPlural
    case IdLabel => labels.idLabel
    case GroupLabel => labels.groupLabel
    case NamePlaceholder => labels.namePlaceholder
    case IdPlaceholder => labels.idPlaceholder
    case GroupPlaceholder => labels.groupPlaceholder
  }

  /** Labels are determined by their seven keys. */
  lemma LabelsByKeys(a: Labels, b: Labels)
    requires forall k :: GetLabel(a, k) == GetLabel(b, k)
    ensures a == b
  {
    assert GetLabel(a, MemberLabel) == GetLabel(b, MemberLabel);
    assert GetLabel(a, MemberLabelPlural) == GetLabel(b, MemberLabelPlural);
    assert GetLabel(a, IdLabel) == GetLabel(b, IdLabel);
    assert GetLabel(a, GroupLabel) == GetLabel(b, GroupLabel);
    assert GetLabel(a, NamePlaceholder) == GetLabel(b, NamePlaceholder);
    assert GetLabel(a, IdPlaceholder) == GetLabel(b, IdPlaceholder);
    assert GetLabel(a, GroupPlaceholder) == GetLabel(b, GroupPlaceholder);
  }

  /** `setLabels({ ...labels, [key]: value })`: only `key` changes. */
  function EditLabel(d: Draft, key: LabelKey, value: string): (r: Draft)
    ensures r.selectedTheme == d.selectedTheme
    ensures forall k :: GetLabel(r.labels, k) == if k == key then value else GetLabel(d.labels, k)
  {
    var l := d.labels;
    var labels := match key
      case MemberLabel => l.(memberLabel := value)
      case MemberLabelPlural => l.(memberLabelPlural := value)
      case IdLabel => l.(idLabel := value)
      case GroupLabel => l.(groupLabel := value)
      case NamePlaceholder => l.(namePlaceholder := value)
      case IdPlaceholder => l.(idPlaceholder := value)
      case GroupPlaceholder => l.(groupPlaceholder := value);
    Draft(d.selectedTheme, labels)
  }

  /** Writing back the value a key already has changes nothing. */
  lemma EditSameValue(d: Draft, key: LabelKey)
    ensures EditLabel(d, key, GetLabel(d.labels, key)) == d
  {
    LabelsByKeys(EditLabel(d, key, GetLabel(d.labels, key)).labels, d.labels);
  }

  /** `handleSaveSettings`: the whole draft, both fields set. */
  function SavePayload(d: Draft): (u: SettingsUpdate)
    ensures u.themeId == Some(d.selectedTheme) && u.customLabels == Some(d.labels)
  {
    SettingsUpdate(Some(d.selectedTheme), Some(d.labels))
  }

  /** Saving a draft and loading the settings back gives the same draft. */
  lemma SaveThenLoad(c: Company, d: Draft)
    requires d.selectedTheme != ""
    ensures LoadDraft(View(Apply(c, SavePayload(d)))) == d
  {
  }

  /** The rename button sends the edit text as typed, without trimming. */
  function RenameRequest(id: int, editDeptName: string): (r: (int, DepartmentCreate))
    ensures r.0 == id && r.1.name == editDeptName
  {
    (id, DepartmentCreate(editDeptName))
  }

  /** A non-blank name is renamed verbatim here and trimmed on the
      departments page; the two requests differ whenever the name starts or
      ends with white space. */
  lemma RenameKeepsSpaces(id: int, t: string)
    requires !AllSpace(t)
    ensures RenameRequest(id, t) == (id, DepartmentCreate(t))
    ensures HandleUpdate(PageState(false, "", Some(id), t), id) == Some((id, DepartmentCreate(Trim(t))))
    ensures t != [] && (IsSpace(t[0]) || IsSpace(t[|t| - 1])) ==> RenameRequest(id, t).1 != HandleUpdate(PageState(false, "", Some(id), t), id).value.1
  {
    var u := Trim(t);
    assert u != [];
    if IsSpace(t[0]) || IsSpace(t[|t| - 1]) {
      assert !IsSpace(u[0]) && !IsSpace(u[|u| - 1]);
      assert u != t;
    }
  }
}
