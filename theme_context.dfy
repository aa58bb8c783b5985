/** frontend/src/context/ThemeContext.jsx: the catalog of occupation presets
    and the provider that keeps the selected occupation, mirrored into the
    `att_occupation` storage key. The same table is what the settings and
    sign-up pages call `THEMES`. */
module ThemeContext {
  import opened Wrappers
  import opened Models
  import opened BrowserStorage

  /** One catalog entry: its key, display texts and the seven labels. */
  datatype Occupation = Occupation(
    id: string,
    name: string,
    fullName: string,
    emoji: string,
    tagline: string,
    memberLabel: string,
    memberLabelPlural: string,
    idLabel: string,
    groupLabel: string,
    groupPlaceholder: string,
    namePlaceholder: string,
    idPlaceholder: string,
    gradient: string,
    accentColor: string)

  const Medical := Occupation(
    "medical", "Medical", "Healthcare & Medical", "\U{1F3E5}",
    "Manage staff attendance across wards & departments",
    "Staff Member", "Staff Members", "Staff ID", "Ward / Department",
    "e.g. Cardiology, ICU, Emergency", "e.g. Dr. Ananya Krishnan", "e.g. MED-2024-001",
    "linear-gradient(135deg, #0ea5e9 0%, #06b6d4 50%, #0891b2 100%)", "#0ea5e9")

  const Corporate := Occupation(
    "corporate", "Corporate", "Corporate & Business", "\U{1F4BC}",
    "Track employee attendance across teams & divisions",
    "Employee", "Employees", "Employee ID", "Team / Division",
    "e.g. Engineering, Product, Sales", "e.g. Priya Mehta", "e.g. EMP-2024-042",
    "linear-gradient(135deg, #f59e0b 0%, #d97706 50%, #b45309 100%)", "#f59e0b")

  const Government := Occupation(
    "government", "Government", "Government & Public Sector", "\U{1F3DB}\U{FE0F}",
    "Official attendance tracking for government departments",
    "Officer", "Officers", "Employee No.", "Department / Ministry",
    "e.g. Revenue, Health, Education", "e.g. Rajesh Kumar Singh", "e.g. GOV-IAS-2024-007",
    "linear-gradient(135deg, #16a34a 0%, #15803d 40%, #f97316 100%)", "#16a34a")

  const Learning := Occupation(
    "learning", "Education", "Education & Learning", "\U{1F393}",
    "Attendance for students across courses & institutions",
    "Student", "Students", "Roll Number", "Class / Course",
    "e.g. B.Tech CSE, NEET Batch, MBA Finance", "e.g. Arjun Sharma", "e.g. CS2024001",
    "linear-gradient(135deg, #8b5cf6 0%, #7c3aed 50%, #6d28d9 100%)", "#8b5cf6")

  /** `OCCUPATIONS`, in declaration order (the order `Object.values` lists). */
  const Catalog: seq<Occupation> := [Medical, Corporate, Government, Learning]

  /** `OCCUPATIONS[key]`; None stands for `undefined`. */
  function Lookup(key: string): (r: Option<Occupation>)
    ensures r.Some? <==> key in {"medical", "corporate", "government", "learning"}
    ensures r.Some? ==> r.value in Catalog && r.value.id == key
  {
    if key == "medical" then Some(Medical)
    else if key == "corporate" then Some(Corporate)
    else if key == "government" then Some(Government)
    else if key == "learning" then Some(Learning)
    else None
  }

  predicate LabelsNonEmpty(o: Occupation)
  {
    o.memberLabel != [] && o.memberLabelPlural != [] && o.idLabel != [] && o.groupLabel != []
    && o.groupPlaceholder != [] && o.namePlaceholder != [] && o.idPlaceholder != []
  }

  /** The catalog has four entries with distinct ids, each found under its
      own id, each with all seven labels non-empty. */
  lemma CatalogShape()
    ensures |Catalog| == 4
    ensures forall i, j :: 0 <= i < j < |Catalog| ==> Catalog[i].id != Catalog[j].id
    ensures forall i :: 0 <= i < |Catalog| ==> Lookup(Catalog[i].id) == Some(Catalog[i])
    ensures forall o :: o in Catalog ==> LabelsNonEmpty(o)
  {
  }

  /** A preset's seven label fields, as the snake_case label draft
      (memberLabel to member_label, and so on). */
  function ProjectLabels(o: Occupation): (r: Labels)
    ensures r.memberLabel == o.memberLabel && r.memberLabelPlural == o.memberLabelPlural
    ensures r.idLabel == o.idLabel && r.groupLabel == o.groupLabel
    ensures r.namePlaceholder == o.namePlaceholder && r.idPlaceholder == o.idPlaceholder
    ensures r.groupPlaceholder == o.groupPlaceholder
  {
    Labels(o.memberLabel, o.memberLabelPlural, o.idLabel, o.groupLabel,
      o.namePlaceholder, o.idPlaceholder, o.groupPlaceholder)
  }

  const OccupationKey: string := "att_occupation"

  /** JavaScript truthiness of a nullable string. */
  predicate Truthy(s: Option<string>)
  {
    s.Some? && s.value != ""
  }

  /** What a fresh provider reads: the stored value, or null when it is
      missing or empty (`getItem(...) || null`). */
  function StoredOccupation(items: map<string, string>): (r: Option<string>)
    ensures r.Some? <==> OccupationKey in items && items[OccupationKey] != ""
    ensures r.Some? ==> r.value == items[OccupationKey]
  {
    if OccupationKey in items && items[OccupationKey] != "" then Some(items[OccupationKey]) else None
  }

  /** The entry for a selected key; null when nothing (or "") is selected or
      the key is not in the catalog. */
  function OccupationOf(occupationType: Option<string>): (r: Option<Occupation>)
    ensures !Truthy(occupationType) ==> r.None?
    ensures Truthy(occupationType) ==> r == Lookup(occupationType.value)
  {
    if Truthy(occupationType) then Lookup(occupationType.value) else None
  }

  class ThemeProvider {
    var occupationType: Option<string>
    var storage: Storage

    /** The state and the storage key agree up to truthiness, so a reload
        would select the same occupation. */
    ghost predicate Mirrored()
      reads this, storage
    {
      (if Truthy(occupationType) then occupationType else None) == StoredOccupation(storage.items)
    }

    /** The lazy initial state: the stored key, or null. */
    constructor (storage: Storage)
      ensures this.storage == storage
      ensures occupationType == StoredOccupation(storage.items)
      ensures Mirrored()
    {
      this.storage := storage;
      occupationType := StoredOccupation(storage.items);
    }

    /** `occupation`. */
    function Occupation(): (r: Option<Occupation>)
      reads this
      ensures r.Some? ==> Truthy(occupationType) && r.value.id == occupationType.value
      ensures !Truthy(occupationType) ==> r.None?
      ensures Truthy(occupationType) ==> r == Lookup(occupationType.value)
    {
      OccupationOf(occupationType)
    }

    /** `setOccupationType`: the state and the stored key both become `t`. */
    method SetOccupationType(t: string)
      modifies this, storage
      ensures storage == old(storage)
      ensures occupationType == Some(t)
      ensures storage.items == old(storage.items)[OccupationKey := t]
      ensures Mirrored()
    {
      occupationType := Some(t);
      storage.SetItem(OccupationKey, t);
    }

    /** `clearOccupation`: no selection, and no stored key. */
    method ClearOccupation()
      modifies this, storage
      ensures storage == old(storage)
      ensures occupationType == None && Occupation() == None
      ensures storage.items == old(storage.items) - {OccupationKey}
      ensures Mirrored()
    {
      occupationType := None;
      storage.RemoveItem(OccupationKey);
    }
  }

  /** A provider built from storage that a mirrored provider left behind
      reports the same occupation. */
  lemma ReloadKeepsOccupation(occupationType: Option<string>, items: map<string, string>)
    requires (if Truthy(occupationType) then occupationType else None) == StoredOccupation(items)
    ensures OccupationOf(StoredOccupation(items)) == OccupationOf(occupationType)
  {
  }

  /** Setting and then clearing leaves no selection and no stored key,
      whatever was there before. */
  method SetThenClear(p: ThemeProvider, t: string)
    modifies p, p.storage
    ensures p.occupationType == None && OccupationKey !in p.storage.items
    ensures p.storage.items == old(p.storage.items) - {OccupationKey}
  {
    p.SetOccupationType(t);
    p.ClearOccupation();
  }
}
