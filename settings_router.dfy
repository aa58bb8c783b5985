/** backend/routers/settings.py: reading and partially updating the caller's
    company (its theme id and its custom labels). */
module SettingsRouter {
  import opened Wrappers
  import opened Models

  /** The body of `PUT /api/settings/`; a null field is left unchanged. */
  datatype SettingsUpdate = SettingsUpdate(themeId: Option<string>, customLabels: Option<Labels>)

  datatype CompanyResponse = CompanyResponse(id: int, name: string, themeId: string, customLabels: Option<Labels>)

  /** The labels read back from the stored column: only text that decodes to
      labels gives labels; an empty column, a missing one and text that fails
      to decode all give None (the `except Exception` fallback). */
  function DecodeLabels(column: Option<LabelColumn>): (r: Option<Labels>)
    ensures r.Some? <==> column.Some? && column.value.Json?
    ensures r.Some? ==> column == Some(Json(r.value))
  {
    match column
    case Some(Json(labels)) => Some(labels)
    case _ => None
  }

  /** What `json.dumps(labels.model_dump())` stores. */
  function EncodeLabels(labels: Labels): LabelColumn
  {
    Json(labels)
  }

  /** Labels written by an update are the labels read back. */
  lemma LabelsRoundTrip(labels: Labels)
    ensures DecodeLabels(Some(EncodeLabels(labels))) == Some(labels)
  {
  }

  function View(c: Company): CompanyResponse
  {
    CompanyResponse(c.id, c.name, c.themeId, DecodeLabels(c.customLabels))
  }

  /** `get_settings`: the caller's company with its labels decoded. A caller
      without a company row makes the handler fail with a server error (500). */
  function GetSettings(db: Database, current: User): (r: Response<CompanyResponse>)
    reads db
    ensures r.Err? <==> CompanyById(db.companies, current.companyId).None?
    ensures r.Err? ==> r.error.code == 500
    ensures r.Ok? ==> exists c :: (c in db.companies && Some(c.id) == current.companyId
      && r.value == CompanyResponse(c.id, c.name, c.themeId, DecodeLabels(c.customLabels)))
  {
    match CompanyById(db.companies, current.companyId)
    case None => Err(HttpError(500, "Internal Server Error"))
    case Some(c) => Ok(View(c))
  }

  /** The company after an update: each provided field replaces the stored one. */
  function Apply(c: Company, data: SettingsUpdate): (r: Company)
    ensures r.id == c.id && r.name == c.name
    ensures r.themeId == if data.themeId.Some? then data.themeId.value else c.themeId
    ensures data.customLabels.Some? ==> DecodeLabels(r.customLabels) == data.customLabels
    ensures data.customLabels.None? ==> r.customLabels == c.customLabels
  {
    var c1 := if data.themeId.Some? then c.(themeId := data.themeId.value) else c;
    if data.customLabels.Some? then c1.(customLabels := Some(EncodeLabels(data.customLabels.value))) else c1
  }

  /** Applying an update whose fields are both null changes nothing. */
  lemma ApplyEmpty(c: Company)
    ensures Apply(c, SettingsUpdate(None, None)) == c
  {
  }

  /** Applying the same update twice is applying it once. */
  lemma ApplyIdempotent(c: Company, data: SettingsUpdate)
    ensures Apply(Apply(c, data), data) == Apply(c, data)
  {
  }

  /** Index of the company with the given id. */
  function FindCompany(cs: seq<Company>, id: Option<int>): (k: Option<nat>)
    ensures k.Some? ==> (id.Some? && k.value < |cs| && cs[k.value].id == id.value
      && forall i :: 0 <= i < k.value ==> cs[i].id != id.value)
    ensures k.None? <==> CompanyById(cs, id).None?
    ensures k.Some? ==> CompanyById(cs, id) == Some(cs[k.value])
  {
    if id.None? || cs == [] then None
    else if cs[0].id == id.value then Some(0)
    else
      var k := FindCompany(cs[1..], id);
      if k.Some? then Some(k.value + 1) else None
  }

  /** `update_settings` (admins only): the caller's company row, and no other
      row, gets the provided fields; the response is what `get_settings`
      reports afterwards. A caller without a company row gets a server error
      and nothing changes. */
  method UpdateSettings(db: Database, current: User, data: SettingsUpdate) returns (r: Response<CompanyResponse>)
    requires db.Valid() && current.role == Admin
    modifies db
    ensures db.Valid()
    ensures r.Err? <==> CompanyById(old(db.companies), current.companyId).None?
    ensures r.Err? ==> r.error.code == 500 && db.companies == old(db.companies)
    ensures r.Ok? ==> (|db.companies| == |old(db.companies)|
      && (forall i :: 0 <= i < |db.companies| ==>
            db.companies[i] == if Some(old(db.companies)[i].id) == current.companyId
                               then Apply(old(db.companies)[i], data) else old(db.companies)[i])
      && r == GetSettings(db, current))
    ensures db.students == old(db.students) && db.attendance == old(db.attendance)
      && db.users == old(db.users) && db.departments == old(db.departments)
  {
    var k := FindCompany(db.companies, current.companyId);
    if k.None? {
      return Err(HttpError(500, "Internal Server Error"));
    }
    var cs := db.companies;
    var company := Apply(cs[k.value], data);
    forall i | 0 <= i < |cs| ensures (Some(cs[i].id) == current.companyId) == (i == k.value) {
      if i < k.value {
        assert CompaniesCompatible(cs[i], cs[k.value]);
      } else if i > k.value {
        assert CompaniesCompatible(cs[k.value], cs[i]);
      }
    }
    var ncs := cs[k.value := company];
    forall i, j | 0 <= i < j < |ncs| ensures CompaniesCompatible(ncs[i], ncs[j]) {
      assert CompaniesCompatible(cs[i], cs[j]);
    }
    db.companies := ncs;
    assert FindCompany(db.companies, current.companyId) == Some(k.value) by {
      FindSame(cs, ncs, current.companyId, k.value);
    }
    r := Ok(View(company));
  }

  /** Replacing the found row by one with the same id keeps the lookup. */
  lemma {:induction false} FindSame(cs: seq<Company>, ncs: seq<Company>, id: Option<int>, k: nat)
    requires FindCompany(cs, id) == Some(k) && |ncs| == |cs|
    requires forall i :: 0 <= i < |cs| ==> ncs[i].id == cs[i].id
    ensures FindCompany(ncs, id) == Some(k)
  {
    if k > 0 {
      FindSame(cs[1..], ncs[1..], id, k - 1);
    }
  }
}
