/** backend/routers/departments.py: departments scoped to the caller's
    company, with names unique within a company. The caller is the user that
    authentication produced; the admin-only endpoints require an admin. */
module DepartmentsRouter {
  import opened Wrappers
  import opened Seqs
  import opened Text
  import opened Models

  /** The body of POST and PUT. */
  datatype DepartmentCreate = DepartmentCreate(name: string)

  /** `Department.company_id == company` (a null company matches null rows,
      as SQLAlchemy renders `== None` as `IS NULL`). */
  function InCompany(company: Option<int>): Department -> bool
  {
    (d: Department) => d.companyId == company
  }

  function OutsideCompany(company: Option<int>): Department -> bool
  {
    (d: Department) => d.companyId != company
  }

  predicate NamesAscending(ds: seq<Department>)
  {
    forall i :: 0 <= i < |ds| - 1 ==> LexLe(ds[i].name, ds[i + 1].name)
  }

  lemma AscendingCons(x: Department, s: seq<Department>)
    requires NamesAscending(s) && (s != [] ==> LexLe(x.name, s[0].name))
    ensures NamesAscending([x] + s)
  {
    forall i | 0 <= i < |s| ensures ([x] + s)[i + 1] == s[i] {
    }
  }

  function InsertByName(x: Department, s: seq<Department>): (r: seq<Department>)
    requires NamesAscending(s)
    ensures multiset(r) == multiset(s) + multiset{x}
    ensures NamesAscending(r)
    ensures r[0] == x || r[0] == s[0]
  {
    if s == [] then [x]
    else if LexLe(x.name, s[0].name) then AscendingCons(x, s); [x] + s
    else
      LexLeTotal(x.name, s[0].name);
      assert s == [s[0]] + s[1..];
      var t := InsertByName(x, s[1..]);
      AscendingCons(s[0], t);
      [s[0]] + t
  }

  function SortByName(s: seq<Department>): (r: seq<Department>)
    ensures multiset(r) == multiset(s)
    ensures NamesAscending(r)
  {
    if s == [] then []
    else
      assert s == s[..|s| - 1] + [s[|s| - 1]];
      InsertByName(s[|s| - 1], SortByName(s[..|s| - 1]))
  }

  /** `list_departments`: exactly the caller's company's departments, by name. */
  function ListDepartments(db: Database, current: User): (r: seq<Department>)
    reads db
    ensures multiset(r) == multiset(Filter(db.departments, InCompany(current.companyId)))
    ensures forall d :: d in r ==> d in db.departments && d.companyId == current.companyId
    ensures NamesAscending(r)
  {
    var mine := Filter(db.departments, InCompany(current.companyId));
    var r := SortByName(mine);
    forall d | d in r ensures d in db.departments && d.companyId == current.companyId {
      assert d in multiset(mine);
      FilterMembers(db.departments, InCompany(current.companyId), d);
    }
    r
  }

  /** Some department of `company` other than `exceptId` is called `name`. */
  predicate NameTaken(ds: seq<Department>, company: Option<int>, name: string, exceptId: Option<int>)
  {
    exists d :: d in ds && d.companyId == company && d.name == name && Some(d.id) != exceptId
  }

  predicate Owns(ds: seq<Department>, company: Option<int>, id: int)
  {
    exists d :: d in ds && d.id == id && d.companyId == company
  }

  /** `create_department`: 400 for a name already used in the caller's
      company; otherwise one department with that name and company is added. */
  method CreateDepartment(db: Database, current: User, data: DepartmentCreate) returns (r: Response<Department>)
    requires db.Valid() && current.role == Admin
    modifies db
    ensures db.Valid()
    ensures r.Err? <==> NameTaken(old(db.departments), current.companyId, data.name, None)
    ensures r.Err? ==> r.error == HttpError(400, "Department already exists") && db.departments == old(db.departments)
    ensures r.Ok? ==> (db.departments == old(db.departments) + [r.value]
      && r.value.name == data.name && r.value.companyId == current.companyId
      && forall d :: d in old(db.departments) ==> d.id != r.value.id)
    ensures Filter(db.departments, OutsideCompany(current.companyId))
         == Filter(old(db.departments), OutsideCompany(current.companyId))
    ensures db.students == old(db.students) && db.attendance == old(db.attendance)
      && db.companies == old(db.companies) && db.users == old(db.users)
  {
    if exists d :: d in db.departments && d.companyId == current.companyId && d.name == data.name {
      return Err(HttpError(400, "Department already exists"));
    }
    var dept := Department(db.nextDepartmentId, data.name, current.companyId);
    forall i | 0 <= i < |db.departments| ensures DepartmentsCompatible(db.departments[i], dept) {
      assert db.departments[i] in db.departments;
    }
    PairwiseAppend(db.departments, DepartmentsCompatible, dept);
    FilterAppend(db.departments, [dept], OutsideCompany(current.companyId));
    assert [dept][..0] == [];
    db.departments := db.departments + [dept];
    db.nextDepartmentId := db.nextDepartmentId + 1;
    r := Ok(dept);
  }

  /** Index of the first department with this id in this company. */
  function FindDepartment(ds: seq<Department>, company: Option<int>, id: int): (k: Option<nat>)
    ensures k.Some? ==> k.value < |ds| && ds[k.value].id == id && ds[k.value].companyId == company
    ensures k.None? <==> !Owns(ds, company, id)
  {
    if ds == [] then None
    else if ds[0].id == id && ds[0].companyId == company then Some(0)
    else
      var k := FindDepartment(ds[1..], company, id);
      assert forall d :: d in ds[1..] ==> d in ds;
      assert ds == [ds[0]] + ds[1..];
      if k.Some? then Some(k.value + 1) else None
  }

  /** `update_department`: 404 unless the department belongs to the caller's
      company; 400 when another department of that company has the name (its
      own name may be kept); otherwise only that department's name changes. */
  method UpdateDepartment(db: Database, current: User, deptId: int, data: DepartmentCreate) returns (r: Response<Department>)
    requires db.Valid() && current.role == Admin
    modifies db
    ensures db.Valid()
    ensures r.Err? <==> (!Owns(old(db.departments), current.companyId, deptId)
      || NameTaken(old(db.departments), current.companyId, data.name, Some(deptId)))
    ensures !Owns(old(db.departments), current.companyId, deptId) ==> r == Err(HttpError(404, "Department not found"))
    ensures Owns(old(db.departments), current.companyId, deptId)
      && NameTaken(old(db.departments), current.companyId, data.name, Some(deptId))
      ==> r == Err(HttpError(400, "Department name already exists"))
    ensures r.Err? ==> db.departments == old(db.departments)
    ensures r.Ok? ==> (r.value == Department(deptId, data.name, current.companyId)
      && |db.departments| == |old(db.departments)|
      && forall i :: 0 <= i < |db.departments| ==>
           db.departments[i] == if old(db.departments)[i].id == deptId then r.value else old(db.departments)[i])
    ensures Filter(db.departments, OutsideCompany(current.companyId))
         == Filter(old(db.departments), OutsideCompany(current.companyId))
    ensures db.students == old(db.students) && db.attendance == old(db.attendance)
      && db.companies == old(db.companies) && db.users == old(db.users)
  {
    var c := current.companyId;
    var k := FindDepartment(db.departments, c, deptId);
    if k.None? {
      return Err(HttpError(404, "Department not found"));
    }
    if exists d :: d in db.departments && d.companyId == c && d.name == data.name && d.id != deptId {
      return Err(HttpError(400, "Department name already exists"));
    }
    var old_ := db.departments;
    var updated := old_[k.value].(name := data.name);
    var ds := old_[k.value := updated];
    forall i | 0 <= i < |old_| ensures (old_[i].id == deptId) == (i == k.value) {
      if i < k.value {
        assert DepartmentsCompatible(old_[i], old_[k.value]);
      } else if i > k.value {
        assert DepartmentsCompatible(old_[k.value], old_[i]);
      }
    }
    forall i, j | 0 <= i < j < |ds| ensures DepartmentsCompatible(ds[i], ds[j]) {
      assert DepartmentsCompatible(old_[i], old_[j]);
      if i == k.value || j == k.value {
        var other := if i == k.value then old_[j] else old_[i];
        assert other in old_;
      }
    }
    FilterPointwise(old_, ds, OutsideCompany(c));
    db.departments := ds;
    r := Ok(updated);
  }

  function OtherDepartment(id: int): Department -> bool
  {
    (d: Department) => d.id != id
  }

  /** `delete_department`: 404 for a missing or foreign department; otherwise
      exactly that department is removed. */
  method DeleteDepartment(db: Database, current: User, deptId: int) returns (r: Response<()>)
    requires db.Valid() && current.role == Admin
    modifies db
    ensures db.Valid()
    ensures r.Err? <==> !Owns(old(db.departments), current.companyId, deptId)
    ensures r.Err? ==> r.error == HttpError(404, "Department not found") && db.departments == old(db.departments)
    ensures r.Ok? ==> db.departments == Filter(old(db.departments), OtherDepartment(deptId))
    ensures Filter(db.departments, OutsideCompany(current.companyId))
         == Filter(old(db.departments), OutsideCompany(current.companyId))
    ensures db.students == old(db.students) && db.attendance == old(db.attendance)
      && db.companies == old(db.companies) && db.users == old(db.users)
  {
    var c := current.companyId;
    var k := FindDepartment(db.departments, c, deptId);
    if k.None? {
      return Err(HttpError(404, "Department not found"));
    }
    var ds := db.departments;
    forall i | 0 <= i < |ds| ensures (ds[i].id == deptId) == (i == k.value) {
      if i < k.value {
        assert DepartmentsCompatible(ds[i], ds[k.value]);
      } else if i > k.value {
        assert DepartmentsCompatible(ds[k.value], ds[i]);
      }
    }
    FilterFilter(ds, OtherDepartment(deptId), OutsideCompany(c));
    PairwiseFilter(ds, DepartmentsCompatible, OtherDepartment(deptId));
    BelowFilter(ds, DepartmentKey, db.nextDepartmentId, OtherDepartment(deptId));
    db.departments := Filter(ds, OtherDepartment(deptId));
    r := Ok(());
  }
}
