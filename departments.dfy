/**
 * The managers of the departments responsible for an order's analyses
 * (getManagers) and the per-manager contact record with the titles of the
 * departments each one manages (getResponsible).  Departments are visited
 * once each, keyed by id; a manager is listed once, keyed by id.
 */
module Departments {
  import opened Wrappers
  import opened AnalysisTypes
  import opened Sequences

  function DepartmentIds(ds: seq<Department>): (r: seq<string>)
    ensures |r| == |ds| && forall i :: 0 <= i < |ds| ==> r[i] == ds[i].id
  {
    if ds == [] then [] else DepartmentIds(ds[..|ds| - 1]) + [ds[|ds| - 1].id]
  }

  function ManagerIds(ms: seq<Manager>): (r: seq<string>)
    ensures |r| == |ms| && forall i :: 0 <= i < |ms| ==> r[i] == ms[i].id
  {
    if ms == [] then [] else ManagerIds(ms[..|ms| - 1]) + [ms[|ms| - 1].id]
  }

  function DepartmentOf(a: Analysis): Option<Department>
    requires a.service.Some?
  {
    a.service.value.department
  }

  /** The departments met while scanning the analyses, first occurrence of
      each id only, skipping analyses whose service has no department. */
  function Visited(analyses: seq<Analysis>): seq<Department>
    requires AllServiced(analyses)
  {
    if analyses == [] then []
    else
      var prev := Visited(analyses[..|analyses| - 1]);
      match DepartmentOf(analyses[|analyses| - 1])
      case None => prev
      case Some(d) => if d.id in DepartmentIds(prev) then prev else prev + [d]
  }

  /** The managers of the given departments, first occurrence of each id,
      skipping departments without a manager. */
  function ManagersOf(ds: seq<Department>): seq<Manager>
  {
    if ds == [] then []
    else
      var prev := ManagersOf(ds[..|ds| - 1]);
      match ds[|ds| - 1].manager
      case None => prev
      case Some(m) => if m.id in ManagerIds(prev) then prev else prev + [m]
  }

  /** The contact record getResponsible builds for a manager. */
  datatype ManagerInfo = ManagerInfo(name: string, email: string, phone: string, signature: string, dept: string)

  /** Appends a department title to a manager's `dept` string, with a
      ", " separator only when the string is already non-empty. */
  function AppendTitle(dept: string, title: string): string {
    if dept != "" then dept + ", " + title else title
  }

  function DeptString(titles: seq<string>): string {
    if titles == [] then "" else AppendTitle(DeptString(titles[..|titles| - 1]), titles[|titles| - 1])
  }

  function FreshInfo(m: Manager): ManagerInfo {
    ManagerInfo(m.fullname, m.email, m.phone, m.url + "/Signature", "")
  }

  /** The manager records built from the given departments. */
  function ResponsibleOf(ds: seq<Department>): map<string, ManagerInfo>
  {
    if ds == [] then map[]
    else
      var prev := ResponsibleOf(ds[..|ds| - 1]);
      var d := ds[|ds| - 1];
      match d.manager
      case None => prev
      case Some(m) =>
        var info := if m.id in prev then prev[m.id] else FreshInfo(m);
        prev[m.id := info.(dept := AppendTitle(info.dept, d.title))]
  }

  /** Titles of the departments managed by the manager with id k, in order. */
  function TitlesManagedBy(ds: seq<Department>, k: string): seq<string> {
    if ds == [] then []
    else
      var prev := TitlesManagedBy(ds[..|ds| - 1], k);
      var d := ds[|ds| - 1];
      if d.manager.Some? && d.manager.value.id == k then prev + [d.title] else prev
  }

  /** getManagers */
  method Managers(analyses: seq<Analysis>) returns (managerList: seq<Manager>)
    requires AllServiced(analyses)
    ensures managerList == ManagersOf(Visited(analyses))
  {
    var managerIds: seq<string> := [];
    managerList := [];
    var departments: seq<string> := [];
    var i := 0;
    while i < |analyses|
      invariant 0 <= i <= |analyses|
      invariant AllServiced(analyses[..i])
      invariant departments == DepartmentIds(Visited(analyses[..i]))
      invariant managerList == ManagersOf(Visited(analyses[..i]))
      invariant managerIds == ManagerIds(managerList)
    {
      assert analyses[..i + 1][..i] == analyses[..i];
      var a := analyses[i];
      i := i + 1;
      var department := a.service.value.department;
      if department.None? {
        continue;
      }
      var d := department.value;
      if d.id in departments {
        continue;
      }
      ghost var ds := Visited(analyses[..i - 1]);
      assert Visited(analyses[..i]) == ds + [d];
      assert (ds + [d])[..|ds|] == ds;
      departments := departments + [d.id];
      if d.manager.None? {
        continue;
      }
      var m := d.manager.value;
      if m.id !in managerIds {
        managerIds := managerIds + [m.id];
        managerList := managerList + [m];
      }
    }
    assert analyses[..i] == analyses;
  }

  /** getResponsible: the manager records and the set of their ids. */
  method Responsible(analyses: seq<Analysis>) returns (ids: set<string>, managers: map<string, ManagerInfo>)
    requires AllServiced(analyses)
    ensures managers == ResponsibleOf(Visited(analyses))
    ensures ids == managers.Keys
  {
    managers := map[];
    var departments: seq<string> := [];
    var i := 0;
    while i < |analyses|
      invariant 0 <= i <= |analyses|
      invariant AllServiced(analyses[..i])
      invariant departments == DepartmentIds(Visited(analyses[..i]))
      invariant managers == ResponsibleOf(Visited(analyses[..i]))
    {
      assert analyses[..i + 1][..i] == analyses[..i];
      var a := analyses[i];
      i := i + 1;
      var department := a.service.value.department;
      if department.None? {
        continue;
      }
      var d := department.value;
      if d.id in departments {
        continue;
      }
      ghost var ds := Visited(analyses[..i - 1]);
      assert Visited(analyses[..i]) == ds + [d];
      assert (ds + [d])[..|ds|] == ds;
      departments := departments + [d.id];
      if d.manager.None? {
        continue;
      }
      var m := d.manager.value;
      ghost var info := if m.id in managers then managers[m.id] else FreshInfo(m);
      ghost var before := managers;
      if m.id !in managers {
        managers := managers[m.id := FreshInfo(m)];
      }
      assert managers[m.id] == info;
      var mngrDept := managers[m.id].dept;
      if mngrDept != "" {
        mngrDept := mngrDept + ", ";
      }
      mngrDept := mngrDept + d.title;
      assert mngrDept == AppendTitle(info.dept, d.title);
      managers := managers[m.id := managers[m.id].(dept := mngrDept)];
      assert managers == before[m.id := info.(dept := AppendTitle(info.dept, d.title))];
    }
    assert analyses[..i] == analyses;
    ids := managers.Keys;
  }

  // ---------------------------------------------------------------------
  // Properties

  /** Each department is visited once: the visited ids are distinct, every
      department of an analysis has its id visited, and every visited
      department is the department of some analysis. */
  lemma {:induction false} VisitedOnce(analyses: seq<Analysis>)
    requires AllServiced(analyses)
    ensures Distinct(DepartmentIds(Visited(analyses)))
    ensures forall i :: 0 <= i < |analyses| && DepartmentOf(analyses[i]).Some? ==>
              DepartmentOf(analyses[i]).value.id in DepartmentIds(Visited(analyses))
    ensures forall d :: d in Visited(analyses) ==>
              exists i :: 0 <= i < |analyses| && DepartmentOf(analyses[i]) == Some(d)
    decreases |analyses|
  {
    if analyses != [] {
      var p := analyses[..|analyses| - 1];
      assert AllServiced(p) by {
        forall i | 0 <= i < |p| ensures p[i].service.Some? { assert p[i] == analyses[i]; }
      }
      VisitedOnce(p);
      forall i | 0 <= i < |p| ensures p[i] == analyses[i] { }
    }
  }

  /** Each manager appears once, only managers of the given departments
      appear, and every managed department's manager id appears. */
  lemma {:induction false} ManagersOnce(ds: seq<Department>)
    ensures Distinct(ManagerIds(ManagersOf(ds)))
    ensures forall m :: m in ManagersOf(ds) ==> exists d :: d in ds && d.manager == Some(m)
    ensures forall d :: d in ds && d.manager.Some? ==> d.manager.value.id in ManagerIds(ManagersOf(ds))
    decreases |ds|
  {
    if ds != [] {
      var p := ds[..|ds| - 1];
      ManagersOnce(p);
      assert ds == p + [ds[|ds| - 1]];
      forall m | m in ManagersOf(ds) ensures exists d :: d in ds && d.manager == Some(m) {
        if m in ManagersOf(p) {
          var d :| d in p && d.manager == Some(m);
          assert d in ds;
        } else {
          assert ds[|ds| - 1] in ds;
        }
      }
    }
  }

  /** getResponsible and getManagers agree: the record keys are exactly the
      ids of the listed managers. */
  lemma {:induction false} ResponsibleKeys(ds: seq<Department>)
    ensures forall k :: k in ResponsibleOf(ds) <==> k in ManagerIds(ManagersOf(ds))
    decreases |ds|
  {
    if ds != [] {
      ResponsibleKeys(ds[..|ds| - 1]);
    }
  }

  /** Each record carries its manager's name, email, phone and signature
      URL, taken when the manager is first met. */
  lemma {:induction false} ResponsibleContacts(ds: seq<Department>)
    ensures forall m :: m in ManagersOf(ds) ==>
              m.id in ResponsibleOf(ds) && ResponsibleOf(ds)[m.id].(dept := "") == FreshInfo(m)
    decreases |ds|
  {
    if ds != [] {
      var p := ds[..|ds| - 1];
      ResponsibleContacts(p);
      ResponsibleKeys(p);
    }
  }

  /** A record's dept string is built from the titles of the departments
      its manager manages, in visiting order. */
  lemma {:induction false} ResponsibleDepartments(ds: seq<Department>)
    ensures forall k :: k in ResponsibleOf(ds) ==> ResponsibleOf(ds)[k].dept == DeptString(TitlesManagedBy(ds, k))
    decreases |ds|
  {
    if ds != [] {
      var p := ds[..|ds| - 1];
      ResponsibleDepartments(p);
      var d := ds[|ds| - 1];
      if d.manager.Some? && d.manager.value.id !in ResponsibleOf(p) {
        NoTitlesWithoutRecord(p, d.manager.value.id);
      }
    }
  }

  /** A manager with no record yet manages none of the departments seen. */
  lemma {:induction false} NoTitlesWithoutRecord(ds: seq<Department>, k: string)
    requires k !in ResponsibleOf(ds)
    ensures TitlesManagedBy(ds, k) == []
    decreases |ds|
  {
    if ds != [] {
      NoTitlesWithoutRecord(ds[..|ds| - 1], k);
    }
  }

  function Join(titles: seq<string>): string {
    if |titles| <= 1 then (if titles == [] then "" else titles[0])
    else Join(titles[..|titles| - 1]) + ", " + titles[|titles| - 1]
  }

  /** When no department title is empty, a manager's dept string is the
      titles joined with ", ". */
  lemma {:induction false} DeptStringIsJoin(titles: seq<string>)
    requires forall i :: 0 <= i < |titles| ==> titles[i] != ""
    ensures DeptString(titles) == Join(titles)
    ensures titles != [] ==> DeptString(titles) != ""
    decreases |titles|
  {
    if titles != [] {
      var p := titles[..|titles| - 1];
      DeptStringIsJoin(p);
      if p == [] {
        assert titles == [titles[0]];
      }
    }
  }
}
