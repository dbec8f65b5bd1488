/**
 * The department repository of the user-admin sample
 * (DepartmentRepositoryImpl.java): the departments are the children of
 * ou=Departments, the units of a department the children of
 * ou=<department>,ou=Departments, and each child is known by its ou value.
 * Listing the children of an entry is the directory's; here it is the
 * function list, from a DN to the names of its children relative to it.
 */
module Departments {
  import opened Wrappers
  import opened Names
  import opened Users

  /** DEPARTMENTS_OU: ou=Departments. */
  const DepartmentsBase: Dn := [DepartmentsOu]

  /** OuValueNameClassPairMapper: the value of the first ou component of a
      listed name; a name without one fails. */
  function OuValue(n: Dn): (r: Result<string>)
    ensures r.Ok? <==> exists i | 0 <= i < |n| :: n[i].attrType == "ou"
    ensures r.Err? ==> r.error == NoSuchRdn
    ensures r.Ok? ==> Rdn("ou", r.value) in n
    ensures |n| == 1 && n[0].attrType == "ou" ==> r == Ok(n[0].value)
  {
    GetStringValue(n, "ou")
  }

  /** toList(new OuValueNameClassPairMapper()): the ou value of every listed
      name, in listing order; the first name without one fails the whole list. */
  function OuValues(names: seq<Dn>): (r: Result<seq<string>>)
    ensures r.Ok? <==> forall i | 0 <= i < |names| :: OuValue(names[i]).Ok?
    ensures r.Err? ==> r.error == NoSuchRdn
    ensures r.Ok? ==> |r.value| == |names| && forall i | 0 <= i < |names| :: OuValue(names[i]) == Ok(r.value[i])
  {
    if names == [] then Ok([])
    else
      var first := OuValue(names[0]);
      var rest := OuValues(names[1..]);
      assert forall i | 1 <= i < |names| :: names[i] == names[1..][i - 1];
      if first.Err? then Err(first.error)
      else if rest.Err? then Err(rest.error)
      else Ok([first.value] + rest.value)
  }

  /** The ou values of the sample's two department names. */
  lemma SampleDepartments(names: seq<Dn>)
    requires names == [[Rdn("ou", "Accounting")], [Rdn("ou", "IT")]]
    ensures OuValues(names) == Ok(["Accounting", "IT"])
  {
    var tail := names[1..];
    assert tail == [[Rdn("ou", "IT")]] && tail[1..] == [];
    assert OuValue(tail[0]) == Ok("IT");
    assert OuValues(tail[1..]) == Ok([]);
    assert OuValues(tail) == Ok(["IT"] + []);
    assert ["IT"] + [] == ["IT"];
    assert OuValue(names[0]) == Ok("Accounting");
    assert ["Accounting"] + ["IT"] == ["Accounting", "IT"];
    assert OuValues(names) == Ok(["Accounting"] + ["IT"]);
  }

  class DepartmentRepositoryImpl {
    /** ldap.list: the names of the children of an entry, relative to it. */
    const list: Dn -> seq<Dn>

    constructor (list: Dn -> seq<Dn>)
      ensures this.list == list
    {
      this.list := list;
    }

    /** getAllDepartments: the ou values of the children of ou=Departments,
        one per child, in listing order; a child without one fails. */
    function GetAllDepartments(): (r: Result<seq<string>>)
      ensures r.Ok? <==> forall i | 0 <= i < |list(DepartmentsBase)| :: OuValue(list(DepartmentsBase)[i]).Ok?
      ensures r.Err? ==> r.error == NoSuchRdn
      ensures r.Ok? ==> |r.value| == |list(DepartmentsBase)|
      ensures r.Ok? ==> forall i | 0 <= i < |r.value| :: Rdn("ou", r.value[i]) in list(DepartmentsBase)[i]
    {
      OuValues(list(DepartmentsBase))
    }

    /** getAllUnitsForDepartment(department): the ou values of the children
        of ou=department,ou=Departments, one per child, in listing order. */
    function GetAllUnitsForDepartment(department: string): (r: Result<seq<string>>)
      ensures var under := list(Add(DepartmentsBase, [Rdn("ou", department)]));
        && (r.Ok? <==> forall i | 0 <= i < |under| :: OuValue(under[i]).Ok?)
        && (r.Err? ==> r.error == NoSuchRdn)
        && (r.Ok? ==> |r.value| == |under| && forall i | 0 <= i < |r.value| :: Rdn("ou", r.value[i]) in under[i])
    {
      OuValues(list(Add(DepartmentsBase, [Rdn("ou", department)])))
    }

    /** m maps exactly the departments of deps, each to its listed units. */
    ghost predicate MapsUnits(m: map<string, seq<string>>, deps: seq<string>) {
      && (forall d :: d in m <==> d in deps)
      && (forall d | d in m :: GetAllUnitsForDepartment(d) == Ok(m[d]))
    }

    /** m maps exactly the listed departments, each to its listed units. */
    ghost predicate IsDepartmentMap(m: map<string, seq<string>>) {
      GetAllDepartments().Ok? && MapsUnits(m, GetAllDepartments().value)
    }

    /** getDepartmentMap: every department with the list of its units; a
        listed name without an ou value fails the whole map. */
    method GetDepartmentMap() returns (r: Result<map<string, seq<string>>>)
      ensures r.Ok? <==> (GetAllDepartments().Ok? &&
        forall d | d in GetAllDepartments().value :: GetAllUnitsForDepartment(d).Ok?)
      ensures r.Err? ==> r.error == NoSuchRdn
      ensures r.Ok? ==> IsDepartmentMap(r.value)
    {
      var allDepartments := GetAllDepartments();
      if allDepartments.Err? {
        return Err(allDepartments.error);
      }
      var deps := allDepartments.value;
      var m: map<string, seq<string>> := map[];
      var n := 0;
      while n < |deps|
        invariant 0 <= n <= |deps|
        invariant MapsUnits(m, deps[..n])
      {
        var units := GetAllUnitsForDepartment(deps[n]);
        if units.Err? {
          assert deps[n] in deps;
          return Err(units.error);
        }
        MapsUnitsStep(m, deps, n, units.value);
        m := m[deps[n] := units.value];
        n := n + 1;
      }
      assert deps[..n] == deps;
      r := Ok(m);
    }

    /** Adding the next department with its units extends the map. */
    lemma MapsUnitsStep(m: map<string, seq<string>>, deps: seq<string>, n: nat, units: seq<string>)
      requires n < |deps| && MapsUnits(m, deps[..n])
      requires GetAllUnitsForDepartment(deps[n]) == Ok(units)
      ensures MapsUnits(m[deps[n] := units], deps[..n + 1])
    {
      assert deps[..n + 1] == deps[..n] + [deps[n]];
    }

    /** On a directory like the sample's, with departments Accounting and IT,
        one unit under Accounting and four under IT, the map has two
        departments, Accounting with one unit and IT with four. */
    lemma SampleDepartmentMap(m: map<string, seq<string>>)
      requires list(DepartmentsBase) == [[Rdn("ou", "Accounting")], [Rdn("ou", "IT")]]
      requires GetAllUnitsForDepartment("Accounting").Ok? && |list(Add(DepartmentsBase, [Rdn("ou", "Accounting")]))| == 1
      requires GetAllUnitsForDepartment("IT").Ok? && |list(Add(DepartmentsBase, [Rdn("ou", "IT")]))| == 4
      requires IsDepartmentMap(m)
      ensures |m| == 2 && "Accounting" in m && "IT" in m
      ensures |m["Accounting"]| == 1 && |m["IT"]| == 4
    {
      SampleDepartments(list(DepartmentsBase));
      assert m.Keys == {"Accounting", "IT"};
    }
  }
}
