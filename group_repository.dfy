/**
 * The custom half of the group repository of the user-admin sample
 * (GroupRepositoryImpl.java): creating a group entry, which always carries
 * the System user as a member because a groupOfNames may not be empty, and
 * listing the names of all groups.
 */
module GroupRepository {
  import opened Wrappers
  import opened Names
  import opened Users
  import opened Groups
  import opened Directory

  /** ADMIN_USER: cn=System,ou=System,ou=IT,ou=Departments, relative to the base. */
  const AdminUser: Dn := CalcId("IT", "System", "System")

  /** The System user is a user DN in the IT department. */
  lemma AdminUserLayout()
    ensures IsUserDn(AdminUser)
    ensures AdminUser == [Rdn("ou", "Departments"), Rdn("ou", "IT"), Rdn("ou", "System"), Rdn("cn", "System")]
    ensures GetStringValue(AdminUser, "cn") == Ok("System")
  {
    CalcIdLayout("IT", "System", "System");
  }

  class GroupRepositoryImpl {
    const dir: Directory
    const baseLdapPath: Dn

    /** The repository works on dir, and its base path is the base of dir. */
    ghost predicate Valid()
      reads dir
    {
      dir.Valid() && baseLdapPath == dir.base
    }

    /** The repository over dir, with the base path of dir. */
    constructor (dir: Directory)
      requires dir.Valid()
      ensures Valid() && this.dir == dir
    {
      this.dir := dir;
      baseLdapPath := dir.base;
    }

    /** The absolute DN of the System user. */
    function AdminMember(): (r: Dn)
      ensures StartsWith(r, baseLdapPath) && RemoveFirst(r, baseLdapPath) == AdminUser
    {
      RemoveFirstAdd(baseLdapPath, AdminUser);
      Prepend(AdminUser, baseLdapPath)
    }

    /** create(group): add the System user to the members, then bind the
        entry the group maps to at the DN calculated from it; the bind fails
        when that DN is taken. The object's id is left as it was. */
    method Create(group: Group) returns (r: Option<Error>)
      requires Valid()
      modifies group.members, dir`groups
      ensures Valid()
      ensures group.members.elements == old(group.members.elements) + {AdminMember()}
      ensures group.members.elements != {}
      ensures r.Some? <==> GroupId(group.name) in old(dir.groups)
      ensures r.Some? ==> r.value == NameAlreadyBound && dir.groups == old(dir.groups)
      ensures r.None? ==> dir.groups == old(dir.groups)[GroupId(group.name) := group.Entry()]
      ensures r.None? ==> dir.groups[GroupId(group.name)].member == old(group.members.elements) + {AdminMember()}
    {
      group.AddMember(AdminMember());
      var targetId := group.CalculatedId();
      var entry := group.Entry();
      r := dir.BindGroup(targetId, entry);
    }

    /** getAllGroupNames: the cn of every group entry, each once, in the
        order the server returns them (unspecified). */
    method GetAllGroupNames() returns (names: seq<string>)
      requires Valid()
      ensures |names| == |dir.groups|
      ensures forall i | 0 <= i < |names| :: GroupId(names[i]) in dir.groups
      ensures forall k | k in dir.groups :: dir.groups[k].cn in names
      ensures forall i, j | 0 <= i < j < |names| :: names[i] != names[j]
    {
      var todo := dir.groups.Keys;
      names := [];
      ghost var ks: seq<Dn> := [];
      while todo != {}
        invariant todo <= dir.groups.Keys
        invariant |ks| == |names|
        invariant forall i | 0 <= i < |ks| :: ks[i] in dir.groups && ks[i] == GroupId(names[i]) && names[i] == dir.groups[ks[i]].cn
        invariant forall k :: k in ks <==> k in dir.groups && k !in todo
        invariant forall i, j | 0 <= i < j < |ks| :: ks[i] != ks[j]
        invariant |names| + |todo| == |dir.groups|
        decreases todo
      {
        var k :| k in todo;
        assert GroupPlaced(dir.groups, k);
        names, ks := names + [dir.groups[k].cn], ks + [k];
        todo := todo - {k};
      }
      forall k | k in dir.groups ensures dir.groups[k].cn in names {
        var i :| 0 <= i < |ks| && ks[i] == k;
      }
    }
  }
}
