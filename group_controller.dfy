/**
 * The group pages of the user-admin sample (GroupController.java): listing
 * and creating groups, the member / non-member split of the edit page, and
 * adding a user to or removing a user from a group.
 */
module GroupWeb {
  import opened Wrappers
  import opened Names
  import opened Users
  import opened Groups
  import opened Directory
  import opened Service
  import opened GroupRepository

  /** groupMembers.contains(u) on the set of members: a set of users
      compares them with equals, that is by id. */
  predicate InMembers(members: seq<User>, u: User)
    reads members, u
  {
    exists i | 0 <= i < |members| :: members[i].Equals(u)
  }

  /** The filter of editGroup: the users of all that are not among members,
      in the order of all. */
  function NonMembers(all: seq<User>, members: seq<User>): (r: seq<User>)
    reads all, members
    ensures |r| <= |all|
    ensures forall i | 0 <= i < |r| :: r[i] in all && !InMembers(members, r[i])
    ensures forall i | 0 <= i < |all| :: !InMembers(members, all[i]) ==> all[i] in r
  {
    if all == [] then []
    else (if InMembers(members, all[0]) then [] else [all[0]]) + NonMembers(all[1..], members)
  }

  /** The filter keeps order: filtering a concatenation filters each part. */
  lemma {:induction false} NonMembersAppend(a: seq<User>, b: seq<User>, members: seq<User>)
    ensures NonMembers(a + b, members) == NonMembers(a, members) + NonMembers(b, members)
  {
    if a == [] {
      assert a + b == b;
    } else {
      assert (a + b)[1..] == a[1..] + b;
      NonMembersAppend(a[1..], b, members);
    }
  }

  /** The edit page: its view name, the group, its members and everyone else. */
  datatype EditGroupView = EditGroupView(view: string, group: Group, members: seq<User>, nonMembers: seq<User>)

  class GroupController {
    const groups: GroupRepositoryImpl
    const userService: UserService

    /** Both collaborators work on the same directory. */
    ghost predicate Valid()
      reads groups.dir, userService.dir
    {
      groups.Valid() && userService.Valid() && groups.dir == userService.dir
    }

    constructor (groups: GroupRepositoryImpl, userService: UserService)
      requires groups.Valid() && userService.Valid() && groups.dir == userService.dir
      ensures Valid() && this.groups == groups && this.userService == userService
    {
      this.groups := groups;
      this.userService := userService;
    }

    /** Every user of us was read from the entry at its id. */
    ghost predicate Loaded(us: seq<User>)
      reads userService.dir, us
    {
      forall i | 0 <= i < |us| :: us[i].id.Some? && us[i].id.value in userService.dir.users
        && us[i].ReadFrom(us[i].id.value, userService.dir.users[us[i].id.value])
    }

    /** us are the stored users whose relative ids the member DNs give. */
    ghost predicate MembersOf(us: seq<User>, member: set<Dn>)
      reads userService.dir, us
    {
      && Loaded(us)
      && (forall i | 0 <= i < |us| :: us[i].id.value in userService.RelativeIdsOf(member))
      && (forall id | id in userService.dir.users && id in userService.RelativeIdsOf(member) ::
            exists i | 0 <= i < |us| :: us[i].id == Some(id))
    }

    /** us are the stored users whose relative ids the member DNs do not give. */
    ghost predicate NonMembersOf(us: seq<User>, member: set<Dn>)
      reads userService.dir, us
    {
      && Loaded(us)
      && (forall i | 0 <= i < |us| :: us[i].id.value !in userService.RelativeIdsOf(member))
      && (forall id | id in userService.dir.users && id !in userService.RelativeIdsOf(member) ::
            exists i | 0 <= i < |us| :: us[i].id == Some(id))
    }

    /** Filtering all the stored users by the members found for member
        leaves exactly the stored users that member does not name. */
    lemma SplitOfFound(all: seq<User>, members: seq<User>, member: set<Dn>)
      requires Loaded(all)
      requires forall id | id in userService.dir.users :: exists p | 0 <= p < |all| :: all[p].id == Some(id)
      requires MembersOf(members, member)
      ensures NonMembersOf(NonMembers(all, members), member)
    {
      var others := NonMembers(all, members);
      var rel := userService.RelativeIdsOf(member);
      forall i | 0 <= i < |others|
        ensures others[i].id.Some? && others[i].id.value in userService.dir.users
        ensures others[i].ReadFrom(others[i].id.value, userService.dir.users[others[i].id.value])
        ensures others[i].id.value !in rel
      {
        var p :| 0 <= p < |all| && all[p] == others[i];
        forall j | 0 <= j < |members| ensures members[j].id != others[i].id {
          assert !members[j].Equals(others[i]);
        }
      }
      forall id | id in userService.dir.users && id !in rel
        ensures exists i | 0 <= i < |others| :: others[i].id == Some(id)
      {
        var p :| 0 <= p < |all| && all[p].id == Some(id);
        forall j | 0 <= j < |members| ensures !members[j].Equals(all[p]) {
          assert members[j].id.value in rel;
        }
        assert all[p] in others;
      }
    }

    /** The members and the non-members of one member set share no id, and
        together they hold every stored user. */
    lemma SplitCovers(members: seq<User>, others: seq<User>, member: set<Dn>)
      requires MembersOf(members, member) && NonMembersOf(others, member)
      ensures forall i, j | 0 <= i < |members| && 0 <= j < |others| :: members[i].id != others[j].id
      ensures forall id | id in userService.dir.users ::
        (exists i | 0 <= i < |members| :: members[i].id == Some(id)) ||
        (exists j | 0 <= j < |others| :: others[j].id == Some(id))
    {
      forall id | id in userService.dir.users
        ensures (exists i | 0 <= i < |members| :: members[i].id == Some(id)) ||
                (exists j | 0 <= j < |others| :: others[j].id == Some(id))
      {
        if id in userService.RelativeIdsOf(member) {
          assert exists i | 0 <= i < |members| :: members[i].id == Some(id);
        } else {
          assert exists j | 0 <= j < |others| :: others[j].id == Some(id);
        }
      }
    }

    /** listGroups: the view listGroups with the names of all groups. */
    method ListGroups() returns (view: string, groupNames: seq<string>)
      requires Valid()
      ensures view == "listGroups"
      ensures |groupNames| == |groups.dir.groups|
      ensures forall i | 0 <= i < |groupNames| :: GroupId(groupNames[i]) in groups.dir.groups
      ensures forall k | k in groups.dir.groups :: groups.dir.groups[k].cn in groupNames
    {
      groupNames := groups.GetAllGroupNames();
      view := "listGroups";
    }

    /** initNewGroup */
    function InitNewGroup(): (view: string)
      ensures view == "newGroup"
    {
      "newGroup"
    }

    /** newGroup(group): create the group, then redirect to its page; a
        failing bind propagates. */
    method NewGroup(group: Group) returns (r: Result<string>)
      requires Valid()
      modifies group.members, groups.dir`groups
      ensures Valid()
      ensures groups.AdminMember() in group.members.elements
      ensures group.members.elements == old(group.members.elements) + {groups.AdminMember()}
      ensures r.Err? <==> GroupId(group.name) in old(groups.dir.groups)
      ensures r.Err? ==> r.error == NameAlreadyBound && groups.dir.groups == old(groups.dir.groups)
      ensures r.Ok? ==> r.value == "redirect:groups/" + group.name
      ensures r.Ok? ==> groups.dir.groups == old(groups.dir.groups)[GroupId(group.name) := group.Entry()]
    {
      var failed := groups.Create(group);
      if failed.Some? {
        r := Err(failed.value);
      } else {
        r := Ok("redirect:groups/" + group.name);
      }
    }

    /** editGroup(name): the group called name, the users it has as members,
        and every other user in findAll order. Without such a group the
        member lookup dereferences null. The non-members are the users of
        all, the result of findAll, filtered in order. */
    method EditGroup(name: string) returns (r: Result<EditGroupView>, ghost all: seq<User>)
      requires Valid()
      ensures r.Err? <==> GroupId(name) !in groups.dir.groups
      ensures r.Err? ==> r.error == NullReference
      ensures r.Ok? ==> r.value.view == "editGroup"
      ensures r.Ok? ==> fresh(r.value.group) && r.value.group.id == Some(GroupId(name))
      ensures r.Ok? ==> r.value.group.Entry() == groups.dir.groups[GroupId(name)]
      ensures r.Ok? ==> MembersOf(r.value.members, groups.dir.groups[GroupId(name)].member)
      ensures r.Ok? ==> NonMembersOf(r.value.nonMembers, groups.dir.groups[GroupId(name)].member)
      ensures r.Ok? ==> Loaded(all) && r.value.nonMembers == NonMembers(all, r.value.members)
      ensures r.Ok? ==> forall id | id in userService.dir.users :: exists p | 0 <= p < |all| :: all[p].id == Some(id)
    {
      var foundGroup := groups.dir.FindGroupByName(name);
      if foundGroup == null {
        r, all := Err(NullReference), [];
        return;
      }
      var groupMembers := userService.FindAllMembers(foundGroup.GetMembers().elements);
      var everyone := userService.FindAll();
      assert MembersOf(groupMembers, foundGroup.members.elements);
      var otherUsers := NonMembers(everyone, groupMembers);
      SplitOfFound(everyone, groupMembers, foundGroup.members.elements);
      all := everyone;
      r := Ok(EditGroupView("editGroup", foundGroup, groupMembers, otherUsers));
    }

    /** The named group after one change to its members, saved in place. */
    ghost function Changed(old_groups: map<Dn, GroupEntry>, name: string, member: set<Dn>): map<Dn, GroupEntry>
      requires GroupId(name) in old_groups
    {
      old_groups[GroupId(name) := old_groups[GroupId(name)].(member := member)]
    }

    /** addUserToGroup(name, userId): add the absolute DN of the user to the
        named group and save it; without such a group this dereferences null. */
    method AddUserToGroup(name: string, userId: string, parse: string -> Dn) returns (r: Result<string>)
      requires Valid()
      modifies groups.dir`groups
      ensures Valid()
      ensures var k := GroupId(name); var m := userService.ToAbsoluteDn(parse(userId));
        && (k !in old(groups.dir.groups) ==> r == Err(NullReference) && groups.dir.groups == old(groups.dir.groups))
        && (k in old(groups.dir.groups) ==>
              && r == Ok("redirect:/groups/" + name)
              && groups.dir.groups == Changed(old(groups.dir.groups), name, old(groups.dir.groups)[k].member + {m}))
    {
      var group := groups.dir.FindGroupByName(name);
      if group == null {
        r := Err(NullReference);
        return;
      }
      group.AddMember(userService.ToAbsoluteDn(parse(userId)));
      var _ := groups.dir.SaveGroup(group);
      r := Ok("redirect:/groups/" + name);
    }

    /** removeUserFromGroup(name, userId): remove the absolute DN of the user
        from the named group and save it; without such a group this
        dereferences null. */
    method RemoveUserFromGroup(name: string, userId: string, parse: string -> Dn) returns (r: Result<string>)
      requires Valid()
      modifies groups.dir`groups
      ensures Valid()
      ensures var k := GroupId(name); var m := userService.ToAbsoluteDn(parse(userId));
        && (k !in old(groups.dir.groups) ==> r == Err(NullReference) && groups.dir.groups == old(groups.dir.groups))
        && (k in old(groups.dir.groups) ==>
              && r == Ok("redirect:/groups/" + name)
              && groups.dir.groups == Changed(old(groups.dir.groups), name, old(groups.dir.groups)[k].member - {m}))
    {
      var group := groups.dir.FindGroupByName(name);
      if group == null {
        r := Err(NullReference);
        return;
      }
      group.RemoveMember(userService.ToAbsoluteDn(parse(userId)));
      var _ := groups.dir.SaveGroup(group);
      r := Ok("redirect:/groups/" + name);
    }
  }
}
