/**
 * The service layer of the user-admin sample (UserService.java): conversion
 * between DNs relative to the directory base (the ids of users) and absolute
 * DNs (the values of group member attributes), user creation with its
 * ROLE_USER membership, and user update with the repair of group references
 * when the update moves the user entry.
 */
module Service {
  import opened Wrappers
  import opened Names
  import opened Users
  import opened Groups
  import opened Directory

  /** GroupRepository.USER_GROUP: the group every new user joins. */
  const UserGroup: string := "ROLE_USER"

  /** Snapshots of the groups found by groups.findByMember(dn), taken at
      their DNs ks: distinct DNs covering exactly the groups that hold dn. */
  lemma FoundSnapshots(groups: map<Dn, GroupEntry>, ks: seq<Dn>, dn: Dn)
    requires forall i | 0 <= i < |ks| :: ks[i] in groups && dn in groups[ks[i]].member
    requires forall i, j | 0 <= i < j < |ks| :: ks[i] != ks[j]
    requires forall k | k in groups && dn in groups[k].member :: k in ks
    ensures DistinctKeys(SnapshotsAt(groups, ks))
    ensures SnapKeys(SnapshotsAt(groups, ks)) == GroupsWithMember(groups, dn)
  {
    var snaps := SnapshotsAt(groups, ks);
    forall k | k in GroupsWithMember(groups, dn) ensures k in SnapKeys(snaps) {
      var i :| 0 <= i < |ks| && ks[i] == k;
      assert snaps[i].0 == k;
    }
  }

  /** The repair of the groups found by groups.findByMember(from) in before,
      at the DNs ks, gives ReplaceMember, from any start that has changed
      only groups that referenced from. */
  lemma FoundRepairIsReplace(before: map<Dn, GroupEntry>, start: map<Dn, GroupEntry>, ks: seq<Dn>, from: Dn, to: Dn)
    requires forall i | 0 <= i < |ks| :: ks[i] in before && from in before[ks[i]].member
    requires forall i, j | 0 <= i < j < |ks| :: ks[i] != ks[j]
    requires forall k | k in before && from in before[k].member :: k in ks
    requires start.Keys == before.Keys
    requires forall k | k in before && from !in before[k].member :: start[k] == before[k]
    ensures PatchAll(start, SnapshotsAt(before, ks), from, to) == ReplaceMember(before, from, to)
  {
    FoundSnapshots(before, ks, from);
    RepairGivesReplaceMember(before, start, SnapshotsAt(before, ks), from, to);
  }

  /** Snapshots taken at DNs of a directory whose groups sit at
      cn=<cn>,ou=Groups are at DNs of that directory, each the DN its cn gives. */
  lemma SnapshotsPlaced(groups: map<Dn, GroupEntry>, ks: seq<Dn>)
    requires forall i | 0 <= i < |ks| :: ks[i] in groups
    requires forall k :: GroupPlaced(groups, k)
    ensures var snaps := SnapshotsAt(groups, ks);
      forall i | 0 <= i < |snaps| :: snaps[i].0 in groups && snaps[i].0 == GroupId(snaps[i].1.cn)
  {
    var snaps := SnapshotsAt(groups, ks);
    forall i | 0 <= i < |snaps| ensures snaps[i].0 in groups && snaps[i].0 == GroupId(snaps[i].1.cn) {
      assert GroupPlaced(groups, ks[i]);
    }
  }

  /** The groups at the end of an update that moved a user from from to to,
      for a directory of kind dirKind and a service configured with svcType:
      the AD ordering finds the referencing groups before the move and so
      repairs them on either kind of directory; the standard ordering finds
      them after the move, which on AD is too late. */
  function GroupsAfterMove(dirKind: DirectoryType, svcType: DirectoryType, groups: map<Dn, GroupEntry>, from: Dn, to: Dn): (r: map<Dn, GroupEntry>)
    ensures r.Keys == groups.Keys
    ensures from != to ==> GroupsWithMember(r, from) == {}
    ensures svcType == AD || dirKind == Standard ==>
      forall k | k in groups && from in groups[k].member :: to in r[k].member
    ensures from != to && svcType == Standard && dirKind == AD ==>
      forall k | k in groups :: (to in r[k].member <==> to in groups[k].member)
  {
    if svcType == AD || dirKind == Standard then ReplaceMember(groups, from, to) else WithoutMember(groups, from)
  }

  /** On a directory that has already cleared from, repairing the references
      to from finds nothing to repair. */
  lemma ReplaceAfterClearIsClear(groups: map<Dn, GroupEntry>, from: Dn, to: Dn)
    ensures ReplaceMember(WithoutMember(groups, from), from, to) == WithoutMember(groups, from)
  {
  }

  class UserService {
    const dir: Directory
    const baseLdapPath: Dn
    var directoryType: DirectoryType

    /** The service reads and writes dir, and its base path is the base of dir. */
    ghost predicate Valid()
      reads dir
    {
      dir.Valid() && baseLdapPath == dir.base
    }

    /** The service over the repositories of dir, with the base path of dir;
        the directory type is unset, which selects the standard path. */
    constructor (dir: Directory)
      requires dir.Valid()
      ensures Valid() && this.dir == dir && directoryType == Standard
    {
      this.dir := dir;
      baseLdapPath := dir.base;
      directoryType := Standard;
    }

    method SetDirectoryType(directoryType: DirectoryType)
      modifies this`directoryType
      ensures this.directoryType == directoryType
    {
      this.directoryType := directoryType;
    }

    /** toAbsoluteDn: the base path followed by the components of rel. */
    function ToAbsoluteDn(rel: Dn): (r: Dn)
      ensures StartsWith(r, baseLdapPath) && |r| == |baseLdapPath| + |rel|
      ensures RemoveFirst(r, baseLdapPath) == rel
    {
      Add(baseLdapPath, rel)
    }

    /** toRelativeIds: the base path stripped from every absolute id, in order;
        an id outside the base comes back unchanged. */
    function ToRelativeIds(absoluteIds: seq<Dn>): (r: seq<Dn>)
      ensures |r| == |absoluteIds|
      ensures forall i | 0 <= i < |r| :: StartsWith(absoluteIds[i], baseLdapPath) ==> ToAbsoluteDn(r[i]) == absoluteIds[i]
      ensures forall i | 0 <= i < |r| :: !StartsWith(absoluteIds[i], baseLdapPath) ==> r[i] == absoluteIds[i]
    {
      if absoluteIds == [] then []
      else [RemoveFirst(absoluteIds[0], baseLdapPath)] + ToRelativeIds(absoluteIds[1..])
    }

    /** Absolute ids made by toAbsoluteDn convert back to the relative names they came from. */
    lemma {:induction false} RelativeOfAbsolute(rels: seq<Dn>)
      ensures ToRelativeIds(seq(|rels|, i requires 0 <= i < |rels| => ToAbsoluteDn(rels[i]))) == rels
    {
      var abs := seq(|rels|, i requires 0 <= i < |rels| => ToAbsoluteDn(rels[i]));
      var r := ToRelativeIds(abs);
      forall i | 0 <= i < |rels| ensures r[i] == rels[i] {
        RemoveFirstInjective(ToAbsoluteDn(r[i]), abs[i], baseLdapPath);
      }
    }

    /** The relative ids of a set of absolute member DNs. */
    ghost function RelativeIdsOf(absoluteIds: set<Dn>): set<Dn> {
      set m | m in absoluteIds :: RemoveFirst(m, baseLdapPath)
    }

    /** Converting the elements of a set, in any order, gives the relative ids of the set. */
    lemma RelativeIdsOfElements(ordered: seq<Dn>, absoluteIds: set<Dn>)
      requires forall x :: x in ordered <==> x in absoluteIds
      ensures forall k :: k in ToRelativeIds(ordered) <==> k in RelativeIdsOf(absoluteIds)
    {
      var rel := ToRelativeIds(ordered);
      forall j | 0 <= j < |ordered| ensures rel[j] == RemoveFirst(ordered[j], baseLdapPath) {
        if StartsWith(ordered[j], baseLdapPath) { RemoveFirstAdd(baseLdapPath, rel[j]); }
      }
      forall k | k in RelativeIdsOf(absoluteIds) ensures k in rel {
        var m :| m in absoluteIds && RemoveFirst(m, baseLdapPath) == k;
        var j :| 0 <= j < |ordered| && ordered[j] == m;
        assert rel[j] == k;
      }
    }

    /** getUserGroup: groups.findByName(ROLE_USER), or null. */
    method GetUserGroup() returns (g: Group?)
      requires Valid()
      ensures g == null <==> GroupId(UserGroup) !in dir.groups
      ensures g != null ==> fresh(g) && fresh(g.members) && g.id == Some(GroupId(UserGroup))
      ensures g != null ==> g.name == UserGroup && g.Entry() == dir.groups[GroupId(UserGroup)]
    {
      g := dir.FindGroupByName(UserGroup);
    }

    /** findAll */
    method FindAll() returns (us: seq<User>)
      requires Valid()
      ensures forall i | 0 <= i < |us| :: fresh(us[i]) && us[i].id.Some?
      ensures forall i | 0 <= i < |us| :: us[i].id.value in dir.users && us[i].ReadFrom(us[i].id.value, dir.users[us[i].id.value])
      ensures forall i, j | 0 <= i < j < |us| :: us[i].id != us[j].id
      ensures forall k | k in dir.users :: exists i | 0 <= i < |us| :: us[i].id == Some(k)
    {
      us := dir.FindAllUsers();
    }

    /** searchByNameName(text): the users whose full name contains text. */
    method SearchByName(text: string) returns (us: seq<User>)
      requires Valid()
      ensures forall i | 0 <= i < |us| :: fresh(us[i]) && us[i].id.Some?
      ensures forall i | 0 <= i < |us| :: us[i].id.value in dir.users && us[i].ReadFrom(us[i].id.value, dir.users[us[i].id.value])
      ensures forall i, j | 0 <= i < j < |us| :: us[i].id != us[j].id
      ensures forall k | k in dir.users :: ContainsText(dir.users[k].cn, text) <==> exists i | 0 <= i < |us| :: us[i].id == Some(k)
    {
      us := dir.FindUsersByFullNameContains(text);
    }

    /** findUser: the stored user at userId, or a not-found failure. */
    method FindUser(userId: Dn) returns (r: Result<User>)
      requires Valid()
      ensures r.Ok? <==> userId in dir.users
      ensures r.Err? ==> r.error == NameNotFound
      ensures r.Ok? ==> fresh(r.value) && r.value.ReadFrom(userId, dir.users[userId])
    {
      var found := dir.FindUserById(userId);
      if found.Some? {
        r := Ok(found.value);
      } else {
        r := Err(NameNotFound);
      }
    }

    /** findAllMembers: the users whose relative ids the absolute member DNs
        give, each once (a LinkedHashSet of users, whose equality is by id);
        member DNs without a user entry are skipped. */
    method FindAllMembers(absoluteIds: set<Dn>) returns (us: seq<User>)
      requires Valid()
      ensures forall i | 0 <= i < |us| :: fresh(us[i]) && us[i].id.Some?
      ensures forall i | 0 <= i < |us| :: us[i].id.value in dir.users && us[i].ReadFrom(us[i].id.value, dir.users[us[i].id.value])
      ensures forall i | 0 <= i < |us| :: us[i].id.value in RelativeIdsOf(absoluteIds)
      ensures forall i, j | 0 <= i < j < |us| :: us[i].id != us[j].id
      ensures forall k | k in dir.users && k in RelativeIdsOf(absoluteIds) :: exists i | 0 <= i < |us| :: us[i].id == Some(k)
    {
      var ordered := ElementsOf(absoluteIds);
      var relativeIds := ToRelativeIds(ordered);
      RelativeIdsOfElements(ordered, absoluteIds);
      us := FindDistinctById(relativeIds);
    }

    /** new LinkedHashSet<>(userRepo.findAllById(ids)): one user per id of
        ids that has an entry, read from that entry. */
    method FindDistinctById(ids: seq<Dn>) returns (us: seq<User>)
      requires Valid()
      ensures forall i | 0 <= i < |us| :: fresh(us[i]) && us[i].id.Some? && us[i].id.value in ids
      ensures forall i | 0 <= i < |us| :: us[i].id.value in dir.users && us[i].ReadFrom(us[i].id.value, dir.users[us[i].id.value])
      ensures forall i, j | 0 <= i < j < |us| :: us[i].id != us[j].id
      ensures forall k | k in dir.users && k in ids :: exists i | 0 <= i < |us| :: us[i].id == Some(k)
    {
      var found := dir.FindAllUsersById(ids);
      ghost var present := dir.Present(ids);
      ghost var from, at;
      us, from, at := DistinctById(found);
      forall i | 0 <= i < |us| ensures fresh(us[i]) {
        assert us[i] == found[from[i]];
      }
      KeptUsersLoaded(ids, present, found, us, from, at);
    }

    /** The users kept from those read at present, the ids of ids that have
        an entry, are read from their entries, have distinct ids and cover
        every id of ids that has an entry. */
    lemma KeptUsersLoaded(ids: seq<Dn>, present: seq<Dn>, found: seq<User>, us: seq<User>, from: seq<nat>, at: seq<nat>)
      requires forall k :: k in present <==> k in ids && k in dir.users
      requires |found| == |present|
      requires forall i | 0 <= i < |found| :: found[i].ReadFrom(present[i], dir.users[present[i]])
      requires |from| == |us| && forall i | 0 <= i < |us| :: from[i] < |found| && us[i] == found[from[i]]
      requires forall i, j | 0 <= i < j < |us| :: us[i].id != us[j].id
      requires |at| == |found| && forall p | 0 <= p < |found| :: at[p] < |us| && us[at[p]].id == found[p].id
      ensures forall i | 0 <= i < |us| :: us[i].id.Some? && us[i].id.value in ids
      ensures forall i | 0 <= i < |us| :: us[i].id.value in dir.users && us[i].ReadFrom(us[i].id.value, dir.users[us[i].id.value])
      ensures forall i, j | 0 <= i < j < |us| :: us[i].id != us[j].id
      ensures forall k | k in dir.users && k in ids :: exists i | 0 <= i < |us| :: us[i].id == Some(k)
    {
      forall i | 0 <= i < |us|
        ensures us[i].id == Some(present[from[i]]) && present[from[i]] in present
        ensures us[i].ReadFrom(present[from[i]], dir.users[present[from[i]]])
      {
        assert us[i] == found[from[i]];
      }
      forall k | k in dir.users && k in ids ensures exists i | 0 <= i < |us| :: us[i].id == Some(k) {
        var p :| 0 <= p < |present| && present[p] == k;
        assert found[p].id == Some(k);
        assert us[at[p]].id == Some(k);
      }
    }

    /** The distinct elements of a set, in some order (the iteration order of a HashSet). */
    static method ElementsOf(s: set<Dn>) returns (r: seq<Dn>)
      ensures forall x :: x in r <==> x in s
      ensures forall i, j | 0 <= i < j < |r| :: r[i] != r[j]
    {
      var todo := s;
      r := [];
      while todo != {}
        invariant todo <= s
        invariant forall x :: x in r <==> x in s && x !in todo
        invariant forall i, j | 0 <= i < j < |r| :: r[i] != r[j]
        decreases todo
      {
        var x :| x in todo;
        r := r + [x];
        todo := todo - {x};
      }
    }

    /** new LinkedHashSet<>(users): the first user of each id, in order.
        User r[i] is users[from[i]], and the user kept for users[p] is r[at[p]]. */
    static method DistinctById(users: seq<User>) returns (r: seq<User>, ghost from: seq<nat>, ghost at: seq<nat>)
      ensures |from| == |r| && forall i | 0 <= i < |r| :: from[i] < |users| && r[i] == users[from[i]]
      ensures forall i, j | 0 <= i < j < |r| :: r[i].id != r[j].id
      ensures |at| == |users| && forall p | 0 <= p < |users| :: at[p] < |r| && r[at[p]].id == users[p].id
    {
      r, from, at := [], [], [];
      var n := 0;
      while n < |users|
        invariant 0 <= n <= |users|
        invariant |from| == |r| && |at| == n
        invariant forall i | 0 <= i < |r| :: from[i] < n && r[i] == users[from[i]]
        invariant forall i, j | 0 <= i < j < |r| :: r[i].id != r[j].id
        invariant forall p | 0 <= p < n :: at[p] < |r| && r[at[p]].id == users[p].id
      {
        var m := 0;
        while m < |r| && r[m].id != users[n].id
          invariant m <= |r|
          invariant forall i | 0 <= i < m :: r[i].id != users[n].id
        {
          m := m + 1;
        }
        ghost var r0, at0 := r, at;
        if m == |r| {
          r, from := r + [users[n]], from + [n];
        }
        at := at + [m];
        forall p | 0 <= p <= n ensures at[p] < |r| && r[at[p]].id == users[p].id {
          if p < n {
            assert at[p] == at0[p] && r[at0[p]] == r0[at0[p]];
          }
        }
        n := n + 1;
      }
    }

    /** createUser: save the user, then add its absolute DN to the ROLE_USER
        group and save that group; the saved user is the object passed in. */
    method CreateUser(user: User) returns (r: Result<User>)
      requires Valid()
      modifies dir, user`id
      ensures Valid()
      ensures var s := OdmSave(old(dir.users), old(user.id), old(user.CalculatedId()), old(user.Entry()));
        var afterSave := dir.AfterUserUnbind(old(dir.groups), s.unbound);
        var gid := GroupId(UserGroup);
        && dir.users == s.entries
        && (s.Failed? ==> r == Err(s.error) && dir.groups == afterSave)
        && (s.Stored? && gid !in afterSave ==> r == Err(NullReference) && dir.groups == afterSave && user.id == Some(s.id))
        && (s.Stored? && gid in afterSave ==>
              && r == Ok(user) && user.id == Some(s.id)
              && dir.groups == afterSave[gid := afterSave[gid].(member := afterSave[gid].member + {ToAbsoluteDn(s.id)})])
    {
      var saved := dir.SaveUser(user);
      if saved.Err? {
        r := saved;
        return;
      }
      var userGroup := GetUserGroup();
      if userGroup == null {
        r := Err(NullReference);
        return;
      }
      userGroup.AddMember(ToAbsoluteDn(user.id.value));
      var _ := dir.SaveGroup(userGroup);
      r := Ok(user);
    }

    /** The eight setter calls of updateUser: the editable fields of from
        are copied onto to; id and employeeNumber are left alone. */
    static method CopyEditableFields(from: User, to: User)
      modifies to
      ensures to.id == old(to.id)
      ensures to.Entry() == UserEntry(old(from.fullName), old(to.employeeNumber), old(from.firstName),
        old(from.lastName), old(from.title), old(from.email), old(from.phone))
      ensures to.CalculatedId() == CalcId(old(from.department), old(from.unit), old(from.fullName))
    {
      to.SetFirstName(from.firstName);
      to.SetLastName(from.lastName);
      to.SetFullName(from.fullName);
      to.SetEmail(from.email);
      to.SetPhone(from.phone);
      to.SetTitle(from.title);
      to.SetDepartment(from.department);
      to.SetUnit(from.unit);
    }

    /** updateUser: copy the editable fields of user onto the stored user at
        userId (employeeNumber is not copied), then save it along the path
        the directory type selects. */
    method UpdateUser(userId: Dn, user: User) returns (r: Result<User>)
      requires Valid()
      modifies dir
      ensures Valid()
      ensures userId !in old(dir.users) ==> r == Err(NameNotFound) && dir.users == old(dir.users) && dir.groups == old(dir.groups)
      ensures userId in old(dir.users) ==>
        var newId := CalcId(user.department, user.unit, user.fullName);
        var entry := UserEntry(user.fullName, old(dir.users[userId]).employeeNumber, user.firstName, user.lastName, user.title, user.email, user.phone);
        var s := OdmSave(old(dir.users), Some(userId), newId, entry);
        && dir.users == s.entries
        && (s.Failed? ==> r == Err(s.error) && dir.groups == dir.AfterUserUnbind(old(dir.groups), s.unbound))
        && (s.Stored? ==> r.Ok? && fresh(r.value) && r.value.ReadFrom(newId, entry))
        && (s.Stored? && newId == userId ==> dir.groups == old(dir.groups))
        && (s.Stored? && newId != userId ==>
              dir.groups == GroupsAfterMove(dir.kind, directoryType, old(dir.groups), ToAbsoluteDn(userId), ToAbsoluteDn(newId)))
    {
      var originalId := userId;
      var found := FindUser(userId);
      if found.Err? {
        r := found;
        return;
      }
      var existingUser := found.value;
      CopyEditableFields(user, existingUser);
      if directoryType == AD {
        r := UpdateUserAd(originalId, existingUser);
      } else {
        r := UpdateUserStandard(originalId, existingUser);
        if dir.kind == AD && r.Ok? && existingUser.id.value != originalId {
          ReplaceAfterClearIsClear(old(dir.groups), ToAbsoluteDn(originalId), ToAbsoluteDn(existingUser.id.value));
        }
      }
    }

    /** updateUserStandard: save first; if the id changed, find the groups
        that reference the old absolute DN and repair them. */
    method UpdateUserStandard(originalId: Dn, existingUser: User) returns (r: Result<User>)
      requires Valid() && existingUser.id == Some(originalId)
      modifies dir, existingUser`id
      ensures Valid()
      ensures var s := OdmSave(old(dir.users), Some(originalId), old(existingUser.CalculatedId()), old(existingUser.Entry()));
        var afterSave := dir.AfterUserUnbind(old(dir.groups), s.unbound);
        && dir.users == s.entries
        && (s.Failed? ==> r == Err(s.error) && dir.groups == afterSave && existingUser.id == Some(originalId))
        && (s.Stored? ==> r == Ok(existingUser) && existingUser.id == Some(s.id))
        && (s.Stored? && s.id == originalId ==> dir.groups == old(dir.groups))
        && (s.Stored? && s.id != originalId ==>
              dir.groups == ReplaceMember(afterSave, ToAbsoluteDn(originalId), ToAbsoluteDn(s.id)))
    {
      var savedUser := dir.SaveUser(existingUser);
      if savedUser.Err? {
        r := savedUser;
        return;
      }
      if originalId != existingUser.id.value {
        var oldMemberDn := ToAbsoluteDn(originalId);
        var newMemberDn := ToAbsoluteDn(existingUser.id.value);
        var groups, ks := dir.FindGroupsByMember(oldMemberDn);
        FoundRepairIsReplace(dir.groups, dir.groups, ks, oldMemberDn, newMemberDn);
        UpdateGroupReferences(groups, oldMemberDn, newMemberDn, SnapshotsAt(dir.groups, ks));
      }
      r := savedUser;
    }

    /** updateUserAd: find the groups that reference the old absolute DN
        before the save (AD clears the references of a moved entry), save,
        and if the id changed repair the groups found. */
    method UpdateUserAd(originalId: Dn, existingUser: User) returns (r: Result<User>)
      requires Valid() && existingUser.id == Some(originalId)
      modifies dir, existingUser`id
      ensures Valid()
      ensures var s := OdmSave(old(dir.users), Some(originalId), old(existingUser.CalculatedId()), old(existingUser.Entry()));
        && dir.users == s.entries
        && (s.Failed? ==> r == Err(s.error) && dir.groups == dir.AfterUserUnbind(old(dir.groups), s.unbound) && existingUser.id == Some(originalId))
        && (s.Stored? ==> r == Ok(existingUser) && existingUser.id == Some(s.id))
        && (s.Stored? && s.id == originalId ==> dir.groups == old(dir.groups))
        && (s.Stored? && s.id != originalId ==>
              dir.groups == ReplaceMember(old(dir.groups), ToAbsoluteDn(originalId), ToAbsoluteDn(s.id)))
    {
      var oldMemberDn := ToAbsoluteDn(originalId);
      var groups, ks := dir.FindGroupsByMember(oldMemberDn);
      ghost var before := dir.groups;
      ghost var snaps := SnapshotsAt(before, ks);
      SnapshotsPlaced(before, ks);
      ghost var s := OdmSave(dir.users, Some(originalId), existingUser.CalculatedId(), existingUser.Entry());
      var savedUser := dir.SaveUser(existingUser);
      if savedUser.Err? {
        r := savedUser;
        return;
      }
      var newMemberDn := ToAbsoluteDn(existingUser.id.value);
      if originalId != existingUser.id.value {
        FoundRepairIsReplace(before, dir.groups, ks, oldMemberDn, newMemberDn);
        UpdateGroupReferences(groups, oldMemberDn, newMemberDn, snaps);
      }
      r := savedUser;
    }

    /** One round of updateGroupReferences: replace the old DN by the new one
        in group and save it in place. */
    method RepointAndSave(group: Group, originalId: Dn, newId: Dn)
      requires Valid()
      requires group.id == Some(group.CalculatedId()) && group.CalculatedId() in dir.groups
      modifies dir`groups, group`id, group.members
      ensures Valid()
      ensures group.id == old(group.id)
      ensures dir.groups == old(dir.groups)[group.CalculatedId() := Repointed(old(group.Entry()), originalId, newId)]
    {
      group.RemoveMember(originalId);
      group.AddMember(newId);
      var _ := dir.SaveGroup(group);
    }

    /** updateGroupReferences: in each group, replace the old DN by the new
        one and save the group, one after the other; snaps are the DN and
        the attributes each group object holds on entry. */
    method UpdateGroupReferences(groups: seq<Group>, originalId: Dn, newId: Dn, ghost snaps: seq<(Dn, GroupEntry)>)
      requires Valid()
      requires |snaps| == |groups|
      requires forall i | 0 <= i < |groups| :: groups[i].id == Some(snaps[i].0) && groups[i].Entry() == snaps[i].1
      requires forall i | 0 <= i < |snaps| :: snaps[i].0 in dir.groups && snaps[i].0 == GroupId(snaps[i].1.cn)
      requires forall i, j | 0 <= i < j < |groups| :: groups[i].members != groups[j].members
      modifies dir`groups, groups, set g | g in groups :: g.members
      ensures Valid()
      ensures dir.groups == PatchAll(old(dir.groups), snaps, originalId, newId)
    {
      var n := 0;
      while n < |groups|
        invariant 0 <= n <= |groups|
        invariant Valid()
        invariant dir.groups == PatchAll(old(dir.groups), snaps[..n], originalId, newId)
        invariant forall i | 0 <= i < |snaps| :: snaps[i].0 in dir.groups
        invariant forall i | n <= i < |groups| :: unchanged(groups[i], groups[i].members)
      {
        RepointAndSave(groups[n], originalId, newId);
        assert snaps[..n + 1][..n] == snaps[..n];
        n := n + 1;
      }
      assert snaps[..n] == snaps;
    }
  }
}
