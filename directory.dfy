/**
 * An in-memory stand-in for the directory server and for the Spring Data
 * repositories of the user-admin sample (users.save, users.findById,
 * users.findAll, users.findAllById, users.findByFullNameContains,
 * groups.save, groups.findByName, groups.findByMember).
 *
 * Entries are kept under their DN relative to the directory base, one map
 * per object class. Member values inside group entries are absolute DNs.
 * A directory of type AD clears the DN of a user entry that is moved from
 * every group's member attribute, as Active Directory does.
 */
module Directory {
  import opened Wrappers
  import opened Names
  import opened Users
  import opened Groups

  /** The flavour of directory server. */
  datatype DirectoryType = Standard | AD

  /** What one repository save does to the entries of one object class:
      where the entry went, or why it failed; and the DN it unbound on the
      way, if it moved the entry. */
  datatype SaveStep<E> =
    | Stored(entries: map<Dn, E>, id: Dn, unbound: Option<Dn>)
    | Failed(entries: map<Dn, E>, error: Error, unbound: Option<Dn>)

  /** A repository save of the entry e whose object has the id declared and
      whose DN attributes give the DN calculated. Without an id the entry is
      created at the calculated DN; with an id equal to the calculated DN its
      attributes are replaced in place; with another id the old entry is
      unbound and the new one bound at the calculated DN, in two steps. */
  function OdmSave<E>(m: map<Dn, E>, declared: Option<Dn>, calculated: Dn, e: E): (s: SaveStep<E>)
    ensures s.Stored? <==>
      (declared.None? && calculated !in m) ||
      (declared.Some? && declared.value in m && (declared.value == calculated || calculated !in m))
    ensures s.Stored? ==> s.id == calculated && calculated in s.entries && s.entries[calculated] == e
    ensures s.Stored? ==> forall k | k != calculated && !(declared.Some? && k == declared.value) ::
      (k in s.entries <==> k in m) && (k in m ==> s.entries[k] == m[k])
    ensures s.Stored? && declared.Some? && declared.value != calculated ==> declared.value !in s.entries
    ensures s.Failed? && declared.None? ==> s.error == NameAlreadyBound && s.entries == m
    ensures s.Failed? && declared.Some? && declared.value !in m ==> s.error == NameNotFound && s.entries == m
    ensures s.unbound.Some? <==> declared.Some? && declared.value in m && declared.value != calculated
    ensures s.unbound.Some? ==> s.unbound == declared
  {
    match declared
    case None =>
      if calculated in m then Failed(m, NameAlreadyBound, None)
      else Stored(m[calculated := e], calculated, None)
    case Some(original) =>
      if original !in m then Failed(m, NameNotFound, None)
      else if original == calculated then Stored(m[original := e], original, None)
      else if calculated in m - {original} then Failed(m - {original}, NameAlreadyBound, Some(original))
      else Stored((m - {original})[calculated := e], calculated, Some(original))
  }

  /** The DNs of the groups whose member attribute holds dn: the filter (member=dn). */
  function GroupsWithMember(groups: map<Dn, GroupEntry>, dn: Dn): (r: set<Dn>)
    ensures r <= groups.Keys
    ensures forall k | k in groups :: k in r <==> dn in groups[k].member
  {
    set k | k in groups && dn in groups[k].member
  }

  /** Every group, with dn removed from its members (AD after dn is moved). */
  function WithoutMember(groups: map<Dn, GroupEntry>, dn: Dn): (r: map<Dn, GroupEntry>)
  {
    map k | k in groups :: groups[k].(member := groups[k].member - {dn})
  }

  /** A group entry whose reference to from now points to to. */
  function Repointed(e: GroupEntry, from: Dn, to: Dn): GroupEntry {
    e.(member := e.member - {from} + {to})
  }

  /** The intended state after a user moves from from to to: every group that
      referenced from references to instead, and no other group changes. */
  function ReplaceMember(groups: map<Dn, GroupEntry>, from: Dn, to: Dn): (r: map<Dn, GroupEntry>)
  {
    map k | k in groups :: if from in groups[k].member then Repointed(groups[k], from, to) else groups[k]
  }

  /** After ReplaceMember, no group references the old DN, the groups that did
      reference it now reference the new one with their other members kept,
      and every other group is unchanged. */
  lemma ReplaceMemberMeaning(groups: map<Dn, GroupEntry>, from: Dn, to: Dn)
    requires from != to
    ensures ReplaceMember(groups, from, to).Keys == groups.Keys
    ensures GroupsWithMember(ReplaceMember(groups, from, to), from) == {}
    ensures GroupsWithMember(ReplaceMember(groups, from, to), to) == GroupsWithMember(groups, from) + GroupsWithMember(groups, to)
    ensures forall k | k in groups && from in groups[k].member ::
      ReplaceMember(groups, from, to)[k].member - {to} == groups[k].member - {from, to}
    ensures forall k | k in groups && from !in groups[k].member :: ReplaceMember(groups, from, to)[k] == groups[k]
  {
  }

  /** What a loop that patches each (id, entry) read earlier and saves it back
      in place leaves in the map m. */
  function PatchAll(m: map<Dn, GroupEntry>, snaps: seq<(Dn, GroupEntry)>, from: Dn, to: Dn): map<Dn, GroupEntry>
    decreases |snaps|
  {
    if snaps == [] then m
    else
      var last := snaps[|snaps| - 1];
      PatchAll(m, snaps[..|snaps| - 1], from, to)[last.0 := Repointed(last.1, from, to)]
  }

  /** The (DN, entry) pairs of m at the DNs ks, in order. */
  function SnapshotsAt(m: map<Dn, GroupEntry>, ks: seq<Dn>): (s: seq<(Dn, GroupEntry)>)
    requires forall i | 0 <= i < |ks| :: ks[i] in m
    ensures |s| == |ks| && forall i | 0 <= i < |ks| :: s[i] == (ks[i], m[ks[i]])
  {
    seq(|ks|, i requires 0 <= i < |ks| && ks[i] in m => (ks[i], m[ks[i]]))
  }

  /** The DNs a sequence of snapshots is about. */
  function SnapKeys(snaps: seq<(Dn, GroupEntry)>): set<Dn> {
    set i | 0 <= i < |snaps| :: snaps[i].0
  }

  predicate DistinctKeys(snaps: seq<(Dn, GroupEntry)>) {
    forall i, j | 0 <= i < j < |snaps| :: snaps[i].0 != snaps[j].0
  }

  /** The DNs of a nonempty run of snapshots: those of all but the last, and the last. */
  lemma SnapKeysSplit(snaps: seq<(Dn, GroupEntry)>)
    requires snaps != []
    ensures SnapKeys(snaps) == SnapKeys(snaps[..|snaps| - 1]) + {snaps[|snaps| - 1].0}
  {
    var init := snaps[..|snaps| - 1];
    forall k | k in SnapKeys(snaps) ensures k in SnapKeys(init) + {snaps[|snaps| - 1].0} {
      var i :| 0 <= i < |snaps| && snaps[i].0 == k;
      if i < |snaps| - 1 { assert init[i] == snaps[i]; }
    }
    forall k | k in SnapKeys(init) ensures k in SnapKeys(snaps) {
      var i :| 0 <= i < |init| && init[i].0 == k;
      assert snaps[i] == init[i];
    }
  }

  /** PatchAll changes exactly the snapshot DNs, each to its patched snapshot. */
  lemma {:induction false} PatchAllAt(m: map<Dn, GroupEntry>, snaps: seq<(Dn, GroupEntry)>, from: Dn, to: Dn)
    requires DistinctKeys(snaps)
    ensures PatchAll(m, snaps, from, to).Keys == m.Keys + SnapKeys(snaps)
    ensures forall i | 0 <= i < |snaps| :: PatchAll(m, snaps, from, to)[snaps[i].0] == Repointed(snaps[i].1, from, to)
    ensures forall k | k in m && k !in SnapKeys(snaps) :: PatchAll(m, snaps, from, to)[k] == m[k]
    decreases |snaps|
  {
    if snaps != [] {
      var init := snaps[..|snaps| - 1];
      var last := snaps[|snaps| - 1];
      PatchAllAt(m, init, from, to);
      SnapKeysSplit(snaps);
      assert PatchAll(m, snaps, from, to) == PatchAll(m, init, from, to)[last.0 := Repointed(last.1, from, to)];
      forall i | 0 <= i < |snaps| - 1
        ensures PatchAll(m, snaps, from, to)[snaps[i].0] == Repointed(snaps[i].1, from, to)
      {
        assert init[i] == snaps[i];
      }
    }
  }

  /** The reference repair is correct whichever map it starts from, provided
      that map agrees with the groups before the move on every group that did
      not reference the old DN: the snapshots of exactly the referencing groups,
      patched and saved back, give ReplaceMember. The standard path starts from
      the groups as they were; the AD path from the groups the move cleared. */
  lemma {:induction false} RepairGivesReplaceMember(
    before: map<Dn, GroupEntry>, start: map<Dn, GroupEntry>, snaps: seq<(Dn, GroupEntry)>, from: Dn, to: Dn)
    requires DistinctKeys(snaps)
    requires forall i | 0 <= i < |snaps| :: snaps[i].0 in before && snaps[i].1 == before[snaps[i].0]
    requires SnapKeys(snaps) == GroupsWithMember(before, from)
    requires start.Keys == before.Keys
    requires forall k | k in before && from !in before[k].member :: start[k] == before[k]
    ensures PatchAll(start, snaps, from, to) == ReplaceMember(before, from, to)
  {
    PatchAllAt(start, snaps, from, to);
    var r := PatchAll(start, snaps, from, to);
    var want := ReplaceMember(before, from, to);
    assert r.Keys == want.Keys;
    forall k | k in r ensures r[k] == want[k] {
      if k in SnapKeys(snaps) {
        var i :| 0 <= i < |snaps| && snaps[i].0 == k;
        assert r[k] == Repointed(before[k], from, to);
      }
    }
  }

  /** Clearing a DN from every group leaves it in none and changes only the
      groups that held it. */
  lemma WithoutMemberMeaning(groups: map<Dn, GroupEntry>, dn: Dn)
    ensures WithoutMember(groups, dn).Keys == groups.Keys
    ensures GroupsWithMember(WithoutMember(groups, dn), dn) == {}
    ensures forall k | k in groups && dn !in groups[k].member :: WithoutMember(groups, dn)[k] == groups[k]
  {
  }

  /** Why the AD path looks the groups up first: on AD, looking them up after
      the move finds none, and the user loses a membership it had. */
  lemma LookupAfterMoveOnAdLosesMembership(groups: map<Dn, GroupEntry>, from: Dn, to: Dn, k: Dn)
    requires k in groups && from in groups[k].member && to !in groups[k].member
    ensures GroupsWithMember(WithoutMember(groups, from), from) == {}
    ensures to !in WithoutMember(groups, from)[k].member
    ensures WithoutMember(groups, from) != ReplaceMember(groups, from, to)
  {
    assert to in ReplaceMember(groups, from, to)[k].member;
  }

  /** The user entry at k, if any, sits at a user DN whose cn is its full name. */
  predicate UserPlaced(users: map<Dn, UserEntry>, k: Dn) {
    k in users ==> IsUserDn(k) && users[k].cn == k[3].value
  }

  /** The group entry at k, if any, sits at cn=<its cn>,ou=Groups. */
  predicate GroupPlaced(groups: map<Dn, GroupEntry>, k: Dn) {
    k in groups ==> k == GroupId(groups[k].cn)
  }

  /** The conventions every save keeps: users sit at the DN their attributes
      give, and groups at cn=<cn>,ou=Groups. */
  ghost predicate ValidState(users: map<Dn, UserEntry>, groups: map<Dn, GroupEntry>) {
    && (forall k :: UserPlaced(users, k))
    && (forall k :: GroupPlaced(groups, k))
  }

  /** Substring containment, as the (cn=*text*) filter tests it. */
  predicate ContainsText(s: string, text: string)
    decreases |s|
  {
    (|text| <= |s| && s[..|text|] == text) || (|s| > 0 && ContainsText(s[1..], text))
  }

  class Directory {
    const base: Dn
    const kind: DirectoryType
    var users: map<Dn, UserEntry>
    var groups: map<Dn, GroupEntry>

    ghost predicate Valid()
      reads this
    {
      ValidState(users, groups)
    }

    constructor (base: Dn, kind: DirectoryType, users: map<Dn, UserEntry>, groups: map<Dn, GroupEntry>)
      requires ValidState(users, groups)
      ensures Valid()
      ensures this.base == base && this.kind == kind && this.users == users && this.groups == groups
    {
      this.base, this.kind, this.users, this.groups := base, kind, users, groups;
    }

    /** The groups after a user save that unbound the DN unbound. */
    function AfterUserUnbind(groups: map<Dn, GroupEntry>, unbound: Option<Dn>): (r: map<Dn, GroupEntry>)
      ensures r.Keys == groups.Keys
      ensures unbound.Some? ==> forall k | k in groups && Add(base, unbound.value) !in groups[k].member :: r[k] == groups[k]
    {
      if kind == AD && unbound.Some? then WithoutMember(groups, Add(base, unbound.value)) else groups
    }

    /** users.save(u): create, update in place or move, at the DN u's
        department, unit and full name give; the id of u is the new DN. */
    method SaveUser(u: User) returns (r: Result<User>)
      requires Valid()
      modifies this, u`id
      ensures Valid()
      ensures var s := OdmSave(old(users), old(u.id), old(u.CalculatedId()), old(u.Entry()));
        && users == s.entries
        && groups == AfterUserUnbind(old(groups), s.unbound)
        && (s.Stored? ==> r == Ok(u) && u.id == Some(s.id))
        && (s.Failed? ==> r == Err(s.error) && u.id == old(u.id))
    {
      var s := OdmSave(users, u.id, u.CalculatedId(), u.Entry());
      forall k ensures UserPlaced(s.entries, k) {
        assert UserPlaced(users, k);
      }
      forall k ensures GroupPlaced(AfterUserUnbind(groups, s.unbound), k) {
        assert GroupPlaced(groups, k);
      }
      users := s.entries;
      groups := AfterUserUnbind(groups, s.unbound);
      if s.Stored? {
        u.id := Some(s.id);
        r := Ok(u);
      } else {
        r := Err(s.error);
      }
    }

    /** users.findById(id): the user stored at id, read into a new object. */
    method FindUserById(id: Dn) returns (r: Option<User>)
      requires Valid()
      ensures r.Some? <==> id in users
      ensures r.Some? ==> fresh(r.value) && r.value.ReadFrom(id, users[id])
    {
      if id in users {
        assert UserPlaced(users, id);
        var u := new User.FromEntry(id, users[id]);
        r := Some(u);
      } else {
        r := None;
      }
    }

    /** Every stored user whose entry passes keep, each read into a new
        object, in the order the server returns them (unspecified). */
    method FindUsersWhere(keep: UserEntry -> bool) returns (us: seq<User>)
      requires Valid()
      ensures forall i | 0 <= i < |us| :: fresh(us[i]) && us[i].id.Some?
      ensures forall i | 0 <= i < |us| :: us[i].id.value in users && us[i].ReadFrom(us[i].id.value, users[us[i].id.value])
      ensures forall i, j | 0 <= i < j < |us| :: us[i].id != us[j].id
      ensures forall k | k in users && keep(users[k]) :: exists i | 0 <= i < |us| :: us[i].id == Some(k)
      ensures forall i | 0 <= i < |us| :: keep(users[us[i].id.value])
    {
      var todo := users.Keys;
      us := [];
      ghost var ks: seq<Dn> := [];
      while todo != {}
        invariant todo <= users.Keys
        invariant |ks| == |us|
        invariant forall i | 0 <= i < |us| :: fresh(us[i]) && us[i].id == Some(ks[i])
        invariant forall i | 0 <= i < |us| :: ks[i] in users && us[i].ReadFrom(ks[i], users[ks[i]])
        invariant forall k :: k in ks <==> k in users && k !in todo && keep(users[k])
        invariant forall i, j | 0 <= i < j < |ks| :: ks[i] != ks[j]
        decreases todo
      {
        var k :| k in todo;
        if keep(users[k]) {
          assert UserPlaced(users, k);
          var u := new User.FromEntry(k, users[k]);
          us, ks := us + [u], ks + [k];
        }
        todo := todo - {k};
      }
    }

    /** users.findAll() */
    method FindAllUsers() returns (us: seq<User>)
      requires Valid()
      ensures forall i | 0 <= i < |us| :: fresh(us[i]) && us[i].id.Some?
      ensures forall i | 0 <= i < |us| :: us[i].id.value in users && us[i].ReadFrom(us[i].id.value, users[us[i].id.value])
      ensures forall i, j | 0 <= i < j < |us| :: us[i].id != us[j].id
      ensures forall k | k in users :: exists i | 0 <= i < |us| :: us[i].id == Some(k)
    {
      us := FindUsersWhere((e: UserEntry) => true);
    }

    /** users.findByFullNameContains(text): the (cn=*text*) query. */
    method FindUsersByFullNameContains(text: string) returns (us: seq<User>)
      requires Valid()
      ensures forall i | 0 <= i < |us| :: fresh(us[i]) && us[i].id.Some?
      ensures forall i | 0 <= i < |us| :: us[i].id.value in users && us[i].ReadFrom(us[i].id.value, users[us[i].id.value])
      ensures forall i, j | 0 <= i < j < |us| :: us[i].id != us[j].id
      ensures forall k | k in users :: ContainsText(users[k].cn, text) <==> exists i | 0 <= i < |us| :: us[i].id == Some(k)
    {
      us := FindUsersWhere((e: UserEntry) => ContainsText(e.cn, text));
    }

    /** The ids among ids that have an entry, in order. */
    function Present(ids: seq<Dn>): (r: seq<Dn>)
      reads this
      ensures forall k :: k in r <==> k in ids && k in users
      decreases |ids|
    {
      if ids == [] then []
      else
        var last := ids[|ids| - 1];
        assert ids == ids[..|ids| - 1] + [last];
        Present(ids[..|ids| - 1]) + (if last in users then [last] else [])
    }

    /** users.findAllById(ids): one new object per id that has an entry, in
        the order of ids; ids without an entry are skipped. */
    method FindAllUsersById(ids: seq<Dn>) returns (us: seq<User>)
      requires Valid()
      ensures |us| == |Present(ids)|
      ensures forall i | 0 <= i < |us| :: fresh(us[i]) && us[i].ReadFrom(Present(ids)[i], users[Present(ids)[i]])
    {
      us := [];
      var n := 0;
      while n < |ids|
        invariant 0 <= n <= |ids|
        invariant |us| == |Present(ids[..n])|
        invariant forall i | 0 <= i < |us| :: fresh(us[i]) && us[i].ReadFrom(Present(ids[..n])[i], users[Present(ids[..n])[i]])
      {
        assert ids[..n + 1][..n] == ids[..n];
        if ids[n] in users {
          assert UserPlaced(users, ids[n]);
          var u := new User.FromEntry(ids[n], users[ids[n]]);
          us := us + [u];
        }
        n := n + 1;
      }
      assert ids[..n] == ids;
    }

    /** groups.save(g): as SaveUser, for a group at cn=<name>,ou=Groups. */
    method SaveGroup(g: Group) returns (r: Result<Group>)
      requires Valid()
      modifies this`groups, g`id
      ensures Valid()
      ensures var s := OdmSave(old(groups), old(g.id), old(g.CalculatedId()), old(g.Entry()));
        && groups == s.entries
        && (s.Stored? ==> r == Ok(g) && g.id == Some(s.id))
        && (s.Failed? ==> r == Err(s.error) && g.id == old(g.id))
    {
      var s := OdmSave(groups, g.id, g.CalculatedId(), g.Entry());
      forall k ensures GroupPlaced(s.entries, k) {
        assert GroupPlaced(groups, k);
      }
      groups := s.entries;
      if s.Stored? {
        g.id := Some(s.id);
        r := Ok(g);
      } else {
        r := Err(s.error);
      }
    }

    /** groups.findByName(name): the group whose cn is name, or null. */
    method FindGroupByName(name: string) returns (g: Group?)
      requires Valid()
      ensures g == null <==> GroupId(name) !in groups
      ensures g != null ==> fresh(g) && fresh(g.members)
      ensures g != null ==> g.id == Some(GroupId(name)) && g.Entry() == groups[GroupId(name)] && g.name == name
    {
      if GroupId(name) in groups {
        assert GroupPlaced(groups, GroupId(name));
        g := new Group.FromEntry(GroupId(name), groups[GroupId(name)]);
        GroupIdLayout(groups[GroupId(name)].cn, name);
      } else {
        g := null;
      }
    }

    /** groups.findByMember(dn): every group whose member attribute holds dn,
        each read into a new object, in an unspecified order; ks are their DNs. */
    method FindGroupsByMember(dn: Dn) returns (gs: seq<Group>, ghost ks: seq<Dn>)
      requires Valid()
      ensures |ks| == |gs|
      ensures forall i | 0 <= i < |gs| :: fresh(gs[i]) && fresh(gs[i].members) && gs[i].id == Some(ks[i])
      ensures forall i | 0 <= i < |gs| :: ks[i] in groups && dn in groups[ks[i]].member
      ensures forall i | 0 <= i < |gs| :: gs[i].Entry() == groups[ks[i]] && ks[i] == gs[i].CalculatedId()
      ensures forall i, j | 0 <= i < j < |gs| :: ks[i] != ks[j] && gs[i].members != gs[j].members
      ensures forall k | k in groups && dn in groups[k].member :: k in ks
    {
      var keys := KeysWithMember(dn);
      gs, ks := [], keys;
      var n := 0;
      while n < |keys|
        invariant 0 <= n <= |keys| && |gs| == n
        invariant forall i | 0 <= i < n :: fresh(gs[i]) && fresh(gs[i].members) && gs[i].id == Some(ks[i])
        invariant forall i | 0 <= i < n :: gs[i].Entry() == groups[ks[i]] && ks[i] == gs[i].CalculatedId()
        invariant forall i, j | 0 <= i < j < n :: gs[i].members != gs[j].members
      {
        assert GroupPlaced(groups, keys[n]);
        var g := new Group.FromEntry(keys[n], groups[keys[n]]);
        gs := gs + [g];
        n := n + 1;
      }
    }

    /** The DNs of the groups whose member attribute holds dn, each once, in
        an unspecified order. */
    method KeysWithMember(dn: Dn) returns (ks: seq<Dn>)
      ensures forall i | 0 <= i < |ks| :: ks[i] in groups && dn in groups[ks[i]].member
      ensures forall i, j | 0 <= i < j < |ks| :: ks[i] != ks[j]
      ensures forall k | k in groups && dn in groups[k].member :: k in ks
    {
      var todo := groups.Keys;
      ks := [];
      while todo != {}
        invariant todo <= groups.Keys
        invariant forall i, j | 0 <= i < j < |ks| :: ks[i] != ks[j]
        invariant forall k :: k in ks <==> k in groups && dn in groups[k].member && k !in todo
        decreases todo
      {
        var k :| k in todo;
        if dn in groups[k].member {
          ks := ks + [k];
        }
        todo := todo - {k};
      }
    }

    /** ldap.bind(id) of a new group entry. */
    method BindGroup(id: Dn, e: GroupEntry) returns (r: Option<Error>)
      requires Valid() && id == GroupId(e.cn)
      modifies this`groups
      ensures Valid()
      ensures r.Some? <==> id in old(groups)
      ensures r.Some? ==> r.value == NameAlreadyBound && groups == old(groups)
      ensures r.None? ==> groups == old(groups)[id := e]
    {
      if id in groups {
        r := Some(NameAlreadyBound);
      } else {
        var bound := groups[id := e];
        forall k ensures GroupPlaced(bound, k) {
          assert GroupPlaced(groups, k);
        }
        groups := bound;
        r := None;
      }
    }
  }
}
