/**
 * The group entry of the user-admin sample (Group.java): a groupOfNames
 * under ou=Groups whose cn is its DN component, and whose member
 * attribute is a mutable set of absolute member DNs.
 */
module Groups {
  import opened Wrappers
  import opened Names

  /** The entry base of groups. */
  const GroupsOu: Rdn := Rdn("ou", "Groups")

  /** The DN the annotations give a group named name, relative to the directory base. */
  function GroupId(name: string): (r: Dn)
  {
    [GroupsOu, Rdn("cn", name)]
  }

  /** A group DN is cn=name under ou=Groups, and distinct names give distinct DNs. */
  lemma GroupIdLayout(name: string, other: string)
    ensures StartsWith(GroupId(name), [GroupsOu]) && |GroupId(name)| == 2
    ensures GetStringValue(GroupId(name), "cn") == Ok(name)
    ensures GroupId(name) == GroupId(other) <==> name == other
  {
    if GroupId(name) == GroupId(other) {
      assert GroupId(name)[1] == GroupId(other)[1];
    }
  }

  /** The attributes a group entry stores. */
  datatype GroupEntry = GroupEntry(cn: string, description: string, member: set<Dn>)

  /** The HashSet<Name> a group holds its members in. */
  class NameSet {
    var elements: set<Dn>

    constructor (elements: set<Dn>)
      ensures this.elements == elements
    {
      this.elements := elements;
    }
  }

  class Group {
    var id: Option<Dn>
    var name: string
    var description: string
    const members: NameSet

    /** new Group(): no id and an empty member set. */
    constructor ()
      ensures id == None && name == "" && description == ""
      ensures fresh(members) && members.elements == {}
    {
      id, name, description := None, "", "";
      members := new NameSet({});
    }

    /** The object the mapper reads from the entry e stored at DN k. */
    constructor FromEntry(k: Dn, e: GroupEntry)
      ensures id == Some(k) && Entry() == e
      ensures fresh(members)
    {
      id, name, description := Some(k), e.cn, e.description;
      members := new NameSet(e.member);
    }

    /** The stored attributes of this group. */
    function Entry(): GroupEntry
      reads this, members
    {
      GroupEntry(name, description, members.elements)
    }

    /** The DN a save gives this group. */
    function CalculatedId(): (r: Dn)
      reads this
    {
      GroupId(name)
    }

    /** getMembers: the live set object itself, not a copy. */
    function GetMembers(): (r: NameSet)
      reads this
      ensures r == members
    {
      members
    }

    method AddMember(newMember: Dn)
      modifies members
      ensures members.elements == old(members.elements) + {newMember}
    {
      members.elements := members.elements + {newMember};
    }

    method RemoveMember(member: Dn)
      modifies members
      ensures members.elements == old(members.elements) - {member}
    {
      members.elements := members.elements - {member};
    }

    method SetId(id: Option<Dn>)
      modifies this`id
      ensures this.id == id
    {
      this.id := id;
    }

    method SetName(name: string)
      modifies this`name
      ensures this.name == name
    {
      this.name := name;
    }

    method SetDescription(description: string)
      modifies this`description
      ensures this.description == description
    {
      this.description := description;
    }
  }

  /** A set obtained from getMembers before a change sees the change:
      the caller's view and the group's members are one object. */
  method AddThroughGroupSeenInView(g: Group, m: Dn) returns (view: NameSet)
    modifies g.members
    ensures view == g.GetMembers()
    ensures view.elements == old(g.members.elements) + {m}
  {
    view := g.GetMembers();
    g.AddMember(m);
  }
}
