/**
 * The user details of the Boot security sample (PersonContextMapper.java):
 * after a bind, the person entry is read into a UserDetailsPerson whose
 * single authority is ROLE_ADMIN when the user's DN is a uniqueMember of
 * cn=managers,ou=groups, and ROLE_USER otherwise. The reverse mapping is
 * not supported.
 */
module Security {
  import opened Wrappers
  import opened Names
  import opened People

  /** cn=managers,ou=groups */
  const ManagersDn: Dn := [Rdn("ou", "groups"), Rdn("cn", "managers")]

  const RoleAdmin: string := "ROLE_ADMIN"
  const RoleUser: string := "ROLE_USER"

  /** The authority lambda: ROLE_ADMIN for a listed manager, else ROLE_USER. */
  function Authority(uniqueMembers: seq<string>, userDn: string): (r: string)
    ensures r == RoleAdmin <==> userDn in uniqueMembers
    ensures r == RoleUser <==> userDn !in uniqueMembers
  {
    if userDn in uniqueMembers then RoleAdmin else RoleUser
  }

  /** A person that is also a Spring Security UserDetails. */
  class UserDetailsPerson {
    var dn: Option<Dn>
    var username: Option<string>
    var name: Option<string>
    var lastName: Option<string>
    const authorities: seq<string>

    /** The authority list is the one-element list the constructor makes. */
    predicate Valid() {
      |authorities| == 1
    }

    /** super(person), then the one-element authority list. */
    constructor (person: Person, authority: string)
      ensures Valid()
      ensures dn == person.dn && username == person.username
      ensures name == person.name && lastName == person.lastName
      ensures authorities == [authority]
    {
      dn, username := person.dn, person.username;
      name, lastName := person.name, person.lastName;
      authorities := [authority];
    }

    /** getAuthorities: exactly one granted authority. */
    function GetAuthorities(): (r: seq<string>)
      requires Valid()
      ensures |r| == 1 && r == authorities
    {
      authorities
    }

    /** getPassword: the password is never exposed. */
    function GetPassword(): (r: Option<string>)
      ensures r.None?
    {
      None
    }
  }

  /** mapUserFromContext: read the person from the bound entry ctx at ctxDn,
      whose full DN is nameInNamespace, and give it the authority the
      uniqueMember values of cn=managers,ou=groups decide; the search for
      that entry is uniqueMembersAt, and finding nothing fails. */
  method MapUserFromContext(ctxDn: Dn, ctx: PersonEntry, nameInNamespace: string,
                            uniqueMembersAt: Dn -> Option<seq<string>>) returns (r: Result<UserDetailsPerson>)
    ensures uniqueMembersAt(ManagersDn).None? <==> r.Err?
    ensures r.Err? ==> r.error == NameNotFound
    ensures r.Ok? ==> fresh(r.value) && r.value.dn == Some(ctxDn)
    ensures r.Ok? ==> r.value.username == ctx.uid && r.value.name == ctx.cn && r.value.lastName == ctx.sn
    ensures r.Ok? ==> r.value.authorities == [Authority(uniqueMembersAt(ManagersDn).value, nameInNamespace)]
  {
    var person := new Person.FromEntry(ctxDn, ctx);
    var members := uniqueMembersAt(ManagersDn);
    if members.None? {
      return Err(NameNotFound);
    }
    var authority := Authority(members.value, nameInNamespace);
    var details := new UserDetailsPerson(person, authority);
    r := Ok(details);
  }

  /** mapUserToContext: always an unsupported operation. */
  function MapUserToContext(user: UserDetailsPerson): (r: Option<Error>)
    ensures r.Some? && r.value == UnsupportedOperation
  {
    Some(UnsupportedOperation)
  }
}
