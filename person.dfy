/**
 * The person entry of the Boot security sample (Person.java): an
 * inetOrgPerson under ou=people whose DN component is uid=<username>.
 * Its String and Name fields may be null, which is None here.
 */
module People {
  import opened Wrappers
  import opened Names
  import opened Directory

  /** The entry base of people. */
  const PeopleOu: Rdn := Rdn("ou", "people")

  /** The DN the annotations give a person: uid=username under ou=people. */
  function PersonId(username: string): (r: Dn)
    ensures |r| == 2 && StartsWith(r, [PeopleOu])
    ensures GetStringValue(r, "uid") == Ok(username)
  {
    [PeopleOu, Rdn("uid", username)]
  }

  /** The attributes a person entry stores (uid, cn, sn). */
  datatype PersonEntry = PersonEntry(uid: Option<string>, cn: Option<string>, sn: Option<string>)

  class Person {
    var dn: Option<Dn>
    var username: Option<string>
    var name: Option<string>
    var lastName: Option<string>

    /** new Person() */
    constructor ()
      ensures dn == None && username == None && name == None && lastName == None
    {
      dn, username, name, lastName := None, None, None, None;
    }

    /** new Person(username): only the username is set. */
    constructor WithUsername(username: Option<string>)
      ensures this.username == username
      ensures dn == None && name == None && lastName == None
    {
      this.username := username;
      dn, name, lastName := None, None, None;
    }

    /** new Person(person): a copy of dn, username, name and lastName. */
    constructor Copy(person: Person)
      ensures dn == person.dn && username == person.username
      ensures name == person.name && lastName == person.lastName
    {
      dn, username := person.dn, person.username;
      name, lastName := person.name, person.lastName;
    }

    /** The object the mapper reads from the entry e at DN k. */
    constructor FromEntry(k: Dn, e: PersonEntry)
      ensures dn == Some(k) && Entry() == e
    {
      dn := Some(k);
      username, name, lastName := e.uid, e.cn, e.sn;
    }

    /** The stored attributes of this person. */
    function Entry(): PersonEntry
      reads this
    {
      PersonEntry(username, name, lastName)
    }

    /** The DN a save gives this person; without a username there is none. */
    function CalculatedId(): (r: Option<Dn>)
      reads this
      ensures r.Some? <==> username.Some?
      ensures r.Some? ==> r.value == PersonId(username.value)
    {
      match username
      case None => None
      case Some(u) => Some(PersonId(u))
    }

    method SetDn(dn: Option<Dn>)
      modifies this`dn
      ensures this.dn == dn
    {
      this.dn := dn;
    }

    method SetUsername(username: Option<string>)
      modifies this`username
      ensures this.username == username
    {
      this.username := username;
    }

    method SetName(name: Option<string>)
      modifies this`name
      ensures this.name == name
    {
      this.name := name;
    }

    method SetLastName(lastName: Option<string>)
      modifies this`lastName
      ensures this.lastName == lastName
    {
      this.lastName := lastName;
    }
  }

  /** The partial update of the sample's test: a person read as dante whose
      username becomes ari keeps its id and now calculates uid=ari,ou=people. */
  method RenameToAri() returns (person: Person)
    ensures fresh(person)
    ensures person.dn == Some(PersonId("dante")) && person.username == Some("ari")
    ensures person.CalculatedId() == Some([Rdn("ou", "people"), Rdn("uid", "ari")])
  {
    person := new Person.WithUsername(Some("dante"));
    person.SetDn(Some(PersonId("dante")));
    person.SetUsername(Some("ari"));
  }

  /** Saving such a person moves the entry: it is unbound at uid=dante and
      bound at uid=ari, when that DN is free. */
  lemma SaveOfRenamedPersonMoves(m: map<Dn, PersonEntry>, e: PersonEntry)
    requires PersonId("dante") in m && PersonId("ari") !in m
    ensures var s := OdmSave(m, Some(PersonId("dante")), PersonId("ari"), e);
      && s.Stored? && s.id == [Rdn("ou", "people"), Rdn("uid", "ari")]
      && s.entries[PersonId("ari")] == e && PersonId("dante") !in s.entries
  {
    assert PersonId("dante")[1] != PersonId("ari")[1];
  }
}
