/**
 * The controller of the plain sample (DefaultController.java): the links
 * the tree page gives person entries, the fixed test person, and the
 * phone-number update of that person. The plain sample's Person class and
 * PersonRepository are not part of this model; a person here holds the
 * fields the controller uses, and PersonStore stands in for the
 * repository, keyed by country, company and full name.
 */
module PlainWeb {
  import opened Wrappers
  import opened Names

  /** A node of the directory tree: its DN and its objectClass values. */
  datatype TreeNode = TreeNode(dn: Dn, objectClass: seq<string>)

  /** containsValue(values, value): a search that stops at the first match. */
  method ContainsValue(values: seq<string>, value: string) returns (found: bool)
    ensures found <==> value in values
    ensures !found ==> forall i | 0 <= i < |values| :: values[i] != value
  {
    var n := 0;
    while n < |values|
      invariant 0 <= n <= |values|
      invariant forall i | 0 <= i < n :: values[i] != value
    {
      if values[n] == value {
        return true;
      }
      n := n + 1;
    }
    return false;
  }

  /** The link of a person entry, from its country, company and full name. */
  function PersonLink(country: string, company: string, fullName: string, encode: string -> string): (r: string)
    ensures var c, o, n := encode(country), encode(company), encode(fullName);
      && |r| == 41 + |c| + |o| + |n|
      && r[..22] == "showPerson.do?country=" && r[22..22 + |c|] == c
      && r[22 + |c|..31 + |c|] == "&company=" && r[31 + |c|..31 + |c| + |o|] == o
      && r[31 + |c| + |o|..41 + |c| + |o|] == "&fullName=" && r[41 + |c| + |o|..] == n
  {
    "showPerson.do?country=" + encode(country) + "&company=" + encode(company) + "&fullName=" + encode(fullName)
  }

  /** getLinkForNode: a person entry links to its showPerson page, built from
      the c, ou and cn values of its DN passed through encode; any other
      entry gets the link of the base visitor, superLink. A person DN
      lacking one of the three fails. */
  method GetLinkForNode(node: TreeNode, encode: string -> string, superLink: TreeNode -> string) returns (r: Result<string>)
    ensures "person" !in node.objectClass ==> r == Ok(superLink(node))
    ensures "person" in node.objectClass ==>
      var c, ou, cn := GetStringValue(node.dn, "c"), GetStringValue(node.dn, "ou"), GetStringValue(node.dn, "cn");
      && (c.Ok? && ou.Ok? && cn.Ok? <==> r.Ok?)
      && (r.Ok? ==> r.value == PersonLink(c.value, ou.value, cn.value, encode))
      && (r.Err? ==> r.error == NoSuchRdn)
  {
    var isPerson := ContainsValue(node.objectClass, "person");
    if !isPerson {
      return Ok(superLink(node));
    }
    var country := GetStringValue(node.dn, "c");
    if country.Err? {
      return Err(country.error);
    }
    var company := GetStringValue(node.dn, "ou");
    if company.Err? {
      return Err(company.error);
    }
    var fullName := GetStringValue(node.dn, "cn");
    if fullName.Err? {
      return Err(fullName.error);
    }
    r := Ok(PersonLink(country.value, company.value, fullName.value, encode));
  }

  /** In a person DN c=country,ou=company,cn=fullName (root first) the
      three lookups of getLinkForNode find the three values. */
  lemma PersonDnValues(country: string, company: string, fullName: string)
    ensures var dn := [Rdn("c", country), Rdn("ou", company), Rdn("cn", fullName)];
      && GetStringValue(dn, "c") == Ok(country)
      && GetStringValue(dn, "ou") == Ok(company)
      && GetStringValue(dn, "cn") == Ok(fullName)
  {
    var dn := [Rdn("c", country), Rdn("ou", company), Rdn("cn", fullName)];
    assert dn[1..] == [Rdn("ou", company), Rdn("cn", fullName)];
    assert dn[1..][1..] == [Rdn("cn", fullName)];
    assert GetStringValue(dn[1..][1..], "cn") == Ok(fullName);
    assert GetStringValue(dn[1..], "cn") == Ok(fullName);
  }

  /** What the store keeps of a person. */
  datatype PersonRecord = PersonRecord(
    fullName: string, lastName: string, company: string, country: string,
    description: string, phone: Option<string>)

  /** The primary key of a person: country, company and full name. */
  datatype PersonKey = PersonKey(country: string, company: string, fullName: string)

  class Person {
    var fullName: string
    var lastName: string
    var company: string
    var country: string
    var description: string
    var phone: Option<string>

    /** new Person(): every field unset. */
    constructor ()
      ensures fullName == lastName == company == country == description == "" && phone == None
    {
      fullName, lastName, company, country, description := "", "", "", "", "";
      phone := None;
    }

    constructor FromRecord(r: PersonRecord)
      ensures Record() == r
    {
      fullName, lastName, company, country := r.fullName, r.lastName, r.company, r.country;
      description, phone := r.description, r.phone;
    }

    function Record(): PersonRecord
      reads this
    {
      PersonRecord(fullName, lastName, company, country, description, phone)
    }

    function Key(): PersonKey
      reads this
    {
      PersonKey(country, company, fullName)
    }

    method SetFullName(fullName: string)
      modifies this`fullName
      ensures this.fullName == fullName
    {
      this.fullName := fullName;
    }

    method SetLastName(lastName: string)
      modifies this`lastName
      ensures this.lastName == lastName
    {
      this.lastName := lastName;
    }

    method SetCompany(company: string)
      modifies this`company
      ensures this.company == company
    {
      this.company := company;
    }

    method SetCountry(country: string)
      modifies this`country
      ensures this.country == country
    {
      this.country := country;
    }

    method SetDescription(description: string)
      modifies this`description
      ensures this.description == description
    {
      this.description := description;
    }

    method SetPhone(phone: Option<string>)
      modifies this`phone
      ensures this.phone == phone
    {
      this.phone := phone;
    }
  }

  /** StringUtils.join of two strings: concatenation, a null element
      counting as empty. */
  function Join(a: Option<string>, b: string): (r: string)
    ensures a.None? ==> r == b
    ensures a.Some? ==> |r| == |a.value| + |b| && r[..|a.value|] == a.value && r[|a.value|..] == b
  {
    a.GetOr("") + b
  }

  /** The stand-in for the plain sample's PersonRepository. */
  class PersonStore {
    var persons: map<PersonKey, PersonRecord>

    /** Every record sits at the key its own fields give. */
    ghost predicate Valid()
      reads this
    {
      forall k | k in persons :: k == PersonKey(persons[k].country, persons[k].company, persons[k].fullName)
    }

    constructor (persons: map<PersonKey, PersonRecord>)
      requires forall k | k in persons :: k == PersonKey(persons[k].country, persons[k].company, persons[k].fullName)
      ensures Valid() && this.persons == persons
    {
      this.persons := persons;
    }

    /** findByPrimaryKey: the stored person, or not found. */
    method FindByPrimaryKey(country: string, company: string, fullName: string) returns (r: Result<Person>)
      requires Valid()
      ensures r.Ok? <==> PersonKey(country, company, fullName) in persons
      ensures r.Err? ==> r.error == NameNotFound
      ensures r.Ok? ==> fresh(r.value) && r.value.Record() == persons[PersonKey(country, company, fullName)]
      ensures r.Ok? ==> r.value.Key() == PersonKey(country, company, fullName)
    {
      var k := PersonKey(country, company, fullName);
      if k !in persons {
        return Err(NameNotFound);
      }
      var p := new Person.FromRecord(persons[k]);
      r := Ok(p);
    }

    /** update: replace the attributes of the stored person at p's key. */
    method Update(p: Person) returns (r: Option<Error>)
      requires Valid()
      modifies this
      ensures Valid()
      ensures r.Some? <==> p.Key() !in old(persons)
      ensures r.Some? ==> r.value == NameNotFound && persons == old(persons)
      ensures r.None? ==> persons == old(persons)[p.Key() := p.Record()]
    {
      if p.Key() !in persons {
        return Some(NameNotFound);
      }
      persons := persons[p.Key() := p.Record()];
      r := None;
    }
  }

  class DefaultController {
    const persons: PersonStore

    constructor (persons: PersonStore)
      ensures this.persons == persons
    {
      this.persons := persons;
    }

    /** getPerson: the fixed test person John Doe of company1, Sweden. */
    static method GetPerson() returns (person: Person)
      ensures fresh(person)
      ensures person.fullName == "John Doe" && person.lastName == "Doe"
      ensures person.company == "company1" && person.country == "Sweden"
      ensures person.description == "Test user" && person.phone == None
    {
      person := new Person();
      person.SetFullName("John Doe");
      person.SetLastName("Doe");
      person.SetCompany("company1");
      person.SetCountry("Sweden");
      person.SetDescription("Test user");
    }

    /** updatePhoneNumber: append "0" to the phone of John Doe of company1,
        Sweden, and store the change; nothing else changes. */
    method UpdatePhoneNumber() returns (r: Result<string>)
      requires persons.Valid()
      modifies persons
      ensures persons.Valid()
      ensures var k := PersonKey("Sweden", "company1", "John Doe");
        && (k !in old(persons.persons) ==> r == Err(NameNotFound) && persons.persons == old(persons.persons))
        && (k in old(persons.persons) ==>
              && r == Ok("redirect:/showTree.do")
              && persons.persons == old(persons.persons)[k := old(persons.persons)[k].(phone := Some(Join(old(persons.persons)[k].phone, "0")))])
    {
      var found := persons.FindByPrimaryKey("Sweden", "company1", "John Doe");
      if found.Err? {
        return Err(found.error);
      }
      var person := found.value;
      person.SetPhone(Some(Join(person.phone, "0")));
      var _ := persons.Update(person);
      r := Ok("redirect:/showTree.do");
    }
  }
}
