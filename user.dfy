/**
 * The user entry of the user-admin sample (User.java): a mutable object
 * whose annotations say which fields are stored as attributes and which
 * make up its DN. The annotations become the explicit functions CalcId
 * (the DN layout) and User.Entry (the stored attributes).
 * A Java String field that was never set is null; here it is "".
 */
module Users {
  import opened Wrappers
  import opened Names

  /** Java's int. */
  newtype Int32 = x: int | -0x8000_0000 <= x < 0x8000_0000

  /** The entry base of users: ou=Departments (DN index 0). */
  const DepartmentsOu: Rdn := Rdn("ou", "Departments")

  /** The DN the annotations give a user, relative to the directory base:
      ou=Departments, then ou=department (index 1), ou=unit (index 2),
      cn=fullName (index 3). */
  function CalcId(department: string, unit: string, fullName: string): (r: Dn)
  {
    [DepartmentsOu, Rdn("ou", department), Rdn("ou", unit), Rdn("cn", fullName)]
  }

  /** The shape CalcId produces. */
  predicate IsUserDn(k: Dn) {
    |k| == 4 && k[0] == DepartmentsOu && k[1].attrType == "ou" && k[2].attrType == "ou" && k[3].attrType == "cn"
  }

  /** A user DN names its department, unit and full name, and every name of
      that shape is the DN of the values it holds. */
  lemma CalcIdLayout(department: string, unit: string, fullName: string)
    ensures IsUserDn(CalcId(department, unit, fullName))
    ensures StartsWith(CalcId(department, unit, fullName), [DepartmentsOu])
    ensures GetStringValue(CalcId(department, unit, fullName), "cn") == Ok(fullName)
    ensures GetStringValue(CalcId(department, unit, fullName), "ou") == Ok("Departments")
  {
  }

  lemma CalcIdOfUserDn(k: Dn)
    requires IsUserDn(k)
    ensures CalcId(k[1].value, k[2].value, k[3].value) == k
  {
  }

  /** Two users have the same DN exactly when department, unit and full name agree. */
  lemma CalcIdInjective(d1: string, u1: string, f1: string, d2: string, u2: string, f2: string)
    ensures CalcId(d1, u1, f1) == CalcId(d2, u2, f2) <==> d1 == d2 && u1 == u2 && f1 == f2
  {
    if CalcId(d1, u1, f1) == CalcId(d2, u2, f2) {
      assert CalcId(d1, u1, f1)[1] == CalcId(d2, u2, f2)[1];
      assert CalcId(d1, u1, f1)[2] == CalcId(d2, u2, f2)[2];
      assert CalcId(d1, u1, f1)[3] == CalcId(d2, u2, f2)[3];
    }
  }

  /** The attributes a user entry stores, by LDAP attribute name. unit and
      department are transient: they live only in the DN. */
  datatype UserEntry = UserEntry(
    cn: string,
    employeeNumber: Int32,
    givenName: string,
    sn: string,
    title: string,
    mail: string,
    telephoneNumber: string)

  class User {
    var id: Option<Dn>
    var fullName: string
    var employeeNumber: Int32
    var firstName: string
    var lastName: string
    var title: string
    var email: string
    var phone: string
    var unit: string
    var department: string

    /** new User(): no id, every field unset. */
    constructor ()
      ensures id == None && employeeNumber == 0
      ensures fullName == firstName == lastName == title == email == phone == unit == department == ""
    {
      id := None;
      fullName, employeeNumber, firstName, lastName := "", 0, "", "";
      title, email, phone, unit, department := "", "", "", "", "";
    }

    /** The object the mapper reads from the entry e stored at DN k: the DN
        fields come from the DN, the others from the attributes. */
    constructor FromEntry(k: Dn, e: UserEntry)
      requires IsUserDn(k) && e.cn == k[3].value
      ensures ReadFrom(k, e)
    {
      id := Some(k);
      fullName, employeeNumber, firstName, lastName := e.cn, e.employeeNumber, e.givenName, e.sn;
      title, email, phone := e.title, e.mail, e.telephoneNumber;
      unit, department := k[2].value, k[1].value;
    }

    /** This object holds what the entry e at DN k holds. */
    ghost predicate ReadFrom(k: Dn, e: UserEntry)
      reads this
    {
      IsUserDn(k) && id == Some(k) && Entry() == e && department == k[1].value && unit == k[2].value
    }

    /** The stored attributes of this user. */
    function Entry(): UserEntry
      reads this
    {
      UserEntry(fullName, employeeNumber, firstName, lastName, title, email, phone)
    }

    /** The DN a save gives this user (the mapper's calculated id). */
    function CalculatedId(): (r: Dn)
      reads this
      ensures IsUserDn(r) && r[3].value == Entry().cn
    {
      CalcId(department, unit, fullName)
    }

    method SetUnit(unit: string)
      modifies this`unit
      ensures this.unit == unit
    {
      this.unit := unit;
    }

    method SetDepartment(department: string)
      modifies this`department
      ensures this.department == department
    {
      this.department := department;
    }

    method SetId(id: Option<Dn>)
      modifies this`id
      ensures this.id == id
    {
      this.id := id;
    }

    /** setId(String): stores the name the string parses to; parsing a DN
        string is the library's and is passed in. */
    method SetIdFromString(id: string, parse: string -> Dn)
      modifies this`id
      ensures this.id == Some(parse(id))
    {
      this.id := Some(parse(id));
    }

    method SetEmail(email: string)
      modifies this`email
      ensures this.email == email
    {
      this.email := email;
    }

    method SetEmployeeNumber(employeeNumber: Int32)
      modifies this`employeeNumber
      ensures this.employeeNumber == employeeNumber
    {
      this.employeeNumber := employeeNumber;
    }

    method SetFirstName(firstName: string)
      modifies this`firstName
      ensures this.firstName == firstName
    {
      this.firstName := firstName;
    }

    method SetFullName(fullName: string)
      modifies this`fullName
      ensures this.fullName == fullName
    {
      this.fullName := fullName;
    }

    method SetLastName(lastName: string)
      modifies this`lastName
      ensures this.lastName == lastName
    {
      this.lastName := lastName;
    }

    method SetPhone(phone: string)
      modifies this`phone
      ensures this.phone == phone
    {
      this.phone := phone;
    }

    method SetTitle(title: string)
      modifies this`title
      ensures this.title == title
    {
      this.title := title;
    }

    /** equals: same object, or another User with the same id (both null counts). */
    predicate Equals(o: User?)
      reads this, o
      ensures Equals(o) <==> o != null && o.id == id
    {
      this == o || (o != null && id == o.id)
    }

    /** hashCode: Objects.hashCode(id), which is 0 for a null id; the hash of a
        name is the library's and is passed in. */
    function HashCode(nameHash: Dn -> int): (h: int)
      reads this
      ensures id == None ==> h == 0
      ensures id.Some? ==> h == nameHash(id.value)
    {
      match id
      case None => 0
      case Some(n) => nameHash(n)
    }
  }

  /** Equal users have equal hash codes, whatever their other fields hold. */
  lemma EqualUsersHashAlike(u: User, v: User, nameHash: Dn -> int)
    requires u.Equals(v)
    ensures u.HashCode(nameHash) == v.HashCode(nameHash)
  {
  }

  /** equals is an equivalence on users. */
  lemma EqualsIsEquivalence(u: User, v: User, w: User)
    ensures u.Equals(u)
    ensures u.Equals(v) ==> v.Equals(u)
    ensures u.Equals(v) && v.Equals(w) ==> u.Equals(w)
  {
  }

  /** The stored entry does not depend on unit and department (they are transient). */
  lemma TransientFieldsNotStored(u: User, v: User)
    requires u.fullName == v.fullName && u.employeeNumber == v.employeeNumber
    requires u.firstName == v.firstName && u.lastName == v.lastName && u.title == v.title
    requires u.email == v.email && u.phone == v.phone
    ensures u.Entry() == v.Entry()
  {
  }
}
