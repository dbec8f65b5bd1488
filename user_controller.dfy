/**
 * The user pages of the user-admin sample (UserController.java): the
 * listing with its optional name search, the new-user form with its
 * employee-number counter, and the redirects after create and update.
 */
module UserWeb {
  import opened Wrappers
  import opened Names
  import opened Users
  import opened Groups
  import opened Directory
  import opened Service

  /** AtomicInteger.getAndIncrement's update: one more, wrapping from the
      largest int to the smallest. */
  function Inc(x: Int32): (r: Int32)
    ensures x < 0x7fff_ffff ==> r as int == x as int + 1
    ensures x == 0x7fff_ffff ==> r == -0x8000_0000
  {
    if x == 0x7fff_ffff then -0x8000_0000 else x + 1
  }

  /** The counter after n increments from start. */
  function Advanced(start: Int32, n: nat): Int32 {
    if n == 0 then start else Inc(Advanced(start, n - 1))
  }

  /** Far from the wrap-around, n increments from start add n. */
  lemma {:induction false} AdvancedAdds(start: Int32, n: nat)
    requires start as int + n <= 0x7fff_ffff
    ensures Advanced(start, n) as int == start as int + n
  {
    if n > 0 {
      AdvancedAdds(start, n - 1);
    }
  }

  /** Character.isWhitespace: the Unicode space, line and paragraph
      separators other than the no-break spaces, and the control characters
      tab, line feed, vertical tab, form feed, carriage return and U+001C to
      U+001F. */
  predicate IsWhitespace(c: char) {
    || c == '\U{20}' || c == '\U{1680}' || ('\U{2000}' <= c <= '\U{2006}') || ('\U{2008}' <= c <= '\U{200A}')
    || c == '\U{205F}' || c == '\U{3000}' || c == '\U{2028}' || c == '\U{2029}'
    || ('\U{9}' <= c <= '\U{D}') || ('\U{1C}' <= c <= '\U{1F}')
  }

  /** StringUtils.hasText: present and holding a character that is not whitespace. */
  function HasText(s: Option<string>): (r: bool)
    ensures r <==> s.Some? && exists i | 0 <= i < |s.value| :: !IsWhitespace(s.value[i])
  {
    s.Some? && NonBlank(s.value)
  }

  /** Some character of s is not whitespace. */
  function NonBlank(s: string): (r: bool)
    ensures r <==> exists i | 0 <= i < |s| :: !IsWhitespace(s[i])
  {
    if s == [] then false
    else if !IsWhitespace(s[0]) then true
    else
      assert forall i | 1 <= i < |s| :: s[i] == s[1..][i - 1];
      NonBlank(s[1..])
  }

  class UserController {
    const userService: UserService
    var nextEmployeeNumber: Int32

    /** The controller starts handing out employee numbers at 10. */
    constructor (userService: UserService)
      ensures this.userService == userService && nextEmployeeNumber == 10
    {
      this.userService := userService;
      nextEmployeeNumber := 10;
    }

    /** index(name): the users whose full name contains name when name has
        text, and else all users, with the view listUsers. */
    method Index(name: Option<string>) returns (view: string, users: seq<User>)
      requires userService.Valid()
      ensures view == "listUsers"
      ensures forall i | 0 <= i < |users| :: fresh(users[i]) && users[i].id.Some? && users[i].id.value in userService.dir.users
      ensures forall i | 0 <= i < |users| :: users[i].ReadFrom(users[i].id.value, userService.dir.users[users[i].id.value])
      ensures forall i, j | 0 <= i < j < |users| :: users[i].id != users[j].id
      ensures forall k | k in userService.dir.users ::
        (exists i | 0 <= i < |users| :: users[i].id == Some(k)) <==>
        (HasText(name) ==> ContainsText(userService.dir.users[k].cn, name.value))
    {
      if HasText(name) {
        users := userService.SearchByName(name.value);
      } else {
        users := userService.FindAll();
      }
      view := "listUsers";
    }

    /** getUser(userid): the stored user for the edit view, or not found. */
    method GetUser(userid: string, parse: string -> Dn) returns (view: string, r: Result<User>)
      requires userService.Valid()
      ensures view == "editUser"
      ensures r.Ok? <==> parse(userid) in userService.dir.users
      ensures r.Err? ==> r.error == NameNotFound
      ensures r.Ok? ==> fresh(r.value) && r.value.ReadFrom(parse(userid), userService.dir.users[parse(userid)])
    {
      r := userService.FindUser(parse(userid));
      view := "editUser";
    }

    /** initNewUser: a new user marked as new, holding the next employee
        number; the counter moves on by one. */
    method InitNewUser() returns (view: string, isNew: bool, user: User)
      modifies this`nextEmployeeNumber
      ensures view == "editUser" && isNew
      ensures fresh(user) && user.id == None && user.employeeNumber == old(nextEmployeeNumber)
      ensures user.fullName == user.firstName == user.lastName == user.department == user.unit == ""
      ensures user.title == user.email == user.phone == ""
      ensures nextEmployeeNumber == Inc(old(nextEmployeeNumber))
    {
      user := new User();
      var number := nextEmployeeNumber;
      nextEmployeeNumber := Inc(nextEmployeeNumber);
      user.SetEmployeeNumber(number);
      isNew := true;
      view := "editUser";
    }

    /** createUser(user): create it and redirect to the page of its new DN,
        printed by show. */
    method CreateUser(user: User, show: Dn -> string) returns (r: Result<string>)
      requires userService.Valid()
      modifies userService.dir, user`id
      ensures userService.Valid()
      ensures var s := OdmSave(old(userService.dir.users), old(user.id), old(user.CalculatedId()), old(user.Entry()));
        && userService.dir.users == s.entries
        && (s.Failed? ==> r == Err(s.error))
        && (s.Stored? && GroupId(UserGroup) !in old(userService.dir.groups) ==> r == Err(NullReference))
        && (s.Stored? && GroupId(UserGroup) in old(userService.dir.groups) ==> r == Ok("redirect:/users/" + show(s.id)))
    {
      var saved := userService.CreateUser(user);
      if saved.Err? {
        r := Err(saved.error);
      } else {
        r := Ok("redirect:/users/" + show(saved.value.id.value));
      }
    }

    /** updateUser(userid, user): update the stored user and redirect to the
        page of its DN after the update. */
    method UpdateUser(userid: string, user: User, parse: string -> Dn, show: Dn -> string) returns (r: Result<string>)
      requires userService.Valid()
      modifies userService.dir
      ensures userService.Valid()
      ensures parse(userid) !in old(userService.dir.users) ==> r == Err(NameNotFound)
      ensures parse(userid) in old(userService.dir.users) ==>
        var newId := CalcId(user.department, user.unit, user.fullName);
        var entry := UserEntry(user.fullName, old(userService.dir.users[parse(userid)]).employeeNumber, user.firstName,
          user.lastName, user.title, user.email, user.phone);
        var s := OdmSave(old(userService.dir.users), Some(parse(userid)), newId, entry);
        && (s.Failed? ==> r == Err(s.error))
        && (s.Stored? ==> r == Ok("redirect:/users/" + show(newId)))
    {
      var saved := userService.UpdateUser(parse(userid), user);
      if saved.Err? {
        r := Err(saved.error);
      } else {
        r := Ok("redirect:/users/" + show(saved.value.id.value));
      }
    }
  }

  /** The first form gets 10 and each later form one more: after n forms the
      numbers handed out are 10, 11, ..., 10 + n - 1. */
  lemma EmployeeNumbersCountUp(n: nat)
    requires n < 0x7fff_ffff - 10
    ensures Advanced(10, 0) == 10
    ensures Advanced(10, n + 1) as int == Advanced(10, n) as int + 1
  {
    AdvancedAdds(10, n);
    AdvancedAdds(10, n + 1);
  }
}
