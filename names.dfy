/**
 * Distinguished names as the samples use them through Spring LDAP's
 * LdapName, LdapNameBuilder and LdapUtils. A name is its sequence of
 * relative names ordered from the root down, so that the string form
 * "cn=System,ou=IT,ou=Departments" is [ou=Departments, ou=IT, cn=System].
 * Names compare structurally (LdapName compares attribute types and
 * values without regard to case; that is not modelled).
 */
module Names {
  import opened Wrappers

  /** One relative distinguished name such as ou=IT. */
  datatype Rdn = Rdn(attrType: string, value: string)

  type Dn = seq<Rdn>

  /** Name.startsWith: p is the root-side part of n. */
  predicate StartsWith(n: Dn, p: Dn) {
    |p| <= |n| && n[..|p|] == p
  }

  /** LdapNameBuilder.newInstance(base).add(rel).build(): rel below base. */
  function Add(base: Dn, rel: Dn): (r: Dn)
    ensures StartsWith(r, base) && r[|base|..] == rel
    ensures |r| == |base| + |rel|
  {
    base + rel
  }

  /** LdapUtils.prepend(dn, path): the same name, placed below path. */
  function Prepend(dn: Dn, path: Dn): (r: Dn)
    ensures StartsWith(r, path) && r[|path|..] == dn
  {
    Add(path, dn)
  }

  /** LdapUtils.removeFirst(n, prefix): n without its root-side prefix;
      a name that does not start with the prefix comes back unchanged. */
  function RemoveFirst(n: Dn, prefix: Dn): (r: Dn)
    ensures StartsWith(n, prefix) ==> Add(prefix, r) == n
    ensures !StartsWith(n, prefix) ==> r == n
  {
    if StartsWith(n, prefix) then n[|prefix|..] else n
  }

  /** Removing the base from a name built under that base gives back the relative name. */
  lemma RemoveFirstAdd(base: Dn, rel: Dn)
    ensures RemoveFirst(Add(base, rel), base) == rel
  {
  }

  /** On names under the base, RemoveFirst is one-to-one. */
  lemma RemoveFirstInjective(a: Dn, b: Dn, base: Dn)
    requires StartsWith(a, base) && StartsWith(b, base)
    requires RemoveFirst(a, base) == RemoveFirst(b, base)
    ensures a == b
  {
    assert a == Add(base, RemoveFirst(a, base));
    assert b == Add(base, RemoveFirst(b, base));
  }

  /** LdapUtils.getStringValue(n, key): the value of the first component,
      counted from the root, whose type is key; none fails with NoSuchRdn. */
  function GetStringValue(n: Dn, key: string): (r: Result<string>)
    ensures r.Ok? <==> exists i | 0 <= i < |n| :: n[i].attrType == key
    ensures r.Err? ==> r.error == NoSuchRdn
    ensures r.Ok? ==> exists i | 0 <= i < |n| :: n[i] == Rdn(key, r.value) && forall j | 0 <= j < i :: n[j].attrType != key
  {
    if n == [] then Err(NoSuchRdn)
    else if n[0].attrType == key then Ok(n[0].value)
    else
      var r := GetStringValue(n[1..], key);
      assert forall i | 1 <= i < |n| :: n[i] == n[1..][i - 1];
      if r.Ok? then
        var i :| 0 <= i < |n[1..]| && n[1..][i] == Rdn(key, r.value) && forall j | 0 <= j < i :: n[1..][j].attrType != key;
        assert n[i + 1] == Rdn(key, r.value);
        assert forall j | 0 <= j < i + 1 :: n[j].attrType != key by {
          forall j | 0 <= j < i + 1 ensures n[j].attrType != key {
            if j > 0 { assert n[j] == n[1..][j - 1]; }
          }
        }
        r
      else
        r
  }
}
