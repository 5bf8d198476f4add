/** The closed enumeration of user roles (enums/Role.java). */
module Roles {
  import opened Wrappers

  /** The four roles; there is no hierarchy between them. */
  datatype Role = ADMIN | HR | MANAGER | EMPLOYEE

  /** The constants in declaration order, as `Role.values()` lists them. */
  const AllRoles: seq<Role> := [ADMIN, HR, MANAGER, EMPLOYEE]

  /**
   * The `roleName` each constant is constructed with. It is the constant's
   * own identifier, which is what `Role.valueOf` matches.
   */
  function RoleName(r: Role): string
  {
    match r
    case ADMIN => "ADMIN"
    case HR => "HR"
    case MANAGER => "MANAGER"
    case EMPLOYEE => "EMPLOYEE"
  }

  /** `toString` is overridden to return the role name. */
  function ToString(r: Role): (s: string)
    ensures s == RoleName(r)
  {
    RoleName(r)
  }

  /** There are exactly four roles, all distinct, and every role is one of them. */
  lemma ExactlyFourRoles()
    ensures |AllRoles| == 4
    ensures forall r: Role :: r in AllRoles
    ensures forall i, j :: 0 <= i < j < |AllRoles| ==> AllRoles[i] != AllRoles[j]
  {
    forall r: Role ensures r in AllRoles {
      match r
      case ADMIN => assert AllRoles[0] == r;
      case HR => assert AllRoles[1] == r;
      case MANAGER => assert AllRoles[2] == r;
      case EMPLOYEE => assert AllRoles[3] == r;
    }
  }

  /** Distinct roles have distinct names. */
  lemma RoleNameInjective(r: Role, q: Role)
    ensures RoleName(r) == RoleName(q) ==> r == q
  {
    if RoleName(r) == RoleName(q) {
      assert RoleName(r)[0] == RoleName(q)[0];
      assert |RoleName(r)| == |RoleName(q)|;
    }
  }

  /** The first constant of `constants` whose identifier is `s`. */
  function Lookup(constants: seq<Role>, s: string): (r: Option<Role>)
    ensures r.Some? ==> r.value in constants && RoleName(r.value) == s
    ensures r.None? ==> forall q :: q in constants ==> RoleName(q) != s
  {
    if constants == [] then None
    else if RoleName(constants[0]) == s then Some(constants[0])
    else Lookup(constants[1..], s)
  }

  /**
   * `Role.valueOf`: the constant with identifier `s`, or `None` where Java
   * throws IllegalArgumentException.
   */
  function ValueOf(s: string): (r: Option<Role>)
    ensures r.Some? <==> exists q: Role :: RoleName(q) == s
    ensures r.Some? ==> RoleName(r.value) == s
  {
    ExactlyFourRoles();
    Lookup(AllRoles, s)
  }

  /** Looking up the name of a role gives the role back. */
  lemma ValueOfRoleName(r: Role)
    ensures ValueOf(RoleName(r)) == Some(r)
  {
    var v := ValueOf(RoleName(r));
    assert v.Some?;
    RoleNameInjective(v.value, r);
  }

  /** Some role of `wanted` is held: a stream `anyMatch(held::contains)`. */
  function AnyIn(held: set<Role>, wanted: seq<Role>): (b: bool)
    ensures b <==> exists i :: 0 <= i < |wanted| && wanted[i] in held
  {
    if wanted == [] then false
    else if wanted[0] in held then true
    else
      var b := AnyIn(held, wanted[1..]);
      assert forall i :: 1 <= i < |wanted| ==> wanted[i] == wanted[1..][i - 1];
      b
  }

  /** Every role of `wanted` is held: `held.containsAll(Arrays.asList(wanted))`. */
  function ContainsAll(held: set<Role>, wanted: seq<Role>): (b: bool)
    ensures b <==> forall i :: 0 <= i < |wanted| ==> wanted[i] in held
  {
    if wanted == [] then true
    else if wanted[0] !in held then false
    else
      var b := ContainsAll(held, wanted[1..]);
      assert forall i :: 1 <= i < |wanted| ==> wanted[i] == wanted[1..][i - 1];
      b
  }
}
