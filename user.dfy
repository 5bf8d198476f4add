/**
 * The user entity (entity/User.java): a mutable record whose setters change
 * one field each. Times are the clock reading in milliseconds, taken as a
 * parameter; a `null` string of the default constructor is the empty string.
 */
module Users {
  import opened Wrappers
  import opened Roles

  /** The value of every field of a user at one moment. */
  datatype UserState = UserState(
    id: Option<int>,
    username: string,
    password: string,
    email: string,
    fullName: string,
    roles: Option<set<Role>>,
    active: bool,
    createdAt: int,
    updatedAt: Option<int>)

  class User {
    var id: Option<int>
    var username: string
    var password: string
    var email: string
    var fullName: string
    var roles: Option<set<Role>>
    var active: bool
    var createdAt: int
    var updatedAt: Option<int>

    function State(): UserState
      reads this
    {
      UserState(id, username, password, email, fullName, roles, active, createdAt, updatedAt)
    }

    /** `User()`: a new, active user with no id, no roles and only the creation time set. */
    constructor Default(now: int)
      ensures State() == UserState(None, "", "", "", "", None, true, now, None)
    {
      id := None;
      username := "";
      password := "";
      email := "";
      fullName := "";
      roles := None;
      active := true;
      createdAt := now;
      updatedAt := None;
    }

    /** The five-argument constructor: the arguments unchanged, active, created now. */
    constructor (username: string, password: string, email: string, fullName: string,
                 roles: Option<set<Role>>, now: int)
      ensures State() == UserState(None, username, password, email, fullName, roles, true, now, None)
    {
      this.id := None;
      this.username := username;
      this.password := password;
      this.email := email;
      this.fullName := fullName;
      this.roles := roles;
      this.active := true;
      this.createdAt := now;
      this.updatedAt := None;
    }

    /** The pre-update callback: stamps the modification time and nothing else. */
    method OnUpdate(now: int)
      modifies this
      ensures State() == old(State()).(updatedAt := Some(now))
    {
      updatedAt := Some(now);
    }

    method SetId(id: Option<int>)
      modifies this
      ensures State() == old(State()).(id := id)
    {
      this.id := id;
    }

    method SetUsername(username: string)
      modifies this
      ensures State() == old(State()).(username := username)
    {
      this.username := username;
    }

    method SetPassword(password: string)
      modifies this
      ensures State() == old(State()).(password := password)
    {
      this.password := password;
    }

    method SetEmail(email: string)
      modifies this
      ensures State() == old(State()).(email := email)
    {
      this.email := email;
    }

    method SetFullName(fullName: string)
      modifies this
      ensures State() == old(State()).(fullName := fullName)
    {
      this.fullName := fullName;
    }

    method SetRoles(roles: Option<set<Role>>)
      modifies this
      ensures State() == old(State()).(roles := roles)
    {
      this.roles := roles;
    }

    method SetActive(active: bool)
      modifies this
      ensures State() == old(State()).(active := active)
    {
      this.active := active;
    }

    method SetCreatedAt(createdAt: int)
      modifies this
      ensures State() == old(State()).(createdAt := createdAt)
    {
      this.createdAt := createdAt;
    }

    method SetUpdatedAt(updatedAt: Option<int>)
      modifies this
      ensures State() == old(State()).(updatedAt := updatedAt)
    {
      this.updatedAt := updatedAt;
    }

    /** `hasRole`: false without a role set, membership otherwise. */
    function HasRole(role: Role): (b: bool)
      reads this
      ensures roles.None? ==> !b
      ensures roles.Some? ==> (b <==> role in roles.value)
    {
      roles.Some? && role in roles.value
    }

    /**
     * `hasAnyRole`: scans the arguments in order and answers at the first
     * one the user holds; false without a role set or without arguments.
     */
    method HasAnyRole(rs: seq<Role>) returns (b: bool)
      ensures b <==> roles.Some? && exists i :: 0 <= i < |rs| && rs[i] in roles.value
      ensures b == (roles.Some? && AnyIn(roles.value, rs))
      ensures rs == [] ==> !b
      ensures |rs| == 1 ==> b == HasRole(rs[0])
    {
      if roles.None? {
        return false;
      }
      for i := 0 to |rs|
        invariant forall j :: 0 <= j < i ==> rs[j] !in roles.value
      {
        if rs[i] in roles.value {
          return true;
        }
      }
      return false;
    }
  }
}
