/**
 * The user service (service/UserService.java) over an in-memory user
 * repository: a map from generated id to the stored user object. Ids are
 * generated by an identity counter, as the entity's IDENTITY strategy does.
 */
module UserServices {
  import opened Wrappers
  import opened Text
  import opened Roles
  import opened Users

  /** The stored users, by id, as values. */
  type Store = map<int, UserState>

  /** `existsByUsername` */
  predicate UsernameTaken(s: Store, username: string)
  {
    exists k :: k in s && s[k].username == username
  }

  /** `existsByEmail` */
  predicate EmailTaken(s: Store, email: string)
  {
    exists k :: k in s && s[k].email == email
  }

  /** A user other than `id` already has this username. */
  predicate UsernameTakenByOther(s: Store, id: int, username: string)
  {
    exists k :: k in s && k != id && s[k].username == username
  }

  /** A user other than `id` already has this email. */
  predicate EmailTakenByOther(s: Store, id: int, email: string)
  {
    exists k :: k in s && k != id && s[k].email == email
  }

  /** No two stored users share a username, and no two share an email (the unique columns). */
  predicate Unique(s: Store)
  {
    forall k, l :: k in s && l in s && k != l ==> s[k].username != s[l].username && s[k].email != s[l].email
  }

  /** The number of active stored users. */
  function CountActive(s: Store): nat
  {
    |set k | k in s && s[k].active|
  }

  /** What `updateUser` makes of a stored user: five fields from the details, the rest kept. */
  function WithDetails(u: UserState, details: UserState): (r: UserState)
    ensures r.id == u.id && r.password == u.password && r.createdAt == u.createdAt && r.updatedAt == u.updatedAt
    ensures r.username == details.username && r.email == details.email && r.fullName == details.fullName
    ensures r.roles == details.roles && r.active == details.active
  {
    u.(username := details.username, email := details.email, fullName := details.fullName,
       roles := details.roles, active := details.active)
  }

  function NotFound(id: int): string
  {
    "User not found with id: " + IntToString(id)
  }

  // ---------------------------------------------------------------------
  // Properties of the duplicate rules and of the count

  /**
   * The update's duplicate check (the value changes and is taken) rejects
   * exactly a value another user holds: keeping one's own is always allowed.
   */
  lemma ChangedAndTaken(s: Store, id: int, username: string, email: string)
    requires Unique(s) && id in s
    ensures (s[id].username != username && UsernameTaken(s, username)) <==> UsernameTakenByOther(s, id, username)
    ensures (s[id].email != email && EmailTaken(s, email)) <==> EmailTakenByOther(s, id, email)
  {
    if s[id].username != username && UsernameTaken(s, username) {
      var k :| k in s && s[k].username == username;
      assert k != id;
    }
    if s[id].email != email && EmailTaken(s, email) {
      var k :| k in s && s[k].email == email;
      assert k != id;
    }
    if UsernameTakenByOther(s, id, username) {
      var k :| k in s && k != id && s[k].username == username;
      assert UsernameTaken(s, username);
    }
    if EmailTakenByOther(s, id, email) {
      var k :| k in s && k != id && s[k].email == email;
      assert EmailTaken(s, email);
    }
  }

  /** Adding a user whose username and email are both free keeps them unique. */
  lemma InsertKeepsUnique(s: Store, id: int, u: UserState)
    requires Unique(s) && id !in s
    requires !UsernameTaken(s, u.username) && !EmailTaken(s, u.email)
    ensures Unique(s[id := u])
  {
    var t := s[id := u];
    forall k, l | k in t && l in t && k != l
      ensures t[k].username != t[l].username && t[k].email != t[l].email
    {
      if k != id && l != id {
        assert t[k] == s[k] && t[l] == s[l];
      }
    }
  }

  /** Overwriting a user with a username and an email no other user holds keeps them unique. */
  lemma ReplaceKeepsUnique(s: Store, id: int, u: UserState)
    requires Unique(s) && id in s
    requires !UsernameTakenByOther(s, id, u.username) && !EmailTakenByOther(s, id, u.email)
    ensures Unique(s[id := u])
  {
    var t := s[id := u];
    forall k, l | k in t && l in t && k != l
      ensures t[k].username != t[l].username && t[k].email != t[l].email
    {
      if k != id && l != id {
        assert t[k] == s[k] && t[l] == s[l];
      }
    }
  }

  /** Removing a user keeps the others unique. */
  lemma RemoveKeepsUnique(s: Store, id: int)
    requires Unique(s)
    ensures Unique(s - {id})
  {
    var t := s - {id};
    forall k, l | k in t && l in t && k != l
      ensures t[k].username != t[l].username && t[k].email != t[l].email
    {
      assert t[k] == s[k] && t[l] == s[l];
    }
  }

  /** What the service keeps true: every user is stored under its own id, below the counter, and unique. */
  predicate Consistent(s: Store, nextId: int)
  {
    && (forall k :: k in s ==> k < nextId && s[k].id == Some(k))
    && Unique(s)
  }

  /** `createUser`'s insertion keeps the store consistent: the counter's id is free, and the counter moves on. */
  lemma InsertKeepsConsistent(s: Store, nextId: int, u: UserState)
    requires Consistent(s, nextId)
    requires !UsernameTaken(s, u.username) && !EmailTaken(s, u.email)
    requires u.id == Some(nextId)
    ensures nextId !in s
    ensures Consistent(s[nextId := u], nextId + 1)
  {
    InsertKeepsUnique(s, nextId, u);
  }

  /** Changing a user's fields other than its id, to values no other user holds, keeps the store consistent. */
  lemma ReplaceKeepsConsistent(s: Store, nextId: int, id: int, u: UserState)
    requires Consistent(s, nextId) && id in s
    requires !UsernameTakenByOther(s, id, u.username) && !EmailTakenByOther(s, id, u.email)
    requires u.id == s[id].id
    ensures Consistent(s[id := u], nextId)
  {
    ReplaceKeepsUnique(s, id, u);
  }

  /** Removing a user keeps the store consistent. */
  lemma RemoveKeepsConsistent(s: Store, nextId: int, id: int)
    requires Consistent(s, nextId)
    ensures Consistent(s - {id}, nextId)
  {
    RemoveKeepsUnique(s, id);
  }

  lemma SubsetCardinality<T>(a: set<T>, b: set<T>)
    requires a <= b
    ensures |a| <= |b|
  {
    assert b == a + (b - a);
    assert a * (b - a) == {};
  }

  /** There are never more active users than users. */
  lemma CountActiveBound(s: Store)
    ensures CountActive(s) <= |s|
  {
    var active := set k | k in s && s[k].active;
    SubsetCardinality(active, s.Keys);
  }

  /** Replacing one user changes the active count by that user's change of flag alone. */
  lemma {:induction false} CountActiveReplace(s: Store, id: int, u: UserState)
    requires id in s
    ensures CountActive(s[id := u]) == CountActive(s) - (if s[id].active then 1 else 0) + (if u.active then 1 else 0)
  {
    var t := s[id := u];
    var others := set k | k in s && k != id && s[k].active;
    var before := set k | k in s && s[k].active;
    var after := set k | k in t && t[k].active;
    var all := others + {id};
    assert id !in others && |all| == |others| + 1;
    assert before == if s[id].active then all else others;
    assert after == if u.active then all else others by {
      forall k | k in t && k != id
        ensures t[k] == s[k]
      {
      }
    }
    assert CountActive(s) == |before| && CountActive(t) == |after|;
  }

  /** Removing a user lowers the active count by one exactly when that user was active. */
  lemma {:induction false} CountActiveRemove(s: Store, id: int)
    ensures CountActive(s - {id}) == CountActive(s) - (if id in s && s[id].active then 1 else 0)
  {
    var before := set k | k in s && s[k].active;
    var after := set k | k in s - {id} && (s - {id})[k].active;
    assert after == before - {id};
  }

  // ---------------------------------------------------------------------
  // The service

  class UserService {
    var users: map<int, User>
    var nextId: int

    /** The stored users' fields. */
    function Snapshot(): Store
      reads this, users.Values
    {
      map k | k in users :: users[k].State()
    }

    /** Every stored user carries its own key as id, below the counter; usernames and emails are unique. */
    ghost predicate Valid()
      reads this, users.Values
    {
      Consistent(Snapshot(), nextId)
    }

    /** Distinct ids hold distinct objects: no user object is stored twice. */
    lemma StoredDistinct()
      requires Valid()
      ensures forall k, l :: k in users && l in users && k != l ==> users[k] != users[l]
    {
      forall k, l | k in users && l in users && k != l
        ensures users[k] != users[l]
      {
        assert Snapshot()[k].id == Some(k) && Snapshot()[l].id == Some(l);
      }
    }

    /** When only the user under `id` changed or was added, the snapshot changed at `id` alone. */
    twostate lemma OnlyOneChanged(id: int)
      requires id in users && users == old(users)[id := users[id]]
      requires forall k :: k in users && k != id ==> unchanged(users[k])
      ensures Snapshot() == old(Snapshot())[id := users[id].State()]
    {
      forall k | k in users && k != id
        ensures users[k].State() == old(users[k].State())
      {
      }
    }

    /** When the user under `id` was removed and no other changed, the snapshot lost `id` alone. */
    twostate lemma OnlyOneRemoved(id: int)
      requires users == old(users) - {id}
      requires forall k :: k in users ==> unchanged(users[k])
      ensures Snapshot() == old(Snapshot()) - {id}
    {
      forall k | k in users
        ensures users[k].State() == old(users[k].State())
      {
      }
    }

    constructor ()
      ensures Valid() && users == map[] && nextId == 1
    {
      users := map[];
      nextId := 1;
    }

    /**
     * `createUser`: rejects a taken username first and a taken email second,
     * leaving everything unchanged; otherwise stores the user under a new id.
     */
    method CreateUser(user: User) returns (r: Result<User, string>)
      requires Valid()
      requires user.id.None?
      modifies this, user
      ensures Valid()
      ensures UsernameTaken(old(Snapshot()), old(user.username)) ==>
                && r == Failure("User with username '" + old(user.username) + "' already exists")
                && users == old(users) && nextId == old(nextId) && unchanged(user)
      ensures !UsernameTaken(old(Snapshot()), old(user.username)) && EmailTaken(old(Snapshot()), old(user.email)) ==>
                && r == Failure("User with email '" + old(user.email) + "' already exists")
                && users == old(users) && nextId == old(nextId) && unchanged(user)
      ensures !UsernameTaken(old(Snapshot()), old(user.username)) && !EmailTaken(old(Snapshot()), old(user.email)) ==>
                && r == Success(user)
                && users == old(users)[old(nextId) := user] && nextId == old(nextId) + 1
                && Snapshot() == old(Snapshot())[old(nextId) := old(user.State()).(id := Some(old(nextId)))]
    {
      if UsernameTaken(Snapshot(), user.username) {
        return Failure("User with username '" + user.username + "' already exists");
      }
      if EmailTaken(Snapshot(), user.email) {
        return Failure("User with email '" + user.email + "' already exists");
      }
      Insert(user);
      return Success(user);
    }

    /** The successful part of `createUser`: the new user gets the next id and is stored under it. */
    method Insert(user: User)
      requires Valid()
      requires user.id.None?
      requires !UsernameTaken(Snapshot(), user.username) && !EmailTaken(Snapshot(), user.email)
      modifies this, user
      ensures Valid()
      ensures users == old(users)[old(nextId) := user] && nextId == old(nextId) + 1
      ensures Snapshot() == old(Snapshot())[old(nextId) := old(user.State()).(id := Some(old(nextId)))]
    {
      ghost var s := Snapshot();
      var id := nextId;
      assert forall k :: k in users ==> users[k].State() == s[k] && users[k] != user;
      user.id := Some(id);
      InsertKeepsConsistent(s, id, user.State());
      users := users[id := user];
      nextId := id + 1;
      OnlyOneChanged(id);
    }

    /**
     * `authenticateUser`: the active user with this username, when the
     * password matches the stored one; nothing otherwise.
     */
    method AuthenticateUser(username: string, password: string) returns (r: Option<User>)
      requires Valid()
      ensures r.Some? ==> r.value in users.Values && r.value.username == username
                          && r.value.active && r.value.password == password
      ensures r.None? ==> forall k :: k in users && users[k].username == username && users[k].active
                                      ==> users[k].password != password
    {
      // findByUsernameAndActive(username, true)
      if exists k :: k in users && users[k].username == username && users[k].active {
        var k :| k in users && users[k].username == username && users[k].active;
        var user := users[k];
        if password == user.password {
          return Some(user);
        }
        forall l | l in users && users[l].username == username && users[l].active
          ensures users[l].password != password
        {
          assert Snapshot()[l] == users[l].State() && Snapshot()[k] == users[k].State();
        }
      }
      return None;
    }

    /**
     * `updateUser`: an unknown id and a username or email held by another
     * user are errors that change nothing; otherwise the stored user takes
     * username, email, full name, roles and active flag from the details.
     */
    method UpdateUser(id: int, details: User) returns (r: Result<User, string>)
      requires Valid()
      modifies users.Values
      ensures Valid()
      ensures id !in users ==> r == Failure(NotFound(id)) && Snapshot() == old(Snapshot())
      ensures id in users && UsernameTakenByOther(old(Snapshot()), id, old(details.username)) ==>
                && r == Failure("Username '" + old(details.username) + "' already exists")
                && Snapshot() == old(Snapshot())
      ensures id in users && !UsernameTakenByOther(old(Snapshot()), id, old(details.username))
              && EmailTakenByOther(old(Snapshot()), id, old(details.email)) ==>
                && r == Failure("Email '" + old(details.email) + "' already exists")
                && Snapshot() == old(Snapshot())
      ensures id in users && !UsernameTakenByOther(old(Snapshot()), id, old(details.username))
              && !EmailTakenByOther(old(Snapshot()), id, old(details.email)) ==>
                && r == Success(users[id])
                && Snapshot() == old(Snapshot())[id := WithDetails(old(Snapshot())[id], old(details.State()))]
    {
      if id !in users {
        return Failure(NotFound(id));
      }
      var user := users[id];
      var s := Snapshot();
      ChangedAndTaken(s, id, details.username, details.email);
      if user.username != details.username && UsernameTaken(s, details.username) {
        return Failure("Username '" + details.username + "' already exists");
      }
      if user.email != details.email && EmailTaken(s, details.email) {
        return Failure("Email '" + details.email + "' already exists");
      }
      CopyDetails(id, details.State());
      return Success(user);
    }

    /** The successful part of `updateUser`: the five setter calls on the stored user. */
    method CopyDetails(id: int, d: UserState)
      requires Valid() && id in users
      requires !UsernameTakenByOther(Snapshot(), id, d.username) && !EmailTakenByOther(Snapshot(), id, d.email)
      modifies users[id]
      ensures Valid()
      ensures Snapshot() == old(Snapshot())[id := WithDetails(old(Snapshot())[id], d)]
    {
      var user := users[id];
      ghost var s := Snapshot();
      StoredDistinct();
      assert forall k :: k in users && k != id ==> users[k] != user;
      user.SetUsername(d.username);
      user.SetEmail(d.email);
      user.SetFullName(d.fullName);
      user.SetRoles(d.roles);
      user.SetActive(d.active);
      assert user.State() == WithDetails(s[id], d);
      OnlyOneChanged(id);
      ReplaceKeepsConsistent(s, nextId, id, WithDetails(s[id], d));
    }

    /** `updateUserRoles`: replaces the stored user's roles and nothing else; an unknown id is an error. */
    method UpdateUserRoles(id: int, roles: Option<set<Role>>) returns (r: Result<User, string>)
      requires Valid()
      modifies users.Values
      ensures Valid()
      ensures id !in users ==> r == Failure(NotFound(id)) && Snapshot() == old(Snapshot())
      ensures id in users ==> r == Success(users[id])
                              && Snapshot() == old(Snapshot())[id := old(Snapshot())[id].(roles := roles)]
    {
      if id !in users {
        return Failure(NotFound(id));
      }
      var user := users[id];
      ghost var s := Snapshot();
      StoredDistinct();
      user.SetRoles(roles);
      OnlyOneChanged(id);
      ReplaceKeepsConsistent(s, nextId, id, s[id].(roles := roles));
      return Success(user);
    }

    /** Sets the active flag of a stored user; false, and nothing changed, for an unknown id. */
    method SetActiveFlag(id: int, active: bool) returns (b: bool)
      requires Valid()
      modifies users.Values
      ensures Valid()
      ensures b <==> id in users
      ensures Snapshot() == if b then old(Snapshot())[id := old(Snapshot())[id].(active := active)] else old(Snapshot())
    {
      if id !in users {
        return false;
      }
      var user := users[id];
      ghost var s := Snapshot();
      StoredDistinct();
      user.SetActive(active);
      OnlyOneChanged(id);
      ReplaceKeepsConsistent(s, nextId, id, s[id].(active := active));
      return true;
    }

    /** `deactivateUser`: the soft delete; true exactly when the id is stored. */
    method DeactivateUser(id: int) returns (b: bool)
      requires Valid()
      modifies users.Values
      ensures Valid()
      ensures b <==> id in users
      ensures Snapshot() == if b then old(Snapshot())[id := old(Snapshot())[id].(active := false)] else old(Snapshot())
      ensures ActiveUserCount() == old(ActiveUserCount()) - (if b && old(users[id].active) then 1 else 0)
    {
      b := SetActiveFlag(id, false);
      if b {
        CountActiveReplace(old(Snapshot()), id, old(Snapshot())[id].(active := false));
      }
    }

    /** `activateUser`: true exactly when the id is stored. */
    method ActivateUser(id: int) returns (b: bool)
      requires Valid()
      modifies users.Values
      ensures Valid()
      ensures b <==> id in users
      ensures Snapshot() == if b then old(Snapshot())[id := old(Snapshot())[id].(active := true)] else old(Snapshot())
      ensures ActiveUserCount() == old(ActiveUserCount()) + (if b && !old(users[id].active) then 1 else 0)
    {
      b := SetActiveFlag(id, true);
      if b {
        CountActiveReplace(old(Snapshot()), id, old(Snapshot())[id].(active := true));
      }
    }

    /** `deleteUser`: removes the id and nothing else; true exactly when it was stored. */
    method DeleteUser(id: int) returns (b: bool)
      requires Valid()
      modifies this
      ensures Valid()
      ensures b <==> id in old(users)
      ensures id !in users && users == old(users) - {id} && nextId == old(nextId)
      ensures Snapshot() == old(Snapshot()) - {id}
      ensures ActiveUserCount() == old(ActiveUserCount()) - (if b && old(users[id].active) then 1 else 0)
    {
      ghost var s := Snapshot();
      CountActiveRemove(s, id);
      b := id in users;
      if b {
        Remove(id);
      } else {
        assert s - {id} == s;
      }
    }

    /** The repository's `deleteById` on a stored id. */
    method Remove(id: int)
      requires Valid() && id in users
      modifies this
      ensures Valid()
      ensures users == old(users) - {id} && nextId == old(nextId)
      ensures Snapshot() == old(Snapshot()) - {id}
    {
      RemoveKeepsConsistent(Snapshot(), nextId, id);
      users := users - {id};
      OnlyOneRemoved(id);
    }

    /** `getActiveUserCount`: how many stored users are active. */
    function ActiveUserCount(): (n: nat)
      reads this, users.Values
      ensures n == |set k | k in users && users[k].active|
      ensures n <= |users|
    {
      assert forall k :: k in users ==> Snapshot()[k] == users[k].State();
      assert Snapshot().Keys == users.Keys;
      assert (set k | k in users && users[k].active) == set k | k in Snapshot() && Snapshot()[k].active;
      CountActiveBound(Snapshot());
      CountActive(Snapshot())
    }
  }
}
