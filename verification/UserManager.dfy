/** The identity registry: `UserManager`'s map from the id a caller supplied to
    the `User` built from it. */
module Registry {
  import opened Wrappers
  import opened JavaText
  import opened Users

  const NullArgumentError := "User ID and name cannot be null"

  /** Every user in the map was built from its own key: its id is the trimmed key. */
  ghost predicate BuiltFromKeys(users: map<string, User>) {
    forall k :: k in users ==> WellFormed(users[k]) && users[k].id == Trim(k)
  }

  /** Storing a user built from a fresh key keeps every entry built from its key. */
  lemma InsertKeepsBuiltFromKeys(users: map<string, User>, k: string, u: User)
    requires BuiltFromKeys(users)
    requires WellFormed(u) && u.id == Trim(k)
    ensures BuiltFromKeys(users[k := u])
  {
  }

  class UserManager {
    /** The `users` HashMap, keyed by the untrimmed id passed to `addUser`. */
    var users: map<string, User>

    ghost predicate Valid()
      reads this
    {
      BuiltFromKeys(users)
    }

    constructor ()
      ensures Valid() && users == map[]
    {
      users := map[];
    }

    /** `addUser`: `null` arguments raise; a key already present is silently kept
        with its original user (even if the new name is blank); otherwise the
        `User` constructor runs and, if it does not raise, its result is stored
        under the untrimmed key. `err` is the message of the exception raised. */
    method AddUser(userId: Option<string>, name: Option<string>) returns (err: Option<string>)
      requires Valid()
      modifies this
      ensures Valid()
      ensures userId.None? || name.None? ==> err == Some(NullArgumentError) && users == old(users)
      ensures userId.Some? && name.Some? && userId.value in old(users) ==>
        err == None && users == old(users)
      ensures userId.Some? && name.Some? && userId.value !in old(users) && NewUser(userId, name).Failure? ==>
        err == Some(NewUser(userId, name).error) && users == old(users)
      ensures userId.Some? && name.Some? && userId.value !in old(users) && NewUser(userId, name).Success? ==>
        err == None && users == old(users)[userId.value := NewUser(userId, name).value]
      ensures err.None? ==> UserExists(userId)
    {
      if userId.None? || name.None? {
        return Some(NullArgumentError);
      }
      if userId.value in users {
        return None;
      }
      var created := NewUser(userId, name);
      if created.Failure? {
        return Some(created.error);
      }
      InsertKeepsBuiltFromKeys(users, userId.value, created.value);
      users := users[userId.value := created.value];
      err := None;
    }

    /** `getUser`: the user stored under the key, `null` for a key never added. */
    function GetUser(userId: Option<string>): (r: Option<User>)
      reads this
      ensures r.Some? <==> UserExists(userId)
      ensures r.Some? ==> r.value == users[userId.value]
      ensures Valid() && r.Some? ==> WellFormed(r.value) && r.value.id == Trim(userId.value)
    {
      if userId.Some? && userId.value in users then Some(users[userId.value]) else None
    }

    /** `userExists`: whether the key is present. A `null` key never is, and in a
        valid registry neither is a blank one: the key names the stored user. */
    predicate UserExists(userId: Option<string>): (b: bool)
      reads this
      ensures b ==> userId.Some?
      ensures Valid() && b ==>
        !Missing(userId) && userId.value in users && users[userId.value].id == Trim(userId.value)
    {
      userId.Some? && userId.value in users
    }
  }

  /** The registry scenarios: a new key is added, a duplicate key keeps the
      first user, an unknown key is absent, and blank input raises. */
  method RegistryScenario()
  {
    TrimOfPlain("123");
    TrimOfPlain("Alice");
    TrimOfPlain("Bob");
    var m := new UserManager();
    assert m.GetUser(Some("nonexistent")) == None;
    var err := m.AddUser(Some("123"), Some("Alice"));
    assert err == None && m.UserExists(Some("123"));
    err := m.AddUser(Some("123"), Some("Bob"));
    assert err == None && m.GetUser(Some("123")) == Some(User("123", "Alice"));
    err := m.AddUser(None, Some("Alice"));
    assert err == Some(NullArgumentError);
    assert IsBlank("");
    err := m.AddUser(Some(""), Some("Alice"));
    assert err == Some(UserIdError) && !m.UserExists(Some(""));
  }
}
