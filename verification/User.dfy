/** A registered person: the validating constructor of `User` and its
    structural equality. */
module Users {
  import opened Wrappers
  import opened JavaText

  const UserIdError := "User ID cannot be null or empty"
  const NameError := "Name cannot be null or empty"

  /** A constructed user; both fields are stored trimmed. */
  datatype User = User(id: string, name: string)

  /** What every constructed user satisfies: both fields non-empty and unchanged by `trim`. */
  predicate WellFormed(u: User) {
    IsNormalField(u.id) && IsNormalField(u.name)
  }

  /** The constructor `User(id, name)`: the id is checked before the name; on
      success both are stored trimmed. */
  function NewUser(id: Option<string>, name: Option<string>): (r: Result<User, string>)
    ensures r.Success? <==> !Missing(id) && !Missing(name)
    ensures Missing(id) ==> r == Failure(UserIdError)
    ensures !Missing(id) && Missing(name) ==> r == Failure(NameError)
    ensures r.Success? ==>
      WellFormed(r.value) && r.value.id == Trim(id.value) && r.value.name == Trim(name.value)
  {
    if Missing(id) then Failure(UserIdError)
    else if Missing(name) then Failure(NameError)
    else
      TrimIdempotent(id.value);
      TrimIdempotent(name.value);
      Success(User(Trim(id.value), Trim(name.value)))
  }

  /** `User.equals`: the argument is a non-null user with the same id and name. */
  function Equals(u: User, o: Option<User>): (r: bool)
    ensures r <==> o == Some(u)
  {
    o.Some? && o.value.id == u.id && o.value.name == u.name
  }

  /** Equality is reflexive, symmetric and transitive, and never holds for `null`. */
  lemma EqualsIsEquivalence(a: User, b: User, c: User)
    ensures Equals(a, Some(a))
    ensures Equals(a, Some(b)) ==> Equals(b, Some(a))
    ensures Equals(a, Some(b)) && Equals(b, Some(c)) ==> Equals(a, Some(c))
    ensures !Equals(a, None)
  {
  }
}
