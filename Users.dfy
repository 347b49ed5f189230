/** The user records the account endpoints work on, and the uniqueness
    the `users` collection keeps: one record per id, per username and per
    email. */
module Users {
  import opened Common

  /** A user document. `password` holds a hash (absent for OAuth users);
      the reset token and its expiry (milliseconds) are set while a reset
      link is outstanding. */
  datatype User = User(
    id: string, username: string, email: string, password: Option<string>,
    resetToken: Option<string>, resetTokenExpire: Option<int>)

  ghost predicate UniqueUsers(users: seq<User>) {
    forall i, j :: 0 <= i < j < |users| ==>
      users[i].id != users[j].id && users[i].username != users[j].username && users[i].email != users[j].email
  }

  /** `findById(id)`: the position of the record with that id, if any; a
      missing id finds nothing. */
  function FindById(users: seq<User>, id: Option<string>): (r: Option<nat>)
    ensures r.Some? ==> id.Some? && r.value < |users| && users[r.value].id == id.value
    ensures r.None? ==> id.None? || forall u :: u in users ==> u.id != id.value
  {
    if id.None? then None else IndexWithId(users, id.value)
  }

  function IndexWithId(users: seq<User>, id: string): (r: Option<nat>)
    ensures r.Some? ==> r.value < |users| && users[r.value].id == id
    ensures r.None? ==> forall u :: u in users ==> u.id != id
  {
    if users == [] then None
    else if users[0].id == id then Some(0)
    else
      match IndexWithId(users[1..], id)
      case None => None
      case Some(k) => Some(k + 1)
  }

  /** Replacing one record by one with the same id, username and email
      keeps the collection's uniqueness. */
  lemma ReplaceKeepsUnique(users: seq<User>, i: nat, u: User)
    requires UniqueUsers(users) && i < |users|
    requires u.id == users[i].id && u.username == users[i].username && u.email == users[i].email
    ensures UniqueUsers(users[i := u])
  {
  }
}
