/** The checks of the registration endpoint that decide its answer before
    anything is stored: the required fields and the duplicate lookup. */
module Registration {
  import opened Common
  import opened Users

  const FieldsRequired := "All fields are required"
  const UsernameTaken := "Username already exists"
  const EmailTaken := "Email already exists"

  /** `!username || !email || !password` */
  predicate MissingField(username: Option<string>, email: Option<string>, password: Option<string>) {
    !Present(username) || !Present(email) || !Present(password)
  }

  predicate Clashes(u: User, username: string, email: string) {
    u.username == username || u.email == email
  }

  /** Whether `findOne({ $or: [{ username }, { email }] })` finds anything:
      the position of the first record, in stored order, with that username
      or that email, and nothing exactly when no record has either. Which
      clashing record the database returns is not fixed, so only whether
      one exists is used by the endpoint. */
  function FirstClash(users: seq<User>, username: string, email: string): (r: Option<nat>)
    ensures r.None? <==> forall u :: u in users ==> !Clashes(u, username, email)
    ensures r.Some? ==>
      && r.value < |users| && Clashes(users[r.value], username, email)
      && forall k :: 0 <= k < r.value ==> !Clashes(users[k], username, email)
  {
    if users == [] then None
    else if Clashes(users[0], username, email) then Some(0)
    else
      match FirstClash(users[1..], username, email)
      case None =>
        assert forall u :: u in users ==> u == users[0] || u in users[1..];
        None
      case Some(k) => Some(k + 1)
  }

  /** The message for a clash: the username one when the found record
      carries the requested username, the email one otherwise. */
  function DuplicateMessage(existing: User, username: string): string {
    if existing.username == username then UsernameTaken else EmailTaken
  }

  /** Whichever clashing record the lookup returns, the duplicate message
      names a field that really is taken: the username message only when a
      record has that username, the email message only when that record has
      the email under another username. When the username is free, the
      message is always the email one. */
  lemma DuplicateMessageIsAccurate(users: seq<User>, username: string, email: string, i: nat)
    requires i < |users| && Clashes(users[i], username, email)
    ensures var msg := DuplicateMessage(users[i], username);
      && (msg == UsernameTaken ==> exists u :: u in users && u.username == username)
      && (msg == EmailTaken ==> users[i].email == email && users[i].username != username)
      && ((forall u :: u in users ==> u.username != username) ==> msg == EmailTaken)
  {
    assert users[i] in users;
  }
}
