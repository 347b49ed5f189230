/** The `users` collection and the three endpoints that change it:
    registration, issuing a password-reset link, and redeeming one. The
    collection is the field of one `UserStore` object. The new document id,
    the password hash (bcrypt), the random bytes, the clock, the site's base
    URL and the mail outcome are parameters. */
module Accounts {
  import opened Common
  import opened Users
  import opened Registration
  import opened PasswordReset

  datatype RegisterReply =
    | RegisterNotAllowed
    | RegisterRejected(message: string)
    | RegisterCreated(id: string, username: string, email: string)
    | RegisterFailed
  {
    function Status(): int {
      match this
      case RegisterNotAllowed => 405
      case RegisterRejected(_) => 400
      case RegisterCreated(_, _, _) => 201
      case RegisterFailed => 500
    }
  }

  /** The answer of both reset endpoints: a status and its message. */
  datatype Reply = Reply(status: int, message: string)

  const NotAllowed := Reply(405, "Method not allowed")
  const UserNotFound := Reply(404, "User not found")
  const LinkSent := Reply(200, "✅ Reset link sent to your email.")
  const SendFailed := Reply(500, "Server error")
  const MissingFields := Reply(400, "Missing required fields")
  const InvalidLink := Reply(400, "Invalid or expired reset link")
  const ResetDone := Reply(200, "Password reset successful")

  class UserStore {
    var users: seq<User>

    ghost predicate Valid()
      reads this
    {
      UniqueUsers(users)
    }

    constructor ()
      ensures Valid() && users == []
    {
      users := [];
    }

    /** POST /api/register. Anything but POST: 405. A missing field: 400.
        A record with the same username or email: 400 with the message
        chosen from whichever such record the lookup returns (the database
        does not fix which), and nothing stored. Otherwise
        one record is appended holding the hashed password, and the reply
        carries its id, username and email but no password. A generated id
        that is already taken fails the insert: 500, nothing stored. */
    method Register(isPost: bool, username: Option<string>, email: Option<string>, password: Option<string>,
                    newId: string, hash: string -> string) returns (r: RegisterReply)
      requires Valid()
      modifies this
      ensures Valid()
      ensures !isPost ==> r == RegisterNotAllowed && users == old(users)
      ensures isPost && MissingField(username, email, password) ==>
        r == RegisterRejected(FieldsRequired) && users == old(users)
      ensures isPost && !MissingField(username, email, password) ==>
        if FirstClash(old(users), username.value, email.value).Some? then
          && users == old(users)
          && exists i :: 0 <= i < |old(users)| && Clashes(old(users)[i], username.value, email.value)
               && r == RegisterRejected(DuplicateMessage(old(users)[i], username.value))
        else
          if FindById(old(users), Some(newId)).Some? then
            r == RegisterFailed && users == old(users)
          else
            && r == RegisterCreated(newId, username.value, email.value)
            && users == old(users) + [User(newId, username.value, email.value, Some(hash(password.value)), None, None)]
      ensures r.RegisterCreated? <==> |users| == |old(users)| + 1
      ensures r.Status() != 201 ==> users == old(users)
    {
      if !isPost {
        return RegisterNotAllowed;
      }
      if MissingField(username, email, password) {
        return RegisterRejected(FieldsRequired);
      }
      var existing := FirstClash(users, username.value, email.value);
      if existing.Some? {
        var i :| 0 <= i < |users| && Clashes(users[i], username.value, email.value);
        return RegisterRejected(DuplicateMessage(users[i], username.value));
      }
      if FindById(users, Some(newId)).Some? {
        return RegisterFailed;
      }
      var created := User(newId, username.value, email.value, Some(hash(password.value)), None, None);
      AppendKeepsUnique(users, created);
      users := users + [created];
      r := RegisterCreated(created.id, created.username, created.email);
    }

    /** POST /api/forgot-password/send-reset. Anything but POST: 405. No
        user with that id: 404, nothing stored. Otherwise the user's token
        becomes the hex form of the random bytes and its expiry `now` plus
        thirty minutes, replacing any earlier ones, and only then is the
        link mailed: 200 when the mail goes out, 500 when it fails, the
        token staying stored either way. The link is valid for that user
        and token exactly until the expiry. */
    method SendReset(isPost: bool, userId: Option<string>, randomBytes: seq<byte>, now: int,
                     baseUrl: string, mailOk: bool) returns (r: Reply, link: Option<string>)
      requires Valid() && |randomBytes| == TokenBytes
      modifies this
      ensures Valid()
      ensures !isPost ==> r == NotAllowed && link.None? && users == old(users)
      ensures isPost && FindById(old(users), userId).None? ==> r == UserNotFound && link.None? && users == old(users)
      ensures isPost && FindById(old(users), userId).Some? ==>
        var i := FindById(old(users), userId).value;
        var token := HexEncode(randomBytes);
        && users == old(users)[i := old(users)[i].(resetToken := Some(token), resetTokenExpire := Some(now + ExpiryMs))]
        && |token| == 64
        && link == Some(ResetUrl(baseUrl, token, userId.value))
        && r == (if mailOk then LinkSent else SendFailed)
        && forall t :: LinkValid(users, userId.value, token, t) <==> t < now + ExpiryMs
    {
      if !isPost {
        return NotAllowed, None;
      }
      var found := FindById(users, userId);
      if found.None? {
        return UserNotFound, None;
      }
      var i := found.value;
      var token := HexEncode(randomBytes);
      var updated := users[i].(resetToken := Some(token));
      updated := updated.(resetTokenExpire := Some(now + ExpiryMs));
      ReplaceKeepsUnique(users, i, updated);
      users := users[i := updated];
      OnlyLinkOf(users, i, token, now + ExpiryMs);
      link := Some(ResetUrl(baseUrl, token, updated.id));
      r := if mailOk then LinkSent else SendFailed;
    }

    /** POST /api/forgot-password/reset-password. Anything but POST: 405.
        A missing token, id or password: 400 before the store is read. A
        link no user matches at `now` (wrong id, wrong token, no token, or
        expiry not after `now`): 400, nothing changes. A token or id that is
        a JSON object rather than a string matches no one either: this is
        the corrected lookup `FindByLinkChecked`, where the program as
        written reads the object as a query operator (see
        `FindByLinkAsWritten`). Otherwise that user's
        password becomes the hash of the new one and its token and expiry
        are removed; no other record and no other field changes, and the
        same link is invalid from then on. */
    method ResetPassword(isPost: bool, token: Option<BodyValue>, id: Option<BodyValue>, password: Option<string>,
                         now: int, hash: string -> string) returns (r: Reply)
      requires Valid()
      modifies this
      ensures Valid()
      ensures !isPost ==> r == NotAllowed && users == old(users)
      ensures isPost && (!PresentValue(token) || !PresentValue(id) || !Present(password)) ==>
        r == MissingFields && users == old(users)
      ensures isPost && PresentValue(token) && PresentValue(id) && Present(password) ==>
        && (r == ResetDone <==>
              token.value.Text? && id.value.Text? && LinkValid(old(users), id.value.text, token.value.text, now))
        && (r != ResetDone ==> r == InvalidLink && users == old(users))
        && (r == ResetDone ==>
              var i := FindByLinkChecked(old(users), id.value, token.value, now).value;
              && users == old(users)[i := old(users)[i].(password := Some(hash(password.value)),
                                                         resetToken := None, resetTokenExpire := None)]
              && forall t :: !LinkValid(users, id.value.text, token.value.text, t))
    {
      if !isPost {
        return NotAllowed;
      }
      if !PresentValue(token) || !PresentValue(id) || !Present(password) {
        return MissingFields;
      }
      var found := FindByLinkChecked(users, id.value, token.value, now);
      if found.None? {
        return InvalidLink;
      }
      var i := found.value;
      var updated := users[i].(password := Some(hash(password.value)));
      updated := updated.(resetToken := None);
      updated := updated.(resetTokenExpire := None);
      ReplaceKeepsUnique(users, i, updated);
      users := users[i := updated];
      NoLinkAfterClear(users, i, id.value.text, token.value.text);
      r := ResetDone;
    }
  }

  /** A link issued at `issuedAt` and redeemed before it expires resets
      the password; the same link redeemed again is refused. The mailed
      link carries exactly the stored token and the user's id. */
  method ResetLinkWorksOnce(store: UserStore, userId: string, randomBytes: seq<byte>, issuedAt: int, redeemedAt: int,
                            baseUrl: string, newPassword: string, hash: string -> string)
    requires store.Valid() && FindById(store.users, Some(userId)).Some? && userId != ""
    requires |randomBytes| == TokenBytes && newPassword != ""
    requires issuedAt <= redeemedAt < issuedAt + ExpiryMs
    modifies store
    ensures store.Valid()
  {
    var sent, link := store.SendReset(true, Some(userId), randomBytes, issuedAt, baseUrl, true);
    assert sent == LinkSent;
    var token := HexEncode(randomBytes);
    ResetUrlRoundTrip(baseUrl, randomBytes, userId);
    assert ReadLink(link.value, baseUrl) == Some((token, userId));
    assert |token| == 64 && LinkValid(store.users, userId, token, redeemedAt);
    var first := store.ResetPassword(true, Some(Text(token)), Some(Text(userId)), Some(newPassword), redeemedAt, hash);
    assert first == ResetDone;
    var second := store.ResetPassword(true, Some(Text(token)), Some(Text(userId)), Some(newPassword), redeemedAt, hash);
    assert second == InvalidLink;
  }

  /** Appending a record that clashes with no one and has a fresh id keeps
      the collection's uniqueness. */
  lemma AppendKeepsUnique(users: seq<User>, u: User)
    requires UniqueUsers(users)
    requires forall v :: v in users ==> !Clashes(v, u.username, u.email) && v.id != u.id
    ensures UniqueUsers(users + [u])
  {
    var next := users + [u];
    forall i, j | 0 <= i < j < |next|
      ensures next[i].id != next[j].id && next[i].username != next[j].username && next[i].email != next[j].email
    {
      if j == |users| {
        assert next[i] in users;
      }
    }
  }

  /** With unique ids, a token and expiry stored on the record at i make
      the link valid exactly before the expiry. */
  lemma OnlyLinkOf(users: seq<User>, i: nat, token: string, expire: int)
    requires UniqueUsers(users) && i < |users|
    requires users[i].resetToken == Some(token) && users[i].resetTokenExpire == Some(expire)
    ensures forall t :: LinkValid(users, users[i].id, token, t) <==> t < expire
  {
    forall t | LinkValid(users, users[i].id, token, t) ensures t < expire {
      var u :| u in users && LinkMatches(u, users[i].id, token, t);
      var k :| 0 <= k < |users| && users[k] == u;
      assert k == i;
    }
    forall t | t < expire ensures LinkValid(users, users[i].id, token, t) {
      assert users[i] in users && LinkMatches(users[i], users[i].id, token, t);
    }
  }

  /** With unique ids, once the record with that id has no token, no link
      for that id is valid at any time. */
  lemma NoLinkAfterClear(users: seq<User>, i: nat, id: string, token: string)
    requires UniqueUsers(users) && i < |users| && users[i].id == id && users[i].resetToken.None?
    ensures forall t :: !LinkValid(users, id, token, t)
  {
    forall u | u in users && u.id == id ensures u == users[i] {
      var k :| 0 <= k < |users| && users[k] == u;
      assert k == i;
    }
  }
}
