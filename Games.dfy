/** The games endpoint: an authenticated caller appends game records
    (POST) and lists its own records newest first (GET). The `games`
    collection is the field of one `GameStore` object; the session and the
    clock are parameters. */
module Games {
  import opened Common
  import opened GameOrder

  /** The signed-in user of a session: an OAuth user has an id, a
      credentials user is known by its email. */
  datatype SessionUser = SessionUser(id: Option<string>, email: string)

  datatype Request =
    | PostGame(score: int, wpm: int, accuracy: int, difficulty: string)
    | ListGames
    | OtherMethod

  datatype Response =
    | Unauthorized
    | Inserted(record: Game)
    | Listed(games: seq<Game>)
    | MethodNotAllowed
  {
    function Status(): int {
      match this
      case Unauthorized => 401
      case Inserted(_) => 200
      case Listed(_) => 200
      case MethodNotAllowed => 405
    }
  }

  /** `session.user.id || session.user.email` */
  function OwnerKey(u: SessionUser): string {
    if Present(u.id) then u.id.value else u.email
  }

  /** `find({ userId: owner })`: the owner's records, in stored order. */
  function OwnedBy(games: seq<Game>, owner: string): (r: seq<Game>)
    ensures forall g :: g in r <==> g in games && g.owner == owner
    ensures |r| <= |games|
  {
    if games == [] then []
    else (if games[0].owner == owner then [games[0]] else []) + OwnedBy(games[1..], owner)
  }

  /** Appending another owner's record leaves an owner's records as they were. */
  lemma {:induction false} OwnedByAppend(games: seq<Game>, g: Game, owner: string)
    ensures OwnedBy(games + [g], owner) == OwnedBy(games, owner) + (if g.owner == owner then [g] else [])
  {
    if games == [] {
      assert games + [g] == [g];
    } else {
      var head := if games[0].owner == owner then [games[0]] else [];
      var tail := if g.owner == owner then [g] else [];
      assert (games + [g])[0] == games[0];
      assert (games + [g])[1..] == games[1..] + [g];
      OwnedByAppend(games[1..], g, owner);
      calc {
        OwnedBy(games + [g], owner);
        head + OwnedBy(games[1..] + [g], owner);
        head + (OwnedBy(games[1..], owner) + tail);
        (head + OwnedBy(games[1..], owner)) + tail;
      }
    }
  }

  class GameStore {
    /** The `games` collection, in insertion order. */
    var games: seq<Game>

    constructor ()
      ensures games == []
    {
      games := [];
    }

    /** The handler. No session: 401. POST appends one record stamped with
        `now` and owned by the caller. GET lists exactly the caller's
        records, newest first. Anything else: 405. Only POST changes the
        store, and it leaves every other owner's records untouched. */
    method Handle(session: Option<SessionUser>, req: Request, now: int) returns (r: Response)
      modifies this
      ensures session.None? ==> r == Unauthorized && games == old(games)
      ensures session.Some? && req.OtherMethod? ==> r == MethodNotAllowed && games == old(games)
      ensures session.Some? && req.PostGame? ==>
        var g := Game(OwnerKey(session.value), req.score, req.wpm, req.accuracy, req.difficulty, now);
        r == Inserted(g) && games == old(games) + [g]
      ensures session.Some? && req.ListGames? ==>
        && games == old(games)
        && r.Listed?
        && Sorted(Descending, r.games)
        && multiset(r.games) == multiset(OwnedBy(games, OwnerKey(session.value)))
        && (forall g :: g in r.games ==> g.owner == OwnerKey(session.value))
      ensures r.Status() != 200 ==> games == old(games)
      ensures forall owner :: session.None? || owner != OwnerKey(session.value) ==>
        OwnedBy(games, owner) == OwnedBy(old(games), owner)
    {
      if session.None? {
        return Unauthorized;
      }
      var owner := OwnerKey(session.value);
      match req
      case PostGame(score, wpm, accuracy, difficulty) =>
        var g := Game(owner, score, wpm, accuracy, difficulty, now);
        games := games + [g];
        forall other ensures OwnedBy(games, other) == OwnedBy(old(games), other) + (if owner == other then [g] else []) {
          OwnedByAppend(old(games), g, other);
        }
        r := Inserted(g);
      case ListGames =>
        var mine := Sort(Descending, OwnedBy(games, owner));
        assert forall g :: g in mine ==> g in multiset(OwnedBy(games, owner));
        r := Listed(mine);
      case OtherMethod =>
        r := MethodNotAllowed;
    }
  }
}
