/** The sentences endpoint. GET returns up to `count` distinct sentences of
    one difficulty, drawn at random; for a caller that names a user id it
    avoids the sentences that user has already been given, and starts over
    once all of them have been used. POST adds a sentence.

    The in-memory per-user "used" sets and the sentence collection are the
    fields of one `SentenceService` object; `Math.random` is a
    nondeterministic choice. */
module SentencePool {
  import opened Common

  /** A stored sentence; ids stand for the documents' `_id`. */
  datatype Sentence = Sentence(id: nat, text: string, difficulty: string)

  /** The values the schema admits for a sentence's difficulty. */
  const Difficulties: set<string> := {"easy", "medium", "hard"}

  datatype Request =
    | Get(difficulty: Option<string>, count: Option<int>, userId: Option<string>)
    | Post(text: Option<string>, postDifficulty: Option<string>)
    | OtherMethod

  datatype Response =
    | Ok(sentences: seq<Sentence>)
    | Created(sentence: Sentence)
    | BadRequest
    | MethodNotAllowed
    | ServerError
  {
    function Status(): int {
      match this
      case Ok(_) => 200
      case Created(_) => 201
      case BadRequest => 400
      case MethodNotAllowed => 405
      case ServerError => 500
    }
  }

  ghost predicate DistinctIds(s: seq<Sentence>) {
    forall i, j :: 0 <= i < j < |s| ==> s[i].id != s[j].id
  }

  function IdsOf(s: seq<Sentence>): set<nat> {
    set x | x in s :: x.id
  }

  /** `Sentence.find({ difficulty })`, in stored order. */
  function OfDifficulty(store: seq<Sentence>, d: string): (r: seq<Sentence>)
    ensures forall x :: x in r <==> x in store && x.difficulty == d
    ensures DistinctIds(store) ==> DistinctIds(r)
  {
    if store == [] then []
    else
      var rest := OfDifficulty(store[1..], d);
      if store[0].difficulty == d then
        KeepHeadDistinct(store, rest);
        [store[0]] + rest
      else
        DropHeadDistinct(store);
        rest
  }

  /** `Sentence.find({ difficulty })` as the GET sends it: an absent
      difficulty is dropped from the filter, which then matches every
      stored sentence. */
  function Find(store: seq<Sentence>, difficulty: Option<string>): (r: seq<Sentence>)
    ensures difficulty.None? ==> r == store
    ensures difficulty.Some? ==> forall x :: x in r <==> x in store && x.difficulty == difficulty.value
    ensures DistinctIds(store) ==> DistinctIds(r)
  {
    match difficulty
    case None => store
    case Some(d) => OfDifficulty(store, d)
  }

  /** The sentences whose id is not in the used set, in order. */
  function Unused(all: seq<Sentence>, used: set<nat>): (r: seq<Sentence>)
    ensures forall x :: x in r <==> x in all && x.id !in used
    ensures DistinctIds(all) ==> DistinctIds(r)
  {
    if all == [] then []
    else
      var rest := Unused(all[1..], used);
      if all[0].id !in used then
        KeepHeadDistinct(all, rest);
        [all[0]] + rest
      else
        DropHeadDistinct(all);
        rest
  }

  /** Keeping the head of a sequence with distinct ids in front of a
      selection from its tail keeps the ids distinct. */
  lemma KeepHeadDistinct(s: seq<Sentence>, rest: seq<Sentence>)
    requires s != []
    requires forall x :: x in rest ==> x in s[1..]
    requires DistinctIds(s) ==> DistinctIds(rest)
    ensures DistinctIds(s) ==> DistinctIds([s[0]] + rest)
  {
    if DistinctIds(s) {
      var r := [s[0]] + rest;
      forall i, j | 0 <= i < j < |r| ensures r[i].id != r[j].id {
        if i == 0 {
          assert r[j] in rest;
          var k :| 0 <= k < |s[1..]| && s[1..][k] == r[j];
          assert s[k + 1] == r[j];
        } else {
          assert r[i] == rest[i - 1] && r[j] == rest[j - 1];
        }
      }
    }
  }

  lemma DropHeadDistinct(s: seq<Sentence>)
    requires s != []
    ensures DistinctIds(s) ==> DistinctIds(s[1..])
  {
    if DistinctIds(s) {
      forall i, j | 0 <= i < j < |s[1..]| ensures s[1..][i].id != s[1..][j].id {
        assert s[1..][i] == s[i + 1] && s[1..][j] == s[j + 1];
      }
    }
  }

  /** What the user has been given so far; a user without an entry has
      been given nothing. */
  function UsedBy(sessions: map<string, set<nat>>, user: string): set<nat> {
    if user in sessions then sessions[user] else {}
  }

  /** The pool a user draws from: the unused sentences, or all of them once
      every one has been used. */
  function Pool(all: seq<Sentence>, used: set<nat>): (pool: seq<Sentence>)
    ensures all != [] ==> pool != []
    ensures forall x :: x in pool ==> x in all
    ensures (exists x :: x in all && x.id !in used) ==>
              forall x :: x in pool <==> x in all && x.id !in used
    ensures (forall x :: x in all ==> x.id in used) ==> pool == all
    ensures DistinctIds(all) ==> DistinctIds(pool)
  {
    var unused := Unused(all, used);
    if unused == [] then all
    else
      assert unused[0] in unused;
      unused
  }

  /** The pool of a GET: a user's pool when a user id is given, otherwise
      all sentences of the difficulty. */
  function PoolFor(all: seq<Sentence>, sessions: map<string, set<nat>>, userId: Option<string>): seq<Sentence> {
    if Present(userId) then Pool(all, UsedBy(sessions, userId.value)) else all
  }

  /** While fewer than n indices below n are taken, one is still free. */
  lemma {:induction false} FreeIndex(taken: set<nat>, n: nat)
    requires forall k :: k in taken ==> k < n
    requires |taken| < n
    ensures exists k :: 0 <= k < n && k !in taken
  {
    if n - 1 in taken {
      FreeIndex(taken - {n - 1}, n - 1);
    }
  }

  /** The selection loop's bookkeeping: `picked` lists the drawn pool
      indices in order, `usedIndexes` is the set of them, and `selected`
      holds the sentences at those indices. */
  ghost predicate Drawn(pool: seq<Sentence>, selected: seq<Sentence>, usedIndexes: set<nat>, picked: seq<nat>) {
    && |selected| == |usedIndexes| == |picked|
    && (forall k :: k in usedIndexes ==> k < |pool|)
    && (forall i :: 0 <= i < |picked| ==> picked[i] in usedIndexes && picked[i] < |pool| && selected[i] == pool[picked[i]])
    && (forall x :: x in selected ==> x in pool)
  }

  /** Drawing a pool index not drawn before keeps the bookkeeping, and
      keeps the chosen sentences' ids distinct. */
  lemma DrawStep(pool: seq<Sentence>, selected: seq<Sentence>, usedIndexes: set<nat>, picked: seq<nat>, rand: nat)
    requires Drawn(pool, selected, usedIndexes, picked)
    requires DistinctIds(pool) && DistinctIds(selected) && rand < |pool| && rand !in usedIndexes
    ensures Drawn(pool, selected + [pool[rand]], usedIndexes + {rand}, picked + [rand])
    ensures DistinctIds(selected + [pool[rand]])
  {
    var next := selected + [pool[rand]];
    forall i, j | 0 <= i < j < |next| ensures next[i].id != next[j].id {
      if j == |selected| {
        assert next[i] == pool[picked[i]];
      }
    }
    var nextPicked := picked + [rand];
    forall i | 0 <= i < |nextPicked|
      ensures nextPicked[i] in usedIndexes + {rand} && nextPicked[i] < |pool| && next[i] == pool[nextPicked[i]]
    {
      if i < |picked| {
        assert nextPicked[i] == picked[i] && next[i] == selected[i];
      }
    }
  }

  lemma IdsOfAppend(s: seq<Sentence>, x: Sentence)
    ensures IdsOf(s + [x]) == IdsOf(s) + {x.id}
  {
  }

  lemma UpdateTwice(m: map<string, set<nat>>, k: string, a: set<nat>, b: set<nat>)
    ensures m[k := a][k := b] == m[k := b]
  {
  }

  /** The used sets after the ids are added to the named user's set; a
      request without a user id leaves them as they are. */
  function WithUsed(sessions: map<string, set<nat>>, userId: Option<string>, ids: set<nat>): map<string, set<nat>>
    requires Present(userId) ==> userId.value in sessions
  {
    if Present(userId) then sessions[userId.value := sessions[userId.value] + ids] else sessions
  }

  lemma WithUsedNothing(sessions: map<string, set<nat>>, userId: Option<string>)
    requires Present(userId) ==> userId.value in sessions
    ensures WithUsed(sessions, userId, {}) == sessions
  {
    if Present(userId) {
      assert sessions[userId.value] + {} == sessions[userId.value];
    }
  }

  /** Adding one more id to the user's set of `WithUsed` is `WithUsed` of
      the larger set. */
  lemma WithUsedStep(sessions: map<string, set<nat>>, userId: Option<string>, ids: set<nat>, id: nat)
    requires Present(userId) ==> userId.value in sessions
    ensures var m := WithUsed(sessions, userId, ids);
      && (Present(userId) ==> userId.value in m && m[userId.value := m[userId.value] + {id}] == WithUsed(sessions, userId, ids + {id}))
      && (!Present(userId) ==> m == WithUsed(sessions, userId, ids + {id}))
  {
    if Present(userId) {
      var u := userId.value;
      assert sessions[u] + ids + {id} == sessions[u] + (ids + {id});
    }
  }

  /** The used set a GET starts from: the user's set, or the empty set when
      it covers every sentence of the difficulty. */
  function UsedAfterReset(all: seq<Sentence>, sessions: map<string, set<nat>>, user: string): set<nat> {
    var before := UsedBy(sessions, user);
    if Unused(all, before) == [] then {} else before
  }

  /** The names every plain object inherits from `Object.prototype`. */
  const InheritedKeys: set<string> := {
    "constructor", "__proto__", "__defineGetter__", "__defineSetter__", "__lookupGetter__",
    "__lookupSetter__", "hasOwnProperty", "isPrototypeOf", "propertyIsEnumerable",
    "toLocaleString", "toString", "valueOf"}

  /** A user id whose lookup in the plain object `userSessions` finds an
      inherited member instead of a used set. That member is truthy, so no
      set is created for the user, and it has no `has`, so filtering the
      unused sentences throws and the handler answers 500. */
  predicate InheritedUserId(userId: Option<string>) {
    Present(userId) && userId.value in InheritedKeys
  }

  class SentenceService {
    /** The sentence collection, in stored order. */
    var store: seq<Sentence>
    /** The id the next inserted sentence gets. */
    var nextId: nat
    /** `userSessions`: user id to the ids of the sentences given to it. */
    var userSessions: map<string, set<nat>>

    ghost predicate Valid()
      reads this
    {
      && DistinctIds(store)
      && (forall i :: 0 <= i < |store| ==> store[i].id < nextId)
      && (forall i :: 0 <= i < |store| ==> store[i].difficulty in Difficulties)
    }

    constructor ()
      ensures Valid() && store == [] && userSessions == map[]
    {
      store := [];
      nextId := 0;
      userSessions := map[];
    }

    /** GET: `count` (10 when absent) distinct sentences of the pool, or
        all of the pool when it is smaller. With a user id, the pool is the
        user's unused sentences (all of them after a reset) and the chosen
        ones are added to the user's used set; without one, no used set is
        created or changed. No matching sentence: an empty answer, and
        nothing changes. A user id that names an inherited member of
        `userSessions`: 500 once some sentence matches, and nothing changes. */
    method Get(difficulty: Option<string>, count: Option<int>, userId: Option<string>) returns (r: Response)
      requires Valid()
      modifies this`userSessions
      ensures Valid()
      ensures Find(store, difficulty) == [] ==> r == Ok([]) && userSessions == old(userSessions)
      ensures Find(store, difficulty) != [] && InheritedUserId(userId) ==>
        r == ServerError && userSessions == old(userSessions)
      ensures !InheritedUserId(userId) ==>
        var pool := PoolFor(Find(store, difficulty), old(userSessions), userId);
        && r.Ok?
        && |r.sentences| == Max(0, Min(count.GetOr(10), |pool|))
        && (forall x :: x in r.sentences ==> x in pool)
        && DistinctIds(r.sentences)
      ensures !Present(userId) ==> userSessions == old(userSessions)
      ensures Present(userId) && !InheritedUserId(userId) && Find(store, difficulty) != [] ==>
        var all := Find(store, difficulty);
        && userSessions == old(userSessions)[userId.value := UsedAfterReset(all, old(userSessions), userId.value) + IdsOf(r.sentences)]
        && IdsOf(r.sentences) <= userSessions[userId.value]
    {
      var all := Find(store, difficulty);
      if |all| == 0 {
        return Ok([]);
      }
      if InheritedUserId(userId) {
        return ServerError;
      }
      ghost var before := userSessions;
      var pool := PreparePool(all, userId);
      ghost var reset := userSessions;
      var limit := Min(count.GetOr(10), |pool|);
      var selected := DrawDistinct(pool, limit, userId);
      if Present(userId) {
        ghost var user := userId.value;
        ghost var used := UsedAfterReset(all, before, user);
        assert reset[user] == used;
        UpdateTwice(before, user, used, used + IdsOf(selected));
        assert userSessions == before[user := used + IdsOf(selected)];
      }
      r := Ok(selected);
    }

    /** The pool of a GET with at least one sentence: a named user gets a
        used set if it had none, and it is cleared when nothing is left. */
    method PreparePool(all: seq<Sentence>, userId: Option<string>) returns (pool: seq<Sentence>)
      requires all != [] && DistinctIds(all)
      modifies this`userSessions
      ensures pool == PoolFor(all, old(userSessions), userId) && pool != []
      ensures DistinctIds(pool)
      ensures !Present(userId) ==> userSessions == old(userSessions)
      ensures Present(userId) ==>
        userSessions == old(userSessions)[userId.value := UsedAfterReset(all, old(userSessions), userId.value)]
    {
      pool := all;
      if Present(userId) {
        var user := userId.value;
        if user !in userSessions {
          userSessions := userSessions[user := {}];
        }
        var unused := Unused(all, userSessions[user]);
        if |unused| == 0 {
          userSessions := userSessions[user := {}];
          unused := all;
        }
        pool := unused;
      }
    }

    /** The random selection loop: distinct indices of the pool are drawn
        until `limit` sentences are chosen, each chosen id being added to
        the named user's used set. */
    method DrawDistinct(pool: seq<Sentence>, limit: int, userId: Option<string>) returns (selected: seq<Sentence>)
      requires DistinctIds(pool) && limit <= |pool|
      requires Present(userId) ==> userId.value in userSessions
      modifies this`userSessions
      ensures |selected| == Max(0, limit)
      ensures forall x :: x in selected ==> x in pool
      ensures DistinctIds(selected)
      ensures !Present(userId) ==> userSessions == old(userSessions)
      ensures Present(userId) ==>
        userSessions == old(userSessions)[userId.value := old(userSessions)[userId.value] + IdsOf(selected)]
    {
      selected := [];
      var usedIndexes: set<nat> := {};
      ghost var picked: seq<nat> := [];
      WithUsedNothing(userSessions, userId);
      while |selected| < limit
        invariant Drawn(pool, selected, usedIndexes, picked) && |selected| <= Max(0, limit)
        invariant DistinctIds(selected)
        invariant userSessions == WithUsed(old(userSessions), userId, IdsOf(selected))
        decreases |pool| - |usedIndexes|
      {
        var rand := PickUnused(|pool|, usedIndexes);
        DrawStep(pool, selected, usedIndexes, picked, rand);
        IdsOfAppend(selected, pool[rand]);
        WithUsedStep(old(userSessions), userId, IdsOf(selected), pool[rand].id);
        if Present(userId) {
          MarkUsed(userId.value, pool[rand].id);
        }
        usedIndexes := usedIndexes + {rand};
        selected := selected + [pool[rand]];
        picked := picked + [rand];
      }
    }

    /** `Math.floor(Math.random() * n)` repeated until it gives an index
        not used yet: some unused index below n. */
    method PickUnused(n: nat, usedIndexes: set<nat>) returns (rand: nat)
      requires |usedIndexes| < n && forall k :: k in usedIndexes ==> k < n
      ensures rand < n && rand !in usedIndexes
    {
      FreeIndex(usedIndexes, n);
      rand :| rand < n && rand !in usedIndexes;
    }

    /** `userSessions[user].add(id)` */
    method MarkUsed(user: string, id: nat)
      requires user in userSessions
      modifies this`userSessions
      ensures userSessions == old(userSessions)[user := old(userSessions)[user] + {id}]
    {
      userSessions := userSessions[user := userSessions[user] + {id}];
    }

    /** POST: a sentence needs a text and a difficulty (400 otherwise); a
        difficulty the schema does not admit fails validation (500); either
        way nothing is saved. Otherwise the sentence is appended. */
    method Post(text: Option<string>, difficulty: Option<string>) returns (r: Response)
      requires Valid()
      modifies this`store, this`nextId
      ensures Valid()
      ensures !Present(text) || !Present(difficulty) ==>
        r == BadRequest && store == old(store) && nextId == old(nextId)
      ensures Present(text) && Present(difficulty) && difficulty.value !in Difficulties ==>
        r == ServerError && store == old(store) && nextId == old(nextId)
      ensures Present(text) && Present(difficulty) && difficulty.value in Difficulties ==>
        var added := Sentence(old(nextId), text.value, difficulty.value);
        r == Created(added) && store == old(store) + [added] && nextId == old(nextId) + 1
    {
      if !Present(text) || !Present(difficulty) {
        return BadRequest;
      }
      if difficulty.value !in Difficulties {
        return ServerError;
      }
      var added := Sentence(nextId, text.value, difficulty.value);
      store := store + [added];
      nextId := nextId + 1;
      r := Created(added);
    }

    /** The handler: GET and POST as above, any other method 405. */
    method Handle(req: Request) returns (r: Response)
      requires Valid()
      modifies this
      ensures Valid()
      ensures req.OtherMethod? ==> r == MethodNotAllowed && unchanged(this)
      ensures req.Get? ==> (r.Ok? || r == ServerError) && store == old(store) && nextId == old(nextId)
      ensures r.Status() >= 400 ==> store == old(store) && nextId == old(nextId) && userSessions == old(userSessions)
      ensures req.Post? ==> userSessions == old(userSessions) && (r.Created? || r == BadRequest || r == ServerError)
    {
      match req
      case Get(d, c, u) =>
        r := Get(d, c, u);
      case Post(t, d) =>
        r := Post(t, d);
      case OtherMethod =>
        r := MethodNotAllowed;
    }
  }
}
