/** A stored game record and the timestamp orders the game history is
    shown in. Sorting is by timestamp only, by insertion; whether records
    with equal timestamps keep their relative order is not proved. */
module GameOrder {

  /** A record of the `games` collection; `timestamp` is the insertion
      instant in milliseconds. */
  datatype Game = Game(owner: string, score: int, wpm: int, accuracy: int, difficulty: string, timestamp: int)

  datatype Order = Ascending | Descending

  /** `a` may come before `b` in the given order. */
  predicate Precedes(order: Order, a: Game, b: Game) {
    match order
    case Ascending => a.timestamp <= b.timestamp
    case Descending => a.timestamp >= b.timestamp
  }

  /** Every earlier record may precede every later one. */
  predicate Sorted(order: Order, s: seq<Game>) {
    forall i, j :: 0 <= i < j < |s| ==> Precedes(order, s[i], s[j])
  }

  /** Inserts `x` into a sorted sequence in front of the first record it
      may precede, that is, before any record with an equal timestamp. */
  function Insert(order: Order, x: Game, s: seq<Game>): (r: seq<Game>)
    requires Sorted(order, s)
    ensures Sorted(order, r)
    ensures multiset(r) == multiset(s) + multiset{x}
  {
    if s == [] || Precedes(order, x, s[0]) then
      [x] + s
    else
      var rest := Insert(order, x, s[1..]);
      assert s == [s[0]] + s[1..];
      HeadPrecedesInsert(order, x, s, rest);
      [s[0]] + rest
  }

  /** The head of a sorted sequence, which `x` may not precede, may
      precede everything of the sequence with `x` inserted in its tail. */
  lemma HeadPrecedesInsert(order: Order, x: Game, s: seq<Game>, rest: seq<Game>)
    requires s != [] && Sorted(order, s) && !Precedes(order, x, s[0])
    requires multiset(rest) == multiset(s[1..]) + multiset{x} && Sorted(order, rest)
    ensures Sorted(order, [s[0]] + rest)
  {
    forall y | y in rest ensures Precedes(order, s[0], y) {
      assert y in multiset(rest);
      if y != x {
        assert y in multiset(s[1..]);
        var j :| 0 <= j < |s[1..]| && s[1..][j] == y;
        assert s[j + 1] == y;
      }
    }
    var r := [s[0]] + rest;
    forall i, j | 0 <= i < j < |r| ensures Precedes(order, r[i], r[j]) {
      if i == 0 {
        assert r[j] == rest[j - 1];
        assert r[j] in rest;
      } else {
        assert r[i] == rest[i - 1] && r[j] == rest[j - 1];
      }
    }
  }

  /** The game list sorted by timestamp in the given order: a permutation
      of the input. */
  function Sort(order: Order, s: seq<Game>): (r: seq<Game>)
    ensures Sorted(order, r)
    ensures multiset(r) == multiset(s)
    ensures |r| == |s|
  {
    if s == [] then []
    else
      assert s == [s[0]] + s[1..];
      Insert(order, s[0], Sort(order, s[1..]))
  }

  /** In a sorted sequence, everything after position k may follow
      everything before it. */
  lemma SortedSplit(order: Order, s: seq<Game>, k: nat)
    requires Sorted(order, s) && k <= |s|
    ensures forall a, b :: a in s[..k] && b in s[k..] ==> Precedes(order, a, b)
  {
    forall a, b | a in s[..k] && b in s[k..] ensures Precedes(order, a, b) {
      var i :| 0 <= i < k && s[i] == a;
      var j :| k <= j < |s| && s[j] == b;
    }
  }
}
