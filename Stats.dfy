/** The stats page: a login prompt without a session, a no-data message
    without games, and otherwise a chart of every game in ascending time
    order next to a table of the fifteen newest games. Both lists are
    sorted copies; the fetched list is a value and is never reordered. */
module Stats {
  import opened Common
  import opened GameOrder

  /** How many games the table shows. */
  const RecentCount := 15

  datatype View =
    | LoginPrompt
    | NoData
    | Charts(chart: seq<Game>, recent: seq<Game>)

  /** `recentGames`: the games newest first, cut to the first fifteen. */
  function Recent(games: seq<Game>): seq<Game> {
    var newestFirst := Sort(Descending, games);
    newestFirst[..Min(RecentCount, |newestFirst|)]
  }

  /** The games the table does not show. */
  function LeftOut(games: seq<Game>): seq<Game> {
    var newestFirst := Sort(Descending, games);
    newestFirst[Min(RecentCount, |newestFirst|)..]
  }

  /** What the page shows for a session (or none) and the fetched games. */
  function Page(loggedIn: bool, games: seq<Game>): (v: View)
    ensures !loggedIn <==> v == LoginPrompt
    ensures loggedIn && games == [] <==> v == NoData
    ensures v.Charts? ==>
      && Sorted(Ascending, v.chart) && multiset(v.chart) == multiset(games)
      && Sorted(Descending, v.recent) && |v.recent| == Min(RecentCount, |games|)
      && multiset(v.recent) + multiset(LeftOut(games)) == multiset(games)
  {
    if !loggedIn then LoginPrompt
    else if games == [] then NoData
    else
      var newestFirst := Sort(Descending, games);
      var k := Min(RecentCount, |newestFirst|);
      assert newestFirst == newestFirst[..k] + newestFirst[k..];
      Charts(Sort(Ascending, games), Recent(games))
  }

  /** No game left out of the table is newer than a game in it. */
  lemma LeftOutNoNewer(games: seq<Game>)
    ensures forall a, b :: a in LeftOut(games) && b in Recent(games) ==> a.timestamp <= b.timestamp
  {
    var newestFirst := Sort(Descending, games);
    SortedSplit(Descending, newestFirst, Min(RecentCount, |newestFirst|));
  }

  /** Every fetched game is in the table or no newer than anything in it. */
  lemma InTableOrOlder(games: seq<Game>, g: Game)
    requires g in games
    ensures g in Recent(games) || forall b :: b in Recent(games) ==> g.timestamp <= b.timestamp
  {
    var newestFirst := Sort(Descending, games);
    var k := Min(RecentCount, |newestFirst|);
    assert newestFirst == newestFirst[..k] + newestFirst[k..];
    assert g in multiset(newestFirst);
    if g !in newestFirst[..k] {
      assert g in newestFirst[k..];
      LeftOutNoNewer(games);
    }
  }
}
