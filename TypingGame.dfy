/** The typing session of the game component: a timer setting, a list of
    fetched sentences, the text typed so far for the current sentence, and
    the score computed when the game finishes.

    The component's state hooks become the fields of class `Session`; its
    effects and event handlers become methods. What the browser supplies
    (the current time, whether a login session exists, whether the POST of
    the score succeeded, the result of the sentence fetch) is passed in. */
module TypingGame {
  import opened Common

  datatype Difficulty = Easy | Medium | Hard

  /** The four timer buttons: "15s", "30s", "1m" and "Unlimited". */
  datatype Timer = FifteenSeconds | ThirtySeconds | OneMinute | Unlimited

  /** `timeLeft` is a number of seconds or `Infinity`. */
  datatype TimeLeft = Seconds(n: nat) | Infinity

  /** How one character of the target sentence is coloured. */
  datatype CharState = Pending | Correct | Incorrect

  /** The body of the POST to the game store. */
  datatype GamePost = GamePost(score: nat, wpm: nat, accuracy: nat, difficulty: Difficulty)

  /** What became of the score after the game finished. */
  datatype SaveOutcome = NotLoggedIn | Saved | SaveFailed

  datatype FinishReport = FinishReport(post: GamePost, outcome: SaveOutcome)

  /** The time limit of a timer setting; only "Unlimited" has none. */
  function TimerInSeconds(t: Timer): (r: TimeLeft)
    ensures r.Infinity? <==> t == Unlimited
    ensures t == FifteenSeconds ==> r == Seconds(15)
    ensures t == ThirtySeconds ==> r == Seconds(30)
    ensures t == OneMinute ==> r == Seconds(60)
  {
    match t
    case FifteenSeconds => Seconds(15)
    case ThirtySeconds => Seconds(30)
    case OneMinute => Seconds(60)
    case Unlimited => Infinity
  }

  // ---------------------------------------------------------------------
  // Scoring
  // ---------------------------------------------------------------------

  /** Number of positions i < k (k at most |typed|) where the typed
      character equals the target's character at i; past the end of the
      target nothing matches. */
  function MatchesBelow(typed: string, target: string, k: nat): (n: nat)
    requires k <= |typed|
    ensures n <= Min(k, |target|)
  {
    if k == 0 then 0
    else MatchesBelow(typed, target, k - 1)
         + (if k - 1 < |target| && typed[k - 1] == target[k - 1] then 1 else 0)
  }

  /** The score: how many typed characters equal the target character at
      the same index. */
  function CorrectChars(typed: string, target: string): nat {
    MatchesBelow(typed, target, |typed|)
  }

  /** The positions counted by the score, as a set. */
  ghost function MatchingPositions(typed: string, target: string): set<nat> {
    MatchesUpTo(typed, target, |typed|)
  }

  /** The matching positions among the first k typed characters. */
  ghost function MatchesUpTo(typed: string, target: string, k: nat): set<nat>
    requires k <= |typed|
  {
    set i: nat | i < k && i < |target| && typed[i] == target[i]
  }

  /** One more typed character adds its own position to the set exactly
      when it matches. */
  lemma MatchesUpToStep(typed: string, target: string, k: nat)
    requires 0 < k <= |typed|
    ensures k - 1 !in MatchesUpTo(typed, target, k - 1)
    ensures MatchesUpTo(typed, target, k)
            == MatchesUpTo(typed, target, k - 1)
               + (if k - 1 < |target| && typed[k - 1] == target[k - 1] then {k - 1} else {})
  {
  }

  lemma {:induction false} MatchesBelowIsCount(typed: string, target: string, k: nat)
    requires k <= |typed|
    ensures MatchesBelow(typed, target, k) == |MatchesUpTo(typed, target, k)|
  {
    if k > 0 {
      MatchesBelowIsCount(typed, target, k - 1);
      MatchesUpToStep(typed, target, k);
    } else {
      assert MatchesUpTo(typed, target, k) == {};
    }
  }

  /** The score is the number of matching positions, and is bounded by both
      the typed length and the target length. */
  lemma CorrectCharsIsMatchCount(typed: string, target: string)
    ensures CorrectChars(typed, target) == |MatchingPositions(typed, target)|
    ensures CorrectChars(typed, target) <= |typed| && CorrectChars(typed, target) <= |target|
  {
    MatchesBelowIsCount(typed, target, |typed|);
  }

  /** Colour of target character `idx`: pending until typed, then green when
      the typed character is equal to it, red otherwise. */
  function Classify(target: string, typed: string, idx: nat): CharState
    requires idx < |target|
  {
    if idx >= |typed| then Pending
    else if typed[idx] == target[idx] then Correct
    else Incorrect
  }

  /** The green characters of the sentence display are exactly the positions
      the score counts, so their number is the score. */
  lemma GreenCharactersAreTheScore(target: string, typed: string)
    ensures (set i: nat | i < |target| && Classify(target, typed, i) == Correct)
            == MatchingPositions(typed, target)
    ensures |set i: nat | i < |target| && Classify(target, typed, i) == Correct|
            == CorrectChars(typed, target)
  {
    var green := set i: nat | i < |target| && Classify(target, typed, i) == Correct;
    assert green == MatchingPositions(typed, target);
    CorrectCharsIsMatchCount(typed, target);
  }

  /** A position is pending exactly when it is not yet typed, and a typed
      position is either correct or incorrect. */
  lemma ClassifyCases(target: string, typed: string, idx: nat)
    requires idx < |target|
    ensures Classify(target, typed, idx) == Pending <==> idx >= |typed|
    ensures Classify(target, typed, idx) == Correct <==> idx < |typed| && typed[idx] == target[idx]
    ensures Classify(target, typed, idx) == Incorrect <==> idx < |typed| && typed[idx] != target[idx]
  {
  }

  /** Milliseconds since the start instant; `startTimeRef.current` is null
      before the first start, and a start instant of 0 is falsy too. */
  function ElapsedMs(start: Option<int>, now: int): int {
    if start.Some? && start.value != 0 then now - start.value else 0
  }

  /** Net words per minute: (correct / 5) / (elapsed seconds / 60), with the
      elapsed time taken as at least one second, rounded. */
  function Wpm(correct: nat, elapsedMs: int): (w: nat)
    ensures var ms := Max(1000, elapsedMs);
            ms * (2 * w - 1) <= 2 * 12000 * correct < ms * (2 * w + 1)
    ensures elapsedMs <= 1000 ==> w == 12 * correct
  {
    var ms := Max(1000, elapsedMs);
    if elapsedMs <= 1000 then
      RoundDivUnique(12000 * correct, ms, 12 * correct);
      RoundDiv(12000 * correct, ms)
    else
      RoundDiv(12000 * correct, ms)
  }

  /** Accuracy in percent of the current sentence's length, or 0 for an
      empty sentence. */
  function Accuracy(correct: nat, len: nat): (a: nat)
    ensures len == 0 ==> a == 0
    ensures len > 0 ==> len * (2 * a - 1) <= 200 * correct < len * (2 * a + 1)
  {
    if len == 0 then 0 else RoundDiv(100 * correct, len)
  }

  /** Accuracy is a percentage: at most 100 when no more characters are
      correct than the sentence has, and exactly 100 for a sentence typed
      without error. */
  lemma AccuracyIsPercentage(correct: nat, len: nat)
    requires correct <= len
    ensures Accuracy(correct, len) <= 100
    ensures 0 < len == correct ==> Accuracy(correct, len) == 100
  {
    if len > 0 {
      RoundDivBetween(100 * correct, len, 0, 100);
      if correct == len {
        RoundDivUnique(100 * correct, len, 100);
      }
    }
  }

  /** The record posted at the end of a game: the score counts the current
      sentence only. */
  function ScoreRun(typed: string, target: string, difficulty: Difficulty, elapsedMs: int): (p: GamePost)
    ensures p.score == CorrectChars(typed, target)
    ensures p.score <= |typed| && p.score <= |target|
    ensures p.wpm == Wpm(p.score, elapsedMs)
    ensures p.accuracy == Accuracy(p.score, |target|) && p.accuracy <= 100
    ensures p.difficulty == difficulty
  {
    var score := CorrectChars(typed, target);
    CorrectCharsIsMatchCount(typed, target);
    AccuracyIsPercentage(score, |target|);
    GamePost(score, Wpm(score, elapsedMs), Accuracy(score, |target|), difficulty)
  }

  // ---------------------------------------------------------------------
  // The component's state
  // ---------------------------------------------------------------------

  class Session {
    var difficulty: Difficulty
    var timer: Timer
    var sentences: seq<string>
    var started: bool
    var finished: bool
    var currentSentenceIndex: nat
    var typedText: string
    var timeLeft: TimeLeft
    var startTime: Option<int>

    /** The index points into the sentence list (or is 0); the remaining time
        is infinite exactly for "Unlimited" and never above the limit; a
        started game has a start instant. */
    ghost predicate Valid()
      reads this
    {
      && (currentSentenceIndex == 0 || currentSentenceIndex < |sentences|)
      && (timeLeft.Infinity? <==> timer == Unlimited)
      && (timeLeft.Seconds? ==> timeLeft.n <= TimerInSeconds(timer).n)
      && (started ==> startTime.Some?)
    }

    /** `sentences[currentSentenceIndex]?.text || ""` */
    function CurrentSentence(): string
      reads this
    {
      if currentSentenceIndex < |sentences| then sentences[currentSentenceIndex] else ""
    }

    /** The text area is enabled and the countdown runs. */
    predicate Running()
      reads this
    {
      started && !finished
    }

    /** The state and outcome `Finish` leaves, given whether the game was
        started when it was called. */
    predicate AfterFinish(report: FinishReport, loggedIn: bool, postOk: bool, wasStarted: bool)
      reads this
    {
      if loggedIn then report.outcome == (if postOk then Saved else SaveFailed) && !started && !finished
      else report.outcome == NotLoggedIn && started == wasStarted && finished
    }

    /** Mounting the component: the initial state ("easy", "30s", idle), then
        the configuration effect's reset; `fetched` is the sentence fetch's
        result, None when it failed. */
    constructor (fetched: Option<seq<string>>)
      ensures Valid()
      ensures difficulty == Easy && timer == ThirtySeconds
      ensures sentences == fetched.GetOr([])
      ensures !started && !finished && currentSentenceIndex == 0 && typedText == ""
      ensures timeLeft == Seconds(30) && startTime == None
    {
      difficulty := Easy;
      timer := ThirtySeconds;
      sentences := fetched.GetOr([]);
      started := false;
      finished := false;
      currentSentenceIndex := 0;
      typedText := "";
      timeLeft := Seconds(30);
      startTime := None;
    }

    /** Choosing a difficulty or a timer. The effect runs only when one of
        them actually changes; it resets the game and refetches sentences
        (a failed fetch keeps the old list). */
    method Configure(d: Difficulty, t: Timer, fetched: Option<seq<string>>)
      requires Valid()
      modifies this
      ensures Valid()
      ensures d == old(difficulty) && t == old(timer) ==> unchanged(this)
      ensures d != old(difficulty) || t != old(timer) ==>
        && difficulty == d && timer == t
        && timeLeft == TimerInSeconds(t)
        && currentSentenceIndex == 0 && typedText == ""
        && !started && !finished
        && sentences == fetched.GetOr(old(sentences))
        && startTime == old(startTime)
    {
      if d != difficulty || t != timer {
        difficulty, timer := d, t;
        timeLeft := TimerInSeconds(timer);
        currentSentenceIndex := 0;
        typedText := "";
        finished := false;
        started := false;
        if fetched.Some? {
          sentences := fetched.value;
        }
      }
    }

    /** The Start button: the game runs from the full limit with an empty
        text area. The sentence index is not reset. */
    method Start(now: int)
      requires Valid()
      modifies this
      ensures Valid() && Running()
      ensures typedText == "" && timeLeft == TimerInSeconds(timer) && startTime == Some(now)
      ensures difficulty == old(difficulty) && timer == old(timer) && sentences == old(sentences)
      ensures currentSentenceIndex == old(currentSentenceIndex)
    {
      started := true;
      finished := false;
      typedText := "";
      timeLeft := TimerInSeconds(timer);
      startTime := Some(now);
    }

    /** The text area's change event: the new text replaces the old one, but
        only while the game runs (the text area is disabled otherwise). */
    method Type(text: string)
      requires Valid()
      modifies this`typedText
      ensures Valid()
      ensures typedText == if old(Running()) then text else old(typedText)
    {
      if started && !finished {
        typedText := text;
      }
    }

    /** `finishGame`: marks the game finished and scores the current
        sentence. Without a login session nothing is posted and the game
        stays marked finished; with one the score is posted and the game
        returns to idle whether or not the POST succeeds. */
    method Finish(now: int, loggedIn: bool, postOk: bool) returns (report: FinishReport)
      requires Valid()
      modifies this`started, this`finished
      ensures Valid()
      ensures report.post == ScoreRun(typedText, CurrentSentence(), difficulty, ElapsedMs(startTime, now))
      ensures AfterFinish(report, loggedIn, postOk, old(started))
    {
      finished := true;
      var post := ScoreRun(typedText, CurrentSentence(), difficulty, ElapsedMs(startTime, now));
      if !loggedIn {
        return FinishReport(post, NotLoggedIn);
      }
      report := FinishReport(post, if postOk then Saved else SaveFailed);
      started := false;
      finished := false;
    }

    /** One run of the countdown: nothing unless the game runs; at zero the
        game finishes instead of counting; an unlimited game never counts;
        otherwise one second is taken off. */
    method Tick(now: int, loggedIn: bool, postOk: bool) returns (report: Option<FinishReport>)
      requires Valid()
      modifies this`started, this`finished, this`timeLeft
      ensures Valid()
      ensures typedText == old(typedText) && currentSentenceIndex == old(currentSentenceIndex)
      ensures report.Some? <==> old(Running()) && old(timeLeft) == Seconds(0)
      ensures !old(Running()) || old(timeLeft).Infinity? ==> unchanged(this)
      ensures old(Running()) && old(timeLeft).Seconds? && old(timeLeft).n > 0 ==>
        timeLeft == Seconds(old(timeLeft).n - 1) && Running()
      ensures report.Some? ==>
        && timeLeft == Seconds(0)
        && report.value.post == ScoreRun(typedText, CurrentSentence(), difficulty, ElapsedMs(startTime, now))
        && AfterFinish(report.value, loggedIn, postOk, true)
    {
      report := None;
      if !started || finished {
        return;
      }
      if timeLeft == Seconds(0) {
        var r := Finish(now, loggedIn, postOk);
        report := Some(r);
        return;
      }
      if timeLeft.Infinity? {
        return;
      }
      timeLeft := Seconds(timeLeft.n - 1);
    }

    /** `handleNextSentence`: move to the next sentence with an empty text
        area, or, at the last one, finish a timed game; an unlimited game
        stays on its last sentence. */
    method NextSentence(now: int, loggedIn: bool, postOk: bool) returns (report: Option<FinishReport>)
      requires Valid()
      modifies this`started, this`finished, this`currentSentenceIndex, this`typedText
      ensures Valid()
      ensures old(currentSentenceIndex) + 1 < |sentences| ==>
        && currentSentenceIndex == old(currentSentenceIndex) + 1 && typedText == ""
        && report == None && started == old(started) && finished == old(finished)
      ensures old(currentSentenceIndex) + 1 >= |sentences| ==>
        && currentSentenceIndex == old(currentSentenceIndex) && typedText == old(typedText)
        && (report.Some? <==> timer != Unlimited)
        && (timer == Unlimited ==> started == old(started) && finished == old(finished))
      ensures report.Some? ==>
        && report.value.post == ScoreRun(typedText, CurrentSentence(), difficulty, ElapsedMs(startTime, now))
        && AfterFinish(report.value, loggedIn, postOk, old(started))
    {
      report := None;
      var nextIndex := currentSentenceIndex + 1;
      if nextIndex < |sentences| {
        currentSentenceIndex := nextIndex;
        typedText := "";
      } else if timer != Unlimited {
        var r := Finish(now, loggedIn, postOk);
        report := Some(r);
      }
    }

    /** The auto-advance effect: in a running game whose typed text is at
        least as long as the current sentence, go to the next sentence. */
    method AutoAdvance(now: int, loggedIn: bool, postOk: bool) returns (report: Option<FinishReport>)
      requires Valid()
      modifies this`started, this`finished, this`currentSentenceIndex, this`typedText
      ensures Valid()
      ensures !(old(Running()) && |old(typedText)| >= |old(CurrentSentence())|) ==>
        unchanged(this) && report == None
      ensures old(Running()) && |old(typedText)| >= |old(CurrentSentence())| ==>
        if old(currentSentenceIndex) + 1 < |sentences| then
          currentSentenceIndex == old(currentSentenceIndex) + 1 && typedText == "" && report == None && Running()
        else
          currentSentenceIndex == old(currentSentenceIndex) && typedText == old(typedText)
          && (report.Some? <==> timer != Unlimited)
          && (timer == Unlimited ==> Running())
      ensures report.Some? ==>
        && report.value.post == ScoreRun(typedText, CurrentSentence(), difficulty, ElapsedMs(startTime, now))
        && AfterFinish(report.value, loggedIn, postOk, true)
    {
      report := None;
      if !started {
        return;
      }
      var current := CurrentSentence();
      if |typedText| >= |current| && !finished {
        report := NextSentence(now, loggedIn, postOk);
      }
    }
  }

  /** A game in which the player types one sentence perfectly: the typed
      text of a timed game is accepted, the game finishes at the last
      sentence and posts a perfect accuracy. */
  method PerfectSentence(now: int)
  {
    var g := new Session(Some(["abc"]));
    g.Start(now);
    g.Type("abc");
    assert g.CurrentSentence() == "abc";
    CorrectCharsIsMatchCount("abc", "abc");
    assert MatchingPositions("abc", "abc") == {0, 1, 2};
    var r := g.AutoAdvance(now + 1000, true, true);
    assert r.Some? && r.value.post.score == 3 && r.value.post.accuracy == 100;
    assert r.value.post.wpm == 36;
    assert !g.started && !g.finished;
  }
}
