/** The result page: it takes a finished run's speed history, makes it start
    at time 0, fills gaps of more than two seconds with interpolated points,
    derives a consistency score, and sizes the chart's axes. Times are whole
    seconds and speeds whole words per minute. */
module ResultPage {
  import opened Common

  /** One point of the speed history; `isMark` is a rendering hint. */
  datatype Point = Point(time: int, wpm: int, isMark: bool)

  /** The character breakdown as it arrives: the object or any of its
      fields may be missing. */
  datatype RawStats = RawStats(correct: Option<int>, incorrect: Option<int>, extra: Option<int>, missed: Option<int>)

  datatype CharacterStats = CharacterStats(correct: int, incorrect: int, extra: int, missed: int)

  // ---------------------------------------------------------------------
  // Character statistics
  // ---------------------------------------------------------------------

  /** `x || 0` on a number: a missing field (or a zero) reads as 0. */
  function OrZero(x: Option<int>): int {
    if x.Some? && x.value != 0 then x.value else 0
  }

  /** `getCharacterStats`: every count that is missing, or whose whole
      object is missing, reads as 0; a present count is kept. */
  function GetCharacterStats(raw: Option<RawStats>): (s: CharacterStats)
    ensures raw.None? ==> s == CharacterStats(0, 0, 0, 0)
    ensures raw.Some? ==>
      && s.correct == raw.value.correct.GetOr(0)
      && s.incorrect == raw.value.incorrect.GetOr(0)
      && s.extra == raw.value.extra.GetOr(0)
      && s.missed == raw.value.missed.GetOr(0)
  {
    match raw
    case None => CharacterStats(0, 0, 0, 0)
    case Some(r) => CharacterStats(OrZero(r.correct), OrZero(r.incorrect), OrZero(r.extra), OrZero(r.missed))
  }

  // ---------------------------------------------------------------------
  // History: zero start and gap filling
  // ---------------------------------------------------------------------

  /** A `{time 0, wpm 0}` point is put in front of a non-empty history that
      starts after time 0; nothing else changes. */
  function WithZeroStart(history: seq<Point>): (r: seq<Point>)
    ensures history == [] ==> r == []
    ensures |r| == |history| || |r| == |history| + 1
    ensures history == r[|r| - |history|..]
    ensures history != [] ==> r[0].time <= 0
    ensures |r| == |history| + 1 <==> history != [] && history[0].time > 0
    ensures |r| == |history| + 1 ==> r[0] == Point(0, 0, true)
  {
    if |history| > 0 && history[0].time > 0 then [Point(0, 0, true)] + history else history
  }

  /** The point inserted at time t between `current` and `next`:
      `Math.round(cw + (nw - cw) * (t - ct) / gap)`, marked when t is a
      multiple of 5. */
  function Interp(current: Point, next: Point, t: int): Point
    requires current.time < next.time
  {
    var gap := next.time - current.time;
    Point(t, RoundDiv(current.wpm * gap + (next.wpm - current.wpm) * (t - current.time), gap), t % 5 == 0)
  }

  /** Everything inserted between two neighbours more than 2 seconds
      apart: the interpolated points at current + 2, current + 4, ...;
      nothing for neighbours at most 2 seconds apart. */
  function Gap(current: Point, next: Point): seq<Point> {
    var gap := next.time - current.time;
    if gap > 2 then seq((gap - 1) / 2, k => Interp(current, next, current.time + 2 * (k + 1))) else []
  }

  /** The output after i rounds of the outer loop: each of the first i
      points followed by what is inserted after it. */
  function Segments(history: seq<Point>, i: nat): seq<Point>
    requires i == 0 || i < |history|
  {
    if i == 0 then []
    else Segments(history, i - 1) + [history[i - 1]] + Gap(history[i - 1], history[i])
  }

  /** The filled history: every neighbour pair's gap filled, then the last
      point. */
  function Filled(history: seq<Point>): seq<Point> {
    if |history| == 0 then [] else Segments(history, |history| - 1) + [history[|history| - 1]]
  }

  /** The gap-filling loop of the result page. */
  method FillGaps(history: seq<Point>) returns (filled: seq<Point>)
    ensures filled == Filled(history)
  {
    filled := [];
    var i := 0;
    while i < |history| - 1
      invariant 0 <= i && (i == 0 || i < |history|)
      invariant filled == Segments(history, i)
    {
      filled := filled + [history[i]];
      var current := history[i];
      var next := history[i + 1];
      var gap := next.time - current.time;
      if gap > 2 {
        filled := PushGap(filled, current, next);
      }
      i := i + 1;
    }
    if |history| > 0 {
      filled := filled + [history[|history| - 1]];
    }
  }

  /** The inner loop: interpolated points are pushed every 2 seconds from
      current + 2 on, while the time is before `next`. */
  method PushGap(filled: seq<Point>, current: Point, next: Point) returns (out: seq<Point>)
    requires next.time - current.time > 2
    ensures out == filled + Gap(current, next)
  {
    var gap := next.time - current.time;
    ghost var points := Gap(current, next);
    assert |points| == (gap - 1) / 2;
    out := filled;
    var t := current.time + 2;
    while t < next.time
      invariant |filled| <= |out| <= |filled| + |points|
      invariant t == current.time + 2 * (|out| - |filled| + 1)
      invariant out == filled + points[..|out| - |filled|]
      decreases next.time - t
    {
      ghost var m := |out| - |filled|;
      GapCount(gap, m);
      var interpolated := Interp(current, next, t);
      assert points[m] == interpolated;
      assert points[..m + 1] == points[..m] + [interpolated];
      out := out + [interpolated];
      t := t + 2;
    }
    GapCount(gap, |out| - |filled|);
    assert points[..|out| - |filled|] == points;
  }

  /** Between neighbours more than 2 seconds apart the inserted points are
      at current + 2, current + 4, ..., all strictly before `next`, and no
      further such time fits before `next`; otherwise none is inserted. */
  lemma GapShape(current: Point, next: Point)
    ensures next.time - current.time <= 2 ==> Gap(current, next) == []
    ensures forall k :: 0 <= k < |Gap(current, next)| ==>
              && Gap(current, next)[k].time == current.time + 2 * (k + 1)
              && Gap(current, next)[k].time < next.time
    ensures next.time <= current.time + 2 * (|Gap(current, next)| + 1)
  {
  }

  /** An interpolated point lies strictly between its neighbours in time, an
      even number of seconds after the first; its speed lies between their
      speeds; it is marked exactly when its time is a multiple of 5. */
  lemma InterpBetween(current: Point, next: Point, t: int)
    requires current.time < t < next.time
    ensures Interp(current, next, t).time == t
    ensures Min(current.wpm, next.wpm) <= Interp(current, next, t).wpm <= Max(current.wpm, next.wpm)
    ensures Interp(current, next, t).isMark <==> t % 5 == 0
  {
    var gap := next.time - current.time;
    var s := t - current.time;
    var cw, nw := current.wpm, next.wpm;
    var n := cw * gap + (nw - cw) * s;
    var lo, hi := Min(cw, nw), Max(cw, nw);
    WeightedBetween(cw, nw, gap, s, lo, hi);
    RoundDivBetween(n, gap, lo, hi);
  }

  /** cw·gap + (nw − cw)·s, for 0 ≤ s ≤ gap, lies between lo·gap and hi·gap
      when cw and nw lie between lo and hi. */
  lemma WeightedBetween(cw: int, nw: int, gap: int, s: int, lo: int, hi: int)
    requires 0 <= s <= gap && lo <= cw <= hi && lo <= nw <= hi
    ensures lo * gap <= cw * gap + (nw - cw) * s <= hi * gap
  {
    var n := cw * gap + (nw - cw) * s;
    assert n == cw * (gap - s) + nw * s;
    MulMonotone2(lo, cw, gap - s);
    MulMonotone2(lo, nw, s);
    MulMonotone2(cw, hi, gap - s);
    MulMonotone2(nw, hi, s);
    assert lo * gap == lo * (gap - s) + lo * s;
    assert hi * gap == hi * (gap - s) + hi * s;
  }

  lemma MulMonotone2(a: int, b: int, c: int)
    requires a <= b && 0 <= c
    ensures a * c <= b * c
  {
    assert b * c - a * c == (b - a) * c;
  }

  /** Every inserted point: its place in time and its bounded speed. */
  lemma GapPointsBetween(current: Point, next: Point, k: nat)
    requires k < |Gap(current, next)|
    ensures current.time < Gap(current, next)[k].time < next.time
    ensures (Gap(current, next)[k].time - current.time) % 2 == 0
    ensures Min(current.wpm, next.wpm) <= Gap(current, next)[k].wpm <= Max(current.wpm, next.wpm)
    ensures Gap(current, next)[k].isMark <==> Gap(current, next)[k].time % 5 == 0
  {
    GapPointTime(current, next, k);
    GapPointSpeed(current, next, k);
  }

  lemma GapPointTime(current: Point, next: Point, k: nat)
    requires k < |Gap(current, next)|
    ensures current.time < Gap(current, next)[k].time < next.time
    ensures (Gap(current, next)[k].time - current.time) % 2 == 0
    ensures Gap(current, next)[k].isMark <==> Gap(current, next)[k].time % 5 == 0
  {
    var gap := next.time - current.time;
    var t := current.time + 2 * (k + 1);
    assert gap > 2 && |Gap(current, next)| == (gap - 1) / 2;
    GapIndexBound(gap, k);
    assert Gap(current, next)[k] == Interp(current, next, t);
    InterpBetween(current, next, t);
  }

  /** The inner loop inserts a point at offset 2(m + 1) exactly while m is
      below the number of points of the gap. */
  lemma GapCount(gap: int, m: nat)
    requires gap > 2
    ensures 2 * (m + 1) < gap <==> m < (gap - 1) / 2
  {
  }

  /** Index k of a gap of (gap - 1) / 2 points stands for an even offset
      2(k + 1) below the gap. */
  lemma GapIndexBound(gap: int, k: nat)
    requires k < (gap - 1) / 2
    ensures 0 < 2 * (k + 1) < gap && (2 * (k + 1)) % 2 == 0
  {
  }

  lemma GapPointSpeed(current: Point, next: Point, k: nat)
    requires k < |Gap(current, next)|
    ensures Min(current.wpm, next.wpm) <= Gap(current, next)[k].wpm <= Max(current.wpm, next.wpm)
  {
    var gap := next.time - current.time;
    var t := current.time + 2 * (k + 1);
    assert gap > 2 && |Gap(current, next)| == (gap - 1) / 2;
    GapIndexBound(gap, k);
    assert Gap(current, next)[k] == Interp(current, next, t);
    InterpBetween(current, next, t);
  }

  /** Every round's point stays where that round put it: point i sits at
      position |Segments(history, i)| of every later round's output, and
      these positions increase with i, so the order is kept. */
  lemma {:induction false} SegmentsKeep(history: seq<Point>, i: nat, j: nat)
    requires i < j < |history|
    ensures |Segments(history, i)| < |Segments(history, j)|
    ensures Segments(history, j)[|Segments(history, i)|] == history[i]
    decreases j
  {
    var prev := Segments(history, j - 1);
    var rest := [history[j - 1]] + Gap(history[j - 1], history[j]);
    assert Segments(history, j) == prev + rest;
    if i < j - 1 {
      SegmentsKeep(history, i, j - 1);
      IndexInFront(prev, rest, |Segments(history, i)|);
    }
  }

  /** The outer loop only appends: each round's output extends the
      previous round's. */
  lemma SegmentsPrefix(history: seq<Point>, j: nat)
    requires 0 < j < |history|
    ensures Segments(history, j - 1) <= Segments(history, j)
  {
    var prev := Segments(history, j - 1);
    var rest := [history[j - 1]] + Gap(history[j - 1], history[j]);
    assert Segments(history, j) == prev + rest;
    PrefixOfConcat(prev, rest);
  }

  lemma PrefixOfConcat(a: seq<Point>, b: seq<Point>)
    ensures a <= a + b
  {
  }

  lemma IndexInFront(a: seq<Point>, b: seq<Point>, k: nat)
    requires k < |a|
    ensures (a + b)[k] == a[k]
  {
  }

  /** Gap filling keeps every original point: point k of the input sits at
      position |Segments(history, k)| of the output (and by `SegmentsKeep`
      these positions increase with k, so the order is kept). */
  lemma FilledKeepsOriginals(history: seq<Point>, k: nat)
    requires k < |history|
    ensures |Segments(history, k)| < |Filled(history)|
    ensures Filled(history)[|Segments(history, k)|] == history[k]
  {
    var last := |history| - 1;
    var segs := Segments(history, last);
    assert Filled(history) == segs + [history[last]];
    if k < last {
      SegmentsKeep(history, k, last);
      IndexInFront(segs, [history[last]], |Segments(history, k)|);
    }
  }

  /** The filled history starts with the first input point and ends with the
      last. */
  lemma FilledEnds(history: seq<Point>)
    requires history != []
    ensures |Filled(history)| >= |history|
    ensures Filled(history)[0] == history[0]
    ensures Filled(history)[|Filled(history)| - 1] == history[|history| - 1]
  {
    FilledKeepsOriginals(history, 0);
    FilledLength(history, |history| - 1);
  }

  lemma {:induction false} FilledLength(history: seq<Point>, i: nat)
    requires i < |history|
    ensures |Segments(history, i)| >= i
  {
    if i > 0 {
      FilledLength(history, i - 1);
    }
  }

  // ---------------------------------------------------------------------
  // Consistency
  // ---------------------------------------------------------------------

  /** The speeds of the points with a positive speed, in order. */
  function PositiveWpms(history: seq<Point>): (s: seq<int>)
    ensures |s| <= |history|
    ensures forall i :: 0 <= i < |s| ==> s[i] > 0
  {
    if history == [] then []
    else (if history[0].wpm > 0 then [history[0].wpm] else []) + PositiveWpms(history[1..])
  }

  lemma {:induction false} PositiveWpmsAppend(a: seq<Point>, b: seq<Point>)
    ensures PositiveWpms(a + b) == PositiveWpms(a) + PositiveWpms(b)
  {
    if a == [] {
      assert a + b == b;
    } else {
      assert (a + b)[0] == a[0];
      assert (a + b)[1..] == a[1..] + b;
      PositiveWpmsAppend(a[1..], b);
    }
  }

  /** A point whose speed is not positive never enters the samples, and a
      point with a positive speed always does. */
  lemma PositiveWpmsSamples(a: seq<Point>, p: Point, b: seq<Point>)
    ensures p.wpm <= 0 ==> PositiveWpms(a + [p] + b) == PositiveWpms(a + b)
    ensures p.wpm > 0 ==> PositiveWpms(a + [p] + b) == PositiveWpms(a) + [p.wpm] + PositiveWpms(b)
  {
    PositiveWpmsAppend(a + [p], b);
    PositiveWpmsAppend(a, [p]);
    PositiveWpmsSingle(p);
    if p.wpm <= 0 {
      PositiveWpmsAppend(a, b);
      EmptyRight(PositiveWpms(a));
    }
  }

  lemma EmptyRight(s: seq<int>)
    ensures s + [] == s
  {
  }

  lemma PositiveWpmsSingle(p: Point)
    ensures PositiveWpms([p]) == if p.wpm > 0 then [p.wpm] else []
  {
    assert [p][1..] == [];
  }

  /** Sum of positive samples is at least their number. */
  function Sum(s: seq<int>): (r: int)
    ensures (forall i :: 0 <= i < |s| ==> s[i] > 0) ==> r >= |s|
  {
    if s == [] then 0 else s[0] + Sum(s[1..])
  }

  function SquaredDeviations(s: seq<int>, mean: real): (r: real)
    ensures r >= 0.0
  {
    if s == [] then 0.0 else (s[0] as real - mean) * (s[0] as real - mean) + SquaredDeviations(s[1..], mean)
  }

  /** `Math.round` on a real. */
  function RoundReal(x: real): int {
    (x + 0.5).Floor
  }

  /** The consistency score: 0 when no point has a positive speed;
      otherwise 100 minus the coefficient of variation (in percent) of the
      positive speeds, rounded. The square root is a parameter. */
  function Consistency(filled: seq<Point>, sqrt: real -> real): (c: int)
    ensures PositiveWpms(filled) == [] ==> c == 0
  {
    var samples := PositiveWpms(filled);
    if |samples| == 0 then 0
    else
      var mean := Sum(samples) as real / |samples| as real;
      assert mean > 0.0;
      var variance := SquaredDeviations(samples, mean) / |samples| as real;
      RoundReal(100.0 - sqrt(variance) / mean * 100.0)
  }

  /** Consistency is computed from the positive speeds only: removing a
      point whose speed is 0 or less leaves it unchanged. */
  lemma ConsistencyIgnoresNonPositive(a: seq<Point>, p: Point, b: seq<Point>, sqrt: real -> real)
    requires p.wpm <= 0
    ensures Consistency(a + [p] + b, sqrt) == Consistency(a + b, sqrt)
  {
    PositiveWpmsSamples(a, p, b);
  }

  // ---------------------------------------------------------------------
  // Chart axes
  // ---------------------------------------------------------------------

  /** Spacing of the X-axis ticks, from the run's length in seconds. */
  function TickInterval(time: int): (iv: int)
    ensures iv > 0
  {
    if time <= 30 then 1 else if time <= 60 then 2 else if time <= 120 then 5 else 10
  }

  /** The X-axis ticks 0, iv, 2 iv, ...: ceil(time / iv) + 1 of them, so the
      last tick is the first multiple of iv at or past the run's length. */
  function XTicks(time: int): (ticks: seq<int>)
    ensures |ticks| == Max(0, CeilDiv(time, TickInterval(time)) + 1)
    ensures forall i :: 0 <= i < |ticks| ==> ticks[i] == i * TickInterval(time)
    ensures time >= 0 ==> |ticks| > 0 && ticks[0] == 0
    ensures time >= 0 ==> ticks[|ticks| - 1] >= time > ticks[|ticks| - 1] - TickInterval(time)
  {
    var iv := TickInterval(time);
    var n := Max(0, CeilDiv(time, iv) + 1);
    seq(n, i => i * iv)
  }

  /** Largest speed of a non-empty history. */
  function MaxWpm(history: seq<Point>): (m: int)
    requires history != []
    ensures forall i :: 0 <= i < |history| ==> history[i].wpm <= m
    ensures exists i :: 0 <= i < |history| && history[i].wpm == m
  {
    if |history| == 1 then history[0].wpm
    else
      var rest := MaxWpm(history[1..]);
      if history[0].wpm >= rest then history[0].wpm else rest
  }

  /** Upper end of the Y axis: `max(100, ceil(maxWpm / 10) * 10)`, and 100
      for an empty history (`Math.max()` is -Infinity). It is a multiple of
      10, at least 100, at or above every speed, and the smallest such. */
  function YUpper(history: seq<Point>): (top: int)
    ensures top >= 100 && top % 10 == 0
    ensures forall i :: 0 <= i < |history| ==> history[i].wpm <= top
    ensures top == 100 || exists i :: 0 <= i < |history| && top - 10 < history[i].wpm
  {
    if history == [] then 100 else Max(100, CeilDiv(MaxWpm(history), 10) * 10)
  }

  /** Spacing of the dots drawn on the speed line. */
  function DotInterval(time: int): (iv: int)
    ensures iv > 0 && iv % 5 == 0
  {
    if time <= 30 then 5 else if time <= 60 then 10 else if time <= 120 then 15 else 30
  }

  /** Whether the point gets a dot (`payload.time % interval === 0`). */
  predicate HasDot(p: Point, runTime: int) {
    p.time % DotInterval(runTime) == 0
  }

  /** Dots are only ever drawn at multiples of 5 seconds, so every
      interpolated point that gets a dot is a marked one. */
  lemma DottedPointsAreMarked(current: Point, next: Point, t: int, runTime: int)
    requires current.time < t < next.time
    requires HasDot(Interp(current, next, t), runTime)
    ensures Interp(current, next, t).isMark
  {
    InterpBetween(current, next, t);
    MultipleOfFive(t, DotInterval(runTime));
  }

  lemma MultipleOfFive(t: int, iv: int)
    requires iv == 5 || iv == 10 || iv == 15 || iv == 30
    requires t % iv == 0
    ensures t % 5 == 0
  {
    if iv == 10 {
      assert t == 5 * (2 * (t / 10));
    } else if iv == 15 {
      assert t == 5 * (3 * (t / 15));
    } else if iv == 30 {
      assert t == 5 * (6 * (t / 30));
    }
  }
}
