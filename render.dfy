/**
 * The bar chart that src/app.ts draws for a sorting run and updates event by
 * event. renderBars binds one datum {i, v} to every bar, the bar's position
 * and its value, and animateSortingStep edits those data in place. Only the
 * data are modelled: classes, transitions and timing change nothing a later
 * event reads.
 */
module Render {
  import opened Steps
  import opened SortReplay
  import Bubble

  /** The datum of one drawn bar: the position it is drawn at and its value. */
  datatype Bar = Bar(i: int, v: int)

  /** The bars renderBars draws for values s: the k-th bar at position k with value s[k]. */
  function Screen(s: seq<int>): (bars: seq<Bar>)
    ensures |bars| == |s|
  {
    seq(|s|, k requires 0 <= k < |s| => Bar(k, s[k]))
  }

  /**
   * The first bar drawn at position p, the one whose datum a filter on
   * d.i === p hands to datum(); |bars| when no bar is drawn there.
   */
  function Find(bars: seq<Bar>, p: int): (k: nat)
    ensures k <= |bars|
    ensures k < |bars| ==> bars[k].i == p
    ensures forall m :: 0 <= m < k ==> bars[m].i != p
    decreases |bars|
  {
    if bars == [] then 0
    else if bars[0].i == p then 0
    else 1 + Find(bars[1..], p)
  }

  /** Every bar stands at a position of s and is as tall as s says for it. */
  predicate Heights(bars: seq<Bar>, s: seq<int>) {
    forall k :: 0 <= k < |bars| ==> 0 <= bars[k].i < |s| && bars[k].v == s[bars[k].i]
  }

  /** No two bars are drawn at the same position. */
  predicate Apart(bars: seq<Bar>) {
    forall k, m :: 0 <= k < |bars| && 0 <= m < |bars| && k != m ==> bars[k].i != bars[m].i
  }

  /** Every position below n has a bar. */
  predicate Covers(bars: seq<Bar>, n: int) {
    forall p :: 0 <= p < n ==> Find(bars, p) < |bars|
  }

  /**
   * The chart shows the values s: one bar per position, at distinct positions,
   * every position drawn, each bar as tall as s says for its position.
   */
  predicate Shows(bars: seq<Bar>, s: seq<int>) {
    |bars| == |s| && Heights(bars, s) && Apart(bars) && Covers(bars, |s|)
  }

  /** The slot whose old datum slot k holds once slots a and b trade data. */
  function Traded(k: int, a: int, b: int): int {
    if k == a then b else if k == b then a else k
  }

  /** Trading the data of two slots keeps the bars apart and every position covered. */
  lemma TradeKeeps(bars: seq<Bar>, t: seq<Bar>, n: int, a: nat, b: nat)
    requires a < |bars| && b < |bars| && |t| == |bars|
    requires forall k :: 0 <= k < |t| ==> t[k] == bars[Traded(k, a, b)]
    requires Apart(bars) && Covers(bars, n)
    ensures Apart(t) && Covers(t, n)
  {
    forall k, m | 0 <= k < |t| && 0 <= m < |t| && k != m ensures t[k].i != t[m].i {
      assert t[k] == bars[Traded(k, a, b)] && t[m] == bars[Traded(m, a, b)];
    }
    forall p | 0 <= p < n ensures Find(t, p) < |t| {
      var k := Find(bars, p);
      assert t[Traded(k, a, b)].i == p;
    }
  }

  /** Positions kept slot by slot keep every position covered. */
  lemma SamePositions(bars: seq<Bar>, t: seq<Bar>, n: int)
    requires |t| == |bars| && Covers(bars, n)
    requires forall k :: 0 <= k < |t| ==> t[k].i == bars[k].i
    ensures Covers(t, n)
  {
    forall p | 0 <= p < n ensures Find(t, p) < |t| {
      assert t[Find(bars, p)].i == p;
    }
  }

  /** A chart shows one sequence of values only. */
  lemma ShowsUnique(bars: seq<Bar>, s: seq<int>, t: seq<int>)
    requires Shows(bars, s) && Shows(bars, t)
    ensures s == t
  {
    forall p | 0 <= p < |s| ensures s[p] == t[p] {
      var k := Find(bars, p);
      assert bars[k].v == s[p] && bars[k].v == t[p];
    }
  }

  lemma ScreenShows(s: seq<int>)
    ensures Shows(Screen(s), s)
  {
    var bars := Screen(s);
    forall p | 0 <= p < |s| ensures Find(bars, p) < |bars| {
      assert bars[p].i == p;
    }
  }

  /**
   * A swap as animateSortingStep performs it: the data of the bars drawn at i
   * and j exchange their positions and also their values, so the two data
   * trade places whole.
   */
  function DrawnSwap(bars: seq<Bar>, i: int, j: int): (t: seq<Bar>)
    ensures |t| == |bars|
  {
    var k1 := Find(bars, i);
    var k2 := Find(bars, j);
    if k1 < |bars| && k2 < |bars| then bars[k1 := bars[k2]][k2 := bars[k1]] else bars
  }

  /**
   * A swap with only the positions exchanged: each bar keeps its value and
   * moves to the other position.
   */
  function MovedSwap(bars: seq<Bar>, i: int, j: int): (t: seq<Bar>)
    ensures |t| == |bars|
  {
    var k1 := Find(bars, i);
    var k2 := Find(bars, j);
    if k1 < |bars| && k2 < |bars| then
      bars[k1 := Bar(bars[k2].i, bars[k1].v)][k2 := Bar(bars[k1].i, bars[k2].v)]
    else bars
  }

  /** An overwrite: every bar drawn at index takes the value. */
  function DrawnOverwrite(bars: seq<Bar>, index: int, value: int): (t: seq<Bar>)
    ensures |t| == |bars|
  {
    seq(|bars|, k requires 0 <= k < |bars| => if bars[k].i == index then Bar(index, value) else bars[k])
  }

  /** One event applied to the chart's data as the code does it; compare and markSorted only set classes. */
  function Drawn(bars: seq<Bar>, e: SortStep): (t: seq<Bar>)
    ensures |t| == |bars|
  {
    match e
    case Swap(i, j) => DrawnSwap(bars, i, j)
    case Overwrite(k, v) => DrawnOverwrite(bars, k, v)
    case _ => bars
  }

  /** One event applied with the position-only swap. */
  function Moved(bars: seq<Bar>, e: SortStep): (t: seq<Bar>)
    ensures |t| == |bars|
  {
    match e
    case Swap(i, j) => MovedSwap(bars, i, j)
    case Overwrite(k, v) => DrawnOverwrite(bars, k, v)
    case _ => bars
  }

  function DrawnPlay(bars: seq<Bar>, log: seq<SortStep>): (t: seq<Bar>)
    ensures |t| == |bars|
    decreases |log|
  {
    if log == [] then bars else DrawnPlay(Drawn(bars, log[0]), log[1..])
  }

  function MovedPlay(bars: seq<Bar>, log: seq<SortStep>): (t: seq<Bar>)
    ensures |t| == |bars|
    decreases |log|
  {
    if log == [] then bars else MovedPlay(Moved(bars, log[0]), log[1..])
  }

  // ---------------------------------------------------------------------
  // The swap as written leaves every position showing what it showed.

  lemma DrawnSwapKeeps(bars: seq<Bar>, s: seq<int>, i: int, j: int)
    requires Shows(bars, s)
    ensures Shows(DrawnSwap(bars, i, j), s)
  {
    var k1 := Find(bars, i);
    var k2 := Find(bars, j);
    if k1 < |bars| && k2 < |bars| {
      var t := bars[k1 := bars[k2]][k2 := bars[k1]];
      forall k | 0 <= k < |t| ensures t[k] == bars[Traded(k, k1, k2)] {
        if k == k2 {
        } else if k == k1 {
        }
      }
      TradeKeeps(bars, t, |s|, k1, k2);
      forall k | 0 <= k < |t| ensures 0 <= t[k].i < |s| && t[k].v == s[t[k].i] {
        assert t[k] == bars[Traded(k, k1, k2)];
      }
    }
  }

  lemma DrawnKeeps(bars: seq<Bar>, s: seq<int>, e: SortStep)
    requires Shows(bars, s) && !e.Overwrite?
    ensures Shows(Drawn(bars, e), s)
  {
    if e.Swap? {
      DrawnSwapKeeps(bars, s, e.i, e.j);
    }
  }

  /** With the swap as written, a log without overwrites never changes what the chart shows. */
  lemma {:induction false} DrawnPlayKeeps(bars: seq<Bar>, s: seq<int>, log: seq<SortStep>)
    requires Shows(bars, s) && SwapsOnly(log)
    ensures Shows(DrawnPlay(bars, log), s)
    decreases |log|
  {
    if log != [] {
      assert SwapsOnly(log[1..]) by {
        forall k | 0 <= k < |log| - 1 ensures !log[1..][k].Overwrite? {
          assert log[1..][k] == log[k + 1];
        }
      }
      DrawnKeeps(bars, s, log[0]);
      DrawnPlayKeeps(Drawn(bars, log[0]), s, log[1..]);
    }
  }

  /** Whatever the input, the chart still shows it unsorted after the whole bubble log. */
  lemma BubbleOnScreen(s: seq<int>)
    ensures Shows(DrawnPlay(Screen(s), Bubble.BubbleLog(s)), s)
  {
    ScreenShows(s);
    Bubble.BubbleReplay(s);
    Bubble.FaithfulSwapsOnly(s, Bubble.BubbleLog(s));
    DrawnPlayKeeps(Screen(s), s, Bubble.BubbleLog(s));
  }

  /** For [3, 2, 1] the log denotes [1, 2, 3], but the chart is left showing 3, 2, 1. */
  lemma ThreeTwoOneOnScreen()
    ensures Replay([3, 2, 1], Bubble.BubbleLog([3, 2, 1])) == [1, 2, 3]
    ensures Shows(DrawnPlay(Screen([3, 2, 1]), Bubble.BubbleLog([3, 2, 1])), [3, 2, 1])
    ensures !Shows(DrawnPlay(Screen([3, 2, 1]), Bubble.BubbleLog([3, 2, 1])), [1, 2, 3])
  {
    Bubble.ThreeTwoOne();
    Bubble.BubbleReplay([3, 2, 1]);
    BubbleOnScreen([3, 2, 1]);
    var bars := DrawnPlay(Screen([3, 2, 1]), Bubble.BubbleLog([3, 2, 1]));
    if Shows(bars, [1, 2, 3]) {
      ShowsUnique(bars, [3, 2, 1], [1, 2, 3]);
    }
  }

  // ---------------------------------------------------------------------
  // With positions exchanged only, the chart follows the replayed values.

  lemma MovedSwapShows(bars: seq<Bar>, s: seq<int>, i: int, j: int)
    requires Shows(bars, s) && 0 <= i < |s| && 0 <= j < |s|
    ensures Shows(MovedSwap(bars, i, j), Exchange(s, i, j))
  {
    var k1 := Find(bars, i);
    var k2 := Find(bars, j);
    var t := MovedSwap(bars, i, j);
    if k1 == k2 {
      assert t == bars;
    } else {
      MovedSwapApart(bars, s, i, j);
      MovedSwapHeights(bars, s, i, j);
      assert forall k :: 0 <= k < |t| ==> t[k].i == bars[Traded(k, k1, k2)].i;
      var traded := seq(|bars|, k requires 0 <= k < |bars| => bars[Traded(k, k1, k2)]);
      TradeKeeps(bars, traded, |s|, k1, k2);
      SamePositions(traded, t, |s|);
    }
  }

  lemma MovedSwapApart(bars: seq<Bar>, s: seq<int>, i: int, j: int)
    requires Shows(bars, s) && 0 <= i < |s| && 0 <= j < |s| && Find(bars, i) != Find(bars, j)
    ensures Apart(MovedSwap(bars, i, j))
  {
    var k1 := Find(bars, i);
    var k2 := Find(bars, j);
    var t := MovedSwap(bars, i, j);
    assert forall k :: 0 <= k < |t| ==> t[k].i == bars[Traded(k, k1, k2)].i;
    forall k, m | 0 <= k < |t| && 0 <= m < |t| && k != m ensures t[k].i != t[m].i {
      assert bars[Traded(k, k1, k2)].i != bars[Traded(m, k1, k2)].i;
    }
  }

  lemma MovedSwapHeights(bars: seq<Bar>, s: seq<int>, i: int, j: int)
    requires Shows(bars, s) && 0 <= i < |s| && 0 <= j < |s| && Find(bars, i) != Find(bars, j)
    ensures Heights(MovedSwap(bars, i, j), Exchange(s, i, j))
  {
    var k1 := Find(bars, i);
    var k2 := Find(bars, j);
    var t := MovedSwap(bars, i, j);
    var u := Exchange(s, i, j);
    assert t[k1] == Bar(j, s[i]) && t[k2] == Bar(i, s[j]);
    forall k | 0 <= k < |t| ensures 0 <= t[k].i < |u| && t[k].v == u[t[k].i] {
      if k != k1 && k != k2 {
        assert t[k] == bars[k] && bars[k].i != i && bars[k].i != j;
      }
    }
  }

  lemma OverwriteShows(bars: seq<Bar>, s: seq<int>, index: int, value: int)
    requires Shows(bars, s)
    ensures Shows(DrawnOverwrite(bars, index, value), Apply(s, Overwrite(index, value)))
  {
    var t := DrawnOverwrite(bars, index, value);
    SamePositions(bars, t, |s|);
  }

  /** With the position-only swap, every event changes the chart exactly as it changes the values. */
  lemma MovedShows(bars: seq<Bar>, s: seq<int>, e: SortStep)
    requires Shows(bars, s)
    ensures Shows(Moved(bars, e), Apply(s, e))
  {
    match e
    case Swap(i, j) =>
      if 0 <= i < |s| && 0 <= j < |s| {
        MovedSwapShows(bars, s, i, j);
      } else {
        assert Find(bars, i) == |bars| || Find(bars, j) == |bars|;
      }
    case Overwrite(k, v) => OverwriteShows(bars, s, k, v);
    case _ =>
  }

  /** With the position-only swap, the chart after any log shows the values the log denotes. */
  lemma {:induction false} MovedPlayShows(bars: seq<Bar>, s: seq<int>, log: seq<SortStep>)
    requires Shows(bars, s)
    ensures Shows(MovedPlay(bars, log), Replay(s, log))
    decreases |log|
  {
    if log != [] {
      MovedShows(bars, s, log[0]);
      MovedPlayShows(Moved(bars, log[0]), Apply(s, log[0]), log[1..]);
    }
  }

  /** With the position-only swap, the bubble log leaves the chart showing the input sorted. */
  lemma MovedBubbleSorts(s: seq<int>)
    ensures Shows(MovedPlay(Screen(s), Bubble.BubbleLog(s)), Replay(s, Bubble.BubbleLog(s)))
    ensures Sorted(Replay(s, Bubble.BubbleLog(s))) && multiset(Replay(s, Bubble.BubbleLog(s))) == multiset(s)
  {
    ScreenShows(s);
    MovedPlayShows(Screen(s), s, Bubble.BubbleLog(s));
    Bubble.BubbleSorts(s);
  }

  /** Overwrites are drawn as written: a log without swaps leaves the chart showing the values it denotes. */
  lemma {:induction false} OverwritesShown(bars: seq<Bar>, s: seq<int>, log: seq<SortStep>)
    requires Shows(bars, s) && forall k :: 0 <= k < |log| ==> !log[k].Swap?
    ensures Shows(DrawnPlay(bars, log), Replay(s, log))
    decreases |log|
  {
    if log != [] {
      assert Drawn(bars, log[0]) == Moved(bars, log[0]);
      MovedShows(bars, s, log[0]);
      assert forall k :: 0 <= k < |log| - 1 ==> !log[1..][k].Swap? by {
        forall k | 0 <= k < |log| - 1 ensures !log[1..][k].Swap? {
          assert log[1..][k] == log[k + 1];
        }
      }
      OverwritesShown(Drawn(bars, log[0]), Apply(s, log[0]), log[1..]);
    }
  }
}
