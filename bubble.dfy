/**
 * generateStepsBubble: the early-exit bubble sort over a copy of the input,
 * logging compare, swap and markSorted events.
 */
module Bubble {
  import opened Steps
  import opened SortReplay

  /** What the generator has built so far: the working copy, the log and the swapped flag. */
  datatype Run = Run(a: seq<int>, log: seq<SortStep>, swapped: bool)

  /** One iteration of the inner loop at i: compare a[i] with a[i + 1], swap when strictly greater. */
  function Step(r: Run, i: nat): (r': Run)
    requires i + 1 < |r.a|
    ensures |r'.a| == |r.a|
  {
    if r.a[i] > r.a[i + 1] then
      Run(Exchange(r.a, i, i + 1), r.log + [Compare(i, i + 1), Swap(i, i + 1)], true)
    else
      Run(r.a, r.log + [Compare(i, i + 1)], r.swapped)
  }

  /** The inner loop from i up to (not including) last. */
  function Sweep(r: Run, i: nat, last: nat): (r': Run)
    requires i <= last < |r.a|
    ensures |r'.a| == |r.a|
    decreases last - i
  {
    if i < last then Sweep(Step(r, i), i + 1, last) else r
  }

  /** One pass: clear the flag, sweep the unsorted prefix, then mark its last index. */
  function Pass(r: Run, p: nat): (r': Run)
    requires p + 1 < |r.a|
    ensures |r'.a| == |r.a|
  {
    var last := |r.a| - 1 - p;
    var r1 := Sweep(Run(r.a, r.log, false), 0, last);
    Run(r1.a, r1.log + [MarkSorted(last)], r1.swapped)
  }

  /** The run after the first q passes, started with an empty log and swapped set. */
  function Nth(s: seq<int>, q: nat): (r: Run)
    requires q == 0 || q < |s|
    ensures |r.a| == |s|
  {
    if q == 0 then Run(s, [], true) else Pass(Nth(s, q - 1), q - 1)
  }

  /** The pass index at which the outer loop, standing at pass q, stops. */
  function Stop(s: seq<int>, q: nat): (p: nat)
    requires q == 0 || q < |s|
    ensures q <= p && (p == 0 || p < |s|)
    decreases |s| - q
  {
    if q + 1 < |s| && Nth(s, q).swapped then Stop(s, q + 1) else q
  }

  /** The number of passes the outer loop executes on s. */
  function PassCount(s: seq<int>): (p: nat)
    ensures p == 0 || p < |s|
  {
    Stop(s, 0)
  }

  /** The run when the outer loop stops. */
  function Final(s: seq<int>): (r: Run)
    ensures |r.a| == |s|
  {
    Nth(s, PassCount(s))
  }

  /** The log generateStepsBubble returns for s: the passes, then the closing markSorted(0). */
  function BubbleLog(s: seq<int>): seq<SortStep> {
    Final(s).log + [MarkSorted(0)]
  }

  /** The generator. arr is only read: the sort works on a fresh copy. */
  method GenerateStepsBubble(arr: array<int>) returns (steps: seq<SortStep>)
    ensures steps == BubbleLog(arr[..])
  {
    ghost var s := arr[..];
    var a := Slice(arr);
    var n := a.Length;
    steps := [];
    var swapped := true;
    var pass := 0;
    while pass + 1 < n && swapped
      invariant a.Length == n && (pass == 0 || pass < n)
      invariant Run(a[..], steps, swapped) == Nth(s, pass)
      invariant Stop(s, pass) == PassCount(s)
      decreases n - pass
    {
      ghost var start := Run(a[..], steps, swapped);
      var last := n - 1 - pass;
      steps, swapped := SweepPass(a, last, steps);
      steps := steps + [MarkSorted(last)];
      assert Run(a[..], steps, swapped) == Pass(start, pass);
      pass := pass + 1;
    }
    steps := steps + [MarkSorted(0)];
  }

  /** The inner loop of one pass, on the working copy, with the flag cleared first. */
  method SweepPass(a: array<int>, last: nat, log: seq<SortStep>) returns (steps: seq<SortStep>, swapped: bool)
    requires last < a.Length
    modifies a
    ensures Run(a[..], steps, swapped) == Sweep(Run(old(a[..]), log, false), 0, last)
  {
    steps := log;
    swapped := false;
    var i := 0;
    while i < last
      invariant i <= last
      invariant Sweep(Run(a[..], steps, swapped), i, last) == Sweep(Run(old(a[..]), log, false), 0, last)
      decreases last - i
    {
      ghost var r := Run(a[..], steps, swapped);
      var j := i + 1;
      steps := steps + [Compare(i, j)];
      if a[i] > a[j] {
        a[i], a[j] := a[j], a[i];
        assert a[..] == Exchange(r.a, i, j);
        steps := steps + [Swap(i, j)];
        swapped := true;
      }
      assert Run(a[..], steps, swapped) == Step(r, i);
      i := i + 1;
    }
  }

  // ---------------------------------------------------------------------
  // Playback: the log is faithful to the values it is played on.

  /**
   * The bubble protocol, checked against the values as they are played back:
   * every compare is of neighbours (i, i + 1) in range; it is followed by
   * swap(i, i + 1) exactly when a[i] > a[i + 1]; no swap appears anywhere
   * else, and no overwrite appears at all.
   */
  predicate Faithful(a: seq<int>, log: seq<SortStep>)
    decreases |log|
  {
    if log == [] then true
    else match log[0]
      case Compare(i, j) =>
        0 <= i && j == i + 1 && j < |a| &&
        if a[i] > a[j] then |log| >= 2 && log[1] == Swap(i, j) && Faithful(Exchange(a, i, j), log[2..])
        else Faithful(a, log[1..])
      case MarkSorted(_) => Faithful(a, log[1..])
      case _ => false
  }

  lemma {:induction false} FaithfulAppend(a: seq<int>, l1: seq<SortStep>, l2: seq<SortStep>)
    requires Faithful(a, l1) && Faithful(Replay(a, l1), l2)
    ensures Faithful(a, l1 + l2)
    decreases |l1|, 1
  {
    if l1 == [] {
      assert l1 + l2 == l2;
    } else if l1[0].Compare? && a[l1[0].i] > a[l1[0].j] {
      FaithfulAppendSwap(a, l1, l2);
    } else {
      FaithfulAppendSkip(a, l1, l2);
    }
  }

  /** FaithfulAppend when l1 starts with a compare that swaps. */
  lemma {:induction false} FaithfulAppendSwap(a: seq<int>, l1: seq<SortStep>, l2: seq<SortStep>)
    requires Faithful(a, l1) && Faithful(Replay(a, l1), l2)
    requires l1 != [] && l1[0].Compare? && 0 <= l1[0].i < |a| && 0 <= l1[0].j < |a|
    requires a[l1[0].i] > a[l1[0].j]
    ensures Faithful(a, l1 + l2)
    decreases |l1|, 0
  {
    var i, j := l1[0].i, l1[0].j;
    var l := l1 + l2;
    assert l[0] == l1[0] && l[1] == l1[1] && l[2..] == l1[2..] + l2;
    assert Replay(a, l1) == Replay(Exchange(a, i, j), l1[2..]) by {
      assert l1[1..][0] == l1[1] && l1[1..][1..] == l1[2..];
    }
    FaithfulAppend(Exchange(a, i, j), l1[2..], l2);
  }

  /** FaithfulAppend when the first event of l1 leaves the values alone. */
  lemma {:induction false} FaithfulAppendSkip(a: seq<int>, l1: seq<SortStep>, l2: seq<SortStep>)
    requires Faithful(a, l1) && Faithful(Replay(a, l1), l2) && l1 != []
    requires !(l1[0].Compare? && 0 <= l1[0].i < |a| && 0 <= l1[0].j < |a| && a[l1[0].i] > a[l1[0].j])
    ensures Faithful(a, l1 + l2)
    decreases |l1|, 0
  {
    var l := l1 + l2;
    assert l[0] == l1[0] && l[1..] == l1[1..] + l2;
    FaithfulAppend(a, l1[1..], l2);
  }

  /** A faithful log holds no overwrite. */
  lemma {:induction false} FaithfulSwapsOnly(a: seq<int>, log: seq<SortStep>)
    requires Faithful(a, log)
    ensures SwapsOnly(log)
    decreases |log|
  {
    if log != [] {
      var rest := if log[0].Compare? && a[log[0].i] > a[log[0].j] then log[2..] else log[1..];
      var b := if log[0].Compare? && a[log[0].i] > a[log[0].j] then Exchange(a, log[0].i, log[0].j) else a;
      FaithfulSwapsOnly(b, rest);
      forall k | 0 <= k < |log| ensures !log[k].Overwrite? {
        if k >= |log| - |rest| {
          assert log[k] == rest[k - (|log| - |rest|)];
        }
      }
    }
  }

  /** What every run built from s satisfies: its log is faithful and replays to its values. */
  ghost predicate Tracks(s: seq<int>, r: Run) {
    Faithful(s, r.log) && Replay(s, r.log) == r.a
  }

  /** Extending a run by a chunk that is faithful to its values and replays to the new values. */
  lemma Extend(s: seq<int>, r: Run, chunk: seq<SortStep>, r': Run)
    requires Tracks(s, r)
    requires r'.log == r.log + chunk && Faithful(r.a, chunk) && Replay(r.a, chunk) == r'.a
    ensures Tracks(s, r')
  {
    ReplayAppend(s, r.log, chunk);
    FaithfulAppend(s, r.log, chunk);
  }

  lemma StepTracks(s: seq<int>, r: Run, i: nat)
    requires Tracks(s, r) && i + 1 < |r.a|
    ensures Tracks(s, Step(r, i))
  {
    var r' := Step(r, i);
    if r.a[i] > r.a[i + 1] {
      var chunk := [Compare(i, i + 1), Swap(i, i + 1)];
      assert chunk[1..] == [Swap(i, i + 1)] && chunk[2..] == [];
      assert Replay(r.a, chunk) == r'.a by {
        assert chunk[1..][1..] == [];
        assert Replay(r.a, chunk) == Replay(r.a, chunk[1..]);
        assert Replay(r.a, chunk[1..]) == Replay(Exchange(r.a, i, i + 1), []);
      }
      Extend(s, r, chunk, r');
    } else {
      var chunk := [Compare(i, i + 1)];
      assert chunk[1..] == [];
      Extend(s, r, chunk, r');
    }
  }

  lemma {:induction false} SweepTracks(s: seq<int>, r: Run, i: nat, last: nat)
    requires Tracks(s, r) && i <= last < |r.a|
    ensures Tracks(s, Sweep(r, i, last))
    decreases last - i
  {
    if i < last {
      var r1 := Step(r, i);
      StepTracks(s, r, i);
      SweepTracks(s, r1, i + 1, last);
      assert Sweep(r, i, last) == Sweep(r1, i + 1, last);
    }
  }

  lemma {:induction false} NthTracks(s: seq<int>, q: nat)
    requires q == 0 || q < |s|
    ensures Tracks(s, Nth(s, q))
  {
    if q > 0 {
      var r := Nth(s, q - 1);
      NthTracks(s, q - 1);
      var last := |s| - 1 - (q - 1);
      var r0 := Run(r.a, r.log, false);
      SweepTracks(s, r0, 0, last);
      var r1 := Sweep(r0, 0, last);
      assert [MarkSorted(last)][1..] == [];
      Extend(s, r1, [MarkSorted(last)], Nth(s, q));
    }
  }

  /**
   * Playing the whole log on the input reproduces the generator's final
   * values, which are a permutation of the input, and the log follows the
   * bubble protocol throughout.
   */
  lemma BubbleReplay(s: seq<int>)
    ensures Replay(s, BubbleLog(s)) == Final(s).a
    ensures multiset(Final(s).a) == multiset(s)
    ensures Faithful(s, BubbleLog(s))
  {
    NthTracks(s, PassCount(s));
    assert [MarkSorted(0)][1..] == [];
    Extend(s, Final(s), [MarkSorted(0)], Run(Final(s).a, BubbleLog(s), Final(s).swapped));
    FaithfulSwapsOnly(s, BubbleLog(s));
    ReplaySwapsPermutes(s, BubbleLog(s));
  }

  // ---------------------------------------------------------------------
  // Order: what each pass settles.

  /** The positions from k on are in ascending order. */
  predicate SortedFrom(a: seq<int>, k: nat) {
    forall x, y :: k <= x < y < |a| ==> a[x] <= a[y]
  }

  /** No value before position k exceeds a value from k on. */
  predicate Dominates(a: seq<int>, k: nat) {
    forall x, y :: 0 <= x < k <= y < |a| ==> a[x] <= a[y]
  }

  /** The positions up to and including k are in ascending order. */
  predicate SortedTo(a: seq<int>, k: nat) {
    forall x, y :: 0 <= x < y <= k && y < |a| ==> a[x] <= a[y]
  }

  /** The value at k is the largest of those up to k. */
  predicate MaxAt(a: seq<int>, k: nat)
    requires k < |a|
  {
    forall x :: 0 <= x <= k ==> a[x] <= a[k]
  }

  lemma StepOrders(r: Run, i: nat, last: nat)
    requires i < last < |r.a|
    requires MaxAt(r.a, i) && Dominates(r.a, last + 1)
    requires !r.swapped ==> SortedTo(r.a, i)
    ensures var r' := Step(r, i);
      MaxAt(r'.a, i + 1) && Dominates(r'.a, last + 1) &&
      (forall k :: last < k < |r.a| ==> r'.a[k] == r.a[k]) &&
      (r.swapped ==> r'.swapped) &&
      (!r'.swapped ==> SortedTo(r'.a, i + 1) && r'.a == r.a)
  {
    var r' := Step(r, i);
    if r.a[i] > r.a[i + 1] {
      assert Dominates(r'.a, last + 1) by {
        forall x, y | 0 <= x < last + 1 <= y < |r.a| ensures r'.a[x] <= r'.a[y] {
          assert r'.a[y] == r.a[y];
          assert r'.a[x] == r.a[x] || r'.a[x] == r.a[i] || r'.a[x] == r.a[i + 1];
        }
      }
    }
  }

  lemma {:induction false} SweepOrders(r: Run, i: nat, last: nat)
    requires i <= last < |r.a|
    requires MaxAt(r.a, i) && Dominates(r.a, last + 1)
    requires !r.swapped ==> SortedTo(r.a, i)
    ensures var r' := Sweep(r, i, last);
      MaxAt(r'.a, last) && Dominates(r'.a, last + 1) &&
      (forall k :: last < k < |r.a| ==> r'.a[k] == r.a[k]) &&
      (r.swapped ==> r'.swapped) &&
      (!r'.swapped ==> SortedTo(r'.a, last) && r'.a == r.a)
    decreases last - i
  {
    if i < last {
      StepOrders(r, i, last);
      SweepOrders(Step(r, i), i + 1, last);
    }
  }

  /** A pass over the unsorted prefix 0..last moves its largest value to last. */
  lemma PassOrders(r: Run, q: nat)
    requires q + 1 < |r.a|
    requires SortedFrom(r.a, |r.a| - q) && Dominates(r.a, |r.a| - q)
    ensures var r' := Pass(r, q);
      SortedFrom(r'.a, |r.a| - 1 - q) && Dominates(r'.a, |r.a| - 1 - q) &&
      (forall k :: |r.a| - q <= k < |r.a| ==> r'.a[k] == r.a[k]) &&
      (!r'.swapped ==> Sorted(r'.a))
  {
    var last := |r.a| - 1 - q;
    var r0 := Run(r.a, r.log, false);
    SweepOrders(r0, 0, last);
    var r' := Pass(r, q);
    assert r'.a == Sweep(r0, 0, last).a;
  }

  /** After q passes the last q positions are sorted and hold the q largest values. */
  lemma {:induction false} NthOrders(s: seq<int>, q: nat)
    requires q == 0 || q < |s|
    ensures SortedFrom(Nth(s, q).a, |s| - q) && Dominates(Nth(s, q).a, |s| - q)
    ensures q > 0 && !Nth(s, q).swapped ==> Sorted(Nth(s, q).a)
  {
    if q > 0 {
      NthOrders(s, q - 1);
      PassOrders(Nth(s, q - 1), q - 1);
    }
  }

  /** The outer loop stops at the last possible pass or after a pass without a swap. */
  lemma {:induction false} StopReason(s: seq<int>, q: nat)
    requires q == 0 || q < |s|
    ensures Stop(s, q) + 1 >= |s| || (Stop(s, q) > 0 && !Nth(s, Stop(s, q)).swapped)
    decreases |s| - q
  {
    if q + 1 < |s| && Nth(s, q).swapped {
      StopReason(s, q + 1);
    }
  }

  /** The final values are sorted. */
  lemma FinalSorted(s: seq<int>)
    ensures Sorted(Final(s).a)
  {
    StopReason(s, 0);
    var p := PassCount(s);
    NthOrders(s, p);
    var a := Final(s).a;
    if p == 0 || Nth(s, p).swapped {
      assert |s| - p <= 1;
      forall x, y | 0 <= x < y < |a| ensures a[x] <= a[y] {
        if x < |s| - p {
          assert |s| - p <= y;
        }
      }
    }
  }

  /** Playing back the log sorts the input: the result is sorted and a permutation of it. */
  lemma BubbleSorts(s: seq<int>)
    ensures Sorted(Replay(s, BubbleLog(s)))
    ensures multiset(Replay(s, BubbleLog(s))) == multiset(s)
  {
    BubbleReplay(s);
    FinalSorted(s);
  }

  // ---------------------------------------------------------------------
  // Shape of the log: which pairs are compared, which indices are marked.

  /** The neighbour pairs (i, i + 1), ..., (last - 1, last) one sweep compares. */
  function Rungs(i: nat, last: nat): seq<(int, int)>
    decreases last - i
  {
    if i < last then [(i, i + 1)] + Rungs(i + 1, last) else []
  }

  /** The pairs the first q passes over n values compare: pass p sweeps up to n - 1 - p. */
  function Ladders(n: nat, q: nat): seq<(int, int)>
    requires q == 0 || q < n
  {
    if q == 0 then [] else Ladders(n, q - 1) + Rungs(0, n - q)
  }

  /** The q indices top, top - 1, ..., top - q + 1. */
  function Countdown(top: int, q: nat): (c: seq<int>)
    ensures |c| == q
  {
    if q == 0 then [] else Countdown(top, q - 1) + [top - (q - 1)]
  }

  /** One inner step appends a compare of (i, i + 1), possibly a swap, and no markSorted. */
  lemma StepLog(r: Run, i: nat)
    requires i + 1 < |r.a|
    ensures var c := Step(r, i).log[|r.log|..];
      Step(r, i).log == r.log + c && ComparePairs(c) == [(i, i + 1)] && MarkIndices(c) == []
  {
    var c := Step(r, i).log[|r.log|..];
    if r.a[i] > r.a[i + 1] {
      assert c == [Compare(i, i + 1), Swap(i, i + 1)];
      assert c[1..] == [Swap(i, i + 1)] && c[1..][1..] == [];
    } else {
      assert c == [Compare(i, i + 1)];
      assert c[1..] == [];
    }
  }

  /** A sweep only appends to the log. */
  lemma {:induction false} SweepExtends(r: Run, i: nat, last: nat)
    requires i <= last < |r.a|
    ensures |r.log| <= |Sweep(r, i, last).log| && Sweep(r, i, last).log[..|r.log|] == r.log
    decreases last - i
  {
    if i < last {
      var r1 := Step(r, i);
      StepLog(r, i);
      SweepExtends(r1, i + 1, last);
      var l := Sweep(r1, i + 1, last).log;
      assert l[..|r.log|] == l[..|r1.log|][..|r.log|];
    }
  }

  /** A sweep from i to last compares the pairs Rungs(i, last) and marks nothing. */
  lemma {:induction false} SweepPairs(r: Run, i: nat, last: nat)
    requires i <= last < |r.a|
    ensures ComparePairs(Sweep(r, i, last).log) == ComparePairs(r.log) + Rungs(i, last)
    ensures MarkIndices(Sweep(r, i, last).log) == MarkIndices(r.log)
    decreases last - i
  {
    if i < last {
      var r1 := Step(r, i);
      StepLog(r, i);
      ComparePairsAppend(r.log, r1.log[|r.log|..]);
      MarkIndicesAppend(r.log, r1.log[|r.log|..]);
      SweepPairs(r1, i + 1, last);
      assert Rungs(i, last) == [(i, i + 1)] + Rungs(i + 1, last);
    }
  }

  /** The log after q passes: the pairs compared and the indices marked so far. */
  lemma {:induction false} NthLog(s: seq<int>, q: nat)
    requires q == 0 || q < |s|
    ensures ComparePairs(Nth(s, q).log) == Ladders(|s|, q)
    ensures MarkIndices(Nth(s, q).log) == Countdown(|s| - 1, q)
    ensures q > 0 ==> Nth(s, q).log[|Nth(s, q).log| - 1] == MarkSorted(|s| - q)
  {
    if q > 0 {
      NthLog(s, q - 1);
      var r := Nth(s, q - 1);
      var last := |s| - 1 - (q - 1);
      var r0 := Run(r.a, r.log, false);
      SweepPairs(r0, 0, last);
      var l1 := Sweep(r0, 0, last).log;
      var l := Nth(s, q).log;
      assert l == l1 + [MarkSorted(last)];
      assert [MarkSorted(last)][1..] == [];
      assert ComparePairs([MarkSorted(last)]) == [];
      assert MarkIndices([MarkSorted(last)]) == [last];
      ComparePairsAppend(l1, [MarkSorted(last)]);
      MarkIndicesAppend(l1, [MarkSorted(last)]);
      assert ComparePairs(l) == Ladders(|s|, q - 1) + Rungs(0, last);
      assert MarkIndices(l) == Countdown(|s| - 1, q - 1) + [last];
    }
  }

  /** A later pass only extends the log. */
  lemma {:induction false} NthExtends(s: seq<int>, q: nat, q': nat)
    requires q <= q' && (q' == 0 || q' < |s|)
    ensures |Nth(s, q).log| <= |Nth(s, q').log| && Nth(s, q').log[..|Nth(s, q).log|] == Nth(s, q).log
  {
    if q < q' {
      NthExtends(s, q, q' - 1);
      var r := Nth(s, q' - 1);
      var r0 := Run(r.a, r.log, false);
      var last := |s| - 1 - (q' - 1);
      SweepExtends(r0, 0, last);
      var l := Nth(s, q').log;
      assert l == Sweep(r0, 0, last).log + [MarkSorted(last)];
      assert l[..|r.log|] == Sweep(r0, 0, last).log[..|r.log|];
      assert l[..|Nth(s, q).log|] == l[..|r.log|][..|Nth(s, q).log|];
    }
  }

  /** A later pass leaves alone the positions an earlier pass settled. */
  lemma {:induction false} NthKeeps(s: seq<int>, q: nat, q': nat)
    requires q <= q' && (q' == 0 || q' < |s|)
    ensures forall k :: |s| - q <= k < |s| ==> Nth(s, q').a[k] == Nth(s, q).a[k]
  {
    if q < q' {
      NthKeeps(s, q, q' - 1);
      NthOrders(s, q' - 1);
      PassOrders(Nth(s, q' - 1), q' - 1);
    }
  }

  /** Every pass before the one the loop stops after performed a swap. */
  lemma {:induction false} StopSwaps(s: seq<int>, q: nat)
    requires q == 0 || q < |s|
    ensures forall k :: q <= k < Stop(s, q) ==> k < |s| && Nth(s, k).swapped
    decreases |s| - q
  {
    if q + 1 < |s| && Nth(s, q).swapped {
      StopSwaps(s, q + 1);
      assert Stop(s, q) == Stop(s, q + 1);
      forall k | q <= k < Stop(s, q) ensures k < |s| && Nth(s, k).swapped {
        if k > q {
          assert q + 1 <= k < Stop(s, q + 1);
        }
      }
    } else {
      assert Stop(s, q) == q;
    }
  }

  /**
   * The outer loop runs no pass on fewer than two values, otherwise between
   * one and n - 1 passes; every pass but the last swapped, and when it stops
   * before n - 1 passes the last pass did not swap.
   */
  lemma PassCountBounds(s: seq<int>)
    ensures |s| <= 1 ==> PassCount(s) == 0
    ensures |s| >= 2 ==> 1 <= PassCount(s) <= |s| - 1
    ensures forall q :: 1 <= q < PassCount(s) ==> q < |s| && Nth(s, q).swapped
    ensures 0 < PassCount(s) && PassCount(s) + 1 < |s| ==> !Nth(s, PassCount(s)).swapped
  {
    StopSwaps(s, 0);
    StopReason(s, 0);
  }

  /**
   * The compares are exactly the neighbour pairs of each pass's unsorted
   * prefix, and the markSorted indices are n - 1, n - 2, ... one per pass,
   * then 0.
   */
  lemma BubbleShape(s: seq<int>)
    ensures ComparePairs(BubbleLog(s)) == Ladders(|s|, PassCount(s))
    ensures MarkIndices(BubbleLog(s)) == Countdown(|s| - 1, PassCount(s)) + [0]
  {
    NthLog(s, PassCount(s));
    ComparePairsTail(Final(s).log, MarkSorted(0));
    FinalMark(Final(s).log);
  }

  lemma FinalMark(log: seq<SortStep>)
    ensures MarkIndices(log + [MarkSorted(0)]) == MarkIndices(log) + [0]
  {
    assert [MarkSorted(0)][1..] == [];
    MarkIndicesAppend(log, [MarkSorted(0)]);
  }

  lemma {:induction false} CountdownMembers(top: int, q: nat, k: int)
    ensures k in Countdown(top, q) <==> top - q < k <= top
  {
    if q > 0 {
      CountdownMembers(top, q - 1, k);
    }
  }

  lemma {:induction false} CountdownDistinct(top: int, q: nat)
    ensures forall x, y :: 0 <= x < y < q ==> Countdown(top, q)[x] > Countdown(top, q)[y]
    ensures forall x :: 0 <= x < q ==> Countdown(top, q)[x] == top - x
  {
    if q > 0 {
      CountdownDistinct(top, q - 1);
    }
  }

  /**
   * The markSorted indices are pairwise distinct; 0 always appears, and the
   * others are exactly n - p, ..., n - 1 for the p passes executed, so after an
   * early exit 1 .. n - 1 - p are never marked.
   */
  lemma BubbleMarks(s: seq<int>)
    ensures var m := MarkIndices(BubbleLog(s));
      (forall x, y :: 0 <= x < y < |m| ==> m[x] != m[y]) &&
      (forall k :: k in m <==> k == 0 || |s| - PassCount(s) <= k < |s|)
  {
    BubbleShape(s);
    PassCountBounds(s);
    var p := PassCount(s);
    var m := MarkIndices(BubbleLog(s));
    CountdownDistinct(|s| - 1, p);
    forall k ensures k in m <==> k == 0 || |s| - p <= k < |s| {
      CountdownMembers(|s| - 1, p, k);
    }
  }

  /**
   * At each markSorted(n - q) of pass q, the log so far replays to values
   * whose positions n - q .. n - 1 already hold the final, sorted values.
   */
  lemma MarkSettles(s: seq<int>, q: nat)
    requires 1 <= q <= PassCount(s)
    ensures var l := Nth(s, q).log;
      |l| <= |BubbleLog(s)| && BubbleLog(s)[..|l|] == l && l[|l| - 1] == MarkSorted(|s| - q) &&
      (forall k :: |s| - q <= k < |s| ==> Replay(s, l)[k] == Final(s).a[k])
  {
    var p := PassCount(s);
    NthExtends(s, q, p);
    NthKeeps(s, q, p);
    NthLog(s, q);
    NthTracks(s, q);
    var l := Nth(s, q).log;
    assert BubbleLog(s)[..|l|] == Final(s).log[..|l|];
  }

  // ---------------------------------------------------------------------
  // Small inputs.

  /** Fewer than two values run no pass, so the log is the closing markSorted(0) alone, out of range for []. */
  lemma ShortInputs(x: int)
    ensures BubbleLog([]) == [MarkSorted(0)]
    ensures BubbleLog([x]) == [MarkSorted(0)]
  {
  }

  lemma ThreeTwoOneSteps()
    ensures Step(Run([3, 2, 1], [], false), 0) == Run([2, 3, 1], [Compare(0, 1), Swap(0, 1)], true)
    ensures Step(Run([2, 3, 1], [Compare(0, 1), Swap(0, 1)], true), 1) ==
      Run([2, 1, 3], [Compare(0, 1), Swap(0, 1), Compare(1, 2), Swap(1, 2)], true)
  {
    assert Exchange([3, 2, 1], 0, 1) == [2, 3, 1];
    assert Exchange([2, 3, 1], 1, 2) == [2, 1, 3];
  }

  /** The first pass over [3, 2, 1] swaps twice and settles 3 at index 2. */
  lemma ThreeTwoOneFirstPass()
    ensures Nth([3, 2, 1], 1) ==
      Run([2, 1, 3], [Compare(0, 1), Swap(0, 1), Compare(1, 2), Swap(1, 2), MarkSorted(2)], true)
  {
    ThreeTwoOneSteps();
    var a := Run([3, 2, 1], [], false);
    var b := Step(a, 0);
    var c := Step(b, 1);
    assert Sweep(a, 0, 2) == Sweep(b, 1, 2);
    assert Sweep(b, 1, 2) == Sweep(c, 2, 2);
  }

  /** The second pass swaps once and settles 2 at index 1; the outer loop then stops. */
  lemma ThreeTwoOneSecondPass()
    ensures Nth([3, 2, 1], 2) ==
      Run([1, 2, 3], [Compare(0, 1), Swap(0, 1), Compare(1, 2), Swap(1, 2), MarkSorted(2),
                      Compare(0, 1), Swap(0, 1), MarkSorted(1)], true)
  {
    ThreeTwoOneFirstPass();
    var r1 := Nth([3, 2, 1], 1);
    var d := Run(r1.a, r1.log, false);
    assert Exchange([2, 1, 3], 0, 1) == [1, 2, 3];
    var e := Step(d, 0);
    assert e == Run([1, 2, 3], r1.log + [Compare(0, 1), Swap(0, 1)], true);
    assert Sweep(d, 0, 1) == e by {
      assert Sweep(d, 0, 1) == Sweep(e, 1, 1);
    }
  }

  /** [3, 2, 1] takes two passes with three swaps and ends sorted. */
  lemma ThreeTwoOne()
    ensures BubbleLog([3, 2, 1]) ==
      [Compare(0, 1), Swap(0, 1), Compare(1, 2), Swap(1, 2), MarkSorted(2),
       Compare(0, 1), Swap(0, 1), MarkSorted(1), MarkSorted(0)]
    ensures Final([3, 2, 1]).a == [1, 2, 3]
  {
    ThreeTwoOneFirstPass();
    ThreeTwoOneSecondPass();
    assert Stop([3, 2, 1], 0) == Stop([3, 2, 1], 1) == 2;
  }
}
