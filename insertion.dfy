/**
 * generateStepsInsertion: the shifting insertion sort over a copy of the
 * input, logging compare and overwrite events, then markSorted for every
 * index.
 */
module Insertion {
  import opened Steps
  import opened SortReplay

  /** What the generator has built so far: the working copy and the log. */
  datatype Run = Run(a: seq<int>, log: seq<SortStep>)

  /**
   * Where key comes to rest when the shift loop starts at j: one past the
   * nearest position at or below j whose value is not greater than key.
   */
  function Pos(t: seq<int>, key: int, j: int): (p: nat)
    requires -1 <= j < |t|
    ensures p <= j + 1
    decreases j + 1
  {
    if j >= 0 && t[j] > key then Pos(t, key, j - 1) else j + 1
  }

  /** Every value the scan passes is greater than key; the one it stops at, if any, is not. */
  lemma {:induction false} PosBounds(t: seq<int>, key: int, j: int)
    requires -1 <= j < |t|
    ensures var p := Pos(t, key, j);
      (forall k :: p <= k <= j ==> t[k] > key) && (p > 0 ==> t[p - 1] <= key)
    decreases j + 1
  {
    if j >= 0 && t[j] > key {
      PosBounds(t, key, j - 1);
    }
  }

  /**
   * The events of the shift loop for j = hi down to lo: compare (j, j + 1),
   * then overwrite position j + 1 with t[j].
   */
  function Down(t: seq<int>, hi: int, lo: nat): (d: seq<SortStep>)
    requires hi + 1 < |t|
    ensures |d| == if lo <= hi then 2 * (hi - lo + 1) else 0
    decreases hi - lo + 1
  {
    if lo > hi then [] else Down(t, hi, lo + 1) + [Compare(lo, lo + 1), Overwrite(lo + 1, t[lo])]
  }

  /**
   * t as the shift loop leaves it once it stops at p - 1: t[p..i - 1] moved up
   * one place, t[p] still in place. Each step copies t[p] into position p + 1.
   */
  function Shifted(t: seq<int>, p: nat, i: nat): (u: seq<int>)
    requires p <= i < |t|
    ensures |u| == |t|
    decreases i - p
  {
    if p == i then t else Shifted(t, p + 1, i)[p + 1 := t[p]]
  }

  /** t with t[i] moved down to position p: the slot the shift opened receives the key. */
  function Moved(t: seq<int>, p: nat, i: nat): (u: seq<int>)
    requires p <= i < |t|
    ensures |u| == |t|
  {
    Shifted(t, p, i)[p := t[i]]
  }

  /** Shifted position by position. */
  lemma {:induction false} ShiftedAt(t: seq<int>, p: nat, i: nat)
    requires p <= i < |t|
    ensures var u := Shifted(t, p, i);
      && (forall k :: 0 <= k <= p ==> u[k] == t[k])
      && (forall k :: p < k <= i ==> u[k] == t[k - 1])
      && (forall k :: i < k < |t| ==> u[k] == t[k])
    decreases i - p
  {
    if p < i {
      ShiftedAt(t, p + 1, i);
    }
  }

  /** Moved position by position. */
  lemma MovedAt(t: seq<int>, p: nat, i: nat)
    requires p <= i < |t|
    ensures var u := Moved(t, p, i);
      && u[p] == t[i]
      && (forall k :: 0 <= k < p ==> u[k] == t[k])
      && (forall k :: p < k <= i ==> u[k] == t[k - 1])
      && (forall k :: i < k < |t| ==> u[k] == t[k])
  {
    ShiftedAt(t, p, i);
  }

  /** The events of the outer iteration at i: the shift loop, then the placing overwrite. */
  function Round(t: seq<int>, i: nat): seq<SortStep>
    requires 1 <= i < |t|
  {
    Down(t, i - 1, Pos(t, t[i], i - 1)) + [Overwrite(Pos(t, t[i], i - 1), t[i])]
  }

  /**
   * One iteration of the outer loop at i: key = a[i] is shifted past the
   * greater values before it and written into its resting slot.
   */
  function Insert(r: Run, i: nat): (r': Run)
    requires 1 <= i < |r.a|
    ensures |r'.a| == |r.a|
  {
    Run(Moved(r.a, Pos(r.a, r.a[i], i - 1), i), r.log + Round(r.a, i))
  }

  /** The run before the outer loop handles index m, started from s with an empty log. */
  function Outer(s: seq<int>, m: nat): (r: Run)
    requires m <= |s| || m == 1
    ensures |r.a| == |s|
  {
    if m <= 1 then Run(s, []) else Insert(Outer(s, m - 1), m - 1)
  }

  /** markSorted(0), ..., markSorted(k - 1). */
  function MarkAll(k: nat): (m: seq<SortStep>)
    ensures |m| == k
  {
    if k == 0 then [] else MarkAll(k - 1) + [MarkSorted(k - 1)]
  }

  /** The run after the outer loop, which stops at i = max(n, 1). */
  function Final(s: seq<int>): (r: Run)
    ensures |r.a| == |s|
  {
    Outer(s, if |s| == 0 then 1 else |s|)
  }

  /** The log generateStepsInsertion returns for s. */
  function InsertionLog(s: seq<int>): seq<SortStep> {
    Final(s).log + MarkAll(|s|)
  }

  /** The generator. arr is only read: the sort works on a fresh copy. */
  method GenerateStepsInsertion(arr: array<int>) returns (steps: seq<SortStep>)
    ensures steps == InsertionLog(arr[..])
  {
    var a := Slice(arr);
    steps := InsertAll(a);
    steps := MarkEvery(steps, a.Length);
  }

  /** The outer loop: insert a[i] into the sorted prefix for i = 1, ..., n - 1. */
  method InsertAll(a: array<int>) returns (steps: seq<SortStep>)
    modifies a
    ensures Run(a[..], steps) == Final(old(a[..]))
  {
    ghost var s := a[..];
    steps := [];
    var i := 1;
    while i < a.Length
      invariant a.Length == |s| && 1 <= i && (i <= |s| || i == 1)
      invariant Run(a[..], steps) == Outer(s, i)
      decreases a.Length - i
    {
      steps := Advance(a, i, steps, s);
      i := i + 1;
    }
    assert i == if |s| == 0 then 1 else |s|;
  }

  /** The closing loop: markSorted for every index in ascending order. */
  method MarkEvery(log: seq<SortStep>, n: nat) returns (steps: seq<SortStep>)
    ensures steps == log + MarkAll(n)
  {
    steps := log;
    for k := 0 to n
      invariant steps == log + MarkAll(k)
    {
      steps := steps + [MarkSorted(k)];
    }
  }

  /** The body of the outer loop at i, on the working copy. */
  method InsertAt(a: array<int>, i: nat, log: seq<SortStep>) returns (steps: seq<SortStep>)
    requires 1 <= i < a.Length
    modifies a
    ensures Run(a[..], steps) == Insert(Run(old(a[..]), log), i)
  {
    ghost var t := a[..];
    var key := a[i];
    var j;
    j, steps := ShiftUp(a, i, log);
    a[j + 1] := key;
    steps := steps + [Overwrite(j + 1, key)];
    assert steps == log + Round(t, i);
    assert a[..] == Moved(t, j + 1, i);
  }

  /** The while loop of the outer iteration at i: shift the values greater than a[i] up one place. */
  method ShiftUp(a: array<int>, i: nat, log: seq<SortStep>) returns (j: int, steps: seq<SortStep>)
    requires 1 <= i < a.Length
    modifies a
    ensures -1 <= j < i && j + 1 == Pos(old(a[..]), old(a[i]), i - 1)
    ensures a[..] == Shifted(old(a[..]), j + 1, i)
    ensures steps == log + Down(old(a[..]), i - 1, j + 1)
  {
    ghost var t := a[..];
    var key := a[i];
    j := i - 1;
    steps := log;
    while j >= 0 && a[j] > key
      invariant -1 <= j <= i - 1 && a.Length == |t| && key == t[i]
      invariant a[..] == Shifted(t, j + 1, i)
      invariant forall k :: j < k < i ==> t[k] > key
      invariant steps == log + Down(t, i - 1, j + 1)
      decreases j + 1
    {
      ShiftedAt(t, j + 1, i);
      assert a[j] == a[..][j] == t[j];
      steps := steps + [Compare(j, j + 1)];
      a[j + 1] := a[j];
      steps := steps + [Overwrite(j + 1, a[j])];
      j := j - 1;
    }
    if j >= 0 {
      ShiftedAt(t, j + 1, i);
      assert a[j] == a[..][j] == t[j];
    }
    PosIs(t, key, i - 1, j + 1);
  }

  /** The scan stops exactly where the values above it are all greater and the one below is not. */
  lemma {:induction false} PosIs(t: seq<int>, key: int, j: int, p: nat)
    requires -1 <= j < |t| && p <= j + 1
    requires forall k :: p <= k <= j ==> t[k] > key
    requires p == 0 || t[p - 1] <= key
    ensures Pos(t, key, j) == p
    decreases j + 1
  {
    if j >= 0 && t[j] > key {
      PosIs(t, key, j - 1, p);
    }
  }

  /** The outer iteration at i takes the run for i to the run for i + 1. */
  method Advance(a: array<int>, i: nat, log: seq<SortStep>, ghost s: seq<int>) returns (steps: seq<SortStep>)
    requires 1 <= i < a.Length == |s| && Run(a[..], log) == Outer(s, i)
    modifies a
    ensures Run(a[..], steps) == Outer(s, i + 1)
  {
    steps := InsertAt(a, i, log);
    OuterStep(s, i);
  }

  lemma OuterStep(s: seq<int>, i: nat)
    requires 1 <= i < |s|
    ensures Outer(s, i + 1) == Insert(Outer(s, i), i)
  {
  }

  // ----- The outer-loop invariant: a sorted prefix, a permutation, an untouched suffix -----

  /** The first m values of t are in ascending order. */
  predicate SortedBelow(t: seq<int>, m: nat)
    requires m <= |t|
  {
    forall x, y :: 0 <= x < y < m ==> t[x] <= t[y]
  }

  lemma MovedPermutes(t: seq<int>, p: nat, i: nat)
    requires p <= i < |t|
    ensures multiset(Moved(t, p, i)) == multiset(t)
  {
    MovedAt(t, p, i);
    assert Moved(t, p, i) == t[..p] + [t[i]] + t[p..i] + t[i + 1..];
    assert t == t[..p] + t[p..i] + [t[i]] + t[i + 1..];
  }

  /**
   * Writing key = t[i] just above the last value not greater than it, with the
   * greater ones shifted up, extends the sorted prefix by one.
   */
  lemma MovedOrders(t: seq<int>, p: nat, i: nat)
    requires p <= i < |t| && SortedBelow(t, i)
    requires forall k :: p <= k < i ==> t[k] > t[i]
    requires p > 0 ==> t[p - 1] <= t[i]
    ensures SortedBelow(Moved(t, p, i), i + 1)
  {
    var u := Moved(t, p, i);
    MovedAt(t, p, i);
    forall x, y | 0 <= x < y <= i ensures u[x] <= u[y] {
      if y < p {
        assert u[x] == t[x] && u[y] == t[y];
      } else if y == p {
        assert u[x] == t[x] <= t[p - 1];
      } else if x < p {
        assert u[x] == t[x] && u[y] == t[y - 1];
      } else if x == p {
        assert u[y] == t[y - 1];
      } else {
        assert u[x] == t[x - 1] && u[y] == t[y - 1];
      }
    }
  }

  /** One outer iteration in terms of the run before it. */
  lemma OuterUnfold(s: seq<int>, m: nat)
    requires 1 < m <= |s|
    ensures var t := Outer(s, m - 1).a;
      Outer(s, m).a == Moved(t, Pos(t, t[m - 1], m - 2), m - 1)
  {
  }

  /** Before index m, the positions from m on still hold the input values. */
  lemma {:induction false} OuterSuffix(s: seq<int>, m: nat)
    requires 1 <= m <= |s|
    ensures forall k :: m <= k < |s| ==> Outer(s, m).a[k] == s[k]
  {
    if m > 1 {
      OuterSuffix(s, m - 1);
      OuterUnfold(s, m);
      var t := Outer(s, m - 1).a;
      MovedAt(t, Pos(t, t[m - 1], m - 2), m - 1);
    }
  }

  /** One outer iteration only rearranges the values. */
  lemma InsertPermutes(r: Run, i: nat)
    requires 1 <= i < |r.a|
    ensures multiset(Insert(r, i).a) == multiset(r.a)
  {
    MovedPermutes(r.a, Pos(r.a, r.a[i], i - 1), i);
  }

  /** The working copy always holds exactly the input values. */
  lemma {:induction false} OuterPermutes(s: seq<int>, m: nat)
    requires 1 <= m <= |s|
    ensures multiset(Outer(s, m).a) == multiset(s)
  {
    if m > 1 {
      OuterPermutes(s, m - 1);
      InsertPermutes(Outer(s, m - 1), m - 1);
      assert multiset(Outer(s, m).a) == multiset(Outer(s, m - 1).a);
    }
  }

  /** Before index m, the first m values of the working copy are in ascending order. */
  lemma {:induction false} OuterSorted(s: seq<int>, m: nat)
    requires 1 <= m <= |s|
    ensures SortedBelow(Outer(s, m).a, m)
  {
    if m > 1 {
      OuterSorted(s, m - 1);
      OuterUnfold(s, m);
      var t := Outer(s, m - 1).a;
      PosBounds(t, t[m - 1], m - 2);
      MovedOrders(t, Pos(t, t[m - 1], m - 2), m - 1);
    }
  }

  /** The working copy ends sorted and holds exactly the input values. */
  lemma FinalSorted(s: seq<int>)
    ensures Sorted(Final(s).a) && multiset(Final(s).a) == multiset(s)
  {
    if |s| > 0 {
      OuterSorted(s, |s|);
      OuterPermutes(s, |s|);
    }
  }

  // ----- Playback: the overwrite events rebuild the working copy -----

  /** Playing the shift events from t leaves t[lo..i - 1] moved up one place. */
  lemma {:induction false} ReplayDown(t: seq<int>, i: nat, lo: nat)
    requires lo <= i < |t|
    ensures Replay(t, Down(t, i - 1, lo)) == Shifted(t, lo, i)
    decreases i - lo
  {
    if lo < i {
      var d := Down(t, i - 1, lo + 1);
      ReplayDown(t, i, lo + 1);
      ReplayAppend(t, d, [Compare(lo, lo + 1), Overwrite(lo + 1, t[lo])]);
      ReplayTwo(Shifted(t, lo + 1, i), Compare(lo, lo + 1), Overwrite(lo + 1, t[lo]));
    }
  }

  /** Playing the events of one outer iteration performs that iteration on the values. */
  lemma ReplayRound(t: seq<int>, i: nat)
    requires 1 <= i < |t|
    ensures Replay(t, Round(t, i)) == Moved(t, Pos(t, t[i], i - 1), i)
  {
    var p := Pos(t, t[i], i - 1);
    ReplayAppend(t, Down(t, i - 1, p), [Overwrite(p, t[i])]);
    ReplayDown(t, i, p);
    ReplayOne(Shifted(t, p, i), Overwrite(p, t[i]));
  }

  lemma ReplayInsert(s: seq<int>, r: Run, i: nat)
    requires 1 <= i < |r.a| && Replay(s, r.log) == r.a
    ensures Replay(s, Insert(r, i).log) == Insert(r, i).a
  {
    ReplayAppend(s, r.log, Round(r.a, i));
    ReplayRound(r.a, i);
  }

  lemma {:induction false} ReplayOuter(s: seq<int>, m: nat)
    requires m <= |s| || m == 1
    ensures Replay(s, Outer(s, m).log) == Outer(s, m).a
  {
    if m > 1 {
      ReplayOuter(s, m - 1);
      ReplayInsert(s, Outer(s, m - 1), m - 1);
    }
  }

  /** markSorted events change no value. */
  lemma {:induction false} ReplayMarks(t: seq<int>, k: nat)
    ensures Replay(t, MarkAll(k)) == t
  {
    if k > 0 {
      ReplayMarks(t, k - 1);
      ReplayAppend(t, MarkAll(k - 1), [MarkSorted(k - 1)]);
      ReplayOne(t, MarkSorted(k - 1));
    }
  }

  /** Playing the whole log on the input reproduces the final working copy. */
  lemma InsertionReplay(s: seq<int>)
    ensures Replay(s, InsertionLog(s)) == Final(s).a
  {
    ReplayOuter(s, if |s| == 0 then 1 else |s|);
    ReplayAppend(s, Final(s).log, MarkAll(|s|));
    ReplayMarks(Final(s).a, |s|);
  }

  /** The log drives the input to a sorted permutation of it. */
  lemma InsertionSorts(s: seq<int>)
    ensures Sorted(Replay(s, InsertionLog(s)))
    ensures multiset(Replay(s, InsertionLog(s))) == multiset(s)
  {
    InsertionReplay(s);
    FinalSorted(s);
  }

  // ----- Counting: one compare event per inversion -----

  /** How many values of q are greater than v. */
  function Greater(q: seq<int>, v: int): (c: nat)
    ensures c <= |q|
  {
    if q == [] then 0 else Greater(q[..|q| - 1], v) + (if q[|q| - 1] > v then 1 else 0)
  }

  /** The pairs x < y with s[x] > s[y], counted by their second index. */
  function Inversions(s: seq<int>): nat {
    if s == [] then 0 else Inversions(s[..|s| - 1]) + Greater(s[..|s| - 1], s[|s| - 1])
  }

  lemma {:induction false} GreaterAppend(x: seq<int>, y: seq<int>, v: int)
    ensures Greater(x + y, v) == Greater(x, v) + Greater(y, v)
    decreases |y|
  {
    if y == [] {
      assert x + y == x;
    } else {
      assert (x + y)[..|x + y| - 1] == x + y[..|y| - 1];
      GreaterAppend(x, y[..|y| - 1], v);
    }
  }

  lemma GreaterOne(w: int, v: int)
    ensures Greater([w], v) == if w > v then 1 else 0
  {
    assert [w][..0] == [];
  }

  /** Removing the value at k takes it out of the count. */
  lemma GreaterRemove(b: seq<int>, k: nat, v: int)
    requires k < |b|
    ensures Greater(b, v) == Greater(b[..k] + b[k + 1..], v) + (if b[k] > v then 1 else 0)
  {
    assert b == b[..k] + [b[k]] + b[k + 1..];
    GreaterAppend(b[..k] + [b[k]], b[k + 1..], v);
    GreaterAppend(b[..k], [b[k]], v);
    GreaterAppend(b[..k], b[k + 1..], v);
    GreaterOne(b[k], v);
  }

  /** The count depends only on the values, not on their order. */
  lemma {:induction false} GreaterPermutation(a: seq<int>, b: seq<int>, v: int)
    requires multiset(a) == multiset(b)
    ensures Greater(a, v) == Greater(b, v)
    decreases |a|
  {
    if a == [] {
      assert |multiset(b)| == 0;
    } else {
      var w := a[|a| - 1];
      LastOut(a);
      assert w in multiset(b);
      var k :| 0 <= k < |b| && b[k] == w;
      RemoveAt(b, k);
      GreaterPermutation(a[..|a| - 1], b[..k] + b[k + 1..], v);
      GreaterRemove(b, k, v);
    }
  }

  /** In a sequence split at p into values not greater and values greater than v, the count is |q| - p. */
  lemma {:induction false} GreaterSplit(q: seq<int>, v: int, p: nat)
    requires p <= |q|
    requires forall k :: 0 <= k < p ==> q[k] <= v
    requires forall k :: p <= k < |q| ==> q[k] > v
    ensures Greater(q, v) == |q| - p
    decreases |q|
  {
    if q != [] {
      var q' := q[..|q| - 1];
      if p == |q| {
        GreaterSplit(q', v, p - 1);
      } else {
        GreaterSplit(q', v, p);
      }
    }
  }

  lemma {:induction false} DownCompares(t: seq<int>, hi: int, lo: nat)
    requires hi + 1 < |t| && lo <= hi + 1
    ensures |ComparePairs(Down(t, hi, lo))| == hi + 1 - lo
    decreases hi - lo + 1
  {
    if lo <= hi {
      var c := [Compare(lo, lo + 1), Overwrite(lo + 1, t[lo])];
      DownCompares(t, hi, lo + 1);
      ComparePairsAppend(Down(t, hi, lo + 1), c);
      assert c[1..][1..] == [];
    }
  }

  /** The iteration at i logs one compare per value it shifts. */
  lemma RoundCount(t: seq<int>, i: nat)
    requires 1 <= i < |t|
    ensures |ComparePairs(Round(t, i))| == i - Pos(t, t[i], i - 1)
  {
    DownCompares(t, i - 1, Pos(t, t[i], i - 1));
    ComparePairsTail(Down(t, i - 1, Pos(t, t[i], i - 1)), Overwrite(Pos(t, t[i], i - 1), t[i]));
  }

  /** Over a sorted prefix, the scan passes exactly the values greater than key. */
  lemma ScanCounts(t: seq<int>, i: nat)
    requires 1 <= i < |t| && SortedBelow(t, i)
    ensures i - Pos(t, t[i], i - 1) == Greater(t[..i], t[i])
  {
    var p := Pos(t, t[i], i - 1);
    PosBounds(t, t[i], i - 1);
    forall k | 0 <= k < p ensures t[..i][k] <= t[i] {
      assert t[k] <= t[p - 1];
    }
    GreaterSplit(t[..i], t[i], p);
  }

  /**
   * The iteration at m - 1 compares key against the values of s[..m - 1]
   * greater than it, wherever they now stand.
   */
  lemma RoundCompares(s: seq<int>, m: nat)
    requires 1 < m <= |s|
    ensures |ComparePairs(Outer(s, m).log)| == |ComparePairs(Outer(s, m - 1).log)| + Greater(s[..m - 1], s[m - 1])
  {
    var t := Outer(s, m - 1).a;
    ComparePairsAppend(Outer(s, m - 1).log, Round(t, m - 1));
    RoundCount(t, m - 1);
    OuterSorted(s, m - 1);
    ScanCounts(t, m - 1);
    PrefixPermutes(s, m - 1);
    assert t[m - 1] == t[m - 1..][0];
    GreaterPermutation(t[..m - 1], s[..m - 1], t[m - 1]);
  }

  /** Before index m, the first m values of the working copy are a rearrangement of s[..m]. */
  lemma PrefixPermutes(s: seq<int>, m: nat)
    requires 1 <= m <= |s|
    ensures var t := Outer(s, m).a;
      multiset(t[..m]) == multiset(s[..m]) && t[m..] == s[m..]
  {
    var t := Outer(s, m).a;
    OuterPermutes(s, m);
    OuterSuffix(s, m);
    assert t[m..] == s[m..];
    assert t == t[..m] + t[m..] && s == s[..m] + s[m..];
    MultisetCancel(t[..m], s[..m], s[m..]);
  }

  lemma {:induction false} OuterCompares(s: seq<int>, m: nat)
    requires 1 <= m <= |s|
    ensures |ComparePairs(Outer(s, m).log)| == Inversions(s[..m])
  {
    if m > 1 {
      OuterCompares(s, m - 1);
      RoundCompares(s, m);
      assert s[..m][..m - 1] == s[..m - 1];
    } else {
      assert s[..1][..0] == [];
    }
  }

  lemma {:induction false} MarksNoCompare(k: nat)
    ensures ComparePairs(MarkAll(k)) == []
  {
    if k > 0 {
      MarksNoCompare(k - 1);
      ComparePairsAppend(MarkAll(k - 1), [MarkSorted(k - 1)]);
      assert [MarkSorted(k - 1)][1..] == [];
    }
  }

  /** The number of compare events is the number of inversions of the input. */
  lemma InsertionCompares(s: seq<int>)
    ensures |ComparePairs(InsertionLog(s))| == Inversions(s)
  {
    ComparePairsAppend(Final(s).log, MarkAll(|s|));
    MarksNoCompare(|s|);
    if |s| > 0 {
      OuterCompares(s, |s|);
      assert s[..|s|] == s;
    }
  }

  // ----- Event shapes -----

  /**
   * The shape of the shift events of an iteration whose working copy was t
   * and whose key is key: every compare (j, j + 1) has t[j] > key and is
   * directly followed by overwrite(j + 1, t[j]); every overwrite directly
   * follows a compare; nothing else occurs.
   */
  predicate ShiftShape(e: seq<SortStep>, t: seq<int>, key: int) {
    forall x :: 0 <= x < |e| ==> ShiftAt(e, t, key, x)
  }

  predicate ShiftAt(e: seq<SortStep>, t: seq<int>, key: int, x: nat)
    requires x < |e|
  {
    && (e[x].Compare? || e[x].Overwrite?)
    && (e[x].Compare? ==>
          && 0 <= e[x].i && e[x].j == e[x].i + 1 < |t| && t[e[x].i] > key
          && x + 1 < |e| && e[x + 1] == Overwrite(e[x].j, t[e[x].i]))
    && (e[x].Overwrite? ==> 0 < x && e[x - 1].Compare?)
  }

  lemma ShiftShapeAppend(d: seq<SortStep>, t: seq<int>, key: int, j: nat)
    requires ShiftShape(d, t, key) && j + 1 < |t| && t[j] > key
    ensures ShiftShape(d + [Compare(j, j + 1), Overwrite(j + 1, t[j])], t, key)
  {
    var e := d + [Compare(j, j + 1), Overwrite(j + 1, t[j])];
    forall x | 0 <= x < |e| ensures ShiftAt(e, t, key, x) {
      if x < |d| {
        assert ShiftAt(d, t, key, x);
        assert e[x] == d[x];
        if x + 1 < |d| {
          assert e[x + 1] == d[x + 1];
        }
        if 0 < x {
          assert e[x - 1] == d[x - 1];
        }
      }
    }
  }

  lemma {:induction false} DownShape(t: seq<int>, key: int, hi: int, lo: nat)
    requires hi + 1 < |t| && forall k :: lo <= k <= hi ==> t[k] > key
    ensures ShiftShape(Down(t, hi, lo), t, key)
    decreases hi - lo + 1
  {
    if lo <= hi {
      DownShape(t, key, hi, lo + 1);
      ShiftShapeAppend(Down(t, hi, lo + 1), t, key, lo);
    }
  }

  /**
   * The events of the iteration at i: shift events of the shape above, one
   * per value greater than the key, then exactly one placing overwrite(p, key)
   * with 0 <= p <= i. The comparison that stops the scan (t[p - 1] <= key) is
   * not logged.
   */
  lemma RoundShape(t: seq<int>, i: nat)
    requires 1 <= i < |t|
    ensures var e := Round(t, i);
      var p := Pos(t, t[i], i - 1);
      && p <= i && (p > 0 ==> t[p - 1] <= t[i])
      && |e| == 2 * (i - p) + 1
      && e[|e| - 1] == Overwrite(p, t[i])
      && ShiftShape(e[..|e| - 1], t, t[i])
      && |ComparePairs(e)| == i - p
  {
    var p := Pos(t, t[i], i - 1);
    PosBounds(t, t[i], i - 1);
    DownShape(t, t[i], i - 1, p);
    assert Round(t, i)[..|Round(t, i)| - 1] == Down(t, i - 1, p);
    RoundCount(t, i);
  }

  /** The shift rounds log compares and overwrites only. */
  predicate NoMarks(log: seq<SortStep>) {
    forall x :: 0 <= x < |log| ==> !log[x].MarkSorted?
  }

  lemma ShapeNoMarks(e: seq<SortStep>, t: seq<int>, key: int)
    requires ShiftShape(e, t, key)
    ensures NoMarks(e)
  {
    forall x | 0 <= x < |e| ensures !e[x].MarkSorted? {
      assert ShiftAt(e, t, key, x);
    }
  }

  lemma NoMarksAppend(a: seq<SortStep>, b: seq<SortStep>)
    requires NoMarks(a) && NoMarks(b)
    ensures NoMarks(a + b)
  {
    forall x | 0 <= x < |a + b| ensures !(a + b)[x].MarkSorted? {
      if x >= |a| {
        assert (a + b)[x] == b[x - |a|];
      }
    }
  }

  lemma {:induction false} OuterNoMarks(s: seq<int>, m: nat)
    requires m <= |s| || m == 1
    ensures NoMarks(Outer(s, m).log)
  {
    if m > 1 {
      var r := Outer(s, m - 1);
      OuterNoMarks(s, m - 1);
      RoundShape(r.a, m - 1);
      var e := Round(r.a, m - 1);
      var d := e[..|e| - 1];
      ShapeNoMarks(d, r.a, r.a[m - 1]);
      assert e == d + [e[|e| - 1]];
      NoMarksAppend(d, [e[|e| - 1]]);
      NoMarksAppend(r.log, e);
    }
  }

  lemma {:induction false} MarkAllAt(k: nat)
    ensures forall x :: 0 <= x < k ==> MarkAll(k)[x] == MarkSorted(x)
  {
    if k > 0 {
      MarkAllAt(k - 1);
    }
  }

  /**
   * The log ends with exactly n events markSorted(0), ..., markSorted(n - 1)
   * in ascending order, and no markSorted occurs before them.
   */
  lemma InsertionMarks(s: seq<int>)
    ensures var log := InsertionLog(s);
      && |log| >= |s|
      && (forall x :: |log| - |s| <= x < |log| ==> log[x] == MarkSorted(x - (|log| - |s|)))
      && (forall x :: 0 <= x < |log| - |s| ==> !log[x].MarkSorted?)
  {
    var f := Final(s).log;
    OuterNoMarks(s, if |s| == 0 then 1 else |s|);
    MarkAllAt(|s|);
    var log := InsertionLog(s);
    forall x | |log| - |s| <= x < |log| ensures log[x] == MarkSorted(x - (|log| - |s|)) {
      assert log[x] == MarkAll(|s|)[x - |f|];
    }
    forall x | 0 <= x < |log| - |s| ensures !log[x].MarkSorted? {
      assert log[x] == f[x];
    }
  }

  /** Empty input gives an empty log; one value gives exactly [markSorted(0)]. */
  lemma InsertionShortInputs(x: int)
    ensures InsertionLog([]) == []
    ensures InsertionLog([x]) == [MarkSorted(0)]
  {
    assert MarkAll(1) == [MarkSorted(0)];
  }
}
