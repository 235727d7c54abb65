/**
 * The values a sorting log denotes. Each event is applied in order with the
 * meaning its name and fields declare: a swap exchanges the values at two
 * positions, an overwrite sets the value at one position, and compare and
 * markSorted leave the values alone. How app.ts draws these events is
 * modelled separately, in module Render.
 */
module SortReplay {
  import opened Steps

  predicate Sorted(s: seq<int>) {
    forall x, y :: 0 <= x < y < |s| ==> s[x] <= s[y]
  }

  /** s with the values at i and j exchanged. */
  function Exchange(s: seq<int>, i: nat, j: nat): (t: seq<int>)
    requires i < |s| && j < |s|
    ensures |t| == |s| && t[i] == s[j] && t[j] == s[i]
    ensures forall k :: 0 <= k < |s| && k != i && k != j ==> t[k] == s[k]
  {
    s[i := s[j]][j := s[i]]
  }

  lemma ExchangePermutes(s: seq<int>, i: nat, j: nat)
    requires i < |s| && j < |s|
    ensures multiset(Exchange(s, i, j)) == multiset(s)
  {
  }

  /** arr.slice(): a fresh array with the same values. */
  method Slice(arr: array<int>) returns (a: array<int>)
    ensures fresh(a) && a[..] == arr[..]
  {
    a := new int[arr.Length];
    forall k | 0 <= k < arr.Length {
      a[k] := arr[k];
    }
    assert a[..] == arr[..];
  }

  /**
   * The effect one event denotes on the values. An event naming a position
   * that does not exist changes nothing.
   */
  function Apply(s: seq<int>, e: SortStep): (t: seq<int>)
    ensures |t| == |s|
    ensures e.Swap? && 0 <= e.i < |s| && 0 <= e.j < |s| ==> t == Exchange(s, e.i, e.j)
    ensures e.Overwrite? && 0 <= e.index < |s| ==> t == s[e.index := e.value]
    ensures e.Compare? || e.MarkSorted? ==> t == s
  {
    match e
    case Swap(i, j) => if 0 <= i < |s| && 0 <= j < |s| then Exchange(s, i, j) else s
    case Overwrite(k, v) => if 0 <= k < |s| then s[k := v] else s
    case _ => s
  }

  /** The values after playing the whole log, first event first. */
  function Replay(s: seq<int>, log: seq<SortStep>): (t: seq<int>)
    ensures |t| == |s|
    decreases |log|
  {
    if log == [] then s else Replay(Apply(s, log[0]), log[1..])
  }

  /** Playing two logs one after the other is playing their concatenation. */
  lemma {:induction false} ReplayAppend(s: seq<int>, l1: seq<SortStep>, l2: seq<SortStep>)
    ensures Replay(s, l1 + l2) == Replay(Replay(s, l1), l2)
    decreases |l1|
  {
    if l1 != [] {
      assert (l1 + l2)[0] == l1[0] && (l1 + l2)[1..] == l1[1..] + l2;
      ReplayAppend(Apply(s, l1[0]), l1[1..], l2);
    } else {
      assert l1 + l2 == l2;
    }
  }

  lemma ReplayOne(s: seq<int>, e: SortStep)
    ensures Replay(s, [e]) == Apply(s, e)
  {
    assert [e][1..] == [];
  }

  lemma ReplayTwo(s: seq<int>, e1: SortStep, e2: SortStep)
    ensures Replay(s, [e1, e2]) == Apply(Apply(s, e1), e2)
  {
    assert [e1, e2][1..] == [e2];
    ReplayOne(Apply(s, e1), e2);
  }

  /** A log without overwrites only rearranges the values. */
  predicate SwapsOnly(log: seq<SortStep>) {
    forall k :: 0 <= k < |log| ==> !log[k].Overwrite?
  }

  lemma {:induction false} ReplaySwapsPermutes(s: seq<int>, log: seq<SortStep>)
    requires SwapsOnly(log)
    ensures multiset(Replay(s, log)) == multiset(s)
    decreases |log|
  {
    if log != [] {
      assert SwapsOnly(log[1..]) by {
        forall k | 0 <= k < |log| - 1 ensures !log[1..][k].Overwrite? {
          assert log[1..][k] == log[k + 1];
        }
      }
      ReplaySwapsPermutes(Apply(s, log[0]), log[1..]);
      if log[0].Swap? && 0 <= log[0].i < |s| && 0 <= log[0].j < |s| {
        ExchangePermutes(s, log[0].i, log[0].j);
      }
    }
  }

  /** The indices of the markSorted events, in log order. */
  function MarkIndices(log: seq<SortStep>): (m: seq<int>)
    ensures |m| <= |log|
    decreases |log|
  {
    if log == [] then []
    else (if log[0].MarkSorted? then [log[0].index] else []) + MarkIndices(log[1..])
  }

  lemma {:induction false} MarkIndicesAppend(l1: seq<SortStep>, l2: seq<SortStep>)
    ensures MarkIndices(l1 + l2) == MarkIndices(l1) + MarkIndices(l2)
    decreases |l1|
  {
    if l1 != [] {
      assert (l1 + l2)[0] == l1[0] && (l1 + l2)[1..] == l1[1..] + l2;
      MarkIndicesAppend(l1[1..], l2);
    } else {
      assert l1 + l2 == l2;
    }
  }

  /** The index pairs of the compare events, in log order. */
  function ComparePairs(log: seq<SortStep>): (c: seq<(int, int)>)
    ensures |c| <= |log|
    decreases |log|
  {
    if log == [] then []
    else (if log[0].Compare? then [(log[0].i, log[0].j)] else []) + ComparePairs(log[1..])
  }

  lemma {:induction false} ComparePairsAppend(l1: seq<SortStep>, l2: seq<SortStep>)
    ensures ComparePairs(l1 + l2) == ComparePairs(l1) + ComparePairs(l2)
    decreases |l1|
  {
    if l1 != [] {
      assert (l1 + l2)[0] == l1[0] && (l1 + l2)[1..] == l1[1..] + l2;
      ComparePairsAppend(l1[1..], l2);
    } else {
      assert l1 + l2 == l2;
    }
  }

  /** Appending an event that is not a compare adds no compare pair. */
  lemma ComparePairsTail(d: seq<SortStep>, e: SortStep)
    requires !e.Compare?
    ensures ComparePairs(d + [e]) == ComparePairs(d)
  {
    ComparePairsAppend(d, [e]);
    assert [e][1..] == [];
  }

  lemma HeadTail(a: seq<int>)
    requires a != []
    ensures multiset(a) == multiset{a[0]} + multiset(a[1..])
    ensures multiset(a[1..]) == multiset(a) - multiset{a[0]}
  {
    assert a == [a[0]] + a[1..];
  }

  lemma LastOut(a: seq<int>)
    requires a != []
    ensures multiset(a[..|a| - 1]) == multiset(a) - multiset{a[|a| - 1]}
  {
    assert a == a[..|a| - 1] + [a[|a| - 1]];
  }

  lemma RemoveAt(b: seq<int>, k: nat)
    requires k < |b|
    ensures multiset(b[..k] + b[k + 1..]) == multiset(b) - multiset{b[k]}
  {
    assert b == b[..k] + [b[k]] + b[k + 1..];
  }

  /** Equal tails cancel out of equal multisets. */
  lemma MultisetCancel(x1: seq<int>, x2: seq<int>, y: seq<int>)
    requires multiset(x1 + y) == multiset(x2 + y)
    ensures multiset(x1) == multiset(x2)
  {
    forall z ensures multiset(x1)[z] == multiset(x2)[z] {
      assert multiset(x1 + y)[z] == multiset(x1)[z] + multiset(y)[z];
      assert multiset(x2 + y)[z] == multiset(x2)[z] + multiset(y)[z];
    }
    assert multiset(x1) == multiset(x2);
  }

  /** The first value of a sorted non-empty sequence is the least of its values. */
  lemma SortedHeadLeast(a: seq<int>, v: int)
    requires Sorted(a) && v in multiset(a)
    ensures a != [] && a[0] <= v
  {
    var x :| 0 <= x < |a| && a[x] == v;
  }

  /** Two sorted arrangements of the same non-empty values start with the same value. */
  lemma SortedSameHead(a: seq<int>, b: seq<int>)
    requires Sorted(a) && Sorted(b) && multiset(a) == multiset(b) && a != []
    ensures b != [] && a[0] == b[0]
  {
    assert a[0] in multiset(a);
    SortedHeadLeast(b, a[0]);
    assert b[0] in multiset(b);
    SortedHeadLeast(a, b[0]);
  }

  lemma SortedTail(a: seq<int>)
    requires Sorted(a) && a != []
    ensures Sorted(a[1..])
  {
  }

  lemma SameTail(a: seq<int>, b: seq<int>)
    requires a != [] && b != [] && a[0] == b[0] && multiset(a) == multiset(b)
    ensures multiset(a[1..]) == multiset(b[1..])
  {
    HeadTail(a);
    HeadTail(b);
  }

  /** Two sorted arrangements of the same values are the same sequence. */
  lemma {:induction false} SortedUnique(a: seq<int>, b: seq<int>)
    requires Sorted(a) && Sorted(b) && multiset(a) == multiset(b)
    ensures a == b
    decreases |a|
  {
    if a == [] {
      assert |multiset(b)| == 0;
    } else {
      SortedSameHead(a, b);
      SortedTail(a);
      SortedTail(b);
      SameTail(a, b);
      SortedUnique(a[1..], b[1..]);
      assert a == [a[0]] + a[1..] && b == [b[0]] + b[1..];
    }
  }
}
