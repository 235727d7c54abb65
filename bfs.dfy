/**
 * Breadth-first search over a grid with a FIFO queue and seen / parent
 * matrices, logging frontier and visit events, followed by the walk back
 * along the parent links that logs the path.
 *
 * The proof follows the search with ghost state: the cells in the order they
 * were discovered, how many of them have been expanded, each discovered
 * cell's distance (in steps) from the start along the parent links, and the
 * parent links themselves.
 *
 * Line numbers in the comments refer to src/algorithms/graph/bfs.ts.
 */
module Bfs {
  import opened Steps
  import opened Grids

  datatype Option<T> = None | Some(value: T)

  /** The moves in the order they are tried: down, up, right, left. */
  const Dirs: seq<(int, int)> := [(1, 0), (-1, 0), (0, 1), (0, -1)]

  function Neighbour(x: Coord, d: nat): (y: Coord)
    requires d < 4
    ensures Adjacent(x, y)
  {
    Coord(x.r + Dirs[d].0, x.c + Dirs[d].1)
  }

  /** Every adjacent cell is reached by one of the four moves. */
  function Toward(x: Coord, y: Coord): (d: nat)
    requires Adjacent(x, y)
    ensures d < 4 && Neighbour(x, d) == y
  {
    if y.r == x.r + 1 then 0 else if x.r == y.r + 1 then 1 else if y.c == x.c + 1 then 2 else 3
  }

  function At(e: GridStep): Coord {
    Coord(e.r, e.c)
  }

  /** The cells of the frontier events, in log order. */
  function Frontiers(log: seq<GridStep>): (s: seq<Coord>)
    ensures |s| <= |log|
  {
    if log == [] then []
    else Frontiers(log[..|log| - 1]) + (if log[|log| - 1].Frontier? then [At(log[|log| - 1])] else [])
  }

  /** The cells of the visit events, in log order. */
  function Visits(log: seq<GridStep>): (s: seq<Coord>)
    ensures |s| <= |log|
  {
    if log == [] then []
    else Visits(log[..|log| - 1]) + (if log[|log| - 1].Visit? then [At(log[|log| - 1])] else [])
  }

  /** The cells of the path events, in log order. */
  function Paths(log: seq<GridStep>): (s: seq<Coord>)
    ensures |s| <= |log|
  {
    if log == [] then []
    else Paths(log[..|log| - 1]) + (if log[|log| - 1].Path? then [At(log[|log| - 1])] else [])
  }

  predicate Distinct(s: seq<Coord>) {
    forall a, b :: 0 <= a < b < |s| ==> s[a] != s[b]
  }

  predicate NoPath(log: seq<GridStep>) {
    forall x :: 0 <= x < |log| ==> !log[x].Path?
  }

  /** No path event is followed by an event of another kind. */
  predicate PathLast(log: seq<GridStep>) {
    forall x, y :: 0 <= x < y < |log| && log[x].Path? ==> log[y].Path?
  }

  /** Each visit event comes after the frontier events of all the visited cell's open neighbours. */
  predicate VisitsAfter(g: Grid, log: seq<GridStep>) {
    forall x, d :: 0 <= x < |log| && log[x].Visit? && 0 <= d < 4 && Open(g, Neighbour(At(log[x]), d)) ==>
      Neighbour(At(log[x]), d) in Frontiers(log[..x])
  }

  /**
   * Every frontier event after the first names a neighbour of the cell being
   * expanded: the earliest discovered cell that has no visit event yet.
   */
  predicate FromExpanded(log: seq<GridStep>) {
    forall x :: 1 <= x < |log| && log[x].Frontier? ==>
      |Visits(log[..x])| < |Frontiers(log[..x])| && Adjacent(Frontiers(log[..x])[|Visits(log[..x])|], At(log[x]))
  }

  function Reverse(s: seq<Coord>): (t: seq<Coord>)
    ensures |t| == |s| && forall i :: 0 <= i < |s| ==> t[i] == s[|s| - 1 - i]
  {
    if s == [] then [] else Reverse(s[1..]) + [s[0]]
  }

  /**
   * The ghost record of the search: order holds the discovered cells in
   * discovery order (the queue is its suffix from v on), level[k] is the
   * number of steps from the start to order[k] along the parent links, and
   * order[up[k]] is the parent of order[k] (up[0] is unused).
   */
  datatype Search = Search(order: seq<Coord>, level: seq<nat>, up: seq<nat>, v: nat)

  /** The discovered cells: the start first, then distinct open cells. */
  ghost predicate Discovered(g: Grid, src: Coord, order: seq<Coord>) {
    |order| >= 1 && order[0] == src && Distinct(order) &&
    forall k :: 1 <= k < |order| ==> Open(g, order[k])
  }

  ghost predicate Shape(s: Search) {
    1 <= |s.order| && |s.level| == |s.order| && |s.up| == |s.order| && s.v <= |s.order|
  }

  /**
   * The start is at level 0; every other discovered cell has a parent that was
   * discovered before it, is adjacent to it and is one level closer.
   */
  ghost predicate Links(s: Search)
    requires Shape(s)
  {
    s.level[0] == 0 &&
    forall k {:trigger s.up[k]} :: 1 <= k < |s.order| ==>
      s.up[k] < k && Adjacent(s.order[s.up[k]], s.order[k]) && s.level[k] == s.level[s.up[k]] + 1
  }

  /** Levels never decrease along the discovery order. */
  ghost predicate Monotone(s: Search)
    requires Shape(s)
  {
    forall a, b :: 0 <= a <= b < |s.order| ==> s.level[a] <= s.level[b]
  }

  /** The queue (the cells from index v on) spans at most two consecutive levels. */
  ghost predicate Front(s: Search)
    requires Shape(s)
  {
    s.v < |s.order| ==> s.level[|s.order| - 1] <= s.level[s.v] + 1
  }

  ghost predicate Levels(s: Search) {
    Shape(s) && Links(s) && Monotone(s) && Front(s)
  }

  /** The position of a cell in a sequence it occurs in. */
  ghost function IndexOf(o: seq<Coord>, x: Coord): (i: nat)
    requires x in o
    ensures i < |o| && o[i] == x
  {
    var i :| 0 <= i < |o| && o[i] == x; i
  }

  lemma IndexOfUnique(o: seq<Coord>, i: nat)
    requires Distinct(o) && i < |o|
    ensures IndexOf(o, o[i]) == i
  {
  }

  /** Move d out of order[k] leads, when open, to a discovered cell at most one level further. */
  ghost predicate Tried(g: Grid, s: Search, k: nat, d: nat)
    requires Shape(s) && k < |s.order| && d < 4
  {
    Open(g, Neighbour(s.order[k], d)) ==>
      Neighbour(s.order[k], d) in s.order &&
      s.level[IndexOf(s.order, Neighbour(s.order[k], d))] <= s.level[k] + 1
  }

  /** The first m moves out of the cell being expanded have been tried. */
  ghost predicate Around(g: Grid, s: Search, m: nat)
    requires Shape(s) && s.v < |s.order|
  {
    forall d :: 0 <= d < m && d < 4 ==> Tried(g, s, s.v, d)
  }

  /** Every one of the first v discovered cells has had all of its moves tried. */
  ghost predicate Closed(g: Grid, s: Search)
    requires Shape(s)
  {
    forall k, d :: 0 <= k < s.v && 0 <= d < 4 ==> Tried(g, s, k, d)
  }

  /** The search invariant on the ghost record. */
  ghost predicate Inv(g: Grid, src: Coord, dst: Coord, s: Search) {
    Discovered(g, src, s.order) && Levels(s) && Closed(g, s) && dst !in s.order[..s.v]
  }

  /** The log so far: the start's frontier event, one frontier per discovery, one visit per expansion. */
  ghost predicate Logged(g: Grid, src: Coord, steps: seq<GridStep>, s: Search) {
    s.v <= |s.order| &&
    |steps| >= 1 && steps[0] == Frontier(src.r, src.c) && Frontiers(steps) == s.order &&
    Visits(steps) == s.order[..s.v] && NoPath(steps) && VisitsAfter(g, steps) && FromExpanded(steps)
  }

  /** The seen matrix marks exactly the discovered in-bounds cells. */
  ghost predicate SeenIs(seen: array2<bool>, n: int, order: seq<Coord>)
    reads seen
  {
    seen.Length0 == n && seen.Length1 == n &&
    forall r, c :: 0 <= r < n && 0 <= c < n ==> (seen[r, c] <==> Coord(r, c) in order)
  }

  /** The parent matrix holds the parent of every discovered cell but the start, and nothing else. */
  ghost predicate ParentIs(parent: array2<Option<Coord>>, n: int, s: Search)
    reads parent
  {
    parent.Length0 == n && parent.Length1 == n && Shape(s) &&
    (forall k {:trigger s.up[k]} :: 1 <= k < |s.order| ==>
       Inside(n, s.order[k]) && s.up[k] < |s.order| &&
       parent[s.order[k].r, s.order[k].c] == Some(s.order[s.up[k]])) &&
    (forall r, c :: 0 <= r < n && 0 <= c < n && parent[r, c].Some? ==> Coord(r, c) in s.order[1..])
  }


  /** The in-bounds cells not yet discovered; the search loop terminates because this set shrinks. */
  ghost function Unseen(n: int, order: seq<Coord>): set<Coord> {
    set r, c | 0 <= r < n && 0 <= c < n && Coord(r, c) !in order :: Coord(r, c)
  }

  lemma UnseenShrinks(n: int, order: seq<Coord>, w: Coord)
    requires Inside(n, w) && w !in order
    ensures |Unseen(n, order + [w])| + 1 == |Unseen(n, order)|
  {
    assert Unseen(n, order + [w]) == Unseen(n, order) - {w};
    assert w in Unseen(n, order);
  }

  // ---------------------------------------------------------------- the log

  lemma LogAppend(log: seq<GridStep>, e: GridStep)
    ensures Frontiers(log + [e]) == Frontiers(log) + (if e.Frontier? then [At(e)] else [])
    ensures Visits(log + [e]) == Visits(log) + (if e.Visit? then [At(e)] else [])
    ensures Paths(log + [e]) == Paths(log) + (if e.Path? then [At(e)] else [])
  {
    assert (log + [e])[..|log|] == log;
  }

  lemma {:induction false} NoPathPaths(log: seq<GridStep>)
    requires NoPath(log)
    ensures Paths(log) == []
  {
    if log != [] {
      NoPathPaths(log[..|log| - 1]);
    }
  }

  /** Appending an event other than a visit keeps every visit after its neighbours' frontiers. */
  lemma AfterMore(g: Grid, log: seq<GridStep>, e: GridStep)
    requires VisitsAfter(g, log) && !e.Visit?
    ensures VisitsAfter(g, log + [e])
  {
    forall x, d | 0 <= x < |log| + 1 && (log + [e])[x].Visit? && 0 <= d < 4 && Open(g, Neighbour(At((log + [e])[x]), d))
      ensures Neighbour(At((log + [e])[x]), d) in Frontiers((log + [e])[..x])
    {
      assert x < |log| && (log + [e])[x] == log[x] && (log + [e])[..x] == log[..x];
    }
  }

  /** A visit may be appended once all open neighbours of its cell are frontier cells. */
  lemma AfterVisit(g: Grid, log: seq<GridStep>, u: Coord)
    requires VisitsAfter(g, log)
    requires forall d :: 0 <= d < 4 && Open(g, Neighbour(u, d)) ==> Neighbour(u, d) in Frontiers(log)
    ensures VisitsAfter(g, log + [Visit(u.r, u.c)])
  {
    var e := Visit(u.r, u.c);
    forall x, d | 0 <= x < |log| + 1 && (log + [e])[x].Visit? && 0 <= d < 4 && Open(g, Neighbour(At((log + [e])[x]), d))
      ensures Neighbour(At((log + [e])[x]), d) in Frontiers((log + [e])[..x])
    {
      if x < |log| {
        assert (log + [e])[x] == log[x] && (log + [e])[..x] == log[..x];
      } else {
        assert (log + [e])[..x] == log && At((log + [e])[x]) == u;
      }
    }
  }

  /** Appending an event other than a frontier keeps every frontier next to the cell then expanded. */
  lemma NearMore(log: seq<GridStep>, e: GridStep)
    requires FromExpanded(log) && !e.Frontier?
    ensures FromExpanded(log + [e])
  {
    forall x | 1 <= x < |log| + 1 && (log + [e])[x].Frontier?
      ensures |Visits((log + [e])[..x])| < |Frontiers((log + [e])[..x])| &&
              Adjacent(Frontiers((log + [e])[..x])[|Visits((log + [e])[..x])|], At((log + [e])[x]))
    {
      assert x < |log| && (log + [e])[x] == log[x] && (log + [e])[..x] == log[..x];
    }
  }

  /** A frontier of w may be appended when w is next to the earliest discovered cell not yet visited. */
  lemma NearFrontier(log: seq<GridStep>, w: Coord)
    requires FromExpanded(log) && |Visits(log)| < |Frontiers(log)| && Adjacent(Frontiers(log)[|Visits(log)|], w)
    ensures FromExpanded(log + [Frontier(w.r, w.c)])
  {
    var e := Frontier(w.r, w.c);
    forall x | 1 <= x < |log| + 1 && (log + [e])[x].Frontier?
      ensures |Visits((log + [e])[..x])| < |Frontiers((log + [e])[..x])| &&
              Adjacent(Frontiers((log + [e])[..x])[|Visits((log + [e])[..x])|], At((log + [e])[x]))
    {
      if x < |log| {
        assert (log + [e])[x] == log[x] && (log + [e])[..x] == log[..x];
      } else {
        assert (log + [e])[..x] == log && At((log + [e])[x]) == w;
      }
    }
  }

  lemma PathMore(log: seq<GridStep>, x: Coord)
    requires PathLast(log)
    ensures PathLast(log + [Path(x.r, x.c)])
  {
  }

  // ----------------------------------------------------------- the search

  lemma Start(g: Grid, src: Coord, dst: Coord)
    ensures Inv(g, src, dst, Search([src], [0], [0], 0))
  {
  }

  /** A discovered cell is at most one level further than the cell being expanded. */
  lemma SeenNear(s: Search, j: nat)
    requires Shape(s) && Monotone(s) && Front(s) && s.v < |s.order| && j < |s.order|
    ensures s.level[j] <= s.level[s.v] + 1
  {
    assert s.level[j] <= s.level[|s.order| - 1];
  }

  /** The search record after discovering w from the cell being expanded. */
  ghost function Grow(s: Search, w: Coord): (t: Search)
    requires Shape(s) && s.v < |s.order|
    ensures Shape(t) && t.v < |t.order|
  {
    Search(s.order + [w], s.level + [s.level[s.v] + 1], s.up + [s.v], s.v)
  }

  lemma GrowDiscovered(g: Grid, src: Coord, order: seq<Coord>, w: Coord)
    requires Discovered(g, src, order) && Open(g, w) && w !in order
    ensures Discovered(g, src, order + [w])
  {
    var t := order + [w];
    forall a, b | 0 <= a < b < |t| ensures t[a] != t[b] {
      assert t[a] == order[a];
      if b < |order| {
        assert t[b] == order[b];
      }
    }
    forall k | 1 <= k < |t| ensures Open(g, t[k]) {
      if k < |order| {
        assert t[k] == order[k];
      }
    }
  }

  lemma GrowLevels(s: Search, w: Coord)
    requires Levels(s) && s.v < |s.order| && Adjacent(s.order[s.v], w)
    ensures Levels(Grow(s, w))
  {
    var t := Grow(s, w);
    forall k | 1 <= k < |t.order|
      ensures t.up[k] < k && Adjacent(t.order[t.up[k]], t.order[k]) && t.level[k] == t.level[t.up[k]] + 1
    {
      if k < |s.order| {
        assert s.up[k] < k;
        assert t.up[k] == s.up[k] && t.order[k] == s.order[k] && t.level[k] == s.level[k];
      }
    }
    forall a, b | 0 <= a <= b < |t.order| ensures t.level[a] <= t.level[b] {
      if b == |s.order| && a < |s.order| {
        assert s.level[a] <= s.level[|s.order| - 1];
      }
    }
  }

  /** Trying a move stays tried when the record grows by a cell that was not discovered. */
  lemma GrowTried(g: Grid, s: Search, w: Coord, k: nat, d: nat)
    requires Shape(s) && s.v < |s.order| && Distinct(s.order + [w]) && k < |s.order| && d < 4
    requires Tried(g, s, k, d)
    ensures Tried(g, Grow(s, w), k, d)
  {
    var t := Grow(s, w);
    var y := Neighbour(s.order[k], d);
    assert t.order[k] == s.order[k];
    if Open(g, y) {
      var j := IndexOf(s.order, y);
      assert t.order[j] == y;
      IndexOfUnique(t.order, j);
    }
  }

  lemma GrowClosed(g: Grid, s: Search, w: Coord, m: nat)
    requires Shape(s) && s.v < |s.order| && Distinct(s.order + [w])
    requires Closed(g, s) && Around(g, s, m)
    ensures Closed(g, Grow(s, w)) && Around(g, Grow(s, w), m)
  {
    var t := Grow(s, w);
    forall k, d | 0 <= k < t.v && 0 <= d < 4 ensures Tried(g, t, k, d) {
      GrowTried(g, s, w, k, d);
    }
    forall d | 0 <= d < m && d < 4 ensures Tried(g, t, t.v, d) {
      GrowTried(g, s, w, s.v, d);
    }
  }

  /** Discovering w as the m-th neighbour keeps the search invariant and tries move m. */
  lemma GrowInv(g: Grid, src: Coord, dst: Coord, s: Search, w: Coord, m: nat)
    requires Inv(g, src, dst, s) && s.v < |s.order| && m < 4
    requires Open(g, w) && w !in s.order && w == Neighbour(s.order[s.v], m)
    requires Around(g, s, m)
    ensures Inv(g, src, dst, Grow(s, w)) && Around(g, Grow(s, w), m + 1)
  {
    var t := Grow(s, w);
    GrowDiscovered(g, src, s.order, w);
    GrowLevels(s, w);
    GrowClosed(g, s, w, m);
    assert t.order[..s.v] == s.order[..s.v];
    assert t.order[|s.order|] == w;
    IndexOfUnique(t.order, |s.order|);
    assert Tried(g, t, t.v, m);
  }

  /** Trying move m when it finds no new cell: it is closed, or its cell was discovered already. */
  lemma AroundMore(g: Grid, s: Search, m: nat)
    requires Levels(s) && s.v < |s.order| && m < 4 && Around(g, s, m)
    requires Open(g, Neighbour(s.order[s.v], m)) ==> Neighbour(s.order[s.v], m) in s.order
    ensures Around(g, s, m + 1)
  {
    var y := Neighbour(s.order[s.v], m);
    if Open(g, y) {
      SeenNear(s, IndexOf(s.order, y));
    }
    assert Tried(g, s, s.v, m);
  }

  /** Once every move of the cell being expanded has been tried, it counts as expanded. */
  lemma Expanded(g: Grid, src: Coord, dst: Coord, s: Search)
    requires Inv(g, src, dst, s) && s.v < |s.order| && s.order[s.v] != dst
    requires Around(g, s, 4)
    ensures Inv(g, src, dst, s.(v := s.v + 1))
  {
    var t := s.(v := s.v + 1);
    forall k, d | 0 <= k < t.v && 0 <= d < 4 ensures Tried(g, t, k, d) {
      assert Tried(g, s, k, d);
    }
    if t.v < |t.order| {
      assert s.level[s.v] <= s.level[t.v];
    }
    NotInTake(s.order, s.v, dst);
  }

  lemma NotInTake(o: seq<Coord>, i: nat, x: Coord)
    requires i < |o| && x !in o[..i] && o[i] != x
    ensures x !in o[..i + 1]
  {
    assert o[..i + 1] == o[..i] + [o[i]];
  }

  // ------------------------------------------------------------- walks

  lemma WalkPrefix(g: Grid, src: Coord, w: seq<Coord>, m: nat)
    requires Walk(g, src, w) && 1 <= m <= |w|
    ensures Walk(g, src, w[..m])
  {
  }

  lemma WalkExtend(g: Grid, src: Coord, w: seq<Coord>, x: Coord)
    requires Walk(g, src, w) && Open(g, x) && Adjacent(w[|w| - 1], x)
    ensures Walk(g, src, w + [x])
  {
    var t := w + [x];
    forall i | 1 <= i < |t| ensures Open(g, t[i]) && Adjacent(t[i - 1], t[i]) {
      if i < |w| {
        assert t[i] == w[i] && t[i - 1] == w[i - 1];
      }
    }
  }

  /** The cells from order[j] back to the start along the parent links. */
  ghost function Back(s: Search, j: nat): (p: seq<Coord>)
    requires Levels(s) && j < |s.order|
    ensures |p| >= 1 && p[0] == s.order[j]
    decreases j
  {
    if j == 0 then [s.order[0]] else [s.order[j]] + Back(s, s.up[j])
  }

  /** Read backwards, the parent chain of a discovered cell is a walk from the start, as long as its level. */
  lemma {:induction false} BackWalk(g: Grid, src: Coord, s: Search, j: nat)
    requires Discovered(g, src, s.order) && Levels(s) && j < |s.order|
    ensures |Back(s, j)| == s.level[j] + 1 && Walk(g, src, Reverse(Back(s, j)))
    ensures Back(s, j)[|Back(s, j)| - 1] == src
    decreases j
  {
    if j > 0 {
      var i := s.up[j];
      assert i < j && Adjacent(s.order[i], s.order[j]) && s.level[j] == s.level[i] + 1;
      BackWalk(g, src, s, i);
      var b := Back(s, j);
      assert b == [s.order[j]] + Back(s, i);
      assert b[1..] == Back(s, i);
      assert Reverse(b) == Reverse(Back(s, i)) + [s.order[j]];
      WalkExtend(g, src, Reverse(Back(s, i)), s.order[j]);
    }
  }

  /**
   * While the search has not reached level l of the expanded cell, a walk from
   * the start shorter than l only meets expanded cells, at levels no greater
   * than the steps taken.
   */
  lemma {:induction false} Below(g: Grid, src: Coord, dst: Coord, s: Search, w: seq<Coord>, i: nat)
    requires Inv(g, src, dst, s) && s.v < |s.order| && Walk(g, src, w) && i < |w| && i < s.level[s.v]
    ensures w[i] in s.order && IndexOf(s.order, w[i]) < s.v && s.level[IndexOf(s.order, w[i])] <= i
    decreases i
  {
    if i == 0 {
      IndexOfUnique(s.order, 0);
    } else {
      Below(g, src, dst, s, w, i - 1);
      var k := IndexOf(s.order, w[i - 1]);
      var d := Toward(w[i - 1], w[i]);
      assert Tried(g, s, k, d);
      var j := IndexOf(s.order, w[i]);
      assert s.level[j] < s.level[s.v];
    }
  }

  /** When the search stops at dst, no walk from the start to dst is shorter than dst's level. */
  lemma Shortest(g: Grid, src: Coord, dst: Coord, s: Search, w: seq<Coord>)
    requires Inv(g, src, dst, s) && s.v < |s.order| && s.order[s.v] == dst
    requires Walk(g, src, w) && w[|w| - 1] == dst
    ensures s.level[s.v] + 1 <= |w|
  {
    if |w| - 1 < s.level[s.v] {
      Below(g, src, dst, s, w, |w| - 1);
      IndexOfUnique(s.order, s.v);
    }
  }

  /** When every discovered cell has been expanded, every walk from the start stays among them. */
  lemma {:induction false} Drained(g: Grid, src: Coord, dst: Coord, s: Search, w: seq<Coord>)
    requires Inv(g, src, dst, s) && s.v == |s.order| && Walk(g, src, w)
    ensures w[|w| - 1] in s.order
    decreases |w|
  {
    if |w| > 1 {
      var m := |w| - 1;
      WalkPrefix(g, src, w, m);
      Drained(g, src, dst, s, w[..m]);
      assert w[..m][m - 1] == w[m - 1];
      var k := IndexOf(s.order, w[m - 1]);
      assert Tried(g, s, k, Toward(w[m - 1], w[m]));
    }
  }

  // ------------------------------------------------------------ the matrices

  /** parent[x.r][x.c]; a column off the grid reads as no parent. */
  function Lookup(parent: array2<Option<Coord>>, x: Coord): Option<Coord>
    reads parent
    requires 0 <= x.r < parent.Length0
  {
    if 0 <= x.c < parent.Length1 then parent[x.r, x.c] else None
  }

  lemma LookupFound(parent: array2<Option<Coord>>, g: Grid, src: Coord, s: Search, k: nat)
    requires Discovered(g, src, s.order) && Shape(s) && ParentIs(parent, |g|, s) && 0 <= src.r < |g|
    requires k < |s.order|
    ensures 0 <= s.order[k].r < parent.Length0
    ensures Lookup(parent, s.order[k]) == if k == 0 then None else Some(s.order[s.up[k]])
  {
    if k == 0 {
      forall i | 0 <= i < |s.order| - 1 ensures s.order[1..][i] != src {
        assert s.order[1..][i] == s.order[i + 1];
      }
      assert src !in s.order[1..];
    }
    if k > 0 {
      assert s.up[k] < |s.order|;
    }
  }

  lemma LookupMissing(parent: array2<Option<Coord>>, n: int, s: Search, x: Coord)
    requires ParentIs(parent, n, s) && 0 <= x.r < n && x !in s.order
    ensures Lookup(parent, x) == None
  {
    forall i | 0 <= i < |s.order| - 1 ensures s.order[1..][i] != x {
      assert s.order[1..][i] == s.order[i + 1];
    }
    assert x !in s.order[1..];
  }

  // ---------------------------------------------------- one expansion, as values

  /**
   * The cells that expanding u discovers through moves d, d + 1, ..., 3 when
   * the cells in order have been discovered already: each open neighbour not
   * yet discovered, in move order.
   */
  ghost function NewCells(g: Grid, order: seq<Coord>, u: Coord, d: nat): seq<Coord>
    requires d <= 4
    decreases 4 - d
  {
    if d == 4 then []
    else if Open(g, Neighbour(u, d)) && Neighbour(u, d) !in order then
      [Neighbour(u, d)] + NewCells(g, order + [Neighbour(u, d)], u, d + 1)
    else NewCells(g, order, u, d + 1)
  }

  /**
   * The new cells are open neighbours of u, distinct and not discovered
   * before, and together with the cells discovered before they hold every
   * open neighbour reached by the moves d..3.
   */
  lemma NewCellsAre(g: Grid, order: seq<Coord>, u: Coord, d: nat)
    requires d <= 4
    ensures var c := NewCells(g, order, u, d);
      && Distinct(c)
      && (forall i :: 0 <= i < |c| ==> Open(g, c[i]) && Adjacent(u, c[i]) && c[i] !in order)
      && (forall m :: d <= m < 4 && Open(g, Neighbour(u, m)) ==> Neighbour(u, m) in order + c)
  {
    NewCellsFresh(g, order, u, d);
    NewCellsDistinct(g, order, u, d);
    NewCellsCover(g, order, u, d);
  }

  lemma {:induction false} NewCellsFresh(g: Grid, order: seq<Coord>, u: Coord, d: nat)
    requires d <= 4
    ensures var c := NewCells(g, order, u, d);
      forall x :: x in c ==> Open(g, x) && Adjacent(u, x) && x !in order
    decreases 4 - d
  {
    if d < 4 {
      var w := Neighbour(u, d);
      if Open(g, w) && w !in order {
        NewCellsFresh(g, order + [w], u, d + 1);
      } else {
        NewCellsFresh(g, order, u, d + 1);
      }
    }
  }

  lemma {:induction false} NewCellsDistinct(g: Grid, order: seq<Coord>, u: Coord, d: nat)
    requires d <= 4
    ensures Distinct(NewCells(g, order, u, d))
    decreases 4 - d
  {
    if d < 4 {
      var w := Neighbour(u, d);
      if Open(g, w) && w !in order {
        var rest := NewCells(g, order + [w], u, d + 1);
        NewCellsDistinct(g, order + [w], u, d + 1);
        NewCellsFresh(g, order + [w], u, d + 1);
        ConsDistinct(w, rest);
      } else {
        NewCellsDistinct(g, order, u, d + 1);
      }
    }
  }

  lemma ConsDistinct(w: Coord, rest: seq<Coord>)
    requires Distinct(rest) && w !in rest
    ensures Distinct([w] + rest)
  {
    var c := [w] + rest;
    forall a, b | 0 <= a < b < |c| ensures c[a] != c[b] {
      assert c[b] == rest[b - 1] && c[b] in rest;
      if a > 0 {
        assert c[a] == rest[a - 1];
      }
    }
  }

  lemma {:induction false} NewCellsCover(g: Grid, order: seq<Coord>, u: Coord, d: nat)
    requires d <= 4
    ensures forall m :: d <= m < 4 && Open(g, Neighbour(u, m)) ==> Neighbour(u, m) in order + NewCells(g, order, u, d)
    decreases 4 - d
  {
    if d < 4 {
      var w := Neighbour(u, d);
      if Open(g, w) && w !in order {
        var rest := NewCells(g, order + [w], u, d + 1);
        NewCellsCover(g, order + [w], u, d + 1);
        Assoc(order, w, rest);
        assert NewCells(g, order, u, d) == [w] + rest;
      } else {
        NewCellsCover(g, order, u, d + 1);
      }
    }
  }

  lemma Assoc(a: seq<Coord>, w: Coord, b: seq<Coord>)
    ensures a + [w] + b == a + ([w] + b)
  {
  }

  /** One frontier event per cell, in order. */
  function FrontierEvents(c: seq<Coord>): (e: seq<GridStep>)
    ensures |e| == |c|
  {
    if c == [] then [] else FrontierEvents(c[..|c| - 1]) + [Frontier(c[|c| - 1].r, c[|c| - 1].c)]
  }

  lemma FrontierExtend(pre: seq<GridStep>, o: seq<Coord>, i: nat, w: Coord)
    requires i <= |o|
    ensures pre + FrontierEvents(o[i..]) + [Frontier(w.r, w.c)] == pre + FrontierEvents((o + [w])[i..])
  {
    var c := (o + [w])[i..];
    assert c[..|c| - 1] == o[i..];
  }

  /**
   * s extends s0 by cells whose parent is the cell at position v of s0:
   * the discovery order, the levels and the parent indices of s0 are kept.
   */
  ghost predicate ChildrenOf(s0: Search, s: Search) {
    s0.order <= s.order && s0.level <= s.level && s0.up <= s.up &&
    forall k :: |s0.up| <= k < |s.up| ==> s.up[k] == s0.v
  }

  lemma GrowChildren(s0: Search, s: Search, w: Coord)
    requires Shape(s) && s.v < |s.order| && s.v == s0.v && ChildrenOf(s0, s)
    ensures ChildrenOf(s0, Grow(s, w))
  {
    var t := Grow(s, w);
    assert s0.order <= t.order && s0.level <= t.level && s0.up <= t.up;
    forall k | |s0.up| <= k < |t.up| ensures t.up[k] == s0.v {
      if k < |s.up| {
        assert t.up[k] == s.up[k];
      }
    }
  }

  /** Discovering w by move d: the rest of the expansion, seen from the grown record. */
  lemma NewCellsTake(g: Grid, o0: seq<Coord>, o: seq<Coord>, u: Coord, d: nat, full: seq<Coord>)
    requires d < 4 && Open(g, Neighbour(u, d)) && Neighbour(u, d) !in o
    requires full == o + NewCells(g, o, u, d)
    ensures full == (o + [Neighbour(u, d)]) + NewCells(g, o + [Neighbour(u, d)], u, d + 1)
  {
  }

  lemma NewCellsSkip(g: Grid, o: seq<Coord>, u: Coord, d: nat)
    requires d < 4 && !(Open(g, Neighbour(u, d)) && Neighbour(u, d) !in o)
    ensures NewCells(g, o, u, d) == NewCells(g, o, u, d + 1)
  {
  }

  lemma DropPrefix(o0: seq<Coord>, c: seq<Coord>, o: seq<Coord>)
    requires o == o0 + c + []
    ensures o == o0 + c && o[|o0|..] == c
  {
    assert o0 + c + [] == o0 + c;
  }

  /** The state of the expansion of u after the moves before d (lines 32-40). */
  ghost predicate Stage(g: Grid, src: Coord, dst: Coord, u: Coord, d: nat, q: seq<Coord>,
                        steps0: seq<GridStep>, steps: seq<GridStep>, s0: Search, s: Search, full: seq<Coord>)
    requires d <= 4
  {
    && Inv(g, src, dst, s) && s.v == s0.v && s.v < |s.order| && s.order[s.v] == u
    && q == s.order[s.v + 1..] && Around(g, s, d)
    && Logged(g, src, steps, s)
    && |Unseen(|g|, s.order)| + |s.order| == |Unseen(|g|, s0.order)| + |s0.order|
    && ChildrenOf(s0, s) && full == s.order + NewCells(g, s.order, u, d)
    && |s0.order| <= |s.order| && steps == steps0 + FrontierEvents(s.order[|s0.order|..])
  }

  lemma StageBegin(g: Grid, src: Coord, dst: Coord, u: Coord, q: seq<Coord>, steps0: seq<GridStep>, s0: Search)
    requires Inv(g, src, dst, s0) && s0.v < |s0.order| && u == s0.order[s0.v]
    requires q == s0.order[s0.v + 1..] && Logged(g, src, steps0, s0)
    ensures Stage(g, src, dst, u, 0, q, steps0, steps0, s0, s0, s0.order + NewCells(g, s0.order, u, 0))
  {
    assert s0.order[|s0.order|..] == [];
    assert steps0 + FrontierEvents([]) == steps0;
  }

  /** Move d finds w open and undiscovered: w joins the record, the queue and the log. */
  lemma StageTake(g: Grid, src: Coord, dst: Coord, u: Coord, d: nat, q: seq<Coord>,
                  steps0: seq<GridStep>, steps: seq<GridStep>, s0: Search, s: Search, full: seq<Coord>, w: Coord)
    requires d < 4 && Stage(g, src, dst, u, d, q, steps0, steps, s0, s, full)
    requires w == Neighbour(u, d) && Open(g, w) && w !in s.order
    requires Logged(g, src, steps + [Frontier(w.r, w.c)], Grow(s, w))
    ensures Stage(g, src, dst, u, d + 1, q + [w], steps0, steps + [Frontier(w.r, w.c)], s0, Grow(s, w), full)
  {
    QueueGrow(s.order, s.v + 1, w);
    FrontierExtend(steps0, s.order, |s0.order|, w);
    UnseenShrinks(|g|, s.order, w);
    GrowInv(g, src, dst, s, w, d);
    GrowChildren(s0, s, w);
    NewCellsTake(g, s0.order, s.order, u, d, full);
  }

  /** Move d finds a wall, a cell off the grid or a discovered cell: nothing changes. */
  lemma StageSkip(g: Grid, src: Coord, dst: Coord, u: Coord, d: nat, q: seq<Coord>,
                  steps0: seq<GridStep>, steps: seq<GridStep>, s0: Search, s: Search, full: seq<Coord>)
    requires d < 4 && Stage(g, src, dst, u, d, q, steps0, steps, s0, s, full)
    requires Open(g, Neighbour(u, d)) ==> Neighbour(u, d) in s.order
    ensures Stage(g, src, dst, u, d + 1, q, steps0, steps, s0, s, full)
  {
    AroundMore(g, s, d);
    NewCellsSkip(g, s.order, u, d);
  }

  lemma StageEnd(g: Grid, src: Coord, dst: Coord, u: Coord, q: seq<Coord>,
                 steps0: seq<GridStep>, steps: seq<GridStep>, s0: Search, s: Search)
    requires Stage(g, src, dst, u, 4, q, steps0, steps, s0, s, s0.order + NewCells(g, s0.order, u, 0))
    ensures s.order == s0.order + NewCells(g, s0.order, u, 0)
    ensures steps == steps0 + FrontierEvents(NewCells(g, s0.order, u, 0))
  {
    DropPrefix(s0.order, NewCells(g, s0.order, u, 0), s.order);
  }

  // ------------------------------------------------------------- the methods

  /** Lines 32-40: try the four moves out of u, discovering every open cell not seen before. */
  method Expand(grid: Grid, seen: array2<bool>, parent: array2<Option<Coord>>, u: Coord,
                q0: seq<Coord>, steps0: seq<GridStep>, ghost src: Coord, ghost dst: Coord, ghost s0: Search)
    returns (q: seq<Coord>, steps: seq<GridStep>, ghost s: Search)
    requires Rows(grid) && Inv(grid, src, dst, s0) && s0.v < |s0.order| && u == s0.order[s0.v]
    requires q0 == s0.order[s0.v + 1..] && Logged(grid, src, steps0, s0)
    requires SeenIs(seen, |grid|, s0.order) && ParentIs(parent, |grid|, s0)
    modifies seen, parent
    ensures Inv(grid, src, dst, s) && s.v == s0.v && s.v < |s.order| && s.order[s.v] == u
    ensures q == s.order[s.v + 1..] && Around(grid, s, 4)
    ensures Logged(grid, src, steps, s)
    ensures SeenIs(seen, |grid|, s.order) && ParentIs(parent, |grid|, s)
    ensures |Unseen(|grid|, s.order)| + |s.order| == |Unseen(|grid|, s0.order)| + |s0.order|
    ensures ChildrenOf(s0, s) && s.order == s0.order + NewCells(grid, s0.order, u, 0)
    ensures steps == steps0 + FrontierEvents(NewCells(grid, s0.order, u, 0))
  {
    var n := |grid|;
    q, steps, s := q0, steps0, s0;
    ghost var full := s0.order + NewCells(grid, s0.order, u, 0);
    StageBegin(grid, src, dst, u, q0, steps0, s0);
    for d := 0 to 4
      invariant Stage(grid, src, dst, u, d, q, steps0, steps, s0, s, full)
      invariant SeenIs(seen, n, s.order) && ParentIs(parent, n, s)
    {
      var w := Neighbour(u, d);
      if Inside(n, w) && !seen[w.r, w.c] && !grid[w.r][w.c].wall {
        Record(seen, parent, n, u, w, s);
        var steps' := Discover(grid, src, steps, s, w);
        StageTake(grid, src, dst, u, d, q, steps0, steps, s0, s, full, w);
        q, steps, s := q + [w], steps', Grow(s, w);
      } else {
        StageSkip(grid, src, dst, u, d, q, steps0, steps, s0, s, full);
      }
    }
    StageEnd(grid, src, dst, u, q, steps0, steps, s0, s);
  }

  /** Line 38: the frontier event of a newly discovered cell. */
  method Discover(g: Grid, ghost src: Coord, steps0: seq<GridStep>, ghost s: Search, w: Coord)
    returns (steps: seq<GridStep>)
    requires Shape(s) && s.v < |s.order| && Logged(g, src, steps0, s) && Adjacent(s.order[s.v], w)
    ensures steps == steps0 + [Frontier(w.r, w.c)] && Logged(g, src, steps, Grow(s, w))
  {
    steps := steps0 + [Frontier(w.r, w.c)];
    LogAppend(steps0, Frontier(w.r, w.c));
    AfterMore(g, steps0, Frontier(w.r, w.c));
    NearFrontier(steps0, w);
    assert Grow(s, w).order[..s.v] == s.order[..s.v];
  }

  /** Lines 35-36: mark w seen and record u as its parent. */
  method Record(seen: array2<bool>, parent: array2<Option<Coord>>, n: int, u: Coord, w: Coord, ghost s: Search)
    requires Shape(s) && s.v < |s.order| && u == s.order[s.v] && Inside(n, w) && w !in s.order
    requires SeenIs(seen, n, s.order) && ParentIs(parent, n, s)
    modifies seen, parent
    ensures SeenIs(seen, n, Grow(s, w).order) && ParentIs(parent, n, Grow(s, w))
  {
    seen[w.r, w.c] := true;
    parent[w.r, w.c] := Some(u);
    ghost var t := Grow(s, w);
    forall k | 1 <= k < |t.order|
      ensures Inside(n, t.order[k]) && t.up[k] < |t.order| &&
              parent[t.order[k].r, t.order[k].c] == Some(t.order[t.up[k]])
    {
      if k < |s.order| {
        assert s.up[k] < |s.order|;
        assert t.order[k] == s.order[k] != w && t.up[k] == s.up[k];
      }
    }
    forall r, c | 0 <= r < n && 0 <= c < n && parent[r, c].Some? ensures Coord(r, c) in t.order[1..] {
      if Coord(r, c) != w {
        var i :| 0 <= i < |s.order[1..]| && s.order[1..][i] == Coord(r, c);
        assert t.order[1..][i] == Coord(r, c);
      } else {
        assert t.order[1..][|s.order| - 1] == w;
      }
    }
  }

  lemma QueueGrow(o: seq<Coord>, i: nat, w: Coord)
    requires i <= |o|
    ensures o[i..] + [w] == (o + [w])[i..]
  {
  }

  /** One path event per cell, in order. */
  function PathEvents(c: seq<Coord>): (e: seq<GridStep>)
    ensures |e| == |c|
  {
    if c == [] then [] else PathEvents(c[..|c| - 1]) + [Path(c[|c| - 1].r, c[|c| - 1].c)]
  }

  /** Appending path events leaves the search's part of the log as it was and puts the path last. */
  lemma PathsAppended(g: Grid, pre: seq<GridStep>, c: seq<Coord>)
    requires NoPath(pre) && VisitsAfter(g, pre) && FromExpanded(pre)
    ensures pre <= pre + PathEvents(c) && PathLast(pre + PathEvents(c)) && VisitsAfter(g, pre + PathEvents(c))
    ensures FromExpanded(pre + PathEvents(c))
    ensures Frontiers(pre + PathEvents(c)) == Frontiers(pre) && Visits(pre + PathEvents(c)) == Visits(pre)
    ensures Paths(pre + PathEvents(c)) == c
  {
    PathsProjected(pre, c);
    PathsLast(g, pre, c);
  }

  /** The path events add exactly c to the path projection and nothing to the others. */
  lemma {:induction false} PathsProjected(pre: seq<GridStep>, c: seq<Coord>)
    requires NoPath(pre)
    ensures Frontiers(pre + PathEvents(c)) == Frontiers(pre) && Visits(pre + PathEvents(c)) == Visits(pre)
    ensures Paths(pre + PathEvents(c)) == c
  {
    if c == [] {
      assert pre + PathEvents(c) == pre;
      NoPathPaths(pre);
    } else {
      var c0 := c[..|c| - 1];
      var x := c[|c| - 1];
      PathsProjected(pre, c0);
      var log := pre + PathEvents(c0);
      PathEventsLast(pre, c);
      LogAppend(log, Path(x.r, x.c));
      LastSplit(c);
    }
  }

  lemma PathEventsLast(pre: seq<GridStep>, c: seq<Coord>)
    requires c != []
    ensures pre + PathEvents(c) == pre + PathEvents(c[..|c| - 1]) + [Path(c[|c| - 1].r, c[|c| - 1].c)]
  {
  }

  lemma LastSplit(c: seq<Coord>)
    requires c != []
    ensures c == c[..|c| - 1] + [c[|c| - 1]]
  {
  }

  /** The path events come after every other event and add no visit. */
  lemma {:induction false} PathsLast(g: Grid, pre: seq<GridStep>, c: seq<Coord>)
    requires NoPath(pre) && VisitsAfter(g, pre) && FromExpanded(pre)
    ensures pre <= pre + PathEvents(c) && PathLast(pre + PathEvents(c)) && VisitsAfter(g, pre + PathEvents(c))
    ensures FromExpanded(pre + PathEvents(c))
  {
    if c == [] {
      assert pre + PathEvents(c) == pre;
    } else {
      var c0 := c[..|c| - 1];
      var x := c[|c| - 1];
      PathsLast(g, pre, c0);
      var log := pre + PathEvents(c0);
      PathEventsLast(pre, c);
      AfterMore(g, log, Path(x.r, x.c));
      NearMore(log, Path(x.r, x.c));
      PathMore(log, x);
    }
  }

  /** Lines 45-49: follow the parent links from start, logging one path event per cell. */
  method WalkBack(parent: array2<Option<Coord>>, ghost g: Grid, ghost src: Coord, steps0: seq<GridStep>,
                  start: Option<Coord>, ghost s: Search, ghost j0: nat)
    returns (steps: seq<GridStep>)
    requires Discovered(g, src, s.order) && Levels(s) && ParentIs(parent, |g|, s) && 0 <= src.r < |g|
    requires start.Some? ==> j0 < |s.order| && s.order[j0] == start.value
    ensures steps == steps0 + PathEvents(if start.Some? then Back(s, j0) else [])
  {
    steps := steps0;
    var cur := start;
    ghost var j: nat := j0;
    ghost var done: seq<Coord> := [];
    ghost var chain := if start.Some? then Back(s, j0) else [];
    assert steps0 + PathEvents([]) == steps0;
    while cur.Some?
      invariant cur.Some? ==> j < |s.order| && s.order[j] == cur.value
      invariant chain == done + if cur.Some? then Back(s, j) else []
      invariant steps == steps0 + PathEvents(done)
      decreases if cur.Some? then j + 1 else 0
    {
      var x := cur.value;
      Extend(steps0, done, x);
      steps := steps + [Path(x.r, x.c)];
      LookupFound(parent, g, src, s, j);
      var p := Lookup(parent, x);
      BackStep(s, done, j);
      done := done + [x];
      if p.Some? {
        cur := Some(Coord(p.value.r, p.value.c));
        j := s.up[j];
      } else {
        cur := None;
      }
    }
    assert done + [] == done;
  }

  lemma Extend(pre: seq<GridStep>, done: seq<Coord>, x: Coord)
    ensures pre + PathEvents(done) + [Path(x.r, x.c)] == pre + PathEvents(done + [x])
  {
    assert (done + [x])[..|done|] == done;
  }

  /** One link of the chain: order[j] followed by the chain of its parent, or the start alone. */
  lemma BackStep(s: Search, done: seq<Coord>, j: nat)
    requires Levels(s) && j < |s.order|
    ensures j > 0 ==> s.up[j] < |s.order| && done + Back(s, j) == (done + [s.order[j]]) + Back(s, s.up[j])
    ensures j == 0 ==> done + Back(s, j) == done + [s.order[j]]
  {
    if j > 0 {
      assert s.up[j] < j;
      assert Back(s, j) == [s.order[j]] + Back(s, s.up[j]);
    }
  }

  /**
   * What generateStepsBFS promises about its log: it opens with the start's
   * frontier event; no cell is discovered twice, and every discovered cell but
   * the start is open; cells are visited in discovery order and dst is never
   * visited; each visit follows the frontier events of the visited cell's
   * open neighbours; path events come last. There are path events exactly
   * when dst was discovered, which is exactly when dst is reachable; then the
   * search stopped at dst, and otherwise it expanded every discovered cell.
   * The path runs from dst back to the start, read backwards it is a walk,
   * and no walk from the start to dst is shorter.
   */
  ghost predicate Answer(g: Grid, src: Coord, dst: Coord, steps: seq<GridStep>) {
    SearchShape(g, src, dst, steps) && PathShape(g, src, dst, steps)
  }

  ghost predicate SearchShape(g: Grid, src: Coord, dst: Coord, steps: seq<GridStep>) {
    && |steps| >= 1 && steps[0] == Frontier(src.r, src.c)
    && Distinct(Frontiers(steps)) && |Frontiers(steps)| >= 1 && Frontiers(steps)[0] == src
    && (forall k :: 1 <= k < |Frontiers(steps)| ==> Open(g, Frontiers(steps)[k]))
    && Visits(steps) <= Frontiers(steps) && dst !in Visits(steps)
    && VisitsAfter(g, steps) && PathLast(steps) && FromExpanded(steps)
  }

  ghost predicate PathShape(g: Grid, src: Coord, dst: Coord, steps: seq<GridStep>) {
    && (Paths(steps) != [] <==> dst in Frontiers(steps))
    && (Paths(steps) != [] <==> Reachable(g, src, dst))
    && (dst in Frontiers(steps) ==>
          |Visits(steps)| < |Frontiers(steps)| && Frontiers(steps)[|Visits(steps)|] == dst)
    && (dst !in Frontiers(steps) ==> Visits(steps) == Frontiers(steps))
    && (Paths(steps) != [] ==>
          Paths(steps)[0] == dst && Paths(steps)[|Paths(steps)| - 1] == src &&
          Walk(g, src, Reverse(Paths(steps))))
    && (forall w :: Walk(g, src, w) && w[|w| - 1] == dst ==> |Paths(steps)| <= |w|)
  }

  /** What the finished search establishes about the search part of the log. */
  lemma OutcomeSearch(g: Grid, src: Coord, dst: Coord, s: Search, pre: seq<GridStep>, steps: seq<GridStep>)
    requires Logged(g, src, pre, s) && Discovered(g, src, s.order) && dst !in s.order[..s.v]
    requires pre <= steps && PathLast(steps) && VisitsAfter(g, steps) && FromExpanded(steps)
    requires Frontiers(steps) == Frontiers(pre) && Visits(steps) == Visits(pre)
    ensures SearchShape(g, src, dst, steps)
  {
    assert steps[0] == pre[0];
  }

  /** When the search stopped at dst: the path is the parent chain of dst, and it is shortest. */
  lemma OutcomeFound(g: Grid, src: Coord, dst: Coord, s: Search, pre: seq<GridStep>, steps: seq<GridStep>)
    requires Inv(g, src, dst, s) && Logged(g, src, pre, s) && s.v < |s.order| && s.order[s.v] == dst
    requires Frontiers(steps) == Frontiers(pre) && Visits(steps) == Visits(pre)
    requires Paths(steps) == Back(s, s.v)
    ensures PathShape(g, src, dst, steps)
  {
    BackWalk(g, src, s, s.v);
    var p := Back(s, s.v);
    assert Reverse(p)[|p| - 1] == dst;
    assert Reachable(g, src, dst);
    forall w | Walk(g, src, w) && w[|w| - 1] == dst ensures |p| <= |w| {
      Shortest(g, src, dst, s, w);
    }
  }

  /** When the queue ran dry: dst was never discovered and cannot be reached. */
  lemma OutcomeMissed(g: Grid, src: Coord, dst: Coord, s: Search, pre: seq<GridStep>, steps: seq<GridStep>)
    requires Inv(g, src, dst, s) && Logged(g, src, pre, s) && s.v == |s.order|
    requires Frontiers(steps) == Frontiers(pre) && Visits(steps) == Visits(pre)
    requires Paths(steps) == []
    ensures PathShape(g, src, dst, steps)
  {
    assert s.order[..s.v] == s.order;
    forall w | Walk(g, src, w) ensures w[|w| - 1] != dst {
      Drained(g, src, dst, s, w);
    }
  }

  /** Line 44: the path walk starts at dst when dst has a parent or is the start itself. */
  lemma StartsAtDst(parent: array2<Option<Coord>>, g: Grid, src: Coord, dst: Coord, s: Search, found: bool)
    requires Inv(g, src, dst, s) && ParentIs(parent, |g|, s) && 0 <= src.r < |g| && 0 <= dst.r < |g|
    requires found ==> s.v < |s.order| && s.order[s.v] == dst
    requires !found ==> s.v == |s.order|
    ensures (Lookup(parent, dst).Some? || src == dst) <==> found
  {
    if found {
      LookupFound(parent, g, src, s, s.v);
    } else {
      assert s.order[..s.v] == s.order;
      LookupMissing(parent, |g|, s, dst);
    }
  }

  /**
   * generateStepsBFS: breadth-first search from src that stops when dst is
   * dequeued, then the walk back from dst along the parent links. src and dst
   * must lie in existing rows (line 27 and line 44 index the rows); a column
   * off the grid is accepted, as the source accepts it.
   */
  method GenerateStepsBFS(grid: Grid, src: Coord, dst: Coord) returns (steps: seq<GridStep>)
    requires Rows(grid) && 0 <= src.r < |grid| && 0 <= dst.r < |grid|
    ensures |steps| >= 1 && steps[0] == Frontier(src.r, src.c)
    ensures Distinct(Frontiers(steps)) && |Frontiers(steps)| >= 1 && Frontiers(steps)[0] == src
    ensures forall k :: 1 <= k < |Frontiers(steps)| ==> Open(grid, Frontiers(steps)[k])
    ensures Visits(steps) <= Frontiers(steps) && dst !in Visits(steps)
    ensures VisitsAfter(grid, steps) && PathLast(steps) && FromExpanded(steps)
    ensures Paths(steps) != [] <==> dst in Frontiers(steps)
    ensures Paths(steps) != [] <==> Reachable(grid, src, dst)
    ensures dst in Frontiers(steps) ==>
              |Visits(steps)| < |Frontiers(steps)| && Frontiers(steps)[|Visits(steps)|] == dst
    ensures dst !in Frontiers(steps) ==> Visits(steps) == Frontiers(steps)
    ensures Paths(steps) != [] ==>
              Paths(steps)[0] == dst && Paths(steps)[|Paths(steps)| - 1] == src &&
              Walk(grid, src, Reverse(Paths(steps)))
    ensures forall w :: Walk(grid, src, w) && w[|w| - 1] == dst ==> |Paths(steps)| <= |w|
  {
    var seen, parent, q;
    ghost var s;
    seen, parent, q, steps, s := Begin(grid, src, dst);
    ghost var found;
    steps, s, found := Explore(grid, src, dst, seen, parent, q, steps, s);
    steps := Finish(grid, parent, src, dst, steps, s, found);
  }

  /** Lines 20-28: the empty matrices, the queue holding src, and src marked seen and logged. */
  method Begin(grid: Grid, src: Coord, ghost dst: Coord)
    returns (seen: array2<bool>, parent: array2<Option<Coord>>, q: seq<Coord>, steps: seq<GridStep>, ghost s: Search)
    requires 0 <= src.r < |grid|
    ensures fresh(seen) && fresh(parent)
    ensures s == Search([src], [0], [0], 0) && q == [src] && steps == [Frontier(src.r, src.c)]
    ensures Inv(grid, src, dst, s) && q == s.order[s.v..] && Logged(grid, src, steps, s)
    ensures SeenIs(seen, |grid|, s.order) && ParentIs(parent, |grid|, s)
  {
    var n := |grid|;
    parent := new Option<Coord>[n, n]((_, _) => None);
    seen := new bool[n, n]((_, _) => false);
    q := [src];
    if 0 <= src.c < n {
      seen[src.r, src.c] := true;
    }
    steps := [Frontier(src.r, src.c)];
    s := Search([src], [0], [0], 0);
    Start(grid, src, dst);
    assert [Frontier(src.r, src.c)][..0] == [];
    SeenFirst(seen, n, src);
    ParentFirst(parent, n, src);
  }

  lemma SeenFirst(seen: array2<bool>, n: int, src: Coord)
    requires seen.Length0 == n && seen.Length1 == n
    requires forall r, c :: 0 <= r < n && 0 <= c < n ==> (seen[r, c] <==> Coord(r, c) == src)
    ensures SeenIs(seen, n, [src])
  {
  }

  lemma ParentFirst(parent: array2<Option<Coord>>, n: int, src: Coord)
    requires parent.Length0 == n && parent.Length1 == n
    requires forall r, c :: 0 <= r < n && 0 <= c < n ==> parent[r, c] == None
    ensures ParentIs(parent, n, Search([src], [0], [0], 0))
  {
  }

  /**
   * Lines 29-42: dequeue, stop at dst, otherwise expand and log the visit.
   * found says whether the loop stopped at dst (the cell at position v of the
   * discovery order) rather than running out of cells.
   */
  method Explore(grid: Grid, src: Coord, dst: Coord, seen: array2<bool>, parent: array2<Option<Coord>>,
                 q0: seq<Coord>, steps0: seq<GridStep>, ghost s0: Search)
    returns (steps: seq<GridStep>, ghost s: Search, ghost found: bool)
    requires Rows(grid) && Inv(grid, src, dst, s0) && q0 == s0.order[s0.v..] && Logged(grid, src, steps0, s0)
    requires SeenIs(seen, |grid|, s0.order) && ParentIs(parent, |grid|, s0)
    modifies seen, parent
    ensures Inv(grid, src, dst, s) && Logged(grid, src, steps, s) && ParentIs(parent, |grid|, s)
    ensures found ==> s.v < |s.order| && s.order[s.v] == dst
    ensures !found ==> s.v == |s.order|
  {
    var n := |grid|;
    var q := q0;
    steps, s, found := steps0, s0, false;
    while |q| > 0
      invariant Inv(grid, src, dst, s) && q == s.order[s.v..] && !found
      invariant Logged(grid, src, steps, s)
      invariant SeenIs(seen, n, s.order) && ParentIs(parent, n, s)
      decreases |Unseen(n, s.order)|, |q|
    {
      var u := q[0];
      q := q[1..];
      if u == dst {
        found := true;
        break;
      }
      q, steps, s := Round(grid, seen, parent, u, q, steps, src, dst, s);
    }
  }

  /** Lines 44-50, after the search loop. */
  method Finish(grid: Grid, parent: array2<Option<Coord>>, src: Coord, dst: Coord, pre: seq<GridStep>,
                ghost s: Search, ghost found: bool)
    returns (steps: seq<GridStep>)
    requires Inv(grid, src, dst, s) && Logged(grid, src, pre, s)
    requires ParentIs(parent, |grid|, s) && 0 <= src.r < |grid| && 0 <= dst.r < |grid|
    requires found ==> s.v < |s.order| && s.order[s.v] == dst
    requires !found ==> s.v == |s.order|
    ensures Answer(grid, src, dst, steps)
  {
    var start := if Lookup(parent, dst).Some? || src == dst then Some(dst) else None;
    StartsAtDst(parent, grid, src, dst, s, found);
    steps := WalkBack(parent, grid, src, pre, start, s, s.v);
    PathsAppended(grid, pre, if found then Back(s, s.v) else []);
    OutcomeSearch(grid, src, dst, s, pre, steps);
    if found {
      OutcomeFound(grid, src, dst, s, pre, steps);
    } else {
      OutcomeMissed(grid, src, dst, s, pre, steps);
    }
  }

  /** Lines 32-41: expand the dequeued cell u, then log its visit. */
  method Round(grid: Grid, seen: array2<bool>, parent: array2<Option<Coord>>, u: Coord,
               q0: seq<Coord>, steps0: seq<GridStep>, ghost src: Coord, ghost dst: Coord, ghost s0: Search)
    returns (q: seq<Coord>, steps: seq<GridStep>, ghost s: Search)
    requires Rows(grid) && Inv(grid, src, dst, s0) && s0.v < |s0.order| && u == s0.order[s0.v] && u != dst
    requires q0 == s0.order[s0.v + 1..] && Logged(grid, src, steps0, s0)
    requires SeenIs(seen, |grid|, s0.order) && ParentIs(parent, |grid|, s0)
    modifies seen, parent
    ensures Inv(grid, src, dst, s) && q == s.order[s.v..] && Logged(grid, src, steps, s)
    ensures SeenIs(seen, |grid|, s.order) && ParentIs(parent, |grid|, s)
    ensures |Unseen(|grid|, s.order)| < |Unseen(|grid|, s0.order)| ||
            (|Unseen(|grid|, s.order)| == |Unseen(|grid|, s0.order)| && |q| < |q0| + 1)
    ensures s.v == s0.v + 1 && s.order[s0.v] == u && ChildrenOf(s0, s)
    ensures s.order == s0.order + NewCells(grid, s0.order, u, 0)
    ensures steps == steps0 + FrontierEvents(NewCells(grid, s0.order, u, 0)) + [Visit(u.r, u.c)]
  {
    ghost var s1;
    var steps1;
    q, steps1, s1 := Expand(grid, seen, parent, u, q0, steps0, src, dst, s0);
    steps := Visited(grid, src, u, steps1, s1);
    RoundDone(grid, src, dst, u, q, steps0, steps1, steps, s0, s1);
    ParentsKept(parent, |grid|, s1);
    s := s1.(v := s1.v + 1);
  }

  /** The parent matrix does not depend on how many cells have been expanded. */
  lemma ParentsKept(parent: array2<Option<Coord>>, n: int, s: Search)
    requires ParentIs(parent, n, s) && s.v < |s.order|
    ensures ParentIs(parent, n, s.(v := s.v + 1))
  {
    var t := s.(v := s.v + 1);
    forall k | 1 <= k < |t.order|
      ensures Inside(n, t.order[k]) && t.up[k] < |t.order| && parent[t.order[k].r, t.order[k].c] == Some(t.order[t.up[k]])
    {
      assert s.up[k] == t.up[k];
    }
    assert t.order[1..] == s.order[1..];
  }

  /** What one round establishes, from the expansion and the visit. */
  lemma RoundDone(g: Grid, src: Coord, dst: Coord, u: Coord, q: seq<Coord>,
                  steps0: seq<GridStep>, steps1: seq<GridStep>, steps: seq<GridStep>, s0: Search, s1: Search)
    requires s0.v < |s0.order| && u == s0.order[s0.v] && u != dst
    requires Inv(g, src, dst, s1) && s1.v == s0.v && s1.v < |s1.order| && s1.order[s1.v] == u
    requires q == s1.order[s1.v + 1..] && Around(g, s1, 4)
    requires |Unseen(|g|, s1.order)| + |s1.order| == |Unseen(|g|, s0.order)| + |s0.order|
    requires ChildrenOf(s0, s1) && s1.order == s0.order + NewCells(g, s0.order, u, 0)
    requires steps1 == steps0 + FrontierEvents(NewCells(g, s0.order, u, 0))
    requires steps == steps1 + [Visit(u.r, u.c)]
    ensures var s := s1.(v := s1.v + 1);
      && Inv(g, src, dst, s) && q == s.order[s.v..]
      && (|Unseen(|g|, s.order)| < |Unseen(|g|, s0.order)| ||
          (|Unseen(|g|, s.order)| == |Unseen(|g|, s0.order)| && |q| < |s0.order[s0.v + 1..]| + 1))
      && s.v == s0.v + 1 && s.order[s0.v] == u && ChildrenOf(s0, s)
      && s.order == s0.order + NewCells(g, s0.order, u, 0)
      && steps == steps0 + FrontierEvents(NewCells(g, s0.order, u, 0)) + [Visit(u.r, u.c)]
  {
    Expanded(g, src, dst, s1);
    var s := s1.(v := s1.v + 1);
    Progress(s0, s, |g|);
  }

  /** Line 41: the visit event once every move of the dequeued cell has been tried. */
  method Visited(g: Grid, ghost src: Coord, u: Coord, steps0: seq<GridStep>, ghost s: Search)
    returns (steps: seq<GridStep>)
    requires Shape(s) && s.v < |s.order| && u == s.order[s.v] && Around(g, s, 4)
    requires Logged(g, src, steps0, s)
    ensures steps == steps0 + [Visit(u.r, u.c)] && Logged(g, src, steps, s.(v := s.v + 1))
  {
    steps := steps0 + [Visit(u.r, u.c)];
    AroundFound(g, s);
    LogAppend(steps0, Visit(u.r, u.c));
    AfterVisit(g, steps0, u);
    NearMore(steps0, Visit(u.r, u.c));
    TakeNext(s.order, s.v);
  }

  lemma AroundFound(g: Grid, s: Search)
    requires Shape(s) && s.v < |s.order| && Around(g, s, 4)
    ensures forall d :: 0 <= d < 4 && Open(g, Neighbour(s.order[s.v], d)) ==> Neighbour(s.order[s.v], d) in s.order
  {
    forall d | 0 <= d < 4 && Open(g, Neighbour(s.order[s.v], d)) ensures Neighbour(s.order[s.v], d) in s.order {
      assert Tried(g, s, s.v, d);
    }
  }

  lemma TakeNext(o: seq<Coord>, i: nat)
    requires i < |o|
    ensures o[..i + 1] == o[..i] + [o[i]]
  {
  }

  /** One pass of the search loop: a cell was discovered, or the queue got shorter. */
  lemma Progress(s0: Search, s: Search, n: int)
    requires s0.v < |s0.order| && s0.order <= s.order && s.v == s0.v + 1
    requires |Unseen(n, s.order)| + |s.order| == |Unseen(n, s0.order)| + |s0.order|
    ensures |Unseen(n, s.order)| < |Unseen(n, s0.order)| ||
            (|Unseen(n, s.order)| == |Unseen(n, s0.order)| && |s.order| - s.v < |s0.order| - s0.v)
  {
  }
}
