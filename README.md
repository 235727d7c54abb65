# d3-algos step generators in Dafny

d3-algos animates classic algorithms. Each algorithm runs on a private copy of
its input and appends semantic events to a log, and a renderer later plays the
log back. This project models the generating layer and proves what those logs
mean:

- the seeded Mulberry32 generator (`src/core/stepEngine.ts`), as a class
  whose 32-bit accumulator each `Draw` advances, plus the text-to-seed fold
  from `src/app.ts:122`;
- the two event unions `SortStep` and `GridStep`, as datatypes (`steps.dfy`);
- `generateStepsBubble` and `generateStepsInsertion`, as methods over a fresh
  array copy. Each is specified by a function on values that mirrors its
  loops. A replay interpreter (`sortreplay.dfy`) applies compare, swap,
  overwrite and markSorted events to the values they denote, and the lemmas prove:
  - the log drives the input to a sorted permutation of it;
  - the events have exactly the shapes the loops emit;
  - the small inputs end exactly as the code makes them end;
- the bar data that `src/app.ts` draws and edits while it plays a sorting
  log (`render.dfy`). Its swap does not move the values the log denotes:
  see "## Findings";
- `generateGrid` with the random wall draws supplied as a sequence, and
  `generateStepsBFS`, as a method with a FIFO queue, `seen` and `parent`
  matrices (`array2`), and the walk back along the parent links.

The proof follows the search with a ghost record `Search`:
- the cells in discovery order;
- how many of them have been expanded;
- each cell's level, its distance from the start along parent links;
- each cell's parent index.

From that record the model proves what the log says. Every cell is
discovered at most once. Visits follow discovery order. The destination is
never visited. Path events appear exactly when the destination is reachable,
and then they form a shortest 4-connected walk from the destination back to
the start.

In `bfs.ts` the `break` at line 31, taken as soon as the destination is
dequeued, comes before the visit logged at line 41, so `dst` is never
visited; the model follows the code.

## Model

| member | source | states |
|---|---|---|
| Rng.Mulberry32.constructor | src/core/stepEngine.ts:15-16 | the accumulator starts at the seed coerced to 32 bits, with no draws made |
| Rng.Mulberry32.Draw | src/core/stepEngine.ts:17-20 | the accumulator advances by 0x6D2B79F5 modulo 2^32; the numerator returned is the scramble of the new accumulator, i.e. of seed + k * 0x6D2B79F5 modulo 2^32 on the k-th draw |
| Rng.Unit | src/core/stepEngine.ts:20 | the value returned is in [0, 1) and is the numerator over 2^32 exactly |
| Rng.StateAfterClosedForm | src/core/stepEngine.ts:17 | after k draws the accumulator is seed + k * 0x6D2B79F5 modulo 2^32 |
| Rng.StreamClosedForm | src/core/stepEngine.ts:15-21 | the i-th output of a stream is the output function of seed + (i + 1) * 0x6D2B79F5 modulo 2^32, so equal seeds give equal streams |
| Rng.StreamPrefix | src/core/stepEngine.ts:15-21 | later draws never change earlier ones: a shorter stream is a prefix of a longer one |
| Rng.CongruentSeeds | src/core/stepEngine.ts:17-20 | integer seeds congruent modulo 2^32 give the same stream of any length |
| Rng.CodeUnit | src/app.ts:122 | the code read for a character is its first UTF-16 code unit: the character itself below U+10000, otherwise its high surrogate, which lies in [0xD800, 0xDC00) and names the 1024-character block holding it |
| Rng.SeedOfText | src/app.ts:122 | the seed loop yields the polynomial sum of the first UTF-16 code units of the characters with base 31, modulo 2^32 |
| Rng.SeedFoldIsPolynomial | src/app.ts:122 | coercing to 32 bits after every character equals coercing once at the end |
| Rng.SeedOfAbc | src/app.ts:122 | the text "abc" yields seed 96354 |
| Rng.SeedOfGrinningFace | src/app.ts:122 | a character beyond U+FFFF contributes its high surrogate: U+1F600 folds to 0xD83D, not 0x1F600 |
| SortReplay.Slice | src/algorithms/sorting/bubble.ts:4 | the copy is a fresh array holding the same values |
| SortReplay.Apply | src/core/stepEngine.ts:1-5 | a swap exchanges the values at two positions, an overwrite sets the value at one position, compare and markSorted change nothing, and events naming missing positions change nothing |
| SortReplay.ReplayAppend | src/core/stepEngine.ts:1-5 | playing two logs in turn is playing their concatenation |
| SortReplay.ReplaySwapsPermutes | src/algorithms/sorting/bubble.ts:14-15 | a log without overwrites only rearranges the values |
| Bubble.GenerateStepsBubble | src/algorithms/sorting/bubble.ts:3-23 | the log returned is BubbleLog of the input values; the input array is not modified |
| Bubble.SweepPass | src/algorithms/sorting/bubble.ts:9-18 | the inner loop takes the working copy, log and flag to the sweep function's result |
| Bubble.BubbleReplay | src/algorithms/sorting/bubble.ts:8-18 | replaying the log reproduces the final working copy, which is a permutation of the input; every compare is of neighbours in range and is followed by their swap exactly when the left value is strictly greater, and no other swap or overwrite occurs |
| Bubble.FaithfulSwapsOnly | src/algorithms/sorting/bubble.ts:12-15 | a log of that protocol holds no overwrite |
| Bubble.BubbleSorts | src/algorithms/sorting/bubble.ts:8-21 | replaying the log on the input gives a sorted permutation of it |
| Bubble.NthOrders | src/algorithms/sorting/bubble.ts:8-19 | after q passes the last q positions are sorted and hold the largest values; after a pass without a swap everything is sorted |
| Bubble.MarkSettles | src/algorithms/sorting/bubble.ts:8-19 | at markSorted(n-1-p) the log so far replays to values whose positions n-1-p..n-1 already hold their final values |
| Bubble.PassCountBounds | src/algorithms/sorting/bubble.ts:8-16 | fewer than two values run no pass; otherwise 1 to n-1 passes run, every pass but the last swapped, and a stop before pass n-1 follows a pass without a swap |
| Bubble.StopReason | src/algorithms/sorting/bubble.ts:8-9 | the outer loop stops at the last possible pass or after a pass without a swap |
| Bubble.NthLog | src/algorithms/sorting/bubble.ts:10-19 | after q passes the compares are the neighbour pairs (i, i+1) with i+1 <= n-1-p for each pass p, the marks are n-1, ..., n-q, and the last event is markSorted(n-q) |
| Bubble.BubbleShape | src/algorithms/sorting/bubble.ts:10-21 | the compares of the whole log are those ladders for the passes run; the marks are n-1, ..., n-p followed by 0 |
| Bubble.BubbleMarks | src/algorithms/sorting/bubble.ts:8-21 | markSorted indices are pairwise distinct and are exactly 0 and n-p..n-1 for the p passes run, so an early exit leaves 1..n-1-p unmarked |
| Bubble.ShortInputs | src/algorithms/sorting/bubble.ts:8-21 | [] and [x] both give exactly [markSorted(0)] |
| Bubble.ThreeTwoOne | tests/bubble.test.ts:6-7 | [3, 2, 1] gives compare(0,1), swap(0,1), compare(1,2), swap(1,2), markSorted(2), compare(0,1), swap(0,1), markSorted(1), markSorted(0) and ends as [1, 2, 3] |
| Insertion.GenerateStepsInsertion | src/algorithms/sorting/insertion.ts:3-20 | the log returned is InsertionLog of the input values; the input array is not modified |
| Insertion.InsertAll | src/algorithms/sorting/insertion.ts:6-17 | the outer loop leaves the working copy and log of the final run |
| Insertion.Advance | src/algorithms/sorting/insertion.ts:6-17 | one outer iteration takes the run before index i to the run before index i + 1 |
| Insertion.InsertAt | src/algorithms/sorting/insertion.ts:7-16 | the body at i moves a[i] down to its slot and logs that iteration's events |
| Insertion.ShiftUp | src/algorithms/sorting/insertion.ts:8-14 | the while loop stops where the scan function says, shifts the values it passed up one place, and logs a compare and an overwrite for each |
| Insertion.MarkEvery | src/algorithms/sorting/insertion.ts:18 | the closing loop appends markSorted(0), ..., markSorted(n-1) |
| Insertion.PosBounds | src/algorithms/sorting/insertion.ts:9 | every value the scan passes is strictly greater than the key, and the one it stops at is not |
| Insertion.OuterSorted | src/algorithms/sorting/insertion.ts:6-17 | before index m the first m values of the working copy are in ascending order |
| Insertion.PrefixPermutes | src/algorithms/sorting/insertion.ts:6-17 | before index m the first m values of the working copy are a permutation of the first m input values |
| Insertion.FinalSorted | src/algorithms/sorting/insertion.ts:6-17 | the final working copy is sorted and holds exactly the input values |
| Insertion.ReplayRound | src/algorithms/sorting/insertion.ts:9-16 | replaying one iteration's events moves a[i] to its slot, as the code does |
| Insertion.InsertionReplay | src/algorithms/sorting/insertion.ts:11-18 | replaying the whole log on the input reproduces the final working copy |
| Insertion.InsertionSorts | src/algorithms/sorting/insertion.ts:6-18 | replaying the log on the input gives a sorted permutation of it |
| Insertion.RoundShape | src/algorithms/sorting/insertion.ts:9-16 | each compare(j, j+1) has a[j] > key and is followed by overwrite(j+1, a[j]); the iteration ends with one placing overwrite(p, key) with 0 <= p <= i; the failing comparison is not logged |
| Insertion.InsertionCompares | src/algorithms/sorting/insertion.ts:9-13 | the number of compare events is the number of inversions of the input |
| Insertion.InsertionMarks | src/algorithms/sorting/insertion.ts:18 | the log ends with exactly n events markSorted(0..n-1) in ascending order, and no markSorted comes earlier |
| Insertion.InsertionShortInputs | src/algorithms/sorting/insertion.ts:6-18 | [] gives an empty log and [x] gives exactly [markSorted(0)] |
| SortAgreement.SortersAgree | src/algorithms/sorting/insertion.ts:3-20 | bubble and insertion logs replay every input to the same sorted arrangement, the one bubble sort reaches (bubble.ts:3-23) |
| Render.ScreenShows | src/app.ts:139-147 | the bars renderBars binds to the values show exactly those values: one bar per position, distinct positions, each as tall as its value |
| Render.ShowsUnique | src/app.ts:139-147 | a set of bar data shows one sequence of values only |
| Render.DrawnSwapKeeps | src/app.ts:166-172 | the swap as written, which exchanges both the position and the value of the two bars' data, leaves the chart showing the same values |
| Render.DrawnPlayKeeps | src/app.ts:156-187 | with the swap as written, no log without overwrites changes what the chart shows |
| Render.BubbleOnScreen | src/app.ts:156-187 | for every input, the unchanged input is what the chart shows after playing the whole bubble log |
| Render.ThreeTwoOneOnScreen | src/app.ts:166-172 | the bubble log of [3, 2, 1] denotes [1, 2, 3], yet the chart as written is left showing 3, 2, 1 and not 1, 2, 3 |
| Render.OverwriteShows | src/app.ts:178-183 | an overwrite sets the value of the bar at its position, exactly as the event denotes, and leaves a missing position alone |
| Render.OverwritesShown | src/app.ts:156-187 | a log without swaps leaves the chart as written showing the values the log denotes |
| Render.MovedSwapShows | src/app.ts:171 | a swap that exchanges only the positions of the two bars' data makes the chart show the values with the two positions exchanged |
| Render.MovedPlayShows | src/app.ts:156-187 | with the position-only swap, the chart after any log shows the values the log denotes |
| Render.MovedBubbleSorts | src/app.ts:156-187 | with the position-only swap, the chart after the bubble log shows the input sorted and permuted |
| Grids.GenerateGrid | src/algorithms/graph/bfs.ts:6-17 | N rows of N cells, each carrying its own coordinates; both corners open; every other cell is a wall exactly when its draw (in row-major call order) says so |
| Bfs.Neighbour | src/algorithms/graph/bfs.ts:22 | each of the four moves leads to an adjacent cell |
| Bfs.Toward | src/algorithms/graph/bfs.ts:22 | every adjacent cell is reached by one of the four moves |
| Bfs.GenerateStepsBFS | src/algorithms/graph/bfs.ts:19-51 | the log opens with frontier(src); no cell is discovered twice, and every discovered cell but src is open; visits are a prefix of the discovery order and never include dst; each visit follows the frontier events of all open neighbours of its cell; path events come last; path events appear exactly when dst was discovered and exactly when dst is reachable; every frontier event after the first names a neighbour of the cell being expanded, the earliest discovered cell not yet visited; the search stopped at dst if it was found and expanded every discovered cell otherwise; the path runs from dst to src, reversed it is a walk, and no walk from src to dst is shorter |
| Bfs.Begin | src/algorithms/graph/bfs.ts:20-28 | the queue holds src alone, the seen matrix marks exactly src, the parent matrix is empty, the log is [frontier(src)], and the search record is src alone at level 0 with nothing expanded |
| Bfs.Explore | src/algorithms/graph/bfs.ts:29-42 | the loop stops either with dst dequeued (at the current position of the discovery order) or with every discovered cell expanded, keeping the search invariant and the log in step with it |
| Bfs.Round | src/algorithms/graph/bfs.ts:32-41 | the dequeued cell u, other than dst, is the next cell in discovery order; its open, unseen neighbours are appended to the discovery order in move order with u as parent; the log gains their frontier events and then visit(u); one more cell counts as expanded; the invariants are kept, and a cell is discovered or the queue shrinks |
| Bfs.Expand | src/algorithms/graph/bfs.ts:32-40 | the cells discovered are exactly NewCells of the dequeued cell, its open, unseen neighbours in move order; they are appended to the queue and the discovery order, marked seen, each given the dequeued cell as parent, and the log gains exactly their frontier events; earlier records are unchanged; every move has then been tried |
| Bfs.NewCellsAre | src/algorithms/graph/bfs.ts:32-40 | the cells one expansion discovers are distinct, open, adjacent to the expanded cell and not discovered before, and every open neighbour is discovered before or by it |
| Bfs.Record | src/algorithms/graph/bfs.ts:35-36 | after the two writes, seen and parent describe the grown search record |
| Bfs.Discover | src/algorithms/graph/bfs.ts:38 | the log gains exactly frontier(w), which keeps it in step with the grown search record when w is next to the cell being expanded |
| Bfs.Visited | src/algorithms/graph/bfs.ts:41 | the visit event, logged once all moves are tried, keeps the log in step with one more expanded cell |
| Bfs.GrowInv | src/algorithms/graph/bfs.ts:34-38 | discovering an open unseen neighbour keeps the search invariant |
| Bfs.Expanded | src/algorithms/graph/bfs.ts:30-41 | a dequeued cell other than dst whose moves have all been tried counts as expanded |
| Bfs.StartsAtDst | src/algorithms/graph/bfs.ts:44 | the path walk starts (parent of dst set, or src equal to dst) exactly when the search stopped at dst |
| Bfs.LookupFound | src/algorithms/graph/bfs.ts:47 | the parent matrix gives every discovered cell its parent, and none to src |
| Bfs.WalkBack | src/algorithms/graph/bfs.ts:45-49 | the loop logs one path event per cell of the parent chain from the start cell back to src |
| Bfs.BackWalk | src/algorithms/graph/bfs.ts:44-49 | the parent chain of a discovered cell ends at src, reversed it is a walk, and its length is the cell's level plus one |
| Bfs.PathsAppended | src/algorithms/graph/bfs.ts:45-46 | appending path events keeps the frontier and visit projections, keeps every visit after its neighbours' frontiers, and puts the path events last |
| Bfs.Shortest | src/algorithms/graph/bfs.ts:29-42 | when the search stops at dst, no walk from src to dst is shorter than dst's level plus one |
| Bfs.Drained | src/algorithms/graph/bfs.ts:29-42 | when the queue runs dry, every walk from src ends at a discovered cell |
| Bfs.OutcomeFound | src/algorithms/graph/bfs.ts:44-49 | when dst was dequeued the path is dst's parent chain, a shortest walk, and dst is reachable |
| Bfs.OutcomeMissed | src/algorithms/graph/bfs.ts:29-49 | when the queue ran dry dst was never discovered, cannot be reached, and no path events are logged |
| Bfs.Finish | src/algorithms/graph/bfs.ts:44-50 | the finished log has every property listed for GenerateStepsBFS |

## Left out

- The float division by 2^32 in mulberry32 is modelled by `Rng.Unit` as an exact real. The division is exact in binary64 because the numerator has at most 32 significant bits.
- The captured JS number `a` in mulberry32 grows without bound and loses integer precision after very many draws. The model keeps it modulo 2^32, where every use of it is coerced anyway.
- `Math.random()` and the comparison `< wallP` in `generateGrid` are replaced by a supplied sequence of wall draws, one per cell in call order.
- `src/app.ts` is modelled only in its seed fold and in the bar data that `animateSortingStep` edits. Its DOM, the highlight classes, transitions and timing, the grid drawing, event handling and interval-driven playback are not algorithmic. The value mapping `Math.round(rng() * 100) + 5` is floating point.
- The swap animation of `src/app.ts` (lines 171-172) does not follow `SortReplay.Replay`: `Replay` gives each event the meaning its name and fields declare, and the chart as written does not move values on a swap. `Render` models both.
- Render.DrawnSwap: a swap naming a position with no bar makes `b1.datum()` return undefined in the code, which then throws. The model leaves the bars unchanged.
- Rng.SeedOfText: a Dafny `string` cannot hold an unpaired surrogate (U+D800 to U+DFFF is not a `char`). A JS seed string can, and `for (const ch of seedStr)` at `src/app.ts:122` yields it as one character whose `charCodeAt(0)` is the surrogate itself. Such seed texts lie outside what the model can represent.
- Rng.Mulberry32.Draw returns the unsigned numerator, not the quotient. `Rng.Unit` states the quotient.
- The `Step` union of the two event kinds is not modelled. Each generator uses its own datatype.
- Array values are mathematical integers. JS numbers that are NaN or fractional are not modelled.
- Insertion stability (the strict `>` at line 9 keeps equal values in order) is stated only as the shape of the scan (`Insertion.PosBounds`, `Insertion.RoundShape`). Plain integer values carry no identity to track.
- Grids.GenerateGrid: requires N >= 1. The code crashes at line 15 of `bfs.ts` when N = 0.
- Bfs.GenerateStepsBFS: requires src and dst in existing rows, because the code crashes indexing a missing row at lines 27 and 44.
- Bfs.GenerateStepsBFS: requires every row to hold at least N cells. In the code, a shorter row makes line 34 crash only when the search probes a missing cell.
- A column of src or dst outside the grid is accepted, as in the code.
  - The write at line 27 then lands outside the N x N matrix, where nothing reads it, so the model skips it.
  - Reading the parent of an outside cell gives no parent.
- Not mutating the inputs (`arr`, `grid`) is stated by the absence of a `modifies` clause. `arr.slice()` is `SortReplay.Slice`.

## Findings

| source | as written | input that shows it | evidently intended | confidence | as-written member | corrected member |
|---|---|---|---|---|---|---|
| src/app.ts:171-172 | a swap exchanges both the position and the value of the two bars' data, so each value is redrawn at the position it already had | the bubble log of [3, 2, 1] denotes [1, 2, 3], but the chart is left showing 3, 2, 1 | exchange the positions only (line 171 without line 172), so the two values trade places on screen | not executed | Render.ThreeTwoOneOnScreen | Render.MovedBubbleSorts |
