/**
 * The two closed families of step events that the generators append to
 * their logs and that a renderer later replays in order.
 */
module Steps {

  /** A primitive operation of a comparison sort over an array of numbers. */
  datatype SortStep =
    | Compare(i: int, j: int)            // positions i and j are being examined
    | Swap(i: int, j: int)               // the values at i and j have been exchanged
    | Overwrite(index: int, value: int)  // position index now holds value
    | MarkSorted(index: int)             // position index holds its final value

  /** A primitive operation of the grid breadth-first search. */
  datatype GridStep =
    | Frontier(r: int, c: int)  // cell (r, c) was discovered and enqueued
    | Visit(r: int, c: int)     // cell (r, c) was dequeued and expanded
    | Path(r: int, c: int)      // cell (r, c) lies on the reconstructed path
}
