/**
 * The two sorting generators end in the same place: whatever the input, the
 * values their logs denote end as the same sorted arrangement of its values.
 */
module SortAgreement {
  import opened SortReplay
  import Bubble
  import Insertion

  lemma SortersAgree(s: seq<int>)
    ensures Replay(s, Bubble.BubbleLog(s)) == Replay(s, Insertion.InsertionLog(s))
    ensures Bubble.Final(s).a == Insertion.Final(s).a
  {
    Bubble.BubbleSorts(s);
    Bubble.BubbleReplay(s);
    Insertion.InsertionSorts(s);
    Insertion.InsertionReplay(s);
    SortedUnique(Replay(s, Bubble.BubbleLog(s)), Replay(s, Insertion.InsertionLog(s)));
  }
}
