/** Regrouping facts about byte sequences, stated once so that proofs about frames
    need not rediscover them next to the frames' byte-level definitions. */
module Sequences {
  import opened Hex

  lemma Regroup(a: seq<Byte>, b: seq<Byte>, c: seq<Byte>)
    ensures a + (b + c) == (a + b) + c
  {
  }

  lemma AppendNothing(a: seq<Byte>)
    ensures a + [] == a && [] + a == a
  {
  }
}
