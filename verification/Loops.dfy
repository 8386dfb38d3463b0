/** The shape of the loop over the candidates of a chosen edge, common to all searches. */
module Loops {
  import opened Collections
  import opened BitSets

  /** The vertices of the loop that are still to come. */
  ghost predicate LoopShape(cur: BitSet, cand: BitSet, candCopy: BitSet, vs: seq<nat>, i: nat) {
    && i <= |vs| && NoDup(vs)
    && Elems(vs[i..]) !! cur && Elems(vs[i..]) !! candCopy
    && candCopy + Elems(vs[i..]) <= cand
  }

  lemma LoopNext(cur: BitSet, cand: BitSet, candCopy: BitSet, vs: seq<nat>, i: nat)
    requires LoopShape(cur, cand, candCopy, vs, i) && i < |vs|
    ensures vs[i] in cand && vs[i] !in candCopy && vs[i] !in cur
    ensures Elems(vs[i + 1..]) == Elems(vs[i..]) - {vs[i]}
    ensures vs[i] in Elems(vs[i..]) && Elems(vs[i..]) !! cur && Elems(vs[i..]) !! candCopy && candCopy <= cand
    ensures LoopShape(cur, cand, candCopy, vs, i + 1) && LoopShape(cur, cand, candCopy + {vs[i]}, vs, i + 1)
    ensures |candCopy| < |cand|
  {
    assert vs[i..] == [vs[i]] + vs[i + 1..];
    assert vs[i] in Elems(vs[i..]);
    assert Elems(vs[i + 1..]) == Elems(vs[i..]) - {vs[i]};
    StrictSubsetCard(candCopy, cand, vs[i]);
  }

  lemma LoopTurn(cur: BitSet, cand: BitSet, candCopy: BitSet, vs: seq<nat>, i: nat)
    requires LoopShape(cur, cand, candCopy, vs, i) && i < |vs|
    ensures vs[i] in cand && vs[i] !in candCopy && vs[i] !in cur && candCopy <= cand && |candCopy| < |cand|
    ensures LoopShape(cur, cand, candCopy, vs, i + 1) && LoopShape(cur, cand, candCopy + {vs[i]}, vs, i + 1)
  {
    LoopNext(cur, cand, candCopy, vs, i);
  }

  /** What is left of the loop after `vs[i]` is again a loop over fresh vertices. */
  lemma LoopTail(cur: BitSet, cand: BitSet, candCopy: BitSet, vs: seq<nat>, i: nat)
    requires LoopShape(cur, cand, candCopy, vs, i) && i < |vs| && cur !! cand
    ensures NoDup(vs[i + 1..]) && cur !! candCopy + {vs[i]}
    ensures Elems(vs[i + 1..]) !! cur && Elems(vs[i + 1..]) !! candCopy + {vs[i]}
  {
    LoopNext(cur, cand, candCopy, vs, i);
  }

  lemma LoopStart(cur: BitSet, cand: BitSet, c: BitSet)
    requires c <= cand && cur !! cand
    ensures LoopShape(cur, cand, cand - c, Bits(c), 0)
  {
    assert Bits(c)[0..] == Bits(c);
  }

  lemma LoopEnd(vs: seq<nat>)
    ensures Elems(vs[|vs|..]) == {}
  {
  }
}
