/** Hypergraphs on which the randomised search cannot come back empty-handed. */
module Anchors {
  import opened Collections
  import opened BitSets
  import opened IntSets
  import opened Hypergraphs
  import opened Covers
  import opened SearchSteps
  import opened Repair

  /** `v` is a vertex of `e`, and every edge through it lies inside `e`. A vertex of no other edge is an anchor. */
  predicate IsAnchor(g: Graph, v: nat, e: nat)
    requires e < |g.edges|
  {
    v in g.Edge(e) && forall f: nat :: f < |g.edges| && v in g.Edge(f) ==> g.Edge(f) <= g.Edge(e)
  }

  predicate HasAnchor(g: Graph, cand: BitSet, e: nat)
    requires e < |g.edges|
  {
    exists v :: v in cand && IsAnchor(g, v, e)
  }

  /** `v` is a vertex of `e` and of no earlier edge, and outside `e` the edges through it have no vertex of an earlier edge
      either. */
  predicate IsOrderAnchor(g: Graph, v: nat, e: nat)
    requires e < |g.edges|
  {
    && v in g.Edge(e) && (forall i :: 0 <= i < e ==> v !in g.Edge(i))
    && forall f: nat, i: nat :: f < |g.edges| && v in g.Edge(f) && i < e ==> g.Edge(f) * g.Edge(i) <= g.Edge(e)
  }

  predicate HasOrderAnchor(g: Graph, cand: BitSet, e: nat)
    requires e < |g.edges|
  {
    exists v :: v in cand && IsOrderAnchor(g, v, e)
  }

  /** An anchor, or in mode ORDER an order anchor. */
  predicate Holds(g: Graph, mode: Method, cand: BitSet, e: nat)
    requires e < |g.edges|
  {
    HasAnchor(g, cand, e) || (mode == ORDER && HasOrderAnchor(g, cand, e))
  }

  /** Every edge has one. */
  predicate Anchored(g: Graph, mode: Method) {
    forall e: nat :: e < |g.edges| ==> Holds(g, mode, g.vertices, e)
  }

  predicate InEarlierEdge(g: Graph, u: nat, w: nat) {
    exists j: nat :: j < w && j < |g.edges| && u in g.Edge(j)
  }

  /** In mode ORDER every chosen vertex was chosen for an edge before the uncovered ones. */
  ghost predicate FromEarlier(g: Graph, cur: BitSet, uncov: BitSet) {
    forall u, w :: u in cur && w in uncov ==> InEarlierEdge(g, u, w)
  }

  /** Every uncovered edge still has an anchor among the candidates. */
  ghost predicate AnchoredNode(g: Graph, mode: Method, cur: BitSet, uncov: BitSet, cand: BitSet) {
    && (forall e: nat :: e in uncov && e < |g.edges| ==> Holds(g, mode, cand, e))
    && (mode == ORDER ==> FromEarlier(g, cur, uncov))
  }

  lemma RootAnchored(g: Graph, mode: Method)
    requires Anchored(g, mode)
    ensures AnchoredNode(g, mode, {}, Uncov(g, {}), g.vertices)
  {
  }

  /** The chosen edge, with a candidate that makes no chosen vertex redundant. */
  lemma AnchorPasses(g: Graph, mode: Method, cur: BitSet, uncov: BitSet, curList: seq<nat>, crit: seq<IntSet>,
                     cand: BitSet, e: nat)
    returns (v: nat)
    requires Sound(g, cur, uncov, curList, crit) && AnchoredNode(g, mode, cur, uncov, cand) && e in uncov && e < |g.edges|
    ensures v in cand && v in g.Edge(e) && !Violates(g, cur, v)
  {
    assert Holds(g, mode, cand, e);
    if HasAnchor(g, cand, e) {
      v :| v in cand && IsAnchor(g, v, e);
      PlainAnchorPasses(g, cur, uncov, curList, crit, e, v);
    } else {
      v :| v in cand && IsOrderAnchor(g, v, e);
      OrderAnchorPasses(g, cur, uncov, curList, crit, e, v);
    }
  }

  /** A critical edge of a chosen vertex. */
  lemma SomeCrit(g: Graph, cur: BitSet, uncov: BitSet, curList: seq<nat>, crit: seq<IntSet>, u: nat) returns (f: nat)
    requires Sound(g, cur, uncov, curList, crit) && u in cur
    ensures f in Crit(g, cur, u) && f < |g.edges| && u in g.Edge(f)
  {
    assert u in Elems(curList);
    var i :| 0 <= i < |curList| && curList[i] == u;
    f := crit[i][0];
    assert f in Elems(crit[i]);
    CritMeaning(g, cur, u);
    assert u in g.Edge(f) * cur;
  }

  /** A critical edge through an anchor would lie inside the uncovered edge, so that edge would be covered already. */
  lemma PlainAnchorPasses(g: Graph, cur: BitSet, uncov: BitSet, curList: seq<nat>, crit: seq<IntSet>, e: nat, v: nat)
    requires Sound(g, cur, uncov, curList, crit) && e in uncov && e < |g.edges| && IsAnchor(g, v, e)
    ensures !Violates(g, cur, v)
  {
    forall u | u in cur
      ensures !(Crit(g, cur, u) <= g.Hits(v))
    {
      var f := SomeCrit(g, cur, uncov, curList, crit, u);
      assert v !in g.Edge(f);
    }
  }

  /** A critical edge through an order anchor would have a vertex of an earlier edge outside the uncovered one. */
  lemma OrderAnchorPasses(g: Graph, cur: BitSet, uncov: BitSet, curList: seq<nat>, crit: seq<IntSet>, e: nat, v: nat)
    requires Sound(g, cur, uncov, curList, crit) && e in uncov && e < |g.edges| && IsOrderAnchor(g, v, e)
    requires FromEarlier(g, cur, uncov)
    ensures !Violates(g, cur, v)
  {
    forall u | u in cur
      ensures !(Crit(g, cur, u) <= g.Hits(v))
    {
      var f := SomeCrit(g, cur, uncov, curList, crit, u);
      assert InEarlierEdge(g, u, e);
      var j: nat :| j < e && j < |g.edges| && u in g.Edge(j);
      assert u in g.Edge(f) * g.Edge(j);
      assert v !in g.Edge(f);
    }
  }

  /** Using any vertex of the chosen edge keeps every edge that is still uncovered anchored. */
  lemma AnchoredBelow(g: Graph, mode: Method, cur: BitSet, uncov: BitSet, cand: BitSet, e: nat, v: nat, candCopy: BitSet)
    requires AnchoredNode(g, mode, cur, uncov, cand) && e in uncov && e < |g.edges| && v in g.Edge(e)
    requires cand - g.Edge(e) <= candCopy && (mode == ORDER ==> forall w :: w in uncov ==> e <= w)
    ensures AnchoredNode(g, mode, cur + {v}, uncov - g.Hits(v), candCopy)
  {
    forall f: nat | f in uncov - g.Hits(v) && f < |g.edges|
      ensures Holds(g, mode, candCopy, f)
    {
      assert Holds(g, mode, cand, f) && v !in g.Edge(f);
      if HasAnchor(g, cand, f) {
        var a :| a in cand && IsAnchor(g, a, f);
        assert a in candCopy;
      } else {
        var a :| a in cand && IsOrderAnchor(g, a, f);
        assert e < f && a in candCopy;
      }
    }
    if mode == ORDER {
      forall u, w | u in cur + {v} && w in uncov - g.Hits(v)
        ensures InEarlierEdge(g, u, w)
      {
        assert w == e ==> w in g.Hits(v);
        if u == v {
          assert e < w;
        }
      }
    }
  }
}
