/** The hypergraph {0, 2, 5}, {1, 4}, {2, 4}, on which the repository tries out its randomised searches
    (test/random_enum_test.cpp and test/random_enum_auto_inc_test.cpp): in modes ORDER, RANDOM and MIN they succeed whatever
    is drawn. */
module TestHypergraph {
  import opened Collections
  import opened BitSets
  import opened IntSets
  import opened Hypergraphs
  import opened Covers
  import opened SearchSteps
  import opened Anchors
  import opened RandomSteps
  import opened RandomSoundness
  import opened CalmSearch
  import opened RandomSearch
  import opened Components
  import opened CoverUnion
  import opened Rounds
  import opened AutomaticIncrease
  import opened AutoIncRuns

  const CHAIN: Graph := Graph([[0, 2, 5], [1, 4], [2, 4]], {0, 1, 2, 4, 5})

  // its only component: the depth-first visit comes to {2, 4} before {1, 4}
  const VISITED: Graph := Graph([[0, 2, 5], [2, 4], [1, 4]], {0, 1, 2, 4, 5})

  lemma ChainEdges()
    ensures CHAIN.Valid() && |CHAIN.edges| == 3
    ensures CHAIN.Edge(0) == {0, 2, 5} && CHAIN.Edge(1) == {1, 4} && CHAIN.Edge(2) == {2, 4}
    ensures EmptyEdges(CHAIN) == {}
  {
    assert CHAIN.Edge(0) == {0, 2, 5} && CHAIN.Edge(1) == {1, 4} && CHAIN.Edge(2) == {2, 4};
    assert 0 in CHAIN.Edge(0) && 1 in CHAIN.Edge(1) && 2 in CHAIN.Edge(2);
  }

  lemma ChainList(v: nat, hits: seq<nat>)
    requires CHAIN.Valid() && CHAIN.Hits(v) == Elems(hits) && Ascends(hits)
    ensures HittingList(CHAIN, v) == hits
  {
    hide Graph.Hits;
    hide Ascends;
    hide HittingList;
    HittingListMeaning(CHAIN, v);
    AscendingUnique(CHAIN.Hits(v), hits);
  }

  lemma ChainHits()
    ensures CHAIN.Hits(0) == {0} && CHAIN.Hits(1) == {1} && CHAIN.Hits(2) == {0, 2}
    ensures CHAIN.Hits(4) == {1, 2} && CHAIN.Hits(5) == {0}
  {
    ChainEdges();
    hide Graph.Edge;
    hide Graph.Valid;
    hide EmptyEdges;
  }

  lemma ChainLists()
    ensures HittingList(CHAIN, 0) == [0] && HittingList(CHAIN, 1) == [1] && HittingList(CHAIN, 2) == [0, 2]
    ensures HittingList(CHAIN, 4) == [1, 2] && HittingList(CHAIN, 5) == [0]
  {
    ChainEdges();
    ChainHits();
    hide HittingList;
    hide Graph.Hits;
    hide Graph.Valid;
    ChainList(0, [0]);
    ChainList(1, [1]);
    ChainList(2, [0, 2]);
    ChainList(4, [1, 2]);
    ChainList(5, [0]);
  }

  lemma ChainUsed()
    ensures EveryVertexUsed(CHAIN)
  {
    ChainHits();
    hide Graph.Hits;
  }

  // ---------- the order of the edges in its component ----------

  /** From 4 the visit comes to {1, 4}. */
  lemma FromFour()
    ensures var m := Marks({0, 2}, {0, 2}, {0, 2}, [[0, 2, 5], [2, 4]], [0, 2]);
            Visited(CHAIN, m, 4)
            == Marks({0, 1, 2, 4}, {0, 1, 2}, {0, 1, 2, 4}, [[0, 2, 5], [2, 4], [1, 4]], [0, 2, 1])
  {
    ChainLists();
    hide HittingList;
    var m := Marks({0, 2}, {0, 2}, {0, 2}, [[0, 2, 5], [2, 4]], [0, 2]);
    VisitedNew(CHAIN, m, 4);
    var a := Marks({0, 2, 4}, {0, 2}, {0, 2, 4}, [[0, 2, 5], [2, 4]], [0, 2]);
    assert m.(vertexFlag := m.vertexFlag + {4}, vertexSet := m.vertexSet + {4}) == a;
    var b := EdgeMarked(CHAIN, a, 1);
    VisitedPair(CHAIN, b, 1, 4);
    VisitedLast(CHAIN, b, 1);
    VisitedSeen(CHAIN, b.(vertexFlag := b.vertexFlag + {1}, vertexSet := b.vertexSet + {1}), 4);
    hide Visited;
    hide VerticesVisited;
    OneNew(CHAIN, a, [1, 2], 0);
  }

  /** From 2 it comes to {2, 4}. */
  lemma FromTwo()
    ensures var m := Marks({0}, {0}, {0}, [[0, 2, 5]], [0]);
            Visited(CHAIN, m, 2)
            == Marks({0, 1, 2, 4}, {0, 1, 2}, {0, 1, 2, 4}, [[0, 2, 5], [2, 4], [1, 4]], [0, 2, 1])
  {
    ChainLists();
    FromFour();
    hide HittingList;
    var m := Marks({0}, {0}, {0}, [[0, 2, 5]], [0]);
    VisitedNew(CHAIN, m, 2);
    var a := Marks({0, 2}, {0}, {0, 2}, [[0, 2, 5]], [0]);
    assert m.(vertexFlag := m.vertexFlag + {2}, vertexSet := m.vertexSet + {2}) == a;
    var b := Marks({0, 2}, {0, 2}, {0, 2}, [[0, 2, 5], [2, 4]], [0, 2]);
    assert EdgeMarked(CHAIN, a, 2) == b;
    VisitedPair(CHAIN, b, 2, 4);
    VisitedSeen(CHAIN, b, 2);
    hide Visited;
    hide VerticesVisited;
    OneNew(CHAIN, a, [0, 2], 1);
  }

  lemma ChainSubGraphs()
    ensures SubGraphs(CHAIN).subs == [VISITED] && SubGraphs(CHAIN).eis == [[0, 2, 1]]
  {
    ChainLists();
    FromTwo();
    hide HittingList;
    var none, m := Marks({}, {}, {}, [], []), Marks({0}, {}, {0}, [], []);
    VisitedNew(CHAIN, none, 0);
    assert {} + {0} == {0};
    var a := Marks({0}, {0}, {0}, [[0, 2, 5]], [0]);
    assert EdgeMarked(CHAIN, m, 0) == a;
    VisitedTriple(CHAIN, a, 0, 2, 5);
    VisitedSeen(CHAIN, a, 0);
    VisitedLast(CHAIN, Visited(CHAIN, a, 2), 5);
    assert {0, 1, 2, 4} + {5} == {0, 1, 2, 4, 5};
    hide Visited;
    hide VerticesVisited;
    OneNew(CHAIN, m, [0], 0);
    PartsNext(CHAIN, 0);
    PartsSettled(CHAIN, 1, MAXBIT);
  }

  // ---------- anchors ----------

  /** Both vertices of {2, 4} have an edge that leads out of it. */
  lemma NoPlainAnchor()
    ensures !AnchoredApartFromEmpty(CHAIN)
  {
    ChainEdges();
    hide Graph.Edge;
    hide Graph.Valid;
    hide EmptyEdges;
    assert 0 in CHAIN.Edge(0) && 1 in CHAIN.Edge(1) && 2 in CHAIN.Edge(2);
    assert !HasAnchor(CHAIN, CHAIN.vertices, 2);
  }

  lemma VisitedEdges()
    ensures VISITED.Edge(0) == {0, 2, 5} && VISITED.Edge(1) == {2, 4} && VISITED.Edge(2) == {1, 4}
    ensures |VISITED.edges| == 3 && VISITED.vertices == {0, 1, 2, 4, 5}
  {
  }

  lemma OwnVertices()
    ensures IsAnchor(VISITED, 0, 0) && IsAnchor(VISITED, 1, 2)
  {
    VisitedEdges();
    hide Graph.Edge;
  }

  lemma FourInOrder()
    ensures IsOrderAnchor(VISITED, 4, 1)
  {
    VisitedEdges();
    var g := VISITED;
    hide Graph.Edge;
    forall f: nat, i: nat | f < |g.edges| && 4 in g.Edge(f) && i < 1
      ensures g.Edge(f) * g.Edge(i) <= g.Edge(1)
    {
      assert i == 0 && f != 0;
    }
  }

  /** In the order of the component 4 is an order anchor of {2, 4}; the other two edges have a vertex of their own. */
  lemma ChainAnchored()
    ensures Anchored(VISITED, ORDER)
  {
    VisitedEdges();
    OwnVertices();
    FourInOrder();
    hide IsAnchor;
    hide IsOrderAnchor;
    hide Graph.Edge;
    forall e: nat | e < |VISITED.edges|
      ensures Holds(VISITED, ORDER, VISITED.vertices, e)
    {
      assert HasAnchor(VISITED, VISITED.vertices, 0) && HasAnchor(VISITED, VISITED.vertices, 2);
      assert HasOrderAnchor(VISITED, VISITED.vertices, 1);
    }
  }

  // ---------- the other modes ----------

  lemma VisitedHits()
    ensures VISITED.Hits(0) == {0} && VISITED.Hits(1) == {2} && VISITED.Hits(2) == {0, 1}
    ensures VISITED.Hits(4) == {1, 2} && VISITED.Hits(5) == {0} && Uncov(VISITED, {}) == {0, 1, 2}
  {
    VisitedEdges();
    hide Graph.Edge;
  }

  lemma LeftAfter(u: nat, v: nat)
    ensures Uncov(VISITED, {u}) == {0, 1, 2} - VISITED.Hits(u)
    ensures Uncov(VISITED, {u} + {v}) == {0, 1, 2} - VISITED.Hits(u) - VISITED.Hits(v)
  {
    VisitedHits();
    UncovAdd(VISITED, {}, u);
    UncovAdd(VISITED, {u}, v);
    hide Uncov;
    hide Graph.Hits;
    assert {} + {u} == {u};
  }

  /** A single vertex is made redundant exactly by one that has all its edges. */
  lemma ViolatesOne(u: nat, v: nat)
    requires !(VISITED.Hits(u) <= VISITED.Hits(v)) && VISITED.Hits(u) <= {0, 1, 2}
    ensures !Violates(VISITED, {u}, v)
  {
    LeftAfter(u, u);
    VisitedHits();
    hide Uncov;
    hide Graph.Hits;
    assert {u} - {u} == {};
    assert {0, 1, 2} - ({0, 1, 2} - VISITED.Hits(u)) == VISITED.Hits(u);
  }

  lemma PairIsMinimal(u: nat, v: nat)
    requires u != v && VISITED.Hits(u) + VISITED.Hits(v) == {0, 1, 2}
    requires VISITED.Hits(u) != {0, 1, 2} && VISITED.Hits(v) != {0, 1, 2}
    ensures Minimal(VISITED, Hitting, {u, v})
  {
    LeftAfter(u, v);
    LeftAfter(v, u);
    hide Uncov;
    hide Graph.Hits;
    assert {u} + {v} == {u, v} && {u, v} - {u} == {v} && {u, v} - {v} == {u};
    assert {0, 1, 2} - VISITED.Hits(u) - VISITED.Hits(v) == {};
    SomeRest(VISITED.Hits(u));
    SomeRest(VISITED.Hits(v));
  }

  lemma SomeRest(h: set<nat>)
    requires h <= {0, 1, 2} && h != {0, 1, 2}
    ensures {0, 1, 2} - h != {}
  {
    var e := if 0 !in h then 0 else if 1 !in h then 1 else 2;
    assert 0 in h && 1 in h && 2 in h ==> h == {0, 1, 2};
    assert e in {0, 1, 2} - h;
  }

  lemma MinimalPairs()
    ensures Minimal(VISITED, Hitting, {0, 4}) && Minimal(VISITED, Hitting, {5, 4}) && Minimal(VISITED, Hitting, {1, 2})
  {
    VisitedHits();
    hide Minimal;
    hide Graph.Hits;
    hide Uncov;
    PairIsMinimal(0, 4);
    PairIsMinimal(5, 4);
    PairIsMinimal(1, 2);
  }
  /** The nodes of one vertex. */
  lemma CalmAtTwo(mode: Method, cand: BitSet)
    requires 1 in cand
    ensures Calm(VISITED, mode, {2}, cand)
  {
    VisitedEdges();
    VisitedHits();
    LeftAfter(2, 2);
    ViolatesOne(2, 1);
    hide Uncov;
    hide Graph.Hits;
    hide Graph.Edge;
    hide Violates;
    hide Calm;
    assert {0, 1, 2} - {0, 1} == {2} && 1 in cand * VISITED.Edge(2);
    OneLeft(VISITED, mode, {2}, cand, 2);
  }

  lemma CalmAtFour(mode: Method, cand: BitSet)
    requires 0 in cand
    ensures Calm(VISITED, mode, {4}, cand)
  {
    VisitedEdges();
    VisitedHits();
    LeftAfter(4, 4);
    ViolatesOne(4, 0);
    hide Uncov;
    hide Graph.Hits;
    hide Graph.Edge;
    hide Violates;
    hide Calm;
    assert {0, 1, 2} - {1, 2} == {0} && 0 in cand * VISITED.Edge(0);
    OneLeft(VISITED, mode, {4}, cand, 0);
  }

  /** With {2, 4} left and neither of its vertices. */
  lemma CalmDead(mode: Method, u: nat, v: nat, cand: BitSet)
    requires VISITED.Hits(u) + VISITED.Hits(v) == {0, 2} && 2 !in cand && 4 !in cand
    ensures Calm(VISITED, mode, {u} + {v}, cand)
  {
    VisitedEdges();
    LeftAfter(u, v);
    hide Uncov;
    hide Graph.Hits;
    hide Graph.Edge;
    hide Violates;
    hide Calm;
    assert {0, 1, 2} - VISITED.Hits(u) - VISITED.Hits(v) == {0, 1, 2} - (VISITED.Hits(u) + VISITED.Hits(v)) == {1};
    assert cand * VISITED.Edge(1) == {};
    OneLeft(VISITED, mode, {u} + {v}, cand, 1);
  }

  lemma CoveredBy(mode: Method, u: nat, v: nat, cand: BitSet)
    requires VISITED.Hits(u) + VISITED.Hits(v) == {0, 1, 2}
    ensures Calm(VISITED, mode, {u} + {v}, cand)
  {
    LeftAfter(u, v);
    hide Uncov;
    hide Graph.Hits;
    hide Calm;
    assert {0, 1, 2} - VISITED.Hits(u) - VISITED.Hits(v) == {0, 1, 2} - (VISITED.Hits(u) + VISITED.Hits(v)) == {};
    NothingLeft(VISITED, mode, {u} + {v}, cand);
  }

  /** Below 0, and below 5: 4 completes the cover, so it has not been tried in vain. */
  lemma CalmAtOuter(mode: Method, u: nat)
    requires u == 0 || u == 5
    ensures Calm(VISITED, mode, {u}, {1, 4})
  {
    hide Uncov;
    hide Violates;
    hide Fruitless;
    hide FirstInOrder;
    hide Graph.Hits;
    hide CalmEdge;
    VisitedHits();
    LeftAfter(u, u);
    assert {0, 1, 2} - {0} == {1, 2};
    OuterMiddle(mode, u);
    OuterLast(mode, u);
  }

  lemma OuterMiddle(mode: Method, u: nat)
    requires u == 0 || u == 5
    ensures 1 in Uncov(VISITED, {u}) && CalmEdge(VISITED, mode, {u}, {1, 4}, 1)
  {
    VisitedEdges();
    VisitedHits();
    LeftAfter(u, u);
    ViolatesOne(u, 4);
    hide Graph.Hits;
    hide Graph.Edge;
    hide Uncov;
    hide Violates;
    hide Calm;
    hide Fruitless;
    assert {1, 4} * {2, 4} == {4};
    forall v, tried: BitSet | v in {4}
      ensures Calm(VISITED, mode, {u} + {v}, {1, 4} - VISITED.Edge(1) + tried)
    {
      CoveredBy(mode, u, 4, {1, 4} - VISITED.Edge(1) + tried);
    }
  }

  lemma OuterLastBelow(mode: Method, u: nat, v: nat, tried: BitSet)
    requires (u == 0 || u == 5) && v in {1, 4} && tried <= {1, 4} - {v} && Fruitless(VISITED, {u}, {}, tried)
    ensures Calm(VISITED, mode, {u} + {v}, {} + tried)
  {
    VisitedHits();
    MinimalPairs();
    hide Graph.Hits;
    hide Calm;
    hide Fruitless;
    hide Minimal;
    if v == 4 {
      CoveredBy(mode, u, 4, {} + tried);
    } else {
      if 4 in tried {
        Fruitful(VISITED, {u}, {}, tried, {u, 4}, 4);
      }
      CalmDead(mode, u, 1, {} + tried);
    }
  }

  lemma OuterLast(mode: Method, u: nat)
    requires u == 0 || u == 5
    ensures 2 in Uncov(VISITED, {u}) && CalmEdge(VISITED, mode, {u}, {1, 4}, 2)
  {
    VisitedEdges();
    VisitedHits();
    LeftAfter(u, u);
    ViolatesOne(u, 4);
    hide Graph.Hits;
    hide Graph.Edge;
    hide Uncov;
    hide Violates;
    hide Calm;
    hide Fruitless;
    assert {1, 4} * {1, 4} == {1, 4} && {1, 4} - {1, 4} == {};
    forall v, tried: BitSet | v in {1, 4} && tried <= {1, 4} - {v} && Fruitless(VISITED, {u}, {}, tried)
      ensures Calm(VISITED, mode, {u} + {v}, {} + tried)
    {
      OuterLastBelow(mode, u, v, tried);
    }
  }

  /** Below 1: 2 completes the cover. */
  lemma CalmAtOne(mode: Method)
    ensures Calm(VISITED, mode, {1}, {0, 2, 5})
  {
    hide Uncov;
    hide Violates;
    hide Fruitless;
    hide FirstInOrder;
    hide Graph.Hits;
    hide CalmEdge;
    VisitedHits();
    LeftAfter(1, 1);
    assert {0, 1, 2} - {2} == {0, 1};
    OneFirst(mode);
    OneMiddle(mode);
  }

  lemma OneFirstBelow(mode: Method, v: nat, tried: BitSet)
    requires v in {0, 2, 5} && tried <= {0, 2, 5} - {v} && Fruitless(VISITED, {1}, {}, tried)
    ensures Calm(VISITED, mode, {1} + {v}, {} + tried)
  {
    VisitedHits();
    MinimalPairs();
    hide Graph.Hits;
    hide Calm;
    hide Fruitless;
    hide Minimal;
    if v == 2 {
      CoveredBy(mode, 1, 2, {} + tried);
    } else {
      if 2 in tried {
        Fruitful(VISITED, {1}, {}, tried, {1, 2}, 2);
      }
      CalmDead(mode, 1, v, {} + tried);
    }
  }

  lemma OneFirst(mode: Method)
    ensures 0 in Uncov(VISITED, {1}) && CalmEdge(VISITED, mode, {1}, {0, 2, 5}, 0)
  {
    VisitedEdges();
    VisitedHits();
    LeftAfter(1, 1);
    ViolatesOne(1, 0);
    hide Graph.Hits;
    hide Graph.Edge;
    hide Uncov;
    hide Violates;
    hide Calm;
    hide Fruitless;
    assert {0, 2, 5} * {0, 2, 5} == {0, 2, 5} && {0, 2, 5} - {0, 2, 5} == {};
    forall v, tried: BitSet | v in {0, 2, 5} && tried <= {0, 2, 5} - {v} && Fruitless(VISITED, {1}, {}, tried)
      ensures Calm(VISITED, mode, {1} + {v}, {} + tried)
    {
      OneFirstBelow(mode, v, tried);
    }
  }

  lemma OneMiddle(mode: Method)
    ensures 1 in Uncov(VISITED, {1}) && CalmEdge(VISITED, mode, {1}, {0, 2, 5}, 1)
  {
    VisitedEdges();
    VisitedHits();
    LeftAfter(1, 1);
    ViolatesOne(1, 2);
    hide Graph.Hits;
    hide Graph.Edge;
    hide Uncov;
    hide Violates;
    hide Calm;
    hide Fruitless;
    assert {0, 2, 5} * {2, 4} == {2};
    forall v, tried: BitSet | v in {2}
      ensures Calm(VISITED, mode, {1} + {v}, {0, 2, 5} - VISITED.Edge(1) + tried)
    {
      CoveredBy(mode, 1, 2, {0, 2, 5} - VISITED.Edge(1) + tried);
    }
  }

  /** At the root every vertex belongs to a minimal cover, so none is tried in vain. */
  lemma RootBelow(left: BitSet, tried: BitSet)
    requires Fruitless(VISITED, {}, left, tried)
    requires (left == {1, 4} && tried <= {0, 2, 5}) || (left == {0, 1, 5} && tried <= {2, 4}) ||
             (left == {0, 2, 5} && tried <= {1, 4})
    ensures tried == {}
  {
    MinimalPairs();
    hide Fruitless;
    hide Minimal;
    if w :| w in tried {
      var s: BitSet := if w == 0 || w == 4 then {0, 4} else if w == 5 then {5, 4} else {1, 2};
      Fruitful(VISITED, {}, left, tried, s, w);
    }
  }
  lemma RootFirst(mode: Method)
    ensures 0 in Uncov(VISITED, {}) && CalmEdge(VISITED, mode, {}, VISITED.vertices, 0)
  {
    VisitedEdges();
    VisitedHits();
    hide Graph.Hits;
    hide Graph.Edge;
    hide Uncov;
    hide Calm;
    hide Fruitless;
    assert {0, 1, 2, 4, 5} * {0, 2, 5} == {0, 2, 5} && {0, 1, 2, 4, 5} - {0, 2, 5} == {1, 4} && !Violates(VISITED, {}, 0);
    hide Violates;
    forall v, tried: BitSet | v in {0, 2, 5} && tried <= {0, 2, 5} - {v} && Fruitless(VISITED, {}, {1, 4}, tried)
      ensures Calm(VISITED, mode, {} + {v}, {1, 4} + tried)
    {
      RootBelow({1, 4}, tried);
      assert {1, 4} + tried == {1, 4} && {} + {v} == {v};
      if v == 2 {
        CalmAtTwo(mode, {1, 4});
      } else {
        CalmAtOuter(mode, v);
      }
    }
  }

  lemma RootMiddle(mode: Method)
    ensures 1 in Uncov(VISITED, {}) && CalmEdge(VISITED, mode, {}, VISITED.vertices, 1)
  {
    VisitedEdges();
    VisitedHits();
    hide Graph.Hits;
    hide Graph.Edge;
    hide Uncov;
    hide Calm;
    hide Fruitless;
    assert {0, 1, 2, 4, 5} * {2, 4} == {2, 4} && {0, 1, 2, 4, 5} - {2, 4} == {0, 1, 5} && !Violates(VISITED, {}, 2);
    hide Violates;
    forall v, tried: BitSet | v in {2, 4} && tried <= {2, 4} - {v} && Fruitless(VISITED, {}, {0, 1, 5}, tried)
      ensures Calm(VISITED, mode, {} + {v}, {0, 1, 5} + tried)
    {
      RootBelow({0, 1, 5}, tried);
      assert {0, 1, 5} + tried == {0, 1, 5} && {} + {v} == {v};
      if v == 2 {
        CalmAtTwo(mode, {0, 1, 5});
      } else {
        CalmAtFour(mode, {0, 1, 5});
      }
    }
  }

  lemma RootLast(mode: Method)
    ensures 2 in Uncov(VISITED, {}) && CalmEdge(VISITED, mode, {}, VISITED.vertices, 2)
  {
    VisitedEdges();
    VisitedHits();
    hide Graph.Hits;
    hide Graph.Edge;
    hide Uncov;
    hide Calm;
    hide Fruitless;
    assert {0, 1, 2, 4, 5} * {1, 4} == {1, 4} && {0, 1, 2, 4, 5} - {1, 4} == {0, 2, 5} && !Violates(VISITED, {}, 1);
    hide Violates;
    forall v, tried: BitSet | v in {1, 4} && tried <= {1, 4} - {v} && Fruitless(VISITED, {}, {0, 2, 5}, tried)
      ensures Calm(VISITED, mode, {} + {v}, {0, 2, 5} + tried)
    {
      RootBelow({0, 2, 5}, tried);
      assert {0, 2, 5} + tried == {0, 2, 5} && {} + {v} == {v};
      if v == 1 {
        CalmAtOne(mode);
      } else {
        CalmAtFour(mode, {0, 2, 5});
      }
    }
  }

  /** Nothing has to be forced, whichever uncovered edge is chosen. */
  lemma ChainCalm(mode: Method)
    requires Choosing(mode)
    ensures CalmRoot(VISITED, mode)
  {
    hide CalmEdge;
    hide Uncov;
    VisitedEdges();
    VisitedHits();
    RootFirst(mode);
    RootMiddle(mode);
    RootLast(mode);
    hide Graph.Hits;
    hide Graph.Edge;
    assert 0 in {0, 2, 5} && 2 in {2, 4} && 1 in {1, 4};
  }

  // ---------- the two tests ----------

  /** Four covers are found in four searches. */
  method RandomEnumRun(mode: Method, random: nat -> nat, rounds: nat) returns (output: seq<BitSet>)
    requires (mode == ORDER || mode == RANDOM || mode == MIN) && rounds >= 4
    ensures |output| == 4 && forall k :: 0 <= k < 4 ==> Minimal(CHAIN, Hitting, output[k])
  {
    hide Graph.Valid;
    hide Anchored;
    hide CalmRoot;
    hide Minimal;
    hide EmptyEdges;
    hide SubGraphs;
    hide RunsThrough;
    hide MinimalApartFromEmpty;
    hide AnchoredApartFromEmpty;
    ChainEdges();
    ChainSubGraphs();
    ChainCalm(mode);
    var search := new RandomEnum(CHAIN, 4, false, random);
    search.mode := mode;
    assert search.g == CHAIN && search.required == 4 && search.autoInc == false;
    var done, traces := search.RunDiverse(rounds);
    output := search.output;
  }

  lemma ChainCovers(mode: Method, list: seq<BitSet>)
    requires Worth(mode, CHAIN, [VISITED], list) && NoneEmpty(list, |list|)
    ensures forall k :: 0 <= k < |list| ==> Minimal(CHAIN, Hitting, list[k])
  {
    ChainEdges();
    hide EmptyEdges;
    hide Minimal;
    hide CoverOfOne;
  }

  lemma ChainSome(mode: Method)
    requires Choosing(mode)
    ensures SomeSure(mode, [VISITED])
  {
    hide Anchored;
    hide CalmRoot;
    ChainCalm(mode);
    assert Sure([VISITED][0], mode);
  }

  /** Two covers are selected from different entries, each of them a minimal cover of the whole. */
  method RandomEnumAutoIncRun(mode: Method, random: nat -> nat, rounds: nat) returns (output: seq<BitSet>)
    requires (mode == ORDER || mode == RANDOM || mode == MIN) && rounds >= 125
    ensures |output| == 2 && forall k :: 0 <= k < 2 ==> Minimal(CHAIN, Hitting, output[k])
  {
    hide Graph.Valid;
    hide SomeSure;
    hide Minimal;
    hide EmptyEdges;
    hide SubGraphs;
    hide EveryVertexUsed;
    hide Decomposes;
    hide RoundsMade;
    hide GoodChoice;
    hide Worth;
    hide NoneEmpty;
    hide AutoInc.Valid;
    hide RandomEnumAutoInc.Complete;
    ChainEdges();
    ChainUsed();
    ChainSubGraphs();
    ChainSome(mode);
    var run := new RandomEnumAutoInc(CHAIN, 2, random);
    run.search.mode := mode;
    var outcome, subs, eis, trace := run.RunDiverse(rounds);
    ChainCovers(mode, run.search.vcList);
    output := run.search.output;
    ghost var list, ans := run.search.vcList, run.selection.ans;
    assert output[0] == list[ans[0]] && output[1] == list[ans[1]];
  }
}
