/** Minimal covers of the components make up minimal covers of the whole hypergraph. */
module CoverUnion {
  import opened BitSets
  import opened Hypergraphs
  import opened Covers
  import opened SearchSteps
  import opened Anchors
  import opened Components

  function EmptyEdges(g: Graph): set<nat> {
    set e: nat | e < |g.edges| && g.Edge(e) == {}
  }

  /** Minimal among the sets that hit every non-empty edge. */
  ghost predicate MinimalApartFromEmpty(g: Graph, s: BitSet) {
    Uncov(g, s) == EmptyEdges(g) && forall v :: v in s ==> Uncov(g, s - {v}) != EmptyEdges(g)
  }

  /** It hits every non-empty edge, and each of its vertices hits one that no other vertex of it hits. */
  lemma ApartFromEmptyMeaning(g: Graph, s: BitSet)
    ensures MinimalApartFromEmpty(g, s) <==>
              && (forall e: nat :: e < |g.edges| && g.Edge(e) != {} ==> g.Edge(e) * s != {})
              && (forall v :: v in s ==> exists e: nat :: e < |g.edges| && g.Edge(e) * s == {v})
  {
    if MinimalApartFromEmpty(g, s) {
      forall v | v in s
        ensures exists e: nat :: e < |g.edges| && g.Edge(e) * s == {v}
      {
        assert EmptyEdges(g) <= Uncov(g, s - {v});
        var e: nat :| e in Uncov(g, s - {v}) && e !in EmptyEdges(g);
        assert e !in Uncov(g, s);
        assert g.Edge(e) * s == {v};
      }
      EdgesHit(g, s);
    }
    if (forall e: nat :: e < |g.edges| && g.Edge(e) != {} ==> g.Edge(e) * s != {}) &&
       (forall v :: v in s ==> exists e: nat :: e < |g.edges| && g.Edge(e) * s == {v}) {
      OwnEdges(g, s);
    }
  }

  lemma EdgesHit(g: Graph, s: BitSet)
    requires Uncov(g, s) == EmptyEdges(g)
    ensures forall e: nat :: e < |g.edges| && g.Edge(e) != {} ==> g.Edge(e) * s != {}
  {
    forall e: nat | e < |g.edges| && g.Edge(e) != {}
      ensures g.Edge(e) * s != {}
    {
      assert e !in EmptyEdges(g);
      assert e !in Uncov(g, s);
      var v :| v in g.Edge(e) && v in s;
      assert v in g.Edge(e) * s;
    }
  }

  lemma OwnEdges(g: Graph, s: BitSet)
    requires forall e: nat :: e < |g.edges| && g.Edge(e) != {} ==> g.Edge(e) * s != {}
    requires forall v :: v in s ==> exists e: nat :: e < |g.edges| && g.Edge(e) * s == {v}
    ensures MinimalApartFromEmpty(g, s)
  {
    forall v | v in s
      ensures Uncov(g, s - {v}) != EmptyEdges(g)
    {
      var e: nat :| e < |g.edges| && g.Edge(e) * s == {v};
      assert v in g.Edge(e) * s;
      assert e in Uncov(g, s - {v});
    }
    forall e: nat | e < |g.edges| && g.Edge(e) == {}
      ensures e in Uncov(g, s)
    {
    }
  }

  /** Such a set is a minimal cover exactly when the hypergraph has no empty edge. */
  lemma MinimalWithoutEmpty(g: Graph, s: BitSet)
    requires MinimalApartFromEmpty(g, s)
    ensures Minimal(g, Hitting, s) <==> EmptyEdges(g) == {}
  {
    if EmptyEdges(g) == {} {
      forall v | v in s
        ensures |Uncov(g, s - {v})| != 0
      {
      }
    }
  }

  /** `s` restricted to each of the first `i` components is a minimal cover of it, and `s` has no other vertices. */
  ghost predicate PartialCover(subs: seq<Graph>, i: nat, s: BitSet)
    requires i <= |subs|
  {
    && (forall v :: v in s ==> exists j :: 0 <= j < i && v in subs[j].vertices)
    && (forall j :: 0 <= j < i ==> Minimal(subs[j], Hitting, s * subs[j].vertices))
  }

  lemma PartialNothing(subs: seq<Graph>)
    ensures PartialCover(subs, 0, {})
  {
  }

  /** Adding a minimal cover of the next component. */
  lemma PartialMore(g: Graph, subs: seq<Graph>, eis: seq<seq<nat>>, i: nat, s: BitSet, add: BitSet)
    requires Decomposes(g, subs, eis, g.vertices) && i < |subs|
    requires PartialCover(subs, i, s) && Minimal(subs[i], Hitting, add)
    ensures PartialCover(subs, i + 1, s + add)
  {
    hide Minimal;
    hide IsComponent;
    hide Decomposes;
    SubValid(g, subs, eis, i);
    MinimalInVertices(subs[i], Hitting, add);
    hide Graph.Valid;
    ComponentsDisjoint(g, subs, eis, i, s);
    forall j | 0 <= j <= i
      ensures Minimal(subs[j], Hitting, (s + add) * subs[j].vertices)
    {
      assert j < i ==> (s + add) * subs[j].vertices == s * subs[j].vertices;
      assert (s + add) * subs[i].vertices == add;
    }
    forall v | v in s + add
      ensures exists j :: 0 <= j < i + 1 && v in subs[j].vertices
    {
      if v in s {
        var j :| 0 <= j < i && v in subs[j].vertices;
      } else {
        assert v in subs[i].vertices;
      }
    }
  }

  lemma ComponentsDisjoint(g: Graph, subs: seq<Graph>, eis: seq<seq<nat>>, i: nat, s: BitSet)
    requires Decomposes(g, subs, eis, g.vertices) && i < |subs|
    requires forall v :: v in s ==> exists j :: 0 <= j < i && v in subs[j].vertices
    ensures s !! subs[i].vertices
    ensures forall j :: 0 <= j < i ==> subs[j].vertices !! subs[i].vertices
  {
    hide IsComponent;
    forall v | v in s
      ensures v !in subs[i].vertices
    {
      var k :| 0 <= k < i && v in subs[k].vertices;
      assert subs[k].vertices !! subs[i].vertices;
    }
  }

  lemma SubValid(g: Graph, subs: seq<Graph>, eis: seq<seq<nat>>, i: nat)
    requires Decomposes(g, subs, eis, g.vertices) && i < |subs|
    ensures subs[i].Valid() && IsComponent(g, subs[i], eis[i])
  {
    assert IsComponent(g, subs[i], eis[i]);
  }

  lemma SubsValid(whole: Graph, subs: seq<Graph>, eis: seq<seq<nat>>)
    requires Decomposes(whole, subs, eis, whole.vertices)
    ensures forall k :: 0 <= k < |subs| ==> subs[k].Valid()
  {
    forall k | 0 <= k < |subs|
      ensures subs[k].Valid()
    {
      SubValid(whole, subs, eis, k);
    }
  }

  /** What a component says about an edge it holds at position `p`. */
  lemma ComponentEdgeAt(g: Graph, sub: Graph, ei: seq<nat>, p: nat, s: BitSet)
    requires IsComponent(g, sub, ei) && p < |ei|
    ensures |sub.edges| == |ei| && ei[p] < |g.edges| && g.Edge(ei[p]) != {}
    ensures p in Uncov(sub, s * sub.vertices) <==> ei[p] in Uncov(g, s)
  {
    assert ei[p] in ei;
    ComponentEdge(g, sub, ei, ei[p]);
    assert sub.Edge(p) == g.Edge(ei[p]);
    assert g.Edge(ei[p]) <= sub.vertices;
  }

  lemma UnionCovers(g: Graph, subs: seq<Graph>, eis: seq<seq<nat>>, s: BitSet)
    requires g.Valid() && Decomposes(g, subs, eis, g.vertices) && PartialCover(subs, |subs|, s)
    ensures Uncov(g, s) == EmptyEdges(g)
  {
    hide IsComponent;
    forall e: nat | e < |g.edges| && g.Edge(e) != {}
      ensures e !in Uncov(g, s)
    {
      EdgeInOneComponent(g, subs, eis, e);
      var k :| 0 <= k < |eis| && e in eis[k];
      var p :| 0 <= p < |eis[k]| && eis[k][p] == e;
      SubValid(g, subs, eis, k);
      assert Minimal(subs[k], Hitting, s * subs[k].vertices);
      ComponentEdgeAt(g, subs[k], eis[k], p, s);
    }
  }

  lemma UnionNeeds(g: Graph, subs: seq<Graph>, eis: seq<seq<nat>>, s: BitSet, v: nat)
    requires g.Valid() && Decomposes(g, subs, eis, g.vertices) && PartialCover(subs, |subs|, s) && v in s
    ensures Uncov(g, s - {v}) != EmptyEdges(g)
  {
    var k :| 0 <= k < |subs| && v in subs[k].vertices;
    SubValid(g, subs, eis, k);
    assert Minimal(subs[k], Hitting, s * subs[k].vertices);
    hide Decomposes;
    hide PartialCover;
    hide Graph.Valid;
    hide IsComponent;
    hide Minimal;
    NeededInComponent(g, subs[k], eis[k], s, v);
  }

  lemma NeededInComponent(g: Graph, sub: Graph, ei: seq<nat>, s: BitSet, v: nat)
    requires IsComponent(g, sub, ei) && Minimal(sub, Hitting, s * sub.vertices) && v in s && v in sub.vertices
    ensures Uncov(g, s - {v}) != EmptyEdges(g)
  {
    var mine := s * sub.vertices;
    assert v in mine && Uncov(sub, mine - {v}) != {};
    var p :| p in Uncov(sub, mine - {v});
    assert (s - {v}) * sub.vertices == mine - {v};
    PositionInRange(g, sub, ei, p, mine - {v});
    ComponentEdgeAt(g, sub, ei, p, s - {v});
    hide IsComponent;
    hide Minimal;
    hide Uncov;
    assert ei[p] in Uncov(g, s - {v}) && ei[p] !in EmptyEdges(g);
  }

  lemma PositionInRange(g: Graph, sub: Graph, ei: seq<nat>, p: nat, s: BitSet)
    requires IsComponent(g, sub, ei) && p in Uncov(sub, s)
    ensures p < |ei|
  {
  }

  /** The union over all components is minimal. */
  lemma UnionIsMinimal(g: Graph, subs: seq<Graph>, eis: seq<seq<nat>>, s: BitSet)
    requires g.Valid() && Decomposes(g, subs, eis, g.vertices) && PartialCover(subs, |subs|, s)
    ensures MinimalApartFromEmpty(g, s)
  {
    UnionCovers(g, subs, eis, s);
    forall v | v in s
      ensures Uncov(g, s - {v}) != EmptyEdges(g)
    {
      UnionNeeds(g, subs, eis, s, v);
    }
  }

  // ---------- components on which no search comes back empty-handed ----------

  predicate AnchoredApartFromEmpty(g: Graph) {
    forall e: nat :: e < |g.edges| && g.Edge(e) != {} ==> HasAnchor(g, g.vertices, e)
  }

  /** Anchors are anchors in the component too. */
  lemma ComponentAnchored(g: Graph, mode: Method, subs: seq<Graph>, eis: seq<seq<nat>>, k: nat)
    requires AnchoredApartFromEmpty(g) && Decomposes(g, subs, eis, g.vertices) && k < |subs|
    ensures Anchored(subs[k], mode)
  {
    SubValid(g, subs, eis, k);
    var sub, ei := subs[k], eis[k];
    hide Decomposes;
    hide Graph.Valid;
    forall p: nat | p < |sub.edges|
      ensures Holds(sub, mode, sub.vertices, p)
    {
      AnchorInComponent(g, sub, ei, p);
    }
  }

  lemma ComponentsAnchored(g: Graph, mode: Method, subs: seq<Graph>, eis: seq<seq<nat>>)
    requires AnchoredApartFromEmpty(g) && Decomposes(g, subs, eis, g.vertices)
    ensures forall k :: 0 <= k < |subs| ==> Anchored(subs[k], mode)
  {
    hide *;
    forall k | 0 <= k < |subs|
      ensures Anchored(subs[k], mode)
    {
      ComponentAnchored(g, mode, subs, eis, k);
    }
  }

  lemma AnchorInComponent(g: Graph, sub: Graph, ei: seq<nat>, p: nat)
    requires AnchoredApartFromEmpty(g) && IsComponent(g, sub, ei) && p < |sub.edges|
    ensures HasAnchor(sub, sub.vertices, p)
  {
    ComponentEdgeAt(g, sub, ei, p, {});
    var e := ei[p];
    assert sub.Edge(p) == g.Edge(e) && sub.Edge(p) <= sub.vertices;
    assert HasAnchor(g, g.vertices, e);
    var v :| v in g.vertices && IsAnchor(g, v, e);
    forall q: nat | q < |sub.edges| && v in sub.Edge(q)
      ensures sub.Edge(q) <= sub.Edge(p)
    {
      assert sub.Edge(q) == g.Edge(ei[q]);
    }
    assert IsAnchor(sub, v, p);
  }

  // ---------- what a cover of one component is worth ----------

  /** No isolated vertices: so it is for every hypergraph built from its edges. */
  ghost predicate EveryVertexUsed(g: Graph) {
    forall v :: v in g.vertices ==> g.Hits(v) != {}
  }

  /** A minimal cover of one component hits all non-empty edges if and only if there is no other component. */
  lemma OneComponentCover(g: Graph, subs: seq<Graph>, eis: seq<seq<nat>>, j: nat, s: BitSet)
    requires g.Valid() && EveryVertexUsed(g) && Decomposes(g, subs, eis, g.vertices)
    requires j < |subs| && Minimal(subs[j], Hitting, s)
    ensures MinimalApartFromEmpty(g, s) <==> |subs| == 1
    ensures Minimal(g, Hitting, s) <==> |subs| == 1 && EmptyEdges(g) == {}
  {
    hide Decomposes;
    hide Minimal;
    hide PartialCover;
    hide MinimalApartFromEmpty;
    hide EveryVertexUsed;
    hide Graph.Valid;
    if |subs| == 1 {
      PartialNothing(subs);
      PartialMore(g, subs, eis, 0, {}, s);
      assert {} + s == s;
      UnionIsMinimal(g, subs, eis, s);
      MinimalWithoutEmpty(g, s);
    } else {
      OtherComponentMissed(g, subs, eis, j, if j == 0 then 1 else 0, s);
    }
  }

  /** A component means that there is an edge. */
  lemma ComponentMeansEdges(g: Graph, subs: seq<Graph>, eis: seq<seq<nat>>, j: nat)
    requires EveryVertexUsed(g) && Decomposes(g, subs, eis, g.vertices) && j < |subs|
    ensures g.edges != []
  {
    var v := ComponentVertex(g, subs, eis, j);
    hide Decomposes;
    var e :| e in g.Hits(v);
  }

  /** Nothing covers everything only where there is nothing to cover. */
  lemma NothingCovers(g: Graph)
    ensures Minimal(g, Hitting, {}) <==> g.edges == []
  {
    assert g.edges != [] ==> 0 in Uncov(g, {});
  }

  lemma OtherComponentMissed(g: Graph, subs: seq<Graph>, eis: seq<seq<nat>>, j: nat, k: nat, s: BitSet)
    requires g.Valid() && EveryVertexUsed(g) && Decomposes(g, subs, eis, g.vertices)
    requires j < |subs| && k < |subs| && j != k && Minimal(subs[j], Hitting, s)
    ensures !Minimal(g, Hitting, s) && !MinimalApartFromEmpty(g, s)
  {
    var v := ComponentVertex(g, subs, eis, k);
    SubValid(g, subs, eis, j);
    SubValid(g, subs, eis, k);
    DistinctDisjoint(g, subs, eis, j, k);
    hide Decomposes;
    hide IsComponent;
    MinimalInVertices(subs[j], Hitting, s);
    var e :| e in g.Hits(v);
    assert v in g.Edge(e) * subs[k].vertices;
    ComponentEdge(g, subs[k], eis[k], e);
    assert e in Uncov(g, s) && e !in EmptyEdges(g);
  }

  lemma ComponentVertex(g: Graph, subs: seq<Graph>, eis: seq<seq<nat>>, k: nat) returns (v: nat)
    requires Decomposes(g, subs, eis, g.vertices) && k < |subs|
    ensures v in subs[k].vertices && v in g.vertices
  {
    SubValid(g, subs, eis, k);
    v :| v in subs[k].vertices;
  }

  lemma DistinctDisjoint(g: Graph, subs: seq<Graph>, eis: seq<seq<nat>>, j: nat, k: nat)
    requires Decomposes(g, subs, eis, g.vertices) && j < |subs| && k < |subs| && j != k
    ensures subs[j].vertices !! subs[k].vertices
  {
    hide IsComponent;
    if j < k {
      assert subs[j].vertices !! subs[k].vertices;
    } else {
      assert subs[k].vertices !! subs[j].vertices;
    }
  }

  lemma ExampleApart()
    ensures var g := Graph([[0], [1]], {0, 1});
            g.Valid() && EveryVertexUsed(g) && !Connected(g, 0, 1)
  {
    var g := Graph([[0], [1]], {0, 1});
    assert g.Edge(0) == {0} && g.Edge(1) == {1};
    assert 0 in g.Hits(0) && 1 in g.Hits(1);
    assert Closed(g, {0});
    if Connected(g, 0, 1) {
      ClosedConnected(g, {0}, 0, 1);
    }
  }
}
