/** Connected components of a hypergraph by depth-first search (HyperGraph::GetSubGraph in common/hypergraph.cpp). */
module Components {
  import opened Collections
  import opened BitSets
  import opened IntSets
  import opened Hypergraphs

  // ---------- connectivity ----------

  ghost predicate Adjacent(g: Graph, u: nat, w: nat) {
    exists e: nat :: e < |g.edges| && u in g.Edge(e) && w in g.Edge(e)
  }

  ghost predicate IsChain(g: Graph, p: seq<nat>) {
    p != [] && forall i, j :: 0 <= i < j < |p| && j == i + 1 ==> Adjacent(g, p[i], p[j])
  }

  ghost predicate ChainFromTo(g: Graph, p: seq<nat>, u: nat, w: nat) {
    IsChain(g, p) && p[0] == u && p[|p| - 1] == w
  }

  /** A chain of overlapping edges leads from `u` to `w`. */
  ghost predicate Connected(g: Graph, u: nat, w: nat) {
    exists p :: ChainFromTo(g, p, u, w)
  }

  lemma ConnectedSelf(g: Graph, u: nat)
    ensures Connected(g, u, u)
  {
    assert ChainFromTo(g, [u], u, u);
  }

  lemma ConnectedAdjacent(g: Graph, u: nat, w: nat)
    requires Adjacent(g, u, w)
    ensures Connected(g, u, w)
  {
    assert ChainFromTo(g, [u, w], u, w);
  }

  lemma ConnectedInEdge(g: Graph, u: nat, w: nat, e: nat)
    requires e < |g.edges| && u in g.Edge(e) && w in g.Edge(e)
    ensures Connected(g, u, w)
  {
    ConnectedAdjacent(g, u, w);
  }

  lemma ConnectedTransitive(g: Graph, u: nat, v: nat, w: nat)
    requires Connected(g, u, v) && Connected(g, v, w)
    ensures Connected(g, u, w)
  {
    var p :| ChainFromTo(g, p, u, v);
    var q :| ChainFromTo(g, q, v, w);
    var r := p + q[1..];
    forall i, j | 0 <= i < j < |r| && j == i + 1
      ensures Adjacent(g, r[i], r[j])
    {
      if j < |p| {
        assert r[i] == p[i] && r[j] == p[j];
      } else {
        assert r[i] == q[i - |p| + 1] && r[j] == q[j - |p| + 1];
      }
    }
    assert ChainFromTo(g, r, u, w);
  }

  lemma ConnectedSymmetric(g: Graph, u: nat, w: nat)
    requires Connected(g, u, w)
    ensures Connected(g, w, u)
  {
    var p :| ChainFromTo(g, p, u, w);
    var n := |p|;
    var r := seq(n, i requires 0 <= i < n => p[n - 1 - i]);
    forall i, j | 0 <= i < j < n && j == i + 1
      ensures Adjacent(g, r[i], r[j])
    {
      assert Adjacent(g, p[n - 1 - j], p[n - 1 - i]);
    }
    assert ChainFromTo(g, r, w, u);
  }

  ghost predicate Closed(g: Graph, s: set<nat>) {
    forall u, w :: u in s && Adjacent(g, u, w) ==> w in s
  }

  lemma {:induction false} ClosedChain(g: Graph, s: set<nat>, p: seq<nat>)
    requires Closed(g, s) && IsChain(g, p) && p[0] in s
    ensures p[|p| - 1] in s
    decreases |p|
  {
    if |p| > 1 {
      assert Adjacent(g, p[0], p[1]);
      var q := p[1..];
      forall i, j | 0 <= i < j < |q| && j == i + 1
        ensures Adjacent(g, q[i], q[j])
      {
        assert Adjacent(g, p[i + 1], p[j + 1]);
      }
      ClosedChain(g, s, q);
    }
  }

  lemma ClosedConnected(g: Graph, s: set<nat>, u: nat, w: nat)
    requires Closed(g, s) && u in s && Connected(g, u, w)
    ensures w in s
  {
    var p :| ChainFromTo(g, p, u, w);
    ClosedChain(g, s, p);
  }

  // ---------- what one visit does ----------

  /** The vectors the recursion writes: visited vertices and edges, and the component under construction. */
  datatype Marks = Marks(vertexFlag: set<nat>, edgeFlag: set<nat>, vertexSet: set<nat>, edgeSet: seq<IntSet>,
                         eiList: seq<nat>)

  /** An edge is marked and joins the component. */
  function EdgeMarked(g: Graph, m: Marks, e: nat): Marks
    requires e < |g.edges|
  {
    m.(edgeSet := m.edgeSet + [g.edges[e]], edgeFlag := m.edgeFlag + {e}, eiList := m.eiList + [e])
  }

  /** Depth first: a vertex not seen before joins the component, and then its edges are visited. */
  ghost function Visited(g: Graph, m: Marks, v: nat): (r: Marks)
    ensures m.vertexFlag <= r.vertexFlag
    decreases |g.vertices - m.vertexFlag|, 1, 0
  {
    if v in m.vertexFlag || v !in g.vertices then m
    else
      var a := m.(vertexFlag := m.vertexFlag + {v}, vertexSet := m.vertexSet + {v});
      StrictSubsetCard(g.vertices - a.vertexFlag, g.vertices - m.vertexFlag, v);
      EdgesVisited(g, a, HittingList(g, v))
  }

  /** Edges in the order of the list; an edge not seen before is marked, and then its vertices are visited. */
  ghost function EdgesVisited(g: Graph, m: Marks, hits: seq<nat>): (r: Marks)
    ensures m.vertexFlag <= r.vertexFlag
    decreases |g.vertices - m.vertexFlag|, 3, |hits|
  {
    if hits == [] then m
    else
      var n := |hits| - 1;
      var before := EdgesVisited(g, m, hits[..n]);
      if hits[n] in before.edgeFlag || hits[n] >= |g.edges| then before
      else
        SubsetCard(g.vertices - before.vertexFlag, g.vertices - m.vertexFlag);
        VerticesVisited(g, EdgeMarked(g, before, hits[n]), g.edges[hits[n]])
  }

  /** Vertices in the order of the edge. */
  ghost function VerticesVisited(g: Graph, m: Marks, vs: seq<nat>): (r: Marks)
    ensures m.vertexFlag <= r.vertexFlag
    decreases |g.vertices - m.vertexFlag|, 2, |vs|
  {
    if vs == [] then m
    else
      var n := |vs| - 1;
      var before := VerticesVisited(g, m, vs[..n]);
      SubsetCard(g.vertices - before.vertexFlag, g.vertices - m.vertexFlag);
      Visited(g, before, vs[n])
  }

  lemma VisitedSeen(g: Graph, m: Marks, v: nat)
    requires v in m.vertexFlag
    ensures Visited(g, m, v) == m
  {
  }

  lemma VisitedNew(g: Graph, m: Marks, v: nat)
    requires v !in m.vertexFlag && v in g.vertices
    ensures Visited(g, m, v)
            == EdgesVisited(g, m.(vertexFlag := m.vertexFlag + {v}, vertexSet := m.vertexSet + {v}), HittingList(g, v))
  {
  }

  lemma EdgesVisitedNext(g: Graph, m: Marks, hits: seq<nat>, i: nat)
    requires i < |hits| && hits[i] < |g.edges|
    ensures var before := EdgesVisited(g, m, hits[..i]);
            EdgesVisited(g, m, hits[..i + 1])
            == if hits[i] in before.edgeFlag then before
               else VerticesVisited(g, EdgeMarked(g, before, hits[i]), g.edges[hits[i]])
  {
    assert hits[..i + 1][..i] == hits[..i];
  }

  lemma VerticesVisitedNext(g: Graph, m: Marks, vs: seq<nat>, j: nat)
    requires j < |vs|
    ensures VerticesVisited(g, m, vs[..j + 1]) == Visited(g, VerticesVisited(g, m, vs[..j]), vs[j])
  {
    assert vs[..j + 1][..j] == vs[..j];
  }

  lemma NothingVisited(g: Graph, m: Marks, s: seq<nat>)
    ensures EdgesVisited(g, m, s[..0]) == m && VerticesVisited(g, m, s[..0]) == m
  {
  }

  ghost predicate InGraph(g: Graph, m: Marks) {
    && m.vertexFlag <= g.vertices && (forall e :: e in m.edgeFlag ==> e < |g.edges|)
    && |m.edgeSet| == |m.eiList|
    && forall k :: 0 <= k < |m.eiList| ==> m.eiList[k] < |g.edges| && m.edgeSet[k] == g.edges[m.eiList[k]]
  }

  /** Going from marks `a` to marks `b` explores from `v`. Vertices in `openV` may still have unvisited edges, edges in
      `openE` unvisited vertices; everything else that is new has been explored completely. */
  ghost predicate Explores(g: Graph, v: nat, a: Marks, b: Marks, openV: set<nat>, openE: set<nat>) {
    && InGraph(g, b)
    && a.vertexFlag <= b.vertexFlag && b.vertexSet == a.vertexSet + (b.vertexFlag - a.vertexFlag)
    && a.eiList <= b.eiList
    && NoDup(b.eiList[|a.eiList|..])
    && Elems(b.eiList[|a.eiList|..]) == b.edgeFlag - a.edgeFlag && a.edgeFlag <= b.edgeFlag
    && (forall w :: w in b.vertexFlag - a.vertexFlag ==> Connected(g, v, w))
    && (forall w :: w in b.vertexFlag - a.vertexFlag && w !in openV ==> g.Hits(w) <= b.edgeFlag)
    && (forall e :: e in b.edgeFlag - a.edgeFlag ==> g.Edge(e) != {})
    && (forall e :: e in b.edgeFlag - a.edgeFlag && e !in openE ==> g.Edge(e) <= b.vertexFlag)
  }

  lemma ExploresNothing(g: Graph, v: nat, a: Marks)
    requires InGraph(g, a)
    ensures Explores(g, v, a, a, {}, {})
  {
  }

  lemma ExploresVertex(g: Graph, v: nat, a: Marks)
    requires InGraph(g, a) && v in g.vertices && v !in a.vertexFlag
    ensures Explores(g, v, a, a.(vertexFlag := a.vertexFlag + {v}, vertexSet := a.vertexSet + {v}), {v}, {})
  {
    ConnectedSelf(g, v);
  }

  /** Marking an edge of the open vertex opens that edge. */
  lemma ExploresEdge(g: Graph, v: nat, a: Marks, b: Marks, e: nat)
    requires Explores(g, v, a, b, {v}, {}) && e < |g.edges| && v in g.Edge(e) && e !in b.edgeFlag
    ensures Explores(g, v, a, b.(edgeSet := b.edgeSet + [g.edges[e]], edgeFlag := b.edgeFlag + {e}, eiList := b.eiList + [e]),
                     {v}, {e})
  {
    var c := b.(edgeSet := b.edgeSet + [g.edges[e]], edgeFlag := b.edgeFlag + {e}, eiList := b.eiList + [e]);
    var added := b.eiList[|a.eiList|..];
    assert c.eiList[|a.eiList|..] == added + [e];
    ElemsConcat(added, [e]);
    assert e !in added by {
      assert e !in Elems(added);
    }
    assert Elems(added + [e]) == c.edgeFlag - a.edgeFlag;
  }

  /** A nested visit of a neighbour is part of the exploration from `v`. */
  lemma ExploresNested(g: Graph, v: nat, a: Marks, b: Marks, w: nat, c: Marks, openV: set<nat>, openE: set<nat>)
    requires Explores(g, v, a, b, openV, openE) && Explores(g, w, b, c, {}, {}) && Connected(g, v, w)
    ensures Explores(g, v, a, c, openV, openE)
  {
    var first, second := b.eiList[|a.eiList|..], c.eiList[|b.eiList|..];
    assert c.eiList == b.eiList + second;
    assert c.eiList[|a.eiList|..] == first + second;
    NoDupConcat(first, second);
    forall x | x in c.vertexFlag - b.vertexFlag
      ensures Connected(g, v, x)
    {
      ConnectedTransitive(g, v, w, x);
    }
  }

  lemma NoDupConcat(a: seq<nat>, b: seq<nat>)
    requires NoDup(a) && NoDup(b) && Elems(a) !! Elems(b)
    ensures NoDup(a + b) && Elems(a + b) == Elems(a) + Elems(b)
  {
    forall i, j | 0 <= i < j < |a + b|
      ensures (a + b)[i] != (a + b)[j]
    {
      if i < |a| <= j {
        assert a[i] in Elems(a) && b[j - |a|] in Elems(b);
      }
    }
    ElemsConcat(a, b);
  }

  lemma ExploresMonotone(g: Graph, v: nat, a: Marks, b: Marks, openV: set<nat>, openE: set<nat>)
    requires Explores(g, v, a, b, openV, openE)
    ensures InGraph(g, b) && a.vertexFlag <= b.vertexFlag && a.edgeFlag <= b.edgeFlag
  {
  }

  lemma CloseEdge(g: Graph, v: nat, a: Marks, b: Marks, e: nat)
    requires Explores(g, v, a, b, {v}, {e}) && e < |g.edges| && g.Edge(e) <= b.vertexFlag
    ensures Explores(g, v, a, b, {v}, {})
  {
  }

  lemma CloseVertex(g: Graph, v: nat, a: Marks, b: Marks, hits: seq<nat>)
    requires g.Valid() && Explores(g, v, a, b, {v}, {}) && hits == HittingList(g, v)
    requires forall j :: 0 <= j < |hits| ==> hits[j] in b.edgeFlag
    ensures Explores(g, v, a, b, {}, {})
  {
    HittingListMeaning(g, v);
    assert forall e :: e in g.Hits(v) ==> e in Elems(hits);
  }

  // ---------- components ----------

  /** No visited vertex has an unvisited edge, no visited edge an unvisited vertex. */
  ghost predicate Settled(g: Graph, m: Marks) {
    && InGraph(g, m)
    && (forall w :: w in m.vertexFlag ==> g.Hits(w) <= m.edgeFlag)
    && (forall e :: e in m.edgeFlag ==> g.Edge(e) <= m.vertexFlag)
  }

  /** One component: a connected, closed vertex set with all its edges. */
  ghost predicate IsComponent(g: Graph, sub: Graph, ei: seq<nat>) {
    && sub.Valid() && sub.vertices <= g.vertices && sub.vertices != {}
    && |sub.edges| == |ei| && NoDup(ei)
    && (forall k :: 0 <= k < |ei| ==> ei[k] < |g.edges| && sub.edges[k] == g.edges[ei[k]])
    && (forall e: nat :: e in ei <==> e < |g.edges| && g.Edge(e) * sub.vertices != {})
    && (forall u, w :: u in sub.vertices ==> (w in sub.vertices <==> Connected(g, u, w)))
  }

  /** The decomposition: components that partition the vertices. */
  ghost predicate Decomposes(g: Graph, subs: seq<Graph>, eis: seq<seq<nat>>, done: set<nat>) {
    && |subs| == |eis|
    && (forall k :: 0 <= k < |subs| ==> IsComponent(g, subs[k], eis[k]) && subs[k].vertices <= done)
    && (forall i, j :: 0 <= i < j < |subs| ==> subs[i].vertices !! subs[j].vertices)
    && (forall v :: v in done ==> exists k :: 0 <= k < |subs| && v in subs[k].vertices)
  }

  /** A visit from settled marks produces one component and settles again. */
  lemma VisitMakesComponent(g: Graph, v: nat, a: Marks, b: Marks)
    requires g.Valid() && Settled(g, a) && a.vertexSet == {} && a.eiList == [] && a.edgeSet == []
    requires v !in a.vertexFlag && v in b.vertexFlag && Explores(g, v, a, b, {}, {})
    ensures Settled(g, b)
    ensures b.vertexSet == b.vertexFlag - a.vertexFlag
    ensures IsComponent(g, Graph(b.edgeSet, b.vertexSet), b.eiList)
  {
    NewEdgesAreNew(g, v, a, b);
    NewVerticesConnected(g, v, a, b);
    VisitSettles(g, v, a, b);
    hide Explores;
    hide Settled;
    hide Connected;
    SubgraphValid(g, b);
    assert v in b.vertexSet;
  }

  lemma VisitSettles(g: Graph, v: nat, a: Marks, b: Marks)
    requires g.Valid() && Settled(g, a) && a.vertexSet == {} && a.eiList == [] && Explores(g, v, a, b, {}, {})
    ensures Settled(g, b) && InGraph(g, b) && b.vertexSet == b.vertexFlag - a.vertexFlag && NoDup(b.eiList)
  {
    assert b.eiList[0..] == b.eiList;
  }

  lemma SubgraphValid(g: Graph, b: Marks)
    requires g.Valid() && InGraph(g, b) && NoDup(b.eiList) && b.vertexSet <= g.vertices
    requires forall e: nat :: e in b.eiList ==> e < |g.edges| && g.Edge(e) <= b.vertexSet
    ensures Graph(b.edgeSet, b.vertexSet).Valid()
  {
    NoDupCard(b.eiList);
    BoundedCard(Elems(b.eiList), |g.edges|);
    forall k | 0 <= k < |b.eiList|
      ensures NoDup(b.edgeSet[k]) && Elems(b.edgeSet[k]) <= b.vertexSet
    {
      assert b.eiList[k] in b.eiList;
    }
  }

  /** The new edges are exactly the edges meeting the new vertices, and they lie inside them. */
  lemma NewEdgesAreNew(g: Graph, v: nat, a: Marks, b: Marks)
    requires g.Valid() && Settled(g, a) && a.eiList == [] && Explores(g, v, a, b, {}, {})
    ensures forall e: nat :: e in b.eiList <==> e < |g.edges| && g.Edge(e) * (b.vertexFlag - a.vertexFlag) != {}
    ensures forall e: nat :: e in b.eiList ==> g.Edge(e) <= b.vertexFlag - a.vertexFlag
  {
    var c := b.vertexFlag - a.vertexFlag;
    assert b.eiList[0..] == b.eiList;
    forall e: nat
      ensures e in b.eiList <==> e < |g.edges| && g.Edge(e) * c != {}
      ensures e in b.eiList ==> g.Edge(e) <= c
    {
      assert e in b.eiList <==> e in Elems(b.eiList);
      if e in b.eiList {
        assert e !in a.edgeFlag && g.Edge(e) != {};
        forall w | w in g.Edge(e)
          ensures w in c
        {
          assert e in g.Hits(w);
        }
        assert g.Edge(e) * c == g.Edge(e);
      }
      assert forall w :: e < |g.edges| && w in g.Edge(e) * c ==> e in g.Hits(w);
    }
  }

  lemma NewVerticesConnected(g: Graph, v: nat, a: Marks, b: Marks)
    requires g.Valid() && Settled(g, a) && a.eiList == [] && v !in a.vertexFlag && v in b.vertexFlag
    requires Explores(g, v, a, b, {}, {})
    ensures var c := b.vertexFlag - a.vertexFlag;
            forall u, w :: u in c ==> (w in c <==> Connected(g, u, w))
  {
    var c := b.vertexFlag - a.vertexFlag;
    NewEdgesAreNew(g, v, a, b);
    assert Closed(g, c) by {
      forall u, w | u in c && Adjacent(g, u, w)
        ensures w in c
      {
        var e: nat :| e < |g.edges| && u in g.Edge(e) && w in g.Edge(e);
        assert u in g.Edge(e) * c;
      }
    }
    hide Connected;
    hide Closed;
    forall u, w | u in c
      ensures w in c <==> Connected(g, u, w)
    {
      if Connected(g, u, w) {
        ClosedConnected(g, c, u, w);
      } else if w in c {
        ConnectedSymmetric(g, v, u);
        ConnectedTransitive(g, u, v, w);
      }
    }
  }

  class ComponentSearch {
    const g: Graph
    var vertexFlag: set<nat>
    var edgeFlag: set<nat>
    var vertexSet: set<nat>
    var edgeSet: seq<IntSet>
    var eiList: seq<nat>

    ghost function Now(): Marks
      reads this
    {
      Marks(vertexFlag, edgeFlag, vertexSet, edgeSet, eiList)
    }

    constructor (g: Graph)
      ensures this.g == g && Now() == Marks({}, {}, {}, [], [])
    {
      this.g := g;
      vertexFlag, edgeFlag, vertexSet, edgeSet, eiList := {}, {}, {}, [], [];
    }

    /** How many vertices are still unvisited. */
    ghost function Left(): nat
      reads this
    {
      |g.vertices - vertexFlag|
    }

    /** GetSubGraphHelpFunc. */
    method Visit(v: nat)
      requires g.Valid() && v in g.vertices && InGraph(g, Now())
      modifies this
      ensures v in vertexFlag && Explores(g, v, old(Now()), Now(), {}, {})
      ensures Now() == Visited(g, old(Now()), v)
      ensures old(vertexFlag) <= vertexFlag && InGraph(g, Now()) && Left() <= old(Left())
      decreases Left(), 1
    {
      hide Explores;
      hide InGraph;
      hide HittingList;
      hide NoDup;
      hide Graph.Valid;
      hide Graph.Edge;
      hide Elems;
      hide Visited;
      hide EdgesVisited;
      hide VerticesVisited;
      ghost var before := Now();
      if v in vertexFlag {
        VisitedSeen(g, before, v);
        ExploresNothing(g, v, before);
        return;
      }
      vertexSet := vertexSet + {v};
      vertexFlag := vertexFlag + {v};
      VisitedNew(g, before, v);
      ExploresVertex(g, v, before);
      StrictSubsetCard(g.vertices - vertexFlag, g.vertices - before.vertexFlag, v);
      ghost var start := Now();
      var hits := HittingList(g, v);
      HittingListOf(g, v);
      NothingVisited(g, start, hits);
      for i := 0 to |hits|
        invariant v in vertexFlag && Explores(g, v, before, Now(), {v}, {})
        invariant Now() == EdgesVisited(g, start, hits[..i])
        invariant forall j :: 0 <= j < i ==> hits[j] in edgeFlag
        invariant Left() < old(Left())
      {
        EdgesVisitedNext(g, start, hits, i);
        if hits[i] !in edgeFlag {
          VisitEdge(v, hits[i], before);
        }
      }
      assert hits[..|hits|] == hits;
      CloseVertex(g, v, before, Now(), hits);
      ExploresMonotone(g, v, before, Now(), {}, {});
    }

    /** Starts new vectors for one component and fills them from `v`. */
    method Collect(v: nat)
      requires g.Valid() && Settled(g, Now()) && v in g.vertices && v !in vertexFlag
      modifies this
      ensures Settled(g, Now()) && IsComponent(g, Graph(edgeSet, vertexSet), eiList)
      ensures vertexSet !! old(vertexFlag) && vertexFlag == old(vertexFlag) + vertexSet && v in vertexFlag
      ensures Now() == Visited(g, old(Now()).(vertexSet := {}, edgeSet := [], eiList := []), v)
    {
      hide Settled;
      hide IsComponent;
      hide Explores;
      hide InGraph;
      hide Visited;
      SettledReset(g, Now());
      vertexSet, edgeSet, eiList := {}, [], [];
      ghost var before := Now();
      Visit(v);
      VisitMakesComponent(g, v, before, Now());
    }

    /** Marks a new edge and visits its vertices. */
    method VisitEdge(ghost v: nat, e: nat, ghost before: Marks)
      requires g.Valid() && e < |g.edges| && v in g.Edge(e) && v in vertexFlag && e !in edgeFlag
      requires Explores(g, v, before, Now(), {v}, {})
      modifies this
      ensures old(vertexFlag) <= vertexFlag && old(edgeFlag) <= edgeFlag && e in edgeFlag
      ensures Explores(g, v, before, Now(), {v}, {}) && Left() <= old(Left())
      ensures Now() == VerticesVisited(g, EdgeMarked(g, old(Now()), e), g.edges[e])
      decreases Left() + 1, 0
    {
      hide Visited;
      hide EdgesVisited;
      hide VerticesVisited;
      hide Explores;
      hide InGraph;
      hide Connected;
      ExploresEdge(g, v, before, Now(), e);
      edgeSet := edgeSet + [g.edges[e]];
      edgeFlag := edgeFlag + {e};
      eiList := eiList + [e];
      ghost var marked := Now();
      var edge := g.edges[e];
      ExploresMonotone(g, v, before, marked, {v}, {e});
      NothingVisited(g, marked, edge);
      for j := 0 to |edge|
        invariant Now() == VerticesVisited(g, marked, edge[..j])
        invariant InGraph(g, Now()) && marked.vertexFlag <= vertexFlag && marked.edgeFlag <= edgeFlag
        invariant Explores(g, v, before, Now(), {v}, {e})
        invariant forall k :: 0 <= k < j ==> edge[k] in vertexFlag
        invariant Left() <= old(Left())
      {
        var w := edge[j];
        assert w in g.Edge(e);
        ConnectedInEdge(g, v, w, e);
        VerticesVisitedNext(g, marked, edge, j);
        ghost var middle := Now();
        Visit(w);
        ExploresMonotone(g, w, middle, Now(), {}, {});
        ExploresNested(g, v, before, middle, w, Now(), {v}, {e});
      }
      assert edge[..|edge|] == edge;
      CloseEdge(g, v, before, Now(), e);
    }
  }

  lemma SettledReset(g: Graph, m: Marks)
    requires Settled(g, m)
    ensures var reset := m.(vertexSet := {}, edgeSet := [], eiList := []);
            Settled(g, reset) && InGraph(g, reset)
  {
  }

  lemma Start(g: Graph)
    ensures Settled(g, Marks({}, {}, {}, [], [])) && Decomposes(g, [], [], {}) && Sorted([], 0)
    ensures PartsBelow(g, 0) == Parts([], [], Marks({}, {}, {}, [], []))
  {
  }

  lemma SettledVertices(g: Graph, m: Marks)
    requires Settled(g, m)
    ensures m.vertexFlag <= g.vertices
  {
  }

  /** The components found so far, the original ids of their edges, and the marks. */
  datatype Parts = Parts(subs: seq<Graph>, eis: seq<seq<nat>>, marks: Marks)

  /** The components of the vertices below `n`: every vertex not seen before starts one. */
  ghost function PartsBelow(g: Graph, n: nat): Parts {
    if n == 0 then Parts([], [], Marks({}, {}, {}, [], []))
    else
      var p := PartsBelow(g, n - 1);
      if n - 1 !in g.vertices || n - 1 in p.marks.vertexFlag then p
      else
        var m := Visited(g, p.marks.(vertexSet := {}, edgeSet := [], eiList := []), n - 1);
        Parts(p.subs + [Graph(m.edgeSet, m.vertexSet)], p.eis + [m.eiList], m)
  }

  /** What GetSubGraph computes. */
  ghost function SubGraphs(g: Graph): Parts {
    PartsBelow(g, MAXBIT)
  }

  lemma PartsNext(g: Graph, n: nat)
    ensures var p := PartsBelow(g, n);
            PartsBelow(g, n + 1)
            == if n !in g.vertices || n in p.marks.vertexFlag then p
               else
                 var m := Visited(g, p.marks.(vertexSet := {}, edgeSet := [], eiList := []), n);
                 Parts(p.subs + [Graph(m.edgeSet, m.vertexSet)], p.eis + [m.eiList], m)
  {
  }

  /** Once every vertex is visited there are no more components. */
  lemma {:induction false} PartsSettled(g: Graph, n: nat, k: nat)
    requires n <= k && g.vertices <= PartsBelow(g, n).marks.vertexFlag
    ensures PartsBelow(g, k) == PartsBelow(g, n)
  {
    if n < k {
      PartsSettled(g, n, k - 1);
      PartsNext(g, k - 1);
    }
  }

  /** A vertex all of whose edges are marked only joins the component. */
  lemma VisitedLast(g: Graph, m: Marks, v: nat)
    requires v !in m.vertexFlag && v in g.vertices && forall e :: e in HittingList(g, v) ==> e in m.edgeFlag
    ensures Visited(g, m, v) == m.(vertexFlag := m.vertexFlag + {v}, vertexSet := m.vertexSet + {v})
  {
    VisitedNew(g, m, v);
    hide Visited;
    NothingNew(g, m.(vertexFlag := m.vertexFlag + {v}, vertexSet := m.vertexSet + {v}), HittingList(g, v));
  }

  lemma {:induction false} NothingNew(g: Graph, m: Marks, hits: seq<nat>)
    requires forall e :: e in hits ==> e in m.edgeFlag
    ensures EdgesVisited(g, m, hits) == m
  {
    if hits != [] {
      var n := |hits| - 1;
      NothingNew(g, m, hits[..n]);
      assert hits[n] in m.edgeFlag;
    }
  }

  lemma VisitedPair(g: Graph, m: Marks, u: nat, v: nat)
    ensures VerticesVisited(g, m, [u]) == Visited(g, m, u)
    ensures VerticesVisited(g, m, [u, v]) == Visited(g, Visited(g, m, u), v)
  {
    var vs := [u, v];
    NothingVisited(g, m, vs);
    VerticesVisitedNext(g, m, vs, 0);
    VerticesVisitedNext(g, m, vs, 1);
    assert vs[..1] == [u] && vs[..2] == vs;
    hide *;
  }

  lemma VisitedTriple(g: Graph, m: Marks, u: nat, v: nat, w: nat)
    ensures VerticesVisited(g, m, [u, v, w]) == Visited(g, Visited(g, Visited(g, m, u), v), w)
  {
    var vs := [u, v, w];
    VisitedPair(g, m, u, v);
    VerticesVisitedNext(g, m, vs, 2);
    assert vs[..2] == [u, v] && vs[..3] == vs;
    hide *;
  }

  /** Edges that are marked already, then one that is not, then marked ones again. */
  lemma OneNew(g: Graph, m: Marks, hits: seq<nat>, i: nat)
    requires i < |hits| && hits[i] < |g.edges| && hits[i] !in m.edgeFlag
    requires forall j :: 0 <= j < i ==> hits[j] in m.edgeFlag
    requires var r := VerticesVisited(g, EdgeMarked(g, m, hits[i]), g.edges[hits[i]]);
             forall j :: i < j < |hits| ==> hits[j] in r.edgeFlag
    ensures EdgesVisited(g, m, hits) == VerticesVisited(g, EdgeMarked(g, m, hits[i]), g.edges[hits[i]])
    decreases |hits|
  {
    var n := |hits| - 1;
    if i == n {
      NothingNew(g, m, hits[..n]);
      EdgesVisitedNext(g, m, hits, n);
      assert hits[..n + 1] == hits;
    } else {
      OneNew(g, m, hits[..n], i);
    }
  }

  /** In order of their smallest vertices, all of them below `n`. */
  ghost predicate Sorted(subs: seq<Graph>, n: nat) {
    && (forall i :: 0 <= i < |subs| ==> subs[i].vertices != {} && Least(subs[i].vertices) < n)
    && (forall i, j :: 0 <= i < j < |subs| ==> Least(subs[i].vertices) < Least(subs[j].vertices))
  }

  lemma SortedMore(subs: seq<Graph>, n: nat, sub: Graph)
    requires Sorted(subs, n) && n in sub.vertices && forall v :: v in sub.vertices ==> v >= n
    ensures Sorted(subs + [sub], n + 1)
  {
    assert Least(sub.vertices) == n;
  }

  /** The components with the original ids of their edges, in order of their smallest vertices; the edges of each stand in
      the order of the depth-first visit. */
  method GetSubGraph(g: Graph) returns (subs: seq<Graph>, eis: seq<seq<nat>>)
    requires g.Valid()
    ensures Decomposes(g, subs, eis, g.vertices)
    ensures forall i :: 0 <= i < |subs| ==> subs[i].vertices != {}
    ensures forall i, j :: 0 <= i < j < |subs| ==> Least(subs[i].vertices) < Least(subs[j].vertices)
    ensures subs == SubGraphs(g).subs && eis == SubGraphs(g).eis
  {
    hide Settled;
    hide Decomposes;
    hide IsComponent;
    hide Explores;
    hide InGraph;
    hide Visited;
    hide Sorted;
    subs, eis := [], [];
    Start(g);
    var search := new ComponentSearch(g);
    for i := 0 to MAXBIT
      invariant fresh(search) && search.g == g
      invariant Settled(g, search.Now())
      invariant forall x :: x in g.vertices && x < i ==> x in search.vertexFlag
      invariant Decomposes(g, subs, eis, search.vertexFlag) && Sorted(subs, i)
      invariant PartsBelow(g, i) == Parts(subs, eis, search.Now())
    {
      PartsNext(g, i);
      SortedLater(subs, i);
      if i in g.vertices && i !in search.vertexFlag {
        ghost var before := search.vertexFlag;
        search.Collect(i);
        ghost var sub := Graph(search.edgeSet, search.vertexSet);
        DecomposesMore(g, subs, eis, before, sub, search.eiList);
        ComponentInside(g, sub, search.eiList);
        SortedMore(subs, i, sub);
        subs := subs + [Graph(search.edgeSet, search.vertexSet)];
        eis := eis + [search.eiList];
      }
    }
    SettledVertices(g, search.Now());
    assert search.vertexFlag == g.vertices;
    SortedMeaning(subs, MAXBIT);
  }

  lemma SortedLater(subs: seq<Graph>, n: nat)
    requires Sorted(subs, n)
    ensures Sorted(subs, n + 1)
  {
  }

  lemma SortedMeaning(subs: seq<Graph>, n: nat)
    requires Sorted(subs, n)
    ensures forall i :: 0 <= i < |subs| ==> subs[i].vertices != {}
    ensures forall i, j :: 0 <= i < j < |subs| ==> Least(subs[i].vertices) < Least(subs[j].vertices)
  {
  }

  lemma ComponentInside(g: Graph, sub: Graph, ei: seq<nat>)
    requires IsComponent(g, sub, ei)
    ensures sub.vertices <= g.vertices
  {
  }

  lemma DecomposesMore(g: Graph, subs: seq<Graph>, eis: seq<seq<nat>>, done: set<nat>, sub: Graph, ei: seq<nat>)
    requires Decomposes(g, subs, eis, done) && IsComponent(g, sub, ei) && sub.vertices !! done
    ensures Decomposes(g, subs + [sub], eis + [ei], done + sub.vertices)
  {
    hide IsComponent;
    var more := subs + [sub];
    forall v | v in done + sub.vertices
      ensures exists k :: 0 <= k < |more| && v in more[k].vertices
    {
      if v in done {
        var k :| 0 <= k < |subs| && v in subs[k].vertices;
        assert v in more[k].vertices;
      } else {
        assert v in more[|subs|].vertices;
      }
    }
  }

  // ---------- what the decomposition means ----------

  lemma ComponentOf(g: Graph, subs: seq<Graph>, eis: seq<seq<nat>>, v: nat) returns (k: nat)
    requires Decomposes(g, subs, eis, g.vertices) && v in g.vertices
    ensures k < |subs| && v in subs[k].vertices && IsComponent(g, subs[k], eis[k])
  {
    hide IsComponent;
    k :| 0 <= k < |subs| && v in subs[k].vertices;
  }

  lemma ComponentConnected(g: Graph, sub: Graph, ei: seq<nat>, u: nat, w: nat)
    requires IsComponent(g, sub, ei) && u in sub.vertices
    ensures w in sub.vertices <==> Connected(g, u, w)
  {
  }

  /** Two vertices land in the same component exactly when a chain of overlapping edges joins them. */
  lemma SameComponent(g: Graph, subs: seq<Graph>, eis: seq<seq<nat>>, u: nat, w: nat)
    requires Decomposes(g, subs, eis, g.vertices) && u in g.vertices && w in g.vertices
    ensures (exists k :: 0 <= k < |subs| && u in subs[k].vertices && w in subs[k].vertices) <==> Connected(g, u, w)
  {
    hide IsComponent;
    hide Connected;
    var k := ComponentOf(g, subs, eis, u);
    ComponentConnected(g, subs[k], eis[k], u, w);
    if j :| 0 <= j < |subs| && u in subs[j].vertices && w in subs[j].vertices {
      ComponentConnected(g, subs[j], eis[j], u, w);
    }
  }

  lemma ComponentEdge(g: Graph, sub: Graph, ei: seq<nat>, e: nat)
    requires IsComponent(g, sub, ei) && e < |g.edges|
    ensures e in ei <==> g.Edge(e) * sub.vertices != {}
    ensures e in ei ==> g.Edge(e) != {} && g.Edge(e) <= sub.vertices
  {
    if e in ei {
      var p :| 0 <= p < |ei| && ei[p] == e;
      assert Elems(sub.edges[p]) <= sub.vertices;
    }
  }

  /** Every non-empty edge belongs to exactly one component and lies inside its vertices; empty edges belong to none. */
  lemma EdgeInOneComponent(g: Graph, subs: seq<Graph>, eis: seq<seq<nat>>, e: nat)
    requires g.Valid() && Decomposes(g, subs, eis, g.vertices) && e < |g.edges|
    ensures g.Edge(e) != {} <==> exists k :: 0 <= k < |eis| && e in eis[k]
    ensures forall k :: 0 <= k < |eis| && e in eis[k] ==> g.Edge(e) <= subs[k].vertices
    ensures forall i, j :: 0 <= i < j < |eis| ==> !(e in eis[i] && e in eis[j])
  {
    hide IsComponent;
    forall k | 0 <= k < |eis|
      ensures e in eis[k] <==> g.Edge(e) * subs[k].vertices != {}
      ensures e in eis[k] ==> g.Edge(e) != {} && g.Edge(e) <= subs[k].vertices
    {
      ComponentEdge(g, subs[k], eis[k], e);
    }
    if g.Edge(e) != {} {
      var v :| v in g.Edge(e);
      var k := ComponentOf(g, subs, eis, v);
      assert v in g.Edge(e) * subs[k].vertices;
    }
  }
}
