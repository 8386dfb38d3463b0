/** Hypergraphs (common/hypergraph.cpp) and the lazily built vertex-to-edges index. */
module Hypergraphs {
  import opened Collections
  import opened BitSets
  import opened IntSets

  datatype Graph = Graph(edges: seq<IntSet>, vertices: BitSet) {

    /** What the searches rely on: edges list no vertex twice, and every id fits a bit set. */
    ghost predicate Valid() {
      && |edges| <= MAXBIT
      && InRange(vertices)
      && (forall e :: 0 <= e < |edges| ==> NoDup(edges[e]) && Elems(edges[e]) <= vertices)
    }

    function Edge(e: nat): set<nat>
      requires e < |edges|
    {
      Elems(edges[e])
    }

    /** The edges containing `v`. */
    function Hits(v: nat): set<nat> {
      set e: nat | e < |edges| && v in Edge(e)
    }
  }

  /** One entry `e` for every time `v` is listed. */
  function Entries(edge: IntSet, v: nat, e: nat): IntSet {
    if edge == [] then []
    else
      var n := |edge| - 1;
      Entries(edge[..n], v, e) + if edge[n] == v then [e] else []
  }

  lemma {:induction false} EntriesOfNoDup(edge: IntSet, v: nat, e: nat)
    requires NoDup(edge)
    ensures Entries(edge, v, e) == if v in edge then [e] else []
  {
    if edge != [] {
      var init, last := edge[..|edge| - 1], edge[|edge| - 1];
      assert edge == init + [last] && last !in init;
      assert Entries(edge, v, e) == Entries(init, v, e) + if last == v then [e] else [];
      EntriesOfNoDup(init, v, e);
      hide Entries;
      hide NoDup;
      assert v in edge <==> v in init || v == last;
    }
  }

  /** The entries the index gets for `v` from the first `n` edges. */
  function HittingUpTo(g: Graph, v: nat, n: nat): IntSet
    requires n <= |g.edges|
  {
    if n == 0 then []
    else HittingUpTo(g, v, n - 1) + Entries(g.edges[n - 1], v, n - 1)
  }

  function HittingList(g: Graph, v: nat): IntSet {
    HittingUpTo(g, v, |g.edges|)
  }

  lemma HittingNext(g: Graph, v: nat, n: nat)
    requires n < |g.edges| && NoDup(g.edges[n])
    ensures HittingUpTo(g, v, n + 1) == if v in g.Edge(n) then HittingUpTo(g, v, n) + [n] else HittingUpTo(g, v, n)
  {
    EntriesOfNoDup(g.edges[n], v, n);
    hide Entries;
  }

  lemma {:induction false} HittingUpToElem(g: Graph, v: nat, n: nat, e: nat)
    requires n <= |g.edges|
    requires forall i :: 0 <= i < |g.edges| ==> NoDup(g.edges[i])
    ensures e in HittingUpTo(g, v, n) <==> e < n && v in g.Edge(e)
    decreases n
  {
    if n == 0 {
      assert HittingUpTo(g, v, 0) == [];
    } else {
      hide HittingUpTo;
      hide NoDup;
      hide Graph.Edge;
      HittingUpToElem(g, v, n - 1, e);
      HittingNext(g, v, n - 1);
    }
  }

  lemma HittingUpToElems(g: Graph, v: nat, n: nat)
    requires n <= |g.edges|
    requires forall e :: 0 <= e < |g.edges| ==> NoDup(g.edges[e])
    ensures forall e :: e in HittingUpTo(g, v, n) <==> 0 <= e < n && v in g.Edge(e)
  {
    hide HittingUpTo;
    hide NoDup;
    forall e: nat
      ensures e in HittingUpTo(g, v, n) <==> e < n && v in g.Edge(e)
    {
      HittingUpToElem(g, v, n, e);
    }
  }

  lemma {:induction false} HittingUpToAscends(g: Graph, v: nat, n: nat)
    requires n <= |g.edges|
    requires forall e :: 0 <= e < |g.edges| ==> NoDup(g.edges[e])
    ensures Ascends(HittingUpTo(g, v, n))
    decreases n
  {
    if n == 0 {
      assert HittingUpTo(g, v, 0) == [];
    } else {
      HittingUpToAscends(g, v, n - 1);
      hide *;
      HittingAscendsNext(g, v, n - 1);
    }
  }

  lemma HittingAscendsNext(g: Graph, v: nat, n: nat)
    requires n < |g.edges| && Ascends(HittingUpTo(g, v, n))
    requires forall e :: 0 <= e < |g.edges| ==> NoDup(g.edges[e])
    ensures Ascends(HittingUpTo(g, v, n + 1))
  {
    HittingUpToElems(g, v, n);
    HittingNext(g, v, n);
    hide HittingUpTo;
    hide NoDup;
    hide Ascends;
    if v in g.Edge(n) {
      AscendsMore(HittingUpTo(g, v, n), n);
    }
  }

  lemma AscendsMore(s: seq<nat>, n: nat)
    requires Ascends(s) && forall e :: e in s ==> e < n
    ensures Ascends(s + [n])
  {
    assert forall i :: 0 <= i < |s| ==> s[i] in s;
  }

  /** On duplicate-free edges the index lists, once each and in order, the edges containing `v`. */
  lemma HittingListMeaning(g: Graph, v: nat)
    requires g.Valid()
    ensures HittingList(g, v) == Bits(g.Hits(v))
    ensures Elems(HittingList(g, v)) == g.Hits(v) && NoDup(HittingList(g, v))
  {
    HittingUpToElems(g, v, |g.edges|);
    HittingUpToAscends(g, v, |g.edges|);
    AscendingUnique(g.Hits(v), HittingList(g, v));
  }

  lemma HittingListOf(g: Graph, v: nat)
    requires g.Valid()
    ensures forall i :: 0 <= i < |HittingList(g, v)| ==>
              HittingList(g, v)[i] < |g.edges| && v in g.Edge(HittingList(g, v)[i])
  {
    HittingListMeaning(g, v);
    var hits := HittingList(g, v);
    assert forall i :: 0 <= i < |hits| ==> hits[i] in Elems(hits);
  }

  /** The hypergraph object: an edge list, its vertices, and an index built on first use. */
  class HyperGraph {
    const edges: seq<IntSet>
    const vertices: BitSet
    var indexBuilt: bool
    var vertexHittings: map<nat, IntSet>

    ghost function Value(): Graph {
      Graph(edges, vertices)
    }

    ghost predicate Valid()
      reads this
    {
      && (forall e :: 0 <= e < |edges| ==> Elems(edges[e]) <= vertices)
      && (indexBuilt ==> vertices <= vertexHittings.Keys)
      && (indexBuilt ==> forall v :: v in vertexHittings ==> vertexHittings[v] == HittingList(Value(), v))
    }

    /** The vertices are exactly the members of the edges. */
    constructor (edgeList: seq<IntSet>)
      ensures Valid() && edges == edgeList && !indexBuilt
      ensures forall v :: v in vertices <==> exists e :: 0 <= e < |edgeList| && v in edgeList[e]
      ensures |edgeList| <= MAXBIT &&
              (forall e :: 0 <= e < |edgeList| ==> NoDup(edgeList[e]) && InRange(Elems(edgeList[e])))
              ==> Value().Valid()
    {
      var vs: BitSet := {};
      for i := 0 to |edgeList|
        invariant forall e :: 0 <= e < i ==> Elems(edgeList[e]) <= vs
        invariant forall v :: v in vs ==> exists e :: 0 <= e < i && v in edgeList[e]
      {
        var before := vs;
        for j := 0 to |edgeList[i]|
          invariant vs == before + Elems(edgeList[i][..j])
        {
          assert edgeList[i][..j + 1] == edgeList[i][..j] + [edgeList[i][j]];
          ElemsConcat(edgeList[i][..j], [edgeList[i][j]]);
          vs := vs + {edgeList[i][j]};
        }
        assert edgeList[i][..|edgeList[i]|] == edgeList[i];
      }
      assert forall v :: v in vs ==> exists e :: 0 <= e < |edgeList| && v in Elems(edgeList[e]);
      edges := edgeList;
      vertices := vs;
      indexBuilt := false;
      vertexHittings := map[];
    }

    /** Whenever it is called, and whether or not the index exists yet, the answer is the edges of `v`. */
    method GetVertexHitting(v: nat) returns (r: IntSet)
      requires Valid()
      modifies this
      ensures Valid() && indexBuilt
      ensures r == HittingList(Value(), v)
    {
      if !indexBuilt {
        BuildIndex();
      }
      if v !in vertexHittings {
        // operator[] of the map inserts an empty list for an unknown vertex
        NoHits(Value(), v, |edges|);
        vertexHittings := vertexHittings[v := []];
      }
      r := vertexHittings[v];
    }

    method BuildIndex()
      requires Valid()
      modifies this
      ensures Valid() && indexBuilt
    {
      var index: map<nat, IntSet> := map v | v in vertices :: [];
      for e := 0 to |edges|
        invariant index.Keys == vertices
        invariant forall v :: v in index ==> index[v] == HittingUpTo(Value(), v, e)
      {
        index := AddEdge(index, edges[e], e);
      }
      vertexHittings := index;
      indexBuilt := true;
    }
  }

  method AddEdge(index: map<nat, IntSet>, edge: IntSet, e: nat) returns (r: map<nat, IntSet>)
    requires Elems(edge) <= index.Keys
    ensures r.Keys == index.Keys
    ensures forall v :: v in index ==> r[v] == index[v] + Entries(edge, v, e)
  {
    r := index;
    for i := 0 to |edge|
      invariant r.Keys == index.Keys
      invariant forall v :: v in index ==> r[v] == index[v] + Entries(edge[..i], v, e)
    {
      assert edge[..i + 1][..i] == edge[..i];
      assert edge[i] in Elems(edge);
      r := r[edge[i] := r[edge[i]] + [e]];
    }
    assert edge[..|edge|] == edge;
  }

  lemma {:induction false} NoEntries(edge: IntSet, v: nat, e: nat)
    requires v !in edge
    ensures Entries(edge, v, e) == []
  {
    if edge != [] {
      NoEntries(edge[..|edge| - 1], v, e);
    }
  }

  lemma {:induction false} NoHits(g: Graph, v: nat, n: nat)
    requires n <= |g.edges|
    requires v !in g.vertices && forall e :: 0 <= e < |g.edges| ==> Elems(g.edges[e]) <= g.vertices
    ensures HittingUpTo(g, v, n) == []
  {
    if n > 0 {
      NoHits(g, v, n - 1);
      assert v !in Elems(g.edges[n - 1]);
      NoEntries(g.edges[n - 1], v, n - 1);
    }
  }
}
