/** A round of the automatic variant that comes back empty-handed although the hypergraph is connected and has no empty
    edge: one dead end too deep, a repair that runs into it, and the back-jump to the root. */
module EmptyRounds {
  import opened Collections
  import opened BitSets
  import opened IntSets
  import opened Hypergraphs
  import opened Covers
  import opened SearchSteps
  import opened Repair
  import opened RandomSteps
  import opened Components
  import opened CoverUnion
  import opened Rounds

  const DENSE: Graph := Graph([[0, 1, 2], [1], [0]], {0, 1, 2})

  /** Makes the first shuffle try 1 before 2 before 0. */
  function Draws(k: nat): nat {
    if k == 2 then 1 else 0
  }

  function Automatic(numberOfVc: nat): Settings {
    Settings(DENSE, ORDER, numberOfVc, true, true, 1.0, Draws)
  }

  lemma DenseEdges()
    ensures DENSE.Valid() && DENSE.Edge(0) == {0, 1, 2} && DENSE.Edge(1) == {1} && DENSE.Edge(2) == {0}
    ensures DENSE.Hits(0) == {0, 2} && DENSE.Hits(1) == {0, 1} && DENSE.Hits(2) == {0}
    ensures Uncov(DENSE, {}) == {0, 1, 2} && DENSE.edges != []
  {
    assert DENSE.Edge(0) == {0, 1, 2} && DENSE.Edge(1) == {1} && DENSE.Edge(2) == {0};
  }

  lemma DenseMeets(e: nat)
    requires e < 3
    ensures DENSE.Edge(e) * DENSE.vertices != {}
  {
    DenseEdges();
    assert (if e == 1 then 1 else 0) in DENSE.Edge(e) * DENSE.vertices;
  }

  lemma DenseVertices()
    ensures EveryVertexUsed(DENSE) && EmptyEdges(DENSE) == {}
  {
    DenseEdges();
    forall v | v in DENSE.vertices
      ensures DENSE.Hits(v) != {}
    {
      assert 0 in DENSE.Hits(v);
    }
    forall e: nat | e < |DENSE.edges|
      ensures DENSE.Edge(e) != {}
    {
      DenseMeets(e);
    }
  }

  lemma DenseList(v: nat, hits: seq<nat>)
    requires DENSE.Valid() && DENSE.Hits(v) == Elems(hits) && Ascends(hits)
    ensures HittingList(DENSE, v) == hits
  {
    hide Graph.Hits;
    hide Ascends;
    hide HittingList;
    HittingListMeaning(DENSE, v);
    AscendingUnique(DENSE.Hits(v), hits);
  }

  lemma DenseHits()
    ensures HittingList(DENSE, 0) == [0, 2] && HittingList(DENSE, 1) == [0, 1] && HittingList(DENSE, 2) == [0]
  {
    DenseEdges();
    DenseList(0, [0, 2]);
    DenseList(1, [0, 1]);
    DenseList(2, [0]);
    hide *;
  }

  /** From the first edge the visit of 1 comes upon the second one, and that of 2 upon nothing new. */
  lemma DenseFirstEdge()
    ensures var m := Marks({0}, {0}, {0}, [[0, 1, 2]], [0]);
            VerticesVisited(DENSE, m, [0, 1, 2])
            == Marks({0, 1, 2}, {0, 1}, {0, 1, 2}, [[0, 1, 2], [1]], [0, 1])
  {
    DenseHits();
    hide HittingList;
    var m := Marks({0}, {0}, {0}, [[0, 1, 2]], [0]);
    VisitedTriple(DENSE, m, 0, 1, 2);
    VisitedSeen(DENSE, m, 0);
    VisitedNew(DENSE, m, 1);
    var a := Marks({0, 1}, {0}, {0, 1}, [[0, 1, 2]], [0]);
    assert m.(vertexFlag := m.vertexFlag + {1}, vertexSet := m.vertexSet + {1}) == a;
    var b := Marks({0, 1}, {0, 1}, {0, 1}, [[0, 1, 2], [1]], [0, 1]);
    assert EdgeMarked(DENSE, a, 1) == b;
    VisitedPair(DENSE, b, 1, 1);
    VisitedSeen(DENSE, b, 1);
    VisitedLast(DENSE, b, 2);
    hide Visited;
    hide EdgesVisited;
    hide VerticesVisited;
    OneNew(DENSE, a, [0, 1], 1);
  }

  lemma DenseSubGraphs()
    ensures SubGraphs(DENSE).subs == [DENSE] && SubGraphs(DENSE).eis == [[0, 1, 2]]
  {
    DenseHits();
    hide HittingList;
    var none, m, hits := Marks({}, {}, {}, [], []), Marks({0}, {}, {0}, [], []), [0, 2];
    VisitedNew(DENSE, none, 0);
    assert {} + {0} == {0};
    DenseFirstEdge();
    NothingVisited(DENSE, m, hits);
    EdgesVisitedNext(DENSE, m, hits, 0);
    EdgesVisitedNext(DENSE, m, hits, 1);
    assert hits[..2] == hits && EdgeMarked(DENSE, m, 0) == Marks({0}, {0}, {0}, [[0, 1, 2]], [0]);
    var a := Marks({0, 1, 2}, {0, 1}, {0, 1, 2}, [[0, 1, 2], [1]], [0, 1]);
    var b := Marks({0, 1, 2}, {0, 1, 2}, {0, 1, 2}, [[0, 1, 2], [1], [0]], [0, 1, 2]);
    assert EdgeMarked(DENSE, a, 2) == b;
    VisitedPair(DENSE, b, 0, 0);
    VisitedSeen(DENSE, b, 0);
    hide Visited;
    hide EdgesVisited;
    hide VerticesVisited;
    PartsNext(DENSE, 0);
    PartsSettled(DENSE, 1, MAXBIT);
  }

  /** A node whose first uncovered edge has no candidate left comes back with nothing. */
  lemma DeadEnd(x: Settings, s: Snapshot, cand: BitSet, crit: seq<IntSet>, e: nat)
    requires x.mode == ORDER && !s.stopFlag && s.backSteps == 0 && s.uncov != {} && e == Least(s.uncov)
    requires e < |x.g.edges| && cand !! x.g.Edge(e)
    ensures Searched(x, s, cand, crit) == s.(nextEdge := e)
  {
    assert cand * x.g.Edge(e) == {} && cand - x.g.Edge(e) == cand;
    NoDupCard(Bits({}));
    assert Bits(cand * x.g.Edge(e)) == [];
    SearchedBranches(x, s, cand, crit, e, Opened(x, s, cand), cand, [], s.(nextEdge := e));
  }

  /** Below {1} the edge {0} is dead. */
  lemma BelowOne(s: Snapshot, crit: seq<IntSet>, k: nat)
    requires !s.stopFlag && s.backSteps == 0 && s.cur == {1} && s.uncov == {2}
    ensures Searched(Automatic(k), s, {}, crit) == s.(nextEdge := 2)
  {
    DenseEdges();
    DeadEnd(Automatic(k), s, {}, crit, 2);
  }

  // ---------- forcing a vertex in where only one was chosen ----------

  lemma UpdatedSingle(g: Graph, c: IntSet, uncov: BitSet, v: nat)
    requires Without(c, g.Hits(v)) == []
    ensures UpdatedCrit(g, [c], uncov, v) == [[], Bits(uncov * g.Hits(v))]
  {
    var crit := [c];
    assert crit[..0] == [];
    assert Trimmed(crit, g.Hits(v)) == [Without(c, g.Hits(v))];
  }

  lemma IndicesPair(u: nat, v: nat)
    requires u != v
    ensures Indices([u, v]) == map[u := 0, v := 1]
  {
    var list := [u, v];
    assert list[..1] == [u] && [u][..0] == [];
    assert Indices([u]) == map[u := 0];
  }

  lemma HandedPair(g: Graph, m: IntSet, u: nat, v: nat, h: nat)
    requires u != v && h < |g.edges| && u in g.Edge(h) && v in g.Edge(h)
    ensures Handed(g, [[], m], {u, v}, Indices([u, v]), u, [h]) == [[], m + [h]]
  {
    IndicesPair(u, v);
    var crit, common := [[], m], Bits({u, v} * g.Edge(h));
    assert {u, v} * g.Edge(h) == {u, v};
    NoDupCard(common);
    assert v in Elems(common) && u in Elems(common);
    assert Another(common, u) == v by {
      TwoElems(common, u);
      assert Another(common, u) in Elems(common);
    }
    assert [h][..0] == [];
    assert Handed(g, crit, {u, v}, Indices([u, v]), u, []) == crit;
    assert crit[1 := crit[1] + [h]] == [[], m + [h]];
  }

  lemma EvictedPair(g: Graph, m: IntSet, u: nat, v: nat, h: nat)
    requires u != v && h < |g.edges| && u in g.Edge(h) && v in g.Edge(h) && HittingList(g, u) == [h]
    ensures Evicted(g, [u, v], [[], m], {u, v}, 1) == ([[], m + [h]], {v})
  {
    HandedPair(g, m, u, v, h);
    hide Handed;
    hide Indices;
    var list, crit := [u, v], [[], m];
    assert Evicted(g, list, crit, {u, v}, 0) == (crit, {u, v});
    assert list[0] == u && crit[0] == [];
    assert Flip({u, v}, u) == {v};
  }

  lemma KeptPair(u: nat, v: nat, c: IntSet)
    requires c != []
    ensures Kept([u, v], [[], c], 2) == ([v], [c])
  {
    var list, crit := [u, v], [[], c];
    assert Kept(list, crit, 0) == ([], []);
    assert Kept(list, crit, 1) == ([], []);
    var none: seq<IntSet>, nobody: seq<nat> := [], [];
    assert nobody + [list[1]] == [v] && none + [crit[1]] == [c];
  }

  /** `u`, whose critical edges all contain `v` and whose only edge is `h`, makes way for `v`. */
  lemma RepairedSingle(g: Graph, u: nat, c: IntSet, uncov: BitSet, v: nat, h: nat)
    requires u != v && Without(c, g.Hits(v)) == [] && uncov * g.Hits(v) != {}
    requires h < |g.edges| && u in g.Edge(h) && v in g.Edge(h) && HittingList(g, u) == [h]
    ensures Repaired(g, [u], [c], {u}, uncov, v) == Chosen([v], [Bits(uncov * g.Hits(v)) + [h]], {v})
  {
    var m := Bits(uncov * g.Hits(v));
    UpdatedSingle(g, c, uncov, v);
    EvictedPair(g, m, u, v, h);
    KeptPair(u, v, m + [h]);
    hide UpdatedCrit;
    hide Evicted;
    hide Kept;
    assert [u] + [v] == [u, v] && Flip({u}, v) == {u, v};
  }

  // ---------- nodes with one candidate ----------

  lemma ShuffledSingle(random: nat -> nat, drawn: nat, v: nat)
    ensures Shuffled(random, drawn, [v]) == [v]
  {
    assert [v][..0] == [] && [] + [v] == [v];
    assert [v][0 := v][0 := v] == [v];
  }

  lemma BitsSingle(v: nat)
    ensures Bits({v}) == [v]
  {
    AscendingUnique({v}, [v]);
  }

  function CountedDown(s: Snapshot): Snapshot {
    if s.stopFlag || s.backSteps == 0 then s else s.(backSteps := s.backSteps - 1)
  }

  /** The only candidate is blocked, so it is forced in. */
  lemma BlockedNode(x: Settings, s: Snapshot, cand: BitSet, crit: seq<IntSet>, e: nat, v: nat, u: Snapshot)
    requires x.mode == ORDER && !s.stopFlag && s.backSteps == 0 && s.uncov != {} && e == Least(s.uncov)
    requires e < |x.g.edges| && cand * x.g.Edge(e) == {v} && Blocked(x.g, crit, v)
    requires u == s.(nextEdge := e, drawn := s.drawn + 1)
    ensures Searched(x, s, cand, crit) == CountedDown(ForcedNext(x, |cand|, u, cand - x.g.Edge(e), crit, v))
  {
    BitsSingle(v);
    ShuffledSingle(x.random, s.drawn, v);
    SearchedBranches(x, s, cand, crit, e, Opened(x, s, cand), cand - x.g.Edge(e), [v], u);
    BlockedLoops(x, |cand|, u, cand - x.g.Edge(e), crit, v);
  }

  lemma BlockedLoops(x: Settings, n: nat, s: Snapshot, cand: BitSet, crit: seq<IntSet>, v: nat)
    requires !s.stopFlag && s.backSteps == 0 && Blocked(x.g, crit, v)
    ensures Branched(x, n, s, cand, crit, [v]) == CountedDown(ForcedNext(x, n, s, cand, crit, v))
  {
    var vs := [v];
    TriesNothing(x, n, s, cand, crit, vs);
    TriesNext(x, n, s, cand, crit, vs, 0);
    ForcesNothing(x, n, s, cand, crit, vs);
    ForcesNext(x, n, s, cand, crit, vs, 0);
    hide Tries;
    hide Forces;
    hide ForcedNext;
    assert vs[..1] == vs;
    assert Tries(x, n, s, cand, crit, vs) == Tried(s, cand, false, false);
  }

  // ---------- the failing search ----------

  lemma DenseWithout()
    ensures Without([0], {0, 1}) == [] && Elems([0]) == {0} && HittingList(DENSE, 2) == [0]
  {
    assert [0][..0] == [];
    DenseEdges();
    HittingListMeaning(DENSE, 2);
    BitsSingle(0);
  }

  /** Below {2} the only candidate, 1, makes 2 redundant; it is forced in, runs into the dead edge, and the search jumps
      back. */
  lemma BelowTwo(s: Snapshot, k: nat)
    requires !s.stopFlag && s.backSteps == 0 && s.cur == {2} && s.uncov == {1, 2} && s.curList == [2]
    ensures Searched(Automatic(k), s, {1}, [[0]]) == s.(nextEdge := 2, backSteps := 1, drawn := s.drawn + 1)
  {
    DenseEdges();
    DenseWithout();
    var x, crit, u := Automatic(k), [[0]], s.(nextEdge := 1, drawn := s.drawn + 1);
    assert {1} * DENSE.Edge(1) == {1} && {1} - DENSE.Edge(1) == {};
    assert Blocked(DENSE, crit, 1) by {
      assert Elems(crit[0]) <= DENSE.Hits(1);
    }
    BlockedNode(x, s, {1}, crit, 1, 1, u);
    ForcedBelowTwo(u, k);
  }

  lemma ForcedBelowTwo(s: Snapshot, k: nat)
    requires !s.stopFlag && s.backSteps == 0 && s.cur == {2} && s.uncov == {1, 2} && s.curList == [2]
    ensures ForcedNext(Automatic(k), 1, s, {}, [[0]], 1) == s.(nextEdge := 2, backSteps := 2)
  {
    DenseEdges();
    DenseWithout();
    assert {1, 2} * DENSE.Hits(1) == {1} && {1, 2} - DENSE.Hits(1) == {2};
    RepairedSingle(DENSE, 2, [0], {1, 2}, 1, 0);
    BelowOne(Forced(DENSE, s, [[0]], 1), Repaired(DENSE, [2], [[0]], {2}, {1, 2}, 1).crit, k);
    hide Repaired;
    hide Searched;
  }

  lemma DrawnOrder()
    ensures Shuffled(Draws, 0, [0, 1, 2]) == [1, 2, 0]
  {
    var bits := [0, 1, 2];
    ShuffledNothing(Draws, 0, bits);
    ShuffledNext(Draws, 0, bits, 0);
    ShuffledNext(Draws, 0, bits, 1);
    ShuffledNext(Draws, 0, bits, 2);
    hide Shuffled;
    assert bits[..3] == bits;
    assert Shuffled(Draws, 0, bits[..1]) == [0];
    assert Shuffled(Draws, 0, bits[..2]) == [1, 0];
    assert [1, 0] + [2] == [1, 0, 2];
  }

  /** The root tries 1, then 2, and gives up before it comes to 0. */
  lemma AtRoot(s: Snapshot, k: nat)
    requires !s.stopFlag && s.backSteps == 0 && s.cur == {} && s.uncov == {0, 1, 2} && s.curList == [] && s.drawn == 0
    ensures var t := Searched(Automatic(k), s, {0, 1, 2}, []);
            t.vcList == s.vcList && !t.stopFlag
  {
    DenseEdges();
    DrawnOrder();
    AscendingUnique({0, 1, 2}, [0, 1, 2]);
    var x, cand, vs: seq<nat> := Automatic(k), {0, 1, 2}, [1, 2, 0];
    assert |cand| == 3 && Least(s.uncov) == 0 && x.g == DENSE;
    var u := s.(nextEdge := 0, drawn := 3);
    RootLoop(u, k);
    hide *;
    WholeEdge(x, s, cand, 0, vs, u);
  }

  /** All candidates are in the first uncovered edge. */
  lemma WholeEdge(x: Settings, s: Snapshot, cand: BitSet, e: nat, vs: seq<nat>, u: Snapshot)
    requires x.mode == ORDER && !s.stopFlag && s.uncov != {} && e == Least(s.uncov) && e < |x.g.edges|
    requires cand <= x.g.Edge(e) && vs == Shuffled(x.random, s.drawn, Bits(cand))
    requires u == s.(nextEdge := e, drawn := s.drawn + |vs|)
    ensures Searched(x, s, cand, []) == Branched(x, |cand|, u, {}, [], vs)
  {
    assert cand * x.g.Edge(e) == cand && cand - x.g.Edge(e) == {};
    SearchedBranches(x, s, cand, [], e, Opened(x, s, cand), {}, vs, u);
  }

  lemma RootLoop(s: Snapshot, k: nat)
    requires !s.stopFlag && s.backSteps == 0 && s.cur == {} && s.uncov == {0, 1, 2} && s.curList == []
    ensures var t := Branched(Automatic(k), 3, s, {}, [], [1, 2, 0]);
            t.vcList == s.vcList && !t.stopFlag
  {
    var t1 := s.(nextEdge := 2);
    var t2 := t1.(nextEdge := 2, backSteps := 1, drawn := t1.drawn + 1);
    hide *;
    TurnOne(s, k);
    TurnTwo(t1, k);
    GivesUp(Automatic(k), 3, t2, {1, 2}, [], 0);
    ThreeTurns(Automatic(k), 3, s, {}, [], 1, 2, 0);
    BranchedOver(Automatic(k), 3, s, {}, [], [1, 2, 0]);
  }

  /** A pending back-jump ends the first loop. */
  lemma GivesUp(x: Settings, n: nat, s: Snapshot, cand: BitSet, crit: seq<IntSet>, v: nat)
    requires s.backSteps != 0
    ensures TriedNext(x, n, Tried(s, cand, true, false), crit, v) == Tried(s, cand, true, true)
  {
  }

  lemma ThreeTurns(x: Settings, n: nat, s: Snapshot, cand: BitSet, crit: seq<IntSet>, u: nat, v: nat, w: nat)
    ensures Tries(x, n, s, cand, crit, [u, v, w])
            == TriedNext(x, n, TriedNext(x, n, TriedNext(x, n, Tried(s, cand, false, false), crit, u), crit, v), crit, w)
  {
    var vs := [u, v, w];
    TriesNothing(x, n, s, cand, crit, vs);
    TriesNext(x, n, s, cand, crit, vs, 0);
    TriesNext(x, n, s, cand, crit, vs, 1);
    TriesNext(x, n, s, cand, crit, vs, 2);
    hide *;
    assert vs[..3] == vs;
  }

  lemma BranchedOver(x: Settings, n: nat, s: Snapshot, cand: BitSet, crit: seq<IntSet>, vs: seq<nat>)
    requires Tries(x, n, s, cand, crit, vs).over
    ensures Branched(x, n, s, cand, crit, vs) == Tries(x, n, s, cand, crit, vs).s
  {
    hide Tries;
  }

  lemma FirstCrit(v: nat, uncov: BitSet, hit: seq<nat>)
    requires uncov * DENSE.Hits(v) == Elems(hit) && Ascends(hit)
    ensures UpdatedCrit(DENSE, [], uncov, v) == [hit]
  {
    AscendingUnique(uncov * DENSE.Hits(v), hit);
    var none: seq<IntSet> := [];
    assert Trimmed(none, DENSE.Hits(v)) == none && none + [hit] == [hit];
  }

  /** A turn of the root's first loop in which the search below `v` finds nothing. */
  lemma RootTurn(x: Settings, n: nat, s: Snapshot, cand: BitSet, visited: bool, v: nat, hit: IntSet, t: Snapshot)
    requires !s.stopFlag && s.backSteps == 0 && s.cur == {} && s.curList == [] && |cand| < n
    requires UpdatedCrit(x.g, [], s.uncov, v) == [hit] && s.uncov - x.g.Hits(v) + Elems(hit) == s.uncov
    requires t == Searched(x, s.(cur := {v}, uncov := s.uncov - x.g.Hits(v), curList := [v]), cand, [hit])
    requires !t.stopFlag && t.cur == {v} && t.curList == [v] && t.uncov == s.uncov - x.g.Hits(v)
    ensures TriedNext(x, n, Tried(s, cand, visited, false), [], v)
            == Tried(t.(cur := {}, uncov := s.uncov, curList := []), cand + {v}, true, false)
  {
    hide Searched;
    hide UpdatedCrit;
    assert Flip({}, v) == {v} && s.curList + [v] == [v];
    assert Below(x.g, s, v) == s.(cur := {v}, uncov := s.uncov - x.g.Hits(v), curList := [v]);
    assert Flip({v}, v) == {} && [v][..0] == [];
  }

  lemma TurnOne(s: Snapshot, k: nat)
    requires !s.stopFlag && s.backSteps == 0 && s.cur == {} && s.uncov == {0, 1, 2} && s.curList == []
    ensures TriedNext(Automatic(k), 3, Tried(s, {}, false, false), [], 1) == Tried(s.(nextEdge := 2), {1}, true, false)
  {
    DenseEdges();
    assert {0, 1, 2} * DENSE.Hits(1) == {0, 1} == Elems([0, 1]) && {0, 1, 2} - DENSE.Hits(1) == {2};
    assert {2} + {0, 1} == {0, 1, 2};
    FirstCrit(1, s.uncov, [0, 1]);
    var below := s.(cur := {1}, uncov := {2}, curList := [1]);
    BelowOne(below, [[0, 1]], k);
    var x, t := Automatic(k), below.(nextEdge := 2);
    assert x.g == DENSE && {} + {1} == {1};
    hide *;
    RootTurn(x, 3, s, {}, false, 1, [0, 1], t);
  }

  lemma TwoHits()
    ensures UpdatedCrit(DENSE, [], {0, 1, 2}, 2) == [[0]]
    ensures {0, 1, 2} - DENSE.Hits(2) == {1, 2} && {1, 2} + Elems([0]) == {0, 1, 2}
  {
    DenseEdges();
    assert {0, 1, 2} * DENSE.Hits(2) == {0} == Elems([0]);
    FirstCrit(2, {0, 1, 2}, [0]);
  }

  lemma TurnTwo(s: Snapshot, k: nat)
    requires !s.stopFlag && s.backSteps == 0 && s.cur == {} && s.uncov == {0, 1, 2} && s.curList == []
    ensures TriedNext(Automatic(k), 3, Tried(s, {1}, true, false), [], 2)
            == Tried(s.(nextEdge := 2, backSteps := 1, drawn := s.drawn + 1), {1, 2}, true, false)
  {
    TwoHits();
    var below := s.(cur := {2}, uncov := {1, 2}, curList := [2]);
    BelowTwo(below, k);
    var x, t := Automatic(k), below.(nextEdge := 2, backSteps := 1, drawn := below.drawn + 1);
    assert x.g == DENSE && {1} + {2} == {1, 2};
    hide *;
    RootTurn(x, 3, s, {1}, true, 2, [0], t);
  }

  lemma FreshStart(k: nat)
    ensures !Fresh(k).stopFlag && Fresh(k).drawn == 0 && |Fresh(k).vcList| == k
    ensures forall i :: 0 <= i < k ==> Fresh(k).vcList[i] == {}
  {
  }

  /** The hypergraph {0, 1, 2}, {1}, {0} is connected and has no empty edge; still, its first round can come back
      empty-handed, and the entry, as allocated, is no cover. */
  lemma EmptyRoundExample(k: nat)
    requires k > 0
    ensures DENSE.Valid() && EveryVertexUsed(DENSE) && EmptyEdges(DENSE) == {}
    ensures |SubGraphs(DENSE).subs| == 1
    ensures var t := RoundDone(Automatic(k), Fresh(k), SubGraphs(DENSE).subs);
            !t.stopFlag && t.vcList == Fresh(k).vcList && t.vcList[0] == {} && !Minimal(DENSE, Hitting, {})
  {
    hide *;
    DenseEdges();
    DenseVertices();
    DenseSubGraphs();
    NothingCovers(DENSE);
    FreshStart(k);
    DenseRound(Fresh(k), k);
  }

  lemma DenseRound(s: Snapshot, k: nat)
    requires !s.stopFlag && s.drawn == 0
    ensures var t := RoundDone(Automatic(k), s, [DENSE]);
            !t.stopFlag && t.vcList == s.vcList
  {
    DenseEdges();
    AtRoot(Started(DENSE, s), k);
    hide Searched;
    var subs: seq<Graph>, none: seq<Graph> := [DENSE], [];
    assert subs[..0] == none && RoundDone(Automatic(k), s, none) == s;
    assert Automatic(k).(g := DENSE) == Automatic(k);
  }
}
