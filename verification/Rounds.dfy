/** Rounds of the automatic variant (RandomEnumAutoInc::RunDiverse in random_enum_auto_inc.cpp): what a round leaves in the
    entry it works on, and when that is a cover of the whole hypergraph. */
module Rounds {
  import opened BitSets
  import opened Hypergraphs
  import opened Covers
  import opened SearchSteps
  import opened RandomSteps
  import opened Anchors
  import opened RandomSoundness
  import opened CalmSearch
  import opened RandomSearch
  import opened Components
  import opened CoverUnion

  /** A minimal cover of one of the components, and no component before that one is sure to yield a cover. */
  ghost predicate CoverOfOne(mode: Method, subs: seq<Graph>, s: BitSet) {
    exists j :: 0 <= j < |subs| && Minimal(subs[j], Hitting, s) && NoneSure(mode, subs, j)
  }

  ghost predicate NoneSure(mode: Method, subs: seq<Graph>, n: nat) {
    forall i :: 0 <= i < n && i < |subs| ==> !Sure(subs[i], mode)
  }

  lemma CoverOfOneMeaning(mode: Method, subs: seq<Graph>, s: BitSet) returns (j: nat)
    requires CoverOfOne(mode, subs, s)
    ensures j < |subs| && Minimal(subs[j], Hitting, s) && forall i :: 0 <= i < j ==> !Sure(subs[i], mode)
  {
    hide Minimal;
    hide Sure;
    j :| 0 <= j < |subs| && Minimal(subs[j], Hitting, s) && NoneSure(mode, subs, j);
  }

  /** What a round has recorded so far: position `at`, empty before, holds a minimal cover of one of the components, and no
      sure component was passed over. */
  ghost predicate RoundRecorded(mode: Method, subs: seq<Graph>, before: seq<BitSet>, after: seq<BitSet>, at: nat) {
    && |after| == (if at < |before| then |before| else at + 1)
    && (forall k: nat :: k != at ==> Entry(after, k) == Entry(before, k))
    && CoverOfOne(mode, subs, Entry(after, at))
  }

  lemma RoundRecordedMore(mode: Method, subs: seq<Graph>, i: nat, before: seq<BitSet>, after: seq<BitSet>, at: nat)
    requires i < |subs| && RoundRecorded(mode, subs[..i], before, after, at)
    ensures RoundRecorded(mode, subs[..i + 1], before, after, at)
  {
    hide Minimal;
    hide Sure;
    var j :| 0 <= j < i && Minimal(subs[..i][j], Hitting, Entry(after, at)) && NoneSure(mode, subs[..i], j);
    assert subs[..i + 1][j] == subs[..i][j];
    assert forall k :: 0 <= k < j ==> subs[..i + 1][k] == subs[..i][k];
    assert NoneSure(mode, subs[..i + 1], j);
  }

  /** A search that found a cover for an empty entry. */
  lemma RoundRecordedFirst(mode: Method, subs: seq<Graph>, i: nat, before: seq<BitSet>, after: seq<BitSet>, at: nat)
    requires i < |subs| && at <= |before| && Entry(before, at) == {} && Recorded(subs[i], before, after, at, at + 1)
    requires NoneSure(mode, subs, i)
    ensures RoundRecorded(mode, subs[..i + 1], before, after, at)
  {
    hide Minimal;
    hide Sure;
    assert NoneSure(mode, subs[..i + 1], i) by {
      assert forall k :: 0 <= k < i ==> subs[..i + 1][k] == subs[k];
    }
    assert subs[..i + 1][i] == subs[i];
    assert Gained(subs[i], Entry(before, at), after[at]);
    var s: BitSet :| Minimal(subs[i], Hitting, s) && after[at] == {} + s;
    assert {} + s == s;
  }

  lemma RecordedSame(g: Graph, before: seq<BitSet>, after: seq<BitSet>, at: nat)
    requires at <= |before| && Recorded(g, before, after, at, at)
    ensures after == before
  {
  }

  /** The round after its first `i` components. */
  ghost predicate RoundSoFar(mode: Method, s: Snapshot, subs: seq<Graph>, t: Snapshot) {
    && t.coverIndex == s.coverIndex
    && (if t.stopFlag then RoundRecorded(mode, subs, s.vcList, t.vcList, s.coverIndex) else t.vcList == s.vcList)
    && ((exists j :: 0 <= j < |subs| && Sure(subs[j], mode)) ==> t.stopFlag)
  }

  lemma {:induction false} RoundProgress(x: Settings, s: Snapshot, subs: seq<Graph>, i: nat)
    requires x.autoInc && x.mode != PRIORITY && !s.stopFlag && s.coverIndex <= |s.vcList| &&
             Entry(s.vcList, s.coverIndex) == {}
    requires i <= |subs| && forall k :: 0 <= k < |subs| ==> subs[k].Valid()
    ensures RoundSoFar(x.mode, s, subs[..i], RoundDone(x, s, subs[..i]))
  {
    if i > 0 {
      RoundProgress(x, s, subs, i - 1);
      assert subs[..i][..i - 1] == subs[..i - 1];
      RoundTurn(x, s, subs, i - 1, RoundDone(x, s, subs[..i - 1]));
    }
  }

  lemma RoundTurn(x: Settings, s: Snapshot, subs: seq<Graph>, i: nat, t: Snapshot)
    requires x.autoInc && x.mode != PRIORITY && !s.stopFlag && s.coverIndex <= |s.vcList| &&
             Entry(s.vcList, s.coverIndex) == {}
    requires i < |subs| && subs[i].Valid() && RoundSoFar(x.mode, s, subs[..i], t)
    ensures RoundSoFar(x.mode, s, subs[..i + 1], Searched(x.(g := subs[i]), Started(subs[i], t), subs[i].vertices, []))
  {
    hide Sure;
    hide Graph.Valid;
    hide Recorded;
    hide Searched;
    hide RoundRecorded;
    var y := x.(g := subs[i]);
    var u := Searched(y, Started(subs[i], t), subs[i].vertices, []);
    if t.stopFlag {
      RoundRecordedCounts(x.mode, subs[..i], s.vcList, t.vcList, s.coverIndex);
    }
    SearchRecords(y, t);
    assert forall j :: 0 <= j < i ==> subs[..i][j] == subs[..i + 1][j];
    assert subs[..i + 1][i] == subs[i];
    if t.stopFlag {
      RoundRecordedMore(x.mode, subs, i, s.vcList, t.vcList, s.coverIndex);
    } else if u.stopFlag {
      assert NoneSure(x.mode, subs, i) by {
        assert forall k :: 0 <= k < i ==> subs[..i][k] == subs[k];
      }
      RoundRecordedFirst(x.mode, subs, i, s.vcList, u.vcList, s.coverIndex);
    } else {
      RecordedSame(subs[i], t.vcList, u.vcList, s.coverIndex);
    }
  }

  lemma RoundRecordedCounts(mode: Method, subs: seq<Graph>, before: seq<BitSet>, after: seq<BitSet>, at: nat)
    requires RoundRecorded(mode, subs, before, after, at)
    ensures at + 1 <= |after|
  {
  }

  /** What a round on the empty entry `s.coverIndex` comes to. */
  ghost predicate RoundOutcome(mode: Method, whole: Graph, subs: seq<Graph>, s: Snapshot, t: Snapshot) {
    var at := s.coverIndex;
    && t.coverIndex == at && (forall k: nat :: k != at ==> Entry(t.vcList, k) == Entry(s.vcList, k))
    && (if t.stopFlag
        then |t.vcList| == (if at < |s.vcList| then |s.vcList| else at + 1) &&
             CoverOfOne(mode, subs, Entry(t.vcList, at))
        else t.vcList == s.vcList)
    && (Minimal(whole, Hitting, Entry(t.vcList, at))
        <==> whole.edges == [] || (t.stopFlag && |subs| == 1 && EmptyEdges(whole) == {}))
    && ((exists j :: 0 <= j < |subs| && Sure(subs[j], mode)) ==> t.stopFlag)
  }

  lemma RoundComesTo(x: Settings, s: Snapshot, whole: Graph, subs: seq<Graph>, eis: seq<seq<nat>>)
    requires x.autoInc && x.mode != PRIORITY && !s.stopFlag && s.coverIndex <= |s.vcList| &&
             Entry(s.vcList, s.coverIndex) == {}
    requires whole.Valid() && EveryVertexUsed(whole) && Decomposes(whole, subs, eis, whole.vertices)
    ensures RoundOutcome(x.mode, whole, subs, s, RoundDone(x, s, subs))
  {
    SubsValid(whole, subs, eis);
    assert subs[..|subs|] == subs;
    hide *;
    RoundProgress(x, s, subs, |subs|);
    var t := RoundDone(x, s, subs);
    if t.stopFlag {
      FilledOutcome(x.mode, whole, subs, eis, s, t);
    } else {
      EmptyOutcome(x.mode, whole, subs, s, t);
    }
  }

  /** The automatic variant works on an entry that is still empty, allocated beforehand or not. Since the first component
      that yields a cover raises the stop flag, and only the end of the round decides about it anew, the entry then holds a
      minimal cover of one single component, and no sure component comes before that one; a round that comes back
      empty-handed changes nothing. So the entry is a minimal cover of the whole if and only if the flag is up, there is one
      component, and no edge is empty; or there is no edge at all. A sure component keeps the round from coming back
      empty-handed. */
  lemma RoundResult(x: Settings, s: Snapshot, whole: Graph, subs: seq<Graph>, eis: seq<seq<nat>>)
    requires x.autoInc && x.mode != PRIORITY && !s.stopFlag && s.coverIndex <= |s.vcList| &&
             Entry(s.vcList, s.coverIndex) == {}
    requires whole.Valid() && EveryVertexUsed(whole) && Decomposes(whole, subs, eis, whole.vertices)
    ensures var t, at := RoundDone(x, s, subs), s.coverIndex;
            && t.coverIndex == at && (forall k: nat :: k != at ==> Entry(t.vcList, k) == Entry(s.vcList, k))
            && (!t.stopFlag ==> t.vcList == s.vcList)
            && (t.stopFlag ==>
                  |t.vcList| == (if at < |s.vcList| then |s.vcList| else at + 1) &&
                  exists j :: 0 <= j < |subs| && Minimal(subs[j], Hitting, t.vcList[at]) && NoneSure(x.mode, subs, j))
            && (Minimal(whole, Hitting, Entry(t.vcList, at))
                <==> whole.edges == [] || (t.stopFlag && |subs| == 1 && EmptyEdges(whole) == {}))
            && ((exists j :: 0 <= j < |subs| && Sure(subs[j], x.mode)) ==> t.stopFlag)
  {
    hide Decomposes;
    hide Minimal;
    hide EveryVertexUsed;
    hide Graph.Valid;
    hide EmptyEdges;
    hide Sure;
    hide NoneSure;
    hide RoundDone;
    RoundComesTo(x, s, whole, subs, eis);
  }

  lemma FilledOutcome(mode: Method, whole: Graph, subs: seq<Graph>, eis: seq<seq<nat>>, s: Snapshot, t: Snapshot)
    requires whole.Valid() && EveryVertexUsed(whole) && Decomposes(whole, subs, eis, whole.vertices)
    requires RoundSoFar(mode, s, subs, t) && t.stopFlag
    ensures RoundOutcome(mode, whole, subs, s, t)
  {
    hide Decomposes;
    hide EveryVertexUsed;
    hide Graph.Valid;
    hide EmptyEdges;
    hide Minimal;
    hide Sure;
    hide RoundRecorded;
    RoundMeaning(mode, subs, s.vcList, t.vcList, s.coverIndex);
    EntryCovers(mode, whole, subs, eis, Entry(t.vcList, s.coverIndex));
  }

  lemma EmptyOutcome(mode: Method, whole: Graph, subs: seq<Graph>, s: Snapshot, t: Snapshot)
    requires RoundSoFar(mode, s, subs, t) && !t.stopFlag && Entry(s.vcList, s.coverIndex) == {}
    ensures RoundOutcome(mode, whole, subs, s, t)
  {
    hide Minimal;
    hide Sure;
    hide RoundRecorded;
    hide EmptyEdges;
    NothingCovers(whole);
  }

  lemma RoundMeaning(mode: Method, subs: seq<Graph>, before: seq<BitSet>, after: seq<BitSet>, at: nat)
    requires RoundRecorded(mode, subs, before, after, at)
    ensures |after| == (if at < |before| then |before| else at + 1)
    ensures forall k: nat :: k != at ==> Entry(after, k) == Entry(before, k)
    ensures CoverOfOne(mode, subs, Entry(after, at))
  {
  }

  lemma EntryCovers(mode: Method, whole: Graph, subs: seq<Graph>, eis: seq<seq<nat>>, s: BitSet)
    requires whole.Valid() && EveryVertexUsed(whole) && Decomposes(whole, subs, eis, whole.vertices)
    requires CoverOfOne(mode, subs, s)
    ensures Minimal(whole, Hitting, s) <==> |subs| == 1 && EmptyEdges(whole) == {}
    ensures whole.edges != []
  {
    hide Decomposes;
    hide Minimal;
    hide EveryVertexUsed;
    hide Graph.Valid;
    hide EmptyEdges;
    var j := CoverOfOneMeaning(mode, subs, s);
    OneComponentCover(whole, subs, eis, j, s);
    ComponentMeansEdges(whole, subs, eis, j);
  }

  /** The state right after construction. */
  function Fresh(numberOfVc: nat): Snapshot {
    Snapshot({}, {}, [], 0, 0, 0, false, seq(numberOfVc, _ => {}), 0)
  }

  // ---------- two components: the second one is skipped ----------

  const APART: Graph := Graph([[0], [1]], {0, 1})

  lemma Singleton(mode: Method, v: nat)
    requires v < MAXBIT
    ensures Graph([[v]], {v}).Valid() && Sure(Graph([[v]], {v}), mode)
    ensures forall s :: Minimal(Graph([[v]], {v}), Hitting, s) ==> s == {v}
  {
    var g := Graph([[v]], {v});
    assert g.Edge(0) == {v};
    assert IsAnchor(g, v, 0);
    forall s | Minimal(g, Hitting, s)
      ensures s == {v}
    {
      MinimalInVertices(g, Hitting, s);
      assert v !in s ==> 0 in Uncov(g, s);
    }
  }

  lemma ApartComponent(v: nat)
    requires v < 2
    ensures IsComponent(APART, Graph([[v]], {v}), [v])
  {
    Singleton(ORDER, v);
    assert APART.edges[v] == [v] && APART.Edge(0) == {0} && APART.Edge(1) == {1};
    ConnectedSelf(APART, v);
    forall w | Connected(APART, v, w)
      ensures w == v
    {
      assert Closed(APART, {v});
      ClosedConnected(APART, {v}, v, w);
    }
    assert {v} * {v} == {v} && {1 - v} * {v} == {};
    forall e: nat
      ensures e in [v] <==> e < |APART.edges| && APART.Edge(e) * {v} != {}
    {
      assert e < |APART.edges| ==> e == v || e == 1 - v;
    }
    hide Connected;
  }

  lemma ApartDecomposes()
    ensures APART.Valid() && EveryVertexUsed(APART)
    ensures Decomposes(APART, [Graph([[0]], {0}), Graph([[1]], {1})], [[0], [1]], APART.vertices)
  {
    ExampleApart();
    ApartComponent(0);
    ApartComponent(1);
    hide IsComponent;
    var subs := [Graph([[0]], {0}), Graph([[1]], {1})];
    assert forall v :: v in APART.vertices ==> v in subs[if v == 0 then 0 else 1].vertices;
  }

  /** The edges that list the vertex itself. */
  lemma ApartHits(v: nat)
    requires v < 2
    ensures HittingList(APART, v) == [v] && APART.edges[v] == [v]
  {
    ApartEdges();
    hide HittingList;
    hide Graph.Valid;
    HittingListMeaning(APART, v);
    AscendingUnique({v}, [v]);
  }

  lemma ApartEdges()
    ensures APART.Valid() && APART.Hits(0) == {0} && APART.Hits(1) == {1}
  {
    assert APART.Edge(0) == {0} && APART.Edge(1) == {1};
  }

  lemma ApartVisited(m: Marks, v: nat)
    requires v < 2 && v !in m.vertexFlag && v !in m.edgeFlag && m.vertexSet == {} && m.edgeSet == [] && m.eiList == []
    ensures Visited(APART, m, v) == Marks(m.vertexFlag + {v}, m.edgeFlag + {v}, {v}, [[v]], [v])
  {
    ApartHits(v);
    VisitedNew(APART, m, v);
    var a := m.(vertexFlag := m.vertexFlag + {v}, vertexSet := {v});
    var b := EdgeMarked(APART, a, v);
    NothingVisited(APART, b, [v]);
    VerticesVisitedNext(APART, b, [v], 0);
    VisitedSeen(APART, b, v);
    hide Visited;
    hide VerticesVisited;
    assert [v][..1] == [v] && {} + {v} == {v};
    OneNew(APART, a, [v], 0);
  }

  lemma ApartFirst()
    ensures PartsBelow(APART, 1) == Parts([Graph([[0]], {0})], [[0]], Marks({0}, {0}, {0}, [[0]], [0]))
  {
    hide Visited;
    var none := Marks({}, {}, {}, [], []);
    ApartVisited(none, 0);
    assert {} + {0} == {0};
    PartsNext(APART, 0);
  }

  lemma ApartSecond()
    ensures PartsBelow(APART, 2) == Parts([Graph([[0]], {0}), Graph([[1]], {1})], [[0], [1]],
                                          Marks({0, 1}, {0, 1}, {1}, [[1]], [1]))
  {
    hide Visited;
    hide PartsBelow;
    ApartFirst();
    ApartVisited(Marks({0}, {0}, {}, [], []), 1);
    assert {0} + {1} == {0, 1};
    PartsNext(APART, 1);
  }

  /** The component of 0 comes first. */
  lemma ApartSubGraphs()
    ensures SubGraphs(APART).subs == [Graph([[0]], {0}), Graph([[1]], {1})] && SubGraphs(APART).eis == [[0], [1]]
  {
    hide PartsBelow;
    ApartSecond();
    PartsSettled(APART, 2, MAXBIT);
  }

  /** So nothing but {0} gets into an entry. */
  lemma ApartEntries(mode: Method, s: BitSet)
    requires CoverOfOne(mode, SubGraphs(APART).subs, s)
    ensures s == {0}
  {
    ApartSubGraphs();
    Singleton(mode, 0);
    hide Minimal;
    hide Sure;
    hide SubGraphs;
    hide CoverOfOne;
    var subs := SubGraphs(APART).subs;
    var j := CoverOfOneMeaning(mode, subs, s);
    assert Sure(subs[0], mode);
  }

  /** With the edges {0} and {1} the first round ends, whatever is drawn, with {0} in its entry: no cover of the whole. */
  lemma TwoComponentsExample(x: Settings, k: nat)
    requires x.autoInc && x.mode != PRIORITY && k > 0
    ensures var t := RoundDone(x, Fresh(k), SubGraphs(APART).subs);
            t.stopFlag && t.vcList == Fresh(k).vcList[0 := {0}] && !Minimal(APART, Hitting, t.vcList[0])
  {
    ApartSubGraphs();
    hide SubGraphs;
    hide Decomposes;
    hide Minimal;
    hide Sure;
    hide EveryVertexUsed;
    hide Graph.Valid;
    hide RoundDone;
    ApartDecomposes();
    Singleton(x.mode, 0);
    SecondSkipped(x, Fresh(k), APART, [Graph([[0]], {0}), Graph([[1]], {1})], [[0], [1]], {0});
  }

  /** Of two components the second one is skipped once the first has yielded its cover. */
  lemma SecondSkipped(x: Settings, s: Snapshot, whole: Graph, subs: seq<Graph>, eis: seq<seq<nat>>, cover: BitSet)
    requires x.autoInc && x.mode != PRIORITY && !s.stopFlag && s.coverIndex < |s.vcList| && s.vcList[s.coverIndex] == {}
    requires whole.Valid() && EveryVertexUsed(whole) && Decomposes(whole, subs, eis, whole.vertices)
    requires |subs| == 2 && Sure(subs[0], x.mode) && forall r :: Minimal(subs[0], Hitting, r) ==> r == cover
    ensures var t := RoundDone(x, s, subs);
            t.stopFlag && t.vcList == s.vcList[s.coverIndex := cover] && !Minimal(whole, Hitting, cover)
  {
    SubValid(whole, subs, eis, 0);
    ComponentMeansEdges(whole, subs, eis, 0);
    var t, at := RoundDone(x, s, subs), s.coverIndex;
    assert Entry(s.vcList, at) == {};
    hide *;
    FirstOfTwo(x, s, subs, cover);
    RoundAfterTwo(x, s, subs);
    RoundComesTo(x, s, whole, subs, eis);
    SkippedOutcome(x.mode, whole, subs, s, t, cover);
  }

  lemma SkippedOutcome(mode: Method, whole: Graph, subs: seq<Graph>, s: Snapshot, t: Snapshot, cover: BitSet)
    requires RoundOutcome(mode, whole, subs, s, t) && t.stopFlag && |subs| == 2 && whole.edges != []
    requires s.coverIndex < |s.vcList| && Entry(t.vcList, s.coverIndex) == cover
    ensures t.vcList == s.vcList[s.coverIndex := cover] && !Minimal(whole, Hitting, cover)
  {
    hide Minimal;
    hide Sure;
    hide EmptyEdges;
    OnlyEntryChanged(s.vcList, t.vcList, s.coverIndex);
  }

  lemma OnlyEntryChanged(before: seq<BitSet>, after: seq<BitSet>, at: nat)
    requires at < |before| == |after| && forall k: nat :: k != at ==> Entry(after, k) == Entry(before, k)
    ensures after == before[at := Entry(after, at)]
  {
    forall k | 0 <= k < |before| && k != at
      ensures after[k] == before[k]
    {
      assert Entry(after, k) == Entry(before, k);
    }
  }

  lemma FirstOfTwo(x: Settings, s: Snapshot, subs: seq<Graph>, cover: BitSet)
    requires x.autoInc && x.mode != PRIORITY && !s.stopFlag && s.coverIndex <= |s.vcList| &&
             Entry(s.vcList, s.coverIndex) == {}
    requires |subs| == 2 && subs[0].Valid() && Sure(subs[0], x.mode)
    requires forall r :: Minimal(subs[0], Hitting, r) ==> r == cover
    ensures var t := RoundDone(x, s, [subs[0]]);
            t.stopFlag && Entry(t.vcList, s.coverIndex) == cover
  {
    hide Minimal;
    hide Sure;
    hide RoundDone;
    hide Graph.Valid;
    var first := [subs[0]];
    RoundProgress(x, s, first, 1);
    assert first[..1] == first && Sure(first[0], x.mode);
    RoundMeaning(x.mode, first, s.vcList, RoundDone(x, s, first).vcList, s.coverIndex);
  }

  lemma RoundAfterTwo(x: Settings, s: Snapshot, subs: seq<Graph>)
    requires |subs| == 2 && RoundDone(x, s, [subs[0]]).stopFlag
    ensures RoundDone(x, s, subs).vcList == RoundDone(x, s, [subs[0]]).vcList && RoundDone(x, s, subs).stopFlag
  {
    assert subs[..1] == [subs[0]];
  }
}
