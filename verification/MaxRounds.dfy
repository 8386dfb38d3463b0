/** On the hypergraph of TestHypergraph.dfy, mode MAX can miss: with no candidate left for any uncovered edge it returns to an
    edge chosen earlier, forces a vertex of it in, and the back-jump that follows ends the search. */
module MaxRounds {
  import opened Collections
  import opened BitSets
  import opened IntSets
  import opened Hypergraphs
  import opened Covers
  import opened SearchSteps
  import opened Repair
  import opened RandomSteps
  import opened RandomSoundness
  import opened CalmSearch
  import opened Components
  import opened Rounds
  import opened EmptyRounds
  import opened TestHypergraph

  /** The root draws {1, 4} and tries 1 first; below it 5 is tried before 0, and 0 before 2. */
  function MaxDraws(k: nat): nat {
    if k == 0 then 2 else if k == 2 then 1 else 0
  }

  function MaxSettings(numberOfVc: nat, autoInc: bool): Settings {
    Settings(VISITED, MAX, numberOfVc, autoInc, true, 1.0, MaxDraws)
  }

  // ---------- nodes without candidates ----------

  lemma NothingTried(x: Settings, n: nat, s: Snapshot, cand: BitSet, crit: seq<IntSet>)
    requires !s.stopFlag && s.backSteps == 0
    ensures Branched(x, n, s, cand, crit, []) == s
  {
    var none: seq<nat> := [];
    TriesNothing(x, n, s, cand, crit, none);
    ForcesNothing(x, n, s, cand, crit, none);
    BranchedMeaning(x, n, s, cand, crit, none);
    hide Tries;
    hide Forces;
    hide Branched;
    assert none[..0] == none;
  }

  /** Such a node only chooses an edge. */
  lemma NoCandidates(x: Settings, s: Snapshot, crit: seq<IntSet>)
    requires !s.stopFlag && s.backSteps == 0 && s.uncov != {}
    ensures var t := Searched(x, s, {}, crit); t == s.(nextEdge := t.nextEdge, drawn := t.drawn)
    ensures ChosenEdge(x, s, {}) < |x.g.edges| ==> Searched(x, s, {}, crit) == Opened(x, s, {})
  {
    if ChosenEdge(x, s, {}) < |x.g.edges| {
      var e, t := ChosenEdge(x, s, {}), Opened(x, s, {});
      assert {} * x.g.Edge(e) == {} && {} - x.g.Edge(e) == {};
      NoDupCard(Bits({}));
      SearchedBranches(x, s, {}, crit, e, t, {}, [], t);
      hide Searched;
      hide Branched;
      NothingTried(x, 0, t, {}, crit);
    }
  }

  /** With no candidate in any uncovered edge MAX falls back on the edge in the field. */
  lemma FallsBack(x: Settings, s: Snapshot, cand: BitSet)
    requires x.mode == MAX && s.cur != {} && s.uncov != {} && forall w :: w in s.uncov ==> w < |x.g.edges|
    requires forall w :: w in s.uncov ==> cand !! x.g.Edge(w)
    ensures ChosenEdge(x, s, cand) == s.nextEdge && Opened(x, s, cand) == s
  {
    forall e | e in s.uncov
      ensures Width(x.g, cand, e) == 0
    {
      assert cand * x.g.Edge(e) == {};
    }
    hide Width;
    assert Extreme(x.g, false, s.uncov, cand) == {};
  }

  /** The only candidate is in the stale edge and blocked: it is forced in, in vain, and the search jumps back. */
  lemma StaleNode(x: Settings, s: Snapshot, crit: seq<IntSet>, v: nat)
    requires x.mode == MAX && x.backCertain && !s.stopFlag && s.backSteps == 0 && s.cur != {} && s.nextEdge < |x.g.edges|
    requires s.uncov != {} && forall w :: w in s.uncov ==> w < |x.g.edges| && v !in x.g.Edge(w)
    requires v in x.g.Edge(s.nextEdge) && Blocked(x.g, crit, v) && |crit| == |s.curList|
    ensures var t := Searched(x, s, {v}, crit);
            t == s.(nextEdge := t.nextEdge, drawn := t.drawn, backSteps := |s.cur|)
  {
    FallsBack(x, s, {v});
    BitsSingle(v);
    ShuffledSingle(x.random, s.drawn, v);
    var e, u := s.nextEdge, s.(drawn := s.drawn + 1);
    assert {v} * x.g.Edge(e) == {v} && {v} - x.g.Edge(e) == {} && |{v}| == 1;
    SearchedBranches(x, s, {v}, crit, e, s, {}, [v], u);
    hide Searched;
    hide Branched;
    BlockedLoops(x, 1, u, {}, crit, v);
    ForcedInVain(x, u, crit, v);
    hide ForcedNext;
  }

  lemma ForcedInVain(x: Settings, s: Snapshot, crit: seq<IntSet>, v: nat)
    requires x.backCertain && !s.stopFlag && s.backSteps == 0 && s.cur != {} && |crit| == |s.curList|
    requires s.uncov - x.g.Hits(v) != {}
    ensures var t := ForcedNext(x, 1, s, {}, crit, v);
            t == s.(nextEdge := t.nextEdge, drawn := t.drawn, backSteps := |s.cur| + 1)
  {
    var r := Repaired(x.g, s.curList, crit, s.cur, s.uncov, v);
    ForcedMeaning(x, 1, s, {}, crit, v);
    hide Repaired;
    hide Searched;
    hide ForcedNext;
    NoCandidates(x, s.(cur := r.cur, uncov := s.uncov - x.g.Hits(v), curList := r.list), r.crit);
  }

  // ---------- the search that misses ----------

  /** A turn of the first loop in which the search below `v` finds nothing. */
  lemma EmptyTurn(x: Settings, n: nat, s: Snapshot, cand: BitSet, visited: bool, crit: seq<IntSet>, v: nat,
                  newCrit: seq<IntSet>, t: Snapshot)
    requires !s.stopFlag && s.backSteps == 0 && v !in s.cur && |cand| < n && !Blocked(x.g, crit, v)
    requires newCrit == UpdatedCrit(x.g, crit, s.uncov, v)
    requires var below := s.(cur := s.cur + {v}, uncov := s.uncov - x.g.Hits(v), curList := s.curList + [v]);
             t == Searched(x, below, cand, newCrit) &&
             t == below.(nextEdge := t.nextEdge, drawn := t.drawn, backSteps := t.backSteps)
    ensures TriedNext(x, n, Tried(s, cand, visited, false), crit, v)
            == Tried(s.(nextEdge := t.nextEdge, drawn := t.drawn, backSteps := t.backSteps), cand + {v}, true, false)
  {
    TriedMeaning(x, n, Tried(s, cand, visited, false), crit, v);
    hide Searched;
    hide TriedNext;
    assert newCrit[|newCrit| - 1] == Bits(s.uncov * x.g.Hits(v));
    hide UpdatedCrit;
    hide Graph.Hits;
    assert Flip(s.cur, v) == s.cur + {v} && Flip(s.cur + {v}, v) == s.cur;
    assert s.uncov - x.g.Hits(v) + s.uncov * x.g.Hits(v) == s.uncov && (s.curList + [v])[..|s.curList|] == s.curList;
  }

  lemma FreshCrit(v: nat, uncov: BitSet, hit: seq<nat>)
    requires uncov * VISITED.Hits(v) == Elems(hit) && Ascends(hit)
    ensures UpdatedCrit(VISITED, [], uncov, v) == [hit]
  {
    AscendingUnique(uncov * VISITED.Hits(v), hit);
    var none: seq<IntSet> := [];
    assert Trimmed(none, VISITED.Hits(v)) == none && none + [hit] == [hit];
  }

  lemma KeepsTwo()
    ensures Without([2], {0}) == [2] && Trimmed([[2]], {0}) == [[2]]
  {
    var crit: seq<IntSet>, none: seq<nat> := [[2]], [];
    assert crit[..0] == [] && [2][..0] == none;
    assert Without([2], {0}) == [2];
  }

  lemma SecondCrit(v: nat)
    requires v == 0 || v == 5
    ensures UpdatedCrit(VISITED, [[2]], {0, 1}, v) == [[2], [0]] && !Blocked(VISITED, [[2]], v)
  {
    hide Graph.Hits;
    hide Trimmed;
    hide Without;
    VisitedHits();
    KeepsTwo();
    AscendingUnique({0}, [0]);
    assert {0, 1} * {0} == {0};
    assert forall i :: 0 <= i < |[[2]]| ==> 2 in Elems([[2]][i]);
    assert 2 !in VISITED.Hits(v);
  }

  lemma OrderBelowOne()
    ensures Shuffled(MaxDraws, 3, [0, 2, 5]) == [5, 0, 2]
  {
    var bits := [0, 2, 5];
    ShuffledNothing(MaxDraws, 3, bits);
    ShuffledNext(MaxDraws, 3, bits, 0);
    ShuffledNext(MaxDraws, 3, bits, 1);
    ShuffledNext(MaxDraws, 3, bits, 2);
    hide Shuffled;
    assert bits[..3] == bits;
    assert Shuffled(MaxDraws, 3, bits[..1]) == [0];
    assert Shuffled(MaxDraws, 3, bits[..2]) == [2, 0];
    assert [2, 0] + [5] == [2, 0, 5];
  }

  lemma OrderAtRoot()
    ensures Shuffled(MaxDraws, 1, [1, 4]) == [1, 4]
  {
    var bits := [1, 4];
    ShuffledNothing(MaxDraws, 1, bits);
    ShuffledNext(MaxDraws, 1, bits, 0);
    ShuffledNext(MaxDraws, 1, bits, 1);
    hide Shuffled;
    assert bits[..2] == bits;
    assert Shuffled(MaxDraws, 1, bits[..1]) == [1];
  }

  lemma BlockedFive()
    ensures Blocked(VISITED, [[2], [0]], 5)
  {
    VisitedHits();
    hide Graph.Hits;
    assert Elems([[2], [0]][1]) <= VISITED.Hits(5);
  }

  /** Below {1}, 5 and 0 leave {2, 4} without candidates; with 5 a candidate again, 0 runs into the stale edge. */
  lemma TurnFive(s: Snapshot, k: nat, b: bool)
    requires !s.stopFlag && s.backSteps == 0 && s.cur == {1} && s.uncov == {0, 1} && s.curList == [1] && s.nextEdge == 0
    ensures TriedNext(MaxSettings(k, b), 3, Tried(s, {}, false, false), [[2]], 5) == Tried(s, {} + {5}, true, false)
  {
    hide Graph.Hits;
    hide Graph.Edge;
    hide Blocked;
    hide Searched;
    hide UpdatedCrit;
    hide Opened;
    hide ChosenEdge;
    hide TriedNext;
    var x := MaxSettings(k, b);
    VisitedEdges();
    VisitedHits();
    SecondCrit(5);
    var below := s.(cur := s.cur + {5}, uncov := s.uncov - {0}, curList := s.curList + [5]);
    assert {0, 1} - {0} == {1};
    FallsBack(x, below, {});
    NoCandidates(x, below, [[2], [0]]);
    EmptyTurn(x, 3, s, {}, false, [[2]], 5, [[2], [0]], below);
  }

  lemma TurnZero(s: Snapshot, k: nat, b: bool)
    requires !s.stopFlag && s.backSteps == 0 && s.cur == {1} && s.uncov == {0, 1} && s.curList == [1] && s.nextEdge == 0
    ensures var t := TriedNext(MaxSettings(k, b), 3, Tried(s, {5}, true, false), [[2]], 0);
            t == Tried(s.(nextEdge := t.s.nextEdge, drawn := t.s.drawn, backSteps := 2), {5} + {0}, true, false)
  {
    hide Graph.Hits;
    hide Graph.Edge;
    hide Blocked;
    hide Searched;
    hide UpdatedCrit;
    hide TriedNext;
    var x := MaxSettings(k, b);
    VisitedEdges();
    VisitedHits();
    SecondCrit(0);
    var below := s.(cur := s.cur + {0}, uncov := s.uncov - {0}, curList := s.curList + [0]);
    assert {0, 1} - {0} == {1} && |{1} + {0}| == 2;
    BlockedFive();
    StaleNode(x, below, [[2], [0]], 5);
    EmptyTurn(x, 3, s, {5}, true, [[2]], 0, [[2], [0]], Searched(x, below, {5}, [[2], [0]]));
  }

  lemma Widths()
    ensures Width(VISITED, {0, 2, 5}, 0) == 3 && Width(VISITED, {0, 2, 5}, 1) == 1
  {
    VisitedEdges();
    hide Graph.Edge;
    assert {0, 2, 5} * {0, 2, 5} == {0, 2, 5} && {0, 2, 5} * {2, 4} == {2};
  }

  lemma ChoiceBelowOne(s: Snapshot, k: nat, b: bool)
    requires s.cur == {1} && s.uncov == {0, 1}
    ensures var x := MaxSettings(k, b);
            ChosenEdge(x, s, {0, 2, 5}) == 0 && Opened(x, s, {0, 2, 5}) == s.(nextEdge := 0)
  {
    hide Graph.Edge;
    hide Width;
    VisitedEdges();
    Widths();
    assert Extreme(VISITED, false, {0, 1}, {0, 2, 5}) == {0};
  }

  lemma BelowFirst(s: Snapshot, k: nat, b: bool)
    requires !s.stopFlag && s.backSteps == 0 && s.cur == {1} && s.uncov == {0, 1} && s.curList == [1] && s.drawn == 3
    ensures var t := Searched(MaxSettings(k, b), s, {0, 2, 5}, [[2]]);
            t == s.(nextEdge := t.nextEdge, drawn := t.drawn, backSteps := 2)
  {
    hide Graph.Edge;
    hide Bits;
    hide Shuffled;
    hide Searched;
    hide Branched;
    hide ChosenEdge;
    hide Opened;
    var x, cand, vs: seq<nat> := MaxSettings(k, b), {0, 2, 5}, [5, 0, 2];
    var t := s.(nextEdge := 0);
    var u := t.(drawn := 6);
    VisitedEdges();
    OrderBelowOne();
    AscendingUnique(cand, [0, 2, 5]);
    ChoiceBelowOne(s, k, b);
    assert cand * {0, 2, 5} == cand && cand - {0, 2, 5} == {} && |cand| == 3;
    SearchedBranches(x, s, cand, [[2]], 0, t, {}, vs, u);
    LoopBelowFirst(u, k, b);
  }

  lemma LoopBelowFirst(s: Snapshot, k: nat, b: bool)
    requires !s.stopFlag && s.backSteps == 0 && s.cur == {1} && s.uncov == {0, 1} && s.curList == [1] && s.nextEdge == 0
    ensures var t := Branched(MaxSettings(k, b), 3, s, {}, [[2]], [5, 0, 2]);
            t == s.(nextEdge := t.nextEdge, drawn := t.drawn, backSteps := 2)
  {
    var x := MaxSettings(k, b);
    assert {} + {5} == {5};
    hide MaxSettings;
    hide TriedNext;
    hide Tries;
    hide Branched;
    TurnFive(s, k, b);
    TurnZero(s, k, b);
    var t := TriedNext(x, 3, Tried(s, {5}, true, false), [[2]], 0);
    GivesUp(x, 3, t.s, t.cand, [[2]], 2);
    ThreeTurns(x, 3, s, {}, [[2]], 5, 0, 2);
    BranchedOver(x, 3, s, {}, [[2]], [5, 0, 2]);
  }

  lemma ChoiceAtRoot(s: Snapshot, cand: BitSet, k: nat, b: bool)
    requires s.cur == {} && s.uncov == {0, 1, 2} && s.drawn == 0
    ensures var x := MaxSettings(k, b);
            ChosenEdge(x, s, cand) == 2 && Opened(x, s, cand) == s.(nextEdge := 2, drawn := 1)
  {
    AscendingUnique({0, 1, 2}, [0, 1, 2]);
    hide Bits;
    hide Extreme;
  }

  lemma TwoTurns(x: Settings, n: nat, s: Snapshot, cand: BitSet, crit: seq<IntSet>, u: nat, v: nat)
    ensures Tries(x, n, s, cand, crit, [u, v])
            == TriedNext(x, n, TriedNext(x, n, Tried(s, cand, false, false), crit, u), crit, v)
  {
    var vs := [u, v];
    TriesNothing(x, n, s, cand, crit, vs);
    TriesNext(x, n, s, cand, crit, vs, 0);
    TriesNext(x, n, s, cand, crit, vs, 1);
    hide *;
    assert vs[..2] == vs;
  }

  lemma NothingBlocked(k: nat, b: bool)
    ensures MaxSettings(k, b).g == VISITED && !Blocked(VISITED, [], 1)
  {
  }

  lemma LoopAtRoot(s: Snapshot, k: nat, b: bool)
    requires !s.stopFlag && s.backSteps == 0 && s.cur == {} && s.uncov == {0, 1, 2} && s.curList == [] && s.drawn == 3
    ensures var t := Branched(MaxSettings(k, b), 5, s, {0, 2, 5}, [], [1, 4]);
            t == s.(nextEdge := t.nextEdge, drawn := t.drawn, backSteps := 2)
  {
    hide MaxSettings;
    hide TriedNext;
    hide Tries;
    hide Branched;
    hide Searched;
    hide UpdatedCrit;
    hide Blocked;
    hide Graph.Hits;
    var x := MaxSettings(k, b);
    VisitedHits();
    FreshCrit(1, {0, 1, 2}, [2]);
    var below := s.(cur := {} + {1}, uncov := {0, 1, 2} - {2}, curList := [] + [1]);
    assert {} + {1} == {1} && {0, 1, 2} - {2} == {0, 1} && [] + [1] == [1] && |{0, 2, 5}| == 3;
    NothingBlocked(k, b);
    BelowFirst(below, k, b);
    EmptyTurn(x, 5, s, {0, 2, 5}, false, [], 1, [[2]], Searched(x, below, {0, 2, 5}, [[2]]));
    var t := TriedNext(x, 5, Tried(s, {0, 2, 5}, false, false), [], 1);
    GivesUp(x, 5, t.s, t.cand, [], 4);
    TwoTurns(x, 5, s, {0, 2, 5}, [], 1, 4);
    BranchedOver(x, 5, s, {0, 2, 5}, [], [1, 4]);
  }

  /** In mode MAX a search of the only component from its root can end without a cover, in both variants. */
  lemma MaxMisses(s: Snapshot, k: nat, b: bool)
    requires !s.stopFlag && s.drawn == 0
    ensures var t := Searched(MaxSettings(k, b), Started(VISITED, s), VISITED.vertices, []);
            t.vcList == s.vcList && t.coverIndex == s.coverIndex && !t.stopFlag
  {
    hide Graph.Edge;
    hide Graph.Hits;
    hide Uncov;
    hide Bits;
    hide Shuffled;
    hide Searched;
    hide Branched;
    hide ChosenEdge;
    hide Opened;
    var x, root := MaxSettings(k, b), Started(VISITED, s);
    var cand: BitSet, vs: seq<nat>, u := {0, 1, 2, 4, 5}, [1, 4], root.(nextEdge := 2, drawn := 3);
    VisitedEdges();
    VisitedHits();
    OrderAtRoot();
    AscendingUnique({1, 4}, [1, 4]);
    ChoiceAtRoot(root, cand, k, b);
    assert cand * {1, 4} == {1, 4} && cand - {1, 4} == {0, 2, 5} && |cand| == 5;
    SearchedBranches(x, root, cand, [], 2, root.(nextEdge := 2, drawn := 1), {0, 2, 5}, vs, u);
    LoopAtRoot(u, k, b);
  }

  /** So a round of the automatic variant can come back empty-handed on this connected hypergraph. */
  lemma MaxRoundExample(k: nat)
    requires k > 0
    ensures SubGraphs(CHAIN).subs == [VISITED]
    ensures var t := RoundDone(MaxSettings(k, true), Fresh(k), SubGraphs(CHAIN).subs);
            !t.stopFlag && t.vcList == Fresh(k).vcList && t.vcList[0] == {}
  {
    hide *;
    ChainSubGraphs();
    FreshStart(k);
    MaxMisses(Fresh(k), k, true);
    SingleRound(k);
  }

  lemma SingleRound(k: nat)
    ensures RoundDone(MaxSettings(k, true), Fresh(k), [VISITED])
            == Searched(MaxSettings(k, true), Started(VISITED, Fresh(k)), VISITED.vertices, [])
  {
    hide Searched;
    var subs: seq<Graph>, none: seq<Graph> := [VISITED], [];
    assert subs[..0] == none && RoundDone(MaxSettings(k, true), Fresh(k), none) == Fresh(k);
    assert MaxSettings(k, true).(g := VISITED) == MaxSettings(k, true);
  }

  /** In this mode the component is not sure to yield a cover. */
  lemma MaxNotSure()
    ensures !Sure(VISITED, MAX)
  {
    hide Searched;
    hide Sure;
    VisitedIsValid();
    if Sure(VISITED, MAX) {
      MaxMisses(Fresh(1), 1, false);
      RootFinds(MaxSettings(1, false), Fresh(1));
    }
  }

  lemma VisitedIsValid()
    ensures VISITED.Valid()
  {
  }
}
