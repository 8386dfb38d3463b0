/** Hypergraphs on which the randomised search never has to force a vertex in: there it is exhaustive up to its first cover,
    so it cannot come back empty-handed. */
module CalmSearch {
  import opened Collections
  import opened BitSets
  import opened IntSets
  import opened Hypergraphs
  import opened Covers
  import opened SearchSteps
  import opened Loops
  import opened Repair
  import opened RandomSteps
  import opened Anchors
  import opened RandomSoundness

  /** The modes in which the chosen edge is always an uncovered one. */
  predicate Choosing(mode: Method) {
    mode == ORDER || mode == RANDOM || mode == MIN
  }

  /** Whatever edge is chosen, at this node and below, either it has no candidate left or one of them violates nothing.
      Vertices that have been tried and are candidates again matter only if no cover was to be found with them. */
  ghost predicate Calm(g: Graph, mode: Method, cur: BitSet, cand: BitSet)
    decreases |Uncov(g, cur)|, 1
  {
    forall e :: e in Uncov(g, cur) && FirstInOrder(mode, Uncov(g, cur), e) ==> CalmEdge(g, mode, cur, cand, e)
  }

  ghost predicate CalmEdge(g: Graph, mode: Method, cur: BitSet, cand: BitSet, e: nat)
    requires e in Uncov(g, cur)
    decreases |Uncov(g, cur)|, 0
  {
    var c, left := cand * g.Edge(e), cand - g.Edge(e);
    && (c != {} ==> exists v :: v in c && !Violates(g, cur, v))
    && forall v, tried: BitSet :: v in c && tried <= c - {v} && !Violates(g, cur, v) && Fruitless(g, cur, left, tried) ==>
         (UsingFewer(g, cur, e, v); Calm(g, mode, cur + {v}, left + tried))
  }

  /** No minimal cover uses any of `tried`. */
  ghost predicate Fruitless(g: Graph, cur: BitSet, left: BitSet, tried: BitSet) {
    LoopSolutions(g, Hitting, cur, left, tried) == {}
  }

  lemma UsingFewer(g: Graph, cur: BitSet, e: nat, v: nat)
    requires e in Uncov(g, cur) && v in g.Edge(e)
    ensures |Uncov(g, cur + {v})| < |Uncov(g, cur)|
  {
    UncovAdd(g, cur, v);
    assert e in g.Hits(v);
    StrictSubsetCard(Uncov(g, cur + {v}), Uncov(g, cur), e);
  }

  lemma CalmBelow(g: Graph, mode: Method, cur: BitSet, cand: BitSet, e: nat, v: nat, tried: BitSet)
    requires Calm(g, mode, cur, cand) && e in Uncov(g, cur) && FirstInOrder(mode, Uncov(g, cur), e)
    requires v in cand && v in g.Edge(e) && !Violates(g, cur, v)
    requires tried <= cand * g.Edge(e) - {v} && Fruitless(g, cur, cand - g.Edge(e), tried)
    ensures Calm(g, mode, cur + {v}, cand - g.Edge(e) + tried)
  {
    assert CalmEdge(g, mode, cur, cand, e);
    hide Violates;
    hide Fruitless;
    hide Uncov;
  }

  lemma CalmPasses(g: Graph, mode: Method, cur: BitSet, cand: BitSet, e: nat) returns (v: nat)
    requires Calm(g, mode, cur, cand) && e in Uncov(g, cur) && FirstInOrder(mode, Uncov(g, cur), e)
    requires cand * g.Edge(e) != {}
    ensures v in cand && v in g.Edge(e) && !Violates(g, cur, v)
  {
    assert CalmEdge(g, mode, cur, cand, e);
    hide Violates;
    v :| v in cand * g.Edge(e) && !Violates(g, cur, v);
  }

  /** Where one edge is left, it is enough that some candidate of it passes, or that it has none. */
  lemma OneLeft(g: Graph, mode: Method, cur: BitSet, cand: BitSet, e: nat)
    requires Uncov(g, cur) == {e}
    requires cand * g.Edge(e) == {} || exists v :: v in cand * g.Edge(e) && !Violates(g, cur, v)
    ensures Calm(g, mode, cur, cand)
  {
    hide Violates;
    hide Fruitless;
    forall v, tried: BitSet | v in cand * g.Edge(e)
      ensures Calm(g, mode, cur + {v}, cand - g.Edge(e) + tried)
    {
      UncovAdd(g, cur, v);
      assert e in g.Hits(v);
      NothingLeft(g, mode, cur + {v}, cand - g.Edge(e) + tried);
    }
  }

  lemma NothingLeft(g: Graph, mode: Method, cur: BitSet, cand: BitSet)
    requires Uncov(g, cur) == {}
    ensures Calm(g, mode, cur, cand)
  {
  }

  /** A vertex of a minimal cover is not tried in vain. */
  lemma Fruitful(g: Graph, cur: BitSet, left: BitSet, tried: BitSet, s: BitSet, v: nat)
    requires v in tried && v in s && cur <= s <= cur + left + tried && Minimal(g, Hitting, s)
    ensures !Fruitless(g, cur, left, tried)
  {
    assert v in s * tried;
    assert s in LoopSolutions(g, Hitting, cur, left, tried);
  }

  // ---------- covers that are there ----------

  lemma {:induction false} MinimalWithin(g: Graph, t: Target, s: BitSet) returns (m: BitSet)
    requires Accepts(g, t, s)
    ensures m <= s && Minimal(g, t, m)
  {
    m := s;
    if v :| v in s && Accepts(g, t, s - {v}) {
      m := MinimalWithin(g, t, s - {v});
    }
  }

  /** Without empty edges there is a minimal cover. */
  lemma SomeCover(g: Graph)
    requires g.Valid() && forall e: nat :: e < |g.edges| ==> g.Edge(e) != {}
    ensures Solutions(g, Hitting, {}, g.vertices) != {}
  {
    forall e: nat | e < |g.edges|
      ensures e !in Uncov(g, g.vertices)
    {
      var v :| v in g.Edge(e);
      assert Elems(g.edges[e]) <= g.vertices;
    }
    assert Uncov(g, g.vertices) == {};
    var m := MinimalWithin(g, Hitting, g.vertices);
    RootSolutions(g, Hitting, m);
  }

  /** Every solution of a node uses the chosen edge. */
  lemma UsesEdge(g: Graph, cur: BitSet, cand: BitSet, e: nat, c: BitSet)
    requires cur !! cand && e in Uncov(g, cur) && c == cand * g.Edge(e)
    ensures Solutions(g, Hitting, cur, cand) == LoopSolutions(g, Hitting, cur, cand - g.Edge(e), c)
  {
    var left := cand - g.Edge(e);
    assert left == cand - c;
    assert e in Uncov(g, cur + left);
    DeadSolutions(g, Hitting, cur, left);
    SplitOnEdge(g, Hitting, cur, cand, c);
  }

  /** One more vertex with which there is no cover. */
  lemma TriedMore(g: Graph, cur: BitSet, left: BitSet, tried: BitSet, v: nat)
    requires Fruitless(g, cur, left, tried) && Solutions(g, Hitting, cur + {v}, left + tried) == {}
    ensures Fruitless(g, cur, left, tried + {v})
  {
    hide LoopSolutions;
    hide Solutions;
    forall s | s in LoopSolutions(g, Hitting, cur, left, tried + {v})
      ensures s in LoopSolutions(g, Hitting, cur, left, tried) || s in Solutions(g, Hitting, cur + {v}, left + tried)
    {
      UsesOneOf(g, cur, left, tried, v, s);
    }
  }

  lemma UsesOneOf(g: Graph, cur: BitSet, left: BitSet, tried: BitSet, v: nat, s: BitSet)
    requires s in LoopSolutions(g, Hitting, cur, left, tried + {v})
    ensures s in LoopSolutions(g, Hitting, cur, left, tried) || s in Solutions(g, Hitting, cur + {v}, left + tried)
  {
    hide Minimal;
    if v in s {
      assert s <= cur + {v} + (left + tried);
    } else {
      assert s * (tried + {v}) == s * tried && s <= cur + left + tried;
    }
  }

  // ---------- the search ----------

  /** A cover has been found, or there is none and no back-jump is pending. */
  ghost predicate Exhausts(x: Settings, s: Snapshot, cand: BitSet, t: Snapshot) {
    || Mark(x, t) > Mark(x, s)
    || (!t.stopFlag && t.backSteps == 0 && Solutions(x.g, Hitting, s.cur, cand) == {})
  }

  lemma ChoosesOpen(x: Settings, s: Snapshot, cand: BitSet)
    requires Choosing(x.mode) && s.uncov != {} && forall w :: w in s.uncov ==> w < |x.g.edges|
    ensures ChosenEdge(x, s, cand) in s.uncov && FirstInOrder(x.mode, s.uncov, ChosenEdge(x, s, cand))
  {
    if DrawsEdge(x.mode, s.cur) {
      var bits := Bits(s.uncov);
      ElemsEmpty(bits);
      assert bits[x.random(s.drawn) % |bits|] in Elems(bits);
    } else if x.mode == MIN {
      var w :| w in s.uncov;
      if Extreme(x.g, true, s.uncov, cand) == {} {
        NoExtreme(x.g, true, s.uncov, cand, w);
      }
    }
  }

  /** One node on which nothing has to be forced. */
  lemma {:induction false} SearchedExhausts(x: Settings, s: Snapshot, cand: BitSet, crit: seq<IntSet>)
    requires Choosing(x.mode) && Ready(x.g, s, cand, crit, true) && Counting(x, s) && !s.stopFlag && s.backSteps == 0
    requires (s.cur != {} ==> s.nextEdge < |x.g.edges|) && Calm(x.g, x.mode, s.cur, cand)
    ensures Exhausts(x, s, cand, Searched(x, s, cand, crit))
    decreases |cand|, 3
  {
    ReadyBasics(x.g, s, cand, crit, true);
    hide Searched;
    hide Ready;
    if s.uncov == {} {
      SoundLeaf(x.g, s.cur, s.uncov, s.curList, crit);
      SearchedLeaf(x, s, cand, crit);
      LeafAdvances(x, s);
    } else {
      OpenExhausts(x, s, cand, crit);
    }
  }

  lemma ReadyUncov(g: Graph, s: Snapshot, cand: BitSet, crit: seq<IntSet>)
    requires Ready(g, s, cand, crit, true)
    ensures s.uncov == Uncov(g, s.cur) && s.cur !! cand
  {
  }

  lemma {:induction false} OpenExhausts(x: Settings, s: Snapshot, cand: BitSet, crit: seq<IntSet>)
    requires Choosing(x.mode) && Ready(x.g, s, cand, crit, true) && Counting(x, s) && !s.stopFlag && s.backSteps == 0
    requires (s.cur != {} ==> s.nextEdge < |x.g.edges|) && Calm(x.g, x.mode, s.cur, cand) && s.uncov != {}
    ensures Exhausts(x, s, cand, Searched(x, s, cand, crit))
    decreases |cand|, 2
  {
    hide Searched;
    hide Branched;
    hide Ready;
    hide Calm;
    hide Candidates;
    hide Exhausts;
    hide ChosenEdge;
    hide Opened;
    hide Shuffled;
    ReadyBasics(x.g, s, cand, crit, true);
    ChoosesOpen(x, s, cand);
    var e, t := ChosenEdge(x, s, cand), Opened(x, s, cand);
    var vs := Shuffled(x.random, t.drawn, Bits(cand * x.g.Edge(e)));
    var u := t.(drawn := t.drawn + |vs|);
    OpenedOnly(x, s, cand);
    var open := OpenReady(x, s, cand, crit, true, e, t, cand - x.g.Edge(e), vs, u);
    ReadyAfter(x, s, u, cand, crit, true);
    BranchedExhausts(x, u, cand, cand - x.g.Edge(e), crit, vs, e);
    ExhaustsSame(x, s, u, cand, Searched(x, s, cand, crit));
  }

  lemma OpenedOnly(x: Settings, s: Snapshot, cand: BitSet)
    requires s.uncov != {}
    ensures var t := Opened(x, s, cand); t == s.(nextEdge := t.nextEdge, drawn := t.drawn)
  {
  }

  lemma ExhaustsSame(x: Settings, s: Snapshot, u: Snapshot, cand: BitSet, t: Snapshot)
    requires Exhausts(x, u, cand, t) && u == s.(nextEdge := u.nextEdge, drawn := u.drawn)
    ensures Exhausts(x, s, cand, t)
  {
    hide Solutions;
  }

  /** The first loop after `i` candidates: a cover has been found, or all the covers are still to come. */
  ghost predicate ExhaustsSoFar(x: Settings, s: Snapshot, candCopy: BitSet, vs: seq<nat>, i: nat, t: Tried)
    requires i <= |vs|
  {
    if Mark(x, t.s) > Mark(x, s) then t.visited
    else
      && !t.over && !t.s.stopFlag && t.s.backSteps == 0 && candCopy <= t.cand <= candCopy + Elems(vs[..i])
      && Fruitless(x.g, s.cur, candCopy, t.cand - candCopy)
      && LoopSolutions(x.g, Hitting, s.cur, candCopy, Elems(vs))
         == LoopSolutions(x.g, Hitting, s.cur, t.cand, Elems(vs[i..]))
  }

  lemma ExhaustsNothing(x: Settings, s: Snapshot, n: nat, candCopy: BitSet, crit: seq<IntSet>, vs: seq<nat>)
    requires !s.stopFlag && s.backSteps == 0
    ensures ExhaustsSoFar(x, s, candCopy, vs, 0, Tries(x, n, s, candCopy, crit, vs[..0]))
  {
    TriesNothing(x, n, s, candCopy, crit, vs);
    hide Tries;
    assert vs[0..] == vs && Elems(vs[..0]) == {} && candCopy - candCopy == {};
    LoopSolutionsEmpty(x.g, Hitting, s.cur, candCopy);
  }

  lemma {:induction false} TriesExhaust(x: Settings, s: Snapshot, cand: BitSet, candCopy: BitSet, crit: seq<IntSet>,
                                        vs: seq<nat>, i: nat, e: nat)
    requires Choosing(x.mode) && Ready(x.g, s, cand, crit, true) && Counting(x, s) && !s.stopFlag && s.backSteps == 0
    requires s.nextEdge < |x.g.edges| && Candidates(x, s, cand, candCopy, vs, e) && e in s.uncov && i <= |vs|
    requires Calm(x.g, x.mode, s.cur, cand)
    ensures ExhaustsSoFar(x, s, candCopy, vs, i, Tries(x, |cand|, s, candCopy, crit, vs[..i]))
    decreases |cand|, 1, i
  {
    hide Tries;
    hide Ready;
    hide Calm;
    hide Candidates;
    hide TriedSoFar;
    hide ExhaustsSoFar;
    if i == 0 {
      ExhaustsNothing(x, s, |cand|, candCopy, crit, vs);
    } else {
      TriesExhaust(x, s, cand, candCopy, crit, vs, i - 1, e);
      TriesAdvance(x, s, cand, candCopy, crit, vs, i - 1, e, true);
      TriesNext(x, |cand|, s, candCopy, crit, vs, i - 1);
      TurnExhausts(x, s, cand, candCopy, crit, vs, i - 1, e, Tries(x, |cand|, s, candCopy, crit, vs[..i - 1]));
    }
  }

  /** One turn of the first loop. */
  lemma {:induction false} TurnExhausts(x: Settings, s: Snapshot, cand: BitSet, candCopy: BitSet, crit: seq<IntSet>,
                                        vs: seq<nat>, i: nat, e: nat, t: Tried)
    requires Choosing(x.mode) && Ready(x.g, s, cand, crit, true) && Counting(x, s) && !s.stopFlag && s.backSteps == 0
    requires s.nextEdge < |x.g.edges| && Candidates(x, s, cand, candCopy, vs, e) && e in s.uncov && i < |vs|
    requires Calm(x.g, x.mode, s.cur, cand)
    requires TriedSoFar(x, s, cand, candCopy, vs, i, true, t) && ExhaustsSoFar(x, s, candCopy, vs, i, t)
    ensures ExhaustsSoFar(x, s, candCopy, vs, i + 1, TriedNext(x, |cand|, t, crit, vs[i]))
    decreases |cand|, 0, 0
  {
    var v := vs[i];
    hide TriedSoFar;
    hide TriedNext;
    hide ExhaustsSoFar;
    hide Candidates;
    hide Ready;
    hide Blocked;
    hide Violates;
    hide Calm;
    hide Searched;
    hide UpdatedCrit;
    hide Below;
    hide Undone;
    hide Advances;
    if t.over || t.s.backSteps != 0 || Blocked(x.g, crit, v) {
      IdleExhausts(x, s, cand, candCopy, crit, vs, i, e, t);
    } else {
      VisitReady(x, s, cand, candCopy, crit, vs, i, e, true, t);
      VisitAdvances(x, t.s, cand, t.cand, crit, v, e, true);
      var newCrit := UpdatedCrit(x.g, crit, t.s.uncov, v);
      var below := Searched(x, Below(x.g, t.s, v), t.cand, newCrit);
      var u := Undone(below, v, newCrit);
      TriedVisit(x, |cand|, t, crit, v, u);
      if Mark(x, t.s) <= Mark(x, s) {
        VisitExhausts(x, s, cand, candCopy, crit, vs, i, e, t);
      }
      VisitedExhausts(x, s, cand, candCopy, crit, vs, i, e, t, below, u);
    }
  }

  lemma TakenMore(vs: seq<nat>, i: nat)
    requires i < |vs|
    ensures Elems(vs[..i + 1]) == Elems(vs[..i]) + {vs[i]} && Elems(vs[..i + 1]) <= Elems(vs)
  {
    assert vs[..i + 1] == vs[..i] + [vs[i]];
    ElemsConcat(vs[..i], [vs[i]]);
    assert Elems([vs[i]]) == {vs[i]};
    assert forall v :: v in vs[..i + 1] ==> v in vs;
  }

  lemma FoundStays(x: Settings, s: Snapshot, candCopy: BitSet, vs: seq<nat>, i: nat, t: Tried, u: Tried)
    requires i < |vs| && Mark(x, t.s) > Mark(x, s) && Mark(x, u.s) >= Mark(x, t.s) && u.visited
    ensures ExhaustsSoFar(x, s, candCopy, vs, i + 1, u)
  {
  }

  lemma FoundNow(x: Settings, s: Snapshot, candCopy: BitSet, vs: seq<nat>, i: nat, u: Tried)
    requires i < |vs| && Mark(x, u.s) > Mark(x, s) && u.visited
    ensures ExhaustsSoFar(x, s, candCopy, vs, i + 1, u)
  {
  }

  /** A violating candidate is passed over. */
  lemma PassedOn(x: Settings, s: Snapshot, cand: BitSet, candCopy: BitSet, vs: seq<nat>, i: nat, t: Tried)
    requires i < |vs| && ExhaustsSoFar(x, s, candCopy, vs, i, t) && LoopShape(s.cur, cand, t.cand, vs, i)
    requires Violates(x.g, s.cur, vs[i])
    ensures ExhaustsSoFar(x, s, candCopy, vs, i + 1, t)
  {
    hide Elems;
    hide LoopShape;
    hide Mark;
    hide Violates;
    hide Fruitless;
    hide LoopSolutions;
    TakenMore(vs, i);
    LoopNext(s.cur, cand, t.cand, vs, i);
    SkipViolating(x.g, Hitting, s.cur, t.cand, Elems(vs[i..]), vs[i]);
  }

  /** A candidate with which there is no cover is a candidate again. */
  lemma MovedOn(x: Settings, s: Snapshot, cand: BitSet, candCopy: BitSet, vs: seq<nat>, i: nat, t: Tried, u: Snapshot)
    requires i < |vs| && ExhaustsSoFar(x, s, candCopy, vs, i, t) && LoopShape(s.cur, cand, t.cand, vs, i)
    requires Mark(x, t.s) <= Mark(x, s) && Mark(x, u) <= Mark(x, s) && !u.stopFlag && u.backSteps == 0
    requires Solutions(x.g, Hitting, s.cur + {vs[i]}, t.cand) == {}
    ensures ExhaustsSoFar(x, s, candCopy, vs, i + 1, Tried(u, t.cand + {vs[i]}, true, false))
  {
    hide Elems;
    hide LoopShape;
    hide Mark;
    hide Fruitless;
    hide LoopSolutions;
    hide Solutions;
    var v, tried := vs[i], t.cand - candCopy;
    TakenMore(vs, i);
    LoopNext(s.cur, cand, t.cand, vs, i);
    WithoutVertex(x.g, s.cur, t.cand, Elems(vs[i..]), v);
    TriedGrows(candCopy, t.cand, v);
    TriedMore(x.g, s.cur, candCopy, tried, v);
  }

  /** Where no cover adds `v`, the covers still to come are those without it. */
  lemma WithoutVertex(g: Graph, cur: BitSet, cand: BitSet, vs: BitSet, v: nat)
    requires v in vs && vs !! cur && vs !! cand && Solutions(g, Hitting, cur + {v}, cand) == {}
    ensures LoopSolutions(g, Hitting, cur, cand, vs) == LoopSolutions(g, Hitting, cur, cand + {v}, vs - {v})
  {
    hide Solutions;
    hide LoopSolutions;
    SplitOnVertex(g, Hitting, cur, cand, vs, v);
  }

  lemma TriedGrows(candCopy: BitSet, cand: BitSet, v: nat)
    requires candCopy <= cand && v !in cand
    ensures candCopy + (cand - candCopy) == cand && cand + {v} - candCopy == cand - candCopy + {v}
  {
  }

  lemma OverStays(x: Settings, n: nat, t: Tried, crit: seq<IntSet>, v: nat)
    requires t.over
    ensures TriedNext(x, n, t, crit, v) == t
  {
  }

  /** A turn that visits nothing. */
  lemma IdleExhausts(x: Settings, s: Snapshot, cand: BitSet, candCopy: BitSet, crit: seq<IntSet>, vs: seq<nat>, i: nat,
                     e: nat, t: Tried)
    requires Ready(x.g, s, cand, crit, true) && !s.stopFlag && i < |vs|
    requires TriedSoFar(x, s, cand, candCopy, vs, i, true, t) && ExhaustsSoFar(x, s, candCopy, vs, i, t)
    requires t.over || t.s.backSteps != 0 || Blocked(x.g, crit, vs[i])
    ensures ExhaustsSoFar(x, s, candCopy, vs, i + 1, TriedNext(x, |cand|, t, crit, vs[i]))
  {
    hide Ready;
    hide Blocked;
    hide Violates;
    hide TriedSoFar;
    hide TriedNext;
    hide Solutions;
    hide LoopSolutions;
    hide Fruitless;
    BlockedMeaning(x.g, s, cand, crit, true, vs[i]);
    if t.over {
      OverStays(x, |cand|, t, crit, vs[i]);
    } else {
      TriedIdle(x, |cand|, t, crit, vs[i]);
    }
    if Mark(x, t.s) > Mark(x, s) {
      FoundStays(x, s, candCopy, vs, i, t, TriedNext(x, |cand|, t, crit, vs[i]));
    } else {
      TriedCur(x, s, cand, candCopy, crit, vs, i, t);
      PassedOn(x, s, cand, candCopy, vs, i, t);
      hide ExhaustsSoFar;
    }
  }

  /** What is known when the search goes below a candidate while no cover has been found. */
  lemma CalmVisit(x: Settings, s: Snapshot, cand: BitSet, candCopy: BitSet, crit: seq<IntSet>, vs: seq<nat>, i: nat,
                  e: nat, t: Tried)
    requires Ready(x.g, s, cand, crit, true) && Candidates(x, s, cand, candCopy, vs, e) && e in s.uncov && i < |vs|
    requires Calm(x.g, x.mode, s.cur, cand) && !Violates(x.g, s.cur, vs[i]) && Mark(x, t.s) <= Mark(x, s)
    requires ExhaustsSoFar(x, s, candCopy, vs, i, t)
    ensures Calm(x.g, x.mode, s.cur + {vs[i]}, t.cand)
  {
    hide Ready;
    hide Calm;
    hide Violates;
    hide LoopSolutions;
    hide Fruitless;
    hide Elems;
    hide NoDup;
    hide Mark;
    hide Graph.Edge;
    var v, tried := vs[i], t.cand - candCopy;
    ReadyUncov(x.g, s, cand, crit);
    NotYet(vs, i);
    TriedBefore(candCopy, t.cand, Elems(vs[..i]), Elems(vs), v);
    CalmBelow(x.g, x.mode, s.cur, cand, e, v, tried);
  }

  lemma NotYet(vs: seq<nat>, i: nat)
    requires i < |vs| && NoDup(vs)
    ensures vs[i] in Elems(vs) && vs[i] !in Elems(vs[..i]) && Elems(vs[..i]) <= Elems(vs)
  {
    assert forall w :: w in vs[..i] ==> w in vs;
  }

  lemma TriedBefore(candCopy: BitSet, cand: BitSet, taken: BitSet, all: BitSet, v: nat)
    requires candCopy <= cand <= candCopy + taken && taken <= all && v !in taken
    ensures candCopy + (cand - candCopy) == cand && cand - candCopy <= all - {v}
  {
  }

  /** The search below a candidate while no cover has been found. */
  lemma {:induction false} VisitExhausts(x: Settings, s: Snapshot, cand: BitSet, candCopy: BitSet, crit: seq<IntSet>,
                                         vs: seq<nat>, i: nat, e: nat, t: Tried)
    requires Choosing(x.mode) && Ready(x.g, s, cand, crit, true) && Counting(x, s) && !s.stopFlag && s.backSteps == 0
    requires s.nextEdge < |x.g.edges| && Candidates(x, s, cand, candCopy, vs, e) && e in s.uncov && i < |vs|
    requires Calm(x.g, x.mode, s.cur, cand) && Mark(x, t.s) <= Mark(x, s)
    requires TriedSoFar(x, s, cand, candCopy, vs, i, true, t) && ExhaustsSoFar(x, s, candCopy, vs, i, t)
    requires !t.over && t.s.backSteps == 0 && !Blocked(x.g, crit, vs[i]) && |t.cand| < |cand|
    ensures var below := Below(x.g, t.s, vs[i]);
            Exhausts(x, below, t.cand, Searched(x, below, t.cand, UpdatedCrit(x.g, crit, t.s.uncov, vs[i])))
    decreases |t.cand|, 4, 0
  {
    hide Ready;
    hide Calm;
    hide TriedSoFar;
    hide ExhaustsSoFar;
    hide Candidates;
    hide Searched;
    hide UpdatedCrit;
    hide Exhausts;
    hide Violates;
    hide Blocked;
    hide FirstInOrder;
    var v := vs[i];
    BlockedMeaning(x.g, s, cand, crit, true, v);
    CalmVisit(x, s, cand, candCopy, crit, vs, i, e, t);
    VisitReady(x, s, cand, candCopy, crit, vs, i, e, true, t);
    TriedCur(x, s, cand, candCopy, crit, vs, i, t);
    ReadyBelow(x, t.s, cand, crit, true, v, e, t.cand);
    assert Flip(t.s.cur, v) == s.cur + {v};
    SearchedExhausts(x, Below(x.g, t.s, v), t.cand, UpdatedCrit(x.g, crit, t.s.uncov, v));
  }

  lemma TriedCur(x: Settings, s: Snapshot, cand: BitSet, candCopy: BitSet, crit: seq<IntSet>, vs: seq<nat>, i: nat,
                 t: Tried)
    requires TriedSoFar(x, s, cand, candCopy, vs, i, true, t) && !t.over
    ensures t.s.cur == s.cur && LoopShape(s.cur, cand, t.cand, vs, i) && Mark(x, s) <= Mark(x, t.s)
  {
    hide Gained;
  }

  /** A turn that has come back from below. */
  lemma VisitedExhausts(x: Settings, s: Snapshot, cand: BitSet, candCopy: BitSet, crit: seq<IntSet>, vs: seq<nat>, i: nat,
                        e: nat, t: Tried, below: Snapshot, u: Snapshot)
    requires i < |vs| && TriedSoFar(x, s, cand, candCopy, vs, i, true, t) && ExhaustsSoFar(x, s, candCopy, vs, i, t)
    requires !t.over && t.s.backSteps == 0 && u == Undone(below, vs[i], UpdatedCrit(x.g, crit, t.s.uncov, vs[i]))
    requires Mark(x, t.s) <= Mark(x, u)
    requires Mark(x, t.s) <= Mark(x, s) ==> Exhausts(x, Below(x.g, t.s, vs[i]), t.cand, below)
    ensures ExhaustsSoFar(x, s, candCopy, vs, i + 1,
                          Tried(u, if u.stopFlag then t.cand else t.cand + {vs[i]}, true, u.stopFlag))
  {
    hide TriedSoFar;
    hide UpdatedCrit;
    hide Solutions;
    hide LoopSolutions;
    hide Fruitless;
    hide ExhaustsSoFar;
    hide LoopShape;
    var v := vs[i];
    TriedCur(x, s, cand, candCopy, crit, vs, i, t);
    if Mark(x, u) > Mark(x, s) {
      FoundNow(x, s, candCopy, vs, i, Tried(u, if u.stopFlag then t.cand else t.cand + {v}, true, u.stopFlag));
    } else {
      LoopTurn(s.cur, cand, t.cand, vs, i);
      assert Flip(s.cur, v) == s.cur + {v};
      MovedOn(x, s, cand, candCopy, vs, i, t, u);
    }
  }

  /** After the whole loop: a cover has been found, or there is none. */
  lemma LoopExhausts(x: Settings, s: Snapshot, cand: BitSet, candCopy: BitSet, crit: seq<IntSet>, vs: seq<nat>, e: nat,
                     t: Tried)
    requires Ready(x.g, s, cand, crit, true) && Candidates(x, s, cand, candCopy, vs, e) && e in s.uncov
    requires Calm(x.g, x.mode, s.cur, cand)
    requires TriedSoFar(x, s, cand, candCopy, vs, |vs|, true, t) && ExhaustsSoFar(x, s, candCopy, vs, |vs|, t)
    ensures if Mark(x, t.s) > Mark(x, s) then t.visited
            else !t.over && !t.s.stopFlag && t.s.backSteps == 0 && (t.visited || vs == []) &&
                 Solutions(x.g, Hitting, s.cur, cand) == {}
  {
    ReadyUncov(x.g, s, cand, crit);
    hide Ready;
    hide Calm;
    hide Violates;
    hide Advances;
    hide Fruitless;
    if Mark(x, t.s) <= Mark(x, s) {
      assert vs[|vs|..] == [] && Elems(vs[|vs|..]) == {};
      UsesEdge(x.g, s.cur, cand, e, Elems(vs));
      LoopSolutionsEmpty(x.g, Hitting, s.cur, t.cand);
      if vs != [] {
        assert vs[0] in Elems(vs);
        var v := CalmPasses(x.g, x.mode, s.cur, cand, e);
        assert v in Elems(vs);
      }
    }
  }

  /** Both loops, the second of which has nothing to do. */
  lemma {:induction false} BranchedExhausts(x: Settings, s: Snapshot, cand: BitSet, candCopy: BitSet, crit: seq<IntSet>,
                                            vs: seq<nat>, e: nat)
    requires Choosing(x.mode) && Ready(x.g, s, cand, crit, true) && Counting(x, s) && !s.stopFlag && s.backSteps == 0
    requires s.nextEdge < |x.g.edges| && Candidates(x, s, cand, candCopy, vs, e) && e in s.uncov
    requires Calm(x.g, x.mode, s.cur, cand)
    ensures Exhausts(x, s, cand, Branched(x, |cand|, s, candCopy, crit, vs))
    decreases |cand|, 1, |vs| + 1
  {
    hide Branched;
    hide Tries;
    hide Forces;
    hide Ready;
    hide Calm;
    hide Candidates;
    hide TriedSoFar;
    hide ExhaustsSoFar;
    hide Solutions;
    var t := Tries(x, |cand|, s, candCopy, crit, vs);
    assert vs[..|vs|] == vs;
    TriesExhaust(x, s, cand, candCopy, crit, vs, |vs|, e);
    TriesAdvance(x, s, cand, candCopy, crit, vs, |vs|, e, true);
    LoopExhausts(x, s, cand, candCopy, crit, vs, e, t);
    BranchedMeaning(x, |cand|, s, candCopy, crit, vs);
    if vs == [] {
      ForcesNothing(x, |cand|, t.s, t.cand, crit, vs);
      assert vs[..0] == vs;
    }
  }

  // ---------- components that are sure to yield a cover ----------

  /** Calm from the root, and every edge can be hit. */
  ghost predicate CalmRoot(g: Graph, mode: Method) {
    Choosing(mode) && Calm(g, mode, {}, g.vertices) && forall e: nat :: e < |g.edges| ==> g.Edge(e) != {}
  }

  /** Every search of such a component from its root finds a cover, whatever is drawn. */
  ghost predicate Sure(g: Graph, mode: Method) {
    Anchored(g, mode) || CalmRoot(g, mode)
  }

  lemma AnchoredAreSure(mode: Method, subs: seq<Graph>)
    requires forall k :: 0 <= k < |subs| ==> Anchored(subs[k], mode)
    ensures forall k :: 0 <= k < |subs| ==> Sure(subs[k], mode)
  {
    hide Anchored;
    hide CalmRoot;
  }

  lemma RootFinds(x: Settings, s: Snapshot)
    requires x.g.Valid() && x.mode != PRIORITY && Counting(x, s) && !s.stopFlag && Sure(x.g, x.mode)
    ensures Mark(x, Searched(x, Started(x.g, s), x.g.vertices, [])) > Mark(x, s)
  {
    hide Searched;
    hide Ready;
    hide Calm;
    hide Finds;
    hide Anchored;
    ReadyRoot(x, s);
    var root := Started(x.g, s);
    if Anchored(x.g, x.mode) {
      SearchedAdvances(x, root, x.g.vertices, [], true);
    } else {
      SearchedExhausts(x, root, x.g.vertices, []);
      SomeCover(x.g);
    }
  }
}
