/** Exact enumeration of minimal approximate covers (adc_enum.cpp). */
module AdcEnum {
  import opened Collections
  import opened BitSets
  import opened IntSets
  import opened Hypergraphs
  import opened Covers
  import opened Accounting
  import opened SearchSteps
  import opened Loops

  /** Edges written off by `canHit` really have no candidate left. */
  ghost predicate CanHitSound(g: Graph, uncov: BitSet, canHit: BitSet, cand: BitSet) {
    forall e :: e in uncov && e < |g.edges| && e !in canHit ==> g.Edge(e) !! cand
  }

  // ---------- the read-only tests ----------

  /** No chosen vertex can be dropped without missing the threshold. */
  method IsMinimal(g: Graph, t: Target, ghost cur: BitSet, uncov: BitSet, ghost chosen: seq<nat>, crit: seq<IntSet>)
    returns (minimal: bool)
    requires uncov == Uncov(g, cur) && CritsMatch(g, cur, chosen, crit) && Accepts(g, t, cur)
    ensures minimal <==> Minimal(g, t, cur)
  {
    MinimalFromCrits(g, t, cur, chosen, crit);
    for i := 0 to |crit|
      invariant forall j :: 0 <= j < i ==> !t.Meets(|uncov| + |crit[j]|)
    {
      if t.Meets(|uncov| + |crit[i]|) {
        return false;
      }
    }
    return true;
  }

  /** Adding up sizes decides minimality. */
  lemma MinimalFromCrits(g: Graph, t: Target, cur: BitSet, chosen: seq<nat>, crit: seq<IntSet>)
    requires CritsMatch(g, cur, chosen, crit) && Accepts(g, t, cur)
    ensures Minimal(g, t, cur) <==> forall i :: 0 <= i < |crit| ==> !t.Meets(|Uncov(g, cur)| + |crit[i]|)
  {
    CritSizes(g, cur, chosen, crit);
    assert forall i :: 0 <= i < |chosen| ==> chosen[i] in cur;
    if forall i :: 0 <= i < |crit| ==> !t.Meets(|Uncov(g, cur)| + |crit[i]|) {
      forall u | u in cur
        ensures !Accepts(g, t, cur - {u})
      {
        var i :| 0 <= i < |chosen| && chosen[i] == u;
      }
    }
  }

  /** The sizes the test adds up are the numbers of edges left uncovered by one removal. */
  lemma CritSizes(g: Graph, cur: BitSet, chosen: seq<nat>, crit: seq<IntSet>)
    requires CritsMatch(g, cur, chosen, crit)
    ensures forall i :: 0 <= i < |crit| ==> |Uncov(g, cur)| + |crit[i]| == |Uncov(g, cur - {chosen[i]})|
  {
    forall i | 0 <= i < |crit|
      ensures |Uncov(g, cur)| + |crit[i]| == |Uncov(g, cur - {chosen[i]})|
    {
      NoDupCard(crit[i]);
      assert chosen[i] in cur;
      UncovDrop(g, cur, chosen[i]);
    }
  }

  /** Writes off the uncovered edges without a candidate. */
  method UpdateCanCover(g: Graph, cand: BitSet, uncov: BitSet, canHit: BitSet) returns (newCanHit: BitSet)
    requires forall e :: e in uncov ==> e < |g.edges|
    ensures forall e :: e in newCanHit <==> e in canHit && !(e in uncov && g.Edge(e) !! cand)
  {
    newCanHit := canHit;
    var edges := Bits(uncov);
    assert forall e :: e in uncov <==> e in Elems(edges);
    for i := 0 to |edges|
      invariant forall e :: e in newCanHit <==> e in canHit && !(e in edges[..i] && e < |g.edges| && g.Edge(e) !! cand)
    {
      assert edges[i] in Elems(edges);
      var flag := HasCandidate(g.edges[edges[i]], cand);
      if !flag {
        newCanHit := newCanHit - {edges[i]};
      }
    }
    assert edges[..|edges|] == edges;
  }

  method HasCandidate(edge: IntSet, cand: BitSet) returns (flag: bool)
    ensures flag <==> !(Elems(edge) !! cand)
  {
    for i := 0 to |edge|
      invariant forall j :: 0 <= j < i ==> edge[j] !in cand
    {
      if edge[i] in cand {
        assert edge[i] in Elems(edge);
        return true;
      }
    }
    return false;
  }

  /** Whether all candidates together would reach the threshold. */
  method WillCover(g: Graph, t: Target, ghost cur: BitSet, uncov: BitSet, cand: BitSet) returns (b: bool)
    requires g.Valid() && uncov == Uncov(g, cur)
    ensures b <==> Accepts(g, t, cur + cand)
  {
    var newUncov := uncov;
    var vertices := Bits(cand);
    assert cur + Elems(vertices[..0]) == cur && vertices[..|vertices|] == vertices;
    hide Uncov;
    hide Bits;
    hide Graph.Valid;
    hide Graph.Hits;
    hide HittingList;
    for i := 0 to |vertices|
      invariant newUncov == Uncov(g, cur + Elems(vertices[..i]))
    {
      var hitting := HittingList(g, vertices[i]);
      HittingListMeaning(g, vertices[i]);
      newUncov := Clear(newUncov, hitting);
      CoverOneMore(g, cur, vertices, i);
    }
    b := t.Meets(|newUncov|);
  }

  lemma CoverOneMore(g: Graph, cur: BitSet, vertices: seq<nat>, i: nat)
    requires i < |vertices|
    ensures Uncov(g, cur + Elems(vertices[..i + 1])) == Uncov(g, cur + Elems(vertices[..i])) - g.Hits(vertices[i])
  {
    UncovAdd(g, cur + Elems(vertices[..i]), vertices[i]);
    hide Uncov;
    assert vertices[..i + 1] == vertices[..i] + [vertices[i]];
    ElemsConcat(vertices[..i], [vertices[i]]);
    assert Elems([vertices[i]]) == {vertices[i]};
    assert cur + Elems(vertices[..i + 1]) == cur + Elems(vertices[..i]) + {vertices[i]};
  }

  // ---------- pruning loses nothing ----------

  /** Without an eligible edge that has a candidate, the whole node is dead. */
  lemma NoEdgeNoSolution(g: Graph, t: Target, cur: BitSet, cand: BitSet, canHit: BitSet)
    requires CanHitSound(g, Uncov(g, cur), canHit, cand) && !Accepts(g, t, cur)
    requires forall w :: w in Uncov(g, cur) * canHit ==> cand !! g.Edge(w)
    ensures Solutions(g, t, cur, cand) == {}
  {
    assert Uncov(g, cur + cand) == Uncov(g, cur);
    DeadSolutions(g, t, cur, cand);
  }

  /** Whether a partial cover can be completed at all is what `WillCover` tests. */
  lemma WillCoverMeaning(g: Graph, t: Target, cur: BitSet, cand: BitSet)
    ensures Accepts(g, t, cur + cand) <==> exists s :: cur <= s && s <= cur + cand && Accepts(g, t, s)
  {
    if s :| cur <= s && s <= cur + cand && Accepts(g, t, s) {
      AcceptsMonotone(g, t, s, cur + cand);
    }
    if Accepts(g, t, cur + cand) {
      assert cur <= cur + cand <= cur + cand;
    }
  }

  /** Avoiding the chosen edge writes it off. */
  lemma AvoidingShrinks(g: Graph, uncov: BitSet, canHit: BitSet, newCanHit: BitSet, cand: BitSet, e: nat)
    requires e in uncov * canHit && e < |g.edges| && g.Edge(e) !! cand
    requires forall x :: x in newCanHit <==> x in canHit && !(x in uncov && x < |g.edges| && g.Edge(x) !! cand)
    ensures |uncov * newCanHit| < |uncov * canHit|
  {
    StrictSubsetCard(uncov * newCanHit, uncov * canHit, e);
  }

  /** Using the chosen edge covers it. */
  lemma UsingShrinks(g: Graph, uncov: BitSet, canHit: BitSet, e: nat, v: nat)
    requires e in uncov * canHit && e < |g.edges| && v in g.Edge(e)
    ensures |(uncov - g.Hits(v)) * canHit| < |uncov * canHit|
  {
    assert e in g.Hits(v);
    StrictSubsetCard((uncov - g.Hits(v)) * canHit, uncov * canHit, e);
  }

  // ---------- what is emitted, in which order ----------

  /** What stays fixed during a search. */
  datatype Search = Search(g: Graph, theta: real, mode: Method) {
    function Goal(): Target {
      Approximate(|g.edges|, theta)
    }
  }

  /** `canHit` without the uncovered edges that have no candidate left. */
  function WithoutDead(g: Graph, uncov: BitSet, canHit: BitSet, cand: BitSet): BitSet {
    set e | e in canHit && !(e in uncov && e < |g.edges| && g.Edge(e) !! cand)
  }

  /** One node. */
  ghost function Emissions(x: Search, cur: BitSet, cand: BitSet, canHit: BitSet): seq<BitSet>
    decreases |Uncov(x.g, cur) * canHit|, 2, 0
  {
    var uncov := Uncov(x.g, cur);
    var eligible := Eligible(x.g, x.mode, uncov, canHit, cand);
    if x.Goal().Meets(|uncov|) then if Minimal(x.g, x.Goal(), cur) then [cur] else []
    else if eligible == {} then []
    else
      var e := Least(eligible);
      var c := cand * x.g.Edge(e);
      AvoidEmissions(x, cur, cand - c, canHit, e) + UseEmissions(x, cur, cand - c, canHit, e, Bits(c))
  }

  /** The branch that avoids the chosen edge `e`, unless it is hopeless. */
  ghost function AvoidEmissions(x: Search, cur: BitSet, cand: BitSet, canHit: BitSet, e: nat): seq<BitSet>
    requires e in Uncov(x.g, cur) * canHit && x.g.Edge(e) !! cand
    decreases |Uncov(x.g, cur) * canHit|, 1, 0
  {
    if !Accepts(x.g, x.Goal(), cur + cand) then []
    else
      AvoidingShrinks(x.g, Uncov(x.g, cur), canHit, WithoutDead(x.g, Uncov(x.g, cur), canHit, cand), cand, e);
      Emissions(x, cur, cand, WithoutDead(x.g, Uncov(x.g, cur), canHit, cand))
  }

  /** The branch that uses one of the candidates `vs` of `e`. */
  ghost function UseEmissions(x: Search, cur: BitSet, cand: BitSet, canHit: BitSet, e: nat, vs: seq<nat>): seq<BitSet>
    requires e in Uncov(x.g, cur) * canHit && Elems(vs) <= x.g.Edge(e)
    decreases |Uncov(x.g, cur) * canHit|, 1, |vs|
  {
    if vs == [] then []
    else
      assert vs[0] in Elems(vs) && Elems(vs[1..]) <= Elems(vs);
      if Violates(x.g, cur, vs[0]) then UseEmissions(x, cur, cand, canHit, e, vs[1..])
      else
        UsingShrinks(x.g, Uncov(x.g, cur), canHit, e, vs[0]);
        UncovAdd(x.g, cur, vs[0]);
        Emissions(x, cur + {vs[0]}, cand, canHit) + UseEmissions(x, cur, cand + {vs[0]}, canHit, e, vs[1..])
  }

  /** A partial cover that is good enough ends the node, and is emitted if it is minimal. */
  lemma EmissionsLeaf(x: Search, cur: BitSet, cand: BitSet, canHit: BitSet)
    requires x.Goal().Meets(|Uncov(x.g, cur)|)
    ensures Emissions(x, cur, cand, canHit) == if Minimal(x.g, x.Goal(), cur) then [cur] else []
  {
  }

  lemma EmissionsDead(x: Search, cur: BitSet, cand: BitSet, canHit: BitSet)
    requires !x.Goal().Meets(|Uncov(x.g, cur)|) && Eligible(x.g, x.mode, Uncov(x.g, cur), canHit, cand) == {}
    ensures Emissions(x, cur, cand, canHit) == []
  {
  }

  /** Any other node first avoids the chosen edge and then uses it. */
  lemma EmissionsNode(x: Search, cur: BitSet, cand: BitSet, canHit: BitSet, e: nat, c: BitSet)
    requires !x.Goal().Meets(|Uncov(x.g, cur)|) && Eligible(x.g, x.mode, Uncov(x.g, cur), canHit, cand) != {}
    requires e == Least(Eligible(x.g, x.mode, Uncov(x.g, cur), canHit, cand)) && e < |x.g.edges|
    requires c == cand * Elems(x.g.edges[e])
    ensures e in Uncov(x.g, cur) * canHit && x.g.Edge(e) !! cand - c && Elems(Bits(c)) <= x.g.Edge(e)
    ensures Emissions(x, cur, cand, canHit)
            == AvoidEmissions(x, cur, cand - c, canHit, e) + UseEmissions(x, cur, cand - c, canHit, e, Bits(c))
  {
  }

  /** The avoiding branch is searched if all candidates together are accepted; edges without a candidate are written off. */
  lemma AvoidEmissionsMeaning(x: Search, cur: BitSet, cand: BitSet, canHit: BitSet, e: nat, canHitCopy: BitSet)
    requires e in Uncov(x.g, cur) * canHit && x.g.Edge(e) !! cand
    requires forall w :: w in canHitCopy <==>
               w in canHit && !(w in Uncov(x.g, cur) && w < |x.g.edges| && x.g.Edge(w) !! cand)
    ensures AvoidEmissions(x, cur, cand, canHit, e)
            == if Accepts(x.g, x.Goal(), cur + cand) then Emissions(x, cur, cand, canHitCopy) else []
  {
    assert canHitCopy == WithoutDead(x.g, Uncov(x.g, cur), canHit, cand);
  }

  /** A violating vertex is skipped. Any other is tried, and then becomes a candidate again for the vertices after it. */
  lemma UseEmissionsStep(x: Search, cur: BitSet, cand: BitSet, canHit: BitSet, e: nat, vs: seq<nat>, i: nat)
    requires e in Uncov(x.g, cur) * canHit && Elems(vs) <= x.g.Edge(e) && i < |vs|
    ensures Elems(vs[i..]) <= x.g.Edge(e) && Elems(vs[i + 1..]) <= x.g.Edge(e) && vs[i] in x.g.Edge(e)
    ensures Violates(x.g, cur, vs[i]) ==>
              UseEmissions(x, cur, cand, canHit, e, vs[i..]) == UseEmissions(x, cur, cand, canHit, e, vs[i + 1..])
    ensures !Violates(x.g, cur, vs[i]) ==>
              UseEmissions(x, cur, cand, canHit, e, vs[i..])
              == Emissions(x, cur + {vs[i]}, cand, canHit) + UseEmissions(x, cur, cand + {vs[i]}, canHit, e, vs[i + 1..])
  {
    assert vs[i..][1..] == vs[i + 1..];
    assert Elems(vs[i..]) <= Elems(vs) && Elems(vs[i + 1..]) <= Elems(vs) && vs[i] in Elems(vs);
  }

  lemma UseEmissionsDone(x: Search, cur: BitSet, cand: BitSet, canHit: BitSet, e: nat, vs: seq<nat>)
    requires e in Uncov(x.g, cur) * canHit && Elems(vs) <= x.g.Edge(e)
    ensures Elems(vs[|vs|..]) <= x.g.Edge(e) && UseEmissions(x, cur, cand, canHit, e, vs[|vs|..]) == []
  {
  }

  // ---------- the emissions are the solutions ----------

  /** A node emits its solutions, each once and nothing else; in mode PRIORITY only its partial cover. */
  lemma {:induction false} EmissionsDeliver(x: Search, cur: BitSet, cand: BitSet, canHit: BitSet)
    returns (lost: multiset<BitSet>)
    requires x.g.Valid() && cur !! cand && CanHitSound(x.g, Uncov(x.g, cur), canHit, cand)
    ensures Delivers([], Emissions(x, cur, cand, canHit), lost, Solutions(x.g, x.Goal(), cur, cand))
    ensures x.mode != PRIORITY ==> lost == multiset{}
    ensures x.mode == PRIORITY ==> Emissions(x, cur, cand, canHit) == if Minimal(x.g, x.Goal(), cur) then [cur] else []
    decreases |Uncov(x.g, cur) * canHit|, 2, 0
  {
    lost := multiset{};
    if x.Goal().Meets(|Uncov(x.g, cur)|) {
      EmissionsLeaf(x, cur, cand, canHit);
      LeafSolutions(x.g, x.Goal(), cur, cand);
      DeliversOne([], cur);
      DeliversNone([]);
    } else if Eligible(x.g, x.mode, Uncov(x.g, cur), canHit, cand) == {} {
      EmissionsDead(x, cur, cand, canHit);
      lost := multiset(Solutions(x.g, x.Goal(), cur, cand));
      DeliversLost([], Solutions(x.g, x.Goal(), cur, cand));
      if x.mode != PRIORITY {
        NotEligible(x.g, x.mode, Uncov(x.g, cur), canHit, cand);
        NoEdgeNoSolution(x.g, x.Goal(), cur, cand, canHit);
      }
    } else {
      lost := NodeDelivers(x, cur, cand, canHit);
    }
  }

  /** No edge is picked only if none has a candidate. */
  lemma NotEligible(g: Graph, mode: Method, uncov: BitSet, canHit: BitSet, cand: BitSet)
    requires mode != PRIORITY && Eligible(g, mode, uncov, canHit, cand) == {} && forall w :: w in uncov ==> w < |g.edges|
    ensures forall w :: w in uncov * canHit ==> cand !! g.Edge(w)
  {
    forall w | w in uncov * canHit
      ensures Width(g, cand, w) == 0
    {
      NoExtreme(g, mode == MIN, uncov * canHit, cand, w);
    }
    WidthZero(g, cand, uncov * canHit);
  }

  lemma {:induction false} NodeDelivers(x: Search, cur: BitSet, cand: BitSet, canHit: BitSet)
    returns (lost: multiset<BitSet>)
    requires x.g.Valid() && cur !! cand && CanHitSound(x.g, Uncov(x.g, cur), canHit, cand)
    requires !x.Goal().Meets(|Uncov(x.g, cur)|) && Eligible(x.g, x.mode, Uncov(x.g, cur), canHit, cand) != {}
    ensures Delivers([], Emissions(x, cur, cand, canHit), lost, Solutions(x.g, x.Goal(), cur, cand))
    ensures lost == multiset{} && x.mode != PRIORITY
    decreases |Uncov(x.g, cur) * canHit|, 1, |cand| + 1
  {
    var e := Least(Eligible(x.g, x.mode, Uncov(x.g, cur), canHit, cand));
    var c := cand * x.g.Edge(e);
    EmissionsNode(x, cur, cand, canHit, e, c);
    NoDupCard(Bits(c));
    SubsetCard(c, cand);
    hide Emissions;
    hide AvoidEmissions;
    hide UseEmissions;
    hide Delivers;
    hide Solutions;
    hide LoopSolutions;
    hide Bits;
    hide Minimal;
    lost := AvoidDelivers(x, cur, cand - c, canHit, e);
    var later := UseDelivers(x, cur, cand - c, canHit, e, Bits(c));
    var avoided := AvoidEmissions(x, cur, cand - c, canHit, e);
    DeliversShift(avoided, UseEmissions(x, cur, cand - c, canHit, e, Bits(c)), later,
                  LoopSolutions(x.g, x.Goal(), cur, cand - c, c));
    lost := DeliversBoth(x.g, x.Goal(), cur, cand, c, [], avoided, Emissions(x, cur, cand, canHit), lost, later);
  }

  lemma {:induction false} AvoidDelivers(x: Search, cur: BitSet, cand: BitSet, canHit: BitSet, e: nat)
    returns (lost: multiset<BitSet>)
    requires x.g.Valid() && cur !! cand && CanHitSound(x.g, Uncov(x.g, cur), canHit, cand) && x.mode != PRIORITY
    requires e in Uncov(x.g, cur) * canHit && x.g.Edge(e) !! cand
    ensures Delivers([], AvoidEmissions(x, cur, cand, canHit, e), lost, Solutions(x.g, x.Goal(), cur, cand))
    ensures lost == multiset{}
    decreases |Uncov(x.g, cur) * canHit|, 1, 0
  {
    var canHitCopy := WithoutDead(x.g, Uncov(x.g, cur), canHit, cand);
    AvoidEmissionsMeaning(x, cur, cand, canHit, e, canHitCopy);
    if Accepts(x.g, x.Goal(), cur + cand) {
      AvoidingShrinks(x.g, Uncov(x.g, cur), canHit, canHitCopy, cand, e);
      lost := EmissionsDeliver(x, cur, cand, canHitCopy);
    } else {
      DeadSolutions(x.g, x.Goal(), cur, cand);
      DeliversNone([]);
      lost := multiset{};
    }
  }

  lemma {:induction false} UseDelivers(x: Search, cur: BitSet, cand: BitSet, canHit: BitSet, e: nat, vs: seq<nat>)
    returns (lost: multiset<BitSet>)
    requires x.g.Valid() && CanHitSound(x.g, Uncov(x.g, cur), canHit, cand + Elems(vs)) && x.mode != PRIORITY
    requires cur !! cand && NoDup(vs) && Elems(vs) !! cur && Elems(vs) !! cand
    requires e in Uncov(x.g, cur) * canHit && Elems(vs) <= x.g.Edge(e)
    ensures Delivers([], UseEmissions(x, cur, cand, canHit, e, vs), lost,
                     LoopSolutions(x.g, x.Goal(), cur, cand, Elems(vs)))
    ensures lost == multiset{}
    decreases |Uncov(x.g, cur) * canHit|, 1, |vs|
  {
    hide Emissions;
    hide UseEmissions;
    hide Delivers;
    hide LoopSolutions;
    hide Solutions;
    hide Violates;
    hide Minimal;
    lost := multiset{};
    if vs == [] {
      UseEmissionsDone(x, cur, cand, canHit, e, vs);
      LoopSolutionsEmpty(x.g, x.Goal(), cur, cand);
      DeliversNone([]);
      ElemsEmpty(vs);
      assert vs[|vs|..] == vs;
    } else {
      var v, rest := vs[0], vs[1..];
      assert vs[0..] == vs;
      TailElems(vs);
      UseEmissionsStep(x, cur, cand, canHit, e, vs, 0);
      if Violates(x.g, cur, v) {
        SkipViolating(x.g, x.Goal(), cur, cand, Elems(vs), v);
        lost := UseDelivers(x, cur, cand, canHit, e, rest);
      } else {
        UsingShrinks(x.g, Uncov(x.g, cur), canHit, e, v);
        UncovAdd(x.g, cur, v);
        var below := EmissionsDeliver(x, cur + {v}, cand, canHit);
        assert cand + {v} + Elems(rest) == cand + Elems(vs);
        lost := UseDelivers(x, cur, cand + {v}, canHit, e, rest);
        lost := DeliversTurn(x.g, x.Goal(), cur, cand, Elems(vs), v, Emissions(x, cur + {v}, cand, canHit),
                             UseEmissions(x, cur, cand + {v}, canHit, e, rest), below, lost);
      }
    }
  }

  class ADCEnum {
    const g: Graph
    const theta: real
    var mode: Method
    var cur: BitSet
    var uncov: BitSet
    var canHit: BitSet
    var nextEdge: nat
    var totalNum: nat
    var output: seq<BitSet>

    ghost function Setup(): Search
      reads `mode
    {
      Search(g, theta, mode)
    }

    constructor (g: Graph, theta: real)
      ensures this.g == g && this.theta == theta && mode == ORDER && totalNum == 0 && output == []
    {
      this.g, this.theta := g, theta;
      mode, cur, uncov, canHit, nextEdge, totalNum, output := ORDER, {}, {}, {}, 0, 0, [];
    }

    method CommonInit()
      requires g.Valid()
      modifies `cur, `uncov, `canHit
      ensures cur == {} && uncov == Uncov(g, {}) && canHit == uncov
    {
      cur := {};
      uncov := AllEdges(g);
      canHit := uncov;
    }

    /** Every minimal approximate cover is emitted, nothing else, and each once, in the order of the listing. */
    method RunApproximate() returns (ghost lost: multiset<BitSet>)
      requires g.Valid()
      modifies `cur, `uncov, `canHit, `nextEdge, `totalNum, `output
      ensures Delivers(old(output), output, lost, Solutions(g, Approximate(|g.edges|, theta), {}, g.vertices))
      ensures mode != PRIORITY ==> lost == multiset{}
      ensures mode == PRIORITY ==>
                output == old(output) + if Minimal(g, Approximate(|g.edges|, theta), {}) then [{}] else []
      ensures output == old(output) + Emissions(Setup(), {}, g.vertices, Uncov(g, {}))
      ensures totalNum == old(totalNum) + |output| - |old(output)|
    {
      CommonInit();
      lost := EmissionsDeliver(Setup(), {}, g.vertices, canHit);
      DeliversShift(output, Emissions(Setup(), {}, g.vertices, canHit), lost, Solutions(g, Setup().Goal(), {}, g.vertices));
      RootState(g);
      hide Emissions;
      hide Delivers;
      hide Solutions;
      hide Minimal;
      hide NodeState;
      RunApproximateFrom(g.vertices, [], []);
    }

    /** One node; the state it works on is handed back as it was found. */
    method RunApproximateFrom(cand: BitSet, crit: seq<IntSet>, ghost chosen: seq<nat>)
      requires NodeState(g, cur, uncov, cand, chosen, crit)
      modifies `cur, `uncov, `canHit, `nextEdge, `totalNum, `output
      ensures cur == old(cur) && uncov == old(uncov) && canHit == old(canHit)
      ensures output == old(output) + Emissions(Setup(), cur, cand, canHit)
      ensures totalNum == old(totalNum) + |output| - |old(output)|
      decreases |uncov * canHit|, 3
    {
      NodeBasics(g, cur, uncov, cand, chosen, crit);
      hide NodeState;
      hide Emissions;
      hide AvoidEmissions;
      hide UseEmissions;
      hide LoopShape;
      hide Eligible;
      hide Uncov;
      hide Minimal;
      hide Graph.Valid;
      hide CritsMatch;
      hide Width;
      hide Target.Meets;
      if Approximate(|g.edges|, theta).Meets(|uncov|) {
        EmissionsLeaf(Setup(), cur, cand, canHit);
        var minimal := IsMinimal(g, Approximate(|g.edges|, theta), cur, uncov, chosen, crit);
        if minimal {
          totalNum := totalNum + 1;
          output := output + [cur];
        }
        return;
      }
      var found;
      found, nextEdge := GetHittableEdge(g, mode, uncov, canHit, cand, nextEdge);
      if !found {
        EmissionsDead(Setup(), cur, cand, canHit);
        return;
      }
      BranchOn(nextEdge, cand, crit, chosen);
    }

    /** Takes the vertices of the chosen edge out of the candidates; first avoids it, then uses it. */
    method BranchOn(e: nat, cand: BitSet, crit: seq<IntSet>, ghost chosen: seq<nat>)
      requires NodeState(g, cur, uncov, cand, chosen, crit) && !Approximate(|g.edges|, theta).Meets(|uncov|)
      requires Eligible(g, mode, uncov, canHit, cand) != {} && e == Least(Eligible(g, mode, uncov, canHit, cand))
      requires e in uncov * canHit
      modifies `cur, `uncov, `canHit, `nextEdge, `totalNum, `output
      ensures cur == old(cur) && uncov == old(uncov) && canHit == old(canHit)
      ensures output == old(output) + Emissions(Setup(), cur, cand, canHit)
      ensures totalNum == old(totalNum) + |output| - |old(output)|
      decreases |uncov * canHit|, 2
    {
      NodeBasics(g, cur, uncov, cand, chosen, crit);
      hide NodeState;
      hide Emissions;
      hide AvoidEmissions;
      hide UseEmissions;
      hide LoopShape;
      hide Eligible;
      hide Uncov;
      hide Graph.Valid;
      hide CritsMatch;
      hide Target.Meets;
      hide Elems;
      hide NoDup;
      ghost var before := output;
      var candCopy, vs := TakeEdge(e, cand);
      AvoidEdge(cand, candCopy, crit, chosen, e);
      VisitVertices(cand, candCopy, crit, vs, chosen, e);
      Reassociate(before, AvoidEmissions(Setup(), cur, candCopy, canHit, e),
                  UseEmissions(Setup(), cur, candCopy, canHit, e, vs));
    }

    method TakeEdge(e: nat, cand: BitSet) returns (candCopy: BitSet, vs: seq<nat>)
      requires uncov == Uncov(g, cur) && !Approximate(|g.edges|, theta).Meets(|uncov|) && cur !! cand
      requires Eligible(g, mode, uncov, canHit, cand) != {} && e == Least(Eligible(g, mode, uncov, canHit, cand))
      requires e < |g.edges| && NoDup(g.edges[e])
      ensures candCopy <= cand && LoopShape(cur, cand, candCopy, vs, 0)
      ensures e in Uncov(g, cur) * canHit && g.Edge(e) !! candCopy && Elems(vs) <= g.Edge(e)
      ensures Emissions(Setup(), cur, cand, canHit)
              == AvoidEmissions(Setup(), cur, candCopy, canHit, e) + UseEmissions(Setup(), cur, candCopy, canHit, e, vs)
    {
      hide Emissions;
      hide AvoidEmissions;
      hide UseEmissions;
      hide LoopShape;
      hide Eligible;
      hide Uncov;
      hide NoDup;
      hide Target.Meets;
      var c := Intersect(cand, g.edges[e]);
      candCopy, vs := cand - c, Bits(c);
      LoopStart(cur, cand, c);
      EmissionsNode(Setup(), cur, cand, canHit, e, c);
    }

    /** The branch in which no vertex of the chosen edge is used. */
    method AvoidEdge(ghost cand: BitSet, candCopy: BitSet, crit: seq<IntSet>, ghost chosen: seq<nat>, ghost e: nat)
      requires NodeState(g, cur, uncov, cand, chosen, crit) && candCopy <= cand
      requires e in uncov * canHit && e < |g.edges| && g.Edge(e) !! candCopy
      modifies `cur, `uncov, `canHit, `nextEdge, `totalNum, `output
      ensures cur == old(cur) && uncov == old(uncov) && canHit == old(canHit)
      ensures e in Uncov(g, cur) * canHit
      ensures output == old(output) + AvoidEmissions(Setup(), cur, candCopy, canHit, e)
      ensures totalNum == old(totalNum) + |output| - |old(output)|
      decreases |uncov * canHit|, 0
    {
      hide Emissions;
      hide AvoidEmissions;
      hide CritsMatch;
      hide Minimal;
      hide Target.Meets;
      var canHitCopy := canHit;
      canHit := UpdateCanCover(g, candCopy, uncov, canHit);
      AvoidingShrinks(g, uncov, canHitCopy, canHit, candCopy, e);
      AvoidEmissionsMeaning(Setup(), cur, candCopy, canHitCopy, e, canHit);
      var willCover := WillCover(g, Approximate(|g.edges|, theta), cur, uncov, candCopy);
      if willCover {
        RunApproximateFrom(candCopy, crit, chosen);
      }
      canHit := canHitCopy;
    }

    /** The loop over the candidates of the chosen edge, whose vertices have been taken out of `initial`. */
    method VisitVertices(ghost cand: BitSet, initial: BitSet, crit: seq<IntSet>, vs: seq<nat>, ghost chosen: seq<nat>,
                         ghost e: nat)
      requires NodeState(g, cur, uncov, cand, chosen, crit) && LoopShape(cur, cand, initial, vs, 0)
      requires e in Uncov(g, cur) * canHit && e < |g.edges| && Elems(vs) <= g.Edge(e)
      modifies `cur, `uncov, `canHit, `nextEdge, `totalNum, `output
      ensures cur == old(cur) && uncov == old(uncov) && canHit == old(canHit)
      ensures output == old(output) + UseEmissions(Setup(), cur, initial, canHit, e, vs)
      ensures totalNum == old(totalNum) + |output| - |old(output)|
      decreases |uncov * canHit|, 1, 2
    {
      hide Emissions;
      hide UseEmissions;
      hide LoopShape;
      hide NodeState;
      hide Violates;
      hide Uncov;
      hide OnTheWay;
      hide Elems;
      hide Graph.Edge;
      var candCopy := initial;
      assert vs[0..] == vs;
      ghost var x := Setup();
      ghost var all := UseEmissions(x, cur, initial, canHit, e, vs);
      WayStarts(output, all);
      for i := 0 to |vs|
        invariant cur == old(cur) && uncov == old(uncov) && canHit == old(canHit) && Setup() == x
        invariant NodeState(g, cur, uncov, cand, chosen, crit) && LoopShape(cur, cand, candCopy, vs, i)
        invariant Elems(vs[i..]) <= g.Edge(e)
        invariant OnTheWay(old(output), output, UseEmissions(x, cur, candCopy, canHit, e, vs[i..]), all)
        invariant totalNum == old(totalNum) + |output| - |old(output)|
      {
        var v := vs[i];
        LoopTurn(cur, cand, candCopy, vs, i);
        UseEmissionsStep(x, cur, candCopy, canHit, e, vs, i);
        ghost var before, node := output, Emissions(x, cur + {v}, candCopy, canHit);
        candCopy := TryVertex(cand, candCopy, crit, v, chosen, e);
        if !Violates(g, cur, v) {
          WayGoesOn(old(output), before, output, node, UseEmissions(x, cur, candCopy, canHit, e, vs[i + 1..]), all);
        }
      }
      UseEmissionsDone(x, cur, candCopy, canHit, e, vs);
      WayEnds(old(output), output, all);
    }

    /** One turn: a vertex that violates nothing is searched below, and is a candidate again afterwards. */
    method TryVertex(ghost cand: BitSet, candCopy: BitSet, crit: seq<IntSet>, v: nat, ghost chosen: seq<nat>, ghost e: nat)
      returns (newCand: BitSet)
      requires NodeState(g, cur, uncov, cand, chosen, crit)
      requires v in cand && candCopy <= cand && v !in candCopy && v !in cur
      requires e in Uncov(g, cur) * canHit && e < |g.edges| && v in g.Edge(e)
      modifies `cur, `uncov, `canHit, `nextEdge, `totalNum, `output
      ensures cur == old(cur) && uncov == old(uncov) && canHit == old(canHit)
      ensures Violates(g, cur, v) ==> newCand == candCopy && output == old(output)
      ensures !Violates(g, cur, v) ==>
                newCand == candCopy + {v} && output == old(output) + Emissions(Setup(), cur + {v}, candCopy, canHit)
      ensures totalNum == old(totalNum) + |output| - |old(output)|
      decreases |uncov * canHit|, 1, 1
    {
      NodeBasics(g, cur, uncov, cand, chosen, crit);
      hide NodeState;
      hide Emissions;
      hide Violates;
      hide CritsMatch;
      newCand := candCopy;
      var violates := VertexWouldViolate(g, cur, chosen, crit, v);
      if !violates {
        UsingShrinks(g, uncov, canHit, e, v);
        Descend(cand, candCopy, crit, v, chosen);
        newCand := candCopy + {v};
      }
    }

    /** The subtree of `v`: extend the partial cover, search, and undo the extension. */
    method Descend(ghost cand: BitSet, candCopy: BitSet, crit: seq<IntSet>, v: nat, ghost chosen: seq<nat>)
      requires NodeState(g, cur, uncov, cand, chosen, crit)
      requires v in cand && candCopy <= cand && v !in candCopy && v !in cur
      requires |(uncov - g.Hits(v)) * canHit| < |uncov * canHit|
      modifies `cur, `uncov, `canHit, `nextEdge, `totalNum, `output
      ensures cur == old(cur) && uncov == old(uncov) && canHit == old(canHit)
      ensures output == old(output) + Emissions(Setup(), cur + {v}, candCopy, canHit)
      ensures totalNum == old(totalNum) + |output| - |old(output)|
      decreases |uncov * canHit|, 1, 0
    {
      hide *;
      FlipTwice(cur, v);
      var critClone := Deepen(cand, candCopy, crit, v, chosen);
      RunApproximateFrom(candCopy, critClone, chosen + [v]);
      cur := Flip(cur, v);
      uncov := RestoreCritAndUncov(critClone, uncov);
    }

    /** The extended node. */
    method Deepen(ghost cand: BitSet, candCopy: BitSet, crit: seq<IntSet>, v: nat, ghost chosen: seq<nat>)
      returns (critClone: seq<IntSet>)
      requires NodeState(g, cur, uncov, cand, chosen, crit)
      requires v in cand && candCopy <= cand && v !in candCopy && v !in cur
      modifies `cur, `uncov
      ensures cur == old(cur) + {v} && uncov == old(uncov) - g.Hits(v)
      ensures NodeState(g, cur, uncov, candCopy, chosen + [v], critClone)
      ensures critClone != [] && uncov + Elems(critClone[|critClone| - 1]) == old(uncov)
    {
      hide Elems;
      hide NodeState;
      hide Graph.Hits;
      critClone, uncov := Extend(g, cur, uncov, cand, chosen, crit, v, candCopy);
      cur := Flip(cur, v);
    }
  }
}
