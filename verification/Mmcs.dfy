/** Exact enumeration of minimal hitting sets (mmcs.cpp). */
module Mmcs {
  import opened Collections
  import opened BitSets
  import opened IntSets
  import opened Hypergraphs
  import opened Covers
  import opened Accounting
  import opened SearchSteps
  import opened Loops

  // ---------- what is emitted, in which order ----------

  /** What stays fixed during a search. `random(k)` is the k-th number drawn. */
  datatype Search = Search(g: Graph, mode: Method, random: nat -> nat)

  /** The field `next_edge_`, and how many numbers have been drawn. */
  datatype Cursor = Cursor(nextEdge: nat, drawn: nat)

  /** The covers a part of the search emits, in order, and where it leaves the cursor. */
  datatype Listing = Listing(covers: seq<BitSet>, at: Cursor)

  /** The edge chosen at a node. */
  ghost function ChosenEdge(x: Search, at: Cursor, cur: BitSet, cand: BitSet): nat
    requires Uncov(x.g, cur) != {}
  {
    EdgeChoice(x.g, x.mode, cur, Uncov(x.g, cur), cand, at.nextEdge, x.random(at.drawn))
  }

  /** The cursor after that choice. */
  ghost function Chose(x: Search, at: Cursor, cur: BitSet, cand: BitSet): Cursor
    requires Uncov(x.g, cur) != {}
  {
    Cursor(EdgeField(x.g, x.mode, cur, Uncov(x.g, cur), cand, at.nextEdge, x.random(at.drawn)),
           at.drawn + if DrawsEdge(x.mode, cur) then 1 else 0)
  }

  /** One node. */
  ghost function Emissions(x: Search, at: Cursor, cur: BitSet, cand: BitSet): Listing
    decreases |cand|, |cand| + 1
  {
    if Uncov(x.g, cur) == {} then Listing([cur], at)
    else
      var e := ChosenEdge(x, at, cur, cand);
      if e >= |x.g.edges| then Listing([], at)
      else
        var c := cand * x.g.Edge(e);
        SplitCard(cand, c);
        NoDupCard(Bits(c));
        LoopEmissions(x, Chose(x, at, cur, cand), cur, cand - c, Bits(c))
  }

  /** The loop over the candidates `vs` of the chosen edge. */
  ghost function LoopEmissions(x: Search, at: Cursor, cur: BitSet, cand: BitSet, vs: seq<nat>): Listing
    decreases |cand| + |vs|, |vs|
  {
    if vs == [] then Listing([], at)
    else if Violates(x.g, cur, vs[0]) then LoopEmissions(x, at, cur, cand, vs[1..])
    else
      var node := Emissions(x, at, cur + {vs[0]}, cand);
      var rest := LoopEmissions(x, node.at, cur, cand + {vs[0]}, vs[1..]);
      Listing(node.covers + rest.covers, rest.at)
  }

  /** A node without uncovered edges emits its partial cover. */
  lemma EmissionsLeaf(x: Search, at: Cursor, cur: BitSet, cand: BitSet)
    requires Uncov(x.g, cur) == {}
    ensures Emissions(x, at, cur, cand) == Listing([cur], at)
  {
  }

  /** Any other node takes the vertices of the chosen edge out of the candidates and tries them in ascending order. */
  lemma EmissionsNode(x: Search, at: Cursor, cur: BitSet, cand: BitSet)
    requires Uncov(x.g, cur) != {} && ChosenEdge(x, at, cur, cand) < |x.g.edges|
    ensures var c := cand * x.g.Edge(ChosenEdge(x, at, cur, cand));
            Emissions(x, at, cur, cand) == LoopEmissions(x, Chose(x, at, cur, cand), cur, cand - c, Bits(c))
  {
  }

  lemma EmissionsOpen(x: Search, at: Cursor, cur: BitSet, cand: BitSet, e: nat, c: BitSet, after: Cursor)
    requires Uncov(x.g, cur) != {} && e == ChosenEdge(x, at, cur, cand) && e < |x.g.edges|
    requires c == cand * Elems(x.g.edges[e]) && after == Chose(x, at, cur, cand)
    ensures Emissions(x, at, cur, cand) == LoopEmissions(x, after, cur, cand - c, Bits(c))
  {
    EmissionsNode(x, at, cur, cand);
  }

  /** A violating vertex is skipped. Any other is tried, and then becomes a candidate again for the vertices after it. */
  lemma LoopEmissionsStep(x: Search, at: Cursor, cur: BitSet, cand: BitSet, vs: seq<nat>, i: nat)
    requires i < |vs|
    ensures Violates(x.g, cur, vs[i]) ==>
              LoopEmissions(x, at, cur, cand, vs[i..]) == LoopEmissions(x, at, cur, cand, vs[i + 1..])
    ensures !Violates(x.g, cur, vs[i]) ==>
              var node := Emissions(x, at, cur + {vs[i]}, cand);
              var rest := LoopEmissions(x, node.at, cur, cand + {vs[i]}, vs[i + 1..]);
              LoopEmissions(x, at, cur, cand, vs[i..]) == Listing(node.covers + rest.covers, rest.at)
  {
    assert vs[i..][1..] == vs[i + 1..];
  }

  lemma LoopEmissionsDone(x: Search, at: Cursor, cur: BitSet, cand: BitSet, vs: seq<nat>)
    ensures LoopEmissions(x, at, cur, cand, vs[|vs|..]) == Listing([], at)
  {
  }

  // ---------- what the emissions are ----------

  lemma SplitCard(cand: BitSet, c: BitSet)
    requires c <= cand
    ensures |cand - c| + |c| == |cand|
  {
    assert cand == (cand - c) + c;
  }

  /** A vertex that passes the criticality test and completes the cover completes a minimal one. */
  lemma CompletedIsMinimal(g: Graph, cur: BitSet, v: nat)
    requires v !in cur && !Violates(g, cur, v) && Uncov(g, cur) != {} && Uncov(g, cur + {v}) == {}
    ensures Minimal(g, Hitting, cur + {v})
  {
    assert cur + {v} - {v} == cur;
    forall u | u in cur
      ensures Uncov(g, cur + {v} - {u}) != {}
    {
      CritAdd(g, cur, v, u);
      DifferenceEmpty(Crit(g, cur, u), g.Hits(v));
    }
  }

  /** If some uncovered edge has no candidate outside `c`, every solution uses `c`. */
  lemma SplitOnGoodEdge(g: Graph, cur: BitSet, cand: BitSet, e: nat)
    requires cur !! cand && e < |g.edges| && Uncov(g, cur) != {}
    requires e in Uncov(g, cur) || forall w :: w in Uncov(g, cur) ==> cand !! g.Edge(w)
    ensures Solutions(g, Hitting, cur, cand - g.Edge(e)) == {}
  {
    var left := cand - g.Edge(e);
    var w := if e in Uncov(g, cur) then e else Least(Uncov(g, cur));
    assert left !! g.Edge(w);
    assert w in Uncov(g, cur + left);
    DeadSolutions(g, Hitting, cur, left);
  }

  /** A node emits its solutions, each once and nothing else; in mode PRIORITY some may be lost. */
  lemma {:induction false} EmissionsDeliver(x: Search, at: Cursor, cur: BitSet, cand: BitSet)
    returns (lost: multiset<BitSet>)
    requires x.g.Valid() && cur !! cand && (Uncov(x.g, cur) == {} ==> Minimal(x.g, Hitting, cur))
    requires cur != {} ==> at.nextEdge < |x.g.edges|
    ensures Delivers([], Emissions(x, at, cur, cand).covers, lost, Solutions(x.g, Hitting, cur, cand))
    ensures x.mode != PRIORITY ==> lost == multiset{}
    ensures cur != {} ==> Emissions(x, at, cur, cand).at.nextEdge < |x.g.edges|
    decreases |cand|, |cand| + 2
  {
    if Uncov(x.g, cur) == {} {
      EmissionsLeaf(x, at, cur, cand);
      LeafSolutions(x.g, Hitting, cur, cand);
      DeliversOne([], cur);
      lost := multiset{};
    } else {
      lost := NodeDelivers(x, at, cur, cand);
    }
  }

  lemma {:induction false} NodeDelivers(x: Search, at: Cursor, cur: BitSet, cand: BitSet)
    returns (lost: multiset<BitSet>)
    requires x.g.Valid() && cur !! cand && Uncov(x.g, cur) != {} && (cur != {} ==> at.nextEdge < |x.g.edges|)
    ensures Delivers([], Emissions(x, at, cur, cand).covers, lost, Solutions(x.g, Hitting, cur, cand))
    ensures x.mode != PRIORITY ==> lost == multiset{}
    ensures Emissions(x, at, cur, cand).at.nextEdge < |x.g.edges|
    decreases |cand|, |cand| + 1
  {
    hide Emissions;
    hide LoopEmissions;
    hide ChosenEdge;
    hide Chose;
    hide Delivers;
    hide Solutions;
    hide LoopSolutions;
    hide Graph.Valid;
    hide Bits;
    ChoiceMeaning(x, at, cur, cand);
    var e := ChosenEdge(x, at, cur, cand);
    var c := cand * x.g.Edge(e);
    EmissionsNode(x, at, cur, cand);
    SplitCard(cand, c);
    NoDupCard(Bits(c));
    lost := LoopDelivers(x, Chose(x, at, cur, cand), cur, cand - c, Bits(c));
    if x.mode != PRIORITY {
      SplitOnGoodEdge(x.g, cur, cand, e);
      assert cand - c == cand - x.g.Edge(e);
    }
    lost := DeliversEdge(x.g, Hitting, cur, cand, c, [], Emissions(x, at, cur, cand).covers, lost);
  }

  lemma ChoiceMeaning(x: Search, at: Cursor, cur: BitSet, cand: BitSet)
    requires x.g.Valid() && Uncov(x.g, cur) != {} && (cur != {} ==> at.nextEdge < |x.g.edges|)
    ensures ChosenEdge(x, at, cur, cand) < |x.g.edges| && Chose(x, at, cur, cand).nextEdge < |x.g.edges|
    ensures x.mode != PRIORITY ==>
              ChosenEdge(x, at, cur, cand) in Uncov(x.g, cur) || forall w :: w in Uncov(x.g, cur) ==> cand !! x.g.Edge(w)
  {
    EdgeChoiceMeaning(x.g, x.mode, cur, Uncov(x.g, cur), cand, at.nextEdge, x.random(at.drawn));
  }

  lemma {:induction false} LoopDelivers(x: Search, at: Cursor, cur: BitSet, cand: BitSet, vs: seq<nat>)
    returns (lost: multiset<BitSet>)
    requires x.g.Valid() && at.nextEdge < |x.g.edges|
    requires cur !! cand && NoDup(vs) && Elems(vs) !! cur && Elems(vs) !! cand && Uncov(x.g, cur) != {}
    ensures Delivers([], LoopEmissions(x, at, cur, cand, vs).covers, lost,
                     LoopSolutions(x.g, Hitting, cur, cand, Elems(vs)))
    ensures x.mode != PRIORITY ==> lost == multiset{}
    ensures LoopEmissions(x, at, cur, cand, vs).at.nextEdge < |x.g.edges|
    decreases |cand| + |vs|, |vs|
  {
    lost := multiset{};
    if vs == [] {
      LoopSolutionsEmpty(x.g, Hitting, cur, cand);
      DeliversNone([]);
    } else {
      var v, rest := vs[0], vs[1..];
      assert vs[0..] == vs;
      TailElems(vs);
      LoopEmissionsStep(x, at, cur, cand, vs, 0);
      hide Emissions;
      hide LoopEmissions;
      hide Delivers;
      hide LoopSolutions;
      hide Solutions;
      hide Graph.Valid;
      if Violates(x.g, cur, v) {
        SkipViolating(x.g, Hitting, cur, cand, Elems(vs), v);
        lost := LoopDelivers(x, at, cur, cand, rest);
      } else {
        if Uncov(x.g, cur + {v}) == {} {
          CompletedIsMinimal(x.g, cur, v);
        }
        var node := Emissions(x, at, cur + {v}, cand);
        var below := EmissionsDeliver(x, at, cur + {v}, cand);
        lost := LoopDelivers(x, node.at, cur, cand + {v}, rest);
        lost := DeliversTurn(x.g, Hitting, cur, cand, Elems(vs), v,
                             node.covers, LoopEmissions(x, node.at, cur, cand + {v}, rest).covers, below, lost);
      }
    }
  }

  /** `last[i]` is the position of the last of the candidates `vs` that `covers[i]` uses, and never falls. */
  ghost predicate InTurn(covers: seq<BitSet>, vs: seq<nat>, last: seq<nat>) {
    && |last| == |covers| && (forall i, j :: 0 <= i < j < |last| ==> last[i] <= last[j])
    && forall i :: 0 <= i < |last| ==>
         last[i] < |vs| && vs[last[i]] in covers[i] && forall k :: last[i] < k < |vs| ==> vs[k] !in covers[i]
  }

  lemma TurnSkipped(covers: seq<BitSet>, vs: seq<nat>, last: seq<nat>) returns (shifted: seq<nat>)
    requires vs != [] && InTurn(covers, vs[1..], last)
    ensures InTurn(covers, vs, shifted) && forall i :: 0 <= i < |shifted| ==> shifted[i] > 0
  {
    shifted := seq(|last|, i requires 0 <= i < |last| => last[i] + 1);
    assert forall k :: 0 < k < |vs| ==> vs[k] == vs[1..][k - 1];
  }

  lemma TurnTaken(node: seq<BitSet>, rest: seq<BitSet>, vs: seq<nat>, later: seq<nat>) returns (last: seq<nat>)
    requires vs != [] && InTurn(rest, vs, later)
    requires forall s :: s in node ==> vs[0] in s && forall k :: 0 < k < |vs| ==> vs[k] !in s
    ensures InTurn(node + rest, vs, last)
  {
    last := seq(|node|, _ => 0) + later;
    assert forall i :: 0 <= i < |node| ==> node[i] in node;
  }

  /** The order of the loop shows in the covers: they come in the order of the last candidate they use. */
  lemma {:induction false} LoopOrder(x: Search, at: Cursor, cur: BitSet, cand: BitSet, vs: seq<nat>)
    returns (last: seq<nat>)
    requires NoDup(vs) && Elems(vs) !! cur && Elems(vs) !! cand
    ensures InTurn(LoopEmissions(x, at, cur, cand, vs).covers, vs, last)
    decreases |vs|
  {
    if vs == [] {
      last := [];
    } else {
      var v, rest := vs[0], vs[1..];
      assert vs[0..] == vs;
      TailElems(vs);
      LoopEmissionsStep(x, at, cur, cand, vs, 0);
      hide Emissions;
      hide LoopEmissions;
      hide InTurn;
      hide Violates;
      if Violates(x.g, cur, v) {
        last := LoopOrder(x, at, cur, cand, rest);
        last := TurnSkipped(LoopEmissions(x, at, cur, cand, rest).covers, vs, last);
      } else {
        var node := Emissions(x, at, cur + {v}, cand);
        last := LoopOrder(x, node.at, cur, cand + {v}, rest);
        var later := LoopEmissions(x, node.at, cur, cand + {v}, rest).covers;
        last := TurnSkipped(later, vs, last);
        EmissionsBetween(x, at, cur + {v}, cand);
        assert forall k :: 0 < k < |vs| ==> vs[k] in Elems(vs) && vs[k] != v;
        last := TurnTaken(node.covers, later, vs, last);
      }
    }
  }

  /** Every cover emitted below a node extends the partial cover by candidates. */
  lemma {:induction false} EmissionsBetween(x: Search, at: Cursor, cur: BitSet, cand: BitSet)
    ensures forall s :: s in Emissions(x, at, cur, cand).covers ==> cur <= s <= cur + cand
    decreases |cand|, |cand| + 1
  {
    if Uncov(x.g, cur) != {} && ChosenEdge(x, at, cur, cand) < |x.g.edges| {
      var c := cand * x.g.Edge(ChosenEdge(x, at, cur, cand));
      EmissionsNode(x, at, cur, cand);
      SplitCard(cand, c);
      NoDupCard(Bits(c));
      hide Emissions;
      hide LoopEmissions;
      LoopBetween(x, Chose(x, at, cur, cand), cur, cand - c, Bits(c));
    }
  }

  lemma {:induction false} LoopBetween(x: Search, at: Cursor, cur: BitSet, cand: BitSet, vs: seq<nat>)
    ensures forall s :: s in LoopEmissions(x, at, cur, cand, vs).covers ==> cur <= s <= cur + cand + Elems(vs)
    decreases |cand| + |vs|, |vs|
  {
    if vs != [] {
      var v, rest := vs[0], vs[1..];
      assert vs[0..] == vs && vs == [v] + rest;
      ElemsConcat([v], rest);
      assert v in Elems(vs);
      LoopEmissionsStep(x, at, cur, cand, vs, 0);
      hide Emissions;
      hide LoopEmissions;
      if Violates(x.g, cur, v) {
        LoopBetween(x, at, cur, cand, rest);
      } else {
        EmissionsBetween(x, at, cur + {v}, cand);
        LoopBetween(x, Emissions(x, at, cur + {v}, cand).at, cur, cand + {v}, rest);
      }
    }
  }

  class MMCS {
    const g: Graph
    // the numbers the generator comes up with
    const random: nat -> nat
    var mode: Method
    var cur: BitSet
    var uncov: BitSet
    var nextEdge: nat
    var drawn: nat
    var output: seq<BitSet>

    ghost function Setup(): Search
      reads `mode
    {
      Search(g, mode, random)
    }

    ghost function At(): Cursor
      reads `nextEdge, `drawn
    {
      Cursor(nextEdge, drawn)
    }

    constructor (g: Graph, random: nat -> nat)
      ensures this.g == g && this.random == random && mode == ORDER && drawn == 0 && output == []
    {
      this.g, this.random := g, random;
      mode, cur, uncov, nextEdge, drawn, output := ORDER, {}, {}, 0, 0, [];
    }

    method CommonInit()
      requires g.Valid()
      modifies `cur, `uncov
      ensures cur == {} && uncov == Uncov(g, {})
    {
      cur := {};
      uncov := AllEdges(g);
    }

    /** Every minimal hitting set is emitted, nothing else, and each once, in the order of the listing. */
    method RunAll() returns (ghost lost: multiset<BitSet>)
      requires g.Valid()
      modifies `cur, `uncov, `nextEdge, `drawn, `output
      ensures Delivers(old(output), output, lost, Solutions(g, Hitting, {}, g.vertices))
      ensures mode != PRIORITY ==> lost == multiset{}
      ensures Listing(output, At()) == Listing(old(output) + Emissions(Setup(), old(At()), {}, g.vertices).covers,
                                               Emissions(Setup(), old(At()), {}, g.vertices).at)
    {
      CommonInit();
      assert uncov == {} ==> Minimal(g, Hitting, {});
      lost := EmissionsDeliver(Setup(), At(), {}, g.vertices);
      DeliversShift(output, Emissions(Setup(), At(), {}, g.vertices).covers, lost, Solutions(g, Hitting, {}, g.vertices));
      hide Emissions;
      hide Delivers;
      RunAllFrom(g.vertices, [], []);
    }

    /** One node; partial cover and uncovered edges are handed back as they were. */
    method RunAllFrom(cand: BitSet, crit: seq<IntSet>, ghost chosen: seq<nat>)
      requires NodeState(g, cur, uncov, cand, chosen, crit)
      requires cur != {} ==> nextEdge < |g.edges|
      modifies `cur, `uncov, `nextEdge, `drawn, `output
      ensures cur == old(cur) && uncov == old(uncov) && (old(nextEdge) < |g.edges| ==> nextEdge < |g.edges|)
      ensures var l := Emissions(Setup(), old(At()), cur, cand); output == old(output) + l.covers && At() == l.at
      decreases |cand|, 4
    {
      if uncov == {} {
        EmissionsLeaf(Setup(), At(), cur, cand);
        output := output + [cur];
        return;
      }
      Branch(cand, crit, chosen);
    }

    /** A node with an uncovered edge. */
    method Branch(cand: BitSet, crit: seq<IntSet>, ghost chosen: seq<nat>)
      requires NodeState(g, cur, uncov, cand, chosen, crit) && uncov != {}
      requires cur != {} ==> nextEdge < |g.edges|
      modifies `cur, `uncov, `nextEdge, `drawn, `output
      ensures cur == old(cur) && uncov == old(uncov) && nextEdge < |g.edges|
      ensures var l := Emissions(Setup(), old(At()), cur, cand); output == old(output) + l.covers && At() == l.at
      decreases |cand|, 3
    {
      NodeShape(g, cur, uncov, cand, chosen, crit);
      hide NodeState;
      hide Emissions;
      hide LoopEmissions;
      hide LoopShape;
      hide Uncov;
      hide Graph.Valid;
      hide Bits;
      var candCopy, vs := TakeEdge(cand);
      VisitVertices(cand, candCopy, crit, vs, chosen);
    }

    /** Chooses an edge and takes its vertices out of the candidates. */
    method TakeEdge(cand: BitSet) returns (candCopy: BitSet, vs: seq<nat>)
      requires g.Valid() && uncov == Uncov(g, cur) && uncov != {} && cur !! cand && (cur != {} ==> nextEdge < |g.edges|)
      modifies `nextEdge, `drawn
      ensures LoopShape(cur, cand, candCopy, vs, 0) && nextEdge < |g.edges|
      ensures Emissions(Setup(), old(At()), cur, cand) == LoopEmissions(Setup(), At(), cur, candCopy, vs)
    {
      hide Emissions;
      hide LoopEmissions;
      hide LoopShape;
      hide ChosenEdge;
      hide Chose;
      hide Uncov;
      hide Graph.Valid;
      hide NoDup;
      hide Bits;
      ghost var x, at := Setup(), At();
      var e := ChooseEdge(cand);
      var c := Intersect(cand, g.edges[e]);
      candCopy, vs := cand - c, Bits(c);
      LoopStart(cur, cand, c);
      EmissionsOpen(x, at, cur, cand, e, c, At());
    }

    method ChooseEdge(cand: BitSet) returns (e: nat)
      requires g.Valid() && uncov == Uncov(g, cur) && uncov != {} && (cur != {} ==> nextEdge < |g.edges|)
      modifies `nextEdge, `drawn
      ensures e == ChosenEdge(Setup(), old(At()), cur, cand) && At() == Chose(Setup(), old(At()), cur, cand)
      ensures e < |g.edges| && nextEdge < |g.edges| && NoDup(g.edges[e])
      ensures e == EdgeChoice(g, mode, cur, uncov, cand, old(nextEdge), random(old(drawn)))
      ensures nextEdge == EdgeField(g, mode, cur, uncov, cand, old(nextEdge), random(old(drawn)))
      ensures drawn == old(drawn) + if mode == RANDOM || (cur == {} && mode != ORDER) then 1 else 0
    {
      hide EdgeChoice;
      hide EdgeField;
      hide Width;
      hide Bits;
      hide Least;
      assert forall w :: 0 <= w < |g.edges| ==> NoDup(g.edges[w]);
      hide Graph.Valid;
      hide NoDup;
      e, nextEdge := GetGoodEdgeToCover(g, mode, cur, uncov, cand, nextEdge, random(drawn));
      drawn := drawn + if DrawsEdge(mode, cur) then 1 else 0;
    }

    /** The loop over the candidates of the chosen edge, whose vertices have been taken out of `initial`. */
    method VisitVertices(ghost cand: BitSet, initial: BitSet, crit: seq<IntSet>, vs: seq<nat>, ghost chosen: seq<nat>)
      requires NodeState(g, cur, uncov, cand, chosen, crit) && LoopShape(cur, cand, initial, vs, 0)
      requires uncov != {} && nextEdge < |g.edges|
      modifies `cur, `uncov, `nextEdge, `drawn, `output
      ensures cur == old(cur) && uncov == old(uncov) && nextEdge < |g.edges|
      ensures var l := LoopEmissions(Setup(), old(At()), cur, initial, vs);
              output == old(output) + l.covers && At() == l.at
      decreases |cand|, 2
    {
      hide Emissions;
      hide LoopEmissions;
      hide LoopShape;
      hide NodeState;
      hide Graph.Valid;
      hide CritsMatch;
      hide Violates;
      hide Uncov;
      hide OnTheWay;
      hide Elems;
      hide NoDup;
      var candCopy := initial;
      assert vs[0..] == vs;
      ghost var x := Setup();
      ghost var all := LoopEmissions(x, At(), cur, initial, vs);
      WayStarts(output, all.covers);
      for i := 0 to |vs|
        invariant cur == old(cur) && uncov == old(uncov) && Setup() == x
        invariant NodeState(g, cur, uncov, cand, chosen, crit)
        invariant nextEdge < |g.edges| && LoopShape(cur, cand, candCopy, vs, i)
        invariant LoopEmissions(x, At(), cur, candCopy, vs[i..]).at == all.at
        invariant OnTheWay(old(output), output, LoopEmissions(x, At(), cur, candCopy, vs[i..]).covers, all.covers)
      {
        var v := vs[i];
        LoopTurn(cur, cand, candCopy, vs, i);
        LoopEmissionsStep(x, At(), cur, candCopy, vs, i);
        ghost var before, node := output, Emissions(x, At(), cur + {v}, candCopy);
        candCopy := TryVertex(cand, candCopy, crit, v, chosen);
        if !Violates(g, cur, v) {
          WayGoesOn(old(output), before, output, node.covers,
                    LoopEmissions(x, At(), cur, candCopy, vs[i + 1..]).covers, all.covers);
        }
      }
      LoopEmissionsDone(x, At(), cur, candCopy, vs);
      WayEnds(old(output), output, all.covers);
    }

    /** One turn: a vertex that violates nothing is searched below, and is a candidate again afterwards. */
    method TryVertex(ghost cand: BitSet, candCopy: BitSet, crit: seq<IntSet>, v: nat, ghost chosen: seq<nat>)
      returns (newCand: BitSet)
      requires NodeState(g, cur, uncov, cand, chosen, crit)
      requires v in cand && candCopy <= cand && v !in candCopy && v !in cur && nextEdge < |g.edges|
      modifies `cur, `uncov, `nextEdge, `drawn, `output
      ensures cur == old(cur) && uncov == old(uncov) && nextEdge < |g.edges|
      ensures Violates(g, cur, v) ==> newCand == candCopy && output == old(output) && At() == old(At())
      ensures !Violates(g, cur, v) ==> newCand == candCopy + {v}
      ensures !Violates(g, cur, v) ==>
                var l := Emissions(Setup(), old(At()), cur + {v}, candCopy);
                output == old(output) + l.covers && At() == l.at
      decreases |cand|, 1
    {
      NodeBasics(g, cur, uncov, cand, chosen, crit);
      hide NodeState;
      hide Emissions;
      hide Violates;
      hide CritsMatch;
      newCand := candCopy;
      var violates := VertexWouldViolate(g, cur, chosen, crit, v);
      if !violates {
        Descend(cand, candCopy, crit, v, chosen);
        newCand := candCopy + {v};
      }
    }

    /** The subtree of `v`: extend the partial cover, search, and undo the extension. */
    method Descend(ghost cand: BitSet, candCopy: BitSet, crit: seq<IntSet>, v: nat, ghost chosen: seq<nat>)
      requires NodeState(g, cur, uncov, cand, chosen, crit)
      requires v in cand && candCopy <= cand && v !in candCopy && v !in cur && nextEdge < |g.edges|
      modifies `cur, `uncov, `nextEdge, `drawn, `output
      ensures cur == old(cur) && uncov == old(uncov) && nextEdge < |g.edges|
      ensures var l := Emissions(Setup(), old(At()), cur + {v}, candCopy);
              output == old(output) + l.covers && At() == l.at
      decreases |cand|, 0
    {
      FlipTwice(cur, v);
      StrictSubsetCard(candCopy, cand, v);
      hide NodeState;
      hide Emissions;
      hide Uncov;
      hide Flip;
      var critClone;
      critClone, uncov := Extend(g, cur, uncov, cand, chosen, crit, v, candCopy);
      cur := Flip(cur, v);
      RunAllFrom(candCopy, critClone, chosen + [v]);
      cur := Flip(cur, v);
      uncov := RestoreCritAndUncov(critClone, uncov);
    }
  }
}
