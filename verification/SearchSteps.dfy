/** The steps every search shares: choosing an edge, testing criticality, and updating `crit` and `uncov`. */
module SearchSteps {
  import opened Collections
  import opened BitSets
  import opened IntSets
  import opened Hypergraphs
  import opened Covers

  datatype Method = ORDER | RANDOM | MIN | MAX | PRIORITY

  const INT_MAX: nat := 2147483647

  /** `crit[i]` lists exactly the edges that `chosen[i]` alone hits, and `chosen` lists `cur`. */
  ghost predicate CritsMatch(g: Graph, cur: BitSet, chosen: seq<nat>, crit: seq<IntSet>) {
    && NoDup(chosen) && Elems(chosen) == cur
    && |crit| == |chosen|
    && forall i :: 0 <= i < |crit| ==> NoDup(crit[i]) && Elems(crit[i]) == Crit(g, cur, chosen[i])
  }

  /** What a search node may assume about its state. */
  ghost predicate NodeState(g: Graph, cur: BitSet, uncov: BitSet, cand: BitSet, chosen: seq<nat>, crit: seq<IntSet>) {
    && g.Valid()
    && cand <= g.vertices && cur !! cand
    && uncov == Uncov(g, cur)
    && CritsMatch(g, cur, chosen, crit)
  }

  lemma RootState(g: Graph)
    requires g.Valid()
    ensures NodeState(g, {}, Uncov(g, {}), g.vertices, [], [])
  {
  }

  lemma NodeShape(g: Graph, cur: BitSet, uncov: BitSet, cand: BitSet, chosen: seq<nat>, crit: seq<IntSet>)
    requires NodeState(g, cur, uncov, cand, chosen, crit)
    ensures g.Valid() && cur !! cand && uncov == Uncov(g, cur)
  {
  }

  lemma NodeBasics(g: Graph, cur: BitSet, uncov: BitSet, cand: BitSet, chosen: seq<nat>, crit: seq<IntSet>)
    requires NodeState(g, cur, uncov, cand, chosen, crit)
    ensures g.Valid() && cur !! cand && uncov == Uncov(g, cur) && (forall w :: w in uncov ==> w < |g.edges|)
    ensures CritsMatch(g, cur, chosen, crit)
    ensures forall e :: 0 <= e < |g.edges| ==> NoDup(g.edges[e])
  {
  }

  /** The bit set of all edge ids: what an empty partial cover leaves uncovered. */
  method AllEdges(g: Graph) returns (uncov: BitSet)
    ensures uncov == Uncov(g, {})
  {
    uncov := {};
    for i := 0 to |g.edges|
      invariant forall e :: e in uncov <==> 0 <= e < i
    {
      uncov := uncov + {i};
    }
  }

  // ---------- criticality ----------

  method VertexWouldViolate(g: Graph, ghost cur: BitSet, ghost chosen: seq<nat>, crit: seq<IntSet>, v: nat)
    returns (violates: bool)
    requires g.Valid()
    ensures violates <==> exists i :: 0 <= i < |crit| && Elems(crit[i]) <= g.Hits(v)
    ensures CritsMatch(g, cur, chosen, crit) ==> (violates <==> Violates(g, cur, v))
  {
    if CritsMatch(g, cur, chosen, crit) {
      ViolatesFromCrits(g, cur, chosen, crit, v);
    }
    var hitting := HittingList(g, v);
    HittingListMeaning(g, v);
    for i := 0 to |crit|
      invariant forall j :: 0 <= j < i ==> !(Elems(crit[j]) <= g.Hits(v))
    {
      var left := AndNot(crit[i], hitting);
      ElemsEmpty(left);
      DifferenceEmpty(Elems(crit[i]), g.Hits(v));
      if left == [] {
        return true;
      }
    }
    return false;
  }

  lemma ViolatesFromCrits(g: Graph, cur: BitSet, chosen: seq<nat>, crit: seq<IntSet>, v: nat)
    requires CritsMatch(g, cur, chosen, crit)
    ensures Violates(g, cur, v) <==> exists i :: 0 <= i < |crit| && Elems(crit[i]) <= g.Hits(v)
  {
    if Violates(g, cur, v) {
      var u :| u in cur && Crit(g, cur, u) <= g.Hits(v);
      var i :| 0 <= i < |chosen| && chosen[i] == u;
      assert Elems(crit[i]) <= g.Hits(v);
    }
    if i :| 0 <= i < |crit| && Elems(crit[i]) <= g.Hits(v) {
      assert chosen[i] in cur;
    }
  }

  /** Every entry without the edges in `s`. */
  function Trimmed(crit: seq<IntSet>, s: set<nat>): (r: seq<IntSet>)
    ensures |r| == |crit|
  {
    if crit == [] then []
    else
      var n := |crit| - 1;
      Trimmed(crit[..n], s) + [Without(crit[n], s)]
  }

  lemma {:induction false} TrimmedMeaning(crit: seq<IntSet>, s: set<nat>, i: nat)
    requires i < |crit|
    ensures Elems(Trimmed(crit, s)[i]) == Elems(crit[i]) - s
    ensures NoDup(crit[i]) ==> NoDup(Trimmed(crit, s)[i])
    decreases |crit|
  {
    var n := |crit| - 1;
    if i < n {
      TrimmedMeaning(crit[..n], s, i);
    } else {
      WithoutMeaning(crit[i], s);
    }
  }

  /** The critical edges after `v` joined. */
  function UpdatedCrit(g: Graph, crit: seq<IntSet>, uncov: BitSet, v: nat): (r: seq<IntSet>)
    ensures |r| == |crit| + 1
  {
    Trimmed(crit, g.Hits(v)) + [Bits(uncov * g.Hits(v))]
  }

  method UpdateCritAndUncov(g: Graph, crit: seq<IntSet>, uncov: BitSet, v: nat)
    returns (newCrit: seq<IntSet>, newUncov: BitSet)
    requires g.Valid()
    ensures newUncov == uncov - g.Hits(v)
    ensures newCrit == UpdatedCrit(g, crit, uncov, v) && |newCrit| == |crit| + 1
    ensures forall i :: 0 <= i < |crit| ==> Elems(newCrit[i]) == Elems(crit[i]) - g.Hits(v)
    ensures forall i :: 0 <= i < |crit| && NoDup(crit[i]) ==> NoDup(newCrit[i])
    ensures newCrit[|crit|] == Bits(uncov * g.Hits(v))
  {
    var hitting := HittingList(g, v);
    HittingListMeaning(g, v);
    hide Trimmed;
    hide Graph.Valid;
    hide Graph.Hits;
    hide Bits;
    hide Elems;
    hide NoDup;
    newCrit := Trim(crit, hitting);
    forall i | 0 <= i < |crit|
      ensures Elems(newCrit[i]) == Elems(crit[i]) - g.Hits(v) && (NoDup(crit[i]) ==> NoDup(newCrit[i]))
    {
      TrimmedMeaning(crit, g.Hits(v), i);
    }
    var mine := AndVector(uncov, hitting);
    newCrit := newCrit + [mine];
    newUncov := Clear(uncov, hitting);
  }

  method Trim(crit: seq<IntSet>, hitting: IntSet) returns (newCrit: seq<IntSet>)
    ensures newCrit == Trimmed(crit, Elems(hitting))
  {
    hide Elems;
    hide Without;
    newCrit := [];
    for i := 0 to |crit|
      invariant newCrit == Trimmed(crit[..i], Elems(hitting))
    {
      var left := AndNot(crit[i], hitting);
      assert crit[..i + 1][..i] == crit[..i];
      newCrit := newCrit + [left];
    }
    assert crit[..|crit|] == crit;
  }

  method RestoreCritAndUncov(crit: seq<IntSet>, uncov: BitSet) returns (newUncov: BitSet)
    requires crit != []
    ensures newUncov == uncov + Elems(crit[|crit| - 1])
  {
    newUncov := OrInto(uncov, crit[|crit| - 1]);
  }

  /** The update keeps `crit` exact when a new vertex joins. */
  lemma CritsAdd(g: Graph, cur: BitSet, chosen: seq<nat>, crit: seq<IntSet>, v: nat, newCrit: seq<IntSet>)
    requires CritsMatch(g, cur, chosen, crit) && v !in cur
    requires |newCrit| == |crit| + 1
    requires forall i :: 0 <= i < |crit| ==> NoDup(newCrit[i]) && Elems(newCrit[i]) == Elems(crit[i]) - g.Hits(v)
    requires newCrit[|crit|] == Bits(Uncov(g, cur) * g.Hits(v))
    ensures CritsMatch(g, cur + {v}, chosen + [v], newCrit)
  {
    ElemsConcat(chosen, [v]);
    assert Elems([v]) == {v};
    assert forall i :: 0 <= i < |chosen| ==> chosen[i] in Elems(chosen);
    CritNew(g, cur, v);
    forall i | 0 <= i < |crit|
      ensures Elems(newCrit[i]) == Crit(g, cur + {v}, chosen[i])
    {
      CritAdd(g, cur, v, chosen[i]);
    }
  }

  /** Descending into `v` yields a proper node state again, and keeps what is needed to come back. */
  method Extend(g: Graph, cur: BitSet, uncov: BitSet, ghost cand: BitSet, ghost chosen: seq<nat>, crit: seq<IntSet>,
                v: nat, ghost newCand: BitSet)
    returns (newCrit: seq<IntSet>, newUncov: BitSet)
    requires NodeState(g, cur, uncov, cand, chosen, crit)
    requires v in cand && newCand <= cand && v !in newCand
    ensures NodeState(g, cur + {v}, newUncov, newCand, chosen + [v], newCrit)
    ensures newUncov == Uncov(g, cur + {v}) == uncov - g.Hits(v)
    ensures newCrit != [] && newUncov + Elems(newCrit[|newCrit| - 1]) == uncov
  {
    newCrit, newUncov := UpdateCritAndUncov(g, crit, uncov, v);
    UncovAdd(g, cur, v);
    CritsAdd(g, cur, chosen, crit, v, newCrit);
  }

  // ---------- edge choice ----------

  /** How many candidates an edge has. */
  function Width(g: Graph, cand: BitSet, e: nat): nat
    requires e < |g.edges|
  {
    |cand * g.Edge(e)|
  }

  lemma WidthZero(g: Graph, cand: BitSet, edges: BitSet)
    requires forall w :: w in edges ==> w < |g.edges| && Width(g, cand, w) == 0
    ensures forall w :: w in edges ==> cand !! g.Edge(w)
  {
    forall w | w in edges
      ensures cand !! g.Edge(w)
    {
      assert |cand * g.Edge(w)| == 0;
      assert forall x :: x in cand && x in g.Edge(w) ==> x in cand * g.Edge(w);
    }
  }

  lemma WidthBound(g: Graph, cand: BitSet, e: nat)
    requires g.Valid() && e < |g.edges|
    ensures Width(g, cand, e) <= MAXBIT
  {
    BoundedCard(cand * g.Edge(e), MAXBIT);
  }

  /** The eligible edges of least width, or of greatest width if that is positive. */
  ghost function Extreme(g: Graph, least: bool, eligible: BitSet, cand: BitSet): set<nat> {
    set e | e in eligible && e < |g.edges| && (least || Width(g, cand, e) > 0)
            && forall w :: w in eligible && w < |g.edges| ==>
                 if least then Width(g, cand, e) <= Width(g, cand, w) else Width(g, cand, w) <= Width(g, cand, e)
  }

  lemma {:induction false} ExtremeExists(g: Graph, least: bool, edges: BitSet, cand: BitSet, e: nat) returns (best: nat)
    requires e in edges && forall w :: w in edges ==> w < |g.edges|
    ensures best in edges && forall w :: w in edges ==>
              if least then Width(g, cand, best) <= Width(g, cand, w) else Width(g, cand, w) <= Width(g, cand, best)
  {
    best := e;
    if other :| other in edges && other != e {
      best := ExtremeExists(g, least, edges - {e}, cand, other);
      if if least then Width(g, cand, e) < Width(g, cand, best) else Width(g, cand, best) < Width(g, cand, e) {
        best := e;
      }
    }
  }

  /** No edge is extreme only if the widest are wanted and no edge has a candidate. */
  lemma NoExtreme(g: Graph, least: bool, edges: BitSet, cand: BitSet, w: nat)
    requires (forall e :: e in edges ==> e < |g.edges|) && Extreme(g, least, edges, cand) == {} && w in edges
    ensures !least && Width(g, cand, w) == 0
  {
    var best := ExtremeExists(g, least, edges, cand, w);
    assert best !in Extreme(g, least, edges, cand);
  }

  /** Scan of the MIN and MAX modes over the eligible edges: the first of the extreme ones; `last` is what the field holds
      when nothing beats the start value. */
  method BestEdge(g: Graph, least: bool, eligible: BitSet, cand: BitSet, last: nat) returns (found: bool, e: nat)
    requires g.Valid() && forall w :: w in eligible ==> w < |g.edges|
    ensures found <==> Extreme(g, least, eligible, cand) != {}
    ensures found ==> e == Least(Extreme(g, least, eligible, cand))
    ensures found ==> e in eligible
    ensures !found ==> e == last && forall w :: w in eligible ==> !least && Width(g, cand, w) == 0
    ensures found && least ==> forall w :: w in eligible ==>
              Width(g, cand, e) <= Width(g, cand, w) && (w < e ==> Width(g, cand, e) < Width(g, cand, w))
    ensures found && !least ==> Width(g, cand, e) > 0 && forall w :: w in eligible ==>
              Width(g, cand, w) <= Width(g, cand, e) && (w < e ==> Width(g, cand, w) < Width(g, cand, e))
  {
    found, e := false, last;
    var temp := if least then INT_MAX else 0;
    var w := NextSetBit(eligible, -1);
    while w != -1
      invariant w == -1 || (w >= 0 && w in eligible)
      invariant found ==> e in eligible && temp == Width(g, cand, e) && (w == -1 || e < w) && (!least ==> temp > 0)
      invariant forall x :: found && x in eligible && x < e ==>
        if least then temp < Width(g, cand, x) else Width(g, cand, x) < temp
      invariant !found ==> e == last && temp == if least then INT_MAX else 0
      invariant forall x :: x in eligible && (w == -1 || x < w) ==>
        if least then found && temp <= Width(g, cand, x) else Width(g, cand, x) <= temp
      decreases if w == -1 then 0 else |g.edges| - w
    {
      var both := Intersect(cand, g.edges[w]);
      WidthBound(g, cand, w);
      if least && |both| < temp {
        e, temp, found := w, |both|, true;
      } else if !least && |both| > temp {
        e, temp, found := w, |both|, true;
      }
      w := NextSetBit(eligible, w);
    }
    if found {
      assert e in Extreme(g, least, eligible, cand);
    }
  }

  /** The modes and states in which the edge is drawn at random. */
  predicate DrawsEdge(mode: Method, cur: BitSet) {
    mode == RANDOM || (cur == {} && mode != ORDER)
  }

  /** What the field `next_edge_` holds after the choice: the edge itself, or its position among the uncovered edges after a
      random draw. */
  ghost function EdgeField(g: Graph, mode: Method, cur: BitSet, uncov: BitSet, cand: BitSet, nextEdge: nat, draw: nat): nat
    requires uncov != {}
  {
    if mode == ORDER then Least(uncov)
    else if DrawsEdge(mode, cur) then (ElemsEmpty(Bits(uncov)); draw % |Bits(uncov)|)
    else if mode == PRIORITY || Extreme(g, mode == MIN, uncov, cand) == {} then nextEdge
    else Least(Extreme(g, mode == MIN, uncov, cand))
  }

  /** The edge chosen by the exact searches. */
  ghost function EdgeChoice(g: Graph, mode: Method, cur: BitSet, uncov: BitSet, cand: BitSet, nextEdge: nat,
                            draw: nat): nat
    requires uncov != {}
  {
    var field := EdgeField(g, mode, cur, uncov, cand, nextEdge, draw);
    if DrawsEdge(mode, cur) then (ElemsEmpty(Bits(uncov)); Bits(uncov)[field]) else field
  }

  /** Except in mode PRIORITY the edge is uncovered, or no uncovered edge has a candidate. */
  lemma EdgeChoiceMeaning(g: Graph, mode: Method, cur: BitSet, uncov: BitSet, cand: BitSet, nextEdge: nat, draw: nat)
    requires g.Valid() && uncov != {} && forall w :: w in uncov ==> w < |g.edges|
    requires cur != {} ==> nextEdge < |g.edges|
    ensures EdgeChoice(g, mode, cur, uncov, cand, nextEdge, draw) < |g.edges|
    ensures EdgeField(g, mode, cur, uncov, cand, nextEdge, draw) < |g.edges|
    ensures mode != PRIORITY ==> EdgeChoice(g, mode, cur, uncov, cand, nextEdge, draw) in uncov
                                 || forall w :: w in uncov ==> cand !! g.Edge(w)
  {
    if DrawsEdge(mode, cur) {
      var bits := Bits(uncov);
      ElemsEmpty(bits);
      NoDupCard(bits);
      BoundedCard(uncov, |g.edges|);
      assert bits[draw % |bits|] in Elems(bits);
    } else if mode == MIN || mode == MAX {
      if Extreme(g, mode == MIN, uncov, cand) == {} {
        forall w | w in uncov
          ensures Width(g, cand, w) == 0
        {
          NoExtreme(g, mode == MIN, uncov, cand, w);
        }
        WidthZero(g, cand, uncov);
      }
    }
  }

  /** Edge choice of the exact searches; `draw` is the number drawn in case one is needed. The field `nextEdge` keeps an old
      value when MAX finds no candidate anywhere. */
  method GetGoodEdgeToCover(g: Graph, mode: Method, cur: BitSet, uncov: BitSet, cand: BitSet, nextEdge: nat, draw: nat)
    returns (e: nat, newNextEdge: nat)
    requires g.Valid() && uncov != {} && forall w :: w in uncov ==> w < |g.edges|
    requires cur != {} ==> nextEdge < |g.edges|
    ensures e == EdgeChoice(g, mode, cur, uncov, cand, nextEdge, draw)
    ensures newNextEdge == EdgeField(g, mode, cur, uncov, cand, nextEdge, draw)
    ensures e < |g.edges| && newNextEdge < |g.edges|
    ensures mode == ORDER ==> e == Least(uncov)
    ensures mode == RANDOM || (cur == {} && mode != ORDER) ==>
              |Bits(uncov)| == |uncov| > 0 && newNextEdge == draw % |uncov| && e == Bits(uncov)[newNextEdge] && e in uncov
    ensures cur != {} && mode != RANDOM ==> newNextEdge == e && (mode == PRIORITY ==> e == nextEdge)
    ensures mode == MIN && cur != {} ==> e in uncov && forall w :: w in uncov ==>
              Width(g, cand, e) <= Width(g, cand, w) && (w < e ==> Width(g, cand, e) < Width(g, cand, w))
    ensures mode == MAX && cur != {} && (forall w :: w in uncov ==> Width(g, cand, w) == 0) ==> e == nextEdge
    ensures mode == MAX && cur != {} && (exists w :: w in uncov && Width(g, cand, w) > 0) ==>
              e in uncov && forall w :: w in uncov ==>
                Width(g, cand, w) <= Width(g, cand, e) && (w < e ==> Width(g, cand, w) < Width(g, cand, e))
    ensures mode != PRIORITY ==> e in uncov || forall w :: w in uncov ==> cand !! g.Edge(w)
  {
    hide Width;
    if mode == ORDER {
      newNextEdge := NextSetBit(uncov, -1);
      e := newNextEdge;
    } else if mode == RANDOM || cur == {} {
      var uncovEdges := Bits(uncov);
      NoDupCard(uncovEdges);
      BoundedCard(uncov, |g.edges|);
      ElemsEmpty(uncovEdges);
      newNextEdge := draw % |uncovEdges|;
      e := uncovEdges[newNextEdge];
      assert e in Elems(uncovEdges);
    } else if mode == PRIORITY {
      newNextEdge := nextEdge;
      e := newNextEdge;
    } else {
      var found;
      found, newNextEdge := BestEdge(g, mode == MIN, uncov, cand, nextEdge);
      e := newNextEdge;
      if !found {
        WidthZero(g, cand, uncov);
      }
    }
  }

  /** The edges the approximate searches pick the first one of: all uncovered ones that may still be hit, or the extreme ones
      among them; none in mode PRIORITY. */
  ghost function Eligible(g: Graph, mode: Method, uncov: BitSet, canHit: BitSet, cand: BitSet): (r: set<nat>)
    ensures r <= uncov * canHit
  {
    if mode == ORDER || mode == RANDOM then uncov * canHit
    else if mode == PRIORITY then {}
    else Extreme(g, mode == MIN, uncov * canHit, cand)
  }

  /** The first uncovered edge that may still be hit. */
  method FirstHittable(uncov: BitSet, canHit: BitSet) returns (found: bool, e: nat)
    ensures found <==> uncov * canHit != {}
    ensures found ==> e == Least(uncov * canHit)
  {
    var edges := Bits(uncov);
    assert forall w :: w in uncov ==> w in Elems(edges);
    for i := 0 to |edges|
      invariant forall j :: 0 <= j < i ==> edges[j] !in canHit
    {
      assert edges[i] in Elems(edges);
      if edges[i] in canHit {
        forall w | w in uncov * canHit
          ensures edges[i] <= w
        {
          var j :| 0 <= j < |edges| && edges[j] == w;
        }
        assert edges[i] in uncov * canHit;
        return true, edges[i];
      }
    }
    return false, 0;
  }

  /** Edge choice of the approximate searches: only uncovered edges that may still be hit are eligible. */
  method GetHittableEdge(g: Graph, mode: Method, uncov: BitSet, canHit: BitSet, cand: BitSet, nextEdge: nat)
    returns (found: bool, newNextEdge: nat)
    requires g.Valid() && forall w :: w in uncov ==> w < |g.edges|
    ensures found <==> Eligible(g, mode, uncov, canHit, cand) != {}
    ensures found ==> newNextEdge == Least(Eligible(g, mode, uncov, canHit, cand))
    ensures found ==> newNextEdge in uncov * canHit && mode != PRIORITY
    ensures (mode == ORDER || mode == RANDOM) ==>
      (found <==> uncov * canHit != {}) && (found ==> newNextEdge == Least(uncov * canHit))
    ensures mode == MIN ==>
      (found <==> uncov * canHit != {}) &&
      (found ==> forall w :: w in uncov * canHit ==>
                   Width(g, cand, newNextEdge) <= Width(g, cand, w) &&
                   (w < newNextEdge ==> Width(g, cand, newNextEdge) < Width(g, cand, w)))
    ensures mode == MAX && found ==> Width(g, cand, newNextEdge) > 0
    ensures mode == MAX && found ==> forall w :: w in uncov * canHit ==>
              Width(g, cand, w) <= Width(g, cand, newNextEdge) &&
              (w < newNextEdge ==> Width(g, cand, w) < Width(g, cand, newNextEdge))
    ensures !found && mode != PRIORITY ==> forall w :: w in uncov * canHit ==> cand !! g.Edge(w)
    ensures !found ==> newNextEdge == nextEdge
  {
    if mode == ORDER || mode == RANDOM {
      var e;
      found, e := FirstHittable(uncov, canHit);
      newNextEdge := if found then e else nextEdge;
    } else if mode == PRIORITY {
      return false, nextEdge;
    } else {
      found, newNextEdge := BestEdge(g, mode == MIN, uncov * canHit, cand, nextEdge);
      if !found {
        WidthZero(g, cand, uncov * canHit);
      }
    }
  }
}
