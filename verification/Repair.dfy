/** The repair step of the randomised search (random_enum.cpp): a violating vertex is forced in, and the vertices it makes
    redundant are evicted while `crit`, the list of chosen vertices and the partial cover are kept in step. */
module Repair {
  import opened Collections
  import opened BitSets
  import opened IntSets
  import opened Hypergraphs
  import opened Covers
  import opened SearchSteps

  /** The invariant of the search: the list of chosen vertices, their critical edges and the uncovered edges all describe
      the partial cover, and every chosen vertex is still needed. */
  ghost predicate Sound(g: Graph, cur: BitSet, uncov: BitSet, curList: seq<nat>, crit: seq<IntSet>) {
    CritsMatch(g, cur, curList, crit) && uncov == Uncov(g, cur) && forall i :: 0 <= i < |crit| ==> crit[i] != []
  }

  // ---------- what the repair computes ----------

  /** Position of every chosen vertex; a later entry overwrites an earlier one. */
  function Indices(curList: seq<nat>): map<nat, nat> {
    if curList == [] then map[]
    else
      var n := |curList| - 1;
      Indices(curList[..n])[curList[n] := n]
  }

  /** Edge `e` of the evicted vertex `u` goes to the only other chosen vertex in it, if there is exactly one. */
  function HandedEdge(g: Graph, crit: seq<IntSet>, cur: BitSet, critMap: map<nat, nat>, u: nat, e: nat): (r: seq<IntSet>)
    requires e < |g.edges|
    ensures |r| == |crit|
  {
    var common := Bits(cur * g.Edge(e));
    if |common| != 2 then crit
    else
      var other := Another(common, u);
      var index := if other in critMap then critMap[other] else 0;
      if index < |crit| then crit[index := crit[index] + [e]] else crit
  }

  /** The same for all edges in `hits`, one after another. */
  function Handed(g: Graph, crit: seq<IntSet>, cur: BitSet, critMap: map<nat, nat>, u: nat,
                  hits: seq<nat>): (r: seq<IntSet>)
    ensures |r| == |crit|
  {
    if hits == [] then crit
    else
      var n := |hits| - 1;
      var before := Handed(g, crit, cur, critMap, u, hits[..n]);
      if hits[n] < |g.edges| then HandedEdge(g, before, cur, critMap, u, hits[n]) else before
  }

  /** `crit` and the partial cover after the first `i` vertices have been looked at. */
  function Evicted(g: Graph, curList: seq<nat>, crit: seq<IntSet>, cur: BitSet, i: nat): (r: (seq<IntSet>, BitSet))
    requires i <= |curList| == |crit|
    ensures |r.0| == |crit|
  {
    if i == 0 then (crit, cur)
    else
      var r := Evicted(g, curList, crit, cur, i - 1);
      var u := curList[i - 1];
      if r.0[i - 1] == [] then (Handed(g, r.0, r.1, Indices(curList), u, HittingList(g, u)), Flip(r.1, u)) else r
  }

  /** The first `n` vertices with critical edges, and these edges. */
  function Kept(curList: seq<nat>, crit: seq<IntSet>, n: nat): (seq<nat>, seq<IntSet>)
    requires n <= |curList| == |crit|
  {
    if n == 0 then ([], [])
    else
      var r := Kept(curList, crit, n - 1);
      if crit[n - 1] != [] then (r.0 + [curList[n - 1]], r.1 + [crit[n - 1]]) else r
  }

  datatype Chosen = Chosen(list: seq<nat>, crit: seq<IntSet>, cur: BitSet)

  /** The chosen vertices, their critical edges and the partial cover after `v` was forced in. */
  function Repaired(g: Graph, curList: seq<nat>, crit: seq<IntSet>, cur: BitSet, uncov: BitSet, v: nat): Chosen
    requires |crit| == |curList|
  {
    var list := curList + [v];
    var r := Evicted(g, list, UpdatedCrit(g, crit, uncov, v), Flip(cur, v), |curList|);
    var kept := Kept(list, r.0, |list|);
    Chosen(kept.0, kept.1, r.1)
  }

  // ---------- the loops ----------

  method IndexMap(curList: seq<nat>) returns (m: map<nat, nat>)
    ensures m == Indices(curList)
  {
    m := map[];
    for i := 0 to |curList|
      invariant m == Indices(curList[..i])
    {
      assert curList[..i + 1][..i] == curList[..i];
      m := m[curList[i] := i];
    }
    assert curList[..|curList|] == curList;
  }

  method HandEdge(g: Graph, crit: seq<IntSet>, cur: BitSet, critMap: map<nat, nat>, u: nat, e: nat)
    returns (newCrit: seq<IntSet>)
    requires g.Valid() && e < |g.edges| && crit != [] && forall x :: x in critMap ==> critMap[x] < |crit|
    ensures newCrit == HandedEdge(g, crit, cur, critMap, u, e)
  {
    newCrit := crit;
    var common := AndVector(cur, g.edges[e]);
    if |common| == 2 {
      var other := Another(common, u);
      // operator[] of the map answers 0 for an unknown vertex
      var index := if other in critMap then critMap[other] else 0;
      newCrit := newCrit[index := newCrit[index] + [e]];
    }
  }

  /** Hands the edges of the evicted vertex `u` to the vertices that now cover them alone. */
  method HandOver(g: Graph, crit: seq<IntSet>, cur: BitSet, critMap: map<nat, nat>, u: nat) returns (newCrit: seq<IntSet>)
    requires g.Valid() && crit != [] && forall x :: x in critMap ==> critMap[x] < |crit|
    ensures newCrit == Handed(g, crit, cur, critMap, u, HittingList(g, u))
  {
    var hits := HittingList(g, u);
    HittingListOf(g, u);
    hide HittingList;
    hide HandedEdge;
    hide Graph.Valid;
    newCrit := crit;
    for k := 0 to |hits|
      invariant newCrit == Handed(g, crit, cur, critMap, u, hits[..k])
    {
      assert hits[..k + 1][..k] == hits[..k];
      newCrit := HandEdge(g, newCrit, cur, critMap, u, hits[k]);
    }
    assert hits[..|hits|] == hits;
  }

  /** The eviction loop. The last vertex, the one just forced in, is never looked at. */
  method Evict(g: Graph, curList: seq<nat>, crit: seq<IntSet>, cur: BitSet) returns (newCrit: seq<IntSet>, newCur: BitSet)
    requires g.Valid() && |crit| == |curList| && curList != []
    ensures (newCrit, newCur) == Evicted(g, curList, crit, cur, |curList| - 1)
  {
    var critMap := IndexMap(curList);
    IndicesMeaning(curList);
    hide Handed;
    hide Indices;
    hide HittingList;
    newCrit, newCur := crit, cur;
    for i := 0 to |curList| - 1
      invariant |newCrit| == |crit| && (newCrit, newCur) == Evicted(g, curList, crit, cur, i)
    {
      if |newCrit[i]| == 0 {
        newCrit := HandOver(g, newCrit, newCur, critMap, curList[i]);
        newCur := Flip(newCur, curList[i]);
      }
    }
  }

  /** Keeps, in order, the vertices that still have critical edges, together with them. */
  method Compact(curList: seq<nat>, crit: seq<IntSet>) returns (newList: seq<nat>, newCrit: seq<IntSet>)
    requires |crit| == |curList|
    ensures (newList, newCrit) == Kept(curList, crit, |curList|)
  {
    newList, newCrit := [], [];
    for i := 0 to |curList|
      invariant (newList, newCrit) == Kept(curList, crit, i)
    {
      if |crit[i]| != 0 {
        newList, newCrit := newList + [curList[i]], newCrit + [crit[i]];
      }
    }
  }

  /** The whole repair. */
  method Force(g: Graph, curList: seq<nat>, crit: seq<IntSet>, cur: BitSet, uncov: BitSet, v: nat)
    returns (newList: seq<nat>, newCrit: seq<IntSet>, newCur: BitSet, newUncov: BitSet)
    requires g.Valid() && |crit| == |curList|
    ensures Chosen(newList, newCrit, newCur) == Repaired(g, curList, crit, cur, uncov, v)
    ensures newUncov == uncov - g.Hits(v)
  {
    hide Evicted;
    hide Kept;
    hide UpdatedCrit;
    newCrit, newUncov := UpdateCritAndUncov(g, crit, uncov, v);
    var list := curList + [v];
    newCrit, newCur := Evict(g, list, newCrit, Flip(cur, v));
    newList, newCrit := Compact(list, newCrit);
  }

  // ---------- evicting one vertex ----------

  /** Evicting a vertex without critical edges uncovers nothing. */
  lemma EvictUncov(g: Graph, cur: BitSet, u: nat)
    requires u in cur && Crit(g, cur, u) == {}
    ensures Uncov(g, cur - {u}) == Uncov(g, cur)
  {
    UncovDrop(g, cur, u);
  }

  /** Evicting `u` makes critical for `w` exactly the edges the two shared alone. */
  lemma EvictCrit(g: Graph, cur: BitSet, u: nat, w: nat)
    requires u in cur && w in cur && u != w && Crit(g, cur, u) == {}
    ensures forall e: nat :: e in Crit(g, cur - {u}, w)
              <==> e in Crit(g, cur, w) || (e < |g.edges| && g.Edge(e) * cur == {u, w})
  {
    CritMeaning(g, cur, u);
    CritMeaning(g, cur, w);
    CritMeaning(g, cur - {u}, w);
    forall e: nat | e < |g.edges|
      ensures g.Edge(e) * (cur - {u}) == {w} <==> g.Edge(e) * cur == {w} || g.Edge(e) * cur == {u, w}
    {
      assert g.Edge(e) * (cur - {u}) == g.Edge(e) * cur - {u};
    }
  }

  /** During the eviction loop, after the first `i` vertices: `cur` has lost exactly the earlier vertices whose critical
      edges ran out, and `crit` is exact for the vertices that are still there. */
  ghost predicate Evicting(g: Graph, full: BitSet, curList: seq<nat>, crit: seq<IntSet>, cur: BitSet, i: nat) {
    && |crit| == |curList| && NoDup(curList) && Elems(curList) == full
    && cur <= full && Uncov(g, cur) == Uncov(g, full)
    && (forall j :: 0 <= j < |crit| ==> (curList[j] in cur <==> !(j < i && crit[j] == [])))
    && (forall j :: 0 <= j < |crit| && curList[j] in cur ==> NoDup(crit[j]) && Elems(crit[j]) == Crit(g, cur, curList[j]))
  }

  /** While the edges of `u` are scanned: `crit[j]` has gained the scanned edges that `u` and `curList[j]` share alone. */
  ghost predicate Handing(g: Graph, curList: seq<nat>, crit: seq<IntSet>, newCrit: seq<IntSet>, cur: BitSet, i: nat,
                          scanned: seq<nat>) {
    && |newCrit| == |crit| == |curList| && i < |crit| && newCrit[i] == crit[i]
    && (forall j :: 0 <= j < |crit| && curList[j] in cur && j != i ==>
          NoDup(newCrit[j]) &&
          forall e: nat :: e in newCrit[j] <==>
            e in crit[j] || (e in scanned && e < |g.edges| && g.Edge(e) * cur == {curList[i], curList[j]}))
    && (forall j :: 0 <= j < |crit| && curList[j] !in cur ==> newCrit[j] == crit[j])
  }

  lemma HandingEdge(g: Graph, curList: seq<nat>, crit: seq<IntSet>, newCrit: seq<IntSet>, cur: BitSet,
                    critMap: map<nat, nat>, i: nat, hits: seq<nat>, k: nat, full: BitSet)
    requires g.Valid() && Evicting(g, full, curList, crit, cur, i) && i < |curList| && |newCrit| == |curList|
    requires hits == HittingList(g, curList[i]) && k < |hits| && hits[k] < |g.edges|
    requires critMap.Keys == Elems(curList) && forall x :: x in critMap ==> critMap[x] < |curList| && curList[critMap[x]] == x
    requires Handing(g, curList, crit, newCrit, cur, i, hits[..k])
    ensures Handing(g, curList, crit, HandedEdge(g, newCrit, cur, critMap, curList[i], hits[k]), cur, i, hits[..k + 1])
  {
    HittingListMeaning(g, curList[i]);
    HittingListOf(g, curList[i]);
    EvictingListed(g, full, curList, crit, cur, i);
    hide Evicting;
    hide Handing;
    hide HittingList;
    hide NoDup;
    hide Graph.Valid;
    hide Bits;
    hide Another;
    var common := Bits(cur * g.Edge(hits[k]));
    assert curList[i] in g.Edge(hits[k]);
    assert forall x :: x in critMap <==> x in curList;
    hide Elems;
    hide Graph.Edge;
    if |common| == 2 {
      var other := Another(common, curList[i]);
      var index := if other in critMap then critMap[other] else 0;
      assert HandedEdge(g, newCrit, cur, critMap, curList[i], hits[k]) == newCrit[index := newCrit[index] + [hits[k]]];
      assert other in curList ==> curList[index] == other;
      hide HandedEdge;
      HandOverShared(g, curList, crit, newCrit, cur, i, hits, k, full, common, index);
    } else {
      HandOverNothing(g, curList, crit, newCrit, cur, i, hits, k, full);
    }
  }

  lemma HandingStart(g: Graph, full: BitSet, curList: seq<nat>, crit: seq<IntSet>, cur: BitSet, i: nat)
    requires Evicting(g, full, curList, crit, cur, i) && i < |crit|
    ensures Handing(g, curList, crit, crit, cur, i, [])
  {
  }

  lemma NotPair(cur: BitSet, edge: set<nat>, a: nat, b: nat)
    requires a != b && |Bits(cur * edge)| != 2
    ensures edge * cur != {a, b}
  {
    NoDupCard(Bits(cur * edge));
    assert cur * edge == edge * cur;
  }

  lemma HandOverNothing(g: Graph, curList: seq<nat>, crit: seq<IntSet>, newCrit: seq<IntSet>, cur: BitSet, i: nat,
                        hits: seq<nat>, k: nat, full: BitSet)
    requires g.Valid() && Evicting(g, full, curList, crit, cur, i) && i < |curList|
    requires k < |hits| && hits[k] < |g.edges| && |Bits(cur * g.Edge(hits[k]))| != 2
    requires Handing(g, curList, crit, newCrit, cur, i, hits[..k])
    ensures Handing(g, curList, crit, newCrit, cur, i, hits[..k + 1])
  {
    hide Evicting;
    hide Handing;
    hide Graph.Valid;
    var e := hits[k];
    EvictingListed(g, full, curList, crit, cur, i);
    forall j | 0 <= j < |curList| && j != i
      ensures g.Edge(e) * cur != {curList[i], curList[j]}
    {
      NotPair(cur, g.Edge(e), curList[i], curList[j]);
    }
    hide NoDup;
    hide Bits;
    HandOverIdle(g, curList, crit, newCrit, cur, i, hits[..k], e);
    assert hits[..k + 1] == hits[..k] + [e];
  }

  lemma HandOverIdle(g: Graph, curList: seq<nat>, crit: seq<IntSet>, newCrit: seq<IntSet>, cur: BitSet, i: nat,
                     scanned: seq<nat>, e: nat)
    requires Handing(g, curList, crit, newCrit, cur, i, scanned) && e < |g.edges|
    requires forall j :: 0 <= j < |curList| && j != i ==> g.Edge(e) * cur != {curList[i], curList[j]}
    ensures Handing(g, curList, crit, newCrit, cur, i, scanned + [e])
  {
  }

  lemma TwoElems(s: seq<nat>, u: nat)
    requires NoDup(s) && |s| == 2 && u in s
    ensures Another(s, u) != u && Elems(s) == {u, Another(s, u)}
  {
    assert s == [s[0], s[1]];
  }

  lemma HandOverShared(g: Graph, curList: seq<nat>, crit: seq<IntSet>, newCrit: seq<IntSet>, cur: BitSet, i: nat,
                       hits: seq<nat>, k: nat, full: BitSet, common: seq<nat>, index: nat)
    requires g.Valid() && Evicting(g, full, curList, crit, cur, i) && i < |curList| && curList[i] in cur
    requires NoDup(hits) && k < |hits| && hits[k] < |g.edges| && curList[i] in g.Edge(hits[k])
    requires common == Bits(cur * g.Edge(hits[k])) && |common| == 2
    requires index < |curList| &&
             (Another(common, curList[i]) in curList ==> curList[index] == Another(common, curList[i]))
    requires Handing(g, curList, crit, newCrit, cur, i, hits[..k])
    ensures Handing(g, curList, crit, newCrit[index := newCrit[index] + [hits[k]]], cur, i, hits[..k + 1])
  {
    hide Evicting;
    hide Handing;
    hide NoDup;
    hide Graph.Valid;
    hide Bits;
    hide Elems;
    var e, u := hits[k], curList[i];
    EvictingListed(g, full, curList, crit, cur, i);
    SharedPair(cur, g.Edge(e), common, u);
    NotYetListed(g, full, curList, crit, newCrit, cur, i, hits, k, index);
    HandOverStep(g, curList, crit, newCrit, cur, i, hits[..k], e, index);
    assert hits[..k + 1] == hits[..k] + [e];
  }

  lemma EvictingListed(g: Graph, full: BitSet, curList: seq<nat>, crit: seq<IntSet>, cur: BitSet, i: nat)
    requires Evicting(g, full, curList, crit, cur, i)
    ensures NoDup(curList) && (i < |curList| ==> curList[i] in cur) && |crit| == |curList|
    ensures forall x :: x in cur ==> x in curList
  {
    assert forall x :: x in cur ==> x in Elems(curList);
  }

  lemma SharedPair(cur: BitSet, edge: set<nat>, common: seq<nat>, u: nat)
    requires common == Bits(cur * edge) && |common| == 2 && u in cur && u in edge
    ensures Another(common, u) != u && Another(common, u) in cur && edge * cur == {u, Another(common, u)}
  {
    assert u in Elems(common);
    TwoElems(common, u);
    assert edge * cur == Elems(common);
    assert Another(common, u) in Elems(common);
  }

  lemma NotYetListed(g: Graph, full: BitSet, curList: seq<nat>, crit: seq<IntSet>, newCrit: seq<IntSet>, cur: BitSet,
                     i: nat,
                     hits: seq<nat>, k: nat, index: nat)
    requires k < |hits| && Evicting(g, full, curList, crit, cur, i) &&
             Handing(g, curList, crit, newCrit, cur, i, hits[..k])
    requires NoDup(hits) && hits[k] < |g.edges| && i < |curList| && curList[i] in cur
    requires index < |curList| && index != i && curList[index] in cur && curList[i] in g.Edge(hits[k]) * cur
    ensures hits[k] !in newCrit[index]
  {
    CritMeaning(g, cur, curList[index]);
    assert curList[i] != curList[index];
    assert hits[k] !in Elems(crit[index]);
  }

  lemma HandOverStep(g: Graph, curList: seq<nat>, crit: seq<IntSet>, newCrit: seq<IntSet>, cur: BitSet, i: nat,
                     scanned: seq<nat>, e: nat, index: nat)
    requires Handing(g, curList, crit, newCrit, cur, i, scanned) && NoDup(curList)
    requires index < |curList| && index != i && curList[index] in cur && e < |g.edges| && e !in newCrit[index]
    requires g.Edge(e) * cur == {curList[i], curList[index]}
    ensures Handing(g, curList, crit, newCrit[index := newCrit[index] + [e]], cur, i, scanned + [e])
  {
    var u := curList[i];
    forall j | 0 <= j < |crit| && curList[j] in cur && j != i && j != index
      ensures g.Edge(e) * cur != {u, curList[j]}
    {
      assert curList[index] in {u, curList[index]};
      assert curList[index] !in {u, curList[j]};
    }
  }

  /** One turn of the eviction loop on a vertex whose critical edges ran out. */
  lemma EvictOne(g: Graph, full: BitSet, curList: seq<nat>, crit: seq<IntSet>, cur: BitSet, i: nat, newCrit: seq<IntSet>)
    requires g.Valid() && Evicting(g, full, curList, crit, cur, i) && i < |curList| && crit[i] == []
    requires Handing(g, curList, crit, newCrit, cur, i, HittingList(g, curList[i]))
    ensures curList[i] in cur && Evicting(g, full, curList, newCrit, cur - {curList[i]}, i + 1)
    ensures forall j :: 0 <= j < |crit| && crit[j] != [] ==> newCrit[j] != []
  {
    var u := curList[i];
    HittingListMeaning(g, u);
    EvictUncov(g, cur, u);
    forall j | 0 <= j < |crit| && curList[j] in cur && j != i
      ensures NoDup(newCrit[j]) && Elems(newCrit[j]) == Crit(g, cur - {u}, curList[j])
      ensures crit[j] != [] ==> newCrit[j] != []
    {
      EvictCrit(g, cur, u, curList[j]);
      forall e: nat
        ensures e in newCrit[j] <==> e in Crit(g, cur - {u}, curList[j])
      {
        SharedIsHit(g, cur, u, curList[j], e);
        assert e in crit[j] <==> e in Elems(crit[j]);
      }
      if crit[j] != [] {
        assert crit[j][0] in newCrit[j];
      }
    }
  }

  lemma SharedIsHit(g: Graph, cur: BitSet, u: nat, w: nat, e: nat)
    requires g.Valid()
    ensures e < |g.edges| && g.Edge(e) * cur == {u, w} ==> e in HittingList(g, u)
  {
    HittingListMeaning(g, u);
    if e < |g.edges| && g.Edge(e) * cur == {u, w} {
      assert u in g.Edge(e) * cur;
      assert e in Elems(HittingList(g, u));
    }
  }

  lemma EvictingSkip(g: Graph, full: BitSet, curList: seq<nat>, crit: seq<IntSet>, cur: BitSet, i: nat)
    requires Evicting(g, full, curList, crit, cur, i) && i < |crit| && crit[i] != []
    ensures Evicting(g, full, curList, crit, cur, i + 1)
  {
  }

  // ---------- the repair keeps the invariant ----------

  lemma {:induction false} IndicesMeaning(curList: seq<nat>)
    ensures Indices(curList).Keys == Elems(curList)
    ensures forall x :: x in Indices(curList) ==> Indices(curList)[x] < |curList| && curList[Indices(curList)[x]] == x
  {
    if curList != [] {
      var n := |curList| - 1;
      IndicesMeaning(curList[..n]);
      assert curList == curList[..n] + [curList[n]];
    }
  }

  lemma {:induction false} HandedMeaning(g: Graph, curList: seq<nat>, crit: seq<IntSet>, cur: BitSet, i: nat, k: nat,
                                         full: BitSet)
    requires g.Valid() && Evicting(g, full, curList, crit, cur, i) && i < |curList| && crit[i] == []
    requires k <= |HittingList(g, curList[i])|
    ensures var hits := HittingList(g, curList[i])[..k];
            Handing(g, curList, crit, Handed(g, crit, cur, Indices(curList), curList[i], hits), cur, i, hits)
  {
    if k == 0 {
      HandingStart(g, full, curList, crit, cur, i);
    } else {
      HandedMeaning(g, curList, crit, cur, i, k - 1, full);
      var hits := HittingList(g, curList[i]);
      HittingListOf(g, curList[i]);
      IndicesMeaning(curList);
      hide Evicting;
      hide Handing;
      hide HittingList;
      hide Indices;
      hide HandedEdge;
      hide Graph.Valid;
      assert hits[..k][..k - 1] == hits[..k - 1];
      HandingEdge(g, curList, crit, Handed(g, crit, cur, Indices(curList), curList[i], hits[..k - 1]), cur, Indices(curList),
                  i, hits, k - 1, full);
    }
  }

  /** After the first `i` vertices exactly those without critical edges are gone, nothing is uncovered, and the entries of
      the others are exact. */
  lemma {:induction false} EvictedMeaning(g: Graph, curList: seq<nat>, crit: seq<IntSet>, cur: BitSet, i: nat)
    requires g.Valid() && CritsMatch(g, cur, curList, crit) && curList != [] && crit[|crit| - 1] != [] && i < |curList|
    ensures var r := Evicted(g, curList, crit, cur, i);
            Evicting(g, cur, curList, r.0, r.1, i) && r.0[|crit| - 1] != []
  {
    if i == 0 {
      assert forall j :: 0 <= j < |crit| ==> curList[j] in Elems(curList);
    } else {
      EvictedMeaning(g, curList, crit, cur, i - 1);
      var r := Evicted(g, curList, crit, cur, i - 1);
      hide CritsMatch;
      if r.0[i - 1] == [] {
        EvictedStep(g, cur, curList, r.0, r.1, i - 1);
      } else {
        EvictingSkip(g, cur, curList, r.0, r.1, i - 1);
      }
    }
  }

  lemma EvictedStep(g: Graph, full: BitSet, curList: seq<nat>, crit: seq<IntSet>, cur: BitSet, i: nat)
    requires g.Valid() && Evicting(g, full, curList, crit, cur, i) && i < |curList| - 1 && |crit| == |curList| &&
             crit[i] == []
    requires crit[|crit| - 1] != []
    ensures var newCrit := Handed(g, crit, cur, Indices(curList), curList[i], HittingList(g, curList[i]));
            Evicting(g, full, curList, newCrit, Flip(cur, curList[i]), i + 1) && newCrit[|crit| - 1] != []
  {
    var hits := HittingList(g, curList[i]);
    HandedMeaning(g, curList, crit, cur, i, |hits|, full);
    hide Evicting;
    hide Handing;
    hide HittingList;
    assert hits[..|hits|] == hits;
    EvictOne(g, full, curList, crit, cur, i, Handed(g, crit, cur, Indices(curList), curList[i], hits));
  }

  /** The vertices with critical edges are kept, in their old order and with their entries; no others are. */
  lemma {:induction false} KeptMeaning(curList: seq<nat>, crit: seq<IntSet>, n: nat) returns (p: seq<nat>)
    requires n <= |curList| == |crit|
    ensures Ascends(p) && forall j: nat :: j in p <==> j < n && crit[j] != []
    ensures var r := Kept(curList, crit, n);
            |r.0| == |r.1| == |p| && forall k :: 0 <= k < |p| ==> p[k] < n && r.0[k] == curList[p[k]] && r.1[k] == crit[p[k]]
  {
    if n == 0 {
      p := [];
    } else {
      p := KeptMeaning(curList, crit, n - 1);
      assert forall k :: 0 <= k < |p| ==> p[k] in p;
      if crit[n - 1] != [] {
        p := p + [n - 1];
      }
    }
  }

  lemma KeptMatches(g: Graph, full: BitSet, curList: seq<nat>, crit: seq<IntSet>, cur: BitSet)
    requires Evicting(g, full, curList, crit, cur, |curList|)
    ensures var r := Kept(curList, crit, |curList|);
            CritsMatch(g, cur, r.0, r.1) && forall k :: 0 <= k < |r.1| ==> r.1[k] != []
  {
    var p := KeptMeaning(curList, crit, |curList|);
    var r := Kept(curList, crit, |curList|);
    hide Kept;
    forall k | 0 <= k < |r.1|
      ensures r.0[k] in cur && r.1[k] != [] && NoDup(r.1[k]) && Elems(r.1[k]) == Crit(g, cur, r.0[k])
    {
      assert p[k] in p;
    }
    forall x | x in cur
      ensures x in r.0
    {
      assert x in Elems(curList);
      var j :| 0 <= j < |curList| && curList[j] == x;
      assert j in p;
      var k :| 0 <= k < |p| && p[k] == j;
      assert r.0[k] == x;
    }
    assert forall i, k :: 0 <= i < k < |p| ==> curList[p[i]] != curList[p[k]];
  }

  /** On a sound state with an uncovered edge containing `v` the result is a sound state again: the list of chosen vertices
      lists the partial cover, every chosen vertex has its exact critical edges and at least one of them, and exactly the
      edges of `v` have been covered in addition. */
  lemma RepairedSound(g: Graph, curList: seq<nat>, crit: seq<IntSet>, cur: BitSet, uncov: BitSet, v: nat)
    requires g.Valid() && Sound(g, cur, uncov, curList, crit) && v !in cur && uncov * g.Hits(v) != {}
    ensures var r := Repaired(g, curList, crit, cur, uncov, v);
            Sound(g, r.cur, uncov - g.Hits(v), r.list, r.crit) && r.cur <= cur + {v} && v in r.cur
  {
    var list, mid := curList + [v], UpdatedCrit(g, crit, uncov, v);
    ForcedMatches(g, curList, crit, cur, uncov, v);
    UncovAdd(g, cur, v);
    EvictedMeaning(g, list, mid, cur + {v}, |curList|);
    var r := Evicted(g, list, mid, cur + {v}, |curList|);
    EvictingSkip(g, cur + {v}, list, r.0, r.1, |curList|);
    KeptMatches(g, cur + {v}, list, r.0, r.1);
    assert list[|curList|] == v;
  }

  lemma ForcedMatches(g: Graph, curList: seq<nat>, crit: seq<IntSet>, cur: BitSet, uncov: BitSet, v: nat)
    requires g.Valid() && Sound(g, cur, uncov, curList, crit) && v !in cur && uncov * g.Hits(v) != {}
    ensures var mid := UpdatedCrit(g, crit, uncov, v);
            CritsMatch(g, cur + {v}, curList + [v], mid) && mid[|crit|] != [] && |crit| == |curList|
  {
    var mid := UpdatedCrit(g, crit, uncov, v);
    forall i | 0 <= i < |crit|
      ensures Elems(mid[i]) == Elems(crit[i]) - g.Hits(v) && NoDup(mid[i])
    {
      TrimmedMeaning(crit, g.Hits(v), i);
    }
    CritsAdd(g, cur, curList, crit, v, mid);
    ElemsEmpty(mid[|crit|]);
  }

  // ---------- what holds of the repair on any state ----------

  lemma {:induction false} EvictedBounds(g: Graph, curList: seq<nat>, crit: seq<IntSet>, cur: BitSet, i: nat)
    requires i <= |curList| == |crit|
    ensures Evicted(g, curList, crit, cur, i).1 <= cur + Elems(curList)
  {
    if i > 0 {
      EvictedBounds(g, curList, crit, cur, i - 1);
      assert curList[i - 1] in Elems(curList);
    }
  }

  lemma {:induction false} KeptBounds(curList: seq<nat>, crit: seq<IntSet>, n: nat)
    requires n <= |curList| == |crit|
    ensures var r := Kept(curList, crit, n); |r.0| == |r.1| && Elems(r.0) <= Elems(curList)
  {
    if n > 0 {
      KeptBounds(curList, crit, n - 1);
      assert curList[n - 1] in Elems(curList);
    }
  }

  lemma RepairedBounds(g: Graph, curList: seq<nat>, crit: seq<IntSet>, cur: BitSet, uncov: BitSet, v: nat)
    requires |crit| == |curList|
    ensures var r := Repaired(g, curList, crit, cur, uncov, v);
            |r.crit| == |r.list| && r.cur <= cur + {v} + Elems(curList) && Elems(r.list) <= Elems(curList) + {v}
  {
    var list, mid := curList + [v], UpdatedCrit(g, crit, uncov, v);
    ElemsConcat(curList, [v]);
    assert Elems([v]) == {v};
    EvictedBounds(g, list, mid, Flip(cur, v), |curList|);
    KeptBounds(list, Evicted(g, list, mid, Flip(cur, v), |curList|).0, |list|);
  }
}
