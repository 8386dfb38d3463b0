/** What the randomised search does, for every state it can be in and all numbers that can be drawn. */
module RandomSoundness {
  import opened Collections
  import opened BitSets
  import opened IntSets
  import opened Hypergraphs
  import opened Covers
  import opened SearchSteps
  import opened Loops
  import opened Repair
  import opened RandomSteps
  import opened Anchors

  // ---------- the covers recorded ----------

  ghost predicate Gained(g: Graph, before: BitSet, after: BitSet) {
    exists s: BitSet :: Minimal(g, Hitting, s) && after == before + s
  }

  /** Entry `k` of a list that grows on demand. */
  function Entry(list: seq<BitSet>, k: nat): BitSet {
    if k < |list| then list[k] else {}
  }

  /** Entries `from` to `to` each gained a minimal cover of `g`; the others did not change. */
  ghost predicate Recorded(g: Graph, before: seq<BitSet>, after: seq<BitSet>, from: nat, to: nat) {
    && from <= to <= |after| && |before| <= |after| && (|after| == |before| || |after| <= to)
    && forall k: nat :: k < |after| ==>
         if from <= k < to then Gained(g, Entry(before, k), after[k]) else after[k] == Entry(before, k)
  }

  lemma RecordedNothing(g: Graph, list: seq<BitSet>, at: nat)
    requires at <= |list|
    ensures Recorded(g, list, list, at, at)
  {
  }

  lemma RecordedOne(g: Graph, before: seq<BitSet>, at: nat, s: BitSet)
    requires at <= |before| && Minimal(g, Hitting, s)
    ensures Recorded(g, before, Put(before, at, s), at, at + 1)
    ensures |Put(before, at, s)| == if at < |before| then |before| else at + 1
  {
    var after := Put(before, at, s);
    assert {} + s == s;
    assert Gained(g, Entry(before, at), after[at]);
  }

  lemma RecordedThen(g: Graph, a: seq<BitSet>, b: seq<BitSet>, c: seq<BitSet>, from: nat, mid: nat, to: nat)
    requires Recorded(g, a, b, from, mid) && Recorded(g, b, c, mid, to)
    ensures Recorded(g, a, c, from, to)
  {
    hide Gained;
    forall k: nat | k < |c|
      ensures if from <= k < to then Gained(g, Entry(a, k), c[k]) else c[k] == Entry(a, k)
    {
      if k < |b| {
        assert b[k] == Entry(b, k);
      }
    }
  }

  /** One past the last recorded entry: the automatic variant leaves it to its caller to count the entry. */
  function Mark(x: Settings, s: Snapshot): nat {
    if x.autoInc && s.stopFlag then s.coverIndex + 1 else s.coverIndex
  }

  predicate Counting(x: Settings, s: Snapshot) {
    if x.autoInc then Mark(x, s) <= |s.vcList|
    else s.coverIndex <= x.required == |s.vcList| && (!s.stopFlag ==> s.coverIndex < x.required)
  }

  /** What any part of the search does: covers found on the way are recorded, and unless the search stops, partial cover,
      uncovered edges and chosen vertices are handed back as they were. */
  ghost predicate Advances(x: Settings, s: Snapshot, t: Snapshot) {
    && Counting(x, t) && (x.autoInc ==> t.coverIndex == s.coverIndex)
    && (s.nextEdge < |x.g.edges| ==> t.nextEdge < |x.g.edges|)
    && (!t.stopFlag ==> t.cur == s.cur && t.uncov == s.uncov && t.curList == s.curList)
    && Recorded(x.g, s.vcList, t.vcList, Mark(x, s), Mark(x, t))
    && (s.stopFlag ==> t.stopFlag && t.vcList == s.vcList && t.coverIndex == s.coverIndex)
  }

  /** With a fixed number of covers: the entries between the two cover indices gained a minimal cover each, and nothing else
      changed in the list. */
  lemma AdvancesMeaning(x: Settings, s: Snapshot, t: Snapshot, k: nat) returns (c: BitSet)
    requires Advances(x, s, t) && !x.autoInc && |s.vcList| == x.required && k < x.required
    ensures |t.vcList| == x.required && s.coverIndex <= t.coverIndex <= x.required
    ensures s.coverIndex <= k < t.coverIndex ==> Minimal(x.g, Hitting, c) && t.vcList[k] == s.vcList[k] + c
    ensures k < s.coverIndex || k >= t.coverIndex ==> t.vcList[k] == s.vcList[k]
    ensures !t.stopFlag ==> t.cur == s.cur && t.uncov == s.uncov && t.curList == s.curList
  {
    hide Minimal;
    c := {};
    if s.coverIndex <= k < t.coverIndex {
      assert Gained(x.g, Entry(s.vcList, k), t.vcList[k]);
      c :| Minimal(x.g, Hitting, c) && t.vcList[k] == Entry(s.vcList, k) + c;
    }
  }

  /** In the automatic variant only the entry under construction changes, and it does exactly when the search stops. */
  lemma AdvancesAutomatic(x: Settings, s: Snapshot, t: Snapshot)
    requires Counting(x, s) && Advances(x, s, t) && x.autoInc && !s.stopFlag
    ensures t.coverIndex == s.coverIndex && forall k: nat :: k != s.coverIndex ==> Entry(t.vcList, k) == Entry(s.vcList, k)
    ensures !t.stopFlag ==> t.vcList == s.vcList && t.cur == s.cur && t.uncov == s.uncov && t.curList == s.curList
    ensures t.stopFlag ==>
              s.coverIndex < |t.vcList| &&
              exists c: BitSet :: Minimal(x.g, Hitting, c) && t.vcList[s.coverIndex] == Entry(s.vcList, s.coverIndex) + c
  {
    hide Minimal;
    if t.stopFlag {
      assert Gained(x.g, Entry(s.vcList, s.coverIndex), t.vcList[s.coverIndex]);
    }
  }

  /** Edge choice, draws and back-jumps only. */
  ghost predicate Bookkeeping(x: Settings, s: Snapshot, t: Snapshot) {
    && t == s.(nextEdge := t.nextEdge, drawn := t.drawn, backSteps := t.backSteps)
    && (s.nextEdge < |x.g.edges| ==> t.nextEdge < |x.g.edges|)
  }

  lemma BookkeepingAdvances(x: Settings, s: Snapshot, t: Snapshot)
    requires Counting(x, s) && Bookkeeping(x, s, t) && Mark(x, s) <= |s.vcList|
    ensures Advances(x, s, t)
  {
    RecordedNothing(x.g, s.vcList, Mark(x, s));
  }

  lemma AdvancesThen(x: Settings, a: Snapshot, b: Snapshot, c: Snapshot)
    requires Advances(x, a, b) && Advances(x, b, c)
    ensures Advances(x, a, c) && Mark(x, a) <= Mark(x, b) <= Mark(x, c)
  {
    hide Recorded;
    RecordedMarks(x.g, a.vcList, b.vcList, Mark(x, a), Mark(x, b));
    RecordedMarks(x.g, b.vcList, c.vcList, Mark(x, b), Mark(x, c));
    RecordedThen(x.g, a.vcList, b.vcList, c.vcList, Mark(x, a), Mark(x, b), Mark(x, c));
  }

  lemma RecordedMarks(g: Graph, before: seq<BitSet>, after: seq<BitSet>, from: nat, to: nat)
    requires Recorded(g, before, after, from, to)
    ensures from <= to <= |after|
  {
  }

  lemma CountingMark(x: Settings, s: Snapshot)
    requires Counting(x, s)
    ensures Mark(x, s) <= |s.vcList|
  {
  }

  lemma LeafAdvances(x: Settings, s: Snapshot)
    requires Counting(x, s) && !s.stopFlag && Minimal(x.g, Hitting, s.cur)
    ensures Advances(x, s, Leaf(x, s)) && Mark(x, Leaf(x, s)) > Mark(x, s)
  {
    hide Minimal;
    RecordedOne(x.g, s.vcList, s.coverIndex, s.cur);
  }

  // ---------- the state of a node ----------

  /** Some uncovered edge has run out of candidates, so nothing below this node is ever recorded. MAX mode reaches such
      nodes with an edge left over from earlier, and then the list of chosen vertices may drift from the partial cover. */
  ghost predicate Doomed(g: Graph, uncov: BitSet, cand: BitSet) {
    exists w: nat :: w in uncov && w < |g.edges| && g.Edge(w) !! cand
  }

  ghost predicate Shape(g: Graph, s: Snapshot, cand: BitSet, crit: seq<IntSet>) {
    && g.Valid() && cand <= g.vertices && cand !! s.cur && cand !! Elems(s.curList)
    && |crit| == |s.curList| && (forall w :: w in s.uncov ==> w < |g.edges|)
  }

  /** `healthy` says which of the two holds. */
  ghost predicate Ready(g: Graph, s: Snapshot, cand: BitSet, crit: seq<IntSet>, healthy: bool) {
    && Shape(g, s, cand, crit)
    && if healthy then Sound(g, s.cur, s.uncov, s.curList, crit) else Doomed(g, s.uncov, cand)
  }

  /** The circumstances under which a node cannot come back empty-handed. */
  ghost predicate Finds(x: Settings, s: Snapshot, cand: BitSet, healthy: bool) {
    healthy && !s.stopFlag && s.backSteps == 0 && AnchoredNode(x.g, x.mode, s.cur, s.uncov, cand)
  }

  lemma ReadyRoot(x: Settings, s: Snapshot)
    requires x.g.Valid()
    ensures Ready(x.g, Started(x.g, s), x.g.vertices, [], true)
    ensures Anchored(x.g, x.mode) && !s.stopFlag ==> Finds(x, Started(x.g, s), x.g.vertices, true)
  {
    if Anchored(x.g, x.mode) {
      RootAnchored(x.g, x.mode);
    }
  }

  lemma ReadyBasics(g: Graph, s: Snapshot, cand: BitSet, crit: seq<IntSet>, healthy: bool)
    requires Ready(g, s, cand, crit, healthy)
    ensures g.Valid() && s.cur !! cand && |crit| == |s.curList| && (forall w :: w in s.uncov ==> w < |g.edges|)
    ensures forall e :: 0 <= e < |g.edges| ==> NoDup(g.edges[e])
    ensures s.uncov == {} ==> Sound(g, s.cur, s.uncov, s.curList, crit)
    ensures healthy ==> CritsMatch(g, s.cur, s.curList, crit)
  {
  }

  /** The partial cover of a sound leaf is a minimal cover. */
  lemma SoundLeaf(g: Graph, cur: BitSet, uncov: BitSet, curList: seq<nat>, crit: seq<IntSet>)
    requires Sound(g, cur, uncov, curList, crit) && uncov == {}
    ensures Minimal(g, Hitting, cur)
  {
    forall u | u in cur
      ensures Uncov(g, cur - {u}) != {}
    {
      assert u in Elems(curList);
      var i :| 0 <= i < |curList| && curList[i] == u;
      assert crit[i][0] in Elems(crit[i]);
    }
  }

  /** The chosen edge is uncovered, or the node is doomed. */
  lemma ChoiceReady(x: Settings, s: Snapshot, cand: BitSet, crit: seq<IntSet>, healthy: bool, e: nat)
    returns (open: bool)
    requires Ready(x.g, s, cand, crit, healthy) && s.uncov != {}
    requires e in s.uncov || forall w :: w in s.uncov ==> cand !! x.g.Edge(w)
    ensures open == (healthy && e in s.uncov) && Ready(x.g, s, cand, crit, open)
    ensures Finds(x, s, cand, healthy) ==> Finds(x, s, cand, open)
  {
    open := healthy && e in s.uncov;
    var w := Least(s.uncov);
    if Finds(x, s, cand, healthy) {
      var v := AnchorPasses(x.g, x.mode, s.cur, s.uncov, s.curList, crit, cand, w);
      assert v in cand * x.g.Edge(w);
    } else if healthy && !open {
      assert w in s.uncov && x.g.Edge(w) !! cand;
    }
  }

  lemma DoomedBelow(g: Graph, uncov: BitSet, cand: BitSet, v: nat, candCopy: BitSet)
    requires Doomed(g, uncov, cand) && v in cand && candCopy <= cand
    ensures Doomed(g, uncov - g.Hits(v), candCopy)
  {
    var w: nat :| w in uncov && w < |g.edges| && g.Edge(w) !! cand;
    assert w in uncov - g.Hits(v);
  }

  lemma UpdatedElems(g: Graph, crit: seq<IntSet>, uncov: BitSet, v: nat)
    ensures var r := UpdatedCrit(g, crit, uncov, v);
            && (forall i :: 0 <= i < |crit| ==> Elems(r[i]) == Elems(crit[i]) - g.Hits(v) && (NoDup(crit[i]) ==> NoDup(r[i])))
            && r[|crit|] == Bits(uncov * g.Hits(v))
  {
    forall i | 0 <= i < |crit|
      ensures Elems(UpdatedCrit(g, crit, uncov, v)[i]) == Elems(crit[i]) - g.Hits(v)
      ensures NoDup(crit[i]) ==> NoDup(UpdatedCrit(g, crit, uncov, v)[i])
    {
      TrimmedMeaning(crit, g.Hits(v), i);
    }
  }

  /** A vertex that passes the criticality test keeps the state sound. */
  lemma SoundBelow(g: Graph, cur: BitSet, uncov: BitSet, curList: seq<nat>, crit: seq<IntSet>, v: nat)
    requires g.Valid() && Sound(g, cur, uncov, curList, crit) && v !in cur && !Violates(g, cur, v) &&
             uncov * g.Hits(v) != {}
    ensures Sound(g, cur + {v}, uncov - g.Hits(v), curList + [v], UpdatedCrit(g, crit, uncov, v))
  {
    var newCrit := UpdatedCrit(g, crit, uncov, v);
    UpdatedElems(g, crit, uncov, v);
    UncovAdd(g, cur, v);
    CritsAdd(g, cur, curList, crit, v, newCrit);
    forall i | 0 <= i < |newCrit|
      ensures newCrit[i] != []
    {
      ElemsEmpty(newCrit[i]);
      if i < |crit| {
        assert curList[i] in Elems(curList);
        DifferenceEmpty(Elems(crit[i]), g.Hits(v));
      }
    }
  }

  /** Below a vertex that violates nothing. */
  lemma ReadyBelow(x: Settings, s: Snapshot, cand: BitSet, crit: seq<IntSet>, open: bool, v: nat, e: nat,
                   candCopy: BitSet)
    requires Ready(x.g, s, cand, crit, open) && e < |x.g.edges| && v in x.g.Edge(e)
    requires open ==> e in s.uncov && !Violates(x.g, s.cur, v)
    requires v in cand && v !in s.cur && candCopy <= cand && v !in candCopy
    ensures Ready(x.g, Below(x.g, s, v), candCopy, UpdatedCrit(x.g, crit, s.uncov, v), open)
    ensures Finds(x, s, cand, open) && cand - x.g.Edge(e) <= candCopy && FirstInOrder(x.mode, s.uncov, e)
            ==> Finds(x, Below(x.g, s, v), candCopy, open)
  {
    ElemsConcat(s.curList, [v]);
    assert Elems([v]) == {v};
    if open {
      assert e in s.uncov * x.g.Hits(v);
      SoundBelow(x.g, s.cur, s.uncov, s.curList, crit, v);
      if Finds(x, s, cand, open) && cand - x.g.Edge(e) <= candCopy && FirstInOrder(x.mode, s.uncov, e) {
        AnchoredBelow(x.g, x.mode, s.cur, s.uncov, cand, e, v, candCopy);
      }
    } else {
      DoomedBelow(x.g, s.uncov, cand, v, candCopy);
    }
  }

  /** Below a vertex that was forced in. */
  lemma ReadyForced(g: Graph, s: Snapshot, cand: BitSet, crit: seq<IntSet>, open: bool, v: nat, e: nat, candCopy: BitSet)
    requires Ready(g, s, cand, crit, open) && e < |g.edges| && v in g.Edge(e) && (open ==> e in s.uncov)
    requires v in cand && v !in s.cur && candCopy <= cand && v !in candCopy && |crit| == |s.curList|
    ensures Ready(g, Forced(g, s, crit, v), candCopy, Repaired(g, s.curList, crit, s.cur, s.uncov, v).crit, open)
  {
    hide Repaired;
    RepairedBounds(g, s.curList, crit, s.cur, s.uncov, v);
    if open {
      assert e in s.uncov * g.Hits(v);
      RepairedSound(g, s.curList, crit, s.cur, s.uncov, v);
    } else {
      DoomedBelow(g, s.uncov, cand, v, candCopy);
    }
  }

  /** What the search below `v` may rely on, and that it leaves the list of chosen vertices to pop from. */
  lemma BelowReady(x: Settings, s: Snapshot, cand: BitSet, crit: seq<IntSet>, open: bool, v: nat, e: nat, candCopy: BitSet)
    requires x.mode != PRIORITY && Ready(x.g, s, cand, crit, open) && Counting(x, s) && !s.stopFlag
    requires s.nextEdge < |x.g.edges| && e < |x.g.edges| && (open ==> e in s.uncov && !Violates(x.g, s.cur, v))
    requires v in cand && v in x.g.Edge(e) && v !in s.cur && candCopy <= cand && v !in candCopy
    ensures var below, newCrit := Below(x.g, s, v), UpdatedCrit(x.g, crit, s.uncov, v);
            var t := Searched(x, below, candCopy, newCrit);
            && x.g.Valid() && Ready(x.g, below, candCopy, newCrit, open) && Counting(x, below)
            && below.nextEdge == s.nextEdge && (!t.stopFlag ==> t.curList == s.curList + [v])
  {
    hide Searched;
    hide UpdatedCrit;
    ReadyBelow(x, s, cand, crit, open, v, e, candCopy);
    SearchedAdvances(x, Below(x.g, s, v), candCopy, UpdatedCrit(x.g, crit, s.uncov, v), open);
  }

  lemma ForcedReady(x: Settings, s: Snapshot, cand: BitSet, crit: seq<IntSet>, open: bool, v: nat, e: nat,
                    candCopy: BitSet)
    requires Ready(x.g, s, cand, crit, open) && Counting(x, s)
    requires e < |x.g.edges| && v in x.g.Edge(e) && (open ==> e in s.uncov)
    requires v in cand && v !in s.cur && candCopy <= cand && v !in candCopy
    ensures x.g.Valid() && |crit| == |s.curList|
    ensures Ready(x.g, Forced(x.g, s, crit, v), candCopy, Repaired(x.g, s.curList, crit, s.cur, s.uncov, v).crit, open)
    ensures Counting(x, Forced(x.g, s, crit, v)) && Forced(x.g, s, crit, v).nextEdge == s.nextEdge
  {
    hide Repaired;
    ReadyBasics(x.g, s, cand, crit, open);
    ReadyForced(x.g, s, cand, crit, open, v, e, candCopy);
  }

  lemma UndoneAdvances(x: Settings, s: Snapshot, crit: seq<IntSet>, v: nat, t: Snapshot)
    requires v !in s.cur && !s.stopFlag && Advances(x, Below(x.g, s, v), t)
    ensures Advances(x, s, Undone(t, v, UpdatedCrit(x.g, crit, s.uncov, v)))
    ensures Mark(x, Undone(t, v, UpdatedCrit(x.g, crit, s.uncov, v))) == Mark(x, t)
  {
    hide Recorded;
    var newCrit := UpdatedCrit(x.g, crit, s.uncov, v);
    assert Elems(newCrit[|newCrit| - 1]) == s.uncov * x.g.Hits(v);
    hide UpdatedCrit;
    hide Elems;
    hide Graph.Hits;
    assert (s.uncov - x.g.Hits(v)) + s.uncov * x.g.Hits(v) == s.uncov;
    assert Flip(Flip(s.cur, v), v) == s.cur && (s.curList + [v])[..|s.curList|] == s.curList;
  }

  lemma RestoredAdvances(x: Settings, s: Snapshot, crit: seq<IntSet>, v: nat, t: Snapshot)
    requires !s.stopFlag && Counting(x, s) && |crit| == |s.curList|
    requires Advances(x, Forced(x.g, s, crit, v), t)
    ensures Advances(x, s, Restored(x, s, t))
  {
    hide Recorded;
    hide Repaired;
  }

  // ---------- the candidates of the chosen edge ----------

  /** One of the first `i` candidates violates nothing. */
  ghost predicate SomePasses(g: Graph, cur: BitSet, messed: seq<nat>, i: nat) {
    exists j :: 0 <= j < i && j < |messed| && !Violates(g, cur, messed[j])
  }

  lemma NonePassesYet(g: Graph, cur: BitSet, messed: seq<nat>)
    ensures !SomePasses(g, cur, messed, 0)
  {
  }

  lemma SomePassesStep(g: Graph, cur: BitSet, messed: seq<nat>, i: nat)
    requires i < |messed|
    ensures SomePasses(g, cur, messed, i + 1) <==> SomePasses(g, cur, messed, i) || !Violates(g, cur, messed[i])
  {
    hide Violates;
    if SomePasses(g, cur, messed, i) || !Violates(g, cur, messed[i]) {
      var j :| 0 <= j <= i && !Violates(g, cur, messed[j]);
      assert j < i + 1;
    }
  }

  lemma Swapped(before: seq<nat>, after: seq<nat>, i: nat, j: nat)
    requires i < |before| && j < |before| && after == before[i := before[j]][j := before[i]] && NoDup(before)
    ensures NoDup(after) && Elems(after) == Elems(before)
  {
    forall x | x in before
      ensures x in after
    {
      var k :| 0 <= k < |before| && before[k] == x;
      assert after[if k == i then j else if k == j then i else k] == x;
    }
  }

  /** A shuffle loses and repeats nothing. */
  lemma {:induction false} ShuffledMeaning(random: nat -> nat, drawn: nat, bits: seq<nat>)
    requires NoDup(bits)
    ensures NoDup(Shuffled(random, drawn, bits)) && Elems(Shuffled(random, drawn, bits)) == Elems(bits)
  {
    if bits != [] {
      var k := |bits| - 1;
      ShuffledMeaning(random, drawn, bits[..k]);
      var init := Shuffled(random, drawn, bits[..k]);
      var r := init + [bits[k]];
      var id := random(drawn + k) % |r|;
      assert Shuffled(random, drawn, bits) == r[id := r[k]][k := r[id]];
      hide Shuffled;
      assert bits == bits[..k] + [bits[k]];
      Appended(bits[..k], init, bits[k]);
      hide NoDup;
      hide Elems;
      Swapped(r, r[id := r[k]][k := r[id]], id, k);
    }
  }

  lemma Appended(a: seq<nat>, b: seq<nat>, v: nat)
    requires NoDup(a + [v]) && NoDup(b) && Elems(b) == Elems(a)
    ensures NoDup(b + [v]) && Elems(b + [v]) == Elems(a + [v])
  {
    ElemsConcat(a, [v]);
    ElemsConcat(b, [v]);
    forall i | 0 <= i < |a|
      ensures a[i] != v
    {
      assert (a + [v])[i] == a[i] && (a + [v])[|a|] == v;
    }
    assert v !in Elems(b);
    assert forall i :: 0 <= i < |b| ==> b[i] in Elems(b);
  }

  /** In mode ORDER the chosen edge is the first uncovered one. */
  predicate FirstInOrder(mode: Method, uncov: BitSet, e: nat) {
    mode == ORDER ==> forall w :: w in uncov ==> e <= w
  }

  /** The candidates `vs` of the chosen edge, in any order, taken out of `cand`. */
  ghost predicate Candidates(x: Settings, s: Snapshot, cand: BitSet, candCopy: BitSet, vs: seq<nat>, e: nat) {
    && e < |x.g.edges| && NoDup(vs) && Elems(vs) == cand * x.g.Edge(e) && candCopy == cand - x.g.Edge(e) && cand !! s.cur
    && FirstInOrder(x.mode, s.uncov, e)
  }

  lemma CandidatesLoop(x: Settings, s: Snapshot, cand: BitSet, candCopy: BitSet, vs: seq<nat>, e: nat)
    requires Candidates(x, s, cand, candCopy, vs, e)
    ensures e < |x.g.edges| && LoopShape(s.cur, cand, candCopy, vs, 0) && candCopy <= cand
    ensures FirstInOrder(x.mode, s.uncov, e)
    ensures forall i :: 0 <= i < |vs| ==> vs[i] in cand && vs[i] !in candCopy && vs[i] !in s.cur && vs[i] in x.g.Edge(e)
  {
    assert vs[0..] == vs;
    assert forall i :: 0 <= i < |vs| ==> vs[i] in Elems(vs);
  }

  /** The anchor of the chosen edge is one of the candidates that violate nothing. */
  lemma AnchorVisited(x: Settings, s: Snapshot, cand: BitSet, crit: seq<IntSet>, candCopy: BitSet, vs: seq<nat>, e: nat)
    requires Ready(x.g, s, cand, crit, true) && Finds(x, s, cand, true) && e in s.uncov &&
             Candidates(x, s, cand, candCopy, vs, e)
    ensures SomePasses(x.g, s.cur, vs, |vs|)
  {
    var v := AnchorPasses(x.g, x.mode, s.cur, s.uncov, s.curList, crit, cand, e);
    assert v in Elems(vs);
  }

  // ---------- the whole search ----------

  /** One node: it advances; and if every edge that is still uncovered has an anchor among the candidates, it finds a cover. */
  lemma {:induction false} SearchedAdvances(x: Settings, s: Snapshot, cand: BitSet, crit: seq<IntSet>, healthy: bool)
    requires x.mode != PRIORITY && Ready(x.g, s, cand, crit, healthy) && Counting(x, s)
    requires s.cur != {} ==> s.nextEdge < |x.g.edges|
    ensures Advances(x, s, Searched(x, s, cand, crit))
    ensures Finds(x, s, cand, healthy) ==> Mark(x, Searched(x, s, cand, crit)) > Mark(x, s)
    decreases |cand|, 4, 0
  {
    ReadyBasics(x.g, s, cand, crit, healthy);
    CountingMark(x, s);
    hide Ready;
    hide Recorded;
    hide Advances;
    hide Branched;
    hide Minimal;
    hide Leaf;
    hide Sound;
    if s.stopFlag {
      BookkeepingAdvances(x, s, s);
    } else if s.uncov == {} {
      SoundLeaf(x.g, s.cur, s.uncov, s.curList, crit);
      LeafAdvances(x, s);
    } else {
      OpenAdvances(x, s, cand, crit, healthy);
    }
  }

  lemma {:induction false} OpenAdvances(x: Settings, s: Snapshot, cand: BitSet, crit: seq<IntSet>, healthy: bool)
    requires x.mode != PRIORITY && Ready(x.g, s, cand, crit, healthy) && Counting(x, s)
    requires s.cur != {} ==> s.nextEdge < |x.g.edges|
    requires !s.stopFlag && s.uncov != {}
    ensures Advances(x, s, Searched(x, s, cand, crit))
    ensures Finds(x, s, cand, healthy) ==> Mark(x, Searched(x, s, cand, crit)) > Mark(x, s)
    decreases |cand|, 3, 0
  {
    ReadyBasics(x.g, s, cand, crit, healthy);
    ChoiceOpens(x, s, cand);
    CountingMark(x, s);
    var e, t := ChosenEdge(x, s, cand), Opened(x, s, cand);
    var vs := Shuffled(x.random, t.drawn, Bits(cand * x.g.Edge(e)));
    var u := t.(drawn := t.drawn + |vs|);
    BookkeepingAdvances(x, s, u);
    hide Searched;
    hide Branched;
    hide Ready;
    hide Advances;
    hide Finds;
    hide Opened;
    var candCopy := cand - x.g.Edge(e);
    var open := OpenReady(x, s, cand, crit, healthy, e, t, candCopy, vs, u);
    BranchedAdvances(x, u, cand, candCopy, crit, vs, e, open);
    AdvancesThen(x, s, u, Branched(x, |cand|, u, candCopy, crit, vs));
  }

  /** Once the edge is chosen and its candidates are shuffled the loops can start. */
  lemma OpenReady(x: Settings, s: Snapshot, cand: BitSet, crit: seq<IntSet>, healthy: bool, e: nat, t: Snapshot,
                  candCopy: BitSet, vs: seq<nat>, u: Snapshot)
    returns (open: bool)
    requires x.mode != PRIORITY && Ready(x.g, s, cand, crit, healthy) && Counting(x, s)
    requires s.cur != {} ==> s.nextEdge < |x.g.edges|
    requires !s.stopFlag && s.uncov != {}
    requires e == ChosenEdge(x, s, cand) && e < |x.g.edges| && t == Opened(x, s, cand)
    requires vs == Shuffled(x.random, t.drawn, Bits(cand * x.g.Edge(e))) && candCopy == cand - x.g.Edge(e)
    requires u == t.(drawn := t.drawn + |vs|)
    ensures Ready(x.g, u, cand, crit, open) && Counting(x, u) && u.nextEdge < |x.g.edges| && !u.stopFlag
    ensures Candidates(x, u, cand, candCopy, vs, e) && (open ==> e in u.uncov)
    ensures Finds(x, s, cand, healthy) ==> Finds(x, u, cand, open)
    ensures Searched(x, s, cand, crit) == Branched(x, |cand|, u, candCopy, crit, vs)
  {
    ReadyBasics(x.g, s, cand, crit, healthy);
    ChoiceOpens(x, s, cand);
    ShuffledMeaning(x.random, t.drawn, Bits(cand * x.g.Edge(e)));
    SearchedBranches(x, s, cand, crit, e, t, candCopy, vs, u);
    hide Searched;
    hide Branched;
    hide Ready;
    hide Finds;
    open := ChoiceReady(x, s, cand, crit, healthy, e);
    ReadyAfter(x, s, u, cand, crit, open);
  }

  /** What the choice of an edge guarantees. */
  lemma ChoiceOpens(x: Settings, s: Snapshot, cand: BitSet)
    requires x.mode != PRIORITY && x.g.Valid() && s.uncov != {} && (forall w :: w in s.uncov ==> w < |x.g.edges|)
    requires s.cur != {} ==> s.nextEdge < |x.g.edges|
    ensures ChosenEdge(x, s, cand) < |x.g.edges| && Opened(x, s, cand).nextEdge < |x.g.edges|
    ensures ChosenEdge(x, s, cand) in s.uncov || forall w :: w in s.uncov ==> cand !! x.g.Edge(w)
    ensures FirstInOrder(x.mode, s.uncov, ChosenEdge(x, s, cand))
  {
    EdgeChoiceMeaning(x.g, x.mode, s.cur, s.uncov, cand, s.nextEdge, x.random(s.drawn));
  }

  /** Readiness does not depend on the bookkeeping. */
  lemma ReadyAfter(x: Settings, s: Snapshot, t: Snapshot, cand: BitSet, crit: seq<IntSet>, open: bool)
    requires Ready(x.g, s, cand, crit, open)
    requires t.cur == s.cur && t.uncov == s.uncov && t.curList == s.curList
    ensures Ready(x.g, t, cand, crit, open)
    ensures t.stopFlag == s.stopFlag && t.backSteps == s.backSteps
            ==> Finds(x, t, cand, open) == Finds(x, s, cand, open)
  {
  }

  lemma {:induction false} BranchedAdvances(x: Settings, s: Snapshot, cand: BitSet, candCopy: BitSet, crit: seq<IntSet>,
                                            vs: seq<nat>, e: nat, open: bool)
    requires x.mode != PRIORITY && Ready(x.g, s, cand, crit, open) && Counting(x, s) && !s.stopFlag
    requires s.nextEdge < |x.g.edges| && Candidates(x, s, cand, candCopy, vs, e) && (open ==> e in s.uncov)
    ensures Advances(x, s, Branched(x, |cand|, s, candCopy, crit, vs))
    ensures Finds(x, s, cand, open) ==> Mark(x, Branched(x, |cand|, s, candCopy, crit, vs)) > Mark(x, s)
    decreases |cand|, 2, 0
  {
    hide Tries;
    hide Forces;
    hide Ready;
    hide Recorded;
    hide SomePasses;
    var n, t := |cand|, Tries(x, |cand|, s, candCopy, crit, vs);
    assert vs[..|vs|] == vs;
    TriesAdvance(x, s, cand, candCopy, crit, vs, |vs|, e, open);
    if Finds(x, s, cand, open) {
      AnchorVisited(x, s, cand, crit, candCopy, vs, e);
    }
    if !t.over {
      var u := t.s;
      if !t.visited {
        u := Forces(x, n, t.s, t.cand, crit, vs);
        ReadyAfter(x, s, t.s, cand, crit, open);
        ForcesAdvance(x, t.s, cand, candCopy, crit, vs, |vs|, e, open);
        AdvancesThen(x, s, t.s, u);
      }
      if !u.stopFlag {
        var w := u.(backSteps := if u.backSteps == 0 then 0 else u.backSteps - 1);
        CountingMark(x, u);
        BookkeepingAdvances(x, u, w);
        AdvancesThen(x, s, u, w);
      }
    }
  }

  /** The first loop after `i` candidates. */
  ghost predicate TriedSoFar(x: Settings, s: Snapshot, cand: BitSet, candCopy: BitSet, vs: seq<nat>, i: nat,
                             open: bool, t: Tried) {
    && Advances(x, s, t.s)
    && (if t.over then t.s.stopFlag || t.s.backSteps != 0
        else !t.s.stopFlag && LoopShape(s.cur, cand, t.cand, vs, i) && candCopy <= t.cand)
    && (!t.visited ==> t.cand == candCopy)
    && (open && !t.over ==> (t.visited <==> SomePasses(x.g, s.cur, vs, i)))
    && (Finds(x, s, cand, open) ==> Mark(x, t.s) > Mark(x, s) || (!t.visited && !t.over && t.s.backSteps == 0))
  }

  lemma {:induction false} TriesAdvance(x: Settings, s: Snapshot, cand: BitSet, candCopy: BitSet, crit: seq<IntSet>,
                                        vs: seq<nat>, i: nat, e: nat, open: bool)
    requires x.mode != PRIORITY && Ready(x.g, s, cand, crit, open) && Counting(x, s) && !s.stopFlag
    requires s.nextEdge < |x.g.edges| && Candidates(x, s, cand, candCopy, vs, e) && (open ==> e in s.uncov) && i <= |vs|
    ensures TriedSoFar(x, s, cand, candCopy, vs, i, open, Tries(x, |cand|, s, candCopy, crit, vs[..i]))
    decreases |cand|, 1, i
  {
    hide TriedSoFar;
    hide Ready;
    hide Candidates;
    hide Tries;
    if i == 0 {
      TriesStart(x, s, cand, candCopy, crit, vs, e, open);
    } else {
      TriesAdvance(x, s, cand, candCopy, crit, vs, i - 1, e, open);
      TriesNext(x, |cand|, s, candCopy, crit, vs, i - 1);
      TurnAdvances(x, s, cand, candCopy, crit, vs, i - 1, e, open, Tries(x, |cand|, s, candCopy, crit, vs[..i - 1]));
    }
  }

  lemma TriesStart(x: Settings, s: Snapshot, cand: BitSet, candCopy: BitSet, crit: seq<IntSet>, vs: seq<nat>, e: nat,
                   open: bool)
    requires Counting(x, s) && !s.stopFlag && Candidates(x, s, cand, candCopy, vs, e)
    ensures TriedSoFar(x, s, cand, candCopy, vs, 0, open, Tries(x, |cand|, s, candCopy, crit, vs[..0]))
  {
    CandidatesLoop(x, s, cand, candCopy, vs, e);
    CountingMark(x, s);
    BookkeepingAdvances(x, s, s);
    NonePassesYet(x.g, s.cur, vs);
  }

  /** One turn of the first loop. */
  lemma {:induction false} TurnAdvances(x: Settings, s: Snapshot, cand: BitSet, candCopy: BitSet, crit: seq<IntSet>,
                                        vs: seq<nat>, i: nat, e: nat, open: bool, t: Tried)
    requires x.mode != PRIORITY && Ready(x.g, s, cand, crit, open) && Counting(x, s) && !s.stopFlag
    requires s.nextEdge < |x.g.edges| && Candidates(x, s, cand, candCopy, vs, e) && (open ==> e in s.uncov) && i < |vs|
    requires TriedSoFar(x, s, cand, candCopy, vs, i, open, t)
    ensures TriedSoFar(x, s, cand, candCopy, vs, i + 1, open, TriedNext(x, |cand|, t, crit, vs[i]))
    decreases |cand|, 0, 0
  {
    var v := vs[i];
    hide TriedSoFar;
    hide TriedNext;
    hide Candidates;
    hide Finds;
    hide FirstInOrder;
    hide Ready;
    hide Blocked;
    hide Violates;
    hide Searched;
    hide UpdatedCrit;
    hide Below;
    hide Undone;
    hide Advances;
    if t.over || t.s.backSteps != 0 || Blocked(x.g, crit, v) {
      IdleTurn(x, s, cand, candCopy, crit, vs, i, e, open, t);
    } else {
      VisitReady(x, s, cand, candCopy, crit, vs, i, e, open, t);
      VisitAdvances(x, t.s, cand, t.cand, crit, v, e, open);
      var newCrit := UpdatedCrit(x.g, crit, t.s.uncov, v);
      var u := Undone(Searched(x, Below(x.g, t.s, v), t.cand, newCrit), v, newCrit);
      TriedVisit(x, |cand|, t, crit, v, u);
      VisitTurn(x, s, cand, candCopy, crit, vs, i, e, open, t, u);
    }
  }

  /** A turn that visits nothing. */
  lemma IdleTurn(x: Settings, s: Snapshot, cand: BitSet, candCopy: BitSet, crit: seq<IntSet>, vs: seq<nat>, i: nat,
                 e: nat, open: bool, t: Tried)
    requires Ready(x.g, s, cand, crit, open) && !s.stopFlag
    requires Candidates(x, s, cand, candCopy, vs, e) && i < |vs| && TriedSoFar(x, s, cand, candCopy, vs, i, open, t)
    requires t.over || t.s.backSteps != 0 || Blocked(x.g, crit, vs[i])
    ensures TriedSoFar(x, s, cand, candCopy, vs, i + 1, open, TriedNext(x, |cand|, t, crit, vs[i]))
  {
    SomePassesStep(x.g, s.cur, vs, i);
    BlockedMeaning(x.g, s, cand, crit, open, vs[i]);
    hide Candidates;
    hide SomePasses;
    hide Finds;
    hide Advances;
    hide Violates;
    hide Blocked;
    hide Ready;
    if t.over {
    } else {
      TriedIdle(x, |cand|, t, crit, vs[i]);
      LoopNext(s.cur, cand, t.cand, vs, i);
      hide LoopShape;
    }
  }

  /** What the search below a candidate may rely on. */
  lemma VisitReady(x: Settings, s: Snapshot, cand: BitSet, candCopy: BitSet, crit: seq<IntSet>, vs: seq<nat>, i: nat,
                   e: nat, open: bool, t: Tried)
    requires Ready(x.g, s, cand, crit, open) && !s.stopFlag && s.nextEdge < |x.g.edges| && (open ==> e in s.uncov)
    requires Candidates(x, s, cand, candCopy, vs, e) && i < |vs| && TriedSoFar(x, s, cand, candCopy, vs, i, open, t)
    requires !t.over && t.s.backSteps == 0 && !Blocked(x.g, crit, vs[i])
    ensures Ready(x.g, t.s, cand, crit, open) && Counting(x, t.s) && !t.s.stopFlag && t.s.nextEdge < |x.g.edges|
    ensures e < |x.g.edges| && (open ==> e in t.s.uncov && !Violates(x.g, t.s.cur, vs[i]))
    ensures vs[i] in cand && vs[i] in x.g.Edge(e) && vs[i] !in t.s.cur && t.cand <= cand && vs[i] !in t.cand
    ensures |t.cand| < |cand| && cand - x.g.Edge(e) <= t.cand && FirstInOrder(x.mode, t.s.uncov, e)
  {
    CandidatesLoop(x, s, cand, candCopy, vs, e);
    AdvancedReady(x, s, t.s, cand, crit, open);
    LoopNext(s.cur, cand, t.cand, vs, i);
    BlockedMeaning(x.g, s, cand, crit, open, vs[i]);
    EdgeLeftOut(x, s, cand, candCopy, vs, e, t.cand);
  }

  /** A turn that comes back from below with `u`. */
  lemma VisitTurn(x: Settings, s: Snapshot, cand: BitSet, candCopy: BitSet, crit: seq<IntSet>, vs: seq<nat>, i: nat,
                  e: nat, open: bool, t: Tried, u: Snapshot)
    requires Ready(x.g, s, cand, crit, open) && !s.stopFlag && s.nextEdge < |x.g.edges|
    requires Candidates(x, s, cand, candCopy, vs, e) && i < |vs| && TriedSoFar(x, s, cand, candCopy, vs, i, open, t)
    requires !t.over && t.s.backSteps == 0 && !Blocked(x.g, crit, vs[i])
    requires Advances(x, t.s, u) && (Finds(x, t.s, cand, open) ==> Mark(x, u) > Mark(x, t.s))
    ensures TriedSoFar(x, s, cand, candCopy, vs, i + 1, open,
                       Tried(u, if u.stopFlag then t.cand else t.cand + {vs[i]}, true, u.stopFlag))
  {
    SomePassesStep(x.g, s.cur, vs, i);
    BlockedMeaning(x.g, s, cand, crit, open, vs[i]);
    AdvancedReady(x, s, t.s, cand, crit, open);
    LoopNext(s.cur, cand, t.cand, vs, i);
    hide Candidates;
    hide SomePasses;
    hide Finds;
    hide Violates;
    hide Blocked;
    hide Ready;
    hide LoopShape;
    AdvancesThen(x, s, t.s, u);
    hide Advances;
  }

  lemma EdgeLeftOut(x: Settings, s: Snapshot, cand: BitSet, candCopy: BitSet, vs: seq<nat>, e: nat, left: BitSet)
    requires Candidates(x, s, cand, candCopy, vs, e) && candCopy <= left
    ensures cand - x.g.Edge(e) <= left
  {
  }

  /** The criticality test decides violation on a healthy node. */
  lemma BlockedMeaning(g: Graph, s: Snapshot, cand: BitSet, crit: seq<IntSet>, open: bool, v: nat)
    requires Ready(g, s, cand, crit, open)
    ensures open ==> (Blocked(g, crit, v) <==> Violates(g, s.cur, v))
  {
    if open {
      ViolatesFromCrits(g, s.cur, s.curList, crit, v);
    }
  }

  /** A state that was advanced without a stop is as ready as before. */
  lemma AdvancedReady(x: Settings, s: Snapshot, t: Snapshot, cand: BitSet, crit: seq<IntSet>, open: bool)
    requires Ready(x.g, s, cand, crit, open) && Advances(x, s, t) && !t.stopFlag && s.nextEdge < |x.g.edges|
    ensures t.cur == s.cur && t.uncov == s.uncov && t.curList == s.curList && |crit| == |t.curList|
    ensures Ready(x.g, t, cand, crit, open) && Counting(x, t) && t.nextEdge < |x.g.edges|
    ensures t.backSteps == 0 && Finds(x, s, cand, open) ==> Finds(x, t, cand, open)
  {
  }

  /** The search below a vertex that violates nothing, and the way back. */
  lemma {:induction false} VisitAdvances(x: Settings, s: Snapshot, cand: BitSet, candCopy: BitSet, crit: seq<IntSet>,
                                         v: nat, e: nat, open: bool)
    requires x.mode != PRIORITY && Ready(x.g, s, cand, crit, open) && Counting(x, s) && !s.stopFlag
    requires s.nextEdge < |x.g.edges| && e < |x.g.edges| && (open ==> e in s.uncov && !Violates(x.g, s.cur, v))
    requires v in cand && v in x.g.Edge(e) && v !in s.cur && candCopy <= cand && v !in candCopy
    ensures var newCrit := UpdatedCrit(x.g, crit, s.uncov, v);
            var t := Searched(x, Below(x.g, s, v), candCopy, newCrit);
            && Advances(x, s, Undone(t, v, newCrit))
            && (Finds(x, s, cand, open) && cand - x.g.Edge(e) <= candCopy && FirstInOrder(x.mode, s.uncov, e)
                ==> Mark(x, Undone(t, v, newCrit)) > Mark(x, s))
    decreases |candCopy|, 5, 0
  {
    hide Searched;
    ReadyBelow(x, s, cand, crit, open, v, e, candCopy);
    SearchedAdvances(x, Below(x.g, s, v), candCopy, UpdatedCrit(x.g, crit, s.uncov, v), open);
    UndoneAdvances(x, s, crit, v, Searched(x, Below(x.g, s, v), candCopy, UpdatedCrit(x.g, crit, s.uncov, v)));
  }

  /** What a turn of the first loop finds. */
  lemma TurnReady(x: Settings, s: Snapshot, cand: BitSet, candCopy: BitSet, crit: seq<IntSet>, vs: seq<nat>, i: nat,
                  e: nat, open: bool, t: Tried)
    requires x.mode != PRIORITY && Ready(x.g, s, cand, crit, open) && Counting(x, s) && !s.stopFlag
    requires s.nextEdge < |x.g.edges| && Candidates(x, s, cand, candCopy, vs, e) && (open ==> e in s.uncov) && i < |vs|
    requires t == Tries(x, |cand|, s, candCopy, crit, vs[..i]) && !t.over
    ensures !t.s.stopFlag && Ready(x.g, t.s, cand, crit, open) && Counting(x, t.s) && t.s.nextEdge < |x.g.edges|
    ensures e < |x.g.edges| && (open ==> e in t.s.uncov && (Blocked(x.g, crit, vs[i]) <==> Violates(x.g, t.s.cur, vs[i])))
    ensures vs[i] in cand && vs[i] in x.g.Edge(e) && vs[i] !in t.s.cur
    ensures t.cand <= cand && vs[i] !in t.cand && |t.cand| < |cand|
  {
    TriesAdvance(x, s, cand, candCopy, crit, vs, i, e, open);
    AdvancedReady(x, s, t.s, cand, crit, open);
    CandidatesLoop(x, s, cand, candCopy, vs, e);
    LoopNext(s.cur, cand, t.cand, vs, i);
    BlockedMeaning(x.g, s, cand, crit, open, vs[i]);
  }

  /** The second loop after `i` candidates. */
  lemma {:induction false} ForcesAdvance(x: Settings, s: Snapshot, cand: BitSet, candCopy: BitSet, crit: seq<IntSet>,
                                         vs: seq<nat>, i: nat, e: nat, open: bool)
    requires x.mode != PRIORITY && Ready(x.g, s, cand, crit, open) && Counting(x, s) && !s.stopFlag
    requires s.nextEdge < |x.g.edges| && Candidates(x, s, cand, candCopy, vs, e) && (open ==> e in s.uncov) && i <= |vs|
    ensures Advances(x, s, Forces(x, |cand|, s, candCopy, crit, vs[..i]))
    decreases |cand|, 1, i
  {
    hide *;
    if i == 0 {
      ForcesStart(x, s, |cand|, candCopy, crit, vs);
    } else {
      ForcesAdvance(x, s, cand, candCopy, crit, vs, i - 1, e, open);
      ForcesNext(x, |cand|, s, candCopy, crit, vs, i - 1);
      CandidatesLoop(x, s, cand, candCopy, vs, e);
      ForceTurnAdvances(x, s, cand, candCopy, crit, vs[i - 1], e, open, Forces(x, |cand|, s, candCopy, crit, vs[..i - 1]));
    }
  }

  lemma ForcesStart(x: Settings, s: Snapshot, n: nat, cand: BitSet, crit: seq<IntSet>, vs: seq<nat>)
    requires Counting(x, s)
    ensures Advances(x, s, Forces(x, n, s, cand, crit, vs[..0]))
  {
    CountingMark(x, s);
    ForcesNothing(x, n, s, cand, crit, vs);
    BookkeepingAdvances(x, s, s);
  }

  /** One turn of the second loop. */
  lemma {:induction false} ForceTurnAdvances(x: Settings, s: Snapshot, cand: BitSet, candCopy: BitSet, crit: seq<IntSet>,
                                             v: nat, e: nat, open: bool, t: Snapshot)
    requires x.mode != PRIORITY && Ready(x.g, s, cand, crit, open) && !s.stopFlag
    requires s.nextEdge < |x.g.edges| && e < |x.g.edges| && (open ==> e in s.uncov)
    requires v in cand && v in x.g.Edge(e) && v !in s.cur && candCopy <= cand && v !in candCopy
    requires Advances(x, s, t)
    ensures Advances(x, s, ForcedNext(x, |cand|, t, candCopy, crit, v))
    decreases |cand|, 0, 0
  {
    if !t.stopFlag && t.backSteps == 0 {
      StrictSubsetCard(candCopy, cand, v);
      AdvancedReady(x, s, t, cand, crit, open);
      hide Ready;
      hide Advances;
      hide ForcedNext;
      ForceAdvances(x, t, cand, candCopy, crit, v, e, open);
      AdvancesThen(x, s, t, ForcedNext(x, |cand|, t, candCopy, crit, v));
    }
  }

  /** The search below a vertex that was forced in, and the way back. */
  lemma {:induction false} ForceAdvances(x: Settings, s: Snapshot, cand: BitSet, candCopy: BitSet, crit: seq<IntSet>,
                                         v: nat, e: nat, open: bool)
    requires x.mode != PRIORITY && Ready(x.g, s, cand, crit, open) && Counting(x, s) && !s.stopFlag && s.backSteps == 0
    requires s.nextEdge < |x.g.edges| && e < |x.g.edges| && (open ==> e in s.uncov) && |crit| == |s.curList|
    requires v in cand && v in x.g.Edge(e) && v !in s.cur && candCopy <= cand && v !in candCopy && |candCopy| < |cand|
    ensures Advances(x, s, ForcedNext(x, |cand|, s, candCopy, crit, v))
    decreases |candCopy|, 5, 0
  {
    hide Searched;
    hide Repaired;
    hide Advances;
    var t, newCrit := Forced(x.g, s, crit, v), Repaired(x.g, s.curList, crit, s.cur, s.uncov, v).crit;
    ReadyForced(x.g, s, cand, crit, open, v, e, candCopy);
    SearchedAdvances(x, t, candCopy, newCrit, open);
    RestoredAdvances(x, s, crit, v, Searched(x, t, candCopy, newCrit));
  }

  /** What a turn of the second loop finds. */
  lemma ForceReady(x: Settings, s: Snapshot, cand: BitSet, candCopy: BitSet, crit: seq<IntSet>, vs: seq<nat>, i: nat,
                   e: nat, open: bool, t: Snapshot)
    requires x.mode != PRIORITY && Ready(x.g, s, cand, crit, open) && Counting(x, s) && !s.stopFlag
    requires s.nextEdge < |x.g.edges| && Candidates(x, s, cand, candCopy, vs, e) && (open ==> e in s.uncov) && i < |vs|
    requires t == Forces(x, |cand|, s, candCopy, crit, vs[..i]) && !t.stopFlag
    ensures Ready(x.g, t, cand, crit, open) && Counting(x, t) && t.nextEdge < |x.g.edges|
    ensures e < |x.g.edges| && (open ==> e in t.uncov) && vs[i] in cand && vs[i] in x.g.Edge(e) && vs[i] !in t.cur
    ensures candCopy <= cand && vs[i] !in candCopy && |candCopy| < |cand|
  {
    ForcesAdvance(x, s, cand, candCopy, crit, vs, i, e, open);
    AdvancedReady(x, s, t, cand, crit, open);
    CandidatesLoop(x, s, cand, candCopy, vs, e);
    StrictSubsetCard(candCopy, cand, vs[i]);
  }
}
