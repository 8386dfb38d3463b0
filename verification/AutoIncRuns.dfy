/** The automatic variant as a whole (RandomEnumAutoInc in random_enum_auto_inc.cpp): rounds of the randomised search feed
    the incremental selection until that has seen enough. */
module AutoIncRuns {
  import opened Collections
  import opened BitSets
  import opened Hypergraphs
  import opened Covers
  import opened SearchSteps
  import opened RandomSteps
  import opened Anchors
  import opened RandomSoundness
  import opened CalmSearch
  import opened RandomSearch
  import opened Components
  import opened CoverUnion
  import opened Rounds
  import opened Jaccard
  import opened Maxmin
  import opened AutomaticIncrease

  datatype Outcome =
    // the selection is complete
    | Selected
    // the bound on the number of rounds is used up
    | OutOfRounds
    // two of the first rounds came back empty-handed, and the distance of their entries is 0/0
    | Incomparable
    // a later round came back empty-handed, and the next cover would be written past the end of the list
    | Outran

  // ---------- the list of covers ----------

  /** What an entry holds after its round. */
  ghost predicate PartCover(mode: Method, subs: seq<Graph>, s: BitSet) {
    s == {} || CoverOfOne(mode, subs, s)
  }

  /** The list after `r` rounds: the first `topK` entries are allocated beforehand, the others hold a cover each. */
  ghost predicate Listed(mode: Method, subs: seq<Graph>, list: seq<BitSet>, r: nat, topK: nat) {
    && |list| == (if r <= topK then topK else r)
    && (forall k :: 0 <= k < r ==> PartCover(mode, subs, list[k]) && (k >= topK ==> list[k] != {}))
    && (forall k :: r <= k < |list| ==> list[k] == {})
  }

  lemma ListedStart(mode: Method, subs: seq<Graph>, list: seq<BitSet>, topK: nat)
    requires |list| == topK && forall k :: 0 <= k < topK ==> list[k] == {}
    ensures Listed(mode, subs, list, 0, topK) && NoneEmpty(list, 0)
  {
  }

  lemma PartNotEmpty(whole: Graph, subs: seq<Graph>, eis: seq<seq<nat>>, j: nat)
    requires EveryVertexUsed(whole) && Decomposes(whole, subs, eis, whole.vertices) && j < |subs|
    ensures !Minimal(subs[j], Hitting, {})
  {
    var v := ComponentVertex(whole, subs, eis, j);
    SubValid(whole, subs, eis, j);
    hide Decomposes;
    var e :| e in whole.Hits(v);
    assert v in whole.Edge(e) * subs[j].vertices;
    ComponentEdge(whole, subs[j], eis[j], e);
    assert eis[j] != [];
    NothingCovers(subs[j]);
  }

  /** Some component cannot be searched in vain. */
  ghost predicate SomeSure(mode: Method, subs: seq<Graph>) {
    exists j :: 0 <= j < |subs| && Sure(subs[j], mode)
  }

  ghost predicate NoneEmpty(list: seq<BitSet>, r: nat) {
    forall k :: 0 <= k < r && k < |list| ==> list[k] != {}
  }

  /** How the list goes on in round number `r`: with a cover in entry `r`, or not at all. */
  ghost predicate GoesOnWith(mode: Method, subs: seq<Graph>, before: seq<BitSet>, after: seq<BitSet>, r: nat, topK: nat,
                             found: bool) {
    && (if found
        then Listed(mode, subs, after, r + 1, topK) && after[r] != {} && r <= |before| && after[..r] == before[..r]
        else after == before && (r < topK ==> Listed(mode, subs, after, r + 1, topK)))
    && (SomeSure(mode, subs) ==> found)
  }

  /** What a round does to the list. */
  lemma RoundLists(x: Settings, s: Snapshot, whole: Graph, subs: seq<Graph>, eis: seq<seq<nat>>, topK: nat)
    requires x.autoInc && x.mode != PRIORITY && !s.stopFlag && s.coverIndex <= |s.vcList|
    requires whole.Valid() && EveryVertexUsed(whole) && Decomposes(whole, subs, eis, whole.vertices)
    requires Listed(x.mode, subs, s.vcList, s.coverIndex, topK)
    ensures var t := RoundDone(x, s, subs);
            t.coverIndex == s.coverIndex && GoesOnWith(x.mode, subs, s.vcList, t.vcList, s.coverIndex, topK, t.stopFlag)
  {
    hide Minimal;
    hide Decomposes;
    hide RoundDone;
    hide Sure;
    hide EveryVertexUsed;
    hide Graph.Valid;
    hide EmptyEdges;
    RoundComesTo(x, s, whole, subs, eis);
    var t, r := RoundDone(x, s, subs), s.coverIndex;
    if t.stopFlag {
      EntryNotEmpty(x.mode, whole, subs, eis, Entry(t.vcList, r));
      ListedMore(x.mode, subs, s.vcList, t.vcList, r, topK);
    }
  }

  lemma EntryNotEmpty(mode: Method, whole: Graph, subs: seq<Graph>, eis: seq<seq<nat>>, s: BitSet)
    requires EveryVertexUsed(whole) && Decomposes(whole, subs, eis, whole.vertices)
    requires CoverOfOne(mode, subs, s)
    ensures PartCover(mode, subs, s) && s != {}
  {
    hide Minimal;
    hide Decomposes;
    hide EveryVertexUsed;
    var j := CoverOfOneMeaning(mode, subs, s);
    PartNotEmpty(whole, subs, eis, j);
  }

  lemma ListedMore(mode: Method, subs: seq<Graph>, before: seq<BitSet>, after: seq<BitSet>, r: nat, topK: nat)
    requires Listed(mode, subs, before, r, topK) && r <= |before|
    requires PartCover(mode, subs, Entry(after, r)) && Entry(after, r) != {}
    requires |after| == if r < |before| then |before| else r + 1
    requires forall k: nat :: k != r ==> Entry(after, k) == Entry(before, k)
    ensures Listed(mode, subs, after, r + 1, topK) && after[..r] == before[..r]
  {
    hide PartCover;
    forall k | 0 <= k < |after|
      ensures after[k] == if k == r then Entry(after, r) else before[k]
    {
      assert Entry(after, k) == after[k];
    }
  }

  /** A list that was comparable stays so when a cover joins. */
  lemma StillComparable(before: seq<BitSet>, after: seq<BitSet>)
    requires Comparable(before) && |after| == |before| + 1 && after[..|before|] == before && after[|before|] != {}
    ensures Comparable(after)
  {
    assert forall i :: 0 <= i < |before| ==> after[i] == before[i];
  }

  lemma WithoutEmpty(list: seq<BitSet>)
    requires forall k :: 0 <= k < |list| ==> list[k] != {}
    ensures Comparable(list)
  {
    forall i, j | 0 <= i < |list| && 0 <= j < |list| && i != j
      ensures list[i] + list[j] != {}
    {
      var v :| v in list[i];
      assert v in list[i] + list[j];
    }
  }

  /** What the entries are worth on the whole hypergraph. */
  lemma EntryWorth(mode: Method, whole: Graph, subs: seq<Graph>, eis: seq<seq<nat>>, s: BitSet)
    requires whole.Valid() && EveryVertexUsed(whole) && Decomposes(whole, subs, eis, whole.vertices)
    requires PartCover(mode, subs, s) && s != {}
    ensures Minimal(whole, Hitting, s) <==> |subs| == 1 && EmptyEdges(whole) == {}
  {
    hide Minimal;
    hide Decomposes;
    hide EveryVertexUsed;
    hide Graph.Valid;
    hide EmptyEdges;
    EntryCovers(mode, whole, subs, eis, s);
  }

  /** Every entry that is not empty is a minimal cover of one component, and of the whole if and only if there is one
      component and no empty edge. */
  ghost predicate Worth(mode: Method, whole: Graph, subs: seq<Graph>, list: seq<BitSet>) {
    forall k :: 0 <= k < |list| && list[k] != {} ==>
      CoverOfOne(mode, subs, list[k]) &&
      (Minimal(whole, Hitting, list[k]) <==> |subs| == 1 && EmptyEdges(whole) == {})
  }

  lemma NoEmptyEdges(g: Graph)
    ensures EmptyEdges(g) == {} <==> forall e: nat :: e < |g.edges| ==> g.Edge(e) != {}
  {
    if forall e: nat :: e < |g.edges| ==> g.Edge(e) != {} {
      assert forall e :: e !in EmptyEdges(g);
    }
    if EmptyEdges(g) == {} {
      forall e: nat | e < |g.edges|
        ensures g.Edge(e) != {}
      {
        assert e !in EmptyEdges(g);
      }
    }
  }

  lemma WorthMeaning(mode: Method, whole: Graph, subs: seq<Graph>, list: seq<BitSet>, k: nat) returns (j: nat)
    requires Worth(mode, whole, subs, list) && k < |list| && list[k] != {}
    ensures j < |subs| && Minimal(subs[j], Hitting, list[k]) && forall i :: 0 <= i < j ==> !Sure(subs[i], mode)
    ensures Minimal(whole, Hitting, list[k]) <==> |subs| == 1 && forall e: nat :: e < |whole.edges| ==> whole.Edge(e) != {}
  {
    hide Minimal;
    hide Sure;
    j := CoverOfOneMeaning(mode, subs, list[k]);
    NoEmptyEdges(whole);
  }

  lemma EntriesWorth(mode: Method, whole: Graph, subs: seq<Graph>, eis: seq<seq<nat>>, list: seq<BitSet>)
    requires whole.Valid() && EveryVertexUsed(whole) && Decomposes(whole, subs, eis, whole.vertices)
    requires forall k :: 0 <= k < |list| ==> PartCover(mode, subs, list[k])
    ensures Worth(mode, whole, subs, list)
  {
    hide Decomposes;
    hide Minimal;
    hide EmptyEdges;
    hide Graph.Valid;
    hide EveryVertexUsed;
    forall k | 0 <= k < |list| && list[k] != {}
      ensures CoverOfOne(mode, subs, list[k])
      ensures Minimal(whole, Hitting, list[k]) <==> |subs| == 1 && EmptyEdges(whole) == {}
    {
      assert PartCover(mode, subs, list[k]);
      EntryWorth(mode, whole, subs, eis, list[k]);
    }
  }

  /** A selection worth having: different entries, the smallest distance among them is `value`, and no other choice of as many
      keeps a distance of more than twice that. */
  ghost predicate GoodChoice(list: seq<BitSet>, ans: seq<nat>, value: real) {
    && Comparable(list) && AllBelow(ans, |list|) && NoDup(ans) && SmallestDistance(list, ans, value)
    && forall points: set<nat> :: |points| == |ans| && (forall x :: x in points ==> x < |list|) ==>
         SomePairWithin(list, points, 2.0 * value)
  }

  /** What a good choice is, in terms of the distances alone. */
  lemma GoodChoiceMeaning(list: seq<BitSet>, ans: seq<nat>, value: real, i: nat, j: nat, points: set<nat>)
    returns (x: nat, y: nat)
    requires GoodChoice(list, ans, value) && i < j < |ans| && |points| == |ans| && forall p :: p in points ==> p < |list|
    ensures ans[i] < |list| && ans[j] < |list| && ans[i] != ans[j] && list[ans[i]] + list[ans[j]] != {}
    ensures value <= Distance(list[ans[i]], list[ans[j]])
    ensures x in points && y in points && x != y && list[x] + list[y] != {} && Distance(list[x], list[y]) <= 2.0 * value
  {
    assert SomePairWithin(list, points, 2.0 * value);
    hide GoodChoice;
    hide Distance;
    x, y :| x in points && y in points && x != y && Distance(list[x], list[y]) <= 2.0 * value;
  }

  lemma GoodChoiceInRange(list: seq<BitSet>, ans: seq<nat>, value: real)
    requires GoodChoice(list, ans, value)
    ensures forall i :: 0 <= i < |ans| ==> ans[i] < |list|
  {
  }

  lemma GoodChoiceAttained(list: seq<BitSet>, ans: seq<nat>, value: real) returns (i: nat, j: nat)
    requires GoodChoice(list, ans, value)
    ensures i < j < |ans| && ans[i] < |list| && ans[j] < |list| && list[ans[i]] + list[ans[j]] != {}
    ensures value == Distance(list[ans[i]], list[ans[j]])
  {
    hide Distance;
    hide SomePairWithin;
    i, j :| 0 <= i < j < |ans| && value == Distance(list[ans[i]], list[ans[j]]);
  }

  lemma GreedyIsGood(m: Matrix, list: seq<BitSet>, ans: seq<nat>, dist: seq<real>)
    requires MatrixOf(m, list) && Greedy(m, |list|, ans, dist, |ans|)
    ensures |dist| == |ans| >= 2 && GoodChoice(list, ans, dist[|ans| - 1])
  {
    MatrixIsMetric(m, list);
    GreedyMeaning(m, list, ans, dist);
    GreedySize(m, |list|, ans, dist, |ans|);
    hide Metric;
    hide Greedy;
    hide MatrixOf;
    hide SomePairWithin;
    hide SmallestDistance;
    forall points: set<nat> | |points| == |ans| && forall x :: x in points ==> x < |list|
      ensures SomePairWithin(list, points, 2.0 * dist[|ans| - 1])
    {
      NoBetterChoice(m, list, ans, dist, points);
    }
  }

  // ---------- the run ----------

  /** Search and selection agree after `r` rounds. */
  ghost predicate Agree(list: seq<BitSet>, r: nat, topK: nat, seen: seq<BitSet>, stale: nat) {
    && stale == 0 && (if r < topK then seen == [] else seen == list && Comparable(list))
  }

  /** Whatever the round brought, the selection may be asked, unless two of the first entries are empty. */
  lemma MayJudge(mode: Method, subs: seq<Graph>, before: seq<BitSet>, after: seq<BitSet>, r: nat, topK: nat, found: bool,
                 seen: seq<BitSet>, stale: nat)
    requires Listed(mode, subs, before, r, topK) && r <= |before| && Agree(before, r, topK, seen, stale) && topK >= 2
    requires GoesOnWith(mode, subs, before, after, r, topK, found)
    requires r + 1 == topK ==> Comparable(after)
    ensures r + 1 == topK ==> seen == [] && |after| == topK
    ensures r + 1 > topK ==>
              seen != [] && Comparable(after) &&
              (after == seen || (stale == 0 && |after| == |seen| + 1 && after[..|seen|] == seen))
    ensures r + 1 > topK && r + 1 <= |after| ==> after != seen
    ensures r + 1 <= |after| ==> Listed(mode, subs, after, r + 1, topK)
    ensures forall k :: 0 <= k < |after| ==> PartCover(mode, subs, after[k])
    ensures SomeSure(mode, subs) ==> r + 1 <= |after| && (NoneEmpty(before, r) ==> NoneEmpty(after, r + 1))
    ensures SomeSure(mode, subs) && r + 1 >= topK && NoneEmpty(before, r) ==> NoneEmpty(after, |after|)
  {
    hide PartCover;
    hide SomeSure;
    if found && r >= topK {
      assert before[..r] == before;
      StillComparable(before, after);
    }
    if found {
      forall k | 0 <= k < r
        ensures after[k] == before[k]
      {
        assert after[..r][k] == before[..r][k];
      }
    }
    ListedPart(mode, subs, if r + 1 <= |after| then after else before, if r + 1 <= |after| then r + 1 else r, topK);
  }

  lemma ListedPart(mode: Method, subs: seq<Graph>, list: seq<BitSet>, r: nat, topK: nat)
    requires Listed(mode, subs, list, r, topK)
    ensures forall k :: 0 <= k < |list| ==> PartCover(mode, subs, list[k])
  {
    forall k | 0 <= k < |list|
      ensures PartCover(mode, subs, list[k])
    {
    }
  }

  lemma PicksAllocated(selection: AutoInc)
    requires selection.Valid()
    ensures selection.topK == selection.ans.Length >= 2 && (selection.seen == [] ==> selection.stale == 0)
  {
  }

  /** One round from `s`: every component is searched once, the cover index goes up, and the stop flag is decided anew. */
  ghost predicate RoundMade(x: Settings, subs: seq<Graph>, s: Snapshot, t: Snapshot) {
    !s.stopFlag && t == RoundDone(x, s, subs).(coverIndex := s.coverIndex + 1, stopFlag := t.stopFlag)
  }

  /** Rounds one after another. */
  ghost predicate RoundsMade(x: Settings, subs: seq<Graph>, trace: seq<Snapshot>) {
    trace != [] && forall i, j :: 0 <= i < j < |trace| && j == i + 1 ==> RoundMade(x, subs, trace[i], trace[j])
  }

  /** Each round of a run does what a round does, on the state the one before it left. */
  lemma RoundsMeaning(x: Settings, subs: seq<Graph>, trace: seq<Snapshot>, i: nat)
    requires RoundsMade(x, subs, trace) && i + 1 < |trace|
    ensures !trace[i].stopFlag
    ensures trace[i + 1]
            == RoundDone(x, trace[i], subs).(coverIndex := trace[i].coverIndex + 1, stopFlag := trace[i + 1].stopFlag)
  {
    hide RoundDone;
    assert RoundMade(x, subs, trace[i], trace[i + 1]);
  }

  lemma RoundsMadeNone(x: Settings, subs: seq<Graph>, s: Snapshot)
    ensures RoundsMade(x, subs, [s])
  {
  }

  lemma OneMoreRound(x: Settings, subs: seq<Graph>, trace: seq<Snapshot>, t: Snapshot)
    requires RoundsMade(x, subs, trace) && RoundMade(x, subs, trace[|trace| - 1], t)
    ensures RoundsMade(x, subs, trace + [t])
  {
    hide RoundMade;
  }

  /** A round does not depend on the component that was searched last. */
  lemma RoundsMadeMore(x: Settings, y: Settings, subs: seq<Graph>, trace: seq<Snapshot>, s: Snapshot, t: Snapshot)
    requires RoundsMade(x, subs, trace) && trace[|trace| - 1] == s && RoundMade(y, subs, s, t) && y == x.(g := y.g)
    ensures RoundsMade(x, subs, trace + [t])
  {
    hide RoundDone;
    RoundAnyGraph(x, y, s, subs);
    OneMoreRound(x, subs, trace, t);
  }

  lemma {:induction false} RoundAnyGraph(x: Settings, y: Settings, s: Snapshot, subs: seq<Graph>)
    requires y == x.(g := y.g)
    ensures RoundDone(y, s, subs) == RoundDone(x, s, subs)
  {
    if subs != [] {
      RoundAnyGraph(x, y, s, subs[..|subs| - 1]);
      var g := subs[|subs| - 1];
      assert y.(g := g) == x.(g := g);
    }
  }

  class RandomEnumAutoInc {
    const search: RandomEnum
    const selection: AutoInc

    /** Between two rounds over the components `subs`. */
    ghost predicate Between(subs: seq<Graph>)
      reads this, search, selection, selection.ans, selection.distances
    {
      && search.autoInc && search.mode != PRIORITY && !search.stopFlag && selection.Valid() && selection.topK >= 2
      && search.coverIndex <= |search.vcList| && Listed(search.mode, subs, search.vcList, search.coverIndex, selection.topK)
      && Agree(search.vcList, search.coverIndex, selection.topK, selection.seen, selection.stale)
      && (SomeSure(search.mode, subs) ==> NoneEmpty(search.vcList, search.coverIndex))
      && (search.coverIndex > selection.topK ==> search.coverIndex < selection.maxNumOfVc)
    }

    /** The selection is a greedy one for all covers listed. */
    ghost predicate Complete()
      reads this, search`vcList, selection, selection.ans, selection.distances
    {
      && selection.ans.Length == selection.distances.Length == selection.topK
      && MatrixOf(selection.setDistances, search.vcList)
      && Greedy(selection.setDistances, |search.vcList|, selection.ans[..], selection.distances[..], selection.topK)
    }

    /** After the first `topK` rounds the success counter goes up if the selection was complete and is still greedy with the
        new cover, and starts again otherwise. */
    ghost predicate Counted(r: nat, list: seq<BitSet>, curSize: nat, ans: seq<nat>, dist: seq<real>, successes: int)
      reads selection
    {
      selection.validateSuccessTime ==
        if r <= selection.topK then successes
        else if curSize == selection.topK && Greedy(selection.setDistances, |list|, ans, dist, selection.topK)
        then successes + 1
        else 0
    }

    constructor (g: Graph, numberOfVc: nat, random: nat -> nat)
      requires numberOfVc >= 2
      ensures fresh(search) && fresh(selection) && fresh(selection.ans) && fresh(selection.distances)
      ensures search.g == g && search.mode == ORDER && search.autoInc && selection.topK == numberOfVc &&
              search.output == []
      ensures selection.Valid() && selection.seen == [] && !search.stopFlag
      ensures |search.vcList| == selection.topK && forall k :: 0 <= k < selection.topK ==> search.vcList[k] == {}
    {
      search := new RandomEnum(g, numberOfVc, true, random);
      selection := new AutoInc(numberOfVc);
    }

    /** Rounds until the selection has seen enough, or `rounds` are used up. Every entry that is not empty is a minimal cover
        of one component, and of the whole if and only if there is one component and no empty edge. A run that selects puts
        out `topK` different entries of the list, chosen greedily, with the factor-two guarantee. If some component
        is sure to yield a cover, no round comes back empty-handed, and 125 rounds that are more than `topK` are enough. */
    method RunDiverse(rounds: nat)
      returns (outcome: Outcome, ghost subs: seq<Graph>, ghost eis: seq<seq<nat>>, ghost trace: seq<Snapshot>)
      requires search.g.Valid() && EveryVertexUsed(search.g) && search.autoInc && search.mode != PRIORITY
      requires selection.Valid() && selection.seen == [] && !search.stopFlag
      requires |search.vcList| == selection.topK && forall k :: 0 <= k < selection.topK ==> search.vcList[k] == {}
      modifies search, selection, selection.ans, selection.distances
      ensures search.mode == old(search.mode)
      ensures Decomposes(old(search.g), subs, eis, old(search.g).vertices)
      ensures subs == SubGraphs(old(search.g)).subs && eis == SubGraphs(old(search.g)).eis
      ensures RoundsMade(old(search.Setup()), subs, trace)
      ensures trace[0] == old(search.Now()).(coverIndex := 0) && trace[|trace| - 1] == search.Now()
      ensures |trace| <= rounds + 1 && (outcome == OutOfRounds ==> |trace| == rounds + 1)
      ensures outcome == Selected ==> |search.vcList| >= 125 || selection.validateSuccessTime > 5
      ensures Worth(search.mode, old(search.g), subs, search.vcList)
      ensures outcome == Selected ==>
                && Complete() && GoodChoice(search.vcList, selection.ans[..], selection.distances[selection.topK - 1])
                && |search.output| == |old(search.output)| + selection.topK && old(search.output) <= search.output
                && forall i :: 0 <= i < selection.topK ==>
                     selection.ans[i] < |search.vcList| &&
                     search.output[|old(search.output)| + i] == search.vcList[selection.ans[i]]
      ensures outcome != Selected ==> search.output == old(search.output)
      ensures outcome == Outran ==> search.coverIndex > |search.vcList|
      ensures outcome == Incomparable ==> search.coverIndex == selection.topK && !Comparable(search.vcList)
      ensures SomeSure(search.mode, subs) ==>
                && (outcome.Selected? || outcome.OutOfRounds?)
                && NoneEmpty(search.vcList, if outcome.Selected? then |search.vcList| else search.coverIndex)
                && (rounds > selection.topK && rounds >= 125 ==> outcome == Selected)
    {
      hide Graph.Valid;
      hide Decomposes;
      hide EveryVertexUsed;
      hide EmptyEdges;
      hide Minimal;
      hide SomeSure;
      hide GoodChoice;
      hide Worth;
      hide Listed;
      hide PartCover;
      hide NoneEmpty;
      hide Comparable;
      hide Complete;
      hide SubGraphs;
      hide AutoInc.Valid;
      hide RoundsMade;
      PicksAllocated(selection);
      ghost var whole := search.g;
      var subGraphs, edgeIds := GetSubGraph(search.g);
      subs, eis := subGraphs, edgeIds;
      search.coverIndex := 0;
      ListedStart(search.mode, subs, search.vcList, selection.topK);
      outcome, trace := Rounds(rounds, subGraphs, whole, eis);
      EntriesWorth(search.mode, whole, subs, eis, search.vcList);
      if outcome.Selected? {
        Finish();
      }
    }

    method Rounds(rounds: nat, subs: seq<Graph>, ghost whole: Graph, ghost eis: seq<seq<nat>>)
      returns (outcome: Outcome, ghost trace: seq<Snapshot>)
      requires Between(subs) && search.coverIndex == 0
      requires whole.Valid() && EveryVertexUsed(whole) && Decomposes(whole, subs, eis, whole.vertices)
      modifies search, selection, selection.ans, selection.distances
      ensures search.mode == old(search.mode) && search.output == old(search.output)
      ensures RoundsMade(old(search.Setup()), subs, trace)
      ensures trace[0] == old(search.Now()) && trace[|trace| - 1] == search.Now()
      ensures |trace| <= rounds + 1 && (outcome == OutOfRounds ==> |trace| == rounds + 1)
      ensures outcome == Selected ==> |search.vcList| >= 125 || selection.validateSuccessTime > 5
      ensures forall k :: 0 <= k < |search.vcList| ==> PartCover(search.mode, subs, search.vcList[k])
      ensures outcome == Selected ==> Complete()
      ensures outcome == Outran ==> search.coverIndex > |search.vcList|
      ensures outcome == Incomparable ==> search.coverIndex == selection.topK && !Comparable(search.vcList)
      ensures SomeSure(search.mode, subs) ==>
                && (outcome.Selected? || outcome.OutOfRounds?)
                && NoneEmpty(search.vcList, if outcome.Selected? then |search.vcList| else search.coverIndex)
                && (rounds > selection.topK && rounds >= 125 ==> outcome == Selected)
    {
      hide Graph.Valid;
      hide Decomposes;
      hide EveryVertexUsed;
      hide SomeSure;
      hide PartCover;
      hide RoundDone;
      hide RoundsMade;
      hide RoundMade;
      hide Complete;
      hide Comparable;
      hide NoneEmpty;
      BetweenParts(subs);
      outcome := OutOfRounds;
      ghost var x := search.Setup();
      trace := [search.Now()];
      RoundsMadeNone(x, subs, search.Now());
      var left := rounds;
      while left > 0 && outcome.OutOfRounds?
        invariant search.coverIndex == rounds - left && search.output == old(search.output)
        invariant search.mode == old(search.mode) && search.Setup() == x.(g := search.g)
        invariant RoundsMade(x, subs, trace) && |trace| == rounds - left + 1
        invariant trace[0] == old(search.Now()) && trace[|trace| - 1] == search.Now()
        invariant outcome == Selected ==> |search.vcList| >= 125 || selection.validateSuccessTime > 5
        invariant forall k :: 0 <= k < |search.vcList| ==> PartCover(search.mode, subs, search.vcList[k])
        invariant outcome == OutOfRounds ==> Between(subs)
        invariant outcome == Selected ==> Complete()
        invariant outcome == Outran ==> search.coverIndex > |search.vcList|
        invariant outcome == Incomparable ==> search.coverIndex == selection.topK && !Comparable(search.vcList)
        invariant SomeSure(search.mode, subs) ==>
                    && (outcome.Selected? || outcome.OutOfRounds?)
                    && NoneEmpty(search.vcList, if outcome.Selected? then |search.vcList| else search.coverIndex)
        decreases left
      {
        ghost var y, s := search.Setup(), search.Now();
        BetweenParts(subs);
        outcome := Round(subs, whole, eis);
        RoundsMadeMore(x, y, subs, trace, s, search.Now());
        trace := trace + [search.Now()];
        left := left - 1;
      }
    }

    lemma BetweenParts(subs: seq<Graph>)
      requires Between(subs)
      ensures !search.stopFlag && (SomeSure(search.mode, subs) ==> NoneEmpty(search.vcList, search.coverIndex))
      ensures forall k :: 0 <= k < |search.vcList| ==> PartCover(search.mode, subs, search.vcList[k])
      ensures search.coverIndex > selection.topK ==> search.coverIndex < 125
    {
      ListedPart(search.mode, subs, search.vcList, search.coverIndex, selection.topK);
    }

    /** A complete selection is a good choice, and is put out. */
    method Finish()
      requires Complete()
      modifies search`output
      ensures Complete() && GoodChoice(search.vcList, selection.ans[..], selection.distances[selection.topK - 1])
      ensures |search.output| == |old(search.output)| + selection.topK && old(search.output) <= search.output
      ensures forall i :: 0 <= i < selection.topK ==>
                selection.ans[i] < |search.vcList| &&
                search.output[|old(search.output)| + i] == search.vcList[selection.ans[i]]
    {
      CompleteIsGood();
      hide *;
      PutOut();
    }

    lemma CompleteIsGood()
      requires Complete()
      ensures selection.topK == selection.ans.Length == selection.distances.Length && selection.topK >= 2
      ensures GoodChoice(search.vcList, selection.ans[..], selection.distances[selection.topK - 1])
      ensures forall i :: 0 <= i < selection.topK ==> selection.ans[i] < |search.vcList|
    {
      hide Greedy;
      hide MatrixOf;
      hide GoodChoice;
      ghost var ans, dist := selection.ans[..], selection.distances[..];
      GreedyIsGood(selection.setDistances, search.vcList, ans, dist);
      GoodChoiceInRange(search.vcList, ans, dist[|ans| - 1]);
      assert forall i :: 0 <= i < selection.topK ==> ans[i] < |search.vcList|;
    }

    /** The picks go to the output, in the order they were made. */
    method PutOut()
      requires forall i :: 0 <= i < selection.ans.Length ==> selection.ans[i] < |search.vcList|
      modifies search`output
      ensures |search.output| == |old(search.output)| + selection.ans.Length && old(search.output) <= search.output
      ensures forall i :: 0 <= i < selection.ans.Length ==>
                search.output[|old(search.output)| + i] == search.vcList[selection.ans[i]]
    {
      ghost var before := search.output;
      for i := 0 to selection.ans.Length
        invariant |search.output| == |before| + i && before <= search.output
        invariant forall j :: 0 <= j < i ==> search.output[|before| + j] == search.vcList[selection.ans[j]]
      {
        search.output := search.output + [search.vcList[selection.ans[i]]];
      }
    }

    /** One round, its cover index, and what the selection says to it. */
    method Round(subs: seq<Graph>, ghost whole: Graph, ghost eis: seq<seq<nat>>) returns (outcome: Outcome)
      requires Between(subs)
      requires whole.Valid() && EveryVertexUsed(whole) && Decomposes(whole, subs, eis, whole.vertices)
      modifies search, selection, selection.ans, selection.distances
      ensures search.mode == old(search.mode) && search.output == old(search.output)
      ensures search.coverIndex == old(search.coverIndex) + 1
      ensures search.Setup() == old(search.Setup()).(g := search.g)
      ensures RoundMade(old(search.Setup()), subs, old(search.Now()), search.Now())
      ensures outcome != Incomparable ==>
                Counted(search.coverIndex, search.vcList, old(selection.curSize), old(selection.ans[..]),
                        old(selection.distances[..]), old(selection.validateSuccessTime))
      ensures outcome != Incomparable ==>
                (outcome == Selected <==>
                 search.coverIndex > selection.topK && (|search.vcList| >= 125 || selection.validateSuccessTime > 5))
      ensures forall k :: 0 <= k < |search.vcList| ==> PartCover(search.mode, subs, search.vcList[k])
      ensures outcome == OutOfRounds ==> Between(subs)
      ensures outcome == Selected ==> Complete()
      ensures outcome == Outran ==> search.coverIndex > |search.vcList|
      ensures outcome == Incomparable ==> search.coverIndex == selection.topK && !Comparable(search.vcList)
      ensures SomeSure(search.mode, subs) ==>
                && (outcome.Selected? || outcome.OutOfRounds?) && search.coverIndex <= |search.vcList|
                && NoneEmpty(search.vcList, if outcome.Selected? then |search.vcList| else search.coverIndex)
    {
      hide Decomposes;
      hide SomeSure;
      hide NoneEmpty;
      hide Listed;
      hide PartCover;
      hide GoesOnWith;
      hide Graph.Valid;
      hide EveryVertexUsed;
      hide Comparable;
      hide AutoInc.Valid;
      hide Complete;
      hide RoundDone;
      hide Counted;
      ghost var before, r, topK := search.vcList, search.coverIndex, selection.topK;
      ghost var found := SearchRound(subs, whole, eis);
      search.coverIndex := search.coverIndex + 1;
      ghost var list := search.vcList;
      if search.coverIndex == selection.topK && !Comparable(search.vcList) {
        FirstIncomparable(search.mode, subs, before, list, r, topK, found);
        return Incomparable;
      }
      MayJudge(search.mode, subs, before, list, r, topK, found, selection.seen, selection.stale);
      UpdateStopFlag();
      outcome := if search.stopFlag then Selected
                 else if search.coverIndex > |search.vcList| then Outran
                 else OutOfRounds;
    }

    /** All components are searched for one entry. */
    method SearchRound(subs: seq<Graph>, ghost whole: Graph, ghost eis: seq<seq<nat>>) returns (ghost found: bool)
      requires search.autoInc && search.mode != PRIORITY && !search.stopFlag && search.coverIndex <= |search.vcList|
      requires whole.Valid() && EveryVertexUsed(whole) && Decomposes(whole, subs, eis, whole.vertices)
      requires Listed(search.mode, subs, search.vcList, search.coverIndex, selection.topK)
      modifies search
      ensures search.mode == old(search.mode) && search.output == old(search.output)
      ensures search.coverIndex == old(search.coverIndex)
      ensures GoesOnWith(search.mode, subs, old(search.vcList), search.vcList, search.coverIndex, selection.topK, found)
      ensures search.Now() == RoundDone(old(search.Setup()), old(search.Now()), subs)
      ensures search.Setup() == old(search.Setup()).(g := search.g)
    {
      SubsValid(whole, subs, eis);
      ghost var x, s := search.Setup(), search.Now();
      RoundLists(x, s, whole, subs, eis, selection.topK);
      ghost var t := RoundDone(x, s, subs);
      hide RoundDone;
      hide GoesOnWith;
      hide Listed;
      hide Decomposes;
      hide Graph.Valid;
      hide EveryVertexUsed;
      search.RunRound(subs, x, s);
      assert search.Now() == t;
      found := t.stopFlag;
    }

    /** Asks the selection whether to go on. */
    method UpdateStopFlag()
      requires selection.Valid()
      requires search.coverIndex == selection.topK ==>
                 selection.seen == [] && |search.vcList| == selection.topK && Comparable(search.vcList)
      requires search.coverIndex > selection.topK ==> selection.seen != [] && selection.Continues(search.vcList)
      modifies search`stopFlag, selection, selection.ans, selection.distances
      ensures selection.Valid()
      ensures selection.seen == if search.coverIndex < selection.topK then old(selection.seen) else search.vcList
      ensures search.coverIndex <= selection.topK || search.vcList != old(selection.seen) ==>
                selection.stale == old(selection.stale)
      ensures search.stopFlag ==> Complete()
      ensures search.stopFlag <==>
                search.coverIndex > selection.topK && (|search.vcList| >= 125 || selection.validateSuccessTime > 5)
      ensures Counted(search.coverIndex, search.vcList, old(selection.curSize), old(selection.ans[..]),
                      old(selection.distances[..]), old(selection.validateSuccessTime))
    {
      var stop, survived := selection.Judge(search.coverIndex, search.vcList);
      search.stopFlag := stop;
    }
  }

  /** Not where every round finds something. */
  lemma FirstIncomparable(mode: Method, subs: seq<Graph>, before: seq<BitSet>, after: seq<BitSet>, r: nat, topK: nat,
                          found: bool)
    requires Listed(mode, subs, before, r, topK) && GoesOnWith(mode, subs, before, after, r, topK, found) && r + 1 == topK
    requires !Comparable(after)
    ensures forall k :: 0 <= k < |after| ==> PartCover(mode, subs, after[k])
    ensures |after| == topK && (SomeSure(mode, subs) ==> !NoneEmpty(before, r))
  {
    hide PartCover;
    hide SomeSure;
    ListedPart(mode, subs, after, r + 1, topK);
    if forall k :: 0 <= k < |after| ==> after[k] != {} {
      WithoutEmpty(after);
    } else {
      var k :| 0 <= k < |after| && after[k] == {};
      if found && k < r {
        assert after[..r][k] == before[..r][k];
      }
    }
  }
}
