/** The randomised search for a set of minimal covers, with repair and back-jumps (random_enum.cpp). */
module RandomSearch {
  import opened Collections
  import opened BitSets
  import opened IntSets
  import opened Hypergraphs
  import opened Covers
  import opened SearchSteps
  import opened Repair
  import opened RandomSteps
  import opened Anchors
  import opened RandomSoundness
  import opened CalmSearch
  import opened Components
  import opened CoverUnion

  class RandomEnum {
    const required: nat
    const autoInc: bool
    // the numbers the generators come up with
    const random: nat -> nat
    var g: Graph
    var mode: Method
    var backCertain: bool
    var backPara: real
    var cur: BitSet
    var uncov: BitSet
    var curList: seq<nat>
    var nextEdge: nat
    var backSteps: nat
    var coverIndex: nat
    var stopFlag: bool
    var vcList: seq<BitSet>
    var drawn: nat
    var output: seq<BitSet>

    ghost function Setup(): Settings
      reads `g, `mode, `backCertain, `backPara
    {
      Settings(g, mode, required, autoInc, backCertain, backPara, random)
    }

    ghost function Now(): Snapshot
      reads this
    {
      Snapshot(cur, uncov, curList, nextEdge, backSteps, coverIndex, stopFlag, vcList, drawn)
    }

    constructor (g: Graph, numberOfVc: nat, autoInc: bool, random: nat -> nat)
      ensures Setup() == Settings(g, ORDER, numberOfVc, autoInc, true, 1.0, random)
      ensures vcList == seq(numberOfVc, _ => {}) && coverIndex == 0 && !stopFlag && output == []
    {
      this.g, required, this.autoInc, this.random := g, numberOfVc, autoInc, random;
      mode, backCertain, backPara, cur, uncov, curList, nextEdge := ORDER, true, 1.0, {}, {}, [], 0;
      backSteps, coverIndex, stopFlag, drawn := 0, 0, false, 0;
      vcList, output := seq(numberOfVc, _ => {}), [];
    }

    /** The components are searched one after another, each until every entry has received a cover of it, or until `rounds`
        searches have been made. Whenever the search comes back with all its covers, every one of them is minimal: put
        together from one minimal cover per component. Where every component is sure to yield a cover, as many searches as
        there are covers to find suffice. */
    method RunDiverse(rounds: nat) returns (done: bool, ghost traces: seq<seq<Snapshot>>)
      requires g.Valid() && mode != PRIORITY && !autoInc && vcList == seq(required, _ => {})
      modifies this
      ensures RunsThrough(old(Setup()), SubGraphs(old(g)).subs, old(Now()), rounds, traces)
      ensures traces != [] ==> Now() == traces[|traces| - 1][|traces[|traces| - 1]| - 1]
      ensures done <==> |traces| == |SubGraphs(old(g)).subs| && (traces != [] ==> coverIndex == required)
      ensures !done ==> traces != [] && |traces[|traces| - 1]| == rounds + 1
      ensures done ==> |vcList| == required && output == old(output) + vcList
      ensures done ==> forall k :: 0 <= k < required ==> MinimalApartFromEmpty(old(g), vcList[k])
      ensures done && required > 0 ==>
                ((forall k :: 0 <= k < required ==> Minimal(old(g), Hitting, vcList[k])) <==> EmptyEdges(old(g)) == {})
      ensures rounds >= required ==>
                (forall k :: 0 <= k < |SubGraphs(old(g)).subs| ==> Sure(SubGraphs(old(g)).subs[k], old(mode))) ==>
                done
      ensures AnchoredApartFromEmpty(old(g)) && rounds >= required ==> done
    {
      hide MinimalApartFromEmpty;
      hide PartialCover;
      hide Decomposes;
      hide Minimal;
      hide Graph.Valid;
      hide Sure;
      hide AnchoredApartFromEmpty;
      hide SubGraphs;
      hide RunsThrough;
      var subGraphs, eis := GetSubGraph(g);
      if AnchoredApartFromEmpty(g) {
        ComponentsAnchored(g, mode, subGraphs, eis);
        AnchoredAreSure(mode, subGraphs);
      }
      ghost var whole := g;
      done, traces := RunComponents(rounds, subGraphs, eis);
      if done {
        CoversDone(whole, subGraphs, eis, vcList);
        output := output + vcList;
      }
    }

    /** One component after another, until one of them is given up. */
    method RunComponents(rounds: nat, subGraphs: seq<Graph>, ghost eis: seq<seq<nat>>)
      returns (done: bool, ghost traces: seq<seq<Snapshot>>)
      requires Decomposes(g, subGraphs, eis, g.vertices)
      requires mode != PRIORITY && !autoInc && vcList == seq(required, _ => {})
      modifies `g, `cur, `uncov, `curList, `nextEdge, `backSteps, `coverIndex, `stopFlag, `vcList, `drawn
      ensures RunsThrough(old(Setup()), subGraphs, old(Now()), rounds, traces)
      ensures if traces == [] then Now() == old(Now()) else EndsWith(traces, Now())
      ensures done <==> |traces| == |subGraphs| && (traces != [] ==> coverIndex == required)
      ensures !done ==> traces != [] && |traces[|traces| - 1]| == rounds + 1
      ensures |vcList| == required
      ensures done ==> forall k :: 0 <= k < required ==> PartialCover(subGraphs, |subGraphs|, vcList[k])
      ensures rounds >= required && (forall k :: 0 <= k < |subGraphs| ==> Sure(subGraphs[k], mode)) ==> done
    {
      hide PartialCover;
      hide Decomposes;
      hide Minimal;
      hide Recorded;
      hide Graph.Valid;
      hide Sure;
      hide RunsThrough;
      hide Repeats;
      ghost var whole, x, s := g, Setup(), Now();
      PartialNothing(subGraphs);
      RunsNowhere(x, subGraphs, s, rounds);
      done, traces := true, [];
      for gi := 0 to |subGraphs|
        invariant |vcList| == required && done && mode == x.mode
        invariant Setup() == x.(g := g) && |traces| == gi && RunsThrough(x, subGraphs, s, rounds, traces)
        invariant if gi == 0 then Now() == s else EndsWith(traces, Now()) && coverIndex == required
        invariant forall k :: 0 <= k < required ==> PartialCover(subGraphs, gi, vcList[k])
      {
        g := subGraphs[gi];
        SubValid(whole, subGraphs, eis, gi);
        ghost var before, trace := vcList, [];
        done, trace := RunComponent(rounds);
        RunsFurther(x, subGraphs, s, rounds, traces, trace);
        traces := traces + [trace];
        if !done {
          return;
        }
        ComponentDone(whole, subGraphs, eis, gi, before, vcList);
      }
    }

    /** Searches one component from its root until every entry has received a cover of it, or `rounds` searches are made. */
    method RunComponent(rounds: nat) returns (done: bool, ghost trace: seq<Snapshot>)
      requires g.Valid() && mode != PRIORITY && !autoInc && |vcList| == required
      modifies `cur, `uncov, `curList, `nextEdge, `backSteps, `coverIndex, `stopFlag, `vcList, `drawn
      ensures |vcList| == required
      ensures trace != [] && trace[0] == old(Now()).(coverIndex := 0) && trace[|trace| - 1] == Now()
      ensures Repeats(Setup(), trace)
      ensures done <==> coverIndex == required
      ensures |trace| <= rounds + 1 && (!done ==> |trace| == rounds + 1)
      ensures done ==> Recorded(g, old(vcList), vcList, 0, required)
      ensures Sure(g, mode) && rounds >= required ==> done
    {
      hide Recorded;
      hide Sure;
      hide Searched;
      hide Advances;
      hide Graph.Valid;
      hide Repeats;
      coverIndex := 0;
      RecordedNothing(g, vcList, 0);
      trace := [Now()];
      RepeatsOnce(Setup(), Now());
      var left := rounds;
      while coverIndex < required && left > 0
        invariant coverIndex <= required == |vcList|
        invariant |trace| == rounds - left + 1 && trace[0] == old(Now()).(coverIndex := 0) && trace[|trace| - 1] == Now()
        invariant Repeats(Setup(), trace)
        invariant Recorded(g, old(vcList), vcList, 0, coverIndex)
        invariant Sure(g, mode) && rounds >= required ==> coverIndex + left >= required
        decreases left
      {
        ghost var last := Now();
        stopFlag := false;
        ghost var s := Now();
        SearchComponent();
        SearchRecords(Setup(), s);
        RecordedThen(g, old(vcList), s.vcList, vcList, 0, s.coverIndex, coverIndex);
        assert s == last.(stopFlag := false);
        RepeatsMore(Setup(), trace, Now());
        trace := trace + [Now()];
        left := left - 1;
      }
      done := coverIndex == required;
    }

    /** One search from the root of the component, with freshly initialised fields. */
    method SearchComponent()
      requires g.Valid() && mode != PRIORITY && Counting(Setup(), Now())
      modifies `cur, `uncov, `curList, `nextEdge, `backSteps, `coverIndex, `stopFlag, `vcList, `drawn
      ensures Now() == Searched(Setup(), Started(g, old(Now())), g.vertices, [])
    {
      cur, curList, backSteps := {}, [], 0;
      uncov := AllEdges(g);
      ReadyRoot(Setup(), old(Now()));
      hide Ready;
      hide Searched;
      RunDiverseFrom(g.vertices, [], true);
    }

    /** One round of the automatic variant: every component is searched once, for the same entry. */
    method RunRound(subGraphs: seq<Graph>, ghost x: Settings, ghost s: Snapshot)
      requires x == Setup() && s == Now()
      requires autoInc && mode != PRIORITY && Counting(Setup(), Now())
      requires forall k :: 0 <= k < |subGraphs| ==> subGraphs[k].Valid()
      modifies `g, `cur, `uncov, `curList, `nextEdge, `backSteps, `coverIndex, `stopFlag, `vcList, `drawn
      ensures Now() == RoundDone(x, s, subGraphs)
    {
      hide Searched;
      hide Advances;
      hide Graph.Valid;
      for gi := 0 to |subGraphs|
        invariant Now() == RoundDone(x, s, subGraphs[..gi]) && Counting(x, Now())
      {
        assert subGraphs[..gi + 1][..gi] == subGraphs[..gi];
        g := subGraphs[gi];
        assert Setup() == x.(g := subGraphs[gi]);
        ghost var t := Now();
        SearchComponent();
        SearchRecords(Setup(), t);
      }
      assert subGraphs[..|subGraphs|] == subGraphs;
    }

    /** The back-jump length. */
    method ChooseBackSteps(count: nat)
      modifies `backSteps, `drawn
      ensures Now() == Jump(Setup(), old(Now()), count)
    {
      if backCertain {
        backSteps := count;
      } else {
        var maxStep := MaxStep(backPara, count);
        backSteps := random(drawn) % maxStep;
        drawn := drawn + 1;
      }
    }

    /** A complete cover joins the entry under construction. */
    method RecordCover()
      requires Counting(Setup(), Now()) && !stopFlag
      modifies `vcList, `coverIndex, `stopFlag, `backSteps, `drawn
      ensures Now() == Leaf(Setup(), old(Now()))
    {
      ghost var list := Put(vcList, coverIndex, cur);
      if !autoInc {
        vcList := vcList[coverIndex := vcList[coverIndex] + cur];
        coverIndex := coverIndex + 1;
        stopFlag := coverIndex == required;
      } else {
        if coverIndex == |vcList| {
          vcList := vcList + [{}];
          assert {} + cur == cur;
        }
        vcList := vcList[coverIndex := vcList[coverIndex] + cur];
        stopFlag := true;
      }
      assert vcList == list;
      ChooseBackSteps(|cur|);
    }

    /** One node of the search. */
    method RunDiverseFrom(cand: BitSet, crit: seq<IntSet>, ghost healthy: bool)
      requires mode != PRIORITY && Ready(g, Now(), cand, crit, healthy) && Counting(Setup(), Now())
      requires cur != {} ==> nextEdge < |g.edges|
      modifies `cur, `uncov, `curList, `nextEdge, `backSteps, `coverIndex, `stopFlag, `vcList, `drawn
      ensures Setup() == old(Setup())
      ensures Now() == Searched(Setup(), old(Now()), cand, crit)
      decreases |cand|, 4
    {
      hide Ready;
      hide Branched;
      if stopFlag {
        return;
      }
      if uncov == {} {
        RecordCover();
        return;
      }
      OpenNode(cand, crit, healthy);
    }

    /** A node with an uncovered edge: choose one and visit its candidates in random order. */
    method OpenNode(cand: BitSet, crit: seq<IntSet>, ghost healthy: bool)
      requires mode != PRIORITY && Ready(g, Now(), cand, crit, healthy) && Counting(Setup(), Now())
      requires cur != {} ==> nextEdge < |g.edges|
      requires !stopFlag && uncov != {}
      modifies `cur, `uncov, `curList, `nextEdge, `backSteps, `coverIndex, `stopFlag, `vcList, `drawn
      ensures Setup() == old(Setup())
      ensures Now() == Searched(Setup(), old(Now()), cand, crit)
      decreases |cand|, 3
    {
      hide Ready;
      hide Counting;
      hide Candidates;
      hide Graph.Valid;
      hide Graph.Edge;
      hide NoDup;
      hide Bits;
      hide Least;
      hide Extreme;
      hide EdgeChoice;
      hide EdgeField;
      hide Searched;
      hide Branched;
      hide Shuffled;
      hide ChosenEdge;
      hide Opened;
      ghost var x, s := Setup(), Now();
      ReadyBasics(g, s, cand, crit, healthy);
      var e := ChooseEdge(cand);
      ghost var t := Now();
      var candCopy, messed := TakeCandidates(cand, e);
      ghost var open := OpenReady(x, s, cand, crit, healthy, e, t, candCopy, messed, Now());
      VisitCandidates(cand, candCopy, crit, messed, e, open);
    }

    /** Takes the vertices of the chosen edge out of the candidates and shuffles them. */
    method TakeCandidates(cand: BitSet, e: nat) returns (candCopy: BitSet, messed: seq<nat>)
      requires e < |g.edges| && NoDup(g.edges[e])
      modifies `drawn
      ensures candCopy == cand - g.Edge(e) && messed == Shuffled(random, old(drawn), Bits(cand * g.Edge(e)))
      ensures drawn == old(drawn) + |messed|
    {
      var c := Intersect(cand, g.edges[e]);
      candCopy := cand - c;
      messed := Mess(random, drawn, c);
      drawn := drawn + |messed|;
    }

    /** Picks the next edge. */
    method ChooseEdge(cand: BitSet) returns (e: nat)
      requires g.Valid() && mode != PRIORITY && uncov != {} && forall w :: w in uncov ==> w < |g.edges|
      requires cur != {} ==> nextEdge < |g.edges|
      modifies `nextEdge, `drawn
      ensures Now() == Opened(Setup(), old(Now()), cand) && e == ChosenEdge(Setup(), old(Now()), cand)
      ensures e < |g.edges| && nextEdge < |g.edges|
      ensures e in uncov || forall w :: w in uncov ==> cand !! g.Edge(w)
      ensures e == EdgeChoice(g, mode, cur, uncov, cand, old(nextEdge), random(old(drawn)))
      ensures nextEdge == EdgeField(g, mode, cur, uncov, cand, old(nextEdge), random(old(drawn)))
      ensures drawn == old(drawn) + if mode == RANDOM || (cur == {} && mode != ORDER) then 1 else 0
    {
      hide EdgeChoice;
      hide EdgeField;
      hide Width;
      hide Bits;
      hide Uncov;
      hide Least;
      hide Graph.Valid;
      e, nextEdge := GetGoodEdgeToCover(g, mode, cur, uncov, cand, nextEdge, random(drawn));
      drawn := drawn + if DrawsEdge(mode, cur) then 1 else 0;
    }

    /** Both loops over the candidates, and the countdown of a pending back-jump. */
    method VisitCandidates(ghost cand: BitSet, candCopy: BitSet, crit: seq<IntSet>, messed: seq<nat>, ghost e: nat,
                           ghost open: bool)
      requires mode != PRIORITY && Ready(g, Now(), cand, crit, open) && Counting(Setup(), Now()) && !stopFlag
      requires nextEdge < |g.edges| && Candidates(Setup(), Now(), cand, candCopy, messed, e) && (open ==> e in uncov)
      modifies `cur, `uncov, `curList, `nextEdge, `backSteps, `coverIndex, `stopFlag, `vcList, `drawn
      ensures Setup() == old(Setup())
      ensures Now() == Branched(Setup(), |cand|, old(Now()), candCopy, crit, messed)
      decreases |cand|, 2
    {
      ghost var x, s := Setup(), Now();
      hide Ready;
      hide Tries;
      hide Forces;
      var visited, jumped := TryVertices(cand, candCopy, crit, messed, e, open);
      if stopFlag || jumped {
        return;
      }
      if !visited {
        TriesAdvance(x, s, cand, candCopy, crit, messed, |messed|, e, open);
        assert messed[..|messed|] == messed;
        AdvancedReady(x, s, Now(), cand, crit, open);
        ForceVertices(cand, candCopy, crit, messed, e, open);
        if stopFlag {
          return;
        }
      }
      if backSteps != 0 {
        backSteps := backSteps - 1;
      }
    }

    /** The first loop: try every candidate that violates nothing. Reports whether there was one, and whether a pending
        back-jump ended the node. */
    method TryVertices(ghost cand: BitSet, initial: BitSet, crit: seq<IntSet>, messed: seq<nat>, ghost e: nat,
                       ghost open: bool)
      returns (visited: bool, jumped: bool)
      requires mode != PRIORITY && Ready(g, Now(), cand, crit, open) && Counting(Setup(), Now()) && !stopFlag
      requires nextEdge < |g.edges| && Candidates(Setup(), Now(), cand, initial, messed, e) && (open ==> e in uncov)
      modifies `cur, `uncov, `curList, `nextEdge, `backSteps, `coverIndex, `stopFlag, `vcList, `drawn
      ensures Setup() == old(Setup())
      ensures var t := Tries(Setup(), |cand|, old(Now()), initial, crit, messed);
              t.s == Now() && t.visited == visited && t.over == (stopFlag || jumped)
      decreases |cand|, 1
    {
      ghost var x, s := Setup(), Now();
      ReadyBasics(g, s, cand, crit, open);
      hide Ready;
      hide Counting;
      hide Candidates;
      hide CritsMatch;
      hide Violates;
      hide Elems;
      hide NoDup;
      hide Graph.Valid;
      hide Graph.Edge;
      hide Graph.Hits;
      hide Tries;
      hide TriedNext;
      hide UpdatedCrit;
      hide Searched;
      hide Below;
      hide Undone;
      visited, jumped := false, false;
      var candCopy := initial;
      TriesNothing(x, |cand|, s, initial, crit, messed);
      for i := 0 to |messed|
        invariant Tries(x, |cand|, s, initial, crit, messed[..i]) == Tried(Now(), candCopy, visited, false)
        invariant !jumped && !stopFlag && Setup() == x
      {
        TurnReady(x, s, cand, initial, crit, messed, i, e, open, Tried(Now(), candCopy, visited, false));
        TriesNext(x, |cand|, s, initial, crit, messed, i);
        ghost var t := Tried(Now(), candCopy, visited, false);
        if backSteps != 0 {
          TriedIdle(x, |cand|, t, crit, messed[i]);
          TriesOver(x, |cand|, s, initial, crit, messed, i + 1);
          jumped := true;
          return;
        }
        var v := messed[i];
        var violates := VertexWouldViolate(g, cur, curList, crit, v);
        if violates {
          TriedIdle(x, |cand|, t, crit, v);
        } else {
          visited := true;
          TryVertex(cand, candCopy, crit, v, e, open);
          TriedVisit(x, |cand|, t, crit, v, Now());
          if stopFlag {
            TriesOver(x, |cand|, s, initial, crit, messed, i + 1);
            return;
          }
          candCopy := candCopy + {v};
        }
      }
      assert messed[..|messed|] == messed;
    }

    /** Search below a vertex that violates nothing, and undo the extension unless the search stops. */
    method TryVertex(ghost cand: BitSet, candCopy: BitSet, crit: seq<IntSet>, v: nat, ghost e: nat, ghost open: bool)
      requires mode != PRIORITY && Ready(g, Now(), cand, crit, open) && Counting(Setup(), Now()) && !stopFlag
      requires nextEdge < |g.edges| && e < |g.edges| && (open ==> e in uncov && !Violates(g, cur, v))
      requires v in cand && v in g.Edge(e) && v !in cur && candCopy <= cand && v !in candCopy && |candCopy| < |cand|
      modifies `cur, `uncov, `curList, `nextEdge, `backSteps, `coverIndex, `stopFlag, `vcList, `drawn
      ensures Setup() == old(Setup())
      ensures var newCrit := UpdatedCrit(g, crit, old(uncov), v);
              && Now() == Undone(Searched(Setup(), Below(g, old(Now()), v), candCopy, newCrit), v, newCrit)
      decreases |cand|, 0
    {
      ghost var x, s := Setup(), Now();
      BelowReady(x, s, cand, crit, open, v, e, candCopy);
      hide Ready;
      hide Counting;
      hide Searched;
      hide UpdatedCrit;
      hide Below;
      hide Violates;
      hide Graph.Edge;
      hide Graph.Valid;
      var critClone := Extend(v, crit);
      RunDiverseFrom(candCopy, critClone, open);
      if !stopFlag {
        Undo(v, critClone);
      }
    }

    method Extend(v: nat, crit: seq<IntSet>) returns (critClone: seq<IntSet>)
      requires g.Valid()
      modifies `cur, `uncov, `curList
      ensures Now() == Below(g, old(Now()), v) && critClone == UpdatedCrit(g, crit, old(uncov), v)
    {
      hide UpdatedCrit;
      hide Elems;
      hide NoDup;
      hide Bits;
      critClone, uncov := UpdateCritAndUncov(g, crit, uncov, v);
      cur := Flip(cur, v);
      curList := curList + [v];
    }

    method Undo(v: nat, critClone: seq<IntSet>)
      requires curList != [] && critClone != [] && !stopFlag
      modifies `cur, `uncov, `curList
      ensures Now() == Undone(old(Now()), v, critClone)
    {
      curList := curList[..|curList| - 1];
      cur := Flip(cur, v);
      uncov := RestoreCritAndUncov(critClone, uncov);
    }

    /** The second loop, when every candidate violates: force one in after another. */
    method ForceVertices(ghost cand: BitSet, candCopy: BitSet, crit: seq<IntSet>, messed: seq<nat>, ghost e: nat,
                         ghost open: bool)
      requires mode != PRIORITY && Ready(g, Now(), cand, crit, open) && Counting(Setup(), Now()) && !stopFlag
      requires nextEdge < |g.edges| && Candidates(Setup(), Now(), cand, candCopy, messed, e) && (open ==> e in uncov)
      modifies `cur, `uncov, `curList, `nextEdge, `backSteps, `coverIndex, `stopFlag, `vcList, `drawn
      ensures Setup() == old(Setup())
      ensures Now() == Forces(Setup(), |cand|, old(Now()), candCopy, crit, messed)
      decreases |cand|, 1
    {
      ghost var x, s := Setup(), Now();
      hide Ready;
      hide Counting;
      hide Candidates;
      hide Graph.Edge;
      hide Forces;
      hide ForcedNext;
      ForcesNothing(x, |cand|, s, candCopy, crit, messed);
      for i := 0 to |messed|
        invariant Forces(x, |cand|, s, candCopy, crit, messed[..i]) == Now() && Setup() == x && !stopFlag
      {
        if backSteps != 0 {
          ForcesOver(x, |cand|, s, candCopy, crit, messed, i);
          return;
        }
        ForceReady(x, s, cand, candCopy, crit, messed, i, e, open, Now());
        ForcesNext(x, |cand|, s, candCopy, crit, messed, i);
        ForceVertex(cand, candCopy, crit, messed[i], e, open);
        if stopFlag {
          ForcesOver(x, |cand|, s, candCopy, crit, messed, i + 1);
          return;
        }
      }
      assert messed[..|messed|] == messed;
    }

    /** Force `v` in, repair, search, and put the saved state back unless the search stops. */
    method ForceVertex(ghost cand: BitSet, candCopy: BitSet, crit: seq<IntSet>, v: nat, ghost e: nat, ghost open: bool)
      requires mode != PRIORITY && Ready(g, Now(), cand, crit, open) && Counting(Setup(), Now()) && !stopFlag &&
               backSteps == 0
      requires nextEdge < |g.edges| && e < |g.edges| && (open ==> e in uncov)
      requires v in cand && v in g.Edge(e) && v !in cur && candCopy <= cand && v !in candCopy && |candCopy| < |cand|
      modifies `cur, `uncov, `curList, `nextEdge, `backSteps, `coverIndex, `stopFlag, `vcList, `drawn
      ensures Setup() == old(Setup())
      ensures Now() == ForcedNext(Setup(), |cand|, old(Now()), candCopy, crit, v)
      decreases |cand|, 0
    {
      ghost var x, s := Setup(), Now();
      ForcedReady(x, s, cand, crit, open, v, e, candCopy);
      hide Ready;
      hide Counting;
      hide Searched;
      hide Repaired;
      hide Forced;
      hide Graph.Edge;
      hide Graph.Valid;
      var oldCur, oldCurList, oldUncov := cur, curList, uncov;
      var critClone := Repair(v, crit);
      RunDiverseFrom(candCopy, critClone, open);
      if !stopFlag {
        PutBack(oldCur, oldCurList, oldUncov, s);
      }
    }

    method PutBack(oldCur: BitSet, oldCurList: seq<nat>, oldUncov: BitSet, ghost saved: Snapshot)
      requires !stopFlag && saved.cur == oldCur && saved.curList == oldCurList && saved.uncov == oldUncov
      modifies `cur, `uncov, `curList, `backSteps, `drawn
      ensures Now() == Restored(Setup(), saved, old(Now()))
    {
      cur, curList, uncov := oldCur, oldCurList, oldUncov;
      if |cur| != 0 {
        ChooseBackSteps(|cur| + 1);
      }
    }

    method Repair(v: nat, crit: seq<IntSet>) returns (critClone: seq<IntSet>)
      requires g.Valid() && |crit| == |curList|
      modifies `cur, `uncov, `curList
      ensures Now() == Forced(g, old(Now()), crit, v)
      ensures critClone == Repaired(g, old(curList), crit, old(cur), old(uncov), v).crit
    {
      hide Repaired;
      hide Graph.Hits;
      curList, critClone, cur, uncov := Force(g, curList, crit, cur, uncov, v);
    }
  }

  /** A random order of the candidates. */
  method Mess(random: nat -> nat, drawn: nat, c: BitSet) returns (messed: seq<nat>)
    ensures messed == Shuffled(random, drawn, Bits(c))
    ensures NoDup(messed) && Elems(messed) == c
  {
    messed := [];
    var bits := Bits(c);
    ShuffledMeaning(random, drawn, bits);
    ShuffledNothing(random, drawn, bits);
    hide Shuffled;
    hide NoDup;
    for k := 0 to |bits|
      invariant messed == Shuffled(random, drawn, bits[..k])
    {
      ShuffledNext(random, drawn, bits, k);
      messed := messed + [bits[k]];
      var id := random(drawn + k) % |messed|;
      messed := messed[id := messed[k]][k := messed[id]];
    }
    assert bits[..|bits|] == bits;
  }

  // ---------- what a search from the root records ----------

  /** In the variant with a fixed number of covers, and in the automatic one. */
  lemma SearchRecords(x: Settings, s: Snapshot)
    requires x.g.Valid() && x.mode != PRIORITY && Counting(x, s)
    ensures var t := Searched(x, Started(x.g, s), x.g.vertices, []);
            && Counting(x, t) && (x.autoInc ==> t.coverIndex == s.coverIndex)
            && Recorded(x.g, s.vcList, t.vcList, Mark(x, s), Mark(x, t))
            && (s.stopFlag ==> t.stopFlag && t.vcList == s.vcList)
            && (Sure(x.g, x.mode) && !s.stopFlag ==> Mark(x, t) > Mark(x, s))
  {
    hide Recorded;
    hide Ready;
    hide Finds;
    hide Searched;
    hide Sure;
    ReadyRoot(x, s);
    SearchedAdvances(x, Started(x.g, s), x.g.vertices, [], true);
    if Sure(x.g, x.mode) && !s.stopFlag {
      RootFinds(x, s);
    }
  }

  ghost predicate EndsWith(traces: seq<seq<Snapshot>>, s: Snapshot) {
    traces != [] && traces[|traces| - 1] != [] && s == traces[|traces| - 1][|traces[|traces| - 1]| - 1]
  }

  /** With a minimal cover of every component in every entry, the entries are as good as can be. */
  lemma CoversDone(whole: Graph, subs: seq<Graph>, eis: seq<seq<nat>>, list: seq<BitSet>)
    requires whole.Valid() && Decomposes(whole, subs, eis, whole.vertices)
    requires forall k :: 0 <= k < |list| ==> PartialCover(subs, |subs|, list[k])
    ensures forall k :: 0 <= k < |list| ==> MinimalApartFromEmpty(whole, list[k])
    ensures |list| > 0 ==>
              ((forall k :: 0 <= k < |list| ==> Minimal(whole, Hitting, list[k])) <==> EmptyEdges(whole) == {})
  {
    hide MinimalApartFromEmpty;
    hide PartialCover;
    hide Decomposes;
    hide Minimal;
    hide Graph.Valid;
    forall k | 0 <= k < |list|
      ensures MinimalApartFromEmpty(whole, list[k])
      ensures Minimal(whole, Hitting, list[k]) <==> EmptyEdges(whole) == {}
    {
      UnionIsMinimal(whole, subs, eis, list[k]);
      MinimalWithoutEmpty(whole, list[k]);
    }
    if |list| > 0 {
      assert Minimal(whole, Hitting, list[0]) <==> EmptyEdges(whole) == {};
    }
  }

  lemma ComponentDone(g: Graph, subs: seq<Graph>, eis: seq<seq<nat>>, i: nat, before: seq<BitSet>, after: seq<BitSet>)
    requires Decomposes(g, subs, eis, g.vertices) && i < |subs| && Recorded(subs[i], before, after, 0, |before|)
    requires |after| == |before|
    requires forall k :: 0 <= k < |before| ==> PartialCover(subs, i, before[k])
    ensures forall k :: 0 <= k < |after| ==> PartialCover(subs, i + 1, after[k])
  {
    hide PartialCover;
    hide Decomposes;
    hide Minimal;
    forall k | 0 <= k < |after|
      ensures PartialCover(subs, i + 1, after[k])
    {
      assert Gained(subs[i], Entry(before, k), after[k]);
      var s: BitSet :| Minimal(subs[i], Hitting, s) && after[k] == before[k] + s;
      PartialMore(g, subs, eis, i, before[k], s);
    }
  }
}
