/** The diverse subset picked on the fly from the exact enumeration (sub_mmcs.cpp). */
module SubMmcs {
  import opened Collections
  import opened BitSets
  import opened IntSets
  import opened Hypergraphs
  import opened Covers
  import opened Accounting
  import opened SearchSteps
  import opened Loops
  import opened Jaccard
  import opened Mmcs

  /** Whether a cover is kept after the ones in `kept`: it is far enough from the last of them. */
  predicate Keeps(kept: seq<BitSet>, s: BitSet, threshold: real) {
    kept == [] || (kept[|kept| - 1] + s != {} && Distance(kept[|kept| - 1], s) >= threshold)
  }

  function Keep(kept: seq<BitSet>, s: BitSet, threshold: real): seq<BitSet> {
    if Keeps(kept, s, threshold) then kept + [s] else kept
  }

  /** The greedy filter over a whole enumeration. */
  function Filter(kept: seq<BitSet>, covers: seq<BitSet>, threshold: real): seq<BitSet>
    decreases covers
  {
    if covers == [] then kept else Filter(Keep(kept, covers[0], threshold), covers[1..], threshold)
  }

  /** The part of an enumeration that is looked at before `required` covers have been kept. */
  function Consumed(kept: seq<BitSet>, covers: seq<BitSet>, threshold: real, required: int): seq<BitSet>
    decreases covers
  {
    if |kept| == required || covers == [] then []
    else [covers[0]] + Consumed(Keep(kept, covers[0], threshold), covers[1..], threshold, required)
  }

  lemma {:induction false} FilterConcat(kept: seq<BitSet>, a: seq<BitSet>, b: seq<BitSet>, threshold: real)
    ensures Filter(kept, a + b, threshold) == Filter(Filter(kept, a, threshold), b, threshold)
    decreases a
  {
    if a == [] {
      assert a + b == b;
    } else {
      assert (a + b)[1..] == a[1..] + b;
      FilterConcat(Keep(kept, a[0], threshold), a[1..], b, threshold);
    }
  }

  lemma {:induction false} ConsumedPrefix(kept: seq<BitSet>, covers: seq<BitSet>, threshold: real, required: int)
    ensures Consumed(kept, covers, threshold, required) <= covers
    decreases covers
  {
    if |kept| != required && covers != [] {
      ConsumedPrefix(Keep(kept, covers[0], threshold), covers[1..], threshold, required);
    }
  }

  /** Consuming two enumerations in a row stops where consuming their concatenation stops. */
  lemma {:induction false} ConsumedConcat(kept: seq<BitSet>, a: seq<BitSet>, b: seq<BitSet>, threshold: real,
                                          required: int)
    ensures var first := Consumed(kept, a, threshold, required);
            Consumed(kept, a + b, threshold, required)
            == first + Consumed(Filter(kept, first, threshold), b, threshold, required)
    decreases a
  {
    if |kept| == required || a == [] {
      ConsumedNothing(kept, a, b, threshold, required);
    } else {
      hide Consumed;
      hide Filter;
      hide Keep;
      var next := Keep(kept, a[0], threshold);
      var rest := Consumed(next, a[1..], threshold, required);
      ConsumedConcat(next, a[1..], b, threshold, required);
      var later := Consumed(Filter(next, rest, threshold), b, threshold, required);
      assert a == [a[0]] + a[1..];
      assert a + b == [a[0]] + (a[1..] + b);
      ConsumedCons(kept, a[0], a[1..], threshold, required);
      ConsumedCons(kept, a[0], a[1..] + b, threshold, required);
      FilterCons(kept, a[0], rest, threshold);
      Reassociate([a[0]], rest, later);
    }
  }

  lemma ConsumedNothing(kept: seq<BitSet>, a: seq<BitSet>, b: seq<BitSet>, threshold: real, required: int)
    requires |kept| == required || a == []
    ensures Consumed(kept, a, threshold, required) == []
    ensures Consumed(kept, a + b, threshold, required)
            == [] + Consumed(Filter(kept, [], threshold), b, threshold, required)
  {
    assert a == [] ==> a + b == b;
  }

  lemma ConsumedCons(kept: seq<BitSet>, s: BitSet, rest: seq<BitSet>, threshold: real, required: int)
    requires |kept| != required
    ensures Consumed(kept, [s] + rest, threshold, required)
            == [s] + Consumed(Keep(kept, s, threshold), rest, threshold, required)
  {
    assert ([s] + rest)[1..] == rest;
  }

  lemma FilterCons(kept: seq<BitSet>, s: BitSet, rest: seq<BitSet>, threshold: real)
    ensures Filter(kept, [s] + rest, threshold) == Filter(Keep(kept, s, threshold), rest, threshold)
  {
    assert ([s] + rest)[1..] == rest;
  }

  lemma {:induction false} FilterGrows(kept: seq<BitSet>, covers: seq<BitSet>, threshold: real)
    ensures kept <= Filter(kept, covers, threshold)
    decreases covers
  {
    if covers != [] {
      FilterGrows(Keep(kept, covers[0], threshold), covers[1..], threshold);
    }
  }

  /** Two covers kept one after the other. */
  ghost predicate Spaced(kept: seq<BitSet>, threshold: real) {
    forall i, j :: 0 <= i < j < |kept| && j == i + 1 ==>
      kept[i] + kept[j] != {} && Distance(kept[i], kept[j]) >= threshold
  }

  /** Covers kept one after the other are at least `threshold` apart, and all of them come from the enumeration. */
  lemma {:induction false} FilterSpaced(kept: seq<BitSet>, covers: seq<BitSet>, threshold: real)
    requires Spaced(kept, threshold)
    ensures Spaced(Filter(kept, covers, threshold), threshold)
    ensures forall s :: s in Filter(kept, covers, threshold) ==> s in kept || s in covers
    decreases covers
  {
    hide Distance;
    if covers != [] {
      FilterSpaced(Keep(kept, covers[0], threshold), covers[1..], threshold);
    }
  }

  /** Stopping early keeps exactly the first `required` covers of the complete greedy filter. */
  lemma {:induction false} EarlyStop(kept: seq<BitSet>, covers: seq<BitSet>, threshold: real, required: nat)
    requires |kept| <= required
    ensures var full := Filter(kept, covers, threshold);
            Filter(kept, Consumed(kept, covers, threshold, required), threshold)
            == if |full| <= required then full else full[..required]
    decreases covers
  {
    FilterGrows(kept, covers, threshold);
    if |kept| == required || covers == [] {
    } else {
      var next := Keep(kept, covers[0], threshold);
      EarlyStop(next, covers[1..], threshold, required);
      var rest := Consumed(next, covers[1..], threshold, required);
      assert ([covers[0]] + rest)[1..] == rest;
    }
  }

  /** Going from `(kept, pushed)` to `(newKept, newPushed)` is consuming the enumeration `covers`. */
  ghost predicate Consumes(kept: seq<BitSet>, pushed: seq<BitSet>, newKept: seq<BitSet>, newPushed: seq<BitSet>,
                           covers: seq<BitSet>, threshold: real, required: int) {
    var part := Consumed(kept, covers, threshold, required);
    newPushed == pushed + part && newKept == Filter(kept, part, threshold)
  }

  lemma ConsumesNothing(kept: seq<BitSet>, pushed: seq<BitSet>, covers: seq<BitSet>, threshold: real, required: int)
    requires |kept| == required || covers == []
    ensures Consumes(kept, pushed, kept, pushed, covers, threshold, required)
  {
  }

  lemma ConsumesOne(kept: seq<BitSet>, pushed: seq<BitSet>, s: BitSet, threshold: real, required: int)
    requires |kept| != required
    ensures Consumes(kept, pushed, Keep(kept, s, threshold), pushed + [s], [s], threshold, required)
  {
    var next := Keep(kept, s, threshold);
    assert Consumed(next, [s][1..], threshold, required) == [];
    assert Consumed(kept, [s], threshold, required) == [s];
    assert Filter(next, [s][1..], threshold) == next;
  }

  lemma ConsumesConcat(k0: seq<BitSet>, p0: seq<BitSet>, k1: seq<BitSet>, p1: seq<BitSet>, k2: seq<BitSet>,
                       p2: seq<BitSet>,
                       a: seq<BitSet>, b: seq<BitSet>, threshold: real, required: int)
    requires Consumes(k0, p0, k1, p1, a, threshold, required)
    requires Consumes(k1, p1, k2, p2, b, threshold, required)
    ensures Consumes(k0, p0, k2, p2, a + b, threshold, required)
  {
    hide Consumed;
    hide Filter;
    var first, second := Consumed(k0, a, threshold, required), Consumed(k1, b, threshold, required);
    ConsumedConcat(k0, a, b, threshold, required);
    FilterConcat(k0, first, second, threshold);
    assert p0 + (first + second) == (p0 + first) + second;
  }

  // ---------- what the filter keeps ----------

  /** The kept covers sit at the positions `p` of the enumeration, the first one at its start. */
  ghost predicate Placed(covers: seq<BitSet>, kept: seq<BitSet>, p: seq<nat>) {
    && |p| == |kept| && (forall j :: 0 <= j < |p| ==> p[j] < |covers| && kept[j] == covers[p[j]])
    && Ascends(p) && (covers != [] ==> p != [] && p[0] == 0)
  }

  /** A cover that is passed over is too close to the one kept before it. */
  ghost predicate PassedOver(covers: seq<BitSet>, kept: seq<BitSet>, p: seq<nat>, threshold: real)
    requires |p| == |kept|
  {
    forall i, j :: 0 <= j < |p| && p[j] < i < |covers| && (forall k :: j < k < |p| ==> i < p[k]) ==>
      kept[j] + covers[i] == {} || Distance(kept[j], covers[i]) < threshold
  }

  /** The first cover is kept; covers kept one after the other are far enough apart; the others are too close. */
  ghost predicate Sampled(covers: seq<BitSet>, kept: seq<BitSet>, p: seq<nat>, threshold: real) {
    Placed(covers, kept, p) && Spaced(kept, threshold) && PassedOver(covers, kept, p, threshold)
  }

  /** What sampling means, in terms of the distances alone: the kept covers stand at ascending positions, the first at the
      start; each is at least `threshold` away from the one kept before it; and whatever stands after one kept cover and
      before all later ones is nearer to it than that. */
  lemma SampledMeaning(pushed: seq<BitSet>, kept: seq<BitSet>, p: seq<nat>, threshold: real)
    requires Sampled(pushed, kept, p, threshold) && NoDup(pushed)
    ensures |p| == |kept| && forall j :: 0 <= j < |p| ==> p[j] < |pushed| && kept[j] == pushed[p[j]]
    ensures forall i, j :: 0 <= i < j < |p| ==> p[i] < p[j]
    ensures pushed != [] ==> p != [] && p[0] == 0
    ensures forall i, j :: 0 <= i < j < |kept| && j == i + 1 ==>
              kept[i] + kept[j] != {} && Distance(kept[i], kept[j]) >= threshold
    ensures forall i, j :: 0 <= j < |p| && p[j] < i < |pushed| && (forall k :: j < k < |p| ==> i < p[k]) ==>
              kept[j] + pushed[i] != {} && Distance(kept[j], pushed[i]) < threshold
  {
    NoneBothEmpty(pushed);
    hide Distance;
  }

  lemma PlacedMore(covers: seq<BitSet>, kept: seq<BitSet>, p: seq<nat>, s: BitSet)
    requires Placed(covers, kept, p)
    ensures Placed(covers + [s], kept + [s], p + [|covers|])
    ensures covers != [] ==> Placed(covers + [s], kept, p)
  {
  }

  lemma SpacedMore(kept: seq<BitSet>, s: BitSet, threshold: real)
    requires Spaced(kept, threshold) && Keeps(kept, s, threshold)
    ensures Spaced(kept + [s], threshold)
  {
    hide Distance;
  }

  lemma PassedKeep(covers: seq<BitSet>, kept: seq<BitSet>, p: seq<nat>, s: BitSet, threshold: real)
    requires |p| == |kept| && PassedOver(covers, kept, p, threshold)
    ensures PassedOver(covers + [s], kept + [s], p + [|covers|], threshold)
  {
    hide Distance;
    var more, q, all := kept + [s], p + [|covers|], covers + [s];
    forall i, j | 0 <= j < |q| && q[j] < i < |all| && forall k :: j < k < |q| ==> i < q[k]
      ensures more[j] + all[i] == {} || Distance(more[j], all[i]) < threshold
    {
      if j < |p| {
        assert i < q[|p|] == |covers|;
        assert forall k :: j < k < |p| ==> i < q[k] && q[k] == p[k];
      }
    }
  }

  lemma PassedBefore(covers: seq<BitSet>, kept: seq<BitSet>, p: seq<nat>, threshold: real, i: nat, j: nat)
    requires |p| == |kept| && PassedOver(covers, kept, p, threshold)
    requires j < |p| && p[j] < i < |covers| && forall k :: j < k < |p| ==> i < p[k]
    ensures kept[j] + covers[i] == {} || Distance(kept[j], covers[i]) < threshold
  {
    hide Distance;
  }

  lemma PassedNow(covers: seq<BitSet>, kept: seq<BitSet>, p: seq<nat>, s: BitSet, threshold: real, j: nat)
    requires Placed(covers, kept, p) && !Keeps(kept, s, threshold)
    requires j < |p| && forall k :: j < k < |p| ==> |covers| < p[k]
    ensures kept[j] + s == {} || Distance(kept[j], s) < threshold
  {
    hide Distance;
    assert p[|p| - 1] < |covers|;
  }

  lemma PassedSkip(covers: seq<BitSet>, kept: seq<BitSet>, p: seq<nat>, s: BitSet, threshold: real)
    requires Placed(covers, kept, p) && PassedOver(covers, kept, p, threshold) && !Keeps(kept, s, threshold)
    ensures PassedOver(covers + [s], kept, p, threshold)
  {
    hide Distance;
    var all := covers + [s];
    forall i, j | 0 <= j < |p| && p[j] < i < |all| && forall k :: j < k < |p| ==> i < p[k]
      ensures kept[j] + all[i] == {} || Distance(kept[j], all[i]) < threshold
    {
      if i < |covers| {
        PassedBefore(covers, kept, p, threshold, i, j);
      } else {
        PassedNow(covers, kept, p, s, threshold, j);
      }
    }
  }

  lemma SampledMore(covers: seq<BitSet>, kept: seq<BitSet>, p: seq<nat>, s: BitSet, threshold: real)
    returns (q: seq<nat>)
    requires Sampled(covers, kept, p, threshold)
    ensures Sampled(covers + [s], Keep(kept, s, threshold), q, threshold)
  {
    PlacedMore(covers, kept, p, s);
    if Keeps(kept, s, threshold) {
      q := p + [|covers|];
      SpacedMore(kept, s, threshold);
      PassedKeep(covers, kept, p, s, threshold);
    } else {
      q := p;
      PassedSkip(covers, kept, p, s, threshold);
      assert kept != [] && covers != [];
    }
    hide Placed;
    hide Spaced;
    hide PassedOver;
  }

  /** The filter samples the enumeration in this way. */
  lemma {:induction false} FilterMeaning(covers: seq<BitSet>, threshold: real) returns (p: seq<nat>)
    ensures Sampled(covers, Filter([], covers, threshold), p, threshold)
    decreases |covers|
  {
    if covers == [] {
      p := [];
    } else {
      var n := |covers| - 1;
      var init, s := covers[..n], covers[n];
      assert covers == init + [s];
      p := FilterMeaning(init, threshold);
      var kept := Filter([], init, threshold);
      FilterConcat([], init, [s], threshold);
      FilterOne(kept, s, threshold);
      hide Filter;
      hide Sampled;
      p := SampledMore(init, kept, p, s, threshold);
    }
  }

  lemma FilterOne(kept: seq<BitSet>, s: BitSet, threshold: real)
    ensures Filter(kept, [s], threshold) == Keep(kept, s, threshold)
  {
    assert [s][1..] == [];
    assert Filter(Keep(kept, s, threshold), [], threshold) == Keep(kept, s, threshold);
  }

  lemma FilterNothing(kept: seq<BitSet>, threshold: real)
    ensures Filter(kept, [], threshold) == kept
  {
  }

  /** The enumeration is consumed to its end, or up to the cover that makes it `required` kept ones. */
  lemma {:induction false} ConsumedStops(kept: seq<BitSet>, covers: seq<BitSet>, threshold: real, required: int)
    ensures var part := Consumed(kept, covers, threshold, required);
            && part <= covers && (part == covers || |Filter(kept, part, threshold)| == required)
            && (part != [] ==> |Filter(kept, part[..|part| - 1], threshold)| != required)
    decreases covers
  {
    hide Keep;
    hide Filter;
    FilterNothing(kept, threshold);
    if |kept| != required && covers != [] {
      var next := Keep(kept, covers[0], threshold);
      var rest := Consumed(next, covers[1..], threshold, required);
      var part := Consumed(kept, covers, threshold, required);
      ConsumedStops(next, covers[1..], threshold, required);
      assert part == [covers[0]] + rest && covers == [covers[0]] + covers[1..];
      FilterCons(kept, covers[0], rest, threshold);
      if rest != [] {
        var n := |rest| - 1;
        assert part[..n + 1] == [covers[0]] + rest[..n];
        FilterCons(kept, covers[0], rest[..n], threshold);
      } else {
        assert part[..0] == [];
      }
    }
  }

  /** The cover that makes it one more is the last one kept. */
  lemma LastKept(covers: seq<BitSet>, threshold: real)
    requires covers != []
    requires |Filter([], covers[..|covers| - 1], threshold)| != |Filter([], covers, threshold)|
    ensures var kept := Filter([], covers, threshold);
            kept != [] && kept[|kept| - 1] == covers[|covers| - 1]
  {
    hide Filter;
    hide Keeps;
    var init, s := covers[..|covers| - 1], covers[|covers| - 1];
    assert covers == init + [s];
    FilterConcat([], init, [s], threshold);
    FilterOne(Filter([], init, threshold), s, threshold);
  }

  // ---------- the search ----------

  /** The fields the search works on. */
  datatype State = State(cur: BitSet, uncov: BitSet, at: Cursor, kept: seq<BitSet>, pushed: seq<BitSet>)

  /** From `s` to `t` the listing is consumed as far as needed; unless the search stops for good, partial cover and uncovered
      edges are handed back as they were. */
  ghost predicate Walks(s: State, t: State, l: Listing, threshold: real, required: int) {
    && Consumes(s.kept, s.pushed, t.kept, t.pushed, l.covers, threshold, required)
    && (|t.kept| != required ==> t.cur == s.cur && t.uncov == s.uncov && t.at == l.at)
  }

  lemma WalksNowhere(s: State, threshold: real, required: int)
    ensures Walks(s, s, Listing([], s.at), threshold, required)
  {
    ConsumesNothing(s.kept, s.pushed, [], threshold, required);
  }

  lemma WalksOver(s: State, l: Listing, threshold: real, required: int)
    requires |s.kept| == required
    ensures Walks(s, s, l, threshold, required)
  {
    ConsumesNothing(s.kept, s.pushed, l.covers, threshold, required);
  }

  lemma WalksMeaning(s: State, t: State, l: Listing, threshold: real, required: int)
    requires Walks(s, t, l, threshold, required)
    ensures Consumes(s.kept, s.pushed, t.kept, t.pushed, l.covers, threshold, required)
  {
  }

  lemma WalksFrom(s: State, t: State, u: State, l: Listing, threshold: real, required: int)
    requires Walks(t, u, l, threshold, required) && t == s.(at := t.at)
    ensures Walks(s, u, l, threshold, required)
  {
  }

  lemma WalksLeaf(s: State, t: State, threshold: real, required: int)
    requires |s.kept| != required && t == s.(kept := Keep(s.kept, s.cur, threshold), pushed := s.pushed + [s.cur])
    ensures Walks(s, t, Listing([s.cur], s.at), threshold, required)
  {
    ConsumesOne(s.kept, s.pushed, s.cur, threshold, required);
  }

  lemma WalksOn(s: State, t: State, u: State, listed: Listing, node: Listing, threshold: real, required: int)
    requires Walks(s, t, listed, threshold, required) && Walks(t, u, node, threshold, required) && |t.kept| != required
    ensures Walks(s, u, Listing(listed.covers + node.covers, node.at), threshold, required)
  {
    hide Consumes;
    ConsumesConcat(s.kept, s.pushed, t.kept, t.pushed, u.kept, u.pushed, listed.covers, node.covers, threshold, required);
  }

  /** Once enough covers are kept, what is still to come is never looked at. */
  lemma WalksAll(s: State, t: State, listed: Listing, rest: Listing, all: Listing, threshold: real, required: int)
    requires Walks(s, t, listed, threshold, required) && OnTheWay([], listed.covers, rest.covers, all.covers)
    requires |t.kept| == required || rest.at == all.at
    requires |t.kept| == required || (rest.covers == [] && rest.at == listed.at)
    ensures Walks(s, t, all, threshold, required)
  {
    ConsumesNothing(t.kept, t.pushed, rest.covers, threshold, required);
    hide Consumes;
    ConsumesConcat(s.kept, s.pushed, t.kept, t.pushed, t.kept, t.pushed, listed.covers, rest.covers, threshold, required);
    assert [] + all.covers == all.covers;
  }

  /** The root of the search. */
  lemma RootListing(x: Search, at: Cursor) returns (lost: multiset<BitSet>)
    requires x.g.Valid()
    ensures var all := Emissions(x, at, {}, x.g.vertices).covers;
            NoDup(all) && Delivers([], all, lost, Solutions(x.g, Hitting, {}, x.g.vertices))
    ensures x.mode != PRIORITY ==> lost == multiset{}
    ensures NodeState(x.g, {}, Uncov(x.g, {}), x.g.vertices, [], [])
  {
    assert Uncov(x.g, {}) == {} ==> Minimal(x.g, Hitting, {});
    lost := EmissionsDeliver(x, at, {}, x.g.vertices);
    DeliversNoDup(Emissions(x, at, {}, x.g.vertices).covers, lost, Solutions(x.g, Hitting, {}, x.g.vertices));
    RootState(x.g);
  }

  class SubMMCS {
    const g: Graph
    // the numbers the generator comes up with
    const random: nat -> nat
    const required: int
    const threshold: real
    var mode: Method
    var cur: BitSet
    var uncov: BitSet
    var nextEdge: nat
    var drawn: nat
    var prev: BitSet
    var hasPrev: bool
    var vcList: seq<BitSet>
    var output: seq<BitSet>

    ghost function Setup(): Search
      reads `mode
    {
      Search(g, mode, random)
    }

    ghost function At(): Cursor
      reads `nextEdge, `drawn
    {
      Cursor(nextEdge, drawn)
    }

    ghost function Now(): State
      reads `cur, `uncov, `nextEdge, `drawn, `vcList, `output
    {
      State(cur, uncov, At(), vcList, output)
    }

    /** `prev` is the last kept cover. */
    ghost predicate Valid()
      reads `prev, `hasPrev, `vcList
    {
      && (hasPrev <==> vcList != [])
      && (hasPrev ==> prev == vcList[|vcList| - 1])
    }

    constructor (g: Graph, numberOfVc: int, threshold: real, random: nat -> nat)
      ensures Valid() && this.g == g && required == numberOfVc && this.threshold == threshold && this.random == random
      ensures mode == ORDER && vcList == [] && output == [] && drawn == 0
    {
      this.g, this.required, this.threshold, this.random := g, numberOfVc, threshold, random;
      mode, cur, uncov, nextEdge, drawn, prev, hasPrev, vcList, output := ORDER, {}, {}, 0, 0, {}, false, [], [];
    }

    /** `all` is what the exact search would emit: the minimal hitting sets, each once. The covers pushed are a prefix of it;
        the cover kept as number `j` sits at position `p[j]`. The first cover is kept; any other exactly when it is far
        enough from the one kept before it; and the search stops right after the last one that is required. */
    method RunDiverse() returns (ghost all: seq<BitSet>, ghost lost: multiset<BitSet>, ghost p: seq<nat>)
      requires g.Valid() && Valid() && vcList == [] && output == []
      modifies `cur, `uncov, `nextEdge, `drawn, `prev, `hasPrev, `vcList, `output
      ensures all == Emissions(Setup(), old(At()), {}, g.vertices).covers
      ensures Delivers([], all, lost, Solutions(g, Hitting, {}, g.vertices)) && (mode != PRIORITY ==> lost == multiset{})
      ensures output <= all && NoDup(output) && Sampled(output, vcList, p, threshold)
      ensures |vcList| != required ==> output == all
      ensures |vcList| == required ==> if required == 0 then output == [] else p != [] && p[|p| - 1] == |output| - 1
      ensures output == Consumed([], all, threshold, required) && vcList == Filter([], output, threshold)
      ensures required >= 0 ==>
                var full := Filter([], all, threshold);
                vcList == if |full| <= required then full else full[..required]
    {
      hide Emissions;
      hide Delivers;
      hide Solutions;
      hide Consumed;
      hide Consumes;
      hide Filter;
      hide Sampled;
      hide Walks;
      hide NodeState;
      hide NoDup;
      hide Graph.Valid;
      hide Uncov;
      cur := {};
      uncov := AllEdges(g);
      ghost var s, l := Now(), Emissions(Setup(), At(), {}, g.vertices);
      all := l.covers;
      lost := RootListing(Setup(), At());
      RunDiverseFrom(g.vertices, [], []);
      WalksMeaning(s, Now(), l, threshold, required);
      p := WholeWalk(all, output, vcList, threshold, required);
    }

    /** A complete cover: it is kept when far enough from the last kept one, and pushed in any case. */
    method EmitCover()
      requires Valid()
      modifies `prev, `hasPrev, `vcList, `output
      ensures Valid() && vcList == Keep(old(vcList), cur, threshold) && output == old(output) + [cur]
    {
      var far := !hasPrev;
      if hasPrev && prev + cur != {} {
        var distance := GetDistance(prev, cur);
        far := distance >= threshold;
      }
      if far {
        prev, hasPrev := cur, true;
        vcList := vcList + [cur];
      }
      output := output + [cur];
    }

    /** One node: it consumes the node's emissions as far as needed, and restores the state unless the search stops for
        good. */
    method RunDiverseFrom(cand: BitSet, crit: seq<IntSet>, ghost chosen: seq<nat>)
      requires Valid() && NodeState(g, cur, uncov, cand, chosen, crit) && (cur != {} ==> nextEdge < |g.edges|)
      modifies `cur, `uncov, `nextEdge, `drawn, `prev, `hasPrev, `vcList, `output
      ensures Valid() && (old(nextEdge) < |g.edges| ==> nextEdge < |g.edges|)
      ensures var s := old(Now()); Walks(s, Now(), Emissions(Setup(), s.at, s.cur, cand), threshold, required)
      decreases |cand|, 4
    {
      hide Walks;
      ghost var s := Now();
      if |vcList| == required {
        WalksOver(s, Emissions(Setup(), s.at, cur, cand), threshold, required);
        return;
      }
      if uncov == {} {
        EmissionsLeaf(Setup(), s.at, cur, cand);
        EmitCover();
        WalksLeaf(s, Now(), threshold, required);
        return;
      }
      Branch(cand, crit, chosen);
    }

    /** A node with an uncovered edge. */
    method Branch(cand: BitSet, crit: seq<IntSet>, ghost chosen: seq<nat>)
      requires Valid() && NodeState(g, cur, uncov, cand, chosen, crit) && uncov != {} && |vcList| != required
      requires cur != {} ==> nextEdge < |g.edges|
      modifies `cur, `uncov, `nextEdge, `drawn, `prev, `hasPrev, `vcList, `output
      ensures Valid() && nextEdge < |g.edges|
      ensures var s := old(Now()); Walks(s, Now(), Emissions(Setup(), s.at, s.cur, cand), threshold, required)
      decreases |cand|, 3
    {
      NodeShape(g, cur, uncov, cand, chosen, crit);
      hide NodeState;
      hide Emissions;
      hide LoopEmissions;
      hide LoopShape;
      hide Uncov;
      hide Graph.Valid;
      hide Walks;
      hide Bits;
      ghost var s := Now();
      var candCopy, vs := TakeEdge(cand);
      ghost var t := Now();
      VisitVertices(cand, candCopy, crit, vs, chosen);
      WalksFrom(s, t, Now(), Emissions(Setup(), s.at, s.cur, cand), threshold, required);
    }

    /** Chooses an edge and takes its vertices out of the candidates. */
    method TakeEdge(cand: BitSet) returns (candCopy: BitSet, vs: seq<nat>)
      requires g.Valid() && uncov == Uncov(g, cur) && uncov != {} && cur !! cand && (cur != {} ==> nextEdge < |g.edges|)
      modifies `nextEdge, `drawn
      ensures LoopShape(cur, cand, candCopy, vs, 0) && nextEdge < |g.edges|
      ensures Emissions(Setup(), old(At()), cur, cand) == LoopEmissions(Setup(), At(), cur, candCopy, vs)
    {
      hide Emissions;
      hide LoopEmissions;
      hide LoopShape;
      hide ChosenEdge;
      hide Chose;
      hide Uncov;
      hide Graph.Valid;
      hide NoDup;
      hide Bits;
      ghost var x, at := Setup(), At();
      var e := ChooseEdge(cand);
      var c := Intersect(cand, g.edges[e]);
      candCopy, vs := cand - c, Bits(c);
      LoopStart(cur, cand, c);
      EmissionsOpen(x, at, cur, cand, e, c, At());
    }

    method ChooseEdge(cand: BitSet) returns (e: nat)
      requires g.Valid() && uncov == Uncov(g, cur) && uncov != {} && (cur != {} ==> nextEdge < |g.edges|)
      modifies `nextEdge, `drawn
      ensures e == ChosenEdge(Setup(), old(At()), cur, cand) && At() == Chose(Setup(), old(At()), cur, cand)
      ensures e < |g.edges| && nextEdge < |g.edges| && NoDup(g.edges[e])
      ensures e == EdgeChoice(g, mode, cur, uncov, cand, old(nextEdge), random(old(drawn)))
      ensures nextEdge == EdgeField(g, mode, cur, uncov, cand, old(nextEdge), random(old(drawn)))
      ensures drawn == old(drawn) + if mode == RANDOM || (cur == {} && mode != ORDER) then 1 else 0
    {
      hide EdgeChoice;
      hide EdgeField;
      hide Width;
      hide Bits;
      hide Least;
      assert forall w :: 0 <= w < |g.edges| ==> NoDup(g.edges[w]);
      hide Graph.Valid;
      hide NoDup;
      e, nextEdge := GetGoodEdgeToCover(g, mode, cur, uncov, cand, nextEdge, random(drawn));
      drawn := drawn + if DrawsEdge(mode, cur) then 1 else 0;
    }

    /** The loop over the candidates of the chosen edge; it stops as soon as enough covers are kept. */
    method VisitVertices(ghost cand: BitSet, initial: BitSet, crit: seq<IntSet>, vs: seq<nat>, ghost chosen: seq<nat>)
      requires Valid() && NodeState(g, cur, uncov, cand, chosen, crit) && LoopShape(cur, cand, initial, vs, 0)
      requires uncov != {} && nextEdge < |g.edges| && |vcList| != required
      modifies `cur, `uncov, `nextEdge, `drawn, `prev, `hasPrev, `vcList, `output
      ensures Valid() && nextEdge < |g.edges|
      ensures var s := old(Now()); Walks(s, Now(), LoopEmissions(Setup(), s.at, s.cur, initial, vs), threshold, required)
      decreases |cand|, 2
    {
      hide Emissions;
      hide LoopEmissions;
      hide LoopShape;
      hide NodeState;
      hide Graph.Valid;
      hide CritsMatch;
      hide Violates;
      hide Uncov;
      hide OnTheWay;
      hide Walks;
      hide Elems;
      hide NoDup;
      hide Valid;
      var candCopy := initial;
      assert vs[0..] == vs;
      ghost var x, s := Setup(), Now();
      ghost var all := LoopEmissions(x, s.at, cur, initial, vs);
      ghost var listed := Listing([], s.at);
      WayStarts([], all.covers);
      WalksNowhere(s, threshold, required);
      for i := 0 to |vs|
        invariant Valid() && |vcList| != required && cur == s.cur && uncov == s.uncov && Setup() == x
        invariant NodeState(g, cur, uncov, cand, chosen, crit)
        invariant nextEdge < |g.edges| && LoopShape(cur, cand, candCopy, vs, i)
        invariant listed.at == At() && LoopEmissions(x, At(), cur, candCopy, vs[i..]).at == all.at
        invariant OnTheWay([], listed.covers, LoopEmissions(x, At(), cur, candCopy, vs[i..]).covers, all.covers)
        invariant Walks(s, Now(), listed, threshold, required)
      {
        var v := vs[i];
        ghost var t, node := Now(), Emissions(x, At(), cur + {v}, candCopy);
        LoopTurn(cur, cand, candCopy, vs, i);
        LoopEmissionsStep(x, At(), cur, candCopy, vs, i);
        candCopy := TryVertex(cand, candCopy, crit, v, chosen);
        ghost var rest := LoopEmissions(x, node.at, s.cur, candCopy, vs[i + 1..]);
        if !Violates(g, s.cur, v) {
          WalksOn(s, t, Now(), listed, node, threshold, required);
          WayGoesOn([], listed.covers, listed.covers + node.covers, node.covers, rest.covers, all.covers);
          listed := Listing(listed.covers + node.covers, node.at);
        }
        if |vcList| == required {
          WalksAll(s, Now(), listed, rest, all, threshold, required);
          return;
        }
      }
      LoopEmissionsDone(x, At(), cur, candCopy, vs);
      WalksAll(s, Now(), listed, Listing([], At()), all, threshold, required);
    }

    /** One turn: a vertex that violates nothing is searched below, and is a candidate again afterwards. */
    method TryVertex(ghost cand: BitSet, candCopy: BitSet, crit: seq<IntSet>, v: nat, ghost chosen: seq<nat>)
      returns (newCand: BitSet)
      requires Valid() && NodeState(g, cur, uncov, cand, chosen, crit) && |vcList| != required
      requires v in cand && candCopy <= cand && v !in candCopy && v !in cur && nextEdge < |g.edges|
      modifies `cur, `uncov, `nextEdge, `drawn, `prev, `hasPrev, `vcList, `output
      ensures Valid() && nextEdge < |g.edges|
      ensures |vcList| != required ==> cur == old(cur) && uncov == old(uncov)
      ensures Violates(g, old(cur), v) ==> newCand == candCopy && Now() == old(Now())
      ensures !Violates(g, old(cur), v) ==>
                var s := old(Now());
                var l := Emissions(Setup(), s.at, s.cur + {v}, candCopy);
                && newCand == candCopy + {v} && Walks(s, Now(), l, threshold, required)
                && (|vcList| != required ==> At() == l.at)
      decreases |cand|, 1
    {
      NodeBasics(g, cur, uncov, cand, chosen, crit);
      hide NodeState;
      hide Emissions;
      hide Violates;
      hide CritsMatch;
      hide Consumes;
      newCand := candCopy;
      var violates := VertexWouldViolate(g, cur, chosen, crit, v);
      if !violates {
        Descend(cand, candCopy, crit, v, chosen);
        newCand := candCopy + {v};
      }
    }

    /** The subtree of `v`: extend the partial cover, search, and undo the extension unless the search stops. */
    method Descend(ghost cand: BitSet, candCopy: BitSet, crit: seq<IntSet>, v: nat, ghost chosen: seq<nat>)
      requires Valid() && NodeState(g, cur, uncov, cand, chosen, crit) && |vcList| != required
      requires v in cand && candCopy <= cand && v !in candCopy && v !in cur && nextEdge < |g.edges|
      modifies `cur, `uncov, `nextEdge, `drawn, `prev, `hasPrev, `vcList, `output
      ensures Valid() && nextEdge < |g.edges|
      ensures var s := old(Now()); Walks(s, Now(), Emissions(Setup(), s.at, s.cur + {v}, candCopy), threshold, required)
      decreases |cand|, 0
    {
      FlipTwice(cur, v);
      StrictSubsetCard(candCopy, cand, v);
      hide NodeState;
      hide Emissions;
      hide Uncov;
      hide Flip;
      hide Consumes;
      var critClone;
      critClone, uncov := Extend(g, cur, uncov, cand, chosen, crit, v, candCopy);
      cur := Flip(cur, v);
      RunDiverseFrom(candCopy, critClone, chosen + [v]);
      if |vcList| == required {
        return;
      }
      cur := Flip(cur, v);
      uncov := RestoreCritAndUncov(critClone, uncov);
    }
  }

  /** What consuming a whole enumeration comes to. */
  lemma WholeWalk(all: seq<BitSet>, pushed: seq<BitSet>, kept: seq<BitSet>, threshold: real, required: int)
    returns (p: seq<nat>)
    requires Consumes([], [], kept, pushed, all, threshold, required) && NoDup(all)
    ensures pushed == Consumed([], all, threshold, required) && kept == Filter([], pushed, threshold)
    ensures pushed <= all && NoDup(pushed) && Sampled(pushed, kept, p, threshold)
    ensures |kept| != required ==> pushed == all
    ensures |kept| == required ==> if required == 0 then pushed == [] else p != [] && p[|p| - 1] == |pushed| - 1
    ensures required >= 0 ==>
              var full := Filter([], all, threshold);
              kept == if |full| <= required then full else full[..required]
  {
    hide Consumes;
    hide Consumed;
    hide Filter;
    hide Sampled;
    hide NoDup;
    WalkParts(all, pushed, kept, threshold, required);
    if required >= 0 {
      EarlyStop([], all, threshold, required);
    }
    PrefixNoDup(pushed, all);
    p := FilterMeaning(pushed, threshold);
    if |kept| == required != 0 {
      StopsAtLast(pushed, kept, p, threshold);
    }
  }

  lemma WalkParts(all: seq<BitSet>, pushed: seq<BitSet>, kept: seq<BitSet>, threshold: real, required: int)
    requires Consumes([], [], kept, pushed, all, threshold, required)
    ensures pushed == Consumed([], all, threshold, required) && kept == Filter([], pushed, threshold) && pushed <= all
    ensures |kept| != required ==> pushed == all
    ensures required == 0 ==> pushed == []
    ensures pushed != [] ==> |Filter([], pushed[..|pushed| - 1], threshold)| != required
    ensures pushed == [] ==> kept == []
  {
    assert [] + Consumed([], all, threshold, required) == Consumed([], all, threshold, required);
    ConsumedStops([], all, threshold, required);
  }

  lemma PrefixNoDup(a: seq<BitSet>, b: seq<BitSet>)
    requires a <= b && NoDup(b)
    ensures NoDup(a)
  {
  }

  lemma StopsAtLast(pushed: seq<BitSet>, kept: seq<BitSet>, p: seq<nat>, threshold: real)
    requires kept == Filter([], pushed, threshold) && Sampled(pushed, kept, p, threshold) && NoDup(pushed) && kept != []
    requires pushed != [] ==> |Filter([], pushed[..|pushed| - 1], threshold)| != |kept|
    ensures p != [] && p[|p| - 1] == |pushed| - 1
  {
    LastKept(pushed, threshold);
    hide Filter;
    hide PassedOver;
    hide Spaced;
  }

  /** Different covers are not both empty. */
  lemma NoneBothEmpty(covers: seq<BitSet>)
    requires NoDup(covers)
    ensures forall i, j :: 0 <= i < j < |covers| ==> covers[i] + covers[j] != {}
  {
    forall i, j | 0 <= i < j < |covers|
      ensures covers[i] + covers[j] != {}
    {
      if covers[i] + covers[j] == {} {
        EmptyUnion(covers[i], covers[j]);
      }
    }
  }

  lemma EmptyUnion(a: BitSet, b: BitSet)
    requires a + b == {}
    ensures a == b
  {
    assert a <= a + b && b <= a + b;
  }
}
