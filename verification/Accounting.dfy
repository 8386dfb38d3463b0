/** Exactly-once accounting: what a search has delivered, lost, and still owes. */
module Accounting {
  import opened Collections
  import opened BitSets
  import opened Hypergraphs
  import opened Covers

  /** Starting from `first`, the output `now`, the lost covers and the pending ones make up `all`, each cover once. */
  ghost predicate Progress(first: seq<BitSet>, now: seq<BitSet>, lost: multiset<BitSet>,
                           pending: set<BitSet>, all: set<BitSet>) {
    first <= now && multiset(now) + lost + multiset(pending) == multiset(first) + multiset(all)
  }

  /** Nothing is pending any more. */
  ghost predicate Delivers(first: seq<BitSet>, now: seq<BitSet>, lost: multiset<BitSet>, all: set<BitSet>) {
    Progress(first, now, lost, {}, all)
  }

  lemma DeliversBag(first: seq<BitSet>, now: seq<BitSet>, all: set<BitSet>)
    requires Delivers(first, now, multiset{}, all)
    ensures first <= now && multiset(now[|first|..]) == multiset(all)
  {
    var added := now[|first|..];
    assert now == first + added;
    assert multiset(now) + multiset{} + multiset({}) == multiset(first) + multiset(all);
    forall x
      ensures multiset(added)[x] == multiset(all)[x]
    {
      assert (multiset(now) + multiset{} + multiset({}))[x] == multiset(first)[x] + multiset(all)[x];
    }
  }

  /** Whatever is lost, nothing is delivered twice. */
  lemma DeliversNoDup(now: seq<BitSet>, lost: multiset<BitSet>, all: set<BitSet>)
    requires Delivers([], now, lost, all)
    ensures NoDup(now)
  {
    assert multiset(now) + lost + multiset({}) == multiset([]) + multiset(all);
    forall i, j | 0 <= i < j < |now|
      ensures now[i] != now[j]
    {
      assert now == now[..j] + [now[j]] + now[j + 1..];
      assert now[i] in now[..j];
      assert (multiset(now) + lost + multiset({}))[now[j]] <= 1;
    }
  }

  /** What delivery without loss means: the new part of the output lists `all`, without repetition. */
  lemma DeliversMeaning(first: seq<BitSet>, now: seq<BitSet>, all: set<BitSet>)
    requires Delivers(first, now, multiset{}, all)
    ensures first <= now
    ensures Elems(now[|first|..]) == all && NoDup(now[|first|..])
  {
    var added := now[|first|..];
    DeliversBag(first, now, all);
    hide Delivers;
    forall x
      ensures x in Elems(added) <==> x in all
    {
      assert x in added <==> x in multiset(added);
    }
    forall i, j | 0 <= i < j < |added|
      ensures added[i] != added[j]
    {
      assert added == added[..j] + [added[j]] + added[j + 1..];
      assert added[i] in added[..j];
      assert multiset(added)[added[j]] <= 1;
    }
  }

  /** What a lossless search from the root has listed: every set that meets the target while no proper subset does,
      nothing else, and each once. */
  lemma EnumerationMeaning(g: Graph, t: Target, first: seq<BitSet>, now: seq<BitSet>)
    requires g.Valid() && Delivers(first, now, multiset{}, Solutions(g, t, {}, g.vertices))
    ensures first <= now && NoDup(now[|first|..])
    ensures forall s: BitSet :: s in now[|first|..] <==> Accepts(g, t, s) && forall r :: r < s ==> !Accepts(g, t, r)
  {
    var all := Solutions(g, t, {}, g.vertices);
    DeliversMeaning(first, now, all);
    var added := now[|first|..];
    forall s: BitSet
      ensures s in added <==> Accepts(g, t, s) && forall r :: r < s ==> !Accepts(g, t, r)
    {
      assert s in added <==> s in Elems(added);
      RootSolutions(g, t, s);
      MinimalMeaning(g, t, s);
    }
  }

  /** With `theta = 0` the exact and the approximate search list the same covers if and only if there is an edge. */
  lemma ZeroThetaSameOutput(g: Graph, exact: seq<BitSet>, approximate: seq<BitSet>)
    requires g.Valid() && Delivers([], exact, multiset{}, Solutions(g, Hitting, {}, g.vertices))
    requires Delivers([], approximate, multiset{}, Solutions(g, Approximate(|g.edges|, 0.0), {}, g.vertices))
    ensures multiset(exact) == multiset(approximate) <==> |g.edges| > 0
  {
    var a, b := Solutions(g, Hitting, {}, g.vertices), Solutions(g, Approximate(|g.edges|, 0.0), {}, g.vertices);
    DeliversBag([], exact, a);
    DeliversBag([], approximate, b);
    assert exact[0..] == exact && approximate[0..] == approximate;
    ZeroThetaAgreement(g);
    if multiset(a) == multiset(b) {
      forall s
        ensures s in a <==> s in b
      {
        assert s in a <==> s in multiset(a);
        assert s in b <==> s in multiset(b);
      }
      assert a == b;
    }
  }

  lemma ProgressStart(first: seq<BitSet>, all: set<BitSet>)
    ensures Progress(first, first, multiset{}, all, all)
  {
  }

  lemma ProgressDone(first: seq<BitSet>, now: seq<BitSet>, lost: multiset<BitSet>, all: set<BitSet>)
    requires Progress(first, now, lost, {}, all)
    ensures Delivers(first, now, lost, all)
  {
  }

  lemma DeliversOne(first: seq<BitSet>, s: BitSet)
    ensures Delivers(first, first + [s], multiset{}, {s})
  {
  }

  /** One loop turn that descends into `v`. */
  lemma ProgressVertex(g: Graph, t: Target, cur: BitSet, cand: BitSet, vs: BitSet, v: nat,
                       first: seq<BitSet>, before: seq<BitSet>, after: seq<BitSet>,
                       lost: multiset<BitSet>, below: multiset<BitSet>, all: set<BitSet>)
    returns (total: multiset<BitSet>)
    requires v in vs && vs !! cur && vs !! cand
    requires Progress(first, before, lost, LoopSolutions(g, t, cur, cand, vs), all)
    requires Delivers(before, after, below, Solutions(g, t, cur + {v}, cand))
    ensures Progress(first, after, total, LoopSolutions(g, t, cur, cand + {v}, vs - {v}), all)
    ensures total == lost + below
  {
    total := lost + below;
    var node, rest := Solutions(g, t, cur + {v}, cand), LoopSolutions(g, t, cur, cand + {v}, vs - {v});
    SplitOnVertex(g, t, cur, cand, vs, v);
    MultisetUnion(node, rest);
    Settle(multiset(before), multiset(after), lost, below, multiset(LoopSolutions(g, t, cur, cand, vs)),
           multiset(node), multiset(rest), multiset(first) + multiset(all));
  }

  lemma Settle<T>(before: multiset<T>, after: multiset<T>, lost: multiset<T>, below: multiset<T>,
                  pending: multiset<T>, node: multiset<T>, rest: multiset<T>, total: multiset<T>)
    requires before + lost + pending == total
    requires pending == node + rest
    requires after + below == before + node
    ensures after + (lost + below) + rest == total
  {
    assert after + (lost + below) + rest == (after + below) + lost + rest;
    assert (before + node) + lost + rest == before + lost + (node + rest);
  }

  /** The branch that avoids the chosen edge was skipped: its solutions, if any, are lost. */
  lemma DeliversEdge(g: Graph, t: Target, cur: BitSet, cand: BitSet, c: BitSet,
                     first: seq<BitSet>, now: seq<BitSet>, lost: multiset<BitSet>)
    returns (total: multiset<BitSet>)
    requires c <= cand && cur !! cand
    requires Delivers(first, now, lost, LoopSolutions(g, t, cur, cand - c, c))
    ensures Delivers(first, now, total, Solutions(g, t, cur, cand))
    ensures Solutions(g, t, cur, cand - c) == {} ==> total == lost
  {
    var avoiding, using := Solutions(g, t, cur, cand - c), LoopSolutions(g, t, cur, cand - c, c);
    total := lost + multiset(avoiding);
    SplitOnEdge(g, t, cur, cand, c);
    MultisetUnion(avoiding, using);
    assert multiset(now) + total + multiset({}) == multiset(now) + lost + multiset({}) + multiset(avoiding);
  }

  lemma DeliversNone(first: seq<BitSet>)
    ensures Delivers(first, first, multiset{}, {})
  {
  }

  /** Giving up on a node loses exactly its solutions. */
  lemma DeliversLost(first: seq<BitSet>, all: set<BitSet>)
    ensures Delivers(first, first, multiset(all), all)
  {
  }

  /** Both branches of a node were searched: first the one avoiding the chosen edge, then the one using it. */
  lemma DeliversBoth(g: Graph, t: Target, cur: BitSet, cand: BitSet, c: BitSet,
                     first: seq<BitSet>, mid: seq<BitSet>, now: seq<BitSet>,
                     lostAvoiding: multiset<BitSet>, lostUsing: multiset<BitSet>)
    returns (total: multiset<BitSet>)
    requires c <= cand && cur !! cand
    requires Delivers(first, mid, lostAvoiding, Solutions(g, t, cur, cand - c))
    requires Delivers(mid, now, lostUsing, LoopSolutions(g, t, cur, cand - c, c))
    ensures Delivers(first, now, total, Solutions(g, t, cur, cand))
    ensures total == lostAvoiding + lostUsing
  {
    var avoiding, using := Solutions(g, t, cur, cand - c), LoopSolutions(g, t, cur, cand - c, c);
    total := lostAvoiding + lostUsing;
    SplitOnEdge(g, t, cur, cand, c);
    MultisetUnion(avoiding, using);
    ChainBags(multiset(first), multiset(mid), multiset(now), lostAvoiding, lostUsing,
              multiset(avoiding), multiset(using), multiset(Solutions(g, t, cur, cand)));
  }

  lemma ChainBags<T>(first: multiset<T>, mid: multiset<T>, now: multiset<T>, lost1: multiset<T>, lost2: multiset<T>,
                     part1: multiset<T>, part2: multiset<T>, all: multiset<T>)
    requires mid + lost1 + multiset({}) == first + part1
    requires now + lost2 + multiset({}) == mid + part2
    requires all == part1 + part2
    ensures now + (lost1 + lost2) + multiset({}) == first + all
  {
    assert now + (lost1 + lost2) + multiset({}) == (now + lost2 + multiset({})) + lost1;
    assert (mid + part2) + lost1 == (mid + lost1 + multiset({})) + part2;
    assert (first + part1) + part2 == first + (part1 + part2);
  }

  /** A delivery looks the same wherever the output starts. */
  lemma DeliversShift(first: seq<BitSet>, part: seq<BitSet>, lost: multiset<BitSet>, all: set<BitSet>)
    requires Delivers([], part, lost, all)
    ensures Delivers(first, first + part, lost, all)
  {
    assert multiset(first + part) == multiset(first) + multiset(part);
    assert multiset(first + part) + lost + multiset({}) == multiset(first) + (multiset(part) + lost + multiset({}));
  }

  /** Delivering what is pending completes the account. */
  lemma ProgressFinish(first: seq<BitSet>, before: seq<BitSet>, after: seq<BitSet>, lost: multiset<BitSet>,
                       later: multiset<BitSet>, pending: set<BitSet>, all: set<BitSet>)
    requires Progress(first, before, lost, pending, all)
    requires Delivers(before, after, later, pending)
    ensures Delivers(first, after, lost + later, all)
  {
    Settle(multiset(before), multiset(after), lost, later, multiset(pending), multiset(pending), multiset({}),
           multiset(first) + multiset(all));
  }

  /** Two consecutive parts of a loop over `vs`: what `v` yields, and what the later vertices yield. */
  lemma DeliversTurn(g: Graph, t: Target, cur: BitSet, cand: BitSet, vs: BitSet, v: nat,
                     node: seq<BitSet>, rest: seq<BitSet>, lost: multiset<BitSet>, later: multiset<BitSet>)
    returns (total: multiset<BitSet>)
    requires v in vs && vs !! cur && vs !! cand
    requires Delivers([], node, lost, Solutions(g, t, cur + {v}, cand))
    requires Delivers([], rest, later, LoopSolutions(g, t, cur, cand + {v}, vs - {v}))
    ensures Delivers([], node + rest, total, LoopSolutions(g, t, cur, cand, vs)) && total == lost + later
  {
    var all, pending := LoopSolutions(g, t, cur, cand, vs), LoopSolutions(g, t, cur, cand + {v}, vs - {v});
    ProgressStart([], all);
    total := ProgressVertex(g, t, cur, cand, vs, v, [], [], node, multiset{}, lost, all);
    DeliversShift(node, rest, later, pending);
    hide Progress;
    ProgressFinish([], node, node + rest, total, later, pending, all);
    total := total + later;
  }

  // ---------- accounting in order ----------

  /** On the way from `first` to all of `all`: what is still to come is `rest`. */
  ghost predicate OnTheWay(first: seq<BitSet>, now: seq<BitSet>, rest: seq<BitSet>, all: seq<BitSet>) {
    now + rest == first + all
  }

  lemma WayStarts(first: seq<BitSet>, all: seq<BitSet>)
    ensures OnTheWay(first, first, all, all)
  {
  }

  lemma WayGoesOn(first: seq<BitSet>, before: seq<BitSet>, now: seq<BitSet>, node: seq<BitSet>, rest: seq<BitSet>,
                  all: seq<BitSet>)
    requires OnTheWay(first, before, node + rest, all) && now == before + node
    ensures OnTheWay(first, now, rest, all)
  {
    SettleInOrder(before, now, node, rest, first + all);
  }

  lemma WayEnds(first: seq<BitSet>, now: seq<BitSet>, all: seq<BitSet>)
    requires OnTheWay(first, now, [], all)
    ensures now == first + all
  {
    assert now + [] == now;
  }
}
