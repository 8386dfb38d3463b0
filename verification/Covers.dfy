/** The mathematics shared by all searches: covers, critical edges, and how a search node splits its solutions. */
module Covers {
  import opened Collections
  import opened Hypergraphs

  /** When a partial cover is good enough: exact covers, or a coverage score of at least `1 - theta`. */
  datatype Target = Hitting | Approximate(edgeNum: nat, theta: real) {

    /** The test on the number of uncovered edges. Without edges the score is 0/0, which compares false. */
    predicate Meets(uncovered: nat) {
      match this
      case Hitting => uncovered == 0
      case Approximate(n, theta) => n > 0 && F1(n, uncovered) >= 1.0 - theta
    }
  }

  /** The coverage score of common/approximate_functions.h. */
  function F1(edgeNum: nat, uncovered: nat): real
    requires edgeNum > 0
  {
    1.0 - uncovered as real / edgeNum as real
  }

  lemma MeetsAntitone(t: Target, a: nat, b: nat)
    requires a <= b && t.Meets(b)
    ensures t.Meets(a)
  {
    if t.Approximate? {
      var n := t.edgeNum as real;
      assert a as real / n <= b as real / n;
    }
  }

  /** The score test is the budget test: at most `theta` times the number of edges stay uncovered. */
  lemma MeetsIsBudget(t: Target, k: nat)
    requires t.Approximate? && t.edgeNum > 0
    ensures t.Meets(k) <==> k as real <= t.theta * t.edgeNum as real
  {
    var n, x := t.edgeNum as real, k as real;
    var q := x / n;
    assert q * n == x;
    if q <= t.theta {
      assert q * n <= t.theta * n;
    } else {
      assert q * n > t.theta * n;
    }
  }

  /** The edges that `s` does not hit. */
  function Uncov(g: Graph, s: set<nat>): set<nat> {
    set e: nat | e < |g.edges| && g.Edge(e) !! s
  }

  /** The edges that `u` alone hits among `s`. */
  function Crit(g: Graph, s: set<nat>, u: nat): set<nat> {
    Uncov(g, s - {u}) - Uncov(g, s)
  }

  predicate Accepts(g: Graph, t: Target, s: set<nat>) {
    t.Meets(|Uncov(g, s)|)
  }

  predicate Minimal(g: Graph, t: Target, s: set<nat>) {
    Accepts(g, t, s) && forall v :: v in s ==> !Accepts(g, t, s - {v})
  }

  /** The minimal covers that contain `cur` and add only candidates. */
  ghost function Solutions(g: Graph, t: Target, cur: set<nat>, cand: set<nat>): set<set<nat>> {
    set s | s <= cur + cand && cur <= s && Minimal(g, t, s)
  }

  /** The minimal covers over `cur`, `cand` and `vs` that use at least one of `vs`. */
  ghost function LoopSolutions(g: Graph, t: Target, cur: set<nat>, cand: set<nat>, vs: set<nat>): set<set<nat>> {
    set s | s <= cur + cand + vs && cur <= s && s * vs != {} && Minimal(g, t, s)
  }

  /** Adding `v` to the partial cover would leave some chosen vertex without a critical edge. */
  ghost predicate Violates(g: Graph, cur: set<nat>, v: nat) {
    exists u :: u in cur && Crit(g, cur, u) <= g.Hits(v)
  }

  // ---------- uncovered and critical edges ----------

  lemma CritMeaning(g: Graph, s: set<nat>, u: nat)
    requires u in s
    ensures forall e: nat :: e in Crit(g, s, u) <==> e < |g.edges| && g.Edge(e) * s == {u}
  {
    forall e: nat | e < |g.edges|
      ensures e in Crit(g, s, u) <==> g.Edge(e) * s == {u}
    {
      if g.Edge(e) * s == {u} {
        assert u in g.Edge(e);
        assert g.Edge(e) !! (s - {u});
      }
    }
  }

  lemma UncovMonotone(g: Graph, a: set<nat>, b: set<nat>)
    requires a <= b
    ensures Uncov(g, b) <= Uncov(g, a)
    ensures |Uncov(g, b)| <= |Uncov(g, a)|
  {
    SubsetCard(Uncov(g, b), Uncov(g, a));
  }

  lemma AcceptsMonotone(g: Graph, t: Target, a: set<nat>, b: set<nat>)
    requires a <= b && Accepts(g, t, a)
    ensures Accepts(g, t, b)
  {
    UncovMonotone(g, a, b);
    MeetsAntitone(t, |Uncov(g, b)|, |Uncov(g, a)|);
  }

  lemma UncovAdd(g: Graph, s: set<nat>, v: nat)
    ensures Uncov(g, s + {v}) == Uncov(g, s) - g.Hits(v)
  {
  }

  /** The incremental update of the critical edges when `v` joins. */
  lemma CritAdd(g: Graph, s: set<nat>, v: nat, u: nat)
    requires v !in s && u in s
    ensures Crit(g, s + {v}, u) == Crit(g, s, u) - g.Hits(v)
  {
    UncovAdd(g, s, v);
    UncovAdd(g, s - {u}, v);
    assert s + {v} - {u} == s - {u} + {v};
  }

  lemma CritNew(g: Graph, s: set<nat>, v: nat)
    requires v !in s
    ensures Crit(g, s + {v}, v) == Uncov(g, s) * g.Hits(v)
  {
    UncovAdd(g, s, v);
    assert s + {v} - {v} == s;
  }

  /** Dropping `u` uncovers exactly its critical edges. */
  lemma UncovDrop(g: Graph, s: set<nat>, u: nat)
    requires u in s
    ensures Uncov(g, s - {u}) == Uncov(g, s) + Crit(g, s, u)
    ensures |Uncov(g, s - {u})| == |Uncov(g, s)| + |Crit(g, s, u)|
  {
    UncovMonotone(g, s - {u}, s);
    assert Uncov(g, s - {u}) == Uncov(g, s) + Crit(g, s, u);
  }

  // ---------- minimal covers ----------

  /** Minimality against single removals is minimality against every proper subset. */
  lemma MinimalMeaning(g: Graph, t: Target, s: set<nat>)
    ensures Minimal(g, t, s) <==> Accepts(g, t, s) && forall r :: r < s ==> !Accepts(g, t, r)
  {
    if Minimal(g, t, s) {
      forall r | r < s
        ensures !Accepts(g, t, r)
      {
        var v :| v in s && v !in r;
        if Accepts(g, t, r) {
          AcceptsMonotone(g, t, r, s - {v});
        }
      }
    }
  }

  /** Minimal covers use only vertices of the graph, so the root of a search sees all of them. */
  lemma MinimalInVertices(g: Graph, t: Target, s: set<nat>)
    requires g.Valid() && Minimal(g, t, s)
    ensures s <= g.vertices
  {
    forall v | v in s
      ensures v in g.vertices
    {
      UncovAdd(g, s - {v}, v);
      assert s - {v} + {v} == s;
      assert v !in g.vertices ==> g.Hits(v) == {};
    }
  }

  lemma RootSolutions(g: Graph, t: Target, s: set<nat>)
    requires g.Valid()
    ensures s in Solutions(g, t, {}, g.vertices) <==> Minimal(g, t, s)
  {
    if Minimal(g, t, s) {
      MinimalInVertices(g, t, s);
    }
  }

  /** A vertex without a critical edge is superfluous. */
  lemma EmptyCritNotMinimal(g: Graph, t: Target, s: set<nat>, u: nat)
    requires u in s && Crit(g, s, u) == {}
    ensures !Minimal(g, t, s)
  {
    UncovDrop(g, s, u);
  }

  lemma CritShrinks(g: Graph, a: set<nat>, b: set<nat>, u: nat)
    requires a <= b && u in a
    ensures Crit(g, b, u) <= Crit(g, a, u)
  {
    CritMeaning(g, a, u);
    CritMeaning(g, b, u);
    forall e | e in Crit(g, b, u)
      ensures e in Crit(g, a, u)
    {
      assert u in g.Edge(e) * b;
      assert g.Edge(e) * a == {u};
    }
  }

  /** No minimal cover extends a partial cover by a violating vertex. */
  lemma ViolatingIsLost(g: Graph, t: Target, cur: set<nat>, v: nat, s: set<nat>)
    requires Violates(g, cur, v) && v !in cur && cur + {v} <= s
    ensures !Minimal(g, t, s)
  {
    var u :| u in cur && Crit(g, cur, u) <= g.Hits(v);
    CritAdd(g, cur, v, u);
    CritShrinks(g, cur + {v}, s, u);
    EmptyCritNotMinimal(g, t, s, u);
  }

  // ---------- how a node splits ----------

  /** Once `cur` is accepted nothing larger is minimal. */
  lemma LeafSolutions(g: Graph, t: Target, cur: set<nat>, cand: set<nat>)
    requires Accepts(g, t, cur)
    ensures Solutions(g, t, cur, cand) == if Minimal(g, t, cur) then {cur} else {}
  {
    forall s | s in Solutions(g, t, cur, cand)
      ensures s == cur
    {
      if s != cur {
        var v :| v in s && v !in cur;
        AcceptsMonotone(g, t, cur, s - {v});
      }
    }
  }

  /** If not even all candidates together suffice, the node has no solution. */
  lemma DeadSolutions(g: Graph, t: Target, cur: set<nat>, cand: set<nat>)
    requires !Accepts(g, t, cur + cand)
    ensures Solutions(g, t, cur, cand) == {}
  {
    forall s | s in Solutions(g, t, cur, cand)
      ensures false
    {
      AcceptsMonotone(g, t, s, cur + cand);
    }
  }

  /** A node's solutions either avoid `c` altogether or use some vertex of it. */
  lemma SplitOnEdge(g: Graph, t: Target, cur: set<nat>, cand: set<nat>, c: set<nat>)
    requires c <= cand && cur !! cand
    ensures Solutions(g, t, cur, cand - c) !! LoopSolutions(g, t, cur, cand - c, c)
    ensures Solutions(g, t, cur, cand) == Solutions(g, t, cur, cand - c) + LoopSolutions(g, t, cur, cand - c, c)
  {
    forall s
      ensures s <= cur + cand <==> s <= cur + (cand - c) + c
      ensures s <= cur + (cand - c) ==> s * c == {}
      ensures s <= cur + cand && s * c == {} ==> s <= cur + (cand - c)
    {
      SubsetSplit(s, cur, cand, c);
    }
  }

  lemma SubsetSplit(s: set<nat>, cur: set<nat>, cand: set<nat>, c: set<nat>)
    requires c <= cand && cur !! cand
    ensures s <= cur + cand <==> s <= cur + (cand - c) + c
    ensures s <= cur + (cand - c) <==> s <= cur + cand && s * c == {}
  {
    assert forall x :: x in c ==> x in cand && x !in cur;
    if s <= cur + cand && s * c == {} {
      assert forall x :: x in s && x in c ==> x in s * c;
    }
  }

  /** Of the solutions using `vs`, those whose only member of `vs` is `v` are the solutions of the node `cur + v`. */
  lemma SplitOnVertex(g: Graph, t: Target, cur: set<nat>, cand: set<nat>, vs: set<nat>, v: nat)
    requires v in vs && vs !! cur && vs !! cand
    ensures Solutions(g, t, cur + {v}, cand) !! LoopSolutions(g, t, cur, cand + {v}, vs - {v})
    ensures LoopSolutions(g, t, cur, cand, vs)
            == Solutions(g, t, cur + {v}, cand) + LoopSolutions(g, t, cur, cand + {v}, vs - {v})
  {
    forall s
      ensures s in LoopSolutions(g, t, cur, cand, vs)
              <==> s in Solutions(g, t, cur + {v}, cand) || s in LoopSolutions(g, t, cur, cand + {v}, vs - {v})
      ensures !(s in Solutions(g, t, cur + {v}, cand) && s in LoopSolutions(g, t, cur, cand + {v}, vs - {v}))
    {
      SubsetVertex(s, cur, cand, vs, v);
    }
  }

  lemma SubsetVertex(s: set<nat>, cur: set<nat>, cand: set<nat>, vs: set<nat>, v: nat)
    requires v in vs && vs !! cur && vs !! cand
    ensures s <= cur + cand + vs <==> s <= cur + (cand + {v}) + (vs - {v})
    ensures s * vs == {} <==> s * (vs - {v}) == {} && v !in s
    ensures s <= cur + {v} + cand <==> s <= cur + cand + vs && s * (vs - {v}) == {}
  {
    assert forall x :: x in vs ==> x !in cur && x !in cand;
    assert forall x :: x in vs <==> x == v || x in vs - {v};
    if s * vs == {} {
      assert v in s ==> v in s * vs;
    }
    if s <= cur + cand + vs && s * (vs - {v}) == {} {
      assert forall x :: x in s && x in vs - {v} ==> x in s * (vs - {v});
    }
  }

  /** A violating vertex can be dropped for good without losing a solution. */
  lemma SkipViolating(g: Graph, t: Target, cur: set<nat>, cand: set<nat>, vs: set<nat>, v: nat)
    requires v in vs && vs !! cur && vs !! cand && Violates(g, cur, v)
    ensures LoopSolutions(g, t, cur, cand, vs) == LoopSolutions(g, t, cur, cand, vs - {v})
  {
    forall s
      ensures s in LoopSolutions(g, t, cur, cand, vs) <==> s in LoopSolutions(g, t, cur, cand, vs - {v})
    {
      SubsetVertex(s, cur, cand, vs, v);
      if v in s && cur <= s {
        ViolatingIsLost(g, t, cur, v, s);
      }
      assert v !in s ==> (s <= cur + cand + vs <==> s <= cur + cand + (vs - {v}));
      assert v in s ==> !(s <= cur + cand + (vs - {v}));
    }
  }

  lemma LoopSolutionsEmpty(g: Graph, t: Target, cur: set<nat>, cand: set<nat>)
    ensures LoopSolutions(g, t, cur, cand, {}) == {}
  {
  }

  // ---------- agreement of the two targets ----------

  /** With `theta = 0` the approximate covers are the exact ones if and only if there is an edge at all. */
  lemma ZeroThetaAgreement(g: Graph)
    requires g.Valid()
    ensures Solutions(g, Approximate(|g.edges|, 0.0), {}, g.vertices) == Solutions(g, Hitting, {}, g.vertices)
            <==> |g.edges| > 0
  {
    var a := Approximate(|g.edges|, 0.0);
    if |g.edges| > 0 {
      forall k: nat
        ensures a.Meets(k) <==> Hitting.Meets(k)
      {
        MeetsIsBudget(a, k);
      }
      forall s
        ensures Minimal(g, a, s) <==> Minimal(g, Hitting, s)
      {
      }
    } else {
      assert Uncov(g, {}) == {};
      assert Minimal(g, Hitting, {});
      RootSolutions(g, Hitting, {});
      RootSolutions(g, a, {});
    }
  }
}
