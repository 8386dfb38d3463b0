/** The randomised search (random_enum.cpp) as a function of its state and of the numbers drawn. */
module RandomSteps {
  import opened Collections
  import opened BitSets
  import opened IntSets
  import opened Hypergraphs
  import opened Covers
  import opened SearchSteps
  import opened Repair

  /** What stays fixed while one component is searched. `random(k)` is the k-th number drawn, from whichever generator. */
  datatype Settings = Settings(g: Graph, mode: Method, required: nat, autoInc: bool, backCertain: bool, backPara: real,
                               random: nat -> nat)

  /** The fields the search works on; `drawn` counts the numbers drawn so far. */
  datatype Snapshot = Snapshot(cur: BitSet, uncov: BitSet, curList: seq<nat>, nextEdge: nat, backSteps: nat,
                               coverIndex: nat, stopFlag: bool, vcList: seq<BitSet>, drawn: nat)

  // ---------- single steps ----------

  /** The exclusive bound of a random back-jump: the integral part of the product, and at least 1. */
  function MaxStep(para: real, count: nat): (n: nat)
    ensures if para * count as real < 2.0 then n == 1 else n as real <= para * count as real < n as real + 1.0
  {
    var n := (para * count as real).Floor;
    if n < 1 then 1 else n
  }

  /** A back-jump: all the way for the certain method, otherwise a random length. */
  function Jump(x: Settings, s: Snapshot, count: nat): Snapshot {
    if x.backCertain then s.(backSteps := count)
    else s.(backSteps := x.random(s.drawn) % MaxStep(x.backPara, count), drawn := s.drawn + 1)
  }

  /** Entry `k` gains `s`; an entry right after the last one is opened on demand. */
  function Put(list: seq<BitSet>, k: nat, s: BitSet): seq<BitSet> {
    if k < |list| then list[k := list[k] + s]
    else if k == |list| then list + [s]
    else list
  }

  function Leaf(x: Settings, s: Snapshot): Snapshot {
    var list := Put(s.vcList, s.coverIndex, s.cur);
    var t := if x.autoInc then s.(vcList := list, stopFlag := true)
             else s.(vcList := list, coverIndex := s.coverIndex + 1, stopFlag := s.coverIndex + 1 == x.required);
    Jump(x, t, |s.cur|)
  }

  /** Every vertex in turn is appended and swapped with a random one. */
  function Shuffled(random: nat -> nat, drawn: nat, bits: seq<nat>): (r: seq<nat>)
    ensures |r| == |bits|
  {
    if bits == [] then []
    else
      var k := |bits| - 1;
      var r := Shuffled(random, drawn, bits[..k]) + [bits[k]];
      var id := random(drawn + k) % |r|;
      r[id := r[k]][k := r[id]]
  }

  predicate Blocked(g: Graph, crit: seq<IntSet>, v: nat) {
    exists i :: 0 <= i < |crit| && Elems(crit[i]) <= g.Hits(v)
  }

  function Below(g: Graph, s: Snapshot, v: nat): Snapshot {
    s.(cur := Flip(s.cur, v), uncov := s.uncov - g.Hits(v), curList := s.curList + [v])
  }

  /** Back from the search below `v`, unless the search stops. */
  function Undone(s: Snapshot, v: nat, crit: seq<IntSet>): Snapshot
    requires crit != []
  {
    if s.stopFlag then s
    else s.(cur := Flip(s.cur, v), uncov := s.uncov + Elems(crit[|crit| - 1]),
            curList := if s.curList == [] then [] else s.curList[..|s.curList| - 1])
  }

  /** After `v` was forced in and the vertices it makes redundant were evicted. */
  function Forced(g: Graph, s: Snapshot, crit: seq<IntSet>, v: nat): Snapshot
    requires |crit| == |s.curList|
  {
    var r := Repaired(g, s.curList, crit, s.cur, s.uncov, v);
    s.(cur := r.cur, uncov := s.uncov - g.Hits(v), curList := r.list)
  }

  /** Back from the search after a repair, unless the search stops: the saved state is put back, and a partial cover that
      is not empty makes the search jump back. */
  function Restored(x: Settings, saved: Snapshot, s: Snapshot): Snapshot {
    var t := s.(cur := saved.cur, uncov := saved.uncov, curList := saved.curList);
    if s.stopFlag then s
    else if saved.cur == {} then t
    else Jump(x, t, |saved.cur| + 1)
  }

  // ---------- the search ----------

  ghost function ChosenEdge(x: Settings, s: Snapshot, cand: BitSet): nat
    requires s.uncov != {}
  {
    EdgeChoice(x.g, x.mode, s.cur, s.uncov, cand, s.nextEdge, x.random(s.drawn))
  }

  /** After the choice of an edge. */
  ghost function Opened(x: Settings, s: Snapshot, cand: BitSet): Snapshot
    requires s.uncov != {}
  {
    s.(nextEdge := EdgeField(x.g, x.mode, s.cur, s.uncov, cand, s.nextEdge, x.random(s.drawn)),
       drawn := s.drawn + if DrawsEdge(x.mode, s.cur) then 1 else 0)
  }

  /** One node, from entry to return. */
  ghost function Searched(x: Settings, s: Snapshot, cand: BitSet, crit: seq<IntSet>): Snapshot
    decreases |cand|, 4, 0
  {
    if s.stopFlag then s
    else if s.uncov == {} then Leaf(x, s)
    else
      var e := ChosenEdge(x, s, cand);
      if e >= |x.g.edges| then s
      else
        var t, bits := Opened(x, s, cand), Bits(cand * x.g.Edge(e));
        Branched(x, |cand|, t.(drawn := t.drawn + |bits|), cand - x.g.Edge(e), crit, Shuffled(x.random, t.drawn, bits))
  }

  /** Both loops over the candidates `vs` of the chosen edge, and the countdown of a pending back-jump. `n` bounds the
      candidates of the nodes below. */
  ghost function Branched(x: Settings, n: nat, s: Snapshot, cand: BitSet, crit: seq<IntSet>, vs: seq<nat>): Snapshot
    decreases n, 3, 0
  {
    var t := Tries(x, n, s, cand, crit, vs);
    if t.over then t.s
    else
      var u := if t.visited then t.s else Forces(x, n, t.s, t.cand, crit, vs);
      if u.stopFlag || u.backSteps == 0 then u else u.(backSteps := u.backSteps - 1)
  }

  /** The first loop so far: the state, the candidates, whether a vertex was visited, and whether the node is over. */
  datatype Tried = Tried(s: Snapshot, cand: BitSet, visited: bool, over: bool)

  ghost function Tries(x: Settings, n: nat, s: Snapshot, cand: BitSet, crit: seq<IntSet>, vs: seq<nat>): Tried
    decreases n, 2, |vs|
  {
    if vs == [] then Tried(s, cand, false, false)
    else TriedNext(x, n, Tries(x, n, s, cand, crit, vs[..|vs| - 1]), crit, vs[|vs| - 1])
  }

  ghost function TriedNext(x: Settings, n: nat, t: Tried, crit: seq<IntSet>, v: nat): Tried
    decreases n, 1, 0
  {
    if t.over then t
    else if t.s.backSteps != 0 then t.(over := true)
    else if Blocked(x.g, crit, v) || |t.cand| >= n then t
    else
      var newCrit := UpdatedCrit(x.g, crit, t.s.uncov, v);
      var s := Searched(x, Below(x.g, t.s, v), t.cand, newCrit);
      Tried(Undone(s, v, newCrit), if s.stopFlag then t.cand else t.cand + {v}, true, s.stopFlag)
  }

  /** The second loop. */
  ghost function Forces(x: Settings, n: nat, s: Snapshot, cand: BitSet, crit: seq<IntSet>, vs: seq<nat>): Snapshot
    decreases n, 2, |vs|
  {
    if vs == [] then s
    else ForcedNext(x, n, Forces(x, n, s, cand, crit, vs[..|vs| - 1]), cand, crit, vs[|vs| - 1])
  }

  ghost function ForcedNext(x: Settings, n: nat, s: Snapshot, cand: BitSet, crit: seq<IntSet>, v: nat): Snapshot
    decreases n, 1, 0
  {
    if s.stopFlag || s.backSteps != 0 || |cand| >= n || |crit| != |s.curList| then s
    else
      var r := Repaired(x.g, s.curList, crit, s.cur, s.uncov, v);
      Restored(x, s, Searched(x, Forced(x.g, s, crit, v), cand, r.crit))
  }

  /** Where the search of a component starts. */
  function Started(g: Graph, s: Snapshot): Snapshot {
    s.(cur := {}, uncov := Uncov(g, {}), curList := [], backSteps := 0)
  }

  /** One more search of a component that has not found its covers: from a fresh root, with the stop flag lowered. */
  ghost predicate SearchedAgain(x: Settings, s: Snapshot, t: Snapshot) {
    s.coverIndex < x.required && t == Searched(x, Started(x.g, s.(stopFlag := false)), x.g.vertices, [])
  }

  /** One component is searched again and again. */
  ghost predicate Repeats(x: Settings, trace: seq<Snapshot>) {
    trace != [] && forall i, j :: 0 <= i < j < |trace| && j == i + 1 ==> SearchedAgain(x, trace[i], trace[j])
  }

  /** The searches of one component, at most `rounds` of them. */
  ghost predicate RunsOn(x: Settings, rounds: nat, trace: seq<Snapshot>) {
    Repeats(x, trace) && |trace| <= rounds + 1 && trace[0].coverIndex == 0
  }

  /** The next component is searched once the one before it has its covers, from the state it left. */
  ghost predicate Follows(required: nat, trace: seq<Snapshot>, next: seq<Snapshot>) {
    && trace != [] && next != [] && trace[|trace| - 1].coverIndex == required
    && next[0] == trace[|trace| - 1].(coverIndex := 0)
  }

  /** The components one after another, each until it has found its covers or `rounds` searches are used up. */
  ghost predicate RunsThrough(x: Settings, subs: seq<Graph>, s: Snapshot, rounds: nat, traces: seq<seq<Snapshot>>) {
    && |traces| <= |subs|
    && (forall k :: 0 <= k < |traces| ==> RunsOn(x.(g := subs[k]), rounds, traces[k]))
    && (traces != [] ==> traces[0] != [] && traces[0][0] == s.(coverIndex := 0))
    && (forall k, l :: 0 <= k < l < |traces| && l == k + 1 ==> Follows(x.required, traces[k], traces[l]))
  }

  /** Component `k` of a run: where its searches start, that all of them follow one another, and that the component before
      it has all its covers. */
  lemma RunsThroughMeaning(x: Settings, subs: seq<Graph>, s: Snapshot, rounds: nat, traces: seq<seq<Snapshot>>, k: nat,
                           l: nat)
    requires RunsThrough(x, subs, s, rounds, traces) && l == k + 1 <= |traces|
    ensures |traces| <= |subs| && traces[k] != [] && |traces[k]| <= rounds + 1 && Repeats(x.(g := subs[k]), traces[k])
    ensures k == 0 ==> traces[k][0] == s.(coverIndex := 0)
    ensures l < |traces| ==> var last := traces[k][|traces[k]| - 1];
                             last.coverIndex == x.required && traces[l] != [] && traces[l][0] == last.(coverIndex := 0)
  {
    assert RunsOn(x.(g := subs[k]), rounds, traces[k]);
    assert l < |traces| ==> Follows(x.required, traces[k], traces[l]);
  }

  lemma RunsNowhere(x: Settings, subs: seq<Graph>, s: Snapshot, rounds: nat)
    ensures RunsThrough(x, subs, s, rounds, [])
  {
  }

  /** Every search starts where the one before it ended, from a fresh root with the stop flag lowered. */
  lemma RepeatsMeaning(x: Settings, trace: seq<Snapshot>, i: nat, j: nat)
    requires Repeats(x, trace) && j == i + 1 < |trace|
    ensures trace[i].coverIndex < x.required
    ensures var s := trace[i].(cur := {}, uncov := Uncov(x.g, {}), curList := [], backSteps := 0, stopFlag := false);
            trace[j] == Searched(x, s, x.g.vertices, [])
  {
    hide Searched;
    assert SearchedAgain(x, trace[i], trace[j]);
  }

  lemma RepeatsOnce(x: Settings, s: Snapshot)
    ensures Repeats(x, [s])
  {
  }

  lemma RepeatsMore(x: Settings, trace: seq<Snapshot>, t: Snapshot)
    requires Repeats(x, trace) && SearchedAgain(x, trace[|trace| - 1], t)
    ensures Repeats(x, trace + [t])
  {
    hide SearchedAgain;
  }

  lemma RunsFurther(x: Settings, subs: seq<Graph>, s: Snapshot, rounds: nat, traces: seq<seq<Snapshot>>,
                    trace: seq<Snapshot>)
    requires RunsThrough(x, subs, s, rounds, traces) && |traces| < |subs|
    requires Repeats(x.(g := subs[|traces|]), trace) && |trace| <= rounds + 1 && trace[0].coverIndex == 0
    requires trace[0] == (if traces == [] then s else var last := traces[|traces| - 1]; last[|last| - 1]).(coverIndex := 0)
    requires traces != [] ==> var last := traces[|traces| - 1]; last[|last| - 1].coverIndex == x.required
    ensures RunsThrough(x, subs, s, rounds, traces + [trace])
  {
    assert RunsOn(x.(g := subs[|traces|]), rounds, trace);
    assert traces != [] ==> Follows(x.required, traces[|traces| - 1], trace);
    hide RunsOn;
    hide Follows;
  }

  /** A round of the automatic variant over the components `subs`. */
  ghost function RoundDone(x: Settings, s: Snapshot, subs: seq<Graph>): Snapshot {
    if subs == [] then s
    else
      var g := subs[|subs| - 1];
      Searched(x.(g := g), Started(g, RoundDone(x, s, subs[..|subs| - 1])), g.vertices, [])
  }

  // ---------- unfolding ----------

  /** A search that is to stop does nothing, and a complete cover is recorded. */
  lemma SearchedLeaf(x: Settings, s: Snapshot, cand: BitSet, crit: seq<IntSet>)
    ensures s.stopFlag ==> Searched(x, s, cand, crit) == s
    ensures !s.stopFlag && s.uncov == {} ==> Searched(x, s, cand, crit) == Leaf(x, s)
  {
  }

  /** A leaf adds the cover to the entry under construction, leaves the other entries alone, and jumps back. */
  lemma LeafMeaning(x: Settings, s: Snapshot)
    requires s.coverIndex < |s.vcList| || (x.autoInc && s.coverIndex == |s.vcList|)
    ensures var t := Leaf(x, s);
            && (s.coverIndex < |s.vcList| ==> t.vcList == s.vcList[s.coverIndex := s.vcList[s.coverIndex] + s.cur])
            && (s.coverIndex == |s.vcList| ==> t.vcList == s.vcList + [s.cur])
            && t.coverIndex == s.coverIndex + (if x.autoInc then 0 else 1)
            && (t.stopFlag <==> x.autoInc || t.coverIndex == x.required)
            && (x.backCertain ==> t.backSteps == |s.cur| && t.drawn == s.drawn)
            && (!x.backCertain ==>
                  t.backSteps == x.random(s.drawn) % MaxStep(x.backPara, |s.cur|) && t.drawn == s.drawn + 1)
            && t.cur == s.cur && t.uncov == s.uncov && t.curList == s.curList && t.nextEdge == s.nextEdge
  {
    hide MaxStep;
  }

  lemma SearchedBranches(x: Settings, s: Snapshot, cand: BitSet, crit: seq<IntSet>, e: nat, t: Snapshot, candCopy: BitSet,
                         vs: seq<nat>, u: Snapshot)
    requires !s.stopFlag && s.uncov != {} && e == ChosenEdge(x, s, cand) && e < |x.g.edges| && t == Opened(x, s, cand)
    requires vs == Shuffled(x.random, t.drawn, Bits(cand * x.g.Edge(e))) && candCopy == cand - x.g.Edge(e)
    requires u == t.(drawn := t.drawn + |vs|)
    ensures Searched(x, s, cand, crit) == Branched(x, |cand|, u, candCopy, crit, vs)
  {
    hide Branched;
    hide Opened;
    hide ChosenEdge;
    hide Shuffled;
    hide Bits;
    hide Leaf;
    hide Graph.Edge;
  }

  /** A node is over when the first loop stops or finds a pending back-jump. Otherwise the second loop runs unless a vertex
      was visited, and what is left of a back-jump is one step shorter. */
  lemma BranchedMeaning(x: Settings, n: nat, s: Snapshot, cand: BitSet, crit: seq<IntSet>, vs: seq<nat>)
    ensures var t := Tries(x, n, s, cand, crit, vs);
            var u := if t.visited then t.s else Forces(x, n, t.s, t.cand, crit, vs);
            var r := Branched(x, n, s, cand, crit, vs);
            && (t.over ==> r == t.s)
            && (!t.over ==> r == u.(backSteps := r.backSteps))
            && (!t.over && (u.stopFlag || u.backSteps == 0) ==> r.backSteps == u.backSteps)
            && (!t.over && !u.stopFlag && u.backSteps > 0 ==> r.backSteps == u.backSteps - 1)
  {
    hide Tries;
    hide Forces;
  }

  lemma ShuffledNothing(random: nat -> nat, drawn: nat, bits: seq<nat>)
    ensures Shuffled(random, drawn, bits[..0]) == []
  {
  }

  lemma ShuffledNext(random: nat -> nat, drawn: nat, bits: seq<nat>, k: nat)
    requires k < |bits|
    ensures |Shuffled(random, drawn, bits[..k])| == k
    ensures var r := Shuffled(random, drawn, bits[..k]) + [bits[k]];
            var id := random(drawn + k) % |r|;
            Shuffled(random, drawn, bits[..k + 1]) == r[id := r[k]][k := r[id]]
  {
    assert bits[..k + 1][..k] == bits[..k];
  }

  lemma TriesNothing(x: Settings, n: nat, s: Snapshot, cand: BitSet, crit: seq<IntSet>, vs: seq<nat>)
    ensures Tries(x, n, s, cand, crit, vs[..0]) == Tried(s, cand, false, false)
  {
  }

  lemma ForcesNothing(x: Settings, n: nat, s: Snapshot, cand: BitSet, crit: seq<IntSet>, vs: seq<nat>)
    ensures Forces(x, n, s, cand, crit, vs[..0]) == s
  {
  }

  /** Once the first loop is over it stays over. */
  lemma {:induction false} TriesOver(x: Settings, n: nat, s: Snapshot, cand: BitSet, crit: seq<IntSet>, vs: seq<nat>,
                                     i: nat)
    requires i <= |vs| && Tries(x, n, s, cand, crit, vs[..i]).over
    ensures Tries(x, n, s, cand, crit, vs) == Tries(x, n, s, cand, crit, vs[..i])
    decreases |vs|
  {
    if i == |vs| {
      assert vs[..i] == vs;
    } else {
      var init := vs[..|vs| - 1];
      assert init[..i] == vs[..i];
      TriesOver(x, n, s, cand, crit, init, i);
    }
  }

  /** Once the second loop has stopped or found a pending back-jump nothing more happens in it. */
  lemma {:induction false} ForcesOver(x: Settings, n: nat, s: Snapshot, cand: BitSet, crit: seq<IntSet>, vs: seq<nat>,
                                      i: nat)
    requires i <= |vs|
    requires var t := Forces(x, n, s, cand, crit, vs[..i]); t.stopFlag || t.backSteps != 0
    ensures Forces(x, n, s, cand, crit, vs) == Forces(x, n, s, cand, crit, vs[..i])
    decreases |vs|
  {
    if i == |vs| {
      assert vs[..i] == vs;
    } else {
      var init := vs[..|vs| - 1];
      assert init[..i] == vs[..i];
      ForcesOver(x, n, s, cand, crit, init, i);
    }
  }

  lemma TriesNext(x: Settings, n: nat, s: Snapshot, cand: BitSet, crit: seq<IntSet>, vs: seq<nat>, i: nat)
    requires i < |vs|
    ensures Tries(x, n, s, cand, crit, vs[..i + 1]) == TriedNext(x, n, Tries(x, n, s, cand, crit, vs[..i]), crit, vs[i])
  {
    assert vs[..i + 1][..i] == vs[..i];
  }

  /** A turn of the first loop that visits nothing. */
  lemma TriedIdle(x: Settings, n: nat, t: Tried, crit: seq<IntSet>, v: nat)
    requires !t.over && (t.s.backSteps != 0 || Blocked(x.g, crit, v))
    ensures TriedNext(x, n, t, crit, v) == t.(over := t.s.backSteps != 0)
  {
  }

  /** A turn of the first loop that comes back from below with `u`. */
  lemma TriedVisit(x: Settings, n: nat, t: Tried, crit: seq<IntSet>, v: nat, u: Snapshot)
    requires !t.over && t.s.backSteps == 0 && !Blocked(x.g, crit, v) && |t.cand| < n
    requires var newCrit := UpdatedCrit(x.g, crit, t.s.uncov, v);
             u == Undone(Searched(x, Below(x.g, t.s, v), t.cand, newCrit), v, newCrit)
    ensures TriedNext(x, n, t, crit, v) == Tried(u, if u.stopFlag then t.cand else t.cand + {v}, true, u.stopFlag)
  {
    hide Searched;
    hide UpdatedCrit;
  }

  /** What a visited vertex comes to: the search below it, and back again unless the search stops. */
  lemma TriedMeaning(x: Settings, n: nat, t: Tried, crit: seq<IntSet>, v: nat)
    requires !t.over && t.s.backSteps == 0 && !Blocked(x.g, crit, v) && |t.cand| < n
    ensures var newCrit := UpdatedCrit(x.g, crit, t.s.uncov, v);
            var s := t.s.(cur := Flip(t.s.cur, v), uncov := t.s.uncov - x.g.Hits(v), curList := t.s.curList + [v]);
            var u := Searched(x, s, t.cand, newCrit);
            var r := TriedNext(x, n, t, crit, v);
            && r.visited && (r.over <==> u.stopFlag)
            && (u.stopFlag ==> r.s == u && r.cand == t.cand)
            && (!u.stopFlag && u.curList != [] ==>
                  && r.s == u.(cur := Flip(u.cur, v), uncov := u.uncov + Elems(newCrit[|newCrit| - 1]),
                               curList := u.curList[..|u.curList| - 1])
                  && r.cand == t.cand + {v})
  {
    hide Searched;
    hide UpdatedCrit;
  }

  /** A turn of the second loop on a pending back-jump does nothing; otherwise it repairs, searches, and puts the saved
      state back unless the search stops, with a back-jump if the saved cover is not empty. */
  lemma ForcedMeaning(x: Settings, n: nat, s: Snapshot, cand: BitSet, crit: seq<IntSet>, v: nat)
    requires !s.stopFlag && |cand| < n && |crit| == |s.curList|
    ensures var r := Repaired(x.g, s.curList, crit, s.cur, s.uncov, v);
            var t := Searched(x, s.(cur := r.cur, uncov := s.uncov - x.g.Hits(v), curList := r.list), cand, r.crit);
            var u := ForcedNext(x, n, s, cand, crit, v);
            var put := t.(cur := s.cur, uncov := s.uncov, curList := s.curList);
            && (s.backSteps != 0 ==> u == s)
            && (s.backSteps == 0 && t.stopFlag ==> u == t)
            && (s.backSteps == 0 && !t.stopFlag && s.cur == {} ==> u == put)
            && (s.backSteps == 0 && !t.stopFlag && s.cur != {} && x.backCertain ==> u == put.(backSteps := |s.cur| + 1))
            && (s.backSteps == 0 && !t.stopFlag && s.cur != {} && !x.backCertain ==>
                  u == put.(backSteps := x.random(t.drawn) % MaxStep(x.backPara, |s.cur| + 1), drawn := t.drawn + 1))
  {
    hide Searched;
    hide Repaired;
    hide MaxStep;
  }

  /** The next component of a round starts from a fresh root, with everything else as the last one left it. */
  lemma RoundDoneMeaning(x: Settings, s: Snapshot, subs: seq<Graph>, i: nat)
    requires i < |subs|
    ensures RoundDone(x, s, subs[..0]) == s
    ensures var t := RoundDone(x, s, subs[..i]);
            RoundDone(x, s, subs[..i + 1])
            == Searched(x.(g := subs[i]), t.(cur := {}, uncov := Uncov(subs[i], {}), curList := [], backSteps := 0),
                        subs[i].vertices, [])
  {
    assert subs[..i + 1][..i] == subs[..i];
    hide Searched;
  }

  lemma ForcesNext(x: Settings, n: nat, s: Snapshot, cand: BitSet, crit: seq<IntSet>, vs: seq<nat>, i: nat)
    requires i < |vs|
    ensures Forces(x, n, s, cand, crit, vs[..i + 1])
            == ForcedNext(x, n, Forces(x, n, s, cand, crit, vs[..i]), cand, crit, vs[i])
  {
    assert vs[..i + 1][..i] == vs[..i];
  }
}
