/** Without threads the concurrent enumeration is the sequential one: the same covers, in the same order. */
module AdvancedAdcOrder {
  import opened Collections
  import opened BitSets
  import opened IntSets
  import opened Hypergraphs
  import opened Covers
  import opened SearchSteps
  import opened AdcEnum
  import opened AdvancedAdc
  import opened AdvancedAdcRuns
  import opened AdvancedAdcCompletion
  import opened ThreadPools

  function SearchOf(c: Config): Search {
    Search(c.g, c.theta, c.mode)
  }

  // ---------- what a task still emits, in which order ----------

  /** A loop over the vertices `vs` of some edge. */
  ghost function LoopEmissions(x: Search, cur: BitSet, cand: BitSet, canHit: BitSet, vs: seq<nat>): seq<BitSet>
    decreases |vs|
  {
    if vs == [] then []
    else if Violates(x.g, cur, vs[0]) then LoopEmissions(x, cur, cand, canHit, vs[1..])
    else Emissions(x, cur + {vs[0]}, cand, canHit) + LoopEmissions(x, cur, cand + {vs[0]}, canHit, vs[1..])
  }

  lemma {:induction false} UsesInOrder(x: Search, cur: BitSet, cand: BitSet, canHit: BitSet, e: nat, vs: seq<nat>)
    requires e in Uncov(x.g, cur) * canHit && Elems(vs) <= x.g.Edge(e)
    ensures UseEmissions(x, cur, cand, canHit, e, vs) == LoopEmissions(x, cur, cand, canHit, vs)
    decreases |vs|
  {
    if vs == [] {
      UseEmissionsDone(x, cur, cand, canHit, e, vs);
    } else {
      UseEmissionsStep(x, cur, cand, canHit, e, vs, 0);
      assert vs[0..] == vs;
      hide Emissions;
      hide UseEmissions;
      hide Violates;
      hide Uncov;
      UsesInOrder(x, cur, cand, canHit, e, vs[1..]);
      UsesInOrder(x, cur, cand + {vs[0]}, canHit, e, vs[1..]);
    }
  }

  /** What a frame emits, not counting the frames above it and tasks posted for it. */
  ghost function FrameEmissions(c: Config, cur: BitSet, f: Frame): seq<BitSet> {
    var x := SearchOf(c);
    match f
    case Enter(cand, _, canHit) => Emissions(x, cur, cand, canHit)
    case Scan(cand, _, canHit, _, _, _) => Emissions(x, cur, cand, canHit)
    case Fetch(cand, _, canHit, _) => Emissions(x, cur, cand, canHit)
    case Fork(cand, _, canHit, canHitCopy, vs) =>
      Emissions(x, cur, cand, canHitCopy) + LoopEmissions(x, cur, cand, canHit, vs)
    case Post(cand, _, canHit, _, vs) => LoopEmissions(x, cur, cand, canHit, vs)
    case Loop(cand, _, canHit, vs) => LoopEmissions(x, cur, cand, canHit, vs)
    case Await(cand, _, canHit, _, v, vs) => LoopEmissions(x, cur - {v}, cand + {v}, canHit, vs)
  }

  ghost function StackEmissions(c: Config, cur: BitSet, stack: seq<Frame>): seq<BitSet> {
    if stack == [] then [] else FrameEmissions(c, cur, stack[0]) + StackEmissions(c, CurBelow(cur, stack[0]), stack[1..])
  }

  lemma EmissionsCons(c: Config, cur: BitSet, f: Frame, rest: seq<Frame>)
    ensures StackEmissions(c, cur, [f] + rest) == FrameEmissions(c, cur, f) + StackEmissions(c, CurBelow(cur, f), rest)
  {
    assert ([f] + rest)[1..] == rest;
  }

  /** A frame that gives way to one that emits the same. */
  lemma Replaced(c: Config, cur: BitSet, f: Frame, top: Frame, rest: seq<Frame>)
    requires !f.Await? && !top.Await? && FrameEmissions(c, cur, f) == FrameEmissions(c, cur, top)
    ensures StackEmissions(c, cur, [f] + rest) == [] + StackEmissions(c, cur, [top] + rest)
  {
    hide FrameEmissions;
    EmissionsCons(c, cur, f, rest);
    EmissionsCons(c, cur, top, rest);
  }

  /** A frame that is done. */
  lemma Gone(c: Config, cur: BitSet, f: Frame, rest: seq<Frame>)
    requires !f.Await?
    ensures StackEmissions(c, cur, [f] + rest) == FrameEmissions(c, cur, f) + StackEmissions(c, cur, rest)
  {
    hide FrameEmissions;
    EmissionsCons(c, cur, f, rest);
  }

  /** The edge about to be fetched is the one the sequential search chooses. */
  ghost predicate SameChoice(c: Config, cur: BitSet, f: Frame) {
    f.Fetch? ==>
      var eligible := Eligible(c.g, c.mode, Uncov(c.g, cur), f.canHit, f.cand);
      eligible != {} && f.local == Least(eligible)
  }

  ghost predicate SameTop(c: Config, t: Task) {
    t.stack != [] ==> SameChoice(c, t.cur, t.stack[0])
  }

  // ---------- each step ----------

  lemma UncovInRange(c: Config, cur: BitSet, uncov: BitSet, cand: BitSet, crit: seq<IntSet>, canHit: BitSet)
    requires NodeOk(c.g, cur, uncov, cand, crit, canHit)
    ensures uncov == Uncov(c.g, cur) && forall w :: w in uncov ==> w < |c.g.edges|
  {
  }

  lemma ChosenOfNode(g: Graph, cur: BitSet, uncov: BitSet, cand: BitSet, crit: seq<IntSet>, canHit: BitSet)
    returns (chosen: seq<nat>)
    requires NodeOk(g, cur, uncov, cand, crit, canHit)
    ensures CritsMatch(g, cur, chosen, crit) && uncov == Uncov(g, cur)
  {
    hide CritsMatch;
    chosen :| NodeState(g, cur, uncov, cand, chosen, crit);
  }

  lemma LeafInOrder(c: Config, cur: BitSet, uncov: BitSet, cand: BitSet, crit: seq<IntSet>, canHit: BitSet)
    requires NodeOk(c.g, cur, uncov, cand, crit, canHit) && c.Goal().Meets(|uncov|)
    ensures Emissions(SearchOf(c), cur, cand, canHit)
            == if forall i :: 0 <= i < |crit| ==> !c.Goal().Meets(|uncov| + |crit[i]|) then [cur] else []
  {
    hide Emissions;
    hide Minimal;
    hide Uncov;
    hide CritsMatch;
    hide NodeOk;
    hide Target.Meets;
    var chosen := ChosenOfNode(c.g, cur, uncov, cand, crit, canHit);
    EmissionsLeaf(SearchOf(c), cur, cand, canHit);
    MinimalFromCrits(c.g, c.Goal(), cur, chosen, crit);
  }

  lemma NoFetch(c: Config, cur: BitSet, f: Frame)
    requires !f.Fetch?
    ensures SameChoice(c, cur, f)
  {
  }

  /** The innermost activation is in order, and those below it rest. */
  lemma TopOk(c: Config, t: Task)
    requires TaskOk(c, t) && t.stack != []
    ensures t.stack == [t.stack[0]] + t.stack[1..] && FrameOk(c, t.cur, t.uncov, t.stack[0])
    ensures |t.stack| > 1 ==> Resting(t.stack[1])
  {
  }

  lemma RestingTop(c: Config, t: Task)
    requires t.stack != [] ==> Resting(t.stack[0])
    ensures SameTop(c, t)
  {
  }

  /** Nothing to hit is left in the plain modes. */
  lemma NoChoiceInOrder(c: Config, cur: BitSet, uncov: BitSet, cand: BitSet, crit: seq<IntSet>, canHit: BitSet)
    requires NodeOk(c.g, cur, uncov, cand, crit, canHit) && !c.Goal().Meets(|uncov|)
    requires NoChoice(c.g, uncov, canHit) && (c.mode == ORDER || c.mode == RANDOM)
    ensures Emissions(SearchOf(c), cur, cand, canHit) == []
  {
    UncovInRange(c, cur, uncov, cand, crit, canHit);
    hide NodeOk;
    assert uncov * canHit == {};
    EmissionsDead(SearchOf(c), cur, cand, canHit);
  }

  lemma ChoiceInOrder(c: Config, cur: BitSet, uncov: BitSet, cand: BitSet, crit: seq<IntSet>, canHit: BitSet, e: nat)
    requires NodeOk(c.g, cur, uncov, cand, crit, canHit) && Chooses(c.g, c.mode, uncov, canHit, e)
    requires c.mode == ORDER || c.mode == RANDOM
    ensures SameChoice(c, cur, Fetch(cand, crit, canHit, e))
  {
    UncovInRange(c, cur, uncov, cand, crit, canHit);
    hide NodeOk;
  }

  lemma EnterInOrder(c: Config, t: Task, eff: Effect, t': Task)
    requires TaskOk(c, t) && t.stack != [] && t.stack[0].Enter? && Step(c, 0, t, eff, t') && c.mode != PRIORITY
    ensures StackEmissions(c, t.cur, t.stack) == Emitted(eff) + StackEmissions(c, t'.cur, t'.stack) && SameTop(c, t')
  {
    hide TaskOk;
    hide StackEmissions;
    hide Emissions;
    hide NodeOk;
    hide NoChoice;
    hide Chooses;
    hide SameChoice;
    TopOk(c, t);
    var f, rest := t.stack[0], t.stack[1..];
    Gone(c, t.cur, f, rest);
    if c.Goal().Meets(|t.uncov|) {
      LeafInOrder(c, t.cur, t.uncov, f.cand, f.crit, f.canHit);
      RestingTop(c, t');
    } else if c.mode == MIN || c.mode == MAX {
      Replaced(c, t.cur, f, Scan(f.cand, f.crit, f.canHit, 0, false, 0), rest);
      NoFetch(c, t.cur, t'.stack[0]);
    } else if NoChoice(c.g, t.uncov, f.canHit) {
      NoChoiceInOrder(c, t.cur, t.uncov, f.cand, f.crit, f.canHit);
      RestingTop(c, t');
    } else {
      Replaced(c, t.cur, f, Fetch(f.cand, f.crit, f.canHit, eff.edge), rest);
      ChoiceInOrder(c, t.cur, t.uncov, f.cand, f.crit, f.canHit, eff.edge);
    }
  }

  /** What the scan ends with is the sequential choice. */
  lemma ScanChoice(g: Graph, mode: Method, uncov: BitSet, canHit: BitSet, cand: BitSet, get: bool, best: nat)
    requires ScanOk(g, mode, uncov, canHit, cand, |g.edges|, get, best) && forall w :: w in uncov ==> w < |g.edges|
    ensures var eligible := Eligible(g, mode, uncov, canHit, cand);
            (get <==> eligible != {}) && (get ==> best == Least(eligible))
  {
    hide Width;
    var eligible := Eligible(g, mode, uncov, canHit, cand);
    if get {
      assert best in eligible;
      assert forall e :: e in eligible ==> best <= e;
    } else {
      assert forall e :: e in uncov * canHit ==> e !in eligible;
    }
  }

  lemma ScanInOrder(c: Config, shared: nat, t: Task, eff: Effect, t': Task)
    requires TaskOk(c, t) && t.stack != [] && t.stack[0].Scan? && Step(c, shared, t, eff, t')
    ensures StackEmissions(c, t.cur, t.stack) == Emitted(eff) + StackEmissions(c, t'.cur, t'.stack) && SameTop(c, t')
  {
    var f, rest := t.stack[0], t.stack[1..];
    assert t.stack == [f] + rest;
    StackCons(c, t.cur, t.uncov, f, rest);
    assert forall k :: 1 <= k < |t.stack| ==> Resting(t.stack[k]);
    MeetsOfNode(c, t.cur, t.uncov, f.cand, f.crit, f.canHit);
    UncovInRange(c, t.cur, t.uncov, f.cand, f.crit, f.canHit);
    hide StackOk;
    hide StackOwes;
    hide StackEmissions;
    hide Emissions;
    hide NodeOk;
    hide Improves;
    hide Accepts;
    hide Eligible;
    Gone(c, t.cur, f, rest);
    if f.w < |c.g.edges| {
      Replaced(c, t.cur, f, t'.stack[0], rest);
    } else {
      ScanChoice(c.g, c.mode, t.uncov, f.canHit, f.cand, f.get, f.best);
      if f.get {
        Replaced(c, t.cur, f, t'.stack[0], rest);
      } else {
        EmissionsDead(SearchOf(c), t.cur, f.cand, f.canHit);
      }
    }
  }

  /** The two branches of the fetched edge. */
  lemma NodeInOrder(c: Config, cur: BitSet, uncov: BitSet, f: Frame, top: Frame)
    requires f.Fetch? && FrameOk(c, cur, uncov, f) && SameChoice(c, cur, f)
    requires var left, vs := f.cand - c.g.Edge(f.local), Bits(f.cand * c.g.Edge(f.local));
             if Accepts(c.g, c.Goal(), cur + left)
             then top.Fork? && top == Fork(left, f.crit, f.canHit, top.canHitCopy, vs) &&
                  WrittenOff(c.g, left, uncov, f.canHit, top.canHitCopy)
             else top == Loop(left, f.crit, f.canHit, vs)
    ensures FrameEmissions(c, cur, top) == FrameEmissions(c, cur, f)
  {
    var x, e := SearchOf(c), f.local;
    var used, left := f.cand * c.g.Edge(e), f.cand - c.g.Edge(e);
    MeetsOfNode(c, cur, uncov, f.cand, f.crit, f.canHit);
    UncovInRange(c, cur, uncov, f.cand, f.crit, f.canHit);
    assert left == f.cand - used;
    hide NodeOk;
    hide Emissions;
    hide UseEmissions;
    hide AvoidEmissions;
    hide LoopEmissions;
    hide Eligible;
    hide Accepts;
    hide Bits;
    EmissionsNode(x, cur, f.cand, f.canHit, e, used);
    UsesInOrder(x, cur, left, f.canHit, e, Bits(used));
    AvoidEmissionsMeaning(x, cur, left, f.canHit, e,
                          if top.Fork? then top.canHitCopy else WithoutDead(c.g, uncov, f.canHit, left));
  }

  lemma FetchInOrder(c: Config, shared: nat, t: Task, eff: Effect, t': Task)
    requires TaskOk(c, t) && t.stack != [] && t.stack[0].Fetch? && Step(c, shared, t, eff, t')
    requires SameTop(c, t) && shared == t.stack[0].local
    ensures StackEmissions(c, t.cur, t.stack) == Emitted(eff) + StackEmissions(c, t'.cur, t'.stack) && SameTop(c, t')
  {
    var f, rest := t.stack[0], t.stack[1..];
    assert t.stack == [f] + rest;
    StackCons(c, t.cur, t.uncov, f, rest);
    hide StackOk;
    hide StackOwes;
    hide StackEmissions;
    hide FrameEmissions;
    hide NodeOk;
    hide Accepts;
    hide WrittenOff;
    hide Bits;
    hide SameChoice;
    NodeInOrder(c, t.cur, t.uncov, f, t'.stack[0]);
    Replaced(c, t.cur, f, t'.stack[0], rest);
    NoFetch(c, t.cur, t'.stack[0]);
  }

  lemma ForkInOrder(c: Config, shared: nat, t: Task, eff: Effect, t': Task)
    requires TaskOk(c, t) && t.stack != [] && t.stack[0].Fork? && Step(c, shared, t, eff, t') && !eff.Reserve?
    ensures StackEmissions(c, t.cur, t.stack) == Emitted(eff) + StackEmissions(c, t'.cur, t'.stack) && SameTop(c, t')
  {
    var f, rest := t.stack[0], t.stack[1..];
    var loop, enter := Loop(f.cand, f.crit, f.canHit, f.vs), Enter(f.cand, f.crit, f.canHitCopy);
    assert t.stack == [f] + rest && t'.stack == [enter] + ([loop] + rest);
    hide TaskOk;
    hide StackEmissions;
    hide Emissions;
    hide LoopEmissions;
    EmissionsCons(c, t.cur, f, rest);
    EmissionsCons(c, t.cur, loop, rest);
    EmissionsCons(c, t.cur, enter, [loop] + rest);
    hide FrameEmissions;
    Reassociate(FrameEmissions(c, t.cur, enter), FrameEmissions(c, t.cur, loop), StackEmissions(c, t.cur, rest));
  }

  lemma LoopTop(c: Config, cur: BitSet, uncov: BitSet, cand: BitSet, crit: seq<IntSet>, canHit: BitSet, vs: seq<nat>)
    requires LoopOk(c.g, cur, uncov, cand, crit, canHit, vs) && vs != []
    ensures vs[0] !in cur
    ensures Violates(c.g, cur, vs[0]) <==> exists i :: 0 <= i < |crit| && Elems(crit[i]) <= c.g.Hits(vs[0])
  {
    var chosen :| NodeState(c.g, cur, uncov, cand + Elems(vs), chosen, crit);
    ViolatesFromCrits(c.g, cur, chosen, crit, vs[0]);
    assert vs[0] in Elems(vs);
  }

  lemma LoopInOrder(c: Config, shared: nat, t: Task, eff: Effect, t': Task)
    requires TaskOk(c, t) && t.stack != [] && t.stack[0].Loop? && Step(c, shared, t, eff, t')
    ensures StackEmissions(c, t.cur, t.stack) == Emitted(eff) + StackEmissions(c, t'.cur, t'.stack) && SameTop(c, t')
  {
    hide TaskOk;
    hide StackEmissions;
    hide Emissions;
    hide LoopOk;
    hide Updated;
    hide Violates;
    hide SameChoice;
    TopOk(c, t);
    var f, rest := t.stack[0], t.stack[1..];
    EmissionsCons(c, t.cur, f, rest);
    if f.vs == [] {
      RestingTop(c, t');
    } else {
      NoFetch(c, t'.cur, t'.stack[0]);
      LoopTop(c, t.cur, t.uncov, f.cand, f.crit, f.canHit, f.vs);
      if exists i :: 0 <= i < |f.crit| && Elems(f.crit[i]) <= c.g.Hits(f.vs[0]) {
        EmissionsCons(c, t.cur, t'.stack[0], rest);
      } else {
        DescendInOrder(c, t.cur, f, t'.stack[0].crit, rest);
        assert t'.cur == t.cur + {f.vs[0]};
      }
    }
  }

  /** The search below the first vertex comes before the rest of the loop. */
  lemma DescendInOrder(c: Config, cur: BitSet, f: Frame, newCrit: seq<IntSet>, rest: seq<Frame>)
    requires f.Loop? && f.vs != [] && !Violates(c.g, cur, f.vs[0]) && f.vs[0] !in cur
    ensures var v, later := f.vs[0], f.vs[1..];
            var stack := [Enter(f.cand, newCrit, f.canHit), Await(f.cand, f.crit, f.canHit, newCrit, v, later)] + rest;
            StackEmissions(c, cur + {v}, stack) == FrameEmissions(c, cur, f) + StackEmissions(c, cur, rest)
  {
    hide StackEmissions;
    hide Emissions;
    hide Violates;
    var v, later := f.vs[0], f.vs[1..];
    var enter, wait := Enter(f.cand, newCrit, f.canHit), Await(f.cand, f.crit, f.canHit, newCrit, v, later);
    assert [enter, wait] + rest == [enter] + ([wait] + rest) && cur + {v} - {v} == cur;
    EmissionsCons(c, cur + {v}, enter, [wait] + rest);
    EmissionsCons(c, cur + {v}, wait, rest);
    var below, after := Emissions(SearchOf(c), cur + {v}, f.cand, f.canHit), StackEmissions(c, cur, rest);
    var more := LoopEmissions(SearchOf(c), cur, f.cand + {v}, f.canHit, later);
    Reassociate(below, more, after);
  }

  lemma AwaitInOrder(c: Config, shared: nat, t: Task, eff: Effect, t': Task)
    requires TaskOk(c, t) && t.stack != [] && t.stack[0].Await? && Step(c, shared, t, eff, t')
    ensures StackEmissions(c, t.cur, t.stack) == Emitted(eff) + StackEmissions(c, t'.cur, t'.stack) && SameTop(c, t')
  {
    var f, rest := t.stack[0], t.stack[1..];
    assert t.stack == [f] + rest;
    hide Emissions;
    hide LoopEmissions;
    EmissionsCons(c, t.cur, f, rest);
    EmissionsCons(c, t'.cur, t'.stack[0], rest);
  }

  /** What the only task still emits is what this step emits and what it emits afterwards. */
  lemma StepInOrder(c: Config, s: State, eff: Effect, t': Task)
    requires Shared(c, s) && Alone(s) && c.threadNum <= 0 && c.mode != PRIORITY && SameTop(c, s.tasks[0])
    requires Step(c, s.nextEdge, s.tasks[0], eff, t') && Allowed(c, s, 0, eff)
    ensures StackEmissions(c, s.tasks[0].cur, s.tasks[0].stack) == Emitted(eff) + StackEmissions(c, t'.cur, t'.stack)
    ensures SameTop(c, t')
  {
    var t := s.tasks[0];
    assert TaskOk(c, t) && t.stack != [] && s.taskNum >= c.threadNum;
    hide StackEmissions;
    hide TaskOk;
    hide SameChoice;
    match t.stack[0]
    case Enter(_, _, _) => EnterInOrder(c, t, eff, t');
    case Scan(_, _, _, _, _, _) => ScanInOrder(c, s.nextEdge, t, eff, t');
    case Fetch(_, _, _, _) => FetchInOrder(c, s.nextEdge, t, eff, t');
    case Fork(_, _, _, _, _) => ForkInOrder(c, s.nextEdge, t, eff, t');
    case Post(_, _, _, _, _) =>
    case Loop(_, _, _, _) => LoopInOrder(c, s.nextEdge, t, eff, t');
    case Await(_, _, _, _, _, _) => AwaitInOrder(c, s.nextEdge, t, eff, t');
  }

  // ---------- whole runs ----------

  ghost predicate InOrder(c: Config, s: State) {
    && Alone(s) && SameTop(c, s.tasks[0])
    && s.output + StackEmissions(c, s.tasks[0].cur, s.tasks[0].stack)
       == Emissions(SearchOf(c), {}, c.g.vertices, Uncov(c.g, {}))
  }

  lemma InitInOrder(c: Config, s: State)
    requires Init(c, s)
    ensures InOrder(c, s)
  {
    var t := s.tasks[0];
    assert [t.stack[0]] + [] == t.stack;
    hide Emissions;
    EmissionsCons(c, t.cur, t.stack[0], []);
  }

  lemma MovesInOrder(c: Config, s: State, i: nat, eff: Effect, t': Task, s': State)
    requires Shared(c, s) && InOrder(c, s) && c.threadNum <= 0 && c.mode != PRIORITY && Moves(c, s, i, eff, t', s')
    ensures InOrder(c, s')
  {
    hide Emissions;
    hide StackEmissions;
    hide Step;
    hide SameTop;
    AloneStep(c, s, i, eff, t', s');
    StepInOrder(c, s, eff, t');
    assert s'.tasks[0] == t';
    Reassociate(s.output, Emitted(eff), StackEmissions(c, t'.cur, t'.stack));
  }

  lemma {:induction false} RunInOrder(c: Config, run: seq<State>)
    requires IsRun(c, run) && c.threadNum <= 0 && c.mode != PRIORITY
    ensures InOrder(c, run[|run| - 1])
    decreases |run|
  {
    if |run| == 1 {
      InitInOrder(c, run[0]);
    } else {
      var before := run[..|run| - 1];
      assert IsRun(c, before);
      hide Init;
      hide InOrder;
      hide Shared;
      RunInOrder(c, before);
      RunInvariant(c, before);
      var s, s' := run[|run| - 2], run[|run| - 1];
      assert Next(c, s, s');
      var i: nat, eff, t' :| Moves(c, s, i, eff, t', s');
      hide Moves;
      MovesInOrder(c, s, i, eff, t', s');
    }
  }

  /** Every run without threads that is finished has emitted what the sequential search emits, in the same order. */
  lemma SequentialOrder(c: Config, run: seq<State>)
    requires IsRun(c, run) && c.threadNum <= 0 && c.mode != PRIORITY && Finished(run[|run| - 1])
    ensures run[|run| - 1].output == Emissions(Search(c.g, c.theta, c.mode), {}, c.g.vertices, Uncov(c.g, {}))
  {
    RunInOrder(c, run);
    var s := run[|run| - 1];
    assert StackEmissions(c, s.tasks[0].cur, s.tasks[0].stack) == [];
    assert s.output + [] == s.output;
  }
}
