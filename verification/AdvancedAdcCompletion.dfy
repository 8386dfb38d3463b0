/** Completion of the concurrent enumeration: it never gets stuck, and in the plain modes every schedule is finite. */
module AdvancedAdcCompletion {
  import opened Collections
  import opened BitSets
  import opened IntSets
  import opened Hypergraphs
  import opened Covers
  import opened SearchSteps
  import opened AdcEnum
  import opened AdvancedAdc
  import opened AdvancedAdcRuns
  import opened ThreadPools

  // ---------- some step is always possible ----------

  lemma EnterCanMove(c: Config, shared: nat, t: Task) returns (eff: Effect, t': Task)
    requires TaskOk(c, t) && t.stack != [] && t.stack[0].Enter?
    ensures Step(c, shared, t, eff, t') && (eff.Local? || eff.Emit? || eff.Choose?)
  {
    var f, rest := t.stack[0], t.stack[1..];
    if c.Goal().Meets(|t.uncov|) {
      t' := t.(stack := rest);
      eff := if forall i :: 0 <= i < |f.crit| ==> !c.Goal().Meets(|t.uncov| + |f.crit[i]|) then Emit(t.cur)
             else Local(false);
    } else if c.mode == MIN || c.mode == MAX {
      t', eff := t.(stack := [Scan(f.cand, f.crit, f.canHit, 0, false, 0)] + rest), Local(false);
    } else if NoChoice(c.g, t.uncov, f.canHit) {
      t', eff := t.(stack := rest), Local(false);
    } else {
      var e := Least(t.uncov * f.canHit);
      t', eff := t.(stack := [Fetch(f.cand, f.crit, f.canHit, e)] + rest), Choose(e);
    }
  }

  lemma ScanCanMove(c: Config, shared: nat, t: Task) returns (eff: Effect, t': Task)
    requires TaskOk(c, t) && t.stack != [] && t.stack[0].Scan?
    ensures Step(c, shared, t, eff, t') && (eff.Local? || eff.Choose?)
  {
    var f, rest := t.stack[0], t.stack[1..];
    if f.w >= |c.g.edges| {
      eff, t' := Local(false), t.(stack := if f.get then [Fetch(f.cand, f.crit, f.canHit, f.best)] + rest else rest);
    } else if f.w in t.uncov * f.canHit && Improves(c.g, c.mode, f.cand, f.get, f.best, f.w) {
      eff, t' := Choose(f.w), t.(stack := [Scan(f.cand, f.crit, f.canHit, f.w + 1, true, f.w)] + rest);
    } else {
      eff, t' := Local(false), t.(stack := [Scan(f.cand, f.crit, f.canHit, f.w + 1, f.get, f.best)] + rest);
    }
  }

  lemma FetchCanMove(c: Config, shared: nat, t: Task) returns (eff: Effect, t': Task)
    requires TaskOk(c, t) && t.stack != [] && t.stack[0].Fetch? && shared < |c.g.edges|
    ensures Step(c, shared, t, eff, t') && eff.Local?
  {
    var f, rest := t.stack[0], t.stack[1..];
    var e := if c.mode == ORDER || c.mode == RANDOM then f.local else shared;
    var vs, left := Bits(f.cand * c.g.Edge(e)), f.cand - c.g.Edge(e);
    var canHitCopy := set x | x in f.canHit && !(x in t.uncov && x < |c.g.edges| && c.g.Edge(x) !! left);
    var top := if Accepts(c.g, c.Goal(), t.cur + left) then Fork(left, f.crit, f.canHit, canHitCopy, vs)
               else Loop(left, f.crit, f.canHit, vs);
    t', eff := t.(stack := [top] + rest), Local(left != {});
    assert FetchStep(c, t, f.cand, f.crit, f.canHit, e, rest, eff, t');
  }

  lemma LoopCanMove(c: Config, shared: nat, t: Task) returns (eff: Effect, t': Task)
    requires TaskOk(c, t) && t.stack != [] && t.stack[0].Loop?
    ensures Step(c, shared, t, eff, t') && eff.Local?
  {
    var f, rest := t.stack[0], t.stack[1..];
    if f.vs == [] {
      t', eff := t.(stack := rest), Local(false);
    } else {
      var v := f.vs[0];
      eff := Local(true);
      if exists i :: 0 <= i < |f.crit| && Elems(f.crit[i]) <= c.g.Hits(v) {
        t' := t.(stack := [Loop(f.cand, f.crit, f.canHit, f.vs[1..])] + rest);
      } else {
        var newCrit := NewCrit(c.g, f.crit, t.uncov, v);
        var enter, wait := Enter(f.cand, newCrit, f.canHit), Await(f.cand, f.crit, f.canHit, newCrit, v, f.vs[1..]);
        t' := t.(cur := Flip(t.cur, v), uncov := t.uncov - c.g.Hits(v), stack := [enter, wait] + rest);
        assert t'.stack[0] == enter;
      }
    }
  }

  lemma NewCrit(g: Graph, crit: seq<IntSet>, uncov: BitSet, v: nat) returns (newCrit: seq<IntSet>)
    ensures Updated(g, crit, uncov, v, newCrit)
  {
    newCrit := seq(|crit|, i requires 0 <= i < |crit| => Bits(Elems(crit[i]) - g.Hits(v))) + [Bits(uncov * g.Hits(v))];
  }

  /** Every task that has not ended can take a step; a posted one also at its end. */
  lemma TaskCanMove(c: Config, s: State, i: nat) returns (eff: Effect, t': Task)
    requires Shared(c, s) && i < |s.tasks| && (s.tasks[i].stack != [] || (i > 0 && !s.tasks[i].ended))
    ensures Step(c, s.nextEdge, s.tasks[i], eff, t') && Allowed(c, s, i, eff)
  {
    var t := s.tasks[i];
    assert TaskOk(c, t);
    if t.stack == [] {
      eff, t' := End, t.(ended := true);
    } else if t.stack[0].Enter? {
      eff, t' := EnterCanMove(c, s.nextEdge, t);
    } else if t.stack[0].Scan? {
      eff, t' := ScanCanMove(c, s.nextEdge, t);
    } else if t.stack[0].Fetch? {
      assert Top(t, false);
      eff, t' := FetchCanMove(c, s.nextEdge, t);
    } else if t.stack[0].Loop? {
      eff, t' := LoopCanMove(c, s.nextEdge, t);
    } else {
      eff, t' := RestCanMove(c, s, i, t);
    }
  }

  lemma RestCanMove(c: Config, s: State, i: nat, t: Task) returns (eff: Effect, t': Task)
    requires TaskOk(c, t) && t.stack != [] && (t.stack[0].Fork? || t.stack[0].Post? || t.stack[0].Await?)
    ensures Step(c, s.nextEdge, t, eff, t') && Allowed(c, s, i, eff)
  {
    match t.stack[0]
    case Fork(cand, crit, canHit, canHitCopy, vs) =>
      if !Refused(c.threadNum, s.taskNum) {
        eff, t' := Reserve, t.(stack := [Post(cand, crit, canHit, canHitCopy, vs)] + t.stack[1..]);
      } else {
        eff, t' := Full, t.(stack := [Enter(cand, crit, canHitCopy), Loop(cand, crit, canHit, vs)] + t.stack[1..]);
      }
    case Post(cand, crit, canHit, canHitCopy, vs) =>
      eff := Spawn(Task(t.cur, t.uncov, [Enter(cand, crit, canHitCopy)], false));
      t' := t.(stack := [Loop(cand, crit, canHit, vs)] + t.stack[1..]);
    case Await(cand, crit, canHit, critClone, v, vs) =>
      eff := Local(false);
      t' := t.(cur := Flip(t.cur, v), uncov := t.uncov + Elems(critClone[|critClone| - 1]),
               stack := [Loop(cand + {v}, crit, canHit, vs)] + t.stack[1..]);
    case _ =>
  }

  /** As long as the run is not finished, some task can take a step. */
  lemma NeverStuck(c: Config, run: seq<State>) returns (s': State)
    requires IsRun(c, run) && !Finished(run[|run| - 1])
    ensures Next(c, run[|run| - 1], s') && IsRun(c, run + [s'])
  {
    RunInvariant(c, run);
    var s := run[|run| - 1];
    var i: nat :| i < |s.tasks| && (s.tasks[i].stack != [] || (i > 0 && !s.tasks[i].ended));
    hide IsRun;
    hide Step;
    var eff, t' := TaskCanMove(c, s, i);
    s' := Apply(c, s, i, eff, t');
    assert Moves(c, s, i, eff, t', s');
    Extends(c, run, s');
  }

  lemma Extends(c: Config, run: seq<State>, s': State)
    requires IsRun(c, run) && Next(c, run[|run| - 1], s')
    ensures IsRun(c, run + [s'])
  {
    hide Next;
    hide Init;
    var longer := run + [s'];
    forall k | 0 <= k < |longer| - 1
      ensures Next(c, longer[k], longer[k + 1])
    {
      if k < |run| - 1 {
        assert Next(c, run[k], run[k + 1]);
      }
    }
  }

  // ---------- where a task gets the edge it chose, every schedule is finite ----------

  datatype Size = Size(edges: nat, vertices: nat)

  function SizeOf(g: Graph): Size {
    Size(|g.edges|, |g.vertices|)
  }

  /** Steps that an activation with `k` edges still to hit can cause. */
  function EnterRank(k: nat, z: Size): nat
    decreases k, 1, 0
  {
    if k == 0 then z.edges + 3 else z.edges + 7 + EnterRank(k - 1, z) + LoopRank(k, z.vertices, z)
  }

  /** Steps left in a loop with `m` vertices still to visit. */
  function LoopRank(k: nat, m: nat, z: Size): nat
    decreases k, 0, m
  {
    if k == 0 then 1
    else if m == 0 then 1
    else 2 + EnterRank(k - 1, z) + LoopRank(k, m - 1, z)
  }

  lemma {:induction false} LoopRankGrows(k: nat, m: nat, n: nat, z: Size)
    requires m <= n
    ensures 1 <= LoopRank(k, m, z) <= LoopRank(k, n, z)
  {
    if k > 0 && m < n {
      LoopRankGrows(k, m, n - 1, z);
    } else if k > 0 && m > 0 {
      LoopRankGrows(k, m - 1, n - 1, z);
    }
  }

  lemma {:induction false} EnterRankGrows(k: nat, l: nat, z: Size)
    requires k <= l
    ensures 1 <= EnterRank(k, z) <= EnterRank(l, z)
  {
    if k < l {
      EnterRankGrows(k, l - 1, z);
    } else if k > 0 {
      EnterRankGrows(k - 1, l - 1, z);
    }
  }

  /** The edge whose vertices the loop visits still counts as uncovered and hittable. */
  ghost predicate UsesOpenEdge(g: Graph, uncov: BitSet, canHit: BitSet, vs: seq<nat>) {
    exists e :: e in uncov * canHit && e < |g.edges| && Elems(vs) <= g.Edge(e)
  }

  ghost predicate FrameShrinks(g: Graph, uncov: BitSet, f: Frame) {
    match f
    case Enter(_, _, _) => true
    case Scan(_, _, canHit, w, get, best) => w <= |g.edges| && (get ==> best in uncov * canHit)
    case Fetch(_, _, canHit, local) => local in uncov * canHit
    case Fork(_, _, canHit, canHitCopy, vs) => UsesOpenEdge(g, uncov, canHit, vs) && |uncov * canHitCopy| < |uncov * canHit|
    case Post(_, _, canHit, canHitCopy, vs) => UsesOpenEdge(g, uncov, canHit, vs) && |uncov * canHitCopy| < |uncov * canHit|
    case Loop(_, _, canHit, vs) => UsesOpenEdge(g, uncov, canHit, vs)
    case Await(_, _, canHit, _, _, vs) => UsesOpenEdge(g, UncovBelow(uncov, f), canHit, vs)
  }

  ghost function FrameRank(uncov: BitSet, f: Frame, z: Size): int {
    var k := |UncovBelow(uncov, f) * f.canHit|;
    match f
    case Enter(_, _, _) => EnterRank(k, z)
    case Scan(_, _, _, w, _, _) => EnterRank(k, z) - 1 - w
    case Fetch(_, _, _, _) => EnterRank(k, z) - 2 - z.edges
    case Fork(_, _, _, _, vs) => 3 + (if k == 0 then 0 else EnterRank(k - 1, z)) + LoopRank(k, |vs|, z)
    case Post(_, _, _, _, vs) => 2 + (if k == 0 then 0 else EnterRank(k - 1, z)) + LoopRank(k, |vs|, z)
    case Loop(_, _, _, vs) => LoopRank(k, |vs|, z)
    case Await(_, _, _, _, _, vs) => 1 + LoopRank(k, |vs|, z)
  }

  ghost predicate StackShrinks(g: Graph, uncov: BitSet, stack: seq<Frame>)
    decreases stack
  {
    stack == [] || (FrameShrinks(g, uncov, stack[0]) && StackShrinks(g, UncovBelow(uncov, stack[0]), stack[1..]))
  }

  ghost function StackRank(uncov: BitSet, stack: seq<Frame>, z: Size): int
    decreases stack
  {
    if stack == [] then 0 else FrameRank(uncov, stack[0], z) + StackRank(UncovBelow(uncov, stack[0]), stack[1..], z)
  }

  ghost function TaskRank(t: Task, z: Size): int {
    (if t.ended then 0 else 1) + StackRank(t.uncov, t.stack, z)
  }

  ghost predicate TaskShrinks(g: Graph, t: Task) {
    StackShrinks(g, t.uncov, t.stack)
  }

  ghost function SpawnRank(eff: Effect, z: Size): int {
    if eff.Spawn? then TaskRank(eff.task, z) else 0
  }

  lemma RankCons(g: Graph, uncov: BitSet, f: Frame, rest: seq<Frame>, z: Size)
    ensures StackShrinks(g, uncov, [f] + rest) <==> FrameShrinks(g, uncov, f) && StackShrinks(g, UncovBelow(uncov, f), rest)
    ensures StackRank(uncov, [f] + rest, z) == FrameRank(uncov, f, z) + StackRank(UncovBelow(uncov, f), rest, z)
  {
    assert ([f] + rest)[1..] == rest;
  }

  lemma EnterRankFalls(c: Config, t: Task, eff: Effect, t': Task, z: Size)
    requires TaskOk(c, t) && TaskShrinks(c.g, t) && t.stack != [] && t.stack[0].Enter? && Step(c, 0, t, eff, t')
    requires z == SizeOf(c.g)
    ensures TaskShrinks(c.g, t') && TaskRank(t', z) < TaskRank(t, z)
  {
    hide StackOk;
    hide StackShrinks;
    hide StackRank;
    hide EnterRank;
    hide NoChoice;
    hide Least;
    var f, rest := t.stack[0], t.stack[1..];
    assert t.stack == [f] + rest;
    RankCons(c.g, t.uncov, f, rest, z);
    EnterRankBase(|t.uncov * f.canHit|, z);
    if t'.stack != rest {
      RankCons(c.g, t.uncov, t'.stack[0], rest, z);
    }
  }

  lemma ScanRankFalls(c: Config, shared: nat, t: Task, eff: Effect, t': Task, z: Size)
    requires TaskOk(c, t) && TaskShrinks(c.g, t) && t.stack != [] && t.stack[0].Scan? && Step(c, shared, t, eff, t')
    requires z == SizeOf(c.g)
    ensures TaskShrinks(c.g, t') && TaskRank(t', z) < TaskRank(t, z)
  {
    hide StackOk;
    hide StackShrinks;
    hide StackRank;
    hide EnterRank;
    hide Improves;
    hide ScanOk;
    var f, rest := t.stack[0], t.stack[1..];
    assert t.stack == [f] + rest;
    RankCons(c.g, t.uncov, f, rest, z);
    EnterRankBase(|t.uncov * f.canHit|, z);
    if t'.stack != rest {
      RankCons(c.g, t.uncov, t'.stack[0], rest, z);
    }
  }

  lemma EnterRankBase(k: nat, z: Size)
    ensures EnterRank(k, z) >= z.edges + 3
  {
  }

  lemma OpenEdgeRank(g: Graph, uncov: BitSet, canHit: BitSet, e: nat, vs: seq<nat>, z: Size)
    requires e in uncov * canHit && e < |g.edges| && Elems(vs) <= g.Edge(e) && |vs| <= z.vertices && z.edges == |g.edges|
    ensures UsesOpenEdge(g, uncov, canHit, vs)
    ensures var k := |uncov * canHit|;
            && 0 < k && LoopRank(k, |vs|, z) < EnterRank(k, z) - 2 - z.edges
            && 3 + EnterRank(k - 1, z) + LoopRank(k, |vs|, z) < EnterRank(k, z) - 2 - z.edges
  {
    assert uncov * canHit != {};
    LoopRankGrows(|uncov * canHit|, |vs|, z.vertices, z);
  }

  /** The task fetches the edge it chose: the plain modes return through a local, the others unless another task has
      overwritten the shared field. */
  ghost predicate OwnChoice(c: Config, shared: nat, t: Task) {
    c.mode == ORDER || c.mode == RANDOM || (t.stack != [] && t.stack[0].Fetch? ==> shared == t.stack[0].local)
  }

  lemma FetchRankFalls(c: Config, shared: nat, t: Task, eff: Effect, t': Task, z: Size)
    requires OwnChoice(c, shared, t)
    requires TaskOk(c, t) && TaskShrinks(c.g, t) && t.stack != [] && t.stack[0].Fetch? && Step(c, shared, t, eff, t')
    requires z == SizeOf(c.g)
    ensures TaskShrinks(c.g, t') && TaskRank(t', z) < TaskRank(t, z)
  {
    hide StackOk;
    hide StackShrinks;
    hide StackRank;
    hide EnterRank;
    hide LoopRank;
    hide NodeOk;
    hide UsesOpenEdge;
    hide WrittenOff;
    hide Accepts;
    var f, rest, top := t.stack[0], t.stack[1..], t'.stack[0];
    assert t.stack == [f] + rest;
    StackCons(c, t.cur, t.uncov, f, rest);
    RankCons(c.g, t.uncov, f, rest, z);
    RankCons(c.g, t.uncov, top, rest, z);
    VerticesBound(c, t.cur, t.uncov, f.cand, f.crit, f.canHit, f.local);
    OpenEdgeRank(c.g, t.uncov, f.canHit, f.local, top.vs, z);
    if top.Fork? {
      AvoidingRank(c.g, t.uncov, f.canHit, top.canHitCopy, f.cand - c.g.Edge(f.local), f.local);
    }
  }

  lemma AvoidingRank(g: Graph, uncov: BitSet, canHit: BitSet, canHitCopy: BitSet, left: BitSet, e: nat)
    requires WrittenOff(g, left, uncov, canHit, canHitCopy)
    requires e in uncov * canHit && e < |g.edges| && g.Edge(e) !! left
    ensures |uncov * canHitCopy| < |uncov * canHit|
  {
    AvoidingShrinks(g, uncov, canHit, canHitCopy, left, e);
  }

  lemma VerticesBound(c: Config, cur: BitSet, uncov: BitSet, cand: BitSet, crit: seq<IntSet>, canHit: BitSet, e: nat)
    requires NodeOk(c.g, cur, uncov, cand, crit, canHit) && e < |c.g.edges|
    ensures |Bits(cand * c.g.Edge(e))| <= |c.g.vertices|
  {
    NoDupCard(Bits(cand * c.g.Edge(e)));
    SubsetCard(cand * c.g.Edge(e), c.g.vertices);
  }

  lemma ForkRankFalls(c: Config, shared: nat, t: Task, eff: Effect, t': Task, z: Size)
    requires TaskOk(c, t) && TaskShrinks(c.g, t) && t.stack != [] && (t.stack[0].Fork? || t.stack[0].Post?)
    requires Step(c, shared, t, eff, t')
    ensures TaskShrinks(c.g, t') && (eff.Spawn? ==> TaskShrinks(c.g, eff.task))
    ensures TaskRank(t', z) + SpawnRank(eff, z) < TaskRank(t, z)
  {
    hide TaskOk;
    hide UsesOpenEdge;
    hide EnterRank;
    hide LoopRank;
    hide StackShrinks;
    hide StackRank;
    var f, rest := t.stack[0], t.stack[1..];
    var loop, enter := Loop(f.cand, f.crit, f.canHit, f.vs), Enter(f.cand, f.crit, f.canHitCopy);
    assert t.stack == [f] + rest;
    RankCons(c.g, t.uncov, f, rest, z);
    RankCons(c.g, t.uncov, loop, rest, z);
    EnterRankGrows(|t.uncov * f.canHitCopy|, |t.uncov * f.canHit| - 1, z);
    if eff.Reserve? {
      RankCons(c.g, t.uncov, t'.stack[0], rest, z);
    } else if eff.Full? {
      assert t'.stack == [enter] + ([loop] + rest);
      RankCons(c.g, t.uncov, enter, [loop] + rest, z);
    } else {
      assert [enter] + [] == [enter];
      RankCons(c.g, t.uncov, enter, [], z);
      EmptyRank(c.g, t.uncov, z);
    }
  }

  lemma EmptyRank(g: Graph, uncov: BitSet, z: Size)
    ensures StackShrinks(g, uncov, []) && StackRank(uncov, [], z) == 0
  {
  }

  /** One turn of a loop: the child activation and the rest of the loop fit into the loop's rank. */
  lemma TurnRank(g: Graph, uncov: BitSet, canHit: BitSet, vs: seq<nat>, z: Size)
    requires UsesOpenEdge(g, uncov, canHit, vs) && vs != []
    ensures UsesOpenEdge(g, uncov, canHit, vs[1..])
    ensures var k := |uncov * canHit|;
            LoopRank(k, |vs| - 1, z) + EnterRank(|(uncov - g.Hits(vs[0])) * canHit|, z) + 1 < LoopRank(k, |vs|, z)
  {
    var e :| e in uncov * canHit && e < |g.edges| && Elems(vs) <= g.Edge(e);
    assert vs[0] in Elems(vs) && Elems(vs[1..]) <= Elems(vs);
    UsingShrinks(g, uncov, canHit, e, vs[0]);
    EnterRankGrows(|(uncov - g.Hits(vs[0])) * canHit|, |uncov * canHit| - 1, z);
  }

  lemma LoopRankFalls(c: Config, shared: nat, t: Task, eff: Effect, t': Task, z: Size)
    requires TaskOk(c, t) && TaskShrinks(c.g, t) && t.stack != [] && t.stack[0].Loop? && Step(c, shared, t, eff, t')
    ensures TaskShrinks(c.g, t') && TaskRank(t', z) < TaskRank(t, z)
  {
    hide StackOk;
    hide StackShrinks;
    hide StackRank;
    hide EnterRank;
    hide LoopRank;
    hide LoopOk;
    hide NodeOk;
    hide UsesOpenEdge;
    hide Updated;
    hide Elems;
    var f, rest := t.stack[0], t.stack[1..];
    assert t.stack == [f] + rest;
    RankCons(c.g, t.uncov, f, rest, z);
    StackCons(c, t.cur, t.uncov, f, rest);
    LoopRankGrows(|t.uncov * f.canHit|, 0, |f.vs|, z);
    if f.vs != [] {
      TurnRank(c.g, t.uncov, f.canHit, f.vs, z);
      if exists i :: 0 <= i < |f.crit| && Elems(f.crit[i]) <= c.g.Hits(f.vs[0]) {
        EnterRankGrows(0, |(t.uncov - c.g.Hits(f.vs[0])) * f.canHit|, z);
        RankCons(c.g, t.uncov, t'.stack[0], rest, z);
      } else {
        var newCrit := t'.stack[0].crit;
        DescendLocal(c, t.cur, t.uncov, f.cand, f.crit, f.canHit, f.vs, newCrit);
        hide *;
        DescendRank(c.g, t.uncov, t'.uncov, f.cand, f.crit, f.canHit, f.vs, newCrit, rest, z);
      }
    }
  }

  lemma DescendRank(g: Graph, uncov: BitSet, newUncov: BitSet, cand: BitSet, crit: seq<IntSet>, canHit: BitSet,
                    vs: seq<nat>,
                    newCrit: seq<IntSet>, rest: seq<Frame>, z: Size)
    requires vs != [] && UsesOpenEdge(g, uncov, canHit, vs[1..]) && StackShrinks(g, uncov, rest)
    requires newCrit != [] && newUncov + Elems(newCrit[|newCrit| - 1]) == uncov
    ensures var stack := [Enter(cand, newCrit, canHit), Await(cand, crit, canHit, newCrit, vs[0], vs[1..])] + rest;
            && StackShrinks(g, newUncov, stack)
            && StackRank(newUncov, stack, z) == EnterRank(|newUncov * canHit|, z) + 1
                                                + LoopRank(|uncov * canHit|, |vs| - 1, z) + StackRank(uncov, rest, z)
  {
    hide StackShrinks;
    hide StackRank;
    hide EnterRank;
    hide LoopRank;
    hide UsesOpenEdge;
    var enter, wait := Enter(cand, newCrit, canHit), Await(cand, crit, canHit, newCrit, vs[0], vs[1..]);
    assert [enter, wait] + rest == [enter] + ([wait] + rest);
    RankCons(g, newUncov, enter, [wait] + rest, z);
    RankCons(g, newUncov, wait, rest, z);
  }

  lemma AwaitRankFalls(c: Config, shared: nat, t: Task, eff: Effect, t': Task, z: Size)
    requires TaskOk(c, t) && TaskShrinks(c.g, t) && t.stack != [] && t.stack[0].Await? && Step(c, shared, t, eff, t')
    ensures TaskShrinks(c.g, t') && TaskRank(t', z) < TaskRank(t, z)
  {
    hide TaskOk;
    hide StackShrinks;
    hide StackRank;
    hide EnterRank;
    hide LoopRank;
    hide UsesOpenEdge;
    hide Elems;
    var f, rest := t.stack[0], t.stack[1..];
    assert t.stack == [f] + rest;
    RankCons(c.g, t.uncov, f, rest, z);
    RankCons(c.g, t'.uncov, t'.stack[0], rest, z);
  }

  /** Every step of a task uses up some of its rank. */
  lemma StepRankFalls(c: Config, shared: nat, t: Task, eff: Effect, t': Task)
    requires OwnChoice(c, shared, t) && TaskOk(c, t) && TaskShrinks(c.g, t) && Step(c, shared, t, eff, t')
    ensures TaskShrinks(c.g, t') && (eff.Spawn? ==> TaskShrinks(c.g, eff.task))
    ensures TaskRank(t', SizeOf(c.g)) + SpawnRank(eff, SizeOf(c.g)) < TaskRank(t, SizeOf(c.g))
  {
    hide TaskOk;
    var z := SizeOf(c.g);
    if t.stack != [] {
      hide TaskShrinks;
      hide TaskRank;
      match t.stack[0]
      case Enter(_, _, _) => EnterRankFalls(c, t, eff, t', z);
      case Scan(_, _, _, _, _, _) => ScanRankFalls(c, shared, t, eff, t', z);
      case Fetch(_, _, _, _) => FetchRankFalls(c, shared, t, eff, t', z);
      case Fork(_, _, _, _, _) => ForkRankFalls(c, shared, t, eff, t', z);
      case Post(_, _, _, _, _) => ForkRankFalls(c, shared, t, eff, t', z);
      case Loop(_, _, _, _) => LoopRankFalls(c, shared, t, eff, t', z);
      case Await(_, _, _, _, _, _) => AwaitRankFalls(c, shared, t, eff, t', z);
    }
  }

  ghost function TotalRank(tasks: seq<Task>, z: Size): int {
    if tasks == [] then 0 else TaskRank(tasks[0], z) + TotalRank(tasks[1..], z)
  }

  lemma {:induction false} RankUpdate(tasks: seq<Task>, i: nat, t: Task, z: Size)
    requires i < |tasks|
    ensures TotalRank(tasks[i := t], z) + TaskRank(tasks[i], z) == TotalRank(tasks, z) + TaskRank(t, z)
  {
    if i == 0 {
      assert tasks[0 := t][1..] == tasks[1..];
    } else {
      RankUpdate(tasks[1..], i - 1, t, z);
      assert tasks[i := t][1..] == tasks[1..][i - 1 := t];
    }
  }

  lemma {:induction false} RankAppend(tasks: seq<Task>, t: Task, z: Size)
    ensures TotalRank(tasks + [t], z) == TotalRank(tasks, z) + TaskRank(t, z)
  {
    if tasks == [] {
      assert ([] + [t])[1..] == [];
    } else {
      assert (tasks + [t])[1..] == tasks[1..] + [t];
      RankAppend(tasks[1..], t, z);
    }
  }

  lemma {:induction false} RankNonNegative(g: Graph, uncov: BitSet, stack: seq<Frame>)
    requires StackShrinks(g, uncov, stack)
    ensures StackRank(uncov, stack, SizeOf(g)) >= 0
    decreases stack
  {
    if stack != [] {
      RankNonNegative(g, UncovBelow(uncov, stack[0]), stack[1..]);
      var k := |UncovBelow(uncov, stack[0]) * stack[0].canHit|;
      EnterRankBase(k, SizeOf(g));
      if k > 0 {
        EnterRankBase(k - 1, SizeOf(g));
      }
    }
  }

  lemma {:induction false} TotalNonNegative(g: Graph, tasks: seq<Task>)
    requires forall i :: 0 <= i < |tasks| ==> TaskShrinks(g, tasks[i])
    ensures TotalRank(tasks, SizeOf(g)) >= 0
  {
    if tasks != [] {
      RankNonNegative(g, tasks[0].uncov, tasks[0].stack);
      TotalNonNegative(g, tasks[1..]);
    }
  }

  ghost predicate AllShrink(c: Config, s: State) {
    forall i :: 0 <= i < |s.tasks| ==> TaskShrinks(c.g, s.tasks[i])
  }

  lemma RankStep(c: Config, s: State, i: nat, eff: Effect, t': Task, s': State)
    requires Account(c, s) && AllShrink(c, s) && Moves(c, s, i, eff, t', s') && OwnChoice(c, s.nextEdge, s.tasks[i])
    ensures AllShrink(c, s') && TotalRank(s'.tasks, SizeOf(c.g)) < TotalRank(s.tasks, SizeOf(c.g))
  {
    hide TaskOk;
    hide TaskShrinks;
    hide TaskRank;
    hide TotalRank;
    hide Step;
    var z := SizeOf(c.g);
    StepRankFalls(c, s.nextEdge, s.tasks[i], eff, t');
    RankUpdate(s.tasks, i, t', z);
    var updated := s.tasks[i := t'];
    if eff.Spawn? {
      RankAppend(updated, eff.task, z);
    } else {
      assert s'.tasks == updated;
    }
  }

  /** The only task, which has no slot for another one, and what it wrote last is what it chose. */
  ghost predicate Alone(s: State) {
    && |s.tasks| == 1
    && (s.tasks[0].stack != [] ==>
          var f := s.tasks[0].stack[0];
          && !f.Post? && (f.Fetch? ==> s.nextEdge == f.local) && (f.Scan? && f.get ==> s.nextEdge == f.best))
  }

  /** Without threads no task is ever posted. */
  lemma AloneStep(c: Config, s: State, i: nat, eff: Effect, t': Task, s': State)
    requires c.threadNum <= 0 && Shared(c, s) && Alone(s) && Moves(c, s, i, eff, t', s')
    ensures Alone(s') && OwnChoice(c, s.nextEdge, s.tasks[i])
  {
    hide StackOk;
    var t := s.tasks[0];
    assert TaskOk(c, t);
    assert forall k :: 1 <= k < |t.stack| ==> Resting(t.stack[k]);
    assert s'.tasks == [t'] + Spawned(eff);
  }

  /** The runs on which tasks get the edges they chose: the plain modes, and any mode without threads. */
  predicate Undisturbed(c: Config) {
    c.mode == ORDER || c.mode == RANDOM || c.threadNum <= 0
  }

  /** No such schedule takes more steps than the root activation's rank, which depends only on the numbers of edges and
      vertices: with `NeverStuck`, every one of them finishes. */
  lemma {:induction false} BoundedRun(c: Config, run: seq<State>)
    requires IsRun(c, run) && Undisturbed(c)
    ensures |run| <= 2 + EnterRank(|c.g.edges|, SizeOf(c.g))
  {
    RankAlong(c, run);
    TotalNonNegative(c.g, run[|run| - 1].tasks);
  }

  /** So every such run can be continued until it is finished, and there is one to start with. */
  lemma {:induction false} Completes(c: Config, run: seq<State>) returns (longer: seq<State>)
    requires IsRun(c, run) && Undisturbed(c)
    ensures IsRun(c, longer) && run <= longer && Finished(longer[|longer| - 1])
    decreases 2 + EnterRank(|c.g.edges|, SizeOf(c.g)) - |run|
  {
    assert run != [];
    hide IsRun;
    hide Finished;
    hide EnterRank;
    BoundedRun(c, run);
    longer := run;
    if !Finished(run[|run| - 1]) {
      var s' := NeverStuck(c, run);
      BoundedRun(c, run + [s']);
      longer := Completes(c, run + [s']);
    }
  }

  lemma Starts(c: Config) returns (run: seq<State>)
    requires c.g.Valid()
    ensures IsRun(c, run)
  {
    var root := Task({}, Uncov(c.g, {}), [Enter(c.g.vertices, [], Uncov(c.g, {}))], false);
    run := [State([root], 0, 0, false, [])];
  }

  lemma {:induction false} RankAlong(c: Config, run: seq<State>)
    requires IsRun(c, run) && Undisturbed(c)
    ensures AllShrink(c, run[|run| - 1]) && (c.threadNum <= 0 ==> Alone(run[|run| - 1]))
    ensures TotalRank(run[|run| - 1].tasks, SizeOf(c.g)) + |run| <= 2 + EnterRank(|c.g.edges|, SizeOf(c.g))
    decreases |run|
  {
    if |run| == 1 {
      RankInit(c, run[0]);
    } else {
      var before := run[..|run| - 1];
      assert IsRun(c, before);
      hide Init;
      hide AllShrink;
      hide TotalRank;
      hide EnterRank;
      hide Alone;
      RankAlong(c, before);
      RunInvariant(c, before);
      var s, s' := run[|run| - 2], run[|run| - 1];
      assert Next(c, s, s');
      var i: nat, eff, t' :| Moves(c, s, i, eff, t', s');
      if c.threadNum <= 0 {
        AloneStep(c, s, i, eff, t', s');
      }
      hide Moves;
      hide Account;
      RankStep(c, s, i, eff, t', s');
    }
  }

  lemma RankInit(c: Config, s: State)
    requires Init(c, s)
    ensures AllShrink(c, s) && Alone(s) && TotalRank(s.tasks, SizeOf(c.g)) <= 1 + EnterRank(|c.g.edges|, SizeOf(c.g))
  {
    var t, z := s.tasks[0], SizeOf(c.g);
    assert [t.stack[0]] + [] == t.stack && s.tasks[1..] == [];
    RankCons(c.g, t.uncov, t.stack[0], [], z);
    EmptyRank(c.g, t.uncov, z);
    assert TotalRank([], z) == 0;
    BoundedCard(t.uncov * t.uncov, |c.g.edges|);
    EnterRankGrows(|t.uncov * t.uncov|, |c.g.edges|, z);
  }
}
