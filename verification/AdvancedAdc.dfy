/** The concurrent enumeration (advanced_adc_enum.cpp) as a state machine over the atomic steps of its tasks. */
module AdvancedAdc {
  import opened Collections
  import opened BitSets
  import opened IntSets
  import opened Hypergraphs
  import opened Covers
  import opened SearchSteps
  import opened AdcEnum

  datatype Config = Config(g: Graph, theta: real, mode: Method, threadNum: int) {
    function Goal(): Target {
      Approximate(|g.edges|, theta)
    }
  }

  /** Where an activation of the search stands. */
  datatype Frame =
    // about to run on these arguments
    | Enter(cand: BitSet, crit: seq<IntSet>, canHit: BitSet)
    // MIN and MAX: looks for a better edge from `w` on; if `get`, it has written `best` to the shared field
    | Scan(cand: BitSet, crit: seq<IntSet>, canHit: BitSet, w: nat, get: bool, best: nat)
    // has written its choice to the shared field and is about to fetch the edge
    | Fetch(cand: BitSet, crit: seq<IntSet>, canHit: BitSet, local: nat)
    // is about to ask the pool for a slot for the branch that avoids the edge
    | Fork(cand: BitSet, crit: seq<IntSet>, canHit: BitSet, canHitCopy: BitSet, vs: seq<nat>)
    // holds a slot and is about to post the task
    | Post(cand: BitSet, crit: seq<IntSet>, canHit: BitSet, canHitCopy: BitSet, vs: seq<nat>)
    // has the vertices `vs` of the chosen edge still to visit
    | Loop(cand: BitSet, crit: seq<IntSet>, canHit: BitSet, vs: seq<nat>)
    // waits for the activation that searches below `v`
    | Await(cand: BitSet, crit: seq<IntSet>, canHit: BitSet, critClone: seq<IntSet>, v: nat, vs: seq<nat>)

  /** A task owns its partial cover and its stack of activations, innermost first. */
  datatype Task = Task(cur: BitSet, uncov: BitSet, stack: seq<Frame>, ended: bool)

  /** Task 0 is the caller; the others were posted to the pool. */
  datatype State = State(tasks: seq<Task>, taskNum: int, nextEdge: nat, indexBuilt: bool, output: seq<BitSet>)

  /** What a step does to shared state. */
  datatype Effect =
    Local(usesIndex: bool) | Emit(cover: BitSet) | Choose(edge: nat) | Reserve | Full | Spawn(task: Task) | End

  // ---------- one step of one task ----------

  /** The choice of the modes that write the shared field once. Priorities are left open. */
  ghost predicate Chooses(g: Graph, mode: Method, uncov: BitSet, canHit: BitSet, e: nat) {
    && e in uncov * canHit && e < |g.edges|
    && ((mode == ORDER || mode == RANDOM) ==> e == Least(uncov * canHit))
  }

  /** No edge is returned. */
  ghost predicate NoChoice(g: Graph, uncov: BitSet, canHit: BitSet) {
    forall w :: w in uncov * canHit ==> w >= |g.edges|
  }

  /** Edge `w` beats the best one so far. */
  ghost predicate Improves(g: Graph, mode: Method, cand: BitSet, get: bool, best: nat, w: nat)
    requires w < |g.edges|
  {
    if mode == MIN then !get || (best < |g.edges| ==> Width(g, cand, w) < Width(g, cand, best))
    else if get then best < |g.edges| ==> Width(g, cand, w) > Width(g, cand, best)
    else Width(g, cand, w) > 0
  }

  ghost predicate Updated(g: Graph, crit: seq<IntSet>, uncov: BitSet, v: nat, newCrit: seq<IntSet>) {
    && |newCrit| == |crit| + 1
    && (forall i :: 0 <= i < |crit| ==> NoDup(newCrit[i]) && Elems(newCrit[i]) == Elems(crit[i]) - g.Hits(v))
    && newCrit[|crit|] == Bits(uncov * g.Hits(v))
  }

  ghost predicate WrittenOff(g: Graph, cand: BitSet, uncov: BitSet, canHit: BitSet, canHitCopy: BitSet) {
    forall e: nat :: e in canHitCopy <==> e in canHit && !(e in uncov && e < |g.edges| && g.Edge(e) !! cand)
  }

  ghost predicate Step(c: Config, shared: nat, t: Task, eff: Effect, t': Task)
  {
    if t.stack == [] then
      eff == End && !t.ended && t' == t.(ended := true)
    else
      var rest := t.stack[1..];
      match t.stack[0]
      case Enter(cand, crit, canHit) => EnterStep(c, t, cand, crit, canHit, rest, eff, t')
      case Scan(cand, crit, canHit, w, get, best) => ScanStep(c, t, cand, crit, canHit, w, get, best, rest, eff, t')
      case Fetch(cand, crit, canHit, local) =>
        // the plain modes return through a local; the others read the field another task may have overwritten
        var e := if c.mode == ORDER || c.mode == RANDOM then local else shared;
        e < |c.g.edges| && FetchStep(c, t, cand, crit, canHit, e, rest, eff, t')
      case Fork(cand, crit, canHit, canHitCopy, vs) =>
        || (eff == Reserve && t' == t.(stack := [Post(cand, crit, canHit, canHitCopy, vs)] + rest))
        || (eff == Full && t' == t.(stack := [Enter(cand, crit, canHitCopy), Loop(cand, crit, canHit, vs)] + rest))
      case Post(cand, crit, canHit, canHitCopy, vs) =>
        && eff == Spawn(Task(t.cur, t.uncov, [Enter(cand, crit, canHitCopy)], false))
        && t' == t.(stack := [Loop(cand, crit, canHit, vs)] + rest)
      case Loop(cand, crit, canHit, vs) => LoopStep(c, t, cand, crit, canHit, vs, rest, eff, t')
      case Await(cand, crit, canHit, critClone, v, vs) =>
        && critClone != [] && eff == Local(false)
        && t' == t.(cur := Flip(t.cur, v), uncov := t.uncov + Elems(critClone[|critClone| - 1]),
                    stack := [Loop(cand + {v}, crit, canHit, vs)] + rest)
  }

  ghost predicate EnterStep(c: Config, t: Task, cand: BitSet, crit: seq<IntSet>, canHit: BitSet, rest: seq<Frame>,
                            eff: Effect, t': Task) {
    if c.Goal().Meets(|t.uncov|) then
      && t' == t.(stack := rest)
      && eff == if forall i :: 0 <= i < |crit| ==> !c.Goal().Meets(|t.uncov| + |crit[i]|) then Emit(t.cur) else Local(false)
    else if c.mode == MIN || c.mode == MAX then
      t' == t.(stack := [Scan(cand, crit, canHit, 0, false, 0)] + rest) && eff == Local(false)
    else if NoChoice(c.g, t.uncov, canHit) then
      t' == t.(stack := rest) && eff == Local(false)
    else
      && eff.Choose? && Chooses(c.g, c.mode, t.uncov, canHit, eff.edge)
      && t' == t.(stack := [Fetch(cand, crit, canHit, eff.edge)] + rest)
  }

  /** The scan looks at edge `w`, and writes the shared field whenever it finds a better one. */
  ghost predicate ScanStep(c: Config, t: Task, cand: BitSet, crit: seq<IntSet>, canHit: BitSet, w: nat, get: bool,
                           best: nat,
                           rest: seq<Frame>, eff: Effect, t': Task) {
    if w >= |c.g.edges| then
      && eff == Local(false)
      && t' == t.(stack := if get then [Fetch(cand, crit, canHit, best)] + rest else rest)
    else if w in t.uncov * canHit && Improves(c.g, c.mode, cand, get, best, w) then
      && eff == Choose(w)
      && t' == t.(stack := [Scan(cand, crit, canHit, w + 1, true, w)] + rest)
    else
      && eff == Local(false)
      && t' == t.(stack := [Scan(cand, crit, canHit, w + 1, get, best)] + rest)
  }

  ghost predicate FetchStep(c: Config, t: Task, cand: BitSet, crit: seq<IntSet>, canHit: BitSet, e: nat, rest: seq<Frame>,
                            eff: Effect, t': Task)
    requires e < |c.g.edges|
  {
    var vs := Bits(cand * c.g.Edge(e));
    var left := cand - c.g.Edge(e);
    && eff == Local(left != {})
    && |t'.stack| == |rest| + 1
    && t' == t.(stack := [t'.stack[0]] + rest)
    && if Accepts(c.g, c.Goal(), t.cur + left) then
         && t'.stack[0].Fork?
         && t'.stack[0] == Fork(left, crit, canHit, t'.stack[0].canHitCopy, vs)
         && WrittenOff(c.g, left, t.uncov, canHit, t'.stack[0].canHitCopy)
       else
         t'.stack[0] == Loop(left, crit, canHit, vs)
  }

  ghost predicate LoopStep(c: Config, t: Task, cand: BitSet, crit: seq<IntSet>, canHit: BitSet, vs: seq<nat>,
                           rest: seq<Frame>, eff: Effect, t': Task) {
    if vs == [] then
      t' == t.(stack := rest) && eff == Local(false)
    else if exists i :: 0 <= i < |crit| && Elems(crit[i]) <= c.g.Hits(vs[0]) then
      t' == t.(stack := [Loop(cand, crit, canHit, vs[1..])] + rest) && eff == Local(true)
    else
      && eff == Local(true)
      && |t'.stack| == |rest| + 2 && t'.stack[0].Enter?
      && var newCrit := t'.stack[0].crit;
         && Updated(c.g, crit, t.uncov, vs[0], newCrit)
         && t' == t.(cur := Flip(t.cur, vs[0]), uncov := t.uncov - c.g.Hits(vs[0]),
                     stack := [Enter(cand, newCrit, canHit), Await(cand, crit, canHit, newCrit, vs[0], vs[1..])] + rest)
  }

  // ---------- what a task still owes ----------

  ghost predicate NodeOk(g: Graph, cur: BitSet, uncov: BitSet, cand: BitSet, crit: seq<IntSet>, canHit: BitSet) {
    && (exists chosen :: NodeState(g, cur, uncov, cand, chosen, crit))
    && CanHitSound(g, uncov, canHit, cand)
  }

  ghost predicate LoopOk(g: Graph, cur: BitSet, uncov: BitSet, cand: BitSet, crit: seq<IntSet>, canHit: BitSet,
                         vs: seq<nat>) {
    NodeOk(g, cur, uncov, cand + Elems(vs), crit, canHit) && NoDup(vs) && cand !! Elems(vs)
  }

  /** What the scan has found below `w`: the first edge of extreme width, or nothing worth choosing. */
  ghost predicate ScanOk(g: Graph, mode: Method, uncov: BitSet, canHit: BitSet, cand: BitSet, w: nat, get: bool,
                         best: nat) {
    && w <= |g.edges| && (mode == MIN || mode == MAX)
    && (get ==>
          && best in uncov * canHit && best < w && (mode == MAX ==> Width(g, cand, best) > 0)
          && forall e :: e in uncov * canHit && e < w ==>
               if mode == MIN
               then Width(g, cand, best) <= Width(g, cand, e) && (e < best ==> Width(g, cand, best) < Width(g, cand, e))
               else Width(g, cand, e) <= Width(g, cand, best) && (e < best ==> Width(g, cand, e) < Width(g, cand, best)))
    && (!get ==> forall e :: e in uncov * canHit && e < w ==> mode == MAX && Width(g, cand, e) == 0)
  }

  ghost predicate FrameOk(c: Config, cur: BitSet, uncov: BitSet, f: Frame) {
    match f
    case Enter(cand, crit, canHit) => NodeOk(c.g, cur, uncov, cand, crit, canHit)
    case Scan(cand, crit, canHit, w, get, best) =>
      && NodeOk(c.g, cur, uncov, cand, crit, canHit) && !Accepts(c.g, c.Goal(), cur)
      && ScanOk(c.g, c.mode, uncov, canHit, cand, w, get, best)
    case Fetch(cand, crit, canHit, local) =>
      NodeOk(c.g, cur, uncov, cand, crit, canHit) && local < |c.g.edges| && !Accepts(c.g, c.Goal(), cur)
    case Fork(cand, crit, canHit, canHitCopy, vs) =>
      LoopOk(c.g, cur, uncov, cand, crit, canHit, vs) && CanHitSound(c.g, uncov, canHitCopy, cand)
    case Post(cand, crit, canHit, canHitCopy, vs) =>
      LoopOk(c.g, cur, uncov, cand, crit, canHit, vs) && CanHitSound(c.g, uncov, canHitCopy, cand)
    case Loop(cand, crit, canHit, vs) => LoopOk(c.g, cur, uncov, cand, crit, canHit, vs)
    case Await(cand, crit, canHit, critClone, v, vs) =>
      && v in cur && critClone != []
      && LoopOk(c.g, cur - {v}, uncov + Elems(critClone[|critClone| - 1]), cand + {v}, crit, canHit, vs)
  }

  /** The solutions a frame is responsible for, not counting the frames above it. */
  ghost function Owes(c: Config, cur: BitSet, f: Frame): multiset<BitSet> {
    match f
    case Enter(cand, _, _) => multiset(Solutions(c.g, c.Goal(), cur, cand))
    case Scan(cand, _, _, _, _, _) => multiset(Solutions(c.g, c.Goal(), cur, cand))
    case Fetch(cand, _, _, _) => multiset(Solutions(c.g, c.Goal(), cur, cand))
    case Fork(cand, _, _, _, vs) =>
      multiset(Solutions(c.g, c.Goal(), cur, cand)) + multiset(LoopSolutions(c.g, c.Goal(), cur, cand, Elems(vs)))
    case Post(cand, _, _, _, vs) =>
      multiset(Solutions(c.g, c.Goal(), cur, cand)) + multiset(LoopSolutions(c.g, c.Goal(), cur, cand, Elems(vs)))
    case Loop(cand, _, _, vs) => multiset(LoopSolutions(c.g, c.Goal(), cur, cand, Elems(vs)))
    case Await(cand, _, _, _, v, vs) => multiset(LoopSolutions(c.g, c.Goal(), cur - {v}, cand + {v}, Elems(vs)))
  }

  function CurBelow(cur: BitSet, f: Frame): BitSet {
    if f.Await? then cur - {f.v} else cur
  }

  function UncovBelow(uncov: BitSet, f: Frame): BitSet {
    if f.Await? && f.critClone != [] then uncov + Elems(f.critClone[|f.critClone| - 1]) else uncov
  }

  ghost predicate StackOk(c: Config, cur: BitSet, uncov: BitSet, stack: seq<Frame>) {
    stack == [] ||
    (FrameOk(c, cur, uncov, stack[0]) && StackOk(c, CurBelow(cur, stack[0]), UncovBelow(uncov, stack[0]), stack[1..]))
  }

  ghost function StackOwes(c: Config, cur: BitSet, stack: seq<Frame>): multiset<BitSet> {
    if stack == [] then multiset{}
    else Owes(c, cur, stack[0]) + StackOwes(c, CurBelow(cur, stack[0]), stack[1..])
  }

  ghost predicate Resting(f: Frame) {
    f.Loop? || f.Await?
  }

  ghost predicate TaskOk(c: Config, t: Task) {
    && StackOk(c, t.cur, t.uncov, t.stack)
    && (forall k :: 1 <= k < |t.stack| ==> Resting(t.stack[k]))
    && (t.ended ==> t.stack == [])
  }

  ghost function TaskOwes(c: Config, t: Task): multiset<BitSet> {
    StackOwes(c, t.cur, t.stack)
  }

  function Emitted(eff: Effect): seq<BitSet> {
    if eff.Emit? then [eff.cover] else []
  }

  function Spawned(eff: Effect): seq<Task> {
    if eff.Spawn? then [eff.task] else []
  }

  ghost function SpawnOwes(c: Config, eff: Effect): multiset<BitSet> {
    if eff.Spawn? then TaskOwes(c, eff.task) else multiset{}
  }

  // ---------- every step keeps the account: the innermost activation ----------

  lemma Narrow(g: Graph, cur: BitSet, uncov: BitSet, cand: BitSet, smaller: BitSet, crit: seq<IntSet>, canHit: BitSet)
    requires NodeOk(g, cur, uncov, cand, crit, canHit) && smaller <= cand
    ensures NodeOk(g, cur, uncov, smaller, crit, canHit)
  {
    var chosen :| NodeState(g, cur, uncov, cand, chosen, crit);
    assert NodeState(g, cur, uncov, smaller, chosen, crit);
  }

  lemma LeafLocal(c: Config, cur: BitSet, uncov: BitSet, cand: BitSet, crit: seq<IntSet>, canHit: BitSet)
    requires NodeOk(c.g, cur, uncov, cand, crit, canHit) && c.Goal().Meets(|uncov|)
    ensures Solutions(c.g, c.Goal(), cur, cand)
            == if forall i :: 0 <= i < |crit| ==> !c.Goal().Meets(|uncov| + |crit[i]|) then {cur} else {}
  {
    hide Solutions;
    hide Minimal;
    hide CritsMatch;
    hide CanHitSound;
    hide Graph.Valid;
    var chosen :| NodeState(c.g, cur, uncov, cand, chosen, crit);
    LeafSolutions(c.g, c.Goal(), cur, cand);
    MinimalFromCrits(c.g, c.Goal(), cur, chosen, crit);
  }

  lemma NoChoiceLocal(c: Config, cur: BitSet, uncov: BitSet, cand: BitSet, crit: seq<IntSet>, canHit: BitSet)
    requires NodeOk(c.g, cur, uncov, cand, crit, canHit) && !c.Goal().Meets(|uncov|)
    requires forall w :: w in uncov * canHit && w < |c.g.edges| ==> Width(c.g, cand, w) == 0
    ensures Solutions(c.g, c.Goal(), cur, cand) == {}
  {
    forall w | w in uncov * canHit
      ensures cand !! c.g.Edge(w)
    {
      WidthZero(c.g, cand, {w});
    }
    NoEdgeNoSolution(c.g, c.Goal(), cur, cand, canHit);
  }

  /** One look of the scan. */
  lemma ScanLocal(g: Graph, mode: Method, uncov: BitSet, canHit: BitSet, cand: BitSet, w: nat, get: bool, best: nat)
    requires ScanOk(g, mode, uncov, canHit, cand, w, get, best) && w < |g.edges|
    ensures if w in uncov * canHit && Improves(g, mode, cand, get, best, w)
            then ScanOk(g, mode, uncov, canHit, cand, w + 1, true, w)
            else ScanOk(g, mode, uncov, canHit, cand, w + 1, get, best)
  {
  }

  /** Whatever edge is fetched, the two branches it opens share the node's solutions out between them. */
  lemma FetchLocal(c: Config, cur: BitSet, uncov: BitSet, cand: BitSet, crit: seq<IntSet>, canHit: BitSet, e: nat)
    requires NodeOk(c.g, cur, uncov, cand, crit, canHit) && e < |c.g.edges|
    ensures var vs, left := Bits(cand * c.g.Edge(e)), cand - c.g.Edge(e);
            && LoopOk(c.g, cur, uncov, left, crit, canHit, vs)
            && multiset(Solutions(c.g, c.Goal(), cur, cand))
               == multiset(Solutions(c.g, c.Goal(), cur, left))
                + multiset(LoopSolutions(c.g, c.Goal(), cur, left, Elems(vs)))
            && (!Accepts(c.g, c.Goal(), cur + left) ==> Solutions(c.g, c.Goal(), cur, left) == {})
            && (!Accepts(c.g, c.Goal(), cur) && Accepts(c.g, c.Goal(), cur + left) ==> left != {})
  {
    FetchLoopOk(c.g, cur, uncov, cand, crit, canHit, e);
    FetchShares(c, cur, cand, e, cand * c.g.Edge(e), cand - c.g.Edge(e));
  }

  lemma FetchLoopOk(g: Graph, cur: BitSet, uncov: BitSet, cand: BitSet, crit: seq<IntSet>, canHit: BitSet, e: nat)
    requires NodeOk(g, cur, uncov, cand, crit, canHit) && e < |g.edges|
    ensures cur !! cand && LoopOk(g, cur, uncov, cand - g.Edge(e), crit, canHit, Bits(cand * g.Edge(e)))
  {
    LeftAndUsed(cand, g.Edge(e));
    assert cur !! cand;
    hide NodeOk;
  }

  lemma FetchShares(c: Config, cur: BitSet, cand: BitSet, e: nat, used: BitSet, left: BitSet)
    requires cur !! cand && e < |c.g.edges| && used == cand * c.g.Edge(e) && left == cand - c.g.Edge(e)
    ensures multiset(Solutions(c.g, c.Goal(), cur, cand))
            == multiset(Solutions(c.g, c.Goal(), cur, left))
             + multiset(LoopSolutions(c.g, c.Goal(), cur, left, Elems(Bits(used))))
    ensures !Accepts(c.g, c.Goal(), cur + left) ==> Solutions(c.g, c.Goal(), cur, left) == {}
    ensures !Accepts(c.g, c.Goal(), cur) && Accepts(c.g, c.Goal(), cur + left) ==> left != {}
  {
    assert left == cand - used;
    hide Solutions;
    hide LoopSolutions;
    hide Accepts;
    hide Graph.Edge;
    SplitOnEdge(c.g, c.Goal(), cur, cand, used);
    MultisetUnion(Solutions(c.g, c.Goal(), cur, left), LoopSolutions(c.g, c.Goal(), cur, left, used));
    if !Accepts(c.g, c.Goal(), cur + left) {
      DeadSolutions(c.g, c.Goal(), cur, left);
    }
    assert left == {} ==> cur + left == cur;
  }

  lemma LeftAndUsed(cand: BitSet, edge: set<nat>)
    ensures cand - edge == cand - cand * edge
    ensures cand - edge + Elems(Bits(cand * edge)) == cand
    ensures (cand - edge) !! Elems(Bits(cand * edge))
  {
  }

  lemma WrittenOffSound(g: Graph, uncov: BitSet, canHit: BitSet, canHitCopy: BitSet, cand: BitSet, left: BitSet)
    requires CanHitSound(g, uncov, canHit, cand) && left <= cand && WrittenOff(g, left, uncov, canHit, canHitCopy)
    ensures CanHitSound(g, uncov, canHitCopy, left)
  {
  }

  lemma SkipLocal(c: Config, cur: BitSet, uncov: BitSet, cand: BitSet, crit: seq<IntSet>, canHit: BitSet, vs: seq<nat>)
    requires LoopOk(c.g, cur, uncov, cand, crit, canHit, vs) && vs != []
    requires exists i :: 0 <= i < |crit| && Elems(crit[i]) <= c.g.Hits(vs[0])
    ensures LoopOk(c.g, cur, uncov, cand, crit, canHit, vs[1..])
    ensures LoopSolutions(c.g, c.Goal(), cur, cand, Elems(vs)) == LoopSolutions(c.g, c.Goal(), cur, cand, Elems(vs[1..]))
  {
    TailElems(vs);
    var chosen :| NodeState(c.g, cur, uncov, cand + Elems(vs), chosen, crit);
    ViolatesFromCrits(c.g, cur, chosen, crit, vs[0]);
    SkipViolating(c.g, c.Goal(), cur, cand, Elems(vs), vs[0]);
    Narrow(c.g, cur, uncov, cand + Elems(vs), cand + Elems(vs[1..]), crit, canHit);
  }

  /** Descending into `v`: the child node is sound, the way back is sound, and nothing is counted twice. */
  lemma DescendLocal(c: Config, cur: BitSet, uncov: BitSet, cand: BitSet, crit: seq<IntSet>, canHit: BitSet, vs: seq<nat>,
                     newCrit: seq<IntSet>)
    requires LoopOk(c.g, cur, uncov, cand, crit, canHit, vs) && vs != []
    requires !exists i :: 0 <= i < |crit| && Elems(crit[i]) <= c.g.Hits(vs[0])
    requires Updated(c.g, crit, uncov, vs[0], newCrit)
    ensures vs[0] !in cur && NodeOk(c.g, cur + {vs[0]}, uncov - c.g.Hits(vs[0]), cand, newCrit, canHit)
    ensures newCrit != [] && (uncov - c.g.Hits(vs[0])) + Elems(newCrit[|newCrit| - 1]) == uncov
    ensures LoopOk(c.g, cur, uncov, cand + {vs[0]}, crit, canHit, vs[1..])
    ensures multiset(LoopSolutions(c.g, c.Goal(), cur, cand, Elems(vs)))
            == multiset(Solutions(c.g, c.Goal(), cur + {vs[0]}, cand))
             + multiset(LoopSolutions(c.g, c.Goal(), cur, cand + {vs[0]}, Elems(vs[1..])))
  {
    var g, v, later := c.g, vs[0], vs[1..];
    TailElems(vs);
    var chosen :| NodeState(g, cur, uncov, cand + Elems(vs), chosen, crit);
    assert cand + {v} + Elems(later) == cand + Elems(vs);
    assert NodeOk(g, cur + {v}, uncov - g.Hits(v), cand, newCrit, canHit) by {
      UncovAdd(g, cur, v);
      CritsAdd(g, cur, chosen, crit, v, newCrit);
      assert NodeState(g, cur + {v}, uncov - g.Hits(v), cand, chosen + [v], newCrit);
    }
    SplitOnVertex(g, c.Goal(), cur, cand, Elems(vs), v);
    MultisetUnion(Solutions(g, c.Goal(), cur + {v}, cand), LoopSolutions(g, c.Goal(), cur, cand + {v}, Elems(later)));
  }

  // ---------- every step keeps the account: whole tasks ----------

  lemma StackCons(c: Config, cur: BitSet, uncov: BitSet, f: Frame, rest: seq<Frame>)
    ensures StackOk(c, cur, uncov, [f] + rest)
            <==> FrameOk(c, cur, uncov, f) && StackOk(c, CurBelow(cur, f), UncovBelow(uncov, f), rest)
    ensures StackOwes(c, cur, [f] + rest) == Owes(c, cur, f) + StackOwes(c, CurBelow(cur, f), rest)
  {
    assert ([f] + rest)[1..] == rest;
  }

  lemma EnterConserves(c: Config, t: Task, eff: Effect, t': Task)
    requires TaskOk(c, t) && t.stack != [] && t.stack[0].Enter?
    requires Step(c, 0, t, eff, t')
    ensures TaskOk(c, t') && !eff.Spawn?
    ensures TaskOwes(c, t) == multiset(Emitted(eff)) + TaskOwes(c, t')
  {
    hide StackOk;
    hide StackOwes;
    hide Solutions;
    hide LoopSolutions;
    hide NodeOk;
    hide NoChoice;
    hide Chooses;
    var f, rest := t.stack[0], t.stack[1..];
    assert t.stack == [f] + rest;
    StackCons(c, t.cur, t.uncov, f, rest);
    hide Least;
    hide Width;
    hide ScanStep;
    if c.Goal().Meets(|t.uncov|) {
      LeafLocal(c, t.cur, t.uncov, f.cand, f.crit, f.canHit);
    } else if c.mode == MIN || c.mode == MAX {
      UncovOfNode(c, t.cur, t.uncov, f.cand, f.crit, f.canHit);
      StackCons(c, t.cur, t.uncov, Scan(f.cand, f.crit, f.canHit, 0, false, 0), rest);
    } else if NoChoice(c.g, t.uncov, f.canHit) {
      NoChoiceMeans(c.g, t.uncov, f.canHit, f.cand);
      NoChoiceLocal(c, t.cur, t.uncov, f.cand, f.crit, f.canHit);
    } else {
      UncovOfNode(c, t.cur, t.uncov, f.cand, f.crit, f.canHit);
      ChoiceIsEdge(c, t.uncov, f.canHit, eff.edge);
      StackCons(c, t.cur, t.uncov, Fetch(f.cand, f.crit, f.canHit, eff.edge), rest);
    }
  }

  lemma NoChoiceMeans(g: Graph, uncov: BitSet, canHit: BitSet, cand: BitSet)
    requires NoChoice(g, uncov, canHit)
    ensures forall w :: w in uncov * canHit && w < |g.edges| ==> Width(g, cand, w) == 0
  {
  }

  lemma ScanConserves(c: Config, shared: nat, t: Task, eff: Effect, t': Task)
    requires TaskOk(c, t) && t.stack != [] && t.stack[0].Scan?
    requires Step(c, shared, t, eff, t')
    ensures TaskOk(c, t') && !eff.Emit? && !eff.Spawn?
    ensures TaskOwes(c, t) == TaskOwes(c, t')
  {
    hide StackOk;
    hide StackOwes;
    hide Solutions;
    hide LoopSolutions;
    hide NodeOk;
    hide Improves;
    hide Accepts;
    var f, rest := t.stack[0], t.stack[1..];
    assert t.stack == [f] + rest;
    StackCons(c, t.cur, t.uncov, f, rest);
    if f.w < |c.g.edges| {
      ScanLocal(c.g, c.mode, t.uncov, f.canHit, f.cand, f.w, f.get, f.best);
      hide ScanOk;
      StackCons(c, t.cur, t.uncov, t'.stack[0], rest);
    } else if f.get {
      StackCons(c, t.cur, t.uncov, Fetch(f.cand, f.crit, f.canHit, f.best), rest);
    } else {
      MeetsOfNode(c, t.cur, t.uncov, f.cand, f.crit, f.canHit);
      NoChoiceLocal(c, t.cur, t.uncov, f.cand, f.crit, f.canHit);
    }
  }

  lemma MeetsOfNode(c: Config, cur: BitSet, uncov: BitSet, cand: BitSet, crit: seq<IntSet>, canHit: BitSet)
    requires NodeOk(c.g, cur, uncov, cand, crit, canHit)
    ensures Accepts(c.g, c.Goal(), cur) <==> c.Goal().Meets(|uncov|)
  {
  }

  lemma UncovOfNode(c: Config, cur: BitSet, uncov: BitSet, cand: BitSet, crit: seq<IntSet>, canHit: BitSet)
    requires NodeOk(c.g, cur, uncov, cand, crit, canHit)
    ensures uncov == Uncov(c.g, cur)
  {
  }

  lemma ChoiceIsEdge(c: Config, uncov: BitSet, canHit: BitSet, e: nat)
    requires Chooses(c.g, c.mode, uncov, canHit, e)
    ensures e < |c.g.edges|
  {
  }

  lemma FetchConserves(c: Config, shared: nat, t: Task, eff: Effect, t': Task)
    requires TaskOk(c, t) && t.stack != [] && t.stack[0].Fetch?
    requires Step(c, shared, t, eff, t')
    ensures TaskOk(c, t') && !eff.Emit? && !eff.Spawn?
    ensures TaskOwes(c, t) == TaskOwes(c, t')
    ensures t'.stack != [] && (t'.stack[0].Fork? ==> eff == Local(true))
  {
    hide StackOk;
    hide StackOwes;
    hide Solutions;
    hide LoopSolutions;
    hide NodeOk;
    hide LoopOk;
    hide CanHitSound;
    hide WrittenOff;
    hide Accepts;
    hide Elems;
    hide Bits;
    hide Graph.Edge;
    var f, rest := t.stack[0], t.stack[1..];
    var e := if c.mode == ORDER || c.mode == RANDOM then f.local else shared;
    var left := f.cand - c.g.Edge(e);
    assert t.stack == [f] + rest;
    StackCons(c, t.cur, t.uncov, f, rest);
    FetchLocal(c, t.cur, t.uncov, f.cand, f.crit, f.canHit, e);
    StackCons(c, t.cur, t.uncov, t'.stack[0], rest);
    if t'.stack[0].Fork? {
      SoundOfNode(c.g, t.cur, t.uncov, f.cand, f.crit, f.canHit);
      WrittenOffSound(c.g, t.uncov, f.canHit, t'.stack[0].canHitCopy, f.cand, left);
    }
  }

  lemma SoundOfNode(g: Graph, cur: BitSet, uncov: BitSet, cand: BitSet, crit: seq<IntSet>, canHit: BitSet)
    requires NodeOk(g, cur, uncov, cand, crit, canHit)
    ensures CanHitSound(g, uncov, canHit, cand)
  {
  }

  /** The avoiding branch is itself a sound node. */
  lemma AvoidingLocal(g: Graph, cur: BitSet, uncov: BitSet, cand: BitSet, crit: seq<IntSet>, canHit: BitSet,
                      canHitCopy: BitSet, vs: seq<nat>)
    requires LoopOk(g, cur, uncov, cand, crit, canHit, vs) && CanHitSound(g, uncov, canHitCopy, cand)
    ensures NodeOk(g, cur, uncov, cand, crit, canHitCopy)
  {
    Narrow(g, cur, uncov, cand + Elems(vs), cand, crit, canHit);
  }

  lemma ForkConserves(c: Config, shared: nat, t: Task, eff: Effect, t': Task)
    requires TaskOk(c, t) && t.stack != [] && t.stack[0].Fork?
    requires Step(c, shared, t, eff, t')
    ensures TaskOk(c, t')
    ensures TaskOwes(c, t) == TaskOwes(c, t')
  {
    hide StackOk;
    hide StackOwes;
    hide Solutions;
    hide LoopSolutions;
    hide NodeOk;
    hide LoopOk;
    hide CanHitSound;
    hide Elems;
    var f, rest := t.stack[0], t.stack[1..];
    var loop, enter := Loop(f.cand, f.crit, f.canHit, f.vs), Enter(f.cand, f.crit, f.canHitCopy);
    assert t.stack == [f] + rest;
    StackCons(c, t.cur, t.uncov, f, rest);
    if eff.Reserve? {
      StackCons(c, t.cur, t.uncov, t'.stack[0], rest);
    } else {
      AvoidingLocal(c.g, t.cur, t.uncov, f.cand, f.crit, f.canHit, f.canHitCopy, f.vs);
      StackCons(c, t.cur, t.uncov, loop, rest);
      assert t'.stack == [enter] + ([loop] + rest);
      StackCons(c, t.cur, t.uncov, enter, [loop] + rest);
    }
  }

  lemma PostConserves(c: Config, shared: nat, t: Task, eff: Effect, t': Task)
    requires TaskOk(c, t) && t.stack != [] && t.stack[0].Post?
    requires Step(c, shared, t, eff, t')
    ensures TaskOk(c, t') && eff.Spawn? && TaskOk(c, eff.task)
    ensures TaskOwes(c, t) == TaskOwes(c, t') + SpawnOwes(c, eff)
  {
    hide StackOk;
    hide StackOwes;
    hide Solutions;
    hide LoopSolutions;
    hide NodeOk;
    hide LoopOk;
    hide CanHitSound;
    hide Elems;
    var f, rest := t.stack[0], t.stack[1..];
    var loop, enter := Loop(f.cand, f.crit, f.canHit, f.vs), Enter(f.cand, f.crit, f.canHitCopy);
    assert t.stack == [f] + rest;
    StackCons(c, t.cur, t.uncov, f, rest);
    AvoidingLocal(c.g, t.cur, t.uncov, f.cand, f.crit, f.canHit, f.canHitCopy, f.vs);
    StackCons(c, t.cur, t.uncov, loop, rest);
    EmptyStack(c, t.cur, t.uncov);
    assert [enter] + [] == [enter];
    StackCons(c, t.cur, t.uncov, enter, []);
  }

  lemma EmptyStack(c: Config, cur: BitSet, uncov: BitSet)
    ensures StackOk(c, cur, uncov, []) && StackOwes(c, cur, []) == multiset{}
  {
  }

  lemma LoopConserves(c: Config, shared: nat, t: Task, eff: Effect, t': Task)
    requires TaskOk(c, t) && t.stack != [] && t.stack[0].Loop?
    requires Step(c, shared, t, eff, t')
    ensures TaskOk(c, t') && !eff.Emit? && !eff.Spawn?
    ensures TaskOwes(c, t) == TaskOwes(c, t')
  {
    hide StackOk;
    hide StackOwes;
    hide Solutions;
    hide LoopSolutions;
    hide NodeOk;
    hide LoopOk;
    hide Updated;
    var f, rest := t.stack[0], t.stack[1..];
    assert t.stack == [f] + rest;
    StackCons(c, t.cur, t.uncov, f, rest);
    if f.vs == [] {
      LoopSolutionsEmpty(c.g, c.Goal(), t.cur, f.cand);
      assert Elems(f.vs) == {};
    } else if exists i :: 0 <= i < |f.crit| && Elems(f.crit[i]) <= c.g.Hits(f.vs[0]) {
      SkipLocal(c, t.cur, t.uncov, f.cand, f.crit, f.canHit, f.vs);
      StackCons(c, t.cur, t.uncov, t'.stack[0], rest);
    } else {
      var newCrit, v := t'.stack[0].crit, f.vs[0];
      var wait := Await(f.cand, f.crit, f.canHit, newCrit, v, f.vs[1..]);
      DescendLocal(c, t.cur, t.uncov, f.cand, f.crit, f.canHit, f.vs, newCrit);
      assert t'.cur == t.cur + {v} && t'.cur - {v} == t.cur;
      assert t'.stack == [t'.stack[0]] + ([wait] + rest);
      StackCons(c, t'.cur, t'.uncov, t'.stack[0], [wait] + rest);
      StackCons(c, t'.cur, t'.uncov, wait, rest);
    }
  }

  lemma AwaitConserves(c: Config, shared: nat, t: Task, eff: Effect, t': Task)
    requires TaskOk(c, t) && t.stack != [] && t.stack[0].Await?
    requires Step(c, shared, t, eff, t')
    ensures TaskOk(c, t')
    ensures TaskOwes(c, t) == TaskOwes(c, t')
  {
    assert t'.stack[1..] == t.stack[1..];
  }

  /** What a task owes is what it emits, still owes, and hands to a spawned task. */
  lemma StepConserves(c: Config, shared: nat, t: Task, eff: Effect, t': Task)
    requires TaskOk(c, t) && Step(c, shared, t, eff, t')
    ensures TaskOk(c, t') && (eff.Spawn? ==> TaskOk(c, eff.task))
    ensures TaskOwes(c, t) == multiset(Emitted(eff)) + TaskOwes(c, t') + SpawnOwes(c, eff)
  {
    hide StackOk;
    hide TaskOk;
    hide EnterStep;
    hide ScanStep;
    hide FetchStep;
    hide LoopStep;
    hide TaskOwes;
    if t.stack == [] {
      EndConserves(c, t, t');
    } else {
      match t.stack[0]
      case Enter(_, _, _) => EnterConserves(c, t, eff, t');
      case Scan(_, _, _, _, _, _) => ScanConserves(c, shared, t, eff, t');
      case Fetch(_, _, _, _) => FetchConserves(c, shared, t, eff, t');
      case Fork(_, _, _, _, _) => ForkConserves(c, shared, t, eff, t');
      case Post(_, _, _, _, _) => PostConserves(c, shared, t, eff, t');
      case Loop(_, _, _, _) => LoopConserves(c, shared, t, eff, t');
      case Await(_, _, _, _, _, _) => AwaitConserves(c, shared, t, eff, t');
    }
  }

  lemma EndConserves(c: Config, t: Task, t': Task)
    requires t.stack == [] && t' == t.(ended := true)
    ensures TaskOk(c, t') && TaskOwes(c, t) == TaskOwes(c, t')
  {
  }
}
