/** Whole runs of the concurrent enumeration: any interleaving, any number of pool slots. */
module AdvancedAdcRuns {
  import opened BitSets
  import opened Hypergraphs
  import opened Covers
  import opened Accounting
  import opened SearchSteps
  import opened AdvancedAdc
  import opened ThreadPools

  /** Root task of `RunApproximate`. The shared edge field starts with an arbitrary value. */
  ghost predicate Init(c: Config, s: State) {
    && c.g.Valid()
    && s.tasks == [Task({}, Uncov(c.g, {}), [Enter(c.g.vertices, [], Uncov(c.g, {}))], false)]
    && s.taskNum == 0 && s.output == []
  }

  /** What the pool lets happen: a slot is granted exactly when one is free, and only posted tasks report their end. */
  ghost predicate Allowed(c: Config, s: State, i: nat, eff: Effect) {
    && (eff.Reserve? ==> !Refused(c.threadNum, s.taskNum))
    && (eff.Full? ==> Refused(c.threadNum, s.taskNum))
    && (eff.End? ==> i > 0)
  }

  function Apply(c: Config, s: State, i: nat, eff: Effect, t': Task): State
    requires i < |s.tasks|
  {
    State(s.tasks[i := t'] + Spawned(eff),
          if eff.Reserve? || eff.Full? then Asked(c.threadNum, s.taskNum)
          else if eff.End? then Returned(s.taskNum)
          else s.taskNum,
          if eff.Choose? then eff.edge else s.nextEdge,
          s.indexBuilt || eff == Local(true),
          s.output + Emitted(eff))
  }

  ghost predicate Moves(c: Config, s: State, i: nat, eff: Effect, t': Task, s': State) {
    && i < |s.tasks|
    && Step(c, s.nextEdge, s.tasks[i], eff, t')
    && Allowed(c, s, i, eff)
    && s' == Apply(c, s, i, eff, t')
  }

  /** At the fork the pool decides: with a free slot the avoiding branch becomes a task, otherwise it is searched right
      away, before the loop. */
  lemma ForkMeaning(c: Config, s: State, i: nat, eff: Effect, t': Task, s': State)
    requires Moves(c, s, i, eff, t', s') && s.tasks[i].stack != [] && s.tasks[i].stack[0].Fork?
    ensures var t, f := s.tasks[i], s.tasks[i].stack[0];
            && s'.tasks == s.tasks[i := t'] && s'.output == s.output
            && (s.taskNum < c.threadNum ==>
                  && s'.taskNum == s.taskNum + 1
                  && t' == t.(stack := [Post(f.cand, f.crit, f.canHit, f.canHitCopy, f.vs)] + t.stack[1..]))
            && (s.taskNum >= c.threadNum ==>
                  && s'.taskNum == s.taskNum
                  && t' == t.(stack := [Enter(f.cand, f.crit, f.canHitCopy), Loop(f.cand, f.crit, f.canHit, f.vs)]
                                       + t.stack[1..]))
  {
  }

  /** The posted task owns copies of the partial cover and of the uncovered edges, and starts at the avoiding branch. */
  lemma PostMeaning(c: Config, s: State, i: nat, eff: Effect, t': Task, s': State)
    requires Moves(c, s, i, eff, t', s') && s.tasks[i].stack != [] && s.tasks[i].stack[0].Post?
    ensures var t, f := s.tasks[i], s.tasks[i].stack[0];
            && t' == t.(stack := [Loop(f.cand, f.crit, f.canHit, f.vs)] + t.stack[1..])
            && s'.tasks == s.tasks[i := t'] + [Task(t.cur, t.uncov, [Enter(f.cand, f.crit, f.canHitCopy)], false)]
            && s'.taskNum == s.taskNum && s'.output == s.output
  {
  }

  ghost predicate Next(c: Config, s: State, s': State) {
    exists i: nat, eff, t' :: Moves(c, s, i, eff, t', s')
  }

  ghost predicate IsRun(c: Config, run: seq<State>) {
    && run != [] && Init(c, run[0])
    && forall k :: 0 <= k < |run| - 1 ==> Next(c, run[k], run[k + 1])
  }

  /** The caller has returned from its search and every posted task has ended, so `Wait` returns. */
  ghost predicate Finished(s: State) {
    && s.tasks != [] && s.tasks[0].stack == []
    && forall i :: 1 <= i < |s.tasks| ==> s.tasks[i].ended
  }

  // ---------- the account ----------

  ghost function TotalOwes(c: Config, tasks: seq<Task>): multiset<BitSet> {
    if tasks == [] then multiset{} else TaskOwes(c, tasks[0]) + TotalOwes(c, tasks[1..])
  }

  lemma {:induction false} TotalUpdate(c: Config, tasks: seq<Task>, i: nat, t: Task)
    requires i < |tasks|
    ensures TotalOwes(c, tasks[i := t]) + TaskOwes(c, tasks[i]) == TotalOwes(c, tasks) + TaskOwes(c, t)
  {
    hide TaskOwes;
    if i == 0 {
      assert tasks[0 := t][1..] == tasks[1..];
    } else {
      TotalUpdate(c, tasks[1..], i - 1, t);
      assert tasks[i := t][1..] == tasks[1..][i - 1 := t];
      var head, before, after := TaskOwes(c, tasks[0]), TotalOwes(c, tasks[1..]), TotalOwes(c, tasks[1..][i - 1 := t]);
      assert (head + after) + TaskOwes(c, tasks[i]) == head + (after + TaskOwes(c, tasks[i]));
      assert (head + before) + TaskOwes(c, t) == head + (before + TaskOwes(c, t));
    }
  }

  lemma {:induction false} TotalAppend(c: Config, tasks: seq<Task>, t: Task)
    ensures TotalOwes(c, tasks + [t]) == TotalOwes(c, tasks) + TaskOwes(c, t)
  {
    hide TaskOwes;
    if tasks == [] {
      assert ([] + [t])[1..] == [];
    } else {
      assert (tasks + [t])[1..] == tasks[1..] + [t];
      TotalAppend(c, tasks[1..], t);
    }
  }

  ghost predicate Account(c: Config, s: State) {
    && (forall i :: 0 <= i < |s.tasks| ==> TaskOk(c, s.tasks[i]))
    && multiset(s.output) + TotalOwes(c, s.tasks) == multiset(Solutions(c.g, c.Goal(), {}, c.g.vertices))
  }

  lemma Regroup<T>(output: multiset<T>, newOutput: multiset<T>, emitted: multiset<T>, total: multiset<T>,
                   updated: multiset<T>,
                   newTotal: multiset<T>, before: multiset<T>, after: multiset<T>, spawned: multiset<T>, all: multiset<T>)
    requires output + total == all && newOutput == output + emitted
    requires before == emitted + after + spawned
    requires updated + before == total + after
    requires newTotal == updated + spawned
    ensures newOutput + newTotal == all
  {
    forall x
      ensures (newOutput + newTotal)[x] == all[x]
    {
      assert (output + total)[x] == all[x];
      assert (updated + before)[x] == (total + after)[x];
    }
  }

  lemma AccountStep(c: Config, s: State, i: nat, eff: Effect, t': Task, s': State)
    requires Account(c, s) && Moves(c, s, i, eff, t', s')
    ensures Account(c, s')
  {
    hide TaskOwes;
    hide TaskOk;
    hide Solutions;
    hide TotalOwes;
    StepConserves(c, s.nextEdge, s.tasks[i], eff, t');
    TotalUpdate(c, s.tasks, i, t');
    var updated := s.tasks[i := t'];
    if eff.Spawn? {
      TotalAppend(c, updated, eff.task);
    } else {
      assert s'.tasks == updated;
    }
    Regroup(multiset(s.output), multiset(s'.output), multiset(Emitted(eff)), TotalOwes(c, s.tasks), TotalOwes(c, updated),
            TotalOwes(c, s'.tasks), TaskOwes(c, s.tasks[i]), TaskOwes(c, t'), SpawnOwes(c, eff),
            multiset(Solutions(c.g, c.Goal(), {}, c.g.vertices)));
  }

  lemma AccountInit(c: Config, s: State)
    requires Init(c, s)
    ensures Account(c, s)
  {
    var t := s.tasks[0];
    assert NodeState(c.g, {}, t.uncov, c.g.vertices, [], []);
    assert NodeOk(c.g, {}, t.uncov, c.g.vertices, [], t.uncov);
    assert [Enter(c.g.vertices, [], t.uncov)] + [] == t.stack;
    StackCons(c, {}, t.uncov, t.stack[0], []);
    EmptyStack(c, {}, t.uncov);
    assert s.tasks[1..] == [];
    assert TotalOwes(c, []) == multiset{};
  }

  // ---------- slots, the index, and the shared field ----------

  /** The slots a task occupies: one while it is posted and not ended, one while it is about to post another. */
  function Slots(posted: bool, t: Task): nat {
    (if posted && !t.ended then 1 else 0) + (if t.stack != [] && t.stack[0].Post? then 1 else 0)
  }

  function SlotsFrom(tasks: seq<Task>, posted: bool): nat {
    if tasks == [] then 0 else Slots(posted, tasks[0]) + SlotsFrom(tasks[1..], true)
  }

  lemma {:induction false} SlotsUpdate(tasks: seq<Task>, posted: bool, i: nat, t: Task)
    requires i < |tasks|
    ensures SlotsFrom(tasks[i := t], posted) + Slots(posted || i > 0, tasks[i])
            == SlotsFrom(tasks, posted) + Slots(posted || i > 0, t)
  {
    if i == 0 {
      assert tasks[0 := t][1..] == tasks[1..];
    } else {
      SlotsUpdate(tasks[1..], true, i - 1, t);
      assert tasks[i := t][1..] == tasks[1..][i - 1 := t];
    }
  }

  lemma {:induction false} SlotsAppend(tasks: seq<Task>, posted: bool, t: Task)
    requires tasks != []
    ensures SlotsFrom(tasks + [t], posted) == SlotsFrom(tasks, posted) + Slots(true, t)
  {
    assert (tasks + [t])[1..] == tasks[1..] + [t];
    if |tasks| == 1 {
      assert tasks[1..] == [] && ([] + [t])[1..] == [];
      assert SlotsFrom([t], true) == Slots(true, t) + SlotsFrom([], true);
      assert [] + [t] == [t];
    } else {
      SlotsAppend(tasks[1..], true, t);
    }
  }

  ghost function Held(tasks: seq<Task>): set<int> {
    set i | 1 <= i < |tasks| && !tasks[i].ended
  }

  ghost function Posting(tasks: seq<Task>): set<int> {
    set i | 0 <= i < |tasks| && tasks[i].stack != [] && tasks[i].stack[0].Post?
  }

  lemma OneMoreHeld(tasks: seq<Task>, t: Task)
    requires tasks != []
    ensures |Held(tasks + [t])| == |Held(tasks)| + if t.ended then 0 else 1
  {
    var more, n := tasks + [t], |tasks|;
    var held := if t.ended then Held(tasks) else Held(tasks) + {n};
    forall i
      ensures i in Held(more) <==> i in held
    {
      if 1 <= i < n {
        assert more[i] == tasks[i];
      }
    }
    assert Held(more) == held;
  }

  lemma OneMorePosting(tasks: seq<Task>, t: Task)
    requires tasks != []
    ensures |Posting(tasks + [t])| == |Posting(tasks)| + if t.stack != [] && t.stack[0].Post? then 1 else 0
  {
    var more, n := tasks + [t], |tasks|;
    var posting := if t.stack != [] && t.stack[0].Post? then Posting(tasks) + {n} else Posting(tasks);
    forall i
      ensures i in Posting(more) <==> i in posting
    {
      if 0 <= i < n {
        assert more[i] == tasks[i];
      }
    }
    assert Posting(more) == posting;
  }

  lemma OneTask(t: Task)
    ensures Held([t]) == {} && Posting([t]) == if t.stack != [] && t.stack[0].Post? then {0} else {}
    ensures SlotsFrom([t], false) == if t.stack != [] && t.stack[0].Post? then 1 else 0
  {
    assert [t][1..] == [];
  }

  /** The slots, counted: one for every posted task that has not ended, one for every task about to post another. */
  lemma {:induction false} SlotsCounted(tasks: seq<Task>)
    requires tasks != []
    ensures SlotsFrom(tasks, false) == |Held(tasks)| + |Posting(tasks)|
  {
    hide SlotsFrom;
    hide Held;
    hide Posting;
    if |tasks| == 1 {
      assert tasks == [tasks[0]];
      OneTask(tasks[0]);
    } else {
      var init, last := tasks[..|tasks| - 1], tasks[|tasks| - 1];
      assert tasks == init + [last];
      SlotsCounted(init);
      SlotsAppend(init, false, last);
      OneMoreHeld(init, last);
      OneMorePosting(init, last);
    }
  }

  lemma {:induction false} NoSlots(tasks: seq<Task>, posted: bool)
    requires forall i :: 0 <= i < |tasks| ==> tasks[i].stack == [] && ((posted || i > 0) ==> tasks[i].ended)
    ensures SlotsFrom(tasks, posted) == 0
  {
    if tasks != [] {
      NoSlots(tasks[1..], true);
    }
  }

  ghost predicate Top(t: Task, forking: bool) {
    t.stack != [] && if forking then t.stack[0].Fork? || t.stack[0].Post?
                     else t.stack[0].Fetch? || (t.stack[0].Scan? && t.stack[0].get)
  }

  /** Slot accounting, the state of the lazily built index, and the shared field. */
  ghost predicate Shared(c: Config, s: State) {
    && s.tasks != [] && !s.tasks[0].ended
    && (forall i :: 0 <= i < |s.tasks| ==> TaskOk(c, s.tasks[i]))
    && s.taskNum == SlotsFrom(s.tasks, false)
    && InBounds(c.threadNum, s.taskNum)
    && (|s.tasks| > 1 ==> s.indexBuilt)
    && (forall i :: 0 <= i < |s.tasks| && Top(s.tasks[i], true) ==> s.indexBuilt)
    && (forall i :: 0 <= i < |s.tasks| && Top(s.tasks[i], false) ==> s.nextEdge < |c.g.edges|)
  }

  /** What one step does to the slots its task occupies, and when it can come to the fork or to the shared field. */
  ghost predicate SlotsKept(c: Config, posted: bool, t: Task, eff: Effect, t': Task) {
    && Slots(posted, t') + (if eff.Spawn? then 1 else 0)
       == Slots(posted, t) + (if eff.Reserve? then 1 else 0) - (if eff.End? then 1 else 0)
    && (eff.Spawn? ==> Slots(true, eff.task) == 1 && !Top(eff.task, true) && !Top(eff.task, false) && Top(t, true))
    && (eff.Choose? ==> eff.edge < |c.g.edges|)
    && (Top(t', false) ==> eff.Choose? || Top(t, false))
    && (Top(t', true) ==> eff == Local(true) || Top(t, true))
    && (!eff.End? ==> t'.ended == t.ended)
  }

  lemma StepSlots(c: Config, shared: nat, t: Task, eff: Effect, t': Task, posted: bool)
    requires TaskOk(c, t) && Step(c, shared, t, eff, t') && (eff.End? ==> posted)
    ensures SlotsKept(c, posted, t, eff, t')
  {
    if t.stack != [] {
      assert forall k :: 1 <= k < |t.stack| ==> Resting(t.stack[k]);
      if t.stack[0].Enter? {
        EnterSlots(c, shared, t, eff, t', posted);
      } else if t.stack[0].Scan? {
        ScanSlots(c, shared, t, eff, t', posted);
      } else if t.stack[0].Fetch? {
        FetchSlots(c, shared, t, eff, t', posted);
      } else if t.stack[0].Loop? {
        LoopSlots(c, shared, t, eff, t', posted);
      }
      hide TaskOk;
    }
  }

  lemma EnterSlots(c: Config, shared: nat, t: Task, eff: Effect, t': Task, posted: bool)
    requires t.stack != [] && t.stack[0].Enter? && Step(c, shared, t, eff, t') && !eff.End?
    requires forall k :: 1 <= k < |t.stack| ==> Resting(t.stack[k])
    ensures SlotsKept(c, posted, t, eff, t')
  {
  }

  lemma ScanSlots(c: Config, shared: nat, t: Task, eff: Effect, t': Task, posted: bool)
    requires t.stack != [] && t.stack[0].Scan? && Step(c, shared, t, eff, t') && !eff.End?
    requires forall k :: 1 <= k < |t.stack| ==> Resting(t.stack[k])
    ensures SlotsKept(c, posted, t, eff, t')
  {
    hide Improves;
  }

  lemma FetchSlots(c: Config, shared: nat, t: Task, eff: Effect, t': Task, posted: bool)
    requires TaskOk(c, t) && t.stack != [] && t.stack[0].Fetch? && Step(c, shared, t, eff, t')
    ensures SlotsKept(c, posted, t, eff, t')
  {
    hide Accepts;
    hide WrittenOff;
    hide StackOk;
    hide Bits;
    hide Graph.Edge;
    FetchConserves(c, shared, t, eff, t');
  }

  lemma LoopSlots(c: Config, shared: nat, t: Task, eff: Effect, t': Task, posted: bool)
    requires t.stack != [] && t.stack[0].Loop? && Step(c, shared, t, eff, t')
    requires forall k :: 1 <= k < |t.stack| ==> Resting(t.stack[k])
    ensures SlotsKept(c, posted, t, eff, t')
  {
    hide Updated;
  }

  lemma SharedStep(c: Config, s: State, i: nat, eff: Effect, t': Task, s': State)
    requires Shared(c, s) && Moves(c, s, i, eff, t', s')
    ensures Shared(c, s')
  {
    hide TaskOk;
    hide Step;
    hide SlotsKept;
    hide SlotsFrom;
    hide Top;
    StepConserves(c, s.nextEdge, s.tasks[i], eff, t');
    StepSlots(c, s.nextEdge, s.tasks[i], eff, t', i > 0);
    SharedSlots(c, s, i, eff, t', s');
    SharedTops(c, s, i, eff, t', s');
    TaskKept(c, s.tasks[i], eff, t', i > 0);
  }

  lemma TaskKept(c: Config, t: Task, eff: Effect, t': Task, posted: bool)
    requires SlotsKept(c, posted, t, eff, t')
    ensures !eff.End? ==> t'.ended == t.ended
  {
  }

  lemma SharedSlots(c: Config, s: State, i: nat, eff: Effect, t': Task, s': State)
    requires Shared(c, s) && i < |s.tasks| && Allowed(c, s, i, eff) && s' == Apply(c, s, i, eff, t')
    requires SlotsKept(c, i > 0, s.tasks[i], eff, t')
    ensures s'.taskNum == SlotsFrom(s'.tasks, false) && InBounds(c.threadNum, s'.taskNum)
  {
    hide TaskOk;
    hide Slots;
    hide SlotsFrom;
    hide Top;
    var updated := s.tasks[i := t'];
    SlotsUpdate(s.tasks, false, i, t');
    if eff.Spawn? {
      SlotsAppend(updated, false, eff.task);
    } else {
      assert s'.tasks == updated;
    }
  }

  lemma SharedTops(c: Config, s: State, i: nat, eff: Effect, t': Task, s': State)
    requires Shared(c, s) && i < |s.tasks| && s' == Apply(c, s, i, eff, t') && SlotsKept(c, i > 0, s.tasks[i], eff, t')
    ensures |s'.tasks| > 1 ==> s'.indexBuilt
    ensures forall j :: 0 <= j < |s'.tasks| && Top(s'.tasks[j], true) ==> s'.indexBuilt
    ensures forall j :: 0 <= j < |s'.tasks| && Top(s'.tasks[j], false) ==> s'.nextEdge < |c.g.edges|
  {
    hide TaskOk;
    hide Slots;
    hide SlotsFrom;
    hide Top;
    forall j | 0 <= j < |s'.tasks|
      ensures Top(s'.tasks[j], true) ==> s'.indexBuilt
      ensures Top(s'.tasks[j], false) ==> s'.nextEdge < |c.g.edges|
    {
      if j < |s.tasks| && j != i {
        assert s'.tasks[j] == s.tasks[j];
      } else if j == i {
        assert s'.tasks[j] == t';
      } else {
        assert eff.Spawn? && s'.tasks[j] == eff.task;
      }
    }
  }

  lemma SharedInit(c: Config, s: State)
    requires Init(c, s)
    ensures Shared(c, s)
  {
    AccountInit(c, s);
    assert s.tasks[1..] == [];
  }

  // ---------- theorems about runs ----------

  lemma {:induction false} RunInvariant(c: Config, run: seq<State>)
    requires IsRun(c, run)
    ensures Account(c, run[|run| - 1]) && Shared(c, run[|run| - 1])
    decreases |run|
  {
    hide Account;
    hide Shared;
    if |run| == 1 {
      AccountInit(c, run[0]);
      SharedInit(c, run[0]);
    } else {
      var before := run[..|run| - 1];
      assert IsRun(c, before);
      RunInvariant(c, before);
      var s, s' := run[|run| - 2], run[|run| - 1];
      assert Next(c, s, s');
      var i: nat, eff, t' :| Moves(c, s, i, eff, t', s');
      AccountStep(c, s, i, eff, t', s');
      SharedStep(c, s, i, eff, t', s');
    }
  }

  lemma {:induction false} NothingOwed(c: Config, tasks: seq<Task>)
    requires forall i :: 0 <= i < |tasks| ==> tasks[i].stack == []
    ensures TotalOwes(c, tasks) == multiset{}
  {
    if tasks != [] {
      NothingOwed(c, tasks[1..]);
    }
  }

  /** At every point of every run, what has been emitted and what the tasks still owe is exactly the set of minimal
      approximate covers, each once; and a finished run has emitted them all. This holds for every edge choice mode,
      even when tasks overwrite each other's `nextEdge`. */
  lemma ScheduleIndependence(c: Config, run: seq<State>)
    requires IsRun(c, run)
    ensures var s := run[|run| - 1];
            && multiset(s.output) + TotalOwes(c, s.tasks) == multiset(Solutions(c.g, c.Goal(), {}, c.g.vertices))
            && (Finished(s) ==> Delivers([], s.output, multiset{}, Solutions(c.g, c.Goal(), {}, c.g.vertices)))
  {
    RunInvariant(c, run);
    var s := run[|run| - 1];
    if Finished(s) {
      assert forall i :: 0 <= i < |s.tasks| ==> TaskOk(c, s.tasks[i]);
      NothingOwed(c, s.tasks);
      var none: set<BitSet> := {};
      assert multiset(none) == multiset{};
    }
  }

  /** Any finished run emits a permutation of what the sequential search emits. */
  lemma AgreesWithSequential(c: Config, run: seq<State>, first: seq<BitSet>, sequential: seq<BitSet>)
    requires IsRun(c, run) && Finished(run[|run| - 1])
    requires Delivers(first, sequential, multiset{}, Solutions(c.g, c.Goal(), {}, c.g.vertices))
    ensures first <= sequential
    ensures multiset(run[|run| - 1].output) == multiset(sequential[|first|..])
  {
    ScheduleIndependence(c, run);
    var all := Solutions(c.g, c.Goal(), {}, c.g.vertices);
    DeliversBag(first, sequential, all);
    DeliversBag([], run[|run| - 1].output, all);
    assert run[|run| - 1].output[0..] == run[|run| - 1].output;
  }

  /** Slots: never negative, never above the limit, all returned at the end; and no task is posted before the index exists. */
  lemma TaskAccounting(c: Config, run: seq<State>)
    requires IsRun(c, run)
    ensures var s := run[|run| - 1];
            && 0 <= s.taskNum && (s.taskNum <= c.threadNum || s.taskNum == 0)
            && s.taskNum == |set i | 1 <= i < |s.tasks| && !s.tasks[i].ended|
                            + |set i | 0 <= i < |s.tasks| && s.tasks[i].stack != [] && s.tasks[i].stack[0].Post?|
            && (Finished(s) ==> s.taskNum == 0)
            && (|s.tasks| > 1 ==> s.indexBuilt)
            && (c.threadNum <= 0 ==> s.taskNum == 0)
  {
    RunInvariant(c, run);
    var s := run[|run| - 1];
    SlotsCounted(s.tasks);
    if Finished(s) {
      assert forall i :: 0 <= i < |s.tasks| ==> TaskOk(c, s.tasks[i]);
      NoSlots(s.tasks, false);
    }
  }
}
