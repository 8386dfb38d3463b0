# Enumerating and selecting minimal vertex covers: a verified model

The repository enumerates the minimal vertex covers (hitting sets) of a hypergraph by branch-and-backtrack searches,
also up to a tolerated share of uncovered edges, sequentially and on a task pool. It also picks diverse subsets of the
covers, by filtering, by a randomised search with repair, and by greedy farthest-point selection. This project models
those algorithms in Dafny and proves what they are for. `dafny verify dfyconfig.toml` checks all of it.

## Main results

* **Exact enumeration.** `MMCS` emits every minimal hitting set, nothing else, and each once, in modes ORDER, RANDOM,
  MIN and MAX; the same holds in `ADCEnum` for the minimal approximate covers at every `theta`. In every mode the
  covers come in the order of a listing that follows from the edge choice and the numbers drawn. The stale edge that
  MAX can fall back on in `MMCS` costs nothing. Every call hands back the state it was given.
* **Agreement.** At `theta = 0` the two searches list the same covers if and only if the hypergraph has an edge.
  Without edges the score is 0/0, the comparison is false, and the approximate search emits nothing.
* **Schedule independence.** `AdvancedADCEnum` is a state machine over the atomic steps of its tasks. At every point
  of every run the emitted covers and the covers still owed by all tasks are the solutions of the root, each once.
  This survives tasks overwriting each other's `next_edge_`, also in the middle of the scan of modes MIN and MAX. No
  run gets stuck, and in modes ORDER and RANDOM, and in every mode without threads, each schedule is finite with an
  explicit bound and can be continued to its end. Without threads the covers come in the order of the sequential
  search. Pool slots are accounted for exactly.
* **Spaced covers.** `SubMMCS` keeps the first cover, and any later one exactly when it is far enough from the one
  kept before it. It pushes a prefix of the exact enumeration that ends with the last cover required.
* **Repair.** Forcing a vertex in and evicting the redundant ones keeps the whole search invariant of `RandomEnum`,
  and every set `RunDiverse` returns is a minimal cover, put together from one per connected component. What it
  searches, in which state and how often, is stated for every run. No search of a component comes back empty-handed,
  whatever is drawn, in two cases. One is that every edge has an anchor: a vertex all of whose edges lie inside it, or
  in mode ORDER a weaker one for which only earlier edges count. The other, in ORDER, RANDOM and MIN, is that nothing
  ever has to be forced in; then the search is exhaustive up to its first cover. The hypergraph on which the
  repository tests the search is of the second kind. In mode MAX certain draws make a search of it miss.
* **The automatic variant.** After a round of `RandomEnumAutoInc` its entry is a minimal cover of the whole hypergraph
  if and only if the round raised the stop flag, there is one connected component, and no edge is empty (or there is
  no edge at all). Two ways to miss it are shown on concrete inputs. The flag is not reset between components, so with
  the edges {0} and {1} the entry holds {0} only, whatever is drawn. And a round can find nothing: with the edges {0,
  1, 2}, {1}, {0}, connected and not empty, certain draws end the round with the entry as it was allocated. A
  component of the two kinds above excludes the second. The whole run, search and selection together, is stated round
  by round; it stops exactly when 125 covers are listed or the selection has survived six covers in a row, it puts out
  entries chosen greedily, and its two ways of going wrong after empty-handed rounds are named.
* **Components.** `GetSubGraph` returns the connected components of the hypergraph in order of their smallest
  vertices, with the edges of each in the order of the depth-first visit, on which the searches depend.
* **Greedy selection.** Jaccard distance is a metric, `IncMaxmin` is a greedy farthest-point selection from any valid
  prefix, its value is at least half the best possible one, among ties the first point is taken, and `AutoInc` keeps
  exactly the longest prefix that stays greedy.

## How the model is laid out

A `BitSet` is the set of its set bits and an `IntSet` the vector it wraps; `BitSets.dfy` and `IntSets.dfy` prove the
loops of the originals against those values. `Hypergraphs.dfy` holds the graph as a value, and the object with its
lazily built index proved against that value; the searches read the index through its specification `HittingList`. C++
inheritance between the searches is rendered by shared helpers that take and return the fields they touch
(`SearchSteps.dfy`), and one class per search. A loop whose proof needs room is a method of its own next to the
recursion it belongs to. Output is the sequence of covers pushed.

`Emissions` in `Mmcs.dfy` and `AdcEnum.dfy` list what a search emits, in order; the methods are proved to emit just
that, and the lemmas say what the listings hold. `Accounting.Delivers(first, now, lost, all)` says that the output
grew from `first` to `now`, and that the new part together with `lost` lists `all`, each cover once. `lost` is
non-empty only in mode PRIORITY, which the sequential searches accept but do not support.

The randomised search comes in three layers: `RandomSteps.dfy` and `Repair.dfy` hold what one call does as functions
of the state and the numbers drawn, `RandomSearch.dfy` the class whose methods are proved equal to them, and
`RandomSoundness.dfy` what holds of these functions for every state and all numbers. `Anchors.dfy`, `CalmSearch.dfy`,
`Rounds.dfy`, `EmptyRounds.dfy`, `TestHypergraph.dfy` and `MaxRounds.dfy` are about searches and rounds that can or
cannot come back empty-handed; `Sure` names the two kinds of components that cannot. A lemma called `...Meaning`
spells out a definition that contracts refer to by name.

Files and what they follow: `Mmcs.dfy`, `AdcEnum.dfy`, `SubMmcs.dfy`, `AdvancedAdc*.dfy` and `ThreadPools.dfy`, the
files just named with `CoverUnion.dfy`, `Components.dfy`, `Jaccard.dfy`, `Maxmin.dfy`, and `AutomaticIncrease.dfy`
with `AutoIncRuns.dfy`. `Covers.dfy` and `Accounting.dfy` hold the mathematics shared by all searches.

The random generators are a parameter, a function from the count of numbers drawn so far, so every result holds for
all sequences of draws. Nondeterminism stands for the scheduler and for the iteration order of hash sets. Distances
and scores are reals.

Preconditions taken from the code: an edge lists no vertex twice; vertex and edge ids are below MAXBIT; `top_k` is at
least 2 (`ans[1]` is written) and at most the number of covers (the summary reads `top_k` different picks); and at
most one of the covers handed to the selection is empty, since the distance of two empty ones is 0/0.

## Model

| member | source | states |
|---|---|---|
| Mmcs.MMCS.RunAll | mmcs.h:22-27 | the output gains every minimal hitting set, nothing else, each once, in modes ORDER, RANDOM, MIN and MAX; in PRIORITY it gains only such sets; in every mode it is the listing, and the field and the generator are left where the listing leaves them |
| Mmcs.MMCS.RunAllFrom | mmcs.cpp:17-42 | from any sound node the output gains the listing of the node, with `cur_` and `uncov_` restored; `cand` shrinks on every recursive call |
| Mmcs.MMCS.VisitVertices | mmcs.cpp:30-41 | the loop adds the listing of the candidates of the chosen edge |
| Mmcs.MMCS.Descend | mmcs.cpp:32-39 | the subtree of `v` adds the listing of the extended node, and the extension is undone |
| Mmcs.EmissionsDeliver | mmcs.cpp:17-42 | whatever is drawn, the listing of a node holds its minimal hitting sets, each once; in PRIORITY some may be missing |
| Mmcs.LoopOrder | mmcs.cpp:30-41 | the covers of a loop come in the order of the last candidate they use |
| Mmcs.CompletedIsMinimal | mmcs.cpp:31-36 | a vertex that passes the criticality test and covers the rest completes a minimal hitting set, so the leaf needs no test |
| Mmcs.SplitOnGoodEdge | mmcs.cpp:58-71 | whether the chosen edge is uncovered or stale, no solution avoids its candidates |
| Accounting.EnumerationMeaning | mmcs.cpp:17-42 | a lossless search from the root lists, without repetition, exactly the sets that meet the target while no proper subset does |
| Covers.SplitOnEdge | adc_enum.cpp:25-32 | a node's solutions are those avoiding the edge's candidates and those using one, disjointly |
| Covers.SplitOnVertex | adc_enum.cpp:34-45 | the solutions using the remaining vertices are those whose last such vertex is `v` and the rest, disjointly |
| Covers.SkipViolating | mmcs.cpp:30-38 | a violating vertex is dropped for good without losing a minimal cover |
| Covers.ViolatingIsLost | mmcs.cpp:75-84 | no minimal cover contains the partial cover and a violating vertex |
| Covers.MinimalMeaning | adc_enum.cpp:53-60 | minimality against single removals is minimality against every proper subset |
| Covers.CritMeaning | mmcs.cpp:86-91 | the critical edges of a vertex are the edges that it alone hits |
| Covers.MeetsIsBudget | common/approximate_functions.h:6-8 | the score test holds exactly when at most `theta` times the number of edges stay uncovered |
| Covers.ZeroThetaAgreement | adc_enum.cpp:11-20 | at `theta = 0` the approximate and the exact solutions coincide if and only if there is an edge |
| Accounting.ZeroThetaSameOutput | adc_enum.cpp:9-46 | the outputs of the two searches at `theta = 0` are permutations of each other if and only if there is an edge |
| SearchSteps.VertexWouldViolate | mmcs.cpp:75-84 | answers whether some chosen vertex would lose all its critical edges |
| SearchSteps.UpdateCritAndUncov | mmcs.cpp:86-93 | removes the vertex's edges from every entry and from `uncov_`, and appends the newly covered ones |
| SearchSteps.CritsAdd | mmcs.cpp:86-93 | the update keeps every entry of `crit` exact |
| SearchSteps.Extend | mmcs.cpp:34-39 | extending a sound node gives a sound node, and the last entry of `crit` restores `uncov_` |
| SearchSteps.GetGoodEdgeToCover | mmcs.cpp:44-73 | which edge each mode returns, the first one among ties, and what the field holds afterwards; except in PRIORITY the edge is uncovered or no uncovered edge has a candidate |
| SearchSteps.GetHittableEdge | adc_enum.cpp:62-92 | the first, narrowest or widest uncovered edge that may still be hit; no edge only if none of them has a candidate (or in PRIORITY) |
| SearchSteps.BestEdge | adc_enum.cpp:72-90 | the first edge of least or greatest width, and when there is none |
| SearchSteps.EdgeChoiceMeaning | mmcs.cpp:44-73 | the specified choice is within the hypergraph, and uncovered unless no uncovered edge has a candidate |
| AdcEnum.ADCEnum.RunApproximate | adc_enum.h:13-18 | the output gains every minimal approximate cover, nothing else, each once, in the order of the listing; `total_num_` counts them; in PRIORITY only the empty cover can be emitted |
| AdcEnum.ADCEnum.RunApproximateFrom | adc_enum.cpp:9-46 | from any sound node the output gains the listing of the node, with `cur_`, `uncov_` and `can_hit_` restored; the uncovered edges that may still be hit shrink on every recursive call |
| AdcEnum.ADCEnum.AvoidEdge | adc_enum.cpp:28-33 | adds the listing of the branch that avoids the chosen edge's candidates, whether it recurses or prunes |
| AdcEnum.ADCEnum.VisitVertices | adc_enum.cpp:34-45 | adds the listing of the branch that uses one of them |
| AdcEnum.EmissionsDeliver | adc_enum.cpp:9-46 | the listing of a node holds its minimal approximate covers, each once; in PRIORITY only its own partial cover |
| AdcEnum.IsMinimal | adc_enum.cpp:53-60 | the test on sizes decides minimality of the partial cover |
| AdcEnum.UpdateCanCover | adc_enum.cpp:94-107 | exactly the uncovered edges without a candidate are written off |
| AdcEnum.WillCover | adc_enum.cpp:109-117 | answers whether all candidates together reach the threshold |
| AdcEnum.WillCoverMeaning | adc_enum.cpp:109-117 | that is the case if and only if some cover between `cur` and `cur + cand` reaches it |
| AdcEnum.NoEdgeNoSolution | adc_enum.cpp:22-24 | returning on a null edge hides no solution |
| AdvancedAdcRuns.ScheduleIndependence | advanced_adc_enum.cpp:14-63 | in every run emitted and owed covers are the root's solutions, each once; a finished run has emitted them all, for every mode and any number of slots |
| AdvancedAdcRuns.AgreesWithSequential | advanced_adc_enum.cpp:14-63 | a finished run emits a permutation of what the sequential search emits |
| AdvancedAdcRuns.TaskAccounting | common/thread_pool.cpp:17-33 | `task_num_` is the number of posted tasks that have not ended and of tasks about to post one, stays within the limit, is 0 at the end, and no task is posted before the vertex index exists |
| AdvancedAdcRuns.ForkMeaning | advanced_adc_enum.cpp:38-49 | the avoiding branch takes a slot exactly when one is free, and is searched at once otherwise |
| AdvancedAdc.StepConserves | advanced_adc_enum.cpp:19-62 | what a task owes is what one step emits, still owes, and hands to a spawned task |
| AdvancedAdc.ScanConserves | advanced_adc_enum.cpp:87-106 | the scan of MIN and MAX, which writes the shared field at every improvement, keeps what its task owes, also when it ends without an edge |
| AdvancedAdc.FetchLocal | advanced_adc_enum.cpp:33-38 | whatever edge is fetched, even one chosen by another task, the two branches share out the node's solutions |
| AdvancedAdc.DescendLocal | advanced_adc_enum.cpp:50-61 | the child node and the way back are sound, and no solution is counted twice |
| AdvancedAdcCompletion.NeverStuck | advanced_adc_enum.cpp:14-63 | an unfinished run can be continued |
| AdvancedAdcCompletion.BoundedRun | advanced_adc_enum.cpp:79-86 | in modes ORDER and RANDOM, and in every mode when there are no threads, no run is longer than a bound computed from the numbers of edges and vertices |
| AdvancedAdcCompletion.StepRankFalls | advanced_adc_enum.cpp:28-62 | every step uses up part of the rank of the task and of what it spawns |
| AdvancedAdcCompletion.Completes | advanced_adc_enum.cpp:14-63 | in the same modes every run can be continued to a finished one |
| AdvancedAdcOrder.SequentialOrder | advanced_adc_enum.cpp:14-106 | without threads every finished run has emitted exactly the listing of the sequential search, in its order, in modes ORDER, RANDOM, MIN and MAX |
| AdvancedAdcOrder.ScanChoice | advanced_adc_enum.cpp:87-106 | what the scan ends with is the first of the narrowest or widest edges, or nothing where there is none |
| AdvancedAdcOrder.NodeInOrder | advanced_adc_enum.cpp:28-49 | the branches of the fetched edge list what the sequential node lists |
| ThreadPools.ThreadPool.IsFull | common/thread_pool.cpp:21-28 | a slot is taken exactly when one is free, and the bounds of the count are kept |
| ThreadPools.ThreadPool.TaskEnd | common/thread_pool.cpp:30-33 | the count goes down by one, whether or not a slot was held; the bounds are kept exactly if one was |
| ThreadPools.BoundsKept | common/thread_pool.cpp:21-33 | the two operations on the count, which the steps of the concurrent search use, keep it between 0 and the limit exactly when only held slots are returned |
| SubMmcs.SubMMCS.RunDiverse | sub_mmcs.h:14-19 | in every mode the covers pushed are a prefix of what the exact search emits, all of it unless enough covers are kept, and otherwise up to the last one kept; which of them are kept; stopping early keeps the first `required` of the complete filter |
| SubMmcs.SampledMeaning | sub_mmcs.cpp:17-28 | the kept covers stand at ascending positions, the first at the start; each is at least the threshold away from the one kept before it, and every cover passed over is nearer than that to the last one kept before it |
| SubMmcs.SubMMCS.RunDiverseFrom | sub_mmcs.cpp:13-48 | each node consumes its enumeration as far as needed and restores the state unless the search stops |
| SubMmcs.EarlyStop | sub_mmcs.cpp:15-22 | stopping early keeps exactly the first covers of the filter over the whole enumeration |
| SubMmcs.FilterSpaced | sub_mmcs.cpp:18-22 | consecutively kept covers are at least the threshold apart |
| SubMmcs.ConsumedConcat | sub_mmcs.cpp:34-47 | consuming two enumerations in a row stops where consuming their concatenation stops |
| Repair.RepairedSound | random_enum.cpp:108-144 | on a sound state and an open edge the repaired state is sound: the list lists the cover, every entry of `crit` is exact and non-empty, and exactly the edges of `v` became covered |
| Repair.Force | random_enum.cpp:111-144 | the loops compute the repaired state |
| Repair.EvictedMeaning | random_enum.cpp:119-134 | after any number of turns exactly the vertices without critical edges are gone, nothing is uncovered, and the other entries are exact |
| Repair.HandedMeaning | random_enum.cpp:123-131 | every other entry gains exactly the edges its vertex shares alone with the evicted one |
| Repair.EvictCrit | random_enum.cpp:123-132 | an eviction makes critical exactly the edges two vertices shared alone |
| Repair.EvictUncov | random_enum.cpp:119-133 | evicting a vertex without critical edges uncovers nothing |
| Repair.KeptMeaning | random_enum.cpp:135-144 | the kept vertices stand in the old order, at exactly the positions whose entries are not empty, each with its entry |
| RandomSearch.RandomEnum.RunDiverse | random_enum.cpp:20-44 | the searches made, component by component; every returned set is minimal among the sets hitting all non-empty edges, hence a minimal cover of the original hypergraph if and only if it has no empty edge; a component is given up only after all the searches allowed; if every component is sure, as many searches per component as covers are required suffice |
| RandomSearch.RandomEnum.RunComponent | random_enum.cpp:25-35 | a component is searched again and again until it has all its covers, or all the searches allowed are made |
| RandomSteps.RepeatsMeaning | random_enum.cpp:26-35 | each search starts from a fresh root with the flag lowered, in the state the one before it left, and only while covers are missing |
| RandomSteps.RunsThroughMeaning | random_enum.cpp:23-36 | the next component is searched only when the one before it has all its covers, from cover index 0 |
| CoverUnion.ApartFromEmptyMeaning | random_enum.cpp:20-44 | a returned set hits every non-empty edge, and each of its vertices alone hits some edge |
| RandomSearch.RandomEnum.RunDiverseFrom | random_enum.cpp:46-165 | the recursion computes, field by field and draw by draw, the specified state of every node |
| RandomSearch.RandomEnum.TryVertices | random_enum.cpp:83-102 | so does the loop over the candidates |
| RandomSearch.RandomEnum.ForceVertex | random_enum.cpp:105-160 | so does the turn that repairs, searches, puts the saved state back and jumps |
| RandomSearch.RandomEnum.RecordCover | random_enum.cpp:50-69 | a leaf adds its cover to the entry under construction, opening one in the automatic variant when needed, and sets the stop flag and the back-jump |
| RandomSoundness.SearchedAdvances | random_enum.cpp:46-165 | from every reachable state of a node, whatever is drawn: each entry completed gains one minimal cover of the component, no other entry changes, and the state is handed back unless the search stops; if every uncovered edge has an anchor among the candidates, at least one entry is completed |
| RandomSoundness.TriesAdvance | random_enum.cpp:83-102 | the same for the first loop, and unless a back-jump cuts it short it reports exactly whether some candidate violates nothing |
| RandomSoundness.ForcesAdvance | random_enum.cpp:104-161 | the same for the loop that repairs |
| RandomSoundness.ShuffledMeaning | random_enum.cpp:76-81 | the shuffle permutes the candidates |
| RandomSoundness.SoundLeaf | random_enum.cpp:50-60 | the cover recorded at a leaf is minimal |
| RandomSoundness.SoundBelow | random_enum.cpp:87-93 | a vertex that passes the test keeps the state sound |
| Anchors.AnchorPasses | random_enum.cpp:84-94 | on an anchored node some candidate of any uncovered edge passes the violation test |
| Anchors.OrderAnchorPasses | random_enum.cpp:84-94 | in mode ORDER an order anchor of an uncovered edge passes it |
| Anchors.AnchoredBelow | random_enum.cpp:72-94 | using any vertex of the chosen edge leaves every edge that is still uncovered anchored |
| CalmSearch.SearchedExhausts | random_enum.cpp:46-165 | on a node where nothing has to be forced in, here or below, the search finds a cover if the node has one, and otherwise comes back without a pending back-jump |
| CalmSearch.RootFinds | random_enum.cpp:26-35 | every search of a sure component from its root finds a cover, whatever is drawn |
| TestHypergraph.ChainCalm | test/random_enum_test.cpp:18 | on the only component of {0, 2, 5}, {1, 4}, {2, 4} nothing has to be forced in, whichever uncovered edges are chosen |
| TestHypergraph.RandomEnumRun | test/random_enum_test.cpp:17-32 | on the hypergraph of the test, in modes ORDER, RANDOM and MIN and whatever is drawn, four searches find four minimal covers, which are the output |
| MaxRounds.MaxMisses | test/random_enum_test.cpp:24-31 | in mode MAX, which the test runs as well, certain draws end a search of its component without a cover, in both variants |
| TestHypergraph.NoPlainAnchor | test/random_enum_test.cpp:18 | one of its edges has no vertex whose edges all lie inside it |
| RandomSearch.RandomEnum.RunRound | random_enum_auto_inc.cpp:100-109 | the loop over the components computes the specified state after a round, from any cover index |
| Rounds.RoundResult | random_enum_auto_inc.cpp:99-110 | a round changes its own entry at most, which becomes a minimal cover of one component if the flag was raised and stays empty otherwise; it is a minimal cover of the whole if and only if the flag was raised, there is one component and no empty edge, or there is no edge at all; a sure component makes certain that the flag is raised |
| Rounds.TwoComponentsExample | random_enum_auto_inc.cpp:99-114 | with the edges {0} and {1} the first round of a new object leaves {0} in its entry, for all settings and draws |
| Rounds.ApartEntries | random_enum_auto_inc.cpp:99-110 | nothing but {0} can get into an entry there, in any round |
| EmptyRounds.EmptyRoundExample | random_enum_auto_inc.cpp:99-114 | with the edges {0, 1, 2}, {1}, {0} certain draws end the first round without a cover, its entry still empty |
| MaxRounds.MaxRoundExample | random_enum_auto_inc.cpp:99-114 | so do they in mode MAX with the edges {0, 2, 5}, {1, 4}, {2, 4} |
| CoverUnion.OneComponentCover | random_enum_auto_inc.cpp:99-114 | a minimal cover of one component is one of the whole if and only if there is one component and no empty edge |
| AutoIncRuns.RandomEnumAutoInc.RunDiverse | random_enum_auto_inc.cpp:95-123 | the whole run on a new object, round by round: what every entry is worth, and that no sure component was passed over for it; when a run selects, and that it then appends the `top_k` picked entries, in the order picked, with the factor-two guarantee; the two outcomes that empty-handed rounds can lead to, and that with a sure component neither occurs and a bounded number of rounds selects |
| AutoIncRuns.RoundsMeaning | random_enum_auto_inc.cpp:99-111 | each round of a run is the specified one on the state the round before it left, with the cover index one higher |
| AutoIncRuns.GoodChoiceMeaning | random_enum_auto_inc.cpp:117-122 | the picked entries are pairwise at least the value apart, and any other choice of as many has a pair within twice the value |
| TestHypergraph.RandomEnumAutoIncRun | test/random_enum_auto_inc_test.cpp:18-33 | on the hypergraph of the test, in modes ORDER, RANDOM and MIN and whatever is drawn, 125 rounds select two entries, both minimal covers of the whole |
| AutoIncRuns.RandomEnumAutoInc.UpdateStopFlag | random_enum_auto_inc.h:41-43 | the flag after a round is the answer of the selection on the list as it is then |
| AutoIncRuns.RoundLists | random_enum_auto_inc.cpp:99-110 | after `r` rounds the list has `max(top_k, r)` entries, as long as no round beyond the first `top_k` is empty-handed |
| AutoIncRuns.GreedyIsGood | random_enum_auto_inc.cpp:117-122 | a complete greedy selection consists of different entries, its last distance is the smallest among them, and at least half of what any other choice reaches |
| CoverUnion.UnionIsMinimal | random_enum.cpp:20-36 | the union of one minimal cover per component is minimal |
| CoverUnion.MinimalWithoutEmpty | random_enum.cpp:20-36 | such a union is a minimal cover of the whole if and only if there is no empty edge |
| Components.GetSubGraph | common/hypergraph.cpp:40-57 | the result decomposes the hypergraph into connected, closed components that partition the vertices, in order of their smallest vertices; edges and ids stand in the order of the depth-first visit |
| Components.PartsNext | common/hypergraph.cpp:45-55 | scanning upwards, each vertex that is used and not visited starts the next component with fresh vectors |
| Components.EdgesVisitedNext | common/hypergraph.cpp:69-79 | edges are taken in the order of the index; a new one is marked, and its vertices are visited before the next edge |
| TestHypergraph.ChainSubGraphs | common/hypergraph.cpp:40-80 | on {0, 2, 5}, {1, 4}, {2, 4} the only component lists the third edge before the second |
| Components.ComponentSearch.Visit | common/hypergraph.cpp:59-80 | a visit explores exactly what a chain of overlapping edges reaches, and completely |
| Components.SameComponent | common/hypergraph.cpp:40-80 | two vertices share a component if and only if a chain of overlapping edges joins them |
| Components.EdgeInOneComponent | common/hypergraph.cpp:69-79 | every non-empty edge is in exactly one component and inside its vertices; empty edges are in none |
| Components.VisitMakesComponent | common/hypergraph.cpp:45-55 | a visit from settled marks produces one component with its edges and original ids |
| Hypergraphs.HyperGraph.constructor | common/hypergraph.cpp:4-12 | the vertices are exactly the members of the edges |
| Hypergraphs.HyperGraph.GetVertexHitting | common/hypergraph.cpp:23-38 | whenever it is called the answer is the specified list, and the index exists afterwards |
| Hypergraphs.HittingListMeaning | common/hypergraph.cpp:29-35 | on duplicate-free edges the list holds, once each and in order, the edges containing the vertex |
| BitSets.Get | common/bitset.cpp:16-23 | the ascending listing of the set bits |
| BitSets.FindNextSetBit | common/bitset.cpp:25-31 | the smallest set bit after the start, or -1 |
| IntSets.And | common/intset.cpp:19-26 | a bit survives exactly when the vector lists it an odd number of times |
| IntSets.MaskedIsIntersection | common/intset.cpp:19-26 | so the result is the intersection if and only if no common element is listed an even number of times |
| IntSets.AndNot | common/intset.cpp:49-58 | the listed difference, without new repetitions |
| Jaccard.GetDistance | common/bitset.cpp:39-46 | the loop computes the Jaccard distance, defined unless both sets are empty |
| Jaccard.Triangle | common/bitset.cpp:39-46 | the triangle inequality whenever the three distances are defined |
| Jaccard.DistanceZero | common/bitset.cpp:39-46 | distance 0 if and only if equal |
| Jaccard.DistanceIsDifference | common/bitset.cpp:39-46 | the distance is the share of the union on which the sets differ |
| Maxmin.IncMaxmin | common/maxmin.cpp:7-69 | completes any greedy prefix to a greedy sequence of full length, keeps the prefix, takes the first pair and the first point among ties, and returns the last recorded distance |
| Maxmin.SmallestPair | common/maxmin.cpp:57-68 | that distance is the smallest one among the picks, and is attained |
| Maxmin.DistancesFall | common/maxmin.cpp:33-52 | recorded distances never increase |
| Maxmin.FactorTwo | common/maxmin.cpp:7-69 | every choice of as many points has two points at most twice that distance apart |
| Maxmin.Maxmin | common/maxmin.cpp:71-86 | value, picks and the factor-two guarantee in terms of the covers themselves |
| Maxmin.FarthestPoint | common/maxmin.cpp:34-47 | the first of the points outside the picks that are farthest from them, in whatever order the picks are scanned |
| Maxmin.FarthestPair | common/maxmin.cpp:14-29 | the first pair of greatest distance |
| AutomaticIncrease.AutoInc.Judge | random_enum_auto_inc.cpp:10-55 | from the `top_k`-th call on, with one new cover per call or none, the cached picks are a greedy prefix for all covers; the surviving picks are kept; the answer is to stop exactly when 125 covers are seen or the success counter exceeds 5, and the picks are then complete; what the success counter counts |
| AutomaticIncrease.AutoInc.Validate | random_enum_auto_inc.cpp:57-87 | the longest prefix that is still greedy with the newest cover, or 0 if the first pair is beaten; all of it if there is no new cover |
| AutomaticIncrease.SurvivesMeaning | random_enum_auto_inc.cpp:73-86 | if the first pair holds, the prefixes that are still greedy are those up to the position returned |
| AutomaticIncrease.GreedySurvives | random_enum_auto_inc.cpp:74-84 | a greedy prefix survives a new point if and only if the point beats none of its picks |
| AutomaticIncrease.NeverBeaten | random_enum_auto_inc.cpp:74-84 | a point the picks were already greedy for beats none of them, picked or not |
| AutomaticIncrease.AddRow | random_enum_auto_inc.cpp:63-71 | the matrix gains a row and a column with the distances of the last cover, and the largest of them is found |
| AutomaticIncrease.NewRow | random_enum_auto_inc.cpp:63-71 | with a new cover the matrix is again that of all covers, and the old one is part of it |
| AutomaticIncrease.StaleRow | random_enum_auto_inc.cpp:63-71 | without one its block of the covers is unchanged |

## Left out

- RandomSearch.RandomEnum.RunDiverse: takes a bound on the searches per component, because the outer loop need not end on its own; that the bound suffices is shown where every component is sure to yield a cover, and not claimed to fail everywhere else. Mode PRIORITY is excluded in all of the randomised search: there the edge may be covered already while other edges still have candidates, and the model does not say what the repair then does.
- Rounds.RoundResult: that a round finds a cover is shown where some component is sure to yield one; otherwise it depends on the draws, and no condition for it is given.
- AutoIncRuns.RandomEnumAutoInc.RunDiverse: takes a bound on the rounds, and starts from a new object. The modelled run ends where the original would compute 0/0 (two of the first entries are empty) or write past the end of the list of covers (a later round was empty-handed).
- The generators of the randomised search (for edges, shuffles and back-jumps) share one sequence of draws, which is arbitrary.
- AdvancedAdcCompletion.BoundedRun: not claimed for MIN, MAX and PRIORITY with threads, where a task may be handed an edge chosen by another one and branch on it without progress.
- AdvancedAdcRuns.ScheduleIndependence: every read and every write of `next_edge_` is a step of its own; the language's rules on data races are not modelled, nor is the race on building the priority table.
- AutomaticIncrease.AutoInc.Judge: states that the picks are a greedy prefix as a relation; ties may be broken differently from a selection made from scratch.
- The edge priorities of the concurrent search: any uncovered edge that may still be hit may be chosen there.
- The drop-head output queue, logging, text output, the RPC layer, the experiments and the build files.
- Rounding of `float` and `double`; `INT_MAX` overflow of counters; hypergraphs beyond MAXBIT.
- The set-of-vertices constructor of the hypergraph object, and `IntSet::Or` of two vectors, which no search uses.
