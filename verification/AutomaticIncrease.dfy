/** Incremental maintenance of the greedy selection while covers keep arriving (AutoInc in random_enum_auto_inc.cpp). */
module AutomaticIncrease {
  import opened Collections
  import opened BitSets
  import opened Jaccard
  import opened Maxmin

  // ---------- one more point ----------

  /** `big` is `m` with one more row and column. */
  ghost predicate Grows(m: Matrix, n: nat, big: Matrix) {
    Square(m, n) && Square(big, n + 1) && forall i, j :: 0 <= i < n && 0 <= j < n ==> big[i][j] == m[i][j]
  }

  lemma {:induction false} NearestGrows(m: Matrix, n: nat, big: Matrix, x: nat, s: seq<nat>)
    requires Grows(m, n, big) && x < n && AllBelow(s, n)
    ensures AllBelow(s, n + 1) && Nearest(big, n + 1, x, s) == Nearest(m, n, x, s)
    decreases |s|
  {
    if s != [] {
      NearestGrows(m, n, big, x, s[..|s| - 1]);
    }
  }

  /** The new point, number `n`, does not beat any of the first `k` picks. */
  ghost predicate NotBeaten(m: Matrix, n: nat, big: Matrix, ans: seq<nat>, dist: seq<real>, k: nat)
    requires Grows(m, n, big) && Greedy(m, n, ans, dist, k)
  {
    && (forall i :: 0 <= i < n ==> big[i][n] <= dist[0])
    && (forall j :: 2 <= j < k ==> NotBeatenAt(m, n, big, ans, dist, k, j))
  }

  ghost predicate NotBeatenAt(m: Matrix, n: nat, big: Matrix, ans: seq<nat>, dist: seq<real>, k: nat, j: nat)
    requires Grows(m, n, big) && Greedy(m, n, ans, dist, k) && j < k
  {
    AllBelow(ans[..j], n + 1) && Nearest(big, n + 1, n, ans[..j]) <= dist[j]
  }

  /** A greedy prefix survives a new point exactly when the new point beats none of its picks. */
  lemma GreedySurvives(m: Matrix, n: nat, big: Matrix, ans: seq<nat>, dist: seq<real>, k: nat)
    requires Grows(m, n, big) && Greedy(m, n, ans, dist, k)
    ensures Greedy(big, n + 1, ans, dist, k) <==> NotBeaten(m, n, big, ans, dist, k)
  {
    if NotBeaten(m, n, big, ans, dist, k) {
      SurvivesIf(m, n, big, ans, dist, k);
    }
    if Greedy(big, n + 1, ans, dist, k) {
      forall j | 2 <= j < k
        ensures NotBeatenAt(m, n, big, ans, dist, k, j)
      {
        PickMeaning(big, n + 1, ans, dist, k, j);
        PickMeaning(m, n, ans, dist, k, j);
        assert n !in ans[..j];
      }
    }
  }

  lemma SurvivesIf(m: Matrix, n: nat, big: Matrix, ans: seq<nat>, dist: seq<real>, k: nat)
    requires Grows(m, n, big) && Greedy(m, n, ans, dist, k) && NotBeaten(m, n, big, ans, dist, k)
    ensures Greedy(big, n + 1, ans, dist, k)
  {
    var s := ans[..k];
    var more := n + 1;
    forall i, j | 0 <= i < j < more
      ensures big[i][j] <= dist[0]
    {
      if j < n {
        assert big[i][j] == m[i][j];
      }
    }
    forall j | 2 <= j < k
      ensures Picks(big, more, ans, dist, k, j)
    {
      PickMeaning(m, n, ans, dist, k, j);
      assert s[..j] == ans[..j] && s[j] == ans[j];
      NearestGrows(m, n, big, ans[j], ans[..j]);
      assert NotBeatenAt(m, n, big, ans, dist, k, j);
      forall x: nat | x < more && x !in s[..j]
        ensures Nearest(big, more, x, s[..j]) <= dist[j]
      {
        if x < n {
          NearestGrows(m, n, big, x, ans[..j]);
        }
      }
    }
  }

  lemma FirstPair(m: Matrix, n: nat, ans: seq<nat>, dist: seq<real>, k: nat)
    requires Greedy(m, n, ans, dist, k)
    ensures |ans| == |dist| >= 2 && ans[0] < n && ans[1] < n && AllBelow(ans[..2], n + 1)
  {
    assert ans[..k][0] == ans[0] && ans[..k][1] == ans[1];
  }

  lemma GrowsSquare(m: Matrix, n: nat, big: Matrix)
    requires Grows(m, n, big)
    ensures Square(m, n) && Square(big, n + 1)
  {
  }

  /** The first pair survives. */
  lemma PairSurvives(m: Matrix, n: nat, big: Matrix, ans: seq<nat>, dist: seq<real>, k: nat, maxDis: real)
    requires Grows(m, n, big) && Greedy(m, n, ans, dist, k) && maxDis <= dist[0]
    requires forall i :: 0 <= i < n ==> big[i][n] <= maxDis
    ensures Greedy(big, n + 1, ans, dist, 2)
  {
    GreedyShorter(m, n, ans, dist, k, 2);
    GreedySurvives(m, n, big, ans, dist, 2);
  }

  lemma PairBeaten(m: Matrix, n: nat, big: Matrix, ans: seq<nat>, dist: seq<real>, k: nat, maxDis: real)
    requires Grows(m, n, big) && Greedy(m, n, ans, dist, k) && maxDis > dist[0]
    requires exists i :: 0 <= i < n && big[i][n] == maxDis
    ensures !Greedy(big, n + 1, ans, dist, 2)
  {
    GreedyShorter(m, n, ans, dist, k, 2);
    GreedySurvives(m, n, big, ans, dist, 2);
  }

  lemma NearestOfPair(big: Matrix, n: nat, x: nat, ans: seq<nat>, d: real)
    requires Square(big, n) && x < n && |ans| >= 2 && AllBelow(ans[..2], n)
    requires ans[0] < n && ans[1] < n
    requires d == if big[ans[0]][x] <= big[ans[1]][x] then big[ans[0]][x] else big[ans[1]][x]
    ensures d == Nearest(big, n, x, ans[..2])
  {
    NearestStep(big, n, x, ans[..2], 0);
    NearestStep(big, n, x, ans[..2], 1);
    assert ans[..2][..2] == ans[..2] && ans[..2][..0] == [] && ans[..2][0] == ans[0] && ans[..2][1] == ans[1];
    assert big[ans[0]][x] == big[x][ans[0]] && big[ans[1]][x] == big[x][ans[1]];
    assert big[x][ans[0]] <= 1.0;
  }

  /** Pick number `p` is beaten: no longer prefix is greedy any more. */
  lemma StopsHere(m: Matrix, n: nat, big: Matrix, ans: seq<nat>, dist: seq<real>, k: nat, p: nat)
    requires Grows(m, n, big) && Greedy(m, n, ans, dist, k) && 2 <= p < k && AllBelow(ans[..p], n + 1)
    requires dist[p] < Nearest(big, n + 1, n, ans[..p])
    ensures !Greedy(big, n + 1, ans, dist, p + 1)
  {
    GreedyShorter(m, n, ans, dist, k, p + 1);
    GreedySurvives(m, n, big, ans, dist, p + 1);
    assert !NotBeatenAt(m, n, big, ans, dist, p + 1, p);
  }

  lemma NearestAppend(m: Matrix, n: nat, x: nat, ans: seq<nat>, p: nat)
    requires Square(m, n) && x < n && p < |ans| && AllBelow(ans[..p], n) && ans[p] < n
    ensures AllBelow(ans[..p + 1], n)
    ensures Nearest(m, n, x, ans[..p + 1])
            == if Nearest(m, n, x, ans[..p]) <= m[ans[p]][x] then Nearest(m, n, x, ans[..p]) else m[ans[p]][x]
  {
    assert ans[..p + 1] == ans[..p] + [ans[p]];
    NearestStep(m, n, x, ans[..p + 1], p);
    assert ans[..p + 1][..p] == ans[..p] && ans[..p + 1][..p + 1] == ans[..p + 1] && ans[..p + 1][p] == ans[p];
    assert m[ans[p]][x] == m[x][ans[p]];
  }

  /** Pick number `p` survives too. */
  lemma GoesOn(m: Matrix, n: nat, big: Matrix, ans: seq<nat>, dist: seq<real>, k: nat, p: nat)
    requires Grows(m, n, big) && Greedy(m, n, ans, dist, k) && 2 <= p < k
    requires Greedy(big, n + 1, ans, dist, p) && AllBelow(ans[..p], n + 1) && Nearest(big, n + 1, n, ans[..p]) <= dist[p]
    ensures Greedy(big, n + 1, ans, dist, p + 1)
    ensures ans[p] < n && AllBelow(ans[..p + 1], n + 1)
    ensures Nearest(big, n + 1, n, ans[..p + 1])
            == if Nearest(big, n + 1, n, ans[..p]) <= big[ans[p]][n] then Nearest(big, n + 1, n, ans[..p]) else big[ans[p]][n]
  {
    PickMeaning(m, n, ans, dist, k, p);
    LongerSurvives(m, n, big, ans, dist, k, p);
    GreedySize(big, n + 1, ans, dist, p + 1);
    GrowsSquare(m, n, big);
    hide *;
    NearestAppend(big, n + 1, n, ans, p);
  }

  lemma LongerSurvives(m: Matrix, n: nat, big: Matrix, ans: seq<nat>, dist: seq<real>, k: nat, p: nat)
    requires Grows(m, n, big) && Greedy(m, n, ans, dist, k) && 2 <= p < k
    requires Greedy(big, n + 1, ans, dist, p) && AllBelow(ans[..p], n + 1) && Nearest(big, n + 1, n, ans[..p]) <= dist[p]
    ensures Greedy(big, n + 1, ans, dist, p + 1)
  {
    GreedyShorter(m, n, ans, dist, k, p + 1);
    GreedyShorter(m, n, ans, dist, k, p);
    hide Greedy;
    hide Grows;
    hide Nearest;
    hide NotBeaten;
    GreedySurvives(m, n, big, ans, dist, p);
    NotBeatenMore(m, n, big, ans, dist, p);
    GreedySurvives(m, n, big, ans, dist, p + 1);
  }

  lemma NotBeatenMore(m: Matrix, n: nat, big: Matrix, ans: seq<nat>, dist: seq<real>, p: nat)
    requires Grows(m, n, big) && p >= 2 && Greedy(m, n, ans, dist, p) && Greedy(m, n, ans, dist, p + 1)
    requires NotBeaten(m, n, big, ans, dist, p) && AllBelow(ans[..p], n + 1) && Nearest(big, n + 1, n, ans[..p]) <= dist[p]
    ensures NotBeaten(m, n, big, ans, dist, p + 1)
  {
    hide Greedy;
    hide Nearest;
    var l := p + 1;
    forall j | 2 <= j < l
      ensures NotBeatenAt(m, n, big, ans, dist, l, j)
    {
      if j < p {
        assert NotBeatenAt(m, n, big, ans, dist, p, j);
      }
    }
  }

  /** Once a prefix is greedy no point beats any of its picks, picked or not. */
  lemma NeverBeaten(m: Matrix, n: nat, ans: seq<nat>, dist: seq<real>, k: nat, p: nat, x: nat)
    requires Greedy(m, n, ans, dist, k) && 2 <= p < k && x < n && m[x][x] == 0.0
    ensures AllBelow(ans[..p], n) && Nearest(m, n, x, ans[..p]) <= dist[p]
  {
    PickMeaning(m, n, ans, dist, k, p);
    if x in ans[..p] {
      NearestBound(m, n, x, ans[..p]);
      NearestBound(m, n, ans[p], ans[..p]);
    }
  }

  /** Pick number `p` of a greedy prefix, seen from any point. */
  lemma GoesOnAnyway(m: Matrix, n: nat, ans: seq<nat>, dist: seq<real>, k: nat, p: nat, x: nat)
    requires Greedy(m, n, ans, dist, k) && 2 <= p < k && x < n && m[x][x] == 0.0
    ensures Greedy(m, n, ans, dist, p + 1) && AllBelow(ans[..p], n) && Nearest(m, n, x, ans[..p]) <= dist[p]
    ensures ans[p] < n && AllBelow(ans[..p + 1], n)
    ensures Nearest(m, n, x, ans[..p + 1])
            == if Nearest(m, n, x, ans[..p]) <= m[ans[p]][x] then Nearest(m, n, x, ans[..p]) else m[ans[p]][x]
  {
    NeverBeaten(m, n, ans, dist, k, p, x);
    GreedyShorter(m, n, ans, dist, k, p + 1);
    PickMeaning(m, n, ans, dist, k, p);
    GreedySize(m, n, ans, dist, p + 1);
    assert Square(m, n);
    hide *;
    NearestAppend(m, n, x, ans, p);
  }

  // ---------- one more row ----------

  /** `n` rows of `n` entries. */
  ghost predicate Exact(m: Matrix, n: nat) {
    |m| == n && forall i :: 0 <= i < n ==> |m[i]| == n
  }

  /** `big` is `m` with the distances of the last cover appended to the rows of the others, and in a row of their own. */
  ghost predicate RowAdded(covers: seq<BitSet>, m: Matrix, big: Matrix, maxDis: real)
    requires covers != [] && Comparable(covers) && |covers| - 1 <= |m|
  {
    var last := |covers| - 1;
    && |big| == |m| + 1 && |big[|m|]| == |covers| && big[|m|][last] == 0.0
    && (forall a :: 0 <= a < last ==> big[a] == m[a] + [Distance(covers[a], covers[last])])
    && (forall a :: last <= a < |m| ==> big[a] == m[a])
    && (forall a :: 0 <= a < last ==> big[|m|][a] == Distance(covers[a], covers[last]))
    && (forall a :: 0 <= a < last ==> Distance(covers[a], covers[last]) <= maxDis)
    && (last > 0 ==> exists a :: 0 <= a < last && Distance(covers[a], covers[last]) == maxDis)
  }

  /** The matrix after the first `i` turns of the loop. */
  ghost predicate RowPart(covers: seq<BitSet>, m: Matrix, big: Matrix, i: nat)
    requires covers != [] && Comparable(covers) && i < |covers| <= |m| + 1
  {
    var last := |covers| - 1;
    && |big| == |m| + 1 && |big[|m|]| == |covers| && big[|m|][last] == 0.0
    && (forall a :: 0 <= a < |m| ==> big[a] == if a < i then m[a] + [Distance(covers[a], covers[last])] else m[a])
    && (forall a :: 0 <= a < i ==> big[|m|][a] == Distance(covers[a], covers[last]))
  }

  lemma RowPartNext(covers: seq<BitSet>, m: Matrix, big: Matrix, i: nat, d: real)
    requires covers != [] && Comparable(covers) && i < |covers| - 1 <= |m| && RowPart(covers, m, big, i)
    requires d == Distance(covers[i], covers[|covers| - 1])
    ensures |big| == |m| + 1 && |big[|m|]| == |covers|
    ensures var next := big[i := big[i] + [d]];
            RowPart(covers, m, next[|m| := next[|m|][i := d]], i + 1)
  {
    hide Distance;
  }

  /** The loop that computes the distances of the last cover to all others, and the largest of them. */
  method AddRow(covers: seq<BitSet>, m: Matrix) returns (big: Matrix, maxDis: real)
    requires covers != [] && Comparable(covers) && |covers| - 1 <= |m|
    ensures RowAdded(covers, m, big, maxDis)
  {
    hide Distance;
    var newCoverId := |covers| - 1;
    maxDis := -1.0;
    big := m + [seq(|covers|, _ => 0.0)];
    assert RowPart(covers, m, big, 0);
    for i := 0 to newCoverId
      invariant RowPart(covers, m, big, i)
      invariant forall a :: 0 <= a < i ==> Distance(covers[a], covers[newCoverId]) <= maxDis
      invariant if i == 0 then maxDis == -1.0
                else exists a :: 0 <= a < i && Distance(covers[a], covers[newCoverId]) == maxDis
    {
      var distance := GetDistance(covers[i], covers[newCoverId]);
      DistanceBounds(covers[i], covers[newCoverId]);
      RowPartNext(covers, m, big, i, distance);
      big := big[i := big[i] + [distance]];
      big := big[|m| := big[|m|][i := distance]];
      if maxDis < distance {
        maxDis := distance;
        assert Distance(covers[i], covers[newCoverId]) == maxDis;
      } else {
        ghost var a :| 0 <= a < i && Distance(covers[a], covers[newCoverId]) == maxDis;
        assert a < i + 1;
      }
    }
  }

  /** With a new cover the block of distances grows by one row and column. */
  lemma NewRow(covers: seq<BitSet>, m: Matrix, big: Matrix, maxDis: real, seen: seq<BitSet>)
    requires |covers| == |seen| + 1 && covers[..|seen|] == seen && seen != [] && Comparable(covers)
    requires MatrixOf(m, seen) && Exact(m, |seen|) && RowAdded(covers, m, big, maxDis)
    ensures MatrixOf(big, covers) && Exact(big, |covers|) && Grows(m, |seen|, big)
    ensures forall i :: 0 <= i < |seen| ==> big[i][|seen|] <= maxDis
    ensures exists i :: 0 <= i < |seen| && big[i][|seen|] == maxDis
  {
    var n := |seen|;
    assert forall i :: 0 <= i < n ==> covers[i] == seen[i];
    NewRowMatrix(covers, m, big, maxDis, seen);
    MatrixIsMetric(big, covers);
    MatrixIsMetric(m, seen);
    hide Distance;
    var a :| 0 <= a < n && Distance(covers[a], covers[n]) == maxDis;
    assert big[a][n] == maxDis;
  }

  lemma NewRowMatrix(covers: seq<BitSet>, m: Matrix, big: Matrix, maxDis: real, seen: seq<BitSet>)
    requires |covers| == |seen| + 1 && covers[..|seen|] == seen && seen != [] && Comparable(covers)
    requires MatrixOf(m, seen) && Exact(m, |seen|) && RowAdded(covers, m, big, maxDis)
    ensures MatrixOf(big, covers) && Exact(big, |covers|)
  {
    var n := |seen|;
    assert forall i :: 0 <= i < n ==> covers[i] == seen[i];
    forall a | 0 <= a < n
      ensures big[n][a] == Distance(covers[n], covers[a])
    {
      DistanceSymmetric(covers[a], covers[n]);
    }
    hide Distance;
  }

  /** Without a new cover the block of distances stays as it is. */
  lemma StaleRow(covers: seq<BitSet>, m: Matrix, big: Matrix, maxDis: real)
    requires |covers| >= 2 && MatrixOf(m, covers) && RowAdded(covers, m, big, maxDis)
    ensures MatrixOf(big, covers) && forall i, j :: 0 <= i < |covers| && 0 <= j < |covers| ==> big[i][j] == m[i][j]
    ensures exists i :: 0 <= i < |covers| - 1 && m[i][|covers| - 1] == maxDis
  {
    hide Distance;
    var last := |covers| - 1;
    var a :| 0 <= a < last && Distance(covers[a], covers[last]) == maxDis;
    assert m[a][last] == maxDis;
  }

  /** Greediness only looks at the block. */
  lemma GreedySame(m: Matrix, n: nat, big: Matrix, ans: seq<nat>, dist: seq<real>, k: nat)
    requires Greedy(m, n, ans, dist, k) && Square(big, n)
    requires forall i, j :: 0 <= i < n && 0 <= j < n ==> big[i][j] == m[i][j]
    ensures Greedy(big, n, ans, dist, k)
  {
    var s := ans[..k];
    forall j | 2 <= j < k
      ensures Picks(big, n, ans, dist, k, j)
    {
      PickMeaning(m, n, ans, dist, k, j);
      assert s[..j] == ans[..j] && s[j] == ans[j];
      NearestSame(m, n, big, ans[j], ans[..j]);
      forall x: nat | x < n && x !in s[..j]
        ensures Nearest(big, n, x, s[..j]) <= dist[j]
      {
        NearestSame(m, n, big, x, ans[..j]);
      }
    }
  }

  lemma {:induction false} NearestSame(m: Matrix, n: nat, big: Matrix, x: nat, s: seq<nat>)
    requires Square(m, n) && Square(big, n) && x < n && AllBelow(s, n)
    requires forall i, j :: 0 <= i < n && 0 <= j < n ==> big[i][j] == m[i][j]
    ensures Nearest(big, n, x, s) == Nearest(m, n, x, s)
    decreases |s|
  {
    if s != [] {
      NearestSame(m, n, big, x, s[..|s| - 1]);
    }
  }

  lemma MatrixIsSquare(m: Matrix, covers: seq<BitSet>)
    requires MatrixOf(m, covers)
    ensures Square(m, |covers|) && forall i :: 0 <= i < |covers| ==> m[i][i] == 0.0
  {
    MatrixIsMetric(m, covers);
  }

  lemma NotGreedyAnyMore(m: Matrix, n: nat, ans: seq<nat>, dist: seq<real>, k: nat, l: nat)
    requires 2 <= k <= l && !Greedy(m, n, ans, dist, k)
    ensures !Greedy(m, n, ans, dist, l)
  {
    if Greedy(m, n, ans, dist, l) {
      GreedyShorter(m, n, ans, dist, l, k);
    }
  }

  /** `failedPos` is the length of the longest prefix of the `k` picks that is greedy, or 0 if not even the first pair is. */
  ghost predicate Survives(m: Matrix, n: nat, ans: seq<nat>, dist: seq<real>, k: nat, failedPos: nat) {
    && (failedPos == 0 || 2 <= failedPos <= k)
    && (failedPos != 0 ==> Greedy(m, n, ans, dist, failedPos))
    && (failedPos < k ==> !Greedy(m, n, ans, dist, if failedPos == 0 then 2 else failedPos + 1))
  }

  /** A longer prefix than the one that survives is not greedy, and 0 means that not even the first pair is. */
  lemma SurvivesMeaning(m: Matrix, n: nat, ans: seq<nat>, dist: seq<real>, k: nat, failedPos: nat, l: nat)
    requires Survives(m, n, ans, dist, k, failedPos) && Greedy(m, n, ans, dist, 2) && 2 <= l <= k
    ensures 2 <= failedPos <= k && (Greedy(m, n, ans, dist, l) <==> l <= failedPos)
  {
    hide Greedy;
    if l <= failedPos {
      GreedyShorter(m, n, ans, dist, failedPos, l);
    } else if failedPos != 0 {
      NotGreedyAnyMore(m, n, ans, dist, failedPos + 1, l);
    }
  }

  lemma SurvivesNone(m: Matrix, n: nat, ans: seq<nat>, dist: seq<real>, k: nat, failedPos: nat)
    requires Survives(m, n, ans, dist, k, failedPos) && k >= 2 && !Greedy(m, n, ans, dist, 2)
    ensures failedPos == 0
  {
    hide Greedy;
    if failedPos >= 2 {
      GreedyShorter(m, n, ans, dist, failedPos, 2);
    }
  }

  lemma NothingSurvives(m: Matrix, n: nat, ans: seq<nat>, dist: seq<real>, k: nat)
    requires !Greedy(m, n, ans, dist, 2)
    ensures Survives(m, n, ans, dist, k, 0)
  {
  }

  class AutoInc {
    const topK: nat
    const maxValidateSuccessTime: int := 5
    const maxNumOfVc: int := 125
    const ans: array<nat>
    const distances: array<real>
    var setDistances: Matrix
    var curSize: nat
    var validateSuccessTime: int
    // the covers the selection accounts for, and how often it was called without a new one
    ghost var seen: seq<BitSet>
    ghost var stale: nat

    ghost predicate Valid()
      reads this, ans, distances
    {
      && 2 <= topK == ans.Length == distances.Length
      && (seen == [] ==> curSize == 0 && stale == 0 && Exact(setDistances, topK))
      && (seen != [] ==>
            && topK <= |seen| && MatrixOf(setDistances, seen) && (stale == 0 ==> Exact(setDistances, |seen|))
            && curSize != 0 && Greedy(setDistances, |seen|, ans[..], distances[..], curSize))
    }

    /** The list of covers goes on: one new cover, or none; after a call without one there can be no new one. Whoever records
        covers one by one into a list as long as the number of rounds keeps to this. */
    ghost predicate Continues(covers: seq<BitSet>)
      reads this
    {
      Comparable(covers) && (covers == seen || (stale == 0 && |covers| == |seen| + 1 && covers[..|seen|] == seen))
    }

    constructor (topK: nat)
      requires topK >= 2
      ensures Valid() && this.topK == topK && seen == [] && validateSuccessTime == 0 && fresh(ans) && fresh(distances)
    {
      this.topK := topK;
      ans := new nat[topK];
      distances := new real[topK];
      setDistances := seq(topK, _ => seq(topK, _ => 0.0));
      curSize, validateSuccessTime, seen, stale := 0, 0, [], 0;
    }

    predicate JudgeCondition(numberOfVc: int)
      reads this
    {
      numberOfVc < maxNumOfVc && validateSuccessTime <= maxValidateSuccessTime
    }

    /** How much of the selection survives the newest cover: the longest prefix that is still greedy, or 0 if already the
        first pair is beaten. Without a new cover all of it does. */
    method Validate(covers: seq<BitSet>) returns (failedPos: nat)
      requires Valid() && seen != [] && Continues(covers)
      modifies this`setDistances
      ensures MatrixOf(setDistances, covers) && (|covers| > |seen| ==> Exact(setDistances, |covers|))
      ensures Survives(setDistances, |covers|, ans[..], distances[..], curSize, failedPos)
      ensures covers == seen ==> failedPos == curSize
    {
      ghost var m, picks, dist, k := setDistances, ans[..], distances[..], curSize;
      GreedySize(m, |seen|, picks, dist, k);
      FirstPair(m, |seen|, picks, dist, k);
      MatrixLarge(m, seen);
      hide Greedy;
      hide MatrixOf;
      hide RowAdded;
      hide Square;
      hide Grows;
      hide Exact;
      hide Comparable;
      hide NoDup;
      hide AllBelow;
      hide Elems;
      hide Survives;
      var maxDis;
      setDistances, maxDis := AddRow(covers, setDistances);
      Appended(m, seen, setDistances, covers, maxDis, picks, dist, k);
      failedPos := 0;
      if maxDis <= distances[0] {
        failedPos := SurvivingPrefix(|covers|, m, |seen|);
      } else {
        NothingSurvives(setDistances, |covers|, picks, dist, k);
      }
    }

    /** The first pair holds; how far do the later picks? The last of the `n` columns is that of the newest cover; `before`
        counts the covers the picks were greedy for. */
    method SurvivingPrefix(n: nat, ghost m: Matrix, ghost before: nat) returns (failedPos: nat)
      requires ans.Length == distances.Length && Square(setDistances, n) && n >= 2 && setDistances[n - 1][n - 1] == 0.0
      requires Greedy(setDistances, n, ans[..], distances[..], 2) && 2 <= curSize <= ans.Length
      requires before == n ==> Greedy(setDistances, n, ans[..], distances[..], curSize)
      requires before != n ==>
                 n == before + 1 && Grows(m, before, setDistances) && Greedy(m, before, ans[..], distances[..], curSize)
      ensures Survives(setDistances, n, ans[..], distances[..], curSize, failedPos)
      ensures before == n ==> failedPos == curSize
    {
      var newCoverId := n - 1;
      ghost var big, picks, dist, k := setDistances, ans[..], distances[..], curSize;
      FirstPair(big, n, picks, dist, 2);
      var d0, d1 := setDistances[ans[0]][newCoverId], setDistances[ans[1]][newCoverId];
      var maxDis := if d0 <= d1 then d0 else d1;
      failedPos := 2;
      NearestOfPair(big, n, newCoverId, picks, maxDis);
      hide Greedy;
      hide Grows;
      hide Square;
      hide Nearest;
      while failedPos < curSize
        invariant 2 <= failedPos <= curSize
        invariant Greedy(big, n, picks, dist, failedPos)
        invariant AllBelow(picks[..failedPos], n) && maxDis == Nearest(big, n, newCoverId, picks[..failedPos])
      {
        if before != n {
          PickStillBelow(m, before, big, picks, dist, k, failedPos);
        } else {
          GoesOnAnyway(big, n, picks, dist, k, failedPos, newCoverId);
        }
        if distances[failedPos] < maxDis {
          StopsHere(m, before, big, picks, dist, k, failedPos);
          return;
        }
        if before != n {
          GoesOn(m, before, big, picks, dist, k, failedPos);
        }
        var d := setDistances[ans[failedPos]][newCoverId];
        maxDis := if maxDis <= d then maxDis else d;
        failedPos := failedPos + 1;
      }
    }

    /** Called after every round. From the `topK`-th call on the cached picks are a greedy prefix for all covers so far, and
        when the answer is to stop they are complete. The answer is to stop exactly when 125 covers have been seen or the
        complete selection has survived more than five new covers in a row. `survived` is the length of the longest cached
        prefix that is still greedy, or 0 if the first pair is beaten: that prefix is kept, and the others are dropped or
        picked anew. */
    method Judge(newCoverIndex: nat, covers: seq<BitSet>) returns (stop: bool, ghost survived: nat)
      requires Valid()
      requires newCoverIndex == topK ==> seen == [] && |covers| == topK && Comparable(covers)
      requires newCoverIndex > topK ==> seen != [] && Continues(covers)
      modifies this, ans, distances
      ensures Valid() && seen == if newCoverIndex < topK then old(seen) else covers
      ensures stale == if newCoverIndex > topK && covers == old(seen) then old(stale) + 1 else old(stale)
      ensures stop ==> MatrixOf(setDistances, covers) && Greedy(setDistances, |covers|, ans[..], distances[..], topK)
      ensures stop <==> newCoverIndex > topK && (|covers| >= 125 || validateSuccessTime > 5)
      ensures newCoverIndex > topK ==>
                && Survives(setDistances, |covers|, old(ans[..]), old(distances[..]), old(curSize), survived)
                && (forall i :: 0 <= i < survived ==> ans[i] == old(ans[i]) && distances[i] == old(distances[i]))
                && curSize == (if survived == 0 || survived == old(curSize) then topK else survived)
                && validateSuccessTime == if survived == topK then old(validateSuccessTime) + 1 else 0
      ensures newCoverIndex > topK ==>
                validateSuccessTime ==
                  if old(curSize) == topK && Greedy(setDistances, |covers|, old(ans[..]), old(distances[..]), topK)
                  then old(validateSuccessTime) + 1 else 0
      ensures newCoverIndex <= topK ==> validateSuccessTime == old(validateSuccessTime)
      ensures newCoverIndex == topK ==> curSize == topK
      ensures newCoverIndex < topK ==> curSize == old(curSize) && ans[..] == old(ans[..])
    {
      stop, survived := false, 0;
      if newCoverIndex == topK {
        Select(covers);
      } else if newCoverIndex > topK {
        survived := Update(covers);
        if !JudgeCondition(|covers|) {
          stop := true;
          if curSize < topK {
            Complete(covers);
          }
        }
      }
    }

    /** The first selection. */
    method Select(covers: seq<BitSet>)
      requires Valid() && seen == [] && |covers| == topK && Comparable(covers)
      modifies this`setDistances, this`curSize, this`seen, ans, distances
      ensures Valid() && seen == covers && curSize == topK
    {
      seen := covers;
      setDistances := Distances(covers);
      MatrixIsSquare(setDistances, covers);
      hide Greedy;
      hide MatrixOf;
      var value := IncMaxmin(|covers|, setDistances, ans, distances, curSize);
      curSize := topK;
    }

    /** Fills up the picks; `curSize` is left to the caller. */
    method Complete(covers: seq<BitSet>)
      requires Valid() && seen != [] && covers == seen
      modifies ans, distances
      ensures Valid() && Greedy(setDistances, |seen|, ans[..], distances[..], topK)
      ensures forall i :: 0 <= i < curSize ==> ans[i] == old(ans[i]) && distances[i] == old(distances[i])
    {
      hide Greedy;
      hide MatrixOf;
      hide Square;
      hide Exact;
      MatrixIsSquare(setDistances, seen);
      ghost var picks, dist := ans[..], distances[..];
      var value := IncMaxmin(|covers|, setDistances, ans, distances, curSize);
      GreedySize(setDistances, |seen|, ans[..], distances[..], topK);
      GreedySize(setDistances, |seen|, picks, dist, curSize);
      GreedyShorter(setDistances, |seen|, ans[..], distances[..], topK, curSize);
    }

    /** The reaction to a round after the first `topK`. */
    method Update(covers: seq<BitSet>) returns (ghost survived: nat)
      requires Valid() && seen != [] && Continues(covers)
      modifies this, ans, distances
      ensures Valid() && seen == covers && stale == if covers == old(seen) then old(stale) + 1 else old(stale)
      ensures Survives(setDistances, |covers|, old(ans[..]), old(distances[..]), old(curSize), survived)
      ensures forall i :: 0 <= i < survived ==> ans[i] == old(ans[i]) && distances[i] == old(distances[i])
      ensures curSize == if survived == 0 || survived == old(curSize) then topK else survived
      ensures validateSuccessTime == if survived == topK then old(validateSuccessTime) + 1 else 0
      ensures survived == topK <==>
              old(curSize) == topK && Greedy(setDistances, |covers|, old(ans[..]), old(distances[..]), topK)
    {
      hide Greedy;
      hide MatrixOf;
      hide Square;
      hide Exact;
      hide Comparable;
      ghost var picks, dist := ans[..], distances[..];
      GreedySize(setDistances, |seen|, picks, dist, curSize);
      var failedPos := Validate(covers);
      survived := failedPos;
      MatrixIsSquare(setDistances, covers);
      if covers == seen {
        stale := stale + 1;
      }
      seen := covers;
      if failedPos == curSize {
        if curSize < topK {
          Complete(covers);
          curSize := topK;
          validateSuccessTime := 0;
        } else {
          validateSuccessTime := validateSuccessTime + 1;
        }
      } else {
        validateSuccessTime := 0;
        NotGreedyAnyMore(setDistances, |covers|, picks, dist, if failedPos == 0 then 2 else failedPos + 1, topK);
        if failedPos == 0 {
          var value := IncMaxmin(|covers|, setDistances, ans, distances, failedPos);
          curSize := topK;
        } else {
          curSize := failedPos;
        }
      }
    }
  }

  lemma MatrixLarge(m: Matrix, covers: seq<BitSet>)
    requires MatrixOf(m, covers)
    ensures |covers| <= |m|
  {
  }

  lemma PickStillBelow(m: Matrix, n: nat, big: Matrix, ans: seq<nat>, dist: seq<real>, k: nat, p: nat)
    requires Grows(m, n, big) && Greedy(m, n, ans, dist, k) && 2 <= p < k
    ensures ans[p] < n
  {
    PickMeaning(m, n, ans, dist, k, p);
  }

  /** What the appended row does to the selection: with a new cover the old block is part of the new one, without one it is
      the same, and then the first pair cannot be beaten. */
  lemma Appended(m: Matrix, seen: seq<BitSet>, big: Matrix, covers: seq<BitSet>, maxDis: real, ans: seq<nat>,
                 dist: seq<real>,
                 k: nat)
    requires |seen| >= 2 && MatrixOf(m, seen) && Greedy(m, |seen|, ans, dist, k) && Comparable(covers)
    requires covers == seen || (Exact(m, |seen|) && |covers| == |seen| + 1 && covers[..|seen|] == seen)
    requires RowAdded(covers, m, big, maxDis)
    ensures MatrixOf(big, covers) && Square(big, |covers|) && big[|covers| - 1][|covers| - 1] == 0.0
    ensures covers != seen ==> Exact(big, |covers|) && Grows(m, |seen|, big)
    ensures covers == seen ==> Greedy(big, |covers|, ans, dist, k) && maxDis <= dist[0]
    ensures Greedy(big, |covers|, ans, dist, 2) <==> maxDis <= dist[0]
  {
    if covers == seen {
      StaleRow(covers, m, big, maxDis);
      MatrixIsSquare(big, covers);
      hide Distance;
      hide RowAdded;
      GreedySame(m, |covers|, big, ans, dist, k);
      GreedyShorter(big, |covers|, ans, dist, k, 2);
    } else {
      NewRow(covers, m, big, maxDis, seen);
      MatrixIsSquare(big, covers);
      hide Distance;
      hide RowAdded;
      hide MatrixOf;
      if maxDis <= dist[0] {
        PairSurvives(m, |seen|, big, ans, dist, k, maxDis);
      } else {
        PairBeaten(m, |seen|, big, ans, dist, k, maxDis);
      }
    }
  }
}
