/** Greedy selection of far-apart covers (common/maxmin.cpp). */
module Maxmin {
  import opened Collections
  import opened BitSets
  import opened Jaccard

  type Matrix = seq<seq<real>>

  /** The entries the selection relies on: a block of `n` rows and columns, symmetric, between 0 and 1. */
  ghost predicate Square(m: Matrix, n: nat) {
    && n <= |m| && (forall i :: 0 <= i < n ==> n <= |m[i]|)
    && (forall i, j :: 0 <= i < n && 0 <= j < n ==> 0.0 <= m[i][j] <= 1.0)
    && (forall i, j :: 0 <= i < n && 0 <= j < n ==> m[i][j] == m[j][i])
  }

  /** A metric, as Jaccard distances are. */
  ghost predicate Metric(m: Matrix, n: nat) {
    && Square(m, n)
    && (forall i :: 0 <= i < n ==> m[i][i] == 0.0)
    && (forall i, j, k :: 0 <= i < n && 0 <= j < n && 0 <= k < n ==> m[i][k] <= m[i][j] + m[j][k])
  }

  ghost predicate AllBelow(s: seq<nat>, n: nat) {
    forall i :: 0 <= i < |s| ==> s[i] < n
  }

  /** Distance from `x` to the nearest of `s`; 2 when there is none. */
  ghost function Nearest(m: Matrix, n: nat, x: nat, s: seq<nat>): real
    requires Square(m, n) && x < n && AllBelow(s, n)
  {
    if s == [] then 2.0
    else
      var rest := Nearest(m, n, x, s[..|s| - 1]);
      var last := m[x][s[|s| - 1]];
      if last < rest then last else rest
  }

  lemma {:induction false} NearestBound(m: Matrix, n: nat, x: nat, s: seq<nat>)
    requires Square(m, n) && x < n && AllBelow(s, n)
    ensures forall i :: 0 <= i < |s| ==> Nearest(m, n, x, s) <= m[x][s[i]]
    ensures s != [] ==> exists i :: 0 <= i < |s| && Nearest(m, n, x, s) == m[x][s[i]]
    ensures Nearest(m, n, x, s) >= 0.0
  {
    if s != [] {
      var init := s[..|s| - 1];
      NearestBound(m, n, x, init);
      forall i | 0 <= i < |s|
        ensures Nearest(m, n, x, s) <= m[x][s[i]]
      {
        if i < |s| - 1 {
          assert init[i] == s[i];
        }
      }
      assert 0.0 <= m[x][s[|s| - 1]] <= 1.0;
      if Nearest(m, n, x, s) != m[x][s[|s| - 1]] {
        assert init != [];
        var i :| 0 <= i < |init| && Nearest(m, n, x, init) == m[x][init[i]];
        assert s[i] == init[i];
      }
    }
  }

  lemma NearestStep(m: Matrix, n: nat, x: nat, s: seq<nat>, k: nat)
    requires Square(m, n) && x < n && AllBelow(s, n) && k < |s|
    ensures AllBelow(s[..k], n) && AllBelow(s[..k + 1], n)
    ensures var rest := Nearest(m, n, x, s[..k]);
            Nearest(m, n, x, s[..k + 1]) == if m[x][s[k]] < rest then m[x][s[k]] else rest
  {
    assert s[..k + 1][..k] == s[..k];
  }

  /** The first `k` picks are a greedy farthest-point sequence for the points below `n`: the first two are a farthest pair,
      every later pick is a point farthest from the earlier ones, and `dist` records how far. */
  ghost predicate Greedy(m: Matrix, n: nat, ans: seq<nat>, dist: seq<real>, k: nat) {
    && Square(m, n) && 2 <= k <= |ans| == |dist|
    && AllBelow(ans[..k], n) && NoDup(ans[..k])
    && dist[0] == dist[1] == m[ans[..k][0]][ans[..k][1]]
    && (forall i, j :: 0 <= i < j < n ==> m[i][j] <= dist[0])
    && (forall j :: 2 <= j < k ==> Picks(m, n, ans, dist, k, j))
  }

  ghost predicate Picks(m: Matrix, n: nat, ans: seq<nat>, dist: seq<real>, k: nat, j: nat)
    requires Square(m, n) && j < k <= |ans| == |dist| && AllBelow(ans[..k], n)
  {
    var s := ans[..k];
    && AllBelow(s[..j], n)
    && dist[j] == Nearest(m, n, s[j], s[..j])
    && forall x: nat :: x < n && x !in s[..j] ==> Nearest(m, n, x, s[..j]) <= dist[j]
  }

  // ---------- laws of greedy sequences ----------

  /** What a pick compares with is the sequence before it, whatever prefix one looks at. */
  lemma PickMeaning(m: Matrix, n: nat, ans: seq<nat>, dist: seq<real>, k: nat, j: nat)
    requires Greedy(m, n, ans, dist, k) && 2 <= j < k
    ensures AllBelow(ans[..j], n) && ans[j] < n && dist[j] == Nearest(m, n, ans[j], ans[..j])
    ensures forall x: nat :: x < n && x !in ans[..j] ==> Nearest(m, n, x, ans[..j]) <= dist[j]
    ensures ans[j] !in ans[..j]
  {
    assert Picks(m, n, ans, dist, k, j);
    var s := ans[..k];
    assert s[..j] == ans[..j] && s[j] == ans[j];
    assert forall i :: 0 <= i < j ==> s[i] == ans[i];
  }

  lemma GreedyShorter(m: Matrix, n: nat, ans: seq<nat>, dist: seq<real>, k: nat, l: nat)
    requires Greedy(m, n, ans, dist, k) && 2 <= l <= k
    ensures Greedy(m, n, ans, dist, l)
  {
    var s, t := ans[..k], ans[..l];
    assert forall i :: 0 <= i < l ==> s[i] == t[i];
    forall j | 2 <= j < l
      ensures Picks(m, n, ans, dist, l, j)
    {
      PickMeaning(m, n, ans, dist, k, j);
      assert t[..j] == ans[..j] && t[j] == ans[j];
    }
  }

  /** Adding one more farthest point. */
  lemma GreedyMore(m: Matrix, n: nat, ans: seq<nat>, dist: seq<real>, k: nat, x: nat, d: real)
    requires Greedy(m, n, ans, dist, k) && k < |ans| && x < n && x !in ans[..k]
    requires d == Nearest(m, n, x, ans[..k])
    requires forall y: nat :: y < n && y !in ans[..k] ==> Nearest(m, n, y, ans[..k]) <= d
    ensures Greedy(m, n, ans[k := x], dist[k := d], k + 1)
  {
    var ans', dist' := ans[k := x], dist[k := d];
    var t := ans'[..k + 1];
    assert t == ans[..k] + [x];
    assert forall i :: 0 <= i < k ==> ans[..k][i] == ans[i] == t[i];
    var l := k + 1;
    forall j | 2 <= j < l
      ensures Picks(m, n, ans', dist', l, j)
    {
      if j < k {
        PickMeaning(m, n, ans, dist, k, j);
        assert t[..j] == ans[..j] && t[j] == ans[j];
      } else {
        assert t[..k] == ans[..k];
      }
    }
  }

  /** Greedy distances never increase. */
  lemma {:induction false} DistancesFall(m: Matrix, n: nat, ans: seq<nat>, dist: seq<real>, k: nat, i: nat, j: nat)
    requires Greedy(m, n, ans, dist, k) && i <= j < k
    ensures dist[j] <= dist[i]
    decreases j
  {
    if i < j && j >= 2 {
      PickMeaning(m, n, ans, dist, k, j);
      NearestStep(m, n, ans[j], ans[..j], j - 1);
      assert ans[..j][..j - 1] == ans[..j - 1] && ans[..j][..j] == ans[..j];
      if j == 2 {
        NearestBound(m, n, ans[2], ans[..2]);
        assert ans[..2][0] == ans[0];
        PairBelow(m, n, ans, dist, k, ans[2], ans[0]);
      } else {
        PickMeaning(m, n, ans, dist, k, j - 1);
        assert ans[j] !in ans[..j - 1] by {
          assert forall x :: x in ans[..j - 1] ==> x in ans[..j];
        }
      }
      DistancesFall(m, n, ans, dist, k, i, j - 1);
    }
  }

  lemma PairBelow(m: Matrix, n: nat, ans: seq<nat>, dist: seq<real>, k: nat, x: nat, y: nat)
    requires Greedy(m, n, ans, dist, k) && x < n && y < n && x != y
    ensures m[x][y] <= dist[0]
  {
    if x < y {
      assert m[x][y] <= dist[0];
    } else {
      assert m[y][x] <= dist[0];
    }
  }

  /** The last recorded distance is the smallest distance within the picks, and some pair attains it. */
  lemma SmallestPair(m: Matrix, n: nat, ans: seq<nat>, dist: seq<real>, k: nat)
    requires Greedy(m, n, ans, dist, k)
    ensures AllBelow(ans[..k], n)
    ensures forall i, j :: 0 <= i < j < k ==> dist[k - 1] <= m[ans[..k][i]][ans[..k][j]]
    ensures exists i, j :: 0 <= i < j < k && dist[k - 1] == m[ans[..k][i]][ans[..k][j]]
  {
    var s := ans[..k];
    forall i, j | 0 <= i < j < k
      ensures dist[k - 1] <= m[s[i]][s[j]]
    {
      DistancesFall(m, n, ans, dist, k, j, k - 1);
      if j >= 2 {
        PickMeaning(m, n, ans, dist, k, j);
        NearestBound(m, n, ans[j], ans[..j]);
        assert ans[..j][i] == ans[i];
      }
    }
    if k == 2 {
      assert dist[k - 1] == m[s[0]][s[1]];
    } else {
      PickMeaning(m, n, ans, dist, k, k - 1);
      NearestBound(m, n, ans[k - 1], ans[..k - 1]);
      var i :| 0 <= i < k - 1 && dist[k - 1] == m[ans[k - 1]][ans[..k - 1][i]];
      assert dist[k - 1] == m[s[i]][s[k - 1]];
    }
  }

  // ---------- the factor-two guarantee ----------

  lemma {:induction false} Pigeonhole(points: set<nat>, home: map<nat, nat>, holes: nat)
    requires points <= home.Keys && (forall x :: x in points ==> home[x] < holes) && |points| > holes
    ensures exists x, y :: x in points && y in points && x != y && home[x] == home[y]
    decreases holes
  {
    if holes > 0 {
      var there := set x | x in points && home[x] == holes - 1;
      if x, y :| x in there && y in there && x != y {
      } else {
        var others := points - there;
        AtMostOne(there);
        assert |others| == |points| - |there|;
        Pigeonhole(others, home, holes - 1);
      }
    }
  }

  lemma AtMostOne(s: set<nat>)
    requires forall x, y :: x in s && y in s ==> x == y
    ensures |s| <= 1
  {
    if s != {} {
      var x :| x in s;
      assert s == {x};
    }
  }

  /** Every point is within the last greedy distance of one of the picks before the last. */
  lemma Covered(m: Matrix, n: nat, ans: seq<nat>, dist: seq<real>, k: nat, x: nat) returns (c: nat)
    requires Metric(m, n) && Greedy(m, n, ans, dist, k) && k >= 3 && x < n
    ensures c < k - 1 && ans[c] < n && m[x][ans[c]] <= dist[k - 1]
  {
    PickMeaning(m, n, ans, dist, k, k - 1);
    NearestBound(m, n, ans[k - 1], ans[..k - 1]);
    if x in ans[..k - 1] {
      c :| 0 <= c < k - 1 && ans[..k - 1][c] == x;
    } else {
      NearestBound(m, n, x, ans[..k - 1]);
      c :| 0 <= c < k - 1 && Nearest(m, n, x, ans[..k - 1]) == m[x][ans[..k - 1][c]];
    }
    assert ans[..k - 1][c] == ans[c];
  }

  lemma {:induction false} Homes(m: Matrix, n: nat, ans: seq<nat>, dist: seq<real>, k: nat, points: set<nat>)
    returns (home: map<nat, nat>)
    requires Metric(m, n) && Greedy(m, n, ans, dist, k) && k >= 3 && forall x :: x in points ==> x < n
    ensures home.Keys == points
    ensures forall x :: x in points ==> home[x] < k - 1 && ans[home[x]] < n && m[x][ans[home[x]]] <= dist[k - 1]
    decreases |points|
  {
    home := map[];
    if points != {} {
      var x :| x in points;
      home := Homes(m, n, ans, dist, k, points - {x});
      var c := Covered(m, n, ans, dist, k, x);
      home := home[x := c];
    }
  }

  /** No choice of `k` points keeps all of them more than twice the greedy distance apart. */
  lemma FactorTwo(m: Matrix, n: nat, ans: seq<nat>, dist: seq<real>, k: nat, points: set<nat>)
    requires Metric(m, n) && Greedy(m, n, ans, dist, k) && |points| == k && forall x :: x in points ==> x < n
    ensures exists x, y :: x in points && y in points && x != y && m[x][y] <= 2.0 * dist[k - 1]
  {
    if k == 2 {
      FactorTwoPair(m, n, ans, dist, points);
    } else {
      var home := Homes(m, n, ans, dist, k, points);
      hide Greedy;
      Pigeonhole(points, home, k - 1);
      var x, y :| x in points && y in points && x != y && home[x] == home[y];
      ViaCentre(m, n, x, y, ans[home[x]], dist[k - 1]);
    }
  }

  lemma FactorTwoPair(m: Matrix, n: nat, ans: seq<nat>, dist: seq<real>, points: set<nat>)
    requires Greedy(m, n, ans, dist, 2) && |points| == 2 && forall x :: x in points ==> x < n
    ensures exists x, y :: x in points && y in points && x != y && m[x][y] <= 2.0 * dist[1]
  {
    var x, y := TwoPoints(points);
    PairBelow(m, n, ans, dist, 2, x, y);
    assert 0.0 <= m[x][y] <= dist[1];
  }

  lemma TwoPoints(points: set<nat>) returns (x: nat, y: nat)
    requires |points| == 2
    ensures x in points && y in points && x != y
  {
    x :| x in points;
    assert |points - {x}| == 1;
    y :| y in points - {x};
  }

  lemma ViaCentre(m: Matrix, n: nat, x: nat, y: nat, c: nat, r: real)
    requires Metric(m, n) && x < n && y < n && c < n && m[x][c] <= r && m[y][c] <= r
    ensures m[x][y] <= 2.0 * r
  {
    assert m[x][y] <= m[x][c] + m[c][y];
  }

  // ---------- the algorithm ----------

  /** The first pair at the largest distance. */
  method FarthestPair(m: Matrix, n: nat) returns (first: nat, second: nat, maxDis: real)
    requires Square(m, n) && n >= 2
    ensures first < second < n && maxDis == m[first][second]
    ensures forall i, j :: 0 <= i < j < n ==> m[i][j] <= maxDis
    ensures forall i, j :: 0 <= i < j < n && (i < first || (i == first && j < second)) ==> m[i][j] < maxDis
  {
    maxDis, first, second := -1.0, 0, 0;
    for i := 0 to n
      invariant forall a, b :: 0 <= a < i && a < b < n ==> m[a][b] <= maxDis
      invariant if maxDis == -1.0 then second == 0 else first < i && first < second < n && maxDis == m[first][second]
      invariant forall a, b :: 0 <= a < i && a < b < n && (a < first || (a == first && b < second)) ==> m[a][b] < maxDis
      invariant i > 0 ==> maxDis != -1.0
    {
      for j := i + 1 to n
        invariant forall a, b :: 0 <= a < i && a < b < n ==> m[a][b] <= maxDis
        invariant forall b :: i < b < j ==> m[i][b] <= maxDis
        invariant if maxDis == -1.0 then second == 0
                  else first < second < n && maxDis == m[first][second] && (first < i || (first == i && second < j))
        invariant forall a, b :: 0 <= a < i && a < b < n && (a < first || (a == first && b < second)) ==> m[a][b] < maxDis
        invariant forall b :: first == i < b < second && b < n ==> m[i][b] < maxDis
        invariant i > 0 || j > i + 1 ==> maxDis != -1.0
      {
        if m[i][j] > maxDis {
          maxDis, first, second := m[i][j], i, j;
        }
      }
    }
  }

  /** Distance from `i` to the nearest chosen point, scanning the chosen set in any order. */
  method NearestOf(m: Matrix, n: nat, i: nat, res: set<nat>, ghost s: seq<nat>) returns (minDis: real)
    requires Square(m, n) && i < n && AllBelow(s, n) && res == Elems(s)
    ensures minDis == Nearest(m, n, i, s)
  {
    minDis := 2.0;
    var left := res;
    while left != {}
      invariant left <= res
      invariant forall j :: j in res && j !in left ==> minDis <= m[i][j]
      invariant (minDis == 2.0 && left == res) || exists j :: j in res && minDis == m[i][j]
      decreases left
    {
      var j :| j in left;
      assert m[i][j] <= 1.0;
      if m[i][j] < minDis {
        minDis := m[i][j];
      }
      left := left - {j};
    }
    NearestBound(m, n, i, s);
    NearestUnique(m, n, i, res, s, minDis);
  }

  lemma NearestUnique(m: Matrix, n: nat, i: nat, res: set<nat>, s: seq<nat>, d: real)
    requires Square(m, n) && i < n && AllBelow(s, n) && res == Elems(s)
    requires forall j :: j in res ==> d <= m[i][j]
    requires (d == 2.0 && res == {}) || exists j :: j in res && d == m[i][j]
    ensures d == Nearest(m, n, i, s)
  {
    NearestBound(m, n, i, s);
    if res != {} {
      var j :| j in res && d == m[i][j];
      var p :| 0 <= p < |s| && s[p] == j;
      var q :| 0 <= q < |s| && Nearest(m, n, i, s) == m[i][s[q]];
      assert s[q] in res;
    } else {
      ElemsEmpty(s);
    }
  }

  /** The first point farthest from the chosen ones. */
  method FarthestPoint(m: Matrix, n: nat, res: set<nat>, ghost s: seq<nat>) returns (pos: nat, maxDis: real)
    requires Square(m, n) && AllBelow(s, n) && res == Elems(s) && |res| < n
    ensures pos < n && pos !in s && maxDis == Nearest(m, n, pos, s)
    ensures forall x: nat :: x < n && x !in s ==> Nearest(m, n, x, s) <= maxDis && (x < pos ==> Nearest(m, n, x, s) < maxDis)
  {
    maxDis, pos := -1.0, 0;
    for i := 0 to n
      invariant forall x: nat :: x < i && x !in s ==>
                  Nearest(m, n, x, s) <= maxDis && (x < pos ==> Nearest(m, n, x, s) < maxDis)
      invariant (maxDis == -1.0 && pos == 0 && forall x: nat :: x < i ==> x in s)
                || (pos < i && pos !in s && maxDis == Nearest(m, n, pos, s))
    {
      if i !in res {
        assert i !in s;
        var minDis := NearestOf(m, n, i, res, s);
        NearestBound(m, n, i, s);
        if minDis > maxDis {
          maxDis, pos := minDis, i;
        }
      }
    }
    if forall x: nat :: x < n ==> x in s {
      AllListed(n, res);
    }
  }

  lemma {:induction false} AllListed(n: nat, res: set<nat>)
    requires forall x: nat :: x < n ==> x in res
    ensures |res| >= n
  {
    if n > 0 {
      AllListed(n - 1, res - {n - 1});
    }
  }

  /** The smallest distance within a chosen set, over all pairs of any listing of it. */
  method SmallestWithin(m: Matrix, n: nat, resList: seq<nat>) returns (minDis: real)
    requires Square(m, n) && AllBelow(resList, n) && |resList| >= 2
    ensures forall i, j :: 0 <= i < j < |resList| ==> minDis <= m[resList[i]][resList[j]]
    ensures exists i, j :: 0 <= i < j < |resList| && minDis == m[resList[i]][resList[j]]
  {
    minDis := 2.0;
    ghost var p, q := 0, 0;
    for i := 0 to |resList|
      invariant forall a, b :: 0 <= a < i && a < b < |resList| ==> minDis <= m[resList[a]][resList[b]]
      invariant minDis == 2.0 || (0 <= p < q < |resList| && minDis == m[resList[p]][resList[q]])
      invariant i > 0 ==> minDis != 2.0
    {
      for j := i + 1 to |resList|
        invariant forall a, b :: 0 <= a < i && a < b < |resList| ==> minDis <= m[resList[a]][resList[b]]
        invariant forall b :: i < b < j ==> minDis <= m[resList[i]][resList[b]]
        invariant minDis == 2.0 || (0 <= p < q < |resList| && minDis == m[resList[p]][resList[q]])
        invariant i > 0 || j > i + 1 ==> minDis != 2.0
      {
        var distance := m[resList[i]][resList[j]];
        assert distance <= 1.0;
        if distance < minDis {
          minDis, p, q := distance, i, j;
        }
      }
    }
  }

  /** Pick number `j` is the first of the points that are farthest from the earlier picks. */
  ghost predicate EarliestPick(m: Matrix, n: nat, ans: seq<nat>, dist: seq<real>, j: nat) {
    && Square(m, n) && j < |ans| == |dist| && AllBelow(ans[..j], n)
    && forall x: nat :: x < n && x < ans[j] && x !in ans[..j] ==> Nearest(m, n, x, ans[..j]) < dist[j]
  }

  lemma EarliestMeaning(m: Matrix, n: nat, ans: seq<nat>, dist: seq<real>, j: nat, x: nat)
    requires EarliestPick(m, n, ans, dist, j) && x < n && x < ans[j] && x !in ans[..j]
    ensures Square(m, n) && AllBelow(ans[..j], n) && Nearest(m, n, x, ans[..j]) < dist[j]
  {
  }

  lemma EarliestSame(m: Matrix, n: nat, ans: seq<nat>, dist: seq<real>, newAns: seq<nat>, newDist: seq<real>, j: nat)
    requires EarliestPick(m, n, ans, dist, j) && j < |newAns| == |newDist|
    requires newAns[..j + 1] == ans[..j + 1] && newDist[j] == dist[j]
    ensures EarliestPick(m, n, newAns, newDist, j)
  {
    assert newAns[..j] == newAns[..j + 1][..j] == ans[..j];
    assert newAns[j] == newAns[..j + 1][j] == ans[j];
  }

  /** From any greedy prefix, or from scratch, completes the greedy sequence and returns the smallest distance in it. Among
      ties the first pair and the first point are taken. */
  method IncMaxmin(n: nat, m: Matrix, ans: array<nat>, distances: array<real>, curSize: nat) returns (value: real)
    requires Square(m, n) && ans.Length == distances.Length && 2 <= ans.Length <= n
    requires curSize == 0 || Greedy(m, n, ans[..], distances[..], curSize)
    modifies ans, distances
    ensures Greedy(m, n, ans[..], distances[..], ans.Length)
    ensures value == distances[ans.Length - 1]
    ensures forall i :: 0 <= i < curSize ==> ans[i] == old(ans[i]) && distances[i] == old(distances[i])
    ensures curSize == 0 ==> ans[0] < ans[1] < n && distances[0] == m[ans[0]][ans[1]]
    ensures curSize == 0 ==>
              forall i, j :: 0 <= i < j < n && (i < ans[0] || (i == ans[0] && j < ans[1])) ==> m[i][j] < distances[0]
    ensures forall j :: 2 <= j < ans.Length && curSize <= j ==> EarliestPick(m, n, ans[..], distances[..], j)
  {
    hide Greedy;
    hide Elems;
    hide EarliestPick;
    var size := curSize;
    if size == 0 {
      var first, second, maxDis := FarthestPair(m, n);
      ans[0], ans[1] := first, second;
      distances[0], distances[1] := maxDis, maxDis;
      size := 2;
      GreedyPair(m, n, ans[..], distances[..]);
    } else {
      GreedySize(m, n, ans[..], distances[..], size);
    }
    hide Square;
    var res := Elems(ans[..size]);
    ghost var first, second, maxDis := ans[0], ans[1], distances[0];
    while size < ans.Length
      invariant 2 <= size <= ans.Length && res == Elems(ans[..size])
      invariant ans[0] == first && ans[1] == second && distances[0] == maxDis
      invariant forall j :: 2 <= j < size && curSize <= j ==> EarliestPick(m, n, ans[..], distances[..], j)
      invariant curSize == 0 || curSize <= size
      invariant Greedy(m, n, ans[..], distances[..], size)
      invariant forall i :: 0 <= i < curSize ==> ans[i] == old(ans[i]) && distances[i] == old(distances[i])
    {
      ghost var picks, dist := ans[..], distances[..];
      res := AddFarthest(n, m, ans, distances, size, res);
      forall j | 2 <= j < size && curSize <= j
        ensures EarliestPick(m, n, ans[..], distances[..], j)
      {
        assert ans[..][..j + 1] == picks[..j + 1];
        EarliestSame(m, n, picks, dist, ans[..], distances[..], j);
      }
      size := size + 1;
    }
    value := Summary(n, m, ans[..], distances[..], res);
  }

  /** One greedy step. */
  method AddFarthest(n: nat, m: Matrix, ans: array<nat>, distances: array<real>, size: nat, res: set<nat>)
    returns (newRes: set<nat>)
    requires Square(m, n) && ans.Length == distances.Length && size < ans.Length <= n
    requires Greedy(m, n, ans[..], distances[..], size) && res == Elems(ans[..size])
    modifies ans, distances
    ensures Greedy(m, n, ans[..], distances[..], size + 1) && newRes == Elems(ans[..size + 1])
    ensures forall i :: 0 <= i < size ==> ans[i] == old(ans[i]) && distances[i] == old(distances[i])
    ensures EarliestPick(m, n, ans[..], distances[..], size)
  {
    hide Greedy;
    hide Nearest;
    ghost var picks, dist := ans[..], distances[..];
    GreedySize(m, n, picks, dist, size);
    var pos, maxDis := FarthestPoint(m, n, res, picks[..size]);
    GreedyMore(m, n, picks, dist, size, pos, maxDis);
    ans[size] := pos;
    distances[size] := maxDis;
    assert ans[..] == picks[size := pos] && distances[..] == dist[size := maxDis];
    assert ans[..][..size] == picks[..size];
    assert ans[..size + 1] == picks[..size] + [pos];
    ElemsConcat(picks[..size], [pos]);
    assert Elems([pos]) == {pos};
    newRes := res + {pos};
  }

  /** The value returned for a complete sequence. */
  method Summary(n: nat, m: Matrix, ghost ans: seq<nat>, ghost dist: seq<real>, res: set<nat>) returns (value: real)
    requires Greedy(m, n, ans, dist, |ans|) && res == Elems(ans[..|ans|])
    ensures ans != [] && |dist| == |ans| && value == dist[|ans| - 1]
  {
    var resList := Bits(res);
    GreedySize(m, n, ans, dist, |ans|);
    BelowOfSet(resList, ans[..|ans|], n);
    NoDupCard(resList);
    assert Square(m, n);
    hide Greedy;
    hide Elems;
    value := SmallestWithin(m, n, resList);
    SamePairs(m, n, ans, dist, |ans|, resList, value);
  }

  lemma GreedyPair(m: Matrix, n: nat, ans: seq<nat>, dist: seq<real>)
    requires Square(m, n) && 2 <= |ans| == |dist| && ans[0] < ans[1] < n && dist[0] == dist[1] == m[ans[0]][ans[1]]
    requires forall i, j :: 0 <= i < j < n ==> m[i][j] <= dist[0]
    ensures Greedy(m, n, ans, dist, 2)
  {
  }

  lemma GreedySize(m: Matrix, n: nat, ans: seq<nat>, dist: seq<real>, k: nat)
    requires Greedy(m, n, ans, dist, k)
    ensures 2 <= k <= |ans| == |dist| && AllBelow(ans[..k], n) && NoDup(ans[..k]) && |Elems(ans[..k])| == k
  {
    NoDupCard(ans[..k]);
  }

  lemma BelowOfSet(list: seq<nat>, s: seq<nat>, n: nat)
    requires AllBelow(s, n) && Elems(list) == Elems(s)
    ensures AllBelow(list, n)
  {
    assert forall i :: 0 <= i < |list| ==> list[i] in Elems(list);
  }

  /** Whatever order lists the picks, their smallest distance is the last recorded one. */
  lemma SamePairs(m: Matrix, n: nat, ans: seq<nat>, dist: seq<real>, k: nat, list: seq<nat>, value: real)
    requires Greedy(m, n, ans, dist, k) && AllBelow(list, n) && NoDup(list) && Elems(list) == Elems(ans[..k])
    requires forall i, j :: 0 <= i < j < |list| ==> value <= m[list[i]][list[j]]
    requires exists i, j :: 0 <= i < j < |list| && value == m[list[i]][list[j]]
    ensures value == dist[k - 1]
  {
    var s := ans[..k];
    SmallestPair(m, n, ans, dist, k);
    GreedySize(m, n, ans, dist, k);
    assert Square(m, n);
    hide Greedy;
    hide Elems;
    hide NoDup;
    SmallestOf(m, n, list, s, value, dist[k - 1]);
  }

  /** Two listings of the same points have the same smallest distance. */
  lemma SmallestOf(m: Matrix, n: nat, list: seq<nat>, s: seq<nat>, value: real, d: real)
    requires Square(m, n) && AllBelow(list, n) && NoDup(list) && AllBelow(s, n) && NoDup(s) && Elems(list) == Elems(s)
    requires forall i, j :: 0 <= i < j < |list| ==> value <= m[list[i]][list[j]]
    requires exists i, j :: 0 <= i < j < |list| && value == m[list[i]][list[j]]
    requires forall i, j :: 0 <= i < j < |s| ==> d <= m[s[i]][s[j]]
    requires exists i, j :: 0 <= i < j < |s| && d == m[s[i]][s[j]]
    ensures value == d
  {
    AtMostAny(m, n, list, s, value, d);
    AtMostAny(m, n, s, list, d, value);
  }

  lemma AtMostAny(m: Matrix, n: nat, list: seq<nat>, s: seq<nat>, value: real, d: real)
    requires Square(m, n) && AllBelow(list, n) && AllBelow(s, n) && NoDup(s) && Elems(list) == Elems(s)
    requires forall i, j :: 0 <= i < j < |list| ==> value <= m[list[i]][list[j]]
    requires exists i, j :: 0 <= i < j < |s| && d == m[s[i]][s[j]]
    ensures value <= d
  {
    hide Elems;
    hide NoDup;
    var p, q :| 0 <= p < q < |s| && d == m[s[p]][s[q]];
    var a, b := PairIn(s, list, p, q);
    assert m[s[p]][s[q]] == m[s[q]][s[p]];
  }

  lemma PairIn(s: seq<nat>, t: seq<nat>, i: nat, j: nat) returns (a: nat, b: nat)
    requires NoDup(s) && Elems(s) == Elems(t) && i < j < |s|
    ensures a < b < |t| && ((t[a] == s[i] && t[b] == s[j]) || (t[a] == s[j] && t[b] == s[i]))
  {
    assert s[i] in Elems(t) && s[j] in Elems(t);
    var x :| 0 <= x < |t| && t[x] == s[i];
    var y :| 0 <= y < |t| && t[y] == s[j];
    a, b := if x < y then x else y, if x < y then y else x;
  }

  // ---------- distances of covers ----------

  /** Every two covers have a distance: at most one of them is empty. */
  predicate Comparable(covers: seq<BitSet>) {
    forall i, j :: 0 <= i < |covers| && 0 <= j < |covers| && i != j ==> covers[i] + covers[j] != {}
  }

  /** The matrix holds the distances of the covers. */
  ghost predicate MatrixOf(m: Matrix, covers: seq<BitSet>) {
    && |covers| <= |m| && (forall i :: 0 <= i < |covers| ==> |covers| <= |m[i]|)
    && Comparable(covers) && (forall i :: 0 <= i < |covers| ==> m[i][i] == 0.0)
    && (forall i, j :: 0 <= i < |covers| && 0 <= j < |covers| && i != j ==> m[i][j] == Distance(covers[i], covers[j]))
  }

  lemma EntryMeaning(m: Matrix, covers: seq<BitSet>, i: nat, j: nat)
    requires MatrixOf(m, covers) && i < |covers| && j < |covers| && i != j
    ensures covers[i] + covers[j] != {} && m[i][j] == Distance(covers[i], covers[j])
  {
  }

  lemma MatrixIsMetric(m: Matrix, covers: seq<BitSet>)
    requires MatrixOf(m, covers)
    ensures Metric(m, |covers|)
  {
    var n := |covers|;
    forall i, j | 0 <= i < n && 0 <= j < n
      ensures 0.0 <= m[i][j] <= 1.0
    {
      if i != j {
        EntryMeaning(m, covers, i, j);
        DistanceBounds(covers[i], covers[j]);
      }
    }
    forall i, j | 0 <= i < n && 0 <= j < n
      ensures m[i][j] == m[j][i]
    {
      if i != j {
        EntryMeaning(m, covers, i, j);
        EntryMeaning(m, covers, j, i);
        DistanceSymmetric(covers[i], covers[j]);
      }
    }
    forall i, j, k | 0 <= i < n && 0 <= j < n && 0 <= k < n
      ensures m[i][k] <= m[i][j] + m[j][k]
    {
      if i != j && j != k && i != k {
        MatrixTriangle(m, covers, i, j, k);
      }
    }
  }

  lemma MatrixTriangle(m: Matrix, covers: seq<BitSet>, i: nat, j: nat, k: nat)
    requires MatrixOf(m, covers) && i < |covers| && j < |covers| && k < |covers| && i != j && j != k && i != k
    ensures m[i][k] <= m[i][j] + m[j][k]
  {
    EntryMeaning(m, covers, i, j);
    EntryMeaning(m, covers, j, k);
    EntryMeaning(m, covers, i, k);
    hide MatrixOf;
    hide Distance;
    Triangle(covers[i], covers[j], covers[k]);
  }

  /** `value` is the smallest distance among the chosen covers. */
  ghost predicate SmallestDistance(covers: seq<BitSet>, ans: seq<nat>, value: real)
    requires AllBelow(ans, |covers|) && NoDup(ans) && Comparable(covers)
  {
    && (forall i, j :: 0 <= i < j < |ans| ==> value <= Distance(covers[ans[i]], covers[ans[j]]))
    && (exists i, j :: 0 <= i < j < |ans| && value == Distance(covers[ans[i]], covers[ans[j]]))
  }

  /** Among any `points` covers some two are at most `bound` apart. */
  ghost predicate SomePairWithin(covers: seq<BitSet>, points: set<nat>, bound: real)
    requires (forall x :: x in points ==> x < |covers|) && Comparable(covers)
  {
    exists x, y :: x in points && y in points && x != y && Distance(covers[x], covers[y]) <= bound
  }

  /** The whole selection: the returned value is the smallest distance among `topK` different entries, and no other choice of
      `topK` covers keeps a distance of more than twice that value. The entries are the greedy picks on the distances `m`, the
      first pair and the first point among ties. */
  method Maxmin(covers: seq<BitSet>, topK: nat) returns (value: real, ghost picks: seq<nat>, ghost m: Matrix,
                                                         ghost dist: seq<real>)
    requires 2 <= topK <= |covers| && Comparable(covers)
    ensures |picks| == topK && AllBelow(picks, |covers|) && NoDup(picks)
    ensures MatrixOf(m, covers) && Greedy(m, |covers|, picks, dist, topK) && value == dist[topK - 1]
    ensures picks[0] < picks[1]
    ensures forall i, j :: 0 <= i < j < |covers| && (i < picks[0] || (i == picks[0] && j < picks[1])) ==>
              Distance(covers[i], covers[j]) < Distance(covers[picks[0]], covers[picks[1]])
    ensures forall j :: 2 <= j < topK ==> EarliestPick(m, |covers|, picks, dist, j)
    ensures SmallestDistance(covers, picks, value)
    ensures forall points: set<nat> :: |points| == topK && (forall x :: x in points ==> x < |covers|) ==>
              SomePairWithin(covers, points, 2.0 * value)
  {
    hide Distance;
    hide EarliestPick;
    hide SmallestDistance;
    hide SomePairWithin;
    hide Greedy;
    hide NoDup;
    hide MatrixOf;
    hide Metric;
    hide Square;
    hide Comparable;
    var matrix := Distances(covers);
    m := matrix;
    MatrixIsMetric(m, covers);
    MetricIsSquare(m, |covers|);
    value, picks, dist := FromScratch(matrix, |covers|, topK);
    GreedyMeaning(m, covers, picks, dist);
    FirstPairMeaning(m, covers, picks[0], picks[1]);
    NoBetterChoices(m, covers, picks, dist);
  }

  lemma MetricIsSquare(m: Matrix, n: nat)
    requires Metric(m, n)
    ensures Square(m, n)
  {
  }

  /** New arrays for the picks and their distances, filled from the beginning. */
  method FromScratch(m: Matrix, n: nat, topK: nat) returns (value: real, ghost picks: seq<nat>, ghost dist: seq<real>)
    requires Square(m, n) && 2 <= topK <= n
    ensures |picks| == |dist| == topK && Greedy(m, n, picks, dist, topK) && value == dist[topK - 1]
    ensures picks[0] < picks[1] < n && dist[0] == m[picks[0]][picks[1]]
    ensures forall i, j :: 0 <= i < j < n && (i < picks[0] || (i == picks[0] && j < picks[1])) ==> m[i][j] < dist[0]
    ensures forall j :: 2 <= j < topK ==> EarliestPick(m, n, picks, dist, j)
  {
    hide Greedy;
    hide EarliestPick;
    var ans := new nat[topK];
    var distances := new real[topK];
    value := IncMaxmin(n, m, ans, distances, 0);
    picks, dist := ans[..], distances[..];
  }

  lemma FirstPairMeaning(m: Matrix, covers: seq<BitSet>, a: nat, b: nat)
    requires MatrixOf(m, covers) && a < b < |covers|
    requires forall i, j :: 0 <= i < j < |covers| && (i < a || (i == a && j < b)) ==> m[i][j] < m[a][b]
    ensures Comparable(covers)
    ensures forall i, j :: 0 <= i < j < |covers| && (i < a || (i == a && j < b)) ==>
              Distance(covers[i], covers[j]) < Distance(covers[a], covers[b])
  {
    hide Distance;
    EntryMeaning(m, covers, a, b);
    forall i, j | 0 <= i < j < |covers| && (i < a || (i == a && j < b))
      ensures Distance(covers[i], covers[j]) < Distance(covers[a], covers[b])
    {
      EntryMeaning(m, covers, i, j);
    }
  }

  lemma GreedyMeaning(m: Matrix, covers: seq<BitSet>, ans: seq<nat>, dist: seq<real>)
    requires MatrixOf(m, covers) && Greedy(m, |covers|, ans, dist, |ans|)
    ensures |ans| >= 2 && AllBelow(ans, |covers|) && NoDup(ans) && Comparable(covers)
    ensures SmallestDistance(covers, ans, dist[|ans| - 1])
  {
    hide Distance;
    assert ans[..|ans|] == ans;
    SmallestPair(m, |covers|, ans, dist, |ans|);
    GreedySize(m, |covers|, ans, dist, |ans|);
    hide Greedy;
    hide Square;
    hide MatrixOf;
    forall i, j | 0 <= i < j < |ans|
      ensures m[ans[i]][ans[j]] == Distance(covers[ans[i]], covers[ans[j]])
    {
      EntryMeaning(m, covers, ans[i], ans[j]);
    }
  }

  lemma NoBetterChoice(m: Matrix, covers: seq<BitSet>, ans: seq<nat>, dist: seq<real>, points: set<nat>)
    requires MatrixOf(m, covers) && Metric(m, |covers|) && Greedy(m, |covers|, ans, dist, |ans|)
    requires |points| == |ans| && forall x :: x in points ==> x < |covers|
    ensures |ans| >= 2 && Comparable(covers)
    ensures SomePairWithin(covers, points, 2.0 * dist[|ans| - 1])
  {
    hide Distance;
    FactorTwo(m, |covers|, ans, dist, |ans|, points);
    var bound := 2.0 * dist[|ans| - 1];
    hide Greedy;
    var x, y :| x in points && y in points && x != y && m[x][y] <= bound;
    EntryMeaning(m, covers, x, y);
  }

  lemma NoBetterChoices(m: Matrix, covers: seq<BitSet>, ans: seq<nat>, dist: seq<real>)
    requires MatrixOf(m, covers) && Metric(m, |covers|) && Greedy(m, |covers|, ans, dist, |ans|)
    ensures |ans| >= 2 && |dist| == |ans| && Comparable(covers)
    ensures forall points: set<nat> :: |points| == |ans| && (forall x :: x in points ==> x < |covers|) ==>
              SomePairWithin(covers, points, 2.0 * dist[|ans| - 1])
  {
    GreedySize(m, |covers|, ans, dist, |ans|);
    EntriesComparable(m, covers);
    hide *;
    forall points: set<nat> | |points| == |ans| && forall x :: x in points ==> x < |covers|
      ensures SomePairWithin(covers, points, 2.0 * dist[|ans| - 1])
    {
      NoBetterChoice(m, covers, ans, dist, points);
    }
  }

  lemma EntriesComparable(m: Matrix, covers: seq<BitSet>)
    requires MatrixOf(m, covers)
    ensures Comparable(covers)
  {
  }

  /** Rows and columns below `i` are filled in. */
  ghost predicate Filled(m: Matrix, covers: seq<BitSet>, i: nat)
    requires Comparable(covers)
  {
    var n := |covers|;
    && |m| == n && (forall a :: 0 <= a < n ==> |m[a]| == n && m[a][a] == 0.0)
    && forall a, b :: 0 <= a < n && 0 <= b < n && a != b && (a < i || b < i) ==> m[a][b] == Distance(covers[a], covers[b])
  }

  method Distances(covers: seq<BitSet>) returns (m: Matrix)
    requires Comparable(covers)
    ensures MatrixOf(m, covers) && |m| == |covers| && forall i :: 0 <= i < |m| ==> |m[i]| == |covers|
  {
    var n := |covers|;
    m := seq(n, _ => seq(n, _ => 0.0));
    for i := 0 to n
      invariant Filled(m, covers, i)
    {
      m := FillRow(covers, m, i);
    }
  }

  method FillRow(covers: seq<BitSet>, m: Matrix, i: nat) returns (r: Matrix)
    requires Comparable(covers) && i < |covers| && Filled(m, covers, i)
    ensures Filled(r, covers, i + 1)
  {
    hide Distance;
    var n := |covers|;
    r := m;
    for j := i + 1 to n
      invariant Filled(r, covers, i)
      invariant forall b :: i < b < j ==> r[i][b] == r[b][i] == Distance(covers[i], covers[b])
    {
      var distance := GetDistance(covers[i], covers[j]);
      r := r[i := r[i][j := distance]];
      r := r[j := r[j][i := distance]];
    }
    forall b | i < b < n
      ensures r[b][i] == Distance(covers[b], covers[i])
    {
      DistanceSymmetric(covers[i], covers[b]);
    }
  }
}
