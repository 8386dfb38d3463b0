/** The distance between covers (BitSet::GetDistance in common/bitset.cpp). */
module Jaccard {
  import opened Collections
  import opened BitSets

  /** The Jaccard distance; two empty sets have none (the source divides 0 by 0). */
  function Distance(a: BitSet, b: BitSet): real
    requires a + b != {}
  {
    1.0 - |a * b| as real / |a + b| as real
  }

  lemma UnionCard<T>(a: set<T>, b: set<T>)
    ensures |a + b| + |a * b| == |a| + |b|
  {
    assert a + b == a + (b - a);
    assert b == (b - a) + a * b;
  }

  method GetDistance(a: BitSet, b: BitSet) returns (d: real)
    requires a + b != {}
    ensures d == Distance(a, b)
  {
    var cnt := 0;
    var w := NextSetBit(a, -1);
    ghost var seen := set x | x in a && x in b && (w == -1 || x < w);
    assert seen == {};
    while w != -1
      invariant w == -1 || (w >= 0 && w in a)
      invariant seen == set x | x in a && x in b && (w == -1 || x < w)
      invariant cnt == |seen|
      decreases if w == -1 then {} else set x | x in a && x >= w
    {
      ghost var before, was := seen, w;
      if w in b {
        cnt := cnt + 1;
      }
      w := NextSetBit(a, w);
      seen := set x | x in a && x in b && (w == -1 || x < w);
      SeenGrows(a, b, before, seen, was, w);
      assert was in (set x | x in a && x >= was);
    }
    assert seen == a * b;
    UnionCard(a, b);
    d := 1.0 - cnt as real / (|a| + |b| - cnt) as real;
  }

  lemma SeenGrows(a: BitSet, b: BitSet, before: BitSet, after: BitSet, was: nat, w: int)
    requires was in a && w == NextSetBit(a, was)
    requires before == set x | x in a && x in b && x < was
    requires after == set x | x in a && x in b && (w == -1 || x < w)
    ensures after == (if was in b then before + {was} else before) && was !in before
  {
  }

  // ---------- metric laws ----------

  /** The distance is the share of the union on which the two sets differ. */
  lemma DistanceIsDifference(a: BitSet, b: BitSet)
    requires a + b != {}
    ensures Distance(a, b) == |(a - b) + (b - a)| as real / |a + b| as real
  {
    var d := (a - b) + (b - a);
    assert a + b == d + a * b;
    assert |a + b| == |d| + |a * b|;
    Fractions(|d|, |a * b|, |a + b|);
  }

  lemma Quotient(q: real, x: real, y: real)
    requires y > 0.0 && q * y == x
    ensures x / y == q
  {
    assert (x / y) * y == x;
    assert (x / y - q) * y == 0.0;
  }

  lemma Fractions(d: nat, i: nat, u: nat)
    requires d + i == u && u > 0
    ensures 1.0 - i as real / u as real == d as real / u as real
  {
    var q := i as real / u as real;
    assert q * u as real == i as real;
    assert (1.0 - q) * u as real == d as real;
    Quotient(1.0 - q, d as real, u as real);
  }

  lemma TimesGrows(a: real, b: real, y: real)
    requires a < b && y > 0.0
    ensures a * y < b * y
  {
    assert (b - a) * y > 0.0;
  }

  lemma Share(x: real, y: real)
    requires 0.0 <= x <= y && y > 0.0
    ensures 0.0 <= x / y <= 1.0
  {
    var q := x / y;
    assert q * y == x;
    if q < 0.0 {
      TimesGrows(q, 0.0, y);
    } else if q > 1.0 {
      TimesGrows(1.0, q, y);
    }
  }

  lemma DistanceBounds(a: BitSet, b: BitSet)
    requires a + b != {}
    ensures 0.0 <= Distance(a, b) <= 1.0
  {
    SubsetCard(a * b, a + b);
    Share(|a * b| as real, |a + b| as real);
  }

  lemma DistanceSymmetric(a: BitSet, b: BitSet)
    requires a + b != {}
    ensures b + a != {} && Distance(a, b) == Distance(b, a)
  {
    assert a + b == b + a && a * b == b * a;
  }

  lemma DistanceZero(a: BitSet, b: BitSet)
    requires a + b != {}
    ensures Distance(a, b) == 0.0 <==> a == b
  {
    DistanceIsDifference(a, b);
    var d := (a - b) + (b - a);
    var x, u := |d| as real, |a + b| as real;
    assert (x / u) * u == x;
    if Distance(a, b) == 0.0 {
      assert d == {};
      assert forall e :: e in a && e !in b ==> e in d;
      assert forall e :: e in b && e !in a ==> e in d;
    }
  }

  /** Every vertex counted on the left is counted on the right. */
  lemma TriangleCounts(a: BitSet, b: BitSet, c: BitSet)
    ensures |(a - c) + (c - a)| + |b - (a + c)| <= |(a - b) + (b - a)| + |(b - c) + (c - b)|
    ensures |a + b| <= |a + c| + |b - (a + c)| && |b + c| <= |a + c| + |b - (a + c)|
    ensures |(a - c) + (c - a)| <= |a + c|
  {
    var ab, bc, ac := (a - b) + (b - a), (b - c) + (c - b), (a - c) + (c - a);
    var only := b - (a + c);
    SubsetCard(ac + only, ab + bc);
    UnionCard(ab, bc);
    assert |ac + only| == |ac| + |only|;
    UnionCard(a + c, only);
    SubsetCard(a + b, (a + c) + only);
    SubsetCard(b + c, (a + c) + only);
    SubsetCard(ac, a + c);
  }

  /** Jaccard distance satisfies the triangle inequality wherever it is defined. */
  lemma Triangle(a: BitSet, b: BitSet, c: BitSet)
    requires a + b != {} && b + c != {} && a + c != {}
    ensures Distance(a, c) <= Distance(a, b) + Distance(b, c)
  {
    DistanceIsDifference(a, b);
    DistanceIsDifference(b, c);
    DistanceIsDifference(a, c);
    var ab, bc, ac := (a - b) + (b - a), (b - c) + (c - b), (a - c) + (c - a);
    var only := b - (a + c);
    TriangleCounts(a, b, c);
    FractionSum(|ac|, |a + c|, |only|, |ab|, |a + b|, |bc|, |b + c|);
  }

  /** Padding a fraction below one by the same amount above and below makes it no smaller. */
  lemma Padding(x: real, y: real, t: real)
    requires 0.0 <= x <= y && 0.0 < y && 0.0 <= t
    ensures x / y <= (x + t) / (y + t)
  {
    var q := x / y;
    Share(x, y);
    assert q * y == x;
    assert (1.0 - q) * t >= 0.0;
    assert q * (y + t) == q * y + q * t;
    DivideLower(q, x + t, y + t);
  }

  lemma DivideLower(q: real, x: real, y: real)
    requires y > 0.0 && q * y <= x
    ensures q <= x / y
  {
    var r := x / y;
    assert r * y == x;
    if q > r {
      TimesGrows(r, q, y);
    }
  }

  lemma Shrink(x: real, y: real, z: real)
    requires 0.0 <= x && 0.0 < y <= z
    ensures x / z <= x / y
  {
    var q := x / z;
    DivideLower(0.0, x, z);
    assert q * z == x;
    assert q * (z - y) >= 0.0;
    DivideLower(q, x, y);
  }

  lemma SumOver(p: real, r: real, x: real, u: real)
    requires u > 0.0 && x <= p + r
    ensures x / u <= p / u + r / u
  {
    var m, n, k := p / u, r / u, x / u;
    assert m * u == p && n * u == r && k * u == x;
    assert (m + n) * u == m * u + n * u;
    Quotient(m + n, p + r, u);
    DivideLower(k, p + r, u);
  }

  lemma FractionSum(x: nat, y: nat, t: nat, p: nat, q: nat, r: nat, s: nat)
    requires x <= y && 0 < y && 0 < q <= y + t && 0 < s <= y + t
    requires x + t <= p + r
    ensures x as real / y as real <= p as real / q as real + r as real / s as real
  {
    var u := (y + t) as real;
    Padding(x as real, y as real, t as real);
    SumOver(p as real, r as real, x as real + t as real, u);
    Shrink(p as real, q as real, u);
    Shrink(r as real, s as real, u);
  }
}
