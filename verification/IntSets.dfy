/** The integer vector used as a set (common/intset.cpp), with its loops. */
module IntSets {
  import opened Collections
  import opened BitSets

  type IntSet = seq<nat>

  /** What `And` of a bit set and an integer vector leaves behind: every hit flips one bit. */
  function Masked(a: BitSet, b: IntSet): BitSet {
    set e | e in a && multiset(b)[e] % 2 == 1
  }

  method And(a: BitSet, b: IntSet) returns (r: BitSet)
    ensures r == Masked(a, b)
  {
    r := {};
    for i := 0 to |b|
      invariant forall e :: e in r <==> e in a && multiset(b[..i])[e] % 2 == 1
    {
      assert b[..i + 1] == b[..i] + [b[i]];
      if b[i] in a {
        r := Flip(r, b[i]);
      }
    }
    assert b[..|b|] == b;
  }

  /** `And` is the intersection exactly when no common element is listed an even number of times. */
  lemma MaskedIsIntersection(a: BitSet, b: IntSet)
    ensures Masked(a, b) == a * Elems(b) <==> forall e :: e in a && e in b ==> multiset(b)[e] % 2 == 1
  {
    if Masked(a, b) == a * Elems(b) {
      forall e | e in a && e in b
        ensures multiset(b)[e] % 2 == 1
      {
        assert e in a * Elems(b);
      }
    }
  }

  lemma {:induction false} NoDupMultiplicity(b: IntSet)
    requires NoDup(b)
    ensures forall e :: e in b ==> multiset(b)[e] == 1
  {
    if b != [] {
      NoDupMultiplicity(b[1..]);
      assert b == [b[0]] + b[1..];
      assert multiset(b) == multiset{b[0]} + multiset(b[1..]);
    }
  }

  lemma MaskedOfNoDup(a: BitSet, b: IntSet)
    requires NoDup(b)
    ensures Masked(a, b) == a * Elems(b)
  {
    NoDupMultiplicity(b);
    MaskedIsIntersection(a, b);
  }

  /** Intersection of a bit set with a duplicate-free vector. */
  method Intersect(a: BitSet, b: IntSet) returns (r: BitSet)
    requires NoDup(b)
    ensures r == a * Elems(b)
  {
    r := And(a, b);
    MaskedOfNoDup(a, b);
  }

  /** The members of a bit set listed by a vector, in the vector's order. */
  method AndVector(a: BitSet, b: IntSet) returns (r: IntSet)
    requires NoDup(b)
    ensures r == Bits(a * Elems(b))
  {
    var s := Intersect(a, b);
    r := Bits(s);
  }

  /** What is left of a vector without the members of `s`, in order. */
  function Without(a: IntSet, s: set<nat>): IntSet {
    if a == [] then []
    else
      var n := |a| - 1;
      Without(a[..n], s) + if a[n] in s then [] else [a[n]]
  }

  lemma {:induction false} WithoutMeaning(a: IntSet, s: set<nat>)
    ensures Elems(Without(a, s)) == Elems(a) - s
    ensures NoDup(a) ==> NoDup(Without(a, s))
  {
    if a != [] {
      var n := |a| - 1;
      WithoutMeaning(a[..n], s);
      var before, last := Without(a[..n], s), if a[n] in s then [] else [a[n]];
      assert a == a[..n] + [a[n]] && Without(a, s) == before + last;
      ElemsConcat(a[..n], [a[n]]);
      ElemsConcat(before, last);
      assert Elems([a[n]]) == {a[n]};
      assert NoDup(a) ==> a[n] !in Elems(before);
    }
  }

  method AndNot(a: IntSet, b: IntSet) returns (r: IntSet)
    ensures r == Without(a, Elems(b))
    ensures Elems(r) == Elems(a) - Elems(b)
    ensures NoDup(a) ==> NoDup(r)
  {
    r := [];
    var members := Elems(b);
    for i := 0 to |a|
      invariant r == Without(a[..i], members)
    {
      assert a[..i + 1][..i] == a[..i];
      if a[i] !in members {
        r := r + [a[i]];
      }
    }
    assert a[..|a|] == a;
    WithoutMeaning(a, members);
  }

  /** Clears the listed bits. */
  method Clear(a: BitSet, b: IntSet) returns (r: BitSet)
    ensures r == a - Elems(b)
  {
    r := a;
    for i := 0 to |b|
      invariant forall x :: x in r <==> x in a && x !in b[..i]
    {
      r := r - {b[i]};
    }
    assert b[..|b|] == b;
  }

  /** Sets the listed bits. */
  method OrInto(a: BitSet, b: IntSet) returns (r: BitSet)
    ensures r == a + Elems(b)
  {
    r := a;
    for i := 0 to |b|
      invariant forall x :: x in r <==> x in a || x in b[..i]
    {
      r := r + {b[i]};
    }
    assert b[..|b|] == b;
  }

  /** The first listed element different from `e`. */
  function Another(s: IntSet, e: nat): nat
    requires |s| >= 2
  {
    if s[0] != e then s[0] else s[1]
  }
}
