/** The fixed-width bit set (common/bitset.cpp), seen as the set of its set bits. */
module BitSets {
  import opened Collections

  const MAXBIT: nat := 32000

  type BitSet = set<nat>

  predicate InRange(s: BitSet) {
    forall x :: x in s ==> x < MAXBIT
  }

  function Flip(s: BitSet, e: nat): BitSet {
    if e in s then s - {e} else s + {e}
  }

  lemma FlipTwice(s: BitSet, e: nat)
    requires e !in s
    ensures Flip(s, e) == s + {e} && Flip(s + {e}, e) == s
  {
  }

  predicate Ascends(s: seq<nat>) {
    forall i, j :: 0 <= i < j < |s| ==> s[i] < s[j]
  }

  lemma AscendingCons(s: BitSet, m: nat, rest: seq<nat>)
    requires m in s && (forall x :: x in s ==> m <= x) && Elems(rest) == s - {m} && Ascends(rest)
    ensures Elems([m] + rest) == s && Ascends([m] + rest)
  {
    var r := [m] + rest;
    ElemsConcat([m], rest);
    assert Elems([m]) == {m};
    forall i, j | 0 <= i < j < |r|
      ensures r[i] < r[j]
    {
      if i == 0 {
        assert rest[j - 1] in Elems(rest);
      } else {
        assert rest[i - 1] < rest[j - 1];
      }
    }
  }

  /** The set bits in ascending order. */
  function Bits(s: BitSet): (r: seq<nat>)
    ensures Elems(r) == s && NoDup(r) && Ascends(r)
  {
    if s == {} then []
    else
      var m := Least(s);
      AscendingCons(s, m, Bits(s - {m}));
      [m] + Bits(s - {m})
  }

  lemma BitsCons(s: BitSet)
    requires s != {}
    ensures Bits(s) == [Least(s)] + Bits(s - {Least(s)})
  {
  }

  lemma {:induction false} LeastIsFirst(s: BitSet, r: seq<nat>)
    requires s != {} && Elems(r) == s && Ascends(r)
    ensures r != [] && r[0] == Least(s) && Elems(r[1..]) == s - {r[0]} && Ascends(r[1..])
  {
    var k :| 0 <= k < |r| && r[k] == Least(s);
    assert r[0] in s;
    forall x
      ensures x in Elems(r[1..]) <==> x in s - {r[0]}
    {
      if x in s - {r[0]} {
        var j :| 0 <= j < |r| && r[j] == x;
        assert r[1..][j - 1] == x;
      }
    }
  }

  /** The ascending listing of a set is unique. */
  lemma {:induction false} AscendingUnique(s: BitSet, r: seq<nat>)
    requires Elems(r) == s && Ascends(r)
    ensures r == Bits(s)
  {
    if s == {} {
      ElemsEmpty(r);
    } else {
      LeastIsFirst(s, r);
      BitsCons(s);
      hide Bits;
      hide Ascends;
      hide Elems;
      AscendingUnique(s - {Least(s)}, r[1..]);
      assert r == [r[0]] + r[1..];
    }
  }

  /** Next set bit after `start`, or -1. */
  function NextSetBit(s: BitSet, start: int): (w: int)
    ensures w == -1 || (w >= 0 && w > start && w in s)
    ensures forall x :: x in s && x > start ==> w != -1 && w <= x
  {
    var rest := set x | x in s && x > start;
    assert forall x :: x in s && x > start ==> x in rest;
    if rest == {} then -1 else Least(rest)
  }

  method FindNextSetBit(s: BitSet, start: int) returns (w: int)
    requires InRange(s) && start >= -1
    ensures w == NextSetBit(s, start)
  {
    var i := start + 1;
    while i < MAXBIT
      invariant start < i
      invariant forall x :: x in s && x > start ==> i <= x
    {
      if i in s {
        return i;
      }
      i := i + 1;
    }
    return -1;
  }

  method Get(s: BitSet) returns (r: seq<nat>)
    requires InRange(s)
    ensures r == Bits(s)
  {
    r := [];
    var i := 0;
    while i < MAXBIT
      invariant 0 <= i <= MAXBIT
      invariant forall x :: x in r <==> x in s && x < i
      invariant forall k :: 0 <= k < |r| ==> r[k] < i
      invariant forall j, k :: 0 <= j < k < |r| ==> r[j] < r[k]
    {
      if i in s {
        r := r + [i];
      }
      i := i + 1;
    }
    assert Elems(r) == s;
    AscendingUnique(s, r);
  }
}
