/**
  Sequence helpers shared by the pipeline: distinctness, the order-preserving
  de-duplication that list(dict.fromkeys(xs)) and dict insertion perform,
  removing one value, and keeping the members of a set in their original order.
*/
module Collections {

  ghost predicate Distinct<T>(s: seq<T>) {
    forall i, j :: 0 <= i < j < |s| ==> s[i] != s[j]
  }

  /** The index of the first occurrence of x in s. */
  function FirstIndex<T(==)>(s: seq<T>, x: T): (i: nat)
    requires x in s
    ensures i < |s| && s[i] == x
    ensures forall j :: 0 <= j < i ==> s[j] != x
  {
    if s[0] == x then 0 else 1 + FirstIndex(s[1..], x)
  }

  /** list(dict.fromkeys(s)): each value once, at its first position. */
  function Dedup<T(==)>(s: seq<T>): seq<T> {
    if s == [] then []
    else
      var d := Dedup(s[..|s| - 1]);
      if s[|s| - 1] in d then d else d + [s[|s| - 1]]
  }

  /** Dedup keeps every value once, loses none and adds none. */
  lemma {:induction false} DedupMembers<T>(s: seq<T>)
    ensures Distinct(Dedup(s))
    ensures forall x :: x in Dedup(s) <==> x in s
  {
    if s != [] {
      var p := s[..|s| - 1];
      DedupMembers(p);
      assert s == p + [s[|s| - 1]];
    }
  }

  lemma DedupMember<T>(s: seq<T>, x: T)
    ensures x in Dedup(s) <==> x in s
  {
    DedupMembers(s);
  }

  lemma FirstIndexExtend<T>(s: seq<T>, y: T, x: T)
    requires x in s
    ensures FirstIndex(s + [y], x) == FirstIndex(s, x)
  {
    if s[0] != x {
      assert (s + [y])[1..] == s[1..] + [y];
      FirstIndexExtend(s[1..], y, x);
    }
  }

  lemma FirstIndexNew<T>(s: seq<T>, y: T)
    requires y !in s
    ensures FirstIndex(s + [y], y) == |s|
  {
    if s != [] {
      assert (s + [y])[1..] == s[1..] + [y];
      FirstIndexNew(s[1..], y);
    }
  }

  /** Dedup lists the values in the order of their first occurrence. */
  lemma {:induction false} DedupOrder<T>(s: seq<T>)
    ensures forall i, j :: 0 <= i < j < |Dedup(s)| ==>
      Dedup(s)[i] in s && Dedup(s)[j] in s &&
      FirstIndex(s, Dedup(s)[i]) < FirstIndex(s, Dedup(s)[j])
  {
    if s != [] {
      var p := s[..|s| - 1];
      var y := s[|s| - 1];
      var d := Dedup(p);
      DedupOrder(p);
      DedupMembers(p);
      assert s == p + [y];
      forall i | 0 <= i < |d|
        ensures d[i] in p && FirstIndex(s, d[i]) == FirstIndex(p, d[i]) < |p|
      {
        assert d[i] in d;
        DedupMember(p, d[i]);
        FirstIndexExtend(p, y, d[i]);
      }
      if y in d {
        assert Dedup(s) == d;
        forall i, j | 0 <= i < j < |d|
          ensures d[i] in s && d[j] in s && FirstIndex(s, d[i]) < FirstIndex(s, d[j])
        {
          assert FirstIndex(p, d[i]) < FirstIndex(p, d[j]);
        }
      } else {
        FirstIndexNew(p, y);
        var r := d + [y];
        assert Dedup(s) == r;
        forall i, j | 0 <= i < j < |r|
          ensures r[i] in s && r[j] in s && FirstIndex(s, r[i]) < FirstIndex(s, r[j])
        {
          assert r[i] == d[i];
          if j < |d| {
            assert r[j] == d[j];
            assert FirstIndex(p, d[i]) < FirstIndex(p, d[j]);
          } else {
            assert r[j] == y;
          }
        }
      }
    } else {
      assert Dedup(s) == [];
    }
  }

  /** s with every occurrence of x removed. */
  function Without<T(==,!new)>(s: seq<T>, x: T): (r: seq<T>)
    ensures x !in r
    ensures forall y :: y in r <==> y in s && y != x
  {
    if s == [] then [] else (if s[0] == x then [] else [s[0]]) + Without(s[1..], x)
  }

  /** The members of s that lie in a, in the order of s. */
  function Keep<T(==,!new)>(s: seq<T>, a: set<T>): (r: seq<T>)
    ensures forall y :: y in r <==> y in s && y in a
    ensures |r| <= |s|
  {
    if s == [] then [] else (if s[0] in a then [s[0]] else []) + Keep(s[1..], a)
  }

  /** r is a sub-list of s in s's order: exactly the members of s that r holds. */
  ghost predicate OrderedSubset<T(!new)>(r: seq<T>, s: seq<T>) {
    (forall y :: y in r ==> y in s) && r == Keep(s, set y | y in r)
  }

  lemma {:induction false} WithoutIsKeep<T(!new)>(s: seq<T>, x: T)
    ensures Without(s, x) == Keep(s, (set y | y in s) - {x})
  {
    if s != [] {
      WithoutIsKeep(s[1..], x);
      KeepIrrelevant(s[1..], (set y | y in s[1..]) - {x}, (set y | y in s) - {x});
    }
  }

  /** Only the members of a that occur in s matter to Keep. */
  lemma {:induction false} KeepIrrelevant<T(!new)>(s: seq<T>, a: set<T>, b: set<T>)
    requires forall y :: y in s ==> (y in a <==> y in b)
    ensures Keep(s, a) == Keep(s, b)
  {
    if s != [] {
      KeepIrrelevant(s[1..], a, b);
    }
  }

  lemma {:induction false} KeepKeep<T(!new)>(s: seq<T>, a: set<T>, b: set<T>)
    ensures Keep(Keep(s, a), b) == Keep(s, a * b)
  {
    if s != [] {
      KeepKeep(s[1..], a, b);
      var head := if s[0] in a then [s[0]] else [];
      assert Keep(s, a) == head + Keep(s[1..], a);
      KeepAppend(head, Keep(s[1..], a), b);
    }
  }

  lemma {:induction false} KeepAppend<T(!new)>(x: seq<T>, y: seq<T>, a: set<T>)
    ensures Keep(x + y, a) == Keep(x, a) + Keep(y, a)
  {
    if x != [] {
      assert (x + y)[1..] == x[1..] + y;
      KeepAppend(x[1..], y, a);
    } else {
      assert x + y == y;
    }
  }

  /** A distinct list without one of its values is one shorter. */
  lemma {:induction false} WithoutLength<T(!new)>(s: seq<T>, x: T)
    requires Distinct(s) && x in s
    ensures |Without(s, x)| == |s| - 1
    ensures Distinct(Without(s, x))
  {
    if s[0] == x {
      assert x !in s[1..] by {
        forall k | 0 <= k < |s[1..]|
          ensures s[1..][k] != x
        {
          assert s[1..][k] == s[k + 1];
        }
      }
      WithoutAbsent(s[1..], x);
      assert Without(s, x) == s[1..];
    } else {
      WithoutLength(s[1..], x);
      assert Without(s, x) == [s[0]] + Without(s[1..], x);
      assert s[0] !in Without(s[1..], x) by {
        assert forall k :: 0 < k < |s| ==> s[k] != s[0];
        assert forall z :: z in s[1..] ==> z != s[0];
      }
    }
  }

  /** Removing a member makes a list shorter. */
  lemma {:induction false} WithoutShorter<T(!new)>(s: seq<T>, x: T)
    requires x in s
    ensures |Without(s, x)| < |s|
  {
    if s[0] != x {
      WithoutShorter(s[1..], x);
    } else {
      assert |Without(s[1..], x)| <= |s[1..]| by {
        WithoutNoLonger(s[1..], x);
      }
    }
  }

  lemma {:induction false} WithoutNoLonger<T(!new)>(s: seq<T>, x: T)
    ensures |Without(s, x)| <= |s|
  {
    if s != [] {
      WithoutNoLonger(s[1..], x);
    }
  }

  lemma {:induction false} WithoutAbsent<T(!new)>(s: seq<T>, x: T)
    requires Distinct(s) && x !in s
    ensures Without(s, x) == s
  {
    if s != [] {
      WithoutAbsent(s[1..], x);
    }
  }

  /** Keeping a set's worth of a list's own members gives an ordered subset. */
  lemma KeepIsOrderedSubset<T(!new)>(s: seq<T>, a: set<T>)
    ensures OrderedSubset(Keep(s, a), s)
  {
    var r := Keep(s, a);
    var m := set y | y in r;
    KeepIrrelevant(s, a, m);
  }

  /** The integers 0 .. n-1 in order. */
  function Range(n: nat): (r: seq<nat>)
    ensures |r| == n && forall i :: 0 <= i < n ==> r[i] == i
  {
    if n == 0 then [] else Range(n - 1) + [n - 1]
  }

  /** perm lists each of 0 .. n-1 exactly once (what random.shuffle does to
      the positions of a list of length n). */
  ghost predicate IsPermutation(perm: seq<nat>, n: nat) {
    && |perm| == n
    && (forall j :: 0 <= j < n ==> perm[j] < n)
    && (forall j, k :: 0 <= j < k < n ==> perm[j] != perm[k])
  }

  /** The values of s, as a set. */
  ghost function Elements<T>(s: seq<T>): set<T> {
    set x | x in s
  }

  lemma {:induction false} DistinctCardinality<T>(s: seq<T>)
    requires Distinct(s)
    ensures |Elements(s)| == |s|
  {
    if s != [] {
      var p := s[..|s| - 1];
      DistinctCardinality(p);
      assert s == p + [s[|s| - 1]];
      assert Elements(s) == Elements(p) + {s[|s| - 1]};
    }
  }

  lemma {:induction false} SubsetSameSize<T>(a: set<T>, b: set<T>)
    requires a <= b && |a| == |b|
    ensures a == b
  {
    if a != {} {
      var x :| x in a;
      SubsetSameSize(a - {x}, b - {x});
    }
  }

  /** Pigeonhole: a permutation of 0 .. n-1 reaches every one of them. */
  lemma PermutationOnto(perm: seq<nat>, n: nat, i: nat)
    requires IsPermutation(perm, n) && i < n
    ensures exists j :: 0 <= j < n && perm[j] == i
  {
    var hit := Elements(perm);
    var all := Elements(Range(n));
    DistinctCardinality(perm);
    DistinctCardinality(Range(n));
    forall x | x in hit
      ensures x in all
    {
      var j :| 0 <= j < |perm| && perm[j] == x;
      assert Range(n)[x] == x;
    }
    assert hit <= all;
    assert |hit| == n;
    assert |all| == n;
    SubsetSameSize(hit, all);
    assert Range(n)[i] == i;
    assert i in all;
    assert i in hit;
  }
}
