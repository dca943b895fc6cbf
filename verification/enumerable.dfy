/**
 * The System.Linq operators the service composes its queries from, on finite sequences:
 * `Where` (order-preserving filter), `Distinct` (first occurrences, in order) and
 * `OrderBy` (a stable sort under a total preorder).
 */
module Enumerable {

  /** `a` can be obtained from `b` by deleting elements; the order of what is kept is unchanged. */
  ghost predicate IsSubsequence<T>(a: seq<T>, b: seq<T>)
    decreases |b|
  {
    a == [] || (b != [] && ((a[0] == b[0] && IsSubsequence(a[1..], b[1..])) || IsSubsequence(a, b[1..])))
  }

  lemma {:induction false} SubsequenceTransitive<T>(a: seq<T>, b: seq<T>, c: seq<T>)
    requires IsSubsequence(a, b) && IsSubsequence(b, c)
    ensures IsSubsequence(a, c)
    decreases |c|
  {
    if a != [] {
      if IsSubsequence(b, c[1..]) {
        SubsequenceTransitive(a, b, c[1..]);
      } else if a[0] == b[0] && IsSubsequence(a[1..], b[1..]) {
        SubsequenceTransitive(a[1..], b[1..], c[1..]);
      } else {
        SubsequenceTransitive(a, b[1..], c[1..]);
      }
    }
  }

  predicate NoDuplicates<T(==)>(s: seq<T>) {
    forall i, j :: 0 <= i < j < |s| ==> s[i] != s[j]
  }

  /** `Enumerable.Where`: the elements of `s` satisfying `p`, in the order of `s` (see WhereCount, WhereSubsequence). */
  function Where<T(!new)>(s: seq<T>, p: T -> bool): (r: seq<T>)
    ensures |r| <= |s|
  {
    if s == [] then []
    else
      var rest := Where(s[1..], p);
      if p(s[0]) then [s[0]] + rest else rest
  }

  /** Each element satisfying `p` is kept as often as it occurs; every other element is dropped. */
  lemma {:induction false} WhereCount<T(!new)>(s: seq<T>, p: T -> bool)
    ensures forall x :: multiset(Where(s, p))[x] == if p(x) then multiset(s)[x] else 0
  {
    if s != [] {
      WhereCount(s[1..], p);
      assert s == [s[0]] + s[1..];
    }
  }

  lemma WhereMembers<T(!new)>(s: seq<T>, p: T -> bool)
    ensures forall x :: x in Where(s, p) <==> x in s && p(x)
  {
    WhereCount(s, p);
    forall x ensures x in Where(s, p) <==> x in s && p(x) {
      assert x in Where(s, p) <==> multiset(Where(s, p))[x] > 0;
      assert x in s <==> multiset(s)[x] > 0;
    }
  }

  /** The kept elements are in their original order. */
  lemma {:induction false} WhereSubsequence<T(!new)>(s: seq<T>, p: T -> bool)
    ensures IsSubsequence(Where(s, p), s)
  {
    if s != [] {
      WhereSubsequence(s[1..], p);
      var rest := Where(s[1..], p);
      if p(s[0]) {
        assert ([s[0]] + rest)[1..] == rest;
      }
    }
  }

  lemma {:induction false} WhereKeepsAll<T(!new)>(s: seq<T>, p: T -> bool)
    requires forall x :: x in s ==> p(x)
    ensures Where(s, p) == s
  {
    if s != [] {
      WhereKeepsAll(s[1..], p);
      assert p(s[0]);
    }
  }

  /** One step of `Where`, for unfolding it on a concrete list. */
  lemma WhereCons<T(!new)>(x: T, rest: seq<T>, p: T -> bool)
    ensures Where([x] + rest, p) == (if p(x) then [x] else []) + Where(rest, p)
  {
    assert ([x] + rest)[1..] == rest;
  }

  /** Filtering distributes over concatenation. */
  lemma {:induction false} WhereAppend<T(!new)>(a: seq<T>, b: seq<T>, p: T -> bool)
    ensures Where(a + b, p) == Where(a, p) + Where(b, p)
  {
    if a != [] {
      assert (a + b)[1..] == a[1..] + b;
      WhereAppend(a[1..], b, p);
    } else {
      assert a + b == b;
    }
  }

  function NotEqualTo<T(==)>(v: T): T -> bool {
    x => x != v
  }

  function EqualTo<T(==)>(v: T): T -> bool {
    x => x == v
  }

  /** Splitting on `v`: the occurrences of `v` are as many as `v`'s multiplicity, the rest make up the remainder. */
  lemma {:induction false} WhereEqualLength<T(!new)>(s: seq<T>, v: T)
    ensures |Where(s, EqualTo(v))| == multiset(s)[v]
    ensures |Where(s, NotEqualTo(v))| + multiset(s)[v] == |s|
  {
    if s != [] {
      WhereEqualLength(s[1..], v);
      assert s == [s[0]] + s[1..];
    }
  }

  /**
   * `Enumerable.Distinct`: each value once, at the place of its first occurrence; later
   * occurrences are dropped.
   */
  function Distinct<T(==,!new)>(s: seq<T>): (r: seq<T>)
    ensures NoDuplicates(r)
    ensures forall x :: x in r <==> x in s
    ensures |r| <= |s|
    ensures IsSubsequence(r, s)
    decreases |s|
  {
    if s == [] then []
    else
      var later := Where(s[1..], NotEqualTo(s[0]));
      var rest := Distinct(later);
      DistinctStep(s, later, rest);
      [s[0]] + rest
  }

  lemma DistinctStep<T(!new)>(s: seq<T>, later: seq<T>, rest: seq<T>)
    requires s != []
    requires later == Where(s[1..], NotEqualTo(s[0]))
    requires NoDuplicates(rest) && IsSubsequence(rest, later)
    requires forall x :: x in rest <==> x in later
    ensures NoDuplicates([s[0]] + rest)
    ensures forall x :: x in [s[0]] + rest <==> x in s
    ensures IsSubsequence([s[0]] + rest, s)
  {
    WhereMembers(s[1..], NotEqualTo(s[0]));
    WhereSubsequence(s[1..], NotEqualTo(s[0]));
    SubsequenceTransitive(rest, later, s[1..]);
    assert s[0] !in rest;
    assert s == [s[0]] + s[1..];
    var r := [s[0]] + rest;
    assert r[0] == s[0] && r[1..] == rest;
  }

  /** One step of `Distinct`, for unfolding it on a concrete list. */
  lemma DistinctCons<T(!new)>(x: T, rest: seq<T>)
    ensures Distinct([x] + rest) == [x] + Distinct(Where(rest, NotEqualTo(x)))
  {
    assert ([x] + rest)[1..] == rest;
  }

  /** A sequence without duplicates is its own `Distinct`. */
  lemma {:induction false} DistinctOfDistinct<T(!new)>(s: seq<T>)
    requires NoDuplicates(s)
    ensures Distinct(s) == s
    decreases |s|
  {
    if s != [] {
      var p := NotEqualTo(s[0]);
      assert forall x :: x in s[1..] ==> p(x);
      WhereKeepsAll(s[1..], p);
      DistinctOfDistinct(s[1..]);
    }
  }

  /**
   * Elements of `r` appear in the order of their first occurrences in `s`: whatever precedes
   * `r[j]` in `r` already occurs in `s` before any occurrence of `r[j]`.
   */
  ghost predicate InFirstOccurrenceOrder<T>(r: seq<T>, s: seq<T>) {
    forall i, j, k :: 0 <= i < j < |r| && 0 <= k < |s| && s[k] == r[j] ==> r[i] in s[..k]
  }

  /** `Distinct` keeps the first occurrences, in their order. */
  lemma {:induction false} DistinctFirstOccurrences<T(!new)>(s: seq<T>)
    ensures InFirstOccurrenceOrder(Distinct(s), s)
    decreases |s|
  {
    if s != [] {
      var p := NotEqualTo(s[0]);
      var later := Where(s[1..], p);
      var rest := Distinct(later);
      var r := Distinct(s);
      assert r == [s[0]] + rest;
      DistinctFirstOccurrences(later);
      forall i, j, k | 0 <= i < j < |r| && 0 <= k < |s| && s[k] == r[j] ensures r[i] in s[..k] {
        assert r[j] == rest[j - 1] && r[j] != s[0];
        assert k != 0;
        if i == 0 {
          assert s[..k][0] == s[0];
        } else {
          assert r[i] == rest[i - 1];
          assert s[1..] == s[1..k] + s[k..];
          WhereAppend(s[1..k], s[k..], p);
          var front := Where(s[1..k], p);
          WhereCons(s[k], s[k + 1..], p);
          assert s[k..] == [s[k]] + s[k + 1..];
          assert later[|front|] == s[k];
          assert later[..|front|] == front;
          WhereMembers(s[1..k], p);
          assert s[1..k] == s[..k][1..];
        }
      }
    }
  }

  lemma {:induction false} NoDuplicatesCount<T>(s: seq<T>)
    ensures NoDuplicates(s) <==> forall x :: multiset(s)[x] <= 1
  {
    if s != [] {
      NoDuplicatesCount(s[1..]);
      assert s == [s[0]] + s[1..];
      if NoDuplicates(s) {
        assert s[0] !in s[1..];
      } else {
        var i, j :| 0 <= i < j < |s| && s[i] == s[j];
        if i == 0 {
          assert s[j] in s[1..];
          assert multiset(s)[s[0]] >= 2;
        } else {
          assert !NoDuplicates(s[1..]) by { assert s[1..][i - 1] == s[1..][j - 1]; }
          var x :| multiset(s[1..])[x] > 1;
          assert multiset(s)[x] > 1;
        }
      }
    }
  }

  /** A total preorder: any two elements compare, and comparison chains. */
  ghost predicate IsTotalPreorder<T(!new)>(le: (T, T) -> bool) {
    && (forall a, b :: le(a, b) || le(b, a))
    && (forall a, b, c :: le(a, b) && le(b, c) ==> le(a, c))
  }

  ghost predicate SortedBy<T>(s: seq<T>, le: (T, T) -> bool) {
    forall i, j :: 0 <= i < j < |s| ==> le(s[i], s[j])
  }

  /** Places `x` in front of the first element of `s` it does not exceed. */
  function InsertBy<T(!new)>(x: T, s: seq<T>, le: (T, T) -> bool): (r: seq<T>)
    requires IsTotalPreorder(le)
    requires SortedBy(s, le)
    ensures SortedBy(r, le)
    ensures multiset(r) == multiset(s) + multiset{x}
  {
    assert s == [] || s == [s[0]] + s[1..];
    if s == [] || le(x, s[0]) then
      InsertFront(x, s, le);
      [x] + s
    else
      var rest := InsertBy(x, s[1..], le);
      InsertAfter(x, s, rest, le);
      [s[0]] + rest
  }

  lemma InsertFront<T(!new)>(x: T, s: seq<T>, le: (T, T) -> bool)
    requires IsTotalPreorder(le)
    requires SortedBy(s, le)
    requires s == [] || le(x, s[0])
    ensures SortedBy([x] + s, le)
  {
    var r := [x] + s;
    forall i, j | 0 <= i < j < |r| ensures le(r[i], r[j]) {
      if i == 0 && j > 1 {
        assert le(x, s[0]) && le(s[0], s[j - 1]);
      }
    }
  }

  lemma InsertAfter<T(!new)>(x: T, s: seq<T>, rest: seq<T>, le: (T, T) -> bool)
    requires IsTotalPreorder(le)
    requires SortedBy(s, le) && s != [] && !le(x, s[0])
    requires SortedBy(rest, le) && multiset(rest) == multiset(s[1..]) + multiset{x}
    ensures SortedBy([s[0]] + rest, le)
  {
    var r := [s[0]] + rest;
    forall i, j | 0 <= i < j < |r| ensures le(r[i], r[j]) {
      if i == 0 {
        var y := rest[j - 1];
        assert y in multiset(rest);
        if y != x {
          assert y in multiset(s[1..]);
          var m :| 0 <= m < |s[1..]| && s[1..][m] == y;
          assert s[m + 1] == y;
        }
      }
    }
  }

  /**
   * `Enumerable.OrderBy`: the elements of `s` sorted by `le`. As in System.Linq the sort is
   * stable: elements that compare equal keep their order in `s` (see OrderByStable).
   */
  function OrderBy<T(!new)>(s: seq<T>, le: (T, T) -> bool): (r: seq<T>)
    requires IsTotalPreorder(le)
    ensures SortedBy(r, le)
    ensures multiset(r) == multiset(s)
  {
    if s == [] then []
    else
      assert s == [s[0]] + s[1..];
      InsertBy(s[0], OrderBy(s[1..], le), le)
  }

  /** The elements equivalent to `k` under `le`. */
  function EquivalentTo<T>(le: (T, T) -> bool, k: T): T -> bool {
    x => le(x, k) && le(k, x)
  }

  lemma {:induction false} InsertByStable<T(!new)>(x: T, s: seq<T>, le: (T, T) -> bool, k: T)
    requires IsTotalPreorder(le)
    requires SortedBy(s, le)
    ensures Where(InsertBy(x, s, le), EquivalentTo(le, k))
         == Where([x], EquivalentTo(le, k)) + Where(s, EquivalentTo(le, k))
  {
    var p := EquivalentTo(le, k);
    if s == [] || le(x, s[0]) {
      WhereAppend([x], s, p);
    } else {
      var rest := InsertBy(x, s[1..], le);
      assert InsertBy(x, s, le) == [s[0]] + rest;
      InsertByStable(x, s[1..], le, k);
      WhereAppend([s[0]], rest, p);
      WhereAppend([s[0]], s[1..], p);
      assert s == [s[0]] + s[1..];
      var s0 := s[0];
      assert le(x, k) && le(k, s0) ==> le(x, s0);
      assert Where([x], p) == [] || Where([s[0]], p) == [];
    }
  }

  /** Sorting keeps the relative order of equivalent elements. */
  lemma {:induction false} OrderByStable<T(!new)>(s: seq<T>, le: (T, T) -> bool, k: T)
    requires IsTotalPreorder(le)
    ensures Where(OrderBy(s, le), EquivalentTo(le, k)) == Where(s, EquivalentTo(le, k))
  {
    if s != [] {
      var p := EquivalentTo(le, k);
      OrderByStable(s[1..], le, k);
      InsertByStable(s[0], OrderBy(s[1..], le), le, k);
      WhereAppend([s[0]], s[1..], p);
      assert s == [s[0]] + s[1..];
    }
  }
}
