/** Sequence helpers shared by the importer and the sorter: LINQ's `Where` (Filter) and
    `List.IndexOf`, with the facts the sort proofs rely on. */
module Seqs {

  /** `Where(p)`: the elements satisfying p, in their original order. */
  function Filter<T>(p: T -> bool, s: seq<T>): (r: seq<T>)
    ensures |r| <= |s|
    ensures forall x :: x in r ==> p(x) && x in s
    ensures forall x :: x in s && p(x) ==> x in r
  {
    if s == [] then [] else (if p(s[0]) then [s[0]] else []) + Filter(p, s[1..])
  }

  lemma {:induction false} FilterConcat<T>(p: T -> bool, a: seq<T>, b: seq<T>)
    ensures Filter(p, a + b) == Filter(p, a) + Filter(p, b)
  {
    if a == [] {
      assert a + b == b;
    } else {
      assert (a + b)[1..] == a[1..] + b;
      FilterConcat(p, a[1..], b);
    }
  }

  /** Nothing satisfying p, nothing kept. */
  lemma {:induction false} FilterNone<T>(p: T -> bool, s: seq<T>)
    requires forall x :: x in s ==> !p(x)
    ensures Filter(p, s) == []
  {
    if s != [] {
      assert s[0] in s;
      FilterNone(p, s[1..]);
    }
  }

  lemma {:induction false} FilterSingleton<T>(p: T -> bool, x: T)
    ensures Filter(p, [x]) == if p(x) then [x] else []
  {
    assert [x][1..] == [];
  }

  /** The two halves of a filter add up to the whole length. */
  lemma {:induction false} FilterSplitLength<T>(p: T -> bool, s: seq<T>)
    ensures |Filter(p, s)| + |Filter(Not(p), s)| == |s|
  {
    if s != [] {
      FilterSplitLength(p, s[1..]);
    }
  }

  /** Filtering on a predicate that a given element satisfies keeps all of its copies. */
  lemma {:induction false} FilterCount<T>(p: T -> bool, s: seq<T>, x: T)
    requires p(x)
    ensures multiset(Filter(p, s))[x] == multiset(s)[x]
  {
    if s != [] {
      FilterCount(p, s[1..], x);
      assert s == [s[0]] + s[1..];
    }
  }

  /** Filter depends only on the predicate's values on the elements. */
  lemma {:induction false} FilterCongruent<T>(p: T -> bool, q: T -> bool, s: seq<T>)
    requires forall x :: x in s ==> p(x) == q(x)
    ensures Filter(p, s) == Filter(q, s)
  {
    if s != [] {
      FilterCongruent(p, q, s[1..]);
    }
  }

  /** The conjunction of two predicates. */
  function Both<T>(p: T -> bool, q: T -> bool): T -> bool {
    x => p(x) && q(x)
  }

  /** The negation of a predicate. */
  function Not<T>(p: T -> bool): T -> bool {
    x => !p(x)
  }

  /** Filtering twice is filtering on the conjunction. */
  lemma {:induction false} FilterFilter<T>(p: T -> bool, q: T -> bool, s: seq<T>)
    ensures Filter(p, Filter(q, s)) == Filter(Both(p, q), s)
  {
    if s != [] {
      FilterFilter(p, q, s[1..]);
      var head := if q(s[0]) then [s[0]] else [];
      assert Filter(q, s) == head + Filter(q, s[1..]);
      FilterConcat(p, head, Filter(q, s[1..]));
    }
  }

  /** The two halves of a filter partition the multiset. */
  lemma {:induction false} FilterPartition<T>(p: T -> bool, s: seq<T>)
    ensures multiset(Filter(p, s)) + multiset(Filter(Not(p), s)) == multiset(s)
  {
    if s != [] {
      var yes, no := Filter(p, s[1..]), Filter(Not(p), s[1..]);
      FilterPartition(p, s[1..]);
      assert multiset(s) == multiset{s[0]} + multiset(s[1..]) by {
        assert s == [s[0]] + s[1..];
      }
      if p(s[0]) {
        assert Filter(p, s) == [s[0]] + yes;
        assert Filter(Not(p), s) == no;
      } else {
        assert Filter(p, s) == yes;
        assert Filter(Not(p), s) == [s[0]] + no;
      }
    }
  }

  /** The front k elements of g followed by g[k] are its front k + 1. */
  lemma {:induction false} PrefixExtend<T>(g: seq<T>, k: nat)
    requires k < |g|
    ensures g[..k] + [g[k]] == g[..k + 1]
  {
  }

  /** `List.IndexOf`: the first position holding x, or -1 when x is absent. */
  function IndexOf<T(==)>(s: seq<T>, x: T): (i: int)
    ensures -1 <= i < |s|
    ensures i == -1 <==> x !in s
    ensures 0 <= i ==> s[i] == x && x !in s[..i]
  {
    if s == [] then -1
    else if s[0] == x then 0
    else
      var j := IndexOf(s[1..], x);
      assert s[1..][..if j < 0 then 0 else j] == s[1..if j < 0 then 1 else j + 1];
      if j < 0 then -1 else j + 1
  }

  function Reverse<T>(s: seq<T>): (r: seq<T>)
    ensures |r| == |s|
    ensures forall i :: 0 <= i < |s| ==> r[i] == s[|s| - 1 - i]
  {
    if s == [] then [] else Reverse(s[1..]) + [s[0]]
  }

  /** `Select(f)`: f applied to every element, in order. */
  function MapSeq<T, U>(f: T -> U, s: seq<T>): (r: seq<U>)
    ensures |r| == |s|
    ensures forall i :: 0 <= i < |s| ==> r[i] == f(s[i])
  {
    if s == [] then [] else [f(s[0])] + MapSeq(f, s[1..])
  }

  lemma {:induction false} MapConcat<T, U>(f: T -> U, a: seq<T>, b: seq<T>)
    ensures MapSeq(f, a + b) == MapSeq(f, a) + MapSeq(f, b)
  {
    if a == [] {
      assert a + b == b;
    } else {
      assert (a + b)[1..] == a[1..] + b;
      MapConcat(f, a[1..], b);
    }
  }

  /** Taking one copy of the same element from two lists with equal
      multisets leaves equal multisets. */
  lemma {:induction false} RemoveOne<T>(a: seq<T>, b: seq<T>, q: nat)
    requires multiset(a) == multiset(b) && a != [] && q < |b| && b[q] == a[0]
    ensures multiset(a[1..]) == multiset(b[..q] + b[q + 1..])
  {
    var x, b1, b2 := a[0], b[..q], b[q + 1..];
    assert a == [x] + a[1..];
    assert b == b1 + [x] + b2;
    assert multiset(a) == multiset{x} + multiset(a[1..]);
    assert multiset(b) == multiset(b1) + multiset{x} + multiset(b2);
    assert multiset(b1 + b2) == multiset(b1) + multiset(b2);
    assert multiset(a[1..]) == multiset(a) - multiset{x};
    assert multiset(b1) + multiset(b2) == multiset(b) - multiset{x};
  }

  /** Mapping a sequence with one element taken out. */
  lemma {:induction false} MapRemoveOne<T, U>(f: T -> U, b: seq<T>, q: nat)
    requires q < |b|
    ensures multiset(MapSeq(f, b)) == multiset{f(b[q])} + multiset(MapSeq(f, b[..q] + b[q + 1..]))
  {
    var b1, b2 := b[..q], b[q + 1..];
    assert b == b1 + ([b[q]] + b2);
    MapConcat(f, b1, [b[q]] + b2);
    MapConcat(f, [b[q]], b2);
    MapConcat(f, b1, b2);
    assert [b[q]][1..] == [];
    assert MapSeq(f, [b[q]]) == [f(b[q])];
    var m1, m2 := MapSeq(f, b1), MapSeq(f, b2);
    assert MapSeq(f, b) == m1 + ([f(b[q])] + m2);
    assert multiset(MapSeq(f, b)) == multiset(m1) + multiset{f(b[q])} + multiset(m2);
  }

  /** `Select` maps equal multisets to equal multisets. */
  lemma {:induction false} MapPermutation<T, U>(f: T -> U, a: seq<T>, b: seq<T>)
    requires multiset(a) == multiset(b)
    ensures multiset(MapSeq(f, a)) == multiset(MapSeq(f, b))
  {
    if a != [] {
      assert a[0] in multiset(b);
      var q :| 0 <= q < |b| && b[q] == a[0];
      RemoveOne(a, b, q);
      MapPermutation(f, a[1..], b[..q] + b[q + 1..]);
      MapRemoveOne(f, b, q);
      assert MapSeq(f, a) == [f(a[0])] + MapSeq(f, a[1..]);
      assert multiset(MapSeq(f, a)) == multiset{f(a[0])} + multiset(MapSeq(f, a[1..]));
    }
  }
}
