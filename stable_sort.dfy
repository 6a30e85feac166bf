/** LINQ's `OrderBy` (a stable sort on a key) and `GroupBy(...).SelectMany`
    (each key's elements gathered at the key's first occurrence), with the
    facts the sort manager is built on: permutation, order, stability,
    lexicographic order of chained sorts and contiguity of groups. */
module StableSort {
  import opened Seqs

  predicate SortedBy<T>(s: seq<T>, key: T -> real) {
    forall i, j :: 0 <= i < j < |s| ==> key(s[i]) <= key(s[j])
  }

  /** Where x goes in s: before the first element whose key is not smaller. */
  function InsertPos<T>(x: T, s: seq<T>, key: T -> real): (p: nat)
    ensures p <= |s|
    ensures forall q :: 0 <= q < p ==> key(s[q]) < key(x)
    ensures p < |s| ==> key(x) <= key(s[p])
  {
    if s == [] || key(x) <= key(s[0]) then 0 else 1 + InsertPos(x, s[1..], key)
  }

  function Insert<T>(x: T, s: seq<T>, key: T -> real): (r: seq<T>)
    ensures r == s[..InsertPos(x, s, key)] + [x] + s[InsertPos(x, s, key)..]
  {
    if s == [] || key(x) <= key(s[0]) then [x] + s
    else
      var r := [s[0]] + Insert(x, s[1..], key);
      assert s[..InsertPos(x, s, key)] == [s[0]] + s[1..][..InsertPos(x, s[1..], key)];
      r
  }

  /** `OrderBy(key)`: insertion of each element, last first, so that an
      element goes before every later element with an equal key. */
  function SortBy<T>(s: seq<T>, key: T -> real): (r: seq<T>)
    ensures |r| == |s|
  {
    if s == [] then [] else Insert(s[0], SortBy(s[1..], key), key)
  }

  lemma {:induction false} InsertPermutes<T>(x: T, s: seq<T>, key: T -> real)
    ensures multiset(Insert(x, s, key)) == multiset(s) + multiset{x}
  {
    var p := InsertPos(x, s, key);
    assert s == s[..p] + s[p..];
    assert multiset(s) == multiset(s[..p]) + multiset(s[p..]);
  }

  lemma {:induction false} SortByPermutes<T>(s: seq<T>, key: T -> real)
    ensures multiset(SortBy(s, key)) == multiset(s)
  {
    if s != [] {
      var t := SortBy(s[1..], key);
      assert SortBy(s, key) == Insert(s[0], t, key);
      SortByPermutes(s[1..], key);
      InsertPermutes(s[0], t, key);
      assert s == [s[0]] + s[1..];
      assert multiset(s) == multiset{s[0]} + multiset(s[1..]);
    }
  }

  /** The element at position i of an insertion. */
  lemma {:induction false} InsertAt<T>(x: T, t: seq<T>, key: T -> real, i: nat)
    requires i <= |t|
    ensures var p := InsertPos(x, t, key);
            Insert(x, t, key)[i] == if i < p then t[i] else if i == p then x else t[i - 1]
  {
    var p := InsertPos(x, t, key);
    var r := Insert(x, t, key);
    if i < p {
      assert r[i] == t[..p][i];
    } else if i > p {
      assert r[i] == t[p..][i - p - 1];
    }
  }

  /** Inserting into a sorted sequence keeps it sorted. */
  lemma {:induction false} InsertSorted<T>(x: T, t: seq<T>, key: T -> real)
    requires SortedBy(t, key)
    ensures SortedBy(Insert(x, t, key), key)
  {
    var p := InsertPos(x, t, key);
    var r := Insert(x, t, key);
    forall i, j | 0 <= i < j < |r|
      ensures key(r[i]) <= key(r[j])
    {
      InsertAt(x, t, key, i);
      InsertAt(x, t, key, j);
      if i == p && p < j - 1 {
        assert key(t[p]) <= key(t[j - 1]);
      }
    }
  }

  lemma {:induction false} SortByOrders<T>(s: seq<T>, key: T -> real)
    ensures SortedBy(SortBy(s, key), key)
  {
    if s != [] {
      var t := SortBy(s[1..], key);
      assert SortBy(s, key) == Insert(s[0], t, key);
      SortByOrders(s[1..], key);
      InsertSorted(s[0], t, key);
    }
  }

  /** The filter of an insertion, piece by piece. */
  lemma {:induction false} InsertFilterSplit<T>(x: T, t: seq<T>, key: T -> real, P: T -> bool)
    ensures var p := InsertPos(x, t, key);
            Filter(P, Insert(x, t, key)) == Filter(P, t[..p]) + Filter(P, [x]) + Filter(P, t[p..])
  {
    var p := InsertPos(x, t, key);
    FilterConcat(P, t[..p] + [x], t[p..]);
    FilterConcat(P, t[..p], [x]);
  }

  lemma {:induction false} FilterHalves<T>(P: T -> bool, t: seq<T>, p: nat)
    requires p <= |t|
    ensures Filter(P, t) == Filter(P, t[..p]) + Filter(P, t[p..])
  {
    var front, back := t[..p], t[p..];
    assert front + back == t;
    FilterConcat(P, front, back);
  }

  /** Nothing keyed like x lies before x's insertion point. */
  lemma {:induction false} NoTieBeforeInsertPos<T>(x: T, t: seq<T>, key: T -> real, P: T -> bool)
    requires forall y :: P(y) && P(x) ==> key(x) == key(y)
    requires P(x)
    ensures Filter(P, t[..InsertPos(x, t, key)]) == []
  {
    var p := InsertPos(x, t, key);
    var front := t[..p];
    forall y | y in front ensures !P(y) {
      var q :| 0 <= q < p && front[q] == y;
      assert key(t[q]) < key(x);
    }
    FilterNone(P, front);
  }

  /** The filter of an insertion when nothing before x passes the filter. */
  lemma {:induction false} InsertFilterClear<T>(x: T, t: seq<T>, key: T -> real, P: T -> bool)
    requires !P(x) || Filter(P, t[..InsertPos(x, t, key)]) == []
    ensures Filter(P, Insert(x, t, key)) == (if P(x) then [x] else []) + Filter(P, t)
  {
    var p := InsertPos(x, t, key);
    var a, b := Filter(P, t[..p]), Filter(P, t[p..]);
    var fx := if P(x) then [x] else [];
    InsertFilterSplit(x, t, key, P);
    FilterSingleton(P, x);
    FilterHalves(P, t, p);
    if P(x) {
      assert a + fx == fx && a + b == b;
    } else {
      assert a + fx == a;
    }
  }

  /** Inserting x adds x to exactly the filters x passes, in front. */
  lemma {:induction false} InsertFilter<T>(x: T, t: seq<T>, key: T -> real, P: T -> bool)
    requires forall y :: P(y) && P(x) ==> key(x) == key(y)
    ensures Filter(P, Insert(x, t, key)) == (if P(x) then [x] else []) + Filter(P, t)
  {
    if P(x) {
      NoTieBeforeInsertPos(x, t, key, P);
    }
    InsertFilterClear(x, t, key, P);
  }

  /** Stability: elements sharing one key value keep their input order. */
  lemma {:induction false} SortByStable<T>(s: seq<T>, key: T -> real, P: T -> bool)
    requires forall x, y :: P(x) && P(y) ==> key(x) == key(y)
    ensures Filter(P, SortBy(s, key)) == Filter(P, s)
  {
    if s != [] {
      SortByStable(s[1..], key, P);
      InsertFilter(s[0], SortBy(s[1..], key), key, P);
    }
  }

  /** Lexicographic comparison on a list of keys. */
  predicate LexLe<T>(keys: seq<T -> real>, x: T, y: T) {
    if keys == [] then true
    else keys[0](x) < keys[0](y) || (keys[0](x) == keys[0](y) && LexLe(keys[1..], x, y))
  }

  predicate LexSorted<T>(keys: seq<T -> real>, s: seq<T>) {
    forall i, j :: 0 <= i < j < |s| ==> LexLe(keys, s[i], s[j])
  }

  /** Sorting on the keys one at a time, the last key first. */
  function SortAll<T>(keys: seq<T -> real>, s: seq<T>): (r: seq<T>)
    ensures |r| == |s|
  {
    if keys == [] then s else SortBy(SortAll(keys[1..], s), keys[0])
  }

  lemma {:induction false} LexLeCons<T>(k: T -> real, ks: seq<T -> real>, a: T, b: T)
    ensures LexLe([k] + ks, a, b) == (k(a) < k(b) || (k(a) == k(b) && LexLe(ks, a, b)))
  {
    assert ([k] + ks)[1..] == ks;
  }

  /** Inserting x into a list ordered by k then ks keeps that order when x
      comes no later than any element on ks. */
  lemma {:induction false} InsertLex<T>(k: T -> real, ks: seq<T -> real>, x: T, t: seq<T>)
    requires LexSorted([k] + ks, t)
    requires forall y :: y in t ==> LexLe(ks, x, y)
    ensures LexSorted([k] + ks, Insert(x, t, k))
  {
    var p := InsertPos(x, t, k);
    var r := Insert(x, t, k);
    forall i, j | 0 <= i < j < |r|
      ensures LexLe([k] + ks, r[i], r[j])
    {
      LexLeCons(k, ks, r[i], r[j]);
      InsertAt(x, t, k, i);
      InsertAt(x, t, k, j);
      if i == p {
        assert t[j - 1] in t;
        if p < j - 1 {
          LexLeCons(k, ks, t[p], t[j - 1]);
        }
      }
    }
  }

  /** A stable sort on k of a list ordered by the keys ks is ordered by
      k then ks. */
  lemma {:induction false} SortByRefines<T>(k: T -> real, ks: seq<T -> real>, s: seq<T>)
    requires LexSorted(ks, s)
    ensures LexSorted([k] + ks, SortBy(s, k))
  {
    if s != [] {
      assert LexSorted(ks, s[1..]);
      SortByRefines(k, ks, s[1..]);
      var t := SortBy(s[1..], k);
      SortByPermutes(s[1..], k);
      forall y | y in t ensures LexLe(ks, s[0], y) {
        assert y in multiset(s[1..]);
        var q :| 0 <= q < |s[1..]| && s[1..][q] == y;
        assert s[q + 1] == y;
      }
      InsertLex(k, ks, s[0], t);
    }
  }

  /** Chained stable sorts order the list lexicographically by the keys,
      first key most significant. */
  lemma {:induction false} SortAllOrders<T>(keys: seq<T -> real>, s: seq<T>)
    ensures LexSorted(keys, SortAll(keys, s))
  {
    if keys != [] {
      SortAllOrders(keys[1..], s);
      SortByRefines(keys[0], keys[1..], SortAll(keys[1..], s));
      assert [keys[0]] + keys[1..] == keys;
    }
  }

  lemma {:induction false} SortAllPermutes<T>(keys: seq<T -> real>, s: seq<T>)
    ensures multiset(SortAll(keys, s)) == multiset(s)
  {
    if keys != [] {
      SortAllPermutes(keys[1..], s);
      SortByPermutes(SortAll(keys[1..], s), keys[0]);
    }
  }

  /** Elements tied on every key keep their input order. */
  lemma {:induction false} SortAllStable<T>(keys: seq<T -> real>, s: seq<T>, P: T -> bool)
    requires forall i, x, y :: 0 <= i < |keys| && P(x) && P(y) ==> keys[i](x) == keys[i](y)
    ensures Filter(P, SortAll(keys, s)) == Filter(P, s)
  {
    if keys != [] {
      SortAllStable(keys[1..], s, P);
      forall x, y | P(x) && P(y) ensures keys[0](x) == keys[0](y) {
      }
      SortByStable(SortAll(keys[1..], s), keys[0], P);
    }
  }

  /** The predicate "has key value k". */
  function HasKey<T, K(==)>(key: T -> K, k: K): T -> bool {
    x => key(x) == k
  }

  /** `GroupBy(key).SelectMany(g => g)`: the first element's group, in
      order, then the same for the rest. */
  function GroupBy<T, K(==)>(s: seq<T>, key: T -> K): (r: seq<T>)
    ensures |r| == |s|
    decreases |s|
  {
    if s == [] then []
    else
      var k := key(s[0]);
      FilterSplitLength(HasKey(key, k), s);
      assert s[0] in Filter(HasKey(key, k), s);
      Filter(HasKey(key, k), s) + GroupBy(Filter(Not(HasKey(key, k)), s), key)
  }

  lemma {:induction false} GroupByPermutes<T, K>(s: seq<T>, key: T -> K)
    ensures multiset(GroupBy(s, key)) == multiset(s)
    decreases |s|
  {
    if s != [] {
      var k := key(s[0]);
      FilterPartition(HasKey(key, k), s);
      GroupByPermutes(Filter(Not(HasKey(key, k)), s), key);
    }
  }

  /** Within a group the input order is kept. */
  lemma {:induction false} GroupByKeepsGroupOrder<T, K>(s: seq<T>, key: T -> K, k: K)
    ensures Filter(HasKey(key, k), GroupBy(s, key)) == Filter(HasKey(key, k), s)
    decreases |s|
  {
    if s != [] {
      var k0 := key(s[0]);
      var front := Filter(HasKey(key, k0), s);
      var rest := Filter(Not(HasKey(key, k0)), s);
      FilterPartition(HasKey(key, k0), s);
      GroupByKeepsGroupOrder(rest, key, k);
      FilterConcat(HasKey(key, k), front, GroupBy(rest, key));
      if k == k0 {
        FilterFilter(HasKey(key, k), HasKey(key, k0), s);
        FilterCongruent(Both(HasKey(key, k), HasKey(key, k0)), HasKey(key, k), s);
        FilterFilter(HasKey(key, k), Not(HasKey(key, k0)), s);
        FilterCongruent(Both(HasKey(key, k), Not(HasKey(key, k0))), x => false, s);
        FilterNone(x => false, s);
      } else {
        FilterFilter(HasKey(key, k), HasKey(key, k0), s);
        FilterCongruent(Both(HasKey(key, k), HasKey(key, k0)), x => false, s);
        FilterNone(x => false, s);
        FilterFilter(HasKey(key, k), Not(HasKey(key, k0)), s);
        FilterCongruent(Both(HasKey(key, k), Not(HasKey(key, k0))), HasKey(key, k), s);
      }
    }
  }

  /** Each group is one contiguous block. */
  predicate Contiguous<T, K(==)>(s: seq<T>, key: T -> K) {
    forall i, j, l :: 0 <= i < j < l < |s| && key(s[i]) == key(s[l]) ==> key(s[j]) == key(s[i])
  }

  /** A block of one key in front of a contiguous list without that key
      is contiguous. */
  lemma {:induction false} ContiguousCons<T, K>(front: seq<T>, g: seq<T>, key: T -> K, k0: K)
    requires forall x :: x in front ==> key(x) == k0
    requires forall x :: x in g ==> key(x) != k0
    requires Contiguous(g, key)
    ensures Contiguous(front + g, key)
  {
    var r := front + g;
    forall i, j, l | 0 <= i < j < l < |r| && key(r[i]) == key(r[l])
      ensures key(r[j]) == key(r[i])
    {
      if l < |front| {
        assert r[j] in front && r[i] in front;
      } else if |front| <= i {
        assert r[i] == g[i - |front|] && r[j] == g[j - |front|] && r[l] == g[l - |front|];
      }
    }
  }

  /** Grouping keeps exactly the elements, so a key absent before is absent after. */
  lemma {:induction false} GroupByAvoids<T, K>(s: seq<T>, key: T -> K, k0: K)
    requires forall x :: x in s ==> key(x) != k0
    ensures forall x :: x in GroupBy(s, key) ==> key(x) != k0
  {
    GroupByPermutes(s, key);
    forall x | x in GroupBy(s, key) ensures key(x) != k0 {
      assert x in multiset(GroupBy(s, key));
    }
  }

  lemma {:induction false} GroupByContiguous<T, K>(s: seq<T>, key: T -> K)
    ensures Contiguous(GroupBy(s, key), key)
    decreases |s|
  {
    if s != [] {
      var k0 := key(s[0]);
      var front := Filter(HasKey(key, k0), s);
      var rest := Filter(Not(HasKey(key, k0)), s);
      FilterSplitLength(HasKey(key, k0), s);
      assert s[0] in front;
      GroupByContiguous(rest, key);
      GroupByAvoids(rest, key, k0);
      ContiguousCons(front, GroupBy(rest, key), key, k0);
    }
  }

  /** The position of the first element of s with key k, or |s| when there
      is none. */
  function FirstKey<T, K(==)>(s: seq<T>, key: T -> K, k: K): (r: nat)
    ensures r <= |s|
    ensures r < |s| ==> key(s[r]) == k
    ensures forall i :: 0 <= i < r ==> key(s[i]) != k
  {
    if s == [] then 0
    else if key(s[0]) == k then 0
    else 1 + FirstKey(s[1..], key, k)
  }

  /** Elements of different keys appear in the order in which their keys
      first appear in s. */
  predicate GroupsInFirstOrder<T, K(==)>(r: seq<T>, s: seq<T>, key: T -> K) {
    forall i, j :: 0 <= i < |r| && 0 <= j < |r| && key(r[i]) != key(r[j]) ==>
      (i < j <==> FirstKey(s, key, key(r[i])) < FirstKey(s, key, key(r[j])))
  }

  /** Dropping the elements of key k0 keeps the order in which the other
      keys first appear. */
  lemma {:induction false} FirstKeyWithout<T, K>(s: seq<T>, key: T -> K, k0: K, k1: K, k2: K)
    requires k1 != k0 && k2 != k0
    requires FirstKey(Filter(Not(HasKey(key, k0)), s), key, k1) < FirstKey(Filter(Not(HasKey(key, k0)), s), key, k2)
    ensures FirstKey(s, key, k1) < FirstKey(s, key, k2)
    decreases |s|
  {
    var p := Not(HasKey(key, k0));
    assert s != [];
    var t := Filter(p, s[1..]);
    if key(s[0]) == k0 {
      assert Filter(p, s) == t;
      FirstKeyWithout(s[1..], key, k0, k1, k2);
    } else if key(s[0]) == k1 {
      assert Filter(p, s) == [s[0]] + t;
    } else {
      assert Filter(p, s) == [s[0]] + t;
      assert ([s[0]] + t)[1..] == t;
      FirstKeyWithout(s[1..], key, k0, k1, k2);
    }
  }

  /** Two elements grouped from the part of s without its first key keep
      the order in which their keys first appear there. */
  lemma {:induction false} GroupedRestFirstOrder<T, K>(s: seq<T>, key: T -> K, x: T, y: T)
    requires s != []
    requires var rest := Filter(Not(HasKey(key, key(s[0]))), s);
             && x in GroupBy(rest, key) && y in GroupBy(rest, key)
             && FirstKey(rest, key, key(x)) < FirstKey(rest, key, key(y))
    ensures FirstKey(s, key, key(x)) < FirstKey(s, key, key(y))
  {
    var k0 := key(s[0]);
    GroupByAvoids(Filter(Not(HasKey(key, k0)), s), key, k0);
    FirstKeyWithout(s, key, k0, key(x), key(y));
  }

  /** An element of a grouping is either in the first key's group, or the
      element at the matching position of the grouped rest. */
  lemma {:induction false} GroupByAt<T, K>(s: seq<T>, key: T -> K, i: nat)
    requires s != [] && i < |GroupBy(s, key)|
    ensures var front := Filter(HasKey(key, key(s[0])), s);
            var g := GroupBy(Filter(Not(HasKey(key, key(s[0]))), s), key);
            if i < |front| then key(GroupBy(s, key)[i]) == key(s[0])
            else i - |front| < |g| && GroupBy(s, key)[i] == g[i - |front|]
  {
    var front := Filter(HasKey(key, key(s[0])), s);
    var g := GroupBy(Filter(Not(HasKey(key, key(s[0]))), s), key);
    assert GroupBy(s, key) == front + g;
    if i < |front| {
      assert front[i] in front;
    }
  }

  /** One direction of `GroupsInFirstOrder`: an earlier element of another
      key has a key that appears first earlier. */
  lemma {:induction false} GroupByFirstOrder<T, K>(s: seq<T>, key: T -> K, i: nat, j: nat)
    requires i < j < |GroupBy(s, key)|
    requires key(GroupBy(s, key)[i]) != key(GroupBy(s, key)[j])
    ensures FirstKey(s, key, key(GroupBy(s, key)[i])) < FirstKey(s, key, key(GroupBy(s, key)[j]))
    decreases |s|
  {
    var front := Filter(HasKey(key, key(s[0])), s);
    var rest := Filter(Not(HasKey(key, key(s[0]))), s);
    var ki, kj := key(GroupBy(s, key)[i]), key(GroupBy(s, key)[j]);
    GroupByAt(s, key, i);
    GroupByAt(s, key, j);
    if i < |front| {
      assert FirstKey(s, key, ki) == 0;
      assert FirstKey(s, key, kj) == 1 + FirstKey(s[1..], key, kj);
    } else {
      var g := GroupBy(rest, key);
      var i', j' := i - |front|, j - |front|;
      assert key(g[i']) == ki && key(g[j']) == kj;
      GroupByFirstOrder(rest, key, i', j');
      assert FirstKey(rest, key, ki) < FirstKey(rest, key, kj);
      assert g[i'] in g && g[j'] in g;
      GroupedRestFirstOrder(s, key, g[i'], g[j']);
    }
  }

  /** Grouping a list by a key finer than one it is already contiguous in
      keeps it contiguous in the coarser key: the finer groups of one coarse
      block all first appear inside that block. */
  lemma {:induction false} GroupByKeepsCoarseBlocks<T, K, L>(s: seq<T>, key: T -> K, coarse: T -> L, proj: K -> L)
    requires Contiguous(s, coarse)
    requires forall x :: coarse(x) == proj(key(x))
    ensures Contiguous(GroupBy(s, key), coarse)
  {
    GroupByGroupOrder(s, key);
    GroupByPermutes(s, key);
    FirstOrderKeepsCoarseBlocks(s, GroupBy(s, key), key, coarse, proj);
  }

  /** Any rearrangement listing the finer groups in first-appearance order
      keeps the coarse blocks of s together. */
  lemma {:induction false} FirstOrderKeepsCoarseBlocks<T, K, L>(s: seq<T>, r: seq<T>, key: T -> K, coarse: T -> L, proj: K -> L)
    requires Contiguous(s, coarse)
    requires forall x :: coarse(x) == proj(key(x))
    requires GroupsInFirstOrder(r, s, key) && multiset(r) == multiset(s)
    ensures Contiguous(r, coarse)
  {
    forall i, j, l | 0 <= i < j < l < |r| && coarse(r[i]) == coarse(r[l])
      ensures coarse(r[j]) == coarse(r[i])
    {
      if key(r[j]) != key(r[i]) && key(r[j]) != key(r[l]) {
        CoarseBetween(s, key, coarse, proj, r, i, j, l);
      }
    }
  }

  /** The step of `GroupByKeepsCoarseBlocks` for one element between two of
      one coarse block, whose finer key differs from both of theirs. */
  lemma {:induction false} CoarseBetween<T, K, L>(s: seq<T>, key: T -> K, coarse: T -> L, proj: K -> L,
                                                  r: seq<T>, i: nat, j: nat, l: nat)
    requires Contiguous(s, coarse)
    requires forall x :: coarse(x) == proj(key(x))
    requires GroupsInFirstOrder(r, s, key) && multiset(r) == multiset(s)
    requires i < j < l < |r| && coarse(r[i]) == coarse(r[l])
    requires key(r[j]) != key(r[i]) && key(r[j]) != key(r[l])
    ensures coarse(r[j]) == coarse(r[i])
  {
    var fi, fj, fl := FirstKey(s, key, key(r[i])), FirstKey(s, key, key(r[j])), FirstKey(s, key, key(r[l]));
    assert fi < fj < fl;
    assert r[l] in multiset(s);
    var p :| 0 <= p < |s| && s[p] == r[l];
    assert fl <= p;
    assert key(s[fi]) == key(r[i]) && key(s[fj]) == key(r[j]) && key(s[fl]) == key(r[l]);
    assert coarse(s[fi]) == coarse(r[i]) && coarse(s[fl]) == coarse(r[l]) && coarse(s[fj]) == coarse(r[j]);
  }

  /** `GroupBy` lists the groups in the order their keys first appear. */
  lemma {:induction false} GroupByGroupOrder<T, K>(s: seq<T>, key: T -> K)
    ensures GroupsInFirstOrder(GroupBy(s, key), s, key)
  {
    var r := GroupBy(s, key);
    forall i, j | 0 <= i < |r| && 0 <= j < |r| && key(r[i]) != key(r[j])
      ensures i < j <==> FirstKey(s, key, key(r[i])) < FirstKey(s, key, key(r[j]))
    {
      if i < j {
        GroupByFirstOrder(s, key, i, j);
      } else {
        GroupByFirstOrder(s, key, j, i);
      }
    }
  }
}
