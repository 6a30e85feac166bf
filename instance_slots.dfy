/** `SortManager.AetheryteSortInstances`: within each territory, the slots
    its marks occupy are refilled with those marks in stable
    `Instance ?? 1` order; which territory owns which slot does not change. */
module InstanceSlots {
  import opened Utils
  import opened Models
  import opened Seqs
  import opened StableSort
  import opened Travel

  function TerritoryOf(d: SortData): UInt32 {
    d.markData.territoryId
  }

  /** The instance sort key, `Instance ?? 1`. */
  function InstanceKey(d: SortData): real {
    InstanceOrDefault(d.markData) as real
  }

  function InTerritory(t: UInt32): SortData -> bool {
    d => TerritoryOf(d) == t
  }

  /** A territory's marks, in list order. */
  function Group(s: seq<SortData>, t: UInt32): seq<SortData> {
    Filter(InTerritory(t), s)
  }

  /** A territory's marks in instance order. */
  function SortedGroup(s: seq<SortData>, t: UInt32): seq<SortData> {
    SortBy(Group(s, t), InstanceKey)
  }

  /** How many marks of slot i's territory come before slot i. */
  function Rank(s: seq<SortData>, i: nat): nat
    requires i < |s|
  {
    |Group(s[..i], TerritoryOf(s[i]))|
  }

  lemma {:induction false} GroupSplit(s: seq<SortData>, t: UInt32, i: nat)
    requires i <= |s|
    ensures Group(s, t) == Group(s[..i], t) + Group(s[i..], t)
  {
    assert s == s[..i] + s[i..];
    FilterConcat(InTerritory(t), s[..i], s[i..]);
  }

  lemma {:induction false} GroupStep(s: seq<SortData>, t: UInt32, i: nat)
    requires i < |s|
    ensures Group(s[..i + 1], t) == Group(s[..i], t) + (if TerritoryOf(s[i]) == t then [s[i]] else [])
  {
    assert s[..i + 1] == s[..i] + [s[i]];
    FilterConcat(InTerritory(t), s[..i], [s[i]]);
    FilterSingleton(InTerritory(t), s[i]);
  }

  /** A slot's rank is a position in its territory's group. */
  lemma {:induction false} RankInRange(s: seq<SortData>, i: nat)
    requires i < |s|
    ensures Rank(s, i) < |SortedGroup(s, TerritoryOf(s[i]))|
  {
    var t := TerritoryOf(s[i]);
    GroupSplit(s, t, i);
    assert s[i..][0] == s[i];
    assert s[i] in Group(s[i..], t);
  }

  /** Later slots of one territory have higher ranks. */
  lemma {:induction false} RankIncreases(s: seq<SortData>, i: nat, j: nat)
    requires i < j < |s| && TerritoryOf(s[i]) == TerritoryOf(s[j])
    ensures Rank(s, i) < Rank(s, j)
  {
    var t := TerritoryOf(s[i]);
    var sj := s[..j];
    assert sj[..i] == s[..i];
    GroupSplit(sj, t, i);
    assert sj[i..][0] == s[i];
    assert s[i] in Group(sj[i..], t);
  }

  /** What slot i receives: the mark of its territory's instance order
      whose position is the slot's rank. */
  function SlotValue(s: seq<SortData>, i: nat): SortData
    requires i < |s|
  {
    RankInRange(s, i);
    SortedGroup(s, TerritoryOf(s[i]))[Rank(s, i)]
  }

  /** The outcome of `AetheryteSortInstances` on a list. */
  function SortInstances(s: seq<SortData>): (r: seq<SortData>)
    ensures |r| == |s|
    ensures forall i :: 0 <= i < |s| ==> r[i] == SlotValue(s, i)
  {
    seq(|s|, i requires 0 <= i < |s| => SlotValue(s, i))
  }

  /** A territory's instance order holds only that territory's marks. */
  lemma {:induction false} SortedGroupMember(s: seq<SortData>, t: UInt32, k: nat)
    requires k < |SortedGroup(s, t)|
    ensures TerritoryOf(SortedGroup(s, t)[k]) == t
  {
    var g := SortedGroup(s, t);
    SortByPermutes(Group(s, t), InstanceKey);
    assert g[k] in multiset(Group(s, t));
    assert g[k] in Group(s, t);
  }

  lemma {:induction false} SlotKeepsTerritory(s: seq<SortData>, i: nat)
    requires i < |s|
    ensures TerritoryOf(SlotValue(s, i)) == TerritoryOf(s[i])
  {
    RankInRange(s, i);
    SortedGroupMember(s, TerritoryOf(s[i]), Rank(s, i));
  }

  /** Every slot keeps its territory. */
  lemma {:induction false} SortInstancesKeepsTerritories(s: seq<SortData>)
    ensures forall i :: 0 <= i < |s| ==> TerritoryOf(SortInstances(s)[i]) == TerritoryOf(s[i])
  {
    forall i | 0 <= i < |s|
      ensures TerritoryOf(SlotValue(s, i)) == TerritoryOf(s[i])
    {
      SlotKeepsTerritory(s, i);
    }
  }

  lemma {:induction false} SortedGroupLength(s: seq<SortData>, t: UInt32)
    ensures |SortedGroup(s, t)| == |Group(s, t)|
  {
  }

  /** Slot m adds its new mark to territory t's marks when it is one of
      t's slots. */
  lemma {:induction false} SlotsStep(s: seq<SortData>, t: UInt32, m: nat)
    requires m < |s|
    ensures Group(SortInstances(s)[..m + 1], t)
         == Group(SortInstances(s)[..m], t)
          + (if TerritoryOf(s[m]) == t then [SlotValue(s, m)] else [])
  {
    var r := SortInstances(s);
    GroupStep(r, t, m);
    SlotKeepsTerritory(s, m);
    if TerritoryOf(s[m]) == t {
      RankInRange(s, m);
    }
  }

  /** One more slot read keeps the slots read so far equal to the front
      of the territory's instance order. */
  lemma {:induction false} SlotsPrefixStep(s: seq<SortData>, t: UInt32, n: nat)
    requires 0 < n <= |s|
    requires |Group(s[..n - 1], t)| <= |SortedGroup(s, t)|
    requires Group(SortInstances(s)[..n - 1], t) == SortedGroup(s, t)[..|Group(s[..n - 1], t)|]
    ensures |Group(s[..n], t)| <= |SortedGroup(s, t)|
    ensures Group(SortInstances(s)[..n], t) == SortedGroup(s, t)[..|Group(s[..n], t)|]
  {
    var m := n - 1;
    var g := SortedGroup(s, t);
    var k := |Group(s[..m], t)|;
    GroupStep(s, t, m);
    SlotsStep(s, t, m);
    if TerritoryOf(s[m]) == t {
      RankInRange(s, m);
      PrefixExtend(g, k);
    }
  }

  /** Read along a prefix, a territory's slots hold the first marks of its
      instance order. */
  lemma {:induction false} SlotsPrefix(s: seq<SortData>, t: UInt32, n: nat)
    requires n <= |s|
    ensures |Group(s[..n], t)| <= |SortedGroup(s, t)|
    ensures Group(SortInstances(s)[..n], t) == SortedGroup(s, t)[..|Group(s[..n], t)|]
  {
    if n == 0 {
      var r := SortInstances(s);
      assert s[..0] == [] && r[..0] == [];
      assert Group([], t) == [];
    } else {
      SlotsPrefix(s, t, n - 1);
      SlotsPrefixStep(s, t, n);
    }
  }

  /** Within each territory the marks appear in instance order. */
  lemma {:induction false} SortInstancesGroups(s: seq<SortData>, t: UInt32)
    ensures Group(SortInstances(s), t) == SortedGroup(s, t)
  {
    var r := SortInstances(s);
    SlotsPrefix(s, t, |s|);
    SortedGroupLength(s, t);
    assert s[..|s|] == s && r[..|s|] == r;
  }

  /** The marks are only moved, never lost or duplicated. */
  lemma {:induction false} SortInstancesPermutes(s: seq<SortData>)
    ensures multiset(SortInstances(s)) == multiset(s)
  {
    var r := SortInstances(s);
    forall x ensures multiset(r)[x] == multiset(s)[x] {
      var t := TerritoryOf(x);
      FilterCount(InTerritory(t), r, x);
      FilterCount(InTerritory(t), s, x);
      SortInstancesGroups(s, t);
      SortByPermutes(Group(s, t), InstanceKey);
    }
  }

  /** Does some slot before i belong to territory t? */
  ghost predicate SeenBefore(s: seq<SortData>, i: nat, t: UInt32)
    requires i <= |s|
  {
    exists m :: 0 <= m < i && TerritoryOf(s[m]) == t
  }

  lemma {:induction false} SeenBeforeStep(s: seq<SortData>, i: nat, u: UInt32)
    requires i < |s|
    ensures SeenBefore(s, i + 1, u) <==> SeenBefore(s, i, u) || TerritoryOf(s[i]) == u
  {
    if TerritoryOf(s[i]) == u {
      assert 0 <= i < i + 1 && TerritoryOf(s[i]) == u;
    }
  }

  lemma {:induction false} SeenAll(s: seq<SortData>, j: nat)
    requires j < |s|
    ensures SeenBefore(s, |s|, TerritoryOf(s[j]))
  {
    assert 0 <= j < |s| && TerritoryOf(s[j]) == TerritoryOf(s[j]);
  }

  /** A territory not met before slot i has no marks before it. */
  lemma {:induction false} UnseenGroupEmpty(s: seq<SortData>, i: nat, t: UInt32)
    requires i <= |s|
    ensures Group(s[..i], t) != [] ==> SeenBefore(s, i, t)
  {
    var g := Group(s[..i], t);
    if g != [] {
      assert g[0] in g;
      var m :| 0 <= m < i && s[..i][m] == g[0];
      assert 0 <= m < i && TerritoryOf(s[m]) == t;
    }
  }

  /** A slot of territory t is the slot its rank names among t's slots. */
  lemma {:induction false} RankNamesSlot(s: seq<SortData>, ixs: seq<nat>, t: UInt32, j: nat)
    requires j < |s| && TerritoryOf(s[j]) == t
    requires |ixs| == |Group(s, t)|
    requires forall k :: 0 <= k < |ixs| ==> ixs[k] < |s| && TerritoryOf(s[ixs[k]]) == t && Rank(s, ixs[k]) == k
    ensures Rank(s, j) < |ixs| && ixs[Rank(s, j)] == j
  {
    RankInRange(s, j);
    SortedGroupLength(s, t);
    var k := Rank(s, j);
    if ixs[k] < j {
      RankIncreases(s, ixs[k], j);
    } else if j < ixs[k] {
      RankIncreases(s, j, ixs[k]);
    }
  }

  /** Does some slot before i of the array belong to territory t? */
  method SeenEarlier(a: array<SortData>, i: nat, t: UInt32) returns (seen: bool)
    requires i <= a.Length
    ensures seen <==> exists m :: 0 <= m < i && TerritoryOf(a[m]) == t
  {
    seen := false;
    for m := 0 to i
      invariant seen <==> exists m' :: 0 <= m' < m && TerritoryOf(a[m']) == t
    {
      if TerritoryOf(a[m]) == t {
        seen := true;
      }
    }
  }

  /** The slots of territory t from slot i on, and the marks in them; when
      t has no slot before i and its slots still hold the original marks s,
      these are all of t's marks, each slot tagged with its rank. */
  method CollectSlots(a: array<SortData>, i: nat, t: UInt32, ghost s: seq<SortData>)
    returns (ixs: seq<nat>, group: seq<SortData>)
    requires i <= a.Length == |s|
    requires Group(s[..i], t) == []
    requires forall j :: 0 <= j < a.Length ==> TerritoryOf(a[j]) == TerritoryOf(s[j])
    requires forall j :: i <= j < a.Length && TerritoryOf(s[j]) == t ==> a[j] == s[j]
    ensures group == Group(s, t) && |ixs| == |group|
    ensures forall k :: 0 <= k < |ixs| ==> ixs[k] < |s| && TerritoryOf(s[ixs[k]]) == t && Rank(s, ixs[k]) == k
  {
    ixs, group := [], [];
    for j := i to a.Length
      invariant group == Group(s[..j], t) && |ixs| == |group|
      invariant forall k :: 0 <= k < |ixs| ==> ixs[k] < j && TerritoryOf(s[ixs[k]]) == t && Rank(s, ixs[k]) == k
    {
      GroupStep(s, t, j);
      if TerritoryOf(a[j]) == t {
        ixs := ixs + [j];
        group := group + [a[j]];
      }
    }
    assert s[..a.Length] == s;
  }

  /** Write each value into its slot. */
  method WriteSlots(a: array<SortData>, ixs: seq<nat>, values: seq<SortData>)
    requires |ixs| == |values|
    requires forall k :: 0 <= k < |ixs| ==> ixs[k] < a.Length
    requires forall k, l :: 0 <= k < l < |ixs| ==> ixs[k] != ixs[l]
    modifies a
    ensures forall k :: 0 <= k < |ixs| ==> a[ixs[k]] == values[k]
    ensures forall j :: 0 <= j < a.Length && j !in ixs ==> a[j] == old(a[j])
  {
    for k := 0 to |ixs|
      invariant forall k' :: 0 <= k' < k ==> a[ixs[k']] == values[k']
      invariant forall j :: 0 <= j < a.Length && j !in ixs[..k] ==> a[j] == old(a[j])
    {
      a[ixs[k]] := values[k];
      assert ixs[..k + 1] == ixs[..k] + [ixs[k]];
    }
    assert ixs[..|ixs|] == ixs;
  }

  /** After territory t's slots are refilled, every slot of t holds its
      final mark and every other slot is as before. */
  lemma {:induction false} RefilledSlots(s: seq<SortData>, ixs: seq<nat>, t: UInt32, before: seq<SortData>, after: seq<SortData>, seen: UInt32 -> bool)
    requires |before| == |after| == |s|
    requires |ixs| == |Group(s, t)|
    requires forall k :: 0 <= k < |ixs| ==> ixs[k] < |s| && TerritoryOf(s[ixs[k]]) == t && Rank(s, ixs[k]) == k
    requires forall k :: 0 <= k < |ixs| ==> after[ixs[k]] == SortedGroup(s, t)[k]
    requires forall j :: 0 <= j < |s| && j !in ixs ==> after[j] == before[j]
    requires forall j :: 0 <= j < |s| ==> before[j] == (if seen(TerritoryOf(s[j])) then SortInstances(s)[j] else s[j])
    ensures forall j :: 0 <= j < |s| ==>
      after[j] == (if seen(TerritoryOf(s[j])) || TerritoryOf(s[j]) == t then SortInstances(s)[j] else s[j])
  {
    forall j | 0 <= j < |s|
      ensures after[j] == (if seen(TerritoryOf(s[j])) || TerritoryOf(s[j]) == t then SortInstances(s)[j] else s[j])
    {
      if TerritoryOf(s[j]) == t {
        RankNamesSlot(s, ixs, t, j);
      } else {
        assert j !in ixs;
      }
    }
  }

  /** The array's state after the first i slots were visited: slots of
      territories met so far hold their final marks, the rest are as they
      were. */
  ghost predicate Visited(cur: seq<SortData>, s: seq<SortData>, i: nat)
    requires i <= |s|
  {
    |cur| == |s|
    && forall j :: 0 <= j < |s| ==> cur[j] == (if SeenBefore(s, i, TerritoryOf(s[j])) then SortInstances(s)[j] else s[j])
  }

  lemma {:induction false} VisitedTerritories(cur: seq<SortData>, s: seq<SortData>, i: nat)
    requires i <= |s| && Visited(cur, s, i)
    ensures forall j :: 0 <= j < |s| ==> TerritoryOf(cur[j]) == TerritoryOf(s[j])
  {
    SortInstancesKeepsTerritories(s);
  }

  lemma {:induction false} VisitedSeen(cur: seq<SortData>, s: seq<SortData>, i: nat)
    requires i < |s| && Visited(cur, s, i) && SeenBefore(s, i, TerritoryOf(s[i]))
    ensures Visited(cur, s, i + 1)
  {
    forall u ensures SeenBefore(s, i + 1, u) <==> SeenBefore(s, i, u) {
      SeenBeforeStep(s, i, u);
    }
  }

  /** Visit slot i, the first slot of its territory t: refill t's slots. */
  method RefillTerritory(a: array<SortData>, i: nat, ghost s: seq<SortData>)
    requires i < a.Length == |s| && Visited(a[..], s, i)
    requires !SeenBefore(s, i, TerritoryOf(s[i]))
    modifies a
    ensures Visited(a[..], s, i + 1)
  {
    var t := TerritoryOf(a[i]);
    VisitedTerritories(a[..], s, i);
    UnseenGroupEmpty(s, i, t);
    var ixs, group := CollectSlots(a, i, t, s);
    SortedGroupLength(s, t);
    forall k, l | 0 <= k < l < |ixs| ensures ixs[k] != ixs[l] { }
    ghost var before := a[..];
    WriteSlots(a, ixs, SortBy(group, InstanceKey));
    RefilledSlots(s, ixs, t, before, a[..], (u: UInt32) => SeenBefore(s, i, u));
    forall u ensures SeenBefore(s, i + 1, u) <==> SeenBefore(s, i, u) || t == u {
      SeenBeforeStep(s, i, u);
    }
  }

  /** `SortManager.AetheryteSortInstances`, in place: at each territory's
      first slot, gather that territory's slots and marks, order the marks
      by instance and write them back into the same slots. */
  method AetheryteSortInstances(a: array<SortData>)
    modifies a
    ensures a[..] == SortInstances(old(a[..]))
  {
    ghost var s := a[..];
    var i := 0;
    while i < a.Length
      invariant 0 <= i <= a.Length && Visited(a[..], s, i)
    {
      VisitedTerritories(a[..], s, i);
      var seen := SeenEarlier(a, i, TerritoryOf(a[i]));
      assert seen <==> SeenBefore(s, i, TerritoryOf(s[i]));
      if seen {
        VisitedSeen(a[..], s, i);
      } else {
        RefillTerritory(a, i, s);
      }
      i := i + 1;
    }
    forall j | 0 <= j < a.Length ensures SeenBefore(s, a.Length, TerritoryOf(s[j])) {
      SeenAll(s, j);
    }
  }
}
