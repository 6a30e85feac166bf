/** `SortManager.SortEntries`: parse a payload, then order the marks by the
    configured criteria, the last criterion first, each one a stable sort. */
module SortManager {
  import opened Wrappers
  import opened Utils
  import opened Models
  import opened Seqs
  import opened Text
  import opened StableSort
  import opened Travel
  import opened InstanceSlots
  import opened Parser
  import opened Importer

  /** The criteria a configuration can list. */
  datatype SortCriteria = Patch | Map | Aetheryte | Instance | IsMultiInstance

  /** The configuration fields the sorter reads. */
  datatype SortConfig = SortConfig(
    activeSortOrder: seq<SortCriteria>,
    patchSortOrder: seq<Models.Patch>,
    territorySortOrder: map<Models.Patch, seq<UInt32>>,
    aetheryteSortInstances: bool,
    aetheryteKeepMapsTogether: bool,
    aetheryteCompleteMaps: bool
  )

  /** The sorter's collaborators: its configuration, the patch a territory
      belongs to, and the travel lookups. */
  datatype SortEnv = SortEnv(config: SortConfig, patchOf: UInt32 -> Models.Patch, travel: TravelServices)

  // ---------------------------------------------------------------------
  // Single-criterion keys

  /** The position of the mark's patch in the patch order, -1 when the
      patch is not listed. */
  function PatchPosition(env: SortEnv, m: MarkData): (i: int)
    ensures -1 <= i < |env.config.patchSortOrder|
    ensures i == -1 <==> env.patchOf(m.territoryId) !in env.config.patchSortOrder
    ensures 0 <= i ==> && env.config.patchSortOrder[i] == env.patchOf(m.territoryId)
                       && env.patchOf(m.territoryId) !in env.config.patchSortOrder[..i]
  {
    IndexOf(env.config.patchSortOrder, env.patchOf(m.territoryId))
  }

  /** Patch key: the patch's position in the patch order (-1 when unlisted). */
  function PatchKey(env: SortEnv): (r: MarkData -> real)
    ensures forall m :: r(m) == PatchPosition(env, m) as real
  {
    (m: MarkData) => PatchPosition(env, m) as real
  }

  /** Does the territory order have an entry for every mark's patch?
      Otherwise the Map criterion's dictionary lookup throws. */
  predicate MapKeyed(env: SortEnv, marks: seq<MarkData>) {
    forall m :: m in marks ==> env.patchOf(m.territoryId) in env.config.territorySortOrder
  }

  /** The territory's position in its patch's territory order, -1 when the
      patch has no order or the territory is not in it. */
  function MapPosition(env: SortEnv, m: MarkData): (i: int)
    ensures -1 <= i
    ensures i == -1 <==> var p := env.patchOf(m.territoryId);
                         p !in env.config.territorySortOrder || m.territoryId !in env.config.territorySortOrder[p]
    ensures 0 <= i ==> var order := env.config.territorySortOrder[env.patchOf(m.territoryId)];
                       i < |order| && order[i] == m.territoryId && m.territoryId !in order[..i]
  {
    var p := env.patchOf(m.territoryId);
    if p in env.config.territorySortOrder then IndexOf(env.config.territorySortOrder[p], m.territoryId) else -1
  }

  /** Map key: the territory's position in its patch's territory order. */
  function MapKey(env: SortEnv): (r: MarkData -> real)
    ensures forall m :: r(m) == MapPosition(env, m) as real
  {
    (m: MarkData) => MapPosition(env, m) as real
  }

  /** Instance key: `Instance ?? 1`. */
  function InstanceSortKey(m: MarkData): (r: real)
    ensures m.instance.None? ==> r == 1.0
    ensures m.instance.Some? ==> r == m.instance.value as real
  {
    InstanceOrDefault(m) as real
  }

  /** The distinct instance values among a territory's marks (no instance
      counts as a value of its own). */
  function InstancesIn(marks: multiset<MarkData>, t: UInt32): set<Option<UInt32>> {
    set m | m in marks && m.territoryId == t :: m.instance
  }

  /** Multi-instance key: 0 for territories whose marks span more than one
      instance value, 1 otherwise. */
  function MultiInstanceKey(marks: multiset<MarkData>): (r: MarkData -> real)
    ensures forall m :: r(m) == 0.0 || r(m) == 1.0
  {
    (m: MarkData) => if 1 < |InstancesIn(marks, m.territoryId)| then 0.0 else 1.0
  }

  /** A territory is multi-instance exactly when two of its marks differ in
      instance. */
  lemma {:induction false} MultiInstanceKeyMeaning(marks: multiset<MarkData>, m: MarkData)
    ensures MultiInstanceKey(marks)(m) == 0.0 <==>
      exists a, b :: a in marks && b in marks && a.territoryId == m.territoryId
                     && b.territoryId == m.territoryId && a.instance != b.instance
  {
    var s := InstancesIn(marks, m.territoryId);
    if 1 < |s| {
      var i :| i in s;
      assert |s - {i}| == |s| - 1;
      var j :| j in s - {i};
      var a :| a in marks && a.territoryId == m.territoryId && a.instance == i;
      var b :| b in marks && b.territoryId == m.territoryId && b.instance == j;
      assert a.instance != b.instance;
    } else {
      if exists a, b :: a in marks && b in marks && a.territoryId == m.territoryId
                        && b.territoryId == m.territoryId && a.instance != b.instance {
        var a, b :| a in marks && b in marks && a.territoryId == m.territoryId
                    && b.territoryId == m.territoryId && a.instance != b.instance;
        assert {a.instance, b.instance} <= s;
        assert |{a.instance, b.instance}| == 2;
        SubsetSize({a.instance, b.instance}, s);
      }
    }
  }

  lemma {:induction false} SubsetSize<T>(a: set<T>, b: set<T>)
    requires a <= b
    ensures |a| <= |b|
  {
    assert b == a + (b - a);
  }

  /** The key a non-aetheryte criterion sorts by; `marks` are the marks
      being sorted (the multi-instance key looks at all of them). */
  function Key(env: SortEnv, c: SortCriteria, marks: multiset<MarkData>): (r: MarkData -> real)
    requires c != SortCriteria.Aetheryte
    ensures forall m :: -1.0 <= r(m)
  {
    match c
    case Patch => PatchKey(env)
    case Map => MapKey(env)
    case Instance => (m: MarkData) => InstanceSortKey(m)
    case IsMultiInstance => MultiInstanceKey(marks)
  }

  // ---------------------------------------------------------------------
  // Aetheryte criterion

  function Distance(d: SortData): real {
    d.distance
  }

  /** The `(TerritoryId, Instance ?? 1)` key of `AetheryteCompleteMaps`. */
  function MapInstanceOf(d: SortData): (UInt32, UInt32) {
    (d.markData.territoryId, InstanceOrDefault(d.markData))
  }

  /** `AetheryteKeepMapsTogether`: each territory's marks in one block,
      blocks in order of first appearance, each block in list order. */
  function AetheryteKeepMapsTogether(s: seq<SortData>): (r: seq<SortData>)
    ensures multiset(r) == multiset(s)
    ensures Contiguous(r, TerritoryOf)
    ensures forall t :: Filter(HasKey(TerritoryOf, t), r) == Filter(HasKey(TerritoryOf, t), s)
    ensures GroupsInFirstOrder(r, s, TerritoryOf)
  {
    GroupByGroupOrder(s, TerritoryOf);
    GroupByPermutes(s, TerritoryOf);
    GroupByContiguous(s, TerritoryOf);
    forall t ensures Filter(HasKey(TerritoryOf, t), GroupBy(s, TerritoryOf)) == Filter(HasKey(TerritoryOf, t), s) {
      GroupByKeepsGroupOrder(s, TerritoryOf, t);
    }
    GroupBy(s, TerritoryOf)
  }

  /** `AetheryteCompleteMaps`: the same, keyed by territory and instance. */
  function AetheryteCompleteMaps(s: seq<SortData>): (r: seq<SortData>)
    ensures multiset(r) == multiset(s)
    ensures Contiguous(r, MapInstanceOf)
    ensures forall k :: Filter(HasKey(MapInstanceOf, k), r) == Filter(HasKey(MapInstanceOf, k), s)
    ensures GroupsInFirstOrder(r, s, MapInstanceOf)
  {
    GroupByGroupOrder(s, MapInstanceOf);
    GroupByPermutes(s, MapInstanceOf);
    GroupByContiguous(s, MapInstanceOf);
    forall k ensures Filter(HasKey(MapInstanceOf, k), GroupBy(s, MapInstanceOf)) == Filter(HasKey(MapInstanceOf, k), s) {
      GroupByKeepsGroupOrder(s, MapInstanceOf, k);
    }
    GroupBy(s, MapInstanceOf)
  }

  /** The travel data in aetheryte order: by distance, then the enabled
      refinements in turn; None when some lookup failed. */
  function AetheryteOrder(env: SortEnv, marks: seq<MarkData>): (r: Option<seq<SortData>>)
    ensures r.None? <==> exists i :: 0 <= i < |marks| && TravelDataOf(env.travel, marks[i]).Failure?
    ensures r.Some? ==> |r.value| == |marks|
  {
    var data := GetTravelData(env.travel, marks);
    if data.errors != [] then None
    else
      var byDistance := SortBy(data.values, Distance);
      var slotted := if env.config.aetheryteSortInstances then SortInstances(byDistance) else byDistance;
      var together := if env.config.aetheryteKeepMapsTogether then AetheryteKeepMapsTogether(slotted) else slotted;
      Some(if env.config.aetheryteCompleteMaps then AetheryteCompleteMaps(together) else together)
  }

  /** `SortByAetheryte`: the marks in aetheryte order, or unchanged when any
      mark lacks a spawn point or a travel node. */
  function SortByAetheryte(env: SortEnv, marks: seq<MarkData>): (r: seq<MarkData>)
    ensures (exists i :: 0 <= i < |marks| && TravelDataOf(env.travel, marks[i]).Failure?) ==> r == marks
  {
    match AetheryteOrder(env, marks)
    case None => marks
    case Some(order) => Marks(order)
  }

  /** The aetheryte order rearranges the travel data. */
  lemma {:induction false} AetheryteOrderPermutes(env: SortEnv, marks: seq<MarkData>)
    requires AetheryteOrder(env, marks).Some?
    ensures multiset(AetheryteOrder(env, marks).value) == multiset(GetTravelData(env.travel, marks).values)
  {
    var byDistance := SortBy(GetTravelData(env.travel, marks).values, Distance);
    SortByPermutes(GetTravelData(env.travel, marks).values, Distance);
    SortInstancesPermutes(byDistance);
  }

  /** Sorting by aetheryte rearranges the marks. */
  lemma {:induction false} SortByAetheryteRearranges(env: SortEnv, marks: seq<MarkData>)
    ensures multiset(SortByAetheryte(env, marks)) == multiset(marks)
  {
    if AetheryteOrder(env, marks).Some? {
      var data := GetTravelData(env.travel, marks);
      AetheryteOrderPermutes(env, marks);
      MarksPermutation(AetheryteOrder(env, marks).value, data.values);
    }
  }

  /** With no refinement enabled, the marks come in ascending distance from
      their nearest aetheryte, ties in list order. */
  lemma {:induction false} AetheryteOrderByDistance(env: SortEnv, marks: seq<MarkData>)
    requires !env.config.aetheryteSortInstances && !env.config.aetheryteKeepMapsTogether && !env.config.aetheryteCompleteMaps
    requires AetheryteOrder(env, marks).Some?
    ensures SortedBy(AetheryteOrder(env, marks).value, Distance)
    ensures forall d: real :: Filter(HasKey(Distance, d), AetheryteOrder(env, marks).value)
                             == Filter(HasKey(Distance, d), GetTravelData(env.travel, marks).values)
  {
    var values := GetTravelData(env.travel, marks).values;
    SortByOrders(values, Distance);
    forall d: real ensures Filter(HasKey(Distance, d), SortBy(values, Distance)) == Filter(HasKey(Distance, d), values) {
      SortByStable(values, Distance, HasKey(Distance, d));
    }
  }

  /** With map completion on, each (territory, instance) pair forms one
      block; with maps also kept together, completing the maps does not
      split a territory's block. */
  lemma {:induction false} AetheryteOrderCompletesMaps(env: SortEnv, marks: seq<MarkData>)
    requires env.config.aetheryteCompleteMaps
    requires AetheryteOrder(env, marks).Some?
    ensures Contiguous(AetheryteOrder(env, marks).value, MapInstanceOf)
    ensures env.config.aetheryteKeepMapsTogether ==> Contiguous(AetheryteOrder(env, marks).value, TerritoryOf)
  {
    if env.config.aetheryteKeepMapsTogether {
      AetheryteOrderKeepsMapsTogether(env, marks);
    }
  }

  /** With maps kept together, each territory forms one block, whether or
      not the maps are then completed. */
  lemma {:induction false} AetheryteOrderKeepsMapsTogether(env: SortEnv, marks: seq<MarkData>)
    requires env.config.aetheryteKeepMapsTogether
    requires AetheryteOrder(env, marks).Some?
    ensures Contiguous(AetheryteOrder(env, marks).value, TerritoryOf)
  {
    var values := GetTravelData(env.travel, marks).values;
    var byDistance := SortBy(values, Distance);
    var slotted := if env.config.aetheryteSortInstances then SortInstances(byDistance) else byDistance;
    var together := AetheryteKeepMapsTogether(slotted);
    if env.config.aetheryteCompleteMaps {
      GroupByKeepsCoarseBlocks(together, MapInstanceOf, TerritoryOf, (k: (UInt32, UInt32)) => k.0);
    }
  }

  // ---------------------------------------------------------------------
  // Criteria

  /** `SortMarks`: one criterion applied to the marks. Only the Map
      criterion can fail: its territory-order lookup throws for a patch with
      no entry. */
  function SortMarks(env: SortEnv, c: SortCriteria, marks: seq<MarkData>): (r: Option<seq<MarkData>>)
    ensures r.None? <==> c == Map && !MapKeyed(env, marks)
  {
    match c
    case Aetheryte => Some(SortByAetheryte(env, marks))
    case Map => if MapKeyed(env, marks) then Some(SortBy(marks, MapKey(env))) else None
    case _ => Some(SortBy(marks, Key(env, c, multiset(marks))))
  }

  /** Every criterion rearranges the marks. */
  lemma {:induction false} SortMarksRearranges(env: SortEnv, c: SortCriteria, marks: seq<MarkData>)
    requires SortMarks(env, c, marks).Some?
    ensures multiset(SortMarks(env, c, marks).value) == multiset(marks)
  {
    if c == SortCriteria.Aetheryte {
      SortByAetheryteRearranges(env, marks);
    } else if c == Map {
      SortByPermutes(marks, MapKey(env));
    } else {
      SortByPermutes(marks, Key(env, c, multiset(marks)));
    }
  }

  /** A key criterion is a stable sort on its key. */
  lemma {:induction false} SortMarksIsStableSort(env: SortEnv, c: SortCriteria, marks: seq<MarkData>)
    requires c != SortCriteria.Aetheryte && (c == Map ==> MapKeyed(env, marks))
    ensures SortMarks(env, c, marks) == Some(SortBy(marks, Key(env, c, multiset(marks))))
    ensures SortedBy(SortMarks(env, c, marks).value, Key(env, c, multiset(marks)))
  {
    SortByOrders(marks, Key(env, c, multiset(marks)));
  }

  /** The criteria applied left to right, each to the previous result. */
  function ApplyCriteria(env: SortEnv, cs: seq<SortCriteria>, marks: seq<MarkData>): (r: Option<seq<MarkData>>)
    ensures r.Some? ==> |r.value| == |marks|
    decreases |cs|
  {
    if cs == [] then Some(marks)
    else
      match SortMarks(env, cs[0], marks)
      case None => None
      case Some(next) =>
        SortMarksRearranges(env, cs[0], marks);
        assert |next| == |multiset(next)|;
        ApplyCriteria(env, cs[1..], next)
  }

  /** Applying the criteria only rearranges the marks. */
  lemma {:induction false} ApplyCriteriaRearranges(env: SortEnv, cs: seq<SortCriteria>, marks: seq<MarkData>)
    requires ApplyCriteria(env, cs, marks).Some?
    ensures multiset(ApplyCriteria(env, cs, marks).value) == multiset(marks)
    decreases |cs|
  {
    if cs != [] {
      var next := SortMarks(env, cs[0], marks).value;
      SortMarksRearranges(env, cs[0], marks);
      ApplyCriteriaRearranges(env, cs[1..], next);
    }
  }

  /** Applying one more criterion at the end sorts the result once more. */
  lemma {:induction false} ApplyCriteriaSnoc(env: SortEnv, cs: seq<SortCriteria>, c: SortCriteria, marks: seq<MarkData>)
    ensures ApplyCriteria(env, cs + [c], marks)
         == match ApplyCriteria(env, cs, marks)
            case None => None
            case Some(s) => SortMarks(env, c, s)
    decreases |cs|
  {
    if cs == [] {
      assert [] + [c] == [c];
    } else {
      assert (cs + [c])[0] == cs[0];
      assert (cs + [c])[1..] == cs[1..] + [c];
      match SortMarks(env, cs[0], marks)
      case None =>
      case Some(next) => ApplyCriteriaSnoc(env, cs[1..], c, next);
    }
  }

  /** The keys of a list of key criteria. */
  function Keys(env: SortEnv, cs: seq<SortCriteria>, marks: multiset<MarkData>): (r: seq<MarkData -> real>)
    requires SortCriteria.Aetheryte !in cs
    ensures |r| == |cs|
    ensures forall i :: 0 <= i < |cs| ==> r[i] == Key(env, cs[i], marks)
  {
    seq(|cs|, i requires 0 <= i < |cs| => Key(env, cs[i], marks))
  }

  lemma {:induction false} ReverseCons<T>(s: seq<T>)
    requires s != []
    ensures Reverse(s) == Reverse(s[1..]) + [s[0]]
  {
  }

  lemma {:induction false} KeysTail(env: SortEnv, cs: seq<SortCriteria>, marks: multiset<MarkData>)
    requires cs != [] && SortCriteria.Aetheryte !in cs
    ensures Keys(env, cs, marks)[1..] == Keys(env, cs[1..], marks)
    ensures Keys(env, cs, marks)[0] == Key(env, cs[0], marks)
  {
  }

  /** One criterion in front of the rest: the rest's sort, then a stable
      sort on the front criterion's key. */
  lemma {:induction false} CriteriaStep(env: SortEnv, cs: seq<SortCriteria>, marks: seq<MarkData>, s1: seq<MarkData>)
    requires cs != [] && SortCriteria.Aetheryte !in cs
    requires Map in cs ==> MapKeyed(env, marks)
    requires ApplyCriteria(env, Reverse(cs[1..]), marks) == Some(s1)
    requires multiset(s1) == multiset(marks)
    ensures ApplyCriteria(env, Reverse(cs), marks) == Some(SortBy(s1, Key(env, cs[0], multiset(marks))))
  {
    ReverseCons(cs);
    ApplyCriteriaSnoc(env, Reverse(cs[1..]), cs[0], marks);
    assert MapKeyed(env, s1) == MapKeyed(env, marks) by {
      forall m ensures m in s1 <==> m in marks {
        assert m in s1 <==> m in multiset(s1);
      }
    }
    SortMarksIsStableSort(env, cs[0], s1);
  }

  /** The configured order with only key criteria: applying the criteria
      from last to first is the lexicographic multi-key sort. */
  lemma {:induction false} CriteriaAreMultiKeySort(env: SortEnv, cs: seq<SortCriteria>, marks: seq<MarkData>)
    requires SortCriteria.Aetheryte !in cs
    requires Map in cs ==> MapKeyed(env, marks)
    ensures ApplyCriteria(env, Reverse(cs), marks) == Some(SortAll(Keys(env, cs, multiset(marks)), marks))
  {
    var keys := Keys(env, cs, multiset(marks));
    if cs == [] {
      assert Reverse(cs) == [];
    } else {
      CriteriaAreMultiKeySort(env, cs[1..], marks);
      KeysTail(env, cs, multiset(marks));
      var s1 := SortAll(keys[1..], marks);
      SortAllPermutes(keys[1..], marks);
      CriteriaStep(env, cs, marks, s1);
    }
  }

  // ---------------------------------------------------------------------
  // SortEntries

  predicate AllParsed(results: seq<MarkResult>) {
    forall i :: 0 <= i < |results| ==> results[i].Success?
  }

  /** The parsed marks, in line order. */
  function ParsedMarks(results: seq<MarkResult>): (r: seq<MarkData>)
    requires AllParsed(results)
    ensures |r| == |results|
    ensures forall i :: 0 <= i < |results| ==> r[i] == results[i].value
  {
    seq(|results|, i requires 0 <= i < |results| => results[i].value)
  }

  /** The raw lines of the marks, in order. */
  function RawTexts(marks: seq<MarkData>): (r: seq<string>)
    ensures |r| == |marks|
    ensures forall i :: 0 <= i < |marks| ==> r[i] == marks[i].rawText
  {
    seq(|marks|, i requires 0 <= i < |marks| => marks[i].rawText)
  }

  /** `SortEntries`: a payload with any unparsable line comes back as it
      was; otherwise the marks' raw lines in sorted order, one per line.
      None stands for the exception a Map criterion with a missing patch
      entry throws. */
  function SortEntries(env: SortEnv, parsers: seq<LineParser>, payload: string): (r: Option<string>)
    ensures (exists i :: 0 <= i < |Lines(payload)| && ParseLine(parsers, Lines(payload)[i]).Failure?)
            ==> r == Some(payload)
  {
    var results := ParsePayload(parsers, payload);
    if !AllParsed(results) then Some(payload)
    else
      match ApplyCriteria(env, Reverse(env.config.activeSortOrder), ParsedMarks(results))
      case None => None
      case Some(sorted) => Some(Join(RawTexts(sorted), "\n"))
  }

  /** When every line parses, the answer is the parsed marks' raw lines in
      some rearrangement, joined by line breaks. */
  lemma {:induction false} SortEntriesRearranges(env: SortEnv, parsers: seq<LineParser>, payload: string)
    requires AllParsed(ParsePayload(parsers, payload))
    requires SortEntries(env, parsers, payload).Some?
    ensures exists sorted: seq<MarkData> ::
      multiset(sorted) == multiset(ParsedMarks(ParsePayload(parsers, payload)))
      && SortEntries(env, parsers, payload).value == Join(RawTexts(sorted), "\n")
  {
    var marks := ParsedMarks(ParsePayload(parsers, payload));
    var sorted := ApplyCriteria(env, Reverse(env.config.activeSortOrder), marks).value;
    ApplyCriteriaRearranges(env, Reverse(env.config.activeSortOrder), marks);
    assert multiset(sorted) == multiset(marks);
  }

  /** With only key criteria, the answer lists the raw lines ordered
      lexicographically by the criteria's keys, full ties in line order. */
  lemma {:induction false} SortEntriesOrdersByKeys(env: SortEnv, parsers: seq<LineParser>, payload: string)
    requires AllParsed(ParsePayload(parsers, payload))
    requires SortCriteria.Aetheryte !in env.config.activeSortOrder
    requires Map in env.config.activeSortOrder ==> MapKeyed(env, ParsedMarks(ParsePayload(parsers, payload)))
    ensures var marks := ParsedMarks(ParsePayload(parsers, payload));
            var keys := Keys(env, env.config.activeSortOrder, multiset(marks));
            && SortEntries(env, parsers, payload) == Some(Join(RawTexts(SortAll(keys, marks)), "\n"))
            && LexSorted(keys, SortAll(keys, marks))
            && forall P: MarkData -> bool ::
                 (forall i, x, y :: 0 <= i < |keys| && P(x) && P(y) ==> keys[i](x) == keys[i](y))
                 ==> Filter(P, SortAll(keys, marks)) == Filter(P, marks)
  {
    var marks := ParsedMarks(ParsePayload(parsers, payload));
    var keys := Keys(env, env.config.activeSortOrder, multiset(marks));
    CriteriaAreMultiKeySort(env, env.config.activeSortOrder, marks);
    SortAllOrders(keys, marks);
    forall P: MarkData -> bool | (forall i, x, y :: 0 <= i < |keys| && P(x) && P(y) ==> keys[i](x) == keys[i](y))
      ensures Filter(P, SortAll(keys, marks)) == Filter(P, marks)
    {
      SortAllStable(keys, marks, P);
    }
  }

  /** Reversing an order whose last criterion is c puts c first. */
  lemma {:induction false} ReverseSnoc<T>(s: seq<T>, c: T)
    ensures Reverse(s + [c]) == [c] + Reverse(s)
  {
    var r, t := Reverse(s + [c]), [c] + Reverse(s);
    assert forall i :: 0 <= i < |r| ==> r[i] == t[i];
  }

  /** With the aetheryte criterion last and only once (as in the default
      order Patch, Map, Instance, Aetheryte), the aetheryte sort runs first
      and the key criteria then sort its output as one multi-key sort. */
  lemma {:induction false} AetheryteLastSortsItsOutput(env: SortEnv, cs: seq<SortCriteria>, marks: seq<MarkData>)
    requires SortCriteria.Aetheryte !in cs
    requires Map in cs ==> MapKeyed(env, marks)
    ensures ApplyCriteria(env, Reverse(cs + [SortCriteria.Aetheryte]), marks)
            == Some(SortAll(Keys(env, cs, multiset(marks)), SortByAetheryte(env, marks)))
  {
    var a := SortByAetheryte(env, marks);
    var order := [SortCriteria.Aetheryte] + Reverse(cs);
    ReverseSnoc(cs, SortCriteria.Aetheryte);
    assert order[1..] == Reverse(cs);
    assert ApplyCriteria(env, order, marks) == ApplyCriteria(env, Reverse(cs), a);
    SortByAetheryteRearranges(env, marks);
    assert MapKeyed(env, a) == MapKeyed(env, marks) by {
      forall m ensures m in a <==> m in marks {
        assert m in a <==> m in multiset(a);
      }
    }
    CriteriaAreMultiKeySort(env, cs, a);
  }

  /** With the aetheryte criterion last, the answer lists the raw lines of
      the aetheryte order re-sorted lexicographically by the other criteria,
      full ties in aetheryte order. */
  lemma {:induction false} SortEntriesAetheryteLast(env: SortEnv, parsers: seq<LineParser>, payload: string, cs: seq<SortCriteria>)
    requires AllParsed(ParsePayload(parsers, payload))
    requires env.config.activeSortOrder == cs + [SortCriteria.Aetheryte] && SortCriteria.Aetheryte !in cs
    requires Map in cs ==> MapKeyed(env, ParsedMarks(ParsePayload(parsers, payload)))
    ensures var marks := ParsedMarks(ParsePayload(parsers, payload));
            var keys := Keys(env, cs, multiset(marks));
            var byAetheryte := SortByAetheryte(env, marks);
            && SortEntries(env, parsers, payload) == Some(Join(RawTexts(SortAll(keys, byAetheryte)), "\n"))
            && LexSorted(keys, SortAll(keys, byAetheryte))
            && forall P: MarkData -> bool ::
                 (forall i, x, y :: 0 <= i < |keys| && P(x) && P(y) ==> keys[i](x) == keys[i](y))
                 ==> Filter(P, SortAll(keys, byAetheryte)) == Filter(P, byAetheryte)
  {
    var marks := ParsedMarks(ParsePayload(parsers, payload));
    var keys := Keys(env, cs, multiset(marks));
    var byAetheryte := SortByAetheryte(env, marks);
    AetheryteLastSortsItsOutput(env, cs, marks);
    SortAllOrders(keys, byAetheryte);
    forall P: MarkData -> bool | (forall i, x, y :: 0 <= i < |keys| && P(x) && P(y) ==> keys[i](x) == keys[i](y))
      ensures Filter(P, SortAll(keys, byAetheryte)) == Filter(P, byAetheryte)
    {
      SortAllStable(keys, byAetheryte, P);
    }
  }

  /** The only failure: a Map criterion meets a mark whose patch has no
      territory order. */
  lemma {:induction false} SortEntriesFailsOnlyOnMissingPatch(env: SortEnv, parsers: seq<LineParser>, payload: string)
    requires SortEntries(env, parsers, payload).None?
    ensures Map in env.config.activeSortOrder
  {
    var results := ParsePayload(parsers, payload);
    var marks := ParsedMarks(results);
    ApplyCriteriaNeedsMap(env, Reverse(env.config.activeSortOrder), marks);
  }

  lemma {:induction false} ApplyCriteriaNeedsMap(env: SortEnv, cs: seq<SortCriteria>, marks: seq<MarkData>)
    requires ApplyCriteria(env, cs, marks).None?
    ensures Map in cs
    decreases |cs|
  {
    if SortMarks(env, cs[0], marks).Some? {
      ApplyCriteriaNeedsMap(env, cs[1..], SortMarks(env, cs[0], marks).value);
    }
  }
}
