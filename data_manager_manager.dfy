/** `DataManagerManager`: the dictionaries from names to game ids, built once
    from the game's sheets in every client language. Map names are looked up
    ignoring case; mark names ignoring case and apostrophes. */
module DataManagerManager {
  import opened Wrappers
  import opened Utils
  import opened Models
  import opened Text

  /** Adding entries in order, keeping the first value for each name: both
      `Dictionary.TryAdd` in a loop and `DistinctBy` followed by
      `ToImmutableDictionary` do this. */
  function FirstWins<V>(entries: seq<(string, V)>): (r: map<string, V>)
    ensures forall k :: k in r <==> exists i :: 0 <= i < |entries| && entries[i].0 == k
    ensures forall i :: 0 <= i < |entries| && FirstOf(entries, i) ==> r[entries[i].0] == entries[i].1
    decreases |entries|
  {
    if entries == [] then map[]
    else
      var m := FirstWins(entries[..|entries| - 1]);
      var last := entries[|entries| - 1];
      if last.0 in m then
        FirstWinsKeep(entries, m);
        m
      else
        FirstWinsAdd(entries, m);
        m[last.0 := last.1]
  }

  /** r keys exactly the names of entries, each to its first value. */
  ghost predicate KeysFirstValues<V>(entries: seq<(string, V)>, r: map<string, V>) {
    && (forall k :: k in r <==> exists i :: 0 <= i < |entries| && entries[i].0 == k)
    && (forall i :: 0 <= i < |entries| && FirstOf(entries, i) ==> r[entries[i].0] == entries[i].1)
  }

  /** A last entry whose name is already keyed adds nothing. */
  lemma {:induction false} FirstWinsKeep<V>(entries: seq<(string, V)>, m: map<string, V>)
    requires entries != [] && KeysFirstValues(entries[..|entries| - 1], m)
    requires entries[|entries| - 1].0 in m
    ensures KeysFirstValues(entries, m)
  {
    var n := |entries| - 1;
    var init, last := entries[..n], entries[n];
    var w :| 0 <= w < n && init[w].0 == last.0;
    forall k
      ensures k in m <==> exists i :: 0 <= i < |entries| && entries[i].0 == k
    {
      if k in m {
        var i :| 0 <= i < n && init[i].0 == k;
        assert entries[i].0 == k;
      }
      if exists i :: 0 <= i < |entries| && entries[i].0 == k {
        var i :| 0 <= i < |entries| && entries[i].0 == k;
        var i' := if i < n then i else w;
        assert init[i'].0 == k;
      }
    }
    forall i | 0 <= i < |entries| && FirstOf(entries, i)
      ensures m[entries[i].0] == entries[i].1
    {
      assert !FirstOf(entries, n) by {
        assert entries[w] == init[w];
      }
      assert i < n;
      assert FirstOf(init, i) by {
        forall j | 0 <= j < i ensures init[j].0 != init[i].0 {
          assert init[j] == entries[j] && init[i] == entries[i];
        }
      }
    }
  }

  /** A last entry with a new name is keyed to its own value. */
  lemma {:induction false} FirstWinsAdd<V>(entries: seq<(string, V)>, m: map<string, V>)
    requires entries != [] && KeysFirstValues(entries[..|entries| - 1], m)
    requires entries[|entries| - 1].0 !in m
    ensures KeysFirstValues(entries, m[entries[|entries| - 1].0 := entries[|entries| - 1].1])
  {
    var n := |entries| - 1;
    var init, last := entries[..n], entries[n];
    var r := m[last.0 := last.1];
    forall k
      ensures k in r <==> exists i :: 0 <= i < |entries| && entries[i].0 == k
    {
      if k in m {
        var i :| 0 <= i < n && init[i].0 == k;
        assert entries[i].0 == k;
      }
      if exists i :: 0 <= i < |entries| && entries[i].0 == k {
        var i :| 0 <= i < |entries| && entries[i].0 == k;
        if i < n {
          assert init[i].0 == k;
        }
      }
    }
    forall i | 0 <= i < |entries| && FirstOf(entries, i)
      ensures r[entries[i].0] == entries[i].1
    {
      if i < n {
        assert init[i] == entries[i];
        assert init[i].0 in m;
        assert FirstOf(init, i) by {
          forall j | 0 <= j < i ensures init[j].0 != init[i].0 {
            assert init[j] == entries[j];
          }
        }
      }
    }
  }

  /** Entry i holds the first occurrence of its name. */
  predicate FirstOf<V>(entries: seq<(string, V)>, i: int)
    requires 0 <= i < |entries|
  {
    forall j :: 0 <= j < i ==> entries[j].0 != entries[i].0
  }

  lemma {:induction false} FirstWinsSnoc<V>(entries: seq<(string, V)>, e: (string, V))
    ensures FirstWins(entries + [e]) ==
      if e.0 in FirstWins(entries) then FirstWins(entries) else FirstWins(entries)[e.0 := e.1]
  {
    assert (entries + [e])[..|entries|] == entries;
  }

  // ---------------------------------------------------------------- maps

  /** A row of the TerritoryType sheet: its id, its PlaceName row and its
      Map row. */
  datatype TerritoryRow = TerritoryRow(rowId: UInt32, placeNameRow: UInt32, mapRow: UInt32)

  /** One client language's TerritoryType and PlaceName sheets, either of
      which may be missing. */
  datatype LanguageSheets = LanguageSheets(territories: Option<seq<TerritoryRow>>, placeNames: Option<map<UInt32, string>>)

  /** The entry a territory contributes: its lower-cased place name and its
      map data, or nothing when its PlaceName row is missing. */
  function TerritoryEntry(placeNames: map<UInt32, string>, t: TerritoryRow): seq<(string, MapData)> {
    if t.placeNameRow in placeNames then [(ToLower(placeNames[t.placeNameRow]), MapData(t.rowId, t.mapRow))] else []
  }

  /** The entries of the first n territories of one language. */
  function TerritoryEntries(placeNames: map<UInt32, string>, ts: seq<TerritoryRow>): (r: seq<(string, MapData)>)
    ensures forall e :: e in r <==> exists t :: t in ts && e in TerritoryEntry(placeNames, t)
    decreases |ts|
  {
    if ts == [] then []
    else
      var init := ts[..|ts| - 1];
      assert forall t :: t in ts <==> t in init || t == ts[|ts| - 1];
      TerritoryEntries(placeNames, init) + TerritoryEntry(placeNames, ts[|ts| - 1])
  }

  /** The entries one language contributes; none when a sheet is missing. */
  function LanguageEntries(l: LanguageSheets): (r: seq<(string, MapData)>)
    ensures l.territories.None? || l.placeNames.None? ==> r == []
  {
    if l.territories.None? || l.placeNames.None? then []
    else TerritoryEntries(l.placeNames.value, l.territories.value)
  }

  /** The entries of every language, in the order of the languages. */
  function MapEntries(languages: seq<LanguageSheets>): (r: seq<(string, MapData)>)
    ensures forall e :: e in r <==> exists l :: l in languages && e in LanguageEntries(l)
    decreases |languages|
  {
    if languages == [] then []
    else
      var init := languages[..|languages| - 1];
      assert forall l :: l in languages <==> l in init || l == languages[|languages| - 1];
      MapEntries(init) + LanguageEntries(languages[|languages| - 1])
  }

  lemma {:induction false} MapEntriesStep(languages: seq<LanguageSheets>, li: nat)
    requires li < |languages|
    ensures MapEntries(languages[..li + 1]) == MapEntries(languages[..li]) + LanguageEntries(languages[li])
  {
    assert languages[..li + 1][..li] == languages[..li];
  }

  lemma {:induction false} TerritoryEntriesStep(placeNames: map<UInt32, string>, ts: seq<TerritoryRow>, ti: nat)
    requires ti < |ts|
    ensures TerritoryEntries(placeNames, ts[..ti + 1]) == TerritoryEntries(placeNames, ts[..ti]) + TerritoryEntry(placeNames, ts[ti])
  {
    assert ts[..ti + 1][..ti] == ts[..ti];
  }

  /** Adding one territory's entry to the dictionary built so far. */
  lemma {:induction false} AddTerritoryStep(before: seq<(string, MapData)>, placeSheet: map<UInt32, string>,
                         ts: seq<TerritoryRow>, ti: nat)
    requires ti < |ts|
    ensures var sofar := FirstWins(before + TerritoryEntries(placeSheet, ts[..ti]));
      var t := ts[ti];
      FirstWins(before + TerritoryEntries(placeSheet, ts[..ti + 1])) ==
        if t.placeNameRow !in placeSheet || ToLower(placeSheet[t.placeNameRow]) in sofar then sofar
        else sofar[ToLower(placeSheet[t.placeNameRow]) := MapData(t.rowId, t.mapRow)]
  {
    var sofar := before + TerritoryEntries(placeSheet, ts[..ti]);
    TerritoryEntriesStep(placeSheet, ts, ti);
    var t := ts[ti];
    assert before + TerritoryEntries(placeSheet, ts[..ti + 1]) == sofar + TerritoryEntry(placeSheet, t);
    if t.placeNameRow !in placeSheet {
      assert sofar + [] == sofar;
    } else {
      FirstWinsSnoc(sofar, (ToLower(placeSheet[t.placeNameRow]), MapData(t.rowId, t.mapRow)));
    }
  }

  /** The inner loop of `LoadMapData`: one language's territories added to
      the dictionary. */
  method AddTerritories(mapDict: map<string, MapData>, placeSheet: map<UInt32, string>,
                        territorySheet: seq<TerritoryRow>, ghost before: seq<(string, MapData)>)
    returns (added: map<string, MapData>)
    requires mapDict == FirstWins(before)
    ensures added == FirstWins(before + TerritoryEntries(placeSheet, territorySheet))
  {
    assert before + [] == before;
    added := mapDict;
    for ti := 0 to |territorySheet|
      invariant added == FirstWins(before + TerritoryEntries(placeSheet, territorySheet[..ti]))
    {
      AddTerritoryStep(before, placeSheet, territorySheet, ti);
      var territory := territorySheet[ti];
      if territory.placeNameRow !in placeSheet {
        continue;
      }
      var placeName := ToLower(placeSheet[territory.placeNameRow]);
      var mapData := MapData(territory.rowId, territory.mapRow);
      if placeName !in added {
        added := added[placeName := mapData];
      }
    }
    assert territorySheet[..|territorySheet|] == territorySheet;
  }

  /** `LoadMapData`: every language's territories added by place name, the
      first one added for a name kept; a language missing either sheet is
      skipped. */
  method LoadMapData(languages: seq<LanguageSheets>) returns (mapDict: map<string, MapData>)
    ensures mapDict == FirstWins(MapEntries(languages))
  {
    mapDict := map[];
    for li := 0 to |languages|
      invariant mapDict == FirstWins(MapEntries(languages[..li]))
    {
      MapEntriesStep(languages, li);
      var language := languages[li];
      if language.territories.None? || language.placeNames.None? {
        assert MapEntries(languages[..li]) + [] == MapEntries(languages[..li]);
        continue;
      }
      mapDict := AddTerritories(mapDict, language.placeNames.value, language.territories.value, MapEntries(languages[..li]));
    }
    assert languages[..|languages|] == languages;
  }

  // ---------------------------------------------------------------- marks

  /** A row of the BNpcName sheet: its id and its singular name. */
  datatype NameRow = NameRow(rowId: UInt32, singular: string)

  /** A mark name as the dictionary keys it: lower case, apostrophes
      removed (the trackers put the apostrophe of "Li'l" in different
      places). */
  function NormaliseMobName(name: string): (r: string)
    ensures IsLower(r) && '\'' !in r
  {
    var lower := ToLower(name);
    ToLowerIsLower(name);
    var r := Without(lower, '\'');
    assert forall i :: 0 <= i < |r| ==> r[i] in lower;
    r
  }

  /** The entries one language's BNpcName sheet contributes: the names of
      notorious monsters only. */
  function NameEntries(nmNameIds: set<UInt32>, names: seq<NameRow>): (r: seq<(string, UInt32)>)
    ensures forall e :: e in r <==> exists n :: n in names && n.rowId in nmNameIds && e == (NormaliseMobName(n.singular), n.rowId)
  {
    if names == [] then []
    else
      assert forall n :: n in names <==> n == names[0] || n in names[1..];
      (if names[0].rowId in nmNameIds then [(NormaliseMobName(names[0].singular), names[0].rowId)] else [])
        + NameEntries(nmNameIds, names[1..])
  }

  /** Every language's entries, in the order of the languages; a missing
      sheet contributes nothing. */
  function MobEntries(nmNameIds: set<UInt32>, languages: seq<Option<seq<NameRow>>>): (r: seq<(string, UInt32)>)
    ensures forall e :: e in r <==> exists l :: l in languages && l.Some? && e in NameEntries(nmNameIds, l.value)
  {
    if languages == [] then []
    else
      assert forall l :: l in languages <==> l == languages[0] || l in languages[1..];
      (if languages[0].Some? then NameEntries(nmNameIds, languages[0].value) else [])
        + MobEntries(nmNameIds, languages[1..])
  }

  /** The BNpcName rows the NotoriousMonster sheet refers to; none when
      that sheet is missing. */
  function NotoriousNameIds(nmSheet: Option<seq<UInt32>>): (r: set<UInt32>)
    ensures nmSheet.Some? ==> forall id :: id in r <==> id in nmSheet.value
    ensures nmSheet.None? ==> r == {}
  {
    if nmSheet.None? then {} else set id | id in nmSheet.value
  }

  /** `LoadMobIds`: the normalised names of notorious monsters in every
      language, the first id for each name kept. */
  function LoadMobIds(nmSheet: Option<seq<UInt32>>, languages: seq<Option<seq<NameRow>>>): (r: map<string, UInt32>)
    ensures forall k :: k in r ==> IsLower(k) && '\'' !in k
    ensures forall k :: k in r ==> r[k] in NotoriousNameIds(nmSheet)
  {
    var entries := MobEntries(NotoriousNameIds(nmSheet), languages);
    var r := FirstWins(entries);
    assert forall k :: k in r ==> IsLower(k) && '\'' !in k && r[k] in NotoriousNameIds(nmSheet) by {
      forall k | k in r
        ensures IsLower(k) && '\'' !in k && r[k] in NotoriousNameIds(nmSheet)
      {
        var i := FirstIndex(entries, k);
        assert entries[i] in entries;
      }
    }
    r
  }

  /** The position of a name's first entry. */
  function FirstIndex<V>(entries: seq<(string, V)>, k: string): (i: nat)
    requires exists i :: 0 <= i < |entries| && entries[i].0 == k
    ensures i < |entries| && entries[i].0 == k && FirstOf(entries, i)
  {
    if entries[0].0 == k then 0
    else
      assert exists i :: 0 <= i < |entries[1..]| && entries[1..][i].0 == k by {
        var i :| 0 <= i < |entries| && entries[i].0 == k;
        assert entries[1..][i - 1].0 == k;
      }
      1 + FirstIndex(entries[1..], k)
  }

  // ---------------------------------------------------------------- lookups

  /** The two dictionaries, once loaded. */
  datatype DataManagerManager = DataManagerManager(mobIdsByName: map<string, UInt32>, mapDataByName: map<string, MapData>) {

    /** `GetMobIdByName`: the id under the normalised name, if any. */
    function GetMobIdByName(mobName: string): (r: Option<UInt32>)
      ensures r.Some? <==> NormaliseMobName(mobName) in mobIdsByName
      ensures r.Some? ==> r.value in mobIdsByName.Values
    {
      var key := NormaliseMobName(mobName);
      if key in mobIdsByName then Some(mobIdsByName[key]) else None
    }

    /** `GetMapDataByName`: the map data under the lower-cased name, if any. */
    function GetMapDataByName(mapName: string): (r: Option<MapData>)
      ensures r.Some? <==> ToLower(mapName) in mapDataByName
      ensures r.Some? ==> r.value in mapDataByName.Values
    {
      var key := ToLower(mapName);
      if key in mapDataByName then Some(mapDataByName[key]) else None
    }
  }

  /** Mark names that differ only in case and apostrophes find the same id. */
  lemma {:induction false} MobLookupIgnoresCaseAndApostrophes(d: DataManagerManager, a: string, b: string)
    requires Without(ToLower(a), '\'') == Without(ToLower(b), '\'')
    ensures d.GetMobIdByName(a) == d.GetMobIdByName(b)
  {
  }

  /** Map names that differ only in case find the same map. */
  lemma {:induction false} MapLookupIgnoresCase(d: DataManagerManager, a: string, b: string)
    requires ToLower(a) == ToLower(b)
    ensures d.GetMapDataByName(a) == d.GetMapDataByName(b)
  {
  }

  /** Every notorious monster's name, in any loaded language and spelled in
      any case, finds an id: the one of the first notorious monster of that
      name. */
  lemma {:induction false} FindsEveryNotoriousMonster(nmSheet: Option<seq<UInt32>>, languages: seq<Option<seq<NameRow>>>,
                                   l: Option<seq<NameRow>>, n: NameRow, name: string)
    requires l in languages && l.Some? && n in l.value && n.rowId in NotoriousNameIds(nmSheet)
    requires NormaliseMobName(name) == NormaliseMobName(n.singular)
    ensures var d := DataManagerManager(LoadMobIds(nmSheet, languages), map[]);
      && d.GetMobIdByName(name).Some?
      && var entries := MobEntries(NotoriousNameIds(nmSheet), languages);
         d.GetMobIdByName(name).value == entries[FirstIndex(entries, NormaliseMobName(name))].1
  {
    var entries := MobEntries(NotoriousNameIds(nmSheet), languages);
    var e := (NormaliseMobName(n.singular), n.rowId);
    assert e in NameEntries(NotoriousNameIds(nmSheet), l.value);
    assert e in entries;
    var i :| 0 <= i < |entries| && entries[i] == e;
    var f := FirstIndex(entries, NormaliseMobName(name));
  }

  /** Every territory with a place name, in a language whose sheets load,
      is found under that name in any case. */
  lemma {:induction false} FindsEveryNamedTerritory(languages: seq<LanguageSheets>, mapDict: map<string, MapData>,
                                 l: LanguageSheets, t: TerritoryRow, name: string)
    requires mapDict == FirstWins(MapEntries(languages))
    requires l in languages && l.territories.Some? && l.placeNames.Some?
    requires t in l.territories.value && t.placeNameRow in l.placeNames.value
    requires ToLower(name) == ToLower(l.placeNames.value[t.placeNameRow])
    ensures var d := DataManagerManager(map[], mapDict);
      && d.GetMapDataByName(name).Some?
      && var entries := MapEntries(languages);
         d.GetMapDataByName(name).value == entries[FirstIndex(entries, ToLower(name))].1
  {
    var entries := MapEntries(languages);
    var e := (ToLower(l.placeNames.value[t.placeNameRow]), MapData(t.rowId, t.mapRow));
    assert e in TerritoryEntry(l.placeNames.value, t);
    assert e in LanguageEntries(l);
    assert e in entries;
    var i :| 0 <= i < |entries| && entries[i] == e;
    var f := FirstIndex(entries, ToLower(name));
  }

  /** Every map entry comes from a territory of some language whose
      place-name row exists. */
  lemma {:induction false} EntryFromTerritory(languages: seq<LanguageSheets>, e: (string, MapData))
    requires e in MapEntries(languages)
    ensures exists l, t ::
      && l in languages && l.territories.Some? && l.placeNames.Some?
      && t in l.territories.value && t.placeNameRow in l.placeNames.value
      && e == (ToLower(l.placeNames.value[t.placeNameRow]), MapData(t.rowId, t.mapRow))
  {
    var l :| l in languages && e in LanguageEntries(l);
    assert l.territories.Some? && l.placeNames.Some?;
    var places := l.placeNames.value;
    var t :| t in l.territories.value && e in TerritoryEntry(places, t);
    assert t.placeNameRow in places;
  }

  /** Whatever a map name finds comes from a territory of some language
      whose place name matches it ignoring case. */
  lemma {:induction false} FoundMapsAreTerritories(languages: seq<LanguageSheets>, mapDict: map<string, MapData>, name: string)
    requires mapDict == FirstWins(MapEntries(languages))
    requires DataManagerManager(map[], mapDict).GetMapDataByName(name).Some?
    ensures exists l, t ::
      && l in languages && l.territories.Some? && l.placeNames.Some?
      && t in l.territories.value && t.placeNameRow in l.placeNames.value
      && ToLower(l.placeNames.value[t.placeNameRow]) == ToLower(name)
      && DataManagerManager(map[], mapDict).GetMapDataByName(name).value == MapData(t.rowId, t.mapRow)
  {
    var entries := MapEntries(languages);
    var key := ToLower(name);
    var i := FirstIndex(entries, key);
    var e := entries[i];
    assert mapDict[key] == e.1;
    assert e in entries;
    EntryFromTerritory(languages, e);
  }
}
