/** `CiDataManager`: the importer's own name corrections. A JSON file maps
    each tracker to the names it spells differently from the game; the
    entries of all trackers are merged into one dictionary keyed by the
    lower-cased tracker name, and mark and map names are looked up in it
    ignoring case. */
module CiDataManager {
  import opened Wrappers
  import opened Text

  /** One tracker's section of the file: the tracker and its corrections
      (name as the tracker writes it, name as the game writes it). */
  type TrackerCorrections = (string, seq<(string, string)>)

  /** No two entries give the same name two different corrections. */
  ghost predicate Consistent(entries: seq<(string, string)>) {
    forall i, j :: 0 <= i < |entries| && 0 <= j < |entries| && entries[i].0 == entries[j].0 ==>
      entries[i].1 == entries[j].1
  }

  /** A tracker's corrections, keyed by the lower-cased tracker name. */
  function LowerKeys(cs: seq<(string, string)>): (r: seq<(string, string)>)
    ensures forall e :: e in r <==> exists c :: c in cs && e == (ToLower(c.0), c.1)
  {
    if cs == [] then []
    else
      var rest := LowerKeys(cs[1..]);
      assert forall c :: c in cs[1..] ==> c in cs;
      assert forall c :: c in cs ==> c == cs[0] || c in cs[1..];
      [(ToLower(cs[0].0), cs[0].1)] + rest
  }

  /** `SelectMany`: every tracker's corrections, one tracker after another. */
  function Entries(trackers: seq<TrackerCorrections>): (r: seq<(string, string)>)
    ensures forall e :: e in r <==> exists t, c :: t in trackers && c in t.1 && e == (ToLower(c.0), c.1)
  {
    if trackers == [] then []
    else
      var rest := Entries(trackers[1..]);
      assert forall t :: t in trackers[1..] ==> t in trackers;
      assert forall t :: t in trackers ==> t == trackers[0] || t in trackers[1..];
      LowerKeys(trackers[0].1) + rest
  }

  /** `ToImmutableDictionary`: adding a key a second time is accepted when
      the value is the same and throws (None) when it differs. */
  function Collect(entries: seq<(string, string)>): (r: Option<map<string, string>>)
    ensures r.Some? <==> Consistent(entries)
    ensures r.Some? ==> forall k :: k in r.value <==> exists i :: 0 <= i < |entries| && entries[i].0 == k
    ensures r.Some? ==> forall i :: 0 <= i < |entries| ==> entries[i].0 in r.value && r.value[entries[i].0] == entries[i].1
    decreases |entries|
  {
    if entries == [] then Some(map[])
    else
      var init := entries[..|entries| - 1];
      var last := entries[|entries| - 1];
      match Collect(init)
      case None =>
        InconsistentPrefix(entries);
        None
      case Some(m) =>
        if last.0 in m && m[last.0] != last.1 then
          CollectClash(entries, m);
          None
        else
          CollectAdd(entries, m);
          Some(m[last.0 := last.1])
  }

  /** m keys exactly the names of entries, each to its value. */
  ghost predicate Collected(entries: seq<(string, string)>, m: map<string, string>) {
    && (forall k :: k in m <==> exists i :: 0 <= i < |entries| && entries[i].0 == k)
    && (forall i :: 0 <= i < |entries| ==> entries[i].0 in m && m[entries[i].0] == entries[i].1)
  }

  /** A clash among the earlier entries is a clash among all of them. */
  lemma {:induction false} InconsistentPrefix(entries: seq<(string, string)>)
    requires entries != [] && !Consistent(entries[..|entries| - 1])
    ensures !Consistent(entries)
  {
    var init := entries[..|entries| - 1];
    var i, j :| 0 <= i < |init| && 0 <= j < |init| && init[i].0 == init[j].0 && init[i].1 != init[j].1;
    assert entries[i] == init[i] && entries[j] == init[j];
  }

  /** A last entry giving a keyed name another value is a clash. */
  lemma {:induction false} CollectClash(entries: seq<(string, string)>, m: map<string, string>)
    requires entries != [] && Collected(entries[..|entries| - 1], m)
    requires var last := entries[|entries| - 1]; last.0 in m && m[last.0] != last.1
    ensures !Consistent(entries)
  {
    var n := |entries| - 1;
    var init, last := entries[..n], entries[n];
    var i :| 0 <= i < n && init[i].0 == last.0;
    assert entries[i] == init[i];
    assert m[init[i].0] == init[i].1;
  }

  /** Otherwise the last entry is added and nothing clashes. */
  lemma {:induction false} CollectAdd(entries: seq<(string, string)>, m: map<string, string>)
    requires entries != [] && Consistent(entries[..|entries| - 1]) && Collected(entries[..|entries| - 1], m)
    requires var last := entries[|entries| - 1]; last.0 in m ==> m[last.0] == last.1
    ensures var last := entries[|entries| - 1]; Consistent(entries) && Collected(entries, m[last.0 := last.1])
  {
    var n := |entries| - 1;
    var init, last := entries[..n], entries[n];
    var r := m[last.0 := last.1];
    forall i | 0 <= i < n
      ensures entries[i] == init[i]
      ensures entries[i].0 == last.0 ==> entries[i].1 == last.1
      ensures entries[i].0 in r && r[entries[i].0] == entries[i].1
    {
      assert init[i].0 in m && m[init[i].0] == init[i].1;
    }
    forall k
      ensures k in r <==> exists i :: 0 <= i < |entries| && entries[i].0 == k
    {
      if k in m {
        var i :| 0 <= i < n && init[i].0 == k;
        assert entries[i].0 == k;
      }
      if exists i :: 0 <= i < |entries| && entries[i].0 == k {
        var i :| 0 <= i < |entries| && entries[i].0 == k;
        if i < n {
          assert init[i].0 == k;
        }
      }
    }
    forall i, j | 0 <= i < |entries| && 0 <= j < |entries| && entries[i].0 == entries[j].0
      ensures entries[i].1 == entries[j].1
    {
      if i < n && j < n {
        assert init[i] == entries[i] && init[j] == entries[j];
      }
    }
  }

  /** `LoadCorrections`: the merged dictionary, or None when two entries
      disagree about the same name. */
  function LoadCorrections(trackers: seq<TrackerCorrections>): (r: Option<map<string, string>>)
    ensures r.Some? <==> Consistent(Entries(trackers))
  {
    Collect(Entries(trackers))
  }

  /** The corrections the importer holds once loaded. */
  datatype CiDataManager = CiDataManager(corrections: map<string, string>) {

    /** The correction listed for a name, compared ignoring case, or the
        name itself when there is none. */
    function Correct(name: string): (r: string)
      ensures r == name || r in corrections.Values
    {
      var key := ToLower(name);
      if key in corrections then corrections[key] else name
    }

    /** `CorrectMarkName`. */
    function CorrectMarkName(markName: string): (r: string)
      ensures r == markName || r in corrections.Values
    {
      Correct(markName)
    }

    /** `CorrectMapName`: in the source a second method with the same body
        over the same table, so it shares `Correct` with `CorrectMarkName`. */
    function CorrectMapName(mapName: string): (r: string)
      ensures r == mapName || r in corrections.Values
    {
      Correct(mapName)
    }
  }

  /** Every key of the loaded dictionary is lower case. */
  lemma {:induction false} LoadedKeysAreLower(trackers: seq<TrackerCorrections>)
    requires LoadCorrections(trackers).Some?
    ensures forall k :: k in LoadCorrections(trackers).value ==> IsLower(k)
  {
    var entries := Entries(trackers);
    forall k | k in LoadCorrections(trackers).value
      ensures IsLower(k)
    {
      var i :| 0 <= i < |entries| && entries[i].0 == k;
      assert entries[i] in entries;
      var t, c :| t in trackers && c in t.1 && entries[i] == (ToLower(c.0), c.1);
      ToLowerIsLower(c.0);
    }
  }

  /** A name any tracker lists is corrected, whatever its case, to what
      the file says. */
  lemma {:induction false} CorrectsListedNames(trackers: seq<TrackerCorrections>, t: TrackerCorrections, c: (string, string), name: string)
    requires LoadCorrections(trackers).Some?
    requires t in trackers && c in t.1 && ToLower(name) == ToLower(c.0)
    ensures CiDataManager(LoadCorrections(trackers).value).CorrectMarkName(name) == c.1
    ensures CiDataManager(LoadCorrections(trackers).value).CorrectMapName(name) == c.1
  {
    var entries := Entries(trackers);
    assert (ToLower(c.0), c.1) in entries;
    var i :| 0 <= i < |entries| && entries[i] == (ToLower(c.0), c.1);
  }

  /** A name no tracker lists, in any case, comes back unchanged. */
  lemma {:induction false} KeepsUnlistedNames(trackers: seq<TrackerCorrections>, name: string)
    requires LoadCorrections(trackers).Some?
    requires forall t, c :: t in trackers && c in t.1 ==> ToLower(c.0) != ToLower(name)
    ensures CiDataManager(LoadCorrections(trackers).value).CorrectMarkName(name) == name
    ensures CiDataManager(LoadCorrections(trackers).value).CorrectMapName(name) == name
  {
    var entries := Entries(trackers);
    forall i | 0 <= i < |entries|
      ensures entries[i].0 != ToLower(name)
    {
      assert entries[i] in entries;
    }
  }

  /** Two spellings that differ only in case get the same correction. */
  lemma {:induction false} CorrectIgnoresCase(d: CiDataManager, a: string, b: string)
    requires ToLower(a) == ToLower(b) && ToLower(a) in d.corrections
    ensures d.CorrectMarkName(a) == d.CorrectMarkName(b)
    ensures d.CorrectMapName(a) == d.CorrectMapName(b)
  {
  }

  /** Two trackers giving one name different corrections make loading fail. */
  lemma {:induction false} ConflictFails(trackers: seq<TrackerCorrections>, t: TrackerCorrections, c: (string, string),
                      u: TrackerCorrections, e: (string, string))
    requires t in trackers && c in t.1 && u in trackers && e in u.1
    requires ToLower(c.0) == ToLower(e.0) && c.1 != e.1
    ensures LoadCorrections(trackers).None?
  {
    var entries := Entries(trackers);
    assert (ToLower(c.0), c.1) in entries;
    assert (ToLower(e.0), e.1) in entries;
    var i :| 0 <= i < |entries| && entries[i] == (ToLower(c.0), c.1);
    var j :| 0 <= j < |entries| && entries[j] == (ToLower(e.0), e.1);
  }
}
