/** `SortManager.PrintOptimalPath`: the marks, in the order they were
    pasted, grouped into runs of one territory instance; each mark reached by
    teleport (plus the shortcut from the aetheryte) or on foot from the
    previous mark; the runs drawn as a tree of chat lines. */
module OptimalPath {
  import opened Wrappers
  import opened Utils
  import opened Models
  import opened Seqs
  import opened Travel
  import opened Parser
  import opened Importer
  import opened SortManager

  /** One line of the path. */
  datatype PathStep =
    | Teleport(aetheryte: Aetheryte, instance: Option<UInt32>)
    | Shortcut(path: string)
    | GoTo(mark: MarkData)

  function TerritoryInstanceOfData(d: SortData): TerritoryInstance {
    TerritoryInstanceOf(d.markData)
  }

  /** Is mark d reached by teleport? Yes for the first mark of a run, and
      when walking from the previous spawn point is longer than coming from
      the nearest aetheryte. */
  predicate TeleportsTo(travel: TravelServices, prev: Option<Vec3>, d: SortData) {
    prev.None? || travel.distanceBetween(prev.value, d.spawnPoint) > d.distance
  }

  /** The lines for one mark: a teleport to the node's aetheryte and, when
      the node is not the aetheryte itself, the shortcut path; then the
      mark's map link. */
  function MarkSteps(travel: TravelServices, prev: Option<Vec3>, d: SortData): (r: seq<PathStep>)
    ensures 1 <= |r| && r[|r| - 1] == GoTo(d.markData)
    ensures r[0].Teleport? <==> TeleportsTo(travel, prev, d)
    ensures |r| == 3 <==> TeleportsTo(travel, prev, d) && !d.travelNode.isAetheryte
    ensures forall k :: 0 <= k < |r| - 1 ==> !r[k].GoTo?
  {
    (if TeleportsTo(travel, prev, d)
     then [Teleport(d.travelNode.startingAetheryte, d.markData.instance)]
          + (if d.travelNode.isAetheryte then [] else [Shortcut(d.travelNode.path)])
     else [])
    + [GoTo(d.markData)]
  }

  // ---------------------------------------------------------------------
  // Runs of one territory instance

  function Last<T>(s: seq<T>): T
    requires s != []
  {
    s[|s| - 1]
  }

  /** The marks cut wherever the territory instance changes. */
  function Runs(s: seq<SortData>): (r: seq<seq<SortData>>)
    ensures s == [] <==> r == []
    ensures s != [] ==> Last(r) != [] && Last(Last(r)) == Last(s)
    decreases |s|
  {
    if s == [] then []
    else
      var front := s[..|s| - 1];
      var r := Runs(front);
      if front != [] && TerritoryInstanceOfData(Last(front)) == TerritoryInstanceOfData(Last(s))
      then r[..|r| - 1] + [Last(r) + [Last(s)]]
      else r + [[Last(s)]]
  }

  /** The runs, put back together, are the marks. */
  lemma {:induction false} RunsFlatten(s: seq<SortData>)
    ensures Flatten(Runs(s)) == s
    decreases |s|
  {
    if s != [] {
      var front := s[..|s| - 1];
      var r := Runs(front);
      RunsFlatten(front);
      assert s == front + [Last(s)];
      if front != [] && TerritoryInstanceOfData(Last(front)) == TerritoryInstanceOfData(Last(s)) {
        assert r == r[..|r| - 1] + [Last(r)];
        FlattenConcat(r[..|r| - 1], [Last(r)]);
        FlattenConcat(r[..|r| - 1], [Last(r) + [Last(s)]]);
      } else {
        FlattenConcat(r, [[Last(s)]]);
      }
    }
  }

  /** Each run is a non-empty stretch of one territory instance. */
  lemma {:induction false} RunsUniform(s: seq<SortData>)
    ensures forall j :: 0 <= j < |Runs(s)| ==> Runs(s)[j] != []
    ensures forall j, k :: 0 <= j < |Runs(s)| && 0 <= k < |Runs(s)[j]| ==>
      TerritoryInstanceOfData(Runs(s)[j][k]) == TerritoryInstanceOfData(Runs(s)[j][0])
    decreases |s|
  {
    if s != [] {
      var front, x := s[..|s| - 1], Last(s);
      var r, r2 := Runs(front), Runs(s);
      RunsUniform(front);
      assert s == front + [x];
      if front != [] && TerritoryInstanceOfData(Last(front)) == TerritoryInstanceOfData(x) {
        RunsSnocSame(front, x);
        var lastRun := Last(r);
        assert TerritoryInstanceOfData(lastRun[|lastRun| - 1]) == TerritoryInstanceOfData(lastRun[0]);
        forall j | 0 <= j < |r2|
          ensures r2[j] != []
          ensures forall k :: 0 <= k < |r2[j]| ==> TerritoryInstanceOfData(r2[j][k]) == TerritoryInstanceOfData(r2[j][0])
        {
          if j < |r| - 1 {
            assert r2[j] == r[j];
          } else {
            assert r2[j] == lastRun + [x];
          }
        }
      } else {
        RunsSnocNew(front, x);
        forall j | 0 <= j < |r2|
          ensures r2[j] != []
          ensures forall k :: 0 <= k < |r2[j]| ==> TerritoryInstanceOfData(r2[j][k]) == TerritoryInstanceOfData(r2[j][0])
        {
          if j < |r| {
            assert r2[j] == r[j];
          }
        }
      }
    }
  }

  /** Runs j and j + 1 meet where the territory instance changes. */
  predicate Boundary(r: seq<seq<SortData>>, j: nat)
    requires j + 1 < |r|
  {
    r[j] != [] && r[j + 1] != [] && TerritoryInstanceOfData(Last(r[j])) != TerritoryInstanceOfData(r[j + 1][0])
  }

  /** Neighbouring runs differ in territory instance, so the runs are as
      long as they can be. */
  lemma {:induction false} RunsSeparated(s: seq<SortData>)
    ensures forall j :: 0 <= j < |Runs(s)| - 1 ==> Boundary(Runs(s), j)
    decreases |s|
  {
    if s != [] {
      var front := s[..|s| - 1];
      var r := Runs(front);
      var r2 := Runs(s);
      RunsSeparated(front);
      RunsUniform(front);
      assert s == front + [Last(s)];
      if front != [] && TerritoryInstanceOfData(Last(front)) == TerritoryInstanceOfData(Last(s)) {
        RunsSnocSame(front, Last(s));
        forall j | 0 <= j < |r2| - 1 ensures Boundary(r2, j) {
          assert r2[j] == r[j];
          if j + 1 < |r| - 1 {
            assert r2[j + 1] == r[j + 1];
            assert Boundary(r, j);
          } else {
            assert r2[j + 1][0] == r[j + 1][0];
            assert Boundary(r, j);
          }
        }
      } else {
        RunsSnocNew(front, Last(s));
        forall j | 0 <= j < |r2| - 1 ensures Boundary(r2, j) {
          if j < |r| - 1 {
            assert Boundary(r, j);
          }
        }
      }
    }
  }

  // ---------------------------------------------------------------------
  // Segments

  /** The lines for one run: each mark after the first is judged against
      the spawn point of the mark before it. */
  function RunSteps(travel: TravelServices, run: seq<SortData>): (r: seq<PathStep>)
    ensures |run| <= |r| <= 3 * |run|
    decreases |run|
  {
    if run == [] then []
    else
      var prev := if |run| == 1 then None else Some(run[|run| - 2].spawnPoint);
      RunSteps(travel, run[..|run| - 1]) + MarkSteps(travel, prev, Last(run))
  }

  /** A run's lines open with a teleport. */
  lemma {:induction false} RunStartsWithTeleport(travel: TravelServices, run: seq<SortData>)
    requires run != []
    ensures RunSteps(travel, run) != [] && RunSteps(travel, run)[0].Teleport?
    decreases |run|
  {
    if |run| == 1 {
      assert run[..0] == [];
    } else {
      RunStartsWithTeleport(travel, run[..|run| - 1]);
    }
  }

  /** One more mark after the last one's lines adds one map link. */
  lemma {:induction false} LinksStep(before: seq<PathStep>, steps: seq<PathStep>)
    requires 1 <= |steps| && steps[|steps| - 1].GoTo?
    requires forall k :: 0 <= k < |steps| - 1 ==> !steps[k].GoTo?
    ensures Filter(IsGoTo, before + steps) == Filter(IsGoTo, before) + [steps[|steps| - 1]]
  {
    FilterConcat(IsGoTo, before, steps);
    GoToOnce(steps);
  }

  lemma {:induction false} MapSeqSnoc<T, U>(f: T -> U, s: seq<T>)
    requires s != []
    ensures MapSeq(f, s) == MapSeq(f, s[..|s| - 1]) + [f(s[|s| - 1])]
  {
    var init, last := s[..|s| - 1], s[|s| - 1];
    assert s == init + [last];
    MapConcat(f, init, [last]);
    assert [last][1..] == [];
    assert MapSeq(f, [last]) == [f(last)];
  }

  /** A run's map links are its marks, in order. */
  lemma {:induction false} RunLinksMarks(travel: TravelServices, run: seq<SortData>)
    ensures Filter(IsGoTo, RunSteps(travel, run)) == MapSeq(GoToOf, run)
    decreases |run|
  {
    if run != [] {
      var front := run[..|run| - 1];
      var prev := if |run| == 1 then None else Some(run[|run| - 2].spawnPoint);
      RunLinksMarks(travel, front);
      LinksStep(RunSteps(travel, front), MarkSteps(travel, prev, Last(run)));
      MapSeqSnoc(GoToOf, run);
    }
  }

  predicate IsGoTo(step: PathStep) {
    step.GoTo?
  }

  function GoToOf(d: SortData): PathStep {
    GoTo(d.markData)
  }

  lemma {:induction false} GoToOnce(steps: seq<PathStep>)
    requires 1 <= |steps| && steps[|steps| - 1].GoTo?
    requires forall k :: 0 <= k < |steps| - 1 ==> !steps[k].GoTo?
    ensures Filter(IsGoTo, steps) == [steps[|steps| - 1]]
  {
    var n := |steps| - 1;
    assert steps == steps[..n] + [steps[n]];
    FilterConcat(IsGoTo, steps[..n], [steps[n]]);
    FilterNone(IsGoTo, steps[..n]);
    FilterSingleton(IsGoTo, steps[n]);
  }

  /** Each run's lines. */
  function RunsSteps(travel: TravelServices, runs: seq<seq<SortData>>): (r: seq<seq<PathStep>>)
    ensures |r| == |runs|
  {
    MapSeq((run: seq<SortData>) => RunSteps(travel, run), runs)
  }

  /** The path's segments, one per run; no marks give one empty segment. */
  function PathSegments(travel: TravelServices, s: seq<SortData>): (r: seq<seq<PathStep>>)
    ensures |r| >= 1
  {
    if s == [] then [[]] else RunsSteps(travel, Runs(s))
  }

  lemma {:induction false} RunsSnocSame(s: seq<SortData>, x: SortData)
    requires s != [] && TerritoryInstanceOfData(Last(s)) == TerritoryInstanceOfData(x)
    ensures Runs(s + [x]) == Runs(s)[..|Runs(s)| - 1] + [Last(Runs(s)) + [x]]
  {
    var sx := s + [x];
    assert sx[..|sx| - 1] == s && Last(sx) == x;
  }

  lemma {:induction false} RunsSnocNew(s: seq<SortData>, x: SortData)
    requires s == [] || TerritoryInstanceOfData(Last(s)) != TerritoryInstanceOfData(x)
    ensures Runs(s + [x]) == Runs(s) + [[x]]
  {
    var sx := s + [x];
    assert sx[..|sx| - 1] == s && Last(sx) == x;
  }

  lemma {:induction false} RunStepsSnoc(travel: TravelServices, run: seq<SortData>, x: SortData)
    requires run != []
    ensures RunSteps(travel, run + [x]) == RunSteps(travel, run) + MarkSteps(travel, Some(Last(run).spawnPoint), x)
  {
    var rx := run + [x];
    assert rx[..|rx| - 1] == run && Last(rx) == x && rx[|rx| - 2] == Last(run);
  }

  lemma {:induction false} RunStepsSingle(travel: TravelServices, x: SortData)
    ensures RunSteps(travel, [x]) == MarkSteps(travel, None, x)
  {
    assert [x][..0] == [];
  }

  /** One more mark: it extends the last segment when its territory
      instance is the previous mark's, and opens a segment otherwise. */
  lemma {:induction false} PathSegmentsSnoc(travel: TravelServices, s: seq<SortData>, x: SortData)
    ensures var p := PathSegments(travel, s);
            PathSegments(travel, s + [x])
            == if s != [] && TerritoryInstanceOfData(Last(s)) == TerritoryInstanceOfData(x)
               then p[..|p| - 1] + [Last(p) + MarkSteps(travel, Some(Last(s).spawnPoint), x)]
               else (if s == [] then [] else p) + [MarkSteps(travel, None, x)]
  {
    var f := (run: seq<SortData>) => RunSteps(travel, run);
    var r := Runs(s);
    RunStepsSingle(travel, x);
    if s == [] {
      RunsSnocNew(s, x);
      assert [] + [x] == [x];
      MapSeqSnoc(f, [[x]]);
    } else if TerritoryInstanceOfData(Last(s)) == TerritoryInstanceOfData(x) {
      RunsSnocSame(s, x);
      var r2 := r[..|r| - 1] + [Last(r) + [x]];
      MapSeqSnoc(f, r);
      MapSeqSnoc(f, r2);
      assert r2[..|r2| - 1] == r[..|r| - 1];
      RunStepsSnoc(travel, Last(r), x);
    } else {
      RunsSnocNew(s, x);
      MapSeqSnoc(f, r + [[x]]);
      assert (r + [[x]])[..|r|] == r;
    }
  }

  /** The loop step for a mark in the previous mark's territory instance. */
  lemma {:induction false} PlanStepSame(travel: TravelServices, s: seq<SortData>, x: SortData, segments: seq<seq<PathStep>>, current: seq<PathStep>)
    requires s != [] && TerritoryInstanceOfData(Last(s)) == TerritoryInstanceOfData(x)
    requires segments + [current] == PathSegments(travel, s)
    ensures segments + [current + MarkSteps(travel, Some(Last(s).spawnPoint), x)] == PathSegments(travel, s + [x])
  {
    PathSegmentsSnoc(travel, s, x);
    var p := PathSegments(travel, s);
    assert p[..|p| - 1] == segments && Last(p) == current;
  }

  /** The loop step for a mark that opens a territory instance. */
  lemma {:induction false} PlanStepNew(travel: TravelServices, s: seq<SortData>, x: SortData, segments: seq<seq<PathStep>>)
    requires s == [] || TerritoryInstanceOfData(Last(s)) != TerritoryInstanceOfData(x)
    requires s != [] ==> segments == PathSegments(travel, s)
    ensures (if s == [] then [] else segments) + [MarkSteps(travel, None, x)] == PathSegments(travel, s + [x])
  {
    PathSegmentsSnoc(travel, s, x);
  }

  /** The `ForEach` over the marks in `PrintOptimalPath`: track the previous
      territory instance and spawn point, close a segment at each change of
      territory instance, and collect each mark's lines. */
  method PlanPath(travel: TravelServices, marks: seq<SortData>) returns (segments: seq<seq<PathStep>>)
    ensures segments == PathSegments(travel, marks)
  {
    var prevTerritoryInstance: Option<TerritoryInstance> := None;
    var prevPos: Option<Vec3> := None;
    segments := [];
    var territoryInstanceSegments: seq<PathStep> := [];
    for i := 0 to |marks|
      invariant i == 0 ==> prevTerritoryInstance.None? && segments == [] && territoryInstanceSegments == []
      invariant i > 0 ==> prevTerritoryInstance == Some(TerritoryInstanceOfData(marks[i - 1]))
                          && prevPos == Some(marks[i - 1].spawnPoint)
      invariant segments + [territoryInstanceSegments] == PathSegments(travel, marks[..i])
    {
      var mark := marks[i];
      assert marks[..i + 1] == marks[..i] + [mark];
      assert i > 0 ==> Last(marks[..i]) == marks[i - 1];
      if prevTerritoryInstance != Some(TerritoryInstanceOfData(mark)) {
        prevPos := None;
        if prevTerritoryInstance.Some? {
          segments := segments + [territoryInstanceSegments];
          territoryInstanceSegments := [];
        }
        PlanStepNew(travel, marks[..i], mark, segments);
        assert territoryInstanceSegments == [];
        assert territoryInstanceSegments + MarkSteps(travel, prevPos, mark) == MarkSteps(travel, None, mark);
      } else {
        PlanStepSame(travel, marks[..i], mark, segments, territoryInstanceSegments);
      }
      territoryInstanceSegments := territoryInstanceSegments + MarkSteps(travel, prevPos, mark);
      prevTerritoryInstance := Some(TerritoryInstanceOfData(mark));
      prevPos := Some(mark.spawnPoint);
    }
    segments := segments + [territoryInstanceSegments];
    assert marks[..|marks|] == marks;
  }

  /** Every mark gets one map-link line, in the order pasted, and every
      segment opens with a teleport. */
  lemma {:induction false} PathSegmentsShape(travel: TravelServices, s: seq<SortData>)
    requires s != []
    ensures forall j :: 0 <= j < |PathSegments(travel, s)| ==>
      PathSegments(travel, s)[j] != [] && PathSegments(travel, s)[j][0].Teleport?
    ensures Filter(IsGoTo, Flatten(PathSegments(travel, s))) == MapSeq(GoToOf, s)
  {
    var f := (run: seq<SortData>) => RunSteps(travel, run);
    RunsUniform(s);
    RunsFlatten(s);
    SegmentsShape(travel, Runs(s));
  }

  lemma {:induction false} SegmentsShape(travel: TravelServices, runs: seq<seq<SortData>>)
    requires forall j :: 0 <= j < |runs| ==> runs[j] != []
    ensures forall j :: 0 <= j < |runs| ==> RunsSteps(travel, runs)[j] != [] && RunsSteps(travel, runs)[j][0].Teleport?
    ensures Filter(IsGoTo, Flatten(RunsSteps(travel, runs))) == MapSeq(GoToOf, Flatten(runs))
  {
    var f := (run: seq<SortData>) => RunSteps(travel, run);
    if runs != [] {
      SegmentsShape(travel, runs[1..]);
      RunStartsWithTeleport(travel, runs[0]);
      RunLinksMarks(travel, runs[0]);
      var m := MapSeq(f, runs);
      assert m == [f(runs[0])] + MapSeq(f, runs[1..]);
      assert m[1..] == MapSeq(f, runs[1..]);
      FilterConcat(IsGoTo, f(runs[0]), Flatten(MapSeq(f, runs[1..])));
      MapConcat(GoToOf, runs[0], Flatten(runs[1..]));
    }
  }

  // ---------------------------------------------------------------------
  // Rendering

  /** The chat payloads the path is printed with; the link payloads' own
      text comes from the game data. */
  datatype Payload =
    | NewLine
    | Text(text: string)
    | AetheryteLink(aetheryte: Aetheryte, instance: Option<UInt32>)
    | MarkLink(mark: MarkData)

  function StepPayloads(step: PathStep): (r: seq<Payload>)
    ensures 1 <= |r| <= 2
    ensures |r| == 2 <==> step.Teleport?
  {
    match step
    case Teleport(a, instance) => [Text("teleport to "), AetheryteLink(a, instance)]
    case Shortcut(path) => [Text(path)]
    case GoTo(mark) => [MarkLink(mark)]
  }

  const WideSpace: char := '　'
  const Divider: seq<Payload> := [Text("┃")]
  const Header: seq<Payload> := [NewLine, Text("optimal hunt path:"), NewLine]

  /** The two tree characters and the space in front of a segment line. */
  function TreePrefix(lastTerritory: bool, segmentIndex: nat, segmentCount: nat): (r: string)
    ensures |r| == 3 && r[2] == ' '
    ensures r[0] == '┗' <==> lastTerritory && segmentIndex == 0
    ensures r[0] == WideSpace <==> lastTerritory && segmentIndex != 0
    ensures r[1] == '┳' <==> segmentIndex == 0
    ensures segmentIndex != 0 ==> (r[1] == '┗' <==> segmentIndex == segmentCount - 1)
    ensures segmentIndex != 0 ==> (r[1] == '┣' <==> segmentIndex != segmentCount - 1)
    ensures !lastTerritory ==> (r[0] == '┣' <==> segmentIndex == 0) && (r[0] == '┃' <==> segmentIndex != 0)
  {
    var first :=
      if lastTerritory then (if segmentIndex == 0 then '┗' else WideSpace)
      else (if segmentIndex == 0 then '┣' else '┃');
    var second :=
      if segmentIndex == 0 then '┳'
      else if segmentIndex == segmentCount - 1 then '┗'
      else '┣';
    [first, second, ' ']
  }

  /** One territory instance's lines. */
  function TerritoryLines(segment: seq<PathStep>, lastTerritory: bool): (r: seq<seq<Payload>>)
    ensures |r| == |segment|
  {
    seq(|segment|, k requires 0 <= k < |segment| =>
      [Text(TreePrefix(lastTerritory, k, |segment|))] + StepPayloads(segment[k]))
  }

  /** All lines: each territory's lines, a divider after every territory
      but the last. */
  function TreeLines(segments: seq<seq<PathStep>>): (r: seq<seq<Payload>>)
    ensures forall k :: 0 <= k < |r| ==> r[k] != [] && r[k][0].Text?
    decreases |segments|
  {
    if segments == [] then []
    else if |segments| == 1 then TerritoryLines(segments[0], true)
    else TerritoryLines(segments[0], false) + [Divider] + TreeLines(segments[1..])
  }

  /** The number of lines: one per step, plus a divider between
      territories. */
  lemma {:induction false} TreeLinesCount(segments: seq<seq<PathStep>>)
    requires segments != []
    ensures |TreeLines(segments)| == |Flatten(segments)| + |segments| - 1
    decreases |segments|
  {
    if |segments| > 1 {
      TreeLinesCount(segments[1..]);
    } else {
      assert Flatten(segments) == segments[0] + Flatten(segments[1..]);
    }
  }

  /** The first tree column of a line. */
  function Trunk(line: seq<Payload>): char {
    if line != [] && line[0].Text? && line[0].text != [] then line[0].text[0] else ' '
  }

  /** The trunk of the tree ends at the last territory's first line: every
      line before it carries a trunk character, that line an end, and every
      line after it a blank. */
  lemma {:induction false} TrunkEndsAtLastTerritory(segments: seq<seq<PathStep>>)
    requires segments != [] && forall j :: 0 <= j < |segments| ==> segments[j] != []
    ensures var lines := TreeLines(segments);
            var e := |lines| - |Last(segments)|;
            && 0 <= e < |lines|
            && (forall k :: 0 <= k < e ==> Trunk(lines[k]) == '┣' || Trunk(lines[k]) == '┃')
            && Trunk(lines[e]) == '┗'
            && (forall k :: e < k < |lines| ==> Trunk(lines[k]) == WideSpace)
    decreases |segments|
  {
    var lines := TreeLines(segments);
    if |segments| == 1 {
      assert lines == TerritoryLines(segments[0], true);
    } else {
      var head := TerritoryLines(segments[0], false) + [Divider];
      var rest := TreeLines(segments[1..]);
      TrunkEndsAtLastTerritory(segments[1..]);
      assert Last(segments[1..]) == Last(segments);
      assert lines == head + rest;
      forall k | 0 <= k < |head| ensures Trunk(head[k]) == '┣' || Trunk(head[k]) == '┃' {
      }
      forall k | |head| <= k < |lines| ensures lines[k] == rest[k - |head|] {
      }
    }
  }

  /** A line with its line break. */
  function WithNewLine(line: seq<Payload>): seq<Payload> {
    line + [NewLine]
  }

  /** The `Reduce` over the lines: each line followed by a line break, in
      order. */
  function Terminate(lines: seq<seq<Payload>>): (r: seq<Payload>)
    ensures |r| == |Flatten(lines)| + |lines|
    ensures r == Flatten(MapSeq(WithNewLine, lines))
  {
    if lines == [] then []
    else
      var m := MapSeq(WithNewLine, lines);
      assert m[1..] == MapSeq(WithNewLine, lines[1..]);
      lines[0] + [NewLine] + Terminate(lines[1..])
  }

  /** The line breaks go line by line, so terminating two blocks of lines
      is terminating each. */
  lemma {:induction false} TerminateConcat(a: seq<seq<Payload>>, b: seq<seq<Payload>>)
    ensures Terminate(a + b) == Terminate(a) + Terminate(b)
  {
    if a == [] {
      assert a + b == b;
    } else {
      assert (a + b)[1..] == a[1..] + b;
      TerminateConcat(a[1..], b);
    }
  }

  /** The chat message for a path. */
  function PathMessage(segments: seq<seq<PathStep>>): (r: seq<Payload>)
    ensures |r| == |Header| + |Flatten(TreeLines(segments))| + |TreeLines(segments)|
    ensures r[..|Header|] == Header
  {
    Header + Terminate(TreeLines(segments))
  }

  /** `PrintOptimalPath`: nothing is printed when a line fails to parse or a
      mark has no travel data; otherwise the message for the marks in pasted
      order. */
  method PrintOptimalPath(travel: TravelServices, parsers: seq<LineParser>, payload: string)
    returns (message: Option<seq<Payload>>)
    ensures message.None? <==>
      || !AllParsed(ParsePayload(parsers, payload))
      || GetTravelData(travel, ParsedMarks(ParsePayload(parsers, payload))).errors != []
    ensures message.Some? ==>
      message.value == PathMessage(PathSegments(travel, GetTravelData(travel, ParsedMarks(ParsePayload(parsers, payload))).values))
  {
    var results := ParsePayload(parsers, payload);
    if !AllParsed(results) {
      return None;
    }
    var marks := GetTravelData(travel, ParsedMarks(results));
    if marks.errors != [] {
      return None;
    }
    var segments := PlanPath(travel, marks.values);
    return Some(PathMessage(segments));
  }
}
