/** The Faloop tracker's line format:
    `Raiden [S]: Gamma - Yanxia ( 23.6, 11.4 )`, with an optional
    instance digit, possibly in parentheses, after the map name. */
module FaloopParser {
  import opened Wrappers
  import opened Utils
  import opened Text
  import opened Models
  import opened Parser

  /** A world name: letters, digits, apostrophes and hyphens. */
  predicate IsWorldName(s: string) {
    |s| > 0 && forall i :: 0 <= i < |s| ==>
      'a' <= s[i] <= 'z' || 'A' <= s[i] <= 'Z' || '0' <= s[i] <= '9' || s[i] == '\'' || s[i] == '-'
  }

  /** The literal skeleton of a match up to the map name: the world name,
      white space, "[S]: ", the mark name, " - ", the map name. */
  function Head(world: string, gap: string, c: Captures): string {
    world + gap + "[S]: " + c.markName + " - " + c.mapName
  }

  /** What any match of the Faloop grammar guarantees about its captures. */
  ghost predicate Admits(line: string, c: Captures) {
    && (exists world, gap :: IsWorldName(world) && IsSpaceRun(gap) && Contains(line, Head(world, gap, c)))
    && IsNameText(c.markName)
    && IsNameText(c.mapName)
    && IsInstanceCapture(Digit, c.instance)
    && IsNumberText(c.xCoord)
    && IsNumberText(c.yCoord)
  }

  /** The matcher behaves as the Faloop regular expression does. */
  ghost predicate Sound(find: Matcher) {
    forall line :: find(line).Some? ==> Admits(line, find(line).value)
  }

  /** `CanParseLine`: the grammar matches somewhere in the line, which
      then carries the server tag "[S]: ". */
  function CanParseLine(find: Matcher, line: string): (r: bool)
    ensures r <==> find(line).Some?
    ensures Sound(find) && r ==> Contains(line, "[S]: ")
  {
    assert Sound(find) && find(line).Some? ==> Contains(line, "[S]: ") by {
      if Sound(find) && find(line).Some? {
        MatchNeedsServerTag(find, line);
      }
    }
    find(line).Some?
  }

  /** `Parse`: the whole input line is the record's raw text. */
  function Parse(find: Matcher, services: Services, line: string): (r: ParseOutcome)
    ensures find(line).None? ==> r.Faulted?
    ensures find(line).Some? ==> r == CreateMark(line, find(line).value, Digit, services)
    ensures r.Parsed? ==> CanParseLine(find, line) && r.mark.rawText == line
    ensures Sound(find) && r.Parsed? ==> Contains(line, "[S]: ")
    ensures (Sound(find) && r.Parsed? && r.mark.instance.Some?) ==> 1 <= r.mark.instance.value <= 9
    ensures r != ParseErrorIgnoreMark
  {
    match find(line)
    case None => ParseWith(find, Digit, services, line)
    case Some(c) =>
      CreateMarkNeverIgnores(line, c, Digit, services);
      assert CanParseLine(find, line);
      ParseWith(find, Digit, services, line)
  }

  /** The Faloop `ITrackerParser`: a line it cannot parse makes `Parse`
      throw, a record keeps the whole line as its raw text, and only lines
      with the server tag are taken. */
  function AsLineParser(find: Matcher, services: Services): (r: LineParser)
    ensures forall line :: !r.canParseLine(line) ==> r.parse(line).Faulted?
    ensures forall line :: r.parse(line).Parsed? ==> r.canParseLine(line) && r.parse(line).mark.rawText == line
    ensures forall line :: Sound(find) && r.canParseLine(line) ==> Contains(line, "[S]: ")
    ensures forall line :: r.parse(line) != ParseErrorIgnoreMark
  {
    LineParser(line => CanParseLine(find, line), line => Parse(find, services, line))
  }

  /** Only a line carrying the server tag "[S]: " is a Faloop line. */
  lemma {:induction false} MatchNeedsServerTag(find: Matcher, line: string)
    requires Sound(find) && find(line).Some?
    ensures Contains(line, "[S]: ")
  {
    var c := find(line).value;
    var world, gap :| IsWorldName(world) && IsSpaceRun(gap) && Contains(line, Head(world, gap, c));
    var rest := c.markName + " - " + c.mapName;
    assert Head(world, gap, c) == (world + gap + "[S]: ") + rest;
    ContainsPrefix(line, world + gap + "[S]: ", rest);
    ContainsSuffix(line, world + gap, "[S]: ");
  }

  /** The captures of the instanced Faloop example line. */
  const VogaalJa: Captures := Captures("Vogaal Ja", "Middle La Noscea", "1", "8.2", "32.65")

  /** "Odin [S]: Vogaal Ja - Middle La Noscea (1) ( 8.2, 32.65 )": the digit
      in parentheses after the map is the instance. */
  const VogaalJaLine: string := Head("Odin", " ", VogaalJa) + " (1) ( 8.2, 32.65 )"

  /** Those captures satisfy the Faloop grammar on that line. */
  lemma {:induction false} VogaalJaLineAdmitted()
    ensures Admits(VogaalJaLine, VogaalJa)
  {
    var h := Head("Odin", " ", VogaalJa);
    assert VogaalJaLine[0..|h|] == h;
    assert OccursAt(VogaalJaLine, h, 0);
    assert IsWorldName("Odin") && IsSpaceRun(" ");
    assert IsNameText("Vogaal Ja") && IsNameText("Middle La Noscea");
    assert IsNumberText("8.2") && IsNumberText("32.65");
  }

  /** A matcher that yields those captures parses the line into a record
      in instance 1 whose raw text is the line. */
  lemma {:induction false} VogaalJaLineParses(find: Matcher, md: MapData, services: Services)
    requires find(VogaalJaLine) == Some(VogaalJa)
    requires services.getMapDataByName("Middle La Noscea") == Some(md)
    requires services.parseFloat("8.2") == Some(8.2) && services.parseFloat("32.65") == Some(32.65)
    ensures Parse(find, services, VogaalJaLine)
            == Parsed(MarkData(VogaalJaLine, "Vogaal Ja", "Middle La Noscea", md.territoryId, md.rowId, Some(1), Position(8.2, 32.65)))
  {
    assert VogaalJa.markName == "Vogaal Ja" && VogaalJa.mapName == "Middle La Noscea";
    assert VogaalJa.xCoord == "8.2" && VogaalJa.yCoord == "32.65";
    assert InstanceOf(Digit, VogaalJa.instance) == Some(1);
    TrimUnchanged("Middle La Noscea");
    CreateMarkHit(VogaalJaLine, VogaalJa, Digit, services, md, 8.2, 32.65);
  }
}
