/** The Turtle tracker's line format:
    `Storsie @ <link>Labyrinthos<instance glyph> ( 17.00 , 9.60 )`. */
module TurtleParser {
  import opened Wrappers
  import opened Utils
  import opened Text
  import opened Models
  import opened Parser

  /** The literal skeleton of a match up to the instance glyph: the mark
      name, white space, "@", white space, the link marker, the map name. */
  function Head(c: Captures, gap1: string, gap2: string): string {
    c.markName + gap1 + "@" + gap2 + [LinkMarker] + c.mapName + c.instance
  }

  /** What any match of the Turtle grammar guarantees about its captures. */
  ghost predicate Admits(line: string, c: Captures) {
    && (exists gap1, gap2 :: IsSpaceRun(gap1) && IsSpaceRun(gap2) && Contains(line, Head(c, gap1, gap2)))
    && IsNameText(c.markName)
    && IsNameText(c.mapName)
    && IsInstanceCapture(GlyphOffset, c.instance)
    && IsNumberText(c.xCoord)
    && IsNumberText(c.yCoord)
  }

  /** The matcher behaves as the Turtle regular expression does. */
  ghost predicate Sound(find: Matcher) {
    forall line :: find(line).Some? ==> Admits(line, find(line).value)
  }

  /** `CanParseLine`: the grammar matches somewhere in the line, which
      then carries "@" and the link marker. */
  function CanParseLine(find: Matcher, line: string): (r: bool)
    ensures r <==> find(line).Some?
    ensures Sound(find) && r ==> '@' in line && LinkMarker in line
  {
    assert Sound(find) && find(line).Some? ==> '@' in line && LinkMarker in line by {
      if Sound(find) && find(line).Some? {
        MatchNeedsAtAndLinkMarker(find, line);
      }
    }
    find(line).Some?
  }

  /** `Parse`: `CreateMark` on the first match's captures, with raw text
      the line and the glyph decoder. */
  function Parse(find: Matcher, services: Services, line: string): (r: ParseOutcome)
    ensures find(line).None? ==> r.Faulted?
    ensures find(line).Some? ==> r == CreateMark(line, find(line).value, GlyphOffset, services)
    ensures r.Parsed? ==> CanParseLine(find, line) && r.mark.rawText == line
    ensures Sound(find) && r.Parsed? ==> '@' in line && LinkMarker in line
    ensures (Sound(find) && r.Parsed? && r.mark.instance.Some?) ==> 1 <= r.mark.instance.value <= 9
    ensures r != ParseErrorIgnoreMark
  {
    match find(line)
    case None => ParseWith(find, GlyphOffset, services, line)
    case Some(c) =>
      CreateMarkNeverIgnores(line, c, GlyphOffset, services);
      assert CanParseLine(find, line);
      ParseWith(find, GlyphOffset, services, line)
  }

  /** The Turtle `ITrackerParser`: a line it cannot parse makes `Parse`
      throw, a record keeps the line as its raw text, and only lines with
      "@" and the link marker are taken. */
  function AsLineParser(find: Matcher, services: Services): (r: LineParser)
    ensures forall line :: !r.canParseLine(line) ==> r.parse(line).Faulted?
    ensures forall line :: r.parse(line).Parsed? ==> r.canParseLine(line) && r.parse(line).mark.rawText == line
    ensures forall line :: Sound(find) && r.canParseLine(line) ==> '@' in line && LinkMarker in line
    ensures forall line :: r.parse(line) != ParseErrorIgnoreMark
  {
    LineParser(line => CanParseLine(find, line), line => Parse(find, services, line))
  }

  /** Only a line carrying both "@" and the link marker is a Turtle line. */
  lemma {:induction false} MatchNeedsAtAndLinkMarker(find: Matcher, line: string)
    requires Sound(find) && find(line).Some?
    ensures '@' in line && LinkMarker in line
  {
    var c := find(line).value;
    var gap1, gap2 :| IsSpaceRun(gap1) && IsSpaceRun(gap2) && Contains(line, Head(c, gap1, gap2));
    var h := Head(c, gap1, gap2);
    var at := |c.markName| + |gap1|;
    assert h[at] == '@';
    assert h[at + 1 + |gap2|] == LinkMarker;
    ContainsChar(line, h, at);
    ContainsChar(line, h, at + 1 + |gap2|);
  }

  /** The captures of the instanced Turtle example line. */
  const Raintriller: Captures := Captures("The raintriller", "Kozama'uka", [(Instance1 as int + 1) as char], "20.30", "28.40")

  /** "The raintriller @ <link>Kozama'uka<instance two> ( 20.30 , 28.40 ) Instance TWO". */
  const RaintrillerLine: string := Head(Raintriller, " ", " ") + " ( 20.30 , 28.40 ) Instance TWO"

  /** Those captures satisfy the Turtle grammar on that line. */
  lemma {:induction false} RaintrillerLineAdmitted()
    ensures Admits(RaintrillerLine, Raintriller)
  {
    var h := Head(Raintriller, " ", " ");
    assert RaintrillerLine[0..|h|] == h;
    assert OccursAt(RaintrillerLine, h, 0);
    assert IsSpaceRun(" ");
    assert IsNameText("The raintriller") && IsNameText("Kozama'uka");
    assert IsNumberText("20.30") && IsNumberText("28.40");
  }

  /** A matcher that yields those captures parses the line into a record
      in instance 2; the mark name keeps its inner blank. */
  lemma {:induction false} RaintrillerLineParses(find: Matcher, md: MapData, services: Services)
    requires find(RaintrillerLine) == Some(Raintriller)
    requires services.getMapDataByName("Kozama'uka") == Some(md)
    requires services.parseFloat("20.30") == Some(20.30) && services.parseFloat("28.40") == Some(28.40)
    ensures Parse(find, services, RaintrillerLine)
            == Parsed(MarkData(RaintrillerLine, "The raintriller", "Kozama'uka", md.territoryId, md.rowId, Some(2), Position(20.30, 28.40)))
  {
    assert Raintriller.markName == "The raintriller" && Raintriller.mapName == "Kozama'uka";
    assert Raintriller.xCoord == "20.30" && Raintriller.yCoord == "28.40";
    assert InstanceOf(GlyphOffset, Raintriller.instance) == Some(2);
    TrimUnchanged("Kozama'uka");
    CreateMarkHit(RaintrillerLine, Raintriller, GlyphOffset, services, md, 20.30, 28.40);
  }
}
