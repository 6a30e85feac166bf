/** The Siren tracker's line format:
    `(Maybe: Storsie) <link>Labyrinthos<instance glyph> ( 17 , 9.6 )`. */
module SirenParser {
  import opened Wrappers
  import opened Utils
  import opened Text
  import opened Models
  import opened Parser

  /** The literal skeleton of a match up to the instance glyph: "(", an
      optional "Maybe: ", the mark name, ") ", the link marker, the map name. */
  function Head(c: Captures, maybe: bool): string {
    "(" + (if maybe then "Maybe: " else "") + c.markName + ") " + [LinkMarker] + c.mapName + c.instance
  }

  /** What any match of the Siren grammar guarantees about its captures. */
  ghost predicate Admits(line: string, c: Captures) {
    && (Contains(line, Head(c, false)) || Contains(line, Head(c, true)))
    && IsNameText(c.markName)
    && IsNameText(c.mapName)
    && IsInstanceCapture(GlyphOffset, c.instance)
    && IsNumberText(c.xCoord)
    && IsNumberText(c.yCoord)
  }

  /** The matcher behaves as the Siren regular expression does. */
  ghost predicate Sound(find: Matcher) {
    forall line :: find(line).Some? ==> Admits(line, find(line).value)
  }

  /** `CanParseLine`: the grammar matches somewhere in the line, which
      then carries the link marker. */
  function CanParseLine(find: Matcher, line: string): (r: bool)
    ensures r <==> find(line).Some?
    ensures Sound(find) && r ==> LinkMarker in line
  {
    assert Sound(find) && find(line).Some? ==> LinkMarker in line by {
      if Sound(find) && find(line).Some? {
        MatchNeedsLinkMarker(find, line);
      }
    }
    find(line).Some?
  }

  /** `Parse`: `CreateMark` on the first match's captures, with raw text
      the line and the glyph decoder. */
  function Parse(find: Matcher, services: Services, line: string): (r: ParseOutcome)
    ensures find(line).None? ==> r.Faulted?
    ensures find(line).Some? ==> r == CreateMark(line, find(line).value, GlyphOffset, services)
    ensures r.Parsed? ==> CanParseLine(find, line) && r.mark.rawText == line
    ensures Sound(find) && r.Parsed? ==> LinkMarker in line
    ensures (Sound(find) && r.Parsed? && r.mark.instance.Some?) ==> 1 <= r.mark.instance.value <= 9
    ensures r != ParseErrorIgnoreMark
  {
    match find(line)
    case None => ParseWith(find, GlyphOffset, services, line)
    case Some(c) =>
      CreateMarkNeverIgnores(line, c, GlyphOffset, services);
      assert CanParseLine(find, line);
      ParseWith(find, GlyphOffset, services, line)
  }

  /** The Siren `ITrackerParser`: a line it cannot parse makes `Parse`
      throw, a record keeps the line as its raw text, and only lines with
      the link marker are taken. */
  function AsLineParser(find: Matcher, services: Services): (r: LineParser)
    ensures forall line :: !r.canParseLine(line) ==> r.parse(line).Faulted?
    ensures forall line :: r.parse(line).Parsed? ==> r.canParseLine(line) && r.parse(line).mark.rawText == line
    ensures forall line :: Sound(find) && r.canParseLine(line) ==> LinkMarker in line
    ensures forall line :: r.parse(line) != ParseErrorIgnoreMark
  {
    LineParser(line => CanParseLine(find, line), line => Parse(find, services, line))
  }

  /** Only a line carrying the link marker is a Siren line. */
  lemma {:induction false} MatchNeedsLinkMarker(find: Matcher, line: string)
    requires Sound(find) && find(line).Some?
    ensures LinkMarker in line
  {
    var c := find(line).value;
    var maybe := !Contains(line, Head(c, false));
    var prefix := "(" + (if maybe then "Maybe: " else "") + c.markName + ") ";
    assert Head(c, maybe) == prefix + [LinkMarker] + c.mapName + c.instance;
    assert Head(c, maybe)[|prefix|] == LinkMarker;
    ContainsChar(line, Head(c, maybe), |prefix|);
  }

  /** The captures of the instanced Siren example line. */
  const Yilan: Captures := Captures("Yilan", "Thavnair", [(Instance1 as int + 1) as char], "26.8", "20.9")

  /** "(Yilan) <link>Thavnair<instance two> ( 26.8  , 20.9 )  (Instance TWO) ". */
  const YilanLine: string := Head(Yilan, false) + " ( 26.8  , 20.9 )  (Instance TWO) "

  /** Those captures satisfy the Siren grammar on that line. */
  lemma {:induction false} YilanLineAdmitted()
    ensures Admits(YilanLine, Yilan)
  {
    var h := Head(Yilan, false);
    assert YilanLine[0..|h|] == h;
    assert OccursAt(YilanLine, h, 0);
    assert IsNameText("Yilan") && IsNameText("Thavnair");
    assert IsNumberText("26.8") && IsNumberText("20.9");
  }

  /** A matcher that yields those captures parses the line into a record
      in instance 2 whose raw text is the line. */
  lemma {:induction false} YilanLineParses(find: Matcher, md: MapData, services: Services)
    requires find(YilanLine) == Some(Yilan)
    requires services.getMapDataByName("Thavnair") == Some(md)
    requires services.parseFloat("26.8") == Some(26.8) && services.parseFloat("20.9") == Some(20.9)
    ensures Parse(find, services, YilanLine)
            == Parsed(MarkData(YilanLine, "Yilan", "Thavnair", md.territoryId, md.rowId, Some(2), Position(26.8, 20.9)))
  {
    assert Yilan.markName == "Yilan" && Yilan.mapName == "Thavnair";
    assert Yilan.xCoord == "26.8" && Yilan.yCoord == "20.9";
    assert InstanceOf(GlyphOffset, Yilan.instance) == Some(2);
    TrimUnchanged("Thavnair");
    CreateMarkHit(YilanLine, Yilan, GlyphOffset, services, md, 26.8, 20.9);
  }
}
