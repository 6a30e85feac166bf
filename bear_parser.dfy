/** The Bear tracker's line format: `Labyrinthos ( 16.5 , 16.8 ) Storsie`,
    with an optional instance digit after the map name, and
    "NOT AVAILABLE" in place of the coordinates for a mark whose position
    is unknown. The grammar ignores case. */
module BearParser {
  import opened Wrappers
  import opened Utils
  import opened Text
  import opened Models
  import opened Parser

  /** The literal skeleton of a match up to the opening parenthesis: the
      map name, optional white space, the instance digit, optional white
      space, "(". */
  function Head(c: Captures, gap1: string, gap2: string): string {
    c.mapName + gap1 + c.instance + gap2 + "("
  }

  /** A capture of `\D`-class characters: no decimal digit. */
  predicate IsDigitFree(s: string) {
    forall i :: 0 <= i < |s| ==> !('0' <= s[i] <= '9')
  }

  /** A capture of `\w[\w -]+`: a word character and at least one more. */
  predicate IsBearMarkName(s: string) {
    && |s| >= 2
    && IsWordChar(s[0])
    && forall i :: 0 <= i < |s| ==> IsWordChar(s[i]) || s[i] == ' ' || s[i] == '-'
  }

  /** What any match of the Bear grammar guarantees about its captures:
      the coordinates are both present or both absent, and absent only
      where the line says "not available" in some letter case. */
  ghost predicate Admits(line: string, c: Captures) {
    && |c.mapName| > 0 && IsDigitFree(c.mapName)
    && (exists gap1, gap2 :: IsSpaceText(gap1) && IsSpaceText(gap2) && Contains(line, Head(c, gap1, gap2)))
    && IsInstanceCapture(Digit, c.instance)
    && (c.xCoord == [] <==> c.yCoord == [])
    && (c.xCoord == [] ==> Contains(ToLower(line), "not available"))
    && (c.xCoord != [] ==> IsNumberText(c.xCoord) && IsNumberText(c.yCoord))
    && IsBearMarkName(c.markName)
    && Contains(line, c.markName)
  }

  /** The matcher behaves as the Bear regular expression does. */
  ghost predicate Sound(find: Matcher) {
    forall line :: find(line).Some? ==> Admits(line, find(line).value)
  }

  /** `CanParseLine`: the grammar matches somewhere in the line, which
      then holds an opening parenthesis and the mark name. */
  function CanParseLine(find: Matcher, line: string): (r: bool)
    ensures r <==> find(line).Some?
    ensures Sound(find) && r ==> '(' in line && Contains(line, find(line).value.markName)
  {
    assert Sound(find) && find(line).Some? ==> '(' in line && Contains(line, find(line).value.markName) by {
      if Sound(find) && find(line).Some? {
        MatchNeedsParenthesis(find, line);
      }
    }
    find(line).Some?
  }

  /** `Parse`: an empty x coordinate means the line said NOT AVAILABLE, and
      the line is answered with the ignore sentinel before any lookup;
      otherwise the captures go to `CreateMark`. The sentinel comes out in
      exactly that case. */
  function Parse(find: Matcher, services: Services, line: string): (r: ParseOutcome)
    ensures r == ParseErrorIgnoreMark <==> find(line).Some? && find(line).value.xCoord == []
    ensures r.Parsed? ==> CanParseLine(find, line) && r.mark.rawText == line
    ensures find(line).None? ==> r.Faulted?
    ensures find(line).Some? && find(line).value.xCoord != [] ==> r == CreateMark(line, find(line).value, Digit, services)
    ensures (Sound(find) && r.Parsed? && r.mark.instance.Some?) ==> 1 <= r.mark.instance.value <= 9
  {
    match find(line)
    case None => Faulted
    case Some(c) =>
      if c.xCoord == [] then ParseErrorIgnoreMark
      else
        CreateMarkNeverIgnores(line, c, Digit, services);
        ParseWith(find, Digit, services, line)
  }

  /** The Bear `ITrackerParser`: a line it cannot parse makes `Parse`
      throw, a record keeps the line as its raw text, and the sentinel
      comes only from a line it can parse. */
  function AsLineParser(find: Matcher, services: Services): (r: LineParser)
    ensures forall line :: !r.canParseLine(line) ==> r.parse(line).Faulted?
    ensures forall line :: r.parse(line).Parsed? ==> r.canParseLine(line) && r.parse(line).mark.rawText == line
    ensures forall line :: r.parse(line) == ParseErrorIgnoreMark ==> r.canParseLine(line)
    ensures forall line :: Sound(find) && r.canParseLine(line) ==> '(' in line
  {
    LineParser(line => CanParseLine(find, line), line => Parse(find, services, line))
  }

  /** A Bear line holds the "(" that opens its coordinates, and its mark name. */
  lemma {:induction false} MatchNeedsParenthesis(find: Matcher, line: string)
    requires Sound(find) && find(line).Some?
    ensures '(' in line && Contains(line, find(line).value.markName)
  {
    var c := find(line).value;
    assert Admits(line, c);
    var gap1, gap2 :| IsSpaceText(gap1) && IsSpaceText(gap2) && Contains(line, Head(c, gap1, gap2));
    var h := Head(c, gap1, gap2);
    assert h[|h| - 1] == '(';
    ContainsChar(line, h, |h| - 1);
  }

  /** A NOT AVAILABLE line gets the same answer whatever the map table and
      number reader say: the lookup is never consulted. */
  lemma {:induction false} NotAvailableIgnoresServices(find: Matcher, s1: Services, s2: Services, line: string)
    requires find(line).Some? && find(line).value.xCoord == []
    ensures Parse(find, s1, line) == Parse(find, s2, line) == ParseErrorIgnoreMark
  {
  }

  /** Under a sound matcher, the sentinel is only ever produced for a line
      that says "not available". */
  lemma {:induction false} IgnoredOnlyWhenNotAvailable(find: Matcher, services: Services, line: string)
    requires Sound(find)
    requires Parse(find, services, line) == ParseErrorIgnoreMark
    ensures Contains(ToLower(line), "not available")
  {
    assert Admits(line, find(line).value);
  }

  /** The captures of the instanced Bear example line: the map capture
      keeps the blank before the digit. */
  const Sugriva: Captures := Captures("Sugriva", "Thavnair" + " ", "3", "27.6", "25.6")

  /** "Thavnair 3 ( 27.6 , 25.6 ) Sugriva". */
  const SugrivaLine: string := Head(Sugriva, "", " ") + " 27.6 , 25.6 ) " + "Sugriva"

  /** The skeleton and the mark name both occur in that line. */
  lemma {:induction false} SugrivaLineOccurrences()
    ensures Contains(SugrivaLine, Head(Sugriva, "", " "))
    ensures Contains(SugrivaLine, "Sugriva")
  {
    var h := Head(Sugriva, "", " ");
    assert SugrivaLine[0..|h|] == h;
    assert OccursAt(SugrivaLine, h, 0);
    var k := |SugrivaLine| - 7;
    assert SugrivaLine[k..k + 7] == "Sugriva";
    assert OccursAt(SugrivaLine, "Sugriva", k);
  }

  /** Those captures satisfy the Bear grammar on that line. */
  lemma {:induction false} SugrivaLineAdmitted()
    ensures Admits(SugrivaLine, Sugriva)
  {
    SugrivaLineOccurrences();
    SugrivaCaptureClasses();
    assert IsSpaceText("") && IsSpaceText(" ");
  }

  /** Each capture of the example is of its grammar class. */
  lemma {:induction false} SugrivaCaptureClasses()
    ensures IsDigitFree(Sugriva.mapName) && |Sugriva.mapName| > 0
    ensures IsBearMarkName(Sugriva.markName)
    ensures IsInstanceCapture(Digit, Sugriva.instance)
    ensures Sugriva.xCoord != [] && IsNumberText(Sugriva.xCoord) && IsNumberText(Sugriva.yCoord)
  {
    assert IsDigitFree("Thavnair ");
    assert IsBearMarkName("Sugriva");
    assert IsNumberText("27.6") && IsNumberText("25.6");
  }

  /** A matcher that yields those captures parses the line into a record
      in instance 3 named after the trimmed map. */
  lemma {:induction false} SugrivaLineParses(find: Matcher, md: MapData, services: Services)
    requires find(SugrivaLine) == Some(Sugriva)
    requires services.getMapDataByName("Thavnair") == Some(md)
    requires services.parseFloat("27.6") == Some(27.6) && services.parseFloat("25.6") == Some(25.6)
    ensures Parse(find, services, SugrivaLine)
            == Parsed(MarkData(SugrivaLine, "Sugriva", "Thavnair", md.territoryId, md.rowId, Some(3), Position(27.6, 25.6)))
  {
    assert Sugriva.markName == "Sugriva" && Sugriva.mapName == "Thavnair" + " ";
    assert Sugriva.xCoord == "27.6" && Sugriva.yCoord == "25.6";
    assert InstanceOf(Digit, Sugriva.instance) == Some(3);
    TrimTrailingSpace("Thavnair");
    CreateMarkHit(SugrivaLine, Sugriva, Digit, services, md, 27.6, 25.6);
  }
}
