/** The shared part of the line parsers: the captures a grammar yields, the
    "IGNORE" sentinel, the two instance decoders and `CreateMark`, which turns
    a grammar's captures into a mark record or an error. */
module Parser {
  import opened Wrappers
  import opened Utils
  import opened Text
  import opened Models

  /** The named groups of a grammar's first match. A group that did not
      take part in the match is the empty string, as in .NET. */
  datatype Captures = Captures(
    markName: string,
    mapName: string,
    instance: string,
    xCoord: string,
    yCoord: string
  )

  /** A compiled grammar: the captures of its first match in a line, if any
      (`Regex.Matches(line).First().Groups`; `IsMatch` is `Some?`). */
  type Matcher = string -> Option<Captures>

  /** What `Parse` can end in: a record, an error string, or an exception
      escaping from it (a failed `float.Parse`, or `First()` of no match). */
  datatype ParseOutcome = Parsed(mark: MarkData) | Failed(error: string) | Faulted

  /** `ITrackerParser.ParseErrorIgnoreMark`: the error that asks for a line
      to be dropped silently. */
  const ParseErrorIgnoreMark: ParseOutcome := Failed("IGNORE")

  /** The collaborators `CreateMark` consults: the map-name lookup and an
      invariant-culture `float.Parse` (None where it would throw). */
  datatype Services = Services(
    getMapDataByName: string -> Option<MapData>,
    parseFloat: string -> Option<real>
  )

  /** The per-grammar rule turning the instance capture into a number:
      an offset from the instance-one glyph, or a decimal digit. */
  datatype InstanceDecoder = GlyphOffset | Digit

  /** The unsigned cast of the difference: inside the capture's class it is
      the plain difference; outside it the cast wraps. */
  function DecodeInstance(decoder: InstanceDecoder, c: char): (r: UInt32)
    ensures decoder.GlyphOffset? && IsInstanceGlyph(c) ==> r as int == c as int - Instance1 as int + 1
    ensures decoder.Digit? && '0' <= c <= '9' ==> r as int == c as int - '0' as int
  {
    match decoder
    case GlyphOffset => ToUInt32(c as int - Instance1 as int + 1)
    case Digit => ToUInt32(c as int - '0' as int)
  }

  /** Over-approximates the regular-expression class `\w`: ASCII letters,
      digits and '_', and any other character that is neither white space
      nor one of the host's private-use glyphs. */
  predicate IsWordChar(c: char) {
    || 'a' <= c <= 'z' || 'A' <= c <= 'Z' || '0' <= c <= '9' || c == '_'
    || (c as int >= 0x80 && !IsWhiteSpace(c) && !(0xE000 <= c as int <= 0xF8FF))
  }

  /** A capture of the class `[\w '-]+`. */
  predicate IsNameText(s: string) {
    |s| > 0 && forall i :: 0 <= i < |s| ==> IsWordChar(s[i]) || s[i] == ' ' || s[i] == '\'' || s[i] == '-'
  }

  /** A capture of the class `[0-9\.]+`. */
  predicate IsNumberText(s: string) {
    |s| > 0 && forall i :: 0 <= i < |s| ==> '0' <= s[i] <= '9' || s[i] == '.'
  }

  /** A run of white space of any length (`\s*`). */
  predicate IsSpaceText(s: string) {
    forall i :: 0 <= i < |s| ==> IsWhiteSpace(s[i])
  }

  /** A non-empty run of white space (`\s+`). */
  predicate IsSpaceRun(s: string) {
    |s| > 0 && IsSpaceText(s)
  }

  /** The instance capture a grammar admits: empty, or one glyph from
      the instance-one..instance-nine range, or one digit 1-9. */
  predicate IsInstanceCapture(decoder: InstanceDecoder, s: string) {
    s == [] || (|s| == 1 && match decoder
                            case GlyphOffset => IsInstanceGlyph(s[0])
                            case Digit => '1' <= s[0] <= '9')
  }

  /** An admitted, non-empty instance capture decodes to 1..9. */
  lemma {:induction false} DecodedInstanceInRange(decoder: InstanceDecoder, s: string)
    requires IsInstanceCapture(decoder, s) && s != []
    ensures 1 <= DecodeInstance(decoder, s[0]) <= 9
  {
  }

  /** The instance field of a record built from an instance capture. */
  function InstanceOf(decoder: InstanceDecoder, s: string): Option<UInt32> {
    if s == [] then None else Some(DecodeInstance(decoder, s[0]))
  }

  /** `CreateMark`: resolve the trimmed map name; on a miss, the error names
      it; on a hit, build the record from the captures and the lookup. */
  function CreateMark(rawText: string, groups: Captures, decoder: InstanceDecoder, services: Services): (r: ParseOutcome)
    ensures var name := Trim(groups.mapName);
            var found := services.getMapDataByName(name);
            && (found.None? <==> r.Failed?)
            && (found.None? ==> r.error == "Failed to find a map with name: " + name)
            && (r.Faulted? <==> found.Some? && (services.parseFloat(groups.xCoord).None? || services.parseFloat(groups.yCoord).None?))
            && (r.Parsed? ==>
                  && r.mark.rawText == rawText
                  && r.mark.markName == groups.markName
                  && r.mark.mapName == name
                  && r.mark.territoryId == found.value.territoryId
                  && r.mark.mapId == found.value.rowId
                  && r.mark.instance == InstanceOf(decoder, groups.instance))
  {
    var mapName := Trim(groups.mapName);
    match services.getMapDataByName(mapName)
    case None => Failed("Failed to find a map with name: " + mapName)
    case Some(found) =>
      var x := services.parseFloat(groups.xCoord);
      var y := services.parseFloat(groups.yCoord);
      if x.None? || y.None? then Faulted
      else
        var instance := if groups.instance == [] then None else Some(DecodeInstance(decoder, groups.instance[0]));
        Parsed(MarkData(rawText, groups.markName, mapName, found.territoryId, found.rowId, instance, Position(x.value, y.value)))
  }

  /** A record is never the ignore sentinel's twin: the only error
      `CreateMark` makes names the map and is never "IGNORE". */
  lemma {:induction false} CreateMarkNeverIgnores(rawText: string, groups: Captures, decoder: InstanceDecoder, services: Services)
    ensures CreateMark(rawText, groups, decoder, services) != ParseErrorIgnoreMark
  {
    var r := CreateMark(rawText, groups, decoder, services);
    if r.Failed? {
      assert |r.error| > |"IGNORE"|;
    }
  }

  /** On a hit with both coordinates readable, the record is fully
      determined by the captures, the lookup and the two numbers. */
  lemma {:induction false} CreateMarkHit(rawText: string, groups: Captures, decoder: InstanceDecoder, services: Services, md: MapData, x: real, y: real)
    requires services.getMapDataByName(Trim(groups.mapName)) == Some(md)
    requires services.parseFloat(groups.xCoord) == Some(x) && services.parseFloat(groups.yCoord) == Some(y)
    ensures CreateMark(rawText, groups, decoder, services)
            == Parsed(MarkData(rawText, groups.markName, Trim(groups.mapName), md.territoryId, md.rowId,
                               InstanceOf(decoder, groups.instance), Position(x, y)))
  {
  }

  /** The instance of a record built from an admitted capture is 1..9. */
  lemma {:induction false} CreateMarkInstanceInRange(rawText: string, groups: Captures, decoder: InstanceDecoder, services: Services)
    requires IsInstanceCapture(decoder, groups.instance)
    ensures var r := CreateMark(rawText, groups, decoder, services);
            r.Parsed? && r.mark.instance.Some? ==> 1 <= r.mark.instance.value <= 9
  {
    if groups.instance != [] {
      DecodedInstanceInRange(decoder, groups.instance);
    }
  }

  /** A grammar's `Parse`: the first match's captures go to `CreateMark`;
      with no match, `First()` throws. */
  function ParseWith(find: Matcher, decoder: InstanceDecoder, services: Services, line: string): (r: ParseOutcome)
    ensures find(line).None? ==> r.Faulted?
    ensures find(line).Some? ==> r == CreateMark(line, find(line).value, decoder, services)
    ensures r.Parsed? ==> r.mark.rawText == line
    ensures (find(line).Some? && IsInstanceCapture(decoder, find(line).value.instance) && r.Parsed? && r.mark.instance.Some?)
            ==> 1 <= r.mark.instance.value <= 9
  {
    match find(line)
    case None => Faulted
    case Some(groups) =>
      var r := CreateMark(line, groups, decoder, services);
      assert IsInstanceCapture(decoder, groups.instance) && r.Parsed? && r.mark.instance.Some?
             ==> 1 <= r.mark.instance.value <= 9 by {
        if IsInstanceCapture(decoder, groups.instance) {
          CreateMarkInstanceInRange(line, groups, decoder, services);
        }
      }
      r
  }

  /** `ITrackerParser`: a line test and a line parser. */
  datatype LineParser = LineParser(canParseLine: string -> bool, parse: string -> ParseOutcome)

  /** `Siren`, `Turtle`: a glyph g decodes to g - Instance1 + 1, the inverse
      of `AsInstanceIcon` on 1..9. */
  lemma {:induction false} InstanceIconRoundTrip(n: UInt32)
    requires 1 <= n <= 9
    ensures var icon := AsInstanceIcon(Some(n));
            IsInstanceCapture(GlyphOffset, icon) && icon != [] && DecodeInstance(GlyphOffset, icon[0]) == n
  {
  }

  /** Conversely, every admitted glyph is the icon of the instance it decodes to. */
  lemma {:induction false} InstanceGlyphRoundTrip(g: char)
    requires IsInstanceGlyph(g)
    ensures AsInstanceIcon(Some(DecodeInstance(GlyphOffset, g))) == [g]
  {
  }
}
