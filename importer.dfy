/** `Importer.ParsePayload`: split a pasted payload into lines and hand
    each line to the first parser that recognises it. */
module Importer {
  import opened Wrappers
  import opened Utils
  import opened Text
  import opened Models
  import opened Parser
  import Seqs
  import SirenParser
  import FaloopParser
  import BearParser

  /** What the importer answers for one line. */
  type MarkResult = Result<MarkData, string>

  const FormatNotRecognized: string := "Format not recognized for input: "
  const UnexpectedError: string := "An unexpected error occurred while parsing input: "

  /** A line survives splitting when it is not blank, and is kept trimmed. */
  predicate IsKeptLine(s: string) {
    s != [] && !IsWhiteSpace(s[0]) && !IsWhiteSpace(s[|s| - 1])
  }

  /** A trimmed piece is either empty or a kept line. */
  lemma {:induction false} TrimmedIsKept(s: string)
    ensures Trim(s) == [] || IsKeptLine(Trim(s))
  {
  }

  /** `TrimEntries | RemoveEmptyEntries` over the split pieces. */
  function KeepLines(pieces: seq<string>): (r: seq<string>)
    ensures |r| <= |pieces|
    ensures forall k :: 0 <= k < |r| ==> IsKeptLine(r[k])
  {
    if pieces == [] then []
    else
      var t := Trim(pieces[0]);
      TrimmedIsKept(pieces[0]);
      var head := if t == [] then [] else [t];
      head + KeepLines(pieces[1..])
  }

  predicate IsNonEmpty(s: string) {
    s != []
  }

  /** Keeping lines is trimming every piece, in order, and then dropping
      the pieces left empty. */
  lemma {:induction false} KeepLinesTrimsThenDrops(pieces: seq<string>)
    ensures KeepLines(pieces) == Seqs.Filter(IsNonEmpty, Seqs.MapSeq(Trim, pieces))
  {
    if pieces != [] {
      var m := Seqs.MapSeq(Trim, pieces);
      assert m[1..] == Seqs.MapSeq(Trim, pieces[1..]);
      KeepLinesTrimsThenDrops(pieces[1..]);
    }
  }

  /** The payload's lines: split on "\r\n", "\r" and "\n", trimmed, blanks dropped. */
  function Lines(payload: string): (r: seq<string>)
    ensures forall k :: 0 <= k < |r| ==> IsKeptLine(r[k])
    ensures r == Seqs.Filter(IsNonEmpty, Seqs.MapSeq(Trim, SplitLines(payload)))
  {
    KeepLinesTrimsThenDrops(SplitLines(payload));
    KeepLines(SplitLines(payload))
  }

  /** Pieces that are already trimmed and non-blank all survive, unchanged. */
  lemma {:induction false} KeepLinesKeepsTrimmed(pieces: seq<string>)
    requires forall k :: 0 <= k < |pieces| ==> IsKeptLine(pieces[k])
    ensures KeepLines(pieces) == pieces
  {
    if pieces != [] {
      TrimUnchanged(pieces[0]);
      KeepLinesKeepsTrimmed(pieces[1..]);
    }
  }

  /** Lines written one per row come back exactly, in order. */
  lemma {:induction false} LinesOfJoin(lines: seq<string>)
    requires |lines| >= 1
    requires forall k :: 0 <= k < |lines| ==> IsKeptLine(lines[k]) && NoLineBreak(lines[k])
    ensures Lines(Join(lines, "\n")) == lines
  {
    SplitLinesOfJoin(lines);
    KeepLinesKeepsTrimmed(lines);
  }

  /** `FirstOrDefault(parser => parser.CanParseLine(line))`: the position of
      the first parser that recognises the line. */
  function FirstParser(parsers: seq<LineParser>, line: string): (r: Option<nat>)
    ensures r.None? <==> forall j :: 0 <= j < |parsers| ==> !parsers[j].canParseLine(line)
    ensures r.Some? ==> && r.value < |parsers|
                        && parsers[r.value].canParseLine(line)
                        && forall j :: 0 <= j < r.value ==> !parsers[j].canParseLine(line)
  {
    if parsers == [] then None
    else if parsers[0].canParseLine(line) then Some(0)
    else
      match FirstParser(parsers[1..], line)
      case None => None
      case Some(k) => Some(k + 1)
  }

  /** The first recogniser is the only parser that recognises the line
      while no parser before it does. */
  lemma {:induction false} FirstParserIsFirst(parsers: seq<LineParser>, line: string)
    ensures forall k :: 0 <= k < |parsers| && parsers[k].canParseLine(line)
                        && (forall j :: 0 <= j < k ==> !parsers[j].canParseLine(line))
                        ==> FirstParser(parsers, line) == Some(k)
  {
    forall k | 0 <= k < |parsers| && parsers[k].canParseLine(line)
               && (forall j :: 0 <= j < k ==> !parsers[j].canParseLine(line))
      ensures FirstParser(parsers, line) == Some(k)
    {
      var m := FirstParser(parsers, line).value;
      assert parsers[m].canParseLine(line) && parsers[k].canParseLine(line);
    }
  }

  /** A parser's outcome as the importer reports it: a fault becomes the
      generic error naming the line. */
  function Settle(outcome: ParseOutcome, line: string): (r: MarkResult)
    ensures r.Success? <==> outcome.Parsed?
    ensures outcome.Parsed? ==> r == Success(outcome.mark)
    ensures outcome.Failed? ==> r == Failure(outcome.error)
    ensures outcome.Faulted? ==> r == Failure(UnexpectedError + line)
  {
    match outcome
    case Parsed(mark) => Success(mark)
    case Failed(error) => Failure(error)
    case Faulted => Failure(UnexpectedError + line)
  }

  /** One line: no parser recognising it gives the not-recognised error
      without any parse; otherwise the first recogniser's outcome stands. */
  function ParseLine(parsers: seq<LineParser>, line: string): (r: MarkResult)
    ensures (forall j :: 0 <= j < |parsers| ==> !parsers[j].canParseLine(line))
            ==> r == Failure(FormatNotRecognized + line)
    ensures forall k :: 0 <= k < |parsers| && parsers[k].canParseLine(line)
                        && (forall j :: 0 <= j < k ==> !parsers[j].canParseLine(line))
                        ==> r == Settle(parsers[k].parse(line), line)
  {
    FirstParserIsFirst(parsers, line);
    match FirstParser(parsers, line)
    case None => Failure(FormatNotRecognized + line)
    case Some(k) => Settle(parsers[k].parse(line), line)
  }

  /** `ParsePayload`: one result per line, in line order. */
  function ParsePayload(parsers: seq<LineParser>, payload: string): (r: seq<MarkResult>)
    ensures |r| == |Lines(payload)|
    ensures forall i :: 0 <= i < |r| ==> r[i] == ParseLine(parsers, Lines(payload)[i])
  {
    var lines := Lines(payload);
    seq(|lines|, i requires 0 <= i < |lines| => ParseLine(parsers, lines[i]))
  }

  /** An empty payload gives no results. */
  lemma {:induction false} EmptyPayload(parsers: seq<LineParser>)
    ensures ParsePayload(parsers, "") == []
  {
    assert SplitLines("") == [""];
    assert Trim("") == "";
  }

  /** A payload written one line per row gets exactly one result per row,
      each the answer for that row alone. */
  lemma {:induction false} ParsePayloadPerLine(parsers: seq<LineParser>, lines: seq<string>)
    requires |lines| >= 1
    requires forall k :: 0 <= k < |lines| ==> IsKeptLine(lines[k]) && NoLineBreak(lines[k])
    ensures var r := ParsePayload(parsers, Join(lines, "\n"));
            |r| == |lines| && forall i :: 0 <= i < |lines| ==> r[i] == ParseLine(parsers, lines[i])
  {
    LinesOfJoin(lines);
  }

  /** The ignore sentinel is passed through like any other error. */
  lemma {:induction false} SentinelPassesThrough(parsers: seq<LineParser>, line: string, k: nat)
    requires k < |parsers| && parsers[k].canParseLine(line)
    requires forall j :: 0 <= j < k ==> !parsers[j].canParseLine(line)
    requires parsers[k].parse(line) == ParseErrorIgnoreMark
    ensures ParseLine(parsers, line) == Failure("IGNORE")
  {
  }

  /** The importer's parsers, in priority order: Siren, Faloop, Bear. */
  function DefaultParsers(siren: Matcher, faloop: Matcher, bear: Matcher, services: Services): (r: seq<LineParser>)
    ensures |r| == 3
    ensures forall line :: && (r[0].canParseLine(line) <==> siren(line).Some?)
                           && (r[1].canParseLine(line) <==> faloop(line).Some?)
                           && (r[2].canParseLine(line) <==> bear(line).Some?)
    ensures forall line :: && r[0].parse(line) == SirenParser.Parse(siren, services, line)
                           && r[1].parse(line) == FaloopParser.Parse(faloop, services, line)
                           && r[2].parse(line) == BearParser.Parse(bear, services, line)
  {
    [SirenParser.AsLineParser(siren, services),
     FaloopParser.AsLineParser(faloop, services),
     BearParser.AsLineParser(bear, services)]
  }

  /** A line without the link marker never goes to Siren, so a Faloop line
      goes to Faloop even though Siren is tried first. */
  lemma {:induction false} FaloopLineGoesToFaloop(siren: Matcher, faloop: Matcher, bear: Matcher, services: Services, line: string)
    requires SirenParser.Sound(siren)
    requires LinkMarker !in line
    requires faloop(line).Some?
    ensures FirstParser(DefaultParsers(siren, faloop, bear, services), line) == Some(1)
  {
    if siren(line).Some? {
      SirenParser.MatchNeedsLinkMarker(siren, line);
    }
  }
}
