# Coord Importer, modelled in Dafny

Coord Importer is a plugin for a game client. It reads hunt-train text that
players paste from the community trackers (Siren, Faloop, Bear and Turtle),
and turns each line into a mark record: mark name, map, territory, instance
and coordinates. It can write the lines back sorted by configurable criteria:
patch, map, instance, multi-instance territory, or distance from the nearest
aetheryte. It can also print an "optimal hunt path" tree in chat. Two
managers supply the name data:

- the game-data manager builds dictionaries from map names and mark names to
  game ids, in every client language;
- the correction manager fixes tracker spellings from a bundled file.

This project models that core and proves what it does.

- `parser.dfy`: the shared `CreateMark` step that turns regex captures into
  a `MarkData`, and the `IGNORE` sentinel error.
- `siren_parser.dfy`, `faloop_parser.dfy`, `bear_parser.dfy` and
  `turtle_parser.dfy`: one grammar each.
  - A regex is an abstract matcher that returns the captures of its first
    match.
  - For each grammar, a `Sound` predicate states what any capture the real
    expression returns must look like: the literal tokens around the
    captures, and the character classes of the captures.
  - Properties are proved for every sound matcher, with a worked line from
    each tracker's format.
- `importer.dfy`: `ParsePayload` splits a payload into trimmed, non-empty
  lines and gives each line to the first parser that accepts it.
- `stable_sort.dfy`: LINQ's stable `OrderBy`, chains of `OrderBy`, and
  `GroupBy` followed by `SelectMany`, with their ordering, permutation and
  stability lemmas.
- `travel.dfy`: `GetTravelData`, which finds each mark's spawn point,
  nearest travel node and distance.
- `instance_slots.dfy`: `AetheryteSortInstances`.
  - It is an in-place array algorithm: within each territory, marks are
    reordered by instance, and each one keeps to the slots its territory
    already occupies.
  - It is proved against a slot-by-slot specification.
- `sort_manager.dfy`: the sort criteria, `SortMarks`, `SortByAetheryte` and
  `SortEntries`. Applying the active criteria in reverse is proved to be one
  lexicographic multi-key stable sort.
- `optimal_path.dfy`: `PrintOptimalPath`.
  - The per-mark loop splits the path into one segment per territory
    instance, and is proved equal to a run-splitting specification.
  - The tree prefixes and the chat message are built from the segments.
- `configuration.dfy`: the configuration class and its `Initialize`.
- `ci_data_manager.dfy`: loading the corrections file and the
  case-insensitive lookups `CorrectMarkName` and `CorrectMapName`.
- `data_manager_manager.dfy`: `LoadMapData`, `LoadMobIds`,
  `GetMapDataByName` and `GetMobIdByName`.
  - `LoadMapData`'s nested loops are a method, proved against a
    first-wins dictionary.
- `wrappers.dfy`, `seqs.dfy`, `text.dfy` and `utils.dfy`: helpers.
  - `Option` and `Result`.
  - `Where`, `Select`, `IndexOf` and `Reverse` over sequences.
  - .NET's `Trim`, `ToLowerInvariant`, `Replace` and `Split`.
  - The unsigned 32-bit integers and the instance glyphs.

Things the plugin gets from its host or from the outside world are
parameters of the model:

- the regexes and `float.Parse` (as functions that may fail);
- the map-name lookup a parser consults;
- the hunt and travel managers' nearest-spawn and nearest-node lookups;
- vector lengths;
- each patch's hunt maps;
- the territory-to-patch lookup (the host's `ContainingPatch`, the
  `patchOf` field of `SortManager.SortEnv`);
- the game sheets and the corrections file (as sequences and maps).

## Model

| member | source | states |
|---|---|---|
| Parser.CreateMark | CoordImporter/Parsers/Parser.cs:34-58 | fails with "Failed to find a map with name: " and the trimmed name exactly when the map lookup fails; faults exactly when a coordinate does not parse; otherwise the record carries the trimmed map name, the map's territory and row, the mark name, and the decoded instance |
| Parser.CreateMarkHit | CoordImporter/Parsers/Parser.cs:34-58 | with the map found and both coordinates parsed, the result is exactly the record built from the captures |
| Parser.CreateMarkNeverIgnores | CoordImporter/Parsers/Parser.cs:15-16 | `CreateMark` never produces the `IGNORE` sentinel |
| Parser.CreateMarkInstanceInRange | CoordImporter/Parsers/Parser.cs:48-54 | an instance capture of the grammar's class decodes to an instance between 1 and 9; an empty capture gives no instance |
| Parser.DecodedInstanceInRange | CoordImporter/Parsers/SirenParser.cs:26 | both decoders (the glyph offset plus one, and the digit) map their capture class into 1..9 |
| Parser.ParseWith | CoordImporter/Parsers/SirenParser.cs:22-27 | a line the matcher does not match faults (`First()` of no match); a matched line gives exactly `CreateMark` of the line and its first match's captures; a parsed record keeps the line as its raw text; a grammar-conforming instance is in 1..9 |
| Parser.DecodeInstance | CoordImporter/Parsers/SirenParser.cs:26 | the glyph decoder gives the glyph's offset from the instance-one glyph plus one, the digit decoder the digit's value, without wrap-around inside those classes |
| Parser.InstanceIconRoundTrip | CoordImporter/Utils.cs:38-41 | the icon of instance n (1..9) is one glyph, which the Siren/Turtle decoder maps back to n |
| Parser.InstanceGlyphRoundTrip | CoordImporter/Parsers/TurtleParser.cs:28 | decoding an instance glyph and taking its icon gives back that glyph |
| SirenParser.Parse | CoordImporter/Parsers/SirenParser.cs:22-29 | an unmatched line faults; a matched line gives exactly `CreateMark` of the line and its first match's captures with the glyph decoder; only a matched line parses, keeping the line as raw text; a sound grammar parses only lines with the link marker and gives instances in 1..9; never the `IGNORE` sentinel |
| SirenParser.CanParseLine | CoordImporter/Parsers/SirenParser.cs:29 | true exactly when the grammar matches somewhere in the line; with a sound grammar, such a line contains the link marker |
| SirenParser.AsLineParser | CoordImporter/Parsers/SirenParser.cs:10-32 | the Siren parser as an `ITrackerParser`: `Parse` of a line it cannot parse faults, a parsed record keeps the line as raw text, only lines with the link marker are taken, and the `IGNORE` sentinel never comes out |
| SirenParser.MatchNeedsLinkMarker | CoordImporter/Parsers/SirenParser.cs:17-19 | every line a sound Siren grammar accepts contains the link marker glyph |
| SirenParser.YilanLineAdmitted | CoordImporter/Parsers/SirenParser.cs:15-19 | a Siren-format line with a second-instance glyph is admitted with the captures Yilan / Thavnair / instance two / 26.8 / 20.9 |
| SirenParser.YilanLineParses | CoordImporter/Parsers/SirenParser.cs:22-27 | a matcher yielding the Yilan captures on that line makes `Parse` return the record for Yilan in Thavnair, instance 2, at (26.8, 20.9), with the line as raw text |
| FaloopParser.Parse | CoordImporter/Parsers/FaloopParser.cs:18-25 | an unmatched line faults; a matched line gives exactly `CreateMark` of the line and its first match's captures with the digit decoder; only a matched line parses, keeping the line as raw text; a sound grammar parses only lines with "[S]: " and gives instances in 1..9; never the `IGNORE` sentinel |
| FaloopParser.CanParseLine | CoordImporter/Parsers/FaloopParser.cs:25 | true exactly when the grammar matches somewhere in the line; with a sound grammar, such a line contains "[S]: " |
| FaloopParser.AsLineParser | CoordImporter/Parsers/FaloopParser.cs:10-28 | the Faloop parser as an `ITrackerParser`: `Parse` of a line it cannot parse faults, a parsed record keeps the whole line as raw text, only lines with "[S]: " are taken, and the `IGNORE` sentinel never comes out |
| FaloopParser.MatchNeedsServerTag | CoordImporter/Parsers/FaloopParser.cs:13-15 | every line a sound Faloop grammar accepts contains "[S]: " |
| FaloopParser.VogaalJaLineAdmitted | CoordImporter/Parsers/FaloopParser.cs:12-15 | a Faloop line "Odin [S]: Vogaal Ja - Middle La Noscea (1) ( 8.2, 32.65 )" is admitted with the digit as instance |
| FaloopParser.VogaalJaLineParses | CoordImporter/Parsers/FaloopParser.cs:18-23 | a matcher yielding those captures makes `Parse` return Vogaal Ja in Middle La Noscea, instance 1, at (8.2, 32.65), with the line as raw text |
| BearParser.Parse | CoordImporter/Parsers/BearParser.cs:16-24 | the `IGNORE` sentinel exactly when the match has no x coordinate; an unmatched line faults; a match with an x coordinate gives exactly `CreateMark` of the line and its captures with the digit decoder; a sound grammar gives instances in 1..9 |
| BearParser.CanParseLine | CoordImporter/Parsers/BearParser.cs:24 | true exactly when the grammar matches somewhere in the line; with a sound grammar, such a line contains "(" and the captured mark name |
| BearParser.AsLineParser | CoordImporter/Parsers/BearParser.cs:9-27 | the Bear parser as an `ITrackerParser`: `Parse` of a line it cannot parse faults, a parsed record keeps the line as raw text, the `IGNORE` sentinel comes only from a line it can parse, and only lines with "(" are taken |
| BearParser.MatchNeedsParenthesis | CoordImporter/Parsers/BearParser.cs:13 | every line a sound Bear grammar accepts contains the "(" before the coordinates and the captured mark name |
| BearParser.NotAvailableIgnoresServices | CoordImporter/Parsers/BearParser.cs:20 | a "NOT AVAILABLE" match is ignored before any map lookup or number parsing |
| BearParser.IgnoredOnlyWhenNotAvailable | CoordImporter/Parsers/BearParser.cs:12-20 | with a sound grammar, an ignored line contains "not available" in some letter case |
| BearParser.SugrivaLineAdmitted | CoordImporter/Parsers/BearParser.cs:11-14 | "Thavnair 3 ( 27.6 , 25.6 ) Sugriva" is admitted by the Bear grammar |
| BearParser.SugrivaLineParses | CoordImporter/Parsers/BearParser.cs:16-21 | a matcher yielding those captures makes `Parse` return Sugriva in Thavnair (the map name trimmed), instance 3, at (27.6, 25.6) |
| TurtleParser.Parse | CoordImporter/Parsers/TurtleParser.cs:24-31 | an unmatched line faults; a matched line gives exactly `CreateMark` of the line and its first match's captures with the glyph decoder; only a matched line parses, keeping the line as raw text; a sound grammar parses only lines with '@' and the link marker and gives instances in 1..9; never the `IGNORE` sentinel |
| TurtleParser.CanParseLine | CoordImporter/Parsers/TurtleParser.cs:31 | true exactly when the grammar matches somewhere in the line; with a sound grammar, such a line contains '@' and the link marker |
| TurtleParser.AsLineParser | CoordImporter/Parsers/TurtleParser.cs:11-34 | the Turtle parser as an `ITrackerParser`: `Parse` of a line it cannot parse faults, a parsed record keeps the line as raw text, only lines with '@' and the link marker are taken, and the `IGNORE` sentinel never comes out |
| TurtleParser.MatchNeedsAtAndLinkMarker | CoordImporter/Parsers/TurtleParser.cs:18-20 | every line a sound Turtle grammar accepts contains '@' and the link marker |
| TurtleParser.RaintrillerLineAdmitted | CoordImporter/Parsers/TurtleParser.cs:16-20 | a Turtle line for The raintriller in Kozama'uka with an instance-two glyph is admitted |
| TurtleParser.RaintrillerLineParses | CoordImporter/Parsers/TurtleParser.cs:24-28 | a matcher yielding those captures makes `Parse` return The raintriller in Kozama'uka, instance 2, at (20.30, 28.40) |
| Importer.KeepLines | CoordImporter/Importer.cs:20-22 | `TrimEntries` and `RemoveEmptyEntries`: every kept line is trimmed and not empty, and there are no more lines than pieces |
| Importer.KeepLinesTrimsThenDrops | CoordImporter/Importer.cs:20-22 | keeping lines is trimming every piece, in order, and dropping the pieces left empty |
| Importer.Lines | CoordImporter/Importer.cs:19-22 | the payload split on CR LF, CR or LF, each piece trimmed, empty pieces dropped, order kept; every line is trimmed and non-empty |
| Importer.KeepLinesKeepsTrimmed | CoordImporter/Importer.cs:22 | pieces that are already trimmed and non-empty are all kept, in order |
| Importer.LinesOfJoin | CoordImporter/Importer.cs:19-22 | trimmed, non-empty lines without line breaks, joined with "\n", split back into exactly those lines |
| Importer.FirstParser | CoordImporter/Importer.cs:23-24 | `FirstOrDefault`: none exactly when no parser accepts the line; otherwise the lowest index of a parser that accepts it |
| Importer.Settle | CoordImporter.Tests/ImporterTests.cs:148-172 | a record becomes success with that record; a parser error becomes a failure with that error; a parse that throws becomes "An unexpected error occurred while parsing input: " and the line |
| Importer.ParseLine | CoordImporter/Importer.cs:23-27 | no parser accepts the line: "Format not recognized for input: " and the line; otherwise the first accepting parser's outcome |
| Importer.ParsePayload | CoordImporter/Importer.cs:19-28 | one result per kept line, in order, each the outcome of `ParseLine` on that line |
| Importer.EmptyPayload | CoordImporter/Importer.cs:19-22 | the empty payload has no results |
| Importer.ParsePayloadPerLine | CoordImporter/Importer.cs:19-28 | a payload of "\n"-joined lines gives exactly one result per line |
| Importer.SentinelPassesThrough | CoordImporter/Importer.cs:23-27 | the `IGNORE` error of the first accepting parser reaches the caller as a failure "IGNORE" |
| Importer.DefaultParsers | CoordImporter/Importer.cs:12-17 | three parsers, in order Siren, Faloop, Bear: each recognises exactly the lines its grammar matches and parses them with its own `Parse` |
| Importer.FaloopLineGoesToFaloop | CoordImporter/Importer.cs:12-24 | a line without a link marker that Faloop matches is dispatched to Faloop, the second default parser, under a sound Siren grammar |
| Utils.AsInstanceIcon | CoordImporter/Utils.cs:38-41 | one glyph exactly for instances 1..9, offset from the instance-one glyph by the instance minus one; the empty string otherwise |
| Utils.AsInstanceIconInjective | CoordImporter/Utils.cs:38-41 | different instances in 1..9 get different icons |
| Utils.ForEach | CoordImporter/Utils.cs:18-26 | returns the source unchanged and applies the action to each element in order |
| Utils.Flatten | CoordImporter/Utils.cs:28-29 | every element of every inner sequence is in the result |
| Utils.FlattenConcat | CoordImporter/Utils.cs:28-29 | flattening distributes over concatenation |
| Text.Trim | CoordImporter/Parsers/Parser.cs:36 | the result starts and ends with a non-space, and is empty exactly when the input is all white space |
| Text.TrimIsMiddle | CoordImporter/Parsers/Parser.cs:36 | the input is a blank front, then the trimmed result, then a blank back: trimming changes and drops nothing inside |
| Text.Without | CoordImporter/Managers/DataManagerManager.cs:39 | `Replace("'", "")`: the character is gone, every other character is kept as many times as it occurs |
| Text.WithoutConcat | CoordImporter/Managers/DataManagerManager.cs:39 | removal works piece by piece, so the kept characters keep their order |
| Text.ToLower | CoordImporter/Managers/DataManagerManager.cs:45 | same length, each ASCII capital replaced by its small letter and everything else kept |
| Text.SplitLines | CoordImporter/Importer.cs:20-22 | at least one piece, none containing CR or LF; `Text.SplitLinesRoundTrip` and `Text.SplitLinesOfJoin` give it back as the inverse of joining |
| Text.Join | CoordImporter/Managers/SortManager.cs:72 | the parts in order with one separator between each two: the result starts with the first part and has the parts' total length plus one separator per gap; `Text.SplitLinesOfJoin` splits a newline-joined list back into its parts |
| Seqs.IndexOf | CoordImporter/Managers/SortManager.cs:79-86 | `List.IndexOf`: -1 exactly when absent; otherwise a position holding the element, with no earlier copy |
| Seqs.Reverse | CoordImporter/Managers/SortManager.cs:66-70 | the same length, position i holding the element at position length - 1 - i |
| Travel.TravelDataOf | CoordImporter/Managers/SortManager.cs:293-304 | success exactly when a spawn point and then a travel node are found; the data then holds the mark, that spawn point, that node, and the distance `ComputeDistance` gives for them; each failure is the error naming what was missing |
| Travel.ComputeDistance | CoordImporter/Managers/SortManager.cs:307-308 | the distance from the node plus its modifier: never below the modifier for a non-negative length, and exactly the modifier for a spawn point on the node |
| Travel.GetTravelData | CoordImporter/Managers/SortManager.cs:291-305 | values and errors together account for every mark; no errors exactly when every mark has travel data, and then the values are those marks' data in order |
| Travel.MarksPermutation | CoordImporter/Managers/SortManager.cs:144 | rearranging travel data rearranges the marks taken from it in the same way |
| StableSort.SortByPermutes | CoordImporter/Managers/SortManager.cs:79-105 | `OrderBy` returns a permutation of its input |
| StableSort.SortByOrders | CoordImporter/Managers/SortManager.cs:79-105 | `OrderBy` returns its input in non-decreasing key order |
| StableSort.SortByStable | CoordImporter/Managers/SortManager.cs:79-105 | `OrderBy` is stable: elements with equal keys keep their relative order |
| StableSort.SortBy | CoordImporter/Managers/SortManager.cs:79-105 | `OrderBy`: the same number of elements; `SortByPermutes`, `SortByOrders` and `SortByStable` state its meaning |
| StableSort.SortAllOrders | CoordImporter/Managers/SortManager.cs:66-70 | sorting by the keys from last to first orders lexicographically by the keys from first to last |
| StableSort.SortAllPermutes | CoordImporter/Managers/SortManager.cs:66-70 | a chain of `OrderBy` returns a permutation |
| StableSort.SortAllStable | CoordImporter/Managers/SortManager.cs:66-70 | elements equal under every key keep their relative order |
| StableSort.SortAll | CoordImporter/Managers/SortManager.cs:66-70 | the same number of elements; `SortAllOrders`, `SortAllPermutes` and `SortAllStable` state its meaning |
| StableSort.GroupByPermutes | CoordImporter/Managers/SortManager.cs:154-159 | `GroupBy` followed by `SelectMany` returns a permutation |
| StableSort.GroupByKeepsGroupOrder | CoordImporter/Managers/SortManager.cs:154-159 | within each group, elements keep their original order |
| StableSort.GroupByContiguous | CoordImporter/Managers/SortManager.cs:147-152 | elements with equal keys end up adjacent |
| StableSort.GroupByGroupOrder | CoordImporter/Managers/SortManager.cs:147-159 | two elements with different keys come in the order in which their keys first appear in the input |
| StableSort.GroupByKeepsCoarseBlocks | CoordImporter/Managers/SortManager.cs:147-159 | grouping by a finer key (a map instance) keeps together the blocks of a coarser key (a territory) the input already had together |
| StableSort.GroupBy | CoordImporter/Managers/SortManager.cs:147-159 | `GroupBy` then `SelectMany`: the same number of elements; `GroupByPermutes`, `GroupByKeepsGroupOrder`, `GroupByContiguous` and `GroupByGroupOrder` state its meaning |
| StableSort.FirstKey | CoordImporter/Managers/SortManager.cs:147-159 | the first position of an element with the key, or the length when there is none |
| InstanceSlots.SortInstances | CoordImporter/Managers/SortManager.cs:161-181 | the specification: every position keeps its length and holds, at its rank within its territory, that territory's marks ordered by instance (missing counts as 1) |
| InstanceSlots.SortInstancesKeepsTerritories | CoordImporter/Managers/SortManager.cs:164-178 | every position keeps a mark of the same territory as before |
| InstanceSlots.SortInstancesGroups | CoordImporter/Managers/SortManager.cs:172-176 | each territory's marks, read in order, are that territory's marks stably sorted by instance |
| InstanceSlots.SortInstancesPermutes | CoordImporter/Managers/SortManager.cs:161-181 | the result is a permutation of the input |
| InstanceSlots.RankIncreases | CoordImporter/Managers/SortManager.cs:164-166 | a later mark of a territory has a higher index in that territory's index list |
| InstanceSlots.AetheryteSortInstances | CoordImporter/Managers/SortManager.cs:161-181 | rewriting the array in place, territory by territory, leaves exactly the specification's sequence |
| SortManager.MultiInstanceKeyMeaning | CoordImporter/Managers/SortManager.cs:113-122 | the multi-instance key is 0 exactly when two marks of the territory have different instance values (a missing instance counting as its own value) |
| SortManager.PatchPosition | CoordImporter/Managers/SortManager.cs:79-86 | the position of the mark's patch in the patch order, -1 exactly when the patch is not listed |
| SortManager.PatchKey | CoordImporter/Managers/SortManager.cs:79-86 | the Patch criterion's key is the patch position |
| SortManager.MapPosition | CoordImporter/Managers/SortManager.cs:91-100 | the position of the territory in its patch's territory order, -1 exactly when the patch has no order or the territory is not in it |
| SortManager.MapKey | CoordImporter/Managers/SortManager.cs:91-100 | the Map criterion's key is the map position |
| SortManager.InstanceSortKey | CoordImporter/Managers/SortManager.cs:105 | `Instance ?? 1`: the instance, or 1 when there is none |
| SortManager.MultiInstanceKey | CoordImporter/Managers/SortManager.cs:113-122 | every mark gets 0 or 1; `MultiInstanceKeyMeaning` says which |
| SortManager.Key | CoordImporter/Managers/SortManager.cs:77-123 | every key criterion's key is at least -1 |
| SortManager.AetheryteKeepMapsTogether | CoordImporter/Managers/SortManager.cs:154-159 | a permutation in which each territory's marks are adjacent and keep their order, the territories coming in the order they first appear |
| SortManager.AetheryteCompleteMaps | CoordImporter/Managers/SortManager.cs:147-152 | a permutation in which each (territory, instance or 1) pair's marks are adjacent and keep their order, the pairs coming in the order they first appear |
| SortManager.SortByAetheryte | CoordImporter/Managers/SortManager.cs:128-145 | when any mark lacks travel data, the marks come back unchanged |
| SortManager.SortByAetheryteRearranges | CoordImporter/Managers/SortManager.cs:128-145 | the aetheryte sort always returns a permutation of the marks |
| SortManager.AetheryteOrderPermutes | CoordImporter/Managers/SortManager.cs:136-144 | after the optional passes, the travel data is still a permutation of the original |
| SortManager.AetheryteOrder | CoordImporter/Managers/SortManager.cs:132-144 | no order exactly when some mark lacks travel data; otherwise one entry per mark |
| SortManager.AetheryteOrderByDistance | CoordImporter/Managers/SortManager.cs:136-138 | with the three passes off, the order is by distance from the nearest aetheryte, stable among equal distances |
| SortManager.AetheryteOrderCompletesMaps | CoordImporter/Managers/SortManager.cs:142 | with complete-maps on, each map instance's marks are adjacent, and with keep-maps-together also on each territory's marks stay adjacent too |
| SortManager.AetheryteOrderKeepsMapsTogether | CoordImporter/Managers/SortManager.cs:141 | with keep-maps-together on, each territory's marks are adjacent, whether or not complete-maps then regroups them by instance |
| SortManager.SortMarks | CoordImporter/Managers/SortManager.cs:75-126 | fails exactly for the Map criterion when some mark's patch has no territory order (the dictionary's missing key) |
| SortManager.SortMarksRearranges | CoordImporter/Managers/SortManager.cs:75-126 | every criterion returns a permutation of the marks |
| SortManager.SortMarksIsStableSort | CoordImporter/Managers/SortManager.cs:77-123 | every criterion other than aetheryte is a stable sort by its key (patch position, map position, instance or 1, multi-instance flag) and leaves the marks in key order |
| SortManager.ApplyCriteria | CoordImporter/Managers/SortManager.cs:66-70 | the `Reduce` over the criteria keeps the number of marks; `ApplyCriteriaSnoc`, `ApplyCriteriaRearranges` and `CriteriaAreMultiKeySort` state its meaning |
| SortManager.ApplyCriteriaRearranges | CoordImporter/Managers/SortManager.cs:66-70 | folding the criteria returns a permutation |
| SortManager.ApplyCriteriaSnoc | CoordImporter/Managers/SortManager.cs:70 | the fold applies the criteria one after another, stopping at a failure |
| SortManager.CriteriaAreMultiKeySort | CoordImporter/Managers/SortManager.cs:66-70 | applying the active criteria in reverse is one multi-key sort by the criteria in their listed order |
| SortManager.SortEntries | CoordImporter/Managers/SortManager.cs:55-73 | when any line fails to parse, the payload comes back unchanged |
| SortManager.SortEntriesRearranges | CoordImporter/Managers/SortManager.cs:55-73 | the output is the raw lines of a permutation of the parsed marks, joined by "\n" |
| SortManager.SortEntriesOrdersByKeys | CoordImporter/Managers/SortManager.cs:55-73 | without the aetheryte criterion, the output is the raw lines sorted lexicographically by the active criteria, with ties in input order |
| SortManager.ReverseSnoc | CoordImporter/Managers/SortManager.cs:66-69 | reversing an order that ends with a criterion puts that criterion first |
| SortManager.AetheryteLastSortsItsOutput | CoordImporter/Managers/SortManager.cs:66-70 | with the aetheryte criterion last and only once, the fold is the multi-key sort by the other criteria applied to the aetheryte sort's output |
| SortManager.SortEntriesAetheryteLast | CoordImporter/Managers/SortManager.cs:55-73 | with the aetheryte criterion last (as in the default order), the output is the raw lines of the aetheryte order re-sorted lexicographically by the other criteria, full ties in aetheryte order |
| SortManager.SortEntriesFailsOnlyOnMissingPatch | CoordImporter/Managers/SortManager.cs:97-98 | sorting can only fail when the Map criterion is active |
| SortManager.ApplyCriteriaNeedsMap | CoordImporter/Managers/SortManager.cs:97-98 | a failing fold contains the Map criterion |
| OptimalPath.MarkSteps | CoordImporter/Managers/SortManager.cs:215-234 | a mark's steps end with its map link and have no other; they start with a teleport exactly when there is no previous position or the walk is longer than the aetheryte distance; the shortcut appears exactly when teleporting to a node that is not an aetheryte |
| OptimalPath.StepPayloads | CoordImporter/Managers/SortManager.cs:220-234 | a teleport step gives two payloads (the text and the aetheryte link), any other step one |
| OptimalPath.RunSteps | CoordImporter/Managers/SortManager.cs:215-238 | between one and three steps per mark of the run |
| OptimalPath.Runs | CoordImporter/Managers/SortManager.cs:205-213 | splitting into runs of equal territory instance is empty only for no marks, and the last run ends with the last mark |
| OptimalPath.RunsFlatten | CoordImporter/Managers/SortManager.cs:205-213 | the runs, concatenated, are the marks in order |
| OptimalPath.RunsUniform | CoordImporter/Managers/SortManager.cs:205-213 | every run is non-empty and lies in a single territory instance |
| OptimalPath.RunsSeparated | CoordImporter/Managers/SortManager.cs:205-213 | adjacent runs are in different territory instances |
| OptimalPath.RunStartsWithTeleport | CoordImporter/Managers/SortManager.cs:207-218 | every run starts with a teleport, because its first mark has no previous position |
| OptimalPath.RunLinksMarks | CoordImporter/Managers/SortManager.cs:234-238 | the map links of a run's steps are its marks, in order |
| OptimalPath.PathSegmentsShape | CoordImporter/Managers/SortManager.cs:196-241 | for at least one mark, every segment starts with a teleport, and the map links of all segments are the marks in order |
| OptimalPath.PlanPath | CoordImporter/Managers/SortManager.cs:196-241 | the loop over the marks builds exactly the specification's segments |
| OptimalPath.PathSegments | CoordImporter/Managers/SortManager.cs:196-241 | at least one segment; `PathSegmentsShape` states its shape |
| OptimalPath.TreePrefix | CoordImporter/Managers/SortManager.cs:247-264 | three characters ending in a space; first: '┗' for the last territory's first line, a wide space for its later lines, '┣' for another territory's first line and '┃' for its later lines; second: '┳' on a first line, then '┗' exactly on the segment's last line and '┣' on the others |
| OptimalPath.TerritoryLines | CoordImporter/Managers/SortManager.cs:245-270 | one tree line per step of the segment |
| OptimalPath.TreeLines | CoordImporter/Managers/SortManager.cs:243-272 | every line starts with a text payload (its tree prefix or the divider) |
| OptimalPath.TreeLinesCount | CoordImporter/Managers/SortManager.cs:243-272 | the tree has one line per step plus one divider between consecutive territories |
| OptimalPath.TrunkEndsAtLastTerritory | CoordImporter/Managers/SortManager.cs:249-271 | the trunk runs with '┣' or '┃' down to the last territory's first line, which is '┗', and wide spaces below it |
| OptimalPath.Terminate | CoordImporter/Managers/SortManager.cs:273-283 | the `Reduce`: every line followed by a new line, in order, the lines concatenated |
| OptimalPath.TerminateConcat | CoordImporter/Managers/SortManager.cs:273-283 | terminating two blocks of lines one after the other is terminating each |
| OptimalPath.PathMessage | CoordImporter/Managers/SortManager.cs:273-283 | the header, then the terminated tree lines: its length is the header's plus every line's plus one per line |
| OptimalPath.PrintOptimalPath | CoordImporter/Managers/SortManager.cs:183-289 | nothing is printed exactly when a line fails to parse or a mark lacks travel data; otherwise the header and the tree of the loop's segments |
| Configuration.TerritoryOrders | CoordImporter/CiConfiguration.cs:46-51 | every patch is keyed to its own hunt maps |
| Configuration.Configuration.constructor | CoordImporter/CiConfiguration.cs:20-34 | version 0, every toggle on, empty sort orders |
| Configuration.Configuration.Initialize | CoordImporter/CiConfiguration.cs:36-54 | a given plugin interface replaces the old one; with a patch order already set the sort settings stay; otherwise the criteria become patch, map, instance, aetheryte, the patches newest first, and every patch's hunt maps; the patch order is never empty afterwards and the toggles are untouched |
| Configuration.InitializeTwice | CoordImporter/CiConfiguration.cs:40 | initializing twice gives the same sort settings as initializing once |
| Configuration.DefaultsKeyEveryPatch | CoordImporter/CiConfiguration.cs:46-51 | the default territory order keys every patch, so the Map criterion never fails on it |
| Configuration.DefaultPatchOrder | CoordImporter/CiConfiguration.cs:44 | the default patch order holds every patch exactly once, from Dawntrail down to A Realm Reborn |
| Configuration.Configuration.SortSettings | CoordImporter/CiConfiguration.cs:24-34 | the sort criteria, patch and territory orders and the three aetheryte toggles, field by field |
| CiDataManager.LowerKeys | CoordImporter/Managers/CiDataManager.cs:38-44 | a tracker's entries, each with its name lower-cased and its correction unchanged |
| CiDataManager.Entries | CoordImporter/Managers/CiDataManager.cs:33-45 | every tracker's entries, lower-cased, and nothing else |
| CiDataManager.Collect | CoordImporter/Managers/CiDataManager.cs:46-49 | the dictionary exists exactly when no name has two different corrections; its keys are the entries' names, and each name maps to its correction |
| CiDataManager.LoadCorrections | CoordImporter/Managers/CiDataManager.cs:31-50 | loading succeeds exactly when the merged entries agree on every name |
| CiDataManager.CiDataManager.CorrectMarkName | CoordImporter/Managers/CiDataManager.cs:21-24 | the name itself or one of the listed corrections |
| CiDataManager.CiDataManager.CorrectMapName | CoordImporter/Managers/CiDataManager.cs:26-29 | the name itself or one of the listed corrections |
| CiDataManager.LoadedKeysAreLower | CoordImporter/Managers/CiDataManager.cs:41 | every key of the loaded dictionary is lower case |
| CiDataManager.CorrectsListedNames | CoordImporter/Managers/CiDataManager.cs:21-29 | a name any tracker lists, in any letter case, is corrected to what the file says, for marks and maps alike |
| CiDataManager.KeepsUnlistedNames | CoordImporter/Managers/CiDataManager.cs:21-29 | a name no tracker lists in any case comes back unchanged |
| CiDataManager.CorrectIgnoresCase | CoordImporter/Managers/CiDataManager.cs:23 | two spellings that differ only in letter case get the same correction |
| CiDataManager.ConflictFails | CoordImporter/Managers/CiDataManager.cs:46-49 | two entries giving one name (ignoring case) different corrections make loading fail |
| DataManagerManager.FirstWins | CoordImporter/Managers/DataManagerManager.cs:112 | the keys are exactly the entries' names, and each maps to the value of its first entry |
| DataManagerManager.TerritoryEntries | CoordImporter/Managers/DataManagerManager.cs:99-110 | one entry per territory whose place name exists: its lower-cased place name and its territory and map rows |
| DataManagerManager.LanguageEntries | CoordImporter/Managers/DataManagerManager.cs:95-97 | a language missing either sheet contributes nothing |
| DataManagerManager.MapEntries | CoordImporter/Managers/DataManagerManager.cs:91-97 | the entries of every language, and nothing else |
| DataManagerManager.AddTerritories | CoordImporter/Managers/DataManagerManager.cs:99-117 | the inner loop adds one language's territories as a first-wins dictionary would |
| DataManagerManager.LoadMapData | CoordImporter/Managers/DataManagerManager.cs:85-123 | the loops over languages and territories build the first-wins dictionary of all place-name entries |
| DataManagerManager.NormaliseMobName | CoordImporter/Managers/DataManagerManager.cs:72 | the key form of a name is lower case and has no apostrophe |
| DataManagerManager.NameEntries | CoordImporter/Managers/DataManagerManager.cs:63-73 | the normalised names of exactly those rows that are notorious monsters |
| DataManagerManager.MobEntries | CoordImporter/Managers/DataManagerManager.cs:49-78 | the entries of every language whose name sheet loads, and nothing else |
| DataManagerManager.NotoriousNameIds | CoordImporter/Managers/DataManagerManager.cs:55-61 | the name rows the notorious-monster sheet refers to, or none without that sheet |
| DataManagerManager.LoadMobIds | CoordImporter/Managers/DataManagerManager.cs:49-83 | every key is lower case without apostrophes, and every id is a notorious monster's name row |
| DataManagerManager.FirstIndex | CoordImporter/Managers/DataManagerManager.cs:79 | `DistinctBy` keeps the entry at the first position holding a name |
| DataManagerManager.DataManagerManager.GetMobIdByName | CoordImporter/Managers/DataManagerManager.cs:36-41 | found exactly when the name, lower-cased and without apostrophes, is a key, and then it is one of the loaded ids |
| DataManagerManager.DataManagerManager.GetMapDataByName | CoordImporter/Managers/DataManagerManager.cs:43-47 | found exactly when the lower-cased name is a key, and then it is one of the loaded maps |
| DataManagerManager.MobLookupIgnoresCaseAndApostrophes | CoordImporter/Managers/DataManagerManager.cs:38-39 | names equal up to letter case and apostrophes ("Li'l" and "Lil'") find the same id |
| DataManagerManager.MapLookupIgnoresCase | CoordImporter/Managers/DataManagerManager.cs:45 | names equal up to letter case find the same map |
| DataManagerManager.FindsEveryNotoriousMonster | CoordImporter/Managers/DataManagerManager.cs:49-83 | the name of any notorious monster, in any loaded language and letter case, finds the id of the first monster with that normalised name |
| DataManagerManager.FindsEveryNamedTerritory | CoordImporter/Managers/DataManagerManager.cs:85-123 | every territory with a place name, in a language whose sheets load, is found under that name in any letter case, and the lookup gives the map data of the first territory listed under that name |
| DataManagerManager.FoundMapsAreTerritories | CoordImporter/Managers/DataManagerManager.cs:85-123 | whatever a map name finds belongs to a territory whose place name equals that name, ignoring case |

## Where the documentation and the code differ

The model follows the code in each case except for exceptions inside a
parser, where it follows the tests.

- The `IGNORE` sentinel.
  - The documented behaviour is that the importer drops lines whose parser returns the
    `IGNORE` error.
  - `ParsePayload` (CoordImporter/Importer.cs:19-28) has no such filter, so
    the sentinel reaches callers as an ordinary failure
    (`Importer.SentinelPassesThrough`).
  - `SortEntries` and `PrintOptimalPath` therefore give up on a payload
    holding a Bear "NOT AVAILABLE" line.
- Exceptions inside a parser.
  - `Importer.cs` as given has no exception handler, while
    CoordImporter.Tests/ImporterTests.cs:148-172 expects the failure "An
    unexpected error occurred while parsing input: " and the line.
  - The model follows the tests (`Importer.Settle`) and takes the parser
    list as a parameter, as that revision does.
- Missing travel data.
  - The documented behaviour is that sorting returns the text unchanged when a mark has
    no travel data.
  - In the code (CoordImporter/Managers/SortManager.cs:132-134), only the
    aetheryte step falls back to its input. The other criteria still run.
- `PrintOptimalPath` walks the marks in their parsed order
  (CoordImporter/Managers/SortManager.cs:192-200), not in aetheryte order.
- A missing patch under the Map criterion.
  - The code indexes the territory order by the mark's patch
    (CoordImporter/Managers/SortManager.cs:97-98). This throws when the
    patch is missing.
  - The model returns `None` for it (`SortManager.SortMarks`).
  - `Initialize` keys every patch, so with its defaults this does not
    happen (`Configuration.DefaultsKeyEveryPatch`).
- `FaloopParser` calls `CreateMark` with the input line as an extra first
  argument (CoordImporter/Parsers/FaloopParser.cs:22), while `Parser.cs`
  defines only the two-argument form. Every parser in the model passes the
  line along, so that records keep their raw text for `SortEntries`.
- Parser order.
  - CoordImporter/Plugin.cs:40-42 registers the parsers with the host as
    Bear, Faloop, Siren.
  - The importer's own list (CoordImporter/Importer.cs:12-17) is Siren,
    Faloop, Bear.
  - `Importer.DefaultParsers` follows `Importer.cs`. The order matters only
    for a line that more than one grammar accepts, because the first parser
    that accepts a line parses it.

## Left out

- Regular expressions: each grammar is an abstract matcher constrained by a
  `Sound` predicate (literal tokens and capture classes), not a regex
  engine. Backtracking and which of several matches is first are not
  modelled.
- `float.Parse`, vector lengths and float arithmetic are parameters or
  `real` values; rounding and single precision are not modelled.
- Text.ToLower: covers the ASCII letters only, because `ToLowerInvariant`'s
  full Unicode case table is outside the model.
- Logging (`LogParse`, `Dump`, `Logger.Verbose`), `AsMaybe`'s empty-action
  callback, and printing errors to chat are side effects the model does not
  carry.
- The map links: `CreateAetheryteMapLink` and `CreateMapLink`
  (CoordImporter/Utils.cs:43-98) become the `AetheryteLink` and `MarkLink`
  payloads, without their place-name text, coordinates and arrow glyphs.
- The teleport, shortcut and error-message texts that interpolate floats or
  vectors are not formatted.
- `Save`, `GetExcelSheet` and sheet-cache eviction go through the host. The
  JSON file and the game sheets are inputs, given as sequences and maps.
- The notorious-monster sheet is read once per language without a language
  argument, so it is the same set each time. It is one parameter.
- `ArgumentOutOfRangeException` for an unknown criterion cannot happen,
  because the criteria type is closed.
- SortManager.SortEntriesOrdersByKeys: requires that the aetheryte criterion
  is not active. `SortManager.SortEntriesAetheryteLast` covers an order that
  ends with it once, as the default order does. For an order with the
  aetheryte criterion elsewhere, only the permutation
  (`SortManager.SortEntriesRearranges`) and the aetheryte step's own
  properties are proved, because that step is not a sort by a per-mark key.
- SortManager.AetheryteOrderByDistance: proves the distance order only with
  the three optional passes off. With them on, the model proves the
  permutation, the contiguity of maps, and (in `InstanceSlots`) the
  per-territory instance order, not a single combined order.
- CiDataManager.CiDataManager.CorrectMarkName: its own contract says only
  that the result is the name or a listed correction. The exact behaviour
  on loaded data is stated by `CorrectsListedNames` and
  `KeepsUnlistedNames`.
- CiDataManager.CiDataManager.CorrectMapName: the same as `CorrectMarkName`.
  Its own contract says only that the result is the name or a listed
  correction; `CorrectsListedNames` and `KeepsUnlistedNames` state the
  exact behaviour for map names too.
