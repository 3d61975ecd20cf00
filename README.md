# SVG fonts, shadow silhouettes and the loader, modelled in Dafny

This project models three parts of a small OpenGL game framework and proves
properties about them.

**The SVG-font engine** (`src/font.cpp`):
- Reading a font. `ParseSVGFont` finds `<svg>/<defs>/<font>`, reads the
  `font-face` header, reads every `<glyph>` and builds its outline from the
  SVG path data, then reads every `<hkern>` into the kerning table. It
  falls back to a '?' glyph when the font has none.
- Text layout. `ThroughText` walks a text glyph by glyph. It breaks lines
  on newlines and when a word would overflow the maximum width. It applies
  kerning and aligns each line left, centred or right. For every glyph it
  hands the glyph, its position and its text index to a visitor, and ends
  with one call for the end of the text.
- Queries built on that walk: rendering the text, the selection rectangles
  of a range, which glyph lies under a point, the coordinates of a glyph,
  and the bounding box of the text.

**The shadow scene** (`src/test3d/shadow.cpp`):
- `GetTriangles` splits a mesh's faces into triangles.
- `GetShadowEdges` finds the silhouette: the edges of visible triangles
  that no other visible triangle shares.
- The scene's wheel, key and mouse handlers.

**The loader** (`src/load.cpp`):
- `Loader::Add` queues jobs.
- `LoadAll` runs the jobs in order and stops at the first one that fails.

## Modules

| module | what it holds |
|---|---|
| `Wrappers` | `Option` and `Result` |
| `Chars` | character classes and helpers on C strings (`At` reads past the end as NUL) |
| `Utf8` | UTF-8 decoding and encoding of one code point, with round trips |
| `UnicodeRef` | `ParseXMLUnicode` |
| `FontPath` | `SVGParsePathFloats`, `Quadratic2Bezier`, `ParseGlyphPath` |
| `FontData` | the `Glyph` and `Font` records and their lookups |
| `FontLoader` | `ParseSvgFontHeader`, `ParseSVGFont` |
| `FontLayout` | `NextWordWidth`, `NeedNewLine`, `CleanLineEnd`, `NextLineWidth`, `ThroughText` |
| `FontQueries` | `glRenderText`, `glRenderTextAsRects`, `WhichGlyphAt`, `CoordsOfGlyph`, `DimensionsOfText` |
| `Shadow` | `GetTriangles`, `GetShadowEdges`, the scene's camera and input state |
| `Load` | `Loader` and its progress counter |

### How the model is built

- **Loops become methods proved against functions.** Each loop of the
  source is a method with a `while` loop. Its `ensures` ties the result to
  a recursive function that states the same computation on values, and the
  lemmas are about that function. Examples: `SVGParsePathFloats` against
  `PathFloats`, `ThroughText` against `Layout`, `GetShadowEdges` against
  `ShadowEdges`.
- **Errors are values.** The source's `SetError` and `return false` paths
  are `Failure` values of a `Result`.
- **The visitor is its call sequence.** `ThroughText`'s callback is
  modelled as the sequence of calls it receives (`Placement`s). A visitor
  that stops early sees a prefix of that sequence.
- **The scene is a class.** `ShadowScene` keeps the fields its handlers
  update.
- **The loader is a class.** `Loader` keeps the job list that `Add`
  appends to.
- **Arrays stay arrays.** `GetTriangles` writes into an array of
  triangles, and `GetShadowEdges` reads one and keeps its three `use_edge`
  flags in an array.

## Model

| member | source | states |
|---|---|---|
| Chars.ToLower | src/font.cpp:770 | upper-case ASCII letters move down by 32; every other character is unchanged (the case folding of `StrCaseCompare`) |
| Chars.SkipWhile | src/font.cpp:84-89 | the index reached is the first at or after i where the predicate fails, and every element skipped satisfies it (used on characters here and on code points by the layout) |
| Chars.ScanFloat | src/font.cpp:91 | a number that scans ends strictly after where it started and within the text |
| Chars.DigitsRun | src/font.cpp:91 | the digit reader of the number scanner stops exactly at the end of the run of decimal digits |
| Chars.Split | src/font.cpp:966-985 | splitting yields no pieces exactly for the empty text, and no piece contains the separator |
| Utf8.Decode | src/font.cpp:63-66 | a decoded code point is a Unicode scalar of 1 to 4 bytes; it is 1 byte exactly when the first byte is ASCII |
| Utf8.Encode | src/font.cpp:63-66 | a scalar encodes to 1 to 4 bytes |
| Utf8.DecodeEncode | src/font.cpp:63-66 | decoding the encoding of any scalar, whatever follows it, gives the scalar back and consumes exactly its encoding |
| Utf8.EncodeDecode | src/font.cpp:63-66 | the bytes a successful decode consumed are exactly the encoding of the decoded code point |
| Utf8.EncodeDecode2 | src/font.cpp:63-66 | a well-formed two-byte sequence is the encoding of its code point |
| Utf8.EncodeDecode3 | src/font.cpp:63-66 | a well-formed three-byte sequence is the encoding of its code point |
| Utf8.EncodeDecode4 | src/font.cpp:63-66 | a well-formed four-byte sequence is the encoding of its code point |
| UnicodeRef.HexDigitValue | src/font.cpp:53-55 | a hexadecimal digit's value is below 16 |
| UnicodeRef.ParseXMLUnicode | src/font.cpp:42-70 | accepted exactly when the text has one character, is a `&#...;` reference or is one UTF-8 character; an unscanned reference occurs only for `&#...;` text; a hexadecimal reference is read with `%x`'s syntax (an optional sign and an optional `0x` or `0X` prefix) into an unbounded integer |
| UnicodeRef.DecimalString | src/font.cpp:57-59 | the written numeral is non-empty and all digits |
| UnicodeRef.HexString | src/font.cpp:53-55 | the written hexadecimal numeral is non-empty, all hexadecimal digits, and has no ';' |
| UnicodeRef.HexChar | src/font.cpp:53-55 | the digit written for d reads back as d |
| UnicodeRef.DecimalStringValue | src/font.cpp:57-59 | reading the decimal numeral of n gives n |
| UnicodeRef.HexStringValue | src/font.cpp:53-55 | reading the hexadecimal numeral of n gives n |
| UnicodeRef.DecimalRefRoundTrip | src/font.cpp:51-62 | `&#n;` parses to code point n for every n |
| UnicodeRef.HexRefRoundTrip | src/font.cpp:51-62 | `&#x` then an optional sign, an optional `0x`/`0X` prefix and the hexadecimal numeral of n, then `;`, parses to n, negated after a '-' (as an unbounded integer, not reduced to the code point's width) |
| UnicodeRef.SignedHexReads | src/font.cpp:53-55 | after the first non-space character, a '-' negates the unsigned number that follows, a '+' is skipped, and anything else starts the number |
| UnicodeRef.BareHexPrefixReadsZero | src/font.cpp:53-55 | `&#x0x;` reads as 0: a `0x` prefix counts only when a hexadecimal digit follows it, as with `%x` |
| UnicodeRef.Utf8RoundTrip | src/font.cpp:63-66 | the UTF-8 encoding of a scalar parses back to that scalar |
| UnicodeRef.AsciiWordRejected | src/font.cpp:42-70 | a text of two or more characters starting with an ASCII character other than '&' is rejected, because only one character is read |
| UnicodeRef.EmptyReferenceAccepted | src/font.cpp:51-62 | `&#;` and `&#x;` are accepted without a number being scanned |
| FontPath.NextFloat | src/font.cpp:80-93 | a number read after separators ends strictly after the start and within the text |
| FontPath.PathFloats | src/font.cpp:76-97 | reading n numbers gives exactly n numbers, and the text position moves forward when n > 0 |
| FontPath.FloatsAfter | src/font.cpp:78-94 | the numbers read so far plus n more gives as many numbers as acc holds plus n, and the position only moves forward |
| FontPath.SkipLoop | src/font.cpp:84-89 | the skipping loop stops where `SkipWhile` says |
| FontPath.ReadFloat | src/font.cpp:80-93 | the loop that skips separators and then reads one number computes `NextFloat` |
| FontPath.SVGParsePathFloats | src/font.cpp:76-97 | the loop computes `PathFloats`: n numbers and the position after them, or None when one fails |
| FontPath.PathFloatsSplit | src/font.cpp:76-97 | reading m + n numbers is reading m and then n from where the first read stopped; it fails when either read fails |
| FontPath.ReadsWrittenInteger | src/font.cpp:76-97 | separators, a decimal numeral and a non-numeric rest read as exactly that number, ending right after the numeral |
| FontPath.Quadratic2Bezier | src/font.cpp:102-113 | the two cubic control points lie two thirds of the way from each end point towards the quadratic control point |
| FontPath.QuadraticElevationExact | src/font.cpp:102-113 | the cubic through those control points traces the quadratic exactly, at every parameter t, in both coordinates |
| FontPath.ElevateCoordinate | src/font.cpp:102-113 | degree elevation is exact in one coordinate |
| FontPath.Arity | src/font.cpp:363-555 | every drawing command takes at least one number per group |
| FontPath.Absolute | src/font.cpp:363-555 | turning a relative group into absolute numbers keeps the group's length |
| FontPath.RelativeIsShiftedAbsolute | src/font.cpp:363-555 | a lower-case command equals its upper-case form applied to numbers shifted by the current point |
| FontPath.StraightSegmentsKeepTheRest | src/font.cpp:363-442 | `h` moves only x, `v` moves only y, `m` moves the pen as `l` does, and none of them touches the saved control point |
| FontPath.SmoothCubicIsCubic | src/font.cpp:466-495 | `s` is `c` with the first control point reflected after `c`/`s`, and at the current point otherwise |
| FontPath.SmoothQuadraticIsQuadratic | src/font.cpp:523-554 | `t` is `q` with the control point reflected after `q`/`t`, and at the current point otherwise |
| FontPath.ParseArcArgs | src/font.cpp:561-608 | an arc group fails with the error of the first of its four steps that fails (three numbers, large-arc flag, sweep flag, end point); otherwise it is the seven values read and ends after the white space that follows them |
| FontPath.Flag | src/font.cpp:573-586 | a flag is read exactly when a digit follows the separators; it ends right after that digit and is true exactly when the digit is not '0' |
| FontPath.ArcFlags | src/font.cpp:573-599 | reading the two flags and the end point moves forward |
| FontPath.ArcEnd | src/font.cpp:600-608 | reading the end point moves forward |
| FontPath.ArcStep | src/font.cpp:613-634 | the pen moves to the arc's end point, absolute or relative to the current point |
| FontPath.ZeroRadiusArcIsLine | src/font.cpp:206-210 | an arc with a zero radius draws the same as `l` to its end point |
| FontPath.Repeat | src/font.cpp:363-555 | a command's repeated groups leave the position within the text and never move it back |
| FontPath.ArcRepeat | src/font.cpp:556-637 | the repeated arc groups, when they all parse, never move the position back |
| FontPath.CommandAhead | src/font.cpp:348-350 | when the path text does not end in white space, a command letter follows the skipped white space |
| FontPath.Command | src/font.cpp:344-638 | a command that succeeds consumes at least its letter |
| FontPath.OnlyArcsFail | src/font.cpp:556-608 | when path interpretation fails, there is an `a` or `A` in the rest of the text: only arcs report errors |
| FontPath.ReadFlag | src/font.cpp:573-586 | the flag-reading loops compute `Flag` |
| FontPath.ReadArcArgs | src/font.cpp:561-608 | the arc-parsing code computes `ParseArcArgs`, including its four error cases |
| FontPath.RepeatUnfold | src/font.cpp:363-555 | one group followed by the rest of the repetition is the whole repetition, and `s` after `s` reflects |
| FontPath.RepeatGroups | src/font.cpp:363-555 | the `while ((nd = SVGParsePathFloats (...)))` loop computes `Repeat` |
| FontPath.ArcRepeatUnfold | src/font.cpp:561-635 | one arc group followed by the rest is the whole arc repetition, and the first error stops it |
| FontPath.RepeatArcs | src/font.cpp:556-637 | the arc loop computes `ArcRepeat` |
| FontPath.RunCommand | src/font.cpp:344-638 | one step of the symbol loop computes `Command` |
| FontPath.ParseGlyphPath | src/font.cpp:297-658 | the whole glyph path, with its texture size and transform, is `GlyphOutline` |
| FontData.GetHKern | src/font.cpp:1119-1130 | the kerning is the table entry for (prev, c) when there is one and prev is not 0, and 0 otherwise |
| FontData.GetHAdv | src/font.cpp:1134-1141 | a glyph's own positive advance wins; when the glyph is absent or its advance is not positive (such as the unset -1), the result is exactly the font's; the result is never negative when the font's is not |
| FontData.GetGlyphOrigin | src/font.cpp:1285-1294 | each coordinate of the origin is the glyph's when the glyph is present and that coordinate is positive, and exactly the font's otherwise |
| FontData.GetLineSpacing | src/font.cpp:1203-1206 | the line spacing is the bounding box's top minus its bottom |
| FontData.Lookup | src/font.cpp:1391-1396 | the glyph looked up is c's when the font has it, and the '?' glyph otherwise |
| FontData.LookupIdempotent | src/font.cpp:1391-1396 | looking up the character a lookup returned gives the same glyph |
| FontLoader.FirstNamedFrom | src/font.cpp:782-789 | the first child from i whose name matches ignoring case, with none before it; None when no child matches |
| FontLoader.FindChild | src/font.cpp:782-807 | the search loop returns the first child with the name |
| FontLoader.HeaderOf | src/font.cpp:668-755 | the header fails exactly when there is no `font-face` or it lacks `units-per-em` or a four-number `bbox` |
| FontLoader.HeaderScaling | src/font.cpp:687-752 | the multiplier is size over units-per-em, the box is scaled by it, and missing `horiz-*` attributes leave 0 |
| FontLoader.ParseSvgFontHeader | src/font.cpp:668-755 | the header-reading code computes `HeaderOf` |
| FontLoader.AddName | src/font.cpp:856-870 | a glyph name gains the code point at the end of its list, and every other name's list is unchanged |
| FontLoader.MakeGlyph | src/font.cpp:880-933 | the glyph fails exactly when it has path data that fails; without path data it has no texture and size 0, with it the outline and its size; each metric is its attribute's `atoi` value times the scale, or -1 when the attribute is absent |
| FontLoader.GlyphStep | src/font.cpp:834-935 | a child that is not a coded glyph changes nothing; a coded glyph fails exactly when its `unicode` is rejected, its code point is already taken or its path data fails; on success the table gains exactly that code point, mapped to the glyph `MakeGlyph` builds, and every earlier entry is unchanged |
| FontLoader.GlyphPassKeepsEntries | src/font.cpp:832-936 | a successful glyph pass never changes a glyph already in the table |
| FontLoader.GlyphPass | src/font.cpp:832-936 | the glyph pass only adds glyphs |
| FontLoader.UncodedGlyphIgnored | src/font.cpp:838-846 | a `glyph` without a `unicode` attribute changes nothing, wherever it stands |
| FontLoader.GlyphPassKeepsCodes | src/font.cpp:832-936 | after a successful pass, every coded glyph's code point is in the table, holding the glyph `MakeGlyph` builds from that element |
| FontLoader.DuplicateCodeFails | src/font.cpp:872-878 | two glyphs with the same code point make the font fail to load |
| FontLoader.SecondCodeFails | src/font.cpp:872-878 | a glyph whose code point is already in the table makes the pass fail |
| FontLoader.ResolveNames | src/font.cpp:1001-1019 | names resolve exactly when all are known, and the result holds exactly the code points of the named glyphs |
| FontLoader.ParseRefs | src/font.cpp:1021-1043 | a `u1`/`u2` list resolves exactly when every entry parses, one code point per entry |
| FontLoader.SetRow | src/font.cpp:1048-1062 | a kerning row gains every second character with value k and keeps its other entries |
| FontLoader.KernPairsEntries | src/font.cpp:1048-1062 | after an `hkern`, the entry for (a, b) is k when a is in u1 and b in u2, and as before otherwise |
| FontLoader.KernIsDirectional | src/font.cpp:1048-1062 | kerning A then V does not kern V then A |
| FontLoader.KernGroups | src/font.cpp:966-1043 | no first group exactly when `g1` and `u1` are both empty; no second group exactly when there is a first and `g2` and `u2` are both empty; success exactly when both exist and every name and reference resolves, each group being its names' code points followed by its references' |
| FontLoader.KernStep | src/font.cpp:941-1064 | an `hkern` without `k` fails; one with `k` fails exactly when its groups fail, with their error, and otherwise adds every pair of the groups with `k` times the scale; any other element leaves the table as it was |
| FontLoader.KernStepEntries | src/font.cpp:941-1064 | after an `hkern`, the entry for (a, b) is its `k` times the scale when a is in the first group and b in the second, and as before otherwise |
| FontLoader.KernFirstGroup | src/font.cpp:966-1043 | a code point is in the first group exactly when a `g1` name carries it or a `u1` reference gives it |
| FontLoader.KernSecondGroup | src/font.cpp:966-1043 | a code point is in the second group exactly when a `g2` name carries it or a `u2` reference gives it |
| FontLoader.UnknownGlyphNameFails | src/font.cpp:1001-1019 | an `hkern` naming, in `g1` or `g2`, a glyph name no glyph carries fails |
| FontLoader.WithFallback | src/font.cpp:1067-1078 | the glyph table always has '?'; an existing one is kept, otherwise an untextured one sized to the box is added |
| FontLoader.Trunc | src/font.cpp:1076-1077 | the conversion to int truncates towards zero |
| FontLoader.LoadFont | src/font.cpp:759-1082 | a loaded font has '?' and the requested size |
| FontLoader.FontFrom | src/font.cpp:829-1078 | the glyph and kerning passes plus the fallback give a usable font of the requested size |
| FontLoader.LoadedFontHasItsGlyphs | src/font.cpp:832-936 | every coded glyph of the document is in the loaded font, as the glyph `MakeGlyph` builds from it |
| FontLoader.LoadedFontMetrics | src/font.cpp:687-753 | the loaded font's box is the four `bbox` numbers times size over units-per-em, and its default advance and origin are the font element's attributes times that scale, 0 where absent |
| FontLoader.ReadGlyph | src/font.cpp:834-935 | the body of the glyph loop computes `GlyphStep` |
| FontLoader.ReadGlyphs | src/font.cpp:832-936 | the glyph loop computes `GlyphPass` from empty tables |
| FontLoader.ResolveGroupNames | src/font.cpp:1001-1019 | the name loop computes `ResolveNames` |
| FontLoader.ParseUnicodeList | src/font.cpp:1021-1043 | the `u1`/`u2` loop computes `ParseRefs` |
| FontLoader.AddPairs | src/font.cpp:1048-1062 | the nested pair loop computes `AddKernPairs` |
| FontLoader.ReadKernGroups | src/font.cpp:966-1043 | reading `g1`, `u1`, `g2`, `u2` computes `KernGroups` |
| FontLoader.ReadKern | src/font.cpp:941-1064 | the body of the kerning loop computes `KernStep` |
| FontLoader.ReadKerning | src/font.cpp:939-1065 | the kerning loop computes `KernPass` from an empty table |
| FontLoader.FindFont | src/font.cpp:763-813 | finding `svg`, `defs` and `font` computes `LocateFont`, with its four errors |
| FontLoader.ParseSVGFont | src/font.cpp:759-1082 | the whole loader computes `LoadFont` |
| FontLoader.ReadFont | src/font.cpp:829-1078 | the two passes and the fallback compute `FontFrom` |
| FontLayout.Step | src/font.cpp:1389-1400 | a step looks up the glyph and applies kerning only when x > 0 |
| FontLayout.LeadingSpaces | src/font.cpp:1152-1174 | the leading white space is skipped to the first non-space character |
| FontLayout.WordWidthWithoutKerning | src/font.cpp:1145-1202 | without kerning, the word width is the sum of the advances of the leading spaces and the word |
| FontLayout.SpacesWithoutKerning | src/font.cpp:1152-1174 | without kerning, the leading-space phase adds up the spaces' advances |
| FontLayout.LettersWithoutKerning | src/font.cpp:1176-1197 | without kerning, the letter phase adds up the letters' advances |
| FontLayout.AdvancesAppend | src/font.cpp:1145-1202 | advances add up over concatenation |
| FontLayout.NextWordWidth | src/font.cpp:1145-1202 | the loop computes `WordWidth` |
| FontLayout.NeedNewLine | src/font.cpp:1211-1243 | a newline always breaks; with no width limit only a newline does; otherwise a break comes when a word after a space overflows, or the next glyph does |
| FontLayout.LineEnd | src/font.cpp:1249-1281 | the white space removed at a line end runs up to and including the first newline, and the count is its length |
| FontLayout.CleanLineEnd | src/font.cpp:1249-1281 | the loop computes `LineEnd` |
| FontLayout.LineFits | src/font.cpp:1300-1334 | with non-negative kerning, a measured line is never wider than the limit |
| FontLayout.NextLineWidth | src/font.cpp:1300-1334 | the loop computes `LineWidth` |
| FontLayout.BreakMakesProgress | src/font.cpp:1374-1386 | a break at the start of a line consumes at least one character, so the layout terminates |
| FontLayout.WalkGlyph | src/font.cpp:1388-1418 | a glyph step visits the glyph at its aligned x and moves x by its advance |
| FontLayout.WalkBreak | src/font.cpp:1374-1386 | a break skips the line end, returns x to 0, adds one line spacing to y and measures the next line |
| FontLayout.PlaceGlyph | src/font.cpp:1388-1418 | one glyph step in the loop puts its visit before the rest of the walk |
| FontLayout.StartNewLine | src/font.cpp:1374-1386 | one break in the loop continues the same walk from the next line |
| FontLayout.ThroughText | src/font.cpp:1354-1433 | the visitor receives exactly the calls `Layout` lists |
| FontLayout.WalkStep | src/font.cpp:1369-1419 | one pass of the loop body keeps calls made so far plus the rest of the walk equal, and makes progress |
| FontLayout.WalkEnd | src/font.cpp:1421-1432 | at the end of the text the walk makes one last call with no glyph at the aligned end x |
| FontLayout.WalkIndices | src/font.cpp:1354-1433 | the visits are in increasing text order, each with the glyph of its character, and the last is the end of the text |
| FontLayout.BreakIndices | src/font.cpp:1374-1386 | after a break the visits are still in text order |
| FontLayout.GlyphIndices | src/font.cpp:1388-1418 | after a glyph step the visits are still in text order |
| FontLayout.WalkLines | src/font.cpp:1354-1433 | y never decreases; within a line y and the line width stay the same; a new line starts at x = 0 at least one line spacing lower |
| FontLayout.BreakLines | src/font.cpp:1374-1386 | the line shape is kept across a break |
| FontLayout.GlyphLines | src/font.cpp:1388-1418 | the line shape is kept across a glyph |
| FontLayout.WalkLineWidths | src/font.cpp:1354-1433 | with non-negative kerning, every line width used for alignment is within the limit |
| FontLayout.MeasuredLinesFit | src/font.cpp:1354-1433 | the same for a whole text |
| FontLayout.PlaceEach | src/font.cpp:1402-1413 | alignment maps each visit to a call at its aligned x and leaves the glyph, y and index alone |
| FontLayout.ThroughTextCalls | src/font.cpp:1354-1433 | the last call is the NUL call at the index just past the text; every other call has the glyph of its character; indices strictly increase; every character that is not white space gets a call |
| FontLayout.WalkVisits | src/font.cpp:1369-1419 | from any point of the walk, every later character that is not white space is visited, at a position the lemma returns |
| FontLayout.AlignmentKeepsLines | src/font.cpp:1402-1410 | alignment changes neither y, index nor glyph; it keeps the spacing within a line; left-aligned lines start at x = 0 |
| FontQueries.GlyphBox | src/font.cpp:1553-1560 | a glyph's box is its advance wide and one line spacing high |
| FontQueries.PaintDrawsTexturedGlyphs | src/font.cpp:1434-1457 | the quads drawn are exactly the calls that carry a textured glyph |
| FontQueries.RenderText | src/font.cpp:1434-1457 | rendering draws `Paint` of the layout |
| FontQueries.RectsFrom | src/font.cpp:1473-1528 | every selection rectangle is one line spacing high |
| FontQueries.SelectionRects | src/font.cpp:1458-1531 | an empty or negative range draws nothing, and every rectangle is one line high |
| FontQueries.NothingBeforeFrom | src/font.cpp:1473-1476 | calls before `from` draw nothing |
| FontQueries.SelectionPastTheEnd | src/font.cpp:1458-1531 | a selection that starts past the end of the text draws nothing |
| FontQueries.SkipBeforeFrom | src/font.cpp:1473-1476 | calls before `from` change neither the rectangles nor the captured values |
| FontQueries.OneLineRect | src/font.cpp:1477-1528 | with a rectangle open, calls before `to` on its line and then a call at or past `to` close exactly that rectangle, reaching the right edge of the last call before `to` |
| FontQueries.SelectionOnOneLine | src/font.cpp:1458-1531 | a selection whose calls from `from` up to `to` lie on one line draws one rectangle, from the left edge of the glyph at `from` to the right edge of the last glyph before `to`, one line tall, after the stale rectangle when that is on another line |
| FontQueries.OneLineCalls | src/font.cpp:1458-1531 | the same, for the calls picked out by their positions |
| FontQueries.SelectionOfOneLine | src/font.cpp:1458-1531 | the same, for the selection rectangles of a laid-out text |
| FontQueries.RenderTextAsRects | src/font.cpp:1458-1531 | the visitor computes `SelectionRects` |
| FontQueries.RectStep | src/font.cpp:1473-1528 | one visitor call adds its rectangles and then either stops or goes on in the new state |
| FontQueries.HitScanRecords | src/font.cpp:1545-1596 | a recorded hit, leftmost or rightmost index belongs to a call whose box holds the point, or lies left or right of it on its row |
| FontQueries.HitScanFindsBox | src/font.cpp:1545-1596 | when a box holds the point and no earlier box is below it, the scan records a hit |
| FontQueries.HitScanKeepsPos | src/font.cpp:1545-1596 | a hit, once recorded, stays recorded |
| FontQueries.GlyphAtIsOnRow | src/font.cpp:1533-1610 | the answer is -1 or the index of a glyph on the point's row; a glyph whose box holds the point is found when no earlier glyph box begins below the point |
| FontQueries.WhichGlyphAt | src/font.cpp:1533-1610 | the visitor and the final choice compute `GlyphAt` |
| FontQueries.CoordsInFinds | src/font.cpp:1611-1633 | coordinates are found exactly when some call has the index, and they are the top-left corner of the first such call's box |
| FontQueries.EndOfTextHasCoords | src/font.cpp:1611-1633 | the end of the text always has coordinates, and indices outside the text never do |
| FontQueries.CoordsOnTopEdge | src/font.cpp:1611-1633 | the coordinates returned lie on the glyph box's top edge, where `WhichGlyphAt`'s strict test `py > y1` does not count them |
| FontQueries.CoordsOfGlyph | src/font.cpp:1611-1633 | the visitor computes `GlyphCoords`, and leaves the output alone when no call matches |
| FontQueries.ExtendBounds | src/font.cpp:1654-1674 | the extended box contains the start box and every call's box, and each side is attained by the start box or by one call's box |
| FontQueries.DimensionsHoldText | src/font.cpp:1634-1680 | the text's dimensions contain every glyph's box, and each side is a side of one of those boxes or the 1e15 start bound (`Far`, negated for the right and bottom sides) |
| FontQueries.DimensionsOfText | src/font.cpp:1634-1680 | the visitor computes `Dimensions` |
| Shadow.SharedAmongMeans | src/test3d/shadow.cpp:762-799 | an edge is shared among the first n triangles exactly when another visible triangle among them has the same edge in either direction |
| Shadow.SharedMeans | src/test3d/shadow.cpp:762-799 | an edge is shared exactly when another visible triangle has it |
| Shadow.SharedAmongGrows | src/test3d/shadow.cpp:762-799 | an edge shared among fewer triangles stays shared among more, which is why the early stop is safe |
| Shadow.KeptFromMembers | src/test3d/shadow.cpp:802-813 | the edges a triangle keeps are exactly its unshared edges |
| Shadow.SilhouetteHas | src/test3d/shadow.cpp:745-814 | every unshared edge of a visible triangle is in the silhouette |
| Shadow.SilhouetteFrom | src/test3d/shadow.cpp:745-814 | every silhouette edge is an unshared edge of some visible triangle |
| Shadow.KeptFromWitness | src/test3d/shadow.cpp:802-813 | every kept edge is an unshared edge of the triangle |
| Shadow.SilhouetteMembers | src/test3d/shadow.cpp:730-815 | the silhouette holds exactly the unshared edges of visible triangles |
| Shadow.CompareEdges | src/test3d/shadow.cpp:774-791 | comparing two triangles clears exactly the flags of the edges they share |
| Shadow.FindSharedEdges | src/test3d/shadow.cpp:755-799 | after the j loop, with its early stop, each flag says whether the edge is unshared |
| Shadow.AppendEdges | src/test3d/shadow.cpp:802-813 | the edges appended are exactly the triangle's kept edges, in edge order |
| Shadow.GetShadowEdges | src/test3d/shadow.cpp:730-815 | the result list gains exactly `ShadowEdges` of the triangles |
| Shadow.TriangleEdges | src/test3d/shadow.cpp:748-813 | one pass of the i loop appends the triangle's kept edges |
| Shadow.QuadOutline | src/test3d/shadow.cpp:664-695 | a quad split into two visible triangles has its four outer edges as its silhouette, without the diagonal |
| Shadow.FaceTriangles | src/test3d/shadow.cpp:673-677 | a face gives two triangles from four corners, one from three, and none otherwise |
| Shadow.FanSize | src/test3d/shadow.cpp:664-695 | there are at most two triangles per face |
| Shadow.FanCornersFromFaces | src/test3d/shadow.cpp:664-695 | every triangle's corners come from one face |
| Shadow.GetTriangles | src/test3d/shadow.cpp:664-695 | the count is the number of triangles of the faces, the first count entries are those triangles, and the rest of the array is untouched |
| Shadow.WriteFace | src/test3d/shadow.cpp:684-691 | one face writes its triangles at i and nothing else |
| Shadow.FanPrefix | src/test3d/shadow.cpp:664-695 | the faces visited so far give no more triangles than all faces |
| Shadow.Zoom | src/test3d/shadow.cpp:1184-1192 | the wheel moves the camera by 0.3 per notch and never closer than 0.5 |
| Shadow.ZoomMonotone | src/test3d/shadow.cpp:1184-1192 | turning the wheel further never moves the camera further out |
| Shadow.ClampPitch | src/test3d/shadow.cpp:1232-1235 | the pitch is clamped to [-1.5, 1.5], unchanged inside |
| Shadow.KeyEffect | src/test3d/shadow.cpp:1193-1219 | only key-down events act; space jumps with speed 15 when on the ground; b, n and z toggle their flags and change nothing else |
| Shadow.ToggleTwice | src/test3d/shadow.cpp:1206-1217 | pressing b, n or z twice restores the settings |
| Shadow.ShadowScene.constructor | src/test3d/shadow.cpp:107-119 | the camera starts at distance 7 and pitch 0.3; all flags are off |
| Shadow.ShadowScene.OnMouseWheel | src/test3d/shadow.cpp:1184-1192 | the distance becomes `Zoom` of the old one; nothing else changes |
| Shadow.ShadowScene.OnKeyPress | src/test3d/shadow.cpp:1193-1219 | the settings become `KeyEffect` of the old ones; the camera is unchanged |
| Shadow.ShadowScene.OnMouseMove | src/test3d/shadow.cpp:1220-1237 | with the left button down, yaw moves by 0.01 per x and the pitch by 0.01 per y, clamped; otherwise nothing changes |
| Load.Passed | src/load.cpp:42-50 | the jobs before the count all succeed, and the job at the count fails |
| Load.AllPassed | src/load.cpp:37-52 | every job passes exactly when all jobs succeed |
| Load.PassedAppend | src/load.cpp:22-36 | queuing a job after a failure changes nothing; after all successes it counts when it succeeds |
| Load.Progress.constructor | src/load.cpp:37-52 | a progress counter starts at zero |
| Load.Progress.AddTotal | src/load.cpp:39-40 | the total grows by n; the passed count is unchanged |
| Load.Progress.AddPassed | src/load.cpp:49-50 | the passed count grows by n; the total is unchanged |
| Load.Loader.constructor | src/load.cpp:22-36 | a loader starts with no jobs |
| Load.Loader.Add | src/load.cpp:22-25 | the function is queued at the end |
| Load.Loader.AddLoadable | src/load.cpp:26-36 | the wrapped object is queued at the end |
| Load.Loader.LoadAll | src/load.cpp:37-52 | succeeds exactly when every job succeeds; runs jobs in order up to and including the first failure; the total grows by the number of jobs and the passed count by the jobs that passed |

## Left out

- Utf8: `next_from_utf8` is not part of this model. It is replaced by a strict UTF-8 decoder (no overlong forms, no surrogates, at most U+10FFFF). Text given to the layout is a sequence of code points, not bytes.
- Chars.ScanFloat: `ParseFloat` is not part of this model. This stand-in reads an optional sign, digits, and an optional '.' with more digits. It has no exponent and no rounding.
- Chars.Split: the repository's `split` is not part of this model. The stand-in cuts at every separator.
- Chars.ToLower: `StrCaseCompare` is not part of this model. It is modelled as ASCII case folding.
- Drawing: cairo, OpenGL, `Cairo2GLTex` and `glRenderGlyph` are foreign code. A glyph outline is the list of path operations drawn. Rendering a text is the list of textured quads.
- FontPath.ArcStep: the arc's rotation is kept in degrees (the conversion multiplies by pi, which is not a real number Dafny can compute with). Arc drawing beyond the zero-radius straight line (`cairo_svg_arc`) is trigonometry and is left out.
- FontPath.Start: the saved control point (`x2`, `y2`) starts at 0. In the source these two locals are not initialised (src/font.cpp:334-335), so an `s` or `t` that comes before any `c`, `s`, `q` or `t` (for example `C S 1 2 3 4` after a lower-case command, or `S 1 2 3 4` first) reflects an indeterminate point. The model fixes that point at the origin.
- FontPath.OnlyArcsFail: `ParseGlyphPath` can also fail when cairo cannot create the glyph surface (src/font.cpp:312-318, for example a scaled box whose right edge lies left of its left edge, giving a negative width) and when `Cairo2GLTex` fails (src/font.cpp:648-657). Both are foreign code and are not modelled, so `GlyphOutline` fails only on arcs. The lemma that only arcs fail holds of the model, not of the source.
- UnicodeRef.ScanHex / Chars.Atoi: integer width is not modelled. The type `unicode_char` is declared in a header that is not part of this model, so code points and the results of `atoi`, `%d` and `%x` are unbounded integers. After a '-' the model gives the negative value -n, where `%x` stores n negated in the code point's unsigned width (2^32 - n for 32 bits). A numeral too long for the width gives its full value rather than the wrapped or saturated one. The one-character branch (`*out = repr [0]`) gives the character's value as it is, without the sign extension a signed `char` applies to a byte of 0x80 or above.
- Floating point: all arithmetic is on exact reals. 32-bit float rounding, `1e15f` and infinities are not modelled.
- FontLoader.HeaderOf: a `units-per-em` of 0 gives a multiplier of 0 rather than the infinity that float division would give.
- Uninitialised values: an unscanned `&#;` reference leaves the code point unset. It is a parameter, `unset`.
- FontQueries.SelectionRects: the stale rectangle start values of `glRenderTextAsRects` are a parameter, `stale`.
- FontData.Glyph: the defaults of a freshly made `Glyph` are taken as zero.
- FontLoader.WithFallback: the fallback glyph's `ch` field is not modelled. Its texture height is `bottom - top`, as the code computes it.
- FontLoader.LoadFont: on an error the model returns only the error, not the partly filled glyph and kerning tables.
- FontPath.Repeat: nothing left out; the command loops are kept as written, including their departures from SVG. The repeated pairs after `m` are moves, not lines. The repeats of `s` reflect as after `s`, because that loop updates `prev_symbol`. The repeats of `t` reflect only after a `q` or `t` command before them, because that loop does not.
- FontLayout.ThroughText: `align & 0x0f` and the alignment constants live in `font.h`, which is not part of this model. Alignment is the datatype `Align`.
- FontLayout.ThroughText: a visitor that returns false is not modelled as a stop. It sees a prefix of the call sequence.
- FontLayout.ThroughText: requires `WidthsFit`, that no single glyph is wider than a positive limit. Without it the source can break forever before a glyph that never fits.
- FontLayout.LineFits: proved only for fonts whose kerning values are non-negative. Negative kerning widens the measured line.
- FontLayout.WalkLineWidths: the same non-negative kerning assumption.
- FontPath.ParseGlyphPath: requires the path text to be free of NUL characters and not to end in white space. The source would read past the terminator in that case.
- FontQueries.CoordsOnTopEdge: the hit test is not proved to invert `CoordsOfGlyph`. A glyph's own coordinates lie on its box edge, where the strict hit test does not count them.
- Shadow.GetTriangles: `MeshState::ThroughFaces` is foreign code. It is modelled as the face sequence it visits, in order. Vertices are abstract values compared by identity, as the source compares pointers.
- Shadow: `SetVisibilities` and the shadow rendering are left out. The `visible` flags are inputs.
- Shadow.ShadowScene.constructor: the particles, colliders, textures, player position and rotation are left out. They are random or rendering state that the handlers do not read.
- Shadow.ShadowScene.OnMouseMove: the call to `SDL_SetRelativeMouseMode` is an SDL side effect and is left out.
- Shadow.FanPrefix: states only the count, not the contents of the prefix.
- Load.Progress: its header is not part of this model. It is modelled as two counters.
- Load.Loader.LoadAll: the outcome of each job is a parameter (`call`, `load`), because jobs run foreign code.
