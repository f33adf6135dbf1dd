# PicrossSolver core in Dafny

This project models the core of a Picross (nonogram) solver. A puzzle is a
rectangular grid of colours. Each row and each column has a *classifier*. For
every colour in use, the classifier records how many cells of that colour the
line has (`Count`), and whether those cells form a single block
(`IsConnected`). The model covers four things:

- **Building the clues.** The `Classifier` constructor derives the clues of one
  line from a reference picture (module `Picross`, with the line queries in
  `Lines`).
- **The grid helpers.** Module `GridHelpers` covers copying a row or column out
  of the grid, forward and backward search, and the list of colours in use.
- **The win condition.** Module `SolvedCheck` checks a candidate grid against
  every row and column classifier. The per-line rule has two branches: "a
  connected block of Count cells starting at the first occurrence", and "exactly
  Count cells, the last occurrence more than Count cells after the first (a span
  of more than Count + 1 cells)".
- **Two text formats.**
  - `GridText` reads a grid from lines of comma-separated 32-bit colour
    integers.
  - `ReadableText` writes a grid as comma-separated letters. The letters come
    from a colour-to-letter cache that persists between calls.
  - `Formats` relates the two formats, and `Strings` holds the split and join
    operations they share.

.NET exceptions are modelled as values. `ColorModel.Result` is either `Ok(value)`
or `Err(fault)`. The faults are `IndexOutOfRange`, `ArgumentOutOfRange`,
`Format` and `Overflow`. A `Color` is the default `Empty`, or `Argb(v)` for
`Color.FromArgb(v)`.

The static cache of the grid helpers becomes the class `SymbolCache`. Its
methods `ResetCache` and `ToReadableString` update the cache. Each is specified
against the pure functions `Lookup`, `Symbols` and `Render`, and the lemmas are
proved about those functions.

The model follows the code even where the behaviour looks unintended:

- **Absent colours.** A colour that is absent from a line is classified *not*
  connected, with count 0. The formula is evaluated with the -1 "not found"
  index and is not special-cased. So an absent colour fails its own clue.
- **Connected-branch bound.** The bound test is `first + Count - 1 > Length`.
  A block that would end exactly one cell past the line therefore reads
  `arr[arr.Length]` and throws, unless a mismatch comes first.
- **Letter exhaustion.** Running out of letters is the out-of-range index of
  `validChars`, not a dedicated error. The counter has already moved on when
  that happens, and colours added earlier in the same call keep their letters.
  `Empty` and `FromArgb(0)` are cached from the start. So the ninth colour
  *other than those two* is the one that fails.
- **Uneven rows.** Reading a grid does not check that it is rectangular. The
  width comes from the first line. A longer line throws, and a shorter one
  leaves `Empty` cells.
- **Bad GetRow/GetColumn indices.** An out-of-range index to `GetRow` or
  `GetColumn` throws only when the copied line has cells.
- **Empty grids.** A grid with rows but no columns makes `ToReadableString`
  throw `ArgumentOutOfRangeException`. This comes from `sb.Length -= 1` on an
  empty builder. A grid with no rows gives the empty text.
- **Formats do not round-trip.** The writer and the reader are not inverses.
  For a grid with rows and columns, the readable text starts with a letter or
  `_`, and the reader refuses that first token with `FormatException`. A grid
  with no rows is written as the empty text, which the reader refuses with
  `IndexOutOfRangeException` instead, because it has no first line.

## Model

| member | source | states |
|---|---|---|
| Lines.First | Domain/Helpers/GridHelpers.cs:151-157 | -1 exactly when the colour is absent, otherwise the smallest index holding it |
| Lines.Last | Domain/Helpers/GridHelpers.cs:159-165 | -1 exactly when the colour is absent, otherwise the largest index holding it |
| Lines.CountOf | Domain/Picross/Classifier.cs:18 | the number of matching cells is at most the length, and 0 exactly when the colour is absent |
| Lines.CountWithinSpan | Domain/Picross/Classifier.cs:18-21 | the count is at most lastIndex - firstIndex + 1, with equality exactly when every cell of that span has the colour |
| Lines.ContiguousSpan | Domain/Picross/Classifier.cs:21 | "all occurrences form one block" is the same as "the colour occurs and the first-to-last span is all that colour" |
| Lines.CountTwoWhenSpread | Domain/Helpers/GridHelpers.cs:143-146 | a colour whose first and last occurrences differ has count at least 2 |
| Picross.ClassifyCount | Domain/Picross/Classifier.cs:17-22 | each clue names its colour, and its count is the colour's number of cells in the line, between 0 and the line length |
| Picross.ClassifyConnected | Domain/Picross/Classifier.cs:18-21 | IsConnected holds exactly when the colour occurs and its cells are contiguous; a connected clue has count at least 1 |
| Picross.ClassifyAbsent | Domain/Picross/Classifier.cs:18-21 | a colour absent from the line is classified count 0, not connected |
| Picross.Classifier.constructor | Domain/Picross/Classifier.cs:11-24 | Index is the given index, and Colors holds, in the order of usedColors, the clue of each colour classified against a copy of the row |
| GridHelpers.GetRow | Domain/Helpers/GridHelpers.cs:91-98 | throws IndexOutOfRange exactly when the row index is out of range and the row has cells; otherwise returns a copy of row n, of length colCount |
| GridHelpers.GetColumn | Domain/Helpers/GridHelpers.cs:100-107 | throws IndexOutOfRange exactly when the column index is out of range and the column has cells; otherwise returns a copy of column n, of length rowCount |
| GridHelpers.IndexOf | Domain/Helpers/GridHelpers.cs:151-157 | returns -1 exactly when the colour is absent, otherwise an index holding it with no earlier one |
| GridHelpers.LastIndexOf | Domain/Helpers/GridHelpers.cs:159-165 | returns -1 exactly when the colour is absent, otherwise an index holding it with no later one |
| GridHelpers.DistinctSpec | Domain/Helpers/GridHelpers.cs:49 | Distinct has no duplicates, holds exactly the input's values, and lists them in order of first occurrence |
| GridHelpers.GetUsedColorsFromGrid | Domain/Helpers/GridHelpers.cs:44-50 | returns the distinct cell colours in row-major first-occurrence order; a colour is listed exactly when some cell has it |
| SolvedCheck.ScanBlockMeaning | Domain/Helpers/GridHelpers.cs:132-137 | the block scan succeeds exactly when every scanned cell is in the line and has the colour, and throws exactly when it reaches the end of the line with all cells matching |
| SolvedCheck.ConnectedVerdict | Domain/Helpers/GridHelpers.cs:128-137 | a connected clue fails for an absent colour; holds exactly when the Count cells from the first occurrence fit and all have the colour; throws exactly when that block would end one past the line and every cell up to the end matches |
| SolvedCheck.DisconnectedVerdict | Domain/Helpers/GridHelpers.cs:138-148 | a disconnected clue holds exactly when the count matches and last - first is strictly greater than Count |
| SolvedCheck.DisconnectedSmallCountFails | Domain/Helpers/GridHelpers.cs:145-146 | a disconnected clue with Count at most 1 never holds |
| SolvedCheck.ColorsVerdictMeaning | Domain/Helpers/GridHelpers.cs:112-115 | the clues of one line hold exactly when each one does; a fault comes from one of them |
| SolvedCheck.RowsVerdictMeaning | Domain/Helpers/GridHelpers.cs:110-116 | the row pass succeeds exactly when every row index is readable and every clue of every row holds |
| SolvedCheck.ColumnsVerdictMeaning | Domain/Helpers/GridHelpers.cs:117-123 | the column pass succeeds exactly when every column index is readable and every clue of every column holds |
| SolvedCheck.GridVerdictMeaning | Domain/Helpers/GridHelpers.cs:109-125 | the grid is solved exactly when all row and all column clues hold; empty classifier lists are solved |
| SolvedCheck.SelfCheck | Domain/Helpers/GridHelpers.cs:127-149 | a line checked against its own clue for a colour never throws, and passes exactly when the clue is connected or the occurrences span more than count + 1 cells |
| SolvedCheck.AbsentFailsOwnClue | Domain/Helpers/GridHelpers.cs:138-146 | a colour absent from a line fails the clue derived for it |
| SolvedCheck.LineSelfCheck | Domain/Helpers/GridHelpers.cs:112-115 | the clues derived from a line never throw on that line, and hold exactly when every used colour is connected or spread wide enough |
| SolvedCheck.ReferenceGridAnswers | Domain/Helpers/GridHelpers.cs:109-125 | for clues derived from the grid itself, IsSolved never throws, and answers true exactly when every classified line passes its self-check |
| SolvedCheck.ReferenceGridVerdict | Domain/Helpers/GridHelpers.cs:109-125 | the same as an equation: the verdict on the reference grid is Ok of "all spans clear" |
| SolvedCheck.ReferenceGridMissingColor | Domain/Helpers/GridHelpers.cs:109-125 | a reference grid with a used colour missing from a classified row is reported unsolved |
| SolvedCheck.GapOfOneFails | Domain/Helpers/GridHelpers.cs:138-148 | [R, _, R] is classified (R, 2, not connected) and fails that clue |
| SolvedCheck.BlockExamples | Domain/Picross/Classifier.cs:17-23 | in [R, R, R, G], R is classified (3, connected) and G is classified (1, connected) |
| SolvedCheck.NearMissRejected | Domain/Helpers/GridHelpers.cs:128-137 | a clue of three connected R rejects [R, R, G, R] |
| SolvedCheck.IsLineSolved | Domain/Helpers/GridHelpers.cs:127-149 | the line check's result is the verdict described by ConnectedVerdict and DisconnectedVerdict |
| SolvedCheck.LineColorsSolved | Domain/Helpers/GridHelpers.cs:112-115 | checks one classifier's clues in order and stops at the first that does not hold |
| SolvedCheck.RowsSolved | Domain/Helpers/GridHelpers.cs:110-116 | the row loop returns the row pass: false at the first row clue that fails, IndexOutOfRange for an unreadable row index, true otherwise |
| SolvedCheck.ColumnsSolved | Domain/Helpers/GridHelpers.cs:117-123 | the column loop returns the column pass: false at the first column clue that fails, IndexOutOfRange for an unreadable column index, true otherwise |
| SolvedCheck.IsSolved | Domain/Helpers/GridHelpers.cs:109-125 | the grid check's result is the row pass and then the column pass, including IndexOutOfRange from GetRow/GetColumn |
| Strings.SplitJoin | Domain/Helpers/GridHelpers.cs:53 | splitting with empty entries removed undoes a join of non-empty, separator-free pieces |
| Strings.SplitTrailing | Domain/Helpers/GridHelpers.cs:53 | a trailing separator adds no piece when empty entries are removed |
| GridText.ParseInt | Domain/Helpers/GridHelpers.cs:62 | a successful parse lies in the 32-bit range; a failure is a format or an overflow fault |
| GridText.ParseShowInt | Domain/Helpers/GridHelpers.cs:62 | every 32-bit integer written in decimal parses back to itself |
| GridText.RowPrefixMeaning | Domain/Helpers/GridHelpers.cs:59-68 | a line is stored exactly when every token parses and there are at most colCount of them; the stored cells are the parsed colours; parseable tokens past colCount throw IndexOutOfRange |
| GridText.DecodeOk | Domain/Helpers/GridHelpers.cs:52-72 | rowCount is the number of non-empty lines and colCount the first line's token count; cell (i, j) is token j of line i, with 0 read as Empty, and Empty past a shorter line |
| GridText.DecodeAccepts | Domain/Helpers/GridHelpers.cs:52-72 | the text is accepted exactly when it has a non-empty line, every token parses, and no line is longer than the first; no lines throws IndexOutOfRange |
| GridText.DecodeNeverArgbZero | Domain/Helpers/GridHelpers.cs:62-65 | a decoded grid never holds FromArgb(0) |
| GridText.FillRow | Domain/Helpers/GridHelpers.cs:59-68 | the inner loop stores one line's colours into its row and leaves other rows alone, or stops with that line's fault |
| GridText.InitFromGridString | Domain/Helpers/GridHelpers.cs:52-72 | the returned grid, rowCount and colCount, or the fault, are those DecodeOk and DecodeAccepts describe |
| ReadableText.SymbolsFacts | Domain/Helpers/GridHelpers.cs:30-36 | looking up a row succeeds exactly when its new colours fit in the letters left; it then adds them, keeps old entries, advances the counter by their number and yields each cell's symbol |
| ReadableText.RenderFacts | Domain/Helpers/GridHelpers.cs:25-42 | writing succeeds exactly when the first row has cells and the new colours fit; an empty first row throws ArgumentOutOfRange, anything else IndexOutOfRange; on success the cache grows by exactly the grid's colours |
| ReadableText.RenderAgain | Domain/Helpers/GridHelpers.cs:25-42 | writing the same grid again right after a successful call gives the same text and leaves the cache unchanged |
| ReadableText.RenderLayout | Domain/Helpers/GridHelpers.cs:29-40 | with no empty row, the text is each row's symbols joined by commas, each row followed by a line break |
| ReadableText.FromReset | Domain/Helpers/GridHelpers.cs:18-42 | after ResetCache a grid can be written exactly when it has at most eight colours besides Empty and FromArgb(0) (and its first row has cells); the counter then equals their number |
| ReadableText.NoColumns | Domain/Helpers/GridHelpers.cs:26-41 | rows without columns throw ArgumentOutOfRange; no rows gives "" and leaves the cache alone |
| ReadableText.RenderKeepsCacheOk | Domain/Helpers/GridHelpers.cs:19-33 | every call, whether it succeeds or throws, keeps the cache a code: the empty colours map to "_" and every other colour to a distinct letter already handed out |
| ReadableText.DistinctColorsDistinctSymbols | Domain/Helpers/GridHelpers.cs:31-35 | two different colours of the grid, one of them not empty, are written with different symbols |
| ReadableText.SymbolCache.constructor | Domain/Helpers/GridHelpers.cs:11-13 | the static constructor leaves the reset cache, which satisfies the class invariant `Valid` (the cache is a code, as RenderKeepsCacheOk describes) |
| ReadableText.SymbolCache.ResetCache | Domain/Helpers/GridHelpers.cs:18-21 | the cache is reset to the two empty colours mapped to "_", with the counter at 0, and satisfies `Valid` |
| ReadableText.SymbolCache.Intern | Domain/Helpers/GridHelpers.cs:31-35 | one cell's symbol and the cache afterwards are those Lookup describes: a cached colour keeps its symbol, a new one takes the next letter, and running out of letters throws IndexOutOfRange after the counter moved on; `Valid` is kept |
| ReadableText.SymbolCache.AppendRow | Domain/Helpers/GridHelpers.cs:30-37 | the inner loop leaves the cache that Symbols describes, and appends each symbol with a comma or stops with the index fault; `Valid` is kept |
| ReadableText.SymbolCache.ToReadableString | Domain/Helpers/GridHelpers.cs:25-42 | the returned text or fault, and the cache left afterwards, are those Render describes; `Valid` is kept, even when the call throws |
| Formats.ReadableShape | Domain/Helpers/GridHelpers.cs:25-42 | the readable text of a grid with rows and columns splits back into one line per row, and each line into that row's symbols |
| Formats.ReadableIsNotGridString | Domain/Helpers/GridHelpers.cs:52-72 | reading that text as a grid string throws FormatException |

## Left out

- InitFromImg (Domain/Helpers/GridHelpers.cs:74-89) is not modelled, because it is file system access and bitmap decoding.
- Colour internals are not modelled. A `Color` is `Empty` or its ARGB value. Named colours, which .NET equality tells apart from an equal `FromArgb` value, are not modelled.
- Strings.Split: splits on one character. `Environment.NewLine` is a two-character separator on Windows and is taken here as `'\n'`.
- GridText.ParseInt: accepts only an optional sign followed by decimal digits. The surrounding white space and culture-specific signs that `int.Parse` also accepts are not modelled.
- SolvedCheck.LineVerdict: uses unbounded integers. The 32-bit wrap-around of `first + color.Count - 1` (GridHelpers.cs:130-132) for a Count near `int.MaxValue` is not modelled.
- ReadableText.Lookup: the counter is an unbounded integer. The 32-bit wrap-around of `_cacheCounter++` after 2^31 new colours is not modelled.
- GridText.InitFromGridString: the out-values `rowCount` and `colCount` are returned on the fault path as well. In the source they are not observable after an exception.
- GridHelpers.GetRow: does not state that the returned array is freshly allocated. GetColumn and GridText.InitFromGridString do not either.
- Null arguments are not modelled, because Dafny references and sequences are never null. This covers a null grid, null classifier lists and a null grid string.
- The classifier's `Colors` list is publicly mutable in the source. Here it is a sequence field, so changes made to it through aliases are not modelled.
- Concurrent use of the static cache is not modelled. The cache is one `SymbolCache` object.
