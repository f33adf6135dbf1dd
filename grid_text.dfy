/** Reading a grid from text: lines of comma-separated 32-bit colour integers. */
module GridText {
  import opened ColorModel
  import opened Strings
  import opened GridHelpers

  const Int32Min: int := -0x8000_0000
  const Int32Max: int := 0x7FFF_FFFF

  predicate IsDigit(ch: char)
  {
    '0' <= ch <= '9'
  }

  predicate AllDigits(s: string)
  {
    s == [] || (AllDigits(s[..|s| - 1]) && IsDigit(s[|s| - 1]))
  }

  lemma {:induction false} DigitAt(s: string, k: nat)
    requires AllDigits(s) && k < |s|
    ensures IsDigit(s[k])
  {
    if k < |s| - 1 {
      DigitAt(s[..|s| - 1], k);
    }
  }

  /** The value of a string of decimal digits. */
  function DigitsValue(ds: string): nat
    requires AllDigits(ds)
  {
    if ds == [] then 0 else DigitsValue(ds[..|ds| - 1]) * 10 + (ds[|ds| - 1] as int - '0' as int)
  }

  /** int.Parse on a token without surrounding white space: an optional sign, then
      one or more decimal digits; anything else is a FormatException, and a value
      outside the 32-bit range an OverflowException. */
  function ParseInt(token: string): (r: Result<int>)
    ensures r.Ok? ==> Int32Min <= r.value <= Int32Max
    ensures r.Err? ==> r.fault == Format || r.fault == Overflow
  {
    var signed := |token| > 0 && (token[0] == '-' || token[0] == '+');
    var digits := if signed then token[1..] else token;
    if digits == [] || !AllDigits(digits) then Err(Format)
    else
      var magnitude: int := DigitsValue(digits);
      var v := if token[0] == '-' then -magnitude else magnitude;
      if Int32Min <= v <= Int32Max then Ok(v) else Err(Overflow)
  }

  /** Decimal digits of a natural number, most significant first. */
  function ShowNat(n: nat): (s: string)
    ensures s != [] && AllDigits(s)
  {
    if n < 10 then
      var s := [('0' as int + n) as char];
      assert s[..0] == [];
      s
    else
      var a := ShowNat(n / 10);
      var s := a + [('0' as int + n % 10) as char];
      assert s[..|s| - 1] == a;
      s
  }

  /** The usual decimal form of an integer. */
  function ShowInt(v: int): string
  {
    if v < 0 then "-" + ShowNat(-v) else ShowNat(v)
  }

  lemma {:induction false} DigitsOfShowNat(n: nat)
    ensures DigitsValue(ShowNat(n)) == n
  {
    if n >= 10 {
      var s := ShowNat(n);
      assert s[..|s| - 1] == ShowNat(n / 10);
      DigitsOfShowNat(n / 10);
    }
  }

  /** Every 32-bit integer written in decimal parses back to itself. */
  lemma ParseShowInt(v: int)
    requires Int32Min <= v <= Int32Max
    ensures ParseInt(ShowInt(v)) == Ok(v)
  {
    var t := ShowInt(v);
    if v < 0 {
      assert t[0] == '-' && t[1..] == ShowNat(-v);
      DigitsOfShowNat(-v);
    } else {
      DigitAt(t, 0);
      DigitsOfShowNat(v);
    }
  }

  /** A parsed cell value: 0 is `Color.Empty`, anything else `Color.FromArgb(v)`. */
  function ToColor(v: int): Color
  {
    if v == 0 then Empty else Argb(v)
  }

  /** The tokens of one row stored at columns 0, 1, ...: each token is parsed, then
      stored; storing at column w or beyond throws. */
  function RowPrefix(tokens: seq<string>, w: nat): (r: Result<seq<Color>>)
    ensures r.Ok? ==> |r.value| == |tokens| <= w
  {
    if tokens == [] then Ok([])
    else
      match RowPrefix(tokens[..|tokens| - 1], w)
      case Err(e) => Err(e)
      case Ok(cs) =>
        match ParseInt(tokens[|tokens| - 1])
        case Err(e) => Err(e)
        case Ok(v) => if |tokens| - 1 >= w then Err(IndexOutOfRange) else Ok(cs + [ToColor(v)])
  }

  /** A row of width w: the stored cells, and `Color.Empty` (the default) after them. */
  function Pad(cs: seq<Color>, w: nat): seq<Color>
    requires |cs| <= w
  {
    cs + seq(w - |cs|, _ => Empty)
  }

  /** The tokens of a line. */
  function Tokens(line: string): seq<string>
  {
    Split(line, ',')
  }

  /** The lines decoded one after another into rows of width w. */
  function RowsPrefix(lines: seq<string>, w: nat): (r: Result<seq<seq<Color>>>)
    ensures r.Ok? ==> |r.value| == |lines| && forall i :: 0 <= i < |lines| ==> |r.value[i]| == w
  {
    if lines == [] then Ok([])
    else
      match RowsPrefix(lines[..|lines| - 1], w)
      case Err(e) => Err(e)
      case Ok(done) =>
        match RowPrefix(Tokens(lines[|lines| - 1]), w)
        case Err(e) => Err(e)
        case Ok(cs) => Ok(done + [Pad(cs, w)])
  }

  datatype Decoded = Decoded(rowCount: nat, colCount: nat, cells: seq<seq<Color>>)

  /** InitFromGridString: the grid, rowCount and colCount, or the exception. */
  function Decode(text: string): Result<Decoded>
  {
    var rows := Split(text, NewLine);
    if rows == [] then Err(IndexOutOfRange)
    else
      var w := |Tokens(rows[0])|;
      match RowsPrefix(rows, w)
      case Err(e) => Err(e)
      case Ok(cells) => Ok(Decoded(|rows|, w, cells))
  }

  // ---------------------------------------------------------------------------
  // Meaning of the decoder

  /** A row is accepted exactly when every token parses and there are at most w of
      them; an accepted row holds the parsed colours in token order. */
  lemma {:induction false} RowPrefixMeaning(tokens: seq<string>, w: nat)
    ensures RowPrefix(tokens, w).Ok? <==>
              |tokens| <= w && forall j :: 0 <= j < |tokens| ==> ParseInt(tokens[j]).Ok?
    ensures RowPrefix(tokens, w).Ok? ==>
              forall j :: 0 <= j < |tokens| ==> RowPrefix(tokens, w).value[j] == ToColor(ParseInt(tokens[j]).value)
    ensures (forall j :: 0 <= j < |tokens| ==> ParseInt(tokens[j]).Ok?) && w < |tokens| ==>
              RowPrefix(tokens, w) == Err(IndexOutOfRange)
  {
    if tokens != [] {
      var p := tokens[..|tokens| - 1];
      RowPrefixMeaning(p, w);
      assert forall j :: 0 <= j < |p| ==> p[j] == tokens[j];
    }
  }

  /** Each line is a good row of width w. */
  ghost predicate RowsFit(lines: seq<string>, w: nat)
  {
    forall i :: 0 <= i < |lines| ==>
      |Tokens(lines[i])| <= w && forall j :: 0 <= j < |Tokens(lines[i])| ==> ParseInt(Tokens(lines[i])[j]).Ok?
  }

  /** Every token of every line parses. */
  ghost predicate AllParse(lines: seq<string>)
  {
    forall i, j :: 0 <= i < |lines| && 0 <= j < |Tokens(lines[i])| ==> ParseInt(Tokens(lines[i])[j]).Ok?
  }

  /** The cells of row i hold the parsed tokens of line i, then `Empty`. */
  ghost predicate RowHolds(row: seq<Color>, line: string)
  {
    forall j :: 0 <= j < |row| ==>
      if j < |Tokens(line)| then ParseInt(Tokens(line)[j]).Ok? && row[j] == ToColor(ParseInt(Tokens(line)[j]).value)
      else row[j] == Empty
  }

  lemma {:induction false} RowsPrefixAccepts(lines: seq<string>, w: nat)
    ensures RowsPrefix(lines, w).Ok? <==> RowsFit(lines, w)
  {
    if lines != [] {
      var p := lines[..|lines| - 1];
      RowsPrefixAccepts(p, w);
      RowPrefixMeaning(Tokens(lines[|lines| - 1]), w);
      assert forall i :: 0 <= i < |p| ==> p[i] == lines[i];
    }
  }

  /** A stored line, padded to width w, holds that line's parsed tokens. */
  lemma PadHolds(line: string, w: nat)
    requires RowPrefix(Tokens(line), w).Ok?
    ensures RowHolds(Pad(RowPrefix(Tokens(line), w).value, w), line)
  {
    RowPrefixMeaning(Tokens(line), w);
  }

  lemma {:induction false} RowsPrefixCells(lines: seq<string>, w: nat)
    requires RowsPrefix(lines, w).Ok?
    ensures forall i :: 0 <= i < |lines| ==> RowHolds(RowsPrefix(lines, w).value[i], lines[i])
  {
    if lines != [] {
      var p := lines[..|lines| - 1];
      var last := lines[|lines| - 1];
      RowsPrefixCells(p, w);
      PadHolds(last, w);
      var done := RowsPrefix(p, w).value;
      var all := RowsPrefix(lines, w).value;
      assert all == done + [Pad(RowPrefix(Tokens(last), w).value, w)];
      forall i | 0 <= i < |lines|
        ensures RowHolds(all[i], lines[i])
      {
        if i < |p| {
          assert all[i] == done[i] && lines[i] == p[i];
        } else {
          assert all[i] == Pad(RowPrefix(Tokens(last), w).value, w) && lines[i] == last;
        }
      }
    }
  }

  lemma {:induction false} RowsPrefixFault(lines: seq<string>, w: nat)
    requires AllParse(lines) && !RowsFit(lines, w)
    ensures RowsPrefix(lines, w) == Err(IndexOutOfRange)
  {
    var p := lines[..|lines| - 1];
    var last := lines[|lines| - 1];
    assert forall i :: 0 <= i < |p| ==> p[i] == lines[i];
    assert AllParse(p);
    RowPrefixMeaning(Tokens(last), w);
    if RowsFit(p, w) {
      RowsPrefixAccepts(p, w);
    } else {
      RowsPrefixFault(p, w);
    }
  }

  /** The decoder's promise: rowCount is the number of non-empty lines, colCount the
      number of tokens of the first line, and cell [i, j] holds the colour of token j
      of line i, or `Empty` past the end of a shorter line. */
  lemma DecodeOk(text: string)
    requires Decode(text).Ok?
    ensures var d := Decode(text).value;
            && d.rowCount == |Split(text, NewLine)| >= 1
            && d.colCount == |Tokens(Split(text, NewLine)[0])|
            && |d.cells| == d.rowCount
            && (forall i :: 0 <= i < d.rowCount ==> |d.cells[i]| == d.colCount)
            && (forall i :: 0 <= i < d.rowCount ==> RowHolds(d.cells[i], Split(text, NewLine)[i]))
  {
    var rows := Split(text, NewLine);
    RowsPrefixAccepts(rows, |Tokens(rows[0])|);
    RowsPrefixCells(rows, |Tokens(rows[0])|);
  }

  /** The text is accepted exactly when it has a non-empty line, every token parses
      and no line has more tokens than the first; the grid is not checked to be
      rectangular otherwise. A text of parseable tokens is refused only with the
      out-of-range fault. */
  lemma DecodeAccepts(text: string)
    ensures var rows := Split(text, NewLine);
            Decode(text).Ok? <==> rows != [] && RowsFit(rows, |Tokens(rows[0])|)
    ensures Split(text, NewLine) == [] ==> Decode(text) == Err(IndexOutOfRange)
    ensures AllParse(Split(text, NewLine)) && Decode(text).Err? ==> Decode(text) == Err(IndexOutOfRange)
  {
    var rows := Split(text, NewLine);
    if rows != [] {
      RowsPrefixAccepts(rows, |Tokens(rows[0])|);
      if AllParse(rows) && !RowsFit(rows, |Tokens(rows[0])|) {
        RowsPrefixFault(rows, |Tokens(rows[0])|);
      }
    }
  }

  /** A token "0" becomes `Empty`, so a decoded grid never holds `Argb(0)`. */
  lemma DecodeNeverArgbZero(text: string)
    requires Decode(text).Ok?
    ensures forall i, j :: 0 <= i < |Decode(text).value.cells| && 0 <= j < |Decode(text).value.cells[i]|
              ==> Decode(text).value.cells[i][j] != Argb(0)
  {
    DecodeOk(text);
  }

  // ---------------------------------------------------------------------------
  // The method

  /** Later prefixes keep the fault of an earlier one. */
  lemma {:induction false} RowPrefixErrStays(tokens: seq<string>, k: nat, w: nat)
    requires k <= |tokens| && RowPrefix(tokens[..k], w).Err?
    ensures RowPrefix(tokens, w) == RowPrefix(tokens[..k], w)
    decreases |tokens| - k
  {
    if k < |tokens| {
      assert tokens[..k + 1][..k] == tokens[..k];
      RowPrefixErrStays(tokens, k + 1, w);
    } else {
      assert tokens[..k] == tokens;
    }
  }

  lemma {:induction false} RowsPrefixErrStays(lines: seq<string>, k: nat, w: nat)
    requires k <= |lines| && RowsPrefix(lines[..k], w).Err?
    ensures RowsPrefix(lines, w) == RowsPrefix(lines[..k], w)
    decreases |lines| - k
  {
    if k < |lines| {
      assert lines[..k + 1][..k] == lines[..k];
      RowsPrefixErrStays(lines, k + 1, w);
    } else {
      assert lines[..k] == lines;
    }
  }

  /** One more token after a stored prefix of a line. */
  lemma RowPrefixNext(tokens: seq<string>, j: nat, w: nat, cs: seq<Color>)
    requires j < |tokens| && RowPrefix(tokens[..j], w) == Ok(cs)
    ensures ParseInt(tokens[j]).Err? ==> RowPrefix(tokens[..j + 1], w) == Err(ParseInt(tokens[j]).fault)
    ensures ParseInt(tokens[j]).Ok? && j >= w ==> RowPrefix(tokens[..j + 1], w) == Err(IndexOutOfRange)
    ensures ParseInt(tokens[j]).Ok? && j < w ==>
              RowPrefix(tokens[..j + 1], w) == Ok(cs + [ToColor(ParseInt(tokens[j]).value)])
  {
    assert tokens[..j + 1][..j] == tokens[..j];
  }

  /** One more line after a decoded prefix of the text. */
  lemma RowsPrefixNext(lines: seq<string>, i: nat, w: nat, done: seq<seq<Color>>)
    requires i < |lines| && RowsPrefix(lines[..i], w) == Ok(done)
    ensures RowPrefix(Tokens(lines[i]), w).Err? ==>
              RowsPrefix(lines[..i + 1], w) == Err(RowPrefix(Tokens(lines[i]), w).fault)
    ensures RowPrefix(Tokens(lines[i]), w).Ok? ==>
              RowsPrefix(lines[..i + 1], w) == Ok(done + [Pad(RowPrefix(Tokens(lines[i]), w).value, w)])
  {
    assert lines[..i + 1][..i] == lines[..i];
  }

  /** The inner loop of InitFromGridString: the tokens of one line parsed and stored
      into row `row`, which is still all `Empty`; other rows are left alone. */
  method FillRow(grid: array2<Color>, row: nat, columns: seq<string>) returns (res: Result<seq<Color>>)
    requires row < grid.Length0
    requires forall j :: 0 <= j < grid.Length1 ==> grid[row, j] == Empty
    modifies grid
    ensures res == RowPrefix(columns, grid.Length1)
    ensures forall i, j :: 0 <= i < grid.Length0 && i != row && 0 <= j < grid.Length1 ==> grid[i, j] == old(grid[i, j])
    ensures res.Ok? ==> forall j :: 0 <= j < grid.Length1 ==> grid[row, j] == Pad(res.value, grid.Length1)[j]
  {
    var cs: seq<Color> := [];
    for columnCounter := 0 to |columns|
      invariant RowPrefix(columns[..columnCounter], grid.Length1) == Ok(cs)
      invariant forall i, j :: 0 <= i < grid.Length0 && i != row && 0 <= j < grid.Length1 ==> grid[i, j] == old(grid[i, j])
      invariant forall j :: 0 <= j < columnCounter ==> grid[row, j] == cs[j]
      invariant forall j :: columnCounter <= j < grid.Length1 ==> grid[row, j] == Empty
    {
      RowPrefixNext(columns, columnCounter, grid.Length1, cs);
      var colorInt := ParseInt(columns[columnCounter]);
      if colorInt.Err? {
        RowPrefixErrStays(columns, columnCounter + 1, grid.Length1);
        return Err(colorInt.fault);
      }
      var color := Empty;
      if colorInt.value != 0 {
        color := Argb(colorInt.value);
      }
      assert color == ToColor(colorInt.value);
      if columnCounter >= grid.Length1 {
        RowPrefixErrStays(columns, columnCounter + 1, grid.Length1);
        return Err(IndexOutOfRange);  // grid[rowCounter, columnCounter]
      }
      grid[row, columnCounter] := color;
      cs := cs + [color];
    }
    assert columns[..|columns|] == columns;
    return Ok(cs);
  }

  /** Rows 0..k-1 of the grid hold `done` and the rows after them are still `Empty`. */
  ghost predicate Loaded(grid: array2<Color>, done: seq<seq<Color>>, k: nat)
    reads grid
  {
    && k == |done| <= grid.Length0
    && (forall i :: 0 <= i < k ==> |done[i]| == grid.Length1)
    && (forall i, j :: 0 <= i < k && 0 <= j < grid.Length1 ==> grid[i, j] == done[i][j])
    && (forall i, j :: k <= i < grid.Length0 && 0 <= j < grid.Length1 ==> grid[i, j] == Empty)
  }

  /** The method's promise against `Decode`. */
  ghost predicate Decodes(text: string, r: Result<array2<Color>>, rowCount: int, colCount: int)
    reads if r.Ok? then {r.value} else {}
  {
    match Decode(text)
    case Err(e) => r == Err(e)
    case Ok(d) =>
      && r.Ok? && rowCount == d.rowCount && colCount == d.colCount
      && r.value.Length0 == rowCount && r.value.Length1 == colCount
      && Cells(r.value) == d.cells
  }

  method InitFromGridString(gridString: string) returns (r: Result<array2<Color>>, rowCount: int, colCount: int)
    ensures Decodes(gridString, r, rowCount, colCount)
  {
    var rows := Split(gridString, NewLine);
    rowCount := |rows|;
    colCount := 0;
    if |rows| == 0 {
      return Err(IndexOutOfRange), rowCount, colCount;  // rows[0]
    }
    colCount := |Tokens(rows[0])|;
    var grid := new Color[rowCount, colCount]((i, j) => Empty);
    ghost var done: seq<seq<Color>> := [];
    for rowCounter := 0 to |rows|
      invariant RowsPrefix(rows[..rowCounter], colCount) == Ok(done)
      invariant Loaded(grid, done, rowCounter)
    {
      RowsPrefixNext(rows, rowCounter, colCount, done);
      var cs := FillRow(grid, rowCounter, Tokens(rows[rowCounter]));
      if cs.Err? {
        RowsPrefixErrStays(rows, rowCounter + 1, colCount);
        assert Decode(gridString) == Err(cs.fault);
        return Err(cs.fault), rowCount, colCount;
      }
      done := done + [Pad(cs.value, colCount)];
    }
    assert rows[..|rows|] == rows;
    CellsAre(grid, done);
    assert Decode(gridString) == Ok(Decoded(rowCount, colCount, done));
    return Ok(grid), rowCount, colCount;
  }
}
