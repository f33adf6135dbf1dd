/** How the two text formats relate: the readable text has the row and column
    structure of the grid, but it is not input the grid-string reader accepts. */
module Formats {
  import opened ColorModel
  import opened Strings
  import opened GridHelpers
  import GridText
  import opened ReadableText

  lemma {:induction false} JoinAvoids(pieces: seq<string>, sep: char, ch: char)
    requires ch != sep && forall k :: 0 <= k < |pieces| ==> ch !in pieces[k]
    ensures ch !in Join(pieces, sep)
    ensures pieces != [] && pieces[0] != [] ==> Join(pieces, sep) != []
  {
    if |pieces| > 1 {
      JoinAvoids(pieces[1..], sep, ch);
    }
  }

  /** The lines of the intended text, one per row. */
  function RowLines(symbols: map<Color, string>, g: seq<seq<Color>>): seq<string>
    requires forall i, j :: 0 <= i < |g| && 0 <= j < |g[i]| ==> g[i][j] in symbols
  {
    seq(|g|, i requires 0 <= i < |g| => Line(symbols, g[i]))
  }

  lemma {:induction false} LayoutJoin(symbols: map<Color, string>, g: seq<seq<Color>>)
    requires forall i, j :: 0 <= i < |g| && 0 <= j < |g[i]| ==> g[i][j] in symbols
    requires g != []
    ensures Layout(symbols, g) == Join(RowLines(symbols, g), NewLine) + [NewLine]
  {
    var pre := g[..|g| - 1];
    assert RowLines(symbols, g) == RowLines(symbols, pre) + [Line(symbols, g[|g| - 1])];
    if pre != [] {
      LayoutJoin(symbols, pre);
      JoinSnoc(RowLines(symbols, pre), Line(symbols, g[|g| - 1]), NewLine);
    }
  }

  /** In a well-formed cache every symbol is one character, neither a separator nor a
      digit, so it is never a number. */
  lemma SymbolShape(st: CacheState, c: Color)
    requires CacheOk(st) && c in st.symbols
    ensures |st.symbols[c]| == 1 && ',' !in st.symbols[c] && NewLine !in st.symbols[c]
    ensures GridText.ParseInt(st.symbols[c]) == Err(Format)
  {
    if !IsBlank(c) {
      var k :| 0 <= k < st.counter && k < |ValidChars| && st.symbols[c] == [ValidChars[k]];
    }
  }

  /** The symbols of one row, as the final cache holds them. */
  function RowSymbols(symbols: map<Color, string>, row: seq<Color>): seq<string>
    requires forall j :: 0 <= j < |row| ==> row[j] in symbols
  {
    seq(|row|, j requires 0 <= j < |row| => symbols[row[j]])
  }

  /** The readable text of a grid with rows and columns splits back into exactly one
      line per row, and each line into exactly one symbol per cell. */
  lemma ReadableShape(st: CacheState, g: seq<seq<Color>>)
    requires CacheOk(st) && g != [] && forall i :: 0 <= i < |g| ==> g[i] != []
    requires Render(st, g).result.Ok?
    ensures var q := Render(st, g);
            && (forall i, j :: 0 <= i < |g| && 0 <= j < |g[i]| ==> g[i][j] in q.state.symbols)
            && |Split(q.result.value, NewLine)| == |g|
            && forall i :: 0 <= i < |g| ==>
                 Split(Split(q.result.value, NewLine)[i], ',') == RowSymbols(q.state.symbols, g[i])
  {
    var q := Render(st, g);
    var sy := q.state.symbols;
    RenderLayout(st, g);
    RenderKeepsCacheOk(st, g);
    LayoutJoin(sy, g);
    var lines := RowLines(sy, g);
    forall i | 0 <= i < |g|
      ensures Separable(RowSymbols(sy, g[i]), ',')
      ensures lines[i] != [] && NewLine !in lines[i]
    {
      var syms := RowSymbols(sy, g[i]);
      forall j | 0 <= j < |g[i]|
        ensures syms[j] != [] && ',' !in syms[j] && NewLine !in syms[j]
      {
        SymbolShape(q.state, g[i][j]);
      }
      assert lines[i] == Join(syms, ',');
      JoinAvoids(syms, ',', NewLine);
    }
    SplitTrailing(Join(lines, NewLine), NewLine);
    SplitJoin(lines, NewLine);
    forall i | 0 <= i < |g|
      ensures Split(lines[i], ',') == RowSymbols(sy, g[i])
    {
      SplitJoin(RowSymbols(sy, g[i]), ',');
    }
  }

  /** Feeding the readable text of a grid with rows and columns to the grid-string
      reader fails with FormatException: its first token is a symbol, not a number. */
  lemma ReadableIsNotGridString(st: CacheState, g: seq<seq<Color>>)
    requires CacheOk(st) && g != [] && forall i :: 0 <= i < |g| ==> g[i] != []
    requires Render(st, g).result.Ok?
    ensures GridText.Decode(Render(st, g).result.value) == Err(Format)
  {
    var q := Render(st, g);
    ReadableShape(st, g);
    RenderKeepsCacheOk(st, g);
    var rows := Split(q.result.value, NewLine);
    var tokens := GridText.Tokens(rows[0]);
    assert tokens == RowSymbols(q.state.symbols, g[0]);
    SymbolShape(q.state, g[0][0]);
    var w := |tokens|;
    assert tokens[..1] == [tokens[0]];
    assert GridText.RowPrefix(tokens[..1], w) == Err(Format);
    GridText.RowPrefixErrStays(tokens, 1, w);
    assert rows[..1] == [rows[0]];
    assert GridText.RowsPrefix(rows[..1], w) == Err(Format);
    GridText.RowsPrefixErrStays(rows, 1, w);
  }
}
