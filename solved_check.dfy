/** The win condition: a candidate grid against the row and column clues. */
module SolvedCheck {
  import opened ColorModel
  import opened Lines
  import opened Picross
  import opened GridHelpers

  /** The connected-branch scan of cells i..hi, as the source loops over them. A step
      past the end of the line is the source's out-of-range read. */
  function ScanBlock(arr: seq<Color>, color: Color, i: nat, hi: int): Result<bool>
    decreases if i <= hi then hi - i + 1 else 0
  {
    if i > hi then Ok(true)
    else if i >= |arr| then Err(IndexOutOfRange)
    else if arr[i] != color then Ok(false)
    else ScanBlock(arr, color, i + 1, hi)
  }

  /** Whether the line `arr` satisfies one colour clue (the line-level IsSolved). */
  function LineVerdict(arr: seq<Color>, cc: ColorClassifier): Result<bool>
  {
    if cc.IsConnected then
      var first := First(arr, cc.MyColor);
      if first == -1 || first + cc.Count - 1 > |arr| then Ok(false)
      else ScanBlock(arr, cc.MyColor, first, first + cc.Count - 1)
    else
      if CountOf(arr, cc.MyColor) != cc.Count then Ok(false)
      else if Last(arr, cc.MyColor) - First(arr, cc.MyColor) <= cc.Count then Ok(false)
      else Ok(true)
  }

  /** The clues of one line, in order, stopping at the first that does not hold. */
  function ColorsVerdict(line: seq<Color>, cs: seq<ColorClassifier>): Result<bool>
  {
    if cs == [] then Ok(true)
    else
      var v := LineVerdict(line, cs[0]);
      if v == Ok(true) then ColorsVerdict(line, cs[1..]) else v
  }

  /** The row classifiers, in order. */
  function RowsVerdict(m: array2<Color>, rows: seq<Classifier>): Result<bool>
    reads m, rows
  {
    if rows == [] then Ok(true)
    else if !RowReadable(m, rows[0].Index) then Err(IndexOutOfRange)
    else
      var v := ColorsVerdict(Row(m, rows[0].Index), rows[0].Colors);
      if v == Ok(true) then RowsVerdict(m, rows[1..]) else v
  }

  /** The column classifiers, in order. */
  function ColumnsVerdict(m: array2<Color>, columns: seq<Classifier>): Result<bool>
    reads m, columns
  {
    if columns == [] then Ok(true)
    else if !ColumnReadable(m, columns[0].Index) then Err(IndexOutOfRange)
    else
      var v := ColorsVerdict(Column(m, columns[0].Index), columns[0].Colors);
      if v == Ok(true) then ColumnsVerdict(m, columns[1..]) else v
  }

  /** The grid-level IsSolved: every row classifier, then every column classifier. */
  function GridVerdict(m: array2<Color>, rows: seq<Classifier>, columns: seq<Classifier>): Result<bool>
    reads m, rows, columns
  {
    var v := RowsVerdict(m, rows);
    if v == Ok(true) then ColumnsVerdict(m, columns) else v
  }

  // ---------------------------------------------------------------------------
  // Meaning of the line check

  lemma {:induction false} ScanBlockMeaning(arr: seq<Color>, color: Color, i: nat, hi: int)
    requires i <= |arr| && hi <= |arr|
    ensures ScanBlock(arr, color, i, hi) == Ok(true)
            <==> hi < |arr| && forall k :: i <= k <= hi ==> arr[k] == color
    ensures ScanBlock(arr, color, i, hi).Err?
            <==> i <= hi == |arr| && forall k :: i <= k < |arr| ==> arr[k] == color
    decreases if i <= hi then hi - i + 1 else 0
  {
    if i <= hi && i < |arr| && arr[i] == color {
      ScanBlockMeaning(arr, color, i + 1, hi);
    }
  }

  /** Connected clue: it holds exactly when the Count cells from the first
      occurrence all have the colour and fit in the line; cells after that block are
      not looked at. When the block would end exactly one past the line and every
      cell up to the end matches, the source reads `arr[arr.Length]` and throws. */
  lemma ConnectedVerdict(arr: seq<Color>, cc: ColorClassifier)
    requires cc.IsConnected
    ensures cc.MyColor !in arr ==> LineVerdict(arr, cc) == Ok(false)
    ensures var f := First(arr, cc.MyColor);
            LineVerdict(arr, cc) == Ok(true) <==>
              && f != -1
              && f + cc.Count <= |arr|
              && forall k :: f <= k < f + cc.Count ==> arr[k] == cc.MyColor
    ensures var f := First(arr, cc.MyColor);
            LineVerdict(arr, cc).Err? <==>
              && f != -1
              && f + cc.Count - 1 == |arr|
              && forall k :: f <= k < |arr| ==> arr[k] == cc.MyColor
  {
    var f := First(arr, cc.MyColor);
    if f != -1 && f + cc.Count - 1 <= |arr| {
      ConnectedFrom(arr, cc, f);
    }
  }

  lemma ConnectedFrom(arr: seq<Color>, cc: ColorClassifier, f: nat)
    requires cc.IsConnected && f == First(arr, cc.MyColor) && f + cc.Count - 1 <= |arr|
    ensures LineVerdict(arr, cc) == ScanBlock(arr, cc.MyColor, f, f + cc.Count - 1)
    ensures LineVerdict(arr, cc) == Ok(true) <==>
              f + cc.Count <= |arr| && forall k :: f <= k < f + cc.Count ==> arr[k] == cc.MyColor
    ensures LineVerdict(arr, cc).Err? <==>
              f + cc.Count - 1 == |arr| && forall k :: f <= k < |arr| ==> arr[k] == cc.MyColor
  {
    ScanBlockMeaning(arr, cc.MyColor, f, f + cc.Count - 1);
  }

  /** Disconnected clue: it holds exactly when the count matches and the last
      occurrence is more than Count cells after the first. */
  lemma DisconnectedVerdict(arr: seq<Color>, cc: ColorClassifier)
    requires !cc.IsConnected
    ensures LineVerdict(arr, cc) ==
              Ok(CountOf(arr, cc.MyColor) == cc.Count
                 && Last(arr, cc.MyColor) - First(arr, cc.MyColor) > cc.Count)
  {
  }

  /** Because the test is strict, a disconnected clue of count 0 or 1 never holds. */
  lemma {:induction false} DisconnectedSmallCountFails(arr: seq<Color>, cc: ColorClassifier)
    requires !cc.IsConnected && cc.Count <= 1
    ensures LineVerdict(arr, cc) == Ok(false)
  {
    var c := cc.MyColor;
    if CountOf(arr, c) == cc.Count && c in arr {
      FirstBeforeLast(arr, c);
      if First(arr, c) < Last(arr, c) {
        CountTwoWhenSpread(arr, c);
      }
    }
  }

  // ---------------------------------------------------------------------------
  // Meaning of the grid check

  /** Every clue of `cs` holds on `line`. */
  ghost predicate AllHold(line: seq<Color>, cs: seq<ColorClassifier>)
  {
    forall j :: 0 <= j < |cs| ==> LineVerdict(line, cs[j]) == Ok(true)
  }

  ghost predicate RowsHold(m: array2<Color>, rows: seq<Classifier>)
    reads m, rows
  {
    forall k :: 0 <= k < |rows| ==>
      RowReadable(m, rows[k].Index) && AllHold(Row(m, rows[k].Index), rows[k].Colors)
  }

  ghost predicate ColumnsHold(m: array2<Color>, columns: seq<Classifier>)
    reads m, columns
  {
    forall k :: 0 <= k < |columns| ==>
      ColumnReadable(m, columns[k].Index) && AllHold(Column(m, columns[k].Index), columns[k].Colors)
  }

  lemma {:induction false} ColorsVerdictMeaning(line: seq<Color>, cs: seq<ColorClassifier>)
    ensures ColorsVerdict(line, cs) == Ok(true) <==> AllHold(line, cs)
    ensures ColorsVerdict(line, cs).Err? ==>
              exists j :: 0 <= j < |cs| && LineVerdict(line, cs[j]).Err?
  {
    if cs != [] {
      ColorsVerdictMeaning(line, cs[1..]);
      assert forall j :: 1 <= j < |cs| ==> cs[j] == cs[1..][j - 1];
    }
  }

  lemma {:induction false} RowsVerdictMeaning(m: array2<Color>, rows: seq<Classifier>)
    ensures RowsVerdict(m, rows) == Ok(true) <==> RowsHold(m, rows)
    ensures RowsVerdict(m, rows).Err? ==>
              exists k :: 0 <= k < |rows| &&
                (!RowReadable(m, rows[k].Index) || ColorsVerdict(Row(m, rows[k].Index), rows[k].Colors).Err?)
  {
    if rows != [] {
      RowsVerdictMeaning(m, rows[1..]);
      assert forall k :: 1 <= k < |rows| ==> rows[k] == rows[1..][k - 1];
      if RowReadable(m, rows[0].Index) {
        ColorsVerdictMeaning(Row(m, rows[0].Index), rows[0].Colors);
      }
    }
  }

  lemma {:induction false} ColumnsVerdictMeaning(m: array2<Color>, columns: seq<Classifier>)
    ensures ColumnsVerdict(m, columns) == Ok(true) <==> ColumnsHold(m, columns)
    ensures ColumnsVerdict(m, columns).Err? ==>
              exists k :: 0 <= k < |columns| &&
                (!ColumnReadable(m, columns[k].Index)
                 || ColorsVerdict(Column(m, columns[k].Index), columns[k].Colors).Err?)
  {
    if columns != [] {
      ColumnsVerdictMeaning(m, columns[1..]);
      assert forall k :: 1 <= k < |columns| ==> columns[k] == columns[1..][k - 1];
      if ColumnReadable(m, columns[0].Index) {
        ColorsVerdictMeaning(Column(m, columns[0].Index), columns[0].Colors);
      }
    }
  }

  /** The grid is solved exactly when every index is in range and every clue of every
      row and column classifier holds on its line; empty lists are solved. */
  lemma GridVerdictMeaning(m: array2<Color>, rows: seq<Classifier>, columns: seq<Classifier>)
    ensures GridVerdict(m, rows, columns) == Ok(true) <==> RowsHold(m, rows) && ColumnsHold(m, columns)
    ensures rows == [] && columns == [] ==> GridVerdict(m, rows, columns) == Ok(true)
  {
    RowsVerdictMeaning(m, rows);
    ColumnsVerdictMeaning(m, columns);
  }

  // ---------------------------------------------------------------------------
  // The clues against the grid they were derived from

  /** A line meets its own clue for `color` unless the clue is disconnected and the
      occurrences span no more than Count + 1 cells; it never raises. So a connected
      clue always fits its line, while an absent colour, or a pattern such as
      [R, _, R], fails its own clue. */
  lemma {:induction false} SelfCheck(line: seq<Color>, color: Color)
    ensures LineVerdict(line, Classify(line, color)) ==
              Ok(Classify(line, color).IsConnected
                 || Last(line, color) - First(line, color) > CountOf(line, color))
  {
    var cc := Classify(line, color);
    if cc.IsConnected {
      ClassifyConnected(line, color);
      ContiguousSpan(line, color);
      CountWithinSpan(line, color);
      ConnectedFrom(line, cc, First(line, color));
    }
  }

  /** An absent colour fails the clue derived for it. */
  lemma AbsentFailsOwnClue(line: seq<Color>, color: Color)
    requires color !in line
    ensures LineVerdict(line, Classify(line, color)) == Ok(false)
  {
    SelfCheck(line, color);
  }

  /** Each row classifier was built from row `Index` of m with the colours `used`. */
  ghost predicate DerivedRows(m: array2<Color>, rows: seq<Classifier>, used: seq<Color>)
    reads m, rows
  {
    forall k :: 0 <= k < |rows| ==>
      && 0 <= rows[k].Index < m.Length0
      && |rows[k].Colors| == |used|
      && forall j :: 0 <= j < |used| ==> rows[k].Colors[j] == Classify(Row(m, rows[k].Index), used[j])
  }

  /** Each column classifier was built from column `Index` of m with the colours `used`. */
  ghost predicate DerivedColumns(m: array2<Color>, columns: seq<Classifier>, used: seq<Color>)
    reads m, columns
  {
    forall k :: 0 <= k < |columns| ==>
      && 0 <= columns[k].Index < m.Length1
      && |columns[k].Colors| == |used|
      && forall j :: 0 <= j < |used| ==>
           columns[k].Colors[j] == Classify(Column(m, columns[k].Index), used[j])
  }

  /** Every colour of `used` is connected in `line`, or spread over more than
      Count + 1 cells. */
  ghost predicate SpansClear(line: seq<Color>, used: seq<Color>)
  {
    forall j :: 0 <= j < |used| ==>
      Classify(line, used[j]).IsConnected || Last(line, used[j]) - First(line, used[j]) > CountOf(line, used[j])
  }

  /** SpansClear holds on every classified row and column. */
  ghost predicate AllSpansClear(m: array2<Color>, rows: seq<Classifier>, columns: seq<Classifier>, used: seq<Color>)
    reads m, rows, columns
    requires DerivedRows(m, rows, used) && DerivedColumns(m, columns, used)
  {
    && (forall k :: 0 <= k < |rows| ==> SpansClear(Row(m, rows[k].Index), used))
    && (forall k :: 0 <= k < |columns| ==> SpansClear(Column(m, columns[k].Index), used))
  }

  lemma LineSelfCheck(line: seq<Color>, cs: seq<ColorClassifier>, used: seq<Color>)
    requires |cs| == |used| && forall j :: 0 <= j < |used| ==> cs[j] == Classify(line, used[j])
    ensures ColorsVerdict(line, cs).Ok?
    ensures ColorsVerdict(line, cs) == Ok(true) <==> SpansClear(line, used)
  {
    forall j | 0 <= j < |used| ensures LineVerdict(line, cs[j]) ==
        Ok(Classify(line, used[j]).IsConnected || Last(line, used[j]) - First(line, used[j]) > CountOf(line, used[j]))
    {
      SelfCheck(line, used[j]);
    }
    ColorsVerdictMeaning(line, cs);
  }

  /** Checked against the grid its clues came from, IsSolved never raises, and it
      answers true exactly when no line has a colour of `used` that is disconnected
      with a span of at most Count + 1 (an absent colour included). */
  lemma ReferenceGridAnswers(m: array2<Color>, rows: seq<Classifier>, columns: seq<Classifier>, used: seq<Color>)
    requires DerivedRows(m, rows, used) && DerivedColumns(m, columns, used)
    ensures GridVerdict(m, rows, columns).Ok?
    ensures GridVerdict(m, rows, columns) == Ok(true) <==>
              && (forall k :: 0 <= k < |rows| ==> SpansClear(Row(m, rows[k].Index), used))
              && (forall k :: 0 <= k < |columns| ==> SpansClear(Column(m, columns[k].Index), used))
  {
    forall k | 0 <= k < |rows|
      ensures ColorsVerdict(Row(m, rows[k].Index), rows[k].Colors).Ok?
      ensures ColorsVerdict(Row(m, rows[k].Index), rows[k].Colors) == Ok(true)
              <==> SpansClear(Row(m, rows[k].Index), used)
    {
      LineSelfCheck(Row(m, rows[k].Index), rows[k].Colors, used);
    }
    forall k | 0 <= k < |columns|
      ensures ColorsVerdict(Column(m, columns[k].Index), columns[k].Colors).Ok?
      ensures ColorsVerdict(Column(m, columns[k].Index), columns[k].Colors) == Ok(true)
              <==> SpansClear(Column(m, columns[k].Index), used)
    {
      LineSelfCheck(Column(m, columns[k].Index), columns[k].Colors, used);
    }
    RowsVerdictMeaning(m, rows);
    ColumnsVerdictMeaning(m, columns);
    forall k | 0 <= k < |rows|
      ensures AllHold(Row(m, rows[k].Index), rows[k].Colors) <==> SpansClear(Row(m, rows[k].Index), used)
    {
      ColorsVerdictMeaning(Row(m, rows[k].Index), rows[k].Colors);
    }
    forall k | 0 <= k < |columns|
      ensures AllHold(Column(m, columns[k].Index), columns[k].Colors)
              <==> SpansClear(Column(m, columns[k].Index), used)
    {
      ColorsVerdictMeaning(Column(m, columns[k].Index), columns[k].Colors);
    }
  }

  /** Checked against the grid its clues came from, IsSolved never raises, and it
      answers true exactly when no line has a colour of `used` that is disconnected
      with a span of at most Count + 1 (an absent colour included). */
  lemma ReferenceGridVerdict(m: array2<Color>, rows: seq<Classifier>, columns: seq<Classifier>, used: seq<Color>)
    requires DerivedRows(m, rows, used) && DerivedColumns(m, columns, used)
    ensures GridVerdict(m, rows, columns) == Ok(AllSpansClear(m, rows, columns, used))
  {
    ReferenceGridAnswers(m, rows, columns, used);
    var v := GridVerdict(m, rows, columns);
    assert v.Ok?;
    if AllSpansClear(m, rows, columns, used) {
      assert v == Ok(true);
    } else {
      assert v.value == false;
    }
  }

  /** So a reference grid with a used colour missing from one of its classified rows
      is reported unsolved by its own clues. */
  lemma ReferenceGridMissingColor(m: array2<Color>, rows: seq<Classifier>, columns: seq<Classifier>,
                                  used: seq<Color>, k: nat, j: nat)
    requires DerivedRows(m, rows, used) && DerivedColumns(m, columns, used)
    requires k < |rows| && j < |used| && used[j] !in Row(m, rows[k].Index)
    ensures GridVerdict(m, rows, columns) == Ok(false)
  {
    var line := Row(m, rows[k].Index);
    ClassifyAbsent(line, used[j]);
    assert !SpansClear(line, used);
    ReferenceGridVerdict(m, rows, columns, used);
  }

  // ---------------------------------------------------------------------------
  // Two lines worked through (R and G are opaque red and green)

  const R := Argb(-65536)      // 0xFFFF0000 as a signed 32-bit value
  const G := Argb(-16711936)   // 0xFF00FF00

  /** [R, _, R] is classified (R, 2, not connected) and fails that clue. */
  lemma GapOfOneFails()
    ensures Classify([R, Empty, R], R) == ColorClassifier(R, 2, false)
    ensures LineVerdict([R, Empty, R], Classify([R, Empty, R], R)) == Ok(false)
  {
    var s := [R, Empty, R];
    assert First(s, R) == 0;
    assert Last(s, R) == 2;
    assert CountOf(s, R) == 2 by {
      assert s[..2][..1] == [R];
      assert s[..2] == [R, Empty];
    }
  }

  /** In [R, R, R, G] a block of three R and a single G are both connected. */
  lemma BlockExamples()
    ensures Classify([R, R, R, G], R) == ColorClassifier(R, 3, true)
    ensures Classify([R, R, R, G], G) == ColorClassifier(G, 1, true)
  {
    var s := [R, R, R, G];
    assert s[..3] == [R, R, R] && s[..3][..2] == [R, R] && s[..3][..2][..1] == [R];
    assert CountOf([R], R) == 1;
    assert CountOf([R, R], R) == 2;
    assert CountOf([R, R, R], R) == 3;
    assert CountOf(s, R) == 3;
    assert First(s, R) == 0 && Last(s, R) == 2;
    assert First(s, G) == 3 && Last(s, G) == 3;
  }

  /** A clue of three connected R rejects [R, R, G, R]. */
  lemma NearMissRejected()
    ensures LineVerdict([R, R, G, R], ColorClassifier(R, 3, true)) == Ok(false)
  {
    var s := [R, R, G, R];
    assert First(s, R) == 0;
    assert ScanBlock(s, R, 2, 2) == Ok(false);
    assert ScanBlock(s, R, 0, 2) == ScanBlock(s, R, 1, 2) == ScanBlock(s, R, 2, 2);
  }

  // ---------------------------------------------------------------------------
  // The methods

  method IsLineSolved(arr: array<Color>, color: ColorClassifier) returns (r: Result<bool>)
    ensures r == LineVerdict(arr[..], color)
  {
    if color.IsConnected {
      var first := IndexOf(arr, color.MyColor);
      if first == -1 || first + color.Count - 1 > arr.Length {
        return Ok(false);
      }
      ghost var hi := first + color.Count - 1;
      var i := first;
      while i <= first + color.Count - 1
        invariant first <= i
        invariant ScanBlock(arr[..], color.MyColor, i, hi) == ScanBlock(arr[..], color.MyColor, first, hi)
        decreases first + color.Count - i
      {
        if i >= arr.Length {
          return Err(IndexOutOfRange);  // arr[i] is past the end
        }
        if arr[i] != color.MyColor {
          return Ok(false);
        }
        i := i + 1;
      }
      return Ok(true);
    } else {
      var count := CountOf(arr[..], color.MyColor);
      if count != color.Count {
        return Ok(false);
      }
      var first := IndexOf(arr, color.MyColor);
      var last := LastIndexOf(arr, color.MyColor);
      if last - first <= color.Count {
        return Ok(false);
      }
      return Ok(true);
    }
  }

  /** The inner `foreach` over one classifier's colours. */
  method LineColorsSolved(arr: array<Color>, cs: seq<ColorClassifier>) returns (r: Result<bool>)
    ensures r == ColorsVerdict(arr[..], cs)
  {
    for j := 0 to |cs|
      invariant ColorsVerdict(arr[..], cs[j..]) == ColorsVerdict(arr[..], cs)
    {
      assert cs[j..][1..] == cs[j + 1..];
      var ok := IsLineSolved(arr, cs[j]);
      if ok != Ok(true) {
        assert cs[j..][0] == cs[j];
        return ok;
      }
    }
    assert cs[|cs|..] == [];
    return Ok(true);
  }

  /** The first `foreach` of IsSolved: every row classifier against its row. */
  method RowsSolved(matrix: array2<Color>, rows: seq<Classifier>) returns (r: Result<bool>)
    ensures r == RowsVerdict(matrix, rows)
  {
    for k := 0 to |rows|
      invariant RowsVerdict(matrix, rows[k..]) == RowsVerdict(matrix, rows)
    {
      assert rows[k..][1..] == rows[k + 1..];
      assert rows[k..][0] == rows[k];
      var row := rows[k];
      var got := GetRow(matrix, row.Index);
      if got.Err? {
        return Err(got.fault);
      }
      var rowArr := got.value;
      assert rowArr[..] == Row(matrix, row.Index);
      var ok := LineColorsSolved(rowArr, row.Colors);
      if ok != Ok(true) {
        return ok;
      }
    }
    assert rows[|rows|..] == [];
    return Ok(true);
  }

  /** The second `foreach` of IsSolved: every column classifier against its column. */
  method ColumnsSolved(matrix: array2<Color>, columns: seq<Classifier>) returns (r: Result<bool>)
    ensures r == ColumnsVerdict(matrix, columns)
  {
    for k := 0 to |columns|
      invariant ColumnsVerdict(matrix, columns[k..]) == ColumnsVerdict(matrix, columns)
    {
      assert columns[k..][1..] == columns[k + 1..];
      assert columns[k..][0] == columns[k];
      var column := columns[k];
      var got := GetColumn(matrix, column.Index);
      if got.Err? {
        return Err(got.fault);
      }
      var colArr := got.value;
      assert colArr[..] == Column(matrix, column.Index);
      var ok := LineColorsSolved(colArr, column.Colors);
      if ok != Ok(true) {
        return ok;
      }
    }
    assert columns[|columns|..] == [];
    return Ok(true);
  }

  /** A classifier index outside the grid makes GetRow/GetColumn throw, and the
      IndexOutOfRange fault is passed on. */
  method IsSolved(matrix: array2<Color>, rows: seq<Classifier>, columns: seq<Classifier>)
    returns (r: Result<bool>)
    ensures r == GridVerdict(matrix, rows, columns)
  {
    r := RowsSolved(matrix, rows);
    if r != Ok(true) {
      return r;
    }
    r := ColumnsSolved(matrix, columns);
  }
}
