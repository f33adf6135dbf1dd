/** Reading a colour grid (a .NET `Color[,]`, here an `array2`): rows, columns,
    first and last occurrences, and the colours in use. */
module GridHelpers {
  import opened ColorModel
  import opened Lines

  /** GetRow(m, n) reads m[n, i] for every column i, so it fails only when there is
      a column and n is not a row. */
  predicate RowReadable(m: array2<Color>, n: int)
  {
    m.Length1 == 0 || 0 <= n < m.Length0
  }

  /** GetColumn(m, n) reads m[i, n] for every row i. */
  predicate ColumnReadable(m: array2<Color>, n: int)
  {
    m.Length0 == 0 || 0 <= n < m.Length1
  }

  /** Row n of the grid, as a line. */
  function Row(m: array2<Color>, n: int): seq<Color>
    reads m
    requires RowReadable(m, n)
  {
    seq(m.Length1, i requires 0 <= i < m.Length1 reads m => m[n, i])
  }

  /** Column n of the grid, as a line. */
  function Column(m: array2<Color>, n: int): seq<Color>
    reads m
    requires ColumnReadable(m, n)
  {
    seq(m.Length0, i requires 0 <= i < m.Length0 reads m => m[i, n])
  }

  /** The grid's rows, top to bottom. */
  function Cells(m: array2<Color>): seq<seq<Color>>
    reads m
  {
    seq(m.Length0, i requires 0 <= i < m.Length0 reads m => Row(m, i))
  }

  /** A grid whose cells agree with a rectangle of rows has those rows as its cells. */
  lemma CellsAre(m: array2<Color>, g: seq<seq<Color>>)
    requires |g| == m.Length0 && forall i :: 0 <= i < |g| ==> |g[i]| == m.Length1
    requires forall i, j :: 0 <= i < m.Length0 && 0 <= j < m.Length1 ==> m[i, j] == g[i][j]
    ensures Cells(m) == g
  {
    forall i | 0 <= i < |g|
      ensures Cells(m)[i] == g[i]
    {
      assert Row(m, i) == g[i];
    }
  }

  /** The cells in row-major order, the order in which `foreach` visits a `Color[,]`. */
  function Flatten(g: seq<seq<Color>>): seq<Color>
  {
    if g == [] then [] else Flatten(g[..|g| - 1]) + g[|g| - 1]
  }

  /** A colour is in the flattened grid exactly when some row holds it. */
  lemma {:induction false} FlattenHas(g: seq<seq<Color>>, c: Color)
    ensures c in Flatten(g) <==> exists i :: 0 <= i < |g| && c in g[i]
  {
    if g != [] {
      var p := g[..|g| - 1];
      FlattenHas(p, c);
      assert forall i :: 0 <= i < |p| ==> p[i] == g[i];
    }
  }

  /** A colour is in the flattened cells of m exactly when some cell of m has it. */
  lemma CellsHave(m: array2<Color>, c: Color)
    ensures c in Flatten(Cells(m))
            <==> exists i, j :: 0 <= i < m.Length0 && 0 <= j < m.Length1 && m[i, j] == c
  {
    FlattenHas(Cells(m), c);
    if c in Flatten(Cells(m)) {
      var i :| 0 <= i < m.Length0 && c in Cells(m)[i];
      var j :| 0 <= j < m.Length1 && Row(m, i)[j] == c;
      assert m[i, j] == c;
    }
    if exists i, j :: 0 <= i < m.Length0 && 0 <= j < m.Length1 && m[i, j] == c {
      var i, j :| 0 <= i < m.Length0 && 0 <= j < m.Length1 && m[i, j] == c;
      assert Cells(m)[i][j] == c;
    }
  }

  /** Copies row n; indexing `matrix[n, i]` throws when n is out of range, which can
      only happen when the row has cells to copy. */
  method GetRow(matrix: array2<Color>, n: int) returns (res: Result<array<Color>>)
    ensures res.Err? <==> !RowReadable(matrix, n)
    ensures res.Err? ==> res.fault == IndexOutOfRange
    ensures res.Ok? ==> res.value.Length == matrix.Length1
    ensures res.Ok? ==> forall i :: 0 <= i < matrix.Length1 ==> res.value[i] == matrix[n, i]
  {
    var colCount := matrix.Length1;
    var arr := new Color[colCount];
    for i := 0 to colCount
      invariant 0 < i ==> 0 <= n < matrix.Length0
      invariant forall k :: 0 <= k < i ==> arr[k] == matrix[n, k]
    {
      if !(0 <= n < matrix.Length0) {
        return Err(IndexOutOfRange);  // matrix[n, i]
      }
      arr[i] := matrix[n, i];
    }
    return Ok(arr);
  }

  /** Copies column n; throws as GetRow does, with the roles of the dimensions swapped. */
  method GetColumn(matrix: array2<Color>, n: int) returns (res: Result<array<Color>>)
    ensures res.Err? <==> !ColumnReadable(matrix, n)
    ensures res.Err? ==> res.fault == IndexOutOfRange
    ensures res.Ok? ==> res.value.Length == matrix.Length0
    ensures res.Ok? ==> forall i :: 0 <= i < matrix.Length0 ==> res.value[i] == matrix[i, n]
  {
    var rowCount := matrix.Length0;
    var arr := new Color[rowCount];
    for i := 0 to rowCount
      invariant 0 < i ==> 0 <= n < matrix.Length1
      invariant forall k :: 0 <= k < i ==> arr[k] == matrix[k, n]
    {
      if !(0 <= n < matrix.Length1) {
        return Err(IndexOutOfRange);  // matrix[i, n]
      }
      arr[i] := matrix[i, n];
    }
    return Ok(arr);
  }

  /** Forward scan with an early return; -1 when the colour is absent. */
  method IndexOf(arr: array<Color>, color: Color) returns (r: int)
    ensures -1 <= r < arr.Length
    ensures r == -1 <==> color !in arr[..]
    ensures r >= 0 ==> arr[r] == color && forall k :: 0 <= k < r ==> arr[k] != color
    ensures r == First(arr[..], color)
  {
    for i := 0 to arr.Length
      invariant forall k :: 0 <= k < i ==> arr[k] != color
    {
      if arr[i] == color {
        return i;
      }
    }
    return -1;
  }

  /** Backward scan with an early return; -1 when the colour is absent. */
  method LastIndexOf(arr: array<Color>, color: Color) returns (r: int)
    ensures -1 <= r < arr.Length
    ensures r == -1 <==> color !in arr[..]
    ensures r >= 0 ==> arr[r] == color && forall k :: r < k < arr.Length ==> arr[k] != color
    ensures r == Last(arr[..], color)
  {
    var i := arr.Length - 1;
    while i >= 0
      invariant -1 <= i < arr.Length
      invariant forall k :: i < k < arr.Length ==> arr[k] != color
    {
      if arr[i] == color {
        return i;
      }
      i := i - 1;
    }
    return -1;
  }

  /** LINQ `Distinct()`: the first occurrence of every value, in order. */
  function Distinct(s: seq<Color>): seq<Color>
  {
    if s == [] then []
    else
      var d := Distinct(s[..|s| - 1]);
      if s[|s| - 1] in d then d else d + [s[|s| - 1]]
  }

  /** No value appears twice. */
  ghost predicate NoDuplicates(s: seq<Color>)
  {
    forall a, b :: 0 <= a < b < |s| ==> s[a] != s[b]
  }

  lemma FirstOfExtension(p: seq<Color>, x: Color, c: Color)
    requires c in p
    ensures First(p + [x], c) == First(p, c)
  {
    var s := p + [x];
    assert forall k :: 0 <= k < |p| ==> s[k] == p[k];
  }

  /** Distinct keeps every value of its input once, and lists them in the order of
      their first occurrences. */
  lemma {:induction false} DistinctSpec(s: seq<Color>)
    ensures NoDuplicates(Distinct(s))
    ensures forall c :: c in Distinct(s) <==> c in s
    ensures forall a, b :: 0 <= a < b < |Distinct(s)| ==>
              First(s, Distinct(s)[a]) < First(s, Distinct(s)[b])
  {
    if s != [] {
      var p, x := s[..|s| - 1], s[|s| - 1];
      assert s == p + [x];
      DistinctSpec(p);
      var d := Distinct(p);
      forall c | c in p ensures First(s, c) == First(p, c) {
        FirstOfExtension(p, x, c);
      }
      if x !in d {
        assert First(s, x) == |p|;
      }
    }
  }

  /** The colours in use, each once, in row-major first-occurrence order. */
  method GetUsedColorsFromGrid(grid: array2<Color>) returns (used: seq<Color>)
    ensures used == Distinct(Flatten(Cells(grid)))
    ensures NoDuplicates(used)
    ensures forall c :: c in used <==>
              exists i, j :: 0 <= i < grid.Length0 && 0 <= j < grid.Length1 && grid[i, j] == c
  {
    var list: seq<Color> := [];
    ghost var g := Cells(grid);
    for i := 0 to grid.Length0
      invariant list == Flatten(g[..i])
    {
      for j := 0 to grid.Length1
        invariant list == Flatten(g[..i]) + g[i][..j]
      {
        list := list + [grid[i, j]];
      }
      assert g[..i + 1][..i] == g[..i];
    }
    assert g[..grid.Length0] == g;
    used := Distinct(list);
    DistinctSpec(list);
    forall c ensures c in used <==>
        exists i, j :: 0 <= i < grid.Length0 && 0 <= j < grid.Length1 && grid[i, j] == c
    {
      CellsHave(grid, c);
    }
  }
}
