/** Writing a grid as readable text: one letter per colour, taken from a cache that
    persists from one call to the next. */
module ReadableText {
  import opened ColorModel
  import opened Strings
  import opened GridHelpers

  /** The letters handed out to new colours, in order. */
  const ValidChars: string := "abcdefgh"

  /** The cache: the symbol of each colour seen so far, and how many letters were taken. */
  datatype CacheState = CacheState(symbols: map<Color, string>, counter: int)

  /** A computation's result together with the cache it leaves behind, which keeps
      its changes even when the computation throws. */
  datatype Step<T> = Step(result: Result<T>, state: CacheState)

  /** The cache after ResetCache: both kinds of empty colour are shown as "_". */
  const Initial: CacheState := CacheState(map[Empty := "_", Argb(0) := "_"], 0)

  /** The symbol of one cell: a cached colour keeps its symbol; a new one takes the
      next letter, and when the letters are used up the counter still moves on before
      the index throws. */
  function Lookup(st: CacheState, c: Color): Step<string>
  {
    if c in st.symbols then Step(Ok(st.symbols[c]), st)
    else if 0 <= st.counter < |ValidChars| then
      var s := [ValidChars[st.counter]];
      Step(Ok(s), CacheState(st.symbols[c := s], st.counter + 1))
    else Step(Err(IndexOutOfRange), CacheState(st.symbols, st.counter + 1))
  }

  /** The symbols of a row's cells, looked up left to right. */
  function Symbols(st: CacheState, cells: seq<Color>): (r: Step<seq<string>>)
    ensures r.result.Ok? ==> |r.result.value| == |cells|
  {
    if cells == [] then Step(Ok([]), st)
    else
      var p := Symbols(st, cells[..|cells| - 1]);
      if p.result.Err? then p
      else
        var l := Lookup(p.state, cells[|cells| - 1]);
        if l.result.Err? then Step(Err(l.result.fault), l.state)
        else Step(Ok(p.result.value + [l.result.value]), l.state)
  }

  /** The builder `sb` after a row's cells are appended: each symbol and a comma. */
  function Appended(sb: string, syms: seq<string>): string
  {
    if syms == [] then sb else Appended(sb, syms[..|syms| - 1]) + syms[|syms| - 1] + ","
  }

  /** ToReadableString over the rows of a grid: each row appends its cells, then one
      character is cut from the builder (which throws when it is empty) and a line
      break is added. */
  function Render(st: CacheState, g: seq<seq<Color>>): Step<string>
  {
    if g == [] then Step(Ok(""), st)
    else
      var p := Render(st, g[..|g| - 1]);
      if p.result.Err? then p
      else
        var q := Symbols(p.state, g[|g| - 1]);
        if q.result.Err? then Step(Err(q.result.fault), q.state)
        else
          var body := Appended(p.result.value, q.result.value);
          if body == [] then Step(Err(ArgumentOutOfRange), q.state)
          else Step(Ok(body[..|body| - 1] + [NewLine]), q.state)
  }

  // ---------------------------------------------------------------------------
  // What the cache does

  /** The colours of `cells` not yet in the cache. */
  ghost function NewColors(st: CacheState, cells: seq<Color>): set<Color>
  {
    set c | c in cells && c !in st.symbols
  }

  /** How many more letters a cache with this counter can hand out. */
  function Room(counter: int): nat
  {
    if 0 <= counter <= |ValidChars| then |ValidChars| - counter else 0
  }

  /** Every entry of `a` is in `b` with the same symbol. */
  ghost predicate Extends(a: map<Color, string>, b: map<Color, string>)
  {
    forall c :: c in a ==> c in b && b[c] == a[c]
  }

  /** The keys of `after` are those of `before` and the colours of `cells`. */
  ghost predicate KeysAdded(before: CacheState, after: CacheState, cells: seq<Color>)
  {
    forall c :: c in after.symbols <==> c in before.symbols || c in cells
  }

  lemma RoomAfter(counter: int, n: nat)
    requires n <= Room(counter)
    ensures Room(counter + n) == Room(counter) - n
  {
  }

  /** The colours new to `st` in a + b are those new in a and, disjoint from them,
      those new in b to the cache that already holds a. */
  lemma NewColorsAppend(st: CacheState, s1: CacheState, a: seq<Color>, b: seq<Color>)
    requires KeysAdded(st, s1, a)
    ensures NewColors(st, a + b) == NewColors(st, a) + NewColors(s1, b)
    ensures NewColors(st, a) * NewColors(s1, b) == {}
    ensures |NewColors(st, a + b)| == |NewColors(st, a)| + |NewColors(s1, b)|
  {
    assert NewColors(st, a + b) == NewColors(st, a) + NewColors(s1, b);
  }

  /** Looking up a row succeeds exactly when its new colours fit in the letters left;
      it then adds those colours, keeps the old entries, moves the counter on by their
      number and yields each cell's final symbol. Any failure is the index error. */
  lemma SymbolsFacts(st: CacheState, cells: seq<Color>)
    ensures Symbols(st, cells).result.Ok? <==> |NewColors(st, cells)| <= Room(st.counter)
    ensures Symbols(st, cells).result.Err? ==> Symbols(st, cells).result == Err(IndexOutOfRange)
    ensures var q := Symbols(st, cells);
            q.result.Ok? ==>
              && KeysAdded(st, q.state, cells)
              && Extends(st.symbols, q.state.symbols)
              && q.state.counter == st.counter + |NewColors(st, cells)|
              && |q.result.value| == |cells|
              && forall k :: 0 <= k < |cells| ==> q.result.value[k] == q.state.symbols[cells[k]]
  {
    SymbolsAccepts(st, cells);
    if Symbols(st, cells).result.Ok? {
      SymbolsOk(st, cells);
      SymbolsValues(st, cells);
    }
  }

  lemma {:induction false} SymbolsAccepts(st: CacheState, cells: seq<Color>)
    ensures Symbols(st, cells).result.Ok? <==> |NewColors(st, cells)| <= Room(st.counter)
    ensures Symbols(st, cells).result.Err? ==> Symbols(st, cells).result == Err(IndexOutOfRange)
  {
    if cells != [] {
      var pre := cells[..|cells| - 1];
      var last := cells[|cells| - 1];
      assert cells == pre + [last];
      SymbolsAccepts(st, pre);
      var p := Symbols(st, pre);
      if p.result.Ok? {
        SymbolsOk(st, pre);
        var s1 := p.state;
        LookupFacts(s1, last);
        NewColorsAppend(st, s1, pre, [last]);
        RoomAfter(st.counter, |NewColors(st, pre)|);
        if last in s1.symbols {
          assert NewColors(s1, [last]) == {};
        } else {
          assert NewColors(s1, [last]) == {last};
        }
      } else {
        assert NewColors(st, pre) <= NewColors(st, cells);
        SubsetCard(NewColors(st, pre), NewColors(st, cells));
      }
    }
  }

  lemma {:induction false} SymbolsOk(st: CacheState, cells: seq<Color>)
    requires Symbols(st, cells).result.Ok?
    ensures var q := Symbols(st, cells);
            && KeysAdded(st, q.state, cells)
            && Extends(st.symbols, q.state.symbols)
            && q.state.counter == st.counter + |NewColors(st, cells)|
  {
    if cells != [] {
      var pre := cells[..|cells| - 1];
      var last := cells[|cells| - 1];
      assert cells == pre + [last];
      var s1 := Symbols(st, pre).state;
      SymbolsOk(st, pre);
      LookupFacts(s1, last);
      NewColorsAppend(st, s1, pre, [last]);
      if last in s1.symbols {
        assert NewColors(s1, [last]) == {};
      } else {
        assert NewColors(s1, [last]) == {last};
      }
      ExtendsTrans(st.symbols, s1.symbols, Lookup(s1, last).state.symbols);
    }
  }

  /** Each symbol of a successful lookup is the one the final cache holds for its cell. */
  lemma {:induction false} SymbolsValues(st: CacheState, cells: seq<Color>)
    requires Symbols(st, cells).result.Ok?
    ensures var q := Symbols(st, cells);
            forall k :: 0 <= k < |cells| ==> cells[k] in q.state.symbols && q.result.value[k] == q.state.symbols[cells[k]]
  {
    if cells != [] {
      var pre := cells[..|cells| - 1];
      var last := cells[|cells| - 1];
      assert cells == pre + [last];
      var p := Symbols(st, pre);
      SymbolsOk(st, pre);
      SymbolsValues(st, pre);
      var l := Lookup(p.state, last);
      LookupFacts(p.state, last);
      var q := Symbols(st, cells);
      assert q == Step(Ok(p.result.value + [l.result.value]), l.state);
      forall k | 0 <= k < |cells|
        ensures cells[k] in q.state.symbols && q.result.value[k] == q.state.symbols[cells[k]]
      {
        if k < |pre| {
          assert cells[k] == pre[k] && q.result.value[k] == p.result.value[k];
        }
      }
    }
  }

  /** One lookup: it fails only for a new colour when no letter is left; otherwise it
      adds at most that colour and keeps every old entry. */
  lemma LookupFacts(st: CacheState, c: Color)
    ensures Lookup(st, c).result.Ok? <==> c in st.symbols || 0 <= st.counter < |ValidChars|
    ensures var l := Lookup(st, c);
            l.result.Ok? ==>
              && Extends(st.symbols, l.state.symbols)
              && c in l.state.symbols && l.state.symbols[c] == l.result.value
              && (forall d :: d in l.state.symbols <==> d in st.symbols || d == c)
              && l.state.counter == st.counter + (if c in st.symbols then 0 else 1)
  {
  }

  lemma ExtendsTrans(a: map<Color, string>, b: map<Color, string>, c: map<Color, string>)
    requires Extends(a, b) && Extends(b, c)
    ensures Extends(a, c)
  {
  }

  lemma SubsetCard(a: set<Color>, b: set<Color>)
    requires a <= b
    ensures |a| <= |b|
  {
    assert b == a + (b - a);
  }

  /** Rendering succeeds exactly when the first row (if any) has cells and the grid's
      new colours fit in the letters left. It then adds those colours, keeps the old
      entries and moves the counter on by their number. An empty first row fails with
      the argument error, anything else with the index error. */
  lemma {:induction false} RenderFacts(st: CacheState, g: seq<seq<Color>>)
    ensures Render(st, g).result.Ok? <==>
              (g == [] || g[0] != []) && |NewColors(st, Flatten(g))| <= Room(st.counter)
    ensures Render(st, g).result.Err? ==>
              Render(st, g).result == Err(if g[0] == [] then ArgumentOutOfRange else IndexOutOfRange)
    ensures var q := Render(st, g);
            q.result.Ok? ==>
              && KeysAdded(st, q.state, Flatten(g))
              && Extends(st.symbols, q.state.symbols)
              && q.state.counter == st.counter + |NewColors(st, Flatten(g))|
              && (g != [] ==> q.result.value != [] && q.result.value[|q.result.value| - 1] == NewLine)
  {
    if g != [] {
      var pre := g[..|g| - 1];
      var last := g[|g| - 1];
      RenderFacts(st, pre);
      var p := Render(st, pre);
      assert pre != [] ==> pre[0] == g[0];
      if p.result.Ok? {
        var s1 := p.state;
        SymbolsFacts(s1, last);
        NewColorsAppend(st, s1, Flatten(pre), last);
        RoomAfter(st.counter, |NewColors(st, Flatten(pre))|);
      } else {
        assert NewColors(st, Flatten(pre)) <= NewColors(st, Flatten(g));
        SubsetCard(NewColors(st, Flatten(pre)), NewColors(st, Flatten(g)));
      }
    }
  }

  /** A row whose symbols were all settled in one cache gives the same symbols, and
      leaves the cache alone, in any cache that keeps those entries. */
  lemma {:induction false} SymbolsStable(st1: CacheState, st2: CacheState, cells: seq<Color>)
    requires Symbols(st1, cells).result.Ok?
    requires Extends(Symbols(st1, cells).state.symbols, st2.symbols)
    ensures Symbols(st2, cells) == Step(Symbols(st1, cells).result, st2)
  {
    if cells != [] {
      var pre := cells[..|cells| - 1];
      SymbolsFacts(Symbols(st1, pre).state, [cells[|cells| - 1]]);
      SymbolsStable(st1, st2, pre);
    }
  }

  lemma {:induction false} RenderStable(st1: CacheState, st2: CacheState, g: seq<seq<Color>>)
    requires Render(st1, g).result.Ok?
    requires Extends(Render(st1, g).state.symbols, st2.symbols)
    ensures Render(st2, g) == Step(Render(st1, g).result, st2)
  {
    if g != [] {
      var pre := g[..|g| - 1];
      var s1 := Render(st1, pre).state;
      SymbolsFacts(s1, g[|g| - 1]);
      RenderStable(st1, st2, pre);
      SymbolsStable(s1, st2, g[|g| - 1]);
    }
  }

  /** Writing the same grid again right after a successful call gives the same text
      and changes nothing. */
  lemma RenderAgain(st: CacheState, g: seq<seq<Color>>)
    requires Render(st, g).result.Ok?
    ensures Render(Render(st, g).state, g) == Render(st, g)
  {
    RenderStable(st, Render(st, g).state, g);
  }

  /** The symbols of a row's cells, separated by commas. */
  function Line(symbols: map<Color, string>, row: seq<Color>): string
    requires forall j :: 0 <= j < |row| ==> row[j] in symbols
  {
    Join(seq(|row|, j requires 0 <= j < |row| => symbols[row[j]]), ',')
  }

  /** The intended text: each row's line followed by a line break. */
  function Layout(symbols: map<Color, string>, g: seq<seq<Color>>): string
    requires forall i, j :: 0 <= i < |g| && 0 <= j < |g[i]| ==> g[i][j] in symbols
  {
    if g == [] then "" else Layout(symbols, g[..|g| - 1]) + Line(symbols, g[|g| - 1]) + [NewLine]
  }

  lemma {:induction false} LayoutExtends(a: map<Color, string>, b: map<Color, string>, g: seq<seq<Color>>)
    requires forall i, j :: 0 <= i < |g| && 0 <= j < |g[i]| ==> g[i][j] in a
    requires Extends(a, b)
    ensures Layout(a, g) == Layout(b, g)
  {
    if g != [] {
      LayoutExtends(a, b, g[..|g| - 1]);
      var row := g[|g| - 1];
      assert seq(|row|, j requires 0 <= j < |row| => a[row[j]]) == seq(|row|, j requires 0 <= j < |row| => b[row[j]]);
    }
  }

  /** The builder's text for a row, before its last comma is cut. */
  lemma {:induction false} AppendedJoin(sb: string, syms: seq<string>)
    requires syms != []
    ensures Appended(sb, syms) == sb + Join(syms, ',') + ","
  {
    if |syms| > 1 {
      var pre := syms[..|syms| - 1];
      AppendedJoin(sb, pre);
      assert syms == pre + [syms[|syms| - 1]];
      JoinSnoc(pre, syms[|syms| - 1], ',');
    }
  }

  /** When no row is empty, a successful call writes each row as its cells' symbols
      (as the cache finally holds them) separated by commas, each row on its own line. */
  lemma {:induction false} RenderLayout(st: CacheState, g: seq<seq<Color>>)
    requires forall i :: 0 <= i < |g| ==> g[i] != []
    requires Render(st, g).result.Ok?
    ensures forall i, j :: 0 <= i < |g| && 0 <= j < |g[i]| ==> g[i][j] in Render(st, g).state.symbols
    ensures Render(st, g).result.value == Layout(Render(st, g).state.symbols, g)
  {
    RenderFacts(st, g);
    var fin := Render(st, g).state;
    forall i, j | 0 <= i < |g| && 0 <= j < |g[i]|
      ensures g[i][j] in fin.symbols
    {
      FlattenHas(g, g[i][j]);
    }
    if g != [] {
      var pre := g[..|g| - 1];
      var last := g[|g| - 1];
      var p := Render(st, pre);
      RenderLayout(st, pre);
      SymbolsFacts(p.state, last);
      LayoutExtends(p.state.symbols, fin.symbols, pre);
      var syms := Symbols(p.state, last).result.value;
      AppendedJoin(p.result.value, syms);
      assert syms == seq(|last|, j requires 0 <= j < |last| => fin.symbols[last[j]]);
      var body := Appended(p.result.value, syms);
      assert body[..|body| - 1] == p.result.value + Join(syms, ',');
    }
  }

  /** The colours a grid shows with a letter: all but the two kinds of empty colour. */
  ghost function Lettered(g: seq<seq<Color>>): set<Color>
  {
    set c | c in Flatten(g) && c != Empty && c != Argb(0)
  }

  /** Right after ResetCache, a grid can be written exactly when its first row has
      cells and it shows at most eight colours besides the empty ones. */
  lemma FromReset(g: seq<seq<Color>>)
    ensures Render(Initial, g).result.Ok? <==> (g == [] || g[0] != []) && |Lettered(g)| <= |ValidChars|
    ensures Render(Initial, g).result.Ok? ==> Render(Initial, g).state.counter == |Lettered(g)|
  {
    RenderFacts(Initial, g);
    assert NewColors(Initial, Flatten(g)) == Lettered(g);
  }

  /** A grid with rows but no columns throws ArgumentOutOfRangeException; a grid with
      no rows gives the empty text and leaves the cache alone. */
  lemma NoColumns(st: CacheState, grid: array2<Color>)
    ensures grid.Length0 >= 1 && grid.Length1 == 0 ==> Render(st, Cells(grid)).result == Err(ArgumentOutOfRange)
    ensures grid.Length0 == 0 ==> Render(st, Cells(grid)) == Step(Ok(""), st)
  {
    if grid.Length0 >= 1 && grid.Length1 == 0 {
      RenderFacts(st, Cells(grid));
    }
  }

  // ---------------------------------------------------------------------------
  // The cache stays a code: empty colours show as "_", every other colour as its
  // own letter

  predicate IsBlank(c: Color)
  {
    c == Empty || c == Argb(0)
  }

  ghost predicate CacheOk(st: CacheState)
  {
    && 0 <= st.counter
    && Empty in st.symbols && st.symbols[Empty] == "_"
    && Argb(0) in st.symbols && st.symbols[Argb(0)] == "_"
    && (forall c :: c in st.symbols && !IsBlank(c) ==>
          exists k :: 0 <= k < st.counter && k < |ValidChars| && st.symbols[c] == [ValidChars[k]])
    && (forall c, d :: c in st.symbols && d in st.symbols && c != d && st.symbols[c] == st.symbols[d] ==>
          IsBlank(c) && IsBlank(d))
  }

  lemma LettersDistinct(i: int, j: int)
    requires 0 <= i < |ValidChars| && 0 <= j < |ValidChars| && i != j
    ensures ValidChars[i] != ValidChars[j] && ValidChars[i] != '_'
  {
  }

  lemma LookupKeepsCacheOk(st: CacheState, c: Color)
    requires CacheOk(st)
    ensures CacheOk(Lookup(st, c).state)
  {
    if c !in st.symbols && 0 <= st.counter < |ValidChars| {
      var n := Lookup(st, c).state;
      forall d | d in n.symbols && !IsBlank(d)
        ensures exists k :: 0 <= k < n.counter && k < |ValidChars| && n.symbols[d] == [ValidChars[k]]
      {
        if d == c {
          assert n.symbols[d] == [ValidChars[st.counter]];
        } else {
          var k :| 0 <= k < st.counter && k < |ValidChars| && st.symbols[d] == [ValidChars[k]];
          assert n.symbols[d] == [ValidChars[k]];
        }
      }
      forall d, e | d in n.symbols && e in n.symbols && d != e && n.symbols[d] == n.symbols[e]
        ensures IsBlank(d) && IsBlank(e)
      {
        if d == c || e == c {
          var o := if d == c then e else d;
          if IsBlank(o) {
            LettersDistinct(st.counter, if st.counter == 0 then 1 else 0);
            assert false;
          } else {
            var k :| 0 <= k < st.counter && k < |ValidChars| && st.symbols[o] == [ValidChars[k]];
            assert st.symbols[o][0] == ValidChars[k];
            LettersDistinct(k, st.counter);
            assert false;
          }
        }
      }
    } else if c !in st.symbols {
      var n := Lookup(st, c).state;
      forall d | d in n.symbols && !IsBlank(d)
        ensures exists k :: 0 <= k < n.counter && k < |ValidChars| && n.symbols[d] == [ValidChars[k]]
      {
        var k :| 0 <= k < st.counter && k < |ValidChars| && st.symbols[d] == [ValidChars[k]];
      }
    }
  }

  lemma {:induction false} SymbolsKeepsCacheOk(st: CacheState, cells: seq<Color>)
    requires CacheOk(st)
    ensures CacheOk(Symbols(st, cells).state)
  {
    if cells != [] {
      SymbolsKeepsCacheOk(st, cells[..|cells| - 1]);
      LookupKeepsCacheOk(Symbols(st, cells[..|cells| - 1]).state, cells[|cells| - 1]);
    }
  }

  /** Every call, successful or not, leaves a cache in which the empty colours show as
      "_" and every other colour as a letter of its own. */
  lemma {:induction false} RenderKeepsCacheOk(st: CacheState, g: seq<seq<Color>>)
    requires CacheOk(st)
    ensures CacheOk(Render(st, g).state)
  {
    if g != [] {
      RenderKeepsCacheOk(st, g[..|g| - 1]);
      SymbolsKeepsCacheOk(Render(st, g[..|g| - 1]).state, g[|g| - 1]);
    }
  }

  /** So the text tells apart any two colours other than the empty ones. */
  lemma DistinctColorsDistinctSymbols(st: CacheState, g: seq<seq<Color>>, c: Color, d: Color)
    requires CacheOk(st) && Render(st, g).result.Ok?
    requires c in Flatten(g) && d in Flatten(g) && c != d && !IsBlank(c)
    ensures c in Render(st, g).state.symbols && d in Render(st, g).state.symbols
    ensures Render(st, g).state.symbols[c] != Render(st, g).state.symbols[d]
  {
    RenderFacts(st, g);
    RenderKeepsCacheOk(st, g);
  }

  // ---------------------------------------------------------------------------
  // A fault ends the call

  lemma {:induction false} SymbolsErrStays(st: CacheState, cells: seq<Color>, k: nat)
    requires k <= |cells| && Symbols(st, cells[..k]).result.Err?
    ensures Symbols(st, cells) == Symbols(st, cells[..k])
    decreases |cells| - k
  {
    if k < |cells| {
      assert cells[..k + 1][..k] == cells[..k];
      SymbolsErrStays(st, cells, k + 1);
    } else {
      assert cells[..k] == cells;
    }
  }

  lemma {:induction false} RenderErrStays(st: CacheState, g: seq<seq<Color>>, k: nat)
    requires k <= |g| && Render(st, g[..k]).result.Err?
    ensures Render(st, g) == Render(st, g[..k])
    decreases |g| - k
  {
    if k < |g| {
      assert g[..k + 1][..k] == g[..k];
      RenderErrStays(st, g, k + 1);
    } else {
      assert g[..k] == g;
    }
  }

  lemma AppendedSnoc(sb: string, syms: seq<string>, symbol: string)
    ensures Appended(sb, syms + [symbol]) == Appended(sb, syms) + symbol + ","
  {
    assert (syms + [symbol])[..|syms|] == syms;
  }

  /** One more cell, found or added, after a successful prefix. */
  lemma SymbolsNextOk(st0: CacheState, cells: seq<Color>, j: nat, syms: seq<string>, st: CacheState,
                      symbol: string, st': CacheState)
    requires j < |cells| && Symbols(st0, cells[..j]) == Step(Ok(syms), st)
    requires Lookup(st, cells[j]) == Step(Ok(symbol), st')
    ensures Symbols(st0, cells[..j + 1]) == Step(Ok(syms + [symbol]), st')
  {
    assert cells[..j + 1][..j] == cells[..j];
  }

  /** One more cell whose lookup throws ends the row with that fault. */
  lemma SymbolsNextErr(st0: CacheState, cells: seq<Color>, j: nat, syms: seq<string>, st: CacheState,
                       e: Fault, st': CacheState)
    requires j < |cells| && Symbols(st0, cells[..j]) == Step(Ok(syms), st)
    requires Lookup(st, cells[j]) == Step(Err(e), st')
    ensures Symbols(st0, cells) == Step(Err(e), st')
  {
    assert cells[..j + 1][..j] == cells[..j];
    SymbolsErrStays(st0, cells, j + 1);
  }

  /** One more row after a successful prefix. */
  lemma RenderNext(st0: CacheState, g: seq<seq<Color>>, i: nat, text: string, st: CacheState)
    requires i < |g| && Render(st0, g[..i]) == Step(Ok(text), st)
    ensures Render(st0, g[..i + 1]) ==
              var q := Symbols(st, g[i]);
              if q.result.Err? then Step(Err(q.result.fault), q.state)
              else if Appended(text, q.result.value) == [] then Step(Err(ArgumentOutOfRange), q.state)
              else
                var body := Appended(text, q.result.value);
                Step(Ok(body[..|body| - 1] + [NewLine]), q.state)
  {
    assert g[..i + 1][..i] == g[..i];
  }

  /** The row's lookups `q` left the cache `st`, and appended each symbol with a comma
      to the builder `sb`, or stopped with their fault. */
  ghost predicate RowAppended(q: Step<seq<string>>, sb: string, r: Result<string>, st: CacheState)
  {
    && st == q.state
    && (if q.result.Ok? then r == Ok(Appended(sb, q.result.value)) else r == Err(q.result.fault))
  }

  // ---------------------------------------------------------------------------
  // The static cache and its methods

  /** The static state of GridHelpers: the colour-to-symbol cache and its counter. */
  class SymbolCache {
    var cache: map<Color, string>
    var cacheCounter: int

    function State(): CacheState
      reads this
    {
      CacheState(cache, cacheCounter)
    }

    /** The class invariant: the cache is a code, as CacheOk describes. */
    ghost predicate Valid()
      reads this
    {
      CacheOk(State())
    }

    /** The static constructor, which calls ResetCache. */
    constructor ()
      ensures State() == Initial && Valid()
    {
      cache := Initial.symbols;
      cacheCounter := 0;
    }

    method ResetCache()
      modifies this
      ensures State() == Initial && Valid()
    {
      cache := map[Empty := "_", Argb(0) := "_"];
      cacheCounter := 0;
    }

    /** The symbol of one cell, taking the next letter for a new colour. */
    method Intern(cell: Color) returns (r: Result<string>)
      requires Valid()
      modifies this
      ensures Step(r, State()) == Lookup(old(State()), cell)
      ensures Valid()
    {
      LookupKeepsCacheOk(State(), cell);
      if cell !in cache {
        var k := cacheCounter;
        cacheCounter := cacheCounter + 1;
        if !(0 <= k < |ValidChars|) {
          return Err(IndexOutOfRange);  // validChars[_cacheCounter++]
        }
        cache := cache[cell := [ValidChars[k]]];
      }
      return Ok(cache[cell]);
    }

    /** The cells of row i, continuing the builder `sb`; on success the builder has
        each symbol and a comma appended. */
    method AppendRow(grid: array2<Color>, i: int, sb: string) returns (r: Result<string>)
      requires 0 <= i < grid.Length0
      requires Valid()
      modifies this
      ensures RowAppended(Symbols(old(State()), Row(grid, i)), sb, r, State())
      ensures Valid()
    {
      ghost var row := Row(grid, i);
      ghost var st0 := State();
      ghost var syms: seq<string> := [];
      var text := sb;
      for j := 0 to grid.Length1
        invariant Symbols(st0, row[..j]) == Step(Ok(syms), State())
        invariant text == Appended(sb, syms)
        invariant Valid()
      {
        assert row[j] == grid[i, j];
        ghost var before := State();
        var symbol := Intern(grid[i, j]);
        if symbol.Err? {
          SymbolsNextErr(st0, row, j, syms, before, symbol.fault, State());
          return Err(symbol.fault);
        }
        SymbolsNextOk(st0, row, j, syms, before, symbol.value, State());
        AppendedSnoc(sb, syms, symbol.value);
        text := text + symbol.value + ",";
        syms := syms + [symbol.value];
      }
      assert row[..grid.Length1] == row;
      return Ok(text);
    }

    /** ToReadableString: the grid's rows, each as its cells' symbols separated by
        commas and followed by a line break; the cache keeps every colour added, even
        when the call throws. */
    method ToReadableString(grid: array2<Color>) returns (r: Result<string>)
      requires Valid()
      modifies this
      ensures Step(r, State()) == Render(old(State()), Cells(grid))
      ensures Valid()
    {
      var rowCount := grid.Length0;
      ghost var g := Cells(grid);
      var sb: string := "";
      for i := 0 to rowCount
        invariant Render(old(State()), g[..i]) == Step(Ok(sb), State())
        invariant Valid()
      {
        RenderNext(old(State()), g, i, sb, State());
        var row := AppendRow(grid, i, sb);
        if row.Err? {
          RenderErrStays(old(State()), g, i + 1);
          return Err(row.fault);
        }
        sb := row.value;
        if |sb| == 0 {
          RenderErrStays(old(State()), g, i + 1);
          return Err(ArgumentOutOfRange);  // sb.Length -= 1
        }
        sb := sb[..|sb| - 1] + [NewLine];
      }
      assert g[..rowCount] == g;
      return Ok(sb);
    }
  }
}
