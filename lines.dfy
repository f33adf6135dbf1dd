/** Searching and counting a colour in one line (a row or a column) of the grid.
    These are the meanings of Array.IndexOf, Array.LastIndexOf and the LINQ
    `Count(c => c == color)` used by the classifier and the checker. */
module Lines {
  import opened ColorModel

  /** Index of the first cell equal to `c`, or -1 when there is none. */
  function First(s: seq<Color>, c: Color): (r: int)
    ensures -1 <= r < |s|
    ensures r == -1 <==> c !in s
    ensures r >= 0 ==> s[r] == c && forall i :: 0 <= i < r ==> s[i] != c
  {
    if s == [] then -1
    else if s[0] == c then 0
    else
      var k := First(s[1..], c);
      assert forall i :: 1 <= i < |s| ==> s[i] == s[1..][i - 1];
      if k == -1 then -1 else k + 1
  }

  /** Index of the last cell equal to `c`, or -1 when there is none. */
  function Last(s: seq<Color>, c: Color): (r: int)
    ensures -1 <= r < |s|
    ensures r == -1 <==> c !in s
    ensures r >= 0 ==> s[r] == c && forall i :: r < i < |s| ==> s[i] != c
  {
    if s == [] then -1
    else if s[|s| - 1] == c then |s| - 1
    else
      assert forall i :: 0 <= i < |s| - 1 ==> s[i] == s[..|s| - 1][i];
      Last(s[..|s| - 1], c)
  }

  /** Number of cells equal to `c`. */
  function CountOf(s: seq<Color>, c: Color): (n: nat)
    ensures n <= |s|
    ensures n == 0 <==> c !in s
  {
    if s == [] then 0
    else
      assert forall i :: 0 <= i < |s| - 1 ==> s[i] == s[..|s| - 1][i];
      CountOf(s[..|s| - 1], c) + (if s[|s| - 1] == c then 1 else 0)
  }

  /** The occurrences of `c` form one non-empty contiguous block: every cell lying
      between two occurrences is an occurrence too. */
  ghost predicate Contiguous(s: seq<Color>, c: Color)
  {
    && c in s
    && forall i, j, k :: 0 <= i <= k <= j < |s| && s[i] == c && s[j] == c ==> s[k] == c
  }

  /** The first occurrence never comes after the last one. */
  lemma FirstBeforeLast(s: seq<Color>, c: Color)
    ensures First(s, c) <= Last(s, c)
    ensures First(s, c) == -1 <==> Last(s, c) == -1
  {
  }

  lemma {:induction false} CountSplit(s: seq<Color>, a: nat, c: Color)
    requires a <= |s|
    ensures CountOf(s, c) == CountOf(s[..a], c) + CountOf(s[a..], c)
  {
    if a < |s| {
      var t := s[..|s| - 1];
      CountSplit(t, a, c);
      assert t[..a] == s[..a];
      assert s[a..][..|s[a..]| - 1] == t[a..];
    } else {
      assert s[..a] == s;
    }
  }

  /** Every cell is `c` exactly when the count reaches the length. */
  lemma {:induction false} CountFull(s: seq<Color>, c: Color)
    ensures CountOf(s, c) == |s| <==> forall k :: 0 <= k < |s| ==> s[k] == c
  {
    if s != [] {
      var t := s[..|s| - 1];
      CountFull(t, c);
      assert forall k :: 0 <= k < |t| ==> t[k] == s[k];
    }
  }

  /** Cutting off a prefix and a suffix free of `c` keeps the count. */
  lemma CountSlice(s: seq<Color>, a: nat, b: nat, c: Color)
    requires a <= b <= |s|
    requires forall k :: 0 <= k < a ==> s[k] != c
    requires forall k :: b <= k < |s| ==> s[k] != c
    ensures CountOf(s, c) == CountOf(s[a..b], c)
  {
    var pre, rest, mid, suf := s[..a], s[a..], s[a..b], s[b..];
    CountSplit(s, a, c);
    CountSplit(rest, b - a, c);
    assert rest[..b - a] == mid;
    assert rest[b - a..] == suf;
    assert c !in pre by {
      assert forall k :: 0 <= k < |pre| ==> pre[k] == s[k];
    }
    assert c !in suf by {
      assert forall k :: 0 <= k < |suf| ==> suf[k] == s[b + k];
    }
    assert CountOf(pre, c) == 0 && CountOf(suf, c) == 0;
  }

  /** The count over a span bounded by occurrence-free ends. */
  lemma CountInSpan(s: seq<Color>, c: Color, f: nat, l: nat)
    requires f <= l < |s|
    requires forall k :: 0 <= k < f ==> s[k] != c
    requires forall k :: l < k < |s| ==> s[k] != c
    ensures CountOf(s, c) <= l - f + 1
    ensures CountOf(s, c) == l - f + 1 <==> forall k :: f <= k <= l ==> s[k] == c
  {
    CountSlice(s, f, l + 1, c);
    var mid := s[f..l + 1];
    CountFull(mid, c);
    if forall k :: f <= k <= l ==> s[k] == c {
      forall k | 0 <= k < |mid| ensures mid[k] == c {
        assert mid[k] == s[f + k];
      }
    } else {
      var k :| f <= k <= l && s[k] != c;
      assert mid[k - f] != c;
    }
  }

  /** The occurrences lie between the first and the last one, so the count is at
      most the span, and it equals the span exactly when that span is all `c`. */
  lemma CountWithinSpan(s: seq<Color>, c: Color)
    requires c in s
    ensures CountOf(s, c) <= Last(s, c) - First(s, c) + 1
    ensures CountOf(s, c) == Last(s, c) - First(s, c) + 1
            <==> forall k :: First(s, c) <= k <= Last(s, c) ==> s[k] == c
  {
    FirstBeforeLast(s, c);
    CountInSpan(s, c, First(s, c), Last(s, c));
  }

  /** Two different occurrences mean the count is at least two. */
  lemma CountTwoWhenSpread(s: seq<Color>, c: Color)
    requires c in s && First(s, c) < Last(s, c)
    ensures CountOf(s, c) >= 2
  {
    var f, l := First(s, c), Last(s, c);
    CountSplit(s, l, c);
    assert s[..l][f] == c;
    assert s[l..][0] == c;
  }

  /** Contiguity is the same as "the span from the first to the last occurrence is
      all `c`". */
  lemma ContiguousSpan(s: seq<Color>, c: Color)
    ensures Contiguous(s, c)
            <==> c in s && forall k :: First(s, c) <= k <= Last(s, c) ==> s[k] == c
  {
    if c in s {
      var f, l := First(s, c), Last(s, c);
      if forall k :: f <= k <= l ==> s[k] == c {
        forall i, j, k | 0 <= i <= k <= j < |s| && s[i] == c && s[j] == c
          ensures s[k] == c
        {
          assert f <= i && j <= l;
        }
      }
    }
  }
}
