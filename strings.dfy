/** The two string operations the textual grid format is built from. */
module Strings {

  /** The line break between rows of grid text (Environment.NewLine, fixed as one character). */
  const NewLine: char := '\n'

  /** Length of the leading run of `s` that contains no `sep`. */
  function RunLength(s: string, sep: char): (n: nat)
    ensures n <= |s|
    ensures forall k :: 0 <= k < n ==> s[k] != sep
    ensures n < |s| ==> s[n] == sep
  {
    if s == [] || s[0] == sep then 0 else 1 + RunLength(s[1..], sep)
  }

  /** `s.Split(new[] { sep }, StringSplitOptions.RemoveEmptyEntries)`: the maximal
      runs of `s` free of `sep`, left to right, without empty pieces. */
  function Split(s: string, sep: char): (pieces: seq<string>)
    ensures forall k :: 0 <= k < |pieces| ==> pieces[k] != [] && sep !in pieces[k]
    decreases |s|
  {
    if s == [] then []
    else if s[0] == sep then Split(s[1..], sep)
    else
      var n := RunLength(s, sep);
      [s[..n]] + Split(s[n..], sep)
  }

  /** The pieces with `sep` between neighbours (String.Join). */
  function Join(pieces: seq<string>, sep: char): string
  {
    if pieces == [] then ""
    else if |pieces| == 1 then pieces[0]
    else pieces[0] + [sep] + Join(pieces[1..], sep)
  }

  /** Appending one more piece to a join. */
  lemma {:induction false} JoinSnoc(pieces: seq<string>, x: string, sep: char)
    requires pieces != []
    ensures Join(pieces + [x], sep) == Join(pieces, sep) + [sep] + x
  {
    if |pieces| > 1 {
      assert (pieces + [x])[1..] == pieces[1..] + [x];
      JoinSnoc(pieces[1..], x, sep);
    }
  }

  predicate Separable(pieces: seq<string>, sep: char)
  {
    forall k :: 0 <= k < |pieces| ==> pieces[k] != [] && sep !in pieces[k]
  }

  /** Splitting undoes joining, when the pieces are non-empty and free of the
      separator. */
  lemma {:induction false} SplitJoin(pieces: seq<string>, sep: char)
    requires Separable(pieces, sep)
    ensures Split(Join(pieces, sep), sep) == pieces
  {
    if pieces != [] {
      var p := pieces[0];
      var s := Join(pieces, sep);
      assert s[..|p|] == p;
      RunLengthOf(s, p, sep);
      if |pieces| == 1 {
        assert s[|p|..] == [];
      } else {
        var rest := Join(pieces[1..], sep);
        assert s[|p|..] == [sep] + rest;
        assert s[|p|..][1..] == rest;
        SplitJoin(pieces[1..], sep);
      }
    }
  }

  lemma {:induction false} RunLengthOf(s: string, p: string, sep: char)
    requires |p| <= |s| && s[..|p|] == p && sep !in p
    requires |p| < |s| ==> s[|p|] == sep
    ensures RunLength(s, sep) == |p|
  {
    if p != [] {
      assert s[1..][..|p| - 1] == p[1..];
      RunLengthOf(s[1..], p[1..], sep);
    }
  }

  /** A trailing separator adds no piece. */
  lemma {:induction false} SplitTrailing(s: string, sep: char)
    ensures Split(s + [sep], sep) == Split(s, sep)
    decreases |s|
  {
    if s == [] {
      assert ([] + [sep])[1..] == [];
    } else if s[0] == sep {
      assert (s + [sep])[1..] == s[1..] + [sep];
      SplitTrailing(s[1..], sep);
    } else {
      var n := RunLength(s, sep);
      RunLengthOf(s + [sep], s[..n], sep);
      assert (s + [sep])[..n] == s[..n];
      assert (s + [sep])[n..] == s[n..] + [sep];
      SplitTrailing(s[n..], sep);
    }
  }
}
