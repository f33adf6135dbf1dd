/** The line clues of the puzzle: for one row or column and each colour of a list,
    how many cells have that colour and whether they form one block. */
module Picross {
  import opened ColorModel
  import opened Lines

  /** One colour's clue within one line. */
  datatype ColorClassifier = ColorClassifier(MyColor: Color, Count: int, IsConnected: bool)

  /** The clue the classifier derives for `color` from `line`. The connectivity test
      is the source's `(lastIndex - firstIndex + 1) - count == 0`, evaluated with the
      -1 "not found" index, so an absent colour comes out as not connected. */
  function Classify(line: seq<Color>, color: Color): ColorClassifier
  {
    var count := CountOf(line, color);
    var firstIndex := First(line, color);
    var lastIndex := Last(line, color);
    ColorClassifier(color, count, (lastIndex - firstIndex + 1) - count == 0)
  }

  /** The count is the number of cells of that colour, so it lies in 0..|line|. */
  lemma ClassifyCount(line: seq<Color>, color: Color)
    ensures Classify(line, color).MyColor == color
    ensures Classify(line, color).Count == CountOf(line, color)
    ensures 0 <= Classify(line, color).Count <= |line|
  {
  }

  /** The connectivity flag holds exactly when the colour occurs and all its
      occurrences form one contiguous block. */
  lemma ClassifyConnected(line: seq<Color>, color: Color)
    ensures Classify(line, color).IsConnected <==> Contiguous(line, color)
    ensures Classify(line, color).IsConnected ==> Classify(line, color).Count >= 1
  {
    ContiguousSpan(line, color);
    if color in line {
      CountWithinSpan(line, color);
    }
  }

  /** A colour absent from the line gets count 0 and is classified not connected. */
  lemma ClassifyAbsent(line: seq<Color>, color: Color)
    requires color !in line
    ensures Classify(line, color) == ColorClassifier(color, 0, false)
  {
  }

  /** The clues of one row or column (`Index`) for every colour in use. */
  class Classifier {
    var Index: int
    var Colors: seq<ColorClassifier>

    /** Records `index`, copies `row` and classifies every colour of `usedColors`
        against the copy, in the order of `usedColors`. `row` is in no frame of this
        constructor, so it is left as it was. */
    constructor (index: int, usedColors: seq<Color>, row: array<Color>)
      ensures Index == index
      ensures |Colors| == |usedColors|
      ensures forall k :: 0 <= k < |usedColors| ==> Colors[k] == Classify(row[..], usedColors[k])
    {
      Index := index;
      Colors := [];
      new;
      var colorRow := new Color[row.Length];
      for i := 0 to row.Length
        invariant Index == index && Colors == []
        invariant forall k :: 0 <= k < i ==> colorRow[k] == row[k]
      {
        colorRow[i] := row[i];
      }
      assert colorRow[..] == row[..];
      for n := 0 to |usedColors|
        invariant colorRow[..] == row[..]
        invariant Index == index
        invariant |Colors| == n
        invariant forall k :: 0 <= k < n ==> Colors[k] == Classify(row[..], usedColors[k])
      {
        var color := usedColors[n];
        var count := CountOf(colorRow[..], color);
        var firstIndex := First(colorRow[..], color);
        var lastIndex := Last(colorRow[..], color);
        var isConnected := (lastIndex - firstIndex + 1) - count == 0;
        Colors := Colors + [ColorClassifier(color, count, isConnected)];
      }
    }
  }
}
