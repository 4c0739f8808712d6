/**
 * Choosing an outline for a word and drawing it (main.py): the first outline
 * of the dictionary's reverse lookup, each stroke drawn on the Lapwing
 * template, the strokes' rows set side by side, and the result placed in the
 * five-row hint area.
 */
module Outlines {
  import opened Wrappers
  import opened StenoTypes
  import opened Text
  import opened BankLayout

  /** `select_outline`: the first outline of the reverse lookup, none when it is empty. */
  function SelectOutline(reverseLookup: Translation -> seq<Outline>, target: Translation): (r: Option<Outline>)
    ensures r.None? <==> |reverseLookup(target)| == 0
    ensures r.Some? ==> r.value in reverseLookup(target) && r.value == reverseLookup(target)[0]
  {
    var outlines := reverseLookup(target);
    if |outlines| == 0 then None else Some(outlines[0])
  }

  /**
   * When every outline the reverse lookup yields translates back to the
   * target, so does the selected one.
   */
  lemma SelectedOutlineTranslatesBack(
    reverseLookup: Translation -> seq<Outline>, lookup: Outline -> Option<Translation>, target: Translation)
    requires forall o :: o in reverseLookup(target) ==> lookup(o) == Some(target)
    ensures match SelectOutline(reverseLookup, target)
      case Some(o) => lookup(o) == Some(target)
      case None => reverseLookup(target) == []
  {
  }

  /**
   * `show_colored_stroke`: the stroke's keys (as Plover parses them) drawn
   * on Lapwing, three rows that show the template's rows.
   */
  function StrokeDiagram(keysOf: StrokeText -> seq<Key>, s: StrokeText): (rows: seq<Row>)
    ensures |rows| == 3
    ensures forall r :: 0 <= r < 3 ==> Shown(rows[r]) == LapwingRows[r]
  {
    LapwingShape();
    AllRowsShowTemplate(Lapwing, GroupKeys(keysOf(s)));
    ShowColoredStroke(Lapwing, GroupKeys(keysOf(s)))
  }

  /** The length of the shortest block: where `zip` stops. */
  function MinRows(blocks: seq<seq<Row>>): (n: nat)
    requires |blocks| > 0
    ensures forall b :: 0 <= b < |blocks| ==> n <= |blocks[b]|
    ensures exists b :: 0 <= b < |blocks| && n == |blocks[b]|
  {
    if |blocks| == 1 then |blocks[0]|
    else
      var m := MinRows(blocks[1..]);
      assert forall b :: 1 <= b < |blocks| ==> blocks[1..][b - 1] == blocks[b];
      if |blocks[0]| <= m then |blocks[0]| else m
  }

  /** Blocks of equal height zip to that height. */
  lemma MinRowsOfEqual(blocks: seq<seq<Row>>, n: nat)
    requires |blocks| > 0 && forall b :: 0 <= b < |blocks| ==> |blocks[b]| == n
    ensures MinRows(blocks) == n
  {
  }

  /** Row `i` of every block. */
  function Column(blocks: seq<seq<Row>>, i: nat): (col: seq<Row>)
    requires forall b :: 0 <= b < |blocks| ==> i < |blocks[b]|
    ensures |col| == |blocks| && forall b :: 0 <= b < |blocks| ==> col[b] == blocks[b][i]
  {
    seq(|blocks|, b requires 0 <= b < |blocks| => blocks[b][i])
  }

  /** `[sep.join(rows) for rows in zip(*blocks)]`. */
  function ZipJoin(blocks: seq<seq<Row>>, sep: Row): (rows: seq<Row>)
    ensures |blocks| == 0 ==> rows == []
    ensures |blocks| > 0 ==> |rows| == MinRows(blocks)
    ensures forall i :: 0 <= i < |rows| ==> |blocks| > 0 && i < MinRows(blocks) && rows[i] == Join(sep, Column(blocks, i))
  {
    if |blocks| == 0 then []
    else seq(MinRows(blocks), i requires 0 <= i < MinRows(blocks) => Join(sep, Column(blocks, i)))
  }

  /** The four spaces between strokes. */
  const StrokeGap: Row := [Plain(' '), Plain(' '), Plain(' '), Plain(' ')]

  /** `show_colored_outline`: as many rows as the template has, or none for an outline without strokes. */
  function ShowColoredOutline(keysOf: StrokeText -> seq<Key>, outline: Outline): (rows: seq<Row>)
    ensures |rows| == if |outline| == 0 then 0 else 3
  {
    var blocks := seq(|outline|, k requires 0 <= k < |outline| => StrokeDiagram(keysOf, outline[k]));
    if |outline| == 0 then ZipJoin(blocks, StrokeGap)
    else MinRowsOfEqual(blocks, 3); ZipJoin(blocks, StrokeGap)
  }

  /** A one-stroke outline draws as that stroke's diagram. */
  lemma SingleStrokeOutline(keysOf: StrokeText -> seq<Key>, s: StrokeText)
    ensures ShowColoredOutline(keysOf, [s]) == StrokeDiagram(keysOf, s)
  {
    var rows := ShowColoredOutline(keysOf, [s]);
    var d := StrokeDiagram(keysOf, s);
    var blocks := seq(1, k requires 0 <= k < 1 => StrokeDiagram(keysOf, [s][k]));
    assert blocks == [d];
    assert |rows| == |d|;
    forall i | 0 <= i < |rows| ensures rows[i] == d[i] {
      assert Column(blocks, i) == [d[i]];
    }
  }

  lemma {:induction false} ShownJoin(sep: Row, parts: seq<Row>)
    ensures Shown(Join(sep, parts)) == Join(Shown(sep), seq(|parts|, k requires 0 <= k < |parts| => Shown(parts[k])))
    decreases |parts|
  {
    var shown := seq(|parts|, k requires 0 <= k < |parts| => Shown(parts[k]));
    if |parts| > 1 {
      ShownJoin(sep, parts[1..]);
      assert shown[1..] == seq(|parts| - 1, k requires 0 <= k < |parts| - 1 => Shown(parts[1..][k]));
      ShownAppend(parts[0] + sep, Join(sep, parts[1..]));
      ShownAppend(parts[0], sep);
    }
  }

  /**
   * Colour markers aside, row `r` of an outline shows template row `r` once
   * per stroke, four spaces apart.
   */
  lemma OutlineRowShowsTemplates(keysOf: StrokeText -> seq<Key>, outline: Outline, r: nat)
    requires |outline| > 0 && r < 3
    ensures r < |ShowColoredOutline(keysOf, outline)|
    ensures Shown(ShowColoredOutline(keysOf, outline)[r]) ==
      Join("    ", seq(|outline|, k requires 0 <= k < |outline| => LapwingRows[r]))
  {
    var blocks := seq(|outline|, k requires 0 <= k < |outline| => StrokeDiagram(keysOf, outline[k]));
    var col := Column(blocks, r);
    ShownJoin(StrokeGap, col);
    forall k | 0 <= k < |outline| ensures Shown(col[k]) == LapwingRows[r] {
      RowsShowTemplate(Lapwing, GroupKeys(keysOf(outline[k])), r);
    }
    assert Shown(StrokeGap) == "    ";
    assert seq(|col|, k requires 0 <= k < |col| => Shown(col[k])) ==
      seq(|outline|, k requires 0 <= k < |outline| => LapwingRows[r]);
  }

  /** The two spaces a hint row is shifted by. */
  const HintIndent: Row := [Plain(' '), Plain(' ')]

  /** The hint area's five rows: the outline's rows shifted right, the rest empty. */
  predicate IsHint(rows: seq<Row>, outlineRows: seq<Row>) {
    |rows| == 5 &&
    forall i :: 0 <= i < 5 ==> rows[i] == if i < |outlineRows| then HintIndent + outlineRows[i] else []
  }

  /** The hint loop of `on_input_changed`. */
  method FillHintRows(outlineRows: seq<Row>) returns (rows: seq<Row>)
    requires |outlineRows| <= 5
    ensures IsHint(rows, outlineRows)
  {
    rows := seq(5, _ => []);
    for i := 0 to |outlineRows|
      invariant |rows| == 5
      invariant forall j :: 0 <= j < 5 ==> rows[j] == if j < i then HintIndent + outlineRows[j] else []
    {
      rows := rows[i := HintIndent + outlineRows[i]];
    }
  }

  /**
   * The hint for a drawn outline: three shifted template rows and two empty
   * rows, or five empty rows for an outline without strokes.
   */
  lemma HintOfOutline(rows: seq<Row>, keysOf: StrokeText -> seq<Key>, outline: Outline)
    requires IsHint(rows, ShowColoredOutline(keysOf, outline))
    ensures |outline| == 0 ==> forall i :: 0 <= i < 5 ==> rows[i] == []
    ensures |outline| > 0 ==> rows[3] == [] && rows[4] == []
    ensures |outline| > 0 ==> forall i :: 0 <= i < 3 ==> Shown(rows[i]) == "  " + Join("    ", seq(|outline|, k requires 0 <= k < |outline| => LapwingRows[i]))
  {
    if |outline| > 0 {
      forall i | 0 <= i < 3
        ensures Shown(rows[i]) == "  " + Join("    ", seq(|outline|, k requires 0 <= k < |outline| => LapwingRows[i]))
      {
        OutlineRowShowsTemplates(keysOf, outline, i);
        ShownAppend(HintIndent, ShowColoredOutline(keysOf, outline)[i]);
        assert Shown(HintIndent) == "  ";
      }
    }
  }
}
