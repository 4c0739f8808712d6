/**
 * The earlier Uni V4 key diagram (src/Stroke.tsx): the same template as
 * src/stroke/uniV4.tsx, but a 26-cell steno order in which both asterisk
 * cells appear (indices 8 and 15), and the same post-scan mirroring.
 */
module UniStroke {
  import opened Wrappers
  import opened KeyScan
  import opened UniV4Stroke

  /** `stenoOrder` of src/Stroke.tsx: `*` at index 8 (left) and 15 (right). */
  const StrokeOrder: seq<Cell> := [
    (0, 0), (1, 0), (0, 1), (1, 1), (0, 2), (1, 2), (0, 3), (1, 3),
    (0, 4),
    (2, 2), (2, 3), (2, 4), (2, 6), (2, 7), (2, 8),
    (0, 6), (0, 7), (1, 7), (0, 8), (1, 8), (0, 9), (1, 9), (0, 10), (1, 10), (0, 11), (1, 11)
  ]

  const StrokeLayout := ScanLayout(UniV4Chars, 12, StrokeOrder, 12)

  lemma StrokeWellFormed()
    ensures WellFormed(StrokeLayout)
    ensures |StrokeLayout.stenoOrder| == 26
    ensures StrokeLayout.stenoOrder[8] == (0, 4) && StrokeLayout.stenoOrder[15] == (0, 6)
  {
  }

  /** The cells the scan of stroke text `s` presses on this diagram. */
  function StrokeScan(s: string): (pressed: set<Cell>)
    ensures WellFormed(StrokeLayout) && pressed == Scan(StrokeLayout, s, 0)
  {
    StrokeWellFormed();
    Scan(StrokeLayout, s, 0)
  }

  /**
   * `collectKeyPress` of src/Stroke.tsx: the scan's cells, mirrored so that
   * both asterisk cells agree and all three number-bar cells agree; a
   * missing or empty stroke presses nothing.
   */
  method CollectKeyPress(stroke: Option<string>) returns (ret: array2<bool>)
    ensures ret.Length0 == 3 && ret.Length1 == 12
    ensures forall r, c :: 0 <= r < 3 && 0 <= c < 12 ==> ret[r, c] == Mirrored(StrokeScan(TextOf(stroke)), (r, c))
    ensures ret[0, 4] == ret[0, 6]
    ensures ret[0, 0] == ret[2, 2] == ret[2, 8]
    ensures TextOf(stroke) == "" ==> forall r, c :: 0 <= r < 3 && 0 <= c < 12 ==> !ret[r, c]
  {
    StrokeWellFormed();
    if stroke.None? || stroke.value == "" {
      ret := new bool[3, 12]((r, c) => false);
      return;
    }
    ret := ScanKeyPress(StrokeLayout, stroke.value);
    MirrorStarAndNumber(ret, Scan(StrokeLayout, stroke.value, 0));
  }

  /** Here a second `*`, or a `*` after `-`, reaches the right asterisk cell during the scan itself. */
  lemma SecondStarPressesRightCell()
    ensures StrokeScan("**") == {(0, 4), (0, 6)}
    ensures StrokeScan("-*") == {(0, 6)}
  {
    StarStarScan();
    DashStarScan();
  }

  lemma StarStarScan()
    ensures StrokeScan("**") == {(0, 4), (0, 6)}
  {
    var L := StrokeLayout;
    StrokeWellFormed();
    LeftStar();
    RightStar(9);
    assert "**" == ['*'] + "*" && "*" == ['*'] + "";
    ScanPressesNextMatch(L, '*', "*", 0);
    ScanPressesNextMatch(L, '*', "", 9);
    assert Scan(L, "", 16) == {};
  }

  lemma DashStarScan()
    ensures StrokeScan("-*") == {(0, 6)}
  {
    var L := StrokeLayout;
    StrokeWellFormed();
    RightStar(12);
    assert "-*" == "-" + "*" && "*" == ['*'] + "";
    DashOnlyMovesCursor(L, "*", 0);
    ScanPressesNextMatch(L, '*', "", 12);
    assert Scan(L, "", 16) == {};
  }

  /** From the start, the first `*` is the left asterisk cell (order index 8). */
  lemma LeftStar()
    ensures WellFormed(StrokeLayout) && NextMatch(StrokeLayout, '*', 0) == 8
    ensures StrokeOrder[8] == (0, 4)
  {
    StrokeWellFormed();
    var L := StrokeLayout;
    assert forall k :: 0 <= k < 8 ==> !MatchesAt(L, '*', k);
    NextMatchIs(L, '*', 0, 8);
  }

  /** After the left asterisk, the next `*` is the right asterisk cell (order index 15). */
  lemma RightStar(i: nat)
    requires 9 <= i <= 15
    ensures WellFormed(StrokeLayout) && NextMatch(StrokeLayout, '*', i) == 15
    ensures StrokeOrder[15] == (0, 6)
  {
    StrokeWellFormed();
    var L := StrokeLayout;
    assert forall k :: i <= k < 15 ==> !MatchesAt(L, '*', k);
    NextMatchIs(L, '*', i, 15);
  }
}
