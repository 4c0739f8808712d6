/**
 * The Uni V4 key diagram of the Lapwing web drill (src/stroke/uniV4.tsx):
 * a 3 x 12 template, a 25-cell steno order `#STKPWHR#AO*EU#FRPBLGTSDZ` with
 * the right hand starting at index 12, and after the scan the two asterisk
 * cells and the three number-bar cells mirrored onto each other.
 */
module UniV4Stroke {
  import opened Wrappers
  import opened KeyScan

  /** `chars`: the Uni V4 template. */
  const UniV4Chars: seq<seq<string>> := [
    ["#", "T", "P", "H", "*", "", "*", "F", "P", "L", "T", "D"],
    ["S", "K", "W", "R", "", "", "", "R", "B", "G", "S", "Z"],
    ["", "", "#", "A", "O", "", "E", "U", "#", "", "", ""]
  ]

  /** `stenoOrder`: only the left asterisk cell (0, 4) is in it. */
  const UniV4Order: seq<Cell> := [
    (0, 0), (1, 0), (0, 1), (1, 1), (0, 2), (1, 2), (0, 3), (1, 3),
    (2, 2), (2, 3), (2, 4), (0, 4), (2, 6), (2, 7), (2, 8),
    (0, 7), (1, 7), (0, 8), (1, 8), (0, 9), (1, 9), (0, 10), (1, 10), (0, 11), (1, 11)
  ]

  const UniV4Layout := ScanLayout(UniV4Chars, 12, UniV4Order, 12)

  lemma UniV4WellFormed()
    ensures WellFormed(UniV4Layout)
    ensures |UniV4Layout.chars| == 3 && |UniV4Layout.stenoOrder| == 25
  {
  }

  /** The cells the scan of stroke text `s` presses on this diagram. */
  function UniV4Scan(s: string): (pressed: set<Cell>)
    ensures WellFormed(UniV4Layout) && pressed == Scan(UniV4Layout, s, 0)
  {
    UniV4WellFormed();
    Scan(UniV4Layout, s, 0)
  }

  /** The cell an asterisk or number key shows on after mirroring. */
  function Mirrored(pressed: set<Cell>, cell: Cell): bool
  {
    if cell == (0, 4) || cell == (0, 6) then (0, 4) in pressed || (0, 6) in pressed
    else if cell == (0, 0) || cell == (2, 2) || cell == (2, 8) then (0, 0) in pressed || (2, 2) in pressed || (2, 8) in pressed
    else cell in pressed
  }

  /**
   * The post-scan `|=` updates of `ret` for `*` and `#` (JavaScript's 0/1
   * results read as booleans), on a grid that shows the cells `pressed`.
   */
  method MirrorStarAndNumber(ret: array2<bool>, ghost pressed: set<Cell>)
    requires ret.Length0 == 3 && ret.Length1 == 12
    requires Shows(ret, pressed)
    modifies ret
    ensures forall r, c :: 0 <= r < 3 && 0 <= c < 12 ==> ret[r, c] == Mirrored(pressed, (r, c))
  {
    ret[0, 6] := ret[0, 6] || ret[0, 4];
    ret[0, 4] := ret[0, 4] || ret[0, 6];
    ret[0, 0] := ret[0, 0] || (ret[2, 2] || ret[2, 8]);
    ret[2, 2] := ret[0, 0];
    ret[2, 8] := ret[0, 0];
  }

  /**
   * `collectKeyPress(chars, stroke)`: the scan's cells with the asterisks
   * and the number bar mirrored, so both asterisk cells agree and all three
   * number-bar cells agree; a missing or empty stroke presses nothing.
   */
  method CollectKeyPress(stroke: Option<string>) returns (ret: array2<bool>)
    ensures ret.Length0 == 3 && ret.Length1 == 12
    ensures forall r, c :: 0 <= r < 3 && 0 <= c < 12 ==> ret[r, c] == Mirrored(UniV4Scan(TextOf(stroke)), (r, c))
    ensures ret[0, 4] == ret[0, 6]
    ensures ret[0, 0] == ret[2, 2] == ret[2, 8]
    ensures TextOf(stroke) == "" ==> forall r, c :: 0 <= r < 3 && 0 <= c < 12 ==> !ret[r, c]
  {
    UniV4WellFormed();
    if stroke.None? || stroke.value == "" {
      ret := new bool[3, 12]((r, c) => false);
      return;
    }
    ret := ScanKeyPress(UniV4Layout, stroke.value);
    MirrorStarAndNumber(ret, Scan(UniV4Layout, stroke.value, 0));
  }

  /** The scan alone never presses the right asterisk cell: it is not in the steno order. */
  lemma ScanNeverPressesRightStar(s: string)
    ensures (0, 6) !in UniV4Scan(s)
  {
    UniV4WellFormed();
    RightStarOutOfOrder();
    if (0, 6) in Scan(UniV4Layout, s, 0) {
      ScanPressesOnlyMatchingCells(UniV4Layout, s, 0, (0, 6));
      assert false;
    }
  }

  lemma RightStarOutOfOrder()
    ensures forall j :: 0 <= j < |UniV4Order| ==> UniV4Order[j] != (0, 6)
  {
  }

  /** A leading `-` sends `T` to the right-hand `T`, not the left-hand one. */
  lemma DashSelectsRightHand()
    ensures UniV4Scan("-T") == {(0, 10)}
    ensures UniV4Scan("T") == {(0, 1)}
  {
    var L := UniV4Layout;
    UniV4WellFormed();
    DashOnlyMovesCursor(L, "T", 0);
    RightT();
    ScanPressesNextMatch(L, 'T', "", 12);
    LeftT();
    ScanPressesNextMatch(L, 'T', "", 0);
  }

  /** From the right-hand start, the first `T` is the right-hand `T` (order index 21, cell (0, 10)). */
  lemma RightT()
    ensures WellFormed(UniV4Layout) && NextMatch(UniV4Layout, 'T', 12) == 21
    ensures UniV4Order[21] == (0, 10)
  {
    UniV4WellFormed();
    var L := UniV4Layout;
    assert forall k :: 12 <= k < 21 ==> !MatchesAt(L, 'T', k);
    NextMatchIs(L, 'T', 12, 21);
  }

  /** From the start, the first `T` is the left-hand `T` (order index 2, cell (0, 1)). */
  lemma LeftT()
    ensures WellFormed(UniV4Layout) && NextMatch(UniV4Layout, 'T', 0) == 2
    ensures UniV4Order[2] == (0, 1)
  {
    UniV4WellFormed();
    var L := UniV4Layout;
    assert forall k :: 0 <= k < 2 ==> !MatchesAt(L, 'T', k);
    NextMatchIs(L, 'T', 0, 2);
  }
}
