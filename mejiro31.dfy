/**
 * The Mejiro key diagram of the web drill (src/stroke/mejiro31.tsx): a
 * 4 x 13 template of which only the left half is in the 12-cell steno
 * order, the right hand starting at index 11, and no post-scan mirroring.
 */
module Mejiro31Stroke {
  import opened Wrappers
  import opened KeyScan

  /** `chars`: the Mejiro template. */
  const MejiroChars: seq<seq<string>> := [
    ["#", "S", "T", "Y", "I", "U", "", "U", "I", "Y", "T", "S", "*"],
    ["", "", "K", "N", "A", "U", "", "U", "A", "N", "K", "", ""],
    ["", "", "", "", "n", "", "", "n", "", "", "", "", ""],
    ["", "", "", "", "t", "k", "", "k", "t", "", "", "", ""]
  ]

  /** `stenoOrder`: twelve cells, all in columns 0 to 5. */
  const MejiroOrder: seq<Cell> := [
    (0, 0), (0, 1), (0, 2), (1, 2), (0, 3), (1, 3), (0, 4), (1, 4), (0, 5), (2, 4), (3, 4), (3, 5)
  ]

  const MejiroLayout := ScanLayout(MejiroChars, 13, MejiroOrder, 11)

  lemma MejiroWellFormed()
    ensures WellFormed(MejiroLayout)
    ensures |MejiroLayout.chars| == 4 && |MejiroLayout.stenoOrder| == 12
    ensures forall j :: 0 <= j < 12 ==> MejiroLayout.stenoOrder[j].1 <= 5
  {
  }

  /** The cells the scan of stroke text `s` presses on this diagram. */
  function MejiroScan(s: string): (pressed: set<Cell>)
    ensures WellFormed(MejiroLayout) && pressed == Scan(MejiroLayout, s, 0)
  {
    MejiroWellFormed();
    Scan(MejiroLayout, s, 0)
  }

  /** Only the left half of the diagram can be pressed by the scan. */
  lemma ScanStaysLeft(s: string, cell: Cell)
    requires cell in MejiroScan(s)
    ensures cell.0 < 4 && cell.1 <= 5
  {
    MejiroWellFormed();
    ScanPressesOnlyMatchingCells(MejiroLayout, s, 0, cell);
  }

  /**
   * `collectKeyPress` of src/stroke/mejiro31.tsx: exactly the scan's cells,
   * never a cell right of column 5; a missing or empty stroke presses nothing.
   */
  method CollectKeyPress(stroke: Option<string>) returns (ret: array2<bool>)
    ensures ret.Length0 == 4 && ret.Length1 == 13
    ensures forall r, c :: 0 <= r < 4 && 0 <= c < 13 ==> (ret[r, c] <==> (r, c) in MejiroScan(TextOf(stroke)))
    ensures forall r, c :: 0 <= r < 4 && 6 <= c < 13 ==> !ret[r, c]
    ensures TextOf(stroke) == "" ==> forall r, c :: 0 <= r < 4 && 0 <= c < 13 ==> !ret[r, c]
  {
    MejiroWellFormed();
    if stroke.None? || stroke.value == "" {
      ret := new bool[4, 13]((r, c) => false);
      return;
    }
    ret := ScanKeyPress(MejiroLayout, stroke.value);
    forall r, c | 0 <= r < 4 && 6 <= c < 13 ensures !ret[r, c] {
      if ret[r, c] {
        ScanStaysLeft(stroke.value, (r, c));
      }
    }
  }
}
