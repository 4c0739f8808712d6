/**
 * The scan shared by the web drill's key diagrams (`collectKeyPress` in
 * src/Stroke.tsx, src/stroke/uniV4.tsx and src/stroke/mejiro31.tsx): a
 * cursor walks a fixed steno order of template cells forward; each stroke
 * character presses the first cell at or after the cursor whose template
 * text is that character; `-` jumps the cursor to the right-hand start.
 */
module KeyScan {
  import opened Wrappers

  /** A template cell: (row, column). */
  type Cell = (nat, nat)

  /**
   * One diagram: the template texts `chars` (every row `width` cells wide,
   * `""` for a blank cell), the steno order and the right-hand start `rhs`.
   */
  datatype ScanLayout = ScanLayout(chars: seq<seq<string>>, width: nat, stenoOrder: seq<Cell>, rhs: nat)

  predicate WellFormed(L: ScanLayout) {
    && |L.chars| > 0
    && (forall r :: 0 <= r < |L.chars| ==> |L.chars[r]| == L.width)
    && (forall j :: 0 <= j < |L.stenoOrder| ==> L.stenoOrder[j].0 < |L.chars| && L.stenoOrder[j].1 < L.width)
    && L.rhs <= |L.stenoOrder|
  }

  /** Whether stroke character `c` equals the template text of the `j`-th cell in steno order. */
  predicate MatchesAt(L: ScanLayout, c: char, j: nat)
    requires WellFormed(L) && j < |L.stenoOrder|
  {
    [c] == L.chars[L.stenoOrder[j].0][L.stenoOrder[j].1]
  }

  /**
   * Where the inner `while` loop stops for character `c` from cursor `i`:
   * the first order index at or after `i` whose cell shows `c`, or the end
   * of the order when there is none.
   */
  function NextMatch(L: ScanLayout, c: char, i: nat): (j: nat)
    requires WellFormed(L) && i <= |L.stenoOrder|
    ensures i <= j <= |L.stenoOrder|
    ensures j < |L.stenoOrder| ==> MatchesAt(L, c, j)
    ensures forall k :: i <= k < j ==> !MatchesAt(L, c, k)
    decreases |L.stenoOrder| - i
  {
    if i == |L.stenoOrder| then i
    else if MatchesAt(L, c, i) then i
    else NextMatch(L, c, i + 1)
  }

  /** Cells that lie on the template grid. */
  predicate OnGrid(L: ScanLayout, cells: set<Cell>) {
    forall cell :: cell in cells ==> cell.0 < |L.chars| && cell.1 < L.width
  }

  /** The cells the scan of `s` presses with the cursor starting at `i`: cells of the template grid. */
  function Scan(L: ScanLayout, s: string, i: nat): (pressed: set<Cell>)
    requires WellFormed(L) && i <= |L.stenoOrder|
    ensures OnGrid(L, pressed)
    decreases |s|
  {
    if |s| == 0 || i >= |L.stenoOrder| then {}
    else if s[0] == '-' then Scan(L, s[1..], if i < L.rhs then L.rhs else i)
    else
      var j := NextMatch(L, s[0], i);
      if j < |L.stenoOrder| then {L.stenoOrder[j]} + Scan(L, s[1..], j + 1) else {}
  }

  /** `-` presses nothing and only moves the cursor to the right-hand start if it is behind it. */
  lemma DashOnlyMovesCursor(L: ScanLayout, s: string, i: nat)
    requires WellFormed(L) && i < |L.stenoOrder|
    ensures Scan(L, "-" + s, i) == Scan(L, s, if i < L.rhs then L.rhs else i)
  {
    assert ("-" + s)[1..] == s;
  }

  /** The first matching index at or after the cursor is where the inner loop stops. */
  lemma {:induction false} NextMatchIs(L: ScanLayout, c: char, i: nat, j: nat)
    requires WellFormed(L) && i <= j < |L.stenoOrder|
    requires MatchesAt(L, c, j)
    requires forall k :: i <= k < j ==> !MatchesAt(L, c, k)
    ensures NextMatch(L, c, i) == j
    decreases j - i
  {
    if i < j {
      NextMatchIs(L, c, i + 1, j);
    }
  }

  /** A character other than `-` presses the cell the inner loop stops at, and the scan goes on after it. */
  lemma ScanPressesNextMatch(L: ScanLayout, c: char, s: string, i: nat)
    requires WellFormed(L) && i < |L.stenoOrder| && c != '-'
    requires NextMatch(L, c, i) < |L.stenoOrder|
    ensures Scan(L, [c] + s, i) == {L.stenoOrder[NextMatch(L, c, i)]} + Scan(L, s, NextMatch(L, c, i) + 1)
  {
    assert ([c] + s)[1..] == s;
  }

  /** Once the cursor has reached the end of the steno order, the rest of the stroke is ignored. */
  lemma EndIgnoresRest(L: ScanLayout, s: string)
    requires WellFormed(L)
    ensures Scan(L, s, |L.stenoOrder|) == {}
  {
  }

  /**
   * A pressed cell lies in the steno order at or after the starting cursor,
   * and its template text is a character of the stroke (so a blank cell is
   * never pressed).
   */
  lemma {:induction false} ScanPressesOnlyMatchingCells(L: ScanLayout, s: string, i: nat, cell: Cell)
    requires WellFormed(L) && i <= |L.stenoOrder|
    requires cell in Scan(L, s, i)
    ensures exists j :: i <= j < |L.stenoOrder| && L.stenoOrder[j] == cell
    ensures exists k :: 0 <= k < |s| && [s[k]] == L.chars[cell.0][cell.1]
    decreases |s|
  {
    if s[0] == '-' {
      var i' := if i < L.rhs then L.rhs else i;
      ScanPressesOnlyMatchingCells(L, s[1..], i', cell);
      var k :| 0 <= k < |s[1..]| && [s[1..][k]] == L.chars[cell.0][cell.1];
      assert s[k + 1] == s[1..][k];
    } else {
      var j := NextMatch(L, s[0], i);
      if cell == L.stenoOrder[j] {
        assert MatchesAt(L, s[0], j);
        assert [s[0]] == L.chars[cell.0][cell.1];
      } else {
        ScanPressesOnlyMatchingCells(L, s[1..], j + 1, cell);
        var k :| 0 <= k < |s[1..]| && [s[1..][k]] == L.chars[cell.0][cell.1];
        assert s[k + 1] == s[1..][k];
      }
    }
  }

  /** Each stroke character presses at most one cell. */
  lemma {:induction false} ScanPressesAtMostOnePerChar(L: ScanLayout, s: string, i: nat)
    requires WellFormed(L) && i <= |L.stenoOrder|
    ensures |Scan(L, s, i)| <= |s|
    decreases |s|
  {
    if |s| > 0 && i < |L.stenoOrder| {
      if s[0] == '-' {
        ScanPressesAtMostOnePerChar(L, s[1..], if i < L.rhs then L.rhs else i);
      } else {
        var j := NextMatch(L, s[0], i);
        if j < |L.stenoOrder| {
          ScanPressesAtMostOnePerChar(L, s[1..], j + 1);
        }
      }
    }
  }

  /** The stroke text; `None` stands for `null` or `undefined`, which the diagrams treat as empty. */
  function TextOf(stroke: Option<string>): string {
    if stroke.Some? then stroke.value else ""
  }

  /** A cell is pressed after the scan exactly when it is in `pressed`. */
  ghost predicate Shows(ret: array2<bool>, pressed: set<Cell>)
    reads ret
  {
    forall r, c :: 0 <= r < ret.Length0 && 0 <= c < ret.Length1 ==> (ret[r, c] <==> (r, c) in pressed)
  }

  /**
   * The scan loop of `collectKeyPress`, filling a fresh all-false grid of the
   * template's shape: the cells it presses are exactly `Scan(L, stroke, 0)`.
   */
  method ScanKeyPress(L: ScanLayout, stroke: string) returns (ret: array2<bool>)
    requires WellFormed(L)
    ensures fresh(ret)
    ensures ret.Length0 == |L.chars| && ret.Length1 == L.width
    ensures Shows(ret, Scan(L, stroke, 0))
  {
    ret := new bool[|L.chars|, L.width]((r, c) => false);
    var iOrder := 0;
    ghost var pressed: set<Cell> := {};
    for k := 0 to |stroke|
      invariant 0 <= iOrder <= |L.stenoOrder|
      invariant pressed + Scan(L, stroke[k..], iOrder) == Scan(L, stroke, 0)
      invariant Shows(ret, pressed)
    {
      if iOrder >= |L.stenoOrder| {
        break;
      }
      var c := stroke[k];
      assert stroke[k..][1..] == stroke[k + 1..];
      if c == '-' {
        if iOrder < L.rhs {
          iOrder := L.rhs;
        }
        continue;
      }
      ghost var start := iOrder;
      while iOrder < |L.stenoOrder|
        invariant start <= iOrder <= |L.stenoOrder|
        invariant NextMatch(L, c, start) == NextMatch(L, c, iOrder)
        invariant Shows(ret, pressed)
        invariant pressed + Scan(L, stroke[k..], start) == Scan(L, stroke, 0)
      {
        var (row, col) := L.stenoOrder[iOrder];
        iOrder := iOrder + 1;
        if [c] == L.chars[row][col] {
          ret[row, col] := true;
          pressed := pressed + {(row, col)};
          break;
        }
      }
    }
  }
}
