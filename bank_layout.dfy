/**
 * The terminal drill's stroke diagram (drill/types/layout.py): a stroke's
 * keys are sorted into left, centre and right groups by their notation, and
 * each character of a fixed template is highlighted when the group of its
 * column's bank holds it. Colour codes are modelled as markers: a reset
 * marker at the start of each row, and each character plain or marked.
 */
module BankLayout {
  import opened Wrappers
  import opened StenoTypes
  import opened Text

  datatype Bank = Left | Center | Right

  /** A key ending in `-` is left-bank, else one starting with `-` is right-bank, else centre. */
  function BankOf(key: Key): Bank {
    if key[|key| - 1] == '-' then Left else if key[0] == '-' then Right else Center
  }

  /** The key without its bank marker. */
  function KeyName(key: Key): string {
    match BankOf(key)
    case Left => key[..|key| - 1]
    case Right => key[1..]
    case Center => key
  }

  /** The `[l, c, r]` lists of `collect_stroke_keys`. */
  datatype StrokeKeys = StrokeKeys(left: seq<string>, center: seq<string>, right: seq<string>) {
    function Group(b: Bank): seq<string> {
      match b
      case Left => left
      case Center => center
      case Right => right
    }
  }

  /** The groups the keys fill when appended one by one in order: each key lands in exactly one group. */
  function GroupKeys(keys: seq<Key>): (sk: StrokeKeys)
    ensures |sk.left| + |sk.center| + |sk.right| == |keys|
    decreases |keys|
  {
    if |keys| == 0 then StrokeKeys([], [], [])
    else
      var sk := GroupKeys(keys[..|keys| - 1]);
      var key := keys[|keys| - 1];
      match BankOf(key)
      case Left => sk.(left := sk.left + [KeyName(key)])
      case Center => sk.(center := sk.center + [KeyName(key)])
      case Right => sk.(right := sk.right + [KeyName(key)])
  }

  /** A name is in a bank's group exactly when some key of that bank has that name. */
  lemma {:induction false} GroupMembership(keys: seq<Key>, b: Bank, name: string)
    ensures name in GroupKeys(keys).Group(b) <==> exists k :: 0 <= k < |keys| && BankOf(keys[k]) == b && KeyName(keys[k]) == name
    decreases |keys|
  {
    if |keys| > 0 {
      var init := keys[..|keys| - 1];
      GroupMembership(init, b, name);
      forall k | 0 <= k < |init| ensures init[k] == keys[k] { }
    }
  }

  /**
   * `collect_stroke_keys` with list accumulators (the evident intent: the
   * source starts them as `str`, see `CollectStrokeKeysAsWritten`).
   */
  method CollectStrokeKeys(keys: seq<Key>) returns (sk: StrokeKeys)
    ensures sk == GroupKeys(keys)
  {
    var l, c, r := [], [], [];
    for i := 0 to |keys|
      invariant StrokeKeys(l, c, r) == GroupKeys(keys[..i])
    {
      var key := keys[i];
      assert keys[..i + 1][..i] == keys[..i];
      if key[|key| - 1] == '-' {
        l := l + [key[..|key| - 1]];
      } else if key[0] == '-' {
        r := r + [key[1..]];
      } else {
        c := c + [key];
      }
    }
    assert keys[..|keys|] == keys;
    sk := StrokeKeys(l, c, r);
  }

  /**
   * `collect_stroke_keys` as written: the accumulators are `str`, which has
   * no `append`, so the first key raises; only a key-less stroke returns,
   * with three empty groups.
   */
  function CollectStrokeKeysAsWritten(keys: seq<Key>): (r: Result<StrokeKeys, Exception>)
    ensures r.Ok? <==> |keys| == 0
  {
    if |keys| == 0 then Ok(StrokeKeys([], [], [])) else Err(AttributeError)
  }

  /** The as-written collector fails on every real stroke, where the list version records each key. */
  lemma AsWrittenFailsOnAnyKey(keys: seq<Key>)
    requires |keys| > 0
    ensures CollectStrokeKeysAsWritten(keys) == Err(AttributeError)
    ensures var sk := GroupKeys(keys); |sk.left| + |sk.center| + |sk.right| == |keys| > 0
  {
  }

  /** `LayoutInfo`: template rows and the one pivot column shared by all rows. */
  datatype LayoutInfo = LayoutInfo(rows: seq<string>, center: int)

  /** A rendered character: the reset code, or a template character plain or highlighted. */
  datatype Piece = ResetMarker | Plain(c: char) | Marked(c: char)

  type Row = seq<Piece>

  /** `i_stroke`: left of the pivot, the pivot itself, or right of it. */
  function ColumnBank(i: int, center: int): Bank {
    if i < center then Left else if i == center then Center else Right
  }

  /**
   * `process_char`: the template character is shown unchanged, and marked
   * only when it is a name in the group of its column's bank.
   */
  function ProcessChar(sk: StrokeKeys, center: int, i: int, c: char): (p: Piece)
    ensures (p.Plain? || p.Marked?) && p.c == c
    ensures p.Marked? ==> [c] in sk.Group(ColumnBank(i, center))
    ensures sk.Group(ColumnBank(i, center)) == [] ==> p == Plain(c)
  {
    if [c] in sk.Group(ColumnBank(i, center)) then Marked(c) else Plain(c)
  }

  /** `process_row`: a reset marker, then one piece per template character. */
  function ProcessRow(sk: StrokeKeys, center: int, row: string): (out: Row)
    ensures |out| == |row| + 1 && out[0] == ResetMarker
    ensures forall i :: 0 <= i < |row| ==> out[i + 1] == ProcessChar(sk, center, i, row[i])
  {
    [ResetMarker] + seq(|row|, i requires 0 <= i < |row| => ProcessChar(sk, center, i, row[i]))
  }

  /** `LayoutInfo.show_colored_stroke`, given the stroke's groups. */
  function ShowColoredStroke(layout: LayoutInfo, sk: StrokeKeys): (out: seq<Row>)
    ensures |out| == |layout.rows|
    ensures forall r :: 0 <= r < |out| ==> out[r] == ProcessRow(sk, layout.center, layout.rows[r])
  {
    seq(|layout.rows|, r requires 0 <= r < |layout.rows| => ProcessRow(sk, layout.center, layout.rows[r]))
  }

  /** The characters a row shows once the colour codes are dropped. */
  function Shown(row: Row): string
  {
    if |row| == 0 then ""
    else (match row[0] case ResetMarker => "" case Plain(c) => [c] case Marked(c) => [c]) + Shown(row[1..])
  }

  lemma {:induction false} ShownAppend(a: Row, b: Row)
    ensures Shown(a + b) == Shown(a) + Shown(b)
    decreases |a|
  {
    if |a| > 0 {
      ShownAppend(a[1..], b);
      assert (a + b)[0] == a[0];
      assert (a + b)[1..] == a[1..] + b;
    } else {
      assert a + b == b;
    }
  }

  /**
   * Highlighting never changes the text: every rendered row shows exactly
   * its template row, so it has one character per template character.
   */
  lemma {:induction false} RowsShowTemplate(layout: LayoutInfo, sk: StrokeKeys, r: nat)
    requires r < |layout.rows|
    ensures Shown(ShowColoredStroke(layout, sk)[r]) == layout.rows[r]
  {
    var row := layout.rows[r];
    var out := ShowColoredStroke(layout, sk)[r];
    CellsShowRow(sk, layout.center, row, out[1..]);
    assert out == [out[0]] + out[1..];
    ShownAppend([out[0]], out[1..]);
  }

  /** Every rendered row shows its template row. */
  lemma AllRowsShowTemplate(layout: LayoutInfo, sk: StrokeKeys)
    ensures forall r :: 0 <= r < |layout.rows| ==> Shown(ShowColoredStroke(layout, sk)[r]) == layout.rows[r]
  {
    forall r | 0 <= r < |layout.rows| ensures Shown(ShowColoredStroke(layout, sk)[r]) == layout.rows[r] {
      RowsShowTemplate(layout, sk, r);
    }
  }

  lemma {:induction false} CellsShowRow(sk: StrokeKeys, center: int, row: string, cells: Row)
    requires |cells| == |row|
    requires forall i :: 0 <= i < |row| ==> cells[i] == ProcessChar(sk, center, i, row[i])
    ensures Shown(cells) == row
    decreases |row|
  {
    if |row| > 0 {
      var n := |row| - 1;
      CellsShowRow(sk, center, row[..n], cells[..n]);
      assert cells == cells[..n] + [cells[n]];
      ShownAppend(cells[..n], [cells[n]]);
      assert row == row[..n] + [row[n]];
    }
  }

  /**
   * Character `i` of template row `r` is highlighted exactly when some key of
   * the stroke lies in that column's bank and is named by that character.
   */
  lemma HighlightIffKeyInBank(layout: LayoutInfo, keys: seq<Key>, r: nat, i: nat)
    requires r < |layout.rows| && i < |layout.rows[r]|
    ensures var c := layout.rows[r][i];
      ShowColoredStroke(layout, GroupKeys(keys))[r][i + 1] ==
        if exists k :: 0 <= k < |keys| && BankOf(keys[k]) == ColumnBank(i, layout.center) && KeyName(keys[k]) == [c]
        then Marked(c) else Plain(c)
  {
    GroupMembership(keys, ColumnBank(i, layout.center), [layout.rows[r][i]]);
  }

  /** A key-less stroke highlights nothing. */
  lemma EmptyStrokeMarksNothing(layout: LayoutInfo, r: nat, i: nat)
    requires r < |layout.rows| && i < |layout.rows[r]|
    ensures ShowColoredStroke(layout, GroupKeys([]))[r][i + 1] == Plain(layout.rows[r][i])
  {
  }

  /** `lapwing_rows`. */
  const LapwingRows: seq<string> := ["#TPH*FPLTD", "SKWR*RBGSZ", "  AO EU   "]

  /** `lapwing`: the pivot column is 4, the first `*` of the first row (`LapwingShape`). */
  const Lapwing: LayoutInfo := LayoutInfo(LapwingRows, 4)

  lemma LapwingShape()
    ensures |Lapwing.rows| == 3
    ensures |Lapwing.rows[0]| == |Lapwing.rows[1]| == |Lapwing.rows[2]| == 10
    ensures FirstIndexOf(Lapwing.rows[0], '*') == Some(Lapwing.center)
  {
    var s := LapwingRows[0];
    assert s[..4] == "#TPH" && s[4] == '*';
    FirstIndexAt(s, '*', 4);
  }

  /**
   * Letters on both sides of the pivot are told apart by bank: the left
   * keys `T-`, `P-`, `H-` mark columns 1 to 3 of the first row ...
   */
  lemma LapwingLeftKeysMarkLeftColumns()
    ensures ShowColoredStroke(Lapwing, GroupKeys(["T-", "P-", "H-"]))[0] ==
      [ResetMarker, Plain('#'), Marked('T'), Marked('P'), Marked('H'), Plain('*'),
       Plain('F'), Plain('P'), Plain('L'), Plain('T'), Plain('D')]
  {
    LeftKeysGroup();
    LeftKeysRow([ResetMarker, Plain('#'), Marked('T'), Marked('P'), Marked('H'), Plain('*'),
       Plain('F'), Plain('P'), Plain('L'), Plain('T'), Plain('D')]);
  }

  lemma LeftKeysRow(row: Row)
    requires row == [ResetMarker, Plain('#'), Marked('T'), Marked('P'), Marked('H'), Plain('*'),
       Plain('F'), Plain('P'), Plain('L'), Plain('T'), Plain('D')]
    ensures ShowColoredStroke(Lapwing, StrokeKeys(["T", "P", "H"], [], []))[0] == row
  {
    var sk := StrokeKeys(["T", "P", "H"], [], []);
    forall i | 0 <= i < 10 ensures row[i + 1] == ProcessChar(sk, 4, i, LapwingRows[0][i]) {
      if i < 4 {
        LeftColumnMarks(i);
      } else {
        OnlyLeftKeysLeavePlain(sk, i, LapwingRows[0][i]);
      }
    }
    FirstRowMarks(sk, row);
  }

  /** ... and the right key `-T` marks only column 8. */
  lemma LapwingRightKeyMarksRightColumn()
    ensures ShowColoredStroke(Lapwing, GroupKeys(["-T"]))[0] ==
      [ResetMarker, Plain('#'), Plain('T'), Plain('P'), Plain('H'), Plain('*'),
       Plain('F'), Plain('P'), Plain('L'), Marked('T'), Plain('D')]
  {
    RightKeyGroup();
    RightKeyRow([ResetMarker, Plain('#'), Plain('T'), Plain('P'), Plain('H'), Plain('*'),
       Plain('F'), Plain('P'), Plain('L'), Marked('T'), Plain('D')]);
  }

  lemma RightKeyGroup()
    ensures GroupKeys(["-T"]) == StrokeKeys([], [], ["T"])
  {
    assert BankOf("-T") == Right && KeyName("-T") == "T";
    AppendKey([], "-T");
  }

  lemma RightKeyRow(row: Row)
    requires row == [ResetMarker, Plain('#'), Plain('T'), Plain('P'), Plain('H'), Plain('*'),
       Plain('F'), Plain('P'), Plain('L'), Marked('T'), Plain('D')]
    ensures ShowColoredStroke(Lapwing, StrokeKeys([], [], ["T"]))[0] == row
  {
    var sk := StrokeKeys([], [], ["T"]);
    forall i | 0 <= i < 10 ensures row[i + 1] == ProcessChar(sk, 4, i, LapwingRows[0][i]) {
      assert [LapwingRows[0][i]] in sk.right <==> LapwingRows[0][i] == 'T';
    }
    FirstRowMarks(sk, row);
  }

  lemma LeftColumnMarks(i: nat)
    requires i < 4
    ensures ProcessChar(StrokeKeys(["T", "P", "H"], [], []), 4, i, LapwingRows[0][i]) ==
      [Plain('#'), Marked('T'), Marked('P'), Marked('H')][i]
  {
    var row := LapwingRows[0];
    assert row[0] == '#' && row[1] == 'T' && row[2] == 'P' && row[3] == 'H';
  }

  lemma OnlyLeftKeysLeavePlain(sk: StrokeKeys, i: int, c: char)
    requires sk.center == [] && sk.right == [] && i >= 4
    ensures ProcessChar(sk, 4, i, c) == Plain(c)
  {
  }

  lemma LeftKeysGroup()
    ensures GroupKeys(["T-", "P-", "H-"]) == StrokeKeys(["T", "P", "H"], [], [])
  {
    LeftKey("T-", "T");
    LeftKey("P-", "P");
    LeftKey("H-", "H");
    AppendKey([], "T-");
    assert GroupKeys(["T-"]) == StrokeKeys(["T"], [], []);
    AppendKey(["T-"], "P-");
    assert GroupKeys(["T-", "P-"]) == StrokeKeys(["T", "P"], [], []);
    AppendKey(["T-", "P-"], "H-");
    assert ["T-", "P-"] + ["H-"] == ["T-", "P-", "H-"];
  }

  lemma LeftKey(key: Key, name: string)
    requires |key| == 2 && key[1] == '-' && key[0] != '-' && name == key[..1]
    ensures BankOf(key) == Left && KeyName(key) == name
  {
  }

  /** Appending a key appends its name to its bank's group. */
  lemma AppendKey(keys: seq<Key>, key: Key)
    ensures GroupKeys(keys + [key]) == match BankOf(key)
      case Left => GroupKeys(keys).(left := GroupKeys(keys).left + [KeyName(key)])
      case Center => GroupKeys(keys).(center := GroupKeys(keys).center + [KeyName(key)])
      case Right => GroupKeys(keys).(right := GroupKeys(keys).right + [KeyName(key)])
  {
    assert (keys + [key])[..|keys|] == keys;
  }

  lemma FirstRowMarks(sk: StrokeKeys, row: Row)
    requires |row| == 11 && row[0] == ResetMarker
    requires forall i :: 0 <= i < 10 ==> row[i + 1] == ProcessChar(sk, 4, i, LapwingRows[0][i])
    ensures ShowColoredStroke(Lapwing, sk)[0] == row
  {
    var out := ShowColoredStroke(Lapwing, sk)[0];
    assert |out| == 11;
    forall i | 0 <= i < 11 ensures out[i] == row[i] {
      if i > 0 {
        assert out[i] == ProcessChar(sk, 4, i - 1, LapwingRows[0][i - 1]);
      }
    }
  }
}
