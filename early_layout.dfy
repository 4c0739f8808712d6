/**
 * The earlier stroke diagram (drill/layout.py): the same key grouping and
 * Lapwing template, but the collector returns from inside its loop and the
 * diagram is the bare template.
 */
module EarlyLayout {
  import opened Wrappers
  import opened StenoTypes
  import opened BankLayout

  /**
   * `collect_stroke_keys` as written: the `return` sits inside the loop, so
   * only the first key is grouped, and a key-less stroke gives `None`.
   */
  function CollectFirstKey(keys: seq<Key>): (r: Option<StrokeKeys>)
    ensures r.None? <==> |keys| == 0
    ensures r.Some? ==> r.value == GroupKeys(keys[..1])
  {
    if |keys| == 0 then None
    else
      var key := keys[0];
      assert keys[..1][..0] == [];
      if key[|key| - 1] == '-' then Some(StrokeKeys([key[..|key| - 1]], [], []))
      else if key[0] == '-' then Some(StrokeKeys([], [], [key[1..]]))
      else Some(StrokeKeys([], [key], []))
  }

  /** With two left keys, the early return loses the second one that the full loop keeps. */
  lemma EarlyReturnDropsLaterKeys()
    ensures CollectFirstKey(["S-", "T-"]) == Some(StrokeKeys(["S"], [], []))
    ensures GroupKeys(["S-", "T-"]) == StrokeKeys(["S", "T"], [], [])
  {
    LeftKey("S-", "S");
    LeftKey("T-", "T");
    AppendKey([], "S-");
    AppendKey(["S-"], "T-");
    assert ["S-"] + ["T-"] == ["S-", "T-"];
  }

  /** The first-key result agrees with the full grouping exactly on strokes of one key. */
  lemma SingleKeyStrokesAgree(keys: seq<Key>)
    requires |keys| == 1
    ensures CollectFirstKey(keys) == Some(GroupKeys(keys))
  {
    assert keys[..1] == keys;
  }

  /** `LayoutInfo.show_stroke`: a copy of the template rows, whatever the stroke. */
  function ShowStroke(layout: LayoutInfo, keys: seq<Key>): (rows: seq<string>)
    ensures |rows| == |layout.rows|
    ensures forall r :: 0 <= r < |rows| ==> rows[r] == layout.rows[r]
  {
    layout.rows
  }

  /** `show_stroke` highlights nothing: any two strokes draw the same rows. */
  lemma ShowStrokeIgnoresStroke(layout: LayoutInfo, keys: seq<Key>, other: seq<Key>)
    ensures ShowStroke(layout, keys) == ShowStroke(layout, other)
  {
  }

  /**
   * Module-level `show_stroke`: unpacking the collector's `None` for a
   * key-less stroke raises `TypeError`; otherwise the rows go to the terminal
   * and the result is the empty string.
   */
  function ShowStrokeText(keys: seq<Key>): (r: Result<string, Exception>)
    ensures r.Err? <==> |keys| == 0
    ensures r.Err? ==> r.error == TypeError
    ensures r.Ok? ==> r.value == ""
  {
    match CollectFirstKey(keys)
    case None => Err(TypeError)
    case Some(_) => Ok("")
  }
}
