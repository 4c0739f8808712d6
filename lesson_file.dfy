/**
 * Reading a Typey Type lesson (main.py, `Lesson.load_typey_type`): each line
 * that is not blank is `word<TAB>outline`, the outline's strokes separated
 * by `/`. The file is given as its sequence of lines.
 */
module LessonFile {
  import opened Wrappers
  import opened StenoTypes
  import opened Text

  /** One lesson item: the word to type and the outline that writes it. */
  datatype LessonEntry = LessonEntry(word: Translation, outline: Outline)

  /** `is_comment`: a line that strips to nothing, that is, one made of whitespace only. */
  predicate IsComment(line: string) {
    IsBlank(line)
  }

  /** The lines the loader reads entries from, in file order. */
  function EntryLines(lines: seq<string>): (r: seq<string>)
    ensures |r| <= |lines|
    ensures forall k :: 0 <= k < |r| ==> !IsComment(r[k])
    decreases |lines|
  {
    if |lines| == 0 then []
    else
      var last := lines[|lines| - 1];
      EntryLines(lines[..|lines| - 1]) + if IsComment(last) then [] else [last]
  }

  /** The kept lines are exactly the lines that are not blank. */
  lemma {:induction false} EntryLinesAreTheNonBlankLines(lines: seq<string>, line: string)
    ensures line in EntryLines(lines) <==> line in lines && !IsComment(line)
    decreases |lines|
  {
    if |lines| > 0 {
      var init := lines[..|lines| - 1];
      EntryLinesAreTheNonBlankLines(init, line);
      assert lines == init + [lines[|lines| - 1]];
    }
  }

  lemma EntryLinesStep(lines: seq<string>, i: nat)
    requires i < |lines|
    ensures EntryLines(lines[..i + 1]) == EntryLines(lines[..i]) + if IsComment(lines[i]) then [] else [lines[i]]
  {
    assert lines[..i + 1][..i] == lines[..i];
  }

  /**
   * One non-blank line: `word, outline = line.split("\t")` unpacks only when
   * there are exactly two fields (else `None`, where Python raises
   * `ValueError`); the word is stripped, the outline stripped and split at `/`.
   */
  function ParseLine(line: string): (r: Option<LessonEntry>)
    ensures '\t' !in line ==> r.None?
    ensures r.Some? ==> Unpadded(r.value.word) && '\t' !in r.value.word && |r.value.outline| >= 1
  {
    var columns := Split(line, '\t');
    if |columns| == 2 then Some(LessonEntry(Strip(columns[0]), Split(Strip(columns[1]), '/'))) else None
  }

  /** A line without a tab cannot be read. */
  lemma NoTabIsUnreadable(line: string)
    requires '\t' !in line
    ensures ParseLine(line) == None
  {
  }

  /** A line with two tabs or more cannot be read either. */
  lemma SecondTabIsUnreadable(a: string, b: string, c: string)
    requires '\t' !in a
    ensures ParseLine(a + "\t" + b + "\t" + c) == None
  {
    var rest := b + "\t" + c;
    assert a + "\t" + b + "\t" + c == a + ['\t'] + rest;
    SplitAtSeparator(a, '\t', rest);
    assert '\t' in rest by { assert rest[|b|] == '\t'; }
  }

  /** A line with exactly one tab reads as the stripped word and the stripped outline split at `/`. */
  lemma OneTabIsRead(word: string, outline: string)
    requires '\t' !in word && '\t' !in outline
    ensures ParseLine(word + "\t" + outline) == Some(LessonEntry(Strip(word), Split(Strip(outline), '/')))
  {
    TabSplitsFields(word, outline);
  }

  /** The entries of the given lines in order, `None` if one cannot be read. */
  function ReadAll<E>(kept: seq<string>, parse: string -> Option<E>): Option<seq<E>>
    decreases |kept|
  {
    if |kept| == 0 then Some([])
    else
      match ReadAll(kept[..|kept| - 1], parse)
      case None => None
      case Some(entries) =>
        match parse(kept[|kept| - 1])
        case None => None
        case Some(e) => Some(entries + [e])
  }

  /** Reading all lines succeeds exactly when each line reads, and then gives each line's entry in order. */
  lemma {:induction false} ReadAllPointwise<E>(kept: seq<string>, parse: string -> Option<E>)
    ensures ReadAll(kept, parse).Some? <==> forall k :: 0 <= k < |kept| ==> parse(kept[k]).Some?
    ensures ReadAll(kept, parse).Some? ==>
      |ReadAll(kept, parse).value| == |kept| &&
      forall k :: 0 <= k < |kept| ==> parse(kept[k]) == Some(ReadAll(kept, parse).value[k])
    decreases |kept|
  {
    if |kept| > 0 {
      var init := kept[..|kept| - 1];
      ReadAllPointwise(init, parse);
      assert forall k :: 0 <= k < |init| ==> init[k] == kept[k];
    }
  }

  /**
   * `load_typey_type`: the entries of the non-blank lines in order, or
   * `ValueError` as soon as a non-blank line does not have exactly two fields.
   */
  method LoadTypeyType(lines: seq<string>) returns (r: Result<seq<LessonEntry>, Exception>)
    ensures r.Ok? <==> forall k :: 0 <= k < |EntryLines(lines)| ==> ParseLine(EntryLines(lines)[k]).Some?
    ensures r.Err? ==> r.error == ValueError
    ensures r.Ok? ==> |r.value| == |EntryLines(lines)|
    ensures r.Ok? ==> forall k :: 0 <= k < |r.value| ==> ParseLine(EntryLines(lines)[k]) == Some(r.value[k])
  {
    var data: seq<LessonEntry> := [];
    ghost var kept: seq<string> := [];
    for i := 0 to |lines|
      invariant kept == EntryLines(lines[..i])
      invariant ReadAll(kept, ParseLine) == Some(data)
    {
      var line := lines[i];
      EntryLinesStep(lines, i);
      StripEmptyIffBlank(line);
      if Strip(line) != "" {
        var columns := Split(line, '\t');
        if |columns| != 2 {
          UnreadableLineFails(lines, i);
          return Err(ValueError);
        }
        var word, outline := columns[0], columns[1];
        var strokes := Split(Strip(outline), '/');
        ReadStep(kept, line, ParseLine, data);
        data := data + [LessonEntry(Strip(word), strokes)];
        kept := kept + [line];
      }
    }
    assert lines[..|lines|] == lines;
    ReadAllPointwise(kept, ParseLine);
    r := Ok(data);
  }

  /** Reading one more line appends its entry. */
  lemma ReadStep<E>(kept: seq<string>, line: string, parse: string -> Option<E>, data: seq<E>)
    requires ReadAll(kept, parse) == Some(data) && parse(line).Some?
    ensures ReadAll(kept + [line], parse) == Some(data + [parse(line).value])
  {
    assert (kept + [line])[..|kept|] == kept;
  }

  /** A non-blank line that cannot be read makes the whole file unreadable. */
  lemma UnreadableLineFails(lines: seq<string>, i: nat)
    requires i < |lines| && !IsComment(lines[i]) && ParseLine(lines[i]) == None
    ensures !forall k :: 0 <= k < |EntryLines(lines)| ==> ParseLine(EntryLines(lines)[k]).Some?
  {
    EntryLinesAreTheNonBlankLines(lines, lines[i]);
  }

  /** The line a lesson entry is written as. */
  function FormatEntry(e: LessonEntry): string {
    e.word + "\t" + Join("/", e.outline)
  }

  /** An entry the format can carry: a non-empty unpadded word without tab, strokes without `/` or tab. */
  predicate Writable(e: LessonEntry) {
    WritableWord(e.word) && WritableOutline(e.outline)
  }

  predicate WritableWord(w: string) {
    |w| > 0 && Unpadded(w) && '\t' !in w
  }

  predicate WritableOutline(o: Outline) {
    |o| > 0 && Unpadded(Join("/", o)) &&
    forall k :: 0 <= k < |o| ==> '/' !in o[k] && '\t' !in o[k]
  }

  /** A line with one tab splits into the text before it and the text after it. */
  lemma TabSplitsFields(word: string, rest: string)
    requires '\t' !in word && '\t' !in rest
    ensures Split(word + "\t" + rest, '\t') == [word, rest]
  {
    SplitAtSeparator(word, '\t', rest);
    SplitNoSeparator(rest, '\t');
    assert word + "\t" + rest == word + ['\t'] + rest;
  }

  lemma FormattedLineHasNoSecondTab(e: LessonEntry)
    requires Writable(e)
    ensures '\t' !in Join("/", e.outline)
  {
    JoinAvoids(e.outline, '/', '\t');
  }

  lemma FormattedOutlineSplitsBack(e: LessonEntry)
    requires Writable(e)
    ensures Split(Join("/", e.outline), '/') == e.outline
  {
    SplitJoin(e.outline, '/');
  }

  lemma FormattedFieldsAreStripped(e: LessonEntry)
    requires Writable(e)
    ensures Strip(e.word) == e.word && Strip(Join("/", e.outline)) == Join("/", e.outline)
  {
    StripKeepsUnpadded(e.word);
    StripKeepsUnpadded(Join("/", e.outline));
  }

  /** Reading back a written entry's line gives the entry. */
  lemma FormatThenRead(e: LessonEntry)
    requires Writable(e)
    ensures ParseLine(FormatEntry(e)) == Some(e)
  {
    FormattedLineHasNoSecondTab(e);
    OneTabIsRead(e.word, Join("/", e.outline));
    FormattedOutlineSplitsBack(e);
    FormattedFieldsAreStripped(e);
  }

  /** The same with the line end that `for line in f` keeps. */
  lemma FormatThenReadLine(e: LessonEntry)
    requires Writable(e)
    ensures ParseLine(FormatEntry(e) + "\n") == Some(e)
  {
    var outline := Join("/", e.outline);
    FormattedLineHasNoSecondTab(e);
    assert FormatEntry(e) + "\n" == e.word + "\t" + (outline + "\n");
    OneTabIsRead(e.word, outline + "\n");
    StripDropsLineEnd(outline);
    FormattedOutlineSplitsBack(e);
    FormattedFieldsAreStripped(e);
  }

  /** A written entry's line, with or without its line end, is never taken for a blank line. */
  lemma FormattedLineIsKept(e: LessonEntry)
    requires Writable(e)
    ensures !IsComment(FormatEntry(e))
    ensures !IsComment(FormatEntry(e) + "\n")
  {
    assert FormatEntry(e)[0] == e.word[0];
    assert (FormatEntry(e) + "\n")[0] == e.word[0];
  }

  /** How a written entry comes back from `for line in f`: with its line end, or without it on a last line that has none. */
  predicate IsLineOf(line: string, e: LessonEntry) {
    line == FormatEntry(e) + "\n" || line == FormatEntry(e)
  }

  /** A lesson file written from writable entries, one per line, reads back as those entries. */
  lemma LessonRoundTrip(entries: seq<LessonEntry>, lines: seq<string>)
    requires |lines| == |entries|
    requires forall k :: 0 <= k < |entries| ==> Writable(entries[k]) && IsLineOf(lines[k], entries[k])
    ensures EntryLines(lines) == lines
    ensures ReadAll(lines, ParseLine) == Some(entries)
  {
    FormattedLinesAreKept(entries, lines);
    NoBlankLinesKeepsAll(lines);
    FormattedLinesRead(entries, lines);
    ReadAllOfEach(lines, ParseLine, entries);
  }

  lemma FormattedLinesAreKept(entries: seq<LessonEntry>, lines: seq<string>)
    requires |lines| == |entries|
    requires forall k :: 0 <= k < |entries| ==> Writable(entries[k]) && IsLineOf(lines[k], entries[k])
    ensures forall k :: 0 <= k < |lines| ==> !IsComment(lines[k])
  {
    forall k | 0 <= k < |lines| ensures !IsComment(lines[k]) {
      FormattedLineIsKept(entries[k]);
    }
  }

  lemma FormattedLinesRead(entries: seq<LessonEntry>, lines: seq<string>)
    requires |lines| == |entries|
    requires forall k :: 0 <= k < |entries| ==> Writable(entries[k]) && IsLineOf(lines[k], entries[k])
    ensures forall k :: 0 <= k < |lines| ==> ParseLine(lines[k]) == Some(entries[k])
  {
    forall k | 0 <= k < |lines| ensures ParseLine(lines[k]) == Some(entries[k]) {
      FormatThenRead(entries[k]);
      FormatThenReadLine(entries[k]);
    }
  }

  /** Lines that each read as the matching entry read, all together, as those entries. */
  lemma ReadAllOfEach<E>(kept: seq<string>, parse: string -> Option<E>, entries: seq<E>)
    requires |kept| == |entries|
    requires forall k :: 0 <= k < |kept| ==> parse(kept[k]) == Some(entries[k])
    ensures ReadAll(kept, parse) == Some(entries)
  {
    ReadAllPointwise(kept, parse);
    var got := ReadAll(kept, parse).value;
    assert got == entries by {
      forall k | 0 <= k < |kept| ensures got[k] == entries[k] {
        assert parse(kept[k]) == Some(got[k]);
      }
    }
  }

  lemma {:induction false} NoBlankLinesKeepsAll(lines: seq<string>)
    requires forall k :: 0 <= k < |lines| ==> !IsComment(lines[k])
    ensures EntryLines(lines) == lines
    decreases |lines|
  {
    if |lines| > 0 {
      NoBlankLinesKeepsAll(lines[..|lines| - 1]);
    }
  }
}
