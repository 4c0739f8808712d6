/**
 * The web drill's lesson loader (`generateDrills` in src/system/utils.ts,
 * written out again inline in src/system/Lapwing.tsx and
 * src/drill/Lapwing.tsx): each lesson file's text is trimmed and split into
 * lines, each line into `word<TAB>outline`, the outline at `/`; the file is
 * named by the last segment of its path, and the files are sorted by name.
 */
module DrillFiles {
  import opened Wrappers
  import opened Text

  /** One `DrillData` item. */
  datatype DrillItem = DrillItem(word: string, outline: seq<string>)

  /** One lesson file: its name and its items in file order. */
  datatype DrillFile = DrillFile(name: string, drillData: seq<DrillItem>)

  /**
   * One line: `columns = line.split('\t')`, the word is `columns[0]` and
   * the outline `columns[1].split('/')`. Without a tab `columns[1]` is
   * `undefined`, and calling `split` on it throws a `TypeError`.
   */
  function ParseDrillLine(line: string): (r: Result<DrillItem, Exception>)
    ensures r.Err? <==> '\t' !in line
    ensures r.Err? ==> r.error == TypeError
  {
    var columns := Split(line, '\t');
    if |columns| < 2 then Err(TypeError)
    else Ok(DrillItem(columns[0], Split(columns[1], '/')))
  }

  /**
   * A line that reads is its word, a tab, then its outline joined with `/`,
   * and then nothing or another tab: the word is all the text before the
   * first tab (untrimmed), the outline has at least one stroke, and fields
   * after the second are ignored.
   */
  lemma ParsedLineLayout(line: string)
    requires ParseDrillLine(line).Ok?
    ensures var item := ParseDrillLine(line).value;
      var head := item.word + "\t" + Join("/", item.outline);
      && '\t' !in item.word
      && |item.outline| >= 1
      && IsPrefix(head, line)
      && (|head| < |line| ==> line[|head|] == '\t')
  {
    var columns := Split(line, '\t');
    FirstTwoParts(line, '\t');
    JoinSplit(columns[1], '/');
    assert columns[0] + "\t" + columns[1] == columns[0] + ['\t'] + columns[1];
  }

  /** A line written from an item whose word has no tab and whose strokes have no `/` or tab reads back as that item. */
  lemma DrillLineRoundTrip(word: string, outline: seq<string>)
    requires '\t' !in word && |outline| >= 1
    requires forall k :: 0 <= k < |outline| ==> '/' !in outline[k] && '\t' !in outline[k]
    ensures ParseDrillLine(word + "\t" + Join("/", outline)) == Ok(DrillItem(word, outline))
  {
    var joined := Join("/", outline);
    JoinAvoids(outline, '/', '\t');
    SplitAtSeparator(word, '\t', joined);
    SplitNoSeparator(joined, '\t');
    assert word + "\t" + joined == word + ['\t'] + joined;
    SplitJoin(outline, '/');
  }

  /** Fields after the second are ignored. */
  lemma ExtraFieldsIgnored(word: string, second: string, rest: string)
    requires '\t' !in word && '\t' !in second
    ensures ParseDrillLine(word + "\t" + second + "\t" + rest) == ParseDrillLine(word + "\t" + second)
  {
    TwoTabsSplit(word, second, rest);
    OneTabSplits(word, second);
  }

  lemma TwoTabsSplit(word: string, second: string, rest: string)
    requires '\t' !in word && '\t' !in second
    ensures Split(word + "\t" + second + "\t" + rest, '\t') == [word, second] + Split(rest, '\t')
  {
    var tail := second + "\t" + rest;
    assert word + "\t" + second + "\t" + rest == word + ['\t'] + tail;
    SplitAtSeparator(word, '\t', tail);
    assert tail == second + ['\t'] + rest;
    SplitAtSeparator(second, '\t', rest);
  }

  lemma OneTabSplits(word: string, second: string)
    requires '\t' !in word && '\t' !in second
    ensures Split(word + "\t" + second, '\t') == [word, second]
  {
    assert word + "\t" + second == word + ['\t'] + second;
    SplitAtSeparator(word, '\t', second);
    SplitNoSeparator(second, '\t');
  }

  /**
   * `xs.map(f)` where `f` may throw: the results in order, or the first
   * exception thrown.
   */
  function MapAll<A, B>(xs: seq<A>, f: A -> Result<B, Exception>): (r: Result<seq<B>, Exception>)
    ensures r.Ok? <==> forall k :: 0 <= k < |xs| ==> f(xs[k]).Ok?
    ensures r.Ok? ==> |r.value| == |xs| && forall k :: 0 <= k < |xs| ==> f(xs[k]) == Ok(r.value[k])
    ensures r.Err? ==> exists k :: 0 <= k < |xs| && f(xs[k]) == Err(r.error) && forall j :: 0 <= j < k ==> f(xs[j]).Ok?
  {
    if |xs| == 0 then Ok([])
    else
      match f(xs[0])
      case Err(e) => Err(e)
      case Ok(y) =>
        match MapAll(xs[1..], f)
        case Err(e) =>
          assert forall k :: 1 <= k < |xs| ==> xs[1..][k - 1] == xs[k];
          Err(e)
        case Ok(ys) => Ok([y] + ys)
  }

  /** `lines.map(...)`: the items of the lines in order, or a `TypeError` for a line without a tab. */
  function ParseDrillLines(lines: seq<string>): (r: Result<seq<DrillItem>, Exception>)
    ensures r.Ok? <==> forall k :: 0 <= k < |lines| ==> '\t' in lines[k]
    ensures r.Err? ==> r.error == TypeError
    ensures r.Ok? ==> |r.value| == |lines|
    ensures r.Ok? ==> forall k :: 0 <= k < |lines| ==> ParseDrillLine(lines[k]) == Ok(r.value[k])
  {
    MapAll(lines, ParseDrillLine)
  }

  /** The lines of a file's text: `text.trim().split('\n')`. */
  function TextLines(text: string): (lines: seq<string>)
    ensures |lines| >= 1
  {
    Split(Strip(text), '\n')
  }

  /** A whole file: one item per line of the trimmed text. */
  function ParseDrillText(text: string): (r: Result<seq<DrillItem>, Exception>)
    ensures r.Ok? ==> |r.value| == |TextLines(text)|
  {
    ParseDrillLines(TextLines(text))
  }

  /** A file of whitespace only trims to one empty line, which has no tab, so it throws. */
  lemma BlankTextThrows(text: string)
    requires IsBlank(text)
    ensures ParseDrillText(text) == Err(TypeError)
  {
    StripEmptyIffBlank(text);
    assert TextLines(text) == [""];
  }

  /** The lines of a text with no surrounding whitespace and no blank or tab-less line read as one item each. */
  lemma WrittenTextReads(lines: seq<string>)
    requires |lines| >= 1
    requires forall k :: 0 <= k < |lines| ==> '\n' !in lines[k] && '\t' in lines[k]
    requires Unpadded(Join("\n", lines))
    ensures ParseDrillText(Join("\n", lines)).Ok?
    ensures |ParseDrillText(Join("\n", lines)).value| == |lines|
  {
    StripKeepsUnpadded(Join("\n", lines));
    SplitJoin(lines, '\n');
  }

  /** One lesson file `[path, text]`: named by the last segment of its path. */
  function ParseDrillFile(path: string, text: string): (r: Result<DrillFile, Exception>)
    ensures r.Ok? ==> '/' !in r.value.name && IsSuffixAfterSlash(r.value.name, path)
    ensures r.Err? <==> ParseDrillText(text).Err?
  {
    match ParseDrillText(text)
    case Err(e) => Err(e)
    case Ok(items) => Ok(DrillFile(LastSegment(path), items))
  }

  /** `name` ends `path` and is the whole path or follows a `/`. */
  predicate IsSuffixAfterSlash(name: string, path: string) {
    |name| <= |path| && path[|path| - |name|..] == name && (|name| < |path| ==> path[|path| - |name| - 1] == '/')
  }

  /** The `map` over all `[path, text]` entries: one file per entry, or the first exception. */
  function ParseDrillFiles(data: seq<(string, string)>): (r: Result<seq<DrillFile>, Exception>)
    ensures r.Ok? <==> forall k :: 0 <= k < |data| ==> ParseDrillFile(data[k].0, data[k].1).Ok?
    ensures r.Ok? ==> |r.value| == |data|
    ensures r.Ok? ==> forall k :: 0 <= k < |data| ==> ParseDrillFile(data[k].0, data[k].1) == Ok(r.value[k])
  {
    MapAll(data, (entry: (string, string)) => ParseDrillFile(entry.0, entry.1))
  }

  /**
   * The collation `localeCompare(b, undefined, { numeric: true }) <= 0`,
   * left abstract: `le(a, b)` when `a` may come before `b`.
   */
  type NameOrder = (string, string) -> bool

  /** Any two names can be compared, one way or the other. */
  ghost predicate IsTotal(le: NameOrder) {
    forall a, b :: le(a, b) || le(b, a)
  }

  /** Neighbouring files are in name order. */
  predicate SortedByName(files: seq<DrillFile>, le: NameOrder) {
    forall k :: 0 <= k < |files| - 1 ==> le(files[k].name, files[k + 1].name)
  }

  /** Puts `file` before the first file it may precede, so that files with equal names keep their order. */
  function InsertByName(file: DrillFile, files: seq<DrillFile>, le: NameOrder): (r: seq<DrillFile>)
    ensures multiset(r) == multiset(files) + multiset{file}
    ensures |r| == |files| + 1
    ensures |r| > 0 && (r[0] == file || (|files| > 0 && r[0] == files[0]))
  {
    if |files| == 0 then [file]
    else if le(file.name, files[0].name) then [file] + files
    else
      assert files == [files[0]] + files[1..];
      [files[0]] + InsertByName(file, files[1..], le)
  }

  /** Inserting into files in name order keeps them in name order. */
  lemma {:induction false} InsertKeepsSorted(file: DrillFile, files: seq<DrillFile>, le: NameOrder)
    requires IsTotal(le) && SortedByName(files, le)
    ensures SortedByName(InsertByName(file, files, le), le)
  {
    if |files| > 0 && !le(file.name, files[0].name) {
      assert le(files[0].name, file.name);
      var tail := files[1..];
      assert SortedByName(tail, le) by {
        forall k | 0 <= k < |tail| - 1 ensures le(tail[k].name, tail[k + 1].name) {
          assert tail[k] == files[k + 1] && tail[k + 1] == files[k + 2];
        }
      }
      InsertKeepsSorted(file, tail, le);
      var rest := InsertByName(file, tail, le);
      var r := [files[0]] + rest;
      forall k | 0 <= k < |r| - 1 ensures le(r[k].name, r[k + 1].name) {
        if k > 0 {
          assert r[k] == rest[k - 1] && r[k + 1] == rest[k];
        }
      }
    }
  }

  /** `.sort(...)`: a stable insertion sort by name. */
  function SortByName(files: seq<DrillFile>, le: NameOrder): (r: seq<DrillFile>)
    ensures multiset(r) == multiset(files)
    ensures |r| == |files|
  {
    if |files| == 0 then []
    else
      assert files == [files[0]] + files[1..];
      InsertByName(files[0], SortByName(files[1..], le), le)
  }

  /** Under a total order the sort's result is in name order. */
  lemma {:induction false} SortByNameSorts(files: seq<DrillFile>, le: NameOrder)
    requires IsTotal(le)
    ensures SortedByName(SortByName(files, le), le)
  {
    if |files| > 0 {
      SortByNameSorts(files[1..], le);
      InsertKeepsSorted(files[0], SortByName(files[1..], le), le);
    }
  }

  /** `generateDrills(data)`: the parsed files, sorted by name, or the first exception. */
  function GenerateDrills(data: seq<(string, string)>, le: NameOrder): (r: Result<seq<DrillFile>, Exception>)
    ensures r.Ok? <==> ParseDrillFiles(data).Ok?
    ensures r.Ok? ==> multiset(r.value) == multiset(ParseDrillFiles(data).value)
    ensures r.Ok? ==> |r.value| == |data|
  {
    match ParseDrillFiles(data)
    case Err(e) => Err(e)
    case Ok(files) => Ok(SortByName(files, le))
  }

  /**
   * Every generated file comes from one of the entries: its name is the last
   * segment of that entry's path and its items are that entry's lines; and
   * the files are in name order.
   */
  lemma GeneratedFilesComeFromEntries(data: seq<(string, string)>, le: NameOrder)
    requires IsTotal(le)
    requires GenerateDrills(data, le).Ok?
    ensures SortedByName(GenerateDrills(data, le).value, le)
    ensures forall f :: f in GenerateDrills(data, le).value ==>
      exists k :: 0 <= k < |data| && f.name == LastSegment(data[k].0) && Ok(f.drillData) == ParseDrillText(data[k].1)
  {
    var files := ParseDrillFiles(data).value;
    SortByNameSorts(files, le);
    forall f | f in GenerateDrills(data, le).value
      ensures exists k :: 0 <= k < |data| && f.name == LastSegment(data[k].0) && Ok(f.drillData) == ParseDrillText(data[k].1)
    {
      assert f in multiset(files);
      var k :| 0 <= k < |files| && files[k] == f;
      assert ParseDrillFile(data[k].0, data[k].1) == Ok(f);
    }
  }
}
