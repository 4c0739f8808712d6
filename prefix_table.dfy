/**
 * The generator of the Lapwing web drill's match table (gen/gen.py, `main`):
 * every word that heads a lesson line is mapped to the translations of all
 * prefixes of all its outlines. Plover's dictionary is given as two
 * functions: `reverseLookup(word)`, the outlines that write a word, and
 * `lookup(outline)`, the translation of an outline, `None` when it has none.
 */
module PrefixTable {
  import opened Wrappers
  import opened StenoTypes
  import opened Text

  /** `line.rstrip("\n")`: the line without its trailing newlines. */
  function RStripNewlines(line: string): (r: string)
    ensures |r| <= |line| && r == line[..|r|]
    ensures forall k :: |r| <= k < |line| ==> line[k] == '\n'
    ensures r == [] || r[|r| - 1] != '\n'
  {
    if |line| > 0 && line[|line| - 1] == '\n' then RStripNewlines(line[..|line| - 1]) else line
  }

  /** The word a lesson line contributes: its first column, when it has at least two. */
  function WordOf(line: string): Option<Translation> {
    var columns := Split(RStripNewlines(line), '\t');
    if |columns| >= 2 then Some(columns[0]) else None
  }

  /** A line contributes a word exactly when it has a tab, and the word is the text before the first tab. */
  lemma WordOfIsFirstColumn(line: string)
    ensures WordOf(line).Some? <==> '\t' in line
    ensures WordOf(line).Some? ==> '\t' !in WordOf(line).value && IsPrefix(WordOf(line).value + "\t", line)
  {
    var r := RStripNewlines(line);
    StripNewlinesKeepsTabs(line);
    if '\t' in r {
      FirstPart(r, '\t');
      FirstColumnLeadsLine(line, r, Split(r, '\t')[0]);
    }
  }

  lemma StripNewlinesKeepsTabs(line: string)
    ensures '\t' in RStripNewlines(line) <==> '\t' in line
  {
    var r := RStripNewlines(line);
    if '\t' in line {
      var k :| 0 <= k < |line| && line[k] == '\t';
      assert k < |r| && r[k] == '\t';
    }
  }

  lemma FirstColumnLeadsLine(line: string, r: string, w: string)
    requires |r| <= |line| && r == line[..|r|] && IsPrefix(w, r) && |w| < |r| && r[|w|] == '\t'
    ensures IsPrefix(w + "\t", line)
  {
    assert w + "\t" == r[..|w| + 1];
    assert r[..|w| + 1] == line[..|w| + 1];
  }

  /** The words some lines contribute, `wordOf` giving each line's word if it has one. */
  function WordsIn(lines: seq<string>, wordOf: string -> Option<Translation>): set<Translation>
  {
    if |lines| == 0 then {}
    else
      var last := lines[|lines| - 1];
      WordsIn(lines[..|lines| - 1], wordOf) + if wordOf(last).Some? then {wordOf(last).value} else {}
  }

  /** The words of all lesson files. */
  function WordsInFiles(files: seq<seq<string>>, wordOf: string -> Option<Translation>): set<Translation>
  {
    if |files| == 0 then {} else WordsInFiles(files[..|files| - 1], wordOf) + WordsIn(files[|files| - 1], wordOf)
  }

  /** A word is collected from some lines exactly when one of them contributes it. */
  lemma {:induction false} WordsInLines(lines: seq<string>, wordOf: string -> Option<Translation>, w: Translation)
    ensures w in WordsIn(lines, wordOf) <==> exists k :: 0 <= k < |lines| && wordOf(lines[k]) == Some(w)
  {
    if |lines| > 0 {
      var init := lines[..|lines| - 1];
      WordsInLines(init, wordOf, w);
      assert forall k :: 0 <= k < |init| ==> init[k] == lines[k];
    }
  }

  /** A word is collected from the files exactly when it is collected from one of them. */
  lemma {:induction false} WordsInAllFiles(files: seq<seq<string>>, wordOf: string -> Option<Translation>, w: Translation)
    ensures w in WordsInFiles(files, wordOf) <==> exists f :: 0 <= f < |files| && w in WordsIn(files[f], wordOf)
  {
    if |files| > 0 {
      var init := files[..|files| - 1];
      WordsInAllFiles(init, wordOf, w);
      assert forall f :: 0 <= f < |init| ==> init[f] == files[f];
    }
  }

  lemma WordsInStep(lines: seq<string>, wordOf: string -> Option<Translation>, k: nat)
    requires k < |lines|
    ensures WordsIn(lines[..k + 1], wordOf) == WordsIn(lines[..k], wordOf) + if wordOf(lines[k]).Some? then {wordOf(lines[k]).value} else {}
  {
    assert lines[..k + 1][..k] == lines[..k];
  }

  lemma WordsInFilesStep(files: seq<seq<string>>, wordOf: string -> Option<Translation>, i: nat)
    requires i < |files|
    ensures WordsInFiles(files[..i + 1], wordOf) == WordsInFiles(files[..i], wordOf) + WordsIn(files[i], wordOf)
  {
    assert files[..i + 1][..i] == files[..i];
  }

  /** The words of one lesson file added to the table, each mapped to its outlines. */
  method CollectFileWords(lines: seq<string>, reverseLookup: Translation -> seq<Outline>,
                          wordToOutlines: map<Translation, seq<Outline>>)
    returns (updated: map<Translation, seq<Outline>>)
    requires forall w :: w in wordToOutlines ==> wordToOutlines[w] == reverseLookup(w)
    ensures updated.Keys == wordToOutlines.Keys + WordsIn(lines, WordOf)
    ensures forall w :: w in updated ==> updated[w] == reverseLookup(w)
  {
    updated := wordToOutlines;
    for k := 0 to |lines|
      invariant updated.Keys == wordToOutlines.Keys + WordsIn(lines[..k], WordOf)
      invariant forall w :: w in updated ==> updated[w] == reverseLookup(w)
    {
      WordsInStep(lines, WordOf, k);
      var word := WordOf(lines[k]);
      if word.Some? {
        updated := updated[word.value := reverseLookup(word.value)];
      }
    }
    assert lines[..|lines|] == lines;
  }

  /**
   * The first loop of `main`: each lesson file's lines are read; a line with
   * at least two tab-separated columns maps its word to the word's outlines.
   */
  method CollectWordOutlines(files: seq<seq<string>>, reverseLookup: Translation -> seq<Outline>)
    returns (wordToOutlines: map<Translation, seq<Outline>>)
    ensures wordToOutlines.Keys == WordsInFiles(files, WordOf)
    ensures forall w :: w in wordToOutlines ==> wordToOutlines[w] == reverseLookup(w)
  {
    wordToOutlines := map[];
    for i := 0 to |files|
      invariant wordToOutlines.Keys == WordsInFiles(files[..i], WordOf)
      invariant forall w :: w in wordToOutlines ==> wordToOutlines[w] == reverseLookup(w)
    {
      WordsInFilesStep(files, WordOf, i);
      wordToOutlines := CollectFileWords(files[i], reverseLookup, wordToOutlines);
    }
    assert files[..|files|] == files;
  }

  /** `outline[:1]`, ..., `outline[:n]`. */
  function Prefixes(outline: Outline, n: nat): set<Outline>
    requires n <= |outline|
  {
    set i | 1 <= i <= n :: outline[..i]
  }

  /** The `n` prefixes are `n` different outlines: each is looked up once. */
  lemma {:induction false} PrefixCount(outline: Outline, n: nat)
    requires n <= |outline|
    ensures |Prefixes(outline, n)| == n
  {
    if n > 0 {
      PrefixCount(outline, n - 1);
      assert Prefixes(outline, n) == Prefixes(outline, n - 1) + {outline[..n]};
      assert outline[..n] !in Prefixes(outline, n - 1);
    }
  }

  /** The translations of the first `n` prefixes of an outline. */
  function PrefixLookups(outline: Outline, n: nat, lookup: Outline -> Option<Translation>): set<Option<Translation>>
    requires n <= |outline|
  {
    set p | p in Prefixes(outline, n) :: lookup(p)
  }

  /** The translations recorded for a word: those of every prefix of every outline. */
  function Translations(outlines: seq<Outline>, lookup: Outline -> Option<Translation>): (r: set<Option<Translation>>)
    ensures forall k :: 0 <= k < |outlines| && |outlines[k]| > 0 ==> lookup(outlines[k]) in r
  {
    if |outlines| == 0 then {}
    else
      var init := outlines[..|outlines| - 1];
      var last := outlines[|outlines| - 1];
      assert forall k :: 0 <= k < |init| ==> init[k] == outlines[k];
      assert |last| > 0 ==> last[..|last|] == last && last in Prefixes(last, |last|);
      Translations(init, lookup) + PrefixLookups(last, |last|, lookup)
  }

  /** A translation is recorded exactly when some non-empty prefix of some outline translates to it. */
  lemma {:induction false} TranslationsOfPrefixes(outlines: seq<Outline>, lookup: Outline -> Option<Translation>, t: Option<Translation>)
    ensures t in Translations(outlines, lookup) <==>
      exists k, i :: 0 <= k < |outlines| && 1 <= i <= |outlines[k]| && lookup(outlines[k][..i]) == t
  {
    if |outlines| > 0 {
      var init := outlines[..|outlines| - 1];
      TranslationsOfPrefixes(init, lookup, t);
      assert forall k :: 0 <= k < |init| ==> init[k] == outlines[k];
      var last := outlines[|outlines| - 1];
      if t in PrefixLookups(last, |last|, lookup) {
        var p :| p in Prefixes(last, |last|) && lookup(p) == t;
        var i :| 1 <= i <= |last| && p == last[..i];
      }
    }
  }

  lemma PrefixLookupsStep(outline: Outline, i: nat, lookup: Outline -> Option<Translation>)
    requires 1 <= i <= |outline|
    ensures PrefixLookups(outline, i, lookup) == PrefixLookups(outline, i - 1, lookup) + {lookup(outline[..i])}
  {
    assert Prefixes(outline, i) == Prefixes(outline, i - 1) + {outline[..i]};
  }

  lemma TranslationsStep(outlines: seq<Outline>, j: nat, lookup: Outline -> Option<Translation>)
    requires j < |outlines|
    ensures Translations(outlines[..j + 1], lookup) == Translations(outlines[..j], lookup) + PrefixLookups(outlines[j], |outlines[j]|, lookup)
  {
    assert outlines[..j + 1][..j] == outlines[..j];
  }

  /** The inner loops of the second loop of `main`: the translations of all prefixes of all outlines of one word. */
  method CollectTranslations(outlines: seq<Outline>, lookup: Outline -> Option<Translation>)
    returns (translations: set<Option<Translation>>)
    ensures translations == Translations(outlines, lookup)
  {
    translations := {};
    for j := 0 to |outlines|
      invariant translations == Translations(outlines[..j], lookup)
    {
      TranslationsStep(outlines, j, lookup);
      var outline := outlines[j];
      for i := 1 to |outline| + 1
        invariant translations == Translations(outlines[..j], lookup) + PrefixLookups(outline, i - 1, lookup)
      {
        PrefixLookupsStep(outline, i, lookup);
        var prefix := outline[..i];
        var translation := lookup(prefix);
        translations := translations + {translation};
      }
    }
    assert outlines[..|outlines|] == outlines;
  }

  /**
   * The second loop of `main`: every collected word mapped to the
   * translations of its outlines' prefixes (`list(translations)`; the
   * order of that list is not modelled).
   */
  method WordToStrokes(wordToOutlines: map<Translation, seq<Outline>>, lookup: Outline -> Option<Translation>)
    returns (table: map<Translation, set<Option<Translation>>>)
    ensures table.Keys == wordToOutlines.Keys
    ensures forall w :: w in table ==> table[w] == Translations(wordToOutlines[w], lookup)
  {
    table := map[];
    var todo := wordToOutlines.Keys;
    while todo != {}
      invariant todo <= wordToOutlines.Keys
      invariant table.Keys == wordToOutlines.Keys - todo
      invariant forall w :: w in table ==> table[w] == Translations(wordToOutlines[w], lookup)
      decreases todo
    {
      var word :| word in todo;
      var translations := CollectTranslations(wordToOutlines[word], lookup);
      table := table[word := translations];
      todo := todo - {word};
    }
  }

  /**
   * `main` without its I/O: every word of the lesson files is a key, and
   * its translations are those of the prefixes of the outlines the reverse
   * lookup gives for it.
   */
  method GenerateTable(files: seq<seq<string>>, reverseLookup: Translation -> seq<Outline>,
                       lookup: Outline -> Option<Translation>)
    returns (table: map<Translation, set<Option<Translation>>>)
    ensures table.Keys == WordsInFiles(files, WordOf)
    ensures forall w :: w in table ==> table[w] == Translations(reverseLookup(w), lookup)
  {
    var wordToOutlines := CollectWordOutlines(files, reverseLookup);
    table := WordToStrokes(wordToOutlines, lookup);
  }

  /** A word without outlines gets no translations; one with a one-stroke outline gets at least that outline's translation. */
  lemma TranslationsBoundaries(outlines: seq<Outline>, lookup: Outline -> Option<Translation>)
    ensures outlines == [] ==> Translations(outlines, lookup) == {}
    ensures forall k :: 0 <= k < |outlines| && |outlines[k]| >= 1 ==> lookup(outlines[k][..1]) in Translations(outlines, lookup)
  {
    forall k | 0 <= k < |outlines| && |outlines[k]| >= 1
      ensures lookup(outlines[k][..1]) in Translations(outlines, lookup)
    {
      TranslationsOfPrefixes(outlines, lookup, lookup(outlines[k][..1]));
    }
  }
}
