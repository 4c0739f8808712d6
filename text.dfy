/**
 * The string primitives the drill code relies on: whitespace stripping
 * (Python `str.strip`, JavaScript `String.prototype.trim`), splitting on a
 * one-character separator (`str.split(sep)`, `String.prototype.split(sep)`),
 * joining with a separator (`sep.join(parts)`), and the prefix test
 * (`str.startswith`).
 */
module Text {
  import opened Wrappers

  /**
   * The whitespace characters both `str.strip()` and `trim()` remove: the
   * ASCII tab, line feed, vertical tab, form feed, carriage return and space,
   * the no-break space, the Unicode space separators and the line and
   * paragraph separators.
   */
  predicate IsSpace(c: char) {
    || c == ' ' || c == '\t' || c == '\n' || c == '\r' || c == '\U{B}' || c == '\U{C}'
    || c == '\U{A0}' || c == '\U{1680}' || '\U{2000}' <= c <= '\U{200A}'
    || c == '\U{2028}' || c == '\U{2029}' || c == '\U{202F}' || c == '\U{205F}' || c == '\U{3000}'
  }

  predicate IsBlank(s: string) {
    forall k :: 0 <= k < |s| ==> IsSpace(s[k])
  }

  /** Removes leading whitespace: what is left is a suffix that does not start with whitespace. */
  function TrimStart(s: string): (r: string)
    ensures |r| <= |s| && r == s[|s| - |r|..]
    ensures r == [] || !IsSpace(r[0])
  {
    if |s| > 0 && IsSpace(s[0]) then TrimStart(s[1..]) else s
  }

  /** Removes trailing whitespace: what is left is a prefix that does not end with whitespace. */
  function TrimEnd(s: string): (r: string)
    ensures |r| <= |s| && r == s[..|r|]
    ensures r == [] || !IsSpace(r[|r| - 1])
  {
    if |s| > 0 && IsSpace(s[|s| - 1]) then TrimEnd(s[..|s| - 1]) else s
  }

  /** Only whitespace is trimmed from the start. */
  lemma {:induction false} TrimStartRemovesBlank(s: string)
    ensures IsBlank(s[..|s| - |TrimStart(s)|])
  {
    if |s| > 0 && IsSpace(s[0]) {
      var r := TrimStart(s[1..]);
      TrimStartRemovesBlank(s[1..]);
      assert s[..|s| - |r|] == [s[0]] + s[1..][..|s| - 1 - |r|];
    }
  }

  /** Only whitespace is trimmed from the end. */
  lemma {:induction false} TrimEndRemovesBlank(s: string)
    ensures IsBlank(s[|TrimEnd(s)|..])
  {
    if |s| > 0 && IsSpace(s[|s| - 1]) {
      var t := s[..|s| - 1];
      var r := TrimEnd(t);
      TrimEndRemovesBlank(t);
      assert s[|r|..] == t[|r|..] + [s[|s| - 1]];
    }
  }

  /** `s.strip()` in Python, `s.trim()` in JavaScript: no whitespace is left at either end. */
  function Strip(s: string): (r: string)
    ensures |r| <= |s|
    ensures r == [] || (!IsSpace(r[0]) && !IsSpace(r[|r| - 1]))
  {
    TrimEnd(TrimStart(s))
  }

  /** What stripping removes is whitespace at the two ends, and nothing else. */
  lemma StripRemovesBlankEnds(s: string)
    ensures exists i, j :: 0 <= i <= j <= |s| && Strip(s) == s[i..j] && IsBlank(s[..i]) && IsBlank(s[j..])
  {
    var t := TrimStart(s);
    var r := TrimEnd(t);
    TrimStartRemovesBlank(s);
    TrimEndRemovesBlank(t);
    assert r == s[|s| - |t|..|s| - |t| + |r|];
    assert s[|s| - |t| + |r|..] == t[|r|..];
  }

  /** No whitespace at either end. */
  predicate Unpadded(s: string) {
    s == [] || (!IsSpace(s[0]) && !IsSpace(s[|s| - 1]))
  }

  lemma TrimStartKeeps(s: string)
    requires s != [] && !IsSpace(s[0])
    ensures TrimStart(s) == s
  {
  }

  lemma TrimEndKeeps(s: string)
    requires s != [] && !IsSpace(s[|s| - 1])
    ensures TrimEnd(s) == s
  {
  }

  /** Stripping leaves a text without whitespace at its ends as it is. */
  lemma StripKeepsUnpadded(s: string)
    requires Unpadded(s)
    ensures Strip(s) == s
  {
    if s == [] {
      assert TrimStart(s) == [];
    } else {
      TrimStartKeeps(s);
      TrimEndKeeps(s);
    }
  }

  /** Stripping twice strips nothing more. */
  /** A line end after a text without whitespace at its ends is stripped away. */
  lemma StripDropsLineEnd(s: string)
    requires Unpadded(s)
    ensures Strip(s + "\n") == s
  {
    var t := s + "\n";
    assert t[|t| - 1] == '\n' && t[..|t| - 1] == s;
    if s == [] {
      assert TrimStart(t) == TrimStart(t[1..]);
      assert t[1..] == [];
    } else {
      assert t[0] == s[0];
      TrimStartKeeps(t);
      TrimEndKeeps(s);
    }
  }

  lemma StripIdempotent(s: string)
    ensures Strip(Strip(s)) == Strip(s)
  {
    StripKeepsUnpadded(Strip(s));
  }

  /** A string strips to nothing exactly when it is all whitespace. */
  lemma StripEmptyIffBlank(s: string)
    ensures Strip(s) == [] <==> IsBlank(s)
  {
    if IsBlank(s) {
      BlankTrimsAway(s);
    } else if Strip(s) == [] {
      StrippedAwayIsBlank(s);
    }
  }

  lemma BlankTrimsAway(s: string)
    requires IsBlank(s)
    ensures TrimStart(s) == []
  {
  }

  lemma StrippedAwayIsBlank(s: string)
    requires Strip(s) == []
    ensures IsBlank(s)
  {
    var t := TrimStart(s);
    TrimStartRemovesBlank(s);
    TrimEndRemovesBlank(t);
    assert t[0..] == t;
    assert t == [];
    assert s[..|s|] == s;
  }

  /** `sep.join(parts)`: the parts with one separator between neighbours. */
  function Join<T>(sep: seq<T>, parts: seq<seq<T>>): seq<T>
  {
    if |parts| == 0 then []
    else if |parts| == 1 then parts[0]
    else parts[0] + sep + Join(sep, parts[1..])
  }

  /** The first position of `c` in `s`, if any (`str.index`, `indexOf`). */
  function FirstIndexOf(s: string, c: char): (r: Option<nat>)
    ensures r.None? <==> c !in s
    ensures r.Some? ==> r.value < |s| && s[r.value] == c && c !in s[..r.value]
  {
    if |s| == 0 then None
    else if s[0] == c then Some(0)
    else match FirstIndexOf(s[1..], c)
      case None => None
      case Some(k) =>
        assert s[..k + 1] == [s[0]] + s[1..][..k];
        Some(k + 1)
  }

  /** A position holding `c` with no earlier `c` is what `FirstIndexOf` finds. */
  lemma FirstIndexAt(s: string, c: char, i: nat)
    requires i < |s| && s[i] == c && c !in s[..i]
    ensures FirstIndexOf(s, c) == Some(i)
  {
  }

  /** `s.split(sep)` for a one-character separator: the text before the first separator, then the split of the rest. */
  function Split(s: string, sep: char): (parts: seq<string>)
    ensures |parts| >= 1
    ensures forall k :: 0 <= k < |parts| ==> sep !in parts[k]
    decreases |s|
  {
    match FirstIndexOf(s, sep)
    case None => [s]
    case Some(i) => [s[..i]] + Split(s[i + 1..], sep)
  }

  /** A text splits into one part exactly when it holds no separator. */
  lemma {:induction false} OnePartIffNoSeparator(s: string, sep: char)
    ensures |Split(s, sep)| == 1 <==> sep !in s
  {
    match FirstIndexOf(s, sep)
    case None =>
    case Some(i) =>
      assert |Split(s, sep)| == 1 + |Split(s[i + 1..], sep)|;
  }

  /** The first part starts the text; unless it is all of it, a separator follows, and the other parts split what comes after. */
  lemma FirstPart(s: string, sep: char)
    ensures var first := Split(s, sep)[0];
      && IsPrefix(first, s)
      && (|first| < |s| ==> s[|first|] == sep && Split(s, sep)[1..] == Split(s[|first| + 1..], sep))
      && (|first| < |s| || Split(s, sep) == [s])
  {
    match FirstIndexOf(s, sep)
    case None =>
    case Some(i) =>
  }

  /** The first two parts and the separator between them start the text, and a separator or the end follows them. */
  lemma FirstTwoParts(s: string, sep: char)
    requires |Split(s, sep)| >= 2
    ensures var parts := Split(s, sep); var head := parts[0] + [sep] + parts[1];
      IsPrefix(head, s) && (|head| < |s| ==> s[|head|] == sep)
  {
    var parts := Split(s, sep);
    FirstPart(s, sep);
    var rest := s[|parts[0]| + 1..];
    FirstPart(rest, sep);
    PartsHeadText(s, parts, rest, Split(rest, sep), sep);
  }

  /** The same, stated over the parts alone. */
  lemma PartsHeadText(s: string, parts: seq<string>, rest: string, restParts: seq<string>, sep: char)
    requires |parts| >= 2 && |restParts| >= 1 && parts[1..] == restParts
    requires IsPrefix(parts[0], s) && |parts[0]| < |s| && s[|parts[0]|] == sep && rest == s[|parts[0]| + 1..]
    requires IsPrefix(restParts[0], rest) && (|restParts[0]| < |rest| ==> rest[|restParts[0]|] == sep)
    ensures var head := parts[0] + [sep] + parts[1];
      IsPrefix(head, s) && (|head| < |s| ==> s[|head|] == sep)
  {
    assert parts[1] == restParts[0];
    PartsLeadText(s, parts[0], rest, parts[1], sep);
  }

  lemma PartsLeadText(s: string, first: string, rest: string, second: string, sep: char)
    requires IsPrefix(first, s) && |first| < |s| && s[|first|] == sep && rest == s[|first| + 1..]
    requires IsPrefix(second, rest) && (|second| < |rest| ==> rest[|second|] == sep)
    ensures IsPrefix(first + [sep] + second, s)
    ensures |first + [sep] + second| < |s| ==> s[|first| + 1 + |second|] == sep
  {
    var head := first + [sep] + second;
    forall k | 0 <= k < |head| ensures s[k] == head[k] {
      if k > |first| {
        assert rest[k - |first| - 1] == s[k];
      }
    }
    assert s[..|head|] == head;
  }

  /** Joining the parts with the separator gives the text back. */
  lemma {:induction false} JoinSplit(s: string, sep: char)
    ensures Join([sep], Split(s, sep)) == s
    decreases |s|
  {
    match FirstIndexOf(s, sep)
    case None =>
      assert Split(s, sep) == [s];
    case Some(i) =>
      var rest := Split(s[i + 1..], sep);
      JoinSplit(s[i + 1..], sep);
      assert Split(s, sep) == [s[..i]] + rest;
      JoinCons([sep], s[..i], rest);
      Around(s, i);
  }

  /** A text is what lies before position `i`, the character there, and what follows. */
  lemma Around<T>(s: seq<T>, i: nat)
    requires i < |s|
    ensures s == s[..i] + [s[i]] + s[i + 1..]
  {
    assert s[..i] + [s[i]] == s[..i + 1];
  }

  lemma JoinCons<T>(sep: seq<T>, first: seq<T>, rest: seq<seq<T>>)
    requires |rest| >= 1
    ensures Join(sep, [first] + rest) == first + sep + Join(sep, rest)
  {
    assert ([first] + rest)[1..] == rest;
  }

  /** Splitting a text that has no separator gives the text back alone. */
  lemma SplitNoSeparator(s: string, sep: char)
    requires sep !in s
    ensures Split(s, sep) == [s]
  {
  }

  /** A separator splits the text exactly between its two sides. */
  lemma SplitAtSeparator(a: string, sep: char, b: string)
    requires sep !in a
    ensures Split(a + [sep] + b, sep) == [a] + Split(b, sep)
  {
    var s := a + [sep] + b;
    assert s[..|a|] == a;
    FirstIndexAt(s, sep, |a|);
    assert s[|a| + 1..] == b;
  }

  /** Splitting undoes joining when no part holds the separator. */
  lemma {:induction false} SplitJoin(parts: seq<string>, sep: char)
    requires |parts| >= 1
    requires forall k :: 0 <= k < |parts| ==> sep !in parts[k]
    ensures Split(Join([sep], parts), sep) == parts
  {
    if |parts| == 1 {
      SplitNoSeparator(parts[0], sep);
    } else {
      SplitJoin(parts[1..], sep);
      SplitAtSeparator(parts[0], sep, Join([sep], parts[1..]));
      assert parts == [parts[0]] + parts[1..];
    }
  }

  /** Joining parts that lack a character, with a separator other than it, gives a text without it. */
  lemma {:induction false} JoinAvoids(parts: seq<string>, sep: char, c: char)
    requires c != sep
    requires forall k :: 0 <= k < |parts| ==> c !in parts[k]
    ensures c !in Join([sep], parts)
    decreases |parts|
  {
    if |parts| > 1 {
      JoinAvoids(parts[1..], sep, c);
    }
  }

  /** `s.startswith(p)` in Python. */
  predicate IsPrefix(p: string, s: string) {
    |p| <= |s| && s[..|p|] == p
  }

  /** `path.split('/').pop()`: the text after the last `/`. */
  function LastSegment(path: string): (name: string)
    ensures '/' !in name
    ensures |name| <= |path| && path[|path| - |name|..] == name
    ensures |name| < |path| ==> path[|path| - |name| - 1] == '/'
  {
    var parts := Split(path, '/');
    LastPartIsSuffix(path, '/');
    assert EndsAfter(path, parts[|parts| - 1], '/');
    parts[|parts| - 1]
  }

  /** `last` ends `s`, and is either all of `s` or preceded by `sep`. */
  predicate EndsAfter(s: string, last: string, sep: char) {
    |last| <= |s| && s[|s| - |last|..] == last && (|last| < |s| ==> s[|s| - |last| - 1] == sep)
  }

  /** The last part of a split is the text after the last separator. */
  lemma LastPartIsSuffix(s: string, sep: char)
    ensures var parts := Split(s, sep); EndsAfter(s, parts[|parts| - 1], sep)
  {
    JoinSplit(s, sep);
    LastOfJoin(Split(s, sep), sep);
  }

  lemma LastOfJoin(parts: seq<string>, sep: char)
    requires |parts| >= 1
    ensures EndsAfter(Join([sep], parts), parts[|parts| - 1], sep)
  {
    var last := parts[|parts| - 1];
    if |parts| == 1 {
      assert last[0..] == last;
    } else {
      JoinSnoc([sep], parts);
      EndsAfterSeparator(Join([sep], parts[..|parts| - 1]), sep, last);
    }
  }

  lemma EndsAfterSeparator(init: string, sep: char, last: string)
    ensures EndsAfter(init + [sep] + last, last, sep)
  {
    var s := init + [sep] + last;
    assert s[|s| - |last|..] == last;
    assert s[|s| - |last| - 1] == sep;
  }

  /** The last part of a join of several parts is preceded by the separator. */
  lemma {:induction false} JoinSnoc<T>(sep: seq<T>, parts: seq<seq<T>>)
    requires |parts| >= 2
    ensures Join(sep, parts) == Join(sep, parts[..|parts| - 1]) + sep + parts[|parts| - 1]
    decreases |parts|
  {
    if |parts| > 2 {
      JoinSnoc(sep, parts[1..]);
      assert parts[1..][..|parts| - 2] == parts[..|parts| - 1][1..];
    }
  }
}
