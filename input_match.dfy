/**
 * How typed input is judged against the expected word: the three-way
 * classification of the terminal drill (main.py), the prefix test of the
 * Mejiro web drill and the prefix-translation table lookup of the Lapwing
 * web drill.
 */
module InputMatch {
  import opened Wrappers
  import opened Text

  /** Python's `str.startswith`, compared character by character. */
  function StartsWith(s: string, prefix: string): (r: bool)
    ensures r <==> IsPrefix(prefix, s)
  {
    if |prefix| == 0 then true
    else if |s| == 0 then false
    else s[0] == prefix[0] && StartsWith(s[1..], prefix[1..])
  }

  /** `LessonMatch` of main.py. */
  datatype LessonMatch = Complete | Wip | Wrong

  /** `match_lesson_input`: every input falls in exactly one of the three classes. */
  function MatchLessonInput(expected: string, user: string): (m: LessonMatch)
    ensures m == Complete <==> user == expected
    ensures m == Wip <==> user != expected && IsPrefix(user, expected)
    ensures m == Wrong <==> !IsPrefix(user, expected)
  {
    if expected == user then Complete
    else if StartsWith(expected, user) then Wip
    else Wrong
  }

  /** Input is wrong exactly when it overruns the word or disagrees with it at some position. */
  lemma WrongIffMismatchAt(expected: string, user: string)
    ensures MatchLessonInput(expected, user) == Wrong <==>
      |user| > |expected| || exists k :: 0 <= k < |user| && user[k] != expected[k]
  {
    if !IsPrefix(user, expected) && |user| <= |expected| {
      var k :| 0 <= k < |user| && expected[..|user|][k] != user[k];
      assert user[k] != expected[k];
    } else if IsPrefix(user, expected) {
      forall k | 0 <= k < |user| ensures user[k] == expected[k] {
        assert expected[..|user|][k] == expected[k];
      }
    }
  }

  /** Empty input is never wrong: it is complete for the empty word and in progress otherwise. */
  lemma EmptyInputNeverWrong(expected: string)
    ensures MatchLessonInput(expected, "") == (if expected == "" then Complete else Wip)
  {
  }

  /** JavaScript's `s.substring(start, end)`: both ends clamped to the string, swapped when reversed. */
  function JsSubstring(s: string, start: int, end: int): (r: string)
    ensures 0 <= start <= end <= |s| ==> r == s[start..end]
    ensures 0 <= end <= start <= |s| ==> r == s[end..start]
    ensures start <= 0 && 0 <= end <= |s| ==> r == s[..end]
    ensures 0 <= start <= |s| && |s| <= end ==> r == s[start..]
    ensures (start <= 0 && end <= 0) || (start >= |s| && end >= |s|) ==> r == ""
    ensures |r| <= |s|
  {
    var a := if start < 0 then 0 else if start > |s| then |s| else start;
    var b := if end < 0 then 0 else if end > |s| then |s| else end;
    if a <= b then s[a..b] else s[b..a]
  }

  /** The Mejiro `matchWord`: `expected.substring(0, userInput.length) === userInput`. */
  function PrefixMatchWord(expected: string, userInput: string): (r: bool)
    ensures r <==> IsPrefix(userInput, expected)
  {
    JsSubstring(expected, 0, |userInput|) == userInput
  }

  /** The prefix matcher accepts the empty input and the whole word, and rejects anything longer. */
  lemma PrefixMatchBoundaries(expected: string, userInput: string)
    ensures PrefixMatchWord(expected, "")
    ensures PrefixMatchWord(expected, expected)
    ensures |userInput| > |expected| ==> !PrefixMatchWord(expected, userInput)
  {
  }

  /** Changing one character of an accepted input inside the word makes it rejected. */
  lemma PrefixMatchRejectsChangedChar(expected: string, userInput: string, k: nat, c: char)
    requires PrefixMatchWord(expected, userInput)
    requires k < |userInput| && c != userInput[k]
    ensures !PrefixMatchWord(expected, userInput[k := c])
  {
    assert expected[..|userInput|][k] == userInput[k];
  }

  /** `prefixes.some((p) => p === userInput)`. */
  function SomeEqual(prefixes: seq<string>, userInput: string): (r: bool)
    ensures r <==> userInput in prefixes
  {
    if |prefixes| == 0 then false
    else prefixes[0] == userInput || SomeEqual(prefixes[1..], userInput)
  }

  /**
   * The names every JavaScript object inherits from `Object.prototype`. A
   * plain-object lookup `map[name]` of one of them that is not an own key
   * finds a function (for `__proto__`, the prototype object), not `undefined`.
   */
  const ObjectPrototypeNames: set<string> := {
    "constructor", "hasOwnProperty", "isPrototypeOf", "propertyIsEnumerable",
    "toLocaleString", "toString", "valueOf", "__proto__",
    "__defineGetter__", "__defineSetter__", "__lookupGetter__", "__lookupSetter__"
  }

  /**
   * The Lapwing `matchWord` over the generated table from each word to the
   * translations of its outline prefixes. An unregistered word matches
   * nothing, except that an inherited `Object.prototype` name passes the
   * `undefined` test and then has no `some` to call: a `TypeError`.
   */
  function TableMatchWord(table: map<string, seq<string>>, expected: string, userInput: string): (r: Result<bool, Exception>)
    ensures r == Ok(true) <==> expected in table && userInput in table[expected]
    ensures r.Err? <==> expected !in table && expected in ObjectPrototypeNames
    ensures r.Err? ==> r.error == TypeError
  {
    if expected in table then Ok(SomeEqual(table[expected], userInput))
    else if expected in ObjectPrototypeNames then Err(TypeError)
    else Ok(false)
  }

  /** An unregistered ordinary word, or a registered one with no translations, is rejected without an error. */
  lemma TableMatchNeedsEntries(table: map<string, seq<string>>, expected: string, userInput: string)
    requires (expected !in table && expected !in ObjectPrototypeNames) || (expected in table && table[expected] == [])
    ensures TableMatchWord(table, expected, userInput) == Ok(false)
  {
  }

  /** An unregistered word that names an inherited member throws, whatever was typed. */
  lemma InheritedNameThrows(table: map<string, seq<string>>, expected: string, userInput: string)
    requires expected !in table && expected in ObjectPrototypeNames
    ensures TableMatchWord(table, expected, userInput) == Err(TypeError)
  {
  }

  /** The table lookup is whole-string equality: a proper prefix of a listed entry is not accepted unless listed itself. */
  lemma TableMatchIsExact(table: map<string, seq<string>>, expected: string, entry: string, userInput: string)
    requires expected in table && entry in table[expected]
    requires IsPrefix(userInput, entry) && userInput != entry && userInput !in table[expected]
    ensures TableMatchWord(table, expected, entry) == Ok(true)
    ensures TableMatchWord(table, expected, userInput) == Ok(false)
  {
  }
}
