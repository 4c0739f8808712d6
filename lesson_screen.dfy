/**
 * The terminal drill's lesson screen (`LessonScreen` in main.py): the
 * lesson's entries, the order they are presented in (shuffled or not), the
 * position reached, whether the stroke hint is shown, the five hint rows and
 * the input line. Typing is judged against the current word; a complete
 * word advances, a wrong input turns the hint on until the next advance.
 */
module LessonScreens {
  import opened Wrappers
  import opened StenoTypes
  import opened Text
  import opened BankLayout
  import opened DrillOrder
  import opened InputMatch
  import opened LessonFile
  import opened Outlines

  /** Every position is one of the `n` entries. */
  predicate InRange(order: seq<nat>, n: nat) {
    forall k :: 0 <= k < |order| ==> order[k] < n
  }

  /** The entries in presentation order: entry `order[i]` is the `i`-th one asked for. */
  function Targets(data: seq<LessonEntry>, order: seq<nat>): (r: seq<LessonEntry>)
    requires InRange(order, |data|)
    ensures |r| == |order|
    ensures forall i :: 0 <= i < |order| ==> r[i] == data[order[i]]
  {
    if |order| == 0 then [] else [data[order[0]]] + Targets(data, order[1..])
  }

  lemma {:induction false} TargetsConcat(data: seq<LessonEntry>, a: seq<nat>, b: seq<nat>)
    requires InRange(a, |data|)
    requires InRange(b, |data|)
    ensures Targets(data, a + b) == Targets(data, a) + Targets(data, b)
  {
    var ab := a + b;
    assert forall i :: 0 <= i < |ab| ==> ab[i] < |data| by {
      forall i | 0 <= i < |ab| ensures ab[i] < |data| {
        if i >= |a| { assert ab[i] == b[i - |a|]; }
      }
    }
    var l := Targets(data, ab);
    var r := Targets(data, a) + Targets(data, b);
    assert |l| == |r|;
    forall i | 0 <= i < |l| ensures l[i] == r[i] {
      if i >= |a| { assert ab[i] == b[i - |a|]; }
    }
  }

  /** Presenting the same positions in another order presents the same entries in another order. */
  lemma {:induction false} TargetsPermute(data: seq<LessonEntry>, p: seq<nat>, q: seq<nat>)
    requires InRange(p, |data|)
    requires InRange(q, |data|)
    requires multiset(p) == multiset(q)
    ensures multiset(Targets(data, p)) == multiset(Targets(data, q))
    decreases |p|
  {
    if |p| > 0 {
      var j := PositionOf(p, q);
      var rest := q[..j] + q[j + 1..];
      PermuteTail(p, q, j);
      TargetsWithoutOne(data, q, j);
      TargetsPermute(data, p[1..], rest);
      TargetsFirst(data, p);
    }
  }

  /** Where the first position of `p` is in a rearrangement `q` of it. */
  lemma PositionOf(p: seq<nat>, q: seq<nat>) returns (j: nat)
    requires multiset(p) == multiset(q) && |p| > 0
    ensures j < |q| && q[j] == p[0]
  {
    assert p[0] in multiset(p);
    j :| 0 <= j < |q| && q[j] == p[0];
  }

  lemma TargetsFirst(data: seq<LessonEntry>, p: seq<nat>)
    requires InRange(p, |data|) && |p| > 0
    ensures InRange(p[1..], |data|)
    ensures multiset(Targets(data, p)) == multiset(Targets(data, p[1..])) + multiset{data[p[0]]}
  {
    assert forall k :: 0 <= k < |p| - 1 ==> p[1..][k] == p[k + 1];
  }

  lemma PermuteTail(p: seq<nat>, q: seq<nat>, j: nat)
    requires multiset(p) == multiset(q) && |p| > 0 && j < |q| && q[j] == p[0]
    ensures multiset(p[1..]) == multiset(q[..j] + q[j + 1..])
  {
    WithoutOne(q, j);
    assert p == [p[0]] + p[1..];
    assert multiset(p) == multiset{p[0]} + multiset(p[1..]);
    var a, b := multiset(p[1..]), multiset(q[..j] + q[j + 1..]);
    forall y ensures a[y] == b[y] {
      assert multiset(p)[y] == a[y] + multiset{p[0]}[y];
      assert multiset(q)[y] == b[y] + multiset{p[0]}[y];
    }
    assert a == b;
  }

  /** Taking out the position at `j` takes one occurrence of it out of the multiset and keeps the rest in range. */
  lemma WithoutOne(q: seq<nat>, j: nat)
    requires j < |q|
    ensures multiset(q) == multiset(q[..j] + q[j + 1..]) + multiset{q[j]}
  {
    Around(q, j);
  }

  /** Taking out the position at `j` takes its entry out of the presented entries. */
  lemma TargetsWithoutOne(data: seq<LessonEntry>, q: seq<nat>, j: nat)
    requires InRange(q, |data|)
    requires j < |q|
    ensures InRange(q[..j] + q[j + 1..], |data|)
    ensures multiset(Targets(data, q)) == multiset(Targets(data, q[..j] + q[j + 1..])) + multiset{data[q[j]]}
  {
    var q1, q2 := q[..j], q[j + 1..];
    Around(q, j);
    InRangeParts(q1, [q[j]], q2, |data|);
    TargetsAround(data, q1, q[j], q2);
  }

  lemma InRangeParts(a: seq<nat>, b: seq<nat>, c: seq<nat>, n: nat)
    requires InRange(a + b + c, n)
    ensures InRange(a, n) && InRange(b, n) && InRange(c, n) && InRange(a + c, n)
  {
    var abc := a + b + c;
    assert forall k :: 0 <= k < |a| ==> a[k] == abc[k];
    assert forall k :: 0 <= k < |b| ==> b[k] == abc[|a| + k];
    assert forall k :: 0 <= k < |c| ==> c[k] == abc[|a| + |b| + k];
    var ac := a + c;
    assert forall k :: |a| <= k < |ac| ==> ac[k] == c[k - |a|];
  }

  lemma TargetsAround(data: seq<LessonEntry>, a: seq<nat>, x: nat, c: seq<nat>)
    requires InRange(a, |data|) && x < |data| && InRange(c, |data|) && InRange(a + c, |data|)
    ensures InRange(a + [x] + c, |data|)
    ensures multiset(Targets(data, a + [x] + c)) == multiset(Targets(data, a + c)) + multiset{data[x]}
  {
    TargetsConcat(data, a, c);
    TargetsConcat(data, a, [x]);
    TargetsConcat(data, a + [x], c);
  }

  /** Presenting the positions in file order presents the lesson as it is. */
  lemma {:induction false} TargetsOfRange(data: seq<LessonEntry>, n: nat)
    requires n <= |data|
    ensures Targets(data, Range(n)) == data[..n]
  {
    if n > 0 {
      TargetsOfRange(data, n - 1);
      TargetsConcat(data, Range(n - 1), [n - 1]);
      assert data[..n] == data[..n - 1] + [data[n - 1]];
    }
  }

  /** In any presentation order the lesson's entries are each asked for as often as they occur in it. */
  lemma PresentationCoversLesson(data: seq<LessonEntry>, order: seq<nat>)
    requires IsOrderOf(order, |data|)
    ensures InRange(order, |data|)
    ensures multiset(Targets(data, order)) == multiset(data)
  {
    OrderVisitsEachOnce(order, |data|);
    TargetsOfRange(data, |data|);
    assert data[..|data|] == data;
    TargetsPermute(data, order, Range(|data|));
  }

  /** The hint area's initial and cleared content: five empty rows. */
  const EmptyHint: seq<Row> := [[], [], [], [], []]

  class LessonScreen {
    /** `lesson.data`. */
    var data: seq<LessonEntry>
    var shuffle: bool
    var lessonDataIndices: array<nat>
    var currentIndex: nat
    var showHint: bool
    /** The rows of the `StrokeHint` widget. */
    var hintRows: seq<Row>
    /** The value of the `#input_prompt` input. */
    var inputValue: string

    ghost predicate Valid()
      reads this, lessonDataIndices
    {
      && lessonDataIndices.Length == |data|
      && IsOrderOf(lessonDataIndices[..], |data|)
      && InRange(lessonDataIndices[..], |data|)
      && |hintRows| == 5
    }

    /**
     * `__init__`: the positions in file order, shuffled in place when
     * `shuffle` is set; nothing done yet and the hint off and empty.
     */
    constructor(lesson: seq<LessonEntry>, shuffle: bool, rand: nat -> nat)
      ensures Valid() && fresh(lessonDataIndices)
      ensures data == lesson && this.shuffle == shuffle
      ensures !shuffle ==> lessonDataIndices[..] == Range(|lesson|)
      ensures currentIndex == 0 && !showHint && hintRows == EmptyHint && inputValue == ""
    {
      var indices := new nat[|lesson|](i => i);
      assert indices[..] == Range(|lesson|);
      if shuffle {
        Shuffle(indices, rand);
      }
      OrderVisitsEachOnce(indices[..], |lesson|);
      data := lesson;
      this.shuffle := shuffle;
      lessonDataIndices := indices;
      currentIndex := 0;
      showHint := false;
      hintRows := EmptyHint;
      inputValue := "";
    }

    /** `current_target`: the entry at the position reached in presentation order, none once the lesson is done. */
    function CurrentTarget(): (r: Option<LessonEntry>)
      reads this, lessonDataIndices
      requires Valid()
      ensures r.Some? <==> currentIndex < |data|
      ensures r.Some? ==> r.value == Targets(data, lessonDataIndices[..])[currentIndex] && r.value in data
    {
      if currentIndex < |data| then Some(data[lessonDataIndices[currentIndex]]) else None
    }

    /** `goto_next_lesson_data`: one position on, the hint off and cleared, the input emptied. */
    method GotoNextLessonData()
      requires Valid()
      modifies this
      ensures Valid()
      ensures currentIndex == old(currentIndex) + 1
      ensures !showHint && hintRows == EmptyHint && inputValue == ""
      ensures data == old(data) && shuffle == old(shuffle) && lessonDataIndices == old(lessonDataIndices)
    {
      showHint := false;
      currentIndex := currentIndex + 1;
      hintRows := EmptyHint;
      inputValue := "";
    }

    /** The hint rows of `on_input_changed`: the outline drawn, shifted, in the five rows. */
    method ShowOutlineHint(keysOf: StrokeText -> seq<Key>, outline: Outline)
      requires Valid()
      modifies this
      ensures Valid()
      ensures IsHint(hintRows, ShowColoredOutline(keysOf, outline))
      ensures data == old(data) && shuffle == old(shuffle) && lessonDataIndices == old(lessonDataIndices)
      ensures currentIndex == old(currentIndex) && showHint == old(showHint) && inputValue == old(inputValue)
    {
      var outlineRows := ShowColoredOutline(keysOf, outline);
      var rows := FillHintRows(outlineRows);
      hintRows := rows;
    }

    /**
     * `on_input_changed`: the input is stripped and judged against the
     * current word. A complete word advances; a wrong input turns the hint
     * on; an input still on the way leaves the hint as it was. While the hint
     * is on, the hint rows show the current outline. Once the lesson is
     * done, nothing changes.
     */
    method OnInputChanged(value: string, keysOf: StrokeText -> seq<Key>)
      requires Valid()
      modifies this
      ensures Valid()
      ensures data == old(data) && shuffle == old(shuffle) && lessonDataIndices == old(lessonDataIndices)
      ensures old(CurrentTarget()).None? ==>
        currentIndex == old(currentIndex) && showHint == old(showHint) && hintRows == old(hintRows) && inputValue == value
      ensures old(CurrentTarget()).Some? ==> match MatchLessonInput(old(CurrentTarget()).value.word, Strip(value))
        case Complete =>
          currentIndex == old(currentIndex) + 1 && currentIndex <= |data| &&
          !showHint && hintRows == EmptyHint && inputValue == ""
        case Wip =>
          currentIndex == old(currentIndex) && showHint == old(showHint) && inputValue == value &&
          (showHint ==> IsHint(hintRows, ShowColoredOutline(keysOf, old(CurrentTarget()).value.outline))) &&
          (!showHint ==> hintRows == old(hintRows))
        case Wrong =>
          currentIndex == old(currentIndex) && showHint && inputValue == value &&
          IsHint(hintRows, ShowColoredOutline(keysOf, old(CurrentTarget()).value.outline))
    {
      inputValue := value;
      var target := CurrentTarget();
      if target.None? {
        return;
      }
      var expected, outline := target.value.word, target.value.outline;
      var user := Strip(value);
      var m := MatchLessonInput(expected, user);
      if m == Complete {
        GotoNextLessonData();
        return;
      } else if m == Wrong {
        showHint := true;
      }
      if showHint {
        ShowOutlineHint(keysOf, outline);
      }
    }
  }
}
