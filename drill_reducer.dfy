/**
 * The web drill's progression state (src/Drill.tsx): a reducer over
 * `RESET`, `SET_TEXT`, `FAIL`, `NEXT` and `PREV`, and the classification of
 * each change of the input box into the action it dispatches.
 */
module DrillReducer {
  import opened Wrappers
  import opened Text
  import opened InputMatch
  import opened DrillFiles

  /** `DrillState`: the input text, the position in the drill, the hint flag and the end flag. */
  datatype DrillState = DrillState(text: string, drillItemIndex: int, fail: bool, isCompleted: bool)

  /** `Action`; `NEXT` and `PREV` carry the length of the drill data. */
  datatype Action = Reset | SetText(text: string) | Fail | Next(length: int) | Prev(length: int)

  /** `initialDrillState`. */
  const InitialDrillState := DrillState("", 0, false, false)

  function Min(a: int, b: int): int { if a <= b then a else b }
  function Max(a: int, b: int): int { if a <= b then b else a }

  /**
   * `reduceDrillState`: every action but `SET_TEXT` and `FAIL` clears the
   * text and the hint, only `NEXT` can newly complete the drill, no action
   * but `RESET` moves past the item after the current one (or the first),
   * and `PREV` moves back
   * by at most one and never completes.
   */
  function ReduceDrillState(state: DrillState, action: Action): (s: DrillState)
    ensures !(action.SetText? || action.Fail?) ==> s.text == "" && !s.fail
    ensures s.isCompleted ==> action.Next? || ((action.SetText? || action.Fail?) && state.isCompleted)
    ensures !action.Reset? ==> s.drillItemIndex <= Max(0, state.drillItemIndex + 1)
    ensures action.Prev? ==> !s.isCompleted && s.drillItemIndex >= state.drillItemIndex - 1
  {
    match action
    case Reset => InitialDrillState
    case SetText(t) => state.(text := t)
    case Fail => state.(fail := true)
    case Next(length) =>
      DrillState("", Min(length - 1, state.drillItemIndex + 1), false, state.drillItemIndex + 1 >= length)
    case Prev(_) =>
      if state.isCompleted then DrillState("", state.drillItemIndex, false, false)
      else DrillState("", Max(0, state.drillItemIndex - 1), false, false)
  }

  /** The actions applied one after another, as React's `useReducer` does. */
  function ReduceAll(state: DrillState, actions: seq<Action>): DrillState
    decreases |actions|
  {
    if |actions| == 0 then state else ReduceAll(ReduceDrillState(state, actions[0]), actions[1..])
  }

  /** The state is a position inside a drill of `n` items, completed only at the last one. */
  predicate InDrill(state: DrillState, n: int) {
    0 <= state.drillItemIndex < n && (state.isCompleted ==> state.drillItemIndex == n - 1)
  }

  /** The component always passes the drill's own length with `NEXT` and `PREV`. */
  predicate ForLength(action: Action, n: int) {
    (action.Next? ==> action.length == n) && (action.Prev? ==> action.length == n)
  }

  /** `RESET` returns the initial state whatever the state was. */
  lemma ResetIsInitial(state: DrillState)
    ensures ReduceDrillState(state, Reset) == DrillState("", 0, false, false)
  {
  }

  /** `SET_TEXT` changes only the text and `FAIL` changes only the hint flag. */
  lemma SetTextAndFailAreLocal(state: DrillState, t: string)
    ensures var s := ReduceDrillState(state, SetText(t));
      s.text == t && s.drillItemIndex == state.drillItemIndex && s.fail == state.fail && s.isCompleted == state.isCompleted
    ensures var s := ReduceDrillState(state, Fail);
      s.fail && s.text == state.text && s.drillItemIndex == state.drillItemIndex && s.isCompleted == state.isCompleted
  {
  }

  /**
   * `NEXT` clears text and hint, moves one item forward unless at the last
   * item, and completes the drill exactly when it was at the last item.
   */
  lemma NextAdvancesOrCompletes(state: DrillState, n: int)
    requires InDrill(state, n)
    ensures var s := ReduceDrillState(state, Next(n));
      && s.text == "" && !s.fail
      && s.isCompleted == (state.drillItemIndex == n - 1)
      && s.drillItemIndex == (if state.drillItemIndex < n - 1 then state.drillItemIndex + 1 else n - 1)
  {
  }

  /** `NEXT` at the last item changes nothing but text and hint: the drill stays completed there. */
  lemma NextAtLastIsIdempotent(state: DrillState, n: int)
    requires n >= 1 && state.drillItemIndex == n - 1
    ensures ReduceDrillState(state, Next(n)) == DrillState("", n - 1, false, true)
    ensures ReduceDrillState(ReduceDrillState(state, Next(n)), Next(n)) == ReduceDrillState(state, Next(n))
  {
  }

  /**
   * `PREV` leaves a completed drill at its last item and otherwise moves one
   * item back, stopping at the first; it always clears text, hint and completion.
   */
  lemma PrevStepsBack(state: DrillState, n: int)
    requires InDrill(state, n)
    ensures var s := ReduceDrillState(state, Prev(n));
      && s.text == "" && !s.fail && !s.isCompleted
      && s.drillItemIndex == (if state.isCompleted then n - 1
                              else if state.drillItemIndex > 0 then state.drillItemIndex - 1 else 0)
  {
  }

  /** Every action keeps the position inside the drill. */
  lemma ReducePreservesInDrill(state: DrillState, action: Action, n: int)
    requires n >= 1 && InDrill(state, n) && ForLength(action, n)
    ensures InDrill(ReduceDrillState(state, action), n)
  {
  }

  /** From the initial state, any run of actions keeps the position within `[0, n - 1]`. */
  lemma {:induction false} ReduceAllStaysInDrill(state: DrillState, actions: seq<Action>, n: int)
    requires n >= 1 && InDrill(state, n)
    requires forall k :: 0 <= k < |actions| ==> ForLength(actions[k], n)
    ensures InDrill(ReduceAll(state, actions), n)
    ensures 0 <= ReduceAll(state, actions).drillItemIndex <= n - 1
    decreases |actions|
  {
    if |actions| > 0 {
      ReducePreservesInDrill(state, actions[0], n);
      ReduceAllStaysInDrill(ReduceDrillState(state, actions[0]), actions[1..], n);
    }
  }

  /** The run starting from `initialDrillState` stays inside any non-empty drill. */
  lemma RunFromInitialStaysInDrill(actions: seq<Action>, n: int)
    requires n >= 1
    requires forall k :: 0 <= k < |actions| ==> ForLength(actions[k], n)
    ensures InDrill(ReduceAll(InitialDrillState, actions), n)
  {
    ReduceAllStaysInDrill(InitialDrillState, actions, n);
  }

  /**
   * `MatchWord`: the system's judgement of input against the expected word;
   * a matcher that throws is an `Err`.
   */
  type MatchWord = (string, string) -> Result<bool, Exception>

  /** The Mejiro matcher, which never throws. */
  function PrefixMatcher(expected: string, userInput: string): (r: Result<bool, Exception>)
    ensures r.Ok? && (r.value <==> IsPrefix(userInput, expected))
  {
    Ok(PrefixMatchWord(expected, userInput))
  }

  /**
   * What `onChangeDebounced` does with the text: the action it dispatches,
   * if any, or the exception the matcher throws out of it.
   */
  function InputAction(expected: string, text: string, length: int, matchWord: MatchWord): (a: Result<Option<Action>, Exception>)
    ensures a == Ok(Some(Next(length))) <==> Strip(text) == expected
    ensures a == Ok(Some(Fail)) <==> Strip(text) != expected && matchWord(expected, Strip(text)) == Ok(false)
    ensures a == Ok(None) <==> Strip(text) != expected && matchWord(expected, Strip(text)) == Ok(true)
    ensures a.Err? <==> Strip(text) != expected && matchWord(expected, Strip(text)).Err?
  {
    var t := Strip(text);
    if t == expected then Ok(Some(Next(length)))
    else match matchWord(expected, t)
      case Ok(accepted) => if accepted then Ok(None) else Ok(Some(Fail))
      case Err(e) => Err(e)
  }

  /** What `SET_TEXT` leaves for the debounced action: `NEXT` discards the text, `FAIL` keeps it. */
  lemma TypedThenReduced(state: DrillState, text: string, n: int)
    ensures ReduceDrillState(ReduceDrillState(state, SetText(text)), Next(n)) == ReduceDrillState(state, Next(n))
    ensures ReduceDrillState(ReduceDrillState(state, SetText(text)), Fail) == state.(text := text, fail := true)
    ensures ReduceDrillState(state, SetText(text)) == state.(text := text)
  {
  }

  /** The item on screen: `drillData[drillDataIndex[state.drillItemIndex]]`. */
  function CurrentItem<T>(drillData: seq<T>, drillDataIndex: seq<nat>, state: DrillState): (item: T)
    requires 0 <= state.drillItemIndex < |drillDataIndex|
    requires forall k :: 0 <= k < |drillDataIndex| ==> drillDataIndex[k] < |drillData|
    ensures item in drillData
  {
    drillData[drillDataIndex[state.drillItemIndex]]
  }

  /** `expected`: the word of the item on screen, trimmed. */
  function Expected(drillData: seq<DrillItem>, drillDataIndex: seq<nat>, state: DrillState): (w: string)
    requires 0 <= state.drillItemIndex < |drillDataIndex|
    requires forall k :: 0 <= k < |drillDataIndex| ==> drillDataIndex[k] < |drillData|
    ensures Unpadded(w)
  {
    var item := CurrentItem(drillData, drillDataIndex, state);
    Strip(item.word)
  }

  /**
   * `onChange`: `SET_TEXT` with the raw text, then what the debounced handler
   * does with it for the item on screen (the delay is not modelled). A
   * completed word advances as `NEXT` with the drill's length would, a
   * rejected one raises the hint, and any other input, or a matcher that
   * throws, only changes the text.
   */
  function OnChange(state: DrillState, drillData: seq<DrillItem>, drillDataIndex: seq<nat>, text: string, matchWord: MatchWord): (s: DrillState)
    requires 0 <= state.drillItemIndex < |drillDataIndex|
    requires forall k :: 0 <= k < |drillDataIndex| ==> drillDataIndex[k] < |drillData|
    ensures var expected := Expected(drillData, drillDataIndex, state);
      && (Strip(text) == expected ==> s == ReduceDrillState(state, Next(|drillData|)))
      && (Strip(text) != expected && matchWord(expected, Strip(text)) == Ok(false) ==> s == state.(text := text, fail := true))
      && (Strip(text) != expected && matchWord(expected, Strip(text)) != Ok(false) ==> s == state.(text := text))
  {
    var typed := ReduceDrillState(state, SetText(text));
    var expected := Expected(drillData, drillDataIndex, state);
    var action := InputAction(expected, text, |drillData|, matchWord);
    TypedThenReduced(state, text, |drillData|);
    if action == Ok(Some(Next(|drillData|))) then ReduceDrillState(typed, Next(|drillData|))
    else if action == Ok(Some(Fail)) then ReduceDrillState(typed, Fail)
    else typed
  }

  /**
   * With the Mejiro prefix matcher the web drill classifies input as the
   * terminal drill does: it advances on `Complete`, raises the hint on
   * `Wrong` and only records the text on `Wip`.
   */
  lemma PrefixDrillAgreesWithLessonMatch(state: DrillState, drillData: seq<DrillItem>, drillDataIndex: seq<nat>, text: string)
    requires 0 <= state.drillItemIndex < |drillDataIndex|
    requires forall k :: 0 <= k < |drillDataIndex| ==> drillDataIndex[k] < |drillData|
    ensures var s := OnChange(state, drillData, drillDataIndex, text, PrefixMatcher);
      match MatchLessonInput(Expected(drillData, drillDataIndex, state), Strip(text))
      case Complete => s == ReduceDrillState(state, Next(|drillData|))
      case Wrong => s == state.(text := text, fail := true)
      case Wip => s == state.(text := text)
  {
    var expected := Expected(drillData, drillDataIndex, state);
    var m := PrefixMatcher(expected, Strip(text));
    assert m == Ok(false) <==> MatchLessonInput(expected, Strip(text)) == Wrong;
  }

  /**
   * With the Lapwing table matcher, an item whose word is an inherited
   * `Object.prototype` name missing from the table is never failed: unless
   * the word itself is typed, the matcher throws before `FAIL` is dispatched
   * and only the text changes.
   */
  lemma InheritedNameNeverFails(state: DrillState, drillData: seq<DrillItem>, drillDataIndex: seq<nat>, text: string, table: map<string, seq<string>>)
    requires 0 <= state.drillItemIndex < |drillDataIndex|
    requires forall k :: 0 <= k < |drillDataIndex| ==> drillDataIndex[k] < |drillData|
    requires var expected := Expected(drillData, drillDataIndex, state);
      expected !in table && expected in ObjectPrototypeNames
    ensures Strip(text) != Expected(drillData, drillDataIndex, state) ==>
      OnChange(state, drillData, drillDataIndex, text, (e, u) => TableMatchWord(table, e, u)) == state.(text := text)
  {
    InheritedNameThrows(table, Expected(drillData, drillDataIndex, state), Strip(text));
  }
}
