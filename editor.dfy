/**
 * The SQL editor component: the query text, and a popup of eight fixed
 * suggestions opened with Ctrl+Space, navigated with the arrow keys, applied
 * with Enter or Tab and closed with Escape.
 */
module Editor {

  import opened Options

  const Suggestions := ["SELECT * FROM", "WHERE", "GROUP BY", "ORDER BY", "INNER JOIN", "LEFT JOIN", "HAVING", "LIMIT"]

  /** The text the editor starts with when it is given no initial query. */
  const DefaultInitialQuery := "SELECT * FROM customers\nWHERE created_at > NOW() - INTERVAL '30 days'"

  /** The parts of a keyboard event the handler looks at. */
  datatype KeyEvent = KeyEvent(key: string, ctrlKey: bool)

  /** The component state the key handler reads and writes. */
  datatype EditorState = EditorState(query: string, showSuggestions: bool, activeSuggestion: int)

  /** The new state after a key, and whether the handler called `preventDefault`. */
  datatype KeyOutcome = KeyOutcome(state: EditorState, defaultPrevented: bool)

  /** activeSuggestion indexes the suggestion list. */
  predicate InRange(s: EditorState) {
    0 <= s.activeSuggestion < |Suggestions|
  }

  predicate IsCtrlSpace(e: KeyEvent) {
    e.key == " " && e.ctrlKey
  }

  /** `applySuggestion`: a space and the suggestion appended, the popup closed. */
  function Apply(s: EditorState, suggestion: string): EditorState {
    s.(query := s.query + " " + suggestion, showSuggestions := false)
  }

  /** `handleKeyDown`, one event at a time. */
  function KeyStep(s: EditorState, e: KeyEvent): KeyOutcome
    requires InRange(s)
  {
    if IsCtrlSpace(e) then
      KeyOutcome(s.(showSuggestions := true), true)
    else if !s.showSuggestions then
      KeyOutcome(s, false)
    else if e.key == "ArrowDown" then
      KeyOutcome(s.(activeSuggestion := if s.activeSuggestion < |Suggestions| - 1 then s.activeSuggestion + 1 else s.activeSuggestion), true)
    else if e.key == "ArrowUp" then
      KeyOutcome(s.(activeSuggestion := if s.activeSuggestion > 0 then s.activeSuggestion - 1 else 0), true)
    else if e.key == "Enter" || e.key == "Tab" then
      KeyOutcome(Apply(s, Suggestions[s.activeSuggestion]), true)
    else if e.key == "Escape" then
      KeyOutcome(s.(showSuggestions := false), true)
    else
      KeyOutcome(s, false)
  }

  /** The index stays within the eight suggestions. */
  lemma KeyStepInRange(s: EditorState, e: KeyEvent)
    requires InRange(s)
    ensures InRange(KeyStep(s, e).state)
  {
  }

  /** ArrowDown moves one down except at the last suggestion, ArrowUp one up
      except at the first, and both keep the popup open, the query
      unchanged and the browser default suppressed. */
  lemma ArrowsClamp(s: EditorState, e: KeyEvent)
    requires InRange(s) && s.showSuggestions && !IsCtrlSpace(e)
    ensures e.key == "ArrowDown" ==> KeyStep(s, e) == KeyOutcome(s.(activeSuggestion :=
      if s.activeSuggestion == |Suggestions| - 1 then s.activeSuggestion else s.activeSuggestion + 1), true)
    ensures e.key == "ArrowUp" ==> KeyStep(s, e) == KeyOutcome(s.(activeSuggestion :=
      if s.activeSuggestion == 0 then 0 else s.activeSuggestion - 1), true)
  {
  }

  /** Ctrl+Space opens the popup and nothing else: the index is not reset. */
  lemma CtrlSpaceOnlyOpens(s: EditorState, e: KeyEvent)
    requires InRange(s) && IsCtrlSpace(e)
    ensures KeyStep(s, e).state == EditorState(s.query, true, s.activeSuggestion)
    ensures KeyStep(s, e).defaultPrevented
  {
  }

  /** While the popup is closed, every key but Ctrl+Space changes nothing and
      keeps its default action (a typed Enter still reaches the text). */
  lemma ClosedIgnoresKeys(s: EditorState, e: KeyEvent)
    requires InRange(s) && !s.showSuggestions && !IsCtrlSpace(e)
    ensures KeyStep(s, e) == KeyOutcome(s, false)
  {
  }

  /** Enter or Tab on an open popup appends a space and the selected
      suggestion, closes the popup and keeps the index. */
  lemma EnterOrTabApplies(s: EditorState, e: KeyEvent)
    requires InRange(s) && s.showSuggestions && !IsCtrlSpace(e) && (e.key == "Enter" || e.key == "Tab")
    ensures KeyStep(s, e).state.query == s.query + " " + Suggestions[s.activeSuggestion]
    ensures !KeyStep(s, e).state.showSuggestions
    ensures KeyStep(s, e).state.activeSuggestion == s.activeSuggestion
  {
  }

  /** Escape on an open popup closes it and leaves query and index alone. */
  lemma EscapeOnlyCloses(s: EditorState, e: KeyEvent)
    requires InRange(s) && s.showSuggestions && !IsCtrlSpace(e) && e.key == "Escape"
    ensures KeyStep(s, e) == KeyOutcome(EditorState(s.query, false, s.activeSuggestion), true)
  {
  }

  /** The state after a sequence of key events. */
  function KeysStep(s: EditorState, events: seq<KeyEvent>): EditorState
    requires InRange(s)
    ensures InRange(KeysStep(s, events))
    decreases |events|
  {
    if events == [] then s
    else
      KeyStepInRange(s, events[0]);
      KeysStep(KeyStep(s, events[0]).state, events[1..])
  }

  /** A key only ever appends to the query: the old text is a prefix of the new. */
  lemma KeyStepAppends(s: EditorState, e: KeyEvent)
    requires InRange(s)
    ensures s.query <= KeyStep(s, e).state.query
  {
  }

  /** Over any sequence of keys the query only grows: keys never delete text. */
  lemma {:induction false} KeysOnlyAppend(s: EditorState, events: seq<KeyEvent>)
    requires InRange(s)
    ensures s.query <= KeysStep(s, events).query
    decreases |events|
  {
    if events != [] {
      var t := KeyStep(s, events[0]).state;
      KeyStepAppends(s, events[0]);
      KeyStepInRange(s, events[0]);
      KeysOnlyAppend(t, events[1..]);
    }
  }

  /** The only keys that change the query are Enter and Tab on an open popup. */
  lemma ChangedQueryMeansApplied(s: EditorState, e: KeyEvent)
    requires InRange(s)
    ensures KeyStep(s, e).state.query != s.query ==>
      s.showSuggestions && !IsCtrlSpace(e) && (e.key == "Enter" || e.key == "Tab")
      && KeyStep(s, e).state.query == s.query + " " + Suggestions[s.activeSuggestion]
  {
  }

  /** The component, its state changed by its event handlers. */
  class SqlEditor {
    /** The `initialQuery` prop of the current render. */
    var initialQuery: string
    var query: string
    var showSuggestions: bool
    var activeSuggestion: int

    ghost predicate Valid()
      reads this
    {
      InRange(State())
    }

    function State(): EditorState
      reads this
    {
      EditorState(query, showSuggestions, activeSuggestion)
    }

    /** The first render: query as given, popup closed, first suggestion selected. */
    constructor (initial: Option<string>)
      ensures Valid()
      ensures initialQuery == (if initial.Some? then initial.value else DefaultInitialQuery)
      ensures query == initialQuery && !showSuggestions && activeSuggestion == 0
    {
      initialQuery := if initial.Some? then initial.value else DefaultInitialQuery;
      query := if initial.Some? then initial.value else DefaultInitialQuery;
      showSuggestions := false;
      activeSuggestion := 0;
    }

    /** A later render with a new `initialQuery` prop: the query state keeps
        its value, since a state's initial value is read on the first render only. */
    method Rerender(newInitialQuery: string)
      modifies this
      ensures initialQuery == newInitialQuery
      ensures State() == old(State())
    {
      initialQuery := newInitialQuery;
    }

    /** `applySuggestion`, from a key or a click on the popup. */
    method ApplySuggestion(suggestion: string)
      modifies this
      ensures State() == Apply(old(State()), suggestion)
      ensures initialQuery == old(initialQuery)
    {
      query := query + " " + suggestion;
      showSuggestions := false;
    }

    /** `handleKeyDown`; the result says whether the default action was prevented. */
    method HandleKeyDown(e: KeyEvent) returns (defaultPrevented: bool)
      requires Valid()
      modifies this
      ensures Valid()
      ensures KeyOutcome(State(), defaultPrevented) == KeyStep(old(State()), e)
      ensures initialQuery == old(initialQuery)
    {
      KeyStepInRange(State(), e);
      if e.key == " " && e.ctrlKey {
        defaultPrevented := true;
        showSuggestions := true;
        return;
      }
      defaultPrevented := false;
      if showSuggestions {
        if e.key == "ArrowDown" {
          defaultPrevented := true;
          activeSuggestion := if activeSuggestion < |Suggestions| - 1 then activeSuggestion + 1 else activeSuggestion;
        } else if e.key == "ArrowUp" {
          defaultPrevented := true;
          activeSuggestion := if activeSuggestion > 0 then activeSuggestion - 1 else 0;
        } else if e.key == "Enter" || e.key == "Tab" {
          defaultPrevented := true;
          ApplySuggestion(Suggestions[activeSuggestion]);
        } else if e.key == "Escape" {
          defaultPrevented := true;
          showSuggestions := false;
        }
      }
    }

    /** `handleRun`: the current query, unchanged, if there is an `onRun` to receive it. */
    method HandleRun(hasOnRun: bool) returns (ran: Option<string>)
      ensures hasOnRun ==> ran == Some(query)
      ensures !hasOnRun ==> ran == None
    {
      ran := if hasOnRun then Some(query) else None;
    }

    /** A click on the Run button.  The button is disabled while a run is
        loading, and a disabled button fires no click, so nothing reaches
        `onRun` then. */
    method ClickRun(hasOnRun: bool, isLoading: bool) returns (ran: Option<string>)
      ensures isLoading ==> ran == None
      ensures !isLoading && hasOnRun ==> ran == Some(query)
      ensures !isLoading && !hasOnRun ==> ran == None
    {
      if isLoading {
        ran := None;
      } else {
        ran := HandleRun(hasOnRun);
      }
    }

    /** Typing in the text area replaces the query with the area's contents. */
    method OnChange(value: string)
      requires Valid()
      modifies this
      ensures Valid()
      ensures query == value
      ensures showSuggestions == old(showSuggestions) && activeSuggestion == old(activeSuggestion)
      ensures initialQuery == old(initialQuery)
    {
      query := value;
    }

    /** The Clear button. */
    method Clear()
      requires Valid()
      modifies this
      ensures Valid()
      ensures query == ""
      ensures showSuggestions == old(showSuggestions) && activeSuggestion == old(activeSuggestion)
      ensures initialQuery == old(initialQuery)
    {
      query := "";
    }

    /** The Reset button: back to the `initialQuery` of the current render. */
    method Reset()
      requires Valid()
      modifies this
      ensures Valid()
      ensures query == initialQuery
      ensures showSuggestions == old(showSuggestions) && activeSuggestion == old(activeSuggestion)
      ensures initialQuery == old(initialQuery)
    {
      query := initialQuery;
    }
  }

  /** Feeding `events` to the handler one by one ends in KeysStep of them:
      the lemmas about KeysStep describe the component itself. */
  method HandleKeys(editor: SqlEditor, events: seq<KeyEvent>)
    requires editor.Valid()
    modifies editor
    ensures editor.Valid()
    ensures editor.State() == KeysStep(old(editor.State()), events)
    ensures editor.initialQuery == old(editor.initialQuery)
  {
    var i := 0;
    while i < |events|
      invariant 0 <= i <= |events|
      invariant editor.Valid()
      invariant editor.initialQuery == old(editor.initialQuery)
      invariant KeysStep(old(editor.State()), events) == KeysStep(editor.State(), events[i..])
    {
      var _ := editor.HandleKeyDown(events[i]);
      assert events[i..][1..] == events[i + 1..];
      i := i + 1;
    }
  }

  /** Once the popup is open the selected suggestion shows at the bottom of the
      list after at most seven ArrowDowns and at the top after seven ArrowUps. */
  lemma {:induction false} SevenArrowsReachEnds(s: EditorState, n: nat)
    requires InRange(s) && s.showSuggestions && n >= |Suggestions| - 1
    ensures KeysStep(s, seq(n, _ => KeyEvent("ArrowDown", false))).activeSuggestion == |Suggestions| - 1
    ensures KeysStep(s, seq(n, _ => KeyEvent("ArrowUp", false))).activeSuggestion == 0
  {
    ArrowsFrom(s, n, "ArrowDown");
    ArrowsFrom(s, n, "ArrowUp");
  }

  /** n presses of one arrow move the index n places toward that end, stopping
      there, with the popup still open and the query unchanged. */
  lemma {:induction false} ArrowsFrom(s: EditorState, n: nat, key: string)
    requires InRange(s) && s.showSuggestions && (key == "ArrowDown" || key == "ArrowUp")
    ensures var t := KeysStep(s, seq(n, _ => KeyEvent(key, false)));
      t.query == s.query && t.showSuggestions
      && t.activeSuggestion == (if key == "ArrowDown" then
        (if s.activeSuggestion + n < |Suggestions| - 1 then s.activeSuggestion + n else |Suggestions| - 1)
      else
        (if s.activeSuggestion - n > 0 then s.activeSuggestion - n else 0))
    decreases n
  {
    var presses := seq(n, _ => KeyEvent(key, false));
    if n > 0 {
      var t := KeyStep(s, presses[0]).state;
      ArrowsClamp(s, presses[0]);
      assert presses[1..] == seq(n - 1, _ => KeyEvent(key, false));
      ArrowsFrom(t, n - 1, key);
    }
  }
}
