/** The widget's state machine: the component's state variables, the events its handlers react
    to, and the class whose methods are those handlers. The 300 ms debounce timer is an abstract
    pending slot holding the text it will apply, and its expiry is the explicit event `Fire`. */
module Autocomplete {
  import opened Options
  import opened People

  /** One value of the component's state: `query`, `appliedQuery`, `showSuggestions`,
      `selectPerson`, `highlightedIndex`, and the scheduled update of `timer.current`. */
  datatype State = State(
    query: string,
    appliedQuery: string,
    showSuggestions: bool,
    selected: Option<Person>,
    highlighted: Option<int>,
    pending: Option<string>)

  datatype Event =
    | Change(text: string)      // onChange of the search input
    | Fire                      // the scheduled update runs
    | Focus                     // onFocus of the search input
    | Click(person: Person)     // onClick of a suggestion row
    | MouseEnter(index: nat)    // onMouseEnter of suggestion row `index`

  /** The state on mount: empty texts, dropdown hidden, nothing selected or highlighted, no timer. */
  function Init(): State
  {
    State("", "", false, None, None, None)
  }

  /** The effect of one event, handler by handler. */
  function Step(s: State, e: Event): State
  {
    match e
    case Change(text) => s.(query := text, selected := None, pending := Some(text))
    case Fire => if s.pending.Some? then s.(appliedQuery := s.pending.value, pending := None) else s
    case Focus => s.(showSuggestions := true)
    case Click(p) => s.(query := p.name, selected := Some(p), showSuggestions := false)
    case MouseEnter(i) => s.(highlighted := Some(i))
  }

  function Run(s: State, events: seq<Event>): State
    decreases |events|
  {
    if events == [] then s else Run(Step(s, events[0]), events[1..])
  }

  lemma {:induction false} RunAppend(s: State, a: seq<Event>, b: seq<Event>)
    ensures Run(s, a + b) == Run(Run(s, a), b)
    decreases |a|
  {
    if a == [] {
      assert a + b == b;
    } else {
      assert (a + b)[0] == a[0] && (a + b)[1..] == a[1..] + b;
      RunAppend(Step(s, a[0]), a[1..], b);
    }
  }

  /** Focus, clicks and mouse-enter neither apply a query nor touch the timer. */
  predicate KeepsTimer(e: Event)
  {
    !e.Change? && !e.Fire?
  }

  lemma {:induction false} TimerUntouched(s: State, events: seq<Event>)
    requires forall k :: 0 <= k < |events| ==> KeepsTimer(events[k])
    ensures Run(s, events).appliedQuery == s.appliedQuery
    ensures Run(s, events).pending == s.pending
    decreases |events|
  {
    if events != [] {
      TimerUntouched(Step(s, events[0]), events[1..]);
    }
  }

  /** Without a timer firing the applied query never changes, however much is typed. */
  lemma {:induction false} AppliedOnlyOnFire(s: State, events: seq<Event>)
    requires forall k :: 0 <= k < |events| ==> !events[k].Fire?
    ensures Run(s, events).appliedQuery == s.appliedQuery
    decreases |events|
  {
    if events != [] {
      AppliedOnlyOnFire(Step(s, events[0]), events[1..]);
    }
  }

  /** Last write wins: whatever came before, when the timer fires after the last change (with only
      focus, clicks and hovers in between), the applied query is that change's text and no update
      is left pending. Every earlier change's update was cancelled and is never applied. */
  lemma LastChangeWins(s: State, before: seq<Event>, text: string, between: seq<Event>)
    requires forall k :: 0 <= k < |between| ==> KeepsTimer(between[k])
    ensures Run(s, before + [Change(text)] + between + [Fire]).appliedQuery == text
    ensures Run(s, before + [Change(text)] + between + [Fire]).pending == None
  {
    var t := Step(Run(s, before), Change(text));
    RunAppend(s, before, [Change(text)]);
    RunAppend(s, before + [Change(text)], between);
    RunAppend(s, before + [Change(text)] + between, [Fire]);
    TimerUntouched(t, between);
  }

  /** The change events for a burst of keystrokes. */
  function Typing(texts: seq<string>): (events: seq<Event>)
    ensures |events| == |texts|
    ensures forall k :: 0 <= k < |texts| ==> events[k] == Change(texts[k])
  {
    seq(|texts|, k requires 0 <= k < |texts| => Change(texts[k]))
  }

  /** Typing K1..Kn and then letting the timer fire applies Kn once and no intermediate value: the
      applied query is unchanged after every keystroke of the burst, and equals Kn afterwards. */
  lemma TypingSettles(s: State, texts: seq<string>)
    requires |texts| > 0
    ensures forall k :: 0 <= k <= |texts| ==> Run(s, Typing(texts[..k])).appliedQuery == s.appliedQuery
    ensures Run(s, Typing(texts) + [Fire]).appliedQuery == texts[|texts| - 1]
    ensures Run(s, Typing(texts) + [Fire]).query == texts[|texts| - 1]
    ensures Run(s, Typing(texts) + [Fire]).selected == None
  {
    forall k | 0 <= k <= |texts|
      ensures Run(s, Typing(texts[..k])).appliedQuery == s.appliedQuery
    {
      AppliedOnlyOnFire(s, Typing(texts[..k]));
    }
    var n := |texts|;
    var before := Typing(texts[..n - 1]);
    assert Typing(texts) == before + [Change(texts[n - 1])];
    assert Typing(texts) + [Fire] == before + [Change(texts[n - 1])] + [] + [Fire];
    LastChangeWins(s, before, texts[n - 1], []);
    RunAppend(s, Typing(texts), [Fire]);
    RunAppend(s, before, [Change(texts[n - 1])]);
  }

  /** A selection always agrees with the input: a selected person's name is the query. */
  ghost predicate Consistent(s: State)
  {
    s.selected.Some? ==> s.query == s.selected.value.name
  }

  /** Every state the component can reach from mount keeps the selection consistent. */
  lemma {:induction false} ReachableConsistent(s: State, events: seq<Event>)
    requires Consistent(s)
    ensures Consistent(Run(s, events))
    decreases |events|
  {
    if events != [] {
      ReachableConsistent(Step(s, events[0]), events[1..]);
    }
  }

  /** The component instance. Its handlers update the state fields in place. */
  class App {
    var query: string
    var appliedQuery: string
    var showSuggestions: bool
    var selectPerson: Option<Person>
    var highlightedIndex: Option<int>
    var timer: Option<string>   // the text the scheduled update will apply, if one is scheduled

    function Snapshot(): State
      reads this
    {
      State(query, appliedQuery, showSuggestions, selectPerson, highlightedIndex, timer)
    }

    /** The object invariant: a selected person's name is what the input shows. */
    ghost predicate Valid()
      reads this
    {
      Consistent(Snapshot())
    }

    constructor ()
      ensures Valid()
      ensures Snapshot() == Init()
    {
      query, appliedQuery, showSuggestions := "", "", false;
      selectPerson, highlightedIndex, timer := None, None, None;
    }

    /** `handleQueryChange`: show the new text, clear the selection, cancel the scheduled update
        and schedule one that will apply this text. */
    method HandleQueryChange(text: string)
      requires Valid()
      modifies this
      ensures Valid()
      ensures query == text && selectPerson == None && timer == Some(text)
      ensures appliedQuery == old(appliedQuery) && showSuggestions == old(showSuggestions)
      ensures highlightedIndex == old(highlightedIndex)
      ensures Snapshot() == Step(old(Snapshot()), Change(text))
    {
      query := text;
      selectPerson := None;
      timer := None;         // clearTimeout(timer.current)
      timer := Some(text);   // timer.current = setTimeout(...)
    }

    /** The scheduled update runs: the applied query takes the scheduled text; nothing else moves. */
    method FireTimer()
      requires Valid()
      modifies this
      ensures Valid()
      ensures old(timer).Some? ==> appliedQuery == old(timer).value && timer == None
      ensures old(timer).None? ==> appliedQuery == old(appliedQuery) && timer == None
      ensures query == old(query) && showSuggestions == old(showSuggestions)
      ensures selectPerson == old(selectPerson) && highlightedIndex == old(highlightedIndex)
      ensures Snapshot() == Step(old(Snapshot()), Fire)
    {
      if timer.Some? {
        appliedQuery := timer.value;
        timer := None;
      }
    }

    /** `onFocus`: only opens the dropdown. */
    method OnFocus()
      requires Valid()
      modifies this
      ensures Valid()
      ensures showSuggestions
      ensures query == old(query) && appliedQuery == old(appliedQuery) && timer == old(timer)
      ensures selectPerson == old(selectPerson) && highlightedIndex == old(highlightedIndex)
      ensures Snapshot() == Step(old(Snapshot()), Focus)
    {
      showSuggestions := true;
    }

    /** `handleSuggestionClick`: put the name in the input, select the person, close the dropdown;
        the applied query, the scheduled update and the highlight are left as they are. */
    method HandleSuggestionClick(p: Person)
      requires Valid()
      modifies this
      ensures Valid()
      ensures query == p.name && selectPerson == Some(p) && !showSuggestions
      ensures appliedQuery == old(appliedQuery) && timer == old(timer)
      ensures highlightedIndex == old(highlightedIndex)
      ensures Snapshot() == Step(old(Snapshot()), Click(p))
    {
      query := p.name;
      selectPerson := Some(p);
      showSuggestions := false;
    }

    /** `onMouseEnter` of row `index`: highlight that row; nothing else changes. */
    method OnMouseEnter(index: nat)
      requires Valid()
      modifies this
      ensures Valid()
      ensures highlightedIndex == Some(index)
      ensures query == old(query) && appliedQuery == old(appliedQuery) && timer == old(timer)
      ensures selectPerson == old(selectPerson) && showSuggestions == old(showSuggestions)
      ensures Snapshot() == Step(old(Snapshot()), MouseEnter(index))
    {
      highlightedIndex := Some(index);
    }
  }
}
