# Autocomplete widget — a Dafny model

The repository is a single React component, `App` (src/App.tsx): a text input that filters a fixed
list of people by case-insensitive substring match on the name, debounces the input with one
timer, shows a dropdown of suggestions whose rows highlight on hover, selects a person on click,
and shows a title plus a "no matching suggestions" banner.

This project models that component's logic:

- `Text` — ASCII lower-casing (`toLowerCase`), the substring specification `Contains`, and
  `Includes`, the left-to-right scan `includes` performs, proved equal to `Contains`.
- `Decimal` — how the title's template literal renders an integer year (below 10^21 in
  magnitude, where JavaScript writes every digit), with a parser and a round-trip proof.
- `People` — the `Person` record (`name`, `born`, `died`).
- `Filter` — `filteredPeople`: the entries whose lower-cased name contains the lower-cased applied
  query, proved to be exactly the matching entries, in list order, duplicates kept.
- `Autocomplete` — the state (`query`, `appliedQuery`, `showSuggestions`, `selectPerson`,
  `highlightedIndex`, and the timer's pending update as an `Option<string>`), the events (change,
  timer fire, focus, suggestion click, mouse-enter), the step function, runs of events, and the
  class `App` whose methods are the handlers and update its fields in place. The debounce is a
  pending slot: a change cancels whatever was scheduled and schedules its own text; `Fire` applies
  the scheduled text and empties the slot.
- `Display` — the title conditional, the banner conditional, the dropdown rows and the row
  highlight, as functions of the state and the people list.
- `Scenarios` — concrete runs of the handlers on a one-entry list, each stating what is shown.

The title follows the branch order of the code (src/App.tsx:42-50): "query non-empty and nothing
selected" is tested first. So with nothing selected the title reads "No selected person" even when
nothing matches, and "No matching suggestions" can reach the title only while a person is
selected. The banner (src/App.tsx:101-119) is the complementary case: it shows only when nothing is
selected, so the banner and the title's "No matching suggestions" never appear together.

The scheduled update reads the input's value when it runs (src/App.tsx:28); the model instead
stores the text given at the change event. The two differ only when a suggestion click comes
between a change and the timer firing: the program then applies the clicked name (which the
click put in the input), while the model applies the typed text. `Scenarios.ClickBeforeFire`
shows the model's outcome of that sequence, which is not the program's (see "## Left out").

The people list, whose contents are not part of this model, is a parameter `seq<Person>`.

## Model

| member | source | states |
|---|---|---|
| `Text.LowerIsLower` | src/App.tsx:17 | lower-casing keeps the length, leaves no ASCII capital and is idempotent |
| `Text.Includes` | src/App.tsx:17 | the substring scan answers true exactly when some position of the name starts a copy of the query |
| `Text.ContainsEmpty` | src/App.tsx:17 | every name contains the empty query |
| `Text.ContainsTransitive` | src/App.tsx:17 | substring containment is transitive |
| `Decimal.NatToDecimal` | src/App.tsx:47 | a year's digits are non-empty, all decimal digits, with no leading zero |
| `Decimal.IntRoundTrip` | src/App.tsx:47 | the rendered year is a well-formed numeral that reads back as the same integer |
| `Filter.Matches` | src/App.tsx:17 | the filter callback holds exactly when the lower-cased name contains the lower-cased query |
| `Filter.FilterPeople` | src/App.tsx:15-19 | the result is never longer than the list and holds exactly the listed people whose name matches |
| `Filter.FilterIsSubsequence` | src/App.tsx:16-18 | the result keeps the list order |
| `Filter.FilterCount` | src/App.tsx:16-18 | each matching entry appears as often as in the list, each non-matching one never |
| `Filter.FilterUnique` | src/App.tsx:15-19 | any ordered selection of the list holding only matches and every match with its multiplicity is the filter's result |
| `Filter.FilterEmptyQuery` | src/App.tsx:16-18 | an empty applied query returns the whole list unchanged |
| `Filter.FilterIdempotent` | src/App.tsx:15-19 | filtering the result again with the same query changes nothing |
| `Filter.FilterAppend` | src/App.tsx:16-18 | filtering a concatenation is the concatenation of the filtered parts |
| `Filter.CaseInsensitive` | src/App.tsx:17 | queries that lower-case to the same text select the same entries |
| `Filter.FilterNarrows` | src/App.tsx:15-19 | a query containing another selects an ordered selection of what the other selects |
| `Autocomplete.TimerUntouched` | src/App.tsx:32-36 | focus, clicks and hovers change neither the applied query nor the pending update |
| `Autocomplete.AppliedOnlyOnFire` | src/App.tsx:21-29 | without a timer firing the applied query never changes |
| `Autocomplete.LastChangeWins` | src/App.tsx:25-29 | after any history, the fire that follows the last change applies that change's text and empties the slot; cancelled texts are never applied |
| `Autocomplete.TypingSettles` | src/App.tsx:21-29 | typing K1..Kn leaves the applied query unchanged after every keystroke, and the fire then applies Kn, with query Kn and no selection |
| `Autocomplete.ReachableConsistent` | src/App.tsx:21-36 | every handler keeps a selected person's name equal to the query |
| `Autocomplete.App.constructor` | src/App.tsx:7-13 | mount state: empty texts, dropdown hidden, nothing selected or highlighted, nothing scheduled; establishes the invariant that a selected person's name is the query |
| `Autocomplete.App.HandleQueryChange` | src/App.tsx:21-30 | sets the query, clears the selection whatever the text, replaces the pending update by this text; nothing else changes; keeps the selection invariant |
| `Autocomplete.App.FireTimer` | src/App.tsx:27-29 | the applied query takes the pending text and the slot empties; nothing else changes |
| `Autocomplete.App.OnFocus` | src/App.tsx:62-64 | only opens the dropdown |
| `Autocomplete.App.HandleSuggestionClick` | src/App.tsx:32-36 | query becomes the name, the person is selected, the dropdown closes; applied query, pending update and highlight untouched; keeps the selection invariant |
| `Autocomplete.App.OnMouseEnter` | src/App.tsx:83 | only sets the highlighted index |
| `Display.DetailsTextDistinct` | src/App.tsx:43-47 | a person's details text is never one of the two fixed messages |
| `Display.TitleWithoutSelection` | src/App.tsx:42-50 | with nothing selected the title reads "No selected person", matches or not |
| `Display.TitleNoMatchesExactly` | src/App.tsx:42-50 | the title reads "No matching suggestions" exactly when a person is selected, the query is non-empty and nothing matches |
| `Display.TitleDetailsExactly` | src/App.tsx:42-50 | the title shows person p exactly when p is selected and the query is empty or something matches, and only then is it not a fixed message |
| `Display.SelectedTitle` | src/App.tsx:42-50 | in a consistent state with a selection the title is "No matching suggestions" when the name is non-empty and nothing matches, else the details |
| `Display.BannerExactly` | src/App.tsx:101-119 | the banner shows exactly when nothing is selected, the query is non-empty and nothing matches |
| `Display.BannerAndTitleExclusive` | src/App.tsx:101-119 | while the banner shows the title reads "No selected person", and a "No matching suggestions" title hides the banner |
| `Display.ChangeKeepsFiltered` | src/App.tsx:15-19 | a change event alters neither the filtered list nor the rows until the timer fires |
| `Display.MouseEnterHighlightsOneRow` | src/App.tsx:83-90 | after the mouse enters row i, row j is highlighted exactly when j = i |
| `Display.HighlightSurvivesFire` | src/App.tsx:83-90 | applying a new query does not change which row index is highlighted |
| `Scenarios.TypeMatching` | src/App.tsx:21-50 | typing "ali" then the fire lists Alice, title "No selected person", no banner |
| `Scenarios.TypeNoMatch` | src/App.tsx:42-119 | typing "xyz" then the fire lists nobody, shows the banner, and titles "No selected person" |
| `Scenarios.ClickThenType` | src/App.tsx:21-50 | a click fills the input with "Alice", closes the dropdown, titles "Alice (1900 - 1950)"; typing again drops the selection |
| `Scenarios.ClearInput` | src/App.tsx:15-50 | clearing the input and firing lists everyone again with title "No selected person" |
| `Scenarios.ClickBeforeFire` | src/App.tsx:27-119 | with the update's text taken at the change, a click before the fire keeps the typed text scheduled; after the fire the title reads "No matching suggestions" and no banner shows |
| `Scenarios.StaleHighlight` | src/App.tsx:83-90 | the highlighted index survives a shrinking list and names a row that no longer exists |
| `Scenarios.XyzMissesAlice` | src/App.tsx:17 | the name "Alice" does not match the query "xyz" |

## Left out

- JSX markup, CSS classes, `data-cy` hooks, and React's rendering, `useState` batching and `useMemo` caching: the state is plain fields and what is shown is functions of them.
- The 300 ms delay and the wall clock of `setTimeout`/`clearTimeout`: the timer is a pending slot and its expiry is the explicit `Fire` event; a `Fire` with nothing scheduled does nothing.
- The scheduled callback reads `event.target.value` when it runs; the model assumes it is the text given at the change event and stores that text in the slot.
- Scenarios.ClickBeforeFire: in the program the fire after the click reads the input, which the click set to "Alice", so it applies "Alice", lists Alice and titles her details; the member shows the model's change-time payload, not that outcome.
- Autocomplete.LastChangeWins: when `between` holds a suggestion click, the program applies the clicked name rather than the last change's text; the lemma states the change-time payload of the model.
- Decimal.IntToDecimal: years are unbounded integers; JavaScript writes a number of magnitude 10^21 or more in exponent form ("1e+21") and a non-integer year with a fraction, neither of which the model renders.
- Text.LowerChar: lower-cases ASCII letters only, not the full Unicode mapping of `toLowerCase`.
- The contents and loading of the people list and the declaration of the `Person` type are not part of this model: the list is a parameter and `Person` has the fields the title reads.
- Cancelling the timer when the component unmounts: the component does not do it, so there is no unmount event.
- The handlers accept any person or row index, as the component's do; the model does not restrict clicks and hovers to rows currently on screen.
