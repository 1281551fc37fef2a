/** What the component renders from its state: the title, the suggestion rows and their
    highlight, and the "no matching suggestions" banner. */
module Display {
  import opened Options
  import opened People
  import opened Decimal
  import opened Filter
  import opened Autocomplete

  /** `filteredPeople`: recomputed from the applied query only, never from the raw query. */
  function Filtered(s: State, people: seq<Person>): seq<Person>
  {
    FilterPeople(s.appliedQuery, people)
  }

  /** The four branches of the title conditional, in the order the component tests them. Two of
      them render the same text but are kept apart. */
  datatype Title =
    | TypedWithoutSelection     // query non-empty, nothing selected
    | NoMatches                 // query non-empty, filtered list empty (a person is selected)
    | Details(person: Person)   // a person is selected
    | NothingTyped              // query empty, nothing selected

  function TitleOf(s: State, people: seq<Person>): Title
  {
    if s.query != "" && s.selected.None? then TypedWithoutSelection
    else if s.query != "" && |Filtered(s, people)| == 0 then NoMatches
    else if s.selected.Some? then Details(s.selected.value)
    else NothingTyped
  }

  const NoSelectedText := "No selected person"
  const NoMatchesText := "No matching suggestions"

  /** `${name} (${born} - ${died})` */
  function DetailsText(p: Person): string
  {
    p.name + " (" + IntToDecimal(p.born) + " - " + IntToDecimal(p.died) + ")"
  }

  function TitleText(t: Title): string
  {
    match t
    case TypedWithoutSelection => NoSelectedText
    case NoMatches => NoMatchesText
    case Details(p) => DetailsText(p)
    case NothingTyped => NoSelectedText
  }

  /** The banner conditional: nothing when a person is selected, the banner when the query is
      non-empty and the filtered list is empty, nothing otherwise. */
  function BannerVisible(s: State, people: seq<Person>): bool
  {
    if s.selected.Some? then false
    else if s.query != "" && |Filtered(s, people)| == 0 then true
    else false
  }

  /** The rows of the dropdown: one per filtered entry while the dropdown is open. */
  function SuggestionRows(s: State, people: seq<Person>): seq<Person>
  {
    if s.showSuggestions then Filtered(s, people) else []
  }

  /** Row `index` is drawn in the link style exactly when it is the highlighted index. */
  function RowHighlighted(s: State, index: nat): bool
  {
    s.highlighted == Some(index)
  }

  /** The details text ends with ')' and so is never one of the two fixed messages, whatever
      the person's name. */
  lemma DetailsTextDistinct(p: Person)
    ensures DetailsText(p) != NoSelectedText && DetailsText(p) != NoMatchesText
  {
    var d := DetailsText(p);
    assert d[|d| - 1] == ')';
    assert NoSelectedText[|NoSelectedText| - 1] == 'n';
    assert NoMatchesText[|NoMatchesText| - 1] == 's';
  }

  /** Whenever nothing is selected the title reads "No selected person", even when the filtered
      list is empty. */
  lemma TitleWithoutSelection(s: State, people: seq<Person>)
    requires s.selected.None?
    ensures TitleText(TitleOf(s, people)) == NoSelectedText
  {
  }

  /** "No matching suggestions" appears in the title exactly when a person is selected, the query
      is non-empty and the filtered list is empty. */
  lemma TitleNoMatchesExactly(s: State, people: seq<Person>)
    ensures TitleText(TitleOf(s, people)) == NoMatchesText
        <==> s.selected.Some? && s.query != "" && Filtered(s, people) == []
  {
    if TitleOf(s, people).Details? {
      DetailsTextDistinct(TitleOf(s, people).person);
    }
  }

  /** The title shows a person's details exactly when that person is selected and either the
      query is empty or something matches; otherwise it shows one of the two fixed messages. */
  lemma TitleDetailsExactly(s: State, people: seq<Person>, p: Person)
    ensures TitleOf(s, people) == Details(p)
        <==> s.selected == Some(p) && (s.query == "" || Filtered(s, people) != [])
    ensures TitleOf(s, people).Details?
        <==> TitleText(TitleOf(s, people)) != NoSelectedText && TitleText(TitleOf(s, people)) != NoMatchesText
  {
    if TitleOf(s, people).Details? {
      DetailsTextDistinct(TitleOf(s, people).person);
    }
  }

  /** The banner is visible exactly when nothing is selected, the query is non-empty and the
      filtered list is empty. */
  lemma BannerExactly(s: State, people: seq<Person>)
    ensures BannerVisible(s, people) <==> s.selected.None? && s.query != "" && Filtered(s, people) == []
  {
  }

  /** The banner and the title's "No matching suggestions" never appear together: while the
      banner is up the title reads "No selected person". */
  lemma BannerAndTitleExclusive(s: State, people: seq<Person>)
    ensures BannerVisible(s, people) ==> TitleText(TitleOf(s, people)) == NoSelectedText
    ensures TitleText(TitleOf(s, people)) == NoMatchesText ==> !BannerVisible(s, people)
  {
    TitleNoMatchesExactly(s, people);
  }

  /** In a reachable state a selection fills the input, so the title never takes its first
      branch while a person is selected, and an empty query with a selection shows the details. */
  lemma SelectedTitle(s: State, people: seq<Person>)
    requires Consistent(s) && s.selected.Some?
    ensures TitleText(TitleOf(s, people))
         == if s.selected.value.name != "" && Filtered(s, people) == [] then NoMatchesText
            else DetailsText(s.selected.value)
  {
  }

  /** Typing changes neither the filtered list nor the rows until the timer fires. */
  lemma ChangeKeepsFiltered(s: State, people: seq<Person>, text: string)
    ensures Filtered(Step(s, Change(text)), people) == Filtered(s, people)
    ensures SuggestionRows(Step(s, Change(text)), people) == SuggestionRows(s, people)
  {
  }

  /** After the mouse enters row i, row i and only row i is highlighted. */
  lemma MouseEnterHighlightsOneRow(s: State, i: nat, j: nat)
    ensures RowHighlighted(Step(s, MouseEnter(i)), j) <==> j == i
  {
  }

  /** Applying a new query never resets the highlight, so it can point past the new rows. */
  lemma HighlightSurvivesFire(s: State, people: seq<Person>, i: nat)
    ensures RowHighlighted(Step(s, Fire), i) == RowHighlighted(s, i)
  {
  }
}
