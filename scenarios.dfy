/** Concrete runs of the component's handlers on a one-entry list, each stating what is on
    screen at the end. */
module Scenarios {
  import opened Options
  import opened People
  import opened Text
  import opened Decimal
  import opened Filter
  import opened Autocomplete
  import opened Display

  const Alice := Person("Alice", 1900, 1950)

  /** "xyz" is nowhere in "alice": the scan tries the three start positions that fit. */
  lemma XyzMissesAlice()
    ensures !Matches("xyz", Alice)
  {
    assert Lower("xyz") == "xyz";
    assert Lower(Alice.name) == "alice";
    assert "alice"[1..] == "lice" && "lice"[1..] == "ice" && "ice"[1..] == "ce";
    assert !Includes("ce", "xyz");
    assert "ice"[..3] == "ice" != "xyz";
    assert !Includes("ice", "xyz");
    assert "lice"[..3] == "lic" != "xyz";
    assert !Includes("lice", "xyz");
    assert "alice"[..3] == "ali" != "xyz";
  }

  /** Typing "ali" and letting the timer fire lists Alice; the title still asks for a selection. */
  method TypeMatching() returns (rows: seq<Person>, title: string, banner: bool)
    ensures rows == [Alice] && title == NoSelectedText && !banner
  {
    var app := new App();
    app.OnFocus();
    app.HandleQueryChange("ali");
    app.FireTimer();
    assert Matches("ali", Alice);
    rows := SuggestionRows(app.Snapshot(), [Alice]);
    title := TitleText(TitleOf(app.Snapshot(), [Alice]));
    banner := BannerVisible(app.Snapshot(), [Alice]);
  }

  /** Typing "xyz" empties the list and raises the banner; with nothing selected the title reads
      "No selected person", not "No matching suggestions". */
  method TypeNoMatch() returns (rows: seq<Person>, title: string, banner: bool)
    ensures rows == [] && title == NoSelectedText && banner
  {
    var app := new App();
    app.OnFocus();
    app.HandleQueryChange("xyz");
    app.FireTimer();
    XyzMissesAlice();
    rows := SuggestionRows(app.Snapshot(), [Alice]);
    title := TitleText(TitleOf(app.Snapshot(), [Alice]));
    banner := BannerVisible(app.Snapshot(), [Alice]);
  }

  /** Clicking Alice's row fills the input, closes the dropdown and titles her details; typing
      again drops the selection even though the text still matches her. */
  method ClickThenType() returns (query: string, title: string, rows: seq<Person>, retyped: string)
    ensures query == "Alice" && title == "Alice (1900 - 1950)" && rows == []
    ensures retyped == NoSelectedText
  {
    var app := new App();
    app.OnFocus();
    app.HandleQueryChange("ali");
    app.FireTimer();
    assert Matches("ali", Alice);
    app.OnMouseEnter(0);
    app.HandleSuggestionClick(Alice);
    query := app.query;
    title := TitleText(TitleOf(app.Snapshot(), [Alice]));
    assert title == DetailsText(Alice);
    assert IntToDecimal(1900) == "1900" && IntToDecimal(1950) == "1950";
    rows := SuggestionRows(app.Snapshot(), [Alice]);
    app.HandleQueryChange("a");
    retyped := TitleText(TitleOf(app.Snapshot(), [Alice]));
  }

  /** Clearing the input and letting the timer fire lists everyone again. */
  method ClearInput() returns (rows: seq<Person>, title: string)
    ensures rows == [Alice] && title == NoSelectedText
  {
    var app := new App();
    app.OnFocus();
    app.HandleQueryChange("xyz");
    app.FireTimer();
    app.HandleQueryChange("");
    app.FireTimer();
    FilterEmptyQuery([Alice]);
    rows := SuggestionRows(app.Snapshot(), [Alice]);
    title := TitleText(TitleOf(app.Snapshot(), [Alice]));
  }

  /** A click before the timer fires keeps the typed text scheduled: when it fires the selection
      stays, the list empties, and the title says "No matching suggestions" with no banner. */
  method ClickBeforeFire() returns (title: string, banner: bool, applied: string)
    ensures title == NoMatchesText && !banner && applied == "xyz"
  {
    var app := new App();
    app.OnFocus();
    app.HandleQueryChange("xyz");
    app.HandleSuggestionClick(Alice);
    app.FireTimer();
    XyzMissesAlice();
    applied := app.appliedQuery;
    title := TitleText(TitleOf(app.Snapshot(), [Alice]));
    banner := BannerVisible(app.Snapshot(), [Alice]);
  }

  /** The highlight is not reset when the list shrinks: it can name a row that no longer exists. */
  method StaleHighlight() returns (highlighted: Option<int>, rowCount: nat)
    ensures highlighted == Some(0) && rowCount == 0
  {
    var app := new App();
    app.OnFocus();
    app.OnMouseEnter(0);
    app.HandleQueryChange("xyz");
    app.FireTimer();
    XyzMissesAlice();
    highlighted := app.highlightedIndex;
    rowCount := |SuggestionRows(app.Snapshot(), [Alice])|;
  }
}
