/** The parts of src/database.rs that are not SQLite I/O: the filter
    `search_book` asks the database for, and what `delete_book` does to the
    rows on screen and to the selection. The rows a query sees are given as a
    sequence, in table order. */
module Database {
  import opened Types
  import opened SqlLike
  import opened AppState

  /** The filter of `search_book`: title, author, genre and status each
      `LIKE '%text%'`, and the rating equal to the searched rating. The dates
      of the search are not used. */
  predicate Matches(info: NewBook, b: Book) {
    Like(b.title, Pattern(info.title))
    && Like(b.author, Pattern(info.author))
    && Like(b.genre, Pattern(info.genre))
    && Like(b.status, Pattern(info.status))
    && b.rating == info.rating
  }

  /** The rows `search_book` returns, in table order. */
  function SearchBook(rows: seq<Book>, info: NewBook): (r: seq<Book>)
    ensures |r| <= |rows|
  {
    if rows == [] then []
    else
      var rest := SearchBook(rows[1..], info);
      if Matches(info, rows[0]) then [rows[0]] + rest else rest
  }

  /** The search returns every matching row as often as the table holds it,
      and nothing else. */
  lemma {:induction false} SearchBookCounts(rows: seq<Book>, info: NewBook)
    ensures forall b :: multiset(SearchBook(rows, info))[b] == if Matches(info, b) then multiset(rows)[b] else 0
  {
    if rows != [] {
      SearchBookCounts(rows[1..], info);
      assert rows == [rows[0]] + rows[1..];
    }
  }

  /** A row is found exactly when the table holds it and it matches. */
  lemma SearchBookSelects(rows: seq<Book>, info: NewBook)
    ensures forall b :: b in SearchBook(rows, info) <==> b in rows && Matches(info, b)
  {
    SearchBookCounts(rows, info);
    forall b
      ensures b in SearchBook(rows, info) <==> b in rows && Matches(info, b)
    {
      assert b in SearchBook(rows, info) <==> b in multiset(SearchBook(rows, info));
      assert b in rows <==> b in multiset(rows);
    }
  }

  /** The dates of a search change nothing about its result. */
  lemma {:induction false} SearchIgnoresDates(rows: seq<Book>, info: NewBook, start: Option<CalDate>, end: Option<CalDate>)
    ensures SearchBook(rows, info.(startDate := start, endDate := end)) == SearchBook(rows, info)
  {
    if rows != [] {
      SearchIgnoresDates(rows[1..], info, start, end);
    }
  }

  /** With empty search texts, a row is found exactly when its rating equals
      the searched rating. */
  lemma BlankTextsFilterOnRatingOnly(rows: seq<Book>, info: NewBook)
    requires info.title == "" && info.author == "" && info.genre == "" && info.status == ""
    ensures forall b :: b in SearchBook(rows, info) <==> b in rows && b.rating == info.rating
  {
    SearchBookSelects(rows, info);
    forall b | b in rows
      ensures Matches(info, b) <==> b.rating == info.rating
    {
      EmptyQueryMatchesAll(b.title);
      EmptyQueryMatchesAll(b.author);
      EmptyQueryMatchesAll(b.genre);
      EmptyQueryMatchesAll(b.status);
    }
  }

  /** For search texts without `%` or `_`, a row is found exactly when each
      searched text occurs in its field, ignoring ASCII case, and the ratings agree. */
  lemma PlainTextsAreSubstrings(rows: seq<Book>, info: NewBook)
    requires WildcardFree(info.title) && WildcardFree(info.author)
    requires WildcardFree(info.genre) && WildcardFree(info.status)
    ensures forall b :: b in SearchBook(rows, info) <==>
      b in rows
      && ContainsFold(b.title, info.title) && ContainsFold(b.author, info.author)
      && ContainsFold(b.genre, info.genre) && ContainsFold(b.status, info.status)
      && b.rating == info.rating
  {
    SearchBookSelects(rows, info);
    forall b | b in rows
      ensures Matches(info, b) <==>
        ContainsFold(b.title, info.title) && ContainsFold(b.author, info.author)
        && ContainsFold(b.genre, info.genre) && ContainsFold(b.status, info.status)
        && b.rating == info.rating
    {
      LikeIsSubstring(b.title, info.title);
      LikeIsSubstring(b.author, info.author);
      LikeIsSubstring(b.genre, info.genre);
      LikeIsSubstring(b.status, info.status);
    }
  }

  /** `Vec::remove(i)`: the rows without the one at `i`, the others in order. */
  function RemoveAt(s: seq<Book>, i: nat): (r: seq<Book>)
    requires i < |s|
    ensures |r| == |s| - 1
  {
    s[..i] + s[i + 1..]
  }

  /** The rows before `i` keep their places, the rows after it move up one,
      and exactly one copy of row `i` is gone. */
  lemma RemoveAtShifts(s: seq<Book>, i: nat)
    requires i < |s|
    ensures forall j :: 0 <= j < i ==> RemoveAt(s, i)[j] == s[j]
    ensures forall j :: i <= j < |s| - 1 ==> RemoveAt(s, i)[j] == s[j + 1]
    ensures multiset(RemoveAt(s, i)) + multiset{s[i]} == multiset(s)
  {
    assert s == s[..i] + [s[i]] + s[i + 1..];
  }

  /** The row `delete_book` selects after removing row `s`: the row above,
      or the first row when the removed row was the first. */
  function SelectAfterDelete(s: nat): (i: nat)
    ensures s >= 1 ==> i == s - 1
    ensures s == 0 ==> i == 0
  {
    if s > 1 then s - 1 else 0
  }

  /** What `delete_book` does to the application, or `None` when it panics
      (the selection lies past the last row). */
  function DeleteStep(v: AppView): (r: Option<AppView>)
    ensures r.Some? ==> r.value == v.(items := r.value.items, selected := r.value.selected, calls := r.value.calls)
  {
    match v.selected
    case None => Some(v)
    case Some(s) =>
      if s < |v.items| then
        Some(v.(items := RemoveAt(v.items, s),
                selected := Some(SelectAfterDelete(s)),
                calls := v.calls + [Delete(v.items[s].id)]))
      else None
  }

  /** Deleting the selected row removes exactly that row, asks the database
      to delete its id, and selects a row of the shorter list unless it is
      empty; the selection is never cleared. Without a selection nothing happens. */
  lemma DeleteSelected(v: AppView)
    requires v.SelectionInRange()
    ensures DeleteStep(v).Some?
    ensures v.selected.None? ==> DeleteStep(v) == Some(v)
    ensures v.selected.Some? ==>
      var w := DeleteStep(v).value;
      var s := v.selected.value;
      && w.items == RemoveAt(v.items, s)
      && multiset(w.items) + multiset{v.items[s]} == multiset(v.items)
      && w.selected == Some(SelectAfterDelete(s))
      && w.calls == v.calls + [Delete(v.items[s].id)]
      && w.selected.Some?
      && (|w.items| > 0 ==> w.SelectionInRange())
      && (|w.items| == 0 ==> w.selected == Some(0))
  {
    if v.selected.Some? {
      RemoveAtShifts(v.items, v.selected.value);
    }
  }

  /** A selection past the last row makes `delete_book` panic on `unwrap`. */
  lemma DeleteStaleSelectionPanics(v: AppView)
    requires v.selected.Some? && v.selected.value >= |v.items|
    ensures DeleteStep(v) == None
  {
  }

  /** `delete_book`: removes the selected row from the table and the database,
      then selects the row above it. */
  method DeleteBook(app: App) returns (outcome: Outcome)
    modifies app
    ensures DeleteStep(old(app.View())).None? ==> outcome == Panicked
    ensures DeleteStep(old(app.View())).Some? ==>
      outcome == Continue && app.View() == DeleteStep(old(app.View())).value
  {
    outcome := Continue;
    if app.selected.Some? {
      var selected := app.selected.value;
      if selected >= |app.items| {
        outcome := Panicked;
        return;
      }
      var currentId := app.items[selected].id;
      app.items := RemoveAt(app.items, selected);
      app.calls := app.calls + [Delete(currentId)];
      if selected > 1 {
        app.selected := Some(selected - 1);
      } else {
        app.selected := Some(0);
      }
    }
  }
}
