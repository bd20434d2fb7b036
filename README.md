# booky: the key handlers, modelled in Dafny

booky is a terminal program for keeping a list of books in a SQLite
table. Each book has:

- a title, author, genre and reading status;
- an `i32` rating;
- an optional start date and end date.

The main view shows the rows with one row highlighted. Keys on the main
view work as follows:

- `i` opens an empty add form;
- `u` opens an edit form filled from the highlighted row;
- `/` opens a search form;
- `d` deletes the highlighted row;
- Up/Down (or `k`/`j`) move the highlight, wrapping at both ends;
- `r` clears the search flag;
- `?` toggles the help popup;
- Esc, `q` and Ctrl-C quit.

A form has seven text areas and two buttons (confirm and cancel).
Tab and BackTab cycle the focus through these nine stops. Enter on
confirm does one of two things:

- on the add/edit form, it creates a book or updates the highlighted row;
- on the search form, it replaces the rows by the books matching a SQL
  `LIKE` filter.

The model covers the key handling of `src/handler.rs` together with its
helpers:

- the selection and quit logic of `App` in `src/app.rs`;
- the in-memory half of `delete_book` in `src/database.rs`;
- the filter of `search_book` in `src/database.rs`.

Modules, in dependency order:

- `Types`: books, the `NewBook` record, calendar dates, `i32`, key events
  and the database calls a handler makes.
- `Text`: Rust's `str::lines`, `join("\n")`, `i32` parsing and printing,
  and chrono's `%Y-%m-%d` parsing and date display, as far as the forms
  use them.
- `FocusCycle`: the integer arithmetic of `change_add_focus` and
  `change_search_focus`. This covers Rust's signed `%`, the literal `8`
  after a negative remainder, and `from_int`, over an enum of any size.
- `AppState`: the focus enum, the form states, and `App` as a class. Its
  `View()` is the whole state as one value. `next` and `previous` are
  specified by `NextIndex` and `PreviousIndex`.
- `Form`: the decision table both forms share (`FormAction`), reading a
  form into a `NewBook` (`ReadForm`), and filling the edit form from a
  book (`Prefill`).
- `SqlLike`: SQLite's `LIKE` (`%`, `_`, ASCII case folding).
- `Database`: the `search_book` filter and the row removal and
  re-selection of `delete_book`.
- `Handler`: the four handlers as methods on `App`, written arm by arm.
  Each is proved equal to a step function on the state value: `AddStep`,
  `SearchStep`, `MainStep` or `KeyStep`. The lemmas about sequences of
  keys use `Replay`.

Things outside the program are parameters:

- `today` stands for `Local::now()`.
- `rows` is the table contents `search_book` reads.
- `edit` is `TextArea::input`, i.e. how a text area changes on a key.

Database writes are appended to `calls` in the order they are made. A
panic on `unwrap` is the outcome `Panicked`, or a step result of `None`.

Behaviour of the code that is easy to misread; the model follows the code:

- A search compares the rating for equality, not as a lower bound.
- A rating is never clamped: "15" reads as 15.
- The dates of a search form are parsed but never used to filter
  (`SearchIgnoresDates`).
- Deleting the last remaining row leaves the selection at `Some(0)`,
  not `None`.
- A search keeps the old selection even when it lies past the new rows.
  `StaleSelectionAfterSearch` shows the following `d` then panics.
- The revision of `src/app.rs` cited here (src/app.rs:11-23) has a
  seven-variant `BookEditFocus` (`EDIT_WINDOW_FOCUS = 7`), while
  `src/handler.rs` matches nine variants. The model uses the nine-variant
  enum with nine stops. `FocusCycle.BackFromFirstFails` records what the
  seven-variant version does: BackTab on the first stop computes 8,
  `from_int` fails, and the handler returns an error.

## Model

| member | source | states |
|---|---|---|
| FocusCycle.TruncRem | src/handler.rs:20-22 | Rust's signed `%`: the remainder has the dividend's sign and lies strictly between `-n` and `n`; its value is fixed by TruncDivRem |
| FocusCycle.TruncDivRem | src/handler.rs:20-22 | with the quotient rounded toward zero (`TruncDiv`, Rust's signed `/`), the remainder recomposes the dividend: `a == n * (a / n) + a % n` in Rust's terms |
| FocusCycle.Cycle | src/handler.rs:15-30 | one focus step over `n` variants: forward wraps from the last stop to 0, backward goes to `k-1`, and backward from 0 gives 8 (`None` when the enum has 2 to 8 variants) |
| FocusCycle.NineSlotsWrap | src/handler.rs:19-28 | with nine variants every step succeeds and equals the cyclic `(k±1) mod 9` |
| FocusCycle.BackFromFirstFails | src/handler.rs:22-28 | with 2 to 8 variants, BackTab on the first stop makes `from_int` fail |
| FocusCycle.ForwardBackInverse | src/handler.rs:15-30 | Tab then BackTab, and BackTab then Tab, return to the starting stop |
| FocusCycle.ForwardWithoutWrap | src/handler.rs:19-20 | Tab presses before the last stop visit the following stops in order |
| FocusCycle.ForwardAdd | src/handler.rs:19-20 | `a + b` Tab presses are `a` presses followed by `b` presses |
| FocusCycle.ForwardFullCircle | src/handler.rs:19-20 | `n` Tab presses over `n` stops return to the starting stop |
| AppState.Focus.IntValue | src/app.rs:13-23 | the discriminant of a focus is below 9, and below 7 exactly for the text fields |
| AppState.FocusFromInt | src/app.rs:13-23 | `from_int` succeeds exactly on 0 to 8 and yields the variant with that discriminant |
| AppState.FromIntValue | src/app.rs:13-23 | `from_int` undoes `int_value` |
| AppState.Buffers.With | src/handler.rs:101-128 | after replacing the focused text area, that area holds the new lines |
| AppState.WithKeepsOthers | src/handler.rs:101-128 | replacing one text area leaves the other six unchanged |
| AppState.DefaultBookState | src/app.rs:35-47 | `BookState::default()` is focused on the title and is not an edit form |
| AppState.DefaultSearchState | src/handler.rs:289 | `SearchState::default()` is focused on the title |
| AppState.DefaultFormsAreBlank | src/app.rs:35-47 | every text field of both default forms reads as the empty string |
| AppState.NextIndex | src/app.rs:86-98 | `next` selects the following row, 0 after the last row or a stale selection or without a selection, and always a row when there are rows |
| AppState.PreviousIndex | src/app.rs:100-112 | `previous` selects the preceding row, the last row from row 0, and row 0 without a selection |
| AppState.NextPreviousInverse | src/app.rs:86-112 | on a selected row, `previous` undoes `next` and `next` undoes `previous` |
| AppState.NextWithoutWrap | src/app.rs:86-98 | `next` steps before the last row advance the selection by one each |
| AppState.NextTimesAdd | src/app.rs:86-98 | `a + b` calls of `next` are `a` calls followed by `b` calls |
| AppState.NextFullCircle | src/app.rs:86-98 | one `next` per row brings the selection back to where it was |
| AppState.App.constructor | src/app.rs:59-70 | a new `App` is running, with no popup, no selection, no rows and no form |
| AppState.App.Quit | src/app.rs:82-84 | `quit` clears `running` and changes nothing else |
| AppState.App.Next | src/app.rs:86-98 | `next` sets the selection to `NextIndex` and changes nothing else |
| AppState.App.Previous | src/app.rs:100-112 | `previous` sets the selection to `PreviousIndex` and changes nothing else |
| Form.ChangeFocus | src/handler.rs:15-48 | a focus step is the cyclic wrap over nine stops: Tab moves to the next variant and from the cancel button to the title; BackTab moves to the previous variant and from the title to the cancel button |
| Form.ChangeFocusInverse | src/handler.rs:53-60 | Tab undoes BackTab and BackTab undoes Tab on a form |
| Form.FormAction | src/handler.rs:52-129 | Tab steps the focus forward and BackTab backward, and only they step it; Enter confirms exactly on the confirm button and cancels exactly on the cancel button; a key goes into a text area only when a text field has the focus, and always does there unless it is Tab, BackTab or Enter on the title |
| Form.DateOr | src/handler.rs:71-74 | `parse_from_str(..).unwrap_or(..)`: the parsed date or the fallback; `DateOrPrinted`, `DateExamples` and the date clauses of `ReadForm` state what it gives |
| Form.DateOrPrinted | src/handler.rs:71-74 | a printed date with a year in 0 to 9999 is taken as it stands, whatever the fallback |
| Form.ReadForm | src/handler.rs:62-84 | the text fields are the joined lines; the rating is the first line parsed as `i32`, or 0; each date is parsed from its joined text, or the fallback, and is always present |
| Form.Prefill | src/handler.rs:250-264 | the edit form exists exactly when the book has both dates (otherwise `unwrap` panics), is focused on the title, and is an edit form |
| Form.DateFieldRoundTrip | src/handler.rs:258-261 | a date in years 0 to 9999, printed into a text area and read back, is the same date |
| Form.PrefillTexts | src/handler.rs:252-257 | title, author, genre and status without `'\r'` or a trailing newline come back out of the edit form unchanged |
| Form.PrefillRating | src/handler.rs:256 | the printed rating reads back as the same `i32` |
| Form.PrefillDates | src/handler.rs:258-261 | both dates of the book read back unchanged when their years lie in 0 to 9999 |
| Form.EditRoundTrip | src/handler.rs:250-264 | an edit form opened on such a book and read back, whatever the day, gives exactly the book's fields |
| Form.BlankSearchForm | src/handler.rs:179-210 | a blank search form reads as empty texts, rating 0 and the dates 1500-01-01 and 4050-01-01 |
| Form.RatingExamples | src/handler.rs:68 | "7" reads as 7 and "15" as 15 (no clamp); "abc" and "" read as 0 |
| Form.DateExamples | src/handler.rs:71-74 | "2024-01-05" reads as that date and a blank date as the fallback |
| Text.IntToString | src/handler.rs:256 | a printed integer is non-empty and starts with a digit or `-` |
| Text.IntToStringDigits | src/handler.rs:256 | after the first character, a printed integer has only digits |
| Text.ParseI32 | src/handler.rs:68 | a successful parse is an optional sign followed by digits only; the empty text and a lone sign do not parse |
| Text.ParseI32OrZero | src/handler.rs:68 | `parse::<i32>().unwrap_or_default()`: the parsed value or 0; `ParseI32OrZeroPrinted`, `RatingExamples` and the rating clauses of `ReadForm` state what it gives |
| Text.ParseI32OrZeroPrinted | src/handler.rs:68 | a printed `i32` read with `unwrap_or_default` is itself, never the default 0 |
| Text.ParseIntToString | src/handler.rs:68 | parsing a printed `i32` gives it back |
| Text.ParseDate | src/handler.rs:71-74 | only ten characters `YYYY-MM-DD` parse, with a year in 0 to 9999 |
| Text.FormatDate | src/handler.rs:259 | chrono's date display; its shape is stated by `FormatDateChars` and `FormatDateShape`, and `ParseFormatDate` parses it back |
| Text.FormatDateChars | src/handler.rs:259 | a printed date is non-empty and has only digits, `-` and `+` |
| Text.FormatDateShape | src/handler.rs:259 | a date in years 0 to 9999 prints as `YYYY-MM-DD` with zero-padded year, month and day |
| Text.ParseFormatDate | src/handler.rs:71-74 | parsing a printed date with a year in 0 to 9999 gives it back |
| Text.Join | src/handler.rs:62-67 | `lines().join("\n")` on a text area; `JoinSplit` and `TextRoundTrip` state that it undoes the split |
| Text.StrLines | src/handler.rs:253 | Rust's `str::lines`: split at `'\n'`, a `'\r'` before it dropped, no final empty line; `StrLinesPlain` states it on plain text |
| Text.FromText | src/handler.rs:253 | `TextArea::from(s.lines())`, one empty line when there are none; `SingleLine` and `TextRoundTrip` state what it holds |
| Text.JoinSplit | src/handler.rs:62 | joining the `'\n'`-separated pieces of a text with `"\n"` restores the text |
| Text.SingleLine | src/handler.rs:256 | a non-empty text without a newline fills exactly one line of a text area |
| Text.StrLinesPlain | src/handler.rs:253 | on text without `'\r'` and without a trailing newline, `str::lines` splits exactly at each `'\n'` |
| Text.TextRoundTrip | src/handler.rs:253 | text without `'\r'` and without a trailing newline, loaded into a text area and joined back, is unchanged |
| SqlLike.Like | src/database.rs:108-111 | SQLite's `LIKE` with `%`, `_` and ASCII case folding; its meaning is stated by `PercentMatchesAll`, `PrefixThenPercent`, `PercentThen` and `LikeIsSubstring` |
| SqlLike.Pattern | src/database.rs:102-105 | `format!("%{}%", q)` starts and ends with `%` and is two characters longer than `q` |
| SqlLike.PercentMatchesAll | src/database.rs:108-111 | a lone `%` matches every text |
| SqlLike.PrefixThenPercent | src/database.rs:108-111 | a wildcard-free `q%` matches exactly the texts that start with `q`, ignoring ASCII case |
| SqlLike.PercentThen | src/database.rs:108-111 | `%r` matches exactly when `r` matches some suffix |
| SqlLike.LikeIsSubstring | src/database.rs:102-111 | for a wildcard-free query, `LIKE '%q%'` is case-insensitive substring search |
| SqlLike.EmptyQueryMatchesAll | src/database.rs:102-111 | a blank search text, `'%%'`, matches every text |
| Database.Matches | src/database.rs:106-112 | the `search_book` filter: the four texts each `LIKE '%text%'` and the rating equal; its meaning is stated by `SearchBookSelects`, `SearchIgnoresDates` and `PlainTextsAreSubstrings` |
| Database.SearchBook | src/database.rs:98-116 | the result is never longer than the table |
| Database.SearchBookCounts | src/database.rs:106-114 | each matching row is returned as often as the table holds it, and no other row is returned |
| Database.SearchBookSelects | src/database.rs:106-114 | a row is in the result exactly when it is in the table and its fields match the four `LIKE` patterns and its rating equals the searched rating |
| Database.SearchIgnoresDates | src/database.rs:106-112 | the dates of the search record do not change the result |
| Database.BlankTextsFilterOnRatingOnly | src/database.rs:102-112 | with empty search texts, a row is found exactly when its rating equals the searched rating |
| Database.PlainTextsAreSubstrings | src/database.rs:102-112 | with wildcard-free texts, a row is found exactly when each text occurs in its field, ignoring ASCII case, and the ratings agree |
| Database.RemoveAt | src/database.rs:85 | `Vec::remove` shortens the rows by one |
| Database.RemoveAtShifts | src/database.rs:85 | rows before the index keep their places, later rows move up one, and exactly one copy of the removed row is gone |
| Database.SelectAfterDelete | src/database.rs:90-94 | after deleting row `s`, row `s-1` is selected, or row 0 when `s` was 0 |
| Database.DeleteStep | src/database.rs:81-96 | a delete changes only the rows, the selection and the database calls |
| Database.DeleteSelected | src/database.rs:83-95 | with a valid selection, the delete leaves exactly the rows without the selected one, in order, records one delete of its id, and selects the row above (row 0 when the first row was removed), which is in range or `Some(0)` on an empty list; without a selection nothing happens |
| Database.DeleteStaleSelectionPanics | src/database.rs:84 | a selection past the last row makes `delete_book` panic |
| Database.DeleteBook | src/database.rs:81-96 | the method panics exactly when `DeleteStep` does, and otherwise leaves the state `DeleteStep` gives |
| Handler.AddStep | src/handler.rs:50-136 | `handle_add_events` on the state value, arm by arm; its promises are stated by `AddFormPanics`, `AddFormOwnsKeys`, `AddFormCloses`, `AddFormCalls`, `CancelAddForm`, `ConfirmAddForm`, `ConfirmEditForm`, `TypingEditsFocusedField` and `FocusKey` |
| Handler.SearchStep | src/handler.rs:138-228 | `handle_search_events` on the state value, arm by arm; its promises are stated by `SearchFormOwnsKeys`, `CancelSearchForm`, `ConfirmSearchForm`, `TypingEditsSearchField` and `BlankSearchFindsUnrated` |
| Handler.MainStep | src/handler.rs:230-298 | `handle_main_events` on the state value, arm by arm; its promises are stated by `QuitKeys`, `DeleteKey`, `UpdateKey`, `OpenForms`, `NavigationKeys`, `OnlyDeleteWrites` and `MainStepOpensOneForm` |
| Handler.KeyStep | src/handler.rs:300-315 | `handle_key_events` on the state value: releases ignored, then the add/edit form, the search form and the main view in that order; its promises are stated by `ReleaseIgnored`, `KeyStepKeepsOneModal`, `IgnoredFormKeys` and the key-sequence lemmas |
| Handler.ConfirmBookForm | src/handler.rs:61-95 | confirming the add/edit form closes it, flips the add popup flag, and changes nothing but the database calls |
| Handler.EditSelected | src/handler.rs:248-268 | `u` changes only the edit form, and flips the add popup flag |
| Handler.InputFocused | src/handler.rs:101-128 | the key goes into the focused text area only; on a button nothing changes |
| Handler.HandleAddEvents | src/handler.rs:50-136 | the add/edit handler panics exactly when `AddStep` does, and otherwise leaves the state `AddStep` gives |
| Handler.HandleSearchEvents | src/handler.rs:138-228 | the search handler leaves the state `SearchStep` gives |
| Handler.OpenEditForm | src/handler.rs:248-268 | the `u` arm panics exactly when `EditSelected` does, and otherwise leaves the state it gives |
| Handler.HandleMainEvents | src/handler.rs:230-298 | the main handler panics exactly when `MainStep` does, and otherwise leaves the state `MainStep` gives |
| Handler.HandleKeyEvents | src/handler.rs:300-315 | the dispatcher panics exactly when `KeyStep` does, and otherwise leaves the state `KeyStep` gives |
| Handler.TabFocusForward | src/handler.rs:53-56 | Tab presses on a form walk the stops as the generic cycler does |
| Handler.NineTabsFullCircle | src/handler.rs:53-56 | nine Tab presses bring the focus back to where it was |
| Handler.KeyStepKeepsOneModal | src/handler.rs:304-313 | whatever key arrives, the add/edit form and the search form are never open together afterwards |
| Handler.MainStepOpensOneForm | src/handler.rs:269-291 | from the main view with no form open, a key opens at most one form |
| Handler.OtherKeysOpenNoForm | src/handler.rs:230-298 | on the main view only `i`, `u` and `/` open a form |
| Handler.AddFormPanics | src/handler.rs:88-90 | the add/edit form panics exactly on Enter on confirm in an edit form whose selection lies past the last row |
| Handler.AddFormOwnsKeys | src/handler.rs:50-136 | while the add/edit form is open, only the form, the add popup flag and the database calls can change |
| Handler.AddFormCloses | src/handler.rs:93-99 | the add/edit form closes, and its popup flag flips, exactly on Enter on a button |
| Handler.AddFormCalls | src/handler.rs:85-92 | a key on the add/edit form makes at most one database call, only on Enter on confirm, and that call is a create exactly when the form is not an edit form |
| Handler.SearchFormOwnsKeys | src/handler.rs:138-228 | while the search form is open, nothing is written and the selection stays; the rows and the search flag change only on confirm; the form closes and the popup flag flips exactly on Enter on a button |
| Handler.ReleaseIgnored | src/handler.rs:304 | a released key changes nothing |
| Handler.CancelAddForm | src/handler.rs:96-99 | cancel closes the add/edit form, flips the popup flag, and makes no database call |
| Handler.ConfirmAddForm | src/handler.rs:85-86 | confirming an add form creates the book the form reads as, with today for a date that does not parse |
| Handler.ConfirmEditForm | src/handler.rs:87-92 | confirming an edit form updates the selected row's id with the form's book; without a selection it only closes the form; a selection past the end panics |
| Handler.TypingEditsFocusedField | src/handler.rs:101-128 | a key typed into a text field changes that field's text area only, and nothing else of the state |
| Handler.TypingEditsSearchField | src/handler.rs:150-177 | a key typed into a text field of the search form changes that field's text area only; the focus, the other text areas, the rows, the selection and the search flag stay |
| Handler.IgnoredFormKeys | src/handler.rs:100 | Enter on the title, and any key but Tab, BackTab and Enter on a button, leave the state unchanged on both forms |
| Handler.FocusKey | src/handler.rs:53-60 | Tab and BackTab move the add/edit form's focus to `(k+1) mod 9` and `(k+8) mod 9` and change nothing else |
| Handler.TabBackTabInverse | src/handler.rs:53-60 | Tab then BackTab, or BackTab then Tab, gives back the same state |
| Handler.TabKey | src/handler.rs:53-56 | a Tab followed by more keys acts as the focus step followed by those keys |
| Handler.TabsMoveFocus | src/handler.rs:53-56 | `m` Tab presses move the focus `m` stops and change nothing else |
| Handler.NineTabsRestore | src/handler.rs:53-56 | nine Tab presses give back the same state |
| Handler.SearchFocusKey | src/handler.rs:141-148 | Tab and BackTab move the search form's focus to `(k+1) mod 9` and `(k+8) mod 9` and change nothing else |
| Handler.CancelSearchForm | src/handler.rs:217-220 | cancel closes the search form and flips its popup flag; the rows stay |
| Handler.ConfirmSearchForm | src/handler.rs:178-216 | confirming a search replaces the rows by exactly the stored books matching the form, sets the search flag, closes the form, and keeps the selection |
| Handler.BlankSearchFindsUnrated | src/handler.rs:195-212 | a search confirmed on a blank form finds exactly the stored books rated 0 |
| Handler.StaleSelectionAfterSearch | src/handler.rs:212-215 | a search that finds fewer rows than the selected index, followed by `d`, panics |
| Handler.QuitKeys | src/handler.rs:233-241 | Esc and `q` stop the program; `c` and `C` stop it only with Control alone; nothing else changes |
| Handler.OnlyDeleteWrites | src/handler.rs:230-298 | on the main view, only `d` changes the rows or calls the database |
| Handler.DeleteKey | src/handler.rs:243-247 | `d` does nothing without rows and otherwise is `delete_book` |
| Handler.OpenForms | src/handler.rs:269-291 | `i` opens a blank add form, clears the search flag and flips the add popup flag; `/` opens a blank search form and flips the search popup flag |
| Handler.UpdateKey | src/handler.rs:248-268 | `u` opens the selected row's edit form; without a selection it only flips the popup flag; a stale selection or a missing date panics |
| Handler.NavigationKeys | src/handler.rs:278-287 | Up, Down, `k` and `j` change only the selection, an in-range selection stays in range, and the keys do nothing without rows |
| Handler.OpenEditKey | src/handler.rs:248-268 | `u` on a selected row with both dates, followed by more keys, opens that row's edit form first |
| Handler.BackTabKey | src/handler.rs:57-60 | a BackTab followed by more keys acts as the backward focus step followed by those keys |
| Handler.TwoBackTabsFromTitle | src/handler.rs:57-60 | two BackTabs from the title reach the confirm button |
| Handler.ConfirmUntouchedEdit | src/handler.rs:85-92 | Enter on the confirm button of an untouched edit form writes the row back under its own id |
| Handler.UntouchedEditWritesBack | src/handler.rs:248-268 | `u`, BackTab, BackTab, Enter writes the selected row back unchanged under its own id, with no other change, when its texts are plain and its years lie in 0 to 9999 |

## Left out

- Everything SQLite does is left out: the connection, the migrations, and the documents directory. `create_book`, `update_book` and the delete query are recorded as `DbCall`s, not executed. `search_book` reads its rows from the `rows` parameter, and `get_books` (reloading the rows after a write) is not part of this model.
- The result order of `search_book` is assumed to be table order; the query has no `ORDER BY`.
- Database failures (the `expect` calls in `src/database.rs`) are left out; every call is assumed to succeed.
- The terminal is left out: `src/ui.rs`, `src/main.rs` (the event loop, `tick`) and `src/reader.rs`.
- The `show_popup` field of `App` in `src/app.rs` is left out, because no handler reads it.
- `TextArea::input` is the abstract `edit` parameter, so the cursor, scrolling and key bindings inside a text area are not modelled.
- `Local::now()` is the `today` parameter.
- AppState.NextIndex, AppState.PreviousIndex, AppState.App.Next and AppState.App.Previous: `next` with a selection and `previous` from row 0 on an empty list are excluded by their requires. There `items.len() - 1` underflows `usize` (src/app.rs:90, src/app.rs:104), which panics in a debug build and wraps in a release build. The only callers, the Up/Down arms, check `len() != 0` first (src/handler.rs:279-285), so the case is never reached.
- chrono's `%Y-%m-%d` parser is modelled in its strict form: exactly four year digits and two month and day digits. chrono also accepts fewer digits (one to four year digits, one or two month and day digits), a year with a leading `+` or `-` and any number of digits, and whitespace before a numeric field; those inputs read here as the fallback date.
- The numbering of the focus variants is assumed to be the order the handlers match them in: the seven text fields are 0 to 6 (title, author, genre, rating, status, start date, end date), then the confirm button is 7 and the cancel button is 8. Both forms share one cycle length: `SEARCH_WINDOW_FOCUS` (src/handler.rs:38-40) is not defined in the revision of `src/app.rs` cited here, and is taken to equal `EDIT_WINDOW_FOCUS`, so the model has the single constant `EDIT_WINDOW_FOCUS = 9`. The nine-variant enum is not in that revision of `src/app.rs` either; there the buttons are 5 and 6. `FocusKey`, `TwoBackTabsFromTitle` and `UntouchedEditWritesBack` depend on this numbering.
- `KeyStep` and `Replay` give every key in a sequence the same `rows` to search. A create, update or delete recorded in `calls` earlier in the sequence is therefore never seen by a later search in the same sequence.
- The `expect` calls in `handle_key_events` are not modelled as panics. They can fire only when `from_int` fails, and `FocusCycle.NineSlotsWrap` shows it never does with nine variants.
- Text.ParseDate: states the shape of a parsable date and the year bound, not the full set of dates chrono accepts.
- Form.PrefillTexts: requires texts without any `'\r'` and without a trailing `'\n'`, which is more than needed. Only two things change a text: a `'\r'` right before a `'\n'` (which `str::lines` drops) and a trailing `'\n'` (whose empty last line `str::lines` drops). A lone `'\r'`, trailing or not, survives but is not covered by the lemma.
- Text.TextRoundTrip: the same requirement as `Form.PrefillTexts`, for the same reason.
