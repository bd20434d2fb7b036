/** The key handlers of src/handler.rs. Each handler is a method on `App`
    written arm by arm like the source, and is proved equal to a step function
    on the application's view (`AddStep`, `SearchStep`, `MainStep`, `KeyStep`);
    the lemmas below state what the handlers promise in terms of those.
    A step result of `None` means the program panics on an `unwrap`. */
module Handler {
  import opened Types
  import opened Text
  import opened AppState
  import opened FocusCycle
  import opened Form
  import opened Database

  /** `TextArea::input`: how a text area's lines change when it receives a key. */
  type Editor = (Lines, KeyEvent) -> Lines

  // ---------------------------------------------------------------------------
  // Step functions

  /** The add/edit form's reaction to a key (`handle_add_events`). */
  function AddStep(v: AppView, key: KeyEvent, today: CalDate, edit: Editor): Option<AppView> {
    match v.bookEditState
    case None => Some(v)
    case Some(t) =>
      match FormAction(key.code, t.focus)
      case Step(forward) =>
        Some(v.(bookEditState := Some(t.(focus := ChangeFocus(t.focus, forward)))))
      case Keep => Some(v)
      case EditField =>
        Some(v.(bookEditState := Some(t.(buffers := t.buffers.With(t.focus, edit(t.buffers.Get(t.focus), key))))))
      case Cancel => Some(v.(bookEditState := None, addPopup := !v.addPopup))
      case Confirm => ConfirmBookForm(v, t, today)
  }

  /** Enter on the confirm button of the add/edit form: the form closes, the
      add popup flag flips, and the book the form reads as is created, or
      written over the selected row (nothing is written without a selection;
      a selection past the last row panics). */
  function ConfirmBookForm(v: AppView, t: BookState, today: CalDate): (r: Option<AppView>)
    ensures r.Some? ==> r.value == v.(bookEditState := None, addPopup := !v.addPopup, calls := r.value.calls)
  {
    var closed := v.(bookEditState := None, addPopup := !v.addPopup);
    var book := ReadForm(t.buffers, today, today);
    if !t.isEdit then Some(closed.(calls := v.calls + [Create(book)]))
    else
      match v.selected
      case None => Some(closed)
      case Some(s) =>
        if s < |v.items| then Some(closed.(calls := v.calls + [Update(v.items[s].id, book)]))
        else None
  }

  /** The search form's reaction to a key (`handle_search_events`); `rows` is
      what the database holds when the search runs. */
  function SearchStep(v: AppView, key: KeyEvent, rows: seq<Book>, edit: Editor): AppView {
    match v.searchFieldState
    case None => v
    case Some(t) =>
      match FormAction(key.code, t.focus)
      case Step(forward) =>
        v.(searchFieldState := Some(t.(focus := ChangeFocus(t.focus, forward))))
      case Keep => v
      case EditField =>
        v.(searchFieldState := Some(t.(buffers := t.buffers.With(t.focus, edit(t.buffers.Get(t.focus), key)))))
      case Cancel => v.(searchFieldState := None, searchPopup := !v.searchPopup)
      case Confirm =>
        v.(items := SearchBook(rows, ReadForm(t.buffers, SEARCH_START, SEARCH_END)),
           searchActive := true,
           searchPopup := !v.searchPopup,
           searchFieldState := None)
  }

  /** The `'u'` arm of `handle_main_events`: the edit form filled from the
      selected row, with the add popup flag flipped. */
  function EditSelected(v: AppView): (r: Option<AppView>)
    ensures r.Some? ==> r.value == v.(bookEditState := r.value.bookEditState, addPopup := !v.addPopup)
  {
    match v.selected
    case None => Some(v.(addPopup := !v.addPopup))
    case Some(i) =>
      if i >= |v.items| then None
      else
        match Prefill(v.items[i])
        case None => None
        case Some(form) => Some(v.(bookEditState := Some(form), addPopup := !v.addPopup))
  }

  /** The main view's reaction to a key (`handle_main_events`). */
  function MainStep(v: AppView, key: KeyEvent): Option<AppView> {
    match key.code
    case Esc | Char('q') => Some(v.(running := false))
    case Char('c') | Char('C') =>
      Some(if key.modifiers == CONTROL then v.(running := false) else v)
    case Char('d') =>
      if |v.items| != 0 then DeleteStep(v) else Some(v)
    case Char('u') => EditSelected(v)
    case Char('i') =>
      Some(v.(bookEditState := Some(DefaultBookState()), searchActive := false, addPopup := !v.addPopup))
    case Char('r') => Some(v.(searchActive := false))
    case Up | Char('k') =>
      Some(if |v.items| != 0 then v.(selected := Some(PreviousIndex(v.selected, |v.items|))) else v)
    case Down | Char('j') =>
      Some(if |v.items| != 0 then v.(selected := Some(NextIndex(v.selected, |v.items|))) else v)
    case Char('/') =>
      Some(v.(searchFieldState := Some(DefaultSearchState()), searchPopup := !v.searchPopup))
    case Char('?') => Some(v.(helpPopup := !v.helpPopup))
    case _ => Some(v)
  }

  /** The whole reaction to a key event (`handle_key_events`): releases are
      ignored; an open add/edit form takes the key, else an open search form,
      else the main view. */
  function KeyStep(v: AppView, key: KeyEvent, today: CalDate, rows: seq<Book>, edit: Editor): Option<AppView> {
    if key.kind == Press || key.kind == Repeat then
      if v.bookEditState.Some? then AddStep(v, key, today, edit)
      else if v.searchFieldState.Some? then Some(SearchStep(v, key, rows, edit))
      else MainStep(v, key)
    else Some(v)
  }

  // ---------------------------------------------------------------------------
  // Handlers

  /** The `match` on the focus shared by both form handlers: the key goes to
      the focused text area's `input`, and a key on a button goes nowhere. */
  method InputFocused(buffers: Buffers, focus: Focus, key: KeyEvent, edit: Editor) returns (r: Buffers)
    ensures focus.IsTextField() ==> r == buffers.With(focus, edit(buffers.Get(focus), key))
    ensures !focus.IsTextField() ==> r == buffers
  {
    r := buffers;
    match focus {
      case Title => r := r.(title := edit(r.title, key));
      case Author => r := r.(author := edit(r.author, key));
      case Genre => r := r.(genre := edit(r.genre, key));
      case Rating => r := r.(rating := edit(r.rating, key));
      case Status => r := r.(status := edit(r.status, key));
      case StartDate => r := r.(startDate := edit(r.startDate, key));
      case EndDate => r := r.(endDate := edit(r.endDate, key));
      case _ =>
    }
  }

  /** `handle_add_events`: takes the add/edit form out of `app`, applies the
      key, and puts the form back unless the key closed it. */
  method HandleAddEvents(key: KeyEvent, app: App, today: CalDate, edit: Editor) returns (outcome: Outcome)
    modifies app
    ensures AddStep(old(app.View()), key, today, edit).None? ==> outcome == Panicked
    ensures AddStep(old(app.View()), key, today, edit).Some? ==>
      outcome == Continue && app.View() == AddStep(old(app.View()), key, today, edit).value
  {
    outcome := Continue;
    var updatedTask: Option<BookState> := None;
    var taken := app.bookEditState;
    app.bookEditState := None;
    if taken.Some? {
      var task := taken.value;
      if key.code == Tab {
        task := task.(focus := ChangeFocus(task.focus, true));
        updatedTask := Some(task);
      } else if key.code == BackTab {
        task := task.(focus := ChangeFocus(task.focus, false));
        updatedTask := Some(task);
      } else if key.code == Enter && task.focus == ConfirmBtn {
        var newBook := ReadForm(task.buffers, today, today);
        if !task.isEdit {
          app.calls := app.calls + [Create(newBook)];
        } else if app.selected.Some? {
          var selected := app.selected.value;
          if selected >= |app.items| {
            outcome := Panicked;
            return;
          }
          app.calls := app.calls + [Update(app.items[selected].id, newBook)];
        }
        app.addPopup := !app.addPopup;
        updatedTask := None;
      } else if key.code == Enter && task.focus == CancelBtn {
        app.addPopup := !app.addPopup;
        updatedTask := None;
      } else if key.code == Enter && task.focus == Title {
        updatedTask := Some(task);
      } else {
        // every other key goes into the focused text area
        var buffers := InputFocused(task.buffers, task.focus, key, edit);
        updatedTask := Some(task.(buffers := buffers));
      }
    }
    app.bookEditState := updatedTask;
  }

  /** `handle_search_events`: takes the search form out of `app`, applies the
      key, and puts the form back unless the key closed it. */
  method HandleSearchEvents(key: KeyEvent, app: App, rows: seq<Book>, edit: Editor)
    modifies app
    ensures app.View() == SearchStep(old(app.View()), key, rows, edit)
  {
    var updatedTask: Option<SearchState> := None;
    var taken := app.searchFieldState;
    app.searchFieldState := None;
    if taken.Some? {
      var task := taken.value;
      if key.code == Tab {
        task := task.(focus := ChangeFocus(task.focus, true));
        updatedTask := Some(task);
      } else if key.code == BackTab {
        task := task.(focus := ChangeFocus(task.focus, false));
        updatedTask := Some(task);
      } else if key.code == Enter && task.focus == Title {
        updatedTask := Some(task);
      } else if key.code == Enter && task.focus == ConfirmBtn {
        var bookInfo := ReadForm(task.buffers, SEARCH_START, SEARCH_END);
        app.items := SearchBook(rows, bookInfo);
        app.searchActive := true;
        app.searchPopup := !app.searchPopup;
        updatedTask := None;
      } else if key.code == Enter && task.focus == CancelBtn {
        app.searchPopup := !app.searchPopup;
        updatedTask := None;
      } else {
        // every other key goes into the focused text area
        var buffers := InputFocused(task.buffers, task.focus, key, edit);
        updatedTask := Some(task.(buffers := buffers));
      }
    }
    app.searchFieldState := updatedTask;
  }

  /** The `'u'` arm of `handle_main_events`: loads the selected row into the
      edit form and flips the add popup flag. */
  method OpenEditForm(app: App) returns (outcome: Outcome)
    modifies app
    ensures EditSelected(old(app.View())).None? ==> outcome == Panicked
    ensures EditSelected(old(app.View())).Some? ==>
      outcome == Continue && app.View() == EditSelected(old(app.View())).value
  {
    ghost var v := app.View();
    outcome := Continue;
    if app.selected.Some? {
      var index := app.selected.value;
      if index >= |app.items| {
        outcome := Panicked;
        return;
      }
      var newBookState := Prefill(app.items[index]);
      if newBookState.None? {
        outcome := Panicked;
        return;
      }
      app.bookEditState := newBookState;
      assert EditSelected(v) == Some(v.(bookEditState := newBookState, addPopup := !v.addPopup));
    }
    app.addPopup := !app.addPopup;
  }

  /** `handle_main_events`: quitting, deleting, opening the forms, clearing
      the search flag, moving the selection and toggling the help. */
  method HandleMainEvents(key: KeyEvent, app: App) returns (outcome: Outcome)
    modifies app
    ensures MainStep(old(app.View()), key).None? ==> outcome == Panicked
    ensures MainStep(old(app.View()), key).Some? ==>
      outcome == Continue && app.View() == MainStep(old(app.View()), key).value
  {
    outcome := Continue;
    match key.code
    case Esc | Char('q') =>
      app.Quit();
    case Char('c') | Char('C') =>
      if key.modifiers == CONTROL {
        app.Quit();
      }
    case Char('d') =>
      if |app.items| != 0 {
        outcome := DeleteBook(app);
      }
    case Char('u') =>
      outcome := OpenEditForm(app);
    case Char('i') =>
      app.bookEditState := Some(DefaultBookState());
      app.searchActive := false;
      app.addPopup := !app.addPopup;
    case Char('r') =>
      app.searchActive := false;
    case Up | Char('k') =>
      if |app.items| != 0 {
        app.Previous();
      }
    case Down | Char('j') =>
      if |app.items| != 0 {
        app.Next();
      }
    case Char('/') =>
      app.searchFieldState := Some(DefaultSearchState());
      app.searchPopup := !app.searchPopup;
    case Char('?') =>
      app.helpPopup := !app.helpPopup;
    case _ =>
  }

  /** `handle_key_events`: routes a pressed or repeated key to the open form,
      or to the main view when no form is open. */
  method HandleKeyEvents(key: KeyEvent, app: App, today: CalDate, rows: seq<Book>, edit: Editor)
    returns (outcome: Outcome)
    modifies app
    ensures KeyStep(old(app.View()), key, today, rows, edit).None? ==> outcome == Panicked
    ensures KeyStep(old(app.View()), key, today, rows, edit).Some? ==>
      outcome == Continue && app.View() == KeyStep(old(app.View()), key, today, rows, edit).value
  {
    outcome := Continue;
    if key.kind == Press || key.kind == Repeat {
      if app.bookEditState.Some? {
        outcome := HandleAddEvents(key, app, today, edit);
      } else if app.searchFieldState.Some? {
        HandleSearchEvents(key, app, rows, edit);
      } else {
        outcome := HandleMainEvents(key, app);
      }
    }
  }

  // ---------------------------------------------------------------------------
  // Keys one after the other

  /** The view after `keys` are handled in order, or `None` once one panics. */
  function Replay(v: AppView, keys: seq<KeyEvent>, today: CalDate, rows: seq<Book>, edit: Editor): Option<AppView>
    decreases |keys|
  {
    if keys == [] then Some(v)
    else
      match KeyStep(v, keys[0], today, rows, edit)
      case None => None
      case Some(w) => Replay(w, keys[1..], today, rows, edit)
  }

  /** Replaying keys whose first step succeeds continues from that step's view. */
  lemma ReplayStep(v: AppView, w: AppView, keys: seq<KeyEvent>, today: CalDate, rows: seq<Book>, edit: Editor)
    requires keys != [] && KeyStep(v, keys[0], today, rows, edit) == Some(w)
    ensures Replay(v, keys, today, rows, edit) == Replay(w, keys[1..], today, rows, edit)
  {
  }

  /** A key whose step succeeds, followed by more keys. */
  lemma ReplayCons(v: AppView, w: AppView, key: KeyEvent, rest: seq<KeyEvent>, today: CalDate, rows: seq<Book>, edit: Editor)
    requires KeyStep(v, key, today, rows, edit) == Some(w)
    ensures Replay(v, [key] + rest, today, rows, edit) == Replay(w, rest, today, rows, edit)
  {
    assert ([key] + rest)[1..] == rest;
  }

  /** The focus after `m` Tab presses on a form. */
  function TabFocus(f: Focus, m: nat): Focus
    decreases m
  {
    if m == 0 then f else TabFocus(ChangeFocus(f, true), m - 1)
  }

  /** Tab presses walk the slots as the generic cycler does. */
  lemma {:induction false} TabFocusForward(f: Focus, m: nat)
    ensures Forward(f.IntValue(), 9, m) == Some(TabFocus(f, m).IntValue())
    decreases m
  {
    if m > 0 {
      NineSlotsWrap(f.IntValue(), true);
      TabFocusForward(ChangeFocus(f, true), m - 1);
    }
  }

  /** Nine Tab presses bring the focus back to where it was. */
  lemma NineTabsFullCircle(f: Focus)
    ensures TabFocus(f, 9) == f
  {
    TabFocusForward(f, 9);
    ForwardFullCircle(f.IntValue(), 9);
    FromIntValue(f);
    FromIntValue(TabFocus(f, 9));
  }

  // ---------------------------------------------------------------------------
  // Routing

  /** Whatever key arrives, the add/edit form and the search form are never
      open together afterwards. */
  lemma KeyStepKeepsOneModal(v: AppView, key: KeyEvent, today: CalDate, rows: seq<Book>, edit: Editor)
    requires v.AtMostOneModal()
    requires KeyStep(v, key, today, rows, edit).Some?
    ensures KeyStep(v, key, today, rows, edit).value.AtMostOneModal()
  {
    if key.kind != Release {
      if v.bookEditState.Some? {
        AddFormOwnsKeys(v, key, today, edit);
      } else if v.searchFieldState.Some? {
        SearchFormOwnsKeys(v, key, rows, edit);
      } else {
        MainStepOpensOneForm(v, key);
      }
    }
  }

  /** From the main view a key opens at most one form. */
  lemma MainStepOpensOneForm(v: AppView, key: KeyEvent)
    requires v.bookEditState.None? && v.searchFieldState.None?
    requires MainStep(v, key).Some?
    ensures MainStep(v, key).value.AtMostOneModal()
  {
    if key.code == Char('i') || key.code == Char('/') {
      OpenForms(v, key);
    } else if key.code == Char('u') {
      UpdateKey(v, key);
    } else {
      OtherKeysOpenNoForm(v, key);
    }
  }

  /** On the main view only `i`, `u` and `/` open a form. */
  lemma OtherKeysOpenNoForm(v: AppView, key: KeyEvent)
    requires key.code != Char('i') && key.code != Char('u') && key.code != Char('/')
    requires MainStep(v, key).Some?
    ensures MainStep(v, key).value.bookEditState == v.bookEditState
    ensures MainStep(v, key).value.searchFieldState == v.searchFieldState
  {
    match key.code {
      case Esc | Char('q') =>
      case Char('c') | Char('C') =>
      case Char('d') =>
      case Char('u') =>
      case Char('i') =>
      case Char('r') =>
      case Up | Char('k') =>
      case Down | Char('j') =>
      case Char('/') =>
      case Char('?') =>
      case _ =>
    }
  }

  /** The add/edit form panics only when an edit is confirmed while the
      selection lies past the last row. */
  lemma AddFormPanics(v: AppView, key: KeyEvent, today: CalDate, edit: Editor)
    requires v.bookEditState.Some?
    ensures var t := v.bookEditState.value;
      AddStep(v, key, today, edit).None? <==>
        key.code == Enter && t.focus == ConfirmBtn && t.isEdit && !v.SelectionInRange()
  {
  }

  /** While the add/edit form is open it takes every key: only the form, the
      add popup flag and the database calls can change. */
  lemma AddFormOwnsKeys(v: AppView, key: KeyEvent, today: CalDate, edit: Editor)
    requires v.bookEditState.Some? && AddStep(v, key, today, edit).Some?
    ensures var w := AddStep(v, key, today, edit).value;
      w == v.(bookEditState := w.bookEditState, addPopup := w.addPopup, calls := w.calls)
  {
    match FormAction(key.code, v.bookEditState.value.focus) {
      case Step(_) =>
      case Keep =>
      case EditField =>
      case Cancel =>
      case Confirm =>
    }
  }

  /** The add/edit form closes, and the popup flag flips, exactly on Enter on
      a button. */
  lemma AddFormCloses(v: AppView, key: KeyEvent, today: CalDate, edit: Editor)
    requires v.bookEditState.Some? && AddStep(v, key, today, edit).Some?
    ensures var t := v.bookEditState.value;
      var closing := key.code == Enter && (t.focus == ConfirmBtn || t.focus == CancelBtn);
      var w := AddStep(v, key, today, edit).value;
      && (w.bookEditState.None? <==> closing)
      && (w.addPopup != v.addPopup <==> closing)
  {
    match FormAction(key.code, v.bookEditState.value.focus) {
      case Step(_) =>
      case Keep =>
      case EditField =>
      case Cancel =>
      case Confirm =>
    }
  }

  /** A key on the add/edit form makes at most one database call, only on
      Enter on the confirm button, and that call is a create exactly when the
      form is not an edit form. */
  lemma AddFormCalls(v: AppView, key: KeyEvent, today: CalDate, edit: Editor)
    requires v.bookEditState.Some? && AddStep(v, key, today, edit).Some?
    ensures var t := v.bookEditState.value;
      var w := AddStep(v, key, today, edit).value;
      && w.calls[..|v.calls|] == v.calls
      && |v.calls| <= |w.calls| <= |v.calls| + 1
      && (|w.calls| > |v.calls| ==> key.code == Enter && t.focus == ConfirmBtn)
      && (|w.calls| > |v.calls| ==> (w.calls[|v.calls|].Create? <==> !t.isEdit))
  {
    var t := v.bookEditState.value;
    if FormAction(key.code, t.focus) == Confirm {
      var book := ReadForm(t.buffers, today, today);
      assert (v.calls + [Create(book)])[..|v.calls|] == v.calls;
      if v.selected.Some? && v.selected.value < |v.items| {
        assert (v.calls + [Update(v.items[v.selected.value].id, book)])[..|v.calls|] == v.calls;
      }
    }
  }

  /** While the search form is open it takes every key: no database write
      happens and the selection is kept; the rows and the search flag change
      only when the search is confirmed. The form closes, and the popup flag
      flips, exactly on Enter on a button. */
  lemma SearchFormOwnsKeys(v: AppView, key: KeyEvent, rows: seq<Book>, edit: Editor)
    requires v.searchFieldState.Some?
    ensures var t := v.searchFieldState.value;
      var closing := key.code == Enter && (t.focus == ConfirmBtn || t.focus == CancelBtn);
      var w := SearchStep(v, key, rows, edit);
      && w == v.(searchFieldState := w.searchFieldState, searchPopup := w.searchPopup,
                 items := w.items, searchActive := w.searchActive)
      && (w.searchFieldState.None? <==> closing)
      && (w.searchPopup != v.searchPopup <==> closing)
      && (!(key.code == Enter && t.focus == ConfirmBtn) ==> w.items == v.items && w.searchActive == v.searchActive)
  {
    match FormAction(key.code, v.searchFieldState.value.focus) {
      case Step(_) =>
      case Keep =>
      case EditField =>
      case Cancel =>
      case Confirm =>
    }
  }

  /** A released key changes nothing. */
  lemma ReleaseIgnored(v: AppView, key: KeyEvent, today: CalDate, rows: seq<Book>, edit: Editor)
    requires key.kind == Release
    ensures Replay(v, [key], today, rows, edit) == Some(v)
  {
  }

  // ---------------------------------------------------------------------------
  // The add/edit form

  /** Cancel closes the form and flips the popup flag, and calls nothing. */
  lemma CancelAddForm(v: AppView, t: BookState, key: KeyEvent, today: CalDate, edit: Editor)
    requires v.bookEditState == Some(t) && key.code == Enter && t.focus == CancelBtn
    ensures AddStep(v, key, today, edit) == Some(v.(bookEditState := None, addPopup := !v.addPopup))
  {
  }

  /** Confirming an add form creates the book the form reads as, with today
      for a date that does not parse. */
  lemma ConfirmAddForm(v: AppView, t: BookState, key: KeyEvent, today: CalDate, edit: Editor)
    requires v.bookEditState == Some(t) && !t.isEdit && key.code == Enter && t.focus == ConfirmBtn
    ensures AddStep(v, key, today, edit) ==
      Some(v.(bookEditState := None, addPopup := !v.addPopup,
              calls := v.calls + [Create(ReadForm(t.buffers, today, today))]))
  {
  }

  /** Confirming an edit form updates the selected row's id with what the form
      reads as; without a selection it only closes the form; with a selection
      past the last row it panics. */
  lemma ConfirmEditForm(v: AppView, t: BookState, key: KeyEvent, today: CalDate, edit: Editor)
    requires v.bookEditState == Some(t) && t.isEdit && key.code == Enter && t.focus == ConfirmBtn
    ensures v.selected.None? ==>
      AddStep(v, key, today, edit) == Some(v.(bookEditState := None, addPopup := !v.addPopup))
    ensures v.selected.Some? && v.selected.value < |v.items| ==>
      AddStep(v, key, today, edit) ==
        Some(v.(bookEditState := None, addPopup := !v.addPopup,
                calls := v.calls + [Update(v.items[v.selected.value].id, ReadForm(t.buffers, today, today))]))
    ensures !v.SelectionInRange() ==> AddStep(v, key, today, edit) == None
  {
  }

  /** A key other than Tab and BackTab typed into a text field (Enter except
      on the title) goes into that field's text area and nowhere else. */
  lemma TypingEditsFocusedField(v: AppView, t: BookState, key: KeyEvent, today: CalDate, edit: Editor)
    requires v.bookEditState == Some(t) && t.focus.IsTextField()
    requires key.code != Tab && key.code != BackTab && !(key.code == Enter && t.focus == Title)
    ensures AddStep(v, key, today, edit).Some?
    ensures var w := AddStep(v, key, today, edit).value;
      && w == v.(bookEditState := w.bookEditState)
      && w.bookEditState.Some?
      && var u := w.bookEditState.value;
      && u.focus == t.focus && u.isEdit == t.isEdit
      && u.buffers.Get(t.focus) == edit(t.buffers.Get(t.focus), key)
      && forall g: Focus :: g.IsTextField() && g != t.focus ==> u.buffers.Get(g) == t.buffers.Get(g)
  {
    WithKeepsOthers(t.buffers, t.focus, edit(t.buffers.Get(t.focus), key));
  }

  /** The same on the search form: the key goes into the focused text area
      and nowhere else; the rows, the selection and the search flag stay. */
  lemma TypingEditsSearchField(v: AppView, t: SearchState, key: KeyEvent, rows: seq<Book>, edit: Editor)
    requires v.searchFieldState == Some(t) && t.focus.IsTextField()
    requires key.code != Tab && key.code != BackTab && !(key.code == Enter && t.focus == Title)
    ensures var w := SearchStep(v, key, rows, edit);
      && w == v.(searchFieldState := w.searchFieldState)
      && w.searchFieldState.Some?
      && var u := w.searchFieldState.value;
      && u.focus == t.focus
      && u.buffers.Get(t.focus) == edit(t.buffers.Get(t.focus), key)
      && forall g: Focus :: g.IsTextField() && g != t.focus ==> u.buffers.Get(g) == t.buffers.Get(g)
  {
    WithKeepsOthers(t.buffers, t.focus, edit(t.buffers.Get(t.focus), key));
  }

  /** Enter on the title, and any key but Tab, BackTab and Enter on a button,
      leave everything as it was, on both forms. */
  lemma IgnoredFormKeys(v: AppView, key: KeyEvent, today: CalDate, rows: seq<Book>, edit: Editor)
    requires v.bookEditState.Some? || v.searchFieldState.Some?
    requires var f := if v.bookEditState.Some? then v.bookEditState.value.focus else v.searchFieldState.value.focus;
      (key.code == Enter && f == Title)
      || (!f.IsTextField() && key.code != Tab && key.code != BackTab && key.code != Enter)
    ensures Replay(v, [key], today, rows, edit) == Some(v)
  {
    var f := if v.bookEditState.Some? then v.bookEditState.value.focus else v.searchFieldState.value.focus;
    assert FormAction(key.code, f) == Keep;
  }

  /** Tab and BackTab on the add/edit form move its focus one slot, wrapping
      at both ends, and change nothing else. */
  lemma FocusKey(v: AppView, key: KeyEvent, today: CalDate, rows: seq<Book>, edit: Editor)
    requires v.bookEditState.Some? && (key.code == Tab || key.code == BackTab) && (key.kind == Press || key.kind == Repeat)
    ensures var t := v.bookEditState.value;
      var f := ChangeFocus(t.focus, key.code == Tab);
      && KeyStep(v, key, today, rows, edit) == Some(v.(bookEditState := Some(t.(focus := f))))
      && f.IntValue() == (if key.code == Tab then (t.focus.IntValue() + 1) % 9 else (t.focus.IntValue() + 8) % 9)
  {
    assert FormAction(key.code, v.bookEditState.value.focus) == Step(key.code == Tab);
  }

  /** Tab then BackTab, or BackTab then Tab, on the add/edit form gives back
      the same application state. */
  lemma TabBackTabInverse(v: AppView, tab: KeyEvent, backTab: KeyEvent, today: CalDate, rows: seq<Book>, edit: Editor)
    requires v.bookEditState.Some?
    requires tab.code == Tab && backTab.code == BackTab
    requires (tab.kind == Press || tab.kind == Repeat) && (backTab.kind == Press || backTab.kind == Repeat)
    ensures Replay(v, [tab, backTab], today, rows, edit) == Some(v)
    ensures Replay(v, [backTab, tab], today, rows, edit) == Some(v)
  {
    var t := v.bookEditState.value;
    ChangeFocusInverse(t.focus);
    var forth := v.(bookEditState := Some(t.(focus := ChangeFocus(t.focus, true))));
    var back := v.(bookEditState := Some(t.(focus := ChangeFocus(t.focus, false))));
    FocusKey(v, tab, today, rows, edit);
    FocusKey(forth, backTab, today, rows, edit);
    FocusKey(v, backTab, today, rows, edit);
    FocusKey(back, tab, today, rows, edit);
    ReplayStep(v, forth, [tab, backTab], today, rows, edit);
    ReplayStep(forth, v, [backTab], today, rows, edit);
    ReplayStep(v, back, [backTab, tab], today, rows, edit);
    ReplayStep(back, v, [tab], today, rows, edit);
  }

  /** `m` copies of a key. */
  function Presses(key: KeyEvent, m: nat): (r: seq<KeyEvent>)
    ensures |r| == m
  {
    if m == 0 then [] else [key] + Presses(key, m - 1)
  }

  /** Tab on the add/edit form, followed by more keys. */
  lemma TabKey(v: AppView, tab: KeyEvent, rest: seq<KeyEvent>, today: CalDate, rows: seq<Book>, edit: Editor)
    requires v.bookEditState.Some? && tab.code == Tab && (tab.kind == Press || tab.kind == Repeat)
    ensures var t := v.bookEditState.value;
      Replay(v, [tab] + rest, today, rows, edit) ==
        Replay(v.(bookEditState := Some(t.(focus := ChangeFocus(t.focus, true)))), rest, today, rows, edit)
  {
    var t := v.bookEditState.value;
    FocusKey(v, tab, today, rows, edit);
    ReplayCons(v, v.(bookEditState := Some(t.(focus := ChangeFocus(t.focus, true)))), tab, rest, today, rows, edit);
  }

  /** `m` Tab presses on the add/edit form move its focus `m` slots and change
      nothing else. */
  lemma {:induction false} TabsMoveFocus(v: AppView, tab: KeyEvent, m: nat, today: CalDate, rows: seq<Book>, edit: Editor)
    requires v.bookEditState.Some? && tab.code == Tab && (tab.kind == Press || tab.kind == Repeat)
    ensures var t := v.bookEditState.value;
      Replay(v, Presses(tab, m), today, rows, edit) == Some(v.(bookEditState := Some(t.(focus := TabFocus(t.focus, m)))))
    decreases m
  {
    if m > 0 {
      var t := v.bookEditState.value;
      var w := v.(bookEditState := Some(t.(focus := ChangeFocus(t.focus, true))));
      TabKey(v, tab, Presses(tab, m - 1), today, rows, edit);
      TabsMoveFocus(w, tab, m - 1, today, rows, edit);
    }
  }

  /** Nine Tab presses on the add/edit form give back the same state. */
  lemma NineTabsRestore(v: AppView, tab: KeyEvent, today: CalDate, rows: seq<Book>, edit: Editor)
    requires v.bookEditState.Some? && tab.code == Tab && (tab.kind == Press || tab.kind == Repeat)
    ensures Replay(v, Presses(tab, 9), today, rows, edit) == Some(v)
  {
    TabsMoveFocus(v, tab, 9, today, rows, edit);
    NineTabsFullCircle(v.bookEditState.value.focus);
  }

  // ---------------------------------------------------------------------------
  // The search form

  /** Tab and BackTab on the search form move its focus one slot, wrapping at
      both ends, and change nothing else. */
  lemma SearchFocusKey(v: AppView, key: KeyEvent, today: CalDate, rows: seq<Book>, edit: Editor)
    requires v.bookEditState.None? && v.searchFieldState.Some?
    requires (key.code == Tab || key.code == BackTab) && (key.kind == Press || key.kind == Repeat)
    ensures var t := v.searchFieldState.value;
      var f := ChangeFocus(t.focus, key.code == Tab);
      && KeyStep(v, key, today, rows, edit) == Some(v.(searchFieldState := Some(t.(focus := f))))
      && f.IntValue() == (if key.code == Tab then (t.focus.IntValue() + 1) % 9 else (t.focus.IntValue() + 8) % 9)
  {
    assert FormAction(key.code, v.searchFieldState.value.focus) == Step(key.code == Tab);
  }

  /** Cancel closes the search form and flips its popup flag; the rows stay. */
  lemma CancelSearchForm(v: AppView, t: SearchState, key: KeyEvent, rows: seq<Book>, edit: Editor)
    requires v.searchFieldState == Some(t) && key.code == Enter && t.focus == CancelBtn
    ensures SearchStep(v, key, rows, edit) == v.(searchFieldState := None, searchPopup := !v.searchPopup)
  {
  }

  /** Confirming a search replaces the rows by exactly the stored books that
      match the form, marks the search active and closes the form; the
      selection is kept as it was, even past the end of the new rows. */
  lemma ConfirmSearchForm(v: AppView, t: SearchState, key: KeyEvent, rows: seq<Book>, edit: Editor)
    requires v.searchFieldState == Some(t) && key.code == Enter && t.focus == ConfirmBtn
    ensures var w := SearchStep(v, key, rows, edit);
      var info := ReadForm(t.buffers, SEARCH_START, SEARCH_END);
      && w == v.(items := w.items, searchActive := true, searchPopup := !v.searchPopup, searchFieldState := None)
      && (forall b :: b in w.items <==> b in rows && Matches(info, b))
      && w.items == SearchBook(rows, info)
  {
    SearchBookSelects(rows, ReadForm(t.buffers, SEARCH_START, SEARCH_END));
  }

  /** A search confirmed on a blank form finds exactly the stored books rated 0. */
  lemma BlankSearchFindsUnrated(v: AppView, key: KeyEvent, rows: seq<Book>, edit: Editor)
    requires v.searchFieldState == Some(SearchState(EmptyBuffers(), ConfirmBtn)) && key.code == Enter
    ensures forall b :: b in SearchStep(v, key, rows, edit).items <==> b in rows && b.rating == 0
  {
    BlankSearchForm();
    BlankTextsFilterOnRatingOnly(rows, ReadForm(EmptyBuffers(), SEARCH_START, SEARCH_END));
  }

  /** A search that finds fewer rows than the selected index leaves the
      selection past the end, and the next `d` then panics. */
  lemma StaleSelectionAfterSearch(v: AppView, t: SearchState, enter: KeyEvent, d: KeyEvent,
                                  today: CalDate, rows: seq<Book>, edit: Editor)
    requires v.bookEditState.None? && v.searchFieldState == Some(t) && t.focus == ConfirmBtn
    requires enter.code == Enter && (enter.kind == Press || enter.kind == Repeat)
    requires d.code == Char('d') && (d.kind == Press || d.kind == Repeat)
    requires v.selected.Some?
    requires 0 < |SearchBook(rows, ReadForm(t.buffers, SEARCH_START, SEARCH_END))| <= v.selected.value
    ensures Replay(v, [enter, d], today, rows, edit) == None
  {
    var w := SearchStep(v, enter, rows, edit);
    ConfirmSearchForm(v, t, enter, rows, edit);
    assert [enter, d] == [enter] + [d];
    ReplayCons(v, w, enter, [d], today, rows, edit);
    DeleteKey(w, d);
    DeleteStaleSelectionPanics(w);
  }

  // ---------------------------------------------------------------------------
  // The main view

  /** Esc and `q` stop the program; `c` and `C` stop it only with Control as
      the sole modifier. Nothing else changes. */
  lemma QuitKeys(v: AppView, key: KeyEvent)
    requires key.code in {Esc, Char('q'), Char('c'), Char('C')}
    ensures MainStep(v, key).Some?
    ensures MainStep(v, key).value == v.(running := MainStep(v, key).value.running)
    ensures key.code == Esc || key.code == Char('q') ==> !MainStep(v, key).value.running
    ensures key.code == Char('c') || key.code == Char('C') ==>
      MainStep(v, key).value.running == (v.running && key.modifiers != CONTROL)
  {
  }

  /** On the main view only `d` touches the rows or the database. */
  lemma OnlyDeleteWrites(v: AppView, key: KeyEvent)
    requires key.code != Char('d') && MainStep(v, key).Some?
    ensures MainStep(v, key).value.items == v.items
    ensures MainStep(v, key).value.calls == v.calls
  {
    match key.code {
      case Esc | Char('q') =>
      case Char('c') | Char('C') =>
      case Char('d') =>
      case Char('u') =>
      case Char('i') =>
      case Char('r') =>
      case Up | Char('k') =>
      case Down | Char('j') =>
      case Char('/') =>
      case Char('?') =>
      case _ =>
    }
  }

  /** `d` deletes the selected row (see `DeleteStep`), and does nothing when
      there are no rows. */
  lemma DeleteKey(v: AppView, key: KeyEvent)
    requires key.code == Char('d')
    ensures |v.items| == 0 ==> MainStep(v, key) == Some(v)
    ensures |v.items| != 0 ==> MainStep(v, key) == DeleteStep(v)
  {
  }

  /** `i` opens an empty add form focused on the title, clears the search
      flag and flips the add popup flag; `/` opens an empty search form and
      flips the search popup flag. */
  lemma OpenForms(v: AppView, key: KeyEvent)
    requires key.code == Char('i') || key.code == Char('/')
    ensures MainStep(v, key).Some?
    ensures key.code == Char('i') ==>
      var w := MainStep(v, key).value;
      && w == v.(bookEditState := w.bookEditState, searchActive := false, addPopup := !v.addPopup)
      && w.bookEditState.Some? && !w.bookEditState.value.isEdit && w.bookEditState.value.focus == Title
      && forall f: Focus :: f.IsTextField() ==> Join(w.bookEditState.value.buffers.Get(f)) == ""
    ensures key.code == Char('/') ==>
      var w := MainStep(v, key).value;
      && w == v.(searchFieldState := w.searchFieldState, searchPopup := !v.searchPopup)
      && w.searchFieldState.Some? && w.searchFieldState.value.focus == Title
      && forall f: Focus :: f.IsTextField() ==> Join(w.searchFieldState.value.buffers.Get(f)) == ""
  {
    DefaultFormsAreBlank();
  }

  /** `u` opens the edit form on the selected row, in edit mode and focused on
      the title; without a selection it flips the add popup flag and opens no
      form; a selection past the end or a row without both dates panics. */
  lemma UpdateKey(v: AppView, key: KeyEvent)
    requires key.code == Char('u')
    ensures v.selected.None? ==> MainStep(v, key) == Some(v.(addPopup := !v.addPopup))
    ensures MainStep(v, key).None? <==>
      v.selected.Some? && (v.selected.value >= |v.items| || v.items[v.selected.value].startDate.None?
                           || v.items[v.selected.value].endDate.None?)
    ensures v.selected.Some? && MainStep(v, key).Some? ==>
      var w := MainStep(v, key).value;
      && w == v.(bookEditState := w.bookEditState, addPopup := !v.addPopup)
      && w.bookEditState == Prefill(v.items[v.selected.value])
      && w.bookEditState.value.isEdit && w.bookEditState.value.focus == Title
  {
  }

  /** Up, Down, `k` and `j` move the selection among the rows, wrapping at
      both ends, and change nothing else; with no rows they do nothing. */
  lemma NavigationKeys(v: AppView, key: KeyEvent)
    requires key.code in {Up, Down, Char('k'), Char('j')}
    requires v.SelectionInRange()
    ensures MainStep(v, key).Some?
    ensures var w := MainStep(v, key).value;
      && w == v.(selected := w.selected)
      && w.SelectionInRange()
      && (|v.items| == 0 ==> w == v)
      && (|v.items| > 0 ==> w.selected.Some?)
  {
  }

  /** `u` on a selected row with both dates opens that row's edit form. */
  lemma OpenEditKey(v: AppView, u: KeyEvent, rest: seq<KeyEvent>, today: CalDate, rows: seq<Book>, edit: Editor)
    requires v.bookEditState.None? && v.searchFieldState.None?
    requires v.selected.Some? && v.selected.value < |v.items|
    requires v.items[v.selected.value].startDate.Some? && v.items[v.selected.value].endDate.Some?
    requires u.code == Char('u') && (u.kind == Press || u.kind == Repeat)
    ensures Replay(v, [u] + rest, today, rows, edit) ==
      Replay(v.(bookEditState := Prefill(v.items[v.selected.value]), addPopup := !v.addPopup), rest, today, rows, edit)
  {
    UpdateKey(v, u);
    assert KeyStep(v, u, today, rows, edit) == MainStep(v, u);
    ReplayCons(v, MainStep(v, u).value, u, rest, today, rows, edit);
  }

  /** BackTab on the add/edit form, followed by more keys. */
  lemma BackTabKey(v: AppView, backTab: KeyEvent, rest: seq<KeyEvent>, today: CalDate, rows: seq<Book>, edit: Editor)
    requires v.bookEditState.Some? && backTab.code == BackTab && (backTab.kind == Press || backTab.kind == Repeat)
    ensures var t := v.bookEditState.value;
      Replay(v, [backTab] + rest, today, rows, edit) ==
        Replay(v.(bookEditState := Some(t.(focus := ChangeFocus(t.focus, false)))), rest, today, rows, edit)
  {
    var t := v.bookEditState.value;
    FocusKey(v, backTab, today, rows, edit);
    ReplayCons(v, v.(bookEditState := Some(t.(focus := ChangeFocus(t.focus, false)))), backTab, rest, today, rows, edit);
  }

  /** Two BackTabs from the title of the add/edit form reach the confirm button. */
  lemma TwoBackTabsFromTitle(v: AppView, backTab: KeyEvent, rest: seq<KeyEvent>, today: CalDate, rows: seq<Book>, edit: Editor)
    requires v.bookEditState.Some? && v.bookEditState.value.focus == Title
    requires backTab.code == BackTab && (backTab.kind == Press || backTab.kind == Repeat)
    ensures Replay(v, [backTab] + ([backTab] + rest), today, rows, edit) ==
      Replay(v.(bookEditState := Some(v.bookEditState.value.(focus := ConfirmBtn))), rest, today, rows, edit)
  {
    var t := v.bookEditState.value;
    BackTabKey(v, backTab, [backTab] + rest, today, rows, edit);
    BackTabKey(v.(bookEditState := Some(t.(focus := CancelBtn))), backTab, rest, today, rows, edit);
  }

  /** Enter on the confirm button of the edit form filled from the selected
      row, left untouched, writes that row back under its own id. */
  lemma ConfirmUntouchedEdit(v: AppView, enter: KeyEvent, rest: seq<KeyEvent>, today: CalDate, rows: seq<Book>, edit: Editor)
    requires v.selected.Some? && v.selected.value < |v.items|
    requires var book := v.items[v.selected.value];
      && Plain(book.title) && Plain(book.author) && Plain(book.genre) && Plain(book.status)
      && book.startDate.Some? && 0 <= book.startDate.value.year <= 9999
      && book.endDate.Some? && 0 <= book.endDate.value.year <= 9999
    requires v.bookEditState == Some(Prefill(v.items[v.selected.value]).value.(focus := ConfirmBtn))
    requires enter.code == Enter && (enter.kind == Press || enter.kind == Repeat)
    ensures var book := v.items[v.selected.value];
      Replay(v, [enter] + rest, today, rows, edit) ==
        Replay(v.(bookEditState := None, addPopup := !v.addPopup,
                  calls := v.calls + [Update(book.id, AsNewBook(book))]), rest, today, rows, edit)
  {
    var book := v.items[v.selected.value];
    EditRoundTrip(book, today);
    ConfirmEditForm(v, v.bookEditState.value, enter, today, edit);
    ReplayCons(v, AddStep(v, enter, today, edit).value, enter, rest, today, rows, edit);
  }

  /** Opening the edit form on a row with `u`, moving to the confirm button with
      two BackTabs and pressing Enter writes the row back unchanged under its
      own id, whenever its texts have no `'\r'` and no trailing newline and its
      dates lie in years 0 to 9999. */
  lemma UntouchedEditWritesBack(v: AppView, u: KeyEvent, backTab: KeyEvent, enter: KeyEvent,
                                today: CalDate, rows: seq<Book>, edit: Editor)
    requires v.bookEditState.None? && v.searchFieldState.None?
    requires v.selected.Some? && v.selected.value < |v.items|
    requires u.code == Char('u') && backTab.code == BackTab && enter.code == Enter
    requires (u.kind == Press || u.kind == Repeat) && (backTab.kind == Press || backTab.kind == Repeat) && (enter.kind == Press || enter.kind == Repeat)
    requires var book := v.items[v.selected.value];
      && Plain(book.title) && Plain(book.author) && Plain(book.genre) && Plain(book.status)
      && book.startDate.Some? && 0 <= book.startDate.value.year <= 9999
      && book.endDate.Some? && 0 <= book.endDate.value.year <= 9999
    ensures var book := v.items[v.selected.value];
      Replay(v, [u] + ([backTab] + ([backTab] + ([enter] + []))), today, rows, edit) ==
        Some(v.(calls := v.calls + [Update(book.id, AsNewBook(book))]))
  {
    var book := v.items[v.selected.value];
    var w1 := v.(bookEditState := Prefill(book), addPopup := !v.addPopup);
    var w3 := w1.(bookEditState := Some(Prefill(book).value.(focus := ConfirmBtn)));
    OpenEditKey(v, u, [backTab] + ([backTab] + ([enter] + [])), today, rows, edit);
    TwoBackTabsFromTitle(w1, backTab, [enter] + [], today, rows, edit);
    ConfirmUntouchedEdit(w3, enter, [], today, rows, edit);
  }


}
