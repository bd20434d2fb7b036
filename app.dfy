/** The application state of src/app.rs: the focus enum of the forms, the
    form states, and `App` with its row selection (`next`, `previous`) and
    `quit`. The fields are those src/handler.rs reads and writes. */
module AppState {
  import opened Types
  import opened Text

  /** Number of stops of a form; the add/edit form and the search form have
      the same nine. */
  const EDIT_WINDOW_FOCUS: int := 9

  /** The focus of a form (`BookEditFocus`, and `SearchFieldFocus`, which has
      the same variants): seven text fields, then the two buttons. */
  datatype Focus = Title | Author | Genre | Rating | Status | StartDate | EndDate | ConfirmBtn | CancelBtn
  {
    /** `int_value()`: the variant's discriminant. */
    function IntValue(): (k: nat)
      ensures k < 9
      ensures IsTextField() <==> k < 7
    {
      match this
      case Title => 0
      case Author => 1
      case Genre => 2
      case Rating => 3
      case Status => 4
      case StartDate => 5
      case EndDate => 6
      case ConfirmBtn => 7
      case CancelBtn => 8
    }

    predicate IsTextField() {
      !(ConfirmBtn? || CancelBtn?)
    }
  }

  /** `from_int`: the variant with discriminant `k`, if there is one. */
  function FocusFromInt(k: int): (r: Option<Focus>)
    ensures r.Some? <==> 0 <= k < 9
    ensures r.Some? ==> r.value.IntValue() == k
  {
    if k == 0 then Some(Title)
    else if k == 1 then Some(Author)
    else if k == 2 then Some(Genre)
    else if k == 3 then Some(Rating)
    else if k == 4 then Some(Status)
    else if k == 5 then Some(StartDate)
    else if k == 6 then Some(EndDate)
    else if k == 7 then Some(ConfirmBtn)
    else if k == 8 then Some(CancelBtn)
    else None
  }

  /** `from_int` undoes `int_value`. */
  lemma FromIntValue(f: Focus)
    ensures FocusFromInt(f.IntValue()) == Some(f)
  {
  }

  /** The seven text areas of a form. */
  datatype Buffers = Buffers(
    title: Lines,
    author: Lines,
    genre: Lines,
    rating: Lines,
    status: Lines,
    startDate: Lines,
    endDate: Lines)
  {
    /** The text area a text-field focus points at. */
    function Get(f: Focus): Lines
      requires f.IsTextField()
    {
      match f
      case Title => title
      case Author => author
      case Genre => genre
      case Rating => rating
      case Status => status
      case StartDate => startDate
      case EndDate => endDate
    }

    /** The buffers with the text area at `f` replaced by `ls`. */
    function With(f: Focus, ls: Lines): (r: Buffers)
      requires f.IsTextField()
      ensures r.Get(f) == ls
    {
      match f
      case Title => this.(title := ls)
      case Author => this.(author := ls)
      case Genre => this.(genre := ls)
      case Rating => this.(rating := ls)
      case Status => this.(status := ls)
      case StartDate => this.(startDate := ls)
      case EndDate => this.(endDate := ls)
    }
  }

  /** Replacing one text area leaves the other six as they were. */
  lemma WithKeepsOthers(b: Buffers, f: Focus, ls: Lines)
    requires f.IsTextField()
    ensures forall g: Focus :: g.IsTextField() && g != f ==> b.With(f, ls).Get(g) == b.Get(g)
  {
    forall g: Focus | g.IsTextField() && g != f
      ensures b.With(f, ls).Get(g) == b.Get(g)
    {
      match f {
        case Title =>
        case Author =>
        case Genre =>
        case Rating =>
        case Status =>
        case StartDate =>
        case EndDate =>
      }
    }
  }

  /** Seven fresh text areas (`TextArea::default()` holds one empty line). */
  function EmptyBuffers(): Buffers {
    Buffers([""], [""], [""], [""], [""], [""], [""])
  }

  /** The add/edit form (`BookState`). */
  datatype BookState = BookState(buffers: Buffers, focus: Focus, isEdit: bool)

  /** The search form (`SearchState`). */
  datatype SearchState = SearchState(buffers: Buffers, focus: Focus)

  /** `BookState::default()`: an empty add form focused on the title. */
  function DefaultBookState(): (s: BookState)
    ensures s.focus == Title && !s.isEdit
  {
    BookState(EmptyBuffers(), Title, false)
  }

  /** `SearchState::default()`: an empty search form focused on the title. */
  function DefaultSearchState(): (s: SearchState)
    ensures s.focus == Title
  {
    SearchState(EmptyBuffers(), Title)
  }

  /** Both default forms read back as blank in every text field. */
  lemma DefaultFormsAreBlank()
    ensures forall f: Focus :: f.IsTextField() ==> Join(DefaultBookState().buffers.Get(f)) == ""
    ensures forall f: Focus :: f.IsTextField() ==> Join(DefaultSearchState().buffers.Get(f)) == ""
  {
    assert Join([""]) == "";
  }

  /** Everything an event can change, as one value: the fields of `App`
      (`selected` is the `TableState` selection) and the database calls made. */
  datatype AppView = AppView(
    running: bool,
    helpPopup: bool,
    addPopup: bool,
    searchPopup: bool,
    searchActive: bool,
    selected: Option<nat>,
    items: seq<Book>,
    bookEditState: Option<BookState>,
    searchFieldState: Option<SearchState>,
    calls: seq<DbCall>)
  {
    /** The add/edit form and the search form are never open together. */
    predicate AtMostOneModal() {
      !(bookEditState.Some? && searchFieldState.Some?)
    }

    /** The selection, if any, points at a row. */
    predicate SelectionInRange() {
      selected.Some? ==> selected.value < |items|
    }
  }

  // ---------------------------------------------------------------------------
  // Row selection

  /** The row `next` selects: the following row, or the first row after the
      last one, after a selection that lies past the end, or without a selection. */
  function NextIndex(sel: Option<nat>, len: nat): (i: nat)
    requires sel.Some? ==> len > 0
    ensures len > 0 ==> i < len
    ensures sel.None? ==> i == 0
    ensures sel.Some? && sel.value < len - 1 ==> i == sel.value + 1
    ensures sel.Some? && sel.value >= len - 1 ==> i == 0
  {
    match sel
    case Some(k) => if k >= len - 1 then 0 else k + 1
    case None => 0
  }

  /** The row `previous` selects: the preceding row, or the last row before the
      first one; without a selection, the first row (not the last). */
  function PreviousIndex(sel: Option<nat>, len: nat): (i: nat)
    requires sel == Some(0) ==> len > 0
    ensures sel.None? ==> i == 0
    ensures sel == Some(0) ==> i == len - 1
    ensures sel.Some? && sel.value > 0 ==> i == sel.value - 1
    ensures len > 0 && (sel.Some? ==> sel.value < len) ==> i < len
  {
    match sel
    case Some(k) => if k == 0 then len - 1 else k - 1
    case None => 0
  }

  /** `previous` undoes `next`, and `next` undoes `previous`, on a selected row. */
  lemma NextPreviousInverse(k: nat, len: nat)
    requires k < len
    ensures PreviousIndex(Some(NextIndex(Some(k), len)), len) == k
    ensures NextIndex(Some(PreviousIndex(Some(k), len)), len) == k
  {
  }

  /** The selection after `steps` calls of `next`. */
  function NextTimes(sel: Option<nat>, len: nat, steps: nat): Option<nat>
    requires len > 0
    decreases steps
  {
    if steps == 0 then sel else NextTimes(Some(NextIndex(sel, len)), len, steps - 1)
  }

  lemma {:induction false} NextWithoutWrap(k: nat, len: nat, steps: nat)
    requires k + steps < len
    ensures NextTimes(Some(k), len, steps) == Some(k + steps)
    decreases steps
  {
    if steps > 0 {
      NextWithoutWrap(k + 1, len, steps - 1);
    }
  }

  lemma {:induction false} NextTimesAdd(sel: Option<nat>, len: nat, a: nat, b: nat)
    requires len > 0
    ensures NextTimes(sel, len, a + b) == NextTimes(NextTimes(sel, len, a), len, b)
    decreases a
  {
    if a > 0 {
      NextTimesAdd(Some(NextIndex(sel, len)), len, a - 1, b);
    }
  }

  /** Calling `next` once per row brings the selection back to where it was. */
  lemma {:induction false} NextFullCircle(k: nat, len: nat)
    requires k < len
    ensures NextTimes(Some(k), len, len) == Some(k)
  {
    NextWithoutWrap(k, len, len - 1 - k);
    NextTimesAdd(Some(k), len, len - 1 - k, 1 + k);
    assert NextTimes(Some(len - 1), len, 1 + k) == NextTimes(Some(0), len, k);
    NextWithoutWrap(0, len, k);
  }

  /** The application (`App`). */
  class App {
    var running: bool
    var helpPopup: bool
    var addPopup: bool
    var searchPopup: bool
    var searchActive: bool
    /** The row highlighted in the table (`state.selected()`). */
    var selected: Option<nat>
    /** The rows shown in the table. */
    var items: seq<Book>
    var bookEditState: Option<BookState>
    var searchFieldState: Option<SearchState>
    /** The database calls made so far, oldest first. */
    var calls: seq<DbCall>

    function View(): AppView
      reads this
    {
      AppView(running, helpPopup, addPopup, searchPopup, searchActive,
              selected, items, bookEditState, searchFieldState, calls)
    }

    /** `App::default()`: running, no popup, no selection, no rows, no form open. */
    constructor ()
      ensures View() == AppView(true, false, false, false, false, None, [], None, None, [])
    {
      running := true;
      helpPopup := false;
      addPopup := false;
      searchPopup := false;
      searchActive := false;
      selected := None;
      items := [];
      bookEditState := None;
      searchFieldState := None;
      calls := [];
    }

    /** `quit`: stop the main loop and change nothing else. */
    method Quit()
      modifies this
      ensures View() == old(View()).(running := false)
    {
      running := false;
    }

    /** `next`: move the selection one row down, wrapping to the first row.
        With a selection, `items.len() - 1` must not underflow. */
    method Next()
      requires selected.Some? ==> |items| > 0
      modifies this
      ensures View() == old(View()).(selected := Some(NextIndex(old(selected), |old(items)|)))
    {
      var i := match selected
        case Some(k) => if k >= |items| - 1 then 0 else k + 1
        case None => 0;
      selected := Some(i);
    }

    /** `previous`: move the selection one row up, wrapping to the last row.
        From the first row, `items.len() - 1` must not underflow. */
    method Previous()
      requires selected == Some(0) ==> |items| > 0
      modifies this
      ensures View() == old(View()).(selected := Some(PreviousIndex(old(selected), |old(items)|)))
    {
      var i := match selected
        case Some(k) => if k == 0 then |items| - 1 else k - 1
        case None => 0;
      selected := Some(i);
    }
  }
}
