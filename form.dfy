/** The expression-level logic of src/handler.rs: stepping a form's focus,
    deciding what a key does on a form, reading a form into a `NewBook`, and
    filling the edit form from a stored book. */
module Form {
  import opened Types
  import opened Text
  import opened FocusCycle
  import opened AppState

  /** `change_add_focus` / `change_search_focus`: both forms cycle through
      the same nine stops. The `?` on `from_int` never fires: with nine
      variants every step lands on one. */
  function ChangeFocus(f: Focus, forward: bool): (r: Focus)
    ensures r.IntValue() == Wrap(f.IntValue(), EDIT_WINDOW_FOCUS, forward)
    ensures forward ==> r == (if f == CancelBtn then Title else FocusFromInt(f.IntValue() + 1).value)
    ensures !forward ==> r == (if f == Title then CancelBtn else FocusFromInt(f.IntValue() - 1).value)
  {
    NineSlotsWrap(f.IntValue(), forward);
    FocusFromInt(Cycle(f.IntValue(), EDIT_WINDOW_FOCUS, forward).value).value
  }

  /** Tab undoes BackTab and BackTab undoes Tab. */
  lemma ChangeFocusInverse(f: Focus)
    ensures ChangeFocus(ChangeFocus(f, true), false) == f
    ensures ChangeFocus(ChangeFocus(f, false), true) == f
  {
    FromIntValue(f);
  }

  /** What a key does on an open form. */
  datatype Action =
    | Step(forward: bool)   // move the focus
    | Confirm               // submit the form and close it
    | Cancel                // close the form
    | Keep                  // nothing
    | EditField             // hand the key to the focused text area

  /** The decision table shared by the add/edit form and the search form:
      Tab and BackTab always move the focus; Enter confirms or cancels on the
      buttons, does nothing on the title and goes into any other text field;
      every other key goes into the focused text field and is ignored on a button. */
  function FormAction(code: KeyCode, focus: Focus): (a: Action)
    ensures a == EditField ==> focus.IsTextField()
    ensures a == Confirm <==> code == Enter && focus == ConfirmBtn
    ensures a == Cancel <==> code == Enter && focus == CancelBtn
    ensures a.Step? <==> code == Tab || code == BackTab
    ensures code == Tab ==> a == Step(true)
    ensures code == BackTab ==> a == Step(false)
    ensures focus.IsTextField() && code != Tab && code != BackTab && !(code == Enter && focus == Title)
      ==> a == EditField
  {
    if code == Tab then Step(true)
    else if code == BackTab then Step(false)
    else if code == Enter then
      match focus
      case ConfirmBtn => Confirm
      case CancelBtn => Cancel
      case Title => Keep
      case _ => EditField
    else if focus.IsTextField() then EditField
    else Keep
  }

  /** `unwrap_or` after `NaiveDate::parse_from_str(s, "%Y-%m-%d")`. */
  function DateOr(s: string, fallback: CalDate): CalDate {
    match ParseDate(s)
    case Some(v) => v
    case None => fallback
  }

  /** The `NewBook` a confirmed form yields: every text field is its lines
      joined by `'\n'`, the rating is the first line of its text area parsed
      as an `i32` (0 when that fails), and each date is the parsed date of its
      joined text, or its fallback. */
  function ReadForm(b: Buffers, startFallback: CalDate, endFallback: CalDate): (nb: NewBook)
    ensures nb.title == Join(b.title) && nb.author == Join(b.author)
    ensures nb.genre == Join(b.genre) && nb.status == Join(b.status)
    ensures nb.startDate.Some? && nb.endDate.Some?
    ensures ParseI32(b.rating[0]).None? ==> nb.rating == 0
    ensures ParseI32(b.rating[0]).Some? ==> nb.rating == ParseI32(b.rating[0]).value
    ensures ParseDate(Join(b.startDate)).Some? ==> nb.startDate == ParseDate(Join(b.startDate))
    ensures ParseDate(Join(b.startDate)).None? ==> nb.startDate == Some(startFallback)
    ensures ParseDate(Join(b.endDate)).Some? ==> nb.endDate == ParseDate(Join(b.endDate))
    ensures ParseDate(Join(b.endDate)).None? ==> nb.endDate == Some(endFallback)
  {
    NewBook(
      Join(b.title),
      Join(b.author),
      Join(b.genre),
      ParseI32OrZero(b.rating[0]),
      Join(b.status),
      Some(DateOr(Join(b.startDate), startFallback)),
      Some(DateOr(Join(b.endDate), endFallback)))
  }

  /** The date a blank search start date stands for: 1500-01-01. */
  const SEARCH_START: CalDate := Date(1500, 1, 1)
  /** The date a blank search end date stands for: 4050-01-01. */
  const SEARCH_END: CalDate := Date(4050, 1, 1)

  /** The edit form the `'u'` key opens on a book: every field's text in its
      text area, the rating and dates printed, focus on the title, in edit
      mode. `None` when the book lacks a date (the source's `unwrap` panics). */
  function Prefill(book: Book): (r: Option<BookState>)
    ensures r.Some? <==> book.startDate.Some? && book.endDate.Some?
    ensures r.Some? ==> r.value.focus == Title && r.value.isEdit
  {
    match (book.startDate, book.endDate)
    case (Some(s), Some(e)) =>
      var rating := IntToString(book.rating);
      Some(BookState(
        Buffers(
          FromText(book.title),
          FromText(book.author),
          FromText(book.genre),
          FromText(rating),
          FromText(book.status),
          FromText(FormatDate(s)),
          FromText(FormatDate(e))),
        Title,
        true))
    case _ => None
  }

  /** The book's fields as the record `update_book` receives. */
  function AsNewBook(book: Book): NewBook {
    NewBook(book.title, book.author, book.genre, book.rating, book.status, book.startDate, book.endDate)
  }

  /** A text that a text area holds and gives back unchanged. */
  predicate Plain(s: string) {
    NoCarriageReturn(s) && (s == [] || s[|s| - 1] != '\n')
  }

  /** A printed date is taken as it stands, whatever the fallback. */
  lemma DateOrPrinted(d: CalDate, fallback: CalDate)
    requires 0 <= d.year <= 9999
    ensures DateOr(FormatDate(d), fallback) == d
  {
    ParseFormatDate(d);
  }

  /** A printed date, loaded into a text area and read back, is the same date. */
  lemma DateFieldRoundTrip(d: CalDate, fallback: CalDate)
    requires 0 <= d.year <= 9999
    ensures DateOr(Join(FromText(FormatDate(d))), fallback) == d
  {
    var s := FormatDate(d);
    FormatDateChars(d);
    assert NoCarriageReturn(s);
    assert s[|s| - 1] != '\n';
    TextRoundTrip(s);
    ParseFormatDate(d);
  }

  /** The four free texts of a book come back out of the edit form unchanged. */
  lemma PrefillTexts(book: Book)
    requires Plain(book.title) && Plain(book.author) && Plain(book.genre) && Plain(book.status)
    requires book.startDate.Some? && book.endDate.Some?
    ensures var b := Prefill(book).value.buffers;
      Join(b.title) == book.title && Join(b.author) == book.author
      && Join(b.genre) == book.genre && Join(b.status) == book.status
  {
    TextRoundTrip(book.title);
    TextRoundTrip(book.author);
    TextRoundTrip(book.genre);
    TextRoundTrip(book.status);
  }

  lemma PrefillRating(book: Book, today: CalDate)
    requires book.startDate.Some? && book.endDate.Some?
    ensures ReadForm(Prefill(book).value.buffers, today, today).rating == book.rating
  {
    IntToStringDigits(book.rating);
    assert NoNewline(IntToString(book.rating));
    SingleLine(IntToString(book.rating));
    ParseIntToString(book.rating);
  }

  lemma PrefillDates(book: Book, today: CalDate)
    requires book.startDate.Some? && 0 <= book.startDate.value.year <= 9999
    requires book.endDate.Some? && 0 <= book.endDate.value.year <= 9999
    ensures var nb := ReadForm(Prefill(book).value.buffers, today, today);
      nb.startDate == book.startDate && nb.endDate == book.endDate
  {
    DateFieldRoundTrip(book.startDate.value, today);
    DateFieldRoundTrip(book.endDate.value, today);
  }

  /** Opening the edit form on a book and confirming it untouched writes back
      the book's own fields, whatever the day, as long as its texts have no
      `'\r'` and no trailing newline and its dates lie in years 0 to 9999. */
  lemma EditRoundTrip(book: Book, today: CalDate)
    requires Plain(book.title) && Plain(book.author) && Plain(book.genre) && Plain(book.status)
    requires book.startDate.Some? && 0 <= book.startDate.value.year <= 9999
    requires book.endDate.Some? && 0 <= book.endDate.value.year <= 9999
    ensures Prefill(book).Some?
    ensures ReadForm(Prefill(book).value.buffers, today, today) == AsNewBook(book)
  {
    PrefillTexts(book);
    PrefillRating(book, today);
    PrefillDates(book, today);
  }

  /** A search form left blank searches for rating 0 between the two
      sentinel dates, with every text empty. */
  lemma BlankSearchForm()
    ensures ReadForm(EmptyBuffers(), SEARCH_START, SEARCH_END)
            == NewBook("", "", "", 0, "", Some(SEARCH_START), Some(SEARCH_END))
  {
    assert ParseDate("") == None;
    assert ParseI32("") == None;
  }

  /** The rating is parsed, never clamped: "7" gives 7, "15" gives 15,
      "abc" and a blank rating give 0. */
  lemma RatingExamples()
    ensures ParseI32OrZero("7") == 7
    ensures ParseI32OrZero("15") == 15
    ensures ParseI32OrZero("abc") == 0
    ensures ParseI32OrZero("") == 0
  {
    assert DigitsValue("15"[..1]) == 1;
    assert !IsDigit('a');
  }

  /** A typed date is taken as it stands; a blank one is replaced by the fallback. */
  lemma DateExamples(fallback: CalDate)
    ensures DateOr("2024-01-05", fallback) == Date(2024, 1, 5)
    ensures DateOr("", fallback) == fallback
  {
    var s := "2024-01-05";
    assert s[..4] == "2024" && s[5..7] == "01" && s[8..] == "05";
    assert DigitsValue("2024") == 2024 by {
      assert "2024"[..3] == "202" && "202"[..2] == "20" && "20"[..1] == "2";
    }
    assert DigitsValue("01") == 1 by {
      assert "01"[..1] == "0";
    }
    assert DigitsValue("05") == 5 by {
      assert "05"[..1] == "0";
    }
  }
}
