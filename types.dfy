/** Value types shared by the whole model: books as the database stores them,
    the record handed to create/update/search, calendar dates, key events,
    and the database calls the handlers make. */
module Types {

  datatype Option<T> = None | Some(value: T)

  /** Range of Rust's `i32`, the type of a book's `id` and `rating`. */
  const I32_MIN: int := -0x8000_0000
  const I32_MAX: int := 0x7fff_ffff

  type Int32 = x: int | I32_MIN <= x <= I32_MAX

  /** A proleptic Gregorian calendar date (chrono's `NaiveDate`). */
  datatype Date = Date(year: int, month: int, day: int)

  predicate IsLeapYear(y: int) {
    y % 4 == 0 && (y % 100 != 0 || y % 400 == 0)
  }

  function DaysInMonth(y: int, m: int): (d: int)
    requires 1 <= m <= 12
    ensures 28 <= d <= 31
  {
    if m == 2 then (if IsLeapYear(y) then 29 else 28)
    else if m == 4 || m == 6 || m == 9 || m == 11 then 30
    else 31
  }

  predicate ValidDate(d: Date) {
    1 <= d.month <= 12 && 1 <= d.day <= DaysInMonth(d.year, d.month)
  }

  /** A date that exists in the calendar; every `NaiveDate` is one. */
  type CalDate = d: Date | ValidDate(d) witness Date(1970, 1, 1)

  /** A row of the `books` table (`Book` in the source). */
  datatype Book = Book(
    id: Int32,
    title: string,
    author: string,
    genre: string,
    rating: Int32,
    status: string,
    startDate: Option<CalDate>,
    endDate: Option<CalDate>)

  /** The record a form produces: a `Book` without its id (`NewBook`). */
  datatype NewBook = NewBook(
    title: string,
    author: string,
    genre: string,
    rating: Int32,
    status: string,
    startDate: Option<CalDate>,
    endDate: Option<CalDate>)

  /** The keys the handlers tell apart; every other key is `Other`. */
  datatype KeyCode = Tab | BackTab | Enter | Esc | Up | Down | Char(c: char) | Other(code: int)

  /** The modifier keys held with a key (crossterm's `KeyModifiers` flags). */
  datatype KeyModifiers = KeyModifiers(shift: bool, control: bool, alt: bool, super: bool, hyper: bool, meta: bool)

  /** `KeyModifiers::CONTROL`: Control and nothing else. */
  const CONTROL: KeyModifiers := KeyModifiers(false, true, false, false, false, false)

  datatype KeyEventKind = Press | Repeat | Release

  datatype KeyEvent = KeyEvent(code: KeyCode, modifiers: KeyModifiers, kind: KeyEventKind)

  /** A call into the database layer, recorded in the order it is made. */
  datatype DbCall =
    | Create(book: NewBook)
    | Update(id: Int32, book: NewBook)
    | Delete(id: Int32)

  /** Whether handling an event returned, or the program aborted on a failed `unwrap`. */
  datatype Outcome = Continue | Panicked
}
