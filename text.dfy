/** Text conversions the forms rely on: Rust's `i32` parsing and printing,
    chrono's `%Y-%m-%d` date parsing and printing, `str::lines` and the
    `TextArea` buffers built from it. */
module Text {
  import opened Types

  // ---------------------------------------------------------------------------
  // Decimal digits

  predicate IsDigit(c: char) {
    '0' <= c <= '9'
  }

  function DigitValue(c: char): nat
    requires IsDigit(c)
  {
    (c as int) - ('0' as int)
  }

  function DigitChar(d: nat): char
    requires d < 10
  {
    (('0' as int) + d) as char
  }

  predicate AllDigits(s: string) {
    forall i :: 0 <= i < |s| ==> IsDigit(s[i])
  }

  /** The value of a string of decimal digits, most significant digit first. */
  function DigitsValue(s: string): nat
    requires AllDigits(s)
  {
    if s == [] then 0 else 10 * DigitsValue(s[..|s| - 1]) + DigitValue(s[|s| - 1])
  }

  /** `n.to_string()` for a non-negative `n`: its digits, without leading zeros. */
  function NatToString(n: nat): (r: string)
    ensures |r| > 0 && AllDigits(r)
    ensures DigitsValue(r) == n
    ensures n > 0 ==> r[0] != '0'
  {
    if n < 10 then [DigitChar(n)]
    else
      var r := NatToString(n / 10) + [DigitChar(n % 10)];
      assert r[..|r| - 1] == NatToString(n / 10);
      r
  }

  /** `x.to_string()` for an integer: a minus sign for negatives, then the digits. */
  function IntToString(x: int): (r: string)
    ensures |r| > 0 && (IsDigit(r[0]) || r[0] == '-')
  {
    if x < 0 then "-" + NatToString(-x) else NatToString(x)
  }

  /** After its first character, a printed integer is all digits. */
  lemma IntToStringDigits(x: int)
    ensures forall i :: 0 < i < |IntToString(x)| ==> IsDigit(IntToString(x)[i])
  {
    if x < 0 {
      var d := NatToString(-x);
      assert forall i :: 0 < i < |IntToString(x)| ==> IntToString(x)[i] == d[i - 1];
    }
  }

  /** `s.parse::<i32>()`: an optional `+` or `-`, then at least one digit and
      nothing else, with the value inside the `i32` range. */
  function ParseI32(s: string): (r: Option<Int32>)
    ensures r.Some? ==> |s| > 0 && (IsDigit(s[0]) || s[0] == '-' || s[0] == '+')
    ensures r.Some? ==> AllDigits(s[1..])
    ensures s == [] || s == "-" || s == "+" ==> r == None
  {
    var signed := |s| > 0 && (s[0] == '-' || s[0] == '+');
    var digits := if signed then s[1..] else s;
    if digits == [] || !AllDigits(digits) then None
    else
      var n: int := DigitsValue(digits);
      var v := if |s| > 0 && s[0] == '-' then -n else n;
      if I32_MIN <= v <= I32_MAX then Some(v) else None
  }

  /** `parse::<i32>().unwrap_or_default()`: the parsed value, or 0. */
  function ParseI32OrZero(s: string): Int32 {
    match ParseI32(s)
    case Some(v) => v
    case None => 0
  }

  /** Printing an `i32` and parsing it back gives the same number. */
  lemma ParseIntToString(x: Int32)
    ensures ParseI32(IntToString(x)) == Some(x)
  {
    var n: int := x;
    var s := IntToString(n);
    if n < 0 {
      assert s[1..] == NatToString(-n);
    }
  }

  /** A printed `i32` reads back as itself, never as the default 0. */
  lemma ParseI32OrZeroPrinted(x: Int32)
    ensures ParseI32OrZero(IntToString(x)) == x
  {
    ParseIntToString(x);
  }

  // ---------------------------------------------------------------------------
  // Zero-padded numbers and dates

  function Zeros(k: nat): (r: string)
    ensures |r| == k && AllDigits(r)
  {
    if k == 0 then "" else Zeros(k - 1) + "0"
  }

  function Pow10(k: nat): (p: nat)
    ensures p >= 1
  {
    if k == 0 then 1 else 10 * Pow10(k - 1)
  }

  lemma {:induction false} DigitsValueBound(s: string)
    requires AllDigits(s)
    ensures DigitsValue(s) < Pow10(|s|)
  {
    if s != [] {
      DigitsValueBound(s[..|s| - 1]);
    }
  }

  lemma {:induction false} ZerosValue(k: nat)
    ensures DigitsValue(Zeros(k)) == 0
  {
    if k > 0 {
      assert Zeros(k)[..k - 1] == Zeros(k - 1);
      ZerosValue(k - 1);
    }
  }

  lemma {:induction false} LeadingZerosValue(k: nat, d: string)
    requires AllDigits(d)
    ensures AllDigits(Zeros(k) + d) && DigitsValue(Zeros(k) + d) == DigitsValue(d)
  {
    var s := Zeros(k) + d;
    if d == [] {
      assert s == Zeros(k);
      ZerosValue(k);
    } else {
      assert s[..|s| - 1] == Zeros(k) + d[..|d| - 1];
      LeadingZerosValue(k, d[..|d| - 1]);
    }
  }

  lemma {:induction false} NatToStringLength(n: nat, w: nat)
    requires 0 < w && n < Pow10(w)
    ensures |NatToString(n)| <= w
  {
    if n >= 10 {
      assert w > 1;
      assert n / 10 < Pow10(w - 1);
      NatToStringLength(n / 10, w - 1);
    }
  }

  /** `n` printed with at least `width` digits, padded with leading zeros (`{:0w}`). */
  function PadNat(n: nat, width: nat): string {
    var d := NatToString(n);
    if |d| >= width then d else Zeros(width - |d|) + d
  }

  /** A padded number is all digits, at least `width` of them, and reads back as `n`. */
  lemma PadNatDigits(n: nat, width: nat)
    ensures AllDigits(PadNat(n, width)) && DigitsValue(PadNat(n, width)) == n
    ensures |PadNat(n, width)| >= width
  {
    var d := NatToString(n);
    if |d| < width {
      LeadingZerosValue(width - |d|, d);
    }
  }

  /** A number below `10^width` pads to exactly `width` digits. */
  lemma PadNatWidth(n: nat, width: nat)
    requires 0 < width && n < Pow10(width)
    ensures |PadNat(n, width)| == width
  {
    NatToStringLength(n, width);
    PadNatDigits(n, width);
  }

  /** chrono's `NaiveDate` display: `YYYY-MM-DD` for years 0 to 9999, otherwise
      the year carries a sign and at least four digits. */
  function FormatDate(d: CalDate): string {
    var tail := "-" + PadNat(d.month, 2) + "-" + PadNat(d.day, 2);
    if 0 <= d.year <= 9999 then PadNat(d.year, 4) + tail
    else if d.year < 0 then "-" + PadNat(-d.year, 4) + tail
    else "+" + PadNat(d.year, 4) + tail
  }

  /** Text made of digits, `-` and `+` only. */
  predicate DateText(s: string) {
    forall i :: 0 <= i < |s| ==> IsDigit(s[i]) || s[i] == '-' || s[i] == '+'
  }

  lemma DateTextConcat(a: string, b: string)
    requires DateText(a) && DateText(b)
    ensures DateText(a + b)
  {
    forall i | 0 <= i < |a + b|
      ensures IsDigit((a + b)[i]) || (a + b)[i] == '-' || (a + b)[i] == '+'
    {
      if i < |a| {
        assert (a + b)[i] == a[i];
      } else {
        assert (a + b)[i] == b[i - |a|];
      }
    }
  }

  /** A printed date is made of digits, `-` and `+` only. */
  lemma FormatDateChars(d: CalDate)
    ensures |FormatDate(d)| > 0 && DateText(FormatDate(d))
  {
    var m, dd := PadNat(d.month, 2), PadNat(d.day, 2);
    var y := if 0 <= d.year <= 9999 then PadNat(d.year, 4)
             else if d.year < 0 then PadNat(-d.year, 4) else PadNat(d.year, 4);
    PadNatDigits(d.month, 2);
    PadNatDigits(d.day, 2);
    PadNatDigits(if d.year < 0 then -d.year else d.year, 4);
    DateTextConcat("-", m);
    DateTextConcat("-" + m, "-");
    DateTextConcat("-" + m + "-", dd);
    var tail := "-" + m + "-" + dd;
    if 0 <= d.year <= 9999 {
      DateTextConcat(y, tail);
    } else {
      var sign := if d.year < 0 then "-" else "+";
      DateTextConcat(sign, y);
      DateTextConcat(sign + y, tail);
    }
  }

  /** `NaiveDate::parse_from_str(s, "%Y-%m-%d")`, in its strict form: four
      year digits, two month digits and two day digits separated by `-`,
      naming a date that exists. */
  function ParseDate(s: string): (r: Option<CalDate>)
    ensures r.Some? ==> |s| == 10 && 0 <= r.value.year <= 9999
    ensures r.Some? ==> s[4] == '-' && s[7] == '-'
  {
    if |s| == 10 && s[4] == '-' && s[7] == '-'
       && AllDigits(s[..4]) && AllDigits(s[5..7]) && AllDigits(s[8..])
    then
      var d := Date(DigitsValue(s[..4]), DigitsValue(s[5..7]), DigitsValue(s[8..]));
      DigitsValueBound(s[..4]);
      assert Pow10(4) == 10000;
      if ValidDate(d) then var c: CalDate := d; Some(c) else None
    else None
  }

  /** A date in years 0 to 9999 prints as ten characters `YYYY-MM-DD`. */
  lemma FormatDateShape(d: CalDate)
    requires 0 <= d.year <= 9999
    ensures var s := FormatDate(d);
      && |s| == 10 && s[4] == '-' && s[7] == '-'
      && s[..4] == PadNat(d.year, 4) && s[5..7] == PadNat(d.month, 2) && s[8..] == PadNat(d.day, 2)
  {
    assert Pow10(2) == 100 && Pow10(4) == 10000;
    PadNatWidth(d.year, 4);
    PadNatWidth(d.month, 2);
    PadNatWidth(d.day, 2);
    DashedShape(PadNat(d.year, 4), PadNat(d.month, 2), PadNat(d.day, 2));
  }

  /** Four, two and two characters joined by `-` sit at fixed places. */
  lemma DashedShape(y: string, m: string, dd: string)
    requires |y| == 4 && |m| == 2 && |dd| == 2
    ensures var s := y + ("-" + m + "-" + dd);
      && |s| == 10 && s[4] == '-' && s[7] == '-'
      && s[..4] == y && s[5..7] == m && s[8..] == dd
  {
    var tail := "-" + m + "-" + dd;
    var s := y + tail;
    assert s[..4] == y;
    assert s[4..] == tail;
    assert tail[1..3] == m;
  }

  /** A date in years 0 to 9999 survives being printed and parsed back. */
  lemma ParseFormatDate(d: CalDate)
    requires 0 <= d.year <= 9999
    ensures ParseDate(FormatDate(d)) == Some(d)
  {
    FormatDateShape(d);
    PadNatDigits(d.year, 4);
    PadNatDigits(d.month, 2);
    PadNatDigits(d.day, 2);
  }

  // ---------------------------------------------------------------------------
  // Lines and text buffers

  predicate NoNewline(s: string) {
    forall i :: 0 <= i < |s| ==> s[i] != '\n'
  }

  predicate NoCarriageReturn(s: string) {
    forall i :: 0 <= i < |s| ==> s[i] != '\r'
  }

  /** The pieces of `s` between its `'\n'` characters; there is always one more
      piece than there are newlines. */
  function Split(s: string): (r: seq<string>)
    ensures |r| > 0
    ensures |r| == 1 <==> NoNewline(s)
    ensures NoNewline(s) ==> r == [s]
    ensures r[|r| - 1] == "" <==> s == [] || s[|s| - 1] == '\n'
  {
    if s == [] then [""]
    else
      var rest := Split(s[1..]);
      if s[0] == '\n' then [""] + rest
      else
        assert [s[0]] + s[1..] == s;
        [[s[0]] + rest[0]] + rest[1..]
  }

  /** No line holds a `'\r'`. */
  predicate LinesNoCR(ps: seq<string>) {
    forall j :: 0 <= j < |ps| ==> NoCarriageReturn(ps[j])
  }

  /** Splitting text without `'\r'` gives pieces without `'\r'`. */
  lemma {:induction false} SplitNoCR(s: string)
    requires NoCarriageReturn(s)
    ensures LinesNoCR(Split(s))
  {
    if s != [] {
      SplitNoCR(s[1..]);
    }
  }

  /** `lines.join("\n")`. */
  function Join(ls: seq<string>): string {
    if ls == [] then "" else if |ls| == 1 then ls[0] else ls[0] + "\n" + Join(ls[1..])
  }

  /** Joining a first line in front of more lines. */
  lemma JoinCons(a: string, rest: seq<string>)
    ensures Join([a] + rest) == if rest == [] then a else a + "\n" + Join(rest)
  {
    assert ([a] + rest)[1..] == rest;
  }

  /** Putting a character in front of the first line puts it in front of the joined text. */
  lemma JoinPrepend(c: char, ls: seq<string>)
    requires ls != []
    ensures Join([[c] + ls[0]] + ls[1..]) == [c] + Join(ls)
  {
    var a, rest := ls[0], ls[1..];
    assert [a] + rest == ls;
    if rest == [] {
      JoinCons([c] + a, rest);
      JoinCons(a, rest);
    } else {
      var j := Join(rest);
      calc {
        Join([[c] + a] + rest);
        { JoinCons([c] + a, rest); }
        [c] + a + "\n" + j;
        { assert [c] + a + "\n" + j == [c] + (a + "\n" + j); }
        [c] + (a + "\n" + j);
        { JoinCons(a, rest); }
        [c] + Join(ls);
      }
    }
  }

  /** Joining the pieces of a split restores the text. */
  lemma {:induction false} JoinSplit(s: string)
    ensures Join(Split(s)) == s
  {
    if s != [] {
      var rest := Split(s[1..]);
      JoinSplit(s[1..]);
      if s[0] == '\n' {
        JoinCons("", rest);
        assert "" + "\n" + s[1..] == s;
      } else {
        JoinPrepend(s[0], rest);
        assert [s[0]] + s[1..] == s;
      }
    }
  }

  function StripCR(p: string): string {
    if |p| > 0 && p[|p| - 1] == '\r' then p[..|p| - 1] else p
  }

  /** Rust's `str::lines`: the text split at `'\n'`, a `'\r'` right before a
      `'\n'` dropped with it, and no final empty line after a trailing `'\n'`. */
  function StrLines(s: string): seq<string> {
    var ps := Split(s);
    var last := ps[|ps| - 1];
    StripEach(ps[..|ps| - 1]) + (if last == "" then [] else [last])
  }

  /** `StripCR` on every line. */
  function StripEach(ps: seq<string>): seq<string> {
    if ps == [] then [] else [StripCR(ps[0])] + StripEach(ps[1..])
  }

  /** The first `n` lines, when no line holds a `'\r'`, are left as they are. */
  lemma {:induction false} StripEachPrefix(ps: seq<string>, n: nat)
    requires n <= |ps| && LinesNoCR(ps)
    ensures StripEach(ps[..n]) == ps[..n]
  {
    if n > 0 {
      assert NoCarriageReturn(ps[0]);
      assert LinesNoCR(ps[1..]) by {
        forall j | 0 <= j < |ps| - 1
          ensures NoCarriageReturn(ps[1..][j])
        {
          assert ps[1..][j] == ps[j + 1];
        }
      }
      StripEachPrefix(ps[1..], n - 1);
      assert ps[..n] == [ps[0]] + ps[1..][..n - 1];
    }
  }

  /** The lines of a text area; a text area always holds at least one line. */
  type Lines = ls: seq<string> | |ls| > 0 witness [""]

  /** `TextArea::from(s.lines())`: the lines of `s`, or one empty line when it has none. */
  function FromText(s: string): Lines {
    var ls := StrLines(s);
    if ls == [] then [""] else ls
  }

  /** Text without line breaks fills exactly one line of a text area. */
  lemma SingleLine(s: string)
    requires NoNewline(s) && s != []
    ensures FromText(s) == [s]
  {
  }

  /** On text without `'\r'` and without a trailing `'\n'`, `str::lines` is a
      plain split at `'\n'`. */
  lemma StrLinesPlain(s: string)
    requires NoCarriageReturn(s)
    requires s != [] && s[|s| - 1] != '\n'
    ensures StrLines(s) == Split(s)
  {
    SplitNoCR(s);
    KeepLines(Split(s));
  }

  /** Lines without `'\r'` whose last line is not empty come out of the
      line-splitting step of `str::lines` unchanged. */
  lemma KeepLines(ps: seq<string>)
    requires |ps| > 0 && LinesNoCR(ps) && ps[|ps| - 1] != ""
    ensures StripEach(ps[..|ps| - 1]) + (if ps[|ps| - 1] == "" then [] else [ps[|ps| - 1]]) == ps
  {
    StripEachPrefix(ps, |ps| - 1);
    assert ps[..|ps| - 1] + [ps[|ps| - 1]] == ps;
  }

  /** Loading text into a text area and joining its lines back gives the text
      again, unless it holds a `'\r'` or ends with a `'\n'`. */
  lemma TextRoundTrip(s: string)
    requires NoCarriageReturn(s)
    requires s == [] || s[|s| - 1] != '\n'
    ensures Join(FromText(s)) == s
  {
    JoinSplit(s);
    if s != [] {
      StrLinesPlain(s);
    }
  }
}
