/** Invoice date rendering, `_fmt_date` of app/pdf/pdf_draw.py: a date as
    dd-mm-yyyy, any other value as its text, nothing for a missing date. */
module DateFormat {
  import opened Wrappers
  import opened Digits
  import opened Lookup

  /** The dates Python's `datetime.date` can hold (day bounded by 31 only),
      from the year 1000 on: earlier years print with or without zero padding
      of `%Y` depending on the C library. */
  predicate ValidDate(y: nat, m: nat, d: nat)
  {
    1000 <= y <= 9999 && 1 <= m <= 12 && 1 <= d <= 31
  }

  /** `strftime("%d-%m-%Y")`: two-digit day and month, four-digit year,
      each field denoting its part of the date. */
  function DayMonthYear(y: nat, m: nat, d: nat): (s: string)
    requires ValidDate(y, m, d)
    ensures |s| == 10 && s[2] == '-' && s[5] == '-'
    ensures AllDigits(s[..2]) && AllDigits(s[3..5]) && AllDigits(s[6..])
    ensures DigitsToNat(s[..2]) == d && DigitsToNat(s[3..5]) == m && DigitsToNat(s[6..]) == y
  {
    Pow10Values();
    DigitCount(d, 2);
    DigitCount(m, 2);
    DigitCount(y, 4);
    DashJoin(ZeroPad(d, 2), ZeroPad(m, 2), ZeroPad(y, 4));
    ZeroPad(d, 2) + "-" + ZeroPad(m, 2) + "-" + ZeroPad(y, 4)
  }

  /** Where the three fields sit in `dd-mm-yyyy`. */
  lemma DashJoin(a: string, b: string, c: string)
    requires |a| == 2 && |b| == 2 && |c| == 4
    ensures var s := a + "-" + b + "-" + c;
      |s| == 10 && s[2] == '-' && s[5] == '-' && s[..2] == a && s[3..5] == b && s[6..] == c
  {
  }

  lemma Pow10Values()
    ensures Pow10(2) == 100 && Pow10(4) == 10000
  {
    assert Pow10(1) == 10;
    assert Pow10(3) == 1000;
  }

  /** `_fmt_date(val)`. A date (or a datetime) is printed as dd-mm-yyyy;
      `None` as the empty string; anything else by its `str()`. */
  function FmtDate(val: Json): (s: string)
    requires val.Date? ==> ValidDate(val.year, val.month, val.day)
    ensures val.Null? ==> s == ""
    ensures val.Str? ==> s == val.s
    ensures val.Date? ==> |s| == 10 && s[2] == '-' && s[5] == '-'
  {
    match val
    case Date(y, m, d) => DayMonthYear(y, m, d)
    case Null => ""
    case _ => Show(val)
  }

  /** Reads `dd-mm-yyyy` back into a date. */
  function ParseDate(s: string): Option<Json>
  {
    if |s| == 10 && s[2] == '-' && s[5] == '-'
      && AllDigits(s[..2]) && AllDigits(s[3..5]) && AllDigits(s[6..])
    then Some(Date(DigitsToNat(s[6..]), DigitsToNat(s[3..5]), DigitsToNat(s[..2])))
    else None
  }

  /** The printed date reads back as the same day, month and year. */
  lemma FmtDateRoundTrip(y: nat, m: nat, d: nat)
    requires ValidDate(y, m, d)
    ensures ParseDate(FmtDate(Date(y, m, d))) == Some(Date(y, m, d))
  {
    var s := DayMonthYear(y, m, d);
    assert FmtDate(Date(y, m, d)) == s;
  }
}
