/**
  Calendar dates in the canonical `YYYY-MM-DD` form, with the Gregorian leap
  rule and the year range 1..9999 of Python's `datetime`.
*/
module Dates {
  import opened Outcomes
  import opened Text

  datatype Date = Date(year: int, month: int, day: int)

  const MinYear := 1
  const MaxYear := 9999

  predicate IsLeapYear(y: int) {
    y % 4 == 0 && (y % 100 != 0 || y % 400 == 0)
  }

  function DaysInMonth(y: int, m: int): int
    requires 1 <= m <= 12
  {
    if m == 2 then (if IsLeapYear(y) then 29 else 28)
    else if m == 4 || m == 6 || m == 9 || m == 11 then 30
    else 31
  }

  predicate ValidDate(d: Date) {
    MinYear <= d.year <= MaxYear && 1 <= d.month <= 12 && 1 <= d.day <= DaysInMonth(d.year, d.month)
  }

  /** Four digits, a dash, two digits, a dash, two digits. */
  predicate Canonical(s: string) {
    |s| == 10 && s[4] == '-' && s[7] == '-'
    && AllDigits(s[..4]) && AllDigits(s[5..7]) && AllDigits(s[8..])
  }

  /** `datetime.strptime(s, "%Y-%m-%d")` restricted to canonical text: `None` is the ValueError. */
  function Parse(s: string): (r: Option<Date>)
    ensures r.Some? ==> ValidDate(r.value)
  {
    if !Canonical(s) then None
    else
      var d := Date(Value(s[..4]), Value(s[5..7]), Value(s[8..]));
      if ValidDate(d) then Some(d) else None
  }

  /** The canonical text of a date. */
  function Format(d: Date): (s: string)
    requires ValidDate(d)
  {
    Pad(d.year, 4) + "-" + Pad(d.month, 2) + "-" + Pad(d.day, 2)
  }

  /** The order of `datetime` values: `Before(a, b)` is `a < b`. */
  predicate Before(a: Date, b: Date) {
    a.year < b.year
    || (a.year == b.year && (a.month < b.month || (a.month == b.month && a.day < b.day)))
  }

  /** `a <= b` on dates. */
  predicate NotAfter(a: Date, b: Date) {
    Before(a, b) || a == b
  }

  /** Every valid date reads back from its canonical text. */
  lemma ParseFormat(d: Date)
    requires ValidDate(d)
    ensures Canonical(Format(d)) && Parse(Format(d)) == Some(d)
  {
    var y, m, e := Pad(d.year, 4), Pad(d.month, 2), Pad(d.day, 2);
    var s := Format(d);
    assert s == y + ['-'] + m + ['-'] + e;
    assert s[..4] == y;
    assert s[5..7] == m;
    assert s[8..] == e;
    assert s[4] == '-' && s[7] == '-';
    ValueOfPad(d.year, 4);
    ValueOfPad(d.month, 2);
    ValueOfPad(d.day, 2);
  }

  /** Only canonical text parses, and it is the text of the date it parses to. */
  lemma FormatParse(s: string)
    requires Parse(s).Some?
    ensures Canonical(s) && Format(Parse(s).value) == s
  {
    PadOfValue(s[..4]);
    PadOfValue(s[5..7]);
    PadOfValue(s[8..]);
    assert s == s[..4] + "-" + s[5..7] + "-" + s[8..];
  }

  /** Texts made of fixed-width fields compare field by field. */
  lemma LessOfFields(y1: string, m1: string, e1: string, y2: string, m2: string, e2: string)
    requires |y1| == |y2| && |m1| == |m2|
    ensures Less(y1 + "-" + m1 + "-" + e1, y2 + "-" + m2 + "-" + e2) <==>
      Less(y1, y2) || (y1 == y2 && (Less(m1, m2) || (m1 == m2 && Less(e1, e2))))
  {
    assert y1 + "-" + m1 + "-" + e1 == y1 + ("-" + (m1 + ("-" + e1)));
    assert y2 + "-" + m2 + "-" + e2 == y2 + ("-" + (m2 + ("-" + e2)));
    LessConcat(y1, "-" + (m1 + ("-" + e1)), y2, "-" + (m2 + ("-" + e2)));
    LessConcat("-", m1 + ("-" + e1), "-", m2 + ("-" + e2));
    LessConcat(m1, "-" + e1, m2, "-" + e2);
    LessConcat("-", e1, "-", e2);
    LessIrreflexive("-");
  }

  /** Zero-padded numerals of one width compare like the numbers and are equal only for equal numbers. */
  lemma PadOrder(a: nat, b: nat, w: nat)
    requires a < Pow10(w) && b < Pow10(w)
    ensures Less(Pad(a, w), Pad(b, w)) <==> a < b
    ensures Pad(a, w) == Pad(b, w) <==> a == b
  {
    PadLess(a, b, w);
    ValueOfPad(a, w);
    ValueOfPad(b, w);
  }

  /** On canonical texts, Python's string order is the order of the dates. */
  lemma FormatLess(d1: Date, d2: Date)
    requires ValidDate(d1) && ValidDate(d2)
    ensures Less(Format(d1), Format(d2)) <==> Before(d1, d2)
  {
    LessOfFields(Pad(d1.year, 4), Pad(d1.month, 2), Pad(d1.day, 2), Pad(d2.year, 4), Pad(d2.month, 2), Pad(d2.day, 2));
    PadOrder(d1.year, d2.year, 4);
    PadOrder(d1.month, d2.month, 2);
    PadOrder(d1.day, d2.day, 2);
  }

  /**
    The window test compares parsed dates while the listing is sorted by the raw
    text; for texts that parse, the two orders agree.
  */
  lemma LessMatchesBefore(s: string, t: string)
    requires Parse(s).Some? && Parse(t).Some?
    ensures Less(s, t) <==> Before(Parse(s).value, Parse(t).value)
  {
    FormatParse(s);
    FormatParse(t);
    FormatLess(Parse(s).value, Parse(t).value);
  }

  /** The leap day of 2024 is a date. */
  lemma LeapDay2024()
    ensures Parse("2024-02-29") == Some(Date(2024, 2, 29))
  {
    var t := "2024-02-29";
    assert t[..4] == "2024" && t[5..7] == "02" && t[8..] == "29";
    ValueOfFour("2024");
    ValueOfTwo("02");
    ValueOfTwo("29");
  }

  /** 2023 is not a leap year, so its 29 February is rejected. */
  lemma NoLeapDay2023()
    ensures Parse("2023-02-29") == None
  {
    var t := "2023-02-29";
    assert t[..4] == "2023" && t[5..7] == "02" && t[8..] == "29";
    ValueOfFour("2023");
    ValueOfTwo("02");
    ValueOfTwo("29");
  }

  /** There is no month 13. */
  lemma NoMonth13()
    ensures Parse("2024-13-40") == None
  {
    var t := "2024-13-40";
    assert Pad(13, 2) == "13";
    assert t[5..7] == "13";
    ValueOfPad(13, 2);
  }
}
