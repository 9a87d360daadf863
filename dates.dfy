/**
 * Calendar dates and the two `strftime` layouts the billing code uses:
 * `'%Y-%m-%d'` for the stored order date and `'%Y%m%d'` inside receipt numbers.
 */
module Dates {
  import opened Text

  datatype Date = Date(year: int, month: int, day: int)

  function DaysInMonth(year: int, month: int): int {
    if month == 2 then (if (year % 4 == 0 && year % 100 != 0) || year % 400 == 0 then 29 else 28)
    else if month == 4 || month == 6 || month == 9 || month == 11 then 30
    else 31
  }

  /** A date Python's `datetime.date` can hold. */
  predicate ValidDate(d: Date) {
    1 <= d.year <= 9999 && 1 <= d.month <= 12 && 1 <= d.day <= DaysInMonth(d.year, d.month)
  }

  function Year4(d: Date): (s: string)
    requires ValidDate(d)
    ensures |s| == 4 && AllDigits(s)
  {
    assert Pow10(4) == 10000;
    DecimalFits(d.year, 4);
    ZeroPad(Decimal(d.year), 4)
  }

  function Month2(d: Date): (s: string)
    requires ValidDate(d)
    ensures |s| == 2 && AllDigits(s)
  {
    assert Pow10(2) == 100;
    DecimalFits(d.month, 2);
    ZeroPad(Decimal(d.month), 2)
  }

  function Day2(d: Date): (s: string)
    requires ValidDate(d)
    ensures |s| == 2 && AllDigits(s)
  {
    assert Pow10(2) == 100;
    DecimalFits(d.day, 2);
    ZeroPad(Decimal(d.day), 2)
  }

  /** `d.strftime('%Y-%m-%d')`, the text both front ends store as the order date. */
  function IsoText(d: Date): (s: string)
    requires ValidDate(d)
    ensures |s| == 10 && s[4] == '-' && s[7] == '-'
  {
    Year4(d) + "-" + Month2(d) + "-" + Day2(d)
  }

  /** `d.strftime('%Y%m%d')`, the date part of a receipt number. */
  function CompactText(d: Date): (s: string)
    requires ValidDate(d)
    ensures |s| == 8 && AllDigits(s)
  {
    Year4(d) + Month2(d) + Day2(d)
  }

  /** Two different days never share the eight-digit text, so a receipt prefix names one day. */
  lemma CompactTextInjective(d1: Date, d2: Date)
    requires ValidDate(d1) && ValidDate(d2)
    requires CompactText(d1) == CompactText(d2)
    ensures d1 == d2
  {
    var s1, s2 := CompactText(d1), CompactText(d2);
    assert s1[..4] == Year4(d1) && s2[..4] == Year4(d2);
    assert s1[4..6] == Month2(d1) && s2[4..6] == Month2(d2);
    assert s1[6..] == Day2(d1) && s2[6..] == Day2(d2);
    PaddedRoundTrip(d1.year, 4);
    PaddedRoundTrip(d2.year, 4);
    PaddedRoundTrip(d1.month, 2);
    PaddedRoundTrip(d2.month, 2);
    PaddedRoundTrip(d1.day, 2);
    PaddedRoundTrip(d2.day, 2);
  }

  /** The same holds of the stored `YYYY-MM-DD` text. */
  lemma IsoTextInjective(d1: Date, d2: Date)
    requires ValidDate(d1) && ValidDate(d2)
    requires IsoText(d1) == IsoText(d2)
    ensures d1 == d2
  {
    var s1, s2 := IsoText(d1), IsoText(d2);
    assert s1[..4] == Year4(d1) && s2[..4] == Year4(d2);
    assert s1[5..7] == Month2(d1) && s2[5..7] == Month2(d2);
    assert s1[8..] == Day2(d1) && s2[8..] == Day2(d2);
    PaddedRoundTrip(d1.year, 4);
    PaddedRoundTrip(d2.year, 4);
    PaddedRoundTrip(d1.month, 2);
    PaddedRoundTrip(d2.month, 2);
    PaddedRoundTrip(d1.day, 2);
    PaddedRoundTrip(d2.day, 2);
  }
}
