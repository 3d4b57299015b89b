/**
 * The `YYYY-MM-DD` strings the dashboard uses as schedule and preference
 * keys.  The main table builds them with `toISOString().split('T')[0]`
 * (`IsoKey`); the calendar grid and the preference editor build them with a
 * template string (`TemplateKey`).  `ParseIsoKey` reads a key back, as
 * `new Date(key)` does.
 */
module DateKey {
  import opened Wrappers
  import opened CivilDate
  import opened Digits

  type Key = string

  /** The year as `toISOString` writes it: four digits, or a sign and six digits outside 0..9999. */
  function YearText(y: int): string {
    if 0 <= y <= 9999 then PadStart(NatToString(y), 4, '0')
    else (if y < 0 then "-" else "+") + PadStart(NatToString(if y < 0 then -y else y), 6, '0')
  }

  /** The date part of `toISOString()` for a date, ignoring the time zone. */
  function IsoKey(d: Date): Key
    requires ValidDate(d)
  {
    YearText(d.year) + "-" + Pad2(d.month) + "-" + Pad2(d.day)
  }

  /** `${year}-${String(month).padStart(2, '0')}-${String(day).padStart(2, '0')}`. */
  function TemplateKey(year: int, month: int, day: int): Key {
    IntToString(year) + "-" + PadStart(IntToString(month), 2, '0') + "-" + PadStart(IntToString(day), 2, '0')
  }

  /** Reads a `YYYY-MM-DD` key back into a date. */
  function ParseIsoKey(s: Key): Option<Date> {
    if |s| == 10 && AllDigits(s[..4]) && s[4] == '-' && AllDigits(s[5..7]) && s[7] == '-' && AllDigits(s[8..])
    then Some(Date(DigitsValue(s[..4]), DigitsValue(s[5..7]), DigitsValue(s[8..])))
    else None
  }

  lemma YearTextFacts(y: int)
    requires 0 <= y <= 9999
    ensures |YearText(y)| == 4 && AllDigits(YearText(y)) && DigitsValue(YearText(y)) == y
  {
    NatToStringLength(y, 4);
    PaddedValue(y, 4);
  }

  /** The three fields of a `YYYY-MM-DD` concatenation sit at fixed offsets. */
  lemma KeyFields(y: string, m: string, dd: string)
    requires |y| == 4 && |m| == 2 && |dd| == 2
    ensures var s := y + "-" + m + "-" + dd;
      |s| == 10 && s[..4] == y && s[4] == '-' && s[5..7] == m && s[7] == '-' && s[8..] == dd
  {
    var s := y + "-" + m + "-" + dd;
    assert s[..4] == y;
    assert s[5..7] == m;
    assert s[8..] == dd;
  }

  /** Every key of a date in years 0..9999 reads back as that date. */
  lemma ParseIsoKeyRoundTrip(d: Date)
    requires ValidDate(d) && 0 <= d.year <= 9999
    ensures ParseIsoKey(IsoKey(d)) == Some(d)
  {
    var y, m, dd := YearText(d.year), Pad2(d.month), Pad2(d.day);
    YearTextFacts(d.year);
    Pad2Facts(d.month);
    Pad2Facts(d.day);
    KeyFields(y, m, dd);
    assert IsoKey(d) == y + "-" + m + "-" + dd;
  }

  /** Distinct dates in years 0..9999 have distinct keys. */
  lemma IsoKeyInjective(a: Date, b: Date)
    requires ValidDate(a) && 0 <= a.year <= 9999
    requires ValidDate(b) && 0 <= b.year <= 9999
    ensures IsoKey(a) == IsoKey(b) <==> a == b
  {
    ParseIsoKeyRoundTrip(a);
    ParseIsoKeyRoundTrip(b);
  }

  /** For four-digit years the template key and the ISO key agree. */
  lemma TemplateKeyIsIsoKey(d: Date)
    requires ValidDate(d) && 1000 <= d.year <= 9999
    ensures TemplateKey(d.year, d.month, d.day) == IsoKey(d)
  {
    NatToStringLength(d.year, 4);
  }

  /** Below year 1000 the two key forms differ: the template does not pad the year. */
  lemma TemplateKeyShortYear()
    ensures TemplateKey(999, 1, 1) != IsoKey(Date(999, 1, 1))
  {
    NatToStringLength(999, 3);
    YearTextFacts(999);
  }
}
