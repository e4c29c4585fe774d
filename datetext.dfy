/** The text form of a date: what `NaiveDate`'s `Display` and
    `format("%Y-%m-%d")` write, and the strict `YYYY-MM-DD` reading that decides
    whether a log line is a date header. */
module DateText {

  import opened Outcomes
  import opened Text
  import opened Calendar

  /** The year as `Display` writes it: four digits for years 0 to 9999,
      otherwise a sign followed by at least four digits. */
  function YearText(y: int): (s: string)
    ensures 0 <= y <= 9999 ==> |s| == 4 && AllDigits(s) && Value(s) == y
    ensures (y < 0 || y > 9999) ==> |s| >= 5 && !IsDigit(s[0])
  {
    assert Pow10(4) == 10000;
    if 0 <= y <= 9999 then Padded(y, 4)
    else if y > 9999 then "+" + Decimal(y)
    else "-" + (if -y <= 9999 then Padded(-y, 4) else Decimal(-y))
  }

  /** `YYYY-MM-DD`, the header line the log writer appends and the text the
      scanner looks for in entry lines. */
  function Format(d: Date): (s: string)
    requires Valid(d)
    ensures 0 <= d.year <= 9999 ==> |s| == 10
  {
    assert Pow10(2) == 100;
    YearText(d.year) + "-" + Padded(d.month, 2) + "-" + Padded(d.day, 2)
  }

  /** A line read as a date: exactly four digits, a dash, two digits, a dash and
      two digits, naming a real day. */
  function ParseDate(s: string): (r: Option<Date>)
    ensures r.Some? ==> Valid(r.value) && 0 <= r.value.year <= 9999
  {
    if |s| == 10 && AllDigits(s[..4]) && s[4] == '-' && AllDigits(s[5..7]) && s[7] == '-' && AllDigits(s[8..])
    then FromYmd(Value(s[..4]), Value(s[5..7]), Value(s[8..]))
    else None
  }

  predicate IsHeader(line: string) {
    ParseDate(line).Some?
  }

  /** A line is read as date `d` exactly when it is the text of `d`, for the
      dates that have a four-digit year. */
  lemma {:induction false} ParseFormat(s: string, d: Date)
    ensures ParseDate(s) == Some(d) <==> Valid(d) && 0 <= d.year <= 9999 && s == Format(d)
  {
    if ParseDate(s) == Some(d) {
      FormatOfParse(s);
    }
    if Valid(d) && 0 <= d.year <= 9999 && s == Format(d) {
      FormatParses(d);
    }
  }

  /** Every date with a four-digit year reads back from its own text. */
  lemma {:induction false} FormatParses(d: Date)
    requires Valid(d) && 0 <= d.year <= 9999
    ensures ParseDate(Format(d)) == Some(d) && IsHeader(Format(d))
  {
    var s := Format(d);
    var y, m, dd := YearText(d.year), Padded(d.month, 2), Padded(d.day, 2);
    assert s == y + "-" + m + "-" + dd;
    assert s[..4] == y && s[5..7] == m && s[8..] == dd;
  }

  /** A line that reads as a date is that date's text, character for character. */
  lemma {:induction false} FormatOfParse(s: string)
    requires IsHeader(s)
    ensures Format(ParseDate(s).value) == s
  {
    PaddedOfValue(s[..4]);
    PaddedOfValue(s[5..7]);
    PaddedOfValue(s[8..]);
    assert s == s[..4] + "-" + s[5..7] + "-" + s[8..];
  }

  /** A header is ten characters and starts with a digit. */
  lemma {:induction false} HeaderShape(s: string)
    requires IsHeader(s)
    ensures |s| == 10 && IsDigit(s[0])
  {
    assert s[..4][0] == s[0];
  }
}
