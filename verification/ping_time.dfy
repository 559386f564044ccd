/** The timestamp the `ping` handler sends: PHP's
    `DateTime::format('Y-m-d\TH:i:s.v\Z')` of the current UTC time, the
    RFC 3339 section 5.6 `date-time` shape with milliseconds and a `Z` offset.
    The clock itself is an input. */
module PingTime {
  import opened Wrappers
  import opened Text

  /** A broken-down UTC time, as `new DateTime('now', UTC)` holds it. */
  datatype DateTime = DateTime(year: nat, month: nat, day: nat, hour: nat, minute: nat, second: nat, millis: nat)

  predicate Valid(t: DateTime)
  {
    1 <= t.month <= 12 && 1 <= t.day <= 31 && t.hour < 24 && t.minute < 60 && t.second < 60 && t.millis < 1000
  }

  /** `Y`: the year in at least four digits. */
  function YearText(year: nat): (r: string)
    ensures |r| >= 4 && IsDigits(r)
  {
    ZeroPadValue(Decimal(year), 4);
    ZeroPad(Decimal(year), 4)
  }

  /** A zero-padded field of exactly `width` digits. */
  function Fixed(n: nat, width: nat): (r: string)
    requires 1 <= width && n < Pow10(width)
    ensures |r| == width && IsDigits(r)
    ensures DigitsValue(r) == n
  {
    DecimalShort(n, width);
    ZeroPadValue(Decimal(n), width);
    DecimalValue(n);
    ZeroPad(Decimal(n), width)
  }

  function Pow10(k: nat): (p: nat)
    ensures p >= 1
  {
    if k == 0 then 1 else 10 * Pow10(k - 1)
  }

  lemma {:induction false} DecimalShort(n: nat, k: nat)
    requires 1 <= k && n < Pow10(k)
    ensures |Decimal(n)| <= k
    decreases n
  {
    if n >= 10 {
      DecimalShort(n / 10, k - 1);
    }
  }

  /** Where the fixed characters of a formatted timestamp sit, given the
      year's width `y`: `-` at y and y+3, `T` at y+6, `:` at y+9 and y+12,
      `.` at y+15, `Z` at y+19; every other character is a digit. */
  predicate Shaped(s: string)
  {
    && |s| >= 24
    && var y := |s| - 20;
    && s[y] == '-' && s[y + 3] == '-' && s[y + 6] == 'T' && s[y + 9] == ':'
    && s[y + 12] == ':' && s[y + 15] == '.' && s[y + 19] == 'Z'
    && IsDigits(s[..y]) && IsDigits(s[y + 1..y + 3]) && IsDigits(s[y + 4..y + 6])
    && IsDigits(s[y + 7..y + 9]) && IsDigits(s[y + 10..y + 12]) && IsDigits(s[y + 13..y + 15])
    && IsDigits(s[y + 16..y + 19])
  }

  /** `-m-d`: the month and day fields with their dashes. */
  function DatePart(t: DateTime): (r: string)
    requires Valid(t)
    ensures |r| == 6 && r[0] == '-' && r[3] == '-'
    ensures r[1..3] == Fixed(t.month, 2) && r[4..6] == Fixed(t.day, 2)
  {
    Sep2Slices('-', Fixed(t.month, 2), '-', Fixed(t.day, 2));
    "-" + Fixed(t.month, 2) + "-" + Fixed(t.day, 2)
  }

  /** `\TH:i:s.v\Z`: the time of day down to the millisecond, and the offset. */
  function TimePart(t: DateTime): (r: string)
    requires Valid(t)
    ensures |r| == 14 && r[0] == 'T' && r[3] == ':' && r[6] == ':' && r[9] == '.' && r[13] == 'Z'
    ensures r[1..3] == Fixed(t.hour, 2) && r[4..6] == Fixed(t.minute, 2) && r[7..9] == Fixed(t.second, 2)
    ensures r[10..13] == Fixed(t.millis, 3)
  {
    var hm := "T" + Fixed(t.hour, 2) + ":" + Fixed(t.minute, 2);
    var sv := ":" + Fixed(t.second, 2) + "." + Fixed(t.millis, 3) + "Z";
    Sep2Slices('T', Fixed(t.hour, 2), ':', Fixed(t.minute, 2));
    SecondsSlices(Fixed(t.second, 2), Fixed(t.millis, 3));
    PairSlices(hm, sv);
    hm + sv
  }

  lemma Sep2Slices(c1: char, p: string, c2: char, q: string)
    requires |p| == 2 && |q| == 2
    ensures var r := [c1] + p + [c2] + q;
      |r| == 6 && r[0] == c1 && r[3] == c2 && r[1..3] == p && r[4..6] == q
  {
  }

  lemma SecondsSlices(p: string, q: string)
    requires |p| == 2 && |q| == 3
    ensures var r := ":" + p + "." + q + "Z";
      |r| == 8 && r[0] == ':' && r[3] == '.' && r[7] == 'Z' && r[1..3] == p && r[4..7] == q
  {
  }

  lemma PairSlices(a: string, b: string)
    requires |a| == 6 && |b| == 8
    ensures var r := a + b;
      && |r| == 14 && r[0] == a[0] && r[3] == a[3] && r[6] == b[0] && r[9] == b[3] && r[13] == b[7]
      && r[1..3] == a[1..3] && r[4..6] == a[4..6] && r[7..9] == b[1..3] && r[10..13] == b[4..7]
  {
  }

  /** The formatted timestamp. */
  function Format(t: DateTime): (r: string)
    requires Valid(t)
    ensures Shaped(r)
    ensures |r| == |YearText(t.year)| + 20
    ensures t.year < 10000 ==> |r| == 24
  {
    var y := YearText(t.year);
    var d := DatePart(t);
    var tm := TimePart(t);
    ShapedJoin(y, d, tm);
    assert t.year < 10000 ==> |y| == 4 by {
      if t.year < 10000 {
        DecimalShort(t.year, 4);
      }
    }
    y + d + tm
  }

  /** `-` and two two-digit fields. */
  predicate DateShaped(d: string)
  {
    |d| == 6 && d[0] == '-' && d[3] == '-' && IsDigits(d[1..3]) && IsDigits(d[4..6])
  }

  /** `T`, three two-digit fields, three digits of milliseconds and `Z`. */
  predicate TimeShaped(tm: string)
  {
    && |tm| == 14 && tm[0] == 'T' && tm[3] == ':' && tm[6] == ':' && tm[9] == '.' && tm[13] == 'Z'
    && IsDigits(tm[1..3]) && IsDigits(tm[4..6]) && IsDigits(tm[7..9]) && IsDigits(tm[10..13])
  }

  /** A year, a date part and a time part make a shaped timestamp, which
      reads back as their fields. */
  lemma ShapedJoin(y: string, d: string, tm: string)
    requires |y| >= 4 && IsDigits(y) && DateShaped(d) && TimeShaped(tm)
    ensures Shaped(y + d + tm)
    ensures Parse(y + d + tm) == Some(DateTime(DigitsValue(y), DigitsValue(d[1..3]), DigitsValue(d[4..6]),
      DigitsValue(tm[1..3]), DigitsValue(tm[4..6]), DigitsValue(tm[7..9]), DigitsValue(tm[10..13])))
  {
    TripleSlices(y, d, tm);
  }

  lemma TripleSlices(y: string, d: string, tm: string)
    requires |d| == 6 && |tm| == 14
    ensures var r := y + d + tm; var k := |y|;
      && |r| == k + 20 && r[..k] == y
      && r[k] == d[0] && r[k + 3] == d[3] && r[k + 1..k + 3] == d[1..3] && r[k + 4..k + 6] == d[4..6]
      && r[k + 6] == tm[0] && r[k + 9] == tm[3] && r[k + 12] == tm[6] && r[k + 15] == tm[9] && r[k + 19] == tm[13]
      && r[k + 7..k + 9] == tm[1..3] && r[k + 10..k + 12] == tm[4..6] && r[k + 13..k + 15] == tm[7..9]
      && r[k + 16..k + 19] == tm[10..13]
  {
  }

  /** Reads the fields back out of a shaped timestamp. */
  function Parse(s: string): Option<DateTime>
  {
    if !Shaped(s) then None
    else
      var y := |s| - 20;
      Some(DateTime(DigitsValue(s[..y]), DigitsValue(s[y + 1..y + 3]), DigitsValue(s[y + 4..y + 6]),
        DigitsValue(s[y + 7..y + 9]), DigitsValue(s[y + 10..y + 12]), DigitsValue(s[y + 13..y + 15]),
        DigitsValue(s[y + 16..y + 19])))
  }

  /** The formatted timestamp determines the time it was made from. */
  lemma FormatParse(t: DateTime)
    requires Valid(t)
    ensures Parse(Format(t)) == Some(t)
  {
    var y := YearText(t.year);
    var d := DatePart(t);
    var tm := TimePart(t);
    ShapedJoin(y, d, tm);
    ZeroPadValue(Decimal(t.year), 4);
    DecimalValue(t.year);
  }
}
