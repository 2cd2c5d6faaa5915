/**
 * `format_date`: a date written into a template whose four `%s` slots take the
 * four-digit year, the two-digit month, the two-digit day and the English
 * weekday abbreviation, in that order; and the timestamp shape
 * `<\d{4}-\d{2}-\d{2}\s[A-Z][a-z]{2}>` that the deadline and scheduled
 * extraction look for.
 */
module DateFormat {

  import opened Wrappers
  import opened Chars
  import opened Calendar

  /** A `%`-template with exactly four `%s` slots, kept as the five literal pieces around them. */
  datatype Template = Template(lead: string, afterYear: string, afterMonth: string, afterDay: string, trail: string)

  /** `"<%s-%s-%s %s>"` */
  const DateTemplate := Template("<", "-", "-", " ", ">")

  /** `strftime("%a")` in an English locale, indexed by `weekday()`. */
  function Abbrev(w: int): (a: string)
    requires 0 <= w < 7
    ensures |a| == 3 && IsAsciiUpper(a[0]) && IsAsciiLower(a[1]) && IsAsciiLower(a[2])
  {
    ["Mon", "Tue", "Wed", "Thu", "Fri", "Sat", "Sun"][w]
  }

  /** The four values `format_date` puts into the template. */
  function Fields(d: Date): (f: seq<string>)
    requires Valid(d)
    ensures |f| == 4
  {
    [Pad(d.year, 4), Pad(d.month, 2), Pad(d.day, 2), Abbrev(Weekday(d))]
  }

  /**
   * r is t with its slots filled: the literal pieces of t in place, the
   * year in four digits, the month and the day in two digits each, and
   * the weekday's abbreviation, the digits reading back as d.
   */
  predicate FilledIn(r: string, d: Date, t: Template)
    requires Valid(d)
  {
    var a := |t.lead|;
    var b := a + 4 + |t.afterYear|;
    var c := b + 2 + |t.afterMonth|;
    var e := c + 2 + |t.afterDay|;
    |r| == e + 3 + |t.trail|
    && r[..a] == t.lead && r[a + 4..b] == t.afterYear && r[b + 2..c] == t.afterMonth
    && r[c + 2..e] == t.afterDay && r[e + 3..] == t.trail
    && AllDigits(r[a..a + 4]) && Value(r[a..a + 4]) == d.year
    && AllDigits(r[b..b + 2]) && Value(r[b..b + 2]) == d.month
    && AllDigits(r[c..c + 2]) && Value(r[c..c + 2]) == d.day
    && r[e..e + 3] == Abbrev(Weekday(d))
  }

  /**
   * `format_date`: for a four-digit year, the template's literal pieces with
   * eleven characters of date in between (see `FormatDateFilled` for what
   * fills each slot).
   */
  function FormatDate(d: Date, t: Template): (r: string)
    requires Valid(d)
    ensures d.year <= 9999 ==> |r| == |t.lead| + |t.afterYear| + |t.afterMonth| + |t.afterDay| + |t.trail| + 11
  {
    var f := Fields(d);
    var r := t.lead + f[0] + t.afterYear + f[1] + t.afterMonth + f[2] + t.afterDay + f[3] + t.trail;
    if d.year <= 9999 then
      PadValue(d.year, 4);
      PadValue(d.month, 2);
      PadValue(d.day, 2);
      r
    else r
  }

  /** For a four-digit year the template's slots hold the date and its weekday. */
  lemma FormatDateFilled(d: Date, t: Template)
    requires Valid(d) && d.year <= 9999
    ensures FilledIn(FormatDate(d, t), d, t)
  {
    var f := Fields(d);
    PadValue(d.year, 4);
    PadValue(d.month, 2);
    PadValue(d.day, 2);
    FilledFrom(d, t, f[0], f[1], f[2], f[3]);
  }

  lemma FilledFrom(d: Date, t: Template, y: string, m: string, dd: string, w: string)
    requires Valid(d)
    requires |y| == 4 && AllDigits(y) && Value(y) == d.year
    requires |m| == 2 && AllDigits(m) && Value(m) == d.month
    requires |dd| == 2 && AllDigits(dd) && Value(dd) == d.day
    requires w == Abbrev(Weekday(d))
    ensures FilledIn(t.lead + y + t.afterYear + m + t.afterMonth + dd + t.afterDay + w + t.trail, d, t)
  {
    Slots(t.lead, y, t.afterYear, m, t.afterMonth, dd, t.afterDay, w, t.trail);
  }

  /** Where each part of a nine-part concatenation sits. */
  lemma Slots(p0: string, y: string, p1: string, m: string, p2: string, d: string, p3: string, w: string, p4: string)
    requires |y| == 4 && |m| == 2 && |d| == 2 && |w| == 3
    ensures var r := p0 + y + p1 + m + p2 + d + p3 + w + p4;
            var a := |p0|;
            var b := a + 4 + |p1|;
            var c := b + 2 + |p2|;
            var e := c + 2 + |p3|;
            |r| == e + 3 + |p4|
            && r[..a] == p0 && r[a..a + 4] == y && r[a + 4..b] == p1 && r[b..b + 2] == m && r[b + 2..c] == p2
            && r[c..c + 2] == d && r[c + 2..e] == p3 && r[e..e + 3] == w && r[e + 3..] == p4
  {
  }

  /** `strftime('%Y-%m-%d %a')`: the text between the brackets of a timestamp. */
  function IsoDay(d: Date): (r: string)
    requires Valid(d)
    ensures "<" + r + ">" == FormatDate(d, DateTemplate)
  {
    var f := Fields(d);
    f[0] + "-" + f[1] + "-" + f[2] + " " + f[3]
  }

  /**
   * The 16 characters at s[i..] have the shape `<\d{4}-\d{2}-\d{2}\s[A-Z][a-z]{2}>`
   * under IGNORECASE (so a letter class accepts either case).
   */
  predicate StampAt(mode: Mode, s: string, i: int) {
    0 <= i && i + 16 <= |s|
    && s[i] == '<'
    && IsDigit(s[i + 1]) && IsDigit(s[i + 2]) && IsDigit(s[i + 3]) && IsDigit(s[i + 4])
    && s[i + 5] == '-' && IsDigit(s[i + 6]) && IsDigit(s[i + 7])
    && s[i + 8] == '-' && IsDigit(s[i + 9]) && IsDigit(s[i + 10])
    && IsSpace(mode, s[i + 11])
    && IsAsciiLower(Fold(mode, s[i + 12])) && IsAsciiLower(Fold(mode, s[i + 13]))
    && IsAsciiLower(Fold(mode, s[i + 14]))
    && s[i + 15] == '>'
  }

  /** Reads year, month and day back out of a timestamp (the inverse of `FormatDate` with `DateTemplate`). */
  function ParseStamp(mode: Mode, s: string): (d: Option<Date>)
    ensures d.Some? ==> StampAt(mode, s, 0) && |s| == 16
  {
    if |s| == 16 && StampAt(mode, s, 0) then
      Some(Date(Value(s[1..5]), Value(s[6..8]), Value(s[9..11])))
    else None
  }

  /** A date of years 1 to 9999 formatted with `DateTemplate` has the timestamp shape and reads back as itself. */
  lemma StampRoundTrip(mode: Mode, d: Date)
    requires Valid(d) && d.year <= 9999
    ensures StampAt(mode, FormatDate(d, DateTemplate), 0)
    ensures ParseStamp(mode, FormatDate(d, DateTemplate)) == Some(d)
  {
    var f := Fields(d);
    PadValue(d.year, 4);
    PadValue(d.month, 2);
    PadValue(d.day, 2);
    StampLayout(mode, f[0], f[1], f[2], f[3]);
  }

  /** Where the four fields sit in `<yyyy-mm-dd www>`. */
  lemma StampLayout(mode: Mode, y: string, m: string, d: string, w: string)
    requires |y| == 4 && |m| == 2 && |d| == 2 && |w| == 3
    requires AllDigits(y) && AllDigits(m) && AllDigits(d)
    requires IsAsciiUpper(w[0]) && IsAsciiLower(w[1]) && IsAsciiLower(w[2])
    ensures var r := "<" + y + "-" + m + "-" + d + " " + w + ">";
            |r| == 16 && StampAt(mode, r, 0) && r[1..5] == y && r[6..8] == m && r[9..11] == d
  {
    var r := "<" + y + "-" + m + "-" + d + " " + w + ">";
    assert r == ['<'] + y + ['-'] + m + ['-'] + d + [' '] + w + ['>'];
    assert r[1..5] == y;
    assert r[6..8] == m;
    assert r[9..11] == d;
    assert r[12..15] == w;
  }

  /** A formatted timestamp contains no dot, so the absolute-date scanners find nothing in it. */
  lemma FormattedHasNoDot(d: Date, t: Template)
    requires Valid(d) && '.' !in t.lead + t.afterYear + t.afterMonth + t.afterDay + t.trail
    ensures '.' !in FormatDate(d, t)
  {
    var f := Fields(d);
    DigitsHaveNoDot(f[0]);
    DigitsHaveNoDot(f[1]);
    DigitsHaveNoDot(f[2]);
    PiecesHaveNoDot(t.lead, t.afterYear, t.afterMonth, t.afterDay, t.trail);
    NoDotJoined(t, f[0], f[1], f[2], f[3]);
  }

  lemma DigitsHaveNoDot(s: string)
    requires AllDigits(s)
    ensures '.' !in s
  {
    assert forall k :: 0 <= k < |s| ==> IsDigit(s[k]);
  }

  lemma PiecesHaveNoDot(a: string, b: string, c: string, d: string, e: string)
    requires '.' !in a + b + c + d + e
    ensures '.' !in a && '.' !in b && '.' !in c && '.' !in d && '.' !in e
  {
    assert forall x :: x in a || x in b || x in c || x in d || x in e ==> x in a + b + c + d + e;
  }

  lemma NoDotJoined(t: Template, y: string, m: string, dd: string, w: string)
    requires '.' !in t.lead && '.' !in t.afterYear && '.' !in t.afterMonth && '.' !in t.afterDay && '.' !in t.trail
    requires '.' !in y && '.' !in m && '.' !in dd && |w| == 3 && IsAsciiUpper(w[0]) && IsAsciiLower(w[1]) && IsAsciiLower(w[2])
    ensures '.' !in t.lead + y + t.afterYear + m + t.afterMonth + dd + t.afterDay + w + t.trail
  {
    assert '.' !in w;
  }
}
