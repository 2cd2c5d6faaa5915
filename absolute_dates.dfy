/**
 * `convert_absolute_date`: the first `D.M.YYYY` in a text, or failing that the
 * first `D.M` (whose year is the current one if its midnight is still ahead,
 * the next one otherwise), becomes a timestamp `<YYYY-MM-DD Www>`; a time
 * ` HH:MM` written right after a date joins the timestamp. A day or month that
 * `strptime` refuses makes the whole conversion fail.
 */
module AbsoluteDates {

  import opened Wrappers
  import opened Chars
  import opened Calendar
  import opened DateFormat

  /** A `D.M` or `D.M.YYYY` occurrence: where it starts and ends, and the numbers it holds. */
  datatype DateMatch = DateMatch(start: nat, end: nat, day: nat, month: nat, year: Option<nat>)

  /** How many digits `\d{1,2}` takes at i: as many as there are, at most two. */
  function DigitRun(s: string, i: nat): (n: nat)
    requires i <= |s|
    ensures n <= 2 && i + n <= |s|
    ensures AllDigits(s[i..i + n])
    ensures n < 2 ==> i + n == |s| || !IsDigit(s[i + n])
  {
    if i < |s| && IsDigit(s[i]) then
      if i + 1 < |s| && IsDigit(s[i + 1]) then 2 else 1
    else 0
  }

  /** `\d{1,2}\.\d{1,2}` matches at i. */
  predicate ShortShapeAt(s: string, i: int) {
    0 <= i
    && ((i + 2 < |s| && IsDigit(s[i]) && s[i + 1] == '.' && IsDigit(s[i + 2]))
        || (i + 3 < |s| && IsDigit(s[i]) && IsDigit(s[i + 1]) && s[i + 2] == '.' && IsDigit(s[i + 3])))
  }

  /**
   * The match of `\d{1,2}\.\d{1,2}` at i. Both digit runs are taken greedily:
   * giving a digit back can never let the rest match, since the next thing
   * wanted is a dot, a whitespace character or nothing.
   */
  function ShortAt(s: string, i: nat): (r: Option<DateMatch>)
    requires i <= |s|
    ensures r.Some? <==> ShortShapeAt(s, i)
    ensures r.Some? ==> r.value.start == i && i + 3 <= r.value.end <= |s| && r.value.year.None?
    ensures r.Some? ==> r.value.day <= 99 && r.value.month <= 99
    ensures r.Some? ==> var a := DigitRun(s, i);
                        var b := DigitRun(s, i + a + 1);
                        s[i + a] == '.' && r.value.end == i + a + 1 + b
                        && r.value.day == Value(s[i..i + a])
                        && r.value.month == Value(s[i + a + 1..i + a + 1 + b])
  {
    var a := DigitRun(s, i);
    if a == 0 || i + a >= |s| || s[i + a] != '.' then None
    else
      var b := DigitRun(s, i + a + 1);
      if b == 0 then None
      else
        ValueBound(s[i..i + a]);
        ValueBound(s[i + a + 1..i + a + 1 + b]);
        assert Pow10(2) == 100;
        Some(DateMatch(i, i + a + 1 + b, Value(s[i..i + a]), Value(s[i + a + 1..i + a + 1 + b]), None))
  }

  /** `\d{1,2}\.\d{1,2}\.\d{4}` matches at i: a `D.M` followed by a dot and four digits. */
  predicate FullShapeAt(s: string, i: int) {
    0 <= i <= |s|
    && var m := ShortAt(s, i);
       m.Some? && m.value.end + 5 <= |s| && s[m.value.end] == '.'
       && AllDigits(s[m.value.end + 1..m.value.end + 5])
  }

  function FullAt(s: string, i: nat): (r: Option<DateMatch>)
    requires i <= |s|
    ensures r.Some? <==> FullShapeAt(s, i)
    ensures r.Some? ==> r.value.start == i && i < r.value.end <= |s| && r.value.year.Some?
    ensures r.Some? ==> r.value.year.value <= 9999
    ensures r.Some? ==> r.value.day == ShortAt(s, i).value.day && r.value.month == ShortAt(s, i).value.month
    ensures r.Some? ==> var e := ShortAt(s, i).value.end;
                        r.value.end == e + 5 && s[e] == '.' && AllDigits(s[e + 1..e + 5])
                        && r.value.year.value == Value(s[e + 1..e + 5])
  {
    if FullShapeAt(s, i) then
      var m := ShortAt(s, i).value;
      var year := Value(s[m.end + 1..m.end + 5]);
      ValueBound(s[m.end + 1..m.end + 5]);
      assert Pow10(4) == 10000;
      Some(DateMatch(i, m.end + 5, m.day, m.month, Some(year)))
    else None
  }

  /** Four digits denote at most 9999. */
  lemma {:induction false} ValueBound(s: string)
    requires AllDigits(s)
    ensures Value(s) < Pow10(|s|)
  {
    if s != [] {
      ValueBound(s[..|s| - 1]);
    }
  }

  /** `re.search` for the short form: the leftmost match at or after i. */
  function SearchShort(s: string, i: nat): (r: Option<DateMatch>)
    requires i <= |s|
    ensures r.Some? ==> i <= r.value.start <= |s| && ShortAt(s, r.value.start) == r
    ensures forall p :: i <= p && (r.None? || p < r.value.start) ==> !ShortShapeAt(s, p)
    decreases |s| - i
  {
    if i == |s| then None
    else if ShortAt(s, i).Some? then ShortAt(s, i)
    else SearchShort(s, i + 1)
  }

  /** `re.search` for the long form: the leftmost match at or after i. */
  function SearchFull(s: string, i: nat): (r: Option<DateMatch>)
    requires i <= |s|
    ensures r.Some? ==> i <= r.value.start <= |s| && FullAt(s, r.value.start) == r
    ensures forall p :: i <= p && (r.None? || p < r.value.start) ==> !FullShapeAt(s, p)
    decreases |s| - i
  {
    if i == |s| then None
    else if FullAt(s, i).Some? then FullAt(s, i)
    else SearchFull(s, i + 1)
  }

  /** `\s\d{2}:\d{2}` matches at j. */
  predicate TimeAt(mode: Mode, s: string, j: int) {
    0 <= j && j + 6 <= |s|
    && IsSpace(mode, s[j]) && IsDigit(s[j + 1]) && IsDigit(s[j + 2])
    && s[j + 3] == ':' && IsDigit(s[j + 4]) && IsDigit(s[j + 5])
  }

  /**
   * `(D.M.YYYY|D.M)(\s\d{2}:\d{2})` at i: the end of the whole match, whose
   * last six characters are the time group. The long alternative is tried first.
   */
  function TimedAt(mode: Mode, s: string, i: nat): (r: Option<nat>)
    requires i <= |s|
    ensures r.Some? ==> ShortShapeAt(s, i) && i + 9 <= r.value <= |s| && TimeAt(mode, s, r.value - 6)
  {
    var full := FullAt(s, i);
    var short := ShortAt(s, i);
    if full.Some? && TimeAt(mode, s, full.value.end) then Some(full.value.end + 6)
    else if short.Some? && TimeAt(mode, s, short.value.end) then Some(short.value.end + 6)
    else None
  }

  /**
   * `TimedAt` matches exactly when a date, long or short, is followed by a
   * time; the long date is preferred when both are.
   */
  lemma TimedAtMatches(mode: Mode, s: string, i: nat)
    requires i <= |s|
    ensures var r := TimedAt(mode, s, i);
            && (r.Some? <==> (FullAt(s, i).Some? && TimeAt(mode, s, FullAt(s, i).value.end))
                             || (ShortAt(s, i).Some? && TimeAt(mode, s, ShortAt(s, i).value.end)))
            && (FullAt(s, i).Some? && TimeAt(mode, s, FullAt(s, i).value.end) ==> r == Some(FullAt(s, i).value.end + 6))
            && (r.Some? && !(FullAt(s, i).Some? && TimeAt(mode, s, FullAt(s, i).value.end)) ==>
                  ShortAt(s, i).Some? && r == Some(ShortAt(s, i).value.end + 6))
  {
  }

  /** The leftmost date-and-time occurrence at or after i, as the span it covers. */
  function SearchTimed(mode: Mode, s: string, i: nat): (r: Option<(nat, nat)>)
    requires i <= |s|
    ensures r.Some? ==> i <= r.value.0 <= |s| && TimedAt(mode, s, r.value.0) == Some(r.value.1)
    ensures forall p :: i <= p <= |s| && (r.None? || p < r.value.0) ==> TimedAt(mode, s, p).None?
    decreases |s| - i
  {
    if i == |s| then None
    else if TimedAt(mode, s, i).Some? then Some((i, TimedAt(mode, s, i).value))
    else SearchTimed(mode, s, i + 1)
  }

  /**
   * The year of a `D.M` date: `strptime(D.M, '%d.%m')` reads it as a date of
   * 1900 (so the 29th of February is refused in every year), then the current
   * year is kept when that day's midnight is later than now, and the next year
   * is taken otherwise. `strptime('%Y')` wants four digits, so a clock year
   * below 1000, or a year past 9999, is refused.
   */
  function ResolveShort(day: nat, month: nat, now: Moment): (r: Result<Date>)
    requires ValidMoment(now) && now.date.year <= 9999
    ensures r.Err? <==> ShortRefused(day, month, now)
    ensures r.Err? ==> r.error == InvalidDate
    ensures r.Ok? ==> Valid(r.value) && r.value.year <= 9999
    ensures r.Ok? ==> r.value.month == month && r.value.day == day && Before(now.date, r.value)
    ensures r.Ok? ==> r.value.year == if Before(now.date, Date(now.date.year, month, day)) then now.date.year else now.date.year + 1
  {
    if !Valid(Date(1900, month, day)) || now.date.year < 1000 then Err(InvalidDate)
    else
      var thisYear := Date(now.date.year, month, day);
      MidnightLater(thisYear, now);
      var year := if Later(Moment(thisYear, Midnight), now) then now.date.year else now.date.year + 1;
      if year > 9999 then Err(InvalidDate) else Ok(Date(year, month, day))
  }

  /**
   * When `strptime` refuses a `D.M` date: the day does not exist in 1900, the
   * clock year is not written with four digits, or the date would fall past 9999.
   */
  predicate ShortRefused(day: nat, month: nat, now: Moment) {
    !Valid(Date(1900, month, day)) || now.date.year < 1000
    || (now.date.year == 9999 && !Before(now.date, Date(9999, month, day)))
  }

  /**
   * When `convert_absolute_date` raises: the first long-form date does not
   * exist, or there is none and the first short-form date is refused.
   */
  predicate Refused(s: string, now: Moment) {
    match SearchFull(s, 0)
    case Some(m) => !Valid(Date(m.year.value, m.month, m.day))
    case None =>
      match SearchShort(s, 0)
      case None => false
      case Some(m) => ShortRefused(m.day, m.month, now)
  }

  /** The chosen year is the first one in which the day still lies ahead. */
  lemma ResolveNearest(day: nat, month: nat, now: Moment, y: int)
    requires ValidMoment(now) && now.date.year <= 9999
    requires ResolveShort(day, month, now).Ok?
    requires Before(now.date, Date(y, month, day))
    ensures ResolveShort(day, month, now).value.year <= y
    ensures ResolveShort(day, month, now).value.year <= now.date.year + 1
  {
    MidnightLater(Date(now.date.year, month, day), now);
  }

  /** The 29th of February written as `29.2` is refused even in a leap year. */
  lemma LeapDayRefused(now: Moment)
    requires ValidMoment(now) && now.date.year <= 9999
    ensures ResolveShort(29, 2, now).Err?
  {
  }

  /** Today's own day and month roll over to next year. */
  lemma TodayRollsOver(now: Moment)
    requires ValidMoment(now) && 1000 <= now.date.year < 9999
    requires Valid(Date(1900, now.date.month, now.date.day))
    ensures ResolveShort(now.date.day, now.date.month, now) == Ok(Date(now.date.year + 1, now.date.month, now.date.day))
  {
    MidnightLater(now.date, now);
  }

  /**
   * The date part of `convert_absolute_date`: the first long-form date if there
   * is one, else the first short-form date with its year resolved, else none.
   */
  function FindDate(s: string, now: Moment): (r: Result<Option<(DateMatch, Date)>>)
    requires ValidMoment(now) && now.date.year <= 9999
    ensures r == Ok(None) <==> forall p :: 0 <= p ==> !ShortShapeAt(s, p)
    ensures r.Ok? && r.value.Some? ==> ShortShapeAt(s, r.value.value.0.start)
    ensures r.Ok? && r.value.Some? ==> r.value.value.0.start < r.value.value.0.end <= |s|
    ensures r.Ok? && r.value.Some? ==> Valid(r.value.value.1) && r.value.value.1.year <= 9999
    ensures r.Ok? && r.value.Some? ==> var (m, d) := r.value.value; d.day == m.day && d.month == m.month
    ensures SearchFull(s, 0).Some? ==>
              var m := SearchFull(s, 0).value;
              var d := Date(m.year.value, m.month, m.day);
              r == if Valid(d) then Ok(Some((m, d))) else Err(InvalidDate)
    ensures SearchFull(s, 0).None? && SearchShort(s, 0).Some? ==>
              var m := SearchShort(s, 0).value;
              match ResolveShort(m.day, m.month, now)
              case Ok(d) => r == Ok(Some((m, d)))
              case Err(e) => r == Err(e)
  {
    match SearchFull(s, 0)
    case Some(m) =>
      var d := Date(m.year.value, m.month, m.day);
      if Valid(d) then Ok(Some((m, d))) else Err(InvalidDate)
    case None =>
      match SearchShort(s, 0)
      case None => Ok(None)
      case Some(m) =>
        var d :- ResolveShort(m.day, m.month, now);
        Ok(Some((m, d)))
  }

  /**
   * `convert_absolute_date`: the first date (or, when some date has a time
   * right after it, the first such date-and-time) is replaced by a timestamp
   * holding the date found and the time group found.
   */
  function ConvertAbsoluteDate(mode: Mode, s: string, now: Moment): (r: Result<string>)
    requires ValidMoment(now) && now.date.year <= 9999
    ensures r.Ok? ==> (r.value == s <==> forall p :: 0 <= p ==> !ShortShapeAt(s, p))
    ensures r.Err? <==> FindDate(s, now).Err?
    ensures r.Err? <==> Refused(s, now)
  {
    var found :- FindDate(s, now);
    if found.None? then Ok(s)
    else Ok(ReplaceFound(mode, s, found.value.0, found.value.1))
  }

  /**
   * The replacement once a date is found: the first date-and-time if there is
   * one, else the date found, gives way to the timestamp, so the text changes.
   */
  function ReplaceFound(mode: Mode, s: string, m: DateMatch, d: Date): (r: string)
    requires Valid(d) && m.start < m.end <= |s| && ShortShapeAt(s, m.start)
    ensures r != s
  {
    var timed := SearchTimed(mode, s, 0);
    var a := if timed.Some? then timed.value.0 else m.start;
    var b := if timed.Some? then timed.value.1 else m.end;
    var time := if timed.Some? then s[b - 6..b] else "";
    assert ShortShapeAt(s, a);
    var r := s[..a] + Timestamp(d, time) + s[b..];
    assert r[a] == '<' != s[a];
    r
  }

  /** `"<%s%s>" % (date, time)`: the timestamp put in place of the date. */
  function Timestamp(d: Date, time: string): (r: string)
    requires Valid(d)
    ensures |r| >= 2 && r[0] == '<' && r[|r| - 1] == '>'
    ensures time == [] ==> r == FormatDate(d, DateTemplate)
  {
    "<" + IsoDay(d) + time + ">"
  }

  /** A text without any `D.M` comes back unchanged. */
  lemma NoDateUnchanged(mode: Mode, s: string, now: Moment)
    requires ValidMoment(now) && now.date.year <= 9999
    requires forall p :: 0 <= p ==> !ShortShapeAt(s, p)
    ensures ConvertAbsoluteDate(mode, s, now) == Ok(s)
  {
  }

  /** In particular a text without a dot. */
  lemma NoDotUnchanged(mode: Mode, s: string, now: Moment)
    requires ValidMoment(now) && now.date.year <= 9999
    requires '.' !in s
    ensures ConvertAbsoluteDate(mode, s, now) == Ok(s)
  {
    forall p | 0 <= p ensures !ShortShapeAt(s, p) {
      if p + 2 < |s| {
        assert s[p + 1] in s && s[p + 2] in s;
      }
    }
  }

  /**
   * A long-form date anywhere wins over short forms before it, and the date it
   * yields does not depend on the clock.
   */
  lemma FullFormFirst(s: string, now: Moment, later: Moment)
    requires ValidMoment(now) && now.date.year <= 9999
    requires ValidMoment(later) && later.date.year <= 9999
    requires exists p :: 0 <= p && FullShapeAt(s, p)
    ensures FindDate(s, now) == FindDate(s, later)
    ensures FindDate(s, now).Ok? ==>
              FindDate(s, now).value.Some? && FindDate(s, now).value.value.0.year.Some?
  {
    assert SearchFull(s, 0).Some?;
  }

  /** A long-form date that does not exist in the calendar (such as `31.2.2016`) makes the conversion fail. */
  lemma ImpossibleDateFails(mode: Mode, s: string, now: Moment)
    requires ValidMoment(now) && now.date.year <= 9999
    requires SearchFull(s, 0).Some?
    requires var m := SearchFull(s, 0).value; !Valid(Date(m.year.value, m.month, m.day))
    ensures ConvertAbsoluteDate(mode, s, now).Err?
  {
  }

  /**
   * Without a time, the timestamp put in place of the date reads back as the
   * date found, and everything after the date is kept as it was.
   */
  lemma UntimedStamp(mode: Mode, s: string, now: Moment, m: DateMatch, d: Date)
    requires ValidMoment(now) && now.date.year <= 9999
    requires FindDate(s, now) == Ok(Some((m, d)))
    requires SearchTimed(mode, s, 0).None?
    ensures m.start <= m.end <= |s|
    ensures ConvertAbsoluteDate(mode, s, now) == Ok(s[..m.start] + FormatDate(d, DateTemplate) + s[m.end..])
    ensures ParseStamp(mode, FormatDate(d, DateTemplate)) == Some(d)
  {
    StampRoundTrip(mode, d);
    ConvertUntimed(mode, s, now, m, d);
  }

  /**
   * With a date followed by a time somewhere, the first such date-and-time is
   * what is replaced: by the date found, with the time group written after it.
   */
  lemma ConvertTimed(mode: Mode, s: string, now: Moment, m: DateMatch, d: Date, a: nat, b: nat)
    requires ValidMoment(now) && now.date.year <= 9999
    requires FindDate(s, now) == Ok(Some((m, d)))
    requires SearchTimed(mode, s, 0) == Some((a, b))
    ensures a + 9 <= b <= |s| && TimeAt(mode, s, b - 6)
    ensures forall p :: 0 <= p < a ==> TimedAt(mode, s, p).None?
    ensures ConvertAbsoluteDate(mode, s, now) == Ok(s[..a] + "<" + IsoDay(d) + s[b - 6..b] + ">" + s[b..])
  {
    TimedSpan(mode, s, a, b);
    ConvertTimedSpan(mode, s, now, m, d, a, b);
    Regroup(s[..a], IsoDay(d), s[b - 6..b], s[b..]);
  }

  /** The span of the first date-and-time ends in its time group, and no such span starts earlier. */
  lemma TimedSpan(mode: Mode, s: string, a: nat, b: nat)
    requires SearchTimed(mode, s, 0) == Some((a, b))
    ensures a + 9 <= b <= |s| && TimeAt(mode, s, b - 6)
    ensures forall p :: 0 <= p < a ==> TimedAt(mode, s, p).None?
  {
  }

  lemma Regroup(x: string, y: string, t: string, z: string)
    ensures x + ("<" + y + t + ">") + z == x + "<" + y + t + ">" + z
  {
  }

  lemma ConvertTimedSpan(mode: Mode, s: string, now: Moment, m: DateMatch, d: Date, a: nat, b: nat)
    requires ValidMoment(now) && now.date.year <= 9999
    requires FindDate(s, now) == Ok(Some((m, d)))
    requires SearchTimed(mode, s, 0) == Some((a, b))
    ensures a + 9 <= b <= |s| && Valid(d)
    ensures ConvertAbsoluteDate(mode, s, now) == Ok(s[..a] + Timestamp(d, s[b - 6..b]) + s[b..])
  {
    FoundReplaced(mode, s, now, m, d);
    ReplaceTimed(mode, s, m, d, a, b);
  }

  /** Once a date is found, the conversion succeeds with the replacement. */
  lemma FoundReplaced(mode: Mode, s: string, now: Moment, m: DateMatch, d: Date)
    requires ValidMoment(now) && now.date.year <= 9999
    requires FindDate(s, now) == Ok(Some((m, d)))
    ensures Valid(d) && m.start < m.end <= |s| && ShortShapeAt(s, m.start)
    ensures ConvertAbsoluteDate(mode, s, now) == Ok(ReplaceFound(mode, s, m, d))
  {
  }

  lemma ReplaceTimed(mode: Mode, s: string, m: DateMatch, d: Date, a: nat, b: nat)
    requires Valid(d) && m.start < m.end <= |s| && ShortShapeAt(s, m.start)
    requires SearchTimed(mode, s, 0) == Some((a, b))
    ensures a + 9 <= b <= |s|
    ensures ReplaceFound(mode, s, m, d) == s[..a] + Timestamp(d, s[b - 6..b]) + s[b..]
  {
    TimedSpan(mode, s, a, b);
  }

  lemma ConvertUntimed(mode: Mode, s: string, now: Moment, m: DateMatch, d: Date)
    requires ValidMoment(now) && now.date.year <= 9999
    requires FindDate(s, now) == Ok(Some((m, d)))
    requires SearchTimed(mode, s, 0).None?
    ensures m.end <= |s|
    ensures ConvertAbsoluteDate(mode, s, now) == Ok(s[..m.start] + FormatDate(d, DateTemplate) + s[m.end..])
  {
    FoundReplaced(mode, s, now, m, d);
  }

  /** `am 1.9.2016` holds the long-form date 1 September 2016, read from its digits. */
  lemma FullExample(now: Moment)
    requires ValidMoment(now) && now.date.year <= 9999
    ensures FindDate("am 1.9.2016", now) == Ok(Some((DateMatch(3, 11, 1, 9, Some(2016)), Date(2016, 9, 1))))
  {
    FullExampleAt();
    FullExampleFirst();
  }

  lemma FullExampleAt()
    ensures FullAt("am 1.9.2016", 3) == Some(DateMatch(3, 11, 1, 9, Some(2016)))
  {
    var s := "am 1.9.2016";
    assert s[3..4] == "1" && s[5..6] == "9" && s[7..11] == "2016";
    assert Value("2016") == 2016 by {
      assert "2016"[..3] == "201" && "201"[..2] == "20" && "20"[..1] == "2" && "2"[..0] == "";
    }
  }

  lemma FullExampleFirst()
    ensures SearchFull("am 1.9.2016", 0) == FullAt("am 1.9.2016", 3)
  {
    var s := "am 1.9.2016";
    assert s[0] == 'a' && s[1] == 'm' && s[2] == ' ' && s[4] == '.';
    assert !ShortShapeAt(s, 0) && !ShortShapeAt(s, 1) && !ShortShapeAt(s, 2);
    assert SearchFull(s, 2) == SearchFull(s, 3);
    assert SearchFull(s, 0) == SearchFull(s, 1) == SearchFull(s, 2);
  }
}
