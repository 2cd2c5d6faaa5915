# OrgmodeEntry in Dafny

A model of `OrgmodeEntry`, the class that turns one captured line of text
into an org-mode heading with an optional body. Two variants are modelled:

- The newer one (`source/py38/orgmode_entry.py`) splits the line on a
  delimiter. It rewrites absolute dates (`D.M.YYYY`, `D.M`, with an optional
  ` HH:MM`) and relative dates (weekday names, "today", "morgen", ...) in the
  body as `<YYYY-MM-DD Www>` timestamps. It then turns whitespace pairs into
  line breaks, pulls `DL:`/`S:` timestamps out as `DEADLINE:`/`SCHEDULED:`,
  and cleans up spaces. It gives the heading an org priority cookie (`#b` becomes
  `[#B]`). The entry is assembled from the heading, the planning line, the
  creation stamp and the body. A message reports what was added.
- The older one (`source/orgmode_entry.py`, Python 2.7) only replaces relative
  dates and converts line breaks. Its entry is the heading, an optional
  creation stamp and the body.

Every regular expression of the source is modelled as a small scanner over
`seq<char>`, with Python's semantics written out:

- leftmost match for `re.search`;
- left-to-right, non-overlapping replacement for `re.sub`;
- the lazy `.+?` of `add_priority`;
- `\b` word boundaries;
- IGNORECASE folding.

Character classes depend on `Chars.Mode`. `Unicode` covers Python 3 `str`
patterns. `Ascii` covers the Python 2.7 patterns, which run on `unicode`
text without `re.UNICODE`.

Dates live in the proleptic Gregorian calendar:

- `Calendar.Ordinal` counts days and `Calendar.Weekday` is Monday = 0;
- `Calendar.DaysBeforeYear` adds up the lengths of the earlier years, and `Calendar.DaysBeforeYearClosed` shows that this is the closed formula of Python's `datetime`;
- `Calendar.AddDays` is "today + n days";
- the clock is a parameter `now: Moment`, a date and a time of day.

Modules, one per file:

- `Wrappers`: `Option`/`Result` and the two errors;
- `Calendar`: dates;
- `Chars`: character classes, case folding, digits, searching and splitting;
- `DateFormat`: `format_date` and the timestamp shape;
- `RelativeDates`: `replace_date`, as a walk over the text (`Scan`) whose pieces are then rendered (`Render`);
- `AbsoluteDates`: `convert_absolute_date`;
- `Whitespace`: line breaks, double spaces and edge spaces;
- `Planning`: deadline and scheduled extraction;
- `Priority`: `add_priority`;
- `Entry`: the newer class;
- `LegacyEntry`: the older class.

## Model

| member | source | states |
|---|---|---|
| Calendar.AddDays | source/py38/orgmode_entry.py:185-190 | `today + timedelta(days=n)`: the result is a valid date exactly n days after the input (ordinal + n) |
| Calendar.Weekday | source/py38/orgmode_entry.py:202-203 | `weekday()` of a valid date is in 0..6 |
| Calendar.WeekdayAfter | source/py38/orgmode_entry.py:186-210 | moving n days forward moves the weekday by n modulo 7 |
| Calendar.MidnightLater | source/py38/orgmode_entry.py:264-273 | `date_compare > today`, with `date_compare` at midnight, holds exactly when the date is a later day than today |
| Calendar.DaysInMonth | source/py38/orgmode_entry.py:248-249 | months have 28 to 31 days, and 29 only for February of a leap year |
| Chars.SplitFirstTwo | source/py38/orgmode_entry.py:109-119 | `split(delimiter)` then `items[0]`/`items[1]`: no body iff the delimiter is absent (then the heading is the whole text); otherwise the heading ends at the first occurrence, and the body runs from after it to the next occurrence or the end |
| Chars.LastSegment | source/py38/orgmode_entry.py:382-383 | `split('/')[-1]`: a slash-free suffix of the path, preceded by a slash when shorter than the path |
| Chars.FindFrom | source/py38/orgmode_entry.py:174-175 | the first position at or after `from` where the delimiter occurs, or -1 when there is none |
| Chars.PadValue | source/py38/orgmode_entry.py:222-226 | `%Y`, `%m`, `%d`: a number below 10^w is written with exactly w digits that read back as that number |
| Chars.Lower | source/py38/orgmode_entry.py:194 | `str.lower()` never shortens the text; without U+0130 it keeps the length and maps each character as `LowerChar` does |
| Chars.LowerChar | source/py38/orgmode_entry.py:194 | `lower()` of one character: an ASCII capital becomes its small letter, and any other character but U+212A and U+0130 stays |
| Chars.LowerAscii | source/py38/orgmode_entry.py:177-194 | on ASCII letters and digits, `lower()` is exactly the IGNORECASE folding |
| Chars.Upper | source/py38/orgmode_entry.py:315 | `upper()` maps an ASCII lower-case letter to its capital and leaves every other character alone |
| DateFormat.Abbrev | source/py38/orgmode_entry.py:226 | `%a` is a three-letter abbreviation, a capital then two lower-case letters |
| DateFormat.FormatDate | source/py38/orgmode_entry.py:222-229 | `format_date`: for a four-digit year, the template's literal pieces with eleven characters of date between them |
| DateFormat.FormatDateFilled | source/py38/orgmode_entry.py:222-229 | for a four-digit year each slot holds its field: four digits reading as the year, two as the month, two as the day, then the weekday's abbreviation, with the literal pieces in place |
| DateFormat.IsoDay | source/py38/orgmode_entry.py:248-249 | `strftime('%Y-%m-%d %a')` in angle brackets is `format_date` with the timestamp template |
| DateFormat.StampRoundTrip | source/py38/orgmode_entry.py:222-229 | a formatted date (year up to 9999) has the timestamp shape and reads back as the same date |
| DateFormat.StampLayout | source/py38/orgmode_entry.py:45 | four, two and two digits and a weekday abbreviation in the `<Y-m-d a>` layout form a 16-character timestamp that holds them in place |
| DateFormat.FormattedHasNoDot | source/py38/orgmode_entry.py:222-229 | a template without dots yields a text without dots |
| RelativeDates.KeyLetters | source/py38/orgmode_entry.py:46-67 | every table key is at least five lower-case ASCII letters |
| RelativeDates.WeekdayOffset | source/py38/orgmode_entry.py:201-210 | the weekday offset is in 1..7 and lands on the target weekday (same weekday gives 7, never 0) |
| RelativeDates.WeekdayOffsetUnique | source/py38/orgmode_entry.py:201-210 | no other offset in 1..7 lands on the target weekday |
| RelativeDates.NextOccurrence | source/py38/orgmode_entry.py:185-210 | a weekday name resolves to the first day strictly after today that falls on that weekday |
| RelativeDates.RelativeOffset | source/py38/orgmode_entry.py:192-220 | the lowered token has an offset iff it is a key of either table; the offset is in 0..7 |
| RelativeDates.RelativeOffsetValues | source/py38/orgmode_entry.py:62-67 | "heute"/"today" give 0, "morgen"/"tomorrow" give 1, a weekday gives its 1..7 offset onto that weekday |
| RelativeDates.ConvertDateAsWritten | source/py38/orgmode_entry.py:185-190 | `convert_date` as written: a token whose lowered form is no key yields today's date |
| RelativeDates.ConvertDate | source/py38/orgmode_entry.py:185-220 | corrected `convert_date`: an unknown token stays as it was; a key token converts as the source does |
| RelativeDates.KeyConverted | source/py38/orgmode_entry.py:185-190 | a token that lowers to a key becomes the timestamp of today moved by its offset |
| RelativeDates.MatchAtSound | source/py38/orgmode_entry.py:177-183 | a match of `\b(keys)\b` under IGNORECASE is a whole word whose folded spelling is a key |
| RelativeDates.MatchAtComplete | source/py38/orgmode_entry.py:177-183 | every whole word that folds to a key is matched, with its full length |
| RelativeDates.ScanWord | source/py38/orgmode_entry.py:182 | at a match, the walk of `pattern.sub` takes the matched word whole and resumes after it |
| RelativeDates.ScanOther | source/py38/orgmode_entry.py:182 | where nothing matches, the walk passes one character over unchanged |
| RelativeDates.ScanCovers | source/py38/orgmode_entry.py:182 | the walk of `pattern.sub` takes each match whole and passes over the other characters; its pieces spell the text, in order |
| RelativeDates.RenderAgrees | source/py38/orgmode_entry.py:185-190 | where every matched word lowers to a key, the corrected and the as-written conversion give the same text |
| RelativeDates.NoKeysUnchanged | source/py38/orgmode_entry.py:177-183 | whatever the conversion, a text with no key word renders back as itself |
| RelativeDates.ScanNoWords | source/py38/orgmode_entry.py:177-183 | a walk over text with no key word takes no word |
| RelativeDates.RenderNoWords | source/py38/orgmode_entry.py:182 | pieces with no word render as the text they spell |
| RelativeDates.KeyWordReplaced | source/py38/orgmode_entry.py:177-190 | a key word standing between word boundaries becomes `ConvertDate` of itself, and the text on either side is replaced on its own |
| RelativeDates.KeyWordReplacedAsWritten | source/py38/orgmode_entry.py:177-190 | the same for the as-written conversion |
| RelativeDates.KeyWordRendered | source/py38/orgmode_entry.py:182 | for any conversion, the word between boundaries is converted and the two sides are rendered on their own |
| RelativeDates.KeyWordScan | source/py38/orgmode_entry.py:182 | the walk over such a text is the walk over the left side, the word, then the walk over the right side |
| RelativeDates.ReplaceDates | source/py38/orgmode_entry.py:177-183 | corrected `replace_date`: text with no key word is left unchanged; under ASCII-only matching it equals the as-written replacement |
| RelativeDates.ReplaceDatesAsWritten | source/py38/orgmode_entry.py:177-190 | `replace_date` as written: text with no key word is left unchanged |
| RelativeDates.AsciiTokenIsKey | source/orgmode_entry.py:125-147 | under ASCII-only matching every matched word lowers to a table key |
| RelativeDates.AsciiWordsAreKeys | source/orgmode_entry.py:125-130 | under ASCII-only matching every word the walk takes lowers to a table key |
| RelativeDates.LongSSundayMatches | source/py38/orgmode_entry.py:177-183 | "ſunday" (U+017F for `s`) is matched as a whole key word under IGNORECASE |
| RelativeDates.LongSSundayIsNoKey | source/py38/orgmode_entry.py:192-194 | `lower()` keeps U+017F, so the lowered word is in neither table |
| RelativeDates.LongSSundayIsToday | source/py38/orgmode_entry.py:177-220 | as written, "ſunday" is replaced by today's date |
| RelativeDates.LongSSundayKept | source/py38/orgmode_entry.py:177-220 | corrected, "ſunday" is left as it is |
| RelativeDates.LongSSundayScan | source/py38/orgmode_entry.py:177-182 | the walk over `ſunday` takes it as one word |
| RelativeDates.LongSSundayRendered | source/py38/orgmode_entry.py:177-182 | so the conversion alone decides what `ſunday` becomes |
| AbsoluteDates.DigitRun | source/py38/orgmode_entry.py:234-235 | greedy `\d{1,2}`: at most two digits, and a shorter run is followed by a non-digit or the end |
| AbsoluteDates.ShortAt | source/py38/orgmode_entry.py:235 | `\d{1,2}\.\d{1,2}` matches at i iff the digit-dot-digit shape is there; day and month are the values of the two greedy digit runs, and the match ends after the second run |
| AbsoluteDates.FullAt | source/py38/orgmode_entry.py:234 | `\d{1,2}\.\d{1,2}\.\d{4}` matches at i iff the short match is followed by a dot and four digits; same day and month, the year is the value of the four digits and the match ends after them |
| AbsoluteDates.SearchShort | source/py38/orgmode_entry.py:254-255 | `re.search` for D.M: the leftmost match, with no match before it |
| AbsoluteDates.SearchFull | source/py38/orgmode_entry.py:242-243 | `re.search` for D.M.YYYY: the leftmost match, with no match before it |
| AbsoluteDates.TimedAt | source/py38/orgmode_entry.py:282-283 | `(D.M.YYYY\|D.M)(\s\d{2}:\d{2})` at i: a match starts with a date shape and its last six characters are the time group |
| AbsoluteDates.TimedAtMatches | source/py38/orgmode_entry.py:282-284 | the timed pattern matches iff a long or a short date is followed by a time; the long date wins when both are |
| AbsoluteDates.SearchTimed | source/py38/orgmode_entry.py:284-287 | the leftmost timed match, with no timed match before it |
| AbsoluteDates.ResolveShort | source/py38/orgmode_entry.py:256-278 | D.M fails exactly when `strptime` refuses it (`ShortRefused`): the day does not exist in 1900, the clock year has fewer than four digits, or the date would pass 9999; otherwise it is the valid date with that day and month, in this year when that day is still ahead and next year otherwise, so strictly after today |
| AbsoluteDates.ResolveNearest | source/py38/orgmode_entry.py:264-273 | the chosen year is the earliest that puts the date after today, and at most next year |
| AbsoluteDates.LeapDayRefused | source/py38/orgmode_entry.py:259-260 | `29.2` always fails, since `%d.%m` is checked against 1900 |
| AbsoluteDates.TodayRollsOver | source/py38/orgmode_entry.py:268-273 | today's own day and month roll over to next year |
| AbsoluteDates.FindDate | source/py38/orgmode_entry.py:239-278 | no date iff no D.M shape occurs; the leftmost D.M.YYYY wins and gives exactly the date as written, or the error when that date does not exist; otherwise the leftmost D.M with its year resolved, or its error; day and month are always the digits found |
| AbsoluteDates.FullFormFirst | source/py38/orgmode_entry.py:242-252 | when a D.M.YYYY shape occurs, it wins: the result carries its year and does not depend on the clock |
| AbsoluteDates.ConvertAbsoluteDate | source/py38/orgmode_entry.py:231-296 | the text changes iff a date shape occurs; the step fails iff `Refused` holds: the leftmost D.M.YYYY does not exist, or there is none and the leftmost D.M is refused |
| AbsoluteDates.Timestamp | source/py38/orgmode_entry.py:289-291 | `<date time>` is bracketed, and without a time it is exactly the formatted date |
| AbsoluteDates.NoDateUnchanged | source/py38/orgmode_entry.py:289-296 | without a date shape the text comes back unchanged |
| AbsoluteDates.NoDotUnchanged | source/py38/orgmode_entry.py:231-296 | text without a dot comes back unchanged |
| AbsoluteDates.ImpossibleDateFails | source/py38/orgmode_entry.py:245-249 | an impossible D.M.YYYY (such as 31.2.2020) makes the step fail |
| AbsoluteDates.UntimedStamp | source/py38/orgmode_entry.py:287-294 | without a time, only the first date is replaced by its timestamp, which reads back as that date |
| AbsoluteDates.ConvertUntimed | source/py38/orgmode_entry.py:289-294 | without a time, the text is the part before the date, the timestamp and the part after |
| AbsoluteDates.ConvertTimed | source/py38/orgmode_entry.py:280-294 | when some date is followed by a time, the first such span is replaced by `<` + the found date + the time group + `>`, and no timed span starts earlier |
| AbsoluteDates.FullExample | source/py38/orgmode_entry.py:234-252 | `am 1.9.2016` yields the long-form match at 3..11 and the date 1 September 2016, whatever the clock |
| Whitespace.SubPairsUnchanged | source/py38/orgmode_entry.py:327-331 | text without two adjacent whitespace characters is left unchanged |
| Whitespace.SubPairs | source/py38/orgmode_entry.py:327-331 | `re.sub(r'\s\s', repl, s)`: with a replacement of at most one character the text never grows |
| Whitespace.SubPairsLength | source/py38/orgmode_entry.py:327-339 | a replacement of at most one character never lengthens the text, and shortens it when a pair is present |
| Whitespace.SubPairsSplit | source/py38/orgmode_entry.py:327-339 | with no whitespace pair across the seam, the two halves are replaced independently |
| Whitespace.SubPairsKeepsLast | source/py38/orgmode_entry.py:327-339 | a final non-whitespace character stays last |
| Whitespace.SubPairsKeepsFirst | source/py38/orgmode_entry.py:327-339 | a leading non-whitespace character stays first |
| Whitespace.RemoveDoubleSpaces | source/py38/orgmode_entry.py:333-339 | the two passes give the collapsed text, never longer than the input, and unchanged when there is no pair |
| Whitespace.Collapse | source/py38/orgmode_entry.py:333-339 | the two passes never lengthen the text |
| Whitespace.CollapseUnchanged | source/py38/orgmode_entry.py:333-339 | text without a whitespace pair is left unchanged by both passes |
| Whitespace.ShortRun | source/py38/orgmode_entry.py:333-339 | a run of 2 to 4 whitespace characters ends as one space |
| Whitespace.RunCollapses | source/py38/orgmode_entry.py:333-339 | in context, such a run between non-whitespace neighbours becomes one space, and the text around it is processed on its own |
| Whitespace.BothPasses | source/py38/orgmode_entry.py:333-339 | between non-whitespace neighbours, both passes process the middle part on its own |
| Whitespace.TrimEdges | source/py38/orgmode_entry.py:341-346 | removing edge spaces never lengthens the text |
| Whitespace.DropEdgeSpaces | source/py38/orgmode_entry.py:341-346 | `re.sub('(^\s\|\s$)', '', s)` read character by character never lengthens the text |
| Whitespace.TrimEdgesIsSub | source/py38/orgmode_entry.py:341-346 | the slice equals `re.sub('(^\s\|\s$)', '', s)`, character by character, including `$` before a final newline |
| Whitespace.TrimEdgesUnchanged | source/py38/orgmode_entry.py:341-346 | text with no whitespace at either edge is left unchanged |
| Planning.FindTagged | source/py38/orgmode_entry.py:350-352 | `re.search` for `pattern<timestamp>` under IGNORECASE: the leftmost match, with no match before it |
| Planning.RemoveTagged | source/py38/orgmode_entry.py:358-360 | removing every match never lengthens the text (see `KeptUntil` and `DroppedAt` for what is removed) |
| Planning.KeptUntil | source/py38/orgmode_entry.py:358-360 | up to the next marked timestamp every character is kept |
| Planning.KeptAt | source/py38/orgmode_entry.py:358-360 | a position where no marked timestamp starts keeps its character |
| Planning.DroppedAt | source/py38/orgmode_entry.py:358-360 | a marked timestamp is dropped whole and the walk resumes after it |
| Planning.RemoveFirstMatch | source/py38/orgmode_entry.py:352-360 | the body keeps everything before the first match, drops that match, and goes on after it |
| Planning.ReplaceAll | source/py38/orgmode_entry.py:355-356 | `re.sub` of a literal pattern: a replacement of the same length keeps the length |
| Planning.ReplaceAllAbsent | source/py38/orgmode_entry.py:355-356 | a text in which the pattern does not occur is left unchanged |
| Planning.Extract | source/py38/orgmode_entry.py:348-378 | no deadline/scheduled value iff no `pattern<timestamp>` occurs; the body never grows |
| Planning.ExtractNothing | source/py38/orgmode_entry.py:348-362 | without a match, the value is None and the body is identical |
| Planning.ExtractFound | source/py38/orgmode_entry.py:348-362 | when the first marked timestamp is at p, the value is that match with the pattern rewritten to the keyword, and the body is the text before p followed by the rest after the match with every later match removed |
| Planning.ExtractExactMarker | source/py38/orgmode_entry.py:348-362 | a first match whose marker is written exactly as the pattern is extracted as the keyword followed by its timestamp |
| Planning.FoundMarker | source/py38/orgmode_entry.py:353-356 | rewriting such a match gives the keyword and the timestamp |
| Planning.ExtractStamp | source/py38/orgmode_entry.py:348-362 | `DL: <stamp>` alone gives `DEADLINE: <stamp>` and an empty body |
| Planning.ExtractFormatted | source/py38/orgmode_entry.py:348-378 | the same for any date formatted by `format_date` |
| Planning.RewriteMarker | source/py38/orgmode_entry.py:353-356 | rewriting `pattern` to `keyword` inside the match touches only the marker, since a timestamp has no colon |
| Planning.StampHasNoColon | source/py38/orgmode_entry.py:45 | a timestamp contains no colon |
| Priority.TagLen | source/py38/orgmode_entry.py:305-306 | `tag(.?)\s` at i: the match length is 0, 2 or 3, and a positive length spans the tag, optionally one character, then whitespace |
| Priority.TagLenMatches | source/py38/orgmode_entry.py:305-311 | `tag(.?)\s` matches iff the tag is followed by whitespace, directly or after one character other than a line break; the three-character match is preferred |
| Priority.FindTagFrom | source/py38/orgmode_entry.py:305-306 | the lazy `.+?`: the first marker from i on before any line break |
| Priority.FindTag | source/py38/orgmode_entry.py:305-306 | `re.match('(.+?\|.?)tag(.?)\s')` fails iff no marker lies on the first line; otherwise the lazy `.+?` picks the first marker after position 0, and only when there is none the marker at 0 |
| Priority.RemoveTags | source/py38/orgmode_entry.py:311-312 | removing every marker never lengthens the heading (see `CutAt` for what is removed) |
| Priority.RemoveTagsUnchanged | source/py38/orgmode_entry.py:311-312 | a heading without markers survives the removal unchanged |
| Priority.KeptUpTo | source/py38/orgmode_entry.py:311-312 | a stretch holding no tag character passes through the marker removal unchanged |
| Priority.CutAt | source/py38/orgmode_entry.py:311-312 | up to the next marker every character is kept, and the marker (tag, optional character, whitespace) is cut out whole |
| Priority.NoTagKept | source/py38/orgmode_entry.py:311-312 | a position where no marker starts keeps its character |
| Priority.PlaceCookie | source/py38/orgmode_entry.py:316-324 | after a leading `TODO` the result is `TODO [#X] ` followed by the heading from index 5 (the character at index 4 is dropped); otherwise `[#X] ` before the whole heading |
| Priority.AddPriority | source/py38/orgmode_entry.py:303-325 | no marker: the heading is unchanged; a marker: the cookie of the chosen marker's group, upper-cased, placed into the heading with every marker removed |
| Priority.NoMarkerUnchanged | source/py38/orgmode_entry.py:303-310 | a heading without a marker on its first line comes back unchanged |
| Priority.LetterUpperCased | source/py38/orgmode_entry.py:315-324 | a lower-case letter after the tag becomes the upper-case one in the cookie |
| Priority.TodoExample | source/py38/orgmode_entry.py:311-321 | `TODO #b do it ` becomes `TODO [#B] do it ` |
| Priority.LaterMarkerWins | source/py38/orgmode_entry.py:305-312 | `#a x #b y` becomes `[#B] x y`: the lazy `.+?` prefers a marker after position 0 |
| Entry.ProcessBody | source/py38/orgmode_entry.py:119-143 | the body steps in their order, each switched by its flag; they fail iff absolute dates are on and the body's first date is refused (`Refused`) (the relative-date step is the corrected one, see Left out) |
| Entry.TransformBody | source/py38/orgmode_entry.py:119-145 | the guarded reassignments of `body` compute the body steps |
| Entry.BodyOf | source/py38/orgmode_entry.py:113-116 | without a body the text is empty and no step runs |
| Entry.PlanningLine | source/py38/orgmode_entry.py:160-167 | the planning line is empty iff there is neither a deadline nor a scheduled date |
| Entry.BuildEntry | source/py38/orgmode_entry.py:159-170 | the successive `+=` build the assembled entry |
| Entry.AssembleOrder | source/py38/orgmode_entry.py:159-170 | entry = suffix + heading + planning line + creation stamp + newline + body |
| Entry.DeadlineAndScheduled | source/py38/orgmode_entry.py:160-167 | deadline and scheduled date share the line, separated by one space; either alone follows a newline |
| Entry.AssembleLayout | source/py38/orgmode_entry.py:159-170 | the entry starts with suffix and heading and ends with a newline and the body |
| Entry.Assemble | source/py38/orgmode_entry.py:159-170 | the entry is suffix + heading + planning line + creation stamp + newline + body |
| Entry.Format | source/py38/orgmode_entry.py:108-175 | an empty delimiter makes `format_entry` fail with the `split` error, and success needs a delimiter |
| Entry.FormatFails | source/py38/orgmode_entry.py:108-175 | with a delimiter, `format_entry` fails iff the delimiter occurs, absolute dates are on and the body's first date is one `strptime` refuses (`Refused`) |
| Entry.FormatFields | source/py38/orgmode_entry.py:113-155 | a formatted entry has a body iff the delimiter occurs, and its heading is the text before it, priority-tagged when that is on |
| Entry.FormatLayout | source/py38/orgmode_entry.py:156-172 | the entry starts with suffix and heading and ends with a newline and the body (a bare newline when there is none) |
| Entry.FormatBuilt | source/py38/orgmode_entry.py:108-172 | a body processed without error gives the entry assembled from it |
| Entry.FormatStopped | source/py38/orgmode_entry.py:108-172 | a body step that fails makes `format_entry` fail with the same error |
| Entry.NoBody | source/py38/orgmode_entry.py:113-116 | no delimiter: body None, nothing can fail, and the entry still ends in a newline |
| Entry.EmptyDelimiterFails | source/py38/orgmode_entry.py:174-175 | an empty delimiter makes `split` fail |
| Entry.FailsOnlyOnDates | source/py38/orgmode_entry.py:108-172 | besides an empty delimiter, the entry fails only with `InvalidDate`, when absolute dates are on and the body's first date is refused (`Refused`) |
| Entry.FindDateError | source/py38/orgmode_entry.py:245-260 | the absolute-date step can fail with nothing but an invalid date |
| Entry.Fill | source/py38/orgmode_entry.py:84-87 | `template % args`: its length is that of the pieces and arguments together, and it starts with the first piece (`FillTwo`, `FillThree` give the order) |
| Entry.FillTwo | source/py38/orgmode_entry.py:385-386 | a two-slot template is the pieces with the two arguments between them, in order |
| Entry.FillThree | source/py38/orgmode_entry.py:387-389 | a three-slot template likewise, with its three arguments in order |
| Entry.OrgmodeEntry.constructor | source/py38/orgmode_entry.py:16-87 | the defaults of `__init__` |
| Entry.OrgmodeEntry.FormatEntry | source/py38/orgmode_entry.py:108-172 | succeeds iff the value model does; then sets `heading` and `body` and returns the entry; on failure nothing changes |
| Entry.OrgmodeEntry.Message | source/py38/orgmode_entry.py:380-391 | template 0 with heading and file name when there is no body, template 1 with heading, body and file name otherwise |
| Entry.OrgmodeEntry.AddEntry | source/py38/orgmode_entry.py:96-101 | formats, then returns the entry (what would be written) and the message |
| LegacyEntry.ProcessBody | source/orgmode_entry.py:98-109 | relative dates first, then line breaks; with both off the body is unchanged; line breaks alone never lengthen it |
| LegacyEntry.CreationDate | source/orgmode_entry.py:178-185 | `""` iff switched off; otherwise a newline and the filled stamp template |
| LegacyEntry.NoStampByDefault | source/orgmode_entry.py:24-25 | by default no creation stamp is written |
| LegacyEntry.Format | source/orgmode_entry.py:89-123 | fails iff the delimiter is empty |
| LegacyEntry.NoBody | source/orgmode_entry.py:90-96 | no delimiter: body None and entry = suffix + heading + creation stamp, with no trailing newline |
| LegacyEntry.WithBody | source/orgmode_entry.py:97-118 | with a delimiter: the body is the processed second part, and entry = suffix + heading + creation stamp + newline + body |
| LegacyEntry.PresentDelimiter | source/orgmode_entry.py:90-99 | a delimiter that occurs gives a body |
| LegacyEntry.BodyAsWritten | source/orgmode_entry.py:101-107 | the body with the corrected date step equals the body the source computes |
| LegacyEntry.PlainBodyUnchanged | source/orgmode_entry.py:98-109 | a body with no key word and no whitespace pair comes through unchanged |
| LegacyEntry.OrgmodeEntry.constructor | source/orgmode_entry.py:16-68 | the defaults of `__init__` |
| LegacyEntry.OrgmodeEntry.FormatEntry | source/orgmode_entry.py:89-120 | fails only for an empty delimiter, leaving the object unchanged; otherwise sets `heading` and `body` and returns the entry of the value model |
| LegacyEntry.OrgmodeEntry.Message | source/orgmode_entry.py:193-203 | template 0 without a body, template 1 with one, with the file name after the last slash |
| LegacyEntry.OrgmodeEntry.AddEntry | source/orgmode_entry.py:77-82 | formats, then returns the entry and the message |

## Left out

- `write_to_file`: appending to the inbox file is I/O. `AddEntry` returns the entry instead.
- `encode` and its NFC normalisation: this is a foreign library call. Input is taken as already normalised.
- The clock: `datetime.now()`/`today()` become the parameter `now`. One `now` serves every call within one entry, whereas the source reads the clock several times.
- `strftime("%a")` depends on the locale. The model uses the English abbreviations.
- `convenience_dates` and its `elif` branch, which only prints: it is dead code.
- The run scripts and `test.py`. `src/py38/org_mode_capture_run.py` is not part of this model.
- A general regular-expression engine. `line_break_pattern`, `date_format_regex` and the date and time patterns are fixed in the model.
- Regex metacharacters: `deadline_pattern`, `scheduled_pattern` and `priority_tag` are matched literally. Backslash escapes in replacement strings are not modelled.
- `\d` matches the ASCII digits only, though Python 3 also accepts other Unicode digits.
- Unicode `\w` covers ASCII, the Latin-1 letters and numerals (superscript digits and vulgar fractions), the Latin Extended-A/B letters and the Kelvin sign. The rest of Unicode is left out, and so is Unicode whitespace in Python 2.
- `lower()`/`upper()` are modelled for ASCII and a few special letters only.
- Years below 1000, which `strftime` would print with fewer than four digits, are not modelled in `FormatDate`. A clock year below 1000 does make `ResolveShort` fail, as `strptime('%Y')` does.
- Date arithmetic past 9999-12-31, where `timedelta` raises `OverflowError`, is not modelled. `AbsoluteDates` and `Entry.OrgmodeEntry.FormatEntry` require `now` in a year up to 9999.
- `%`-templates are modelled as their literal pieces around the slots.
- Entry.ProcessBody: the relative-date step is the corrected `ReplaceDates`, not the code as written. A word that IGNORECASE matches but `lower()` does not turn into a key (`ſunday`, `dıenstag`) is kept, where the source writes today's stamp; `RelativeDates.ReplaceDatesAsWritten` models the code as written (see Findings).
- Entry.OrgmodeEntry.Message: requires `formatted`. Before `format_entry` the source raises `AttributeError`, which is not modelled.
- LegacyEntry.OrgmodeEntry.Message: requires `formatted`, for the same reason.
- Points where the code differs from its documented behaviour, and the code is followed:
  - the creation stamp's fourth slot is the weekday abbreviation, not a time;
  - text after a second delimiter is dropped (`items[1]`);
  - `29.2` is always refused, because `%d.%m` is checked in 1900;
  - the time group may come from a later occurrence than the date, and then that occurrence is what gets replaced;
  - a timestamp that carries a time is not taken as a deadline.

## Findings

| source | as written | input that shows it | evidently intended | confidence | as-written member | corrected member |
|---|---|---|---|---|---|---|
| source/py38/orgmode_entry.py:177-220 | IGNORECASE matches `ſunday` (U+017F) as `sunday`, but `lower()` keeps U+017F. The lookup fails, `delta` is `False`, and the word becomes today's date | body `ſunday` | a word that is not a table key is left alone | medium, not executed | RelativeDates.LongSSundayIsToday | RelativeDates.LongSSundayKept |
