/**
 * The newer `OrgmodeEntry`: one captured line is split into heading and body;
 * the body goes through absolute dates, relative dates, line breaks, deadline,
 * scheduled date and space clean-up; the heading gets its priority cookie; and
 * the entry is assembled from the heading, the planning line, the creation
 * stamp and the body. `create_message` then reports what was added.
 */
module Entry {

  import opened Wrappers
  import opened Chars
  import opened Calendar
  import opened DateFormat
  import opened RelativeDates
  import opened AbsoluteDates
  import opened Whitespace
  import opened Planning
  import opened Priority

  /** The attributes `__init__` sets and the run scripts may overwrite. */
  datatype Config = Config(
    inboxFile: string,
    delimiter: string,
    headingSuffix: string,
    smartLineBreak: bool,
    lineBreakChar: string,
    cleanupSpaces: bool,
    usePriorityTags: bool,
    priorityTag: char,
    addCreationDate: bool,
    creationDateFormat: Template,
    replaceAbsoluteDates: bool,
    replaceRelativeDates: bool,
    dateFormat: Template,
    convertDeadlines: bool,
    deadlinePattern: string,
    deadlineKeyword: string,
    convertScheduled: bool,
    scheduledPattern: string,
    scheduledKeyword: string)

  /** `":PROPERTIES:\n:CREATED: [%s-%s-%s %s]\n:END:"` */
  const CreatedTemplate := Template(":PROPERTIES:\n:CREATED: [", "-", "-", " ", "]\n:END:")

  const Defaults := Config(
    "/Users/Alex/Desktop/inbox.org", ":: ", "\n* ",
    true, "\n",
    true,
    true, '#',
    true, CreatedTemplate,
    true,
    true, DateTemplate,
    true, "DL: ", "DEADLINE: ",
    true, "S: ", "SCHEDULED: ")

  /** The body after all of its steps, with the deadline and scheduled parts it gave up. */
  datatype Processed = Processed(body: string, deadline: Option<string>, scheduled: Option<string>)

  /** What `format_entry` leaves behind: the heading and body fields, and the entry it returns. */
  datatype Formatted = Formatted(heading: string, body: Option<string>, entry: string)

  /** The body steps of `format_entry`, in their order, each one switched by its flag. */
  function ProcessBody(cfg: Config, text: string, now: Moment): (r: Result<Processed>)
    requires ValidMoment(now) && now.date.year <= 9999
    ensures r.Err? <==> cfg.replaceAbsoluteDates && ConvertAbsoluteDate(Unicode, text, now).Err?
    ensures r.Err? <==> cfg.replaceAbsoluteDates && Refused(text, now)
  {
    var absolute :- if cfg.replaceAbsoluteDates then ConvertAbsoluteDate(Unicode, text, now) else Ok(text);
    var relative := if cfg.replaceRelativeDates then ReplaceDates(Unicode, absolute, now.date, cfg.dateFormat) else absolute;
    var broken := if cfg.smartLineBreak then SubPairs(Unicode, relative, cfg.lineBreakChar) else relative;
    var dl := if cfg.convertDeadlines then Extract(Unicode, broken, cfg.deadlinePattern, cfg.deadlineKeyword) else (None, broken);
    var sc := if cfg.convertScheduled then Extract(Unicode, dl.1, cfg.scheduledPattern, cfg.scheduledKeyword) else (None, dl.1);
    var cleaned := if cfg.cleanupSpaces then TrimEdges(Unicode, Collapse(Unicode, sc.1)) else sc.1;
    Ok(Processed(cleaned, dl.0, sc.0))
  }

  /** The line under the heading: the deadline, then the scheduled date (after a space when both are there). */
  function PlanningLine(deadline: Option<string>, scheduled: Option<string>): (r: string)
    ensures deadline.None? && scheduled.None? <==> r == []
  {
    (if deadline.Some? then "\n" + deadline.value else [])
    + (if scheduled.Some? then (if deadline.Some? then " " else "\n") + scheduled.value else [])
  }

  /** The creation stamp part, when switched on. */
  function CreationPart(cfg: Config, now: Moment): string
    requires ValidMoment(now)
  {
    if cfg.addCreationDate then "\n" + FormatDate(now.date, cfg.creationDateFormat) else []
  }

  /** The heading with its priority cookie, when switched on. */
  function HeadingOf(cfg: Config, first: string): string {
    if cfg.usePriorityTags then AddPriority(Unicode, first, cfg.priorityTag) else first
  }

  /** The body part of the split, processed; an absent body leaves an empty text behind. */
  function BodyOf(cfg: Config, second: Option<string>, now: Moment): (r: Result<Processed>)
    requires ValidMoment(now) && now.date.year <= 9999
    ensures second.None? ==> r == Ok(Processed("", None, None))
  {
    if second.Some? then ProcessBody(cfg, second.value, now) else Ok(Processed("", None, None))
  }

  /**
   * The entry, built as `format_entry` builds it: heading suffix and heading,
   * the deadline on a new line, the scheduled date after a space (or on a new
   * line without a deadline), the creation stamp on a new line, and a newline
   * and the body.
   */
  function Assemble(cfg: Config, heading: string, p: Processed, now: Moment): (r: string)
    requires ValidMoment(now)
    ensures r == cfg.headingSuffix + heading + PlanningLine(p.deadline, p.scheduled) + CreationPart(cfg, now) + ("\n" + p.body)
  {
    var head := cfg.headingSuffix + heading;
    var withDeadline := if p.deadline.Some? then head + ("\n" + p.deadline.value) else head;
    var withScheduled :=
      if p.scheduled.Some? then (if p.deadline.Some? then withDeadline + " " else withDeadline + "\n") + p.scheduled.value
      else withDeadline;
    var withCreation := if cfg.addCreationDate then withScheduled + ("\n" + FormatDate(now.date, cfg.creationDateFormat)) else withScheduled;
    var dl := if p.deadline.Some? then "\n" + p.deadline.value else [];
    var sc := if p.scheduled.Some? then (if p.deadline.Some? then " " else "\n") + p.scheduled.value else [];
    ScheduledPart(head, dl, sc, withDeadline, withScheduled, p);
    assert withCreation == withScheduled + CreationPart(cfg, now);
    withCreation + ("\n" + p.body)
  }

  /** Appending keeps what was in front. */
  lemma PrefixTrans(a: string, b: string, c: string)
    requires StartsWith(b, a) && StartsWith(c, b)
    ensures StartsWith(c, a)
  {
    assert c[..|a|] == c[..|b|][..|a|];
  }

  /** The entry begins with the heading suffix and the heading, and ends with a newline and the body. */
  lemma AssembleLayout(cfg: Config, heading: string, p: Processed, now: Moment)
    requires ValidMoment(now)
    ensures var entry := Assemble(cfg, heading, p, now);
            StartsWith(entry, cfg.headingSuffix + heading) && HasAt(entry, |entry| - |p.body| - 1, "\n" + p.body)
  {
    AssembleOrder(cfg, heading, p, now);
    var head := cfg.headingSuffix + heading;
    var a := head + PlanningLine(p.deadline, p.scheduled);
    var b := a + CreationPart(cfg, now);
    Concat(head, PlanningLine(p.deadline, p.scheduled));
    Concat(a, CreationPart(cfg, now));
    Concat(b, "\n" + p.body);
    PrefixTrans(head, a, b);
    PrefixTrans(head, b, b + ("\n" + p.body));
  }

  /**
   * `format_entry` as a whole (see `FormatFails`, `FormatFields` and
   * `FormatLayout` for what it promises).
   */
  function Format(cfg: Config, s: string, now: Moment): (r: Result<Formatted>)
    requires ValidMoment(now) && now.date.year <= 9999
    ensures |cfg.delimiter| == 0 ==> r == Err(EmptySeparator)
    ensures r.Ok? ==> |cfg.delimiter| > 0
  {
    if |cfg.delimiter| == 0 then Err(EmptySeparator)
    else
      var items := SplitFirstTwo(s, cfg.delimiter);
      var p :- BodyOf(cfg, items.1, now);
      var heading := HeadingOf(cfg, items.0);
      Ok(Formatted(heading, if items.1.Some? then Some(p.body) else None, Assemble(cfg, heading, p, now)))
  }

  /** A body that is processed stops nothing: the entry is assembled from it. */
  lemma FormatBuilt(cfg: Config, s: string, now: Moment, p: Processed)
    requires ValidMoment(now) && now.date.year <= 9999 && |cfg.delimiter| > 0
    requires BodyOf(cfg, SplitFirstTwo(s, cfg.delimiter).1, now) == Ok(p)
    ensures var items := SplitFirstTwo(s, cfg.delimiter);
            var h := HeadingOf(cfg, items.0);
            Format(cfg, s, now) == Ok(Formatted(h, if items.1.Some? then Some(p.body) else None, Assemble(cfg, h, p, now)))
  {
  }

  /** A body whose processing fails makes `format_entry` fail with the same error. */
  lemma FormatStopped(cfg: Config, s: string, now: Moment)
    requires ValidMoment(now) && now.date.year <= 9999 && |cfg.delimiter| > 0
    requires BodyOf(cfg, SplitFirstTwo(s, cfg.delimiter).1, now).Err?
    ensures Format(cfg, s, now) == Err(BodyOf(cfg, SplitFirstTwo(s, cfg.delimiter).1, now).error)
  {
  }

  /**
   * With a delimiter, `format_entry` fails exactly when the delimiter occurs,
   * absolute dates are converted, and the body holds a date `strptime` refuses.
   */
  lemma FormatFails(cfg: Config, s: string, now: Moment)
    requires ValidMoment(now) && now.date.year <= 9999 && |cfg.delimiter| > 0
    ensures Format(cfg, s, now).Err? <==>
              FindFrom(s, cfg.delimiter, 0) != -1 && cfg.replaceAbsoluteDates
              && ConvertAbsoluteDate(Unicode, SplitFirstTwo(s, cfg.delimiter).1.value, now).Err?
    ensures Format(cfg, s, now).Err? <==>
              FindFrom(s, cfg.delimiter, 0) != -1 && cfg.replaceAbsoluteDates
              && Refused(SplitFirstTwo(s, cfg.delimiter).1.value, now)
  {
    var items := SplitFirstTwo(s, cfg.delimiter);
    if items.1.Some? {
      BodyFails(cfg, items.1.value, now);
    }
  }

  lemma BodyFails(cfg: Config, text: string, now: Moment)
    requires ValidMoment(now) && now.date.year <= 9999
    ensures BodyOf(cfg, Some(text), now).Err? <==> cfg.replaceAbsoluteDates && ConvertAbsoluteDate(Unicode, text, now).Err?
  {
  }

  /**
   * A formatted entry has a body exactly when the delimiter occurs, and its
   * heading is the text before the delimiter, priority-tagged when that is on.
   */
  lemma FormatFields(cfg: Config, s: string, now: Moment)
    requires ValidMoment(now) && now.date.year <= 9999 && Format(cfg, s, now).Ok?
    ensures var f := Format(cfg, s, now).value;
            (f.body.None? <==> FindFrom(s, cfg.delimiter, 0) == -1)
            && f.heading == HeadingOf(cfg, SplitFirstTwo(s, cfg.delimiter).0)
  {
  }

  /**
   * A formatted entry starts with the heading suffix and the heading, and
   * ends in a newline followed by the body (by a bare newline when there is none).
   */
  lemma FormatLayout(cfg: Config, s: string, now: Moment)
    requires ValidMoment(now) && now.date.year <= 9999 && Format(cfg, s, now).Ok?
    ensures var f := Format(cfg, s, now).value;
            StartsWith(f.entry, cfg.headingSuffix + f.heading)
            && (f.body.Some? ==> HasAt(f.entry, |f.entry| - |f.body.value| - 1, "\n" + f.body.value))
            && (f.body.None? ==> HasAt(f.entry, |f.entry| - 1, "\n"))
  {
    var items := SplitFirstTwo(s, cfg.delimiter);
    var p := BodyOf(cfg, items.1, now).value;
    var h := HeadingOf(cfg, items.0);
    var e := Assemble(cfg, h, p, now);
    assert Format(cfg, s, now).value == Formatted(h, if items.1.Some? then Some(p.body) else None, e);
    AssembleLayout(cfg, h, p, now);
    if items.1.None? {
      assert "\n" + p.body == "\n";
    }
  }

  /** The body steps of `format_entry`: the text is reassigned by each step that is switched on. */
  method TransformBody(cfg: Config, text: string, now: Moment) returns (r: Result<Processed>)
    requires ValidMoment(now) && now.date.year <= 9999
    ensures r == ProcessBody(cfg, text, now)
  {
    var body := text;
    var deadline: Option<string> := None;
    var scheduled: Option<string> := None;
    if cfg.replaceAbsoluteDates {
      var converted := ConvertAbsoluteDate(Unicode, body, now);
      if converted.Err? {
        return Err(converted.error);
      }
      body := converted.value;
    }
    if cfg.replaceRelativeDates {
      body := ReplaceDates(Unicode, body, now.date, cfg.dateFormat);
    }
    if cfg.smartLineBreak {
      body := SubPairs(Unicode, body, cfg.lineBreakChar);
    }
    if cfg.convertDeadlines {
      var found := Extract(Unicode, body, cfg.deadlinePattern, cfg.deadlineKeyword);
      deadline, body := found.0, found.1;
    }
    if cfg.convertScheduled {
      var found := Extract(Unicode, body, cfg.scheduledPattern, cfg.scheduledKeyword);
      scheduled, body := found.0, found.1;
    }
    if cfg.cleanupSpaces {
      body := RemoveDoubleSpaces(Unicode, body);
      body := TrimEdges(Unicode, body);
    }
    return Ok(Processed(body, deadline, scheduled));
  }

  /** `message_format`: `"Added '%s' to %s."` and `"Added '%s\n%s' to %s."`, as the pieces around their slots. */
  const MessageFormat: seq<seq<string>> := [["Added '", "' to ", "."], ["Added '", "\n", "' to ", "."]]

  /** `template % args`: the pieces of a template with the arguments between them, in order. */
  function Fill(pieces: seq<string>, args: seq<string>): (r: string)
    requires |pieces| == |args| + 1
    ensures |r| == Width(pieces) + Width(args)
    ensures StartsWith(r, pieces[0])
    decreases args
  {
    var r := if args == [] then pieces[0] else pieces[0] + args[0] + Fill(pieces[1..], args[1..]);
    Concat(pieces[0], r[|pieces[0]|..]);
    assert r == pieces[0] + r[|pieces[0]|..];
    r
  }

  /** A template with two slots: the arguments stand between the pieces, in order. */
  lemma FillTwo(a: string, b: string, c: string, x: string, y: string)
    ensures Fill([a, b, c], [x, y]) == a + x + b + y + c
  {
    assert [a, b, c][1..] == [b, c] && [x, y][1..] == [y];
    assert [b, c][1..] == [c] && [y][1..] == [];
    assert Fill([c], []) == c;
    assert Fill([b, c], [y]) == b + y + c;
    assert Fill([a, b, c], [x, y]) == a + x + (b + y + c);
  }

  /** A template with three slots, likewise. */
  lemma FillThree(a: string, b: string, c: string, d: string, x: string, y: string, z: string)
    ensures Fill([a, b, c, d], [x, y, z]) == a + x + b + y + c + z + d
  {
    assert [a, b, c, d][1..] == [b, c, d] && [x, y, z][1..] == [y, z];
    FillTwo(b, c, d, y, z);
    assert Fill([a, b, c, d], [x, y, z]) == a + x + (b + y + c + z + d);
  }

  /** The total length of some texts. */
  function Width(parts: seq<string>): nat {
    if parts == [] then 0 else |parts[0]| + Width(parts[1..])
  }

  /** The entry text, appended to piece by piece as `format_entry` does. */
  method BuildEntry(cfg: Config, h: string, p: Processed, now: Moment) returns (entry: string)
    requires ValidMoment(now)
    ensures entry == Assemble(cfg, h, p, now)
  {
    entry := cfg.headingSuffix + h;
    if p.deadline.Some? {
      entry := entry + ("\n" + p.deadline.value);
    }
    if p.scheduled.Some? {
      if p.deadline.Some? {
        entry := entry + " ";
      } else {
        entry := entry + "\n";
      }
      entry := entry + p.scheduled.value;
    }
    if cfg.addCreationDate {
      entry := entry + ("\n" + FormatDate(now.date, cfg.creationDateFormat));
    }
    entry := entry + ("\n" + p.body);
  }

  class OrgmodeEntry {
    var config: Config
    /** Set by `format_entry`; `create_message` reads them. */
    var heading: string
    var body: Option<string>
    /** Whether `format_entry` has run, so that the two fields above exist. */
    var formatted: bool

    constructor ()
      ensures config == Defaults && !formatted
    {
      config := Defaults;
      heading := "";
      body := None;
      formatted := false;
    }

    /**
     * `format_entry`: the body is transformed step by step, the fields are set,
     * and the entry is built piece by piece. A date that `strptime` refuses
     * stops it before any field is set.
     */
    method FormatEntry(s: string, now: Moment) returns (r: Result<string>)
      requires ValidMoment(now) && now.date.year <= 9999
      modifies this
      ensures config == old(config)
      ensures r.Ok? <==> Format(config, s, now).Ok?
      ensures r.Ok? ==> var f := Format(config, s, now).value;
                        r.value == f.entry && heading == f.heading && body == f.body && formatted
      ensures r.Err? ==> r.error == Format(config, s, now).error && unchanged(this)
    {
      if |config.delimiter| == 0 {
        return Err(EmptySeparator);
      }
      var items := SplitFirstTwo(s, config.delimiter);
      var p := Processed("", None, None);
      if items.1.Some? {
        var transformed := TransformBody(config, items.1.value, now);
        if transformed.Err? {
          FormatStopped(config, s, now);
          return Err(transformed.error);
        }
        p := transformed.value;
        body := Some(p.body);
      } else {
        body := None;
      }
      var h := items.0;
      if config.usePriorityTags {
        h := AddPriority(Unicode, h, config.priorityTag);
      }
      assert h == HeadingOf(config, items.0);
      heading := h;
      var entry := BuildEntry(config, h, p, now);
      formatted := true;
      FormatBuilt(config, s, now, p);
      return Ok(entry);
    }

    /** `create_message`: template 0 without a body, template 1 with one, filled in with the inbox file's name. */
    function Message(): (m: string)
      reads this
      requires formatted
      ensures body.None? ==> m == Fill(MessageFormat[0], [heading, LastSegment(config.inboxFile)])
      ensures body.Some? ==> m == Fill(MessageFormat[1], [heading, body.value, LastSegment(config.inboxFile)])
      ensures body.None? ==> m == "Added '" + heading + "' to " + LastSegment(config.inboxFile) + "."
      ensures body.Some? ==> m == "Added '" + heading + "\n" + body.value + "' to " + LastSegment(config.inboxFile) + "."
    {
      var filename := LastSegment(config.inboxFile);
      if body.None? then
        FillTwo("Added '", "' to ", ".", heading, filename);
        Fill(MessageFormat[0], [heading, filename])
      else
        FillThree("Added '", "\n", "' to ", ".", heading, body.value, filename);
        Fill(MessageFormat[1], [heading, body.value, filename])
    }

    /** `add_entry`: format, then report; the entry is what would be appended to the inbox file. */
    method AddEntry(s: string, now: Moment) returns (r: Result<(string, string)>)
      requires ValidMoment(now) && now.date.year <= 9999
      modifies this
      ensures config == old(config)
      ensures r.Ok? <==> Format(config, s, now).Ok?
      ensures r.Ok? ==> formatted && r.value.0 == Format(config, s, now).value.entry && r.value.1 == Message()
      ensures r.Err? ==> unchanged(this)
    {
      var entry := FormatEntry(s, now);
      if entry.Err? {
        return Err(entry.error);
      }
      var message := Message();
      return Ok((entry.value, message));
    }
  }

  /** `str.split` refuses an empty delimiter. */
  lemma EmptyDelimiterFails(cfg: Config, s: string, now: Moment)
    requires ValidMoment(now) && now.date.year <= 9999
    requires cfg.delimiter == []
    ensures Format(cfg, s, now) == Err(EmptySeparator)
  {
  }

  /** A delimiter that does not occur is found by no search. */
  lemma AbsentDelimiter(s: string, sep: string)
    requires |sep| > 0 && !Contains(s, sep)
    ensures FindFrom(s, sep, 0) == -1
  {
  }

  /**
   * Without the delimiter there is no body: no body step runs (so nothing can
   * fail), and the entry ends in a newline after the heading (and creation stamp).
   */
  lemma NoBody(cfg: Config, s: string, now: Moment)
    requires ValidMoment(now) && now.date.year <= 9999
    requires |cfg.delimiter| > 0 && !Contains(s, cfg.delimiter)
    ensures Format(cfg, s, now).Ok?
    ensures var f := Format(cfg, s, now).value;
            f.body.None? && f.heading == HeadingOf(cfg, s)
            && f.entry == cfg.headingSuffix + f.heading + CreationPart(cfg, now) + "\n"
  {
    AbsentDelimiter(s, cfg.delimiter);
    assert SplitFirstTwo(s, cfg.delimiter) == (s, None);
  }

  /**
   * The pieces of the entry in their order: heading suffix and heading, the
   * planning line, the creation stamp, then a newline and the body.
   */
  lemma AssembleOrder(cfg: Config, heading: string, p: Processed, now: Moment)
    requires ValidMoment(now)
    ensures Assemble(cfg, heading, p, now)
         == cfg.headingSuffix + heading + PlanningLine(p.deadline, p.scheduled) + CreationPart(cfg, now) + ("\n" + p.body)
  {
  }

  /** The deadline and scheduled appends, regrouped as the heading followed by the planning line. */
  lemma ScheduledPart(head: string, dl: string, sc: string, withDeadline: string, withScheduled: string, p: Processed)
    requires dl == if p.deadline.Some? then "\n" + p.deadline.value else []
    requires sc == if p.scheduled.Some? then (if p.deadline.Some? then " " else "\n") + p.scheduled.value else []
    requires withDeadline == if p.deadline.Some? then head + ("\n" + p.deadline.value) else head
    requires withScheduled ==
               if p.scheduled.Some? then (if p.deadline.Some? then withDeadline + " " else withDeadline + "\n") + p.scheduled.value
               else withDeadline
    ensures withScheduled == head + PlanningLine(p.deadline, p.scheduled)
  {
    assert withDeadline == head + dl;
    if p.scheduled.Some? {
      var sep := if p.deadline.Some? then " " else "\n";
      assert withScheduled == (withDeadline + sep) + p.scheduled.value;
      assert withScheduled == head + (dl + (sep + p.scheduled.value));
    }
    assert PlanningLine(p.deadline, p.scheduled) == dl + sc;
  }

  /** A deadline and a scheduled date share the line under the heading, separated by one space. */
  lemma DeadlineAndScheduled(deadline: string, scheduled: string)
    ensures PlanningLine(Some(deadline), Some(scheduled)) == "\n" + deadline + " " + scheduled
    ensures PlanningLine(None, Some(scheduled)) == "\n" + scheduled
    ensures PlanningLine(Some(deadline), None) == "\n" + deadline
  {
  }

  /** The only failure besides an empty delimiter is a date in the body that `strptime` refuses. */
  lemma FailsOnlyOnDates(cfg: Config, s: string, now: Moment)
    requires ValidMoment(now) && now.date.year <= 9999
    requires |cfg.delimiter| > 0 && Format(cfg, s, now).Err?
    ensures var items := SplitFirstTwo(s, cfg.delimiter);
            items.1.Some? && cfg.replaceAbsoluteDates
            && ConvertAbsoluteDate(Unicode, items.1.value, now).Err?
            && Refused(items.1.value, now)
            && Format(cfg, s, now).error == InvalidDate
  {
    FormatFails(cfg, s, now);
    var items := SplitFirstTwo(s, cfg.delimiter);
    if items.1.Some? {
      var t := items.1.value;
      if ConvertAbsoluteDate(Unicode, t, now).Err? {
        var found := FindDate(t, now);
        assert found.Err?;
        FindDateError(t, now);
      }
    }
  }

  /** The date part of the absolute-date step fails with nothing but `InvalidDate`. */
  lemma FindDateError(s: string, now: Moment)
    requires ValidMoment(now) && now.date.year <= 9999
    requires FindDate(s, now).Err?
    ensures FindDate(s, now).error == InvalidDate
  {
  }
}
