/**
 * The older `OrgmodeEntry` (Python 2.7): the captured line is split into
 * heading and body; the body gets its relative dates replaced and then its
 * whitespace pairs turned into line breaks; the entry is the heading, an
 * optional creation stamp and the body. The patterns run on `unicode` text
 * without `re.UNICODE`, so `\s`, `\w` and `\b` know only ASCII.
 */
module LegacyEntry {

  import opened Wrappers
  import opened Chars
  import opened Calendar
  import opened DateFormat
  import opened RelativeDates
  import opened Whitespace
  import Entry

  /** The attributes `__init__` sets. */
  datatype Config = Config(
    inboxFile: string,
    delimiter: string,
    headingSuffix: string,
    addCreationDate: bool,
    creationDateFormat: Template,
    replaceRelativeDates: bool,
    dateFormat: Template,
    smartLineBreak: bool,
    lineBreakChar: string)

  /** `":PROPERTIES:\n:Created: [%s-%s-%s %s]\n:END:"` */
  const CreatedTemplate := Template(":PROPERTIES:\n:Created: [", "-", "-", " ", "]\n:END:")

  const Defaults := Config(
    "/Users/Alex/Desktop/inbox.org", ":: ", "\n* ",
    false, CreatedTemplate,
    true, DateTemplate,
    true, "\n")

  /** What `format_entry` leaves behind: the heading and body fields, and the entry it returns. */
  datatype Formatted = Formatted(heading: string, body: Option<string>, entry: string)

  /** The body steps of `format_entry`: relative dates first, then line breaks, each switched by its flag. */
  function ProcessBody(cfg: Config, text: string, now: Moment): (r: string)
    requires ValidMoment(now)
    ensures !cfg.replaceRelativeDates && !cfg.smartLineBreak ==> r == text
    ensures !cfg.replaceRelativeDates && cfg.smartLineBreak && |cfg.lineBreakChar| <= 1 ==> |r| <= |text|
  {
    var relative := if cfg.replaceRelativeDates then ReplaceDates(Ascii, text, now.date, cfg.dateFormat) else text;
    var broken := if cfg.smartLineBreak then SubPairs(Ascii, relative, cfg.lineBreakChar) else relative;
    broken
  }

  /** `get_creation_date`: nothing when switched off, else a newline and the filled stamp template. */
  function CreationDate(cfg: Config, now: Moment): (r: string)
    requires ValidMoment(now)
    ensures r == [] <==> !cfg.addCreationDate
    ensures cfg.addCreationDate ==> r[0] == '\n' && r[1..] == FormatDate(now.date, cfg.creationDateFormat)
  {
    if cfg.addCreationDate then "\n" + FormatDate(now.date, cfg.creationDateFormat) else ""
  }

  /** `format_entry` as a value: the split, the body steps, and the entry in its order. */
  function Format(cfg: Config, s: string, now: Moment): (r: Result<Formatted>)
    requires ValidMoment(now)
    ensures r.Err? <==> cfg.delimiter == []
    ensures r.Err? ==> r.error == EmptySeparator
  {
    if |cfg.delimiter| == 0 then Err(EmptySeparator)
    else
      var items := SplitFirstTwo(s, cfg.delimiter);
      var body := if items.1.Some? then Some(ProcessBody(cfg, items.1.value, now)) else None;
      var tail := if body.Some? then "\n" + body.value else "";
      Ok(Formatted(items.0, body, cfg.headingSuffix + items.0 + CreationDate(cfg, now) + tail))
  }

  class OrgmodeEntry {
    var config: Config
    /** Set by `format_entry`; `create_message` reads them. */
    var heading: string
    var body: Option<string>
    /** Whether `format_entry` has run, so that the two fields above exist. */
    var formatted: bool

    constructor ()
      ensures config == Defaults && !formatted
    {
      config := Defaults;
      heading := "";
      body := None;
      formatted := false;
    }

    /**
     * `format_entry`: the body variable goes through its steps, the fields are
     * set, and the entry is the heading, the creation stamp and the body.
     * An empty delimiter makes the split fail before any field is set.
     */
    method FormatEntry(s: string, now: Moment) returns (r: Result<string>)
      requires ValidMoment(now)
      modifies this
      ensures config == old(config)
      ensures r.Ok? <==> Format(config, s, now).Ok?
      ensures r.Ok? ==> var f := Format(config, s, now).value;
                        r.value == f.entry && heading == f.heading && body == f.body && formatted
      ensures r.Err? ==> r.error == EmptySeparator && unchanged(this)
    {
      if |config.delimiter| == 0 {
        return Err(EmptySeparator);
      }
      var items := SplitFirstTwo(s, config.delimiter);
      var text := "";
      if items.1.None? {
        body := None;
      } else {
        text := items.1.value;
        if config.replaceRelativeDates {
          text := ReplaceDates(Ascii, text, now.date, config.dateFormat);
        }
        if config.smartLineBreak {
          text := SubPairs(Ascii, text, config.lineBreakChar);
        }
        body := Some(text);
        text := "\n" + text;
      }
      heading := items.0;
      var entry := config.headingSuffix + items.0;
      entry := entry + CreationDate(config, now) + text;
      formatted := true;
      return Ok(entry);
    }

    /** `create_message`: template 0 without a body, template 1 with one, filled in with the inbox file's name. */
    function Message(): (m: string)
      reads this
      requires formatted
      ensures body.None? ==> m == Entry.Fill(Entry.MessageFormat[0], [heading, LastSegment(config.inboxFile)])
      ensures body.Some? ==> m == Entry.Fill(Entry.MessageFormat[1], [heading, body.value, LastSegment(config.inboxFile)])
      ensures body.None? ==> m == "Added '" + heading + "' to " + LastSegment(config.inboxFile) + "."
      ensures body.Some? ==> m == "Added '" + heading + "\n" + body.value + "' to " + LastSegment(config.inboxFile) + "."
    {
      var filename := LastSegment(config.inboxFile);
      if body.None? then
        Entry.FillTwo("Added '", "' to ", ".", heading, filename);
        Entry.Fill(Entry.MessageFormat[0], [heading, filename])
      else
        Entry.FillThree("Added '", "\n", "' to ", ".", heading, body.value, filename);
        Entry.Fill(Entry.MessageFormat[1], [heading, body.value, filename])
    }

    /** `add_entry`: format, then report; the entry is what would be appended to the inbox file. */
    method AddEntry(s: string, now: Moment) returns (r: Result<(string, string)>)
      requires ValidMoment(now)
      modifies this
      ensures config == old(config)
      ensures r.Ok? <==> config.delimiter != []
      ensures r.Ok? ==> formatted && r.value.0 == Format(config, s, now).value.entry && r.value.1 == Message()
      ensures r.Err? ==> unchanged(this)
    {
      var entry := FormatEntry(s, now);
      if entry.Err? {
        return Err(entry.error);
      }
      var message := Message();
      return Ok((entry.value, message));
    }
  }

  /**
   * Without the delimiter there is no body, and the entry is the heading
   * suffix, the whole text and the creation stamp, with no newline after.
   */
  lemma NoBody(cfg: Config, s: string, now: Moment)
    requires ValidMoment(now)
    requires |cfg.delimiter| > 0 && !Contains(s, cfg.delimiter)
    ensures Format(cfg, s, now).Ok?
    ensures var f := Format(cfg, s, now).value;
            f.body.None? && f.heading == s && f.entry == cfg.headingSuffix + s + CreationDate(cfg, now)
  {
    Entry.AbsentDelimiter(s, cfg.delimiter);
    assert SplitFirstTwo(s, cfg.delimiter) == (s, None);
    assert cfg.headingSuffix + s + CreationDate(cfg, now) + "" == cfg.headingSuffix + s + CreationDate(cfg, now);
  }

  /**
   * With a body, the body field is the text between the first and the second
   * delimiter after its steps, and the entry is heading suffix, heading,
   * creation stamp, a newline and that body.
   */
  lemma WithBody(cfg: Config, s: string, now: Moment)
    requires ValidMoment(now)
    requires |cfg.delimiter| > 0 && Contains(s, cfg.delimiter)
    ensures Format(cfg, s, now).Ok?
    ensures var f := Format(cfg, s, now).value;
            var items := SplitFirstTwo(s, cfg.delimiter);
            f.body == Some(ProcessBody(cfg, items.1.value, now))
            && f.heading + cfg.delimiter <= s
            && f.entry == cfg.headingSuffix + f.heading + CreationDate(cfg, now) + "\n" + f.body.value
  {
    PresentDelimiter(s, cfg.delimiter);
    var items := SplitFirstTwo(s, cfg.delimiter);
    var head := cfg.headingSuffix + items.0 + CreationDate(cfg, now);
    var text := ProcessBody(cfg, items.1.value, now);
    assert head + ("\n" + text) == head + "\n" + text;
    var n := |items.0| + |cfg.delimiter|;
    assert s[..n] == items.0 + cfg.delimiter;
  }

  /** A delimiter that occurs is found. */
  lemma PresentDelimiter(s: string, sep: string)
    requires |sep| > 0 && Contains(s, sep)
    ensures FindFrom(s, sep, 0) != -1
    ensures SplitFirstTwo(s, sep).1.Some?
  {
    var k :| 0 <= k && k + |sep| <= |s| && HasAt(s, k, sep);
  }

  /** By default no creation stamp is written. */
  lemma NoStampByDefault(now: Moment)
    requires ValidMoment(now)
    ensures CreationDate(Defaults, now) == ""
  {
  }

  /**
   * The body steps with the corrected date replacement are the ones the
   * source runs: under ASCII-only matching every matched word is a table key.
   */
  lemma BodyAsWritten(cfg: Config, text: string, now: Moment)
    requires ValidMoment(now)
    ensures var relative := if cfg.replaceRelativeDates then ReplaceDatesAsWritten(Ascii, text, now.date, cfg.dateFormat) else text;
            ProcessBody(cfg, text, now) == (if cfg.smartLineBreak then SubPairs(Ascii, relative, cfg.lineBreakChar) else relative)
  {
  }

  /** A body with no weekday or relative-day word and no whitespace pair comes through unchanged. */
  lemma PlainBodyUnchanged(cfg: Config, text: string, now: Moment)
    requires ValidMoment(now)
    requires forall p, key :: 0 <= p < |text| && IsKey(key) ==> !KeyAt(Ascii, text, p, key)
    requires !HasPair(Ascii, text)
    ensures ProcessBody(cfg, text, now) == text
  {
    SubPairsUnchanged(Ascii, text, cfg.lineBreakChar);
  }
}
