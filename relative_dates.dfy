/**
 * `replace_date`, `convert_date` and `convert_relative_date`: whole words that
 * name a weekday or a relative day ("heute", "today", "morgen", "tomorrow") are
 * replaced, case-insensitively, by the timestamp of the day they denote.
 */
module RelativeDates {

  import opened Wrappers
  import opened Chars
  import opened Calendar
  import opened DateFormat

  /** Weekday names in German and English, with `weekday()` numbers. */
  const Weekdays: map<string, int> := map[
    "montag" := 0, "monday" := 0, "dienstag" := 1, "tuesday" := 1,
    "mittwoch" := 2, "wednesday" := 2, "donnerstag" := 3, "thursday" := 3,
    "freitag" := 4, "friday" := 4, "samstag" := 5, "saturday" := 5,
    "sonntag" := 6, "sunday" := 6]

  /** Relative-day words with their day offsets. */
  const RelativeDays: map<string, int> := map["heute" := 0, "today" := 0, "morgen" := 1, "tomorrow" := 1]

  /** The keys of the two tables: what the alternation in the `\b(...)\b` pattern lists. */
  predicate IsKey(w: string) {
    w in Weekdays || w in RelativeDays
  }

  /** Every key is spelt in lower-case ASCII letters. */
  lemma KeyLetters(w: string)
    ensures IsKey(w) ==> |w| >= 5 && forall j :: 0 <= j < |w| ==> IsAsciiLower(w[j])
  {
  }

  /**
   * Days from a day with weekday `current` to the next day with weekday
   * `target`: the same weekday is a week ahead, never today.
   */
  function WeekdayOffset(current: int, target: int): (delta: int)
    requires 0 <= current < 7 && 0 <= target < 7
    ensures 1 <= delta <= 7
    ensures (current + delta) % 7 == target
  {
    if current == target then 7
    else if target < current then 7 - (current - target)
    else target - current
  }

  /** The two promises of `WeekdayOffset` fix it: no other offset in 1..7 reaches the target weekday. */
  lemma WeekdayOffsetUnique(current: int, target: int, delta: int)
    requires 0 <= current < 7 && 0 <= target < 7
    requires 1 <= delta <= 7 && (current + delta) % 7 == target
    ensures delta == WeekdayOffset(current, target)
  {
  }

  /**
   * The day a weekday name resolves to is the first day strictly after today
   * that falls on that weekday.
   */
  lemma NextOccurrence(today: Date, target: int)
    requires Valid(today) && 0 <= target < 7
    ensures Weekday(AddDays(today, WeekdayOffset(Weekday(today), target))) == target
    ensures Ordinal(AddDays(today, WeekdayOffset(Weekday(today), target))) > Ordinal(today)
    ensures forall k :: 1 <= k < WeekdayOffset(Weekday(today), target) ==> Weekday(AddDays(today, k)) != target
  {
    LandsOnTarget(today, target);
    NoneEarlier(today, target);
  }

  lemma LandsOnTarget(today: Date, target: int)
    requires Valid(today) && 0 <= target < 7
    ensures Weekday(AddDays(today, WeekdayOffset(Weekday(today), target))) == target
  {
    var current := Weekday(today);
    LandsOn(today, current, target, WeekdayOffset(current, target));
  }

  lemma LandsOn(today: Date, current: int, target: int, delta: nat)
    requires Valid(today) && 0 <= target < 7 && current == Weekday(today)
    requires (current + delta) % 7 == target
    ensures Weekday(AddDays(today, delta)) == target
  {
    WeekdayAfter(today, delta);
  }

  lemma NoneEarlier(today: Date, target: int)
    requires Valid(today) && 0 <= target < 7
    ensures forall k :: 1 <= k < WeekdayOffset(Weekday(today), target) ==> Weekday(AddDays(today, k)) != target
  {
    forall k | 1 <= k < WeekdayOffset(Weekday(today), target) ensures Weekday(AddDays(today, k)) != target {
      NotEarlier(today, target, k);
    }
  }

  lemma NotEarlier(today: Date, target: int, k: int)
    requires Valid(today) && 0 <= target < 7
    requires 1 <= k < WeekdayOffset(Weekday(today), target)
    ensures Weekday(AddDays(today, k)) != target
  {
    var current := Weekday(today);
    WeekdayAfter(today, k);
    NoEarlierOffset(current, target, k);
  }

  lemma NoEarlierOffset(current: int, target: int, k: int)
    requires 0 <= current < 7 && 0 <= target < 7
    requires 1 <= k < WeekdayOffset(current, target)
    ensures (current + k) % 7 != target
  {
  }

  /**
   * `convert_relative_date` with the unknown-word case made explicit: the day
   * offset of a matched token after `.lower()`, or None when the lowered token
   * is in neither table.
   */
  function RelativeOffset(token: string, current: int): (r: Option<int>)
    requires 0 <= current < 7
    ensures r.Some? <==> IsKey(Lower(token))
    ensures r.Some? ==> 0 <= r.value <= 7
  {
    var w := Lower(token);
    if w in RelativeDays then Some(RelativeDays[w])
    else if w in Weekdays then Some(WeekdayOffset(current, Weekdays[w]))
    else None
  }

  /**
   * The offsets `convert_relative_date` gives: 0 for "heute"/"today", 1 for
   * "morgen"/"tomorrow", and for a weekday name the offset in 1..7 that lands
   * on that weekday.
   */
  lemma RelativeOffsetValues(token: string, current: int)
    requires 0 <= current < 7
    ensures Lower(token) == "heute" || Lower(token) == "today" ==> RelativeOffset(token, current) == Some(0)
    ensures Lower(token) == "morgen" || Lower(token) == "tomorrow" ==> RelativeOffset(token, current) == Some(1)
    ensures Lower(token) in Weekdays ==>
              var r := RelativeOffset(token, current);
              r.Some? && 1 <= r.value <= 7 && (current + r.value) % 7 == Weekdays[Lower(token)]
  {
    var w := Lower(token);
    if w in Weekdays {
      WeekdayNoRelativeDay(w);
      WeekdayOffsetOf(w, current, RelativeOffset(token, current));
    }
  }

  /** No weekday name is a relative-day word. */
  lemma WeekdayNoRelativeDay(w: string)
    requires w in Weekdays
    ensures w !in RelativeDays
  {
  }

  lemma WeekdayOffsetOf(w: string, current: int, r: Option<int>)
    requires 0 <= current < 7 && w in Weekdays && r == Some(WeekdayOffset(current, Weekdays[w]))
    ensures r.Some? && 1 <= r.value <= 7 && (current + r.value) % 7 == Weekdays[w]
  {
  }

  /** `convert_date` as written: an unknown lowered token yields `False`, which `timedelta` takes as 0 days. */
  function ConvertDateAsWritten(token: string, today: Date, t: Template): (r: string)
    requires Valid(today)
    ensures !IsKey(Lower(token)) ==> r == FormatDate(today, t)
  {
    var delta := match RelativeOffset(token, Weekday(today)) case Some(k) => k case None => 0;
    FormatDate(AddDays(today, delta), t)
  }

  /** `convert_date`, corrected: a token whose lowered form is no key stays as it is. */
  function ConvertDate(token: string, today: Date, t: Template): (r: string)
    requires Valid(today)
    ensures !IsKey(Lower(token)) ==> r == token
    ensures IsKey(Lower(token)) ==> r == ConvertDateAsWritten(token, today, t)
  {
    match RelativeOffset(token, Weekday(today))
    case Some(k) => FormatDate(AddDays(today, k), t)
    case None => token
  }

  /** `\b key \b` matches at s[i..] under IGNORECASE. */
  predicate KeyAt(mode: Mode, s: string, i: int, key: string) {
    |key| > 0 && 0 <= i && i + |key| <= |s|
    && (i == 0 || !IsWordChar(mode, s[i - 1]))
    && (forall j :: 0 <= j < |key| ==> Fold(mode, s[i + j]) == key[j])
    && (i + |key| == |s| || !IsWordChar(mode, s[i + |key|]))
  }

  /** The end of the run of word characters that starts at i. */
  function WordEnd(mode: Mode, s: string, i: nat): (j: nat)
    requires i <= |s|
    ensures i <= j <= |s|
    ensures forall p :: i <= p < j ==> IsWordChar(mode, s[p])
    ensures j == |s| || !IsWordChar(mode, s[j])
    decreases |s| - i
  {
    if i == |s| || !IsWordChar(mode, s[i]) then i else WordEnd(mode, s, i + 1)
  }

  function FoldStr(mode: Mode, s: string): (f: string)
    ensures |f| == |s| && forall j :: 0 <= j < |s| ==> f[j] == Fold(mode, s[j])
  {
    seq(|s|, j requires 0 <= j < |s| => Fold(mode, s[j]))
  }

  /**
   * The length of the match of `\b(montag|monday|...|tomorrow)\b` at s[i..]
   * under IGNORECASE. Every key is made of letters, so a key that matches with
   * a word boundary on both sides spans exactly the word that starts at i; the
   * match is that word when its folded spelling is a key. What it finds is a
   * `\b key \b` match.
   */
  function MatchAt(mode: Mode, s: string, i: nat): (r: Option<nat>)
    requires i <= |s|
    ensures r.Some? ==> r.value > 0 && i + r.value <= |s|
  {
    if i == 0 || !IsWordChar(mode, s[i - 1]) then
      var j := WordEnd(mode, s, i);
      var w := FoldStr(mode, s[i..j]);
      if IsKey(w) then
        KeyLetters(w);
        Some(j - i)
      else None
    else None
  }

  /** What MatchAt finds is a `\b key \b` match: a whole word whose folded spelling is a key. */
  lemma MatchAtSound(mode: Mode, s: string, i: nat)
    requires i <= |s|
    ensures var r := MatchAt(mode, s, i);
            r.Some? ==> KeyAt(mode, s, i, FoldStr(mode, s[i..i + r.value]))
                        && IsKey(FoldStr(mode, s[i..i + r.value]))
  {
    if i == 0 || !IsWordChar(mode, s[i - 1]) {
      var j := WordEnd(mode, s, i);
      if IsKey(FoldStr(mode, s[i..j])) {
        WordIsKeyAt(mode, s, i, j);
      }
    }
  }

  /** Whenever some key matches at s[i..], MatchAt finds it, with its length. */
  lemma MatchAtComplete(mode: Mode, s: string, i: nat, key: string)
    requires i <= |s| && IsKey(key) && KeyAt(mode, s, i, key)
    ensures MatchAt(mode, s, i) == Some(|key|)
  {
    KeyWordChars(mode, s, i, key);
    WordEndAt(mode, s, i, i + |key|);
    FoldKey(mode, s, i, key);
  }

  /** A whole word whose folded spelling is a key is a `\b key \b` match. */
  lemma WordIsKeyAt(mode: Mode, s: string, i: nat, j: nat)
    requires i <= j <= |s| && (i == 0 || !IsWordChar(mode, s[i - 1]))
    requires j == |s| || !IsWordChar(mode, s[j])
    requires IsKey(FoldStr(mode, s[i..j]))
    ensures j > i && KeyAt(mode, s, i, FoldStr(mode, s[i..j]))
  {
    var w := FoldStr(mode, s[i..j]);
    KeyLetters(w);
    forall k | 0 <= k < |w| ensures Fold(mode, s[i + k]) == w[k] {
      assert s[i..j][k] == s[i + k];
    }
  }

  /** The text under a key match is made of word characters, since every key is. */
  lemma KeyWordChars(mode: Mode, s: string, i: nat, key: string)
    requires IsKey(key) && KeyAt(mode, s, i, key)
    ensures forall p :: i <= p < i + |key| ==> IsWordChar(mode, s[p])
  {
    KeyLetters(key);
    forall p | i <= p < i + |key| ensures IsWordChar(mode, s[p]) {
      assert Fold(mode, s[i + (p - i)]) == key[p - i];
    }
  }

  /** The folded spelling of the text under a key match is the key. */
  lemma FoldKey(mode: Mode, s: string, i: nat, key: string)
    requires KeyAt(mode, s, i, key)
    ensures FoldStr(mode, s[i..i + |key|]) == key
  {
    var w := FoldStr(mode, s[i..i + |key|]);
    forall k | 0 <= k < |key| ensures w[k] == key[k] {
      assert s[i..i + |key|][k] == s[i + k];
    }
  }

  lemma {:induction false} WordEndAt(mode: Mode, s: string, i: nat, j: nat)
    requires i <= j <= |s|
    requires forall p :: i <= p < j ==> IsWordChar(mode, s[p])
    requires j == |s| || !IsWordChar(mode, s[j])
    ensures WordEnd(mode, s, i) == j
    decreases j - i
  {
    if i < j {
      WordEndAt(mode, s, i + 1, j);
    }
  }

  /** A token that lowers to a key becomes the timestamp of today moved by its offset. */
  lemma KeyConverted(token: string, today: Date, t: Template)
    requires Valid(today) && IsKey(Lower(token))
    ensures RelativeOffset(token, Weekday(today)).Some?
    ensures ConvertDate(token, today, t) == FormatDate(AddDays(today, RelativeOffset(token, Weekday(today)).value), t)
  {
  }

  /** A piece of the text as `pattern.sub` walks it: a matched word, or a character passed over. */
  datatype Piece = Word(word: string) | Other(c: char)

  /** The pieces of a walk, in order. */
  datatype Pieces = Nil | Cons(head: Piece, tail: Pieces)

  /** The pieces of ps followed by those of qs. */
  function Append(ps: Pieces, qs: Pieces): Pieces {
    match ps
    case Nil => qs
    case Cons(p, rest) => Cons(p, Append(rest, qs))
  }

  /**
   * The left-to-right walk of `pattern.sub` from position i: a match is taken
   * whole and the walk resumes after it; elsewhere one character is passed
   * over. Every step consumes at least one character.
   */
  function Scan(mode: Mode, s: string, i: nat): (ps: Pieces)
    requires i <= |s|
    decreases |s| - i
  {
    if i == |s| then Nil
    else match MatchAt(mode, s, i)
      case Some(n) => Cons(Word(s[i..i + n]), Scan(mode, s, i + n))
      case None => Cons(Other(s[i]), Scan(mode, s, i + 1))
  }

  /** Where a key word of length n matches at i, the walk takes it whole. */
  lemma ScanWord(mode: Mode, s: string, i: nat, n: nat, j: nat)
    requires i < |s| && MatchAt(mode, s, i) == Some(n) && j == i + n
    ensures j <= |s| && Scan(mode, s, i) == Cons(Word(s[i..j]), Scan(mode, s, j))
  {
  }

  /** Where nothing matches at i, the walk passes over one character. */
  lemma ScanOther(mode: Mode, s: string, i: nat)
    requires i < |s| && MatchAt(mode, s, i) == None
    ensures Scan(mode, s, i) == Cons(Other(s[i]), Scan(mode, s, i + 1))
  {
  }

  /** The text one piece stands for. */
  function PieceText(p: Piece): string {
    match p
    case Word(w) => w
    case Other(c) => [c]
  }

  /** The text the pieces spell. */
  function Text(ps: Pieces): string {
    match ps
    case Nil => []
    case Cons(p, rest) => PieceText(p) + Text(rest)
  }

  /** The matched words and the characters passed over make up the text, in order. */
  lemma {:induction false} ScanCovers(mode: Mode, s: string, i: nat)
    requires i <= |s|
    ensures Text(Scan(mode, s, i)) == s[i..]
    decreases |s| - i
  {
    if i < |s| {
      var p, j := ScanStep(mode, s, i);
      ScanCovers(mode, s, j);
      CoversStep(s, i, j, p, Scan(mode, s, j), Scan(mode, s, i));
    }
  }

  lemma CoversStep(s: string, i: nat, j: nat, p: Piece, rest: Pieces, ps: Pieces)
    requires i < j <= |s| && ps == Cons(p, rest) && PieceText(p) == s[i..j] && Text(rest) == s[j..]
    ensures Text(ps) == s[i..]
  {
    assert s[i..] == s[i..j] + s[j..];
  }

  /** The first step of the walk from i: one piece, spelling s[i..j]. */
  lemma ScanStep(mode: Mode, s: string, i: nat) returns (p: Piece, j: nat)
    requires i < |s|
    ensures i < j <= |s| && Scan(mode, s, i) == Cons(p, Scan(mode, s, j)) && PieceText(p) == s[i..j]
  {
    match MatchAt(mode, s, i)
    case Some(n) =>
      ScanWord(mode, s, i, n, i + n);
      p, j := Word(s[i..i + n]), i + n;
    case None =>
      ScanOther(mode, s, i);
      p, j := Other(s[i]), i + 1;
      OneChar(s, i);
  }

  lemma OneChar(s: string, i: nat)
    requires i < |s|
    ensures s[i..i + 1] == [s[i]]
  {
  }

  /**
   * `pattern.sub(convert, s)` given the walk: the pieces put back in order,
   * each word as `convert` gives it and every other character as it was.
   */
  function Render(ps: Pieces, convert: string -> string): string {
    match ps
    case Nil => []
    case Cons(p, rest) => RenderPiece(p, convert) + Render(rest, convert)
  }

  /** What `convert` puts in place of one piece. */
  function RenderPiece(p: Piece, convert: string -> string): string {
    match p
    case Word(w) => convert(w)
    case Other(c) => [c]
  }

  /**
   * `replace_date` with the corrected `ConvertDate`: text holding no weekday
   * or relative-day word comes back unchanged, and under Python 2's
   * ASCII-only matching the correction changes nothing.
   */
  function ReplaceDates(mode: Mode, s: string, today: Date, t: Template): (r: string)
    requires Valid(today)
    ensures (forall p, key :: 0 <= p < |s| && IsKey(key) ==> !KeyAt(mode, s, p, key)) ==> r == s
    ensures mode == Ascii ==> r == ReplaceDatesAsWritten(mode, s, today, t)
  {
    var convert := w => ConvertDate(w, today, t);
    NoKeysUnchanged(mode, s, convert);
    if mode == Ascii then
      AsciiWordsAreKeys(s, 0);
      RenderAgrees(Scan(mode, s, 0), convert, w => ConvertDateAsWritten(w, today, t));
      Render(Scan(mode, s, 0), convert)
    else
      Render(Scan(mode, s, 0), convert)
  }

  /** `replace_date` as written: text holding no weekday or relative-day word comes back unchanged. */
  function ReplaceDatesAsWritten(mode: Mode, s: string, today: Date, t: Template): (r: string)
    requires Valid(today)
    ensures (forall p, key :: 0 <= p < |s| && IsKey(key) ==> !KeyAt(mode, s, p, key)) ==> r == s
  {
    var convert := w => ConvertDateAsWritten(w, today, t);
    NoKeysUnchanged(mode, s, convert);
    Render(Scan(mode, s, 0), convert)
  }

  lemma NoKeysUnchanged(mode: Mode, s: string, convert: string -> string)
    ensures (forall p, key :: 0 <= p < |s| && IsKey(key) ==> !KeyAt(mode, s, p, key)) ==>
              Render(Scan(mode, s, 0), convert) == s
  {
    if forall p, key :: 0 <= p < |s| && IsKey(key) ==> !KeyAt(mode, s, p, key) {
      ScanNoWords(mode, s, 0);
      RenderNoWords(Scan(mode, s, 0), convert);
      ScanCovers(mode, s, 0);
      assert s[0..] == s;
    }
  }

  /** No piece is a matched word. */
  predicate NoWords(ps: Pieces) {
    ps.Cons? ==> ps.head.Other? && NoWords(ps.tail)
  }

  /** Where nothing was matched, rendering gives back the text. */
  lemma {:induction false} RenderNoWords(ps: Pieces, convert: string -> string)
    requires NoWords(ps)
    ensures Render(ps, convert) == Text(ps)
  {
    if ps.Cons? {
      RenderNoWords(ps.tail, convert);
    }
  }

  /** Without a key word from i on, the walk matches nothing. */
  lemma {:induction false} ScanNoWords(mode: Mode, s: string, i: nat)
    requires i <= |s|
    requires forall p, key :: i <= p < |s| && IsKey(key) ==> !KeyAt(mode, s, p, key)
    ensures NoWords(Scan(mode, s, i))
    decreases |s| - i
  {
    if i < |s| {
      MatchAtSound(mode, s, i);
      assert MatchAt(mode, s, i).None?;
      ScanNoWords(mode, s, i + 1);
      ScanOther(mode, s, i);
    }
  }

  /** In ASCII mode every matched token lowers to a table key. */
  lemma AsciiTokenIsKey(s: string, i: nat, n: nat)
    requires i <= |s| && MatchAt(Ascii, s, i) == Some(n)
    ensures IsKey(Lower(s[i..i + n]))
  {
    var token := s[i..i + n];
    var w := FoldStr(Ascii, token);
    KeyLetters(w);
    forall j | 0 <= j < |token|
      ensures IsAsciiUpper(token[j]) || IsAsciiLower(token[j]) || IsDigit(token[j])
    {
      assert IsAsciiLower(w[j]);
    }
    LowerAscii(Ascii, token);
    assert Lower(token) == w;
  }

  /** Every matched word lowers to a table key. */
  predicate WordsAreKeys(ps: Pieces) {
    ps.Cons? ==> (ps.head.Word? ==> IsKey(Lower(ps.head.word))) && WordsAreKeys(ps.tail)
  }

  /** Under ASCII-only matching every word the walk takes lowers to a key. */
  lemma {:induction false} AsciiWordsAreKeys(s: string, i: nat)
    requires i <= |s|
    ensures WordsAreKeys(Scan(Ascii, s, i))
    decreases |s| - i
  {
    if i < |s| {
      match MatchAt(Ascii, s, i)
      case Some(n) =>
        ScanWord(Ascii, s, i, n, i + n);
        AsciiWordsAreKeys(s, i + n);
        AsciiWordStep(s, i, n, Scan(Ascii, s, i), Scan(Ascii, s, i + n));
      case None =>
        ScanOther(Ascii, s, i);
        AsciiWordsAreKeys(s, i + 1);
        OtherStep(Scan(Ascii, s, i), s[i], Scan(Ascii, s, i + 1));
    }
  }

  lemma AsciiWordStep(s: string, i: nat, n: nat, ps: Pieces, rest: Pieces)
    requires i <= |s| && MatchAt(Ascii, s, i) == Some(n)
    requires ps == Cons(Word(s[i..i + n]), rest) && WordsAreKeys(rest)
    ensures WordsAreKeys(ps)
  {
    AsciiTokenIsKey(s, i, n);
  }

  lemma OtherStep(ps: Pieces, c: char, rest: Pieces)
    requires ps == Cons(Other(c), rest) && WordsAreKeys(rest)
    ensures WordsAreKeys(ps)
  {
  }

  /** Two conversions that agree on every key render a walk whose words are all keys alike. */
  lemma {:induction false} RenderAgrees(ps: Pieces, f: string -> string, g: string -> string)
    requires WordsAreKeys(ps)
    requires forall w :: IsKey(Lower(w)) ==> f(w) == g(w)
    ensures Render(ps, f) == Render(ps, g)
  {
    if ps.Cons? {
      RenderAgrees(ps.tail, f, g);
    }
  }

  /**
   * A key word standing between word boundaries is replaced by its
   * conversion, and the text on either side is replaced on its own: the walk
   * takes that word whole and nothing on one side affects the other.
   */
  lemma KeyWordReplaced(mode: Mode, a: string, w: string, b: string, today: Date, t: Template)
    requires Valid(today)
    requires a == [] || !IsWordChar(mode, a[|a| - 1])
    requires IsKey(FoldStr(mode, w))
    requires b == [] || !IsWordChar(mode, b[0])
    ensures ReplaceDates(mode, a + w + b, today, t)
            == ReplaceDates(mode, a, today, t) + ConvertDate(w, today, t) + ReplaceDates(mode, b, today, t)
  {
    KeyWordRendered(mode, a, w, b, x => ConvertDate(x, today, t));
  }

  /** The same for `replace_date` as written. */
  lemma KeyWordReplacedAsWritten(mode: Mode, a: string, w: string, b: string, today: Date, t: Template)
    requires Valid(today)
    requires a == [] || !IsWordChar(mode, a[|a| - 1])
    requires IsKey(FoldStr(mode, w))
    requires b == [] || !IsWordChar(mode, b[0])
    ensures ReplaceDatesAsWritten(mode, a + w + b, today, t)
            == ReplaceDatesAsWritten(mode, a, today, t) + ConvertDateAsWritten(w, today, t)
               + ReplaceDatesAsWritten(mode, b, today, t)
  {
    KeyWordRendered(mode, a, w, b, x => ConvertDateAsWritten(x, today, t));
  }

  /** Whatever the conversion, the key word is converted and each side is rendered on its own. */
  lemma KeyWordRendered(mode: Mode, a: string, w: string, b: string, convert: string -> string)
    requires a == [] || !IsWordChar(mode, a[|a| - 1])
    requires IsKey(FoldStr(mode, w))
    requires b == [] || !IsWordChar(mode, b[0])
    ensures Render(Scan(mode, a + w + b, 0), convert)
            == Render(Scan(mode, a, 0), convert) + convert(w) + Render(Scan(mode, b, 0), convert)
  {
    Parts(a, w, b);
    KeyWordScan(mode, a + w + b, a, w, b);
    RenderAround(Scan(mode, a + w + b, 0), Scan(mode, a, 0), w, Scan(mode, b, 0), convert);
  }

  /** Rendering pieces made of pa, the word w and pb. */
  lemma RenderAround(ps: Pieces, pa: Pieces, w: string, pb: Pieces, convert: string -> string)
    requires ps == Append(pa, Cons(Word(w), pb))
    ensures Render(ps, convert) == Render(pa, convert) + convert(w) + Render(pb, convert)
  {
    RenderConcat(pa, Cons(Word(w), pb), convert);
    var ra, rb := Render(pa, convert), Render(pb, convert);
    assert ra + (convert(w) + rb) == ra + convert(w) + rb;
  }

  /** The walk over a text made of a, w and b: the walk over a, the word w, then the walk over b. */
  lemma KeyWordScan(mode: Mode, x: string, a: string, w: string, b: string)
    requires |x| == |a| + |w| + |b|
    requires x[..|a|] == a && x[|a|..|a| + |w|] == w && x[|a| + |w|..] == b
    requires a == [] || !IsWordChar(mode, a[|a| - 1])
    requires IsKey(FoldStr(mode, w))
    requires b == [] || !IsWordChar(mode, b[0])
    ensures Scan(mode, x, 0) == Append(Scan(mode, a, 0), Cons(Word(w), Scan(mode, b, 0)))
  {
    var i, o := KeyWordAt(mode, x, a, w, b);
    KeyWordSplit(mode, x, a, w, b, i, o);
  }

  /** The same, with i and o marking where w starts and ends in x. */
  lemma KeyWordSplit(mode: Mode, x: string, a: string, w: string, b: string, i: nat, o: nat)
    requires i == |a| && i < o <= |x| && x[..i] == a && x[i..o] == w && x[o..] == b
    requires a == [] || !IsWordChar(mode, a[i - 1])
    requires MatchAt(mode, x, i) == Some(o - i)
    requires b == [] || !IsWordChar(mode, b[0])
    ensures Scan(mode, x, 0) == Append(Scan(mode, a, 0), Cons(Word(w), Scan(mode, b, 0)))
  {
    ScanPrefix(mode, x, a, 0, i);
    TakeWord(mode, x, i, o, w);
    ScanShift(mode, x, o, b, 0, o);
    Chain(Scan(mode, x, 0), Scan(mode, a, 0), Scan(mode, x, i), w, Scan(mode, x, o), Scan(mode, b, 0));
  }

  lemma Chain(ps: Pieces, pa: Pieces, qs: Pieces, w: string, rest: Pieces, pb: Pieces)
    requires ps == Append(pa, qs) && qs == Cons(Word(w), rest) && rest == pb
    ensures ps == Append(pa, Cons(Word(w), pb))
  {
  }

  /** Where the word w = x[i..o] is matched at i, the walk takes it. */
  lemma TakeWord(mode: Mode, x: string, i: nat, o: nat, w: string)
    requires i < o <= |x| && MatchAt(mode, x, i) == Some(o - i) && x[i..o] == w
    ensures Scan(mode, x, i) == Cons(Word(w), Scan(mode, x, o))
  {
    ScanWord(mode, x, i, o - i, o);
  }

  /** Where a, w and b sit in a + w + b. */
  lemma Parts(a: string, w: string, b: string)
    ensures var x := a + w + b;
            |x| == |a| + |w| + |b| && x[..|a|] == a && x[|a|..|a| + |w|] == w && x[|a| + |w|..] == b
  {
  }

  /** A key word between word boundaries, at x[i..o], is matched whole. */
  lemma KeyWordAt(mode: Mode, x: string, a: string, w: string, b: string) returns (i: nat, o: nat)
    requires |x| == |a| + |w| + |b|
    requires x[..|a|] == a && x[|a|..|a| + |w|] == w && x[|a| + |w|..] == b
    requires a == [] || !IsWordChar(mode, a[|a| - 1])
    requires IsKey(FoldStr(mode, w))
    requires b == [] || !IsWordChar(mode, b[0])
    ensures i == |a| && i < o <= |x| && x[..i] == a && x[i..o] == w && x[o..] == b
    ensures MatchAt(mode, x, i) == Some(o - i)
  {
    i, o := |a|, |a| + |w|;
    var key := FoldStr(mode, w);
    KeyLetters(key);
    forall j | 0 <= j < |key| ensures Fold(mode, x[|a| + j]) == key[j] {
      assert x[|a|..|a| + |w|][j] == x[|a| + j];
    }
    if b != [] {
      assert x[|a| + |w|..][0] == x[|a| + |w|];
    }
    if a != [] {
      assert x[..|a|][|a| - 1] == x[|a| - 1];
    }
    assert KeyAt(mode, x, |a|, key);
    MatchAtComplete(mode, x, |a|, key);
  }

  /** Where a, at the front of x up to e, ends outside a word, the walk over x up to e is the walk over a. */
  lemma {:induction false} ScanPrefix(mode: Mode, x: string, a: string, p: nat, e: nat)
    requires p <= e == |a| <= |x| && x[..e] == a
    requires a == [] || !IsWordChar(mode, a[e - 1])
    ensures Scan(mode, x, p) == Append(Scan(mode, a, p), Scan(mode, x, e))
    decreases e - p
  {
    if p < e {
      var piece, n := ScanPrefixStep(mode, x, a, p);
      ScanPrefix(mode, x, a, p + n, e);
    }
  }

  /** One step of the two walks: both take the same piece and go on n further. */
  lemma ScanPrefixStep(mode: Mode, x: string, a: string, p: nat) returns (piece: Piece, n: nat)
    requires p < |a| <= |x| && x[..|a|] == a && !IsWordChar(mode, a[|a| - 1])
    ensures 0 < n && p + n <= |a|
    ensures Scan(mode, x, p) == Cons(piece, Scan(mode, x, p + n))
    ensures Scan(mode, a, p) == Cons(piece, Scan(mode, a, p + n))
  {
    MatchPrefix(mode, x, a, p);
    var m := MatchAt(mode, a, p);
    n := if m.Some? then m.value else 1;
    SliceBefore(x, a, p, n);
    piece := SameStep(mode, a, p, x, p, n);
  }

  /** The characters of x below |a| are those of a. */
  lemma SliceBefore(x: string, a: string, p: nat, n: nat)
    requires p + n <= |a| <= |x| && x[..|a|] == a
    ensures x[p..p + n] == a[p..p + n]
    ensures n > 0 ==> x[p] == a[p]
  {
    assert forall q :: p <= q < p + n ==> x[q] == x[..|a|][q];
  }

  lemma MatchPrefix(mode: Mode, x: string, a: string, p: nat)
    requires p < |a| <= |x| && x[..|a|] == a && !IsWordChar(mode, a[|a| - 1])
    ensures MatchAt(mode, x, p) == MatchAt(mode, a, p)
  {
    var j := WordEnd(mode, a, p);
    assert j < |a|;
    assert forall q :: p <= q <= j ==> x[q] == x[..|a|][q];
    WordEndAt(mode, x, p, j);
    assert x[p..j] == a[p..j];
    if p > 0 {
      assert x[p - 1] == x[..|a|][p - 1];
    }
    MatchAtSame(mode, x, p, a, p);
  }

  /** The characters of x from o + k on are those of b, where b is x from o on. */
  lemma SliceAfter(x: string, o: nat, b: string, k: nat, q: nat, n: nat)
    requires o <= |x| && x[o..] == b && k + n <= |b| && q == o + k
    ensures q + n <= |x| && x[q..q + n] == b[k..k + n]
    ensures n > 0 ==> x[q] == b[k]
  {
    assert forall q :: k <= q < k + n ==> x[o + q] == x[o..][q];
  }

  /**
   * The walk over x from q = o + k is the walk over its tail b = x[o..]
   * from k, unless a word before o runs on into b.
   */
  lemma {:induction false} ScanShift(mode: Mode, x: string, o: nat, b: string, k: nat, q: nat)
    requires o <= |x| && x[o..] == b && k <= |b| && q == o + k
    requires k > 0 || b == [] || !IsWordChar(mode, b[0])
    ensures q <= |x| && Scan(mode, x, q) == Scan(mode, b, k)
    decreases |b| - k
  {
    if k < |b| {
      var piece, n := ScanShiftStep(mode, x, o, b, k, q);
      ScanShift(mode, x, o, b, k + n, q + n);
    }
  }

  /** One step of the two walks: both take the same piece and go on n further. */
  lemma ScanShiftStep(mode: Mode, x: string, o: nat, b: string, k: nat, q: nat) returns (piece: Piece, n: nat)
    requires o <= |x| && x[o..] == b && k < |b| && q == o + k
    requires k > 0 || !IsWordChar(mode, b[0])
    ensures 0 < n && k + n <= |b| && q + n <= |x|
    ensures Scan(mode, x, q) == Cons(piece, Scan(mode, x, q + n))
    ensures Scan(mode, b, k) == Cons(piece, Scan(mode, b, k + n))
  {
    MatchShift(mode, x, o, b, k, q);
    var m := MatchAt(mode, b, k);
    n := if m.Some? then m.value else 1;
    SliceAfter(x, o, b, k, q, n);
    piece := SameStep(mode, b, k, x, q, n);
  }

  /** Two places that match alike over the same text take the same step. */
  lemma SameStep(mode: Mode, s: string, i: nat, u: string, k: nat, n: nat) returns (piece: Piece)
    requires i < |s| && k < |u| && MatchAt(mode, s, i) == MatchAt(mode, u, k)
    requires n == if MatchAt(mode, s, i).Some? then MatchAt(mode, s, i).value else 1
    requires i + n <= |s| && k + n <= |u| && s[i..i + n] == u[k..k + n] && s[i] == u[k]
    ensures Scan(mode, s, i) == Cons(piece, Scan(mode, s, i + n))
    ensures Scan(mode, u, k) == Cons(piece, Scan(mode, u, k + n))
  {
    if MatchAt(mode, s, i).Some? {
      piece := Word(s[i..i + n]);
      SameWordStep(mode, s, i, u, k, n, s[i..i + n]);
    } else {
      piece := Other(s[i]);
      SameOtherStep(mode, s, i, u, k);
    }
  }

  lemma SameWordStep(mode: Mode, s: string, i: nat, u: string, k: nat, n: nat, w: string)
    requires i < |s| && k < |u| && MatchAt(mode, s, i) == Some(n) && MatchAt(mode, u, k) == Some(n)
    requires i + n <= |s| && k + n <= |u| && s[i..i + n] == w && u[k..k + n] == w
    ensures Scan(mode, s, i) == Cons(Word(w), Scan(mode, s, i + n))
    ensures Scan(mode, u, k) == Cons(Word(w), Scan(mode, u, k + n))
  {
    WordStepAt(mode, s, i, n, w);
    WordStepAt(mode, u, k, n, w);
  }

  lemma WordStepAt(mode: Mode, s: string, i: nat, n: nat, w: string)
    requires i < |s| && MatchAt(mode, s, i) == Some(n) && i + n <= |s| && s[i..i + n] == w
    ensures Scan(mode, s, i) == Cons(Word(w), Scan(mode, s, i + n))
  {
    ScanWord(mode, s, i, n, i + n);
  }

  lemma SamePiece(ps: Pieces, p: Piece, q: Piece, rest: Pieces)
    requires ps == Cons(p, rest) && p == q
    ensures ps == Cons(q, rest)
  {
  }

  lemma SameOtherStep(mode: Mode, s: string, i: nat, u: string, k: nat)
    requires i < |s| && k < |u| && MatchAt(mode, s, i) == None && MatchAt(mode, u, k) == None
    requires s[i] == u[k]
    ensures Scan(mode, s, i) == Cons(Other(s[i]), Scan(mode, s, i + 1))
    ensures Scan(mode, u, k) == Cons(Other(s[i]), Scan(mode, u, k + 1))
  {
    ScanOther(mode, s, i);
    ScanOther(mode, u, k);
  }

  lemma MatchShift(mode: Mode, x: string, o: nat, b: string, k: nat, q: nat)
    requires o <= |x| && x[o..] == b && k < |b| && q == o + k
    requires k > 0 || !IsWordChar(mode, b[0])
    ensures MatchAt(mode, x, q) == MatchAt(mode, b, k)
  {
    var j := WordEnd(mode, b, k);
    var e := ShiftWord(mode, x, o, b, k, q, j);
    WordEndAt(mode, x, q, e);
    if k > 0 {
      MatchAtSame(mode, x, q, b, k);
    } else {
      NoWordNoMatch(mode, x, q);
      NoWordNoMatch(mode, b, k);
    }
  }

  /** The word b[k..j] of the tail b = x[o..] sits at x[o + k..o + j], with the same neighbours. */
  lemma ShiftWord(mode: Mode, x: string, o: nat, b: string, k: nat, q: nat, j: nat) returns (e: nat)
    requires o <= |x| && x[o..] == b && k <= j <= |b| && q == o + k
    requires forall p :: k <= p < j ==> IsWordChar(mode, b[p])
    requires j == |b| || !IsWordChar(mode, b[j])
    ensures e == o + j && e - q == j - k && e <= |x| && x[q..e] == b[k..j]
    ensures forall p :: q <= p < e ==> IsWordChar(mode, x[p])
    ensures e == |x| || !IsWordChar(mode, x[e])
    ensures k > 0 ==> x[q - 1] == b[k - 1]
  {
    e := o + j;
    assert forall q :: 0 <= q < |b| ==> x[o + q] == b[q];
    forall p | o + k <= p < o + j
      ensures IsWordChar(mode, x[p])
    {
      assert x[p] == b[p - o];
    }
  }

  /** Two places with the same word boundary before them and the same word after them match alike. */
  lemma MatchAtSame(mode: Mode, s: string, i: nat, u: string, k: nat)
    requires i <= |s| && k <= |u|
    requires (i == 0 || !IsWordChar(mode, s[i - 1])) == (k == 0 || !IsWordChar(mode, u[k - 1]))
    requires WordEnd(mode, s, i) - i == WordEnd(mode, u, k) - k
    requires s[i..WordEnd(mode, s, i)] == u[k..WordEnd(mode, u, k)]
    ensures MatchAt(mode, s, i) == MatchAt(mode, u, k)
  {
  }

  /** Where no word starts, nothing matches. */
  lemma NoWordNoMatch(mode: Mode, s: string, i: nat)
    requires i <= |s| && WordEnd(mode, s, i) == i
    ensures MatchAt(mode, s, i) == None
  {
    KeyLetters(FoldStr(mode, s[i..i]));
  }

  /** Rendering is done piece by piece. */
  lemma {:induction false} RenderConcat(ps: Pieces, qs: Pieces, convert: string -> string)
    ensures Render(Append(ps, qs), convert) == Render(ps, convert) + Render(qs, convert)
  {
    if ps.Cons? {
      RenderConcat(ps.tail, qs, convert);
      var h := RenderPiece(ps.head, convert);
      assert h + (Render(ps.tail, convert) + Render(qs, convert)) == h + Render(ps.tail, convert) + Render(qs, convert);
    }
  }

  /**
   * The defect: under Python 3, IGNORECASE lets the long s (U+017F) match the
   * `s` of "sunday", but `.lower()` keeps it, the lookup fails, and the word
   * becomes today's date, a weekday resolved to today.
   */
  lemma LongSSundayIsToday(today: Date, t: Template)
    requires Valid(today)
    ensures ReplaceDatesAsWritten(Unicode, LongSSunday, today, t) == FormatDate(today, t)
  {
    LongSSundayIsNoKey();
    LongSSundayRendered(x => ConvertDateAsWritten(x, today, t));
  }

  /** The corrected reading leaves the long-s spelling alone. */
  lemma LongSSundayKept(today: Date, t: Template)
    requires Valid(today)
    ensures ReplaceDates(Unicode, LongSSunday, today, t) == LongSSunday
  {
    LongSSundayIsNoKey();
    LongSSundayRendered(x => ConvertDate(x, today, t));
  }

  /** The walk takes the long-s spelling as one word, so the conversion decides the result alone. */
  lemma LongSSundayRendered(convert: string -> string)
    ensures Render(Scan(Unicode, LongSSunday, 0), convert) == convert(LongSSunday)
  {
    LongSSundayScan();
    assert Render(Nil, convert) == [];
  }

  /** The walk over the long-s spelling takes it as one word. */
  lemma LongSSundayScan()
    ensures Scan(Unicode, LongSSunday, 0) == Cons(Word(LongSSunday), Nil)
  {
    LongSSundayMatches();
    var s := LongSSunday;
    assert s[0..6] == s;
  }

  /** "sunday" spelt with U+017F in place of its `s`. */
  const LongSSunday: string := "\U{17F}unday"

  /** The whole-word pattern accepts the long-s spelling as "sunday". */
  lemma LongSSundayMatches()
    ensures MatchAt(Unicode, LongSSunday, 0) == Some(6)
  {
    var s := LongSSunday;
    assert KeyAt(Unicode, s, 0, "sunday");
    MatchAtComplete(Unicode, s, 0, "sunday");
  }

  /** `.lower()` keeps the long s, so the lowered word is in neither table. */
  lemma LongSSundayIsNoKey()
    ensures Lower(LongSSunday) == LongSSunday && !IsKey(LongSSunday)
  {
    var s := LongSSunday;
    assert Lower(s[5..]) == s[5..];
    assert Lower(s[3..]) == s[3..];
    assert Lower(s[1..]) == s[1..];
    KeyLetters(s);
  }
}
