/**
 * `get_deadline_date` and `get_scheduled_date`: a marker (`DL: `, `S: `)
 * directly followed by a timestamp is looked for case-insensitively; the first
 * one found, with the marker rewritten to its keyword, becomes the entry's
 * DEADLINE or SCHEDULED part, and every such marker-and-timestamp is cut out of
 * the body.
 */
module Planning {

  import opened Wrappers
  import opened Chars
  import opened Calendar
  import opened DateFormat

  /** `(pattern<\d{4}-\d{2}-\d{2}\s[A-Z][a-z]{2}>)` matches at s[i..] under IGNORECASE. */
  predicate TaggedAt(mode: Mode, s: string, i: int, pattern: string) {
    0 <= i && i + |pattern| + 16 <= |s|
    && EqualFolded(mode, s[i..i + |pattern|], pattern)
    && StampAt(mode, s, i + |pattern|)
  }

  /** `re.search`: the first position at or after i where a tagged timestamp starts. */
  function FindTagged(mode: Mode, s: string, pattern: string, i: nat): (r: Option<nat>)
    requires i <= |s|
    ensures r.Some? ==> i <= r.value && TaggedAt(mode, s, r.value, pattern)
    ensures forall p :: i <= p && (r.None? || p < r.value) ==> !TaggedAt(mode, s, p, pattern)
    decreases |s| - i
  {
    if i + |pattern| + 16 > |s| then None
    else if TaggedAt(mode, s, i, pattern) then Some(i)
    else FindTagged(mode, s, pattern, i + 1)
  }

  /** `re.sub(expression, '', s)` from position i on: every tagged timestamp, left to right, is dropped. */
  function RemoveTagged(mode: Mode, s: string, pattern: string, i: nat): (r: string)
    requires i <= |s|
    ensures |r| <= |s| - i
    decreases |s| - i
  {
    if i == |s| then []
    else if TaggedAt(mode, s, i, pattern) then RemoveTagged(mode, s, pattern, i + |pattern| + 16)
    else [s[i]] + RemoveTagged(mode, s, pattern, i + 1)
  }

  /**
   * `re.sub(pattern, repl, s)` for a literal, case-sensitive pattern: every
   * occurrence, left to right without overlap, becomes repl. An empty pattern
   * matches before every character and at the end.
   */
  function ReplaceAll(s: string, pattern: string, repl: string): (r: string)
    ensures pattern != [] && |repl| == |pattern| ==> |r| == |s|
    decreases |s|, |pattern|
  {
    if pattern == [] then repl + (if s == [] then [] else [s[0]] + ReplaceAll(s[1..], pattern, repl))
    else if StartsWith(s, pattern) then
      repl + ReplaceAll(s[|pattern|..], pattern, repl)
    else if s == [] then []
    else [s[0]] + ReplaceAll(s[1..], pattern, repl)
  }

  /** A text in which the pattern does not occur is not touched by the rewrite. */
  lemma {:induction false} ReplaceAllAbsent(s: string, pattern: string, repl: string)
    requires pattern != []
    requires forall k :: 0 <= k ==> !HasAt(s, k, pattern)
    ensures ReplaceAll(s, pattern, repl) == s
  {
    if s != [] {
      forall k | 0 <= k ensures !HasAt(s[1..], k, pattern) {
        HasAtTail(s, k, pattern);
      }
      ReplaceAllAbsent(s[1..], pattern, repl);
    }
  }

  /** The marked timestamp found, with its marker rewritten, and the body without marked timestamps. */
  function Extract(mode: Mode, s: string, pattern: string, keyword: string): (r: (Option<string>, string))
    ensures r.0.None? <==> forall p :: 0 <= p ==> !TaggedAt(mode, s, p, pattern)
    ensures |r.1| <= |s|
  {
    var found := FindTagged(mode, s, pattern, 0);
    var body := RemoveTagged(mode, s, pattern, 0);
    match found
    case None => (None, body)
    case Some(p) => (Some(ReplaceAll(s[p..p + |pattern| + 16], pattern, keyword)), body)
  }

  /** Without any marked timestamp the body comes back unchanged. */
  lemma {:induction false} RemoveTaggedUnchanged(mode: Mode, s: string, pattern: string, i: nat)
    requires i <= |s|
    requires forall p :: i <= p ==> !TaggedAt(mode, s, p, pattern)
    ensures RemoveTagged(mode, s, pattern, i) == s[i..]
    decreases |s| - i
  {
    if i < |s| {
      RemoveTaggedUnchanged(mode, s, pattern, i + 1);
    }
  }

  lemma ExtractNothing(mode: Mode, s: string, pattern: string, keyword: string)
    requires forall p :: 0 <= p ==> !TaggedAt(mode, s, p, pattern)
    ensures Extract(mode, s, pattern, keyword) == (None, s)
  {
    RemoveTaggedUnchanged(mode, s, pattern, 0);
  }

  lemma HasAtTail(s: string, k: nat, pattern: string)
    requires s != []
    ensures HasAt(s[1..], k, pattern) <==> HasAt(s, k + 1, pattern)
  {
    if k + 1 + |pattern| <= |s| {
      assert s[1..][k..k + |pattern|] == s[k + 1..k + 1 + |pattern|];
    }
  }

  /** A timestamp holds no colon. */
  lemma StampHasNoColon(mode: Mode, stamp: string)
    requires |stamp| == 16 && StampAt(mode, stamp, 0)
    ensures forall k :: 0 <= k < 16 ==> stamp[k] != ':'
  {
  }

  /** A pattern holding a colon never occurs inside a timestamp. */
  lemma ColonNotInStamp(mode: Mode, stamp: string, pattern: string, k: int)
    requires |stamp| == 16 && StampAt(mode, stamp, 0) && ':' in pattern
    ensures !HasAt(stamp, k, pattern)
  {
    StampHasNoColon(mode, stamp);
    if 0 <= k && k + |pattern| <= |stamp| {
      var c :| 0 <= c < |pattern| && pattern[c] == ':';
      assert stamp[k..k + |pattern|][c] == stamp[k + c] != ':';
    }
  }

  /**
   * The marker followed by a timestamp (such as the relative-date step writes)
   * is found whole, comes back with its keyword in front, and leaves nothing
   * behind.
   */
  lemma ExtractStamp(mode: Mode, pattern: string, keyword: string, stamp: string)
    requires |stamp| == 16 && StampAt(mode, stamp, 0) && ':' in pattern
    ensures Extract(mode, pattern + stamp, pattern, keyword) == (Some(keyword + stamp), "")
  {
    var s := pattern + stamp;
    TaggedAtStart(mode, pattern, stamp);
    FoundAtStart(mode, s, pattern);
    ExtractParts(mode, s, pattern, keyword, 0);
    assert s[0..|pattern| + 16] == s;
    RewriteMarker(mode, pattern, keyword, stamp);
  }

  lemma FoundAtStart(mode: Mode, s: string, pattern: string)
    requires TaggedAt(mode, s, 0, pattern)
    ensures FindTagged(mode, s, pattern, 0) == Some(0)
  {
  }

  /**
   * When the first marked timestamp is found at p, the value is that match
   * with its marker rewritten, and the body is the text before it followed by
   * the rest with every later match removed.
   */
  lemma ExtractFound(mode: Mode, s: string, pattern: string, keyword: string, p: nat)
    requires FindTagged(mode, s, pattern, 0) == Some(p)
    ensures p + |pattern| + 16 <= |s|
    ensures Extract(mode, s, pattern, keyword).0 == Some(ReplaceAll(s[p..p + |pattern| + 16], pattern, keyword))
    ensures Extract(mode, s, pattern, keyword).1 == s[..p] + RemoveTagged(mode, s, pattern, p + |pattern| + 16)
  {
    ExtractParts(mode, s, pattern, keyword, p);
    RemoveFirstMatch(mode, s, pattern, p);
  }

  /** The body keeps everything before the first match and drops the match itself. */
  lemma RemoveFirstMatch(mode: Mode, s: string, pattern: string, p: nat)
    requires FindTagged(mode, s, pattern, 0) == Some(p)
    ensures p + |pattern| + 16 <= |s|
    ensures RemoveTagged(mode, s, pattern, 0) == s[..p] + RemoveTagged(mode, s, pattern, p + |pattern| + 16)
  {
    KeptUntil(mode, s, pattern, 0, p);
    DroppedAt(mode, s, pattern, p);
    assert s[0..p] == s[..p];
  }

  /**
   * A first match whose marker is written exactly as the pattern (and holds a
   * colon) is extracted as the keyword followed by its timestamp.
   */
  lemma ExtractExactMarker(mode: Mode, s: string, pattern: string, keyword: string, p: nat)
    requires FindTagged(mode, s, pattern, 0) == Some(p)
    requires p + |pattern| <= |s| && s[p..p + |pattern|] == pattern && ':' in pattern
    ensures p + |pattern| + 16 <= |s|
    ensures Extract(mode, s, pattern, keyword).0 == Some(keyword + s[p + |pattern|..p + |pattern| + 16])
  {
    FoundMarker(mode, s, pattern, keyword, p);
    ExtractParts(mode, s, pattern, keyword, p);
  }

  lemma ExtractParts(mode: Mode, s: string, pattern: string, keyword: string, p: nat)
    requires FindTagged(mode, s, pattern, 0) == Some(p)
    ensures p + |pattern| + 16 <= |s|
    ensures Extract(mode, s, pattern, keyword)
            == (Some(ReplaceAll(s[p..p + |pattern| + 16], pattern, keyword)), RemoveTagged(mode, s, pattern, 0))
  {
  }

  /** A match whose marker is written exactly as the pattern is rewritten to the keyword and the timestamp. */
  lemma FoundMarker(mode: Mode, s: string, pattern: string, keyword: string, p: nat)
    requires TaggedAt(mode, s, p, pattern) && s[p..p + |pattern|] == pattern && ':' in pattern
    ensures var e := p + |pattern| + 16;
            ReplaceAll(s[p..e], pattern, keyword) == keyword + s[p + |pattern|..e]
  {
    var e := p + |pattern| + 16;
    var stamp := s[p + |pattern|..e];
    assert StampAt(mode, stamp, 0) by {
      forall k | 0 <= k < 16 ensures stamp[k] == s[p + |pattern| + k] {}
    }
    assert s[p..e] == pattern + stamp;
    RewriteMarker(mode, pattern, keyword, stamp);
  }

  /** `re.sub` up to the next marked timestamp keeps every character. */
  lemma {:induction false} KeptUntil(mode: Mode, s: string, pattern: string, i: nat, p: nat)
    requires i <= p <= |s|
    requires forall k :: i <= k < p ==> !TaggedAt(mode, s, k, pattern)
    ensures RemoveTagged(mode, s, pattern, i) == s[i..p] + RemoveTagged(mode, s, pattern, p)
    decreases p - i
  {
    if i < p {
      KeptUntil(mode, s, pattern, i + 1, p);
      KeptAt(mode, s, pattern, i);
      ConsSlice(s, i, p, RemoveTagged(mode, s, pattern, p));
    } else {
      assert s[i..p] == [];
    }
  }

  /** A match is dropped whole: the walk resumes after it. */
  lemma DroppedAt(mode: Mode, s: string, pattern: string, p: nat)
    requires TaggedAt(mode, s, p, pattern)
    ensures p + |pattern| + 16 <= |s|
    ensures RemoveTagged(mode, s, pattern, p) == RemoveTagged(mode, s, pattern, p + |pattern| + 16)
  {
  }

  /** A position where no marked timestamp starts keeps its character. */
  lemma KeptAt(mode: Mode, s: string, pattern: string, i: nat)
    requires i < |s| && !TaggedAt(mode, s, i, pattern)
    ensures RemoveTagged(mode, s, pattern, i) == [s[i]] + RemoveTagged(mode, s, pattern, i + 1)
  {
  }

  lemma TaggedAtStart(mode: Mode, pattern: string, stamp: string)
    requires |stamp| == 16 && StampAt(mode, stamp, 0)
    ensures TaggedAt(mode, pattern + stamp, 0, pattern)
    ensures RemoveTagged(mode, pattern + stamp, pattern, 0) == []
  {
    var s := pattern + stamp;
    assert s[0..|pattern|] == pattern;
    assert forall p :: 0 <= p < 16 ==> s[|pattern| + p] == stamp[p];
  }

  lemma RewriteMarker(mode: Mode, pattern: string, keyword: string, stamp: string)
    requires |stamp| == 16 && StampAt(mode, stamp, 0) && ':' in pattern
    ensures ReplaceAll(pattern + stamp, pattern, keyword) == keyword + stamp
  {
    var s := pattern + stamp;
    forall k | 0 <= k ensures !HasAt(stamp, k, pattern) {
      ColonNotInStamp(mode, stamp, pattern, k);
    }
    ReplaceAllAbsent(stamp, pattern, keyword);
    assert StartsWith(s, pattern);
    assert s[|pattern|..] == stamp;
  }

  /** In particular a date written with the date template, as `replace_date` writes it. */
  lemma ExtractFormatted(mode: Mode, pattern: string, keyword: string, d: Date)
    requires Valid(d) && d.year <= 9999 && ':' in pattern
    ensures var stamp := FormatDate(d, DateTemplate);
            Extract(mode, pattern + stamp, pattern, keyword) == (Some(keyword + stamp), "")
  {
    StampRoundTrip(mode, d);
    ExtractStamp(mode, pattern, keyword, FormatDate(d, DateTemplate));
  }
}
