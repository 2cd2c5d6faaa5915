/**
 * `add_priority`: a priority marker (the tag character, an optional character
 * and a whitespace character, such as `#b `) is looked for at the start of the
 * heading; when one is found, every marker is cut out and `[#X]` is written,
 * with X the marker's character upper-cased, after a leading `TODO` or at the
 * very start.
 */
module Priority {

  import opened Wrappers
  import opened Chars

  /**
   * `tag(.?)\s` at i: the length of the match, 3 when a character other than a
   * line break stands between the tag and the whitespace (tried first), 2 when
   * the whitespace follows the tag directly, 0 when there is no match.
   */
  function TagLen(mode: Mode, s: string, i: nat, tag: char): (n: nat)
    ensures n == 0 || n == 2 || n == 3
    ensures n > 0 ==> i + n <= |s| && s[i] == tag && IsSpace(mode, s[i + n - 1])
  {
    if i + 2 < |s| && s[i] == tag && s[i + 1] != '\n' && IsSpace(mode, s[i + 2]) then 3
    else if i + 1 < |s| && s[i] == tag && IsSpace(mode, s[i + 1]) then 2
    else 0
  }

  /**
   * `tag(.?)\s` matches at i exactly when the tag is followed by whitespace,
   * directly or after one character other than a line break; the greedy `.?`
   * makes the three-character match win when both are possible.
   */
  lemma TagLenMatches(mode: Mode, s: string, i: nat, tag: char)
    ensures var n := TagLen(mode, s, i, tag);
            && (n == 3 <==> i + 2 < |s| && s[i] == tag && s[i + 1] != '\n' && IsSpace(mode, s[i + 2]))
            && (n > 0 <==> (i + 2 < |s| && s[i] == tag && s[i + 1] != '\n' && IsSpace(mode, s[i + 2]))
                           || (i + 1 < |s| && s[i] == tag && IsSpace(mode, s[i + 1])))
  {
  }

  /** No line break in s[..p], so that `.+?` or `.?` can cover it. */
  predicate OnFirstLine(s: string, p: nat) {
    p <= |s| && forall k :: 0 <= k < p ==> s[k] != '\n'
  }

  /** The lazy `.+?`: the first marker from position i on, as long as no line break is crossed. */
  function FindTagFrom(mode: Mode, s: string, tag: char, i: nat): (r: Option<nat>)
    requires 1 <= i <= |s| && OnFirstLine(s, i - 1)
    ensures r.Some? ==> i <= r.value && OnFirstLine(s, r.value) && TagLen(mode, s, r.value, tag) > 0
    ensures forall p :: i <= p && OnFirstLine(s, p) && (r.None? || p < r.value) ==> TagLen(mode, s, p, tag) == 0
    decreases |s| - i
  {
    if s[i - 1] == '\n' then None
    else if TagLen(mode, s, i, tag) > 0 then Some(i)
    else if i == |s| then None
    else FindTagFrom(mode, s, tag, i + 1)
  }

  /**
   * Where `re.match('(.+?|.?)tag(.?)\s', heading)` finds its tag: the lazy
   * `.+?` is tried first, so the first marker after position 0 on the first
   * line wins; only when there is none does `.?` fall back to a marker at 0.
   */
  function FindTag(mode: Mode, s: string, tag: char): (r: Option<nat>)
    ensures r.Some? ==> OnFirstLine(s, r.value) && TagLen(mode, s, r.value, tag) > 0
    ensures r.None? <==> forall p :: OnFirstLine(s, p) ==> TagLen(mode, s, p, tag) == 0
    ensures r.Some? ==> forall p :: 1 <= p && OnFirstLine(s, p) && (r.value == 0 || p < r.value) ==> TagLen(mode, s, p, tag) == 0
  {
    var later := if |s| == 0 then None else FindTagFrom(mode, s, tag, 1);
    if later.Some? then later
    else if TagLen(mode, s, 0, tag) > 0 then Some(0)
    else None
  }

  /** `result.group(2)`: the character between the tag and the whitespace, if there is one. */
  function Group(mode: Mode, s: string, p: nat, tag: char): (g: string)
    requires TagLen(mode, s, p, tag) > 0
    ensures |g| == TagLen(mode, s, p, tag) - 2
  {
    if TagLen(mode, s, p, tag) == 3 then [s[p + 1]] else []
  }

  /** `str.upper()` on the group, one character at a time. */
  function UpperStr(g: string): (r: string)
    ensures |r| == |g|
  {
    if g == [] then [] else [Upper(g[0])] + UpperStr(g[1..])
  }

  /** `re.sub('(tag.?)\s', '', s)` from position i on: every marker, left to right, is cut out. */
  function RemoveTags(mode: Mode, s: string, tag: char, i: nat): (r: string)
    requires i <= |s|
    ensures |r| <= |s| - i
    decreases |s| - i
  {
    if i == |s| then []
    else if TagLen(mode, s, i, tag) > 0 then RemoveTags(mode, s, tag, i + TagLen(mode, s, i, tag))
    else [s[i]] + RemoveTags(mode, s, tag, i + 1)
  }

  /** The org-mode priority cookie for the priority text X: `[#X]`. */
  function Cookie(priority: string): string {
    "[#" + priority + "]"
  }

  /** Where the cookie goes: after a leading `TODO` (whose following character is dropped), else in front. */
  function PlaceCookie(priority: string, h: string): (r: string)
    ensures StartsWith(h, "TODO") ==> StartsWith(r, "TODO " + Cookie(priority) + " ")
    ensures StartsWith(h, "TODO") ==> r == "TODO " + Cookie(priority) + " " + (if |h| >= 5 then h[5..] else [])
    ensures !StartsWith(h, "TODO") ==> r == Cookie(priority) + " " + h
  {
    if StartsWith(h, "TODO") then
      var r := h[..4] + " " + Cookie(priority) + " " + (if |h| >= 5 then h[5..] else []);
      assert r[..|"TODO " + Cookie(priority) + " "|] == "TODO " + Cookie(priority) + " ";
      r
    else Cookie(priority) + " " + h
  }

  function AddPriority(mode: Mode, heading: string, tag: char): (r: string)
    ensures FindTag(mode, heading, tag).None? ==> r == heading
    ensures FindTag(mode, heading, tag).Some? ==>
              var cookie := Cookie(UpperStr(Group(mode, heading, FindTag(mode, heading, tag).value, tag)));
              StartsWith(r, cookie + " ") || StartsWith(r, "TODO " + cookie + " ")
    ensures FindTag(mode, heading, tag).Some? ==>
              r == PlaceCookie(UpperStr(Group(mode, heading, FindTag(mode, heading, tag).value, tag)), RemoveTags(mode, heading, tag, 0))
  {
    match FindTag(mode, heading, tag)
    case None => heading
    case Some(p) => PlaceCookie(UpperStr(Group(mode, heading, p, tag)), RemoveTags(mode, heading, tag, 0))
  }

  /** Without any marker the text survives the removal unchanged. */
  lemma {:induction false} RemoveTagsUnchanged(mode: Mode, s: string, tag: char, i: nat)
    requires i <= |s|
    requires forall p :: i <= p ==> TagLen(mode, s, p, tag) == 0
    ensures RemoveTags(mode, s, tag, i) == s[i..]
    decreases |s| - i
  {
    if i < |s| {
      RemoveTagsUnchanged(mode, s, tag, i + 1);
    }
  }

  /** A heading without a marker on its first line comes back as it was. */
  lemma NoMarkerUnchanged(mode: Mode, heading: string, tag: char)
    requires forall p :: OnFirstLine(heading, p) ==> TagLen(mode, heading, p, tag) == 0
    ensures AddPriority(mode, heading, tag) == heading
  {
  }

  /** A lower-case ASCII letter as the marker's character becomes the upper-case one in the cookie. */
  lemma LetterUpperCased(mode: Mode, heading: string, tag: char)
    requires FindTag(mode, heading, tag).Some?
    requires var p := FindTag(mode, heading, tag).value;
             TagLen(mode, heading, p, tag) == 3 && IsAsciiLower(heading[p + 1])
    ensures var p := FindTag(mode, heading, tag).value;
            var x := (heading[p + 1] as int - 32) as char;
            IsAsciiUpper(x)
            && (StartsWith(AddPriority(mode, heading, tag), Cookie([x]) + " ")
                || StartsWith(AddPriority(mode, heading, tag), "TODO " + Cookie([x]) + " "))
  {
    var p := FindTag(mode, heading, tag).value;
    var x := (heading[p + 1] as int - 32) as char;
    assert UpperStr(Group(mode, heading, p, tag)) == [x];
    var h := RemoveTags(mode, heading, tag, 0);
    if !StartsWith(h, "TODO") {
      var r := Cookie([x]) + " " + h;
      assert r[..|Cookie([x]) + " "|] == Cookie([x]) + " ";
    }
  }

  /** `TODO #b do it ` becomes `TODO [#B] do it `. */
  lemma TodoExample()
    ensures AddPriority(Unicode, "TODO #b do it ", '#') == "TODO [#B] do it "
  {
    var s := "TODO #b do it ";
    TodoExampleFind();
    TodoExampleRemove();
    TodoExamplePlace();
    TodoExampleGroup();
  }

  lemma TodoExampleGroup()
    ensures TagLen(Unicode, "TODO #b do it ", 5, '#') == 3
    ensures UpperStr(Group(Unicode, "TODO #b do it ", 5, '#')) == "B"
  {
    var s := "TODO #b do it ";
    assert s[5] == '#' && s[6] == 'b' && s[7] == ' ';
    assert Group(Unicode, s, 5, '#') == ['b'];
  }

  lemma TodoExamplePlace()
    ensures PlaceCookie("B", "TODO do it ") == "TODO [#B] do it "
  {
    var h := "TODO do it ";
    assert StartsWith(h, "TODO");
    assert h[..4] == "TODO" && h[5..] == "do it ";
  }

  lemma TodoExampleFind()
    ensures FindTag(Unicode, "TODO #b do it ", '#') == Some(5)
  {
    var s := "TODO #b do it ";
    assert FindTagFrom(Unicode, s, '#', 5) == Some(5);
    assert FindTagFrom(Unicode, s, '#', 3) == Some(5);
    assert FindTagFrom(Unicode, s, '#', 1) == Some(5);
  }

  lemma TodoExampleRemove()
    ensures RemoveTags(Unicode, "TODO #b do it ", '#', 0) == "TODO do it "
  {
    var s := "TODO #b do it ";
    TodoExampleRemoveTail();
    assert forall k :: 0 <= k < 5 ==> s[k] != '#';
    KeptUpTo(Unicode, s, '#', 0, 5);
    JoinLiterals(s[0..5], RemoveTags(Unicode, s, '#', 5));
  }

  lemma JoinLiterals(a: string, b: string)
    requires a == "TODO " && b == "do it "
    ensures a + b == "TODO do it "
  {
  }

  /** Text holding no tag character passes through the removal unchanged. */
  lemma {:induction false} KeptUpTo(mode: Mode, s: string, tag: char, i: nat, j: nat)
    requires i <= j <= |s|
    requires forall k :: i <= k < j ==> s[k] != tag
    ensures RemoveTags(mode, s, tag, i) == s[i..j] + RemoveTags(mode, s, tag, j)
    decreases j - i
  {
    if i < j {
      KeptChar(mode, s, tag, i);
      KeptUpTo(mode, s, tag, i + 1, j);
      ConsSlice(s, i, j, RemoveTags(mode, s, tag, j));
    }
  }

  /**
   * Up to the next marker everything is kept, and the marker itself (tag,
   * optional character, whitespace) is cut out: the walk resumes after it.
   */
  lemma {:induction false} CutAt(mode: Mode, s: string, tag: char, i: nat, p: nat)
    requires i <= p <= |s|
    requires forall k :: i <= k < p ==> TagLen(mode, s, k, tag) == 0
    requires TagLen(mode, s, p, tag) > 0
    ensures RemoveTags(mode, s, tag, i) == s[i..p] + RemoveTags(mode, s, tag, p + TagLen(mode, s, p, tag))
    decreases p - i
  {
    if i < p {
      CutAt(mode, s, tag, i + 1, p);
      NoTagKept(mode, s, tag, i);
      ConsSlice(s, i, p, RemoveTags(mode, s, tag, p + TagLen(mode, s, p, tag)));
    }
  }

  /** A position where no marker starts keeps its character. */
  lemma NoTagKept(mode: Mode, s: string, tag: char, i: nat)
    requires i < |s| && TagLen(mode, s, i, tag) == 0
    ensures RemoveTags(mode, s, tag, i) == [s[i]] + RemoveTags(mode, s, tag, i + 1)
  {
  }

  /** A character other than the tag is kept. */
  lemma KeptChar(mode: Mode, s: string, tag: char, i: nat)
    requires i < |s| && s[i] != tag
    ensures RemoveTags(mode, s, tag, i) == [s[i]] + RemoveTags(mode, s, tag, i + 1)
  {
  }

  lemma TodoExampleRemoveTail()
    ensures RemoveTags(Unicode, "TODO #b do it ", '#', 5) == "do it "
  {
    var s := "TODO #b do it ";
    assert RemoveTags(Unicode, s, '#', 11) == "it ";
    assert RemoveTags(Unicode, s, '#', 8) == "do it ";
  }

  /** A marker after position 0 wins over one at position 0: `#a x #b y` gets priority B. */
  lemma LaterMarkerWins()
    ensures AddPriority(Unicode, "#a x #b y", '#') == "[#B] x y"
  {
    LaterMarkerFind();
    LaterMarkerRemove();
  }

  lemma LaterMarkerFind()
    ensures FindTag(Unicode, "#a x #b y", '#') == Some(5)
  {
    var s := "#a x #b y";
    assert FindTagFrom(Unicode, s, '#', 5) == Some(5);
  }

  lemma LaterMarkerRemove()
    ensures RemoveTags(Unicode, "#a x #b y", '#', 0) == "x y"
  {
    var s := "#a x #b y";
    assert RemoveTags(Unicode, s, '#', 5) == "y";
  }
}
