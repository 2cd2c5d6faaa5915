/**
 * The whitespace steps: `convert_line_breaks` and `remove_double_spaces`, both
 * `re.sub(r'\s\s', repl, s)`, and `remove_leading_trailling_spaces`,
 * `re.sub(r'(^\s|\s$)', '', s)`.
 */
module Whitespace {

  import opened Chars

  predicate PairAt(mode: Mode, s: string, i: int) {
    0 <= i && i + 1 < |s| && IsSpace(mode, s[i]) && IsSpace(mode, s[i + 1])
  }

  predicate HasPair(mode: Mode, s: string) {
    exists i :: 0 <= i < |s| && PairAt(mode, s, i)
  }

  /**
   * `re.sub(r'\s\s', repl, s)`: scanning left to right, each pair of whitespace
   * characters that does not overlap an earlier replaced pair becomes `repl`.
   */
  function SubPairs(mode: Mode, s: string, repl: string): (r: string)
    ensures |repl| <= 1 ==> |r| <= |s|
  {
    if |s| < 2 then s
    else if IsSpace(mode, s[0]) && IsSpace(mode, s[1]) then repl + SubPairs(mode, s[2..], repl)
    else [s[0]] + SubPairs(mode, s[1..], repl)
  }

  /** Text without two adjacent whitespace characters is left as it is. */
  lemma {:induction false} SubPairsUnchanged(mode: Mode, s: string, repl: string)
    requires !HasPair(mode, s)
    ensures SubPairs(mode, s, repl) == s
  {
    if |s| >= 2 {
      assert !PairAt(mode, s, 0);
      assert !HasPair(mode, s[1..]) by {
        forall i | PairAt(mode, s[1..], i) ensures false {
          assert PairAt(mode, s, i + 1);
        }
      }
      SubPairsUnchanged(mode, s[1..], repl);
    }
  }

  /** A replacement of at most one character shortens a text that holds a whitespace pair. */
  lemma {:induction false} SubPairsLength(mode: Mode, s: string, repl: string)
    requires |repl| <= 1
    ensures HasPair(mode, s) ==> |SubPairs(mode, s, repl)| < |s|
  {
    if |s| >= 2 {
      if IsSpace(mode, s[0]) && IsSpace(mode, s[1]) {
      } else {
        SubPairsLength(mode, s[1..], repl);
        if HasPair(mode, s) {
          var i :| 0 <= i < |s| && PairAt(mode, s, i);
          assert i != 0;
          assert s[1..][i - 1] == s[i] && s[1..][i] == s[i + 1];
          assert PairAt(mode, s[1..], i - 1);
        }
      }
    }
  }

  /** Where no whitespace pair straddles the seam, the two halves are processed apart. */
  lemma {:induction false} SubPairsSplit(mode: Mode, a: string, b: string, repl: string)
    requires a == [] || b == [] || !IsSpace(mode, a[|a| - 1]) || !IsSpace(mode, b[0])
    ensures SubPairs(mode, a + b, repl) == SubPairs(mode, a, repl) + SubPairs(mode, b, repl)
  {
    if a == [] {
      assert a + b == b;
    } else if b == [] {
      assert a + b == a;
    } else if |a| == 1 {
      assert (a + b)[1..] == b;
    } else if IsSpace(mode, a[0]) && IsSpace(mode, a[1]) {
      var ab := a + b;
      assert ab[0] == a[0] && ab[1] == a[1] && ab[2..] == a[2..] + b;
      SubPairsSplit(mode, a[2..], b, repl);
      SplitStep(repl, SubPairs(mode, ab, repl), SubPairs(mode, a, repl), SubPairs(mode, a[2..], repl), SubPairs(mode, b, repl));
    } else {
      var ab := a + b;
      assert ab[0] == a[0] && ab[1] == a[1] && ab[1..] == a[1..] + b;
      SubPairsSplit(mode, a[1..], b, repl);
      SplitStep([a[0]], SubPairs(mode, ab, repl), SubPairs(mode, a, repl), SubPairs(mode, a[1..], repl), SubPairs(mode, b, repl));
    }
  }

  /** The bookkeeping of one step of the split: x + (y + z) regrouped. */
  lemma SplitStep(head: string, whole: string, left: string, leftRest: string, right: string)
    requires whole == head + (leftRest + right) && left == head + leftRest
    ensures whole == left + right
  {
  }

  /** A text ending in a non-whitespace character keeps that character last. */
  lemma {:induction false} SubPairsKeepsLast(mode: Mode, a: string, repl: string)
    requires a != [] && !IsSpace(mode, a[|a| - 1])
    ensures var r := SubPairs(mode, a, repl); r != [] && r[|r| - 1] == a[|a| - 1]
  {
    if |a| >= 2 {
      if IsSpace(mode, a[0]) && IsSpace(mode, a[1]) {
        SubPairsKeepsLast(mode, a[2..], repl);
      } else {
        SubPairsKeepsLast(mode, a[1..], repl);
      }
    }
  }

  /** A text starting with a non-whitespace character keeps that character first. */
  lemma SubPairsKeepsFirst(mode: Mode, b: string, repl: string)
    requires b != [] && !IsSpace(mode, b[0])
    ensures var r := SubPairs(mode, b, repl); r != [] && r[0] == b[0]
  {
  }

  /**
   * `remove_double_spaces`: the pair substitution with one space, run twice.
   * It never lengthens the text, and `CollapseUnchanged` shows that it leaves
   * text without a whitespace pair alone.
   */
  function Collapse(mode: Mode, s: string): (r: string)
    ensures |r| <= |s|
  {
    SubPairs(mode, SubPairs(mode, s, " "), " ")
  }

  lemma CollapseUnchanged(mode: Mode, s: string)
    requires !HasPair(mode, s)
    ensures Collapse(mode, s) == s
  {
    SubPairsUnchanged(mode, s, " ");
    SubPairsUnchanged(mode, s, " ");
  }

  method RemoveDoubleSpaces(mode: Mode, s: string) returns (r: string)
    ensures r == Collapse(mode, s)
    ensures |r| <= |s|
    ensures !HasPair(mode, s) ==> r == s
  {
    r := s;
    for i := 0 to 2
      invariant i == 0 ==> r == s
      invariant i == 1 ==> r == SubPairs(mode, s, " ")
      invariant i == 2 ==> r == Collapse(mode, s)
      invariant |r| <= |s|
      invariant !HasPair(mode, s) ==> r == s
    {
      if !HasPair(mode, s) {
        SubPairsUnchanged(mode, r, " ");
      }
      r := SubPairs(mode, r, " ");
    }
  }

  predicate AllSpace(mode: Mode, w: string) {
    forall j :: 0 <= j < |w| ==> IsSpace(mode, w[j])
  }

  /** Two passes reduce a run of two to four whitespace characters to one space. */
  lemma ShortRun(mode: Mode, w: string)
    requires AllSpace(mode, w) && 2 <= |w| <= 4
    ensures Collapse(mode, w) == " "
  {
    assert IsSpace(mode, w[0]) && IsSpace(mode, w[1]);
    var p := SubPairs(mode, w, " ");
    assert p == " " + SubPairs(mode, w[2..], " ");
    if |w| == 2 {
      assert w[2..] == [];
    } else if |w| == 3 {
      assert SubPairs(mode, w[2..], " ") == [w[2]];
      assert SubPairs(mode, p, " ") == " " + SubPairs(mode, p[2..], " ");
      assert p[2..] == [];
    } else {
      assert IsSpace(mode, w[2]) && IsSpace(mode, w[3]);
      assert SubPairs(mode, w[2..], " ") == " " + SubPairs(mode, w[4..], " ");
      assert w[4..] == [];
      assert SubPairs(mode, p, " ") == " " + SubPairs(mode, p[2..], " ");
      assert p[2..] == [];
    }
  }

  /**
   * In context: a run of two to four whitespace characters between
   * non-whitespace neighbours ends as a single space, and the text around it
   * is processed on its own.
   */
  lemma RunCollapses(mode: Mode, a: string, w: string, b: string)
    requires AllSpace(mode, w) && 2 <= |w| <= 4
    requires a == [] || !IsSpace(mode, a[|a| - 1])
    requires b == [] || !IsSpace(mode, b[0])
    ensures Collapse(mode, a + w + b) == Collapse(mode, a) + " " + Collapse(mode, b)
  {
    BothPasses(mode, a, w, b);
    ShortRun(mode, w);
    assert Collapse(mode, a) + (" " + Collapse(mode, b)) == Collapse(mode, a) + " " + Collapse(mode, b);
  }

  /** Between non-whitespace neighbours, both passes treat the middle part on its own. */
  lemma BothPasses(mode: Mode, a: string, w: string, b: string)
    requires a == [] || !IsSpace(mode, a[|a| - 1])
    requires b == [] || !IsSpace(mode, b[0])
    ensures Collapse(mode, a + w + b) == Collapse(mode, a) + (Collapse(mode, w) + Collapse(mode, b))
  {
    var pa, pw, pb := SubPairs(mode, a, " "), SubPairs(mode, w, " "), SubPairs(mode, b, " ");
    ThreeParts(mode, a, w, b);
    if a != [] {
      SubPairsKeepsLast(mode, a, " ");
    }
    if b != [] {
      SubPairsKeepsFirst(mode, b, " ");
    }
    assert pa + (pw + pb) == pa + pw + pb;
    ThreeParts(mode, pa, pw, pb);
  }

  /** A middle part between non-whitespace neighbours is processed on its own. */
  lemma ThreeParts(mode: Mode, a: string, w: string, b: string)
    requires a == [] || !IsSpace(mode, a[|a| - 1])
    requires b == [] || !IsSpace(mode, b[0])
    ensures SubPairs(mode, a + w + b, " ") == SubPairs(mode, a, " ") + (SubPairs(mode, w, " ") + SubPairs(mode, b, " "))
  {
    assert a + w + b == a + (w + b);
    SubPairsSplit(mode, a, w + b, " ");
    SubPairsSplit(mode, w, b, " ");
  }

  // ----- remove_leading_trailling_spaces -----

  /**
   * Whether `(^\s|\s$)` matches at index k of s: the first character when it
   * is whitespace, the last when it is whitespace, and the one before a final
   * newline when it is whitespace (`$` also matches before a final newline).
   */
  predicate EdgeSpaceAt(mode: Mode, s: string, k: int)
    requires 0 <= k < |s|
  {
    IsSpace(mode, s[k])
    && (k == 0 || k == |s| - 1 || (k == |s| - 2 && s[|s| - 1] == '\n'))
  }

  /**
   * `re.sub` of the edge pattern from index k on: every character where it
   * matches is dropped, every other one kept.
   */
  function DropEdgeSpaces(mode: Mode, s: string, k: nat): (r: string)
    requires k <= |s|
    ensures |r| <= |s| - k
    decreases |s| - k
  {
    if k == |s| then []
    else (if EdgeSpaceAt(mode, s, k) then [] else [s[k]]) + DropEdgeSpaces(mode, s, k + 1)
  }

  /**
   * `remove_leading_trailling_spaces`, as a slice: at most one character goes
   * at the front, and at the end the last one, or the last two when a
   * whitespace character stands before a final newline.
   */
  function TrimEdges(mode: Mode, s: string): (r: string)
    ensures |r| <= |s|
  {
    var n := |s|;
    var start := if n > 0 && IsSpace(mode, s[0]) then 1 else 0;
    var end :=
      if n >= 2 && s[n - 1] == '\n' && IsSpace(mode, s[n - 2]) then n - 2
      else if n >= 1 && IsSpace(mode, s[n - 1]) then n - 1
      else n;
    if start <= end then s[start..end] else []
  }

  /** The slice agrees with the regex reading, character by character. */
  lemma TrimEdgesIsSub(mode: Mode, s: string)
    ensures TrimEdges(mode, s) == DropEdgeSpaces(mode, s, 0)
  {
    var n := |s|;
    var start := if n > 0 && IsSpace(mode, s[0]) then 1 else 0;
    var end :=
      if n >= 2 && s[n - 1] == '\n' && IsSpace(mode, s[n - 2]) then n - 2
      else if n >= 1 && IsSpace(mode, s[n - 1]) then n - 1
      else n;
    DropSegments(mode, s, start, end);
  }

  lemma DropSegments(mode: Mode, s: string, start: nat, end: nat)
    requires start == (if |s| > 0 && IsSpace(mode, s[0]) then 1 else 0)
    requires end == (if |s| >= 2 && s[|s| - 1] == '\n' && IsSpace(mode, s[|s| - 2]) then |s| - 2
                     else if |s| >= 1 && IsSpace(mode, s[|s| - 1]) then |s| - 1
                     else |s|)
    ensures DropEdgeSpaces(mode, s, 0) == (if start <= end then s[start..end] else [])
  {
    EdgeSpots(mode, s, start, end);
    if start <= end {
      KeepUpTo(mode, s, start, end);
      DropAllFrom(mode, s, end);
      assert s[start..end] + [] == s[start..end];
    } else {
      DropAllFrom(mode, s, 0);
    }
  }

  /** The edge spaces are the characters outside s[start..end]. */
  lemma EdgeSpots(mode: Mode, s: string, start: nat, end: nat)
    requires start == (if |s| > 0 && IsSpace(mode, s[0]) then 1 else 0)
    requires end == (if |s| >= 2 && s[|s| - 1] == '\n' && IsSpace(mode, s[|s| - 2]) then |s| - 2
                     else if |s| >= 1 && IsSpace(mode, s[|s| - 1]) then |s| - 1
                     else |s|)
    ensures forall k :: 0 <= k < |s| ==> (EdgeSpaceAt(mode, s, k) <==> !(start <= k < end))
  {
    forall k | 0 <= k < |s| ensures EdgeSpaceAt(mode, s, k) <==> !(start <= k < end) {
    }
  }

  /** Where no character from k on is an edge space, everything up to `end` is kept. */
  lemma {:induction false} KeepUpTo(mode: Mode, s: string, k: nat, end: nat)
    requires k <= end <= |s|
    requires forall p :: k <= p < end ==> !EdgeSpaceAt(mode, s, p)
    ensures DropEdgeSpaces(mode, s, k) == s[k..end] + DropEdgeSpaces(mode, s, end)
    decreases end - k
  {
    if k < end {
      KeepUpTo(mode, s, k + 1, end);
      KeepOne(mode, s, k);
      ConsSlice(s, k, end, DropEdgeSpaces(mode, s, end));
    }
  }

  lemma KeepOne(mode: Mode, s: string, k: nat)
    requires k < |s| && !EdgeSpaceAt(mode, s, k)
    ensures DropEdgeSpaces(mode, s, k) == [s[k]] + DropEdgeSpaces(mode, s, k + 1)
  {
  }


  /** Where every character from k on is an edge space, nothing is kept. */
  lemma {:induction false} DropAllFrom(mode: Mode, s: string, k: nat)
    requires k <= |s|
    requires forall p :: k <= p < |s| ==> EdgeSpaceAt(mode, s, p)
    ensures DropEdgeSpaces(mode, s, k) == []
    decreases |s| - k
  {
    if k < |s| {
      DropAllFrom(mode, s, k + 1);
    }
  }

  /** Text without whitespace at its edges is left as it is. */
  lemma TrimEdgesUnchanged(mode: Mode, s: string)
    requires s == [] || (!IsSpace(mode, s[0]) && !IsSpace(mode, s[|s| - 1]))
    ensures TrimEdges(mode, s) == s
  {
  }
}
