/**
  The sentence segmenters of the read-aloud engine (src/preact/voiceread.ts).

  `FindEndOfLastSentence` repeats the global regular expression `/[.!?]+(?=\s|$)/g`
  from a start offset and keeps one past the START of the last match; `NextMatch` is
  one `exec` call. `EndOfLastSentence` is an independent, right-to-left definition of
  the same cut, and the method is proved equal to it.
  `FindEndOfNextParagraph` is one `exec` of `/\n+/g`.
*/
module Segmenter {
  import opened Wrappers

  /** The characters of the class `[.!?]`. */
  const Terminators: set<char> := {'.', '!', '?'}

  predicate IsTerminator(c: char) {
    c in Terminators
  }

  /** The characters that ECMAScript's `\s` matches (WhiteSpace and LineTerminator);
      no terminator is among them, and space, tab and the line breaks are. */
  predicate IsWhitespace(c: char)
    ensures IsWhitespace(c) ==> !IsTerminator(c)
    ensures c == ' ' || c == '\t' || c == '\n' || c == '\r' ==> IsWhitespace(c)
  {
    || c == ' ' || c == '\t' || c == '\n' || c == '\r'
    || c == '\U{000B}' || c == '\U{000C}' || c == '\U{00A0}' || c == '\U{1680}'
    || ('\U{2000}' <= c <= '\U{200A}')
    || c == '\U{2028}' || c == '\U{2029}' || c == '\U{202F}' || c == '\U{205F}'
    || c == '\U{3000}' || c == '\U{FEFF}'
  }

  /** The end of the run of terminators that starts at `i`: the greedy `[.!?]+`. */
  function RunEnd(text: string, i: nat): (j: nat)
    requires i <= |text|
    ensures i <= j <= |text|
    ensures forall k :: i <= k < j ==> IsTerminator(text[k])
    ensures j == |text| || !IsTerminator(text[j])
    decreases |text| - i
  {
    if i == |text| || !IsTerminator(text[i]) then i else RunEnd(text, i + 1)
  }

  /** The regular expression matches at `i`: a terminator whose run is followed by
      whitespace or by the end of the text (`(?=\s|$)`, without the `m` flag).
      Backtracking to a shorter run never helps, since the next character would
      then be a terminator. */
  predicate EndsSentence(text: string, i: nat)
    ensures EndsSentence(text, i) ==> i < |text| && RegexMatch(text, i, RunEnd(text, i))
  {
    && i < |text|
    && IsTerminator(text[i])
    && var j := RunEnd(text, i);
       j == |text| || IsWhitespace(text[j])
  }

  /** `[.!?]+(?=\s|$)` matches `text[i..j]`: one or more terminators, then whitespace
      or the end of the text. */
  ghost predicate RegexMatch(text: string, i: nat, j: nat) {
    && i < j <= |text|
    && (forall k :: i <= k < j ==> IsTerminator(text[k]))
    && (j == |text| || IsWhitespace(text[j]))
  }

  /** Every match of the expression at `i` is the greedy one, so `EndsSentence` holds
      exactly where the expression matches: no shorter run can be followed by `\s`. */
  lemma MatchIsGreedy(text: string, i: nat, j: nat)
    requires RegexMatch(text, i, j)
    ensures j == RunEnd(text, i)
    ensures EndsSentence(text, i)
  {
    RunEndWithinRun(text, i, j);
  }

  /** One `exec` with `lastIndex == from`: the leftmost match at or after `from`. */
  function NextMatch(text: string, from: nat): (m: Option<nat>)
    requires from <= |text|
    ensures m.Some? ==> from <= m.value < |text| && EndsSentence(text, m.value)
    ensures forall k :: from <= k < (if m.Some? then m.value else |text|) ==> !EndsSentence(text, k)
    decreases |text| - from
  {
    if from == |text| then None
    else if EndsSentence(text, from) then Some(from)
    else NextMatch(text, from + 1)
  }

  /** The last position in `[lo, hi)` where the expression matches, searching from the right. */
  function LastEnding(text: string, lo: nat, hi: nat): (m: Option<nat>)
    requires lo <= hi <= |text|
    ensures m.Some? ==> lo <= m.value < hi && EndsSentence(text, m.value)
    ensures forall k :: (if m.Some? then m.value + 1 else lo) <= k < hi ==> !EndsSentence(text, k)
    decreases hi
  {
    if hi == lo then None
    else if EndsSentence(text, hi - 1) then Some(hi - 1)
    else LastEnding(text, lo, hi - 1)
  }

  /** The first position of the run of terminators that ends at `k`, not before `lo`. */
  function RunStart(text: string, lo: nat, k: nat): (j: nat)
    requires lo <= k <= |text|
    ensures lo <= j <= k
    ensures forall i :: j <= i < k ==> IsTerminator(text[i])
    ensures j == lo || !IsTerminator(text[j - 1])
    decreases k
  {
    if k > lo && IsTerminator(text[k - 1]) then RunStart(text, lo, k - 1) else k
  }

  /** Where the read-aloud engine may cut `text` when it has read up to `startPos`:
      one past the first character of the last sentence-ending run at or after
      `startPos`; `startPos` itself when there is none; the length of the text
      when `startPos` is already past it. */
  function EndOfLastSentence(text: string, startPos: nat): (r: nat)
    ensures r <= |text|
    ensures startPos <= |text| ==> startPos <= r
  {
    if startPos >= |text| then |text|
    else match LastEnding(text, startPos, |text|)
      case None => startPos
      case Some(k) => RunStart(text, startPos, k) + 1
  }

  /** Every position of a run of terminators has the same run end. */
  lemma {:induction false} RunEndWithinRun(text: string, i: nat, k: nat)
    requires i <= k <= |text|
    requires forall m :: i <= m < k ==> IsTerminator(text[m])
    ensures RunEnd(text, i) == RunEnd(text, k)
    decreases k - i
  {
    if i < k {
      RunEndWithinRun(text, i + 1, k);
    }
  }

  /** A match that `exec` can report (at `from`, or right after a character that is not a
      terminator) and after whose run nothing matches any more is the cut. */
  lemma LastMatchIsCut(text: string, startPos: nat, i: nat)
    requires startPos <= i
    requires EndsSentence(text, i)
    requires i == startPos || !IsTerminator(text[i - 1])
    requires forall k :: RunEnd(text, i) <= k < |text| ==> !EndsSentence(text, k)
    ensures EndOfLastSentence(text, startPos) == i + 1
  {
    var e := RunEnd(text, i);
    RunEndWithinRun(text, i, e - 1);
    assert EndsSentence(text, e - 1);
    var m := LastEnding(text, startPos, |text|);
    assert m == Some(e - 1);
  }

  /** `exec` never reports a match that starts inside a run which began before `from`. */
  lemma MatchStartsRun(text: string, from: nat, i: nat)
    requires from <= |text|
    requires NextMatch(text, from) == Some(i)
    ensures i == from || !IsTerminator(text[i - 1])
  {
    if i > from && IsTerminator(text[i - 1]) {
      RunEndWithinRun(text, i - 1, i);
      assert EndsSentence(text, i - 1);
    }
  }

  /** `i` is a match that `exec` can report when searching from `startPos`: at
      `startPos`, or at the start of a run of terminators. */
  predicate Reportable(text: string, startPos: nat, i: nat) {
    && startPos <= i
    && EndsSentence(text, i)
    && (i == startPos || !IsTerminator(text[i - 1]))
  }

  /** An `exec` that resumes at `startPos`, or at the end of the run of a reportable
      match, reports a reportable match. */
  lemma ExecReports(text: string, startPos: nat, lastIndex: nat, i: nat)
    requires startPos <= lastIndex <= |text|
    requires lastIndex == startPos || lastIndex == |text| || !IsTerminator(text[lastIndex])
    requires NextMatch(text, lastIndex) == Some(i)
    ensures Reportable(text, startPos, i)
  {
    MatchStartsRun(text, lastIndex, i);
  }

  /** voiceread.ts:111-130: `lastMatch` follows the matches of successive `exec` calls. */
  method FindEndOfLastSentence(text: string, startPos: nat) returns (r: nat)
    ensures r == EndOfLastSentence(text, startPos)
  {
    if startPos >= |text| {
      return |text|;
    }
    var lastIndex := startPos;
    var lastMatch: int := -1;
    var found := NextMatch(text, lastIndex);
    while found.Some?
      invariant startPos <= lastIndex <= |text|
      invariant found == NextMatch(text, lastIndex)
      invariant lastMatch == -1 ==> lastIndex == startPos
      invariant lastMatch != -1 ==>
                  && lastMatch >= 1
                  && Reportable(text, startPos, lastMatch - 1)
                  && RunEnd(text, lastMatch - 1) == lastIndex
      decreases |text| - lastIndex
    {
      ExecReports(text, startPos, lastIndex, found.value);
      lastMatch := found.value + 1;
      lastIndex := RunEnd(text, found.value);
      found := NextMatch(text, lastIndex);
    }
    if lastMatch == -1 {
      return startPos;
    }
    LastMatchIsCut(text, startPos, lastMatch - 1);
    return lastMatch;
  }

  /** What voiceread.ts:111-130 promises of the cut: the end of the text past its end;
      no move exactly when nothing ends a sentence; otherwise one past the first
      character of a run that ends a sentence, that run being the last such one. */
  lemma {:induction false} EndOfLastSentenceSpec(text: string, startPos: nat)
    ensures startPos >= |text| ==> EndOfLastSentence(text, startPos) == |text|
    ensures startPos < |text| ==>
              (EndOfLastSentence(text, startPos) == startPos
               <==> forall k :: startPos <= k < |text| ==> !EndsSentence(text, k))
    ensures var r := EndOfLastSentence(text, startPos);
            startPos < |text| && r != startPos ==>
              && startPos < r <= |text|
              && IsTerminator(text[r - 1])
              && EndsSentence(text, r - 1)
              && (r - 1 == startPos || !IsTerminator(text[r - 2]))
              && forall k :: RunEnd(text, r - 1) <= k < |text| ==> !EndsSentence(text, k)
  {
    if startPos < |text| {
      match LastEnding(text, startPos, |text|)
      case None =>
      case Some(k) =>
        var j := RunStart(text, startPos, k);
        RunEndWithinRun(text, j, k);
        assert EndsSentence(text, j);
    }
  }

  /** voiceread.ts:96-109: the first line break at or after `startPos`, or the end of
      the text (the match of `/\n+/g` starts at its first `\n`). */
  function FindEndOfNextParagraph(text: string, startPos: nat): (r: nat)
    ensures startPos >= |text| ==> r == |text|
    ensures startPos < |text| ==> startPos <= r <= |text|
    ensures r < |text| ==> text[r] == '\n'
    ensures forall k :: startPos <= k < r ==> text[k] != '\n'
    decreases |text| - startPos
  {
    if startPos >= |text| then |text|
    else if text[startPos] == '\n' then startPos
    else FindEndOfNextParagraph(text, startPos + 1)
  }
}
