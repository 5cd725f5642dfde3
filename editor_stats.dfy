/** The status-bar counters (`updateCharCount`): the length of the editor
    text and the number of pieces `text.trim().split(/\s+/)` yields, or 0 for
    a blank text. */
module EditorStats {
  import opened Text

  datatype Counts = Counts(chars: nat, words: nat)

  /** Index of the first whitespace character of `s`, or `|s|`. */
  function WordEnd(s: string): (i: nat)
    ensures i <= |s|
    ensures forall k :: 0 <= k < i ==> !IsWhitespace(s[k])
    ensures i < |s| ==> IsWhitespace(s[i])
  {
    if s == [] || IsWhitespace(s[0]) then 0 else 1 + WordEnd(s[1..])
  }

  /** Index of the first non-whitespace character of `s` at or after `i`,
      or `|s|`. */
  function SkipWhitespace(s: string, i: nat): (j: nat)
    requires i <= |s|
    ensures i <= j <= |s|
    ensures forall k :: i <= k < j ==> IsWhitespace(s[k])
    ensures j < |s| ==> !IsWhitespace(s[j])
    decreases |s| - i
  {
    if i < |s| && IsWhitespace(s[i]) then SkipWhitespace(s, i + 1) else i
  }

  /** JavaScript `s.split(/\s+/)`: the pieces between maximal whitespace
      runs, empty pieces at the ends included (`"".split(/\s+/)` is `[""]`). */
  function SplitWhitespace(s: string): (pieces: seq<string>)
    ensures |pieces| >= 1
    decreases |s|
  {
    var i := WordEnd(s);
    if i == |s| then [s]
    else [s[..i]] + SplitWhitespace(s[SkipWhitespace(s, i)..])
  }

  /** `elements.editor.value.trim() ? ….trim().split(/\s+/).length : 0`. */
  function WordCount(content: string): nat {
    var t := Trim(content);
    if t != [] then |SplitWhitespace(t)| else 0
  }

  /** The two numbers `updateCharCount` writes into the status bar; the
      locale-dependent digit grouping of `toLocaleString` is not modelled. */
  function UpdateCharCount(content: string): (c: Counts)
    ensures c.chars == Utf16Length(content) && |content| <= c.chars <= 2 * |content|
    ensures c.words == WordCount(content) == RunCount(content)
    ensures c.words == 0 <==> AllWhitespace(content)
  {
    WordCountIsRunCount(content);
    WordCountZeroIff(content);
    Counts(Utf16Length(content), WordCount(content))
  }

  // An independent reference count: the positions where a word begins.

  /** Position `i` starts a maximal run of non-whitespace characters. */
  predicate IsWordStart(s: string, i: nat)
    requires i < |s|
  {
    !IsWhitespace(s[i]) && (i == 0 || IsWhitespace(s[i - 1]))
  }

  /** The number of word starts among the first `n` positions. */
  function StartsBefore(s: string, n: nat): nat
    requires n <= |s|
  {
    if n == 0 then 0 else StartsBefore(s, n - 1) + (if IsWordStart(s, n - 1) then 1 else 0)
  }

  /** The number of maximal non-whitespace runs of `s`. */
  function RunCount(s: string): nat {
    StartsBefore(s, |s|)
  }

  lemma {:induction false} StartsBeforePrefix(a: string, b: string, n: nat)
    requires n <= |a|
    ensures StartsBefore(a + b, n) == StartsBefore(a, n)
  {
    if n > 0 {
      StartsBeforePrefix(a, b, n - 1);
      assert (a + b)[n - 1] == a[n - 1];
      if n > 1 { assert (a + b)[n - 2] == a[n - 2]; }
    }
  }

  /** Cutting right after whitespace splits the runs between the two sides. */
  lemma {:induction false} StartsAfterWhitespace(a: string, b: string, k: nat)
    requires a == [] || IsWhitespace(a[|a| - 1])
    requires k <= |b|
    ensures StartsBefore(a + b, |a| + k) == RunCount(a) + StartsBefore(b, k)
  {
    if k == 0 {
      StartsBeforePrefix(a, b, |a|);
    } else {
      StartsAfterWhitespace(a, b, k - 1);
      assert (a + b)[|a| + k - 1] == b[k - 1];
      if k > 1 { assert (a + b)[|a| + k - 2] == b[k - 2]; }
    }
  }

  lemma {:induction false} RunCountAppend(a: string, b: string)
    requires a == [] || IsWhitespace(a[|a| - 1])
    ensures RunCount(a + b) == RunCount(a) + RunCount(b)
  {
    StartsAfterWhitespace(a, b, |b|);
  }

  /** Trailing whitespace starts no run. */
  lemma {:induction false} StartsInTrailingWhitespace(a: string, w: string, k: nat)
    requires AllWhitespace(w) && k <= |w|
    ensures StartsBefore(a + w, |a| + k) == RunCount(a)
  {
    if k == 0 {
      StartsBeforePrefix(a, w, |a|);
    } else {
      StartsInTrailingWhitespace(a, w, k - 1);
      assert (a + w)[|a| + k - 1] == w[k - 1];
    }
  }

  lemma {:induction false} RunCountTrailingWhitespace(a: string, w: string)
    requires AllWhitespace(w)
    ensures RunCount(a + w) == RunCount(a)
  {
    StartsInTrailingWhitespace(a, w, |w|);
  }

  lemma {:induction false} RunCountOfWhitespace(w: string)
    requires AllWhitespace(w)
    ensures RunCount(w) == 0
  {
    RunCountTrailingWhitespace([], w);
    assert [] + w == w;
  }

  /** A non-empty string without whitespace is one run. */
  lemma {:induction false} StartsInWord(w: string, n: nat)
    requires forall k :: 0 <= k < |w| ==> !IsWhitespace(w[k])
    requires 1 <= n <= |w|
    ensures StartsBefore(w, n) == 1
  {
    if n > 1 {
      StartsInWord(w, n - 1);
    }
  }

  /** Trimming changes no run count. */
  lemma {:induction false} RunCountTrim(s: string)
    ensures RunCount(Trim(s)) == RunCount(s)
  {
    var i, j := TrimIsSlice(s);
    assert s == s[..i] + (s[i..j] + s[j..]);
    RunCountOfWhitespace(s[..i]);
    RunCountAppend(s[..i], s[i..j] + s[j..]);
    RunCountTrailingWhitespace(s[i..j], s[j..]);
  }

  /** On a trimmed, non-empty string the split has one piece per run. */
  lemma {:induction false} SplitCountsRuns(t: string)
    requires t != [] && !IsWhitespace(t[0]) && !IsWhitespace(t[|t| - 1])
    ensures |SplitWhitespace(t)| == RunCount(t)
    decreases |t|
  {
    var i := WordEnd(t);
    if i == |t| {
      StartsInWord(t, |t|);
    } else {
      var j := SkipWhitespace(t, i);
      assert j < |t|;
      var rest := t[j..];
      assert rest[0] == t[j] && rest[|rest| - 1] == t[|t| - 1];
      SplitCountsRuns(rest);
      assert t == t[..j] + rest;
      RunCountAppend(t[..j], rest);
      assert t[..j] == t[..i] + t[i..j];
      RunCountTrailingWhitespace(t[..i], t[i..j]);
      StartsInWord(t[..i], i);
    }
  }

  /** A non-empty string without whitespace. */
  predicate IsWord(w: string) {
    w != [] && forall k :: 0 <= k < |w| ==> !IsWhitespace(w[k])
  }

  /** On a trimmed, non-empty string every piece of the split is a word:
      no piece is empty and none holds whitespace. */
  lemma {:induction false} SplitPiecesAreWords(t: string)
    requires t != [] && !IsWhitespace(t[0]) && !IsWhitespace(t[|t| - 1])
    ensures forall k :: 0 <= k < |SplitWhitespace(t)| ==> IsWord(SplitWhitespace(t)[k])
    decreases |t|
  {
    var i := WordEnd(t);
    if i < |t| {
      var j := SkipWhitespace(t, i);
      var rest := t[j..];
      assert rest[0] == t[j] && rest[|rest| - 1] == t[|t| - 1];
      SplitPiecesAreWords(rest);
      assert IsWord(t[..i]);
      var pieces := SplitWhitespace(t);
      assert pieces == [t[..i]] + SplitWhitespace(rest);
      forall k | 0 <= k < |pieces| ensures IsWord(pieces[k]) {
        if k > 0 { assert pieces[k] == SplitWhitespace(rest)[k - 1]; }
      }
    }
  }

  /** The word count is the number of maximal non-whitespace runs. */
  lemma {:induction false} WordCountIsRunCount(content: string)
    ensures WordCount(content) == RunCount(content)
  {
    RunCountTrim(content);
    var t := Trim(content);
    var i, j := TrimIsSlice(content);
    if t == [] {
      assert RunCount(t) == 0;
    } else {
      SplitCountsRuns(t);
    }
  }

  /** The word count is 0 exactly for a blank text. */
  lemma {:induction false} WordCountZeroIff(content: string)
    ensures WordCount(content) == 0 <==> AllWhitespace(content)
  {
    TrimEmptyIff(content);
  }
}
