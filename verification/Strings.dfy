/** What the scanners share: searching, and the string literals they all read alike. */
module Strings {
  function Min(a: nat, b: nat): nat { if a < b then a else b }

  predicate StartsWith(s: string, i: nat, pat: string) {
    i + |pat| <= |s| && s[i..i + |pat|] == pat
  }

  /** The index of the first `pat` at or after `i`, or the length. */
  function Find(s: string, pat: string, i: nat): (k: nat)
    requires i <= |s|
    ensures i <= k <= |s| && (k < |s| ==> StartsWith(s, k, pat))
    decreases |s| - i
  {
    if i == |s| || StartsWith(s, i, pat) then i else Find(s, pat, i + 1)
  }

  lemma StartsWithChar(s: string, i: nat, c: char)
    ensures StartsWith(s, i, [c]) <==> i < |s| && s[i] == c
  {
    if i < |s| { assert s[i..i + 1] == [s[i]]; }
  }

  lemma {:induction false} FindFirst(s: string, pat: string, i: nat, j: nat)
    requires i <= |s| && i <= j < Find(s, pat, i)
    ensures !StartsWith(s, j, pat)
    decreases j - i
  {
    if i < j { FindFirst(s, pat, i + 1, j); }
  }

  // ----- string literals -----

  /** The backslashes that stand directly before `k`, none counted before `from`. */
  function Backslashes(s: string, from: nat, k: nat): (n: nat)
    requires from <= k <= |s|
    ensures n <= k - from
  {
    if from < k && s[k - 1] == '\\' then 1 + Backslashes(s, from, k - 1) else 0
  }

  /** At `k` stands the quote `q`, or, where a literal ends with its line, a line end, and
    * an even run of backslashes is before it. */
  predicate Closes(s: string, from: nat, q: char, oneLine: bool, k: nat) {
    from <= k < |s| && Backslashes(s, from, k) % 2 == 0 && (s[k] == q || (oneLine && s[k] == '\n'))
  }

  /** The literal whose text begins at `from` ends at `e`: past the first quote that closes
    * it, at a line end before that, or at the end of the source. */
  predicate QuoteEndsAt(s: string, from: nat, q: char, oneLine: bool, e: nat) {
    if exists k :: from <= k < |s| && Closes(s, from, q, oneLine, k) then
      exists k :: from <= k < |s| && Closes(s, from, q, oneLine, k)
                  && (forall j | from <= j < k :: !Closes(s, from, q, oneLine, j))
                  && e == if s[k] == q then k + 1 else k
    else e == |s|
  }

  lemma FirstUnique(s: string, from: nat, q: char, oneLine: bool, k: nat, k': nat)
    requires Closes(s, from, q, oneLine, k) && Closes(s, from, q, oneLine, k')
    requires forall j | from <= j < k :: !Closes(s, from, q, oneLine, j)
    requires forall j | from <= j < k' :: !Closes(s, from, q, oneLine, j)
    ensures k == k'
  {
  }

  lemma QuoteEndUnique(s: string, from: nat, q: char, oneLine: bool, e: nat, e': nat)
    requires QuoteEndsAt(s, from, q, oneLine, e) && QuoteEndsAt(s, from, q, oneLine, e')
    ensures e == e'
  {
    if exists k :: from <= k < |s| && Closes(s, from, q, oneLine, k) {
      var k :| from <= k < |s| && Closes(s, from, q, oneLine, k)
               && (forall j | from <= j < k :: !Closes(s, from, q, oneLine, j))
               && e == if s[k] == q then k + 1 else k;
      var k' :| from <= k' < |s| && Closes(s, from, q, oneLine, k')
                && (forall j | from <= j < k' :: !Closes(s, from, q, oneLine, j))
                && e' == if s[k'] == q then k' + 1 else k';
      FirstUnique(s, from, q, oneLine, k, k');
    }
  }

  /** The end of the literal whose text is being read at `i`, backslash pairs whole. */
  function QuoteStop(s: string, i: nat, q: char, oneLine: bool): (j: nat)
    requires i <= |s|
    ensures i <= j <= |s|
    decreases |s| - i
  {
    if i == |s| then i
    else if s[i] == '\\' then QuoteStop(s, Min(i + 2, |s|), q, oneLine)
    else if s[i] == q then i + 1
    else if oneLine && s[i] == '\n' then i
    else QuoteStop(s, i + 1, q, oneLine)
  }

  /** A backslash that is not escaped escapes the next character. */
  lemma PairSkipped(s: string, from: nat, i: nat, q: char, oneLine: bool)
    requires from <= i < |s| && s[i] == '\\' && q != '\\' && Backslashes(s, from, i) % 2 == 0
    ensures !Closes(s, from, q, oneLine, i) && !Closes(s, from, q, oneLine, i + 1)
    ensures i + 2 <= |s| ==> Backslashes(s, from, i + 2) % 2 == 0
  {
    assert Backslashes(s, from, i + 1) == Backslashes(s, from, i) + 1;
  }

  /** Reading on from a place that no backslash escapes ends the literal where it ends. */
  lemma {:induction false} QuoteStopFrom(s: string, from: nat, i: nat, q: char, oneLine: bool)
    requires from <= i <= |s| && q != '\\' && Backslashes(s, from, i) % 2 == 0
    requires forall j | from <= j < i :: !Closes(s, from, q, oneLine, j)
    ensures QuoteEndsAt(s, from, q, oneLine, QuoteStop(s, i, q, oneLine))
    decreases |s| - i
  {
    if i < |s| {
      if s[i] == '\\' {
        PairSkipped(s, from, i, q, oneLine);
        if i + 2 <= |s| { QuoteStopFrom(s, from, i + 2, q, oneLine); }
      } else if s[i] == q || (oneLine && s[i] == '\n') {
        assert Closes(s, from, q, oneLine, i);
      } else {
        QuoteStopFrom(s, from, i + 1, q, oneLine);
      }
    }
  }

  lemma QuoteStopIs(s: string, from: nat, q: char, oneLine: bool)
    requires from <= |s| && q != '\\'
    ensures QuoteEndsAt(s, from, q, oneLine, QuoteStop(s, from, q, oneLine))
  {
    QuoteStopFrom(s, from, from, q, oneLine);
  }

  /** The end of a literal in double quotes, which may run over lines. */
  function LiteralEnd(s: string, i: nat): (k: nat)
    requires i <= |s|
    ensures i <= k <= |s|
  {
    QuoteStop(s, i, '"', false)
  }

  lemma ConcatAssoc<T>(a: seq<T>, b: seq<T>, c: seq<T>)
    ensures a + b + c == a + (b + c)
  {
  }
}
