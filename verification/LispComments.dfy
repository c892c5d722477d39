/** Where the comments of a Lisp end that are not lines: nested block comments and datum
  * comments (tools/genguides.py, lines 662-691). */
module LispComments {
  import opened Strings

  // ----- nested block comments -----

  /** At `k` stands `#|` or `|#`, and its first character is not the second of another. */
  predicate Mark(s: string, from: nat, k: nat)
    requires from <= k
  {
    (StartsWith(s, k, "#|") || StartsWith(s, k, "|#")) && (k == from || !Mark(s, from, k - 1))
  }

  /** The comments open at `k`, one of them being open at `from`. */
  function Nesting(s: string, from: nat, k: nat): int
    requires from <= k
  {
    if k == from then 1 else
    Nesting(s, from, k - 1)
    + (if !Mark(s, from, k - 1) then 0 else if StartsWith(s, k - 1, "#|") then 1 else -1)
  }

  /** The mark at `k` closes the outermost comment. */
  predicate ClosesBlock(s: string, from: nat, k: nat) {
    from <= k && Mark(s, from, k) && !StartsWith(s, k, "#|") && Nesting(s, from, k) == 1
  }

  /** The comment whose text begins at `from` ends past the first mark that closes it, or
    * with the source. */
  predicate BlockEndsAt(s: string, from: nat, e: nat) {
    || (from + 2 <= e && ClosesBlock(s, from, e - 2) && forall k | from <= k < e - 2 :: !ClosesBlock(s, from, k))
    || (e == |s| && forall k | from <= k < |s| :: !ClosesBlock(s, from, k))
  }

  lemma BlockEndUnique(s: string, from: nat, e: nat, e': nat)
    requires BlockEndsAt(s, from, e) && BlockEndsAt(s, from, e')
    ensures e == e'
  {
  }

  /** Past the nested block comment being read at `j`, `depth` of them open. */
  function BlockStop(s: string, j: nat, depth: nat): (k: nat)
    requires j <= |s|
    ensures j <= k <= |s|
    decreases |s| - j
  {
    if j == |s| || depth == 0 then j
    else if StartsWith(s, j, "#|") then BlockStop(s, j + 2, depth + 1)
    else if StartsWith(s, j, "|#") then BlockStop(s, j + 2, depth - 1)
    else BlockStop(s, j + 1, depth)
  }

  /** Nothing closes the comment before `k`. */
  predicate OpenTo(s: string, from: nat, k: nat)
    requires from <= k
  {
    k == from || (OpenTo(s, from, k - 1) && !ClosesBlock(s, from, k - 1))
  }

  lemma {:induction false} OpenToIs(s: string, from: nat, k: nat)
    requires from <= k && OpenTo(s, from, k)
    ensures forall j | from <= j < k :: !ClosesBlock(s, from, j)
    decreases k
  {
    if k > from { OpenToIs(s, from, k - 1); }
  }

  /** Past a mark that does not close the comment: what follows it is no mark. */
  lemma PastMark(s: string, from: nat, j: nat)
    requires from <= j && Mark(s, from, j) && OpenTo(s, from, j)
    ensures !Mark(s, from, j + 1)
    ensures Nesting(s, from, j + 2) == Nesting(s, from, j) + if StartsWith(s, j, "#|") then 1 else -1
    ensures ClosesBlock(s, from, j) <==> !StartsWith(s, j, "#|") && Nesting(s, from, j) == 1
    ensures !ClosesBlock(s, from, j) ==> OpenTo(s, from, j + 2)
  {
    assert !ClosesBlock(s, from, j + 1);
    assert OpenTo(s, from, j + 1) <==> !ClosesBlock(s, from, j);
  }

  lemma PastOther(s: string, from: nat, j: nat)
    requires from <= j && !Mark(s, from, j) && OpenTo(s, from, j)
    ensures Nesting(s, from, j + 1) == Nesting(s, from, j) && OpenTo(s, from, j + 1)
  {
  }

  /** Where a block comment that has come to `j` goes on. */
  lemma BlockNext(s: string, from: nat, j: nat, depth: nat)
    requires from <= j < |s| && (j == from || !Mark(s, from, j - 1)) && depth > 0
    ensures if Mark(s, from, j) then
              j + 2 <= |s| && BlockStop(s, j, depth)
                              == BlockStop(s, j + 2, if StartsWith(s, j, "#|") then depth + 1 else depth - 1)
            else BlockStop(s, j, depth) == BlockStop(s, j + 1, depth)
  {
  }

  /** A comment that has come to `j` is closed at `k`, or not at all. */
  lemma {:induction false} BlockStopFrom(s: string, from: nat, j: nat, depth: nat) returns (k: nat, closed: bool)
    requires from <= j <= |s| && (j == from || !Mark(s, from, j - 1)) && depth > 0 && depth == Nesting(s, from, j)
    requires OpenTo(s, from, j)
    ensures from <= k && OpenTo(s, from, k)
    ensures if closed then ClosesBlock(s, from, k) && BlockStop(s, j, depth) == k + 2
            else BlockStop(s, j, depth) == k == |s|
    decreases |s| - j
  {
    k, closed := j, false;
    if j < |s| {
      BlockNext(s, from, j, depth);
      if Mark(s, from, j) {
        PastMark(s, from, j);
        if StartsWith(s, j, "#|") {
          k, closed := BlockStopFrom(s, from, j + 2, depth + 1);
        } else if depth > 1 {
          k, closed := BlockStopFrom(s, from, j + 2, depth - 1);
        } else {
          closed := true;
        }
      } else {
        PastOther(s, from, j);
        k, closed := BlockStopFrom(s, from, j + 1, depth);
      }
    }
  }

  lemma BlockStopIs(s: string, from: nat)
    requires from <= |s|
    ensures BlockEndsAt(s, from, BlockStop(s, from, 1))
  {
    var k, closed := BlockStopFrom(s, from, from, 1);
    OpenToIs(s, from, k);
  }

  method PastBlock(s: string, i: nat) returns (j: nat)
    requires i + 2 <= |s|
    ensures j == BlockStop(s, i + 2, 1)
  {
    var depth := 1;
    j := i + 2;
    while j < |s| && depth > 0
      invariant i < j <= |s| && depth >= 0
      invariant BlockStop(s, j, depth) == BlockStop(s, i + 2, 1)
      decreases |s| - j
    {
      if StartsWith(s, j, "#|") {
        depth, j := depth + 1, j + 2;
      } else if StartsWith(s, j, "|#") {
        depth, j := depth - 1, j + 2;
      } else {
        j := j + 1;
      }
    }
  }

  /** Past the block comment at `i`. */
  method BlockEnd(s: string, i: nat) returns (j: nat)
    requires i + 2 <= |s|
    ensures i < j <= |s| && BlockEndsAt(s, i + 2, j)
  {
    BlockStopIs(s, i + 2);
    j := PastBlock(s, i);
  }

  // ----- bracketed data -----

  function CloserOf(c: char): char { if c == '(' then ')' else ']' }

  /** Where the text of the literal begins that `k` is inside of; -1 outside of literals. */
  function TextAt(s: string, d: nat, k: nat): (t: int)
    requires d <= k <= |s|
    ensures -1 <= t <= k
  {
    if k == d then -1 else
    var t := TextAt(s, d, k - 1);
    if t < 0 then (if s[k - 1] == '"' then k else -1)
    else if Closes(s, t, '"', false, k - 1) then -1
    else t
  }

  /** The brackets like the one at `d` that are open at `k`, those in literals not counted. */
  function Open(s: string, d: nat, k: nat): int
    requires d < |s| && d <= k <= |s|
  {
    if k == d then 0 else
    Open(s, d, k - 1)
    + (if TextAt(s, d, k - 1) >= 0 then 0 else if s[k - 1] == s[d] then 1
       else if s[k - 1] == CloserOf(s[d]) then -1 else 0)
  }

  /** The bracket at `k` closes the one at `d`. */
  predicate ClosesDatum(s: string, d: nat, k: nat) {
    d < k < |s| && TextAt(s, d, k) < 0 && s[k] == CloserOf(s[d]) && Open(s, d, k) == 1
  }

  /** The datum whose bracket stands at `d` ends past the first bracket that closes it, or
    * with the source. */
  predicate DatumEndsAt(s: string, d: nat, e: nat) {
    || (d + 1 < e && ClosesDatum(s, d, e - 1) && forall k | d < k < e - 1 :: !ClosesDatum(s, d, k))
    || (e == |s| && forall k | d < k < |s| :: !ClosesDatum(s, d, k))
  }

  lemma DatumEndUnique(s: string, d: nat, e: nat, e': nat)
    requires DatumEndsAt(s, d, e) && DatumEndsAt(s, d, e')
    ensures e == e'
  {
  }

  /** Past the bracket that closes the datum being read at `j`, `depth` of its kind open,
    * or the end. */
  function DatumStop(s: string, j: nat, open: char, depth: int): (k: nat)
    requires j <= |s|
    ensures j <= k <= |s|
    decreases |s| - j
  {
    if j == |s| then j
    else if s[j] == '"' then DatumStop(s, LiteralEnd(s, j + 1), open, depth)
    else if s[j] == open then DatumStop(s, j + 1, open, depth + 1)
    else if s[j] == CloserOf(open) then (if depth == 1 then j + 1 else DatumStop(s, j + 1, open, depth - 1))
    else DatumStop(s, j + 1, open, depth)
  }

  /** A literal does not change what is open. */
  lemma {:induction false} InLiteral(s: string, d: nat, j: nat, t: nat, k: nat)
    requires d < j < k <= |s| && TextAt(s, d, j) < 0 && s[j] == '"' && s[d] in "([" && t == j + 1
    requires forall m | j < m < k :: !Closes(s, t, '"', false, m)
    ensures TextAt(s, d, k) == t && Open(s, d, k) == Open(s, d, j)
    ensures forall m | j <= m < k :: !ClosesDatum(s, d, m)
    decreases k - j
  {
    if k > j + 1 { InLiteral(s, d, j, t, k - 1); }
  }

  lemma LiteralClosed(s: string, d: nat, j: nat, e: nat)
    requires d < j < e - 1 < |s| && TextAt(s, d, j) < 0 && s[j] == '"' && s[d] in "(["
    requires Closes(s, j + 1, '"', false, e - 1) && s[e - 1] == '"'
    requires var t := j + 1; forall m | t <= m < e - 1 :: !Closes(s, t, '"', false, m)
    ensures TextAt(s, d, e) < 0 && Open(s, d, e) == Open(s, d, j)
    ensures forall m | j <= m < e :: !ClosesDatum(s, d, m)
  {
    InLiteral(s, d, j, j + 1, e - 1);
  }

  lemma PastLiteral(s: string, d: nat, j: nat)
    requires d < j < |s| && TextAt(s, d, j) < 0 && s[j] == '"' && s[d] in "(["
    ensures var e := LiteralEnd(s, j + 1);
            && (e < |s| ==> TextAt(s, d, e) < 0 && Open(s, d, e) == Open(s, d, j))
            && forall m | j <= m < e :: !ClosesDatum(s, d, m)
  {
    var t, e := j + 1, LiteralEnd(s, j + 1);
    QuoteStopIs(s, t, '"', false);
    if exists k :: t <= k < |s| && Closes(s, t, '"', false, k) {
      LiteralClosed(s, d, j, e);
    } else {
      InLiteral(s, d, j, t, e);
    }
  }

  lemma {:induction false} DatumStopFrom(s: string, d: nat, j: nat, depth: int)
    requires d < j <= |s| && s[d] in "([" && (j < |s| ==> TextAt(s, d, j) < 0 && depth == Open(s, d, j))
    requires forall k | d < k < j :: !ClosesDatum(s, d, k)
    ensures DatumEndsAt(s, d, DatumStop(s, j, s[d], depth))
    decreases |s| - j
  {
    if j < |s| {
      if s[j] == '"' {
        PastLiteral(s, d, j);
        DatumStopFrom(s, d, LiteralEnd(s, j + 1), depth);
      } else if s[j] == s[d] {
        DatumStopFrom(s, d, j + 1, depth + 1);
      } else if s[j] == CloserOf(s[d]) {
        if depth == 1 {
          assert ClosesDatum(s, d, j);
        } else {
          DatumStopFrom(s, d, j + 1, depth - 1);
        }
      } else {
        DatumStopFrom(s, d, j + 1, depth);
      }
    }
  }

  /** At the closing quote of the string inside a datum that opens before `i`. */
  method InnerStringEnd(s: string, i: nat) returns (j: nat)
    requires i <= |s|
    ensures i <= j && LiteralEnd(s, i) == Min(j + 1, |s|)
  {
    j := i;
    while j < |s| && s[j] != '"'
      invariant i <= j
      invariant LiteralEnd(s, Min(j, |s|)) == LiteralEnd(s, i)
    {
      if s[j] == '\\' { j := j + 1; }
      j := j + 1;
    }
  }

  method PastDatum(s: string, d: nat) returns (j: nat)
    requires d < |s| && s[d] in "(["
    ensures j == DatumStop(s, d, s[d], 0)
  {
    var open, close, depth := s[d], CloserOf(s[d]), 0;
    j := d;
    while j < |s|
      invariant d <= j
      invariant DatumStop(s, Min(j, |s|), open, depth) == DatumStop(s, d, open, 0)
    {
      if s[j] == '"' {
        j := InnerStringEnd(s, j + 1);
      } else if s[j] == open {
        depth := depth + 1;
      } else if s[j] == close {
        depth := depth - 1;
        if depth == 0 { return j + 1; }
      }
      j := j + 1;
    }
    j := Min(j, |s|);
  }

  /** Past the datum whose bracket stands at `d`. */
  method BracketedEnd(s: string, d: nat) returns (j: nat)
    requires d < |s| && s[d] in "(["
    ensures d < j <= |s| && DatumEndsAt(s, d, j)
  {
    j := PastDatum(s, d);
    assert TextAt(s, d, d + 1) < 0 && Open(s, d, d + 1) == 1;
    DatumStopFrom(s, d, d + 1, 1);
  }
}
