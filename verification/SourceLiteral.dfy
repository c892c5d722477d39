/** Embedding a path in a generated string literal (src/source_literal.h, lines 38-59), for
  * the reader that takes it in (src/compiler/reader.c, lines 373-395). */
module SourceLiteral {
  import opened Wrappers
  import opened CStrings

  predicate NeedsEscape(c: char) { c == '\\' || c == '"' }

  function EscapeChar(c: char): string { if NeedsEscape(c) then ['\\', c] else [c] }

  function Escape(s: string): string {
    if s == "" then "" else EscapeChar(s[0]) + Escape(s[1..])
  }

  /** What a backslash and a character stand for; nothing else may follow a backslash. */
  function Unescape(c: char): Option<char> {
    if c == 'n' then Some('\n') else if c == 't' then Some('\t') else if c == 'r' then Some('\r')
    else if c == '0' then Some('\0') else if c == '\\' then Some('\\') else if c == '"' then Some('"')
    else None
  }

  /** How the reader of a string literal takes what stands after the opening quote: the
    * value and what follows the closing quote. */
  function ReadLiteral(s: string, acc: string): Option<(string, string)> {
    if s == "" then None
    else if s[0] == '"' then Some((acc, s[1..]))
    else if s[0] == '\\' then
      if |s| > 1 && Unescape(s[1]).Some? then ReadLiteral(s[2..], acc + [Unescape(s[1]).value]) else None
    else ReadLiteral(s[1..], acc + [s[0]])
  }

  /** Pasted between quotes, an escaped path reads back as the path, and the literal ends
    * at its own closing quote. */
  lemma {:induction false} EscapeRoundTrip(s: string, rest: string, acc: string)
    ensures ReadLiteral(Escape(s) + ("\"" + rest), acc) == Some((acc + s, rest))
  {
    var closing := "\"" + rest;
    if s == "" {
      assert Escape(s) + closing == closing && acc + s == acc;
    } else {
      var tail := Escape(s[1..]) + closing;
      assert Escape(s) + closing == EscapeChar(s[0]) + tail;
      assert (EscapeChar(s[0]) + tail)[|EscapeChar(s[0])|..] == tail;
      EscapeRoundTrip(s[1..], rest, acc + [s[0]]);
      assert acc + [s[0]] + s[1..] == acc + s;
    }
  }

  lemma {:induction false} EscapeAppend(a: string, b: string)
    ensures Escape(a + b) == Escape(a) + Escape(b)
  {
    if a == "" {
      assert a + b == b;
    } else {
      assert (a + b)[1..] == a[1..] + b;
      EscapeAppend(a[1..], b);
    }
  }

  /** One more character makes the escape longer by one or two. */
  lemma EscapeNext(s: string, n: nat)
    requires n < |s|
    ensures Escape(s[..n + 1]) == Escape(s[..n]) + EscapeChar(s[n])
  {
    EscapeAppend(s[..n], [s[n]]);
    assert s[..n] + [s[n]] == s[..n + 1];
    assert Escape([s[n]]) == EscapeChar(s[n]) + Escape("");
  }

  lemma {:induction false} EscapeMonotone(s: string, m: nat, n: nat)
    requires m <= n <= |s|
    ensures |Escape(s[..m])| + (n - m) <= |Escape(s[..n])|
  {
    if m < n {
      EscapeMonotone(s, m, n - 1);
      EscapeNext(s, n - 1);
    }
  }

  /** `n` is the length of the longest prefix whose escape, with its NUL, fits in `cap`. */
  ghost predicate LongestFit(s: string, n: nat, cap: nat) {
    n <= |s| && forall m | 0 <= m <= |s| :: |Escape(s[..m])| < cap <==> m <= n
  }

  lemma LongestFitBy(s: string, n: nat, cap: nat)
    requires n <= |s| && |Escape(s[..n])| < cap
    requires n == |s| || |Escape(s[..n + 1])| >= cap
    ensures LongestFit(s, n, cap)
  {
    forall m | 0 <= m <= |s|
      ensures |Escape(s[..m])| < cap <==> m <= n
    {
      if m <= n { EscapeMonotone(s, m, n); } else { EscapeMonotone(s, n + 1, m); }
    }
  }

  /** What is left in `out` is the escape of the longest prefix that fits, so never half
    * of one, and the answer is whether that is the whole input. */
  method SourceLiteralEscape(input: array<char>, out: array<char>, cap: nat) returns (ok: bool, ghost fit: nat)
    requires IsCString(input) && input != out && cap <= out.Length
    modifies out
    ensures cap == 0 ==> !ok && out[..] == old(out[..])
    ensures cap > 0 ==>
              && LongestFit(Text(input), fit, cap)
              && (ok <==> fit == |Text(input)|)
              && var e := Escape(Text(input)[..fit]); out[..|e|] == e && out[|e|] == '\0'
    ensures forall k | cap <= k < out.Length :: out[k] == old(out[k])
  {
    ghost var text := Text(input);
    var o, p := 0, 0;
    fit := 0;
    if cap == 0 { return false, 0; }
    assert text[..0] == "";
    while input[p] != '\0'
      invariant 0 <= p <= |text| && 0 <= o < cap
      invariant IsCString(input) && Text(input) == text
      invariant out[..o] == Escape(text[..p])
      invariant forall k | cap <= k < out.Length :: out[k] == old(out[k])
      decreases |text| - p
    {
      var c := input[p];
      ghost var before := out[..o];
      EscapeNext(text, p);
      if NeedsEscape(c) {
        if o + 2 >= cap {
          out[o] := '\0';
          LongestFitBy(text, p, cap);
          assert out[..o] == before;
          return false, p;
        }
        out[o] := '\\';
        o := o + 1;
      } else if o + 1 >= cap {
        out[o] := '\0';
        LongestFitBy(text, p, cap);
        assert out[..o] == before;
        return false, p;
      }
      out[o] := c;
      o := o + 1;
      assert out[..o] == before + EscapeChar(c);
      p := p + 1;
    }
    assert text[..p] == text;
    LongestFitBy(text, p, cap);
    ghost var before := out[..o];
    out[o] := '\0';
    assert out[..o] == before;
    return true, p;
  }
}
