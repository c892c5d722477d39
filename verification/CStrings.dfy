/** NUL-terminated strings and repetition, shared by the quoters. */
module CStrings {
  predicate IsCString(s: array<char>)
    reads s
  {
    s.Length > 0 && s[s.Length - 1] == '\0' && forall k | 0 <= k < s.Length - 1 :: s[k] != '\0'
  }

  ghost function Text(s: array<char>): string
    requires IsCString(s)
    reads s
  {
    s[..s.Length - 1]
  }

  function Repeat(c: char, n: nat): (r: string)
    ensures |r| == n && forall k | 0 <= k < n :: r[k] == c
  {
    if n == 0 then "" else [c] + Repeat(c, n - 1)
  }

  lemma {:induction false} RepeatAdd(c: char, m: nat, n: nat)
    ensures Repeat(c, m + n) == Repeat(c, m) + Repeat(c, n)
  {
    if m > 0 { RepeatAdd(c, m - 1, n); }
  }
}
