/** The one-pass migration of effect rows (tools/migrate-fx-rows.py, lines 55-152). */
module FxRows {
  import opened Wrappers
  import opened Strings

  /** Python's `str.isalpha` and `str.isalnum`. */
  datatype CharClass = CharClass(alpha: char -> bool, alnum: char -> bool)

  /** What the scan relies on: letters are alphanumeric, those of `fx` are letters, and
    * braces and hashes are neither. */
  ghost predicate Usual(cc: CharClass) {
    && (forall c | cc.alpha(c) :: cc.alnum(c))
    && cc.alpha('f') && cc.alnum('f') && cc.alnum('x')
    && !cc.alpha('{') && !cc.alnum('{') && !cc.alpha('#') && !cc.alnum('#')
  }

  // ----- the segments of a source -----

  datatype Segment =
    | Comment(text: string)
    | Literal(text: string)
    | Fence(text: string)
    | Tag(text: string)
    | Plain(c: char)
    | HashRow
    | AtRow
  {
    /** What stands in the source. */
    function Source(): string {
      match this
      case Comment(t) => t
      case Literal(t) => t
      case Fence(t) => t
      case Tag(t) => t
      case Plain(c) => [c]
      case HashRow => "#{"
      case AtRow => "@{"
    }

    /** What is written: only rows change. */
    function Target(): string {
      if HashRow? || AtRow? then "#fx{" else Source()
    }
  }

  function Sources(segs: seq<Segment>): string {
    if segs == [] then "" else segs[0].Source() + Sources(segs[1..])
  }

  function Targets(segs: seq<Segment>): string {
    if segs == [] then "" else segs[0].Target() + Targets(segs[1..])
  }

  function Count(segs: seq<Segment>, row: Segment): nat {
    if segs == [] then 0 else (if segs[0] == row then 1 else 0) + Count(segs[1..], row)
  }

  predicate TagChar(cc: CharClass, c: char) { cc.alnum(c) || c == '-' || c == '_' }

  function TagEnd(cc: CharClass, s: string, i: nat): (k: nat)
    requires i <= |s|
    ensures i <= k <= |s|
    decreases |s| - i
  {
    if i < |s| && TagChar(cc, s[i]) then TagEnd(cc, s, i + 1) else i
  }

  /** `@{` opens a row at the start and after white space, an open bracket or a comma. */
  predicate PrefixPosition(prev: Option<char>) { prev.None? || prev.value in " \t\r\n([{," }

  predicate IsRow(s: string, c: char) { |s| > 1 && s[0] == c && s[1] == '{' }

  /** The first segment of what is left, `prev` being the last character written. */
  function First(cc: CharClass, s: string, prev: Option<char>): (seg: Segment)
    requires s != ""
    ensures seg.Source() != "" && |seg.Source()| <= |s| && s[..|seg.Source()|] == seg.Source()
  {
    if s[0] == ';' then
      var j := Find(s, "\n", 0);
      Comment(if j == |s| then s else s[..j + 1])
    else if s[0] == '"' then Literal(s[..LiteralEnd(s, 1)])
    else if StartsWith(s, 0, "```") then
      var j := Find(s, "```", 3);
      Fence(if j == |s| then s else s[..j + 3])
    else if IsRow(s, '#') then HashRow
    else if IsRow(s, '@') && PrefixPosition(prev) then AtRow
    else if s[0] == '#' && |s| > 1 && cc.alpha(s[1]) then Tag(s[..TagEnd(cc, s, 1)])
    else Plain(s[0])
  }

  function LastOf(seg: Segment): Option<char> {
    var t := seg.Target();
    if t == "" then None else Some(t[|t| - 1])
  }

  function Segments(cc: CharClass, s: string, prev: Option<char>): seq<Segment> {
    if s == "" then [] else
    var seg := First(cc, s, prev);
    [seg] + Segments(cc, s[|seg.Source()|..], LastOf(seg))
  }

  // ----- what the segments are -----

  /** The first `pat` from `i` on ends at `e`, or there is none and the text does. */
  predicate EndsPast(s: string, pat: string, i: nat, e: nat) {
    if exists k :: i <= k < |s| && StartsWith(s, k, pat) then
      i <= e - |pat| && StartsWith(s, e - |pat|, pat) && forall k | i <= k < e - |pat| :: !StartsWith(s, k, pat)
    else e == |s|
  }

  /** No comment, literal, fence, row or tag begins a text. */
  predicate Ordinary(cc: CharClass, s: string, prev: Option<char>)
    requires s != ""
  {
    && s[0] !in ";\"" && !StartsWith(s, 0, "```") && !StartsWith(s, 0, "#{")
    && (StartsWith(s, 0, "@{") ==> !PrefixPosition(prev))
    && (s[0] == '#' && |s| > 1 ==> !cc.alpha(s[1]))
  }

  /** A segment stands at the beginning of a text, by its shape: a comment with its line
    * end, a literal with its escapes whole, a fence with its closing fence, a row, a tag
    * that is not a row, or one character of anything else. */
  predicate SegmentAt(cc: CharClass, s: string, prev: Option<char>, seg: Segment)
    requires s != ""
  {
    var n := |seg.Source()|;
    n <= |s| && s[..n] == seg.Source() &&
    match seg
    case Comment(_) => s[0] == ';' && EndsPast(s, "\n", 0, n)
    case Literal(_) => s[0] == '"' && QuoteEndsAt(s, 1, '"', false, n)
    case Fence(_) => StartsWith(s, 0, "```") && EndsPast(s, "```", 3, n)
    case HashRow => true
    case AtRow => PrefixPosition(prev)
    case Tag(_) =>
      && s[0] == '#' && |s| > 1 && cc.alpha(s[1]) && !StartsWith(s, 0, "#{") && n > 0
      && (forall k | 1 <= k < n :: TagChar(cc, s[k])) && (n < |s| ==> !TagChar(cc, s[n]))
    case Plain(_) => Ordinary(cc, s, prev)
  }

  /** A text is cut into the segments that stand one after another in it. */
  predicate Cut(cc: CharClass, s: string, prev: Option<char>, segs: seq<Segment>)
    decreases segs
  {
    if s == "" then segs == [] else
    segs != [] && SegmentAt(cc, s, prev, segs[0])
    && Cut(cc, s[|segs[0].Source()|..], LastOf(segs[0]), segs[1..])
  }

  lemma StartsWithTwo(s: string, a: char, b: char)
    ensures StartsWith(s, 0, [a, b]) <==> |s| > 1 && s[0] == a && s[1] == b
  {
    if |s| > 1 { assert s[0..2] == [s[0], s[1]]; }
  }

  lemma HeadsApart(s: string)
    requires s != ""
    ensures StartsWith(s, 0, "#{") <==> IsRow(s, '#')
    ensures StartsWith(s, 0, "@{") <==> IsRow(s, '@')
    ensures StartsWith(s, 0, "```") ==> s[0] == '`'
  {
    StartsWithTwo(s, '#', '{');
    StartsWithTwo(s, '@', '{');
    if StartsWith(s, 0, "```") { assert s[0..3][0] == s[0]; }
  }

  lemma PastFirst(s: string, pat: string, i: nat)
    requires i <= |s| && pat != ""
    ensures var j := Find(s, pat, i); EndsPast(s, pat, i, if j == |s| then |s| else j + |pat|)
  {
    var j := Find(s, pat, i);
    forall k | i <= k < j
      ensures !StartsWith(s, k, pat)
    {
      FindFirst(s, pat, i, k);
    }
  }

  lemma {:induction false} TagRun(cc: CharClass, s: string, i: nat)
    requires i <= |s|
    ensures var n := TagEnd(cc, s, i);
            (forall k | i <= k < n :: TagChar(cc, s[k])) && (n < |s| ==> !TagChar(cc, s[n]))
    decreases |s| - i
  {
    if i < |s| && TagChar(cc, s[i]) { TagRun(cc, s, i + 1); }
  }

  lemma FirstIsSegment(cc: CharClass, s: string, prev: Option<char>)
    requires s != ""
    ensures SegmentAt(cc, s, prev, First(cc, s, prev))
  {
    HeadsApart(s);
    if s[0] == ';' {
      PastFirst(s, "\n", 0);
    } else if s[0] == '"' {
      QuoteStopIs(s, 1, '"', false);
    } else if StartsWith(s, 0, "```") {
      PastFirst(s, "```", 3);
    } else {
      TagRun(cc, s, 1);
    }
  }

  lemma SegmentUnique(cc: CharClass, s: string, prev: Option<char>, seg: Segment, seg': Segment)
    requires s != "" && SegmentAt(cc, s, prev, seg) && SegmentAt(cc, s, prev, seg')
    ensures seg == seg'
  {
    HeadsApart(s);
    if seg.Literal? && seg'.Literal? { QuoteEndUnique(s, 1, '"', false, |seg.text|, |seg'.text|); }
  }

  lemma {:induction false} SegmentsAreCut(cc: CharClass, s: string, prev: Option<char>)
    ensures Cut(cc, s, prev, Segments(cc, s, prev))
  {
    if s != "" {
      var seg := First(cc, s, prev);
      FirstIsSegment(cc, s, prev);
      SegmentsAreCut(cc, s[|seg.Source()|..], LastOf(seg));
    }
  }

  /** A text can be cut in one way. */
  lemma {:induction false} CutUnique(cc: CharClass, s: string, prev: Option<char>, segs: seq<Segment>)
    requires Cut(cc, s, prev, segs)
    ensures segs == Segments(cc, s, prev)
  {
    if s != "" {
      var seg := segs[0];
      FirstIsSegment(cc, s, prev);
      SegmentUnique(cc, s, prev, seg, First(cc, s, prev));
      CutUnique(cc, s[|seg.Source()|..], LastOf(seg), segs[1..]);
    }
  }

  // ----- the scan loses nothing and changes only rows -----

  /** The segments are the source, in order. */
  lemma {:induction false} SegmentsAreSource(cc: CharClass, s: string, prev: Option<char>)
    ensures Sources(Segments(cc, s, prev)) == s
  {
    if s != "" {
      var seg := First(cc, s, prev);
      SegmentsAreSource(cc, s[|seg.Source()|..], LastOf(seg));
    }
  }

  /** Each row makes the text two characters longer, and nothing else does. */
  lemma {:induction false} TwoPerRow(segs: seq<Segment>)
    ensures |Targets(segs)| == |Sources(segs)| + 2 * (Count(segs, HashRow) + Count(segs, AtRow))
  {
    if segs != [] { TwoPerRow(segs[1..]); }
  }

  // ----- what a second pass sees -----

  /** A row has become a tag and a brace; every other segment is as it was. */
  function Migrated(segs: seq<Segment>): seq<Segment> {
    if segs == [] then [] else
    (if segs[0].HashRow? || segs[0].AtRow? then [Tag("#fx"), Plain('{')] else [segs[0]]) + Migrated(segs[1..])
  }

  /** The text migrated from `s` is empty when `s` is, and otherwise begins as `s` does
    * unless with the hash of a migrated row. */
  ghost predicate HeadKept(s: string, t: string) {
    (s == "" <==> t == "") && (s != "" ==> t[0] == s[0] || (s[0] == '@' && t[0] == '#'))
  }

  lemma TargetsHead(cc: CharClass, s: string, prev: Option<char>)
    ensures HeadKept(s, Targets(Segments(cc, s, prev)))
  {
    if s != "" {
      var seg := First(cc, s, prev);
      assert s[..|seg.Source()|][0] == s[0];
    }
  }

  /** Two backquotes at the start of the migrated text stood there before. */
  lemma TicksKept(cc: CharClass, s: string, prev: Option<char>)
    requires StartsWith(Targets(Segments(cc, s, prev)), 0, "``")
    ensures StartsWith(s, 0, "``")
  {
    var t := Targets(Segments(cc, s, prev));
    assert t[0..2][0] == t[0] && t[0..2][1] == t[1];
    TargetsHead(cc, s, prev);
    if StartsWith(s, 0, "```") {
      assert s[0..2] == s[0..3][..2];
    } else {
      var seg := First(cc, s, prev);
      assert seg == Plain('`');
      TargetsHead(cc, s[1..], LastOf(seg));
      assert t[1] == Targets(Segments(cc, s[1..], LastOf(seg)))[0];
    }
  }

  lemma SameSlice(s: string, t: string, n: nat, a: nat, b: nat)
    requires a <= b <= n <= |s| && n <= |t| && t[..n] == s[..n]
    ensures t[a..b] == s[a..b]
  {
    assert t[a..b] == t[..n][a..b] && s[a..b] == s[..n][a..b];
  }

  lemma SameStart(s: string, t: string, pat: string, n: nat, i: nat)
    requires i + |pat| <= n <= |s| && n <= |t| && t[..n] == s[..n]
    ensures StartsWith(t, i, pat) == StartsWith(s, i, pat)
  {
    SameSlice(s, t, n, i, i + |pat|);
  }

  lemma {:induction false} FindInPrefix(s: string, t: string, pat: string, i: nat)
    requires i <= |s| && pat != ""
    requires var k := Find(s, pat, i); k < |s| && |t| >= k + |pat| && t[..k + |pat|] == s[..k + |pat|]
    ensures Find(t, pat, i) == Find(s, pat, i)
    decreases |s| - i
  {
    var k := Find(s, pat, i);
    SameStart(s, t, pat, k + |pat|, i);
    if i < k { FindInPrefix(s, t, pat, i + 1); }
  }

  lemma {:induction false} LiteralEndInPrefix(s: string, t: string, i: nat)
    requires i <= |s|
    requires var k := LiteralEnd(s, i); k < |s| && |t| >= k && t[..k] == s[..k]
    ensures i <= |t| && LiteralEnd(t, i) == LiteralEnd(s, i)
    decreases |s| - i
  {
    var k := LiteralEnd(s, i);
    assert i < k ==> t[..k][i] == s[..k][i];
    if s[i] == '\\' && i + 1 < |s| {
      LiteralEndInPrefix(s, t, i + 2);
    } else if s[i] != '"' {
      LiteralEndInPrefix(s, t, i + 1);
    }
  }

  lemma {:induction false} TagEndInPrefix(cc: CharClass, s: string, t: string, i: nat)
    requires i <= |s|
    requires var k := TagEnd(cc, s, i); |t| >= k && t[..k] == s[..k] && (k < |t| ==> !TagChar(cc, t[k]))
    ensures TagEnd(cc, t, i) == TagEnd(cc, s, i)
    decreases |s| - i
  {
    var k := TagEnd(cc, s, i);
    if i < k {
      assert t[..k][i] == s[..k][i];
      TagEndInPrefix(cc, s, t, i + 1);
    }
  }

  lemma TagStops(cc: CharClass, s: string, i: nat)
    requires i <= |s|
    ensures TagEnd(cc, s, i) < |s| ==> !TagChar(cc, s[TagEnd(cc, s, i)])
    decreases |s| - i
  {
  }

  /** A segment other than a row is the first segment of its own text followed by the
    * migrated rest. */
  lemma FirstAgain(cc: CharClass, s: string, prev: Option<char>)
    requires Usual(cc) && s != ""
    requires var seg := First(cc, s, prev); !seg.HashRow? && !seg.AtRow?
    ensures var seg := First(cc, s, prev);
            var rest := Targets(Segments(cc, s[|seg.Source()|..], LastOf(seg)));
            First(cc, seg.Source() + rest, prev) == seg
  {
    var seg := First(cc, s, prev);
    var n := |seg.Source()|;
    var rest := Targets(Segments(cc, s[n..], LastOf(seg)));
    TargetsHead(cc, s[n..], LastOf(seg));
    if n == |s| {
      assert seg.Source() + rest == s;
    } else {
      match seg
      case Comment(_) => CommentAgain(cc, s, prev, rest);
      case Literal(_) => LiteralAgain(cc, s, prev, rest);
      case Fence(_) => FenceAgain(cc, s, prev, rest);
      case Tag(_) => TagAgain(cc, s, prev, rest);
      case Plain(_) => PlainAgain(cc, s, prev);
    }
  }

  lemma CommentAgain(cc: CharClass, s: string, prev: Option<char>, rest: string)
    requires s != "" && First(cc, s, prev).Comment? && |First(cc, s, prev).Source()| < |s|
    ensures First(cc, First(cc, s, prev).Source() + rest, prev) == First(cc, s, prev)
  {
    var text := First(cc, s, prev).text;
    assert (text + rest)[..|text|] == s[..|text|];
    assert (text + rest)[0] == s[0];
    FindInPrefix(s, text + rest, "\n", 0);
  }

  lemma LiteralAgain(cc: CharClass, s: string, prev: Option<char>, rest: string)
    requires s != "" && First(cc, s, prev).Literal? && |First(cc, s, prev).Source()| < |s|
    ensures First(cc, First(cc, s, prev).Source() + rest, prev) == First(cc, s, prev)
  {
    var text := First(cc, s, prev).text;
    assert (text + rest)[..|text|] == s[..|text|];
    assert (text + rest)[0] == s[0];
    LiteralEndInPrefix(s, text + rest, 1);
  }

  lemma FenceAgain(cc: CharClass, s: string, prev: Option<char>, rest: string)
    requires s != "" && First(cc, s, prev).Fence? && |First(cc, s, prev).Source()| < |s|
    ensures First(cc, First(cc, s, prev).Source() + rest, prev) == First(cc, s, prev)
  {
    var text := First(cc, s, prev).text;
    var t := text + rest;
    var j := Find(s, "```", 3);
    assert text == s[..j + 3];
    assert t[..j + 3] == s[..j + 3];
    assert t[0..3] == s[..j + 3][0..3] == s[0..3];
    FindInPrefix(s, t, "```", 3);
  }

  lemma TagAgain(cc: CharClass, s: string, prev: Option<char>, rest: string)
    requires Usual(cc) && s != "" && First(cc, s, prev).Tag?
    requires HeadKept(s[|First(cc, s, prev).Source()|..], rest)
    ensures First(cc, First(cc, s, prev).Source() + rest, prev) == First(cc, s, prev)
  {
    var text := First(cc, s, prev).text;
    var t := text + rest;
    var k := TagEnd(cc, s, 1);
    assert text == s[..k] && t[..k] == s[..k];
    TagStops(cc, s, 1);
    if k < |s| { assert s[k..][0] == s[k] && t[k] == rest[0]; }
    assert TagChar(cc, s[1]);
    assert t[..k][0] == s[0] && t[..k][1] == s[1];
    TagEndInPrefix(cc, s, t, 1);
    assert !StartsWith(t, 0, "```") by { assert t[0] == '#'; if |t| >= 3 { assert t[0..3][0] == '#'; } }
  }

  /** A plain backquote does not become the start of a fence. */
  lemma NoNewFence(cc: CharClass, s: string, prev: Option<char>)
    requires |s| > 1 && !StartsWith(s, 0, "```")
    ensures !StartsWith([s[0]] + Targets(Segments(cc, s[1..], prev)), 0, "```")
  {
    var rest := Targets(Segments(cc, s[1..], prev));
    var t := [s[0]] + rest;
    if |s| >= 3 { assert s[0..3] == [s[0]] + s[1..][0..2]; }
    if StartsWith(t, 0, "```") {
      assert t[0..3][0] == s[0] && t[0..3][1..] == rest[0..2];
      TicksKept(cc, s[1..], prev);
    }
  }

  lemma PlainAgain(cc: CharClass, s: string, prev: Option<char>)
    requires Usual(cc) && |s| > 1 && First(cc, s, prev).Plain?
    ensures var rest := Targets(Segments(cc, s[1..], LastOf(First(cc, s, prev))));
            First(cc, [s[0]] + rest, prev) == First(cc, s, prev)
  {
    var last := LastOf(First(cc, s, prev));
    var rest := Targets(Segments(cc, s[1..], last));
    TargetsHead(cc, s[1..], last);
    NoNewFence(cc, s, last);
    PlainByHead(cc, s, rest, prev);
  }

  lemma PlainByHead(cc: CharClass, s: string, rest: string, prev: Option<char>)
    requires Usual(cc) && |s| > 1 && First(cc, s, prev) == Plain(s[0])
    requires HeadKept(s[1..], rest) && !StartsWith([s[0]] + rest, 0, "```")
    ensures First(cc, [s[0]] + rest, prev) == Plain(s[0])
  {
    var t := [s[0]] + rest;
    assert t[0] == s[0] && t[1] == rest[0] && s[1..][0] == s[1];
    assert s[0] != ';' && s[0] != '"';
    assert s[1] == '{' ==> t[1] == '{';
  }

  /** A row is read again as the tag `#fx`, */
  lemma RowTagAgain(cc: CharClass, rest: string, prev: Option<char>)
    requires Usual(cc)
    ensures First(cc, "#fx{" + rest, prev) == Tag("#fx")
  {
    var t := "#fx{" + rest;
    assert t[0] == '#' && t[1] == 'f' && t[2] == 'x' && t[3] == '{';
    assert t[0..3][0] == '#';
    assert TagEnd(cc, t, 3) == 3;
    assert TagEnd(cc, t, 2) == 3;
    assert TagEnd(cc, t, 1) == 3;
    assert t[..3] == "#fx";
  }

  /** and a brace. */
  lemma BraceAgain(cc: CharClass, rest: string, prev: Option<char>)
    ensures First(cc, "{" + rest, prev) == Plain('{')
  {
    var u := "{" + rest;
    assert u[0] == '{';
    assert |u| >= 3 ==> u[0..3][0] == '{';
  }

  lemma RowAgain(cc: CharClass, rest: string, prev: Option<char>)
    requires Usual(cc)
    ensures Segments(cc, "#fx{" + rest, prev) == [Tag("#fx"), Plain('{')] + Segments(cc, rest, Some('{'))
  {
    var t, u := "#fx{" + rest, "{" + rest;
    RowTagAgain(cc, rest, prev);
    BraceAgain(cc, rest, Some('x'));
    assert t[3..] == u && u[1..] == rest;
    assert LastOf(Tag("#fx")) == Some('x') && LastOf(Plain('{')) == Some('{');
    SegmentsBy(cc, u, Some('x'), Plain('{'), rest);
    SegmentsBy(cc, t, prev, Tag("#fx"), u);
  }

  lemma SegmentsBy(cc: CharClass, s: string, prev: Option<char>, seg: Segment, rest: string)
    requires s != "" && First(cc, s, prev) == seg && s[|seg.Source()|..] == rest
    ensures Segments(cc, s, prev) == [seg] + Segments(cc, rest, LastOf(seg))
  {
  }

  /** The second pass meets exactly the segments the first one wrote. */
  lemma {:induction false} SegmentsOfMigrated(cc: CharClass, s: string, prev: Option<char>)
    requires Usual(cc)
    ensures Segments(cc, Targets(Segments(cc, s, prev)), prev) == Migrated(Segments(cc, s, prev))
    decreases |s|
  {
    if s != "" {
      var seg := First(cc, s, prev);
      var s' := s[|seg.Source()|..];
      var rest := Targets(Segments(cc, s', LastOf(seg)));
      var t := Targets(Segments(cc, s, prev));
      assert t == seg.Target() + rest;
      SegmentsOfMigrated(cc, s', LastOf(seg));
      if seg.HashRow? || seg.AtRow? {
        RowAgain(cc, rest, prev);
      } else {
        FirstAgain(cc, s, prev);
        assert t[|seg.Source()|..] == rest;
      }
    }
  }

  lemma TagAndBrace(m: seq<Segment>)
    ensures var two := [Tag("#fx"), Plain('{')] + m;
            && Targets(two) == "#fx{" + Targets(m)
            && Count(two, HashRow) == Count(m, HashRow) && Count(two, AtRow) == Count(m, AtRow)
  {
    var two, one := [Tag("#fx"), Plain('{')] + m, [Plain('{')] + m;
    assert two[1..] == one && one[1..] == m;
    assert Targets(one) == "{" + Targets(m);
    assert Targets(two) == "#fx" + Targets(one);
  }

  lemma {:induction false} NothingLeft(segs: seq<Segment>)
    ensures Targets(Migrated(segs)) == Targets(segs)
    ensures Count(Migrated(segs), HashRow) == 0 && Count(Migrated(segs), AtRow) == 0
  {
    if segs != [] {
      NothingLeft(segs[1..]);
      var m := Migrated(segs[1..]);
      TagAndBrace(m);
      assert ([segs[0]] + m)[1..] == m;
    }
  }

  /** Migration copies everything but rows, and a row costs two characters. */
  lemma OnlyRowsChange(cc: CharClass, src: string)
    ensures var segs := Segments(cc, src, None);
            && Sources(segs) == src
            && |Targets(segs)| == |src| + 2 * (Count(segs, HashRow) + Count(segs, AtRow))
  {
    SegmentsAreSource(cc, src, None);
    TwoPerRow(Segments(cc, src, None));
  }

  /** Migration is idempotent: a second pass finds no row and changes nothing. */
  lemma Idempotent(cc: CharClass, src: string)
    requires Usual(cc)
    ensures var once := Targets(Segments(cc, src, None));
            var again := Segments(cc, once, None);
            Targets(again) == once && Count(again, HashRow) == 0 && Count(again, AtRow) == 0
  {
    SegmentsOfMigrated(cc, src, None);
    NothingLeft(Segments(cc, src, None));
  }

  // ----- the scan -----

  ghost function LastChar(out: string): Option<char> { if out == "" then None else Some(out[|out| - 1]) }

  lemma SegmentsStep(cc: CharClass, s: string, prev: Option<char>)
    requires s != ""
    ensures var seg := First(cc, s, prev);
            var n := |seg.Source()|;
            && n > 0 && s[..n] == seg.Source()
            && Segments(cc, s, prev) == [seg] + Segments(cc, s[n..], LastOf(seg))
  {
  }

  /** Copy a string literal: the quote, then up to its end with backslash pairs whole. */
  method CopyLiteral(src: string, start: nat) returns (i: nat, text: string)
    requires start < |src| && src[start] == '"'
    ensures text == src[start..][..LiteralEnd(src[start..], 1)] && i == start + |text|
    ensures QuoteEndsAt(src[start..], 1, '"', false, |text|)
  {
    ghost var s := src[start..];
    text, i := "\"", start + 1;
    while i < |src|
      invariant start + 1 <= i <= |src|
      invariant text == src[start..i]
      invariant LiteralEnd(s, i - start) == LiteralEnd(s, 1)
      decreases |src| - i
    {
      assert s[i - start] == src[i];
      if src[i] == '\\' && i + 1 < |src| {
        assert src[start..i] + src[i..i + 2] == src[start..i + 2];
        text, i := text + src[i..i + 2], i + 2;
        continue;
      }
      assert src[start..i] + [src[i]] == src[start..i + 1];
      text := text + [src[i]];
      if src[i] == '"' {
        i := i + 1;
        break;
      }
      i := i + 1;
    }
    assert src[start..i] == s[..i - start];
    QuoteStopIs(s, 1, '"', false);
  }

  method TagOf(cc: CharClass, src: string, i: nat) returns (j: nat)
    requires i < |src|
    ensures i < j <= |src| && j - i == TagEnd(cc, src[i..], 1)
  {
    ghost var s := src[i..];
    j := i + 1;
    while j < |src| && TagChar(cc, src[j])
      invariant i < j <= |src|
      invariant TagEnd(cc, s, j - i) == TagEnd(cc, s, 1)
    {
      assert s[j - i] == src[j];
      j := j + 1;
    }
    assert j < |src| ==> s[j - i] == src[j];
  }

  lemma {:induction false} TargetsSnoc(segs: seq<Segment>, seg: Segment)
    ensures Targets(segs + [seg]) == Targets(segs) + seg.Target()
  {
    if segs == [] {
      assert [seg][1..] == [] && segs + [seg] == [seg];
    } else {
      assert (segs + [seg])[1..] == segs[1..] + [seg];
      TargetsSnoc(segs[1..], seg);
    }
  }

  lemma {:induction false} CountSnoc(segs: seq<Segment>, seg: Segment, row: Segment)
    ensures Count(segs + [seg], row) == Count(segs, row) + if seg == row then 1 else 0
  {
    if segs == [] {
      assert [seg][1..] == [] && segs + [seg] == [seg];
    } else {
      assert (segs + [seg])[1..] == segs[1..] + [seg];
      CountSnoc(segs[1..], seg, row);
    }
  }

  /** `done` has been written as `out`, with its rows counted, and `left` is to come. */
  ghost predicate Progress(segs: seq<Segment>, done: seq<Segment>, left: seq<Segment>, out: string,
                           hashCount: nat, atCount: nat) {
    && segs == done + left && out == Targets(done)
    && hashCount == Count(done, HashRow) && atCount == Count(done, AtRow)
  }

  lemma ProgressStep(segs: seq<Segment>, done: seq<Segment>, seg: Segment, left: seq<Segment>, out: string,
                     hashCount: nat, atCount: nat)
    requires Progress(segs, done, [seg] + left, out, hashCount, atCount)
    ensures Progress(segs, done + [seg], left, out + seg.Target(), hashCount + (if seg == HashRow then 1 else 0),
                     atCount + (if seg == AtRow then 1 else 0))
  {
    TargetsSnoc(done, seg);
    CountSnoc(done, seg, HashRow);
    CountSnoc(done, seg, AtRow);
    assert done + ([seg] + left) == done + [seg] + left;
  }

  /** The rewritten text, and how many rows of each spelling were rewritten. */
  method RewriteText(cc: CharClass, src: string) returns (out: string, hashCount: nat, atCount: nat)
    ensures var segs := Segments(cc, src, None);
            && Cut(cc, src, None, segs) && out == Targets(segs)
            && hashCount == Count(segs, HashRow) && atCount == Count(segs, AtRow)
  {
    SegmentsAreCut(cc, src, None);
    ghost var segs := Segments(cc, src, None);
    ghost var done: seq<Segment> := [];
    out, hashCount, atCount := "", 0, 0;
    var i := 0;
    assert src[0..] == src;
    while i < |src|
      invariant 0 <= i <= |src|
      invariant Progress(segs, done, Segments(cc, src[i..], LastChar(out)), out, hashCount, atCount)
      decreases |src| - i
    {
      ghost var out0, hash0, at0 := out, hashCount, atCount;
      ghost var seg: Segment;
      i, out, hashCount, atCount, seg := CopySegment(cc, src, i, out, hashCount, atCount);
      ProgressStep(segs, done, seg, Segments(cc, src[i..], LastChar(out)), out0, hash0, at0);
      done := done + [seg];
    }
    assert src[i..] == "" && segs == done;
  }

  /** The segment at `i` of a source, and those after it. */
  lemma SegmentsAt(cc: CharClass, src: string, i: nat, prev: Option<char>, seg: Segment, i': nat, prev': Option<char>)
    requires i < |src| && seg == First(cc, src[i..], prev) && i' == i + |seg.Source()| && prev' == LastOf(seg)
    ensures i < i' <= |src| && Segments(cc, src[i..], prev) == [seg] + Segments(cc, src[i'..], prev')
  {
    SegmentsStep(cc, src[i..], prev);
    assert src[i..][|seg.Source()|..] == src[i'..];
  }

  /** One turn of the scan. */
  method CopySegment(cc: CharClass, src: string, i: nat, out: string, hashCount: nat, atCount: nat)
    returns (i': nat, out': string, hashCount': nat, atCount': nat, ghost seg: Segment)
    requires i < |src|
    ensures i < i' <= |src| && out' == out + seg.Target()
    ensures Segments(cc, src[i..], LastChar(out)) == [seg] + Segments(cc, src[i'..], LastChar(out'))
    ensures hashCount' == hashCount + (if seg == HashRow then 1 else 0)
    ensures atCount' == atCount + (if seg == AtRow then 1 else 0)
  {
    seg := First(cc, src[i..], LastChar(out));
    i', out' := CopyOpaque(cc, src, i, out);
    hashCount', atCount' := hashCount, atCount;
    if i' == i {
      i', out', hashCount', atCount' := CopyCode(cc, src, i, out, hashCount, atCount);
    }
    SegmentsAt(cc, src, i, LastChar(out), seg, i', LastChar(out'));
  }

  ghost predicate IsOpaque(seg: Segment) { seg.Comment? || seg.Literal? || seg.Fence? }

  /** Past the comment, the string literal or the fence at `i`, if there is one. */
  method OpaqueEnd(cc: CharClass, src: string, i: nat, ghost prev: Option<char>) returns (i': nat)
    requires i < |src|
    ensures var seg := First(cc, src[i..], prev);
            i <= i' <= |src| && if IsOpaque(seg) then src[i..i'] == seg.Source() else i' == i
  {
    ghost var s := src[i..];
    assert s[0] == src[i];
    i' := i;
    if src[i] == ';' {
      var j := Find(src[i..], "\n", 0);
      i' := if j == |src| - i then |src| else i + j + 1;
    } else if src[i] == '"' {
      var text;
      i', text := CopyLiteral(src, i);
    } else if StartsWith(src[i..], 0, "```") {
      var j := Find(src[i..], "```", 3);
      i' := if j == |src| - i then |src| else i + j + 3;
    }
    assert src[i..i'] == s[..i' - i];
  }

  lemma LastOfCopy(seg: Segment, out: string, text: string)
    requires if IsOpaque(seg) then text == seg.Source() && text != "" else text == ""
    ensures if IsOpaque(seg) then out + text == out + seg.Target() && LastChar(out + text) == LastOf(seg)
            else out + text == out
  {
  }

  /** Copy a comment, a string literal or a fence whole; stay put before anything else. */
  method CopyOpaque(cc: CharClass, src: string, i: nat, out: string) returns (i': nat, out': string)
    requires i < |src|
    ensures var seg := First(cc, src[i..], LastChar(out));
            if IsOpaque(seg) then
              i' == i + |seg.Source()| && out' == out + seg.Target() && LastChar(out') == LastOf(seg)
            else i' == i && out' == out
  {
    i' := OpaqueEnd(cc, src, i, LastChar(out));
    LastOfCopy(First(cc, src[i..], LastChar(out)), out, src[i..i']);
    out' := out + src[i..i'];
  }

  method CopyCode(cc: CharClass, src: string, i: nat, out: string, hashCount: nat, atCount: nat)
    returns (i': nat, out': string, hashCount': nat, atCount': nat)
    requires i < |src| && !IsOpaque(First(cc, src[i..], LastChar(out)))
    ensures var seg := First(cc, src[i..], LastChar(out));
            && i' == i + |seg.Source()| && out' == out + seg.Target() && LastChar(out') == LastOf(seg)
            && hashCount' == hashCount + (if seg == HashRow then 1 else 0)
            && atCount' == atCount + (if seg == AtRow then 1 else 0)
  {
    ghost var s := src[i..];
    var c := src[i];
    assert s[0] == c && (|s| > 1 ==> s[1] == src[i + 1]);
    hashCount', atCount' := hashCount, atCount;
    if c == '#' && i + 1 < |src| && src[i + 1] == '{' {
      return i + 2, out + "#fx{", hashCount + 1, atCount;
    }
    if c == '@' && i + 1 < |src| && src[i + 1] == '{' {
      if out == "" || out[|out| - 1] in " \t\r\n([{," {
        return i + 2, out + "#fx{", hashCount, atCount + 1;
      }
    }
    if c == '#' && i + 1 < |src| && cc.alpha(src[i + 1]) {
      i' := TagOf(cc, src, i);
      out' := out + src[i..i'];
      assert src[i..i'] == s[..i' - i];
      return;
    }
    i', out' := i + 1, out + [c];
  }
}
