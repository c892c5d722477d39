/** The markup of the guides' highlighters and its reader (tools/genguides.py, lines 516-523). */
module Markup {
  import opened Wrappers
  import opened Strings

  datatype Class = KeywordClass | StringClass | CommentClass | TypeClass | NumberClass

  function NameOf(c: Class): string {
    match c
    case KeywordClass => "keyword"
    case StringClass => "string"
    case CommentClass => "comment"
    case TypeClass => "type"
    case NumberClass => "number"
  }

  /** A stretch of the source, in a span of some class or in none. */
  datatype Piece = Piece(cls: Option<Class>, text: string)

  function EscChar(c: char): string {
    if c == '&' then "&amp;" else if c == '<' then "&lt;" else if c == '>' then "&gt;" else [c]
  }

  function Esc(s: string): string { if s == "" then "" else EscChar(s[0]) + Esc(s[1..]) }

  function Span(c: Class, s: string): string { "<span class=\"hl-" + (NameOf(c) + "\">") + Esc(s) + "</span>" }

  function Show(p: Piece): string { if p.cls.Some? then Span(p.cls.value, p.text) else Esc(p.text) }

  function TextOf(p: Piece): string { p.text }

  ghost function Fold(ps: seq<Piece>, f: Piece -> string): string {
    if ps == [] then "" else Fold(ps[..|ps| - 1], f) + f(ps[|ps| - 1])
  }

  /** The markup of pieces, and their text. */
  ghost function Shown(ps: seq<Piece>): string { Fold(ps, Show) }

  ghost function Text(ps: seq<Piece>): string { Fold(ps, TextOf) }

  lemma {:induction false} FoldAppend(ps: seq<Piece>, qs: seq<Piece>, f: Piece -> string)
    ensures Fold(ps + qs, f) == Fold(ps, f) + Fold(qs, f)
  {
    if qs == [] {
      assert ps + qs == ps;
    } else {
      assert (ps + qs)[..|ps + qs| - 1] == ps + qs[..|qs| - 1];
      FoldAppend(ps, qs[..|qs| - 1], f);
    }
  }

  lemma PieceSnoc(ps: seq<Piece>, p: Piece)
    ensures Shown(ps + [p]) == Shown(ps) + Show(p) && Text(ps + [p]) == Text(ps) + p.text
  {
    assert (ps + [p])[..|ps|] == ps;
  }

  lemma ShownOne(p: Piece)
    ensures Shown([p]) == Show(p)
  {
    PieceSnoc([], p);
    assert [] + [p] == [p] && "" + Show(p) == Show(p);
  }

  /** The tag of each class, in full. */
  function OpenTag(c: Class): string {
    match c
    case KeywordClass => "<span class=\"hl-keyword\">"
    case StringClass => "<span class=\"hl-string\">"
    case CommentClass => "<span class=\"hl-comment\">"
    case TypeClass => "<span class=\"hl-type\">"
    case NumberClass => "<span class=\"hl-number\">"
  }

  lemma SpanIs(c: Class, s: string)
    ensures Span(c, s) == OpenTag(c) + Esc(s) + "</span>"
  {
    assert "<span class=\"hl-" + (NameOf(c) + "\">") == OpenTag(c);
  }

  lemma {:induction false} EscAppend(a: string, b: string)
    ensures Esc(a + b) == Esc(a) + Esc(b)
  {
    if a == "" {
      assert a + b == b;
    } else {
      assert (a + b)[0] == a[0] && (a + b)[1..] == a[1..] + b;
      EscAppend(a[1..], b);
      ConcatAssoc(EscChar(a[0]), Esc(a[1..]), Esc(b));
    }
  }

  /** The entities, in full: the reserved characters and no others are escaped. */
  lemma EscIs(c: char)
    ensures Esc([c])
         == if c == '&' then "&amp;" else if c == '<' then "&lt;" else if c == '>' then "&gt;" else [c]
  {
    assert [c][1..] == "" && EscChar(c) + "" == EscChar(c);
  }

  /** What follows the first `>`. */
  function PastTag(s: string): Option<string>
    ensures PastTag(s).Some? ==> |PastTag(s).value| < |s|
  {
    if s == "" then None else if s[0] == '>' then Some(s[1..]) else PastTag(s[1..])
  }

  function Then(c: char, rest: Option<string>): Option<string> {
    if rest.Some? then Some([c] + rest.value) else None
  }

  /** The text content of markup: spans dropped, entities decoded. Nothing, if a span is
    * inside another, is not closed, or a reserved character stands outside of markup. */
  function Content(html: string, open: bool): Option<string>
    decreases |html|
  {
    if html == "" then (if open then None else Some(""))
    else if html[0] == '<' then
      if open then (if StartsWith(html, 0, "</span>") then Content(html[7..], false) else None)
      else if StartsWith(html, 0, "<span class=\"hl-") then
        var rest := PastTag(html[16..]);
        if rest.None? then None else Content(rest.value, true)
      else None
    else if html[0] == '>' then None
    else if html[0] == '&' then
      if StartsWith(html, 0, "&amp;") then Then('&', Content(html[5..], open))
      else if StartsWith(html, 0, "&lt;") then Then('<', Content(html[4..], open))
      else if StartsWith(html, 0, "&gt;") then Then('>', Content(html[4..], open))
      else None
    else Then(html[0], Content(html[1..], open))
  }

  function Before(s: string, rest: Option<string>): Option<string> {
    if rest.Some? then Some(s + rest.value) else None
  }

  lemma ContentChar(c: char, rest: string, open: bool)
    ensures Content(EscChar(c) + rest, open) == Then(c, Content(rest, open))
  {
    var e := EscChar(c);
    var html := e + rest;
    assert html[..|e|] == e && html[|e|..] == rest && html[0] == e[0];
    if c == '<' || c == '>' { assert html[1] != 'a'; }
    if c == '<' {
      assert !StartsWith(html, 0, "&amp;") by { assert |html| >= 5 ==> html[..5][1] == 'l'; }
    }
    if c == '>' {
      assert !StartsWith(html, 0, "&amp;") by { assert |html| >= 5 ==> html[..5][1] == 'g'; }
      assert !StartsWith(html, 0, "&lt;") by { assert html[..4][1] == 'g'; }
    }
  }

  lemma BeforeTwice(a: string, b: string, rest: Option<string>)
    ensures Before(a, Before(b, rest)) == Before(a + b, rest)
  {
    if rest.Some? { assert a + (b + rest.value) == a + b + rest.value; }
  }

  lemma {:induction false} ContentEsc(s: string, rest: string, open: bool)
    ensures Content(Esc(s) + rest, open) == Before(s, Content(rest, open))
  {
    if s == "" {
      assert Esc(s) + rest == rest;
      assert Content(rest, open).Some? ==> "" + Content(rest, open).value == Content(rest, open).value;
    } else {
      ContentEsc(s[1..], rest, open);
      ContentChar(s[0], Esc(s[1..]) + rest, open);
      assert Esc(s) + rest == EscChar(s[0]) + (Esc(s[1..]) + rest);
      BeforeTwice([s[0]], s[1..], Content(rest, open));
      assert [s[0]] + s[1..] == s;
    }
  }

  lemma {:induction false} PastTagIs(a: string, rest: string)
    requires '>' !in a
    ensures PastTag(a + ">" + rest) == Some(rest)
  {
    if a == "" {
      assert a + ">" + rest == ">" + rest && (">" + rest)[1..] == rest;
    } else {
      PastTagIs(a[1..], rest);
      assert (a + ">" + rest)[1..] == a[1..] + ">" + rest;
    }
  }

  lemma ContentOpen(c: Class, rest: string)
    ensures Content("<span class=\"hl-" + (NameOf(c) + "\">") + rest, false) == Content(rest, true)
  {
    var tag := "<span class=\"hl-";
    var name := NameOf(c) + "\"";
    var html := tag + (NameOf(c) + "\">") + rest;
    assert |tag| == 16 && html[..16] == tag && html[0] == '<';
    assert html[16..] == name + ">" + rest;
    PastTagIs(name, rest);
  }

  lemma ContentClose(rest: string)
    ensures Content("</span>" + rest, true) == Content(rest, false)
  {
    var html := "</span>" + rest;
    assert html[..7] == "</span>" && html[7..] == rest && html[0] == '<';
  }

  lemma ContentPiece(p: Piece, rest: string)
    ensures Content(Show(p) + rest, false) == Before(p.text, Content(rest, false))
  {
    if p.cls.None? {
      ContentEsc(p.text, rest, false);
    } else {
      var tag, e, close := "<span class=\"hl-" + (NameOf(p.cls.value) + "\">"), Esc(p.text), "</span>";
      assert Show(p) + rest == tag + (e + (close + rest));
      ContentOpen(p.cls.value, e + (close + rest));
      ContentEsc(p.text, close + rest, true);
      ContentClose(rest);
    }
  }

  lemma {:induction false} ContentPieces(ps: seq<Piece>, rest: string)
    ensures Content(Shown(ps) + rest, false) == Before(Text(ps), Content(rest, false))
  {
    if ps == [] {
      assert Shown(ps) + rest == rest;
      assert Content(rest, false).Some? ==> "" + Content(rest, false).value == Content(rest, false).value;
    } else {
      var init, last := ps[..|ps| - 1], ps[|ps| - 1];
      assert ps == init + [last];
      PieceSnoc(init, last);
      assert Shown(init) + Show(last) + rest == Shown(init) + (Show(last) + rest);
      ContentPieces(init, Show(last) + rest);
      ContentPiece(last, rest);
      BeforeTwice(Text(init), last.text, Content(rest, false));
    }
  }

  /** Reading shown pieces gives their text. */
  lemma ContentOfShown(ps: seq<Piece>)
    ensures Content(Shown(ps), false) == Some(Text(ps))
  {
    ContentPieces(ps, "");
    assert Shown(ps) + "" == Shown(ps) && Text(ps) + "" == Text(ps);
  }

  // ----- putting out -----

  /** The output shows the source up to `i`. */
  ghost predicate Shows(out: string, ps: seq<Piece>, code: string, i: nat) {
    i <= |code| && out == Shown(ps) && Text(ps) == code[..i]
  }

  /** Put out the source from `i` to `j`, in a span or not. */
  method Put(out: string, ghost ps: seq<Piece>, code: string, i: nat, j: nat, cls: Option<Class>)
    returns (out': string, ghost ps': seq<Piece>)
    requires Shows(out, ps, code, i) && i <= j <= |code|
    ensures Shows(out', ps', code, j) && ps' == ps + [Piece(cls, code[i..j])]
  {
    ghost var p := Piece(cls, code[i..j]);
    PieceSnoc(ps, p);
    assert code[..j] == code[..i] + code[i..j];
    match cls {
      case None => out' := out + Esc(code[i..j]);
      case Some(c) => out' := out + Span(c, code[i..j]);
    }
    ps' := ps + [p];
  }

  /** Put out what shows the source from `i` to `j`. */
  method Join(out: string, ghost ps: seq<Piece>, code: string, i: nat, j: nat, inner: string, ghost qs: seq<Piece>)
    returns (out': string, ghost ps': seq<Piece>)
    requires Shows(out, ps, code, i) && i <= j <= |code| && Shows(inner, qs, code[i..j], j - i)
    ensures Shows(out', ps', code, j) && ps' == ps + qs
  {
    FoldAppend(ps, qs, Show);
    FoldAppend(ps, qs, TextOf);
    assert Text(qs) == code[i..j] by { assert code[i..j][..j - i] == code[i..j]; }
    assert Text(ps + qs) == code[..j] by { assert code[..i] + code[i..j] == code[..j]; }
    out', ps' := out + inner, ps + qs;
  }
}
