/** Quoting arguments for the platform's shell, and reading them back
  * (src/platform_proc.h, lines 93-191). */
module ShellQuote {
  import opened Wrappers
  import opened CStrings
  import opened Strings

  // ----- what is written -----

  /** The quoted text of `s` when `bs` backslashes are pending: doubled before a quote
    * or the end, otherwise as they are. */
  function WindowsBody(s: string, bs: nat): string {
    if s == "" then Repeat('\\', 2 * bs)
    else if s[0] == '\\' then WindowsBody(s[1..], bs + 1)
    else if s[0] == '"' then Repeat('\\', 2 * bs + 1) + "\"" + WindowsBody(s[1..], 0)
    else Repeat('\\', bs) + [s[0]] + WindowsBody(s[1..], 0)
  }

  function WindowsQuoted(s: string): string { "\"" + WindowsBody(s, 0) + "\"" }

  /** A quote ends the quoting, is escaped, and begins it again. */
  function PosixChar(c: char): string { if c == '\'' then "'\\''" else [c] }

  function PosixBody(s: string): string {
    if s == "" then "" else PosixChar(s[0]) + PosixBody(s[1..])
  }

  function PosixQuoted(s: string): string { "'" + PosixBody(s) + "'" }

  /** Quoted arguments separated by one space. */
  function Join(quote: string -> string, args: seq<string>): string {
    if args == [] then "" else
    if |args| == 1 then quote(args[0]) else
    quote(args[0]) + " " + Join(quote, args[1..])
  }

  // ----- the readers -----

  predicate Blank(c: char) { c == ' ' || c == '\t' }

  function SkipBlanks(s: string): (r: string)
    ensures |r| <= |s| && (r != "" ==> !Blank(r[0]))
  {
    if s != "" && Blank(s[0]) then SkipBlanks(s[1..]) else s
  }

  /** The length of the run of backslashes `s` begins with. */
  function Backslashes(s: string): (n: nat)
    ensures n <= |s|
  {
    if s != "" && s[0] == '\\' then 1 + Backslashes(s[1..]) else 0
  }

  predicate Quote(s: string) { s != "" && s[0] == '"' }

  /** The rest of one argument, by the rules of Microsoft's "Parsing C command-line
    * arguments": an even run of backslashes before a quote stands for half as many and
    * the quote delimits, an odd run for half as many and the quote is literal, and
    * backslashes elsewhere are themselves; inside quotes a pair of quotes is one literal
    * quote; blanks end an argument outside quotes. */
  function CrtArgument(s: string, quoted: bool, acc: string): (r: (string, string))
    ensures |r.1| <= |s|
    decreases |s|
  {
    if s == "" then (acc, "") else
    var n := Backslashes(s);
    var rest := s[n..];
    if n > 0 then
      if rest != "" && rest[0] == '"' then
        if n % 2 == 0 then
          if quoted && Quote(rest[1..]) then CrtArgument(rest[2..], quoted, acc + Repeat('\\', n / 2) + "\"")
          else CrtArgument(rest[1..], !quoted, acc + Repeat('\\', n / 2))
        else CrtArgument(rest[1..], quoted, acc + Repeat('\\', n / 2) + "\"")
      else CrtArgument(rest, quoted, acc + Repeat('\\', n))
    else if s[0] == '"' then
      if quoted && Quote(s[1..]) then CrtArgument(s[2..], quoted, acc + "\"")
      else CrtArgument(s[1..], !quoted, acc)
    else if Blank(s[0]) && !quoted then (acc, s[1..])
    else CrtArgument(s[1..], quoted, acc + [s[0]])
  }

  /** The arguments of a command line, after the program's name. */
  function CrtArguments(s: string): seq<string>
    decreases |s|
  {
    var t := SkipBlanks(s);
    if t == "" then [] else
    var (arg, rest) := CrtFirst(t);
    [arg] + CrtArguments(rest)
  }

  /** The first argument: something is read, so what is left is shorter. */
  function CrtFirst(t: string): (r: (string, string))
    requires t != "" && !Blank(t[0])
    ensures |r.1| < |t|
  {
    var n := Backslashes(t);
    assert CrtArgument(t, false, "") ==
      if n > 0 then
        if t[n..] != "" && t[n..][0] == '"' then
          if n % 2 == 0 then CrtArgument(t[n..][1..], true, "" + Repeat('\\', n / 2))
          else CrtArgument(t[n..][1..], false, "" + Repeat('\\', n / 2) + "\"")
        else CrtArgument(t[n..], false, "" + Repeat('\\', n))
      else if t[0] == '"' then CrtArgument(t[1..], true, "")
      else CrtArgument(t[1..], false, "" + [t[0]]);
    CrtArgument(t, false, "")
  }

  /** Characters that mean something unquoted to the shell, besides blanks, quotes and
    * the backslash (section 2.2 of the POSIX.1-2017 Shell Command Language). */
  predicate Special(c: char) { c in "|&;<>()$`\"\n*?[#~=%!{}" }

  /** The rest of one word by sections 2.2.1, 2.2.2 and 2.3 of the POSIX.1-2017 Shell
    * Command Language, inside single quotes or not. The reader gives up on anything
    * else special, so a successful reading meets nothing unquoted but blanks, `\`
    * escapes and plain characters. */
  function ShellWord(s: string, quoted: bool, acc: string): (r: Option<(string, string)>)
    ensures r.Some? ==> |r.value.1| <= |s|
    decreases |s|
  {
    if s == "" then (if quoted then None else Some((acc, "")))
    else if quoted then
      if s[0] == '\'' then ShellWord(s[1..], false, acc) else ShellWord(s[1..], true, acc + [s[0]])
    else if Blank(s[0]) then Some((acc, s[1..]))
    else if s[0] == '\'' then ShellWord(s[1..], true, acc)
    else if s[0] == '\\' then
      if |s| == 1 then None
      else if s[1] == '\n' then ShellWord(s[2..], false, acc)
      else ShellWord(s[2..], false, acc + [s[1]])
    else if Special(s[0]) then None
    else ShellWord(s[1..], false, acc + [s[0]])
  }

  function ShellWords(s: string): Option<seq<string>>
    decreases |s|
  {
    var t := SkipBlanks(s);
    if t == "" then Some([]) else
    match ShellWord(t, false, "")
    case None => None
    case Some((word, rest)) =>
      if |rest| >= |t| then None else
      match ShellWords(rest)
      case None => None
      case Some(words) => Some([word] + words)
  }

  // ----- the Windows round trip -----

  lemma {:induction false} BackslashRun(n: nat, t: string)
    requires t == "" || t[0] != '\\'
    ensures Backslashes(Repeat('\\', n) + t) == n
  {
    if n > 0 {
      assert (Repeat('\\', n) + t)[1..] == Repeat('\\', n - 1) + t;
      BackslashRun(n - 1, t);
    } else {
      assert Repeat('\\', 0) + t == t;
    }
  }

  /** A run of backslashes before a quote. */
  lemma RunThenQuote(n: nat, t: string, quoted: bool, acc: string)
    requires n % 2 == 0 ==> !(quoted && Quote(t))
    ensures CrtArgument(Repeat('\\', n) + ("\"" + t), quoted, acc) ==
            if n % 2 == 0 then CrtArgument(t, !quoted, acc + Repeat('\\', n / 2))
            else CrtArgument(t, quoted, acc + Repeat('\\', n / 2) + "\"")
  {
    var q := "\"" + t;
    var s := Repeat('\\', n) + q;
    assert q[1..] == t;
    BackslashRun(n, q);
    assert s[n..] == q;
    if n == 0 { assert s == q && acc + Repeat('\\', 0) == acc; }
  }

  lemma EvenRun(n: nat, t: string, quoted: bool, acc: string)
    requires !(quoted && Quote(t))
    ensures CrtArgument(Repeat('\\', 2 * n) + ("\"" + t), quoted, acc) == CrtArgument(t, !quoted, acc + Repeat('\\', n))
  {
    RunThenQuote(2 * n, t, quoted, acc);
    assert 2 * n / 2 == n;
  }

  lemma OddRun(n: nat, t: string, quoted: bool, acc: string)
    ensures CrtArgument(Repeat('\\', 2 * n + 1) + ("\"" + t), quoted, acc)
         == CrtArgument(t, quoted, acc + Repeat('\\', n) + "\"")
  {
    RunThenQuote(2 * n + 1, t, quoted, acc);
    assert (2 * n + 1) / 2 == n;
  }

  /** A run of backslashes before any other character, inside quotes. */
  lemma RunThenPlain(n: nat, c: char, t: string, acc: string)
    requires c != '\\' && c != '"'
    ensures CrtArgument(Repeat('\\', n) + ([c] + t), true, acc) == CrtArgument(t, true, acc + Repeat('\\', n) + [c])
  {
    var p := [c] + t;
    assert p[1..] == t;
    BackslashRun(n, p);
    BackslashRun(0, p);
    assert Repeat('\\', 0) + p == p;
    var s := Repeat('\\', n) + p;
    assert s[n..] == p;
    if n == 0 { assert s == p && acc + Repeat('\\', 0) == acc; }
  }

  /** Inside the opening quote, the reader takes the quoted text for the pending
    * backslashes and `s`, and goes on after the closing quote. */
  lemma {:induction false} WindowsBodyRead(s: string, bs: nat, rest: string, acc: string)
    requires !Quote(rest)
    ensures CrtArgument(WindowsBody(s, bs) + ("\"" + rest), true, acc)
         == CrtArgument(rest, false, acc + Repeat('\\', bs) + s)
    decreases |s|
  {
    if s == "" {
      EvenRun(bs, rest, true, acc);
      assert acc + Repeat('\\', bs) + s == acc + Repeat('\\', bs);
    } else if s[0] == '\\' {
      PendingOne(acc, bs, s);
      WindowsBodyRead(s[1..], bs + 1, rest, acc);
    } else {
      PendingNone(acc + Repeat('\\', bs), s);
      WindowsCharRead(s, bs, rest, acc);
      WindowsBodyRead(s[1..], 0, rest, acc + Repeat('\\', bs) + [s[0]]);
    }
  }

  lemma PendingOne(acc: string, bs: nat, s: string)
    requires s != "" && s[0] == '\\'
    ensures acc + Repeat('\\', bs + 1) + s[1..] == acc + Repeat('\\', bs) + s
  {
    RepeatAdd('\\', bs, 1);
    assert Repeat('\\', 1) == "\\";
  }

  lemma PendingNone(acc: string, s: string)
    requires s != ""
    ensures acc + [s[0]] + Repeat('\\', 0) + s[1..] == acc + s
  {
  }

  lemma WindowsCharRead(s: string, bs: nat, rest: string, acc: string)
    requires s != "" && s[0] != '\\'
    ensures CrtArgument(WindowsBody(s, bs) + ("\"" + rest), true, acc)
         == CrtArgument(WindowsBody(s[1..], 0) + ("\"" + rest), true, acc + Repeat('\\', bs) + [s[0]])
  {
    var body, closing := WindowsBody(s[1..], 0), "\"" + rest;
    if s[0] == '"' {
      Regroup(Repeat('\\', 2 * bs + 1), "\"", body, closing);
      OddRun(bs, body + closing, true, acc);
    } else {
      Regroup(Repeat('\\', bs), [s[0]], body, closing);
      RunThenPlain(bs, s[0], body + closing, acc);
    }
  }

  lemma Regroup(a: string, b: string, c: string, d: string)
    ensures a + b + c + d == a + (b + (c + d))
  {
  }

  lemma WindowsQuotedRead(s: string, rest: string)
    requires rest == "" || Blank(rest[0])
    ensures CrtArgument(WindowsQuoted(s) + rest, false, "") == (s, if rest == "" then "" else rest[1..])
  {
    var t := WindowsBody(s, 0) + ("\"" + rest);
    assert WindowsQuoted(s) + rest == "\"" + t && ("\"" + t)[1..] == t;
    WindowsBodyRead(s, 0, rest, "");
    assert "" + Repeat('\\', 0) + s == s;
  }

  /** Windows: the C runtime reads joined quoted arguments back as exactly themselves. */
  lemma {:induction false} WindowsRoundTrip(args: seq<string>)
    ensures CrtArguments(Join(WindowsQuoted, args)) == args
  {
    if args != [] {
      var q := WindowsQuoted(args[0]);
      var rest := if |args| == 1 then "" else " " + Join(WindowsQuoted, args[1..]);
      var s := Join(WindowsQuoted, args);
      assert s == q + rest;
      WindowsQuotedRead(args[0], rest);
      assert s[0] == '"' && SkipBlanks(s) == s;
      if |args| > 1 {
        assert rest[1..] == Join(WindowsQuoted, args[1..]);
        WindowsRoundTrip(args[1..]);
      } else {
        assert args == [args[0]];
      }
    }
  }

  // ----- the POSIX round trip -----

  lemma EscapedQuoteRead(tail: string, acc: string)
    ensures ShellWord("'\\''" + tail, true, acc) == ShellWord(tail, true, acc + "'")
  {
    var t0, t1, t2 := "'\\''" + tail, "\\''" + tail, "'" + tail;
    assert t0[1..] == t1 && t1[2..] == t2 && t2[1..] == tail;
    assert ShellWord(t0, true, acc) == ShellWord(t1, false, acc);
    assert t1[0] == '\\' && t1[1] == '\'';
    assert ShellWord(t1, false, acc) == ShellWord(t2, false, acc + ['\'']);
  }

  lemma PosixCharRead(s: string, closing: string, acc: string)
    requires s != ""
    ensures ShellWord(PosixBody(s) + closing, true, acc) == ShellWord(PosixBody(s[1..]) + closing, true, acc + [s[0]])
  {
    var tail := PosixBody(s[1..]) + closing;
    ConcatAssoc(PosixChar(s[0]), PosixBody(s[1..]), closing);
    if s[0] == '\'' {
      EscapedQuoteRead(tail, acc);
    } else {
      assert ([s[0]] + tail)[1..] == tail;
    }
  }

  lemma {:induction false} PosixBodyRead(s: string, rest: string, acc: string)
    ensures ShellWord(PosixBody(s) + ("'" + rest), true, acc) == ShellWord(rest, false, acc + s)
  {
    var closing := "'" + rest;
    if s == "" {
      assert PosixBody(s) + closing == closing && closing[1..] == rest && acc + s == acc;
    } else {
      PosixCharRead(s, closing, acc);
      PosixBodyRead(s[1..], rest, acc + [s[0]]);
      assert acc + [s[0]] + s[1..] == acc + s;
    }
  }

  lemma PosixQuotedRead(s: string, rest: string)
    requires rest == "" || Blank(rest[0])
    ensures ShellWord(PosixQuoted(s) + rest, false, "") == Some((s, if rest == "" then "" else rest[1..]))
  {
    var t := PosixBody(s) + ("'" + rest);
    assert PosixQuoted(s) + rest == "'" + t && ("'" + t)[1..] == t;
    PosixBodyRead(s, rest, "");
    assert "" + s == s;
  }

  /** POSIX: the shell reads joined quoted arguments back as exactly themselves, meeting
    * nothing special outside the quotes. */
  lemma {:induction false} PosixRoundTrip(args: seq<string>)
    ensures ShellWords(Join(PosixQuoted, args)) == Some(args)
  {
    if args != [] {
      var q := PosixQuoted(args[0]);
      var rest := if |args| == 1 then "" else " " + Join(PosixQuoted, args[1..]);
      var s := Join(PosixQuoted, args);
      assert s == q + rest;
      PosixQuotedRead(args[0], rest);
      assert s[0] == '\'' && SkipBlanks(s) == s;
      if |args| > 1 {
        assert rest[1..] == Join(PosixQuoted, args[1..]);
        PosixRoundTrip(args[1..]);
        assert [args[0]] + args[1..] == args;
      } else {
        assert ShellWords("") == Some([]);
        assert [args[0]] + [] == args;
      }
    }
  }

  // ----- the whole command, through cmd.exe -----

  function WindowsCommand(cmd: string): string { "\"" + cmd + "\"" }

  /** The index of the last quote, or -1. */
  function LastQuote(s: string): (k: int)
    ensures -1 <= k < |s|
    ensures k >= 0 ==> s[k] == '"'
    ensures forall j | k < j < |s| :: s[j] != '"'
  {
    if s == "" then -1 else
    if s[|s| - 1] == '"' then |s| - 1 else LastQuote(s[..|s| - 1])
  }

  /** What `cmd.exe /c` runs: a string that begins with a quote loses its first and its
    * last quote. */
  function CmdExe(s: string): string {
    if s == "" || s[0] != '"' then s else
    var k := LastQuote(s);
    if k == 0 then s[1..] else s[1..k] + s[k + 1..]
  }

  /** Characters that act outside quotes, and those that act anywhere: a percent sign
    * begins a variable, a line end ends the command. */
  predicate CmdOperator(c: char) { c in "&|<>^" }

  predicate CmdBreaks(c: char) { c in "%\r\n" }

  /** `cmd.exe` meets nothing to act on in `s`. For it every quote begins or ends quoting,
    * whatever stands before the quote. */
  predicate CmdPlain(s: string, quoted: bool) {
    s == "" ||
    (!CmdBreaks(s[0]) && (CmdOperator(s[0]) ==> quoted) && CmdPlain(s[1..], if s[0] == '"' then !quoted else quoted))
  }

  /** Whether `cmd.exe` is inside quotes after `s`. */
  function CmdQuoted(s: string, quoted: bool): bool {
    if s == "" then quoted else CmdQuoted(s[1..], if s[0] == '"' then !quoted else quoted)
  }

  /** What reaches the program when `cmd.exe` has nothing to act on; otherwise it is not
    * said what does. */
  function CmdRun(s: string): Option<string> {
    if CmdPlain(CmdExe(s), false) then Some(CmdExe(s)) else None
  }

  function Quotes(s: string): nat { if s == "" then 0 else (if s[0] == '"' then 1 else 0) + Quotes(s[1..]) }

  function Concat(args: seq<string>): string { if args == [] then "" else args[0] + Concat(args[1..]) }

  /** The character at `k` of a text that starts inside quotes or outside of them. */
  ghost predicate PlainAt(s: string, quoted: bool, k: nat)
    requires k < |s|
  {
    !CmdBreaks(s[k]) && (CmdOperator(s[k]) ==> (Quotes(s[..k]) % 2 == 0) == quoted)
  }

  /** The arguments hold no percent sign and no line end, and each operator in them comes
    * after an even number of their own quotes, those of earlier arguments included. */
  ghost predicate Sheltered(args: seq<string>) {
    forall k | 0 <= k < |Concat(args)| :: PlainAt(Concat(args), true, k)
  }

  lemma PlainShift(s: string, quoted: bool, k: nat)
    requires k + 1 < |s|
    ensures PlainAt(s, quoted, k + 1) == PlainAt(s[1..], if s[0] == '"' then !quoted else quoted, k)
  {
    assert s[..k + 1][1..] == s[1..][..k];
  }

  lemma {:induction false} PlainCounts(s: string, quoted: bool)
    ensures CmdPlain(s, quoted) <==> forall k | 0 <= k < |s| :: PlainAt(s, quoted, k)
  {
    if s != "" {
      var t, inside := s[1..], if s[0] == '"' then !quoted else quoted;
      PlainCounts(t, inside);
      forall k | 0 <= k < |t|
        ensures PlainAt(s, quoted, k + 1) == PlainAt(t, inside, k)
      {
        PlainShift(s, quoted, k);
      }
      assert PlainAt(s, quoted, 0) == (!CmdBreaks(s[0]) && (CmdOperator(s[0]) ==> quoted));
      assert forall k | 0 < k < |s| :: PlainAt(s, quoted, k) == PlainAt(t, inside, k - 1);
    }
  }

  lemma {:induction false} PlainAppend(a: string, b: string, quoted: bool)
    ensures CmdPlain(a + b, quoted) <==> CmdPlain(a, quoted) && CmdPlain(b, CmdQuoted(a, quoted))
    ensures CmdQuoted(a + b, quoted) == CmdQuoted(b, CmdQuoted(a, quoted))
  {
    if a == "" {
      assert a + b == b;
    } else {
      assert (a + b)[1..] == a[1..] + b;
      PlainAppend(a[1..], b, if a[0] == '"' then !quoted else quoted);
    }
  }

  lemma {:induction false} RunPlain(n: nat, quoted: bool)
    ensures CmdPlain(Repeat('\\', n), quoted) && CmdQuoted(Repeat('\\', n), quoted) == quoted
  {
    if n > 0 { RunPlain(n - 1, quoted); }
  }

  /** Quoting adds no quote and no operator to the text of an argument. */
  lemma {:induction false} BodyPlain(s: string, bs: nat, quoted: bool)
    ensures CmdPlain(WindowsBody(s, bs), quoted) == CmdPlain(s, quoted)
    ensures CmdQuoted(WindowsBody(s, bs), quoted) == CmdQuoted(s, quoted)
  {
    if s == "" {
      RunPlain(2 * bs, quoted);
    } else if s[0] == '\\' {
      BodyPlain(s[1..], bs + 1, quoted);
    } else {
      var n := if s[0] == '"' then 2 * bs + 1 else bs;
      var c := [s[0]];
      RunPlain(n, quoted);
      PlainAppend(Repeat('\\', n), c, quoted);
      PlainAppend(Repeat('\\', n) + c, WindowsBody(s[1..], 0), quoted);
      assert c[1..] == "";
      BodyPlain(s[1..], 0, if s[0] == '"' then !quoted else quoted);
    }
  }

  lemma QuotedPlain(s: string, quoted: bool)
    ensures CmdPlain(WindowsQuoted(s), !quoted) == CmdPlain(s, quoted)
    ensures CmdQuoted(WindowsQuoted(s), !quoted) == !CmdQuoted(s, quoted)
  {
    var q, body := "\"", WindowsBody(s, 0);
    PlainAppend(q, body, !quoted);
    PlainAppend(q + body, q, !quoted);
    BodyPlain(s, 0, quoted);
    assert q[1..] == "";
  }

  lemma {:induction false} JoinPlain(args: seq<string>, quoted: bool)
    ensures CmdPlain(Join(WindowsQuoted, args), !quoted) == CmdPlain(Concat(args), quoted)
  {
    if args != [] {
      var s, rest := args[0], args[1..];
      QuotedPlain(s, quoted);
      PlainAppend(s, Concat(rest), quoted);
      JoinPlain(rest, CmdQuoted(s, quoted));
      if |args| > 1 {
        var blank := " ";
        PlainAppend(WindowsQuoted(s), blank, !quoted);
        PlainAppend(WindowsQuoted(s) + blank, Join(WindowsQuoted, rest), !quoted);
        assert blank[1..] == "";
      }
    }
  }

  lemma CmdStrips(cmd: string)
    ensures CmdExe(WindowsCommand(cmd)) == cmd
  {
    var s := WindowsCommand(cmd);
    assert s[|s| - 1] == '"' && s[1..|s| - 1] == cmd && s[|s|..] == "" && cmd + "" == cmd;
  }

  /** Through `cmd.exe`: it takes off the pair of quotes `tur_shell_command` adds, has
    * nothing to act on exactly when the arguments are sheltered, and then the program
    * reads them as exactly themselves. */
  lemma WindowsCommandRoundTrip(args: seq<string>)
    ensures var cmd := WindowsCommand(Join(WindowsQuoted, args));
            && CrtArguments(CmdExe(cmd)) == args
            && (CmdRun(cmd).Some? <==> Sheltered(args))
            && (CmdRun(cmd).Some? ==> CrtArguments(CmdRun(cmd).value) == args)
  {
    CmdStrips(Join(WindowsQuoted, args));
    WindowsRoundTrip(args);
    JoinPlain(args, true);
    PlainCounts(Concat(args), true);
  }

  /** An argument with a quote of its own does not shelter the operators after it: the
    * ampersand of this one ends the command. */
  lemma QuoteUnshelters()
    ensures CmdRun(WindowsCommand(Join(WindowsQuoted, ["a\"&b"]))) == None
  {
    var args, s := ["a\"&b"], "a\"&b";
    assert args[1..] == [] && s + "" == s && Concat(args) == s;
    var p, q := "a\"", "\"";
    assert s[2] == '&' && s[..2] == p && p[1..] == q && q[1..] == "";
    assert Quotes(q) == 1 && Quotes(p) == 1;
    assert CmdOperator(s[2]) && !PlainAt(Concat(args), true, 2);
    WindowsCommandRoundTrip(args);
  }

  lemma CrtQuote(t: string, quoted: bool, acc: string)
    requires !(quoted && Quote(t))
    ensures CrtArgument("\"" + t, quoted, acc) == CrtArgument(t, !quoted, acc)
  {
    assert ("\"" + t)[1..] == t;
  }

  lemma CrtPlain(c: char, t: string, quoted: bool, acc: string)
    requires c != '\\' && c != '"' && (quoted || !Blank(c))
    ensures CrtArgument([c] + t, quoted, acc) == CrtArgument(t, quoted, acc + [c])
  {
    assert ([c] + t)[1..] == t;
  }

  /** Without it two quoted arguments run together. */
  lemma UnwrappedCommandIsTorn()
    ensures CrtArguments(CmdExe(Join(WindowsQuoted, ["a", "b"]))) == ["a b"]
  {
    var args, s := ["a", "b"], "\"a\" \"b\"";
    assert args[1..] == ["b"];
    assert WindowsBody("a", 0) == "a" && WindowsBody("b", 0) == "b";
    assert Join(WindowsQuoted, args) == s;
    assert LastQuote(s) == 6;
    assert s[1..6] + s[7..] == "a\" \"b";
    TornRead();
  }

  lemma TornRead()
    ensures CrtArguments("a\" \"b") == ["a b"]
  {
    assert SkipBlanks("a\" \"b") == "a\" \"b";
    CrtPlain('a', "\" \"b", false, "");
    CrtQuote(" \"b", false, "a");
    CrtPlain(' ', "\"b", true, "a");
    CrtQuote("b", true, "a ");
    CrtPlain('b', "", false, "a ");
    assert ['a'] + "\" \"b" == "a\" \"b" && "\"" + " \"b" == "\" \"b" && [' '] + "\"b" == " \"b";
    assert "\"" + "b" == "\"b" && ['b'] + "" == "b";
    assert "" + ['a'] == "a" && "a" + [' '] == "a " && "a " + ['b'] == "a b";
    assert CrtFirst("a\" \"b") == ("a b", "");
  }

  // ----- the C functions -----

  /** `out` up to `cap` is all that was written. */
  twostate predicate WithinCap(out: array<char>, cap: nat)
    reads out
  {
    forall k | cap <= k < out.Length :: out[k] == old(out[k])
  }

  /** Write `n` backslashes, leaving room for the closing quote and the NUL. */
  method PutBackslashes(n: nat, out: array<char>, o: nat, cap: nat) returns (ok: bool, o': nat)
    requires o < cap <= out.Length
    modifies out
    ensures ok <==> n == 0 || o + n + 1 < cap
    ensures ok ==> o' == o + n && out[..o'] == old(out[..o]) + Repeat('\\', n)
    ensures WithinCap(out, cap)
  {
    o' := o;
    var i := 0;
    while i < n
      invariant 0 <= i <= n && o' == o + i && (i > 0 ==> o' + 1 < cap)
      invariant out[..o'] == old(out[..o]) + Repeat('\\', i)
      invariant forall k | cap <= k < out.Length :: out[k] == old(out[k])
    {
      if o' + 2 >= cap { return false, o'; }
      RepeatAdd('\\', i, 1);
      assert Repeat('\\', 1) == "\\";
      out[o'] := '\\';
      o' := o' + 1;
      i := i + 1;
    }
    ok := true;
  }

  /** Write a run of backslashes and the character after it, under the same limit. */
  method PutAfterRun(n: nat, c: char, out: array<char>, o: nat, cap: nat) returns (ok: bool, o': nat)
    requires o + 1 < cap <= out.Length
    modifies out
    ensures ok <==> o + n + 2 < cap
    ensures ok ==> o' == o + n + 1 && out[..o'] == old(out[..o]) + (Repeat('\\', n) + [c])
    ensures WithinCap(out, cap)
  {
    ok, o' := PutBackslashes(n, out, o, cap);
    if !ok { return; }
    if o' + 2 >= cap { return false, o'; }
    ghost var before := out[..o'];
    out[o'] := c;
    assert out[..o' + 1] == before + [c];
    o' := o' + 1;
  }

  /** What a character of the input adds to the body, after `bs` backslashes. */
  lemma WindowsNext(done: string, text: string, p: nat, bs: nat)
    requires p < |text|
    ensures var c, tail := text[p], WindowsBody(text[p + 1..], 0) + "\"";
            done + (WindowsBody(text[p..], bs) + "\"") ==
            if c == '\\' then done + (WindowsBody(text[p + 1..], bs + 1) + "\"")
            else done + (Repeat('\\', if c == '"' then bs * 2 + 1 else bs) + [c]) + tail
  {
    var rest := text[p..];
    assert rest[0] == text[p] && rest[1..] == text[p + 1..];
  }

  /** The quoted form is written exactly when it fits with two bytes to spare, and
    * nothing is written at or past `cap`. */
  method ShellQuoteWindows(input: array?<char>, out: array?<char>, cap: nat) returns (rc: int)
    requires input != null ==> IsCString(input) && input != out
    requires out != null ==> cap <= out.Length
    modifies if out == null then {} else {out}
    ensures rc == 0 || rc == -1
    ensures rc == 0 <==> input != null && out != null && |WindowsQuoted(Text(input))| + 2 <= cap
    ensures rc == 0 ==> var q := WindowsQuoted(Text(input)); out[..|q|] == q && out[|q|] == '\0'
    ensures out != null ==> WithinCap(out, cap)
  {
    if input == null || out == null || cap < 3 { return -1; }
    ghost var text := Text(input);
    ghost var q := WindowsQuoted(text);
    var o, bs, p := 1, 0, 0;
    out[0] := '"';
    assert text[0..] == text && out[..1] == "\"";
    while input[p] != '\0'
      invariant 0 <= p <= |text| && 1 <= o && o + 1 < cap
      invariant IsCString(input) && Text(input) == text
      invariant out[..o] + (WindowsBody(text[p..], bs) + "\"") == q
      invariant forall k | cap <= k < out.Length :: out[k] == old(out[k])
      decreases |text| - p
    {
      var c := input[p];
      WindowsNext(out[..o], text, p, bs);
      if c == '\\' {
        bs := bs + 1;
      } else {
        var run := if c == '"' then bs * 2 + 1 else bs;
        var ok, o' := PutAfterRun(run, c, out, o, cap);
        if !ok { return -1; }
        o, bs := o', 0;
      }
      p := p + 1;
    }
    assert text[p..] == "";
    assert q == out[..o] + (Repeat('\\', bs * 2) + ['"']);
    var ok, o' := PutAfterRun(bs * 2, '"', out, o, cap);
    if !ok { return -1; }
    out[o'] := '\0';
    assert out[..|q|] == q;
    return 0;
  }

  /** Write one character of the input, a quote as the four bytes that break out for it. */
  method PutPosix(c: char, out: array<char>, o: nat, cap: nat) returns (ok: bool, o': nat)
    requires o + 1 < cap <= out.Length
    modifies out
    ensures ok <==> o + |PosixChar(c)| + 1 < cap
    ensures ok ==> o' == o + |PosixChar(c)| && out[..o'] == old(out[..o]) + PosixChar(c)
    ensures WithinCap(out, cap)
  {
    ghost var before := out[..o];
    o' := o;
    if c == '\'' {
      if o + 5 >= cap { return false, o; }
      out[o], out[o + 1], out[o + 2], out[o + 3] := '\'', '\\', '\'', '\'';
      assert out[..o + 4] == before + "'\\''";
      return true, o + 4;
    }
    if o + 2 >= cap { return false, o; }
    out[o] := c;
    assert out[..o + 1] == before + [c];
    return true, o + 1;
  }

  lemma PosixNext(text: string, p: nat, done: string)
    requires p < |text|
    ensures done + (PosixBody(text[p..]) + "'") == done + PosixChar(text[p]) + (PosixBody(text[p + 1..]) + "'")
  {
    assert text[p..][1..] == text[p + 1..];
  }

  /** Write the closing quote and the NUL. */
  method PutClosing(c: char, out: array<char>, o: nat, cap: nat) returns (ok: bool)
    requires o < cap <= out.Length
    modifies out
    ensures ok <==> o + 2 < cap
    ensures ok ==> out[..o + 1] == old(out[..o]) + [c] && out[o + 1] == '\0'
    ensures WithinCap(out, cap)
  {
    if o + 2 >= cap { return false; }
    out[o], out[o + 1] := c, '\0';
    return true;
  }

  method ShellQuotePosix(input: array?<char>, out: array?<char>, cap: nat) returns (rc: int)
    requires input != null ==> IsCString(input) && input != out
    requires out != null ==> cap <= out.Length
    modifies if out == null then {} else {out}
    ensures rc == 0 || rc == -1
    ensures rc == 0 <==> input != null && out != null && |PosixQuoted(Text(input))| + 2 <= cap
    ensures rc == 0 ==> var q := PosixQuoted(Text(input)); out[..|q|] == q && out[|q|] == '\0'
    ensures out != null ==> WithinCap(out, cap)
  {
    if input == null || out == null || cap < 3 { return -1; }
    ghost var text := Text(input);
    ghost var q := PosixQuoted(text);
    var o, p := 1, 0;
    out[0] := '\'';
    assert text[0..] == text && out[..1] == "'";
    while input[p] != '\0'
      invariant 0 <= p <= |text| && 1 <= o && o + 1 < cap
      invariant IsCString(input) && Text(input) == text
      invariant out[..o] + (PosixBody(text[p..]) + "'") == q
      invariant forall k | cap <= k < out.Length :: out[k] == old(out[k])
      decreases |text| - p
    {
      PosixNext(text, p, out[..o]);
      var ok, o' := PutPosix(input[p], out, o, cap);
      if !ok { return -1; }
      o, p := o', p + 1;
    }
    assert text[p..] == "";
    var ok := PutClosing('\'', out, o, cap);
    return if ok then 0 else -1;
  }

  /** The command, wrapped in one more pair of quotes on Windows and copied elsewhere. */
  method ShellCommand(windows: bool, cmd: array?<char>, out: array?<char>, cap: nat) returns (rc: int)
    requires cmd != null ==> IsCString(cmd) && cmd != out
    requires out != null ==> cap <= out.Length
    modifies if out == null then {} else {out}
    ensures rc == 0 || rc == -1
    ensures rc == 0 <==> cmd != null && out != null && |Text(cmd)| + (if windows then 3 else 1) <= cap
    ensures rc == 0 ==> var w := if windows then WindowsCommand(Text(cmd)) else Text(cmd);
                        out[..|w|] == w && out[|w|] == '\0'
    ensures out != null ==> WithinCap(out, cap)
  {
    if cmd == null || out == null { return -1; }
    var n := cmd.Length - 1;
    if windows {
      if n + 3 > cap { return -1; }
      out[0] := '"';
      forall k | 0 <= k < n { out[1 + k] := cmd[k]; }
      out[n + 1] := '"';
      out[n + 2] := '\0';
      assert out[..n + 2] == WindowsCommand(Text(cmd));
    } else {
      if n + 1 > cap { return -1; }
      forall k | 0 <= k <= n { out[k] := cmd[k]; }
      assert out[..n] == Text(cmd);
    }
    return 0;
  }
}
