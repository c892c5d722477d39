# Turmeric tooling and runtime, verified

A Dafny model of the parts of the repository whose behaviour is an algorithm or a protocol of
its own, with proofs of what each is for. One module stands for one component; code that works
step by step on buffers, tokens or a heap is modelled that way, and its methods are proved
against functions whose own laws are lemmas.

* **Session types** (`LocalTypes`, `Projection`, `Involvement`, `Simulation`, `Duality`,
  `Converse`). Global protocols, their
  projection onto a role, merge, and a semantics of both sides with an environment of entered
  loops. The projections follow every run of the protocol and never get stuck; two projections
  are dual exactly when no reachable choice is kept from a role. Conversely, what the projected
  roles do by themselves, each from its own type alone, is what the protocol does under an exact
  condition, over whole runs for two roles.
* **Unicode** (`UnicodeTables`, `Utf8`, `CaseMapping`). The strided tables against the data they
  compress, the codec, and the string mapping with its buffer bound and its Final_Sigma context,
  compared with section 3.13 of the Unicode Standard.
* **JIT** (`LazyGeneration`). Threads, first calls, thread starts, forks and tear-down as a state
  machine, one shared access a step.
* **Quoting** (`ShellQuote`, `SourceLiteral`, `CStrings`). The POSIX and Windows quoters and the
  literal escaper over arrays, against the readers they are written for; `cmd.exe` in between as
  far as whether it finds something to act on.
* **Source rewriters** (`Tokens`, `Forms`, `TypeSlots`, `SlotGrammar`, `SpacedTypes`, `FxRows`,
  `Strings`). A
  lexical grammar and a bracket grammar, both shown unambiguous; the tokenizer, parser, printer
  and in-place rewriter of the spaced-types codemod, whose positions are also given by the shapes
  of the forms; the effect-row migration.
* **Highlighters** (`Markup`, `Highlight`, `LispComments`, `LispHighlight`). What is put out is the
  one reading of the source, every piece in its class, and it reads back as the source.
* **Catch-unwind on the heap** (`Trampoline`). The continuation machine against the recursive
  programs.
* **Editor client** (`LspDocuments`, `Columns`). Document synchronisation as a class with the log
  of what was sent, and the UTF-8 and UTF-16 column conversions.
* **Overflow** (`Overflow`). The int64 predicate against exact arithmetic.

`dafny verify dfyconfig.toml` checks the project.

## What the proofs turned up

* *A role idle in a loop gets a `Rec`.* `project` documents `Rec` for a role that takes part in the
  loop (tools/project.py, line 295); the code emits it whenever the variable occurs, and it occurs
  for every role of a loop that is continued at (`Projection.RecIffContinued`,
  `Simulation.IdleRoleGetsRec`).
* *Duality needs every choice told.* It fails for the whole family of two-role protocols with a
  reachable choice whose other role is not involved in a branch at the top level, and only for
  those (`Duality.DualIffAlwaysTold`).
* *The projected roles can do more than the protocol.* For two messages between disjoint pairs they
  can exchange the second first, which no type forbids, and pair the first sender with the second
  receiver, since `Send` and `Recv` do not name the peer (`Converse.UnorderedAndMispaired`). A move
  of theirs is a step of the protocol if and only if the roles it names stand at its head and those
  who hear of it are those the protocol involves (`Converse.MatchedIff`). For two roles that comes
  down to a test on the protocol: at every choice the other role is told, or has to wait
  (`Converse.FollowsIffInStep`); duality's condition implies it.
* *Final_Sigma is misjudged* before characters that are both Cased and Case_Ignorable, such as the
  combining ypogegrammeni: exactly the texts with a sigma of that kind come out differently
  (`CaseMapping.CodedIsStandard`).
* *The string mapping can return less than it mapped.* The reader takes the overlong `C0 80` for code
  point 0, whose mapping ends the C string early; the result is whole if and only if nothing reads
  as code point 0, so always on valid text (`CaseMapping.WholeIffNoNul`,
  `CaseMapping.OverlongNulCutsOff`, `CaseMapping.WholeOnText`).
* *Inside the quotes `cmd.exe` does not always leave operators alone* (src/platform_proc.h, lines
  101-103): it knows no backslash escape, so each quote of an argument's own flips what it takes for
  quoted, and it expands percent signs everywhere. The exact condition is
  `ShellQuote.Sheltered`; `a"&b` does not meet it (`ShellQuote.WindowsCommandRoundTrip`,
  `ShellQuote.QuoteUnshelters`).
* *The quoters waste a byte*: they need the quoted form's length plus 2, not plus 1.
* *A document can go stale*: edited, renamed, its timer gone off, and renamed back with no sync in
  between, an open uri names its own model and is not dirty, and is what the server has only if the
  text it was left with is the text typed. When the name meant nothing in between, that is the text
  from before; when it meant another tab, it is that tab's text
  (`LspDocuments.Client.Fire`, `LspDocuments.RenameAwayAndBack`).

## Model

| member | source | states |
|---|---|---|
| `LocalTypes.HasRecVarIsFreeVars` | tools/project.py:118-129 | the recursion-variable test is membership in the set of free variables, shadowing included |
| `LocalTypes.MergeIsEquality` | tools/project.py:132-194 | merging succeeds exactly on equal types and returns that type |
| `LocalTypes.MergeBranchesIsEquality` | tools/project.py:164-187 | the pairwise merge of branches with equal labels succeeds exactly on equal branches |
| `LocalTypes.MergeAllIsEquality` | tools/project.py:281-289 | the fold over the branches of a choice succeeds exactly when all project to one type, so branch order cannot matter |
| `Projection.ProjectBranchesPointwise` | tools/project.py:262-276 | the branches project exactly when each continued branch does, to its projection under its label |
| `Projection.ProjectChoice` | tools/project.py:257-289 | when a choice projects onto a role (chooser, told, or merged) and to what, both directions |
| `Involvement.InvolvesIffActs` | tools/project.py:197-218 | a role is involved in a body if and only if it sends, receives or decides something in it outside every branch, loop bodies included |
| `Involvement.InvolvesIffOutlineActs` | tools/project.py:197-304 | for any body with its loops and continues last: involved if and only if the role's own projection of the body, emptied inside its choices, sends, receives or chooses |
| `Involvement.InvolvesIffSendsOrReceives` | tools/project.py:197-304 | without choices: involved if and only if the role's own projection of the body holds a `Send` or a `Recv` |
| `Involvement.InnerBranchesDoNotCount` | tools/project.py:203-209 | bodies that differ only inside their branches involve the same roles |
| `Involvement.ChoiceTells` | tools/project.py:256-289 | whoever sends, receives or decides at the top of some branch gets a `Branch` of all of them; whoever does not has one projection for all |
| `Involvement.ReceiverIsTold` | tools/project.py:256-277 | for any roles, labels and type: the receiver of the one message of one branch gets a `Branch`, its sender a `Choose` |
| `Involvement.ToldOnlyInside` | tools/project.py:490-533 | a role that is told only inside inner choices projects if and only if it does not matter which is on |
| `Projection.FreeVarsOfProjection` | tools/project.py:228-304 | every role's projection has exactly the protocol's free continue labels as its free recursion variables |
| `Projection.RecIffContinued` | tools/project.py:292-302 | a loop projects to a `Rec` exactly when its body can continue at it, for every role |
| `Simulation.FindInScope` | tools/project.py:291-302 | a continue met on a run finds its loop, with the environment the loop was entered in |
| `Simulation.FindCommutes` | tools/project.py:291-302 | a role resolves a label to the projection of the loop the protocol resolves it to, though loops without a `Rec` leave it no binder |
| `Simulation.InvStep` | tools/project.py:228-304 | a step of the protocol keeps it well formed, its continues in scope and its cast |
| `Simulation.ProjectableStep` | tools/project.py:228-304 | a role that projects goes on projecting after every step |
| `Simulation.RoleFollows` | tools/project.py:228-304 | one role's part in a step takes it exactly to its projection of the successor |
| `Simulation.StepSimulated` | tools/project.py:228-304 | every step of the protocol is a step of the projected roles and lands on the projections of the successor |
| `Simulation.RunSimulated` | tools/project.py:228-304 | forward simulation over whole runs of any closed protocol that projects onto every role |
| `Simulation.GlobalProgress` | tools/project.py:228-304 | a configuration with something left to do can step |
| `Simulation.NeverStuck` | tools/project.py:228-304 | along every run either all is over and every type is `Close`, or the projected system can follow; and no role stands at an unbound `RecVar` |
| `Simulation.LocalStepDeterministic` | tools/project.py:61-101 | an action and its participants determine what a role becomes |
| `Converse.HeadStepIsGlobal` | tools/project.py:228-304 | a move of the roles the head of the protocol names, in which those the protocol involves take part, is a step of the protocol, with no other outcome |
| `Converse.SettledIs` | tools/project.py:292-302 | entering the loops nothing continues at changes no projection |
| `Converse.MatchedIff` | tools/project.py:228-304 | a move the projected roles make by themselves is a step of the protocol, loops no role sees entered first, if and only if the roles it names stand at the head of the protocol and those who hear of it are those the protocol involves |
| `Converse.StepIsMoveIff` | tools/project.py:228-304 | a step of the protocol is a move the projected roles make by themselves if and only if those who hear of it are those the protocol involves |
| `Converse.PeersAreForgotten` | tools/project.py:248-254 | two protocols that pair senders and receivers differently project alike onto every role |
| `Converse.UnorderedAndMispaired` | tools/project.py:246-254 | for any two messages between disjoint pairs: closed and projectable, and the projected roles can exchange the second first, and can pair the first sender with the second receiver, neither of which the protocol does |
| `Converse.OnlyAtHead` | tools/project.py:228-304 | two roles in step can move only where the head of the protocol is |
| `Converse.InStepMatched` | tools/project.py:228-304 | whatever two projected roles in step do by themselves is a step of the protocol |
| `Converse.StrayAhead` | tools/project.py:268-289 | a role that is not told of a choice and does not wait makes a move the protocol does not have |
| `Converse.StrayListener` | tools/project.py:268-289 | so does one that listens for the labels of a choice it is not part of |
| `Converse.FollowsIffInStep` | tools/project.py:228-304 | of a two-role protocol, every move the projections make by themselves, wherever a run has got to, is a step of the protocol if and only if at every choice ahead the other role is told or has to wait |
| `Converse.AlwaysToldInStep` | tools/project.py:256-277 | the condition for duality is enough for that |
| `Converse.SystemRunFollows` | tools/project.py:228-304 | two roles in step, left to themselves, are at every point of every run on the projections of a configuration the protocol reaches |
| `Converse.SystemRunProgress` | tools/project.py:228-304 | and are never stuck: both are at `Close`, or they can move |
| `Simulation.LoopMustBeLast` | tools/project.py:235-239 | a concrete run that the projections miss when something follows a loop |
| `Simulation.IdleRoleGetsRec` | tools/project.py:292-298 | a role that does nothing in a continued loop is projected to the `Rec` that only unfolds |
| `Duality.DualInvolutive` | tools/project.py:61-101 | the dual of the dual is the type |
| `Duality.AheadNeverMatches` | tools/project.py:256-289 | once one role has chosen untold, no continuation makes the two projections dual again |
| `Duality.UntoldNotDual` | tools/project.py:268-289 | a choice kept from the other role makes the projections not dual |
| `Duality.DualIffAlwaysTold` | tools/project.py:228-304 | a two-role protocol projects to dual types if and only if the non-decider is involved in some branch of every reachable choice |
| `Duality.ToldChoice` | tools/project.py:256-277 | a choice both roles know of is dual exactly when its branches are |
| `UnicodeTables.Collect` | tools/gen-r7rs-unicode.py:55-61 | the characters of the code space that satisfy a predicate, in order, and no others |
| `UnicodeTables.TakeRun` | tools/gen-r7rs-unicode.py:64-71 | a run covers exactly the slice of code points it replaces |
| `UnicodeTables.Strided` | tools/gen-r7rs-unicode.py:59-73 | the runs are ordered and cover exactly the characters that satisfy the predicate |
| `UnicodeTables.TakeMapRun` | tools/gen-r7rs-unicode.py:86-93 | a run of one delta covers exactly its slice, and every entry of the slice has that delta |
| `UnicodeTables.DeltaRuns` | tools/gen-r7rs-unicode.py:81-96 | the runs send exactly the given code points by their deltas, a delta of 0 kept |
| `UnicodeTables.MapRuns` | tools/gen-r7rs-unicode.py:76-78 | the runs are exactly the characters a map moves, with how far |
| `UnicodeTables.Find` | tools/gen-r7rs-unicode.py:253-261 | binary search finds the last key not above a code point, or -1 |
| `UnicodeTables.OnlyBest` | tools/gen-r7rs-unicode.py:262-265 | only the run the search names can cover the code point |
| `UnicodeTables.In` | tools/gen-r7rs-unicode.py:262-265 | membership by binary search is membership in some run |
| `UnicodeTables.Map1` | tools/gen-r7rs-unicode.py:266-271 | the mapping by binary search is the delta of the run that has the code point, if any |
| `UnicodeTables.TitleRuns` | tools/gen-r7rs-unicode.py:222-224 | the titlecase table holds exactly the entries that differ from uppercase, identities included |
| `UnicodeTables.Full` | tools/gen-r7rs-unicode.py:225-230 | a full-mapping table holds exactly the entries that differ from the simple mapping, sorted and zero-padded |
| `UnicodeTables.SetTables` | tools/gen-r7rs-unicode.py:212-216 | the five set tables have exactly the characters of their categories |
| `UnicodeTables.CBlock` | tools/gen-r7rs-unicode.py:200-234 | every generated table, of the mappings, the properties and the sets, says what the data says |
| `UnicodeTables.Mapc` | tools/gen-r7rs-unicode.py:275-287 | the simple mapping of the data for every code point and op, titlecase defaulting to uppercase |
| `UnicodeTables.WhiteSpaceTable` | tools/gen-r7rs-unicode.py:50-52 | the literal white-space ranges are an ordered table of exactly White_Space |
| `UnicodeTables.PropOf` | tools/gen-r7rs-unicode.py:290-303 | the property lookup answers the data for every code point and every integer op, any but 0 to 3 asking for the digit |
| `UnicodeTables.DigitRunsAre` | tools/gen-r7rs-unicode.py:304-310 | the runs of ten made from the zero digits have exactly the digits |
| `UnicodeTables.SetRunsAre` | tools/gen-r7rs-unicode.py:304-334 | the rows handed out for a set have exactly its characters, digits included |
| `UnicodeTables.RunOf` | tools/gen-r7rs-unicode.py:311-334 | one field of one row of a set, and -1 past the last |
| `UnicodeTables.DigitByZeros` | tools/gen-r7rs-unicode.py:298-301 | with digits in runs of ten, the distance to the last zero below is the digit value, or there is none |
| `Utf8.DecodeEncode` | tools/gen-r7rs-unicode.py:335-355 | decoding what encoding wrote gives the code point back, whatever follows |
| `Utf8.EncodedPayload` | tools/gen-r7rs-unicode.py:335-355 | the payload bits of an encoding, put together, are the code point |
| `Utf8.ItemsOfText` | tools/gen-r7rs-unicode.py:335-355 | reading an encoded text gives the text, item by item |
| `Utf8.EncodeAllAppend` | tools/gen-r7rs-unicode.py:335-340 | encoding distributes over concatenation |
| `Utf8.Put` | tools/gen-r7rs-unicode.py:335-340 | writes exactly the encoding at its place and nothing elsewhere |
| `Utf8.GetAt` | tools/gen-r7rs-unicode.py:343-355 | answers the whole sequence at a place or 0, and reads nothing past the NUL |
| `Utf8.ReadItem` | tools/gen-r7rs-unicode.py:364-368 | successive reads are the items of the string |
| `Utf8.Masks` | tools/gen-r7rs-unicode.py:346-350 | the masks of the reader are the comparisons and remainders of the model |
| `CaseMapping.PrevCasedIsCasedBefore` | tools/gen-r7rs-unicode.py:363-393 | the left context kept by the loop is: a cased character, then case-ignorables |
| `CaseMapping.CasedAfterIs` | tools/gen-r7rs-unicode.py:373-382 | the standard's right context against the coded look-ahead: they part only at characters both cased and case-ignorable |
| `CaseMapping.CodedFinalIs` | tools/gen-r7rs-unicode.py:370-384 | the coded condition is Final_Sigma of section 3.13 of the Unicode Standard except at misjudged sigmas |
| `CaseMapping.MappingOfText` | tools/gen-r7rs-unicode.py:356-396 | on encoded text the output is the encoding of the code-point-wise full mapping with the coded sigma |
| `CaseMapping.CodedIsStandard` | tools/gen-r7rs-unicode.py:370-384 | the output agrees with the standard's if and only if no sigma of the text is misjudged |
| `CaseMapping.NoneMisjudged` | tools/gen-r7rs-unicode.py:370-384 | a text with no character both cased and case-ignorable has no misjudged sigma |
| `CaseMapping.YpogegrammeniIsMisjudged` | tools/gen-r7rs-unicode.py:379-382 | a text on which the coded context is not Final_Sigma |
| `CaseMapping.FinalSigmaLowered` | tools/gen-r7rs-unicode.py:370-384 | the bytes `CE 91 CE A3` lower to `CE B1 CF 82` |
| `CaseMapping.RowIsFullMap` | tools/gen-r7rs-unicode.py:385-390 | the row found is the full mapping, and where there is none the simple mapping is |
| `CaseMapping.LookAhead` | tools/gen-r7rs-unicode.py:373-382 | the inner loop answers whether the next item that is not case-ignorable is cased |
| `CaseMapping.PutRow` | tools/gen-r7rs-unicode.py:387-387 | writes the encoding of the entries up to the first zero, at most twelve bytes |
| `CaseMapping.PutMapped` | tools/gen-r7rs-unicode.py:385-390 | writes the encoding of the full mapping, any other op folding, at most twelve bytes |
| `CaseMapping.PrevAfter` | tools/gen-r7rs-unicode.py:391-392 | the left context after a character |
| `CaseMapping.MapCode` | tools/gen-r7rs-unicode.py:369-392 | one character is mapped, sigma by its coded context, in at most twelve bytes |
| `CaseMapping.MapOne` | tools/gen-r7rs-unicode.py:364-392 | one turn of the loop maps the next item, whatever the bytes |
| `CaseMapping.MapAll` | tools/gen-r7rs-unicode.py:364-393 | the loop maps every item of any byte string in order, within twelve bytes for each byte read |
| `CaseMapping.CaseString` | tools/gen-r7rs-unicode.py:356-396 | any byte string is mapped within twelve bytes a byte and the NUL, to the mapping of what it reads as; the C string returned is what of that stands before its first NUL |
| `CaseMapping.WholeIffNoNul` | tools/gen-r7rs-unicode.py:343-396 | the C string returned is the whole mapping if and only if nothing in the input reads as code point 0 |
| `CaseMapping.OverlongNulCutsOff` | tools/gen-r7rs-unicode.py:343-355 | the input `C0 80`, whatever follows, reads as code point 0 and returns the empty string |
| `CaseMapping.WholeOnText` | tools/gen-r7rs-unicode.py:356-396 | on the encoding of any text without NUL the C string returned is the encoding of its mapping |
| `LazyGeneration.NextKeepsLock` | src/jit_engine.c:483-519 | every step keeps generation exclusive and each function generated at most once |
| `LazyGeneration.NextKeepsContext` | src/jit_engine.c:537-562 | every step keeps the lazy context one that is not torn down |
| `LazyGeneration.AllGeneratedStays` | src/jit_engine.c:500-506 | once every function is generated it stays so |
| `LazyGeneration.RestFinishes` | src/jit_engine.c:539-548 | when the sweep of the first thread start ends nothing is left to generate |
| `LazyGeneration.NextKeepsThreads` | src/jit_engine.c:521-562 | every step through the shim keeps: one thread until the switch, nothing left to generate after it |
| `LazyGeneration.NextKeepsInv` | src/jit_engine.c:483-562 | every enabled step keeps the whole invariant |
| `LazyGeneration.ChildInv` | src/jit_engine.c:485-498 | the child of a fork satisfies the invariant |
| `LazyGeneration.EveryStateInv` | src/jit_engine.c:483-562 | so does every state of every interleaving, across forks |
| `LazyGeneration.HolderGoesOn` | src/jit_engine.c:483-519 | whoever holds the lock can go on, and each step of it lets go or comes nearer to letting go |
| `LazyGeneration.LockIsLetGo` | src/jit_engine.c:483-562 | in every interleaving a thread that keeps the lock has taken fewer steps than three for each function and four |
| `LazyGeneration.NoneStuck` | src/jit_engine.c:483-562 | a thread inside the engine can go on, or the holder of the lock can |
| `LazyGeneration.GenerationIsSafe` | src/jit_engine.c:483-562 | in every interleaving no function is generated twice or two at once, the lazy context is never torn down, and with the lock free every thunk leads to its code |
| `LazyGeneration.ForkedChildIsClean` | src/jit_engine.c:485-498 | a forked child has nothing half generated and its next step frees the lock |
| `LazyGeneration.NoPatchAmongThreads` | src/jit_engine.c:521-562 | with every thread started through the shim no thunk is rewritten once a second thread exists |
| `LazyGeneration.ForeignThreadBreaksIt` | src/jit_engine.c:535-537 | a run in which a thread started behind the shim coexists with a generator |
| `ShellQuote.WindowsBodyRead` | src/platform_proc.h:112-142 | the argument reader takes a quoted body for its text, pending backslashes included |
| `ShellQuote.WindowsRoundTrip` | src/platform_proc.h:109-142 | the C runtime, a doubled quote inside quotes and all, reads joined quoted arguments back as exactly that list, for every list |
| `ShellQuote.JoinPlain` | src/platform_proc.h:101-104 | joining and quoting leave each character on the other side of the quotes of `cmd.exe` than it is in the bare texts |
| `ShellQuote.PlainCounts` | src/platform_proc.h:101-104 | `cmd.exe` has nothing to act on exactly when there is no percent sign or line end and each operator is inside its quotes by their parity |
| `ShellQuote.WindowsCommandRoundTrip` | src/platform_proc.h:160-183 | the pair of quotes added is the pair `cmd.exe` takes off; it then has nothing to act on if and only if each operator in the arguments comes after an even number of their own quotes and there is no percent sign or line end; and then the list arrives whole |
| `ShellQuote.QuoteUnshelters` | src/platform_proc.h:101-104 | the argument `a"&b` does not shelter its ampersand |
| `ShellQuote.UnwrappedCommandIsTorn` | src/platform_proc.h:165-171 | without the wrapping two quoted arguments run together |
| `ShellQuote.PosixBodyRead` | src/platform_proc.h:144-155 | the shell takes a quoted body for its text |
| `ShellQuote.PosixRoundTrip` | src/platform_proc.h:143-158 | the shell reads joined quoted arguments back as exactly that list, meeting nothing special unquoted |
| `ShellQuote.ShellQuoteWindows` | src/platform_proc.h:109-159 | writes the quoted form and NUL exactly when its length plus 2 is at most the capacity, and nothing at or past the capacity |
| `ShellQuote.ShellQuotePosix` | src/platform_proc.h:109-159 | the same for the other branch |
| `ShellQuote.ShellCommand` | src/platform_proc.h:175-190 | writes the command, wrapped or not, exactly when it fits |
| `SourceLiteral.EscapeRoundTrip` | src/source_literal.h:44-58 | by the reader's own table of escapes an escaped path between quotes reads back as the path and ends at its own quote |
| `SourceLiteral.EscapeMonotone` | src/source_literal.h:47-56 | longer prefixes have longer escapes |
| `SourceLiteral.SourceLiteralEscape` | src/source_literal.h:44-59 | leaves the escape of the longest prefix that fits, and succeeds iff that is the whole input |
| `Trampoline.PushLevel` | docs/artifacts/d3-stackless-catch-unwind.c:60-63 | entering a level extends the continuation and boundary chains consistently |
| `Trampoline.PopLevel` | docs/artifacts/d3-stackless-catch-unwind.c:65-70 | leaving one shortens both |
| `Trampoline.Runtime.DoPanic` | docs/artifacts/d3-stackless-catch-unwind.c:36-39 | stages the payload and sets the flag |
| `Trampoline.Runtime.EnterCatch` | docs/artifacts/d3-stackless-catch-unwind.c:60-62 | pushes a boundary and leaves the continuation after it |
| `Trampoline.Runtime.LeaveCatch` | docs/artifacts/d3-stackless-catch-unwind.c:67-69 | pops the boundary, consumes a panic and frees both nodes |
| `Trampoline.Runtime.EnterLevel` | docs/artifacts/d3-stackless-catch-unwind.c:59-63 | DESCEND keeps one continuation and one boundary for each level entered |
| `Trampoline.Runtime.LeaveLevel` | docs/artifacts/d3-stackless-catch-unwind.c:66-71 | RETURN takes one level off, gives its value and leaves nothing panicking |
| `Trampoline.Runtime.CuRecTurns` | docs/artifacts/d3-stackless-catch-unwind.c:53-74 | for any argument and any number of turns: the loop is over by then if and only if the argument is not negative and the turns are at least twice it plus 2; what it then returns, restores and frees |
| `Trampoline.Runtime.RunCuRec` | docs/artifacts/d3-stackless-catch-unwind.c:53-74 | the loop returns what the recursive program means, terminates, restores the handler chain and frees exactly what it allocated |
| `Trampoline.Runtime.CatchPanic` | docs/artifacts/d3-stackless-catch-unwind.c:83-87 | a panic staged inside a catch is consumed and the handler chain restored |
| `Trampoline.Runtime.CuRecPTurns` | docs/artifacts/d3-stackless-catch-unwind.c:77-98 | the same for the program that panics at every level, the handler chain and the boundaries intact after every turn |
| `Trampoline.Runtime.RunCuRecP` | docs/artifacts/d3-stackless-catch-unwind.c:77-98 | the same for the program that panics at every level |
| `Trampoline.Runtime.CuRecIs` | docs/artifacts/d3-stackless-catch-unwind.c:52-53 | the recursive program evaluates to its argument |
| `Trampoline.Runtime.CuRecPIs` | docs/artifacts/d3-stackless-catch-unwind.c:75-77 | so does the one that panics and catches at each level |
| `FxRows.FirstIsSegment` | tools/migrate-fx-rows.py:70-150 | what is taken at a place is a segment by its shape: a comment to its line end, a literal to the first quote no backslash escapes, a fence to its closing fence, a row, a tag, or one character |
| `FxRows.SegmentUnique` | tools/migrate-fx-rows.py:70-150 | one segment stands at a place |
| `FxRows.CutUnique` | tools/migrate-fx-rows.py:70-150 | a source can be cut into such segments in one way |
| `FxRows.SegmentsAreSource` | tools/migrate-fx-rows.py:70-150 | the segments of a source are the source, in order |
| `FxRows.TwoPerRow` | tools/migrate-fx-rows.py:115-133 | each row makes the text two characters longer and nothing else does |
| `FxRows.OnlyRowsChange` | tools/migrate-fx-rows.py:55-152 | everything but rows is copied and the length grows by twice the rows |
| `FxRows.FirstAgain` | tools/migrate-fx-rows.py:70-150 | a segment that is not a row is read again as itself before the migrated rest |
| `FxRows.RowAgain` | tools/migrate-fx-rows.py:114-147 | a migrated row is read again as a tag and a brace |
| `FxRows.SegmentsOfMigrated` | tools/migrate-fx-rows.py:55-152 | a second pass meets exactly the segments the first wrote |
| `FxRows.NothingLeft` | tools/migrate-fx-rows.py:55-152 | those hold no row and rewrite to themselves |
| `FxRows.Idempotent` | tools/migrate-fx-rows.py:55-152 | migrating twice is migrating once, with zero counts the second time |
| `FxRows.CopyLiteral` | tools/migrate-fx-rows.py:86-99 | the inner loop copies a literal whole: up to the first quote with an even run of backslashes before it, or all of an unclosed one |
| `FxRows.CopySegment` | tools/migrate-fx-rows.py:70-150 | one turn of the scan copies or rewrites the next segment and counts it |
| `FxRows.RewriteText` | tools/migrate-fx-rows.py:55-152 | the output is the source cut into its segments, with its rows rewritten and nothing else, and the count of each spelling |
| `Strings.QuoteStopIs` | tools/migrate-fx-rows.py:86-99 | reading a literal with backslash pairs whole ends it past the first quote that an even run of backslashes, counted from its opening, precedes |
| `Strings.QuoteEndUnique` | tools/migrate-fx-rows.py:86-99 | a literal has one end |
| `Tokens.LexemeUnique` | tools/spaced-types-rewrite.py:104-293 | two lexemes at one place have the same kind and end |
| `Tokens.TokenUnique` | tools/spaced-types-rewrite.py:87-295 | the lexical grammar is unambiguous |
| `Tokens.AtomEnd` | tools/spaced-types-rewrite.py:79-84 | the end of a maximal run of atom characters |
| `Tokens.StringEnd` | tools/spaced-types-rewrite.py:147-163 | past the first quote with an even run of backslashes before it, counted from the opening quote, or the end of the source |
| `Tokens.NumberOrSymbol` | tools/spaced-types-rewrite.py:263-279 | a loosely numeric atom is a number exactly when it has a digit and numeric characters only |
| `Tokens.HashToken` | tools/spaced-types-rewrite.py:204-229 | which hash form stands at a place and where it ends |
| `Tokens.ScanLexeme` | tools/spaced-types-rewrite.py:140-293 | the next lexeme is one of the grammar and takes at least one character |
| `Tokens.Scan` | tools/spaced-types-rewrite.py:100-293 | the next token is the grammar's, and whether a line still starts |
| `Tokens.KeywordIsFused` | tools/spaced-types-rewrite.py:243-259 | a keyword token is a colon and at least one more character, not a blank |
| `Tokens.LexedUnique` | tools/spaced-types-rewrite.py:87-295 | a source has one token sequence |
| `Tokens.Tokenize` | tools/spaced-types-rewrite.py:87-295 | ends on any input; the tokens are the source, cut up by the grammar |
| `Forms.ParseSeq` | tools/spaced-types-rewrite.py:330-349 | the nodes read are the tokens passed over, nested by the bracket rule |
| `Forms.ParseNode` | tools/spaced-types-rewrite.py:330-349 | one node is the tokens passed over, its closer the first that matches |
| `Forms.Parse` | tools/spaced-types-rewrite.py:327-351 | the tree flattens to the tokens and is nested |
| `Forms.NestingUnique` | tools/spaced-types-rewrite.py:327-351 | two nested readings of the same tokens are the same |
| `Forms.ParseUnique` | tools/spaced-types-rewrite.py:327-351 | a source has one form tree, balanced or not |
| `Forms.SerializeIsTexts` | tools/spaced-types-rewrite.py:771-784 | what is printed is the texts of the tokens in order |
| `Forms.Reprint` | tools/spaced-types-rewrite.py:870-887 | printing what was parsed from the tokens of a source gives the source, for any input |
| `SlotGrammar.ParamSlotsAre` | tools/spaced-types-rewrite.py:442-493 | a token annotates a parameter if and only if, read by the shapes of parameters, modifiers and the rest marker, a fused annotation stands there |
| `SlotGrammar.FieldSlotsAre` | tools/spaced-types-rewrite.py:496-519 | the same for fields |
| `SlotGrammar.LetSlotsAre` | tools/spaced-types-rewrite.py:522-563 | the same for bindings, whose fused annotation needs a value after it; and the values are looked into |
| `SlotGrammar.SigIs` | tools/spaced-types-rewrite.py:612-661 | the slots of a signature are those of its vector, the result's, which only braces separate from it, and those of the body |
| `SlotGrammar.FormStep` | tools/spaced-types-rewrite.py:571-762 | the slots of a form are its own, by its kind, and those of the forms that kind looks into |
| `SlotGrammar.SlotsAre` | tools/spaced-types-rewrite.py:571-762 | a token is a slot below a form if and only if it is a slot of a form that is reached from it |
| `SlotGrammar.FlatSlotsAre` | tools/spaced-types-rewrite.py:789-867 | the same for definitions without parentheses |
| `SlotGrammar.FileSlotsAre` | tools/spaced-types-rewrite.py:870-887 | the slots of a file are exactly the fused annotations in the type-bearing positions of its forms |
| `SlotGrammar.AfterName` | tools/spaced-types-rewrite.py:442-493 | a keyword that follows a parameter name directly annotates it |
| `SlotGrammar.ParameterIsSlot` | tools/spaced-types-rewrite.py:571-661 | and in any definition or function that is reached it is a slot |
| `SlotGrammar.HeadNames` | tools/spaced-types-rewrite.py:376-394 | which head names stand for which kind of form |
| `TypeSlots.CodeHolds` | tools/spaced-types-rewrite.py:354-373 | the code of a form is its children but for blanks, line ends, comments and prefixes |
| `TypeSlots.WalkPlaced` | tools/spaced-types-rewrite.py:571-762 | no keyword of a form is a slot unless it stands directly in a bracket vector, or follows the vector or the head of a definition, a function or a method with nothing but effect braces between; none inside a quoted list is, unless asked for |
| `TypeSlots.WalkSeen` | tools/spaced-types-rewrite.py:571-609 | the slots of a form are fused annotations in such places that no effect or dispatch brace shields |
| `TypeSlots.ImplicitSeen` | tools/spaced-types-rewrite.py:789-867 | so are those found without parentheses, where a return place follows a vector or a symbol |
| `TypeSlots.FileSeen` | tools/spaced-types-rewrite.py:870-887 | so are those of a file |
| `TypeSlots.PartsOfNodes` | tools/spaced-types-rewrite.py:578-585 | exposed and shielded tokens of a tree are different tokens |
| `SpacedTypes.RewriteKeywordToken` | tools/spaced-types-rewrite.py:405-416 | rewrites a keyword once: a second call changes nothing and says so |
| `SpacedTypes.MarkToken` | tools/spaced-types-rewrite.py:448-453 | the token is rewritten, counted once, and every other token left as it was |
| `SpacedTypes.TakeRest` | tools/spaced-types-rewrite.py:452-468 | the rest parameter and its annotation |
| `SpacedTypes.TakeParam` | tools/spaced-types-rewrite.py:445-493 | one item of a parameter vector |
| `SpacedTypes.RewriteParamVec` | tools/spaced-types-rewrite.py:442-493 | rewrites exactly the annotations of the parameters |
| `SpacedTypes.RewriteStructFieldVec` | tools/spaced-types-rewrite.py:496-519 | rewrites exactly the annotations of the fields |
| `SpacedTypes.TakeBinding` | tools/spaced-types-rewrite.py:535-563 | one binding: a keyword is an annotation only with a value after it; the value is walked |
| `SpacedTypes.RewriteLetBindingVec` | tools/spaced-types-rewrite.py:522-563 | rewrites exactly the annotations of the bindings and those inside their values |
| `SpacedTypes.TakeReturn` | tools/spaced-types-rewrite.py:637-654 | rewrites the return annotation, fused only, and steps past either spelling |
| `SpacedTypes.WalkBody` | tools/spaced-types-rewrite.py:656-661 | rewrites exactly the slots of the forms from a place on |
| `SpacedTypes.RewriteSignature` | tools/spaced-types-rewrite.py:612-661 | rewrites exactly the slots of parameters, return and body |
| `SpacedTypes.RewriteDefstruct` | tools/spaced-types-rewrite.py:664-684 | rewrites exactly the slots of the first field vector and of what follows it |
| `SpacedTypes.RewriteLetLike` | tools/spaced-types-rewrite.py:687-711 | rewrites exactly the slots of the bindings and the body |
| `SpacedTypes.TakeMember` | tools/spaced-types-rewrite.py:714-762 | a member list is read as a signature, any other form walked |
| `SpacedTypes.RewriteClassOrInstance` | tools/spaced-types-rewrite.py:714-723 | rewrites exactly the slots of the members |
| `SpacedTypes.HeadOf` | tools/spaced-types-rewrite.py:376-394 | which rule the head symbol of a list selects |
| `SpacedTypes.WalkForm` | tools/spaced-types-rewrite.py:571-609 | rewrites exactly the slots of a form |
| `SpacedTypes.TakeImplicit` | tools/spaced-types-rewrite.py:807-867 | what starts at a place of a file without parentheses |
| `SpacedTypes.WalkImplicitSeq` | tools/spaced-types-rewrite.py:789-867 | rewrites exactly the slots of the unparenthesized definitions |
| `SpacedTypes.IsSweet` | tools/spaced-types-rewrite.py:874-881 | a top-level language line names sweet-expressions |
| `SpacedTypes.RenderLength` | tools/spaced-types-rewrite.py:405-416 | each rewritten token makes the text one character longer |
| `SpacedTypes.RewrittenFile` | tools/spaced-types-rewrite.py:870-887 | with the slots rewritten, the print is the source with exactly them spaced |
| `SpacedTypes.RewriteSource` | tools/spaced-types-rewrite.py:870-887 | the output is the source with exactly the fused annotations in its type-bearing positions spaced; the count is their number and the growth in length; none is inside a shielding brace |
| `LspDocuments.UrisTellNamesApart` | web/lsp-client.js:167-169 | two tabs have the same uri if and only if they have the same name |
| `LspDocuments.FirstOfName` | web/lsp-client.js:171-174 | the uri of a tab names the first tab of that name |
| `LspDocuments.TextsInOrder` | web/lsp-client.js:325-378 | in a log the server accepts, texts of one uri with no close between them have growing versions and no second open |
| `LspDocuments.Client.Edit` | web/lsp-client.js:319-323 | every uri opened on the model becomes dirty |
| `LspDocuments.Client.Notify` | web/lsp-client.js:264-272 | a message is sent exactly when the server is available |
| `LspDocuments.Client.SendChange` | web/lsp-client.js:325-340 | sends the next version if the uri names a live tab; the uri is then current exactly when the text sent, or where none is due the text the server had, is its own model's |
| `LspDocuments.Client.Fire` | web/lsp-client.js:319-340 | the same when the timer goes off, and that text is what the server has |
| `LspDocuments.Client.FlushPendingChanges` | web/lsp-client.js:342-351 | afterwards nothing is dirty; of each dirty document the server has the text due or what it had, and every document that names its model is current |
| `LspDocuments.Client.OpenDocument` | web/lsp-client.js:353-367 | opens a live tab once, at version 1, with its text |
| `LspDocuments.Client.CloseDocument` | web/lsp-client.js:369-378 | closes what is open on both sides and forgets its timer |
| `LspDocuments.Client.OpenAll` | web/lsp-client.js:478-478 | every live tab's uri is open, on the first tab it names, the old ones untouched |
| `LspDocuments.Client.Sync` | web/lsp-client.js:470-478 | the open documents become the uris of the live tabs; those that stay are left alone, new ones are current |
| `LspDocuments.Client.Ready` | web/lsp-client.js:892-897 | the first sync opens every live tab |
| `LspDocuments.Client.DropDocuments` | web/lsp-client.js:918-929 | both sides forget every document |
| `LspDocuments.Client.ResetWorkspace` | web/lsp-client.js:918-932 | afterwards the open documents are those of the live tabs, each opened anew and current |
| `LspDocuments.RenameAwayAndBack` | web/lsp-client.js:325-340 | an open document edited, renamed to any tabs, sent and renamed back is clean and names its model, and is what the server has if and only if what its name then meant left the server with the text typed |
| `Columns.BytesAreEncoded` | web/lsp-client.js:49-54 | the length computed character by character is the length of what the encoder writes (section 3 of RFC 3629), a surrogate that stands alone replaced |
| `Columns.ScalarsOfUnits` | web/lsp-client.js:49-54 | what the encoder reads from a text in UTF-16 is the text |
| `Columns.BytesSplit` | web/lsp-client.js:49-54 | byte lengths add up at every place that cuts no character |
| `Columns.BytesGrow` | web/lsp-client.js:49-54 | and grow from one such place to the next |
| `Columns.BytesAscii` | web/lsp-client.js:51-53 | an all-ASCII text has as many bytes as code units |
| `Columns.Utf16ColumnToUtf8` | web/lsp-client.js:49-54 | the byte offset is the length of the UTF-8 encoding of the prefix, on either path |
| `Columns.Utf8ColumnToUtf16` | web/lsp-client.js:56-78 | the column is the first boundary before which the UTF-8 encoding has at least that many bytes, on either path |
| `Columns.RoundTrip` | web/lsp-client.js:49-78 | the conversions are inverse at every boundary of any line |
| `Columns.CutColumn` | web/lsp-client.js:49-78 | and a column inside a surrogate pair comes back past the pair |
| `Overflow.Overflows` | tools/gen-r7rs-inc.py:42-53 | the test meets no undefined operation and answers exactly whether the exact result is outside int64 |
| `Overflow.ProductOverflows` | tools/gen-r7rs-inc.py:50-53 | the same for the product, by truncating divisions |
| `Overflow.QuotientLimit` | tools/gen-r7rs-inc.py:50-53 | a product exceeds a limit just when one factor exceeds the limit's quotient by the other |
| `Markup.ContentOfShown` | tools/genguides.py:523-523 | reading shown pieces, with spans dropped and entities decoded, gives their text |
| `Markup.ContentEsc` | tools/genguides.py:523-523 | escaping is undone by reading |
| `Markup.SpanIs` | tools/genguides.py:571-571 | a span of each class, in full |
| `Markup.EscIs` | tools/genguides.py:523-523 | the three reserved characters are written as their entities and no other is changed |
| `Highlight.HlBrace` | tools/genguides.py:569-642 | what is put out of any source in a brace language is a reading of it: directive lines and lexemes one after another to the end, every one in its class; and the markup reads back as the source |
| `Highlight.BraceReadsUnique` | tools/genguides.py:569-642 | a source has one such reading, so what is put out is fixed |
| `Highlight.KeywordRead` | tools/genguides.py:630-637 | a source that is a keyword reads as one |
| `Highlight.KeywordShown` | tools/genguides.py:630-637 | and is put out in a keyword span |
| `Highlight.HlDirective` | tools/genguides.py:576-592 | a directive line: its name as a keyword, its bracketed header as a string, its rest by the same highlighter |
| `Highlight.BraceToken` | tools/genguides.py:572-639 | what stands at a place, its class and its end: comments and strings by their delimiters, types, numbers and words by maximal runs |
| `Highlight.BraceLexemeUnique` | tools/genguides.py:572-639 | a place of a brace language has one class and one end |
| `LispHighlight.DatumEnd` | tools/genguides.py:672-693 | a datum comment ends with the bracket that closes its datum, brackets in strings not counted, or with the word |
| `LispHighlight.LispToken` | tools/genguides.py:741-779 | which of a type, a number or a symbol stands at a place, its class and its end |
| `LispHighlight.LispLexemeUnique` | tools/genguides.py:741-779 | a place of a Lisp has one class and one end |
| `LispComments.BlockStopIs` | tools/genguides.py:662-671 | a nested comment ends past the first mark, none overlapping another, at which the nesting comes to nothing |
| `LispComments.DatumStopFrom` | tools/genguides.py:676-691 | a bracketed datum ends past the first bracket outside its literals at which what it opened is closed |
| `LispHighlight.HashToken` | tools/genguides.py:657-703 | whether a comment or character begins at a place, its class and its end |
| `LispHighlight.HlFence` | tools/genguides.py:727-740 | an inline-C fence is put out bare, a reading of its C by the other highlighter between |
| `LispHighlight.Hl` | tools/genguides.py:652-782 | what is put out of any source in a Lisp is a reading of it: comments, characters, vector prefixes, keyword arguments, strings, fences and lexemes one after another to the end, every one in its class; and the markup reads back as the source |
| `LispHighlight.LispReadsUnique` | tools/genguides.py:652-782 | a source has one such reading |

## Left out

- Simulation.RunSimulated: a loop is last in its sequence, messages join two different roles, choices are not empty and their labels differ, as the projection documents or its grammar has it; `Simulation.LoopMustBeLast` shows the first is needed.
- CaseMapping.CaseString: takes it that sigma is a cased character, as in every version of the Unicode Character Database; the other data is arbitrary. `CaseMapping.WholeIffNoNul` also takes it that NUL alone maps to NUL.
- ShellQuote.WindowsCommandRoundTrip: what `cmd.exe` does with what it acts on (the values of variables, delayed expansion, parentheses, built-in commands) is not said; the condition is for having nothing to act on.
- FxRows.Idempotent: takes it that the letters `f` and `x` are letters and that braces and hashes are not; character classes are parameters.
- Tokens.Tokenize: `str.isspace` and `str.isdigit` are parameters, of which only "a space is a blank" is used; the branch for an unrecognised character cannot be reached and is left out.
- Trampoline.Runtime.CuRecTurns: the endless loop is any number of turns of it, for a negative argument no more than the decrement takes before it overflows; `RunCuRec` is the arguments it returns for.
- Trampoline.Runtime.DoPanic: the abort of a panic without a handler is an answer, not an end of the program.
- Columns.Utf16ColumnToUtf8: the encoder is its output's length; columns are 1-based as the editor has them.
- LispHighlight.Hl: the Scheme number pattern is a function from a text to how much of it matches, and the white space of its delimiters a parameter.
- LspDocuments.Client.ResetWorkspace: what happens between its awaited requests is not in it; `DropDocuments` and `Sync` are the two halves such a run would have events between.
- LazyGeneration.GenerationIsSafe: one engine run and one lazy context; generating a function is two steps, setting its code and rewriting its thunk.
- Forms.Reprint: printing is a function that reads the tokens, not a list that is appended to.
- SpacedTypes.WalkForm: the quoting depth, which the source passes along and never reads, is not a parameter; set-like walks over children are by index.
- The Unicode Character Database itself, the table text and its line wrapping (tools/gen-r7rs-unicode.py, lines 99-198).
- MIR, c2mir, pthread internals, timing, and the atexit list of the JIT.
- Markdown fences, file walking and command lines of the codemods.
- tools/rewrite_fn_type_colons.py: its tokenizer, tree and printer are those of the spaced-types codemod; its walker deletes where this one inserts.
- Documents attached to the language client besides tabs, requests, diagnostics and providers.
- Slab and arena allocators and tree builders of the benchmarks: in bounds and disjoint by their running offsets.
- The fence passes, markdown conversion and page script of the guides around the highlighters.
- Bignum arithmetic behind the overflow test, which is not part of this model.
