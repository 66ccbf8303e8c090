# dcg: verified models of the analyses behind a verdict

dcg guards an agent's shell. This project models, in Dafny, the parts of it whose correctness a
finite test list cannot settle, and proves what they are for:

* **Source analysis** (`src/ast_matcher.rs`). A type-and-effect checker decides whether an embedded
  Python or JavaScript program is only a text edit (`InertProof`); `InertRun` says how such programs
  run, `InertSoundness` and `InertNames` what its yes is worth, `InertTables`, `InertSteady`,
  `InertShown`, `InertCompleteness` and `InertBudget` which programs get one, and `InertLiterals`
  which ranges it then vouches for. A string-literal decoder (`Decoding`, `Literals`) is held
  against the meaning of literals (`Spelling`), and a straight-line constant propagation
  (`LiteralBindings`) against programs as they run: what is reported is run (`ScriptRun`,
  `BindingSoundness`, `LateDeclarations`), and what is run is reported (`BindingCompleteness`). A
  bounded stack walk (`Worklist`, `Routes`) collects the other commands; `Recovery` puts them
  together, and `Permit` is the one-permit worker protocol around them. Trees are the algebraic
  datatype of `Syntax`; `Trees` builds small ones in the parsers' shape.
* **Allowlists** (`src/allowlist.rs`). A quote-aware tokenizer and the command-prefix guard
  (`ShellWords`), path globs, what they mean, and the audit for globs that restrict nothing (`Glob`,
  `GlobMeaning`, `Scope`), and the layered lookups with validity, fallback, session cache and
  in-memory grants (`Lookup`, `Validity`).
* **The latency gate** (`scripts/perf_baseline.py`). The binomial tolerance rule in exact arithmetic
  (`Tolerance`) and the PASS/FAIL/ERROR gate that uses it (`Gate`).
* **The branch cache** (`src/git.rs`). Agreement with the fetch it saves, over every run
  (`BranchCache`).

The shape is the same throughout. Code that works by changing things is a class or a method with
loops, proved equal to a specification function or to a declared property; the theorems are lemmas
about that specification, and each main one has a partner written independently of the code: two
evaluators with name identity, literal meaning, libraries and shells of their own, for the checker
and for the constant propagation; a relation between texts and strings for the decoder, and a
printer for it and for the tokenizer; a notation for the pattern parser, cuts of the path for the
matcher, and the matcher for the audit; a recursive walk, and routes through the tree, for the stack
loop; conditioning on one draw for the binomial recurrence;
the history of fetches for the cache.

`dafny verify dfyconfig.toml` checks everything.

## Findings

What the proofs turned up that a comment, or a first reading, would not suggest; each with its lemma,
and with the exact condition where there is one.

* The prefix guard alone does not make a command simple: `a (` passes it for the prefix `a`
  (`ShellWords.GuardAcceptsParenthesis`). `ShellWords.PrefixGuardComposes` gives the exact
  condition: a parenthesis outside quotes and escapes in the tail. A prefix that ends inside a
  quote lends its last word to the tail (`ShellWords.GuardAcceptsOpenQuote`).
* The audit of path scopes is exact for one pattern (`Glob.HasUnrestrictedPathScope`,
  `Scope.OnePatternDecided`) and only sound for several: two patterns can contain every directory
  between them without either being universal (`Scope.UnionIsMissed`). The comment at
  src/allowlist.rs:1333-1334 says that such unions are left out on purpose.
* The documentation proof keys its names by spelling (src/ast_matcher.rs:125-137), although Python
  normalises identifiers and JavaScript reads escapes in them, which the constant propagation guards
  against (src/ast_matcher.rs:418-420). Where U+FF58 stands for `x`, the accepted program
  `x = 'a'`, U+FF58 `= open('f')`, `print(x)` prints an open file (`InertNames.FullWidthLeaks`).
  It also records a kind for names that a script cannot assign: `var NaN = 'a'` is accepted with a
  text, and where `NaN` is a read-only global that stays a number (`InertNames.FixedNameStays`).
  `InertNames.NamesDecide` gives the exact condition: of the names the proof binds, all can be
  assigned, no two are spellings of one and none is another spelling of an API name. Plain ASCII
  names that can be assigned always meet it (`InertNames.PlainNamesAreApart`).
* In a Python f-string a backslash does not take a brace, so `f'\{{'` means a backslash and one brace.
  The decoder (src/ast_matcher.rs:1307-1386) takes `\{` for an unknown escape and keeps both braces
  (`Decoding.BraceIsMisread`). `Decoding.DecoderIsExact` gives the exact condition: no unescaped
  backslash stands before a run of one brace whose length is even. The decoded value is longer than
  the true one by the number of such runs. JavaScript literals have none
  (`BindingSoundness.ScriptIsRead`).
* The guard against hoisting (src/ast_matcher.rs:326-338) looks for function declarations only. A
  later `let eval = 1` or class of that name makes the call raise whose command is reported
  (`LateDeclarations.LateDeclarationIsMissed`), and an import makes it call something else. The
  evaluated source is parsed as a program (src/ast_matcher.rs:776-790), but Python's `eval` refuses
  `os.system(x);` for its semicolon, and both `eval` and `exec` may refuse what the parser takes; and
  no command with a NUL in it reaches a shell. `BindingSoundness.ReportedCommandRuns` gives the exact
  condition (`Reaches`): the program starts, it declares neither `eval` nor `require`, the evaluator
  takes the source, the two names can be assigned, the library has the function, and the function
  takes the value.
* The table of sinks lists `popen` for the module `posix` (src/ast_matcher.rs:818-827). A library
  that lacks the function raises instead of running the command: the part of `Reaches` that says
  what the library offers.
* The step budget of the documentation proof is charged again for nested templates, so its price
  doubles with each level (`InertBudget.TowerPrice`). Whatever else is in a program, thirteen levels
  are always refused, long before the depth bound of 64 (`InertBudget.DeepTowersRefused`); the
  nested template of the test at src/ast_matcher.rs:2521-2529 passes up to ten levels and not from
  eleven on (`InertBudget.NestedTemplatesAccepted`).
* The comment on `is_expired` (src/allowlist.rs:1021) says that a timestamp that cannot be parsed
  has not expired; the code treats it as expired (src/allowlist.rs:1078-1080), and so does the model
  (`Validity.ExpiryIsExact`). A date alone means the end of its day as an expiry and its start as the
  beginning of a duration (src/allowlist.rs:1071-1076, 1128-1133).
* The comment on `get_current_branch` (src/git.rs:106-108) says that the cache is invalidated when
  the working directory changes; in the code, and in the model, another directory's entry stays and
  is served again while it is fresh (`BranchCache.OthersAreUntouched`).

## Model

| member | source | states |
|---|---|---|
| InertProof.DocumentationProof.constructor | src/ast_matcher.rs:1060-1065 | a proof starts without names and literals and with 16384 steps, none of them charged |
| InertProof.DocumentationProof.Charge | src/ast_matcher.rs:104 | a unit of work is paid for or refused; charged plus remaining steps is conserved |
| InertProof.DocumentationProof.Expression | src/ast_matcher.rs:95-194 | computes the kind, names, literals and remaining steps of the specification the soundness theorem is about, on every tree, with depth at most 64 and charged plus remaining steps unchanged |
| InertProof.DocumentationProof.Bind | src/ast_matcher.rs:120-137 | the same for assignments and declarators: two named children, fewer than 128 names, none of the four API names |
| InertProof.DocumentationProof.Combine | src/ast_matcher.rs:176-190 | the same for binary operators |
| InertProof.DocumentationProof.Children | src/ast_matcher.rs:110-114 | the same for the statements of a block and the pieces of an adjacent literal |
| InertProof.DocumentationProof.Interpolations | src/ast_matcher.rs:143-162 | the same for the walk below a string, which pays for every node and evaluates every interpolation |
| InertProof.DocumentationProof.ArgumentsPlain | src/ast_matcher.rs:215-224 | the same for arguments: only text and scalars pass |
| InertProof.DocumentationProof.StringParts | src/ast_matcher.rs:139-167 | the same for a string: its interpolations, and its range is kept if it looks like shell text |
| InertProof.DocumentationProof.CallExpr | src/ast_matcher.rs:196-298 | the same for calls |
| InertProof.DocumentationProof.Callee | src/ast_matcher.rs:225-298 | the same for what is called, once the arguments are plain |
| InertSoundness.ExpressionKeepsNames | src/ast_matcher.rs:138-193 | checking an expression, at any depth, binds no name: only statements do |
| InertSoundness.SoundExpression | src/ast_matcher.rs:95-194 | type soundness of every node whose names are apart: from names of their recorded kinds, evaluation yields a value of the predicted kind or raises, everything asked of the world is allowed, and the API names stay free even when it raises |
| InertSoundness.SoundCall | src/ast_matcher.rs:196-298 | the same for calls |
| InertSoundness.SoundParts | src/ast_matcher.rs:143-162 | the same for interpolations at any nesting: one that is evaluated was checked on its own |
| InertSoundness.AcceptedProgramsAreInert | src/ast_matcher.rs:94-299 | an accepted program whose names are apart (names of their own that a script can assign), whatever the world answers, only prints, uses the console, opens files plainly, loads the file-system module and calls the listed methods, never passes a file or module on, never rebinds an API name, finished or not, and leaves every name with a value of its recorded kind |
| InertNames.NamesDecide | src/ast_matcher.rs:125-137 | for any set of names the proof can bind, every accepted program that binds only those is inert if and only if a script can assign them all, no two of them are spellings of one name and none is another spelling of an API name |
| InertNames.RebindsApi | src/ast_matcher.rs:125-134 | an accepted one-line program rebinds an API name whenever its variable is another spelling of it that a script can assign |
| InertNames.ConfusesNames | src/ast_matcher.rs:125-137 | an accepted two-line program leaves a name with a value of another kind than recorded whenever its two variables are spellings of one name |
| InertNames.FixedNameStays | src/ast_matcher.rs:125-137 | an accepted one-line program whose variable a script cannot assign, as `NaN` in a JavaScript script, is recorded with a text and leaves the variable as it was |
| InertNames.FullWidthLeaks | src/ast_matcher.rs:125-138 | an accepted program hands an open file to print, by way of a full-width letter |
| InertNames.PlainNamesAreApart | src/ast_matcher.rs:418-424 | names that are ASCII without a backslash, as the constant propagation demands, and that a script can assign always meet the condition |
| InertNames.PlainProgramsAreInert | src/ast_matcher.rs:94-299 | no accepted program binds an API name; one that binds only names that are ASCII without a backslash and that a script can assign is inert, without a further condition |
| InertNames.PrintingIsAccepted | src/ast_matcher.rs:2394-2448 | the theorem is not empty: a program that prints any one literal is accepted, and running it does just that |
| InertBudget.ExpressionBudget | src/ast_matcher.rs:95-194 | an accepted tree passes with any budget that covers what it used, with the same answer and the rest as change |
| InertBudget.BudgetIsACutoff | src/ast_matcher.rs:95-104 | every accepted tree has a positive price; a budget accepts it if and only if it covers the price |
| InertBudget.TowerPrice | src/ast_matcher.rs:143-162 | the walk below a string in which interpolations nest k deep, with any parts beside them and any checked expressions between them, costs at least 3 times 2 to the k, less 3 |
| InertBudget.DeepTowersRefused | src/ast_matcher.rs:2521-2529 | a program in which thirteen or more interpolations nest, anywhere that the proof looks, is refused on the shared work bound |
| InertBudget.NestedTemplatesAccepted | src/ast_matcher.rs:2521-2529 | the program of the test, a string in k templates that have text beside the substitution, is accepted if and only if k is at most 10 |
| InertTables.MethodsExact | src/ast_matcher.rs:285-296 | a method of a kind of value is let through, with a kind of result, if and only if on every value of that kind, with all plain arguments, in every world that answers, it does one safe thing and returns a value of the result's kind |
| InertTables.OperationsExact | src/ast_matcher.rs:176-190 | the same for binary operators, over all pairs of values of the two kinds |
| InertTables.NamedCallsExact | src/ast_matcher.rs:225-268 | the same for calls of a bare name in both languages, options of `open` included, where a module is named without escapes |
| InertTables.OpensExact | src/ast_matcher.rs:228-257 | an `open` is let through if and only if it has arguments, at most three of them by position, and every option is a file, a mode, buffering or an encoding that is a built-in codec's name between quotes |
| InertTables.OperandsExact | src/ast_matcher.rs:151-159 | the expression looked at in an interpolation is the one the grammar marks, or else the first named child that is no comment, conversion or format |
| InertTables.ArgumentsExact | src/ast_matcher.rs:215-224 | an argument is looked at itself, a keyword argument at what stands behind its name |
| InertCompleteness.SafeProgramsPass | src/ast_matcher.rs:94-299 | the converse of soundness: a program of at most 64 levels, with fewer than 128 names that a script can assign and none of the API's among them, passes with some budget if and only if all it asks of a world that answers is safe; then it has a price, and it is accepted if and only if that is at most 16384 |
| InertLiterals.ExpressionAdds | src/ast_matcher.rs:163-165 | an accepted check adds to the ranges kept exactly those of the strings with a backtick or `$(` that it comes to, through operands, arguments, receivers and interpolations |
| InertLiterals.KeptRanges | src/ast_matcher.rs:43-85 | the ranges an accepted program is answered with are those of the strings with a backtick or `$(` that it evaluates, each of them in the tree |
| Syntax.MarkerExact | src/ast_matcher.rs:163 | a text is marked if and only if a backtick or `$(` starts somewhere in it |
| Literals.InterpreterHexEscape | src/ast_matcher.rs:1396-1407 | reads exactly the given number of hexadecimal digits as a scalar value, and nothing on a short run, a 32-bit overflow or a surrogate |
| Literals.OctalEscape | src/ast_matcher.rs:1333-1343 | reads one to three octal digits, as many as there are |
| Literals.BracedDigits | src/ast_matcher.rs:1352-1370 | reads one to six hexadecimal digits up to a closing brace |
| Literals.DecodeEscape | src/ast_matcher.rs:1316-1388 | answers a value and a width if and only if that many characters after the backslash are, before what follows them, a letter escape, a continued line, an octal run, hexadecimal digits, digits in braces, NUL or an unknown escape with that value |
| Literals.DecodeBody | src/ast_matcher.rs:1302-1390 | answers if and only if the body spells a string, unit by unit, and the answer is that string if and only if no unescaped backslash stands before doubled braces in an f-string |
| Decoding.HeadSound | src/ast_matcher.rs:1302-1390 | what the decoder reads at the head of a body is a unit with that meaning: a line end, a doubled brace, a character itself or an escape; only at a backslash before a brace of an f-string it reads both where the unit is the backslash |
| Decoding.ReadingsAgree | src/ast_matcher.rs:1316-1388 | an f-string body has a value to the decoder if and only if it has one in Python; the decoder's is longer by the number of runs of doubled braces after an unescaped backslash, and the same without any |
| Decoding.BodyExact | src/ast_matcher.rs:1302-1390 | a body decodes if and only if it can be cut into units that mean some string, and to that string if and only if nothing is misread; no body spells two strings |
| Decoding.DecoderIsExact | src/ast_matcher.rs:1261-1393 | a literal's text decodes if and only if it consists of a prefix, quotes and a body of the language that spell some string, and to that string if and only if nothing is misread, in both languages; the length differs by the number of misreadings |
| Decoding.BraceIsMisread | src/ast_matcher.rs:1380-1386 | `f'\{{'` and `f'\}}'` decode with both braces and mean one |
| Decoding.LiteralReads | src/ast_matcher.rs:1219-1262 | a literal has a static value if and only if it is a string or template that spells something, no part of it is computed, and in JavaScript it is not handed to a tag, or it consists of such literals side by side, down to 64 levels |
| Literals.LiteralRoundTrip | src/ast_matcher.rs:1261-1393 | any string, written with any permitted escape for each character, under any prefix that is not raw and in any quotes, decodes to itself |
| Literals.EveryStringPrints | src/ast_matcher.rs:1344-1374 | every string of Unicode scalars has such a spelling in both languages |
| Literals.RawLiteral | src/ast_matcher.rs:1300-1314 | a raw Python literal that is not an f-string decodes to its body with CR and CR LF turned into LF |
| Literals.AdjacentLiterals | src/ast_matcher.rs:1227-1236 | adjacent literals decode to the concatenation of their values |
| LiteralBindings.LiteralStatement | src/ast_matcher.rs:340-362 | takes a statement out of its wrappers, each with exactly one significant part, and gives up after four looks |
| LiteralBindings.Table.Record | src/ast_matcher.rs:387-445 | binds the name to the module or literal the specification gives it, or refuses and leaves the names alone |
| LiteralBindings.EvaluatedShellDependency | src/ast_matcher.rs:768-843 | finds the argument name when the evaluated source is one sink call on it |
| LiteralBindings.EvaluatedLiteralCommands | src/ast_matcher.rs:845-905 | reports at most the command of the first evaluated sink call, and nothing after a statement it cannot follow |
| LiteralBindings.AdmitTree | src/ast_matcher.rs:1051-1058 | admits a tree of at most 4096 nodes without error or missing ones, checked in document order |
| LiteralBindings.Utf8BytesExact | src/ast_matcher.rs:438 | a text's bytes are counted with the fewest that UTF-8 has room for each character in |
| BindingSoundness.StaticIsValue | src/ast_matcher.rs:1219-1262 | a literal the decoder vouches for, adjacent ones included, has the decoded value in every host that reads literals as they are spelled if and only if nothing in it is misread, and otherwise one shorter by the misreadings |
| BindingSoundness.ScriptIsRead | src/ast_matcher.rs:1219-1262 | nothing is misread in JavaScript, adjacent literals included |
| BindingSoundness.RecordedBindingRuns | src/ast_matcher.rs:387-445 | a recorded statement assigns, at run time, the variable of that name the value of that literal or that library, the name is no other spelling of anything, and only without a module loader does the program not get past it |
| BindingSoundness.AcceptedPrefixTracks | src/ast_matcher.rs:387-445 | after any accepted prefix every recorded name that a script can assign has the value of its statement's literal, text or bytes, or is its library, every other name is as it was, and there are at most 128 recorded names |
| BindingSoundness.SinkConvention | src/ast_matcher.rs:818-827 | a function taken for a shell sink is, in the library it is taken from, one that runs its argument through a shell |
| BindingSoundness.SinkRuns | src/ast_matcher.rs:808-842 | a call taken for a shell sink hands the named argument's value to a shell if and only if modules can be loaded, a script can assign the receiver and the argument, the library has the function and that takes the value; otherwise nothing reaches a shell |
| BindingSoundness.CommandsRun | src/ast_matcher.rs:845-905 | from any tracked state, a report means that the rest of the program hands the reported literal's value to a shell, first, if `eval` and the loader are the language's own and nothing is in the way, and otherwise hands nothing to one before it stops |
| BindingSoundness.ReportedCommandRuns | src/ast_matcher.rs:845-905 | there is at most one report; unless the evaluated source is misread, the reported command is the string the program first hands to a shell if and only if `Reaches` holds and the reported literal is not misread; without `Reaches` the program raises, or does something else, before any shell, and with a later `let`, `const` or class `eval` it raises |
| BindingSoundness.HonestHost | src/ast_matcher.rs:845-905 | what these theorems suppose of a host can be had with every parser: one that reads names and literals as they are spelled and stands in the way of nothing |
| BindingCompleteness.SinkTableExact | src/ast_matcher.rs:818-827 | for each module and each library it stands for, a function is taken for a shell sink if and only if the library runs its argument through a shell |
| BindingCompleteness.ImportsExact | src/ast_matcher.rs:395-403 | an import is recorded if and only if it is of a Python library with such a function, under that library's name |
| BindingCompleteness.LibraryNameExact | src/ast_matcher.rs:364-385 | Node's one library with such functions has exactly the two names that are recorded |
| BindingCompleteness.HoistingExact | src/ast_matcher.rs:323-338 | the guard lets a JavaScript tree through if and only if it has at most 4096 nodes and no function or generator declaration |
| BindingCompleteness.AdmitExact | src/ast_matcher.rs:1051-1058 | a tree is broken if and only if one of its first 4096 nodes is an error or missing, too long if and only if it has more nodes and none of the first is |
| BindingCompleteness.LimitsExact | src/ast_matcher.rs:768-800 | no recorded text is over 64 KiB; evaluated source is refused if and only if it is over 64 KiB, or has over 4096 nodes and the first are whole |
| BindingCompleteness.ShellRunsAreReported | src/ast_matcher.rs:845-905 | the other half of the report, in both languages and every host: a program that starts with at most 128 plain bindings and then evaluates a literal whose source is one call, and that hands a command to a shell, is reported, once, and unless the reported literal is misread with that very command |
| LateDeclarations.LateDeclarationIsMissed | src/ast_matcher.rs:323-338 | with `let eval = 1` at its end the program, in the parser's shape, is still reported, but nothing reaches a shell, and it raises if it starts and `require` is the loader |
| LateDeclarations.ReportedCommandIsRun | src/ast_matcher.rs:845-905 | reports exist: for every command that needs no escape there is a program of three statements, in the parser's shape, for which it is reported, and that hands it to a shell where nothing is in the way |
| Worklist.StartsWithinExact | src/ast_matcher.rs:1178-1182 | the partition look-up finds a sink start inside the callee name if and only if there is one |
| Worklist.HasOwnedSink | src/ast_matcher.rs:1145-1214 | with the starts sorted, a literal is owned if and only if one of its nearest 64 ancestors is a call, only nodes of the thirteen listed value-building kinds lie between, the literal is among its arguments, and some registered start lies in the name the call ends in |
| Worklist.WalkWithin | src/ast_matcher.rs:1087-1140 | the recursive walk's commands lie inside the tree, in source order and pairwise disjoint |
| Worklist.SortedIsPlaced | src/ast_matcher.rs:1141-1142 | sorting what was collected, in whatever order, gives the walk's commands with the seed in its place, each once |
| Worklist.LimitExceeded | src/ast_matcher.rs:1105-1126 | where the loop stops at a limit, the whole walk exceeds that very limit |
| Worklist.Collect | src/ast_matcher.rs:1080-1142 | succeeds if and only if the whole walk keeps to 128 candidates and 64 KiB per literal and in all, and then returns exactly the walk's commands and the seed, sorted and disjoint; otherwise the limit it names is exceeded by the whole walk |
| Routes.WalkIsExact | src/ast_matcher.rs:1087-1140 | with the starts sorted, the walk's commands are exactly the values with a backtick or `$(` of literals at the end of a route: down through named children, past no comment and no decodable literal, to a literal that is not the seed's and not under a sink, as declared for HasOwnedSink |
| Recovery.SeedsFit | src/ast_matcher.rs:1080-1086 | the command of the evaluated dependency is a literal the walk would reach, within the byte limit and apart from every other command |
| Recovery.ShellCommandsInner | src/ast_matcher.rs:1026-1143 | the whole analysis: source, node and grammar limits, then the documentation proof, the sink count, the dependency and the walk, in that order |
| Recovery.LimitsAreExact | src/ast_matcher.rs:1026-1143 | an error names a limit that is broken: 256 KiB of source, 4096 nodes, 128 literals, 64 KiB of literal or in all, a source that cannot be parsed or sinks that are not known; an answer keeps to every one of them, and an allowed documentation program is never refused for anything later |
| Recovery.ContextIsExact | src/ast_matcher.rs:1070-1080 | the walk knows exactly the named and the executing sinks, in order and once each, and starts with the evaluated dependency's command |
| Recovery.AnswerIsExact | src/ast_matcher.rs:1026-1143 | a successful answer is empty for an allowed documentation program, and otherwise has exactly the evaluated dependency's command and those that some route carries |
| Recovery.AnswersAreLiterals | src/ast_matcher.rs:1026-1143 | every command of an answer comes from a string literal of the program at the reported range, and is what that is worth when the program runs if and only if nothing in it is misread |
| Permit.PermitStep | src/ast_matcher.rs:946-996 | every step keeps the flag true exactly while one permit exists |
| Permit.RunInv | src/ast_matcher.rs:926-1010 | the invariant holds in every state of every interleaving of callers, clock, failed spawns and workers |
| Permit.ProtocolIsSafe | src/ast_matcher.rs:926-1010 | one permit exactly while the flag is up; at most one worker holds source and tree, under the permit; a success is the caller's own worker's answer inside its budget; a busy or failed caller started no worker |
| Permit.OutcomesAreFinal | src/ast_matcher.rs:949-957 | a caller that was told busy never succeeds afterwards |
| Permit.TooLateNeverSucceeds | src/ast_matcher.rs:997-1005 | a caller whose budget has run out is never answered with a result |
| Permit.CallersComeToWait | src/ast_matcher.rs:943-996 | in every state of every run: a caller without a budget is told of the timeout as it arrives, one whose worker cannot be started is told so and frees the permit for the next, and one that has started its worker waits, or is told of the timeout if its budget is over |
| Permit.AcquireDecides | src/ast_matcher.rs:949-957 | in every state of every run a caller that asks is told busy if and only if the permit is owned, and otherwise has it |
| Permit.WaitingCallersAreAnswered | src/ast_matcher.rs:997-1009 | in every state of every run a caller whose worker has answered inside the budget gets its own source's result and nothing else, a late one the timeout, one whose worker died the word that it did not complete, and one still waiting at its deadline the timeout |
| Permit.OutcomesAreDue | src/ast_matcher.rs:994-1009 | in every run a caller is told of a timeout only after its budget is over, and of an unfinished analysis only if its own worker died |
| Permit.HoldersCanSucceed | src/ast_matcher.rs:958-1001 | from any state, a caller that holds the permit inside its budget can go on to the result of its own source, with the permit free and everyone else left alone |
| Permit.NextCallerAcquires | src/ast_matcher.rs:946-957 | once no worker is live and no caller holds the permit, the next caller acquires it |
| Permit.WorkersCanFinish | src/ast_matcher.rs:990-992 | a live worker can always go on to release the permit, also after its caller has given up |
| Permit.WorkersCanAnswer | src/ast_matcher.rs:990-992 | every worker, also one that has panicked, can always go on until it has answered or is gone without an answer, with the permit free, and changes nothing else |
| Permit.OnlyTicksTakeTime | src/ast_matcher.rs:942-1001 | the clock moves in ticks, which change nothing else, and in no other step |
| ShellWords.ParseSimpleCommandArgv | src/allowlist.rs:862-942 | the tokenizer loop returns exactly the words of the quote-state specification: nothing if and only if an operator or `$(` is reached outside quotes and escapes or there is no word |
| ShellWords.ArgvExists | src/allowlist.rs:862-942 | a command has an argv if and only if it has a character that is neither white space nor a last backslash, and none of `<`, `>`, `;`, a bar, `&`, a backtick, `(`, `)` and `$(` stands outside quotes and escapes |
| ShellWords.OperatorRefuses | src/allowlist.rs:920-930 | each of these after a closed text refuses the whole command, whatever follows |
| ShellWords.BackslashesExact | src/allowlist.rs:877-928 | a backslash before any character stands for that character outside quotes and in `$'...'`, for itself in single quotes, and in double quotes only escapes the four characters listed |
| ShellWords.SingleQuoted | src/allowlist.rs:862-942 | data up to the closing single quote, or to the end of the command |
| ShellWords.DoubleQuoted | src/allowlist.rs:862-942 | data up to the closing double quote, with its escapes, or to the end of the command |
| ShellWords.AnsiQuoted | src/allowlist.rs:862-942 | data up to the quote that closes a `$'` quote, with its escapes, or to the end of the command |
| ShellWords.WordsConcat | src/allowlist.rs:862-942 | words are split exactly at gaps: a gap between two texts separates their word lists |
| ShellWords.QuotingRoundTrip | src/allowlist.rs:862-942 | every nonempty word list, each word in any mixture of bare text and the three quoting styles, joined by spaces, tokenizes back to that list |
| ShellWords.QuotedListsRoundTrip | src/allowlist.rs:862-942 | every nonempty list of strings, empty strings included, written in one quoting style throughout tokenizes back to that list |
| ShellWords.TailHasShellChainMetachars | src/allowlist.rs:965-1005 | true if and only if some position holds one of the chaining or redirecting sequences |
| ShellWords.CommandPrefixSafelyMatches | src/allowlist.rs:648-663 | the guard: prefix, token boundary, and a tail without such a sequence |
| ShellWords.GuardIsExact | src/allowlist.rs:648-663 | a command passes if and only if it is the prefix and a tail that is empty or starts with one of the five ASCII white-space characters, and nowhere has NUL, a line end, `;`, `&`, a bar, a backtick, `<`, `>` or `$(` |
| ShellWords.PrefixGuardComposes | src/allowlist.rs:648-663 | for an accepted command whose prefix is a closed simple command: it is a simple command if and only if the tail has no parenthesis outside quotes and escapes, and then its argv is the prefix's followed by the tail's |
| ShellWords.GuardAcceptsParenthesis | src/allowlist.rs:648-663 | the guard accepts a command that is not simple because of a parenthesis |
| ShellWords.GuardAcceptsOpenQuote | src/allowlist.rs:648-663 | for a prefix that ends in an open quote, accepted commands extend its last word instead |
| Glob.MatchSupplies | src/allowlist.rs:1808-1814 | a match gives every one-character token a character of its sort, and no separator is matched by anything but a literal one or a recursive token |
| Glob.SeparatorAtBoundary | src/allowlist.rs:1327-1331 | a literal separator after recursive tokens is the root or one of two adjacent separators |
| Glob.HasUnrestrictedPathScope | src/allowlist.rs:1335-1385 | true if and only if the backtracking matcher accepts every absolute path, on Unix and elsewhere, and also if and only if it accepts four sample directories |
| Glob.SamplesDecide | src/allowlist.rs:1325-1334 | for every pattern whatever, accepting the four samples and accepting every absolute path are the same |
| GlobMeaning.CompileIsExact | src/allowlist.rs:1785-1806 | a pattern has these elements if and only if it writes them one after the other: characters, `?`, classes whose first member may be `]`, single stars, and `**` as a whole component with the separator after it |
| GlobMeaning.MatcherIsExact | src/allowlist.rs:1808-1814 | the matcher accepts a path if and only if it can be cut into one stretch for each element: the same character, or outside Unix the same ASCII letter; any character but a separator, of the class; any without a separator; and for `**` none, up to a separator, or all that is left |
| GlobMeaning.PatternMeans | src/allowlist.rs:1796-1815 | a pattern takes a path if and only if it is `*`, or writes elements that cover the path |
| Scope.EntryHasUnrestrictedPathScope | src/allowlist.rs:1309-1321 | true if and only if the entry is not scoped, or one of its patterns, as written or resolved, is universal |
| Scope.UniversalIsNormal | src/allowlist.rs:1416-1425 | a universal pattern is unchanged by normalisation, so resolving and normalising again judges the same text |
| Scope.UnrestrictedContainsAll | src/allowlist.rs:1541-1555 | a scope the audit calls unrestricted contains every absolute working directory |
| Scope.OnePatternDecided | src/allowlist.rs:1309-1321 | for one pattern without a resolved spelling the audit is exact |
| Scope.UnionIsMissed | src/allowlist.rs:1333-1334 | two patterns that together contain every directory, and that the audit does not call unrestricted |
| Lookup.SessionIdCache.IdFor | src/allowlist.rs:1234-1254 | fetches the identifier on the first session-scoped entry only, remembers it, available or not, and gives none to other entries |
| Lookup.SessionIdCache.Admits | src/allowlist.rs:1607-1626 | an entry's validity comes out as with the identifier of the first fetch known beforehand |
| Lookup.Search | src/allowlist.rs:472-564 | exact rule, exact command, prefix and pattern look-ups return the first usable entry in layer-then-entry order, as with the session resolved up front, and call the resolver once if an examined entry is session-scoped and otherwise not at all |
| Lookup.Consider | src/allowlist.rs:396-431 | one entry of the rule look-up: a direct answer ends it, a former id is kept if it is the first |
| Lookup.MatchRuleAtPath | src/allowlist.rs:376-435 | the first valid entry that names the rule or its pack, else the first valid non-agent entry for a former id, never anything for the wildcard pack; the resolver is called once or not at all, exactly as examined entries need it |
| Lookup.FirstMeans | src/allowlist.rs:376-435 | the specified answer is usable and nothing before it is, or nothing is usable |
| Lookup.InvalidNeverShadows | src/allowlist.rs:395-401 | two allowlists with the same valid entries answer every question alike |
| Lookup.PurgeChangesNothing | src/allowlist.rs:395-401 | deleting every invalid entry changes no answer |
| Lookup.UnknownOnlyLoses | src/allowlist.rs:1607-1626 | in an unknown directory exactly the unscoped entries stay valid, and in an unknown session exactly those not bound to one |
| Lookup.KnowingMoreKeepsHits | src/allowlist.rs:372-375 | what is allowed in an unknown directory and session is allowed in every known one |
| Validity.ExpiryIsExact | src/allowlist.rs:1040-1135 | an entry has not expired if and only if it names no limit, or an end can be made out and is not past: a timestamp, the 23:59:59 of a date, or without a timestamp the start plus the duration, if both are readable and in range |
| Validity.ExpiredForGood | src/allowlist.rs:1607-1626 | as the clock goes on, validity is only lost |
| Validity.SessionIsExact | src/allowlist.rs:1194-1217 | an entry bound to a session counts if and only if its identifier and the current one are the same but for white space around them, and are not blank |
| Validity.NormalIsExact | src/allowlist.rs:1416-1425 | the normal form has slashes for backslashes and no verbatim prefix, and a verbatim share keeps its two slashes |
| Validity.ScopeIsExact | src/allowlist.rs:1541-1555 | a scope contains a directory if and only if it is everywhere, or one of its patterns, as written or resolved, writes elements that cover the directory's normal form |
| Validity.AuditIsExact | src/allowlist.rs:1309-1321 | the audit calls a scope unrestricted if and only if it is everywhere, or one of its patterns, in normal form or as resolved, writes elements that cover every absolute path |
| Validity.ValidityIsExact | src/allowlist.rs:1607-1626 | an entry is valid if and only if it lasts, is for this session, finds each condition in the environment, is acknowledged if it is a pattern, and its scope contains the directory; an unknown directory is in no scope but everywhere |
| Validity.AnswersAreExact | src/allowlist.rs:396-564 | which questions an entry of each kind answers: findings by name or for the whole pack, former ids outside the agent layer, its own id, its own command, commands that start plainly with its prefix, commands its pattern matches |
| Lookup.GrantsHaveExactFrame | src/allowlist.rs:256-287 | after grants a finding hits in the agent layer, by the first grant that names it or its pack, in any directory and session, or has its old answer, fallback included, if no grant does |
| Lookup.GrantsLeaveOtherLookups | src/allowlist.rs:256-287 | grants change no exact-command, prefix or pattern look-up |
| Lookup.GrantsAndExactIds | src/allowlist.rs:256-287 | an exact rule id is found in the grants if it is one of them, and as before if not |
| Tolerance.ChooseRatio | scripts/perf_baseline.py:1564-1570 | the ratio of neighbouring binomial coefficients |
| Tolerance.TermRatio | scripts/perf_baseline.py:1564-1570 | the recurrence takes the k-th binomial term from the one before it |
| Tolerance.SumIsAtMost | scripts/perf_baseline.py:1571-1573 | the sum of the first binomial terms is the chance of at most that many exceedances, defined by conditioning on one draw |
| Tolerance.LikelierExceedance | scripts/perf_baseline.py:1551-1577 | that chance falls as exceedance gets likelier |
| Tolerance.GuardIsExact | scripts/perf_baseline.py:1553-1554 | below 59 samples, and only there, (19/20)^n exceeds 1/20, and only there the rule itself allows nothing |
| Tolerance.MaxAllowedTailExceedances | scripts/perf_baseline.py:1551-1577 | the early-breaking loop returns the largest count whose cumulative chance is at most 1/20, or -1, for every sample count |
| Tolerance.AllowanceIsUnique | scripts/perf_baseline.py:1551-1577 | a count is within the allowance if and only if its cumulative chance is at most 1/20, so breaking at the first excess loses nothing |
| Tolerance.AllowanceBelowCount | scripts/perf_baseline.py:1551-1577 | not every sample may exceed |
| Tolerance.AllowanceGrows | scripts/perf_baseline.py:1551-1577 | the allowance never falls as samples are added |
| Tolerance.AllowanceIsConfidence | scripts/perf_baseline.py:1552 | the 95/95 meaning: a count is allowed if and only if, for every true exceedance rate of 1/20 or more, seeing so few has a chance of at most 1/20 |
| Gate.DuplicatesAre | scripts/perf_baseline.py:1869-1874 | the duplicates of a list are exactly the identifiers that occur twice |
| Gate.ResultForIs | scripts/perf_baseline.py:1905 | looking a case up by identifier finds a result of that identifier whenever there is one |
| Gate.LimitIsExact | scripts/perf_baseline.py:1904 | the limit is the shipped budget's share in hundredths |
| Gate.CountIsExact | scripts/perf_baseline.py:1926-1930 | the samples counted are those over the limit, where a negative one counts as zero |
| Gate.JudgeCase | scripts/perf_baseline.py:1925-1972 | a case passes if and only if its p95 is within the limit and its samples over the limit are so few that the tolerance rule accepts them, and a violation is recorded if and only if it fails |
| Gate.JudgeCases | scripts/perf_baseline.py:1909-1972 | one report per case except the bypass, in order, unavailable if it was not measured; violations name exactly the failed cases |
| Gate.ErrorsAccount | scripts/perf_baseline.py:1875-1902 | each contract error is listed if and only if it is there, with exactly the offending identifiers |
| Gate.ContractHolds | scripts/perf_baseline.py:1974-1982 | with a sound contract at least one case is evaluated, all of them are, and there are violations if and only if some case fails |
| Gate.BuildLatencyGate | scripts/perf_baseline.py:1855-1992 | ERROR if and only if something was reported, identifiers are duplicated or differ, or a required case is missing; otherwise NOT_RUN when disabled, PASS if and only if every case except the bypass meets the limit, FAIL otherwise |
| Gate.PassCoversRequired | scripts/perf_baseline.py:1896-1902 | a pass is about an enabled gate without errors, the same duplicate-free cases and results, every required case among them and at least one to judge |
| Gate.PassIsEvidence | scripts/perf_baseline.py:1855-1992 | a pass means of every case that it was measured exactly once, on at least 59 samples, that its p95 is within the limit, and that at any true rate of 1/20 or more so good a sample has a chance of at most 1/20 |
| Gate.FasterStillMeets | scripts/perf_baseline.py:1925-1939 | faster samples, a lower p95 or a higher limit never cost a case its pass |
| BranchCache.Cache.CachedBranchInfoForDir | src/git.rs:126-159 | returns the stored answer, without reading the repository, if it is this directory's and less than 30 seconds old; otherwise reads it once, returns that, replaces this directory's entry and touches no other |
| BranchCache.Cache.ClearCache | src/git.rs:173-177 | empties the cache |
| BranchCache.StateHoldsLatest | src/git.rs:126-159 | after any run each key holds the latest fetch for that directory since the last clearing, and absent keys have none |
| BranchCache.AnswersAreFetched | src/git.rs:126-159 | over every run a look-up fetches if and only if no latest fetch for the directory is younger than 30 seconds, and otherwise returns that fetch's answer |
| BranchCache.FetchesExactlyWhenStale | src/git.rs:86-91 | with a clock that never goes back, it fetches if and only if every fetch for the directory since the last clearing is 30 seconds old or more |
| BranchCache.FetchesAreSpaced | src/git.rs:86-91 | two fetches for one directory without a clearing between them are 30 seconds apart |
| BranchCache.OthersAreUntouched | src/git.rs:148-156 | look-ups in other directories, however many, leave a directory's entry as it is |

## Left out

- Parsers, file system, processes, clocks, environment, regular expressions and TOML: their answers are parameters (`Parser`, `World`, `Host`, `Reader`, times passed to the cache).
- Unicode normalisation and identifier escapes are a parameter, any function that leaves plain ASCII names alone (`IsNaming`); so are the names that patterns and imports declare, those that `var` hides, those that a script cannot assign, which programs a language refuses to start, which sources an evaluator refuses, and which strings can be encoded for another process (`Host`, `World`).
- `Spelling` has no unit for what the decoder declines: `\N{...}`, `\8`, `\9` and legacy octal escapes in JavaScript, surrogate escapes, more than six digits in braces, and bytes beyond ASCII. An encoding cookie in evaluated bytes is not modelled.
- A file that stands in for a standard library, a library function replaced at run time, and evaluated source of more than one call are outside ScriptRun: it answers `Unknown`, or takes the library to be the installed one; it takes `require` to exist.
- `legacy_rule_names`, the named-sink start list and the executing-sink matches are arbitrary parameters.
- What a bracket class of a glob contains is left open; letters outside classes fold for the non-Unix build in ASCII only.
- The glob matcher is written from the rules in the comments; the `glob` crate is not part of this model.
- InertSoundness.AcceptedProgramsAreInert: supposes that names are apart, the condition that InertNames.NamesDecide shows to be exact, and of the two grammars that an expression has no statement as an immediate part (`Grammatical`), since in an ill-shaped tree an assignment could hide below a string.
- Recovery.ShellCommandsInner: supposes of the parser that byte ranges nest, siblings follow one another, string nodes are named and not empty, and the root is a program (`Parses`); the display fields of errors are not modelled.
- Worklist.Collect: which one of several exceeded limits is named in the error is not specified, only that it is exceeded.
- InertCompleteness.SafeProgramsPass: supposes of the tree that strings stand where they are evaluated (`Shown`), and of names, members included, that they are their own spelling (`Tame`); a module that `require` loads is named without escapes, of which only four spellings are let through.
- BindingCompleteness.ShellRunsAreReported: supposes plain ASCII names, literals that are read, of at most 64 KiB and at most three wrappers around a statement, and a source that is healthy and one call (`PlainHead`); the code follows no other programs.
- InertTables.NamedCallsExact: supposes that a module is named without escapes, since a name with one may be the file system's and is not let through.
- The evaluators have no loops, functions or exceptions handled inside the program: such a node is an opaque effect, which the theorems show an accepted program never reaches; method results are whatever the world answers, of the kind the method has.
- InertLiterals.KeptRanges: is about the proof inside `inert_documentation_literal_ranges`; its size and candidate gates, and `inert_named_exec_literal_ranges` with its finite tables of spawn options, to which it goes on where the proof fails, are not modelled.
- The candidate gate `has_interpreter_literal_candidates` is not modelled.
- Permit.ProtocolIsSafe: supposes that a panicking worker drops source, permit and sender in that order, as the ordinary path does; the channel is reduced to its last message or disconnection, and memory ordering to interleaving.
- The model of the permit starts after the size and candidate gates, which return without touching the flag.
- Scope.UnrestrictedContainsAll: is stated for directories whose normalised text is absolute; the resolution of a pattern's literal prefix and of the working directory, and their caches, are parameters.
- Repeated normalisation of doubled extended-length prefixes is not claimed to be idempotent.
- Lookup.Search: the four look-ups with the same loop are one method that is told what to look for.
- Validity.ExpiryIsExact: the parsers of timestamps, dates and durations are parameters (`World`), as is the latest time that can be represented.
- `prepend_agent_exact_commands`, loading, auditing and editing of allowlist files would add only easy members.
- Tolerance.MaxAllowedTailExceedances: the source works with logarithms in floating point; the model takes the same steps on exact reals, so rounding near the threshold is not captured.
- Gate.BuildLatencyGate: the report's descriptive fields (other percentiles, budgets, texts) and missing dictionary keys are not modelled; identifiers in errors are sets, not sorted lists.
- BranchCache.Cache.CachedBranchInfoForDir: a fetch that panics is not modelled; the age of an answer counts from when it was stored, as in the source, not from when the fetch began.
- `src/agent.rs`, `src/error_codes.rs`, `src/exit_codes.rs`, `src/confidence.rs` are finite tables and fixed weights.
