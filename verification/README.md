# Kandelo programs and scripts, verified in Dafny

This project models five parts of the Kandelo repository and proves what they are for:

* the mini shell `programs/sh.c`: tokenizer, word expansion, recursive-descent parser over a pool of
  nodes, redirections of builtins, pipelines, and the executor of compound commands;
* publishing bottles into Homebrew Formulae (`scripts/homebrew-compose-formula-bottle.rb`) and deciding
  whether two Formulae are the same but for their bottles (`scripts/homebrew-formula-source-digest.rb`);
* the runtime closure of a Formula (`scripts/homebrew-formula-runtime-closure.rb`) and the validator of
  dependency documents (`scripts/homebrew-dependency-provenance.py`);
* two encoders: the message catalog compiler `examples/gencat.c` and the directory fingerprint of
  `benchmarks/run.ts`;
* the two-process drawing protocol of `programs/cube_pyramid.c`.

Code that works in place is a class or a method with loops (the shell's parser, its buffers and
descriptor tables, gencat's tables and buffer, the dependency search, the directory walk); each such
method is proved equal to a function of its inputs, and the main results are lemmas about these
functions. Protocols are state machines whose every run is quantified over.

`dafny verify dfyconfig.toml` verifies everything.

## Main results

* Shell, reading: every canonical command tree, printed as text in any of eight styles, is read back as
  that tree to the last token and byte (`ShellText.TextRoundTrip`, `ShellPrinter.RoundTripInside`). Any
  strings, single-quoted, arrive as exactly those arguments (`ShellText.QuotedArguments`). A line of
  unquoted words and redirections is read as exactly those arguments and redirections
  (`ShellWords.LineReads`), and words of text, quotes, escapes and `$` forms arrive as what they mean
  (`ShellPieces.ExpandMeans`, `ShellWords.PiecesReachTheCommand`). The parser that fills the node pool
  builds the tree of the grammar: reading the nodes' fields gives that tree, and a walk over the pointers
  meets every allocated node once and no other (`ShellParser.Shell.ParseString`). Whatever it is given, no
  array, buffer or arena is overrun (`ShellLimits.ListKeeps`).
* Shell, running: for every script of and-or lists, and every `if`, `while`, `for` and group of them, the log
  of what is started, in which order, with which last status, and the result are those of a list semantics
  that knows no trees, for every oracle of statuses and exits (`ShellLog.BlockRuns`, `ShellLog.ArmRuns`,
  `ShellLog.WhileRuns`, `ShellLog.ForRuns`, from text `ShellLog.ScriptRuns`).
* Shell, descriptors: while a builtin runs, every descriptor leads where its redirections say
  (`ShellRedirect.AppliedLeads`). The descriptor table after a redirected builtin is the old one if and
  only if every redirection is undone, for all tables and redirections (`ShellRedirect.RestoredIff`); for
  every command of every script that comes to a condition on the copies alone
  (`ShellBuiltin.BuiltinsOfScripts`). In a nested pipeline, from any starting table, each pipe end is held by exactly the processes that
  `ShellPipeline.PipeHolders` names.
* Formulae: publications commute, and repeating one changes nothing (`FormulaCompose.PublicationsCommute`,
  `FormulaCompose.PublishingTwice`). The digest tool finds what a publication leaves equivalent to what
  was there exactly if the block that was there is from the registry and has a bottle
  (`FormulaIdentity.ComposedIsEquivalent`); equivalence itself is exactly sameness of what surrounds the
  blocks, up to two blank lines where one source has none (`FormulaEquivalence.EquivalentWithBlocks`,
  `FormulaEquivalence.EquivalentToBare`). It gives both the same identity exactly if moreover the class
  end can be found without that block (`FormulaIdentity.ComposedKeepsIdentity`). The resolver reads the
  publication back exactly if its root does not end in a slash and the cellars of the siblings kept are
  Homebrew's (`FormulaTap.PublishedIsResolved`). The languages of blocks that the tools read are exact
  (`FormulaGrammar.ComposableIsParsed`, `FormulaGrammar.ParsedIsComposable`, `FormulaGrammar.LocatedIff`).
* Closure: the search finishes exactly on the taps that can be resolved, with exactly the reachable
  names, infinite taps included (`RuntimeClosure.Resolve`). From the declarations of the Formulae over
  the resolver's two outputs to the validator, a document is accepted if and only if it lists exactly
  what the target needs, with the bottles of those Formulae and its direct dependencies marked
  (`Provenance.ValidateAgainstTap`).
* Encoders: a reader of a message catalog finds exactly the announced messages, in every order that
  sorting may leave, if and only if at most one set has messages or all sets lie in one half of the circle
  of the 32-bit numbers (`CatalogOrder.CatalogIsFaithful`). A directory fingerprint hashes a record for
  exactly each entry that a chain of directories leads to, links in circles included
  (`DirectoryChains.RecordedIff`), and two of them hash the same stream if and only if the two trees have
  the same records (`DirectoryOrder.FingerprintIff`).
* Protocol: in every interleaving, failures included, there is at most one turn
  (`Lockstep.TakingTurns`); without failures all frames are drawn (`Lockstep.AllFramesDrawn`); and the
  failures that leave both processes waiting are known exactly (`Lockstep.DeadlockIff`).

## Where the code does not do what one would expect

The model follows the code. Each case has its exact condition.

* The shell announces `2>&1` (programs/sh.c line 6). The tokenizer stalls at it
  (`ShellDup.AnnouncedForm`), as at every `>&` it comes to unless another `&` follows
  (`ShellDup.DupTextStalls`); and however far it gets with a text and however often it is asked, no text
  yields a duplicating redirection (`ShellDup.NoScriptDuplicates`).
* The tokenizer stands still for ever exactly at a single `&`, a carriage return, a vertical tab or a
  form feed outside quotes (`ShellLexer.EmptyWordIff`, `ShellLexer.EmptyWordForever`). The parser ends on
  such a text exactly if it does not take the first empty word (`ShellStall.StalledTexts`).
* A variable in braces is one word only between double quotes. Without them the word ends at the `{`, and
  so does the script: nothing behind it is parsed (`ShellWords.BracesNeedQuotes`,
  `ShellWords.BareBracesEndTheScript`).
* A group that is closed by the wrong token or by the end of the text is closed all the same
  (`ShellPrinter.WrongCloser`, `ShellPrinter.UnclosedGroup`).
* A separator before `then` or `do` adds an empty command to the condition, which then always succeeds:
  the `else` part is dead, and a `while` loop ends only if a command exits the shell
  (`ShellExec.SeparatedCondition`, `ShellExec.ElseIsDead`, `ShellExec.SeparatedWhileNeverEnds`).
* A builtin with a redirection of a closed descriptor leaves the file open
  (`ShellRedirect.ClosedTargetStaysOpen`), except in the cases that `ShellRedirect.Traceless` names
  (`ShellRedirect.RepeatedTargetHidesClosedOne` is one).
* With descriptor 0 closed, the right side of a pipeline loses its pipe
  (`ShellPipeline.ConnectedIff`).
* gencat compares ids by subtraction, which is right exactly if the difference is an int
  (`CatalogOrder.DifferenceIff`, `CatalogOrder.CompareMsgIff`). Messages can get lost exactly if two sets
  have messages and no half of the circle holds all sets (`CatalogOrder.CutIff`), as for the sets
  -2147483648, 0 and 1073741824 (`CatalogOrder.WrappedOrderLosesMessages`).
* When a call of the drawing protocol's parent fails and none of the child, both processes wait for
  ever; in all other cases both end (`Lockstep.DeadlockIff`, `Lockstep.ParentFailureDeadlocks`,
  `Lockstep.BothFail`).
* The digest tool refuses some blocks that the composer reads and writes around: those from elsewhere
  and those without bottles (`FormulaIdentity.LocateIff`, `FormulaIdentity.ForeignRoot`,
  `FormulaIdentity.NoBottles`, in a class `FormulaIdentity.FailuresInClass`). It gives no identity to a
  class whose `end` has a comment, which the composer publishes into if a block is there
  (`FormulaIdentity.IdentityIff`, `FormulaIdentity.CommentedEnd`).
* The resolver aborts over blocks that the composer has written: those whose root ends in a slash and
  those with a cellar it does not know (`FormulaBottle.ReadIff`, `FormulaBottle.ReadsComposed`,
  `FormulaBottle.SlashRoot`).
* Two sources whose blocks stand in different places of the same lines are equivalent
  (`FormulaEquivalence.MovedBlock`).
* The digest tool reads a block with one tag twice, over which the composer aborts
  (`FormulaGrammar.RepeatedTag`).
* Two Formulae with equal identities match as receipt and Formula only if the receipt has a blank line
  before its class end (`FormulaIdentity.MatchIff`); so an empty class does not match what the composer
  makes of it (`FormulaIdentity.ComposedMatchIff`, `FormulaIdentity.EmptyClassDoesNotMatch`).

## Model

| member | source | states |
|---|---|---|
| ShellLexer.SkipBlanks | programs/sh.c:217-224 | the skipping loops stop behind the blanks and a comment, at `Skipped` |
| ShellLexer.ScanWord | programs/sh.c:272-302 | the word loop takes exactly the prefix of the text that is one word, quotes and escapes kept, at most 4095 characters |
| ShellLexer.ReadToken | programs/sh.c:215-303 | token and distance are those of `ReadTok`, for every text |
| ShellLexer.ReadTok | programs/sh.c:215-303 | it moves on unless the token is an empty word, and Eof means the text is used up |
| ShellLexer.EmptyWordIff | programs/sh.c:122-125 | an empty word comes out exactly at a single `&`, carriage return, vertical tab or form feed |
| ShellLexer.EmptyWordForever | programs/sh.c:215-303 | and then the tokenizer reads the same empty word for ever |
| ShellLexer.ReadsAreScanned | programs/sh.c:272-302 | however often any text is read on, no word begins with `&`, or with a digit and `>` |
| ShellLexer.ReadsAreLead | programs/sh.c:215-303 | a text that can be tokenized is read to its end; any other yields its tokens up to the stall and empty words from then on |
| ShellExpand.CopyInto | programs/sh.c:187-188 | copies what fits before the last cell and touches nothing else |
| ShellExpand.ReadBraced | programs/sh.c:179-184 | the name in braces: to the brace, the end, or 63 characters |
| ShellExpand.ReadName | programs/sh.c:192-196 | the longest name prefix of at most 63 characters |
| ShellExpand.ReadDollar | programs/sh.c:155-207 | value and length of each `$` form |
| ShellExpand.ExpandTurn | programs/sh.c:139-208 | one turn appends what fits of its text and moves past what it used |
| ShellExpand.ExpandWord | programs/sh.c:133-211 | for every word, environment and buffer of size 1 or more: the buffer holds exactly the prefix of the unlimited expansion of length min(full, size - 1), then the terminator, and nothing behind it has changed |
| ShellExpand.ExpandQuoted | programs/sh.c:133-211 | quoting any text and expanding the word gives the text, in every environment |
| ShellPieces.DollarMeans | programs/sh.c:154-206 | what each `$` form stands for, and how much of the text it takes, for names of up to 63 characters |
| ShellPieces.ExpandMeans | programs/sh.c:133-212 | every word spelled from text, quotes, escapes, variables with and without braces, `$?`, `$$` and `$0` expands to what its pieces mean |
| ShellPieces.PiecesReadBack | programs/sh.c:272-302 | the tokenizer reads such a word in one piece |
| ShellSyntax.PipelineLoopGrows | programs/sh.c:591-604 | the loop never yields a smaller tree than it starts from |
| ShellSyntax.AndOrLoopGrows | programs/sh.c:607-633 | the same for and-or lists |
| ShellSyntax.ListLoopGrows | programs/sh.c:636-677 | the same for lists |
| ShellArena.AppendForest | programs/sh.c:412-421 | the layout of children read one after the other is the concatenation of their layouts |
| ShellArena.WalkIsInterval | programs/sh.c:412-421 | a walk along every pointer from a laid out tree's root, however deep it may go, meets each node of its interval once and no other |
| ShellArena.TreeComesBack | programs/sh.c:1157-1241 | reading the fields of a laid out tree's nodes the way run_node does gives the tree |
| ShellParser.Shell.constructor | programs/sh.c:391-398 | an empty pool and no text |
| ShellParser.Shell.ReadTokenHere | programs/sh.c:215-303 | takes the first of the pending tokens |
| ShellParser.Shell.NextToken | programs/sh.c:305-311 | consumes one pending token, peeked or not |
| ShellParser.Shell.PeekToken | programs/sh.c:313-319 | consumes none and shows the first |
| ShellParser.Shell.SkipSeparators | programs/sh.c:332-336 | drops the leading separators and nothing else |
| ShellParser.Shell.ExpectToken | programs/sh.c:688-690 | consumes the token if it is next |
| ShellParser.Shell.AllocNode | programs/sh.c:412-421 | the next node, blank; a full pool gives node 0 as it is |
| ShellParser.Shell.StrDup | programs/sh.c:400-410 | keeps the string and a terminator's room, or nothing when it does not fit |
| ShellParser.Shell.Combine | programs/sh.c:591-604 | a node allocated behind its two children completes the layout of the binary tree |
| ShellParser.Shell.Join | programs/sh.c:591-604 | so a loop's next operand extends what it has built, unless the pool ran out |
| ShellParser.Shell.RedirTurn | programs/sh.c:441-468 | one turn of the grammar's loop for a redirection, the limit of 16 included |
| ShellParser.Shell.NumberedRedirTurn | programs/sh.c:484-506 | the rest of `n>` and `n>>` |
| ShellParser.Shell.DigitTurn | programs/sh.c:473-518 | a one-digit word is a descriptor before an output operator and an argument otherwise |
| ShellParser.Shell.WordTurn | programs/sh.c:520-545 | duplication words, keywords and arguments, the limit on arguments included |
| ShellParser.Shell.SimpleTurn | programs/sh.c:438-546 | every turn is one step of `SimpleLoop` and changes only the lists of its own node |
| ShellParser.Shell.ReadSimple | programs/sh.c:434-549 | builds the simple command of the grammar, or exhausts the pool |
| ShellParser.Shell.ReadPipeline | programs/sh.c:591-604 | builds the pipeline of the grammar from the next free node on, nothing before it changed, the grammar's tokens left; the pool runs out only if the tree is too big |
| ShellParser.Shell.PipeNext | programs/sh.c:591-604 | one more command of a pipeline |
| ShellParser.Shell.ReadAndOr | programs/sh.c:607-633 | the same for and-or lists |
| ShellParser.Shell.AndOrNext | programs/sh.c:607-633 | one more operand of `&&` or the other operator |
| ShellParser.Shell.ReadList | programs/sh.c:636-677 | the same for lists |
| ShellParser.Shell.ReadItems | programs/sh.c:649-676 | the loop of a list that is not empty, with the same promise |
| ShellParser.Shell.ListNext | programs/sh.c:667-671 | one more item: the grammar's tree over it and what was read before |
| ShellParser.Shell.OpenNode | programs/sh.c:684-684 | a node allocated before its children, none of which is read yet |
| ShellParser.Shell.ReadChild | programs/sh.c:684-693 | one more child lies right behind the ones before it, and the open node is untouched |
| ShellParser.Shell.ReadSide | programs/sh.c:684-693 | one more child, with the pointer to it in its field |
| ShellParser.Shell.Close | programs/sh.c:680-714 | with all fields set, the tree lies in the interval from its own node on |
| ShellParser.Shell.ReadGroup | programs/sh.c:568-585 | builds brace groups and subshells of the grammar |
| ShellParser.Shell.ReadHead | programs/sh.c:680-693 | condition, keyword and body, each in its field |
| ShellParser.Shell.ReadElse | programs/sh.c:695-713 | `elif`, `else` or nothing, with the one closing `fi` |
| ShellParser.Shell.ReadIfRest | programs/sh.c:695-714 | behind the `then` list, the rest of the `if` of the grammar, with its node |
| ShellParser.Shell.ReadIf | programs/sh.c:680-714 | builds the `if` of the grammar |
| ShellParser.Shell.ReadWhile | programs/sh.c:717-736 | builds the `while` of the grammar |
| ShellParser.Shell.ReadWords | programs/sh.c:754-766 | the words after `in`, at most 128 kept |
| ShellParser.Shell.ReadForHeader | programs/sh.c:739-777 | variable and words of the grammar |
| ShellParser.Shell.OpenFor | programs/sh.c:739-777 | the node of a `for` with its variable and words, before the body |
| ShellParser.Shell.ReadFor | programs/sh.c:739-786 | builds the `for` of the grammar |
| ShellParser.Shell.ReadCommand | programs/sh.c:556-588 | builds the command of the grammar |
| ShellParser.Shell.ParseString | programs/sh.c:1247-1260 | the pool is exhausted exactly if the grammar's tree has more nodes than it; otherwise the tree fills the pool from node 0 on, reading its nodes as run_node does gives the tree, and a walk over its pointers meets each node once and nothing else |
| ShellPrinter.ReadArgs | programs/sh.c:535-545 | quoted words are read back as arguments, one by one |
| ShellPrinter.ReadRedir | programs/sh.c:441-518 | a spelled redirection is read back |
| ShellPrinter.ReadPipeline | programs/sh.c:591-604 | printed pipelines are read back left-associated |
| ShellPrinter.ReadAndOr | programs/sh.c:607-633 | printed and-or lists are read back left-associated |
| ShellPrinter.ReadList | programs/sh.c:636-677 | printed lists are read back, with what follows still to be read |
| ShellPrinter.ReadIf | programs/sh.c:680-714 | `if` in every style, with `elif` or a nested `if`, is read back |
| ShellPrinter.ReadWhile | programs/sh.c:717-736 | `while` is read back |
| ShellPrinter.ReadFor | programs/sh.c:739-786 | `for` is read back |
| ShellPrinter.RoundTrip | programs/sh.c:434-786 | printing any canonical tree, of any depth and in any style, and parsing the tokens gives it back, all tokens used |
| ShellPrinter.RoundTripInside | programs/sh.c:636-677 | inside a larger text the closing token is left unread |
| ShellPrinter.WrongCloser | programs/sh.c:568-585 | a group that is closed by another closing token is that group, and the token stays unread |
| ShellPrinter.UnclosedGroup | programs/sh.c:568-585 | and so is one that the end of the text closes |
| ShellText.LexRender | programs/sh.c:215-303 | text written from tokens is tokenized into those tokens |
| ShellText.BlankFirst | programs/sh.c:217-218 | a blank or a tab in front changes no token |
| ShellText.CommentBehind | programs/sh.c:221-224 | a comment up to its newline or the end of the text, behind any tokens, changes no token |
| ShellText.LongWordIsCut | programs/sh.c:272-302 | a word of more than 4095 characters is cut there, and the rest is the next word |
| ShellText.TextRoundTrip | programs/sh.c:133-786 | the same from characters: every canonical tree has a script that is read as that tree |
| ShellText.QuotedArguments | programs/sh.c:133-549 | any strings within the limits, quoted and joined by blanks, are exactly the arguments of the command |
| ShellWords.SimpleReads | programs/sh.c:434-549 | a line of words, single digits included, and redirections of every form, in any order, gives the expansions of the words, up to 127, and the redirections |
| ShellWords.WordsRead | programs/sh.c:434-549 | words that are no keywords are the arguments, in order, and nothing else is |
| ShellWords.ForWordsRead | programs/sh.c:756-768 | the words of a `for`, keywords included, up to 128 |
| ShellWords.LineReads | programs/sh.c:215-677 | the same from text |
| ShellWords.PiecesReachTheCommand | programs/sh.c:133-677 | from text with quotes, escapes and `$` forms to the arguments they mean |
| ShellWords.BracesNeedQuotes | programs/sh.c:122-125 | a variable in braces is one word between double quotes, and without them the word ends at the brace |
| ShellWords.BareBracesEndTheScript | programs/sh.c:434-677 | such a command loses the variable, and nothing behind the brace is parsed |
| ShellLimits.SimpleKeeps | programs/sh.c:434-549 | for all tokens: at most 127 arguments and 16 redirections, each in its buffer |
| ShellLimits.ListKeeps | programs/sh.c:360-677 | for all tokens: the whole tree fits into the arrays and buffers of its nodes, the string arena is not overrun, and its fill accounts for every string |
| ShellDup.DupTextStalls | programs/sh.c:261-270 | wherever in a text the tokenizer comes to `>&`, unless another `&` follows, the text has no tokens |
| ShellDup.AnnouncedForm | programs/sh.c:6-6 | the announced `2>&1` is such a text |
| ShellDup.SimpleIsClean | programs/sh.c:434-549 | no words the tokenizer can yield, empty ones included, make a duplicating redirection |
| ShellDup.NoScriptDuplicates | programs/sh.c:434-786 | for every text and every number of reads, the tree has no duplicating redirection |
| ShellStall.SimpleAlike | programs/sh.c:434-549 | a simple command either takes every empty word behind its tokens, or leaves all of them |
| ShellStall.ForAlike | programs/sh.c:739-786 | the same for `for`, whose name and words may be empty words |
| ShellStall.ListAlike | programs/sh.c:636-677 | the same for lists of all commands |
| ShellStall.StalledTexts | programs/sh.c:636-677 | on a text at which the tokenizer stalls, the parser either uses up every further read, or ends in front of the stall with the same tree however often it would be read; the first empty word decides |
| ShellStall.BraceEnds | programs/sh.c:639-641 | it ends when the first token closes the list |
| ShellStall.StallAtOnceIsTaken | programs/sh.c:649-649 | it does not when the text begins with the stall |
| ShellExec.RunMonotone | programs/sh.c:1157-1241 | a run that ends within some rounds ends the same way with more, so the bound is only a bound |
| ShellLog.LineRuns | programs/sh.c:1167-1181 | an and-or list starts exactly the commands that its connectives ask for, each with the status before it, and ends as the last one started |
| ShellLog.BlockRuns | programs/sh.c:1157-1187 | a list of them runs in order until one ends the shell |
| ShellLog.GroupRuns | programs/sh.c:1189-1204 | braces are their list; a subshell ends alone, with a status of 8 bits |
| ShellLog.ArmRuns | programs/sh.c:1206-1214 | conditions are tried in order up to the first that succeeds, and only its commands run |
| ShellLog.ElseRuns | programs/sh.c:1206-1214 | if none succeeds the else part runs; without one the result is 0 |
| ShellLog.ConditionQuits | programs/sh.c:1206-1214 | a condition that ends the shell ends the `if` |
| ShellLog.WhileRuns | programs/sh.c:1216-1226 | the body runs once for each success of the condition in a row; the result is that of the last round; a loop that does not end outlasts every bound |
| ShellLog.ForRuns | programs/sh.c:1228-1236 | the variable gets each word in order and the body runs after each, until it ends the shell |
| ShellLog.ScriptRuns | programs/sh.c:133-1241 | from the text of a script to its log |
| ShellExec.SeparatedCondition | programs/sh.c:661-665 | for every condition, a separator before `then` or `do` appends an empty command to it |
| ShellExec.SeparatedIf | programs/sh.c:680-714 | so `if c ; then` is read with that condition |
| ShellExec.SeparatedWhile | programs/sh.c:717-736 | and so is `while c ; do` |
| ShellExec.SeparatedConditionSucceeds | programs/sh.c:1045-1050 | such a condition has status 0 whenever it ends |
| ShellExec.ElseIsDead | programs/sh.c:1206-1214 | its else part never runs: any other one gives the same outcome |
| ShellExec.SeparatedWhileNeverEnds | programs/sh.c:1216-1226 | no number of rounds ends such a loop |
| Descriptors.Process.DupFd | programs/sh.c:1071-1071 | dup: the lowest free number, or -1 |
| ShellRedirect.ApplyRedirects | programs/sh.c:1016-1033 | open, dup2 and close for each redirection in turn; it exits exactly if some file cannot be opened |
| ShellRedirect.AppliedLeads | programs/sh.c:1016-1033 | every descriptor leads where the last redirection of it says, and a duplicating one means what its source led to before |
| ShellRedirect.OrderCounts | programs/sh.c:1016-1033 | so the order of redirections counts |
| ShellRedirect.SaveDescriptors | programs/sh.c:1066-1073 | one copy for each redirection, -1 for a closed descriptor |
| ShellRedirect.RestoreDescriptors | programs/sh.c:1076-1080 | each copy taken back and closed, in order |
| ShellRedirect.RunBuiltin | programs/sh.c:1063-1082 | unless the shell exits over a file, the table afterwards is `Around` of the one before |
| ShellRedirect.SaveCopies | programs/sh.c:1066-1073 | the copies are new, all different, and none sits on a number saved before it |
| ShellRedirect.OpenTargetsAreRestored | programs/sh.c:1063-1082 | if all redirected descriptors were open, the table is back, repeated ones and duplications included |
| ShellRedirect.RestoredIff | programs/sh.c:1063-1082 | for all tables and redirections: the table is back if and only if every redirection is undone, that is, the last copy of an open descriptor still leads where it led, and a closed one had no copy and was not opened, or the copy of another was put on its number |
| ShellRedirect.RestoredIffTraceless | programs/sh.c:1063-1082 | for files, by the copies alone: if and only if the last copy of every open descriptor is no target, and every closed one had no copy and got one put on its number |
| ShellRedirect.RestoredIffOpen | programs/sh.c:1063-1082 | for files on different descriptors: if and only if all were open |
| ShellRedirect.ClosedTargetStaysOpen | programs/sh.c:1063-1082 | the failing case: `3> f` with 3 closed |
| ShellRedirect.RepeatedTargetHidesClosedOne | programs/sh.c:1063-1082 | a case that works although a descriptor was closed |
| ShellBuiltin.BuiltinsOfScripts | programs/sh.c:434-549 | for every command of every script whose files can be opened, the condition on the copies is exact |
| ShellPipeline.SetUp | programs/sh.c:1107-1155 | the children start with the two tables below, and the parent's own table is as before on all four paths |
| ShellPipeline.ChildrenDifferInOne | programs/sh.c:1107-1155 | from any table, a child differs from its parent in descriptor 1 or 0 at most, and gets its end only if 0 (on the left, 0 or 1) was open |
| ShellPipeline.ConnectedIff | programs/sh.c:1107-1155 | the right child gets the pipe if and only if 0 was open, the left one if and only if 0 or 1 was |
| ShellPipeline.ForeignFile | programs/sh.c:1107-1204 | any other file stays where it is, except under 1 on left sides and under 0 on right sides, from any table |
| ShellPipeline.PipeHolders | programs/sh.c:1107-1204 | for every starting table, pipeline in a job, process and descriptor: the write end is there if and only if it is 1 on the right edge of the left side and 0 or 1 was open, the read end if and only if it is 0 on the left edge of the right side and 0 was open |
| Lockstep.StepKeeps | programs/cube_pyramid.c:204-260 | every step of either process keeps the invariant |
| Lockstep.RunKeeps | programs/cube_pyramid.c:204-301 | so does every run |
| Lockstep.TakingTurns | programs/cube_pyramid.c:204-301 | in every state of every run: at most one turn, exactly one while nothing failed and the parent works, never both drawing, frame counts at most one apart |
| Lockstep.DeadlockIff | programs/cube_pyramid.c:204-301 | for every run of at least one frame that cannot go on: it ended in mutual waiting if and only if a call of the parent failed and none of the child; otherwise both are gone |
| Lockstep.ParentFailureDeadlocks | programs/cube_pyramid.c:262-301 | the failing input: a parent whose setup fails, and a child whose setup does not |
| Lockstep.BothFail | programs/cube_pyramid.c:204-301 | the other side: a child that fails too lets both end |
| Lockstep.RunsAreShort | programs/cube_pyramid.c:204-260 | with n frames, no run is longer than the rank of its start |
| Lockstep.AllFramesDrawn | programs/cube_pyramid.c:204-301 | with n frames every run ends within 8n + 11 steps, and one without failures with n frames drawn by each and results 0 |
| Catalog.NumberBack | examples/gencat.c:31-37 | four big-endian bytes give the number back |
| Catalog.SignedBack | examples/gencat.c:187-187 | and an int through its unsigned form |
| Catalog.Put32be | examples/gencat.c:31-37 | writes the four bytes at the place and keeps everything else |
| Catalog.PassSet | examples/gencat.c:183-186 | passes exactly the run of messages of one set |
| Catalog.RangesPartition | examples/gencat.c:176-191 | where both tables follow the circle of ids from one place up, the ranges of the set table cut the message table into consecutive pieces that use it up, each of its own set |
| Catalog.PutSets | examples/gencat.c:176-191 | the set table as bytes |
| Catalog.PutMsgs | examples/gencat.c:193-200 | the message table as bytes |
| Catalog.PutHeader | examples/gencat.c:169-174 | the header as bytes |
| Catalog.PutStrings | examples/gencat.c:202-203 | the strings behind the tables |
| Catalog.Build | examples/gencat.c:156-203 | the buffer is the file of the documented layout, for all tables within the limits |
| CatalogReader.BuiltMessage | examples/gencat.c:193-203 | every message row leads to a NUL-terminated copy of its text inside the file |
| CatalogReader.BuiltSet | examples/gencat.c:176-191 | every set row leads to its messages |
| CatalogReader.DecodesBack | examples/gencat.c:4-19 | for all tables, a reader that follows the documented layout gets exactly the messages that the set table reaches, in order, and never leaves the file |
| CatalogTables.Compiler.AddSetHere | examples/gencat.c:58-67 | adds an unknown set at the end, or stops at 256 |
| CatalogTables.Compiler.StoreText | examples/gencat.c:133-134 | text and NUL behind the strings so far, which stay |
| CatalogTables.Compiler.FeedLine | examples/gencat.c:91-136 | the arrays change as `Feed` says, or gencat stops for one of its three limits |
| CatalogTables.FeedAllKeeps | examples/gencat.c:82-138 | after any lines: sets without repetition, every message's set known, every text terminated in bounds, and the messages are exactly those announced, in order |
| CatalogTables.FeedAllIff | examples/gencat.c:58-138 | gencat stops over its input if and only if there are more than 256 sets, 4096 messages or 262144 bytes in all |
| CatalogOrder.DifferenceIff | examples/gencat.c:77-80 | the difference has the right sign if and only if it is an int |
| CatalogOrder.DifferenceWraps | examples/gencat.c:77-80 | the failing case |
| CatalogOrder.CompareMsgIff | examples/gencat.c:69-75 | the comparison of messages is their order if and only if the numbers it subtracts differ by an int |
| CatalogOrder.OffsetIsMod | examples/gencat.c:77-80 | the distance up the circle is the difference of the ids modulo 2^32 |
| CatalogOrder.StepIff | examples/gencat.c:77-80 | a set compares not greater than another if and only if that one lies at most half the circle up |
| CatalogOrder.CutIff | examples/gencat.c:152-191 | in every order that sorting may leave, the loop over the sets finds every message, if and only if at most one set has messages or all sets lie in one half of the circle |
| CatalogOrder.WrappedOrderLosesMessages | examples/gencat.c:82-191 | the failing input: lines whose tables, as parse_file fills them, compare as sorted and lose a message |
| CatalogOrder.PermutedEntries | examples/gencat.c:152-154 | sorting changes the order of messages and not what they are |
| CatalogOrder.FaithfulIfCut | examples/gencat.c:82-203 | whatever lines are fed and however they are sorted, the catalog can be read without leaving the file, and is faithful if and only if the loop over the sets finds every message |
| CatalogOrder.CatalogIsFaithful | examples/gencat.c:82-203 | whatever lines are fed: decoding the catalog gives exactly the announced messages with their sets and texts, as often as announced, in every order that sorting may leave, if and only if at most one set has messages or all sets lie in one half of the circle |
| FormulaBlock.ParseLines | scripts/homebrew-compose-formula-bottle.rb:94-116 | the loop over a block's lines: its facts, or an abort for a repeated or unsupported line |
| FormulaBlock.Parse | scripts/homebrew-compose-formula-bottle.rb:81-120 | the one block between its two lines, none outside it, or none at all |
| FormulaBlock.ParseRendered | scripts/homebrew-compose-formula-bottle.rb:81-151 | a rendered block, in any surroundings without one, is parsed as what it was rendered from |
| FormulaGrammar.ClassifyIff | scripts/homebrew-compose-formula-bottle.rb:96-113 | a line is taken for what it says and for nothing that it does not say |
| FormulaGrammar.LearnedIff | scripts/homebrew-compose-formula-bottle.rb:94-114 | the lines of a block are accepted if and only if they can stand together, in any order, and then mean what they say |
| FormulaGrammar.ComposableIsParsed | scripts/homebrew-compose-formula-bottle.rb:81-120 | a block of such lines, in any surroundings, is read if and only if it has a root and no rebuild 0 |
| FormulaGrammar.ParsedIsComposable | scripts/homebrew-compose-formula-bottle.rb:81-120 | and every block that is read is one of these |
| FormulaGrammar.NoBlockIff | scripts/homebrew-compose-formula-bottle.rb:81-85 | no block is found exactly where no line begins one |
| FormulaCompose.RenderBlock | scripts/homebrew-compose-formula-bottle.rb:145-151 | the lines of a block, tags sorted |
| FormulaCompose.EditLines | scripts/homebrew-compose-formula-bottle.rb:125-201 | the script's edits come to `Compose`, aborts included |
| FormulaCompose.ComposeFormula | scripts/homebrew-compose-formula-bottle.rb:13-205 | the script writes something if and only if its arguments are valid, Ruby accepts both sources and the result, and `Compose` gives that result |
| FormulaCompose.ParseComposed | scripts/homebrew-compose-formula-bottle.rb:153-201 | what was composed is parsed as what was published, between the same lines |
| FormulaCompose.PublicationsCommute | scripts/homebrew-compose-formula-bottle.rb:125-201 | in preserve mode two tags published in either order give the same lines or are both refused, with or without a block before |
| FormulaCompose.PublishingTwice | scripts/homebrew-compose-formula-bottle.rb:125-201 | publishing the same bottle again changes nothing |
| FormulaEquivalence.ComposeIff | scripts/homebrew-compose-formula-bottle.rb:125-143 | when a publication is written: both sources can be read, the bottle of its tag is the planned one or its own, and a block that is kept has its root and rebuild |
| FormulaEquivalence.NeverOverwritten | scripts/homebrew-compose-formula-bottle.rb:138-141 | a bottle changed since the plan is never overwritten |
| FormulaEquivalence.PublishedBlock | scripts/homebrew-compose-formula-bottle.rb:142-151 | the new block has the publication, and beside it exactly the siblings that were there, if they are kept |
| FormulaCompose.LastEndIsStable | scripts/homebrew-compose-formula-bottle.rb:156-196 | the assumption on class ends can be met |
| FormulaIdentity.LocateIff | scripts/homebrew-formula-source-digest.rb:61-95 | of the sources the composer can read, the digest tool reads exactly those whose block is from the registry and has a bottle, and finds it in the same place |
| FormulaGrammar.LocatedIff | scripts/homebrew-formula-source-digest.rb:61-95 | a block is read if and only if it has one root, of the registry, at most one rebuild, not 0, and one or two bottles |
| FormulaGrammar.RepeatedTag | scripts/homebrew-formula-source-digest.rb:89-91 | so one with a tag twice is read, over which the composer aborts |
| FormulaEquivalence.EquivalentWithBlocks | scripts/homebrew-formula-source-digest.rb:127-130 | two sources with blocks are equivalent if and only if what surrounds the blocks is the same |
| FormulaEquivalence.EquivalentToBare | scripts/homebrew-formula-source-digest.rb:106-135 | a source with a block is equivalent to one without if and only if that one is its surroundings less at most the blank line before and the one behind |
| FormulaEquivalence.EquivalentBare | scripts/homebrew-formula-source-digest.rb:127-130 | two sources without blocks are equivalent if and only if they are equal |
| FormulaEquivalence.MovedBlock | scripts/homebrew-formula-source-digest.rb:127-130 | a block in another place of the same lines makes no difference |
| FormulaEquivalence.ChangedLineShows | scripts/homebrew-formula-source-digest.rb:127-136 | a composed source with any line outside the block changed is read, and not equivalent any more |
| FormulaIdentity.FindBlankStart | scripts/homebrew-formula-source-digest.rb:208-209 | where the blank lines before the class end begin |
| FormulaIdentity.IdentityLines | scripts/homebrew-formula-source-digest.rb:147-218 | the script's list edits come to `Identity` |
| FormulaIdentity.LocateComposed | scripts/homebrew-formula-source-digest.rb:61-104 | the digest tool finds the block of every composed source, and removing it leaves the lines around |
| FormulaIdentity.ComposedIsEquivalent | scripts/homebrew-formula-source-digest.rb:98-136 | the digest tool finds what the composer writes equivalent to what it was given, if and only if a block that was there is from the registry and has a bottle |
| FormulaIdentity.ForeignRoot | scripts/homebrew-formula-source-digest.rb:79-86 | it fails for a block from elsewhere, in any surroundings |
| FormulaIdentity.NoBottles | scripts/homebrew-formula-source-digest.rb:89-91 | and for a block without bottles, in any surroundings |
| FormulaIdentity.FailuresInClass | scripts/homebrew-formula-source-digest.rb:79-91 | both as inputs: a Formula class with such a block |
| FormulaIdentity.IdentityIff | scripts/homebrew-formula-source-digest.rb:147-205 | a source has an identity if and only if its class end can be found without its block |
| FormulaIdentity.ComposedKeepsIdentity | scripts/homebrew-formula-source-digest.rb:147-218 | both have an identity, and the same one, if and only if a block that was there is from the registry and has a bottle and the class end can be found in the source without it, for any number of blank lines before the class end |
| FormulaIdentity.CommentedEnd | scripts/homebrew-formula-source-digest.rb:170-205 | the failing input: a class closed by `end` and a comment |
| FormulaIdentity.IdentityIsIdempotent | scripts/homebrew-formula-source-digest.rb:147-218 | the identity of an identity is itself |
| FormulaEquivalence.IdentityParts | scripts/homebrew-formula-source-digest.rb:207-217 | the identity is the source without its block, with at least one blank line before the class end and without the composer's own |
| FormulaEquivalence.HasClass | scripts/homebrew-formula-source-digest.rb:207-209 | every source whose class end can be found has such parts |
| FormulaEquivalence.SameIdentityIff | scripts/homebrew-formula-source-digest.rb:147-218 | two identities are equal if and only if the sources are the same without their blocks and in their own blank lines before the class end |
| FormulaIdentity.MatchKeepsIdentity | scripts/homebrew-formula-source-digest.rb:138-145 | a receipt that matches has the Formula's identity; only an exact match may have none, which is when the class end cannot be found |
| FormulaIdentity.MatchIff | scripts/homebrew-formula-source-digest.rb:138-145 | a receipt without a block matches a Formula with one if and only if their identities agree and a blank line stands before the receipt's class end |
| FormulaIdentity.ComposedMatchIff | scripts/homebrew-formula-source-digest.rb:138-218 | what the composer makes of a source without a block has its identity, and matches it as a receipt if and only if a blank line stood before its class end |
| FormulaIdentity.EmptyClassDoesNotMatch | scripts/homebrew-formula-source-digest.rb:138-145 | the failing input: an empty class |
| FormulaBottle.AdmitLines | scripts/homebrew-formula-runtime-closure.rb:200-227 | the resolver's loop over a block's lines: its facts with plain cellar names, or an abort |
| FormulaBottle.ParseBottle | scripts/homebrew-formula-runtime-closure.rb:191-232 | the resolver's reading of the block at a line, aborts included |
| FormulaBottle.ReadIff | scripts/homebrew-formula-runtime-closure.rb:191-232 | of a source with one block the resolver reads exactly what the composer can read, is from the registry with a root that does not end in a slash, has a bottle and only cellars of Homebrew, and reads the same |
| FormulaBottle.ReadsComposed | scripts/homebrew-formula-runtime-closure.rb:191-232 | it reads what the composer has written if and only if the root does not end in a slash and the cellars of the siblings kept are known, and then reads the publication and those siblings |
| FormulaBottle.SlashRoot | scripts/homebrew-formula-runtime-closure.rb:207-209 | the failing input: a root with a slash at its end |
| FormulaDependencies.Select | scripts/homebrew-formula-runtime-closure.rb:761-804 | succeeds if and only if all tags are known, no declaration is repeated or malformed and the runtime ones are at most 128, and selects in order |
| FormulaDependencies.ChosenIff | scripts/homebrew-formula-runtime-closure.rb:761-804 | the names selected are exactly the required and recommended ones of the same tap |
| FormulaDependencies.ChosenAreNames | scripts/homebrew-formula-runtime-closure.rb:761-804 | they are proper names, each once and at most 128 |
| RuntimeClosure.EnterKeeps | scripts/homebrew-formula-runtime-closure.rb:820-822 | entering a name keeps the invariant: the stack is the path of the names being visited |
| RuntimeClosure.LeaveKeeps | scripts/homebrew-formula-runtime-closure.rb:829-830 | leaving it keeps it too: dependencies are finished before their dependents |
| RuntimeClosure.CycleFound | scripts/homebrew-formula-runtime-closure.rb:815-817 | the path printed for a cycle is one |
| RuntimeClosure.Search.Visit | scripts/homebrew-formula-runtime-closure.rb:811-831 | ends on every tap; on success the name is finished and the stack is as before; on an abort the reason is true |
| RuntimeClosure.Search.VisitAll | scripts/homebrew-formula-runtime-closure.rb:824-828 | the same for the loop over dependencies |
| RuntimeClosure.NoCycles | scripts/homebrew-formula-runtime-closure.rb:806-833 | after a finished search no cycle can be reached |
| RuntimeClosure.ClosureIsExact | scripts/homebrew-formula-runtime-closure.rb:806-833 | the closure is exactly what the target reaches by one or more edges, without the target, and every name was parsed once |
| RuntimeClosure.Resolve | scripts/homebrew-formula-runtime-closure.rb:806-833 | it finishes if and only if everything reachable can be parsed, is at most 128 names and has no cycle |
| FormulaTap.ParseFormula | scripts/homebrew-formula-runtime-closure.rb:704-804 | what the search is given for a name, aborts over the bottle block and the declarations included |
| FormulaTap.EdgeIff | scripts/homebrew-formula-runtime-closure.rb:761-804 | the edges of the search are exactly the required and recommended declarations of the same tap |
| FormulaTap.NeedsIff | scripts/homebrew-formula-runtime-closure.rb:806-833 | what the search reaches is exactly what the target needs over such declarations |
| FormulaTap.Close | scripts/homebrew-formula-runtime-closure.rb:806-845 | the script comes to its output if and only if the tap can be resolved and nothing met depends on another tap, and then the closure is exactly what the target needs |
| FormulaTap.PrintDirect | scripts/homebrew-formula-runtime-closure.rb:901-902 | the direct mode prints exactly the target's own dependencies, sorted |
| FormulaTap.PrintRecords | scripts/homebrew-formula-runtime-closure.rb:905-922 | the records come if and only if every Formula the target needs has a bottle for the tag, and are exactly those, sorted, each from its own Formula |
| FormulaTap.PublishedIsResolved | scripts/homebrew-formula-runtime-closure.rb:907-920 | the record of a Formula that the composer has written is the publication, if and only if its root does not end in a slash and the cellars kept are known; otherwise the script aborts over the file |
| Provenance.PublishedIsOk | scripts/homebrew-dependency-provenance.py:203-223 | the record of a publication that the resolver can read passes the validator's checks on a bottle |
| Provenance.ValidateDocument | scripts/homebrew-dependency-provenance.py:619-752 | accepts exactly the documents that match the build, with or without a static closure |
| Provenance.ParseExpected | scripts/homebrew-dependency-provenance.py:133-149 | succeeds if and only if every line is blank or a new name of the tap and they are at most 128, and yields the names |
| Provenance.CheckRecords | scripts/homebrew-dependency-provenance.py:185-224 | succeeds if and only if the records are sorted, at most 128 and each as the build wants it, and yields them as a dictionary |
| Provenance.ExactTapDependencies | scripts/homebrew-dependency-provenance.py:161-224 | succeeds if and only if the tap resolves and all the bottles are as the build wants them, and then holds exactly the bottles of what the target needs |
| Provenance.ExactDirectDependencies | scripts/homebrew-dependency-provenance.py:227-256 | exactly the target's own dependencies |
| Provenance.ValidateAgainstTap | scripts/homebrew-dependency-provenance.py:583-752 | from declarations and document alone: accepted if and only if the tap resolves, depends on no other, has the bottles, and the document lists exactly what the target needs, strictly sorted, with the bottle of each one's own Formula and exactly the direct dependencies marked |
| Provenance.AcceptedIsUnique | scripts/homebrew-dependency-provenance.py:619-752 | two accepted documents differ in their evidence at most |
| Order.SortedIsUnique | benchmarks/run.ts:193-193 | a strictly sorted sequence is determined by its members |
| Order.SortForgetsOrder | benchmarks/run.ts:193-193 | sorting forgets the order of a listing |
| Order.LessIff | benchmarks/run.ts:193-193 | names compare by their first different character, a part of the front first |
| FingerprintStream.RecordBack | benchmarks/run.ts:195-202 | a record can be read off the front of any bytes, whatever its file contains |
| FingerprintStream.StreamBack | benchmarks/run.ts:195-259 | the records can be read back from the stream |
| FingerprintStream.StreamIsInjective | benchmarks/run.ts:195-259 | equal streams come from equal records |
| DirectoryWalk.Fingerprint.HashFile | benchmarks/run.ts:195-202 | stream and counts grow by one file record |
| DirectoryWalk.Fingerprint.Mark | benchmarks/run.ts:204-246 | the stream grows by one other record |
| DirectoryWalk.Fingerprint.WalkDirectory | benchmarks/run.ts:204-246 | ends on every finite file system, symbolic links in circles included; the active directories are as before; stream and counts grow by the records of the walk |
| DirectoryWalk.Fingerprint.WalkEntries | benchmarks/run.ts:215-242 | the same for the loop over the entries |
| DirectoryWalk.WalkIsGood | benchmarks/run.ts:190-246 | every record is well formed and lies outside the excluded paths |
| DirectoryWalk.ListingOrderIsForgotten | benchmarks/run.ts:213-214 | the order in which directories are listed makes no difference to stream and counts |
| DirectoryWalk.FingerprintDirectory | benchmarks/run.ts:188-259 | stream and counts are those of the walk, the stream can be read back as its records, and none is excluded |
| DirectoryChains.RecordedIff | benchmarks/run.ts:204-246 | a record is in the walk if and only if a chain of entries through directories and links to directories, none twice and no path on the way excluded, ends in what it describes; a cycle mark exactly where it meets a directory of the chain |
| DirectoryChains.FailsIff | benchmarks/run.ts:204-246 | the walk throws if and only if it begins nowhere or some chain leads to a broken link or a directory that is not there |
| DirectoryChains.ExcludedIff | benchmarks/run.ts:190-192 | an excluded path excludes itself and what lies below it, by names and not by characters |
| DirectoryOrder.WalkPlaces | benchmarks/run.ts:213-242 | the records are in the order of their names, what is in a directory behind it |
| DirectoryOrder.WalkFromRoot | benchmarks/run.ts:204-250 | from the root: exactly the records of the tree, each once |
| DirectoryOrder.StreamsAgreeIff | benchmarks/run.ts:204-250 | two streams are equal if and only if the two trees have the same records |
| DirectoryOrder.ChangesShow | benchmarks/run.ts:223-241 | trees that differ in the content or kind of what one path leads to have different streams |
| DirectoryOrder.CountsFiles | benchmarks/run.ts:195-202 | fileCount is the number of file records and sizeBytes that of all their bytes |
| DirectoryOrder.FingerprintIff | benchmarks/run.ts:169-259 | the same for any listings, with the exact condition for a fingerprint to come out |

## Left out

- The Rust kernel, the host, the browser side, and all other programs and scripts: not part of this model.
- Strings of programs/sh.c are values: sharing of the string arena and the moment in which an assignment's `=` is overwritten are not modelled. Characters are those before the NUL.
- ShellParser.Shell.ParseString: texts at which the tokenizer stalls are excluded from the pool model; `ShellStall.StalledTexts` says on which of them the parser ends, and with which tree of the grammar.
- ShellParser.Shell.ReadTokenHere: the same texts; `ShellLexer.ReadToken` covers them.
- ShellParser.Shell.NextToken: the same texts.
- ShellParser.Shell.PeekToken: the same texts.
- ShellPrinter.RoundTrip: canonical trees only; the parser also yields empty commands, empty conditions and loop variables that are no names, and words whose quoted form is too long for a word.
- ShellText.TextRoundTrip: canonical trees only.
- ShellExec.RunMonotone: loops run within a given number of rounds, because a shell loop may run for ever; the lemma makes the number immaterial. Simple commands, pipelines of processes and what a parent sees of a child are parameters; a fork that fails and a subshell killed by a signal are left out.
- Descriptors.Process.DupFd: there is always a free number.
- ShellRedirect.RunBuiltin: the builtin itself leaves the descriptors alone.
- ShellRedirect.RestoredIffTraceless: for files only; `ShellRedirect.RestoredIff` is the statement for all redirections.
- ShellRedirect.RestoredIffOpen: for files on different descriptors only, for the same reason.
- In programs/sh.c also: builtins' own input and output, exec, signals, jobs, variable storage beyond a lookup, and exit codes of pipelines.
- Lockstep: GL and DRM calls are single steps that succeed or fail; errors of pipe, fork and waitpid themselves are not modelled.
- CatalogOrder.CatalogIsFaithful: splitting a line into number and text (atoi, strtol, fgets) happens before the model, and qsort is taken to leave some permutation in which no element compares greater than the next, each table on its own.
- FormulaBlock.Parse: Ruby's syntax tree is not modelled, so a block hidden from line matching is not refused.
- FormulaCompose.ComposeFormula: what Ruby's parser says of a source is a parameter.
- FormulaCompose.PublicationsCommute: Ruby's syntax tree is a function from sources to the line of the class end. The lemmas on identities assume that blank lines before the class end only move it.
- FormulaCompose.LastEndIsStable: shows that this assumption can be met, not that Ruby meets it.
- FormulaIdentity.IdentityLines: the class end is a parameter.
- FormulaTap.ParseFormula: the checks on the Ruby source before the bottle block and the declarations are one parameter.
- RuntimeClosure.Resolve: infinite taps are functions; reading Ruby source other than bottle blocks is a parameter of `FormulaTap.Shelf`, and the modes for host dependencies and declarations are left out.
- Provenance.ValidateDocument: the checks on receipts, logs, versions and digests of one dependency are one parameter, and JSON shape checks are left out.
- Provenance.ParseExpected: lines come without blanks around them.
- DirectoryWalk.FingerprintDirectory: SHA-256, the file system calls and UTF-8 are outside; names compare by character, a listing has each name once, and excluded paths come with slashes.
