/** Printing a command tree as tokens, and reading it back. */
module ShellPrinter {
  import opened Options
  import opened ShellLexer
  import opened ShellExpand
  import opened ShellSyntax

  /** The choices a script writer has: `;` or newline between commands, a separator before a
      closing word or not, `elif` or a nested `else if`. */
  datatype Style = Style(newlines: bool, trailing: bool, elif: bool)

  function Sep(st: Style): Token { if st.newlines then Newline else Semi }

  // ------------------------------------------------------------------
  // Canonical trees
  // ------------------------------------------------------------------

  /** Any text at all can be an argument, as long as its quoted form fits into a word. */
  predicate Quotable(s: string) { |Quote(s)| < MAX_WORD }

  predicate AllQuotable(ss: seq<string>) { forall s :: s in ss ==> Quotable(s) }

  predicate IsName(s: string) { 0 < |s| <= NAME_ROOM && forall i :: 0 <= i < |s| ==> IsNameChar(s[i]) }

  /** Redirections that have a spelling: output to any one-digit descriptor, input from 0. */
  predicate Spelled(r: Redir) {
    && r.dup.None? && Quotable(r.file)
    && match r.mode
       case Truncate => r.fd <= 9
       case Append => r.fd <= 9
       case Read => r.fd == 0
       case NoMode => false
  }

  /** Pipelines bind tightest, then && and ||, then sequences; all associate to the left. */
  function Level(op: BinOp): nat {
    match op
    case Pipeline => 1
    case And => 2
    case Or => 2
    case Sequence => 3
  }

  /** The tree is a command (level 0), pipeline (1), and-or list (2) or list (3) of the grammar,
      and within the parser's limits on arguments, redirections and loop words. */
  predicate Canonical(a: Ast, level: nat)
    decreases a, 0
  {
    match a
    case Nothing => false
    case Simple(args, redirs) =>
      && (args != [] || redirs != [])
      && |args| < MAX_ARGS && AllQuotable(args)
      && |redirs| <= MAX_REDIRS && forall r :: r in redirs ==> Spelled(r)
    case Binary(op, l, r) => Level(op) <= level && Canonical(l, Level(op)) && Canonical(r, Level(op) - 1)
    case Group(_, b) => Body(b)
    case If(c, t, e) => Canonical(c, 3) && Body(t) && Body(e)
    case While(c, b) => Canonical(c, 3) && Body(b)
    case For(name, words, b) => IsName(name) && |words| <= MAX_FOR_WORDS && AllQuotable(words) && Body(b)
  }

  /** A body may be empty. */
  predicate Body(a: Ast)
    decreases a, 1
  {
    a.Nothing? || Canonical(a, 3)
  }

  function TextNeed(ss: seq<string>): nat {
    if ss == [] then 0 else |ss[0]| + 1 + TextNeed(ss[1..])
  }

  /** The string arena space a tree takes: file names of redirections are kept in the node. */
  function Need(a: Ast): nat {
    match a
    case Nothing => 0
    case Simple(args, _) => TextNeed(args)
    case Binary(_, l, r) => Need(l) + Need(r)
    case Group(_, b) => Need(b)
    case If(c, t, e) => Need(c) + Need(t) + Need(e)
    case While(c, b) => Need(c) + Need(b)
    case For(_, words, b) => TextNeed(words) + Need(b)
  }

  // ------------------------------------------------------------------
  // Printing
  // ------------------------------------------------------------------

  function EmitWords(ss: seq<string>, k: Tokens): Tokens {
    if ss == [] then k else Next(Word(Quote(ss[0])), EmitWords(ss[1..], k))
  }

  function DigitWord(n: nat): Token { Word(['0' + (n % 10) as char]) }

  function EmitRedir(r: Redir, k: Tokens): Tokens {
    var target := Next(Word(Quote(r.file)), k);
    if r.mode == Read then Next(RedirIn, target)
    else
      var op := Next(if r.mode == Append then RedirAppend else RedirOut, target);
      if r.fd == 1 then op else Next(DigitWord(r.fd), op)
  }

  function EmitRedirs(rs: seq<Redir>, k: Tokens): Tokens {
    if rs == [] then k else EmitRedir(rs[0], EmitRedirs(rs[1..], k))
  }

  function OpToken(st: Style, op: BinOp): Token {
    match op
    case Pipeline => Pipe
    case And => AndIf
    case Or => OrIf
    case Sequence => Sep(st)
  }

  /** A closing token, behind a separator if the style has one there. */
  function Closing(st: Style, t: Token, k: Tokens): Tokens {
    if st.trailing then Next(Sep(st), Next(t, k)) else Next(t, k)
  }

  /** The tokens of `a`, then `k`. No separator may come before `then` and `do`. */
  function Emit(st: Style, a: Ast, k: Tokens): Tokens
    decreases a, 1
  {
    match a
    case Nothing => k
    case Simple(args, redirs) => EmitWords(args, EmitRedirs(redirs, k))
    case Binary(op, l, r) => Emit(st, l, Next(OpToken(st, op), Emit(st, r, k)))
    case Group(Brace, b) => Next(LBrace, Emit(st, b, Closing(st, RBrace, k)))
    case Group(Subshell, b) => Next(LParen, Emit(st, b, Closing(st, RParen, k)))
    case If(_, _, _) => Next(Word("if"), EmitIf(st, a, k))
    case While(c, b) =>
      Next(Word("while"), Emit(st, c, Next(Word("do"), Emit(st, b, Closing(st, Word("done"), k)))))
    case For(name, words, b) =>
      Next(Word("for"), Next(Word(name), Next(Word("in"), EmitWords(words, Next(Sep(st), Next(Word("do"),
        Emit(st, b, Closing(st, Word("done"), k))))))))
  }

  /** What follows `if` or `elif`. */
  function EmitIf(st: Style, a: Ast, k: Tokens): Tokens
    requires a.If?
    decreases a, 0
  {
    Emit(st, a.cond, Next(Word("then"), Emit(st, a.thn,
      if a.els.Nothing? then Closing(st, Word("fi"), k)
      else if a.els.If? && st.elif then Closing(st, Word("elif"), EmitIf(st, a.els, k))
      else Closing(st, Word("else"), Emit(st, a.els, Closing(st, Word("fi"), k))))))
  }

  // ------------------------------------------------------------------
  // Reading back
  // ------------------------------------------------------------------

  /** A token that parse_simple stops at. */
  predicate StopsSimple(t: Token) {
    !IsRedirect(t) && (t.Word? ==> |t.text| != 1 && !IsDupWord(t.text) && IsKeyword(t.text))
  }

  /** A token a command can begin with. */
  predicate Starts(t: Token) { t != Eof && !IsSeparator(t) && !EndsList(t) }

  lemma QuotedIsPlain(s: string)
    ensures |Quote(s)| >= 2 && Quote(s)[0] == '\'' && !IsKeyword(Quote(s))
  {
    assert Quote(s)[0] == '\'';
    assert "if"[0] == 'i' && "then"[0] == 't' && "elif"[0] == 'e' && "else"[0] == 'e' && "fi"[0] == 'f'
        && "while"[0] == 'w';
    assert "for"[0] == 'f' && "do"[0] == 'd' && "done"[0] == 'd' && "in"[0] == 'i' && "case"[0] == 'c'
        && "esac"[0] == 'e';
  }

  /** An argument comes back as it went in, and takes its length and a terminator of arena. */
  lemma ReadArg(env: Env, s: string, used: nat)
    requires Quotable(s) && used + |s| + 1 <= STRING_ARENA_SIZE
    ensures Keep(Expanded(env, Quote(s)), used) == (s, used + |s| + 1)
  {
    ExpandQuoted(env, s);
    assert Expanded(env, Quote(s)) == s;
  }

  lemma ReadFile(env: Env, s: string)
    requires Quotable(s)
    ensures Expanded(env, Quote(s)) == s
  {
    ExpandQuoted(env, s);
  }

  lemma {:induction false} ReadRedirs(env: Env, rs: seq<Redir>, args: seq<string>, got: seq<Redir>, k: Tokens,
                                      used: nat)
    requires forall r :: r in rs ==> Spelled(r)
    requires |got| + |rs| <= MAX_REDIRS && StopsSimple(Peek(k))
    ensures SimpleLoop(env, EmitRedirs(rs, k), args, got, used) == Parsed(Simple(args, got + rs), k, used)
    decreases |rs|
  {
    if rs == [] {
      assert got + rs == got;
    } else {
      var r, rest := rs[0], EmitRedirs(rs[1..], k);
      assert got + [r] + rs[1..] == got + rs;
      ReadRedirs(env, rs[1..], args, got + [r], k, used);
      ReadRedir(env, r, args, got, rest, used);
    }
  }

  lemma {:induction false} ReadRedir(env: Env, r: Redir, args: seq<string>, got: seq<Redir>, k: Tokens, used: nat)
    requires Spelled(r) && |got| < MAX_REDIRS
    ensures SimpleLoop(env, EmitRedir(r, k), args, got, used) == SimpleLoop(env, k, args, got + [r], used)
  {
    hide Quote, Expanded, SimpleLoop;
    QuotedIsPlain(r.file);
    ReadFile(env, r.file);
    if r.mode == Read {
      TakesPlain(env, RedirIn, Quote(r.file), k, args, got, used);
    } else {
      var op := if r.mode == Append then RedirAppend else RedirOut;
      if r.fd == 1 {
        TakesPlain(env, op, Quote(r.file), k, args, got, used);
      } else {
        TakesNumbered(env, r.fd, op, Quote(r.file), k, args, got, used);
      }
    }
  }

  lemma {:induction false} TakesPlain(env: Env, op: Token, w: string, ts: Tokens, args: seq<string>, got: seq<Redir>,
                                      used: nat)
    requires IsRedirect(op) && |got| < MAX_REDIRS
    ensures SimpleLoop(env, Next(op, Next(Word(w), ts)), args, got, used)
         == SimpleLoop(env, ts, args, got + [PlainRedir(op).(file := Expanded(env, w))], used)
  {
    hide Expanded;
  }

  lemma {:induction false} TakesNumbered(env: Env, fd: nat, op: Token, w: string, ts: Tokens, args: seq<string>,
                                         got: seq<Redir>, used: nat)
    requires fd <= 9 && (op == RedirOut || op == RedirAppend) && |got| < MAX_REDIRS && |w| >= 2 && w[0] != '&'
    ensures var mode := if op == RedirAppend then Append else Truncate;
            SimpleLoop(env, Next(DigitWord(fd), Next(op, Next(Word(w), ts))), args, got, used)
            == SimpleLoop(env, ts, args, got + [Redir(fd, mode, None, Expanded(env, w))], used)
  {
    hide Expanded, IsKeyword;
    var rest := Next(op, Next(Word(w), ts));
    assert DigitValue(DigitWord(fd).text[0]) == fd;
    assert NumberedRedir(env, fd, rest).1 == ts;
  }

  /** A word that is neither short nor special is one more argument. */
  lemma {:induction false} TakesArg(env: Env, w: string, ts: Tokens, got: seq<string>, used: nat)
    requires |w| >= 2 && !IsDigit(w[0]) && !IsKeyword(w)
    ensures var (args, used') := AddArg(env, w, got, used);
            SimpleLoop(env, Next(Word(w), ts), got, [], used) == SimpleLoop(env, ts, args, [], used')
  {
    hide IsKeyword, AddArg;
  }

  lemma {:induction false} ReadArgs(env: Env, ss: seq<string>, got: seq<string>, k: Tokens, used: nat)
    requires AllQuotable(ss) && |got| + |ss| < MAX_ARGS
    requires used + TextNeed(ss) <= STRING_ARENA_SIZE
    ensures SimpleLoop(env, EmitWords(ss, k), got, [], used) == SimpleLoop(env, k, got + ss, [], used + TextNeed(ss))
    decreases |ss|
  {
    hide Quote, Expanded, Keep, IsKeyword, SimpleLoop;
    if ss == [] {
      assert got + ss == got;
    } else {
      QuotedIsPlain(ss[0]);
      TakesArg(env, Quote(ss[0]), EmitWords(ss[1..], k), got, used);
      ReadArg(env, ss[0], used);
      assert got + [ss[0]] + ss[1..] == got + ss;
      ReadArgs(env, ss[1..], got + [ss[0]], k, used + |ss[0]| + 1);
    }
  }

  lemma {:induction false} ReadForWords(env: Env, ss: seq<string>, got: seq<string>, k: Tokens, used: nat)
    requires AllQuotable(ss) && |got| + |ss| <= MAX_FOR_WORDS
    requires used + TextNeed(ss) <= STRING_ARENA_SIZE && IsSeparator(Peek(k))
    ensures WordsLoop(env, EmitWords(ss, k), got, used) == (got + ss, k, used + TextNeed(ss))
    decreases |ss|
  {
    hide Quote, Expanded, Keep, IsKeyword;
    if ss == [] {
      assert got + ss == got;
    } else {
      QuotedIsPlain(ss[0]);
      ReadArg(env, ss[0], used);
      assert got + [ss[0]] + ss[1..] == got + ss;
      ReadForWords(env, ss[1..], got + [ss[0]], k, used + |ss[0]| + 1);
    }
  }

  lemma {:induction false} ReadSimple(env: Env, args: seq<string>, redirs: seq<Redir>, k: Tokens, used: nat)
    requires |args| < MAX_ARGS && AllQuotable(args)
    requires |redirs| <= MAX_REDIRS && forall r :: r in redirs ==> Spelled(r)
    requires used + TextNeed(args) <= STRING_ARENA_SIZE && StopsSimple(Peek(k))
    ensures ParseSimple(env, EmitWords(args, EmitRedirs(redirs, k)), used)
         == Parsed(Simple(args, redirs), k, used + TextNeed(args))
  {
    ReadArgs(env, args, [], EmitRedirs(redirs, k), used);
    ReadRedirs(env, redirs, args, [], k, used + TextNeed(args));
    assert [] + args == args && [] + redirs == redirs;
  }

  lemma {:induction false} FirstToken(st: Style, a: Ast, level: nat, k: Tokens)
    requires Canonical(a, level)
    ensures Starts(Peek(Emit(st, a, k)))
    decreases a
  {
    match a
    case Simple(args, redirs) =>
      if args != [] { QuotedIsPlain(args[0]); }
    case Binary(op, l, r) =>
      FirstToken(st, l, Level(op), Next(OpToken(st, op), Emit(st, r, k)));
    case _ =>
  }

  lemma {:induction false} EmitBinary(st: Style, a: Ast, k: Tokens)
    requires a.Binary?
    ensures Emit(st, a, k) == Emit(st, a.left, Next(OpToken(st, a.op), Emit(st, a.right, k)))
  {}

  lemma StartsHere(ts: Tokens)
    requires Starts(Peek(ts))
    ensures SkipNewlines(ts) == ts
  {}

  /** A list that reads back as far as its loop ends there when a closing token follows. */
  lemma {:induction false} ReadBody(env: Env, st: Style, a: Ast, t: Token, k: Tokens, used: nat)
    requires Body(a) && EndsList(t) && t != Eof && used + Need(a) <= STRING_ARENA_SIZE
    ensures ParseList(env, Emit(st, a, Closing(st, t, k)), used) == Parsed(a, Next(t, k), used + Need(a))
    decreases a, 5
  {
    var after := Closing(st, t, k);
    if a.Nothing? {
      hide ParseAndOr, ListLoop;
      assert SkipNewlines(after) == Next(t, k);
    } else {
      hide Emit, ParseList, ListLoop, Canonical, Need, StopsSimple, EndsList, Closing;
      ListEnds(env, st, a, t, k, used + Need(a));
      ReadList(env, st, a, after, used);
    }
  }

  /** Where a closing token follows, with or without a separator, the list ends in front of it. */
  lemma {:induction false} ListEnds(env: Env, st: Style, a: Ast, t: Token, k: Tokens, used: nat)
    requires EndsList(t) && t != Eof
    ensures ListLoop(env, Parsed(a, Closing(st, t, k), used)) == Parsed(a, Next(t, k), used)
    ensures var first := Peek(Closing(st, t, k));
            StopsSimple(first) && first != Pipe && first != AndIf && first != OrIf
  {
    hide ParseAndOr;
    assert SkipNewlines(Next(t, k)) == Next(t, k);
  }

  /** A condition reads back up to the `then` or `do` that follows it without a separator. */
  lemma {:induction false} ReadCondition(env: Env, st: Style, a: Ast, t: string, k: Tokens, used: nat)
    requires Canonical(a, 3) && (t == "then" || t == "do") && used + Need(a) <= STRING_ARENA_SIZE
    ensures ParseList(env, Emit(st, a, Next(Word(t), k)), used) == Parsed(a, Next(Word(t), k), used + Need(a))
    decreases a, 5
  {
    hide ParseList, ListLoop, Emit, Canonical, Need, StopsSimple;
    MiddleWord(t);
    ReadList(env, st, a, Next(Word(t), k), used);
    ListStays(env, Parsed(a, Next(Word(t), k), used + Need(a)));
  }

  lemma MiddleWord(t: string)
    requires t == "then" || t == "do"
    ensures StopsSimple(Word(t))
  {}

  lemma {:induction false} ListStays(env: Env, p: Parsed)
    requires !IsSeparator(Peek(p.rest))
    ensures ListLoop(env, p) == p
  {}

  // One step of each loop, and where the loops stop.

  lemma {:induction false} ListStarts(env: Env, ts: Tokens, used: nat)
    requires Starts(Peek(ts))
    ensures ParseList(env, ts, used) == ListLoop(env, ParseAndOr(env, ts, used))
  {
    hide ParseAndOr, ListLoop;
    StartsHere(ts);
  }

  lemma {:induction false} ListStep(env: Env, l: Ast, t: Token, ts: Tokens, used: nat)
    requires IsSeparator(t) && Starts(Peek(ts))
    ensures var q := ParseAndOr(env, ts, used);
            ListLoop(env, Parsed(l, Next(t, ts), used))
            == ListLoop(env, Parsed(Binary(Sequence, l, q.ast), q.rest, q.used))
  {
    hide ParseAndOr;
    StartsHere(ts);
  }

  lemma {:induction false} AndOrStep(env: Env, l: Ast, t: Token, ts: Tokens, used: nat)
    requires (t == AndIf || t == OrIf) && Starts(Peek(ts))
    ensures var q := ParsePipeline(env, ts, used);
            AndOrLoop(env, Parsed(l, Next(t, ts), used))
            == AndOrLoop(env, Parsed(Binary(if t == AndIf then And else Or, l, q.ast), q.rest, q.used))
  {
    hide ParsePipeline;
    StartsHere(ts);
  }

  lemma {:induction false} AndOrStops(env: Env, p: Parsed)
    requires Peek(p.rest) != AndIf && Peek(p.rest) != OrIf
    ensures AndOrLoop(env, p) == p
  {}

  lemma {:induction false} PipelineStep(env: Env, l: Ast, ts: Tokens, used: nat)
    requires Starts(Peek(ts))
    ensures var q := ParseCommand(env, ts, used);
            PipelineLoop(env, Parsed(l, Next(Pipe, ts), used))
            == PipelineLoop(env, Parsed(Binary(Pipeline, l, q.ast), q.rest, q.used))
  {
    hide ParseCommand;
    StartsHere(ts);
  }

  lemma {:induction false} PipelineStops(env: Env, p: Parsed)
    requires Peek(p.rest) != Pipe
    ensures PipelineLoop(env, p) == p
  {}

  /** The operands of a binary tree, and the operator token, which no simple command swallows. */
  lemma Operands(st: Style, a: Ast, level: nat)
    requires a.Binary? && Canonical(a, level)
    ensures Level(a.op) <= level && Canonical(a.left, Level(a.op)) && Canonical(a.right, Level(a.op) - 1)
    ensures Need(a) == Need(a.left) + Need(a.right)
    ensures StopsSimple(OpToken(st, a.op))
  {}

  /** What a command is made of. */
  lemma Parts(a: Ast)
    requires Canonical(a, 0)
    ensures a.Simple? ==> Need(a) == TextNeed(a.args)
    ensures a.Group? ==> Body(a.body) && Need(a) == Need(a.body)
    ensures a.If? ==>
              Canonical(a.cond, 3) && Body(a.thn) && Body(a.els) && Need(a) == Need(a.cond) + Need(a.thn) + Need(a.els)
    ensures a.While? ==> Canonical(a.cond, 3) && Body(a.body) && Need(a) == Need(a.cond) + Need(a.body)
    ensures a.For? ==> Body(a.body) && Need(a) == TextNeed(a.words) + Need(a.body)
  {}

  /** A tree that is not a binary of this level is one of the next tighter level. */
  lemma Tighter(a: Ast, level: nat)
    requires 0 < level && Canonical(a, level) && !(a.Binary? && Level(a.op) == level)
    ensures Canonical(a, level - 1)
  {}

  lemma {:induction false} ReadList(env: Env, st: Style, a: Ast, k: Tokens, used: nat)
    requires Canonical(a, 3) && used + Need(a) <= STRING_ARENA_SIZE
    requires StopsSimple(Peek(k)) && Peek(k) != Pipe && Peek(k) != AndIf && Peek(k) != OrIf
    ensures ParseList(env, Emit(st, a, k), used) == ListLoop(env, Parsed(a, k, used + Need(a)))
    decreases a, 4
  {
    hide ParseAndOr, ParseList, ListLoop, AndOrLoop, Emit, Canonical, Need, StopsSimple, Starts;
    var u := used + Need(a);
    if a.Binary? && Level(a.op) == 3 {
      Operands(st, a, 3);
      var rest := Emit(st, a.right, k);
      EmitBinary(st, a, k);
      ReadList(env, st, a.left, Next(Sep(st), rest), used);
      FirstToken(st, a.right, 2, k);
      ListStep(env, a.left, Sep(st), rest, used + Need(a.left));
      ReadAndOr(env, st, a.right, k, used + Need(a.left));
      AndOrStops(env, Parsed(a.right, k, u));
    } else {
      Tighter(a, 3);
      FirstToken(st, a, 3, k);
      ListStarts(env, Emit(st, a, k), used);
      ReadAndOr(env, st, a, k, used);
      AndOrStops(env, Parsed(a, k, u));
    }
  }

  lemma {:induction false} ReadAndOr(env: Env, st: Style, a: Ast, k: Tokens, used: nat)
    requires Canonical(a, 2) && used + Need(a) <= STRING_ARENA_SIZE
    requires StopsSimple(Peek(k)) && Peek(k) != Pipe
    ensures ParseAndOr(env, Emit(st, a, k), used) == AndOrLoop(env, Parsed(a, k, used + Need(a)))
    decreases a, 3
  {
    hide ParsePipeline, AndOrLoop, PipelineLoop, Emit, Canonical, Need, StopsSimple, Starts;
    var u := used + Need(a);
    if a.Binary? && Level(a.op) == 2 {
      Operands(st, a, 2);
      var rest := Emit(st, a.right, k);
      EmitBinary(st, a, k);
      ReadAndOr(env, st, a.left, Next(OpToken(st, a.op), rest), used);
      FirstToken(st, a.right, 1, k);
      AndOrStep(env, a.left, OpToken(st, a.op), rest, used + Need(a.left));
      ReadPipeline(env, st, a.right, k, used + Need(a.left));
      PipelineStops(env, Parsed(a.right, k, u));
    } else {
      Tighter(a, 2);
      ReadPipeline(env, st, a, k, used);
      PipelineStops(env, Parsed(a, k, u));
    }
  }

  lemma {:induction false} ReadPipeline(env: Env, st: Style, a: Ast, k: Tokens, used: nat)
    requires Canonical(a, 1) && used + Need(a) <= STRING_ARENA_SIZE
    requires StopsSimple(Peek(k))
    ensures ParsePipeline(env, Emit(st, a, k), used) == PipelineLoop(env, Parsed(a, k, used + Need(a)))
    decreases a, 2
  {
    hide ParseCommand, PipelineLoop, Emit, Canonical, Need, StopsSimple, Starts;
    if a.Binary? && Level(a.op) == 1 {
      Operands(st, a, 1);
      var rest := Emit(st, a.right, k);
      EmitBinary(st, a, k);
      ReadPipeline(env, st, a.left, Next(Pipe, rest), used);
      FirstToken(st, a.right, 0, k);
      PipelineStep(env, a.left, rest, used + Need(a.left));
      ReadCommand(env, st, a.right, k, used + Need(a.left));
    } else {
      Tighter(a, 1);
      ReadCommand(env, st, a, k, used);
    }
  }

  lemma {:induction false} ReadCommand(env: Env, st: Style, a: Ast, k: Tokens, used: nat)
    requires Canonical(a, 0) && used + Need(a) <= STRING_ARENA_SIZE
    requires StopsSimple(Peek(k))
    ensures ParseCommand(env, Emit(st, a, k), used) == Parsed(a, k, used + Need(a))
    decreases a, 1
  {
    hide ParseCommand, ParseList, ParseIf, ParseWhile, ParseFor, ParseSimple, Need, Body, Closing, IsKeyword;
    Parts(a);
    CommandCases(env, Emit(st, a, k), used);
    match a
    case Simple(args, redirs) =>
      FirstOfSimple(args, redirs, k);
      ReadSimple(env, args, redirs, k, used);
    case Group(shape, b) =>
      ReadBody(env, st, b, if shape == Brace then RBrace else RParen, k, used);
    case If(_, _, _) =>
      ReadIf(env, st, a, Word("if"), k, used);
    case While(_, _) =>
      ReadWhile(env, st, a, k, used);
    case For(_, _, _) =>
      ReadFor(env, st, a, k, used);
  }

  /** A printed simple command begins with no keyword and no opening token. */
  lemma {:induction false} FirstOfSimple(args: seq<string>, redirs: seq<Redir>, k: Tokens)
    requires (args != [] || redirs != []) && forall r :: r in redirs ==> Spelled(r)
    ensures var t := Peek(EmitWords(args, EmitRedirs(redirs, k)));
            t != LBrace && t != LParen && (t.Word? ==> !IsKeyword(t.text))
  {
    hide Quote;
    if args != [] {
      QuotedIsPlain(args[0]);
    } else {
      assert Spelled(redirs[0]);
      OneLetterIsPlain(DigitWord(redirs[0].fd).text);
    }
  }

  lemma OneLetterIsPlain(w: string)
    requires |w| == 1
    ensures !IsKeyword(w)
  {}

  lemma ListSkips(env: Env, ts: Tokens, used: nat)
    ensures ParseList(env, SkipNewlines(ts), used) == ParseList(env, ts, used)
  {}

  lemma {:induction false} ReadWhile(env: Env, st: Style, a: Ast, k: Tokens, used: nat)
    requires a.While? && Canonical(a, 0) && used + Need(a) <= STRING_ARENA_SIZE
    ensures ParseWhile(env, Emit(st, a, k), used) == Parsed(a, k, used + Need(a))
    decreases a, 0
  {
    hide ParseList, SkipNewlines, Emit, Closing, Canonical, Need, Body;
    Parts(a);
    EmitWhileDef(st, a, k);
    var body := Emit(st, a.body, Closing(st, Word("done"), k));
    ListSkips(env, Emit(st, a.cond, Next(Word("do"), body)), used);
    ReadCondition(env, st, a.cond, "do", body, used);
    ListSkips(env, body, used + Need(a.cond));
    ReadBody(env, st, a.body, Word("done"), k, used + Need(a.cond));
  }

  lemma {:induction false} EmitWhileDef(st: Style, a: Ast, k: Tokens)
    requires a.While?
    ensures var body := Emit(st, a.body, Closing(st, Word("done"), k));
            Emit(st, a, k) == Next(Word("while"), Emit(st, a.cond, Next(Word("do"), body)))
  {}

  lemma {:induction false} ReadFor(env: Env, st: Style, a: Ast, k: Tokens, used: nat)
    requires a.For? && Canonical(a, 0) && used + Need(a) <= STRING_ARENA_SIZE
    ensures ParseFor(env, Emit(st, a, k), used) == Parsed(a, k, used + Need(a))
    decreases a, 0
  {
    hide ParseList, Emit, Closing, Canonical, Need, Body, ForHeader, EmitForHeader, TextNeed, SkipNewlines;
    Parts(a);
    var body := Emit(st, a.body, Closing(st, Word("done"), k));
    ReadForHeader(env, st, a, body, used);
    ListSkips(env, body, used + TextNeed(a.words));
    ReadBody(env, st, a.body, Word("done"), k, used + TextNeed(a.words));
    assert Emit(st, a, k) == EmitForHeader(st, a, body) by { EmitForDef(st, a, k); }
  }

  function EmitForHeader(st: Style, a: Ast, body: Tokens): Tokens
    requires a.For?
  {
    Next(Word("for"), Next(Word(a.name), Next(Word("in"), EmitWords(a.words, Next(Sep(st), Next(Word("do"), body))))))
  }

  lemma {:induction false} EmitForDef(st: Style, a: Ast, k: Tokens)
    requires a.For?
    ensures Emit(st, a, k) == EmitForHeader(st, a, Emit(st, a.body, Closing(st, Word("done"), k)))
  {}

  lemma {:induction false} ReadForHeader(env: Env, st: Style, a: Ast, body: Tokens, used: nat)
    requires a.For? && Canonical(a, 0) && used + TextNeed(a.words) <= STRING_ARENA_SIZE
    ensures ForHeader(env, EmitForHeader(st, a, body), used)
         == (a.name, a.words, SkipNewlines(body), used + TextNeed(a.words))
  {
    var after := Next(Sep(st), Next(Word("do"), body));
    ReadForWords(env, a.words, [], after, used);
    assert [] + a.words == a.words;
    assert SkipNewlines(after) == Next(Word("do"), body);
    assert a.name[..|a.name|] == a.name;
  }

  lemma {:induction false} ReadIf(env: Env, st: Style, a: Ast, t: Token, k: Tokens, used: nat)
    requires a.If? && Canonical(a, 0) && used + Need(a) <= STRING_ARENA_SIZE && t != Eof
    ensures ParseIf(env, Next(t, EmitIf(st, a, k)), used) == Parsed(a, k, used + Need(a))
    decreases a, 0
  {
    hide ParseList, ParseElse, ParseIf, SkipNewlines, Emit, EmitIf, Closing, ElseTokens, Canonical, Need, Body;
    Parts(a);
    var (closer, after) := ElseTokens(st, a, k);
    ElseCloses(st, a, k);
    EmitIfDef(st, a, k);
    var body := Emit(st, a.thn, Closing(st, closer, after));
    ListSkips(env, Emit(st, a.cond, Next(Word("then"), body)), used);
    ReadCondition(env, st, a.cond, "then", body, used);
    ListSkips(env, body, used + Need(a.cond));
    ReadBody(env, st, a.thn, closer, after, used + Need(a.cond));
    ReadElse(env, st, a, k, used + Need(a.cond) + Need(a.thn));
    IfStep(env, t, EmitIf(st, a, k), body, used);
  }

  /** An `if` whose condition ends in front of `then`. */
  lemma {:induction false} IfStep(env: Env, t: Token, ts: Tokens, body: Tokens, used: nat)
    requires t != Eof && ParseList(env, SkipNewlines(ts), used).rest == Next(Word("then"), body)
    ensures var c := ParseList(env, SkipNewlines(ts), used);
            var b := ParseList(env, SkipNewlines(body), c.used);
            var e := ParseElse(env, b.rest, b.used);
            ParseIf(env, Next(t, ts), used) == Parsed(If(c.ast, b.ast, e.ast), e.rest, e.used)
  {
    hide ParseList, ParseElse, SkipNewlines;
  }

  /** The token that ends the `then` part, and what comes behind it. */
  function ElseTokens(st: Style, a: Ast, k: Tokens): (Token, Tokens)
    requires a.If?
  {
    if a.els.Nothing? then (Word("fi"), k)
    else if a.els.If? && st.elif then (Word("elif"), EmitIf(st, a.els, k))
    else (Word("else"), Emit(st, a.els, Closing(st, Word("fi"), k)))
  }

  lemma {:induction false} EmitIfDef(st: Style, a: Ast, k: Tokens)
    requires a.If?
    ensures var (closer, after) := ElseTokens(st, a, k);
            EmitIf(st, a, k) == Emit(st, a.cond, Next(Word("then"), Emit(st, a.thn, Closing(st, closer, after))))
  {}

  lemma ElseCloses(st: Style, a: Ast, k: Tokens)
    requires a.If?
    ensures EndsList(ElseTokens(st, a, k).0) && ElseTokens(st, a, k).0 != Eof
  {}

  lemma {:induction false} ReadElse(env: Env, st: Style, a: Ast, k: Tokens, used: nat)
    requires a.If? && Canonical(a, 0) && used + Need(a.els) <= STRING_ARENA_SIZE
    ensures var (closer, after) := ElseTokens(st, a, k);
            ParseElse(env, Next(closer, after), used) == Parsed(a.els, k, used + Need(a.els))
    decreases a.els, 6
  {
    hide ParseList, ParseIf, SkipNewlines;
    var (closer, after) := ElseTokens(st, a, k);
    if closer == Word("elif") {
      assert Canonical(a.els, 3) && Canonical(a.els, 0);
      ReadIf(env, st, a.els, closer, k, used);
    } else if closer == Word("else") {
      ListSkips(env, after, used);
      ReadBody(env, st, a.els, Word("fi"), k, used);
    }
  }

  // ------------------------------------------------------------------
  // The round trip
  // ------------------------------------------------------------------

  /** For every canonical tree, at any depth, printing it in any style and parsing the tokens gives the
      tree back, to the last token and the last byte of string space. */
  lemma RoundTrip(env: Env, st: Style, a: Ast)
    requires Canonical(a, 3) && Need(a) <= STRING_ARENA_SIZE
    ensures ParseList(env, Emit(st, a, End), 0) == Parsed(a, End, Need(a))
  {
    hide ParseList, ParseAndOr, Emit;
    ReadList(env, st, a, End, 0);
  }

  /** Inside a larger text, the closing token that follows is left for the caller. */
  lemma RoundTripInside(env: Env, st: Style, a: Ast, t: Token, k: Tokens, used: nat)
    requires Body(a) && EndsList(t) && t != Eof && used + Need(a) <= STRING_ARENA_SIZE
    ensures ParseList(env, Emit(st, a, Closing(st, t, k)), used) == Parsed(a, Next(t, k), used + Need(a))
  {
    ReadBody(env, st, a, t, k, used);
  }

  // ------------------------------------------------------------------
  // Closing tokens
  // ------------------------------------------------------------------

  function Opening(shape: Shape): Token { if shape == Brace then LBrace else LParen }

  /** A closing token that does not belong to the group ends it all the same, and is left for whoever comes
      next; ... */
  lemma {:induction false} WrongCloser(env: Env, st: Style, shape: Shape, b: Ast, t: Token, k: Tokens, used: nat)
    requires Body(b) && EndsList(t) && t != Eof && used + Need(b) <= STRING_ARENA_SIZE
    requires t != if shape == Brace then RBrace else RParen
    ensures ParseCommand(env, Next(Opening(shape), Emit(st, b, Closing(st, t, k))), used)
         == Parsed(Group(shape, b), Next(t, k), used + Need(b))
  {
    hide ParseCommand, ParseList, Emit, Closing, Need, Body;
    CommandCases(env, Next(Opening(shape), Emit(st, b, Closing(st, t, k))), used);
    ReadBody(env, st, b, t, k, used);
  }

  /** ... and so does the end of the text. */
  lemma {:induction false} UnclosedGroup(env: Env, st: Style, shape: Shape, b: Ast, used: nat)
    requires Canonical(b, 3) && used + Need(b) <= STRING_ARENA_SIZE
    ensures ParseCommand(env, Next(Opening(shape), Emit(st, b, End)), used)
         == Parsed(Group(shape, b), End, used + Need(b))
  {
    hide ParseCommand, ParseList, Emit, Need, Canonical;
    CommandCases(env, Next(Opening(shape), Emit(st, b, End)), used);
    ReadList(env, st, b, End, used);
  }
}
