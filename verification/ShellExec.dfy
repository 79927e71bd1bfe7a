/** Running a command tree: run_node of programs/sh.c, and what a separator before `then` or
    `do` does to it. */
module ShellExec {
  import opened ShellLexer
  import opened ShellExpand
  import opened ShellSyntax
  import opened ShellPrinter

  /** last_status, and everything else a command can see or change. */
  datatype State<E> = State(last: int, ext: E)

  /** `Running` means that the given number of loop rounds was not enough. */
  datatype Outcome<E> = Done(state: State<E>, rc: int) | Exited(state: State<E>, rc: int) | Running

  /** What the executor does not decide itself: a simple command with words or redirections, a
      pipeline of forked children, the variable of a for loop, and what a parent sees of a
      finished child. */
  datatype Machine<!E> = Machine(
    simple: (seq<string>, seq<Redir>, State<E>) -> Outcome<E>,
    pipeline: (Ast, Ast, State<E>) -> Outcome<E>,
    setVar: (E, string, string) -> E,
    reap: (State<E>, State<E>) -> State<E>)

  /** run_node, with at most `fuel` rounds for each while loop. */
  function Run<E>(m: Machine<E>, a: Ast, s: State<E>, fuel: nat): Outcome<E>
    decreases fuel, a, 1
  {
    match a
    case Nothing => Done(s, 0)
    case Simple(args, redirs) => if args == [] && redirs == [] then Done(s, 0) else m.simple(args, redirs, s)
    case Binary(Pipeline, l, r) => m.pipeline(l, r, s)
    case Binary(And, l, r) =>
      var o := Run(m, l, s, fuel);
      if !o.Done? then o
      else if o.rc == 0 then Run(m, r, o.state.(last := o.rc), fuel)
      else Done(o.state.(last := o.rc), o.rc)
    case Binary(Or, l, r) =>
      var o := Run(m, l, s, fuel);
      if !o.Done? then o
      else if o.rc != 0 then Run(m, r, o.state.(last := o.rc), fuel)
      else Done(o.state.(last := o.rc), o.rc)
    case Binary(Sequence, l, r) =>
      var o := Run(m, l, s, fuel);
      if !o.Done? then o else Run(m, r, o.state.(last := o.rc), fuel)
    case Group(Brace, b) => Run(m, b, s, fuel)
    case Group(Subshell, b) =>
      var o := Run(m, b, s, fuel);
      if o.Running? then o else Done(m.reap(s, o.state), o.rc % 256)
    case If(c, t, e) =>
      var o := Run(m, c, s, fuel);
      if !o.Done? then o
      else if o.rc == 0 then Run(m, t, o.state.(last := o.rc), fuel)
      else if e.Nothing? then Done(o.state.(last := o.rc), 0)
      else Run(m, e, o.state.(last := o.rc), fuel)
    case While(_, _) => Rounds(m, a, s, 0, fuel)
    case For(name, words, b) => Turns(m, name, words, b, s, 0, fuel)
  }

  /** The loop of NODE_WHILE, entered with the status of the last round. */
  function Rounds<E>(m: Machine<E>, a: Ast, s: State<E>, rc: int, fuel: nat): Outcome<E>
    requires a.While?
    decreases fuel, a, 0
  {
    if fuel == 0 then Running
    else
      var o := Run(m, a.cond, s, fuel - 1);
      if !o.Done? then o
      else if o.rc != 0 then Done(o.state.(last := o.rc), rc)
      else
        var o' := Run(m, a.body, o.state.(last := o.rc), fuel - 1);
        if !o'.Done? then o' else Rounds(m, a, o'.state.(last := o'.rc), o'.rc, fuel - 1)
  }

  /** The loop of NODE_FOR. */
  function Turns<E>(m: Machine<E>, name: string, words: seq<string>, b: Ast, s: State<E>, rc: int, fuel: nat)
    : Outcome<E>
    decreases fuel, b, |words| + 2
  {
    if words == [] then Done(s, rc)
    else
      var o := Run(m, b, s.(ext := m.setVar(s.ext, name, words[0])), fuel);
      if !o.Done? then o else Turns(m, name, words[1..], b, o.state.(last := o.rc), o.rc, fuel)
  }

  // ------------------------------------------------------------------
  // The number of rounds is only a bound
  // ------------------------------------------------------------------

  /** A run that ends within a bound ends the same way within every larger one. */
  lemma {:induction false} RunMonotone<E>(m: Machine<E>, a: Ast, s: State<E>, fuel: nat, more: nat)
    requires Run(m, a, s, fuel) != Running && fuel <= more
    ensures Run(m, a, s, more) == Run(m, a, s, fuel)
    decreases fuel, a, 1
  {
    match a
    case Nothing =>
    case Simple(_, _) =>
    case Binary(op, l, r) =>
      if op != Pipeline {
        RunMonotone(m, l, s, fuel, more);
        var o := Run(m, l, s, fuel);
        if o.Done? && Run(m, r, o.state.(last := o.rc), fuel) != Running {
          RunMonotone(m, r, o.state.(last := o.rc), fuel, more);
        }
      }
    case Group(_, b) =>
      RunMonotone(m, b, s, fuel, more);
    case If(c, t, e) =>
      RunMonotone(m, c, s, fuel, more);
      var o := Run(m, c, s, fuel);
      if o.Done? {
        var s' := o.state.(last := o.rc);
        if o.rc == 0 {
          RunMonotone(m, t, s', fuel, more);
        } else if !e.Nothing? {
          RunMonotone(m, e, s', fuel, more);
        }
      }
    case While(_, _) =>
      RoundsMonotone(m, a, s, 0, fuel, more);
    case For(name, words, b) =>
      TurnsMonotone(m, name, words, b, s, 0, fuel, more);
  }

  lemma {:induction false} RoundsMonotone<E>(m: Machine<E>, a: Ast, s: State<E>, rc: int, fuel: nat, more: nat)
    requires a.While? && Rounds(m, a, s, rc, fuel) != Running && fuel <= more
    ensures Rounds(m, a, s, rc, more) == Rounds(m, a, s, rc, fuel)
    decreases fuel, a, 0
  {
    RunMonotone(m, a.cond, s, fuel - 1, more - 1);
    var o := Run(m, a.cond, s, fuel - 1);
    if o.Done? && o.rc == 0 {
      var s' := o.state.(last := o.rc);
      RunMonotone(m, a.body, s', fuel - 1, more - 1);
      var o' := Run(m, a.body, s', fuel - 1);
      if o'.Done? {
        RoundsMonotone(m, a, o'.state.(last := o'.rc), o'.rc, fuel - 1, more - 1);
      }
    }
  }

  lemma {:induction false} TurnsMonotone<E>(m: Machine<E>, name: string, words: seq<string>, b: Ast, s: State<E>,
                                            rc: int, fuel: nat, more: nat)
    requires Turns(m, name, words, b, s, rc, fuel) != Running && fuel <= more
    ensures Turns(m, name, words, b, s, rc, more) == Turns(m, name, words, b, s, rc, fuel)
    decreases fuel, b, |words| + 2
  {
    if words != [] {
      var s' := s.(ext := m.setVar(s.ext, name, words[0]));
      RunMonotone(m, b, s', fuel, more);
      var o := Run(m, b, s', fuel);
      if o.Done? {
        TurnsMonotone(m, name, words[1..], b, o.state.(last := o.rc), o.rc, fuel, more);
      }
    }
  }

  // ------------------------------------------------------------------
  // A separator before `then` and `do`
  // ------------------------------------------------------------------

  /** The condition the parser makes of `c ;` before `then` or `do`: an empty command joins it. */
  function WithEmptyCommand(c: Ast): Ast { Binary(Sequence, c, Simple([], [])) }

  /** For every canonical condition: the separator is not skipped, it adds an empty command. */
  lemma SeparatedCondition(env: Env, st: Style, c: Ast, t: string, k: Tokens, used: nat)
    requires Canonical(c, 3) && (t == "then" || t == "do") && used + Need(c) <= STRING_ARENA_SIZE
    ensures ParseList(env, Emit(st, c, Next(Sep(st), Next(Word(t), k))), used)
         == Parsed(WithEmptyCommand(c), Next(Word(t), k), used + Need(c))
  {
    hide ParseList, ParseAndOr, ListLoop, Emit, Canonical, Need;
    var rest, u := Next(Word(t), k), used + Need(c);
    ReadList(env, st, c, Next(Sep(st), rest), used);
    ListStep(env, c, Sep(st), rest, u);
    EmptyCommand(env, rest, u);
    EndsThere(env, c, rest, u);
  }

  /** In front of `then` or `do` the parser finds a command of no words. */
  lemma EmptyCommand(env: Env, ts: Tokens, used: nat)
    requires Peek(ts) == Word("then") || Peek(ts) == Word("do")
    ensures ParseAndOr(env, ts, used) == Parsed(Simple([], []), ts, used)
  {
    hide SimpleLoop, PipelineLoop, AndOrLoop;
    assert "then"[0] == 't' && "do"[0] == 'd' && "if"[0] == 'i' && "while"[0] == 'w' && "for"[0] == 'f';
    assert StopsSimple(Peek(ts));
    NoWords(env, ts, used);
    assert ParseCommand(env, ts, used) == Parsed(Simple([], []), ts, used);
    PipelineStops(env, Parsed(Simple([], []), ts, used));
    AndOrStops(env, Parsed(Simple([], []), ts, used));
  }

  lemma {:induction false} NoWords(env: Env, ts: Tokens, used: nat)
    requires StopsSimple(Peek(ts))
    ensures SimpleLoop(env, ts, [], [], used) == Parsed(Simple([], []), ts, used)
  {}

  /** So `if c ; then t ; else e ; fi` is read with that condition, ... */
  lemma SeparatedIf(env: Env, st: Style, c: Ast, t: Ast, e: Ast, k: Tokens)
    requires Canonical(c, 3) && Body(t) && Body(e) && Need(c) + Need(t) + Need(e) <= STRING_ARENA_SIZE
    ensures var (closer, after) := ElseTokens(st, If(c, t, e), k);
            var body := Emit(st, t, Closing(st, closer, after));
            ParseIf(env, Next(Word("if"), Emit(st, c, Next(Sep(st), Next(Word("then"), body)))), 0)
            == Parsed(If(WithEmptyCommand(c), t, e), k, Need(c) + Need(t) + Need(e))
  {
    hide ParseList, ParseElse, SkipNewlines, Emit, Closing, ElseTokens, Canonical, Need, Body;
    IfParts(c, t, e);
    var (closer, after) := ElseTokens(st, If(c, t, e), k);
    ElseCloses(st, If(c, t, e), k);
    var body := Emit(st, t, Closing(st, closer, after));
    ListSkips(env, Emit(st, c, Next(Sep(st), Next(Word("then"), body))), 0);
    SeparatedCondition(env, st, c, "then", body, 0);
    ListSkips(env, body, Need(c));
    ReadBody(env, st, t, closer, after, Need(c));
    ReadElse(env, st, If(c, t, e), k, Need(c) + Need(t));
  }

  lemma IfParts(c: Ast, t: Ast, e: Ast)
    requires Canonical(c, 3) && Body(t) && Body(e)
    ensures Canonical(If(c, t, e), 0)
  {}

  /** ... and so is `while c ; do b ; done`. */
  lemma SeparatedWhile(env: Env, st: Style, c: Ast, b: Ast, k: Tokens)
    requires Canonical(c, 3) && Body(b) && Need(c) + Need(b) <= STRING_ARENA_SIZE
    ensures var body := Emit(st, b, Closing(st, Word("done"), k));
            ParseWhile(env, Next(Word("while"), Emit(st, c, Next(Sep(st), Next(Word("do"), body)))), 0)
            == Parsed(While(WithEmptyCommand(c), b), k, Need(c) + Need(b))
  {
    hide ParseList, SkipNewlines, Emit, Closing, Canonical, Need, Body;
    var body := Emit(st, b, Closing(st, Word("done"), k));
    ListSkips(env, Emit(st, c, Next(Sep(st), Next(Word("do"), body))), 0);
    SeparatedCondition(env, st, c, "do", body, 0);
    ListSkips(env, body, Need(c));
    ReadBody(env, st, b, Word("done"), k, Need(c));
  }

  lemma EndsThere(env: Env, c: Ast, rest: Tokens, used: nat)
    requires Peek(rest) == Word("then") || Peek(rest) == Word("do")
    ensures ListLoop(env, Parsed(WithEmptyCommand(c), rest, used)) == Parsed(WithEmptyCommand(c), rest, used)
  {}

  /** Such a condition always succeeds, whatever its commands do. */
  lemma SeparatedConditionSucceeds<E>(m: Machine<E>, c: Ast, s: State<E>, fuel: nat)
    ensures var o := Run(m, WithEmptyCommand(c), s, fuel);
            o.Done? ==> o.rc == 0
  {}

  /** `if c; then t; else e; fi` never runs `e`: the else part can be anything. */
  lemma ElseIsDead<E>(m: Machine<E>, c: Ast, t: Ast, e: Ast, e': Ast, s: State<E>, fuel: nat)
    ensures Run(m, If(WithEmptyCommand(c), t, e), s, fuel) == Run(m, If(WithEmptyCommand(c), t, e'), s, fuel)
  {
    SeparatedConditionSucceeds(m, c, s, fuel);
  }

  /** `while c; do b; done` never ends by its condition: unless a command exits the shell, no
      number of rounds is enough. */
  lemma {:induction false} SeparatedWhileNeverEnds<E>(m: Machine<E>, c: Ast, b: Ast, s: State<E>, rc: int, fuel: nat)
    ensures !Rounds(m, While(WithEmptyCommand(c), b), s, rc, fuel).Done?
    ensures !Run(m, While(WithEmptyCommand(c), b), s, fuel).Done?
    decreases fuel
  {
    var a := While(WithEmptyCommand(c), b);
    if fuel > 0 {
      SeparatedConditionSucceeds(m, c, s, fuel - 1);
      var o := Run(m, a.cond, s, fuel - 1);
      if o.Done? {
        var o' := Run(m, b, o.state.(last := o.rc), fuel - 1);
        if o'.Done? {
          SeparatedWhileNeverEnds(m, c, b, o'.state.(last := o'.rc), o'.rc, fuel - 1);
        }
      }
    }
    assert !Rounds(m, a, s, 0, fuel).Done? by {
      if rc != 0 && fuel > 0 {
        RoundsIgnoreStatus(m, a, s, rc, 0, fuel);
      }
    }
  }

  /** The status of earlier rounds only matters when the condition ends the loop at once. */
  lemma RoundsIgnoreStatus<E>(m: Machine<E>, a: Ast, s: State<E>, rc: int, rc': int, fuel: nat)
    requires a.While?
    ensures Rounds(m, a, s, rc, fuel).Done? <==> Rounds(m, a, s, rc', fuel).Done?
  {}
}
