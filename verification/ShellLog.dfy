/** What run_node of programs/sh.c runs, in which order, and with which result: every command that is
    started writes a log, and an oracle that may look at the whole log decides how it ends. */
module ShellLog {
  import opened Options
  import opened ShellLexer
  import opened ShellExpand
  import opened ShellSyntax
  import opened ShellPrinter
  import opened ShellText
  import opened ShellExec

  /** What can be started: a simple command or a pipeline. `seen` is the last status then. */
  datatype Command = Call(args: seq<string>, redirs: seq<Redir>) | Forks(left: Ast, right: Ast)

  datatype Event = Started(command: Command, seen: int) | Assigned(name: string, value: string)

  type Log = seq<Event>

  /** How the command logged last ends: with a status, or by ending the shell. */
  datatype Verdict = Status(rc: int) | Quit(rc: int)

  type Oracle = Log -> Verdict

  function Answer(oracle: Oracle, c: Command, s: State<Log>): Outcome<Log> {
    var log := s.ext + [Started(c, s.last)];
    match oracle(log)
    case Status(rc) => Done(State(s.last, log), rc)
    case Quit(rc) => Exited(State(s.last, log), rc)
  }

  function Logger(oracle: Oracle): Machine<Log> {
    Machine((args, redirs, s: State<Log>) => Answer(oracle, Call(args, redirs), s),
            (l, r, s: State<Log>) => Answer(oracle, Forks(l, r), s),
            (log: Log, name, value) => log + [Assigned(name, value)],
            (parent: State<Log>, child: State<Log>) => State(parent.last, child.ext))
  }

  // ------------------------------------------------------------------
  // Scripts as lists
  // ------------------------------------------------------------------

  datatype Link = IfOk(command: Command) | IfFailed(command: Command)

  /** `c0 op1 c1 ... opn cn` with `&&` and `||`. */
  datatype Line = Line(first: Command, rest: seq<Link>)

  type Block = seq<Line>

  function CommandTree(c: Command): Ast {
    match c
    case Call(args, redirs) => Simple(args, redirs)
    case Forks(l, r) => Binary(Pipeline, l, r)
  }

  function LinkTree(a: Ast, links: seq<Link>): Ast
    decreases |links|
  {
    if links == [] then a
    else LinkTree(Binary(if links[0].IfOk? then And else Or, a, CommandTree(links[0].command)), links[1..])
  }

  function LineTree(l: Line): Ast { LinkTree(CommandTree(l.first), l.rest) }

  function BlockTree(b: Block): Ast {
    if b == [] then Nothing else JoinTree(LineTree(b[0]), b[1..])
  }

  function JoinTree(a: Ast, b: Block): Ast
    decreases |b|
  {
    if b == [] then a else JoinTree(Binary(Sequence, a, LineTree(b[0])), b[1..])
  }

  // ------------------------------------------------------------------
  // What they should do
  // ------------------------------------------------------------------

  /** The log, the last status, the result, and whether the shell is over. */
  datatype Fact = Fact(log: Log, last: int, rc: int, over: bool)

  function Perform(oracle: Oracle, c: Command, log: Log, last: int): Fact {
    if c == Call([], []) then Fact(log, last, 0, false)
    else
      var log' := log + [Started(c, last)];
      Fact(log', last, oracle(log').rc, oracle(log').Quit?)
  }

  /** A command behind `&&` is started if the last result was 0, one behind `||` if it was not. */
  function Follow(oracle: Oracle, f: Fact, links: seq<Link>): Fact
    decreases |links|
  {
    if links == [] || f.over then f
    else if links[0].IfOk? <==> f.rc == 0 then
      Follow(oracle, Perform(oracle, links[0].command, f.log, f.rc), links[1..])
    else Follow(oracle, f.(last := f.rc), links[1..])
  }

  function PerformLine(oracle: Oracle, l: Line, log: Log, last: int): Fact {
    Follow(oracle, Perform(oracle, l.first, log, last), l.rest)
  }

  /** The lines one after the other, as long as the shell is not over. */
  function PerformBlock(oracle: Oracle, b: Block, log: Log, last: int): Fact
    decreases |b|
  {
    if b == [] then Fact(log, last, 0, false)
    else
      var f := PerformLine(oracle, b[0], log, last);
      if |b| == 1 || f.over then f else PerformBlock(oracle, b[1..], f.log, f.rc)
  }

  function ToOutcome(f: Fact): Outcome<Log> {
    if f.over then Exited(State(f.last, f.log), f.rc) else Done(State(f.last, f.log), f.rc)
  }

  // ------------------------------------------------------------------
  // Lines and blocks
  // ------------------------------------------------------------------

  lemma CommandRuns(oracle: Oracle, c: Command, log: Log, last: int, fuel: nat)
    ensures Run(Logger(oracle), CommandTree(c), State(last, log), fuel) == ToOutcome(Perform(oracle, c, log, last))
  {}

  /** One more link. */
  lemma {:induction false} LinkRuns(oracle: Oracle, a: Ast, link: Link, f: Fact, s: State<Log>, fuel: nat)
    requires Run(Logger(oracle), a, s, fuel) == ToOutcome(f)
    ensures var t := Binary(if link.IfOk? then And else Or, a, CommandTree(link.command));
            var g := if f.over then f
                     else if link.IfOk? <==> f.rc == 0 then Perform(oracle, link.command, f.log, f.rc)
                     else f.(last := f.rc);
            Run(Logger(oracle), t, s, fuel) == ToOutcome(g)
  {
    if !f.over { CommandRuns(oracle, link.command, f.log, f.rc, fuel); }
  }

  lemma {:induction false} LinksRun(oracle: Oracle, a: Ast, links: seq<Link>, f: Fact, s: State<Log>, fuel: nat)
    requires Run(Logger(oracle), a, s, fuel) == ToOutcome(f)
    ensures Run(Logger(oracle), LinkTree(a, links), s, fuel) == ToOutcome(Follow(oracle, f, links))
    decreases |links|
  {
    hide Run, Logger, Perform;
    if links != [] {
      var link := links[0];
      LinkRuns(oracle, a, link, f, s, fuel);
      var t := Binary(if link.IfOk? then And else Or, a, CommandTree(link.command));
      var g := if f.over then f
               else if link.IfOk? <==> f.rc == 0 then Perform(oracle, link.command, f.log, f.rc)
               else f.(last := f.rc);
      LinksRun(oracle, t, links[1..], g, s, fuel);
      if f.over { OverFollows(oracle, f, links[1..]); }
    }
  }

  lemma OverFollows(oracle: Oracle, f: Fact, links: seq<Link>)
    requires f.over
    ensures Follow(oracle, f, links) == f
  {}

  /** An and-or list starts exactly the commands that its connectives ask for, and ends as the last one
      that was started. */
  lemma LineRuns(oracle: Oracle, l: Line, log: Log, last: int, fuel: nat)
    ensures Run(Logger(oracle), LineTree(l), State(last, log), fuel) == ToOutcome(PerformLine(oracle, l, log, last))
  {
    hide Run, Logger, Perform, Follow, LinkTree;
    CommandRuns(oracle, l.first, log, last, fuel);
    LinksRun(oracle, CommandTree(l.first), l.rest, Perform(oracle, l.first, log, last), State(last, log), fuel);
  }

  /** The rest of a block behind what has been run. */
  function GoOn(oracle: Oracle, f: Fact, b: Block): Fact {
    if b == [] || f.over then f else PerformBlock(oracle, b, f.log, f.rc)
  }

  lemma {:induction false} JoinRuns(oracle: Oracle, a: Ast, b: Block, f: Fact, s: State<Log>, fuel: nat)
    requires Run(Logger(oracle), a, s, fuel) == ToOutcome(f)
    ensures Run(Logger(oracle), JoinTree(a, b), s, fuel) == ToOutcome(GoOn(oracle, f, b))
    decreases |b|
  {
    hide Logger, PerformLine, LineTree;
    if b != [] {
      var t := Binary(Sequence, a, LineTree(b[0]));
      var g := if f.over then f else PerformLine(oracle, b[0], f.log, f.rc);
      if !f.over { LineRuns(oracle, b[0], f.log, f.rc, fuel); }
      JoinRuns(oracle, t, b[1..], g, s, fuel);
    }
  }

  /** A list of them runs them in order, each with the status of the one before, until one ends the
      shell. */
  lemma {:induction false} BlockRuns(oracle: Oracle, b: Block, log: Log, last: int, fuel: nat)
    ensures Run(Logger(oracle), BlockTree(b), State(last, log), fuel) == ToOutcome(PerformBlock(oracle, b, log, last))
  {
    hide Logger, PerformLine, LineTree, JoinTree;
    if b != [] {
      LineRuns(oracle, b[0], log, last, fuel);
      JoinRuns(oracle, LineTree(b[0]), b[1..], PerformLine(oracle, b[0], log, last), State(last, log), fuel);
    }
  }

  /** A group in braces is its list; a subshell ends alone, with a status of 8 bits, and the last status outside
      stays. */
  lemma GroupRuns(oracle: Oracle, b: Block, log: Log, last: int, fuel: nat)
    ensures var f := PerformBlock(oracle, b, log, last);
            && Run(Logger(oracle), Group(Brace, BlockTree(b)), State(last, log), fuel) == ToOutcome(f)
            && Run(Logger(oracle), Group(Subshell, BlockTree(b)), State(last, log), fuel)
               == ToOutcome(Fact(f.log, last, f.rc % 256, false))
  {
    hide BlockTree, PerformBlock;
    BlockRuns(oracle, b, log, last, fuel);
  }

  // ------------------------------------------------------------------
  // if
  // ------------------------------------------------------------------

  /** A condition with its commands. */
  datatype Arm = Arm(cond: Block, body: Block)

  /** `if`, any number of `elif`, and an `else` if it is not empty. */
  function IfTree(arms: seq<Arm>, els: Block): Ast
    requires arms != []
  {
    If(BlockTree(arms[0].cond), BlockTree(arms[0].body),
       if |arms| == 1 then BlockTree(els) else IfTree(arms[1..], els))
  }

  /** What is known when condition `i` has been tried and all before it. */
  function Tried(oracle: Oracle, arms: seq<Arm>, i: nat, log: Log, last: int): Fact
    requires i < |arms|
  {
    if i == 0 then PerformBlock(oracle, arms[0].cond, log, last)
    else
      var f := Tried(oracle, arms, i - 1, log, last);
      PerformBlock(oracle, arms[i].cond, f.log, f.rc)
  }

  ghost predicate FailedBefore(oracle: Oracle, arms: seq<Arm>, i: nat, log: Log, last: int)
    requires i <= |arms|
  {
    forall j :: 0 <= j < i ==> var f := Tried(oracle, arms, j, log, last); !f.over && f.rc != 0
  }

  lemma {:induction false} TriedShift(oracle: Oracle, arms: seq<Arm>, i: nat, log: Log, last: int)
    requires 0 < i < |arms|
    ensures var f := PerformBlock(oracle, arms[0].cond, log, last);
            Tried(oracle, arms, i, log, last) == Tried(oracle, arms[1..], i - 1, f.log, f.rc)
  {
    hide PerformBlock;
    if i > 1 { TriedShift(oracle, arms, i - 1, log, last); }
  }

  lemma {:induction false} FailedShift(oracle: Oracle, arms: seq<Arm>, i: nat, log: Log, last: int)
    requires 0 < i <= |arms| && FailedBefore(oracle, arms, i, log, last)
    ensures var f := PerformBlock(oracle, arms[0].cond, log, last);
            && Tried(oracle, arms, 0, log, last) == f && !f.over && f.rc != 0
            && FailedBefore(oracle, arms[1..], i - 1, f.log, f.rc)
  {
    hide PerformBlock;
    var f := PerformBlock(oracle, arms[0].cond, log, last);
    assert Tried(oracle, arms, 0, log, last) == f;
    forall j | 0 <= j < i - 1
      ensures var g := Tried(oracle, arms[1..], j, f.log, f.rc); !g.over && g.rc != 0
    {
      TriedShift(oracle, arms, j + 1, log, last);
    }
  }

  /** The conditions are tried in order up to the first that succeeds; its commands are run, and no
      other. */
  lemma {:induction false} ArmRuns(oracle: Oracle, arms: seq<Arm>, els: Block, i: nat, log: Log, last: int, fuel: nat)
    requires i < |arms| && FailedBefore(oracle, arms, i, log, last)
    requires var f := Tried(oracle, arms, i, log, last); !f.over && f.rc == 0
    ensures var f := Tried(oracle, arms, i, log, last);
            Run(Logger(oracle), IfTree(arms, els), State(last, log), fuel)
            == ToOutcome(PerformBlock(oracle, arms[i].body, f.log, 0))
    decreases i
  {
    hide Logger, BlockTree, PerformBlock, FailedBefore;
    var f := PerformBlock(oracle, arms[0].cond, log, last);
    BlockRuns(oracle, arms[0].cond, log, last, fuel);
    if i == 0 {
      BlockRuns(oracle, arms[0].body, f.log, f.rc, fuel);
    } else {
      FailedShift(oracle, arms, i, log, last);
      TriedShift(oracle, arms, i, log, last);
      ArmRuns(oracle, arms[1..], els, i - 1, f.log, f.rc, fuel);
    }
  }

  /** If none succeeds the `else` part is run; without one the result is 0. */
  lemma {:induction false} ElseRuns(oracle: Oracle, arms: seq<Arm>, els: Block, log: Log, last: int, fuel: nat)
    requires arms != [] && FailedBefore(oracle, arms, |arms|, log, last)
    ensures var f := Tried(oracle, arms, |arms| - 1, log, last);
            Run(Logger(oracle), IfTree(arms, els), State(last, log), fuel)
            == ToOutcome(if els == [] then Fact(f.log, f.rc, 0, false) else PerformBlock(oracle, els, f.log, f.rc))
    decreases |arms|
  {
    hide Logger, PerformBlock, FailedBefore, JoinTree;
    var f := PerformBlock(oracle, arms[0].cond, log, last);
    BlockRuns(oracle, arms[0].cond, log, last, fuel);
    FailedShift(oracle, arms, |arms|, log, last);
    if |arms| == 1 {
      BlockRuns(oracle, els, f.log, f.rc, fuel);
      BlockIsSomething(els);
    } else {
      TriedShift(oracle, arms, |arms| - 1, log, last);
      ElseRuns(oracle, arms[1..], els, f.log, f.rc, fuel);
    }
  }

  lemma {:induction false} JoinIsSomething(a: Ast, b: Block)
    requires !a.Nothing?
    ensures !JoinTree(a, b).Nothing?
    decreases |b|
  {
    if b != [] { JoinIsSomething(Binary(Sequence, a, LineTree(b[0])), b[1..]); }
  }

  lemma {:induction false} LinkIsSomething(a: Ast, links: seq<Link>)
    requires !a.Nothing?
    ensures !LinkTree(a, links).Nothing?
    decreases |links|
  {
    if links != [] {
      LinkIsSomething(Binary(if links[0].IfOk? then And else Or, a, CommandTree(links[0].command)), links[1..]);
    }
  }

  lemma BlockIsSomething(b: Block)
    ensures BlockTree(b).Nothing? <==> b == []
  {
    if b != [] {
      LinkIsSomething(CommandTree(b[0].first), b[0].rest);
      JoinIsSomething(LineTree(b[0]), b[1..]);
    }
  }

  /** A condition that ends the shell ends the `if`. */
  lemma {:induction false} ConditionQuits(oracle: Oracle, arms: seq<Arm>, els: Block, i: nat, log: Log, last: int,
                                          fuel: nat)
    requires i < |arms| && FailedBefore(oracle, arms, i, log, last) && Tried(oracle, arms, i, log, last).over
    ensures Run(Logger(oracle), IfTree(arms, els), State(last, log), fuel)
         == ToOutcome(Tried(oracle, arms, i, log, last))
    decreases i
  {
    hide Logger, BlockTree, PerformBlock, FailedBefore;
    var f := PerformBlock(oracle, arms[0].cond, log, last);
    BlockRuns(oracle, arms[0].cond, log, last, fuel);
    if i > 0 {
      FailedShift(oracle, arms, i, log, last);
      TriedShift(oracle, arms, i, log, last);
      ConditionQuits(oracle, arms[1..], els, i - 1, f.log, f.rc, fuel);
    }
  }

  // ------------------------------------------------------------------
  // while
  // ------------------------------------------------------------------

  /** What is known when the condition has been tried for the `i`th time, counting from 0, ... */
  function CondAt(oracle: Oracle, c: Block, b: Block, i: nat, log: Log, last: int): Fact
    decreases i, 0
  {
    if i == 0 then PerformBlock(oracle, c, log, last)
    else
      var f := BodyAt(oracle, c, b, i - 1, log, last);
      PerformBlock(oracle, c, f.log, f.rc)
  }

  /** ... and when the body has been run after that. */
  function BodyAt(oracle: Oracle, c: Block, b: Block, i: nat, log: Log, last: int): Fact
    decreases i, 1
  {
    var f := CondAt(oracle, c, b, i, log, last);
    PerformBlock(oracle, b, f.log, f.rc)
  }

  /** The first `k` rounds are whole ones: condition met, and the shell not over. */
  ghost predicate Rounded(oracle: Oracle, c: Block, b: Block, k: nat, log: Log, last: int) {
    forall i :: 0 <= i < k ==>
      var f, g := CondAt(oracle, c, b, i, log, last), BodyAt(oracle, c, b, i, log, last);
      !f.over && f.rc == 0 && !g.over
  }

  lemma {:induction false} RoundShift(oracle: Oracle, c: Block, b: Block, i: nat, log: Log, last: int)
    requires i > 0
    ensures var g := BodyAt(oracle, c, b, 0, log, last);
            && CondAt(oracle, c, b, i, log, last) == CondAt(oracle, c, b, i - 1, g.log, g.rc)
            && BodyAt(oracle, c, b, i, log, last) == BodyAt(oracle, c, b, i - 1, g.log, g.rc)
    decreases i
  {
    hide PerformBlock;
    if i > 1 { RoundShift(oracle, c, b, i - 1, log, last); }
  }

  lemma {:induction false} RoundedShift(oracle: Oracle, c: Block, b: Block, k: nat, log: Log, last: int)
    requires k > 0 && Rounded(oracle, c, b, k, log, last)
    ensures var f, g := CondAt(oracle, c, b, 0, log, last), BodyAt(oracle, c, b, 0, log, last);
            !f.over && f.rc == 0 && !g.over && Rounded(oracle, c, b, k - 1, g.log, g.rc)
  {
    hide CondAt, BodyAt;
    var g := BodyAt(oracle, c, b, 0, log, last);
    forall i | 0 <= i < k - 1
      ensures var f', g' := CondAt(oracle, c, b, i, g.log, g.rc), BodyAt(oracle, c, b, i, g.log, g.rc);
              !f'.over && f'.rc == 0 && !g'.over
    {
      RoundShift(oracle, c, b, i + 1, log, last);
    }
  }

  /** How a loop that has had `k` whole rounds ends: at its condition with the result of the last round,
      or because the condition or the body ends the shell. Running if there is another whole round. */
  function LoopEnd(oracle: Oracle, c: Block, b: Block, k: nat, log: Log, last: int, rc: int): Outcome<Log> {
    var f, g := CondAt(oracle, c, b, k, log, last), BodyAt(oracle, c, b, k, log, last);
    if f.over then ToOutcome(f)
    else if f.rc != 0 then
      Done(State(f.rc, f.log), if k == 0 then rc else BodyAt(oracle, c, b, k - 1, log, last).rc)
    else if g.over then ToOutcome(g)
    else Running
  }

  lemma {:induction false} EndShift(oracle: Oracle, c: Block, b: Block, k: nat, log: Log, last: int, rc: int)
    requires k > 0
    ensures var g := BodyAt(oracle, c, b, 0, log, last);
            LoopEnd(oracle, c, b, k, log, last, rc) == LoopEnd(oracle, c, b, k - 1, g.log, g.rc, g.rc)
  {
    hide CondAt, BodyAt;
    RoundShift(oracle, c, b, k, log, last);
    if k > 1 { RoundShift(oracle, c, b, k - 1, log, last); }
  }

  lemma {:induction false} RoundsRun(oracle: Oracle, c: Block, b: Block, k: nat, log: Log, last: int, rc: int,
                                     fuel: nat)
    requires Rounded(oracle, c, b, k, log, last)
    requires fuel == k || (fuel > k && LoopEnd(oracle, c, b, k, log, last, rc) != Running)
    ensures Rounds(Logger(oracle), While(BlockTree(c), BlockTree(b)), State(last, log), rc, fuel)
         == if fuel == k then Running else LoopEnd(oracle, c, b, k, log, last, rc)
    decreases k
  {
    hide Logger, BlockTree, PerformBlock, Rounded, Run;
    if fuel > 0 {
      var f := PerformBlock(oracle, c, log, last);
      BlockRuns(oracle, c, log, last, fuel - 1);
      BlockRuns(oracle, b, f.log, f.rc, fuel - 1);
      if k > 0 {
        RoundedShift(oracle, c, b, k, log, last);
        EndShift(oracle, c, b, k, log, last, rc);
        var g := BodyAt(oracle, c, b, 0, log, last);
        RoundsRun(oracle, c, b, k - 1, g.log, g.rc, g.rc, fuel - 1);
      }
    }
  }

  /** A loop runs its body once for each success of its condition in a row, and ends with the first
      failure, with the result of the last round; a loop that never ends outlasts every bound. */
  lemma {:induction false} WhileRuns(oracle: Oracle, c: Block, b: Block, k: nat, log: Log, last: int, fuel: nat)
    requires Rounded(oracle, c, b, k, log, last)
    requires fuel == k || (fuel > k && LoopEnd(oracle, c, b, k, log, last, 0) != Running)
    ensures Run(Logger(oracle), While(BlockTree(c), BlockTree(b)), State(last, log), fuel)
         == if fuel == k then Running else LoopEnd(oracle, c, b, k, log, last, 0)
  {
    hide Logger, BlockTree, LoopEnd, Rounded, Rounds;
    RoundsRun(oracle, c, b, k, log, last, 0, fuel);
  }

  // ------------------------------------------------------------------
  // for
  // ------------------------------------------------------------------

  /** What is known when the body has been run for word `i` and all before it. */
  function TurnAt(oracle: Oracle, name: string, words: seq<string>, b: Block, i: nat, log: Log, last: int): Fact
    requires i < |words|
  {
    if i == 0 then PerformBlock(oracle, b, log + [Assigned(name, words[0])], last)
    else
      var f := TurnAt(oracle, name, words, b, i - 1, log, last);
      PerformBlock(oracle, b, f.log + [Assigned(name, words[i])], f.rc)
  }

  ghost predicate Turned(oracle: Oracle, name: string, words: seq<string>, b: Block, k: nat, log: Log, last: int)
    requires k <= |words|
  {
    forall i :: 0 <= i < k ==> !TurnAt(oracle, name, words, b, i, log, last).over
  }

  lemma {:induction false} TurnShift(oracle: Oracle, name: string, words: seq<string>, b: Block, i: nat, log: Log,
                                     last: int)
    requires 0 < i < |words|
    ensures var f := TurnAt(oracle, name, words, b, 0, log, last);
            TurnAt(oracle, name, words, b, i, log, last) == TurnAt(oracle, name, words[1..], b, i - 1, f.log, f.rc)
    decreases i
  {
    hide PerformBlock;
    if i > 1 { TurnShift(oracle, name, words, b, i - 1, log, last); }
  }

  lemma {:induction false} TurnedShift(oracle: Oracle, name: string, words: seq<string>, b: Block, k: nat, log: Log,
                                       last: int)
    requires 0 < k <= |words| && Turned(oracle, name, words, b, k, log, last)
    ensures var f := TurnAt(oracle, name, words, b, 0, log, last);
            !f.over && Turned(oracle, name, words[1..], b, k - 1, f.log, f.rc)
  {
    hide TurnAt;
    var f := TurnAt(oracle, name, words, b, 0, log, last);
    forall i | 0 <= i < k - 1 ensures !TurnAt(oracle, name, words[1..], b, i, f.log, f.rc).over {
      TurnShift(oracle, name, words, b, i + 1, log, last);
    }
  }

  /** The result of a loop whose body ends the shell at word `k`, or not at all. */
  function ForEnd(oracle: Oracle, name: string, words: seq<string>, b: Block, k: nat, log: Log, last: int, rc: int)
    : Outcome<Log>
    requires k <= |words|
  {
    if k < |words| then ToOutcome(TurnAt(oracle, name, words, b, k, log, last))
    else if k == 0 then Done(State(last, log), rc)
    else var f := TurnAt(oracle, name, words, b, k - 1, log, last); Done(State(f.rc, f.log), f.rc)
  }

  lemma {:induction false} TurnsRun(oracle: Oracle, name: string, words: seq<string>, b: Block, k: nat, log: Log,
                                    last: int, rc: int, fuel: nat)
    requires k <= |words| && Turned(oracle, name, words, b, k, log, last)
    requires k < |words| ==> TurnAt(oracle, name, words, b, k, log, last).over
    ensures Turns(Logger(oracle), name, words, BlockTree(b), State(last, log), rc, fuel)
         == ForEnd(oracle, name, words, b, k, log, last, rc)
    decreases k
  {
    hide BlockTree, PerformBlock, Turned, Run;
    if words != [] {
      var log' := log + [Assigned(name, words[0])];
      BlockRuns(oracle, b, log', last, fuel);
      if k > 0 {
        var f := TurnAt(oracle, name, words, b, 0, log, last);
        TurnedShift(oracle, name, words, b, k, log, last);
        if k < |words| { TurnShift(oracle, name, words, b, k, log, last); }
        if k > 1 { TurnShift(oracle, name, words, b, k - 1, log, last); }
        TurnsRun(oracle, name, words[1..], b, k - 1, f.log, f.rc, f.rc, fuel);
      }
    }
  }

  /** A `for` gives its variable each word in order and runs its body after each, until the body ends
      the shell or the words are used up. */
  lemma {:induction false} ForRuns(oracle: Oracle, name: string, words: seq<string>, b: Block, k: nat, log: Log,
                                   last: int, fuel: nat)
    requires k <= |words| && Turned(oracle, name, words, b, k, log, last)
    requires k < |words| ==> TurnAt(oracle, name, words, b, k, log, last).over
    ensures Run(Logger(oracle), For(name, words, BlockTree(b)), State(last, log), fuel)
         == ForEnd(oracle, name, words, b, k, log, last, 0)
  {
    hide Logger, BlockTree, ForEnd, Turned, Turns;
    TurnsRun(oracle, name, words, b, k, log, last, 0, fuel);
  }

  // ------------------------------------------------------------------
  // From text to log
  // ------------------------------------------------------------------

  predicate LineOk(l: Line) {
    Canonical(CommandTree(l.first), 1) && forall i :: 0 <= i < |l.rest| ==> Canonical(CommandTree(l.rest[i].command), 1)
  }

  lemma {:induction false} LinkIsCanonical(a: Ast, links: seq<Link>)
    requires Canonical(a, 2) && forall i :: 0 <= i < |links| ==> Canonical(CommandTree(links[i].command), 1)
    ensures Canonical(LinkTree(a, links), 2)
    decreases |links|
  {
    hide CommandTree;
    if links != [] {
      LinkIsCanonical(Binary(if links[0].IfOk? then And else Or, a, CommandTree(links[0].command)), links[1..]);
    }
  }

  lemma {:induction false} JoinIsCanonical(a: Ast, b: Block)
    requires Canonical(a, 3) && forall i :: 0 <= i < |b| ==> LineOk(b[i])
    ensures Canonical(JoinTree(a, b), 3)
    decreases |b|
  {
    hide LineOk, LineTree;
    if b != [] {
      LineIsCanonical(b[0]);
      JoinIsCanonical(Binary(Sequence, a, LineTree(b[0])), b[1..]);
    }
  }

  lemma LineIsCanonical(l: Line)
    requires LineOk(l)
    ensures Canonical(LineTree(l), 2) && Canonical(LineTree(l), 3)
  {
    hide LinkTree;
    assert Canonical(CommandTree(l.first), 2);
    LinkIsCanonical(CommandTree(l.first), l.rest);
    Wider(LineTree(l));
  }

  lemma Wider(a: Ast)
    requires Canonical(a, 2)
    ensures Canonical(a, 3)
  {}

  /** The text of a script of and-or lists, in any style: what the shell reads from it starts exactly
      the commands that the lists ask for. */
  lemma {:induction false} ScriptRuns(env: Env, st: Style, oracle: Oracle, b: Block, log: Log, last: int, fuel: nat)
    requires b != [] && (forall i :: 0 <= i < |b| ==> LineOk(b[i])) && Need(BlockTree(b)) <= STRING_ARENA_SIZE
    ensures var text := Render(Emit(st, BlockTree(b), End));
            && Lex(text).Some?
            && Run(Logger(oracle), ParseList(env, Lex(text).value, 0).ast, State(last, log), fuel)
               == ToOutcome(PerformBlock(oracle, b, log, last))
  {
    hide LineOk, LineTree, JoinTree, Logger, Run, ParseList, Emit, Render, Lex, PerformBlock, Need;
    LineIsCanonical(b[0]);
    JoinIsCanonical(LineTree(b[0]), b[1..]);
    TextRoundTrip(env, st, BlockTree(b));
    BlockRuns(oracle, b, log, last, fuel);
  }
}
