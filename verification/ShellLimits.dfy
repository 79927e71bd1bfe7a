/** The fixed sizes in programs/sh.c: whatever the parser is given, what it builds fits. */
module ShellLimits {
  import opened Options
  import opened ShellLexer
  import opened ShellExpand
  import opened ShellSyntax
  import opened ShellPrinter

  // ------------------------------------------------------------------
  // What fits
  // ------------------------------------------------------------------

  /** A string with its terminator fits into a buffer of MAX_WORD characters. */
  predicate Short(s: string) { |s| < MAX_WORD }

  predicate RedirFits(r: Redir) { r.fd <= 9 && (r.dup.Some? ==> r.dup.value <= 9) && Short(r.file) }

  /** Every array and every buffer of every node is large enough. */
  predicate Fits(a: Ast) {
    match a
    case Nothing => true
    case Simple(args, redirs) =>
      && |args| < MAX_ARGS && (forall s :: s in args ==> Short(s))
      && |redirs| <= MAX_REDIRS && (forall r :: r in redirs ==> RedirFits(r))
    case Binary(_, l, r) => Fits(l) && Fits(r)
    case Group(_, b) => Fits(b)
    case If(c, t, e) => Fits(c) && Fits(t) && Fits(e)
    case While(c, b) => Fits(c) && Fits(b)
    case For(name, words, b) =>
      |name| <= NAME_ROOM && |words| <= MAX_FOR_WORDS && (forall s :: s in words ==> Short(s)) && Fits(b)
  }

  /** The arena space of the strings that were stored and not dropped: an empty one may be either. */
  function Stored(ss: seq<string>): nat {
    if ss == [] then 0 else (if ss[0] == "" then 0 else |ss[0]| + 1) + Stored(ss[1..])
  }

  function StoredIn(a: Ast): nat {
    match a
    case Nothing => 0
    case Simple(args, _) => Stored(args)
    case Binary(_, l, r) => StoredIn(l) + StoredIn(r)
    case Group(_, b) => StoredIn(b)
    case If(c, t, e) => StoredIn(c) + StoredIn(t) + StoredIn(e)
    case While(c, b) => StoredIn(c) + StoredIn(b)
    case For(_, words, b) => Stored(words) + StoredIn(b)
  }

  /** The tree fits, the arena is not overrun, and the fill accounts for the tree's strings: each has its
      own space. */
  ghost predicate Kept(p: Parsed, base: nat) {
    Fits(p.ast) && p.used <= STRING_ARENA_SIZE && base + StoredIn(p.ast) <= p.used <= base + Need(p.ast)
  }

  // ------------------------------------------------------------------
  // Lists of strings
  // ------------------------------------------------------------------

  lemma {:induction false} OneMore(ss: seq<string>, s: string)
    ensures TextNeed(ss + [s]) == TextNeed(ss) + |s| + 1
    ensures Stored(ss + [s]) == Stored(ss) + (if s == "" then 0 else |s| + 1)
    decreases |ss|
  {
    if ss == [] {
      assert ss + [s] == [s] && [s][1..] == [];
    } else {
      assert (ss + [s])[0] == ss[0] && (ss + [s])[1..] == ss[1..] + [s];
      OneMore(ss[1..], s);
    }
  }

  /** A list of strings and the fill of the arena behind it. */
  ghost predicate ListKept(ss: seq<string>, limit: nat, base: nat, used: nat) {
    && |ss| <= limit && (forall s :: s in ss ==> Short(s))
    && used <= STRING_ARENA_SIZE && base + Stored(ss) <= used <= base + TextNeed(ss)
  }

  lemma {:induction false} KeepKeeps(env: Env, word: string, ss: seq<string>, limit: nat, base: nat, used: nat)
    requires ListKept(ss, limit, base, used) && |ss| < limit
    ensures var (text, used') := Keep(Expanded(env, word), used); ListKept(ss + [text], limit, base, used')
  {
    hide Expand;
    var (text, used') := Keep(Expanded(env, word), used);
    OneMore(ss, text);
  }

  lemma ArgKeeps(env: Env, word: string, args: seq<string>, base: nat, used: nat)
    requires ListKept(args, MAX_ARGS - 1, base, used)
    ensures var (args', used') := AddArg(env, word, args, used); ListKept(args', MAX_ARGS - 1, base, used')
  {
    hide Expanded, Keep, ListKept;
    assert |args| <= MAX_ARGS - 1 by { ListSize(args, MAX_ARGS - 1, base, used); }
    if |args| < MAX_ARGS - 1 { KeepKeeps(env, word, args, MAX_ARGS - 1, base, used); }
  }

  lemma ForWordKeeps(env: Env, t: Token, words: seq<string>, base: nat, used: nat)
    requires ListKept(words, MAX_FOR_WORDS, base, used)
    ensures var (words', used') := AddForWord(env, t, words, used); ListKept(words', MAX_FOR_WORDS, base, used')
  {
    hide Expanded, Keep, ListKept;
    if t.Word? && |words| < MAX_FOR_WORDS { KeepKeeps(env, t.text, words, MAX_FOR_WORDS, base, used); }
  }

  lemma ListSize(ss: seq<string>, limit: nat, base: nat, used: nat)
    requires ListKept(ss, limit, base, used)
    ensures |ss| <= limit
  {}

  // ------------------------------------------------------------------
  // Simple commands
  // ------------------------------------------------------------------

  ghost predicate RedirsFit(rs: seq<Redir>) { |rs| <= MAX_REDIRS && forall r :: r in rs ==> RedirFits(r) }

  lemma ExpandedIsShort(env: Env, word: string)
    ensures Short(Expanded(env, word))
  {}

  lemma MoreRedirs(rs: seq<Redir>, r: Redir)
    requires RedirsFit(rs) && |rs| < MAX_REDIRS && RedirFits(r)
    ensures RedirsFit(rs + [r])
  {}

  lemma DigitIsSmall(c: char)
    requires IsDigit(c)
    ensures DigitValue(c) <= 9
  {}

  lemma PlainFits(env: Env, t: Token, file: string)
    ensures RedirFits(PlainRedir(t)) && RedirFits(PlainRedir(t).(file := Expanded(env, file)))
  {
    hide Expanded;
    ExpandedIsShort(env, file);
  }

  lemma NumberedFits(env: Env, fd: nat, ts: Tokens)
    requires fd <= 9 && (Peek(ts) == RedirOut || Peek(ts) == RedirAppend)
    ensures RedirFits(NumberedRedir(env, fd, ts).0)
  {
    hide Expanded;
    var target := Peek(Advance(ts));
    if target.Word? { ExpandedIsShort(env, target.text); }
  }

  lemma {:induction false} SimpleFits(args: seq<string>, redirs: seq<Redir>, rest: Tokens, base: nat, used: nat)
    requires ListKept(args, MAX_ARGS - 1, base, used) && RedirsFit(redirs)
    ensures Kept(Parsed(Simple(args, redirs), rest, used), base)
  {}

  lemma {:induction false} SimpleKeeps(env: Env, ts: Tokens, args: seq<string>, redirs: seq<Redir>, base: nat,
                                       used: nat)
    requires ListKept(args, MAX_ARGS - 1, base, used) && RedirsFit(redirs)
    ensures Kept(SimpleLoop(env, ts, args, redirs, used), base)
    decreases Count(ts)
  {
    hide Expanded, AddArg, IsKeyword, NumberedRedir, ListKept, RedirsFit, RedirFits, Kept, PlainRedir, DigitValue;
    var t := Peek(ts);
    SimpleFits(args, redirs, ts, base, used);
    SimpleFits(args, redirs, Advance(ts), base, used);
    if IsRedirect(t) {
      if |redirs| < MAX_REDIRS {
        var file := Peek(Advance(ts));
        PlainFits(env, t, if file.Word? then file.text else "");
        MoreRedirs(redirs, PlainRedir(t));
        SimpleFits(args, redirs + [PlainRedir(t)], Advance(ts), base, used);
        if file.Word? {
          var redir := PlainRedir(t).(file := Expanded(env, file.text));
          MoreRedirs(redirs, redir);
          SimpleKeeps(env, Advance(Advance(ts)), args, redirs + [redir], base, used);
        }
      }
    } else if t.Word? {
      if |t.text| == 1 && IsDigit(t.text[0]) {
        DigitKeeps(env, ts, args, redirs, base, used);
      } else if IsDupWord(t.text) {
        var redirs' := if |redirs| < MAX_REDIRS
                       then redirs + [Redir(DigitValue(t.text[0]), NoMode, Some(DigitValue(t.text[3])), "")]
                       else redirs;
        if |redirs| < MAX_REDIRS { DupFits(t.text, redirs); }
        SimpleKeeps(env, Advance(ts), args, redirs', base, used);
      } else if !IsKeyword(t.text) {
        var (args', used') := AddArg(env, t.text, args, used);
        ArgKeeps(env, t.text, args, base, used);
        SimpleKeeps(env, Advance(ts), args', redirs, base, used');
      }
    }
  }

  lemma DupFits(w: string, redirs: seq<Redir>)
    requires IsDupWord(w) && RedirsFit(redirs) && |redirs| < MAX_REDIRS
    ensures RedirsFit(redirs + [Redir(DigitValue(w[0]), NoMode, Some(DigitValue(w[3])), "")])
  {
    DigitIsSmall(w[0]);
    DigitIsSmall(w[3]);
  }

  lemma {:induction false} DigitKeeps(env: Env, ts: Tokens, args: seq<string>, redirs: seq<Redir>, base: nat, used: nat)
    requires Peek(ts).Word? && |Peek(ts).text| == 1 && IsDigit(Peek(ts).text[0])
    requires ListKept(args, MAX_ARGS - 1, base, used) && RedirsFit(redirs)
    ensures Kept(SimpleLoop(env, ts, args, redirs, used), base)
    decreases Count(ts), 0
  {
    hide Expanded, AddArg, IsKeyword, NumberedRedir, ListKept, RedirsFit, RedirFits, Kept, DigitValue;
    var t, t2 := Peek(ts), Peek(Advance(ts));
    SimpleFits(args, redirs, Advance(ts), base, used);
    if t2 == RedirOut || t2 == RedirAppend {
      if |redirs| < MAX_REDIRS {
        DigitIsSmall(t.text[0]);
        var (redir, rest) := NumberedRedir(env, DigitValue(t.text[0]), Advance(ts));
        NumberedFits(env, DigitValue(t.text[0]), Advance(ts));
        MoreRedirs(redirs, redir);
        SimpleKeeps(env, rest, args, redirs + [redir], base, used);
      }
    } else {
      var (args', used') := AddArg(env, t.text, args, used);
      ArgKeeps(env, t.text, args, base, used);
      SimpleKeeps(env, Advance(ts), args', redirs, base, used');
    }
  }

  lemma NothingYet(used: nat)
    requires used <= STRING_ARENA_SIZE
    ensures ListKept([], MAX_ARGS - 1, used, used) && ListKept([], MAX_FOR_WORDS, used, used) && RedirsFit([])
  {}

  // ------------------------------------------------------------------
  // Everything else
  // ------------------------------------------------------------------

  lemma JoinKeeps(op: BinOp, p: Parsed, q: Parsed, base: nat)
    requires Kept(p, base) && Kept(q, p.used)
    ensures Kept(Parsed(Binary(op, p.ast, q.ast), q.rest, q.used), base)
  {}

  lemma {:induction false} CommandKeeps(env: Env, ts: Tokens, used: nat)
    requires used <= STRING_ARENA_SIZE
    ensures Kept(ParseCommand(env, ts, used), used)
    decreases Count(ts), 3
  {
    hide ParseList, ParseIf, ParseWhile, ParseFor, SimpleLoop;
    var t := Peek(ts);
    if t == Word("if") {
      IfKeeps(env, ts, used);
    } else if t == Word("while") {
      WhileKeeps(env, ts, used);
    } else if t == Word("for") {
      ForKeeps(env, ts, used);
    } else if t == LBrace || t == LParen {
      ListKeeps(env, Advance(ts), used);
    } else {
      NothingYet(used);
      SimpleKeeps(env, ts, [], [], used, used);
    }
  }

  lemma {:induction false} PipelineKeeps(env: Env, p: Parsed, base: nat)
    requires Kept(p, base)
    ensures Kept(PipelineLoop(env, p), base)
    decreases Count(p.rest), 0
  {
    hide ParseCommand;
    if Peek(p.rest) == Pipe {
      var ts := SkipNewlines(Advance(p.rest));
      CommandKeeps(env, ts, p.used);
      var q := ParseCommand(env, ts, p.used);
      JoinKeeps(Pipeline, p, q, base);
      PipelineKeeps(env, Parsed(Binary(Pipeline, p.ast, q.ast), q.rest, q.used), base);
    }
  }

  lemma {:induction false} AndOrKeeps(env: Env, p: Parsed, base: nat)
    requires Kept(p, base)
    ensures Kept(AndOrLoop(env, p), base)
    decreases Count(p.rest), 0
  {
    hide ParseCommand, PipelineLoop;
    var t := Peek(p.rest);
    if t == AndIf || t == OrIf {
      var ts := SkipNewlines(Advance(p.rest));
      CommandKeeps(env, ts, p.used);
      PipelineKeeps(env, ParseCommand(env, ts, p.used), p.used);
      var q := ParsePipeline(env, ts, p.used);
      var op := if t == AndIf then And else Or;
      JoinKeeps(op, p, q, base);
      AndOrKeeps(env, Parsed(Binary(op, p.ast, q.ast), q.rest, q.used), base);
    }
  }

  lemma {:induction false} ParseAndOrKeeps(env: Env, ts: Tokens, used: nat)
    requires used <= STRING_ARENA_SIZE
    ensures Kept(ParseAndOr(env, ts, used), used)
    decreases Count(ts), 4
  {
    hide ParseCommand, PipelineLoop, AndOrLoop;
    CommandKeeps(env, ts, used);
    PipelineKeeps(env, ParseCommand(env, ts, used), used);
    AndOrKeeps(env, ParsePipeline(env, ts, used), used);
  }

  lemma {:induction false} ListLoopKeeps(env: Env, p: Parsed, base: nat)
    requires Kept(p, base)
    ensures Kept(ListLoop(env, p), base)
    decreases Count(p.rest), 0
  {
    hide ParseAndOr;
    if IsSeparator(Peek(p.rest)) {
      var ts := SkipNewlines(Advance(p.rest));
      if !EndsList(Peek(ts)) {
        ParseAndOrKeeps(env, ts, p.used);
        var q := ParseAndOr(env, ts, p.used);
        JoinKeeps(Sequence, p, q, base);
        ListLoopKeeps(env, Parsed(Binary(Sequence, p.ast, q.ast), q.rest, q.used), base);
      }
    }
  }

  /** For every token stream: the tree fits into the arrays and buffers of its nodes, and its strings into
      the arena, each in a place of its own. */
  lemma {:induction false} ListKeeps(env: Env, ts: Tokens, used: nat)
    requires used <= STRING_ARENA_SIZE
    ensures Kept(ParseList(env, ts, used), used)
    decreases Count(ts), 5
  {
    hide ParseAndOr, ListLoop;
    var ts' := SkipNewlines(ts);
    if !EndsList(Peek(ts')) {
      ParseAndOrKeeps(env, ts', used);
      ListLoopKeeps(env, ParseAndOr(env, ts', used), used);
    }
  }

  lemma {:induction false} IfKeeps(env: Env, ts: Tokens, used: nat)
    requires used <= STRING_ARENA_SIZE && Peek(ts) != Eof
    ensures Kept(ParseIf(env, ts, used), used)
    decreases Count(ts), 1
  {
    hide ParseList, ParseElse, SkipNewlines, Expect;
    ListKeeps(env, SkipNewlines(Advance(ts)), used);
    var c := ParseList(env, SkipNewlines(Advance(ts)), used);
    var ts' := SkipNewlines(Expect(c.rest, Word("then")));
    ListKeeps(env, ts', c.used);
    var t := ParseList(env, ts', c.used);
    ElseKeeps(env, t.rest, t.used);
  }

  lemma {:induction false} ElseKeeps(env: Env, ts: Tokens, used: nat)
    requires used <= STRING_ARENA_SIZE
    ensures Kept(ParseElse(env, ts, used), used)
    decreases Count(ts), 2
  {
    hide ParseList, ParseIf;
    if Peek(ts) == Word("elif") {
      IfKeeps(env, ts, used);
    } else if Peek(ts) == Word("else") {
      ListKeeps(env, SkipNewlines(Advance(ts)), used);
    }
  }

  lemma {:induction false} WhileKeeps(env: Env, ts: Tokens, used: nat)
    requires used <= STRING_ARENA_SIZE && Peek(ts) != Eof
    ensures Kept(ParseWhile(env, ts, used), used)
    decreases Count(ts), 1
  {
    hide ParseList, SkipNewlines, Expect;
    ListKeeps(env, SkipNewlines(Advance(ts)), used);
    var c := ParseList(env, SkipNewlines(Advance(ts)), used);
    ListKeeps(env, SkipNewlines(Expect(c.rest, Word("do"))), c.used);
  }

  lemma {:induction false} WordsKeep(env: Env, ts: Tokens, words: seq<string>, base: nat, used: nat)
    requires ListKept(words, MAX_FOR_WORDS, base, used)
    ensures var r := WordsLoop(env, ts, words, used); ListKept(r.0, MAX_FOR_WORDS, base, r.2)
    decreases Count(ts)
  {
    hide AddForWord, ListKept;
    var t := Peek(ts);
    if !EndsWords(t) {
      var (words', used') := AddForWord(env, t, words, used);
      ForWordKeeps(env, t, words, base, used);
      WordsKeep(env, Advance(ts), words', base, used');
    }
  }

  lemma {:induction false} HeaderKeeps(env: Env, ts: Tokens, used: nat)
    requires used <= STRING_ARENA_SIZE && Peek(ts) != Eof
    ensures var h := ForHeader(env, ts, used); |h.0| <= NAME_ROOM && ListKept(h.1, MAX_FOR_WORDS, used, h.3)
  {
    hide WordsLoop, SkipNewlines, Expect, ListKept;
    NothingYet(used);
    var (_, ts1) := ForName(Advance(ts));
    WordsKeep(env, Advance(ts1), [], used, used);
  }

  lemma {:induction false} ForKeeps(env: Env, ts: Tokens, used: nat)
    requires used <= STRING_ARENA_SIZE && Peek(ts) != Eof
    ensures Kept(ParseFor(env, ts, used), used)
    decreases Count(ts), 1
  {
    hide ParseList, ForHeader, Expect;
    HeaderKeeps(env, ts, used);
    var (_, _, ts', used') := ForHeader(env, ts, used);
    ListKeeps(env, ts', used');
  }
}
