/** The `2>&1` form that programs/sh.c announces (line 6): the parser has two places for it,
    and no text reaches either. */
module ShellDup {
  import opened Options
  import opened ShellLexer
  import opened ShellExpand
  import opened ShellSyntax

  /** `>&` without a second `&` comes next, blanks and a comment aside. */
  predicate DupNext(s: string) {
    var u := s[Skipped(s)..];
    |u| >= 2 && u[0] == '>' && u[1] == '&' && (|u| == 2 || u[2] != '&')
  }

  /** A text in which the tokenizer ever comes to that has no tokens: it stalls at the `&`. That is
      where every `2>&1` leads. */
  lemma DupTextStalls(text: string, n: nat)
    requires DupNext(After(text, n))
    ensures Lex(text) == None
  {
    hide ReadTok, Lex, After, DupNext;
    StallsAtOnce(After(text, n));
    StallsLater(text, n);
  }

  lemma StallsAtOnce(s: string)
    requires DupNext(s)
    ensures Lex(s) == None
  {
    hide ReadTok;
    OutputFirst(s);
    var u := s[Skipped(s)..];
    LoneAmpersand(u[2..]);
    assert s[Skipped(s) + 1..] == "&" + u[2..];
    assert Lex(s[Skipped(s) + 1..]) == None;
  }

  lemma OutputFirst(s: string)
    requires DupNext(s)
    ensures ReadTok(s) == (RedirOut, Skipped(s) + 1)
  {}

  lemma LoneAmpersand(rest: string)
    requires rest == [] || rest[0] != '&'
    ensures ReadTok("&" + rest).0 == Word("")
  {
    var u := "&" + rest;
    assert u[0] == '&' && (rest != [] ==> u[1] == rest[0]);
    assert Skipped(u) == 0 && u[0..] == u;
    EmptyWordIff(u);
  }

  predicate NoDups(rs: seq<Redir>) { forall r :: r in rs ==> r.dup.None? }

  predicate DupFree(a: Ast) {
    match a
    case Nothing => true
    case Simple(_, redirs) => NoDups(redirs)
    case Binary(_, l, r) => DupFree(l) && DupFree(r)
    case Group(_, b) => DupFree(b)
    case If(c, t, e) => DupFree(c) && DupFree(t) && DupFree(e)
    case While(c, b) => DupFree(c) && DupFree(b)
    case For(_, _, b) => DupFree(b)
  }

  ghost predicate Clean(p: Parsed) { DupFree(p.ast) && AllScanned(p.rest) }

  lemma ScannedSkip(ts: Tokens)
    requires AllScanned(ts)
    ensures AllScanned(SkipNewlines(ts)) && AllScanned(Advance(ts))
  {}

  lemma ScannedExpect(ts: Tokens, t: Token)
    requires AllScanned(ts)
    ensures AllScanned(SkipNewlines(Expect(ts, t))) && AllScanned(Expect(ts, t))
  {
    ScannedSkip(ts);
    ScannedSkip(Expect(ts, t));
  }

  lemma {:induction false} SimpleIsClean(env: Env, ts: Tokens, args: seq<string>, redirs: seq<Redir>, used: nat)
    requires AllScanned(ts) && NoDups(redirs)
    ensures Clean(SimpleLoop(env, ts, args, redirs, used))
    decreases Count(ts)
  {
    hide Expanded, AddArg, IsKeyword, SkipNewlines;
    var t := Peek(ts);
    ScannedSkip(ts);
    ScannedSkip(Advance(ts));
    ScannedSkip(Advance(Advance(ts)));
    if IsRedirect(t) {
      if |redirs| < MAX_REDIRS {
        var file := Peek(Advance(ts));
        if file.Word? {
          var redir := PlainRedir(t).(file := Expanded(env, file.text));
          SimpleIsClean(env, Advance(Advance(ts)), args, redirs + [redir], used);
        }
      }
    } else if t.Word? {
      if |t.text| == 1 && IsDigit(t.text[0]) {
        var t2 := Peek(Advance(ts));
        if t2 == RedirOut || t2 == RedirAppend {
          if |redirs| < MAX_REDIRS {
            var (redir, rest) := NumberedRedir(env, DigitValue(t.text[0]), Advance(ts));
            SimpleIsClean(env, rest, args, redirs + [redir], used);
          }
        } else {
          var (args', used') := AddArg(env, t.text, args, used);
          SimpleIsClean(env, Advance(ts), args', redirs, used');
        }
      } else if !IsDupWord(t.text) && !IsKeyword(t.text) {
        var (args', used') := AddArg(env, t.text, args, used);
        SimpleIsClean(env, Advance(ts), args', redirs, used');
      }
    }
  }

  lemma {:induction false} CommandIsClean(env: Env, ts: Tokens, used: nat)
    requires AllScanned(ts)
    ensures Clean(ParseCommand(env, ts, used))
    decreases Count(ts), 3
  {
    hide ParseList, ParseIf, ParseWhile, ParseFor;
    var t := Peek(ts);
    ScannedSkip(ts);
    if t == Word("if") {
      IfIsClean(env, ts, used);
    } else if t == Word("while") {
      WhileIsClean(env, ts, used);
    } else if t == Word("for") {
      ForIsClean(env, ts, used);
    } else if t == LBrace || t == LParen {
      var b := ParseList(env, Advance(ts), used);
      ListIsClean(env, Advance(ts), used);
      ScannedExpect(b.rest, if t == LBrace then RBrace else RParen);
    } else {
      SimpleIsClean(env, ts, [], [], used);
    }
  }

  lemma {:induction false} PipelineIsClean(env: Env, p: Parsed)
    requires Clean(p)
    ensures Clean(PipelineLoop(env, p))
    decreases Count(p.rest), 0
  {
    hide ParseCommand;
    if Peek(p.rest) == Pipe {
      var ts := SkipNewlines(Advance(p.rest));
      ScannedSkip(p.rest);
      ScannedSkip(Advance(p.rest));
      CommandIsClean(env, ts, p.used);
      var q := ParseCommand(env, ts, p.used);
      PipelineIsClean(env, Parsed(Binary(Pipeline, p.ast, q.ast), q.rest, q.used));
    }
  }

  lemma {:induction false} AndOrIsClean(env: Env, p: Parsed)
    requires Clean(p)
    ensures Clean(AndOrLoop(env, p))
    decreases Count(p.rest), 0
  {
    hide ParseCommand, PipelineLoop;
    var t := Peek(p.rest);
    if t == AndIf || t == OrIf {
      var ts := SkipNewlines(Advance(p.rest));
      ScannedSkip(p.rest);
      ScannedSkip(Advance(p.rest));
      CommandIsClean(env, ts, p.used);
      PipelineIsClean(env, ParseCommand(env, ts, p.used));
      var q := ParsePipeline(env, ts, p.used);
      AndOrIsClean(env, Parsed(Binary(if t == AndIf then And else Or, p.ast, q.ast), q.rest, q.used));
    }
  }

  lemma {:induction false} ParseAndOrIsClean(env: Env, ts: Tokens, used: nat)
    requires AllScanned(ts)
    ensures Clean(ParseAndOr(env, ts, used))
    decreases Count(ts), 4
  {
    hide ParseCommand, PipelineLoop, AndOrLoop;
    CommandIsClean(env, ts, used);
    PipelineIsClean(env, ParseCommand(env, ts, used));
    AndOrIsClean(env, ParsePipeline(env, ts, used));
  }

  lemma {:induction false} ListLoopIsClean(env: Env, p: Parsed)
    requires Clean(p)
    ensures Clean(ListLoop(env, p))
    decreases Count(p.rest), 0
  {
    hide ParseAndOr;
    if IsSeparator(Peek(p.rest)) {
      var ts := SkipNewlines(Advance(p.rest));
      ScannedSkip(p.rest);
      ScannedSkip(Advance(p.rest));
      if !EndsList(Peek(ts)) {
        ParseAndOrIsClean(env, ts, p.used);
        var q := ParseAndOr(env, ts, p.used);
        ListLoopIsClean(env, Parsed(Binary(Sequence, p.ast, q.ast), q.rest, q.used));
      }
    }
  }

  lemma {:induction false} ListIsClean(env: Env, ts: Tokens, used: nat)
    requires AllScanned(ts)
    ensures Clean(ParseList(env, ts, used))
    decreases Count(ts), 5
  {
    hide ParseAndOr, ListLoop;
    var ts' := SkipNewlines(ts);
    ScannedSkip(ts);
    if !EndsList(Peek(ts')) {
      ParseAndOrIsClean(env, ts', used);
      ListLoopIsClean(env, ParseAndOr(env, ts', used));
    }
  }

  lemma {:induction false} IfIsClean(env: Env, ts: Tokens, used: nat)
    requires AllScanned(ts) && Peek(ts) != Eof
    ensures Clean(ParseIf(env, ts, used))
    decreases Count(ts), 1
  {
    hide ParseList, ParseElse;
    ScannedSkip(ts);
    ScannedSkip(Advance(ts));
    ListIsClean(env, SkipNewlines(Advance(ts)), used);
    var c := ParseList(env, SkipNewlines(Advance(ts)), used);
    ScannedExpect(c.rest, Word("then"));
    var ts' := SkipNewlines(Expect(c.rest, Word("then")));
    ListIsClean(env, ts', c.used);
    var t := ParseList(env, ts', c.used);
    ElseIsClean(env, t.rest, t.used);
  }

  lemma {:induction false} ElseIsClean(env: Env, ts: Tokens, used: nat)
    requires AllScanned(ts)
    ensures Clean(ParseElse(env, ts, used))
    decreases Count(ts), 2
  {
    hide ParseList, ParseIf;
    if Peek(ts) == Word("elif") {
      IfIsClean(env, ts, used);
    } else if Peek(ts) == Word("else") {
      ScannedSkip(ts);
      ScannedSkip(Advance(ts));
      ListIsClean(env, SkipNewlines(Advance(ts)), used);
      ScannedExpect(ParseList(env, SkipNewlines(Advance(ts)), used).rest, Word("fi"));
    } else {
      ScannedExpect(ts, Word("fi"));
    }
  }

  lemma {:induction false} WhileIsClean(env: Env, ts: Tokens, used: nat)
    requires AllScanned(ts) && Peek(ts) != Eof
    ensures Clean(ParseWhile(env, ts, used))
    decreases Count(ts), 1
  {
    hide ParseList;
    ScannedSkip(ts);
    ScannedSkip(Advance(ts));
    ListIsClean(env, SkipNewlines(Advance(ts)), used);
    var c := ParseList(env, SkipNewlines(Advance(ts)), used);
    ScannedExpect(c.rest, Word("do"));
    var ts' := SkipNewlines(Expect(c.rest, Word("do")));
    ListIsClean(env, ts', c.used);
    ScannedExpect(ParseList(env, ts', c.used).rest, Word("done"));
  }

  lemma {:induction false} WordsAreClean(env: Env, ts: Tokens, words: seq<string>, used: nat)
    requires AllScanned(ts)
    ensures AllScanned(WordsLoop(env, ts, words, used).1)
    decreases Count(ts)
  {
    var t := Peek(ts);
    if !EndsWords(t) {
      var (words', used') := AddForWord(env, t, words, used);
      WordsAreClean(env, Advance(ts), words', used');
    }
  }

  lemma {:induction false} HeaderIsClean(env: Env, ts: Tokens, used: nat)
    requires AllScanned(ts) && Peek(ts) != Eof
    ensures AllScanned(ForHeader(env, ts, used).2)
  {
    hide WordsLoop, SkipNewlines, Expect;
    ScannedSkip(ts);
    ScannedSkip(Advance(ts));
    var (_, ts1) := ForName(Advance(ts));
    ScannedSkip(ts1);
    WordsAreClean(env, Advance(ts1), [], used);
    var (_, ts2, _) := if Peek(ts1) == Word("in") then WordsLoop(env, Advance(ts1), [], used) else ([], ts1, used);
    ScannedSkip(ts2);
    ScannedExpect(SkipNewlines(ts2), Word("do"));
  }

  lemma {:induction false} ForIsClean(env: Env, ts: Tokens, used: nat)
    requires AllScanned(ts) && Peek(ts) != Eof
    ensures Clean(ParseFor(env, ts, used))
    decreases Count(ts), 1
  {
    hide ParseList, ForHeader, Expect;
    HeaderIsClean(env, ts, used);
    var (_, _, ts', used') := ForHeader(env, ts, used);
    ListIsClean(env, ts', used');
    ScannedExpect(ParseList(env, ts', used').rest, Word("done"));
  }

  /** No script at all gives a descriptor duplication, however far the tokenizer gets with it and
      however often it is asked: every redirection of every command the parser can produce opens
      a file. */
  lemma NoScriptDuplicates(env: Env, text: string, n: nat)
    ensures DupFree(ParseList(env, Reads(text, n), 0).ast)
  {
    hide ParseList;
    ReadsAreScanned(text, n);
    ListIsClean(env, Reads(text, n), 0);
  }

  /** The announced form itself: its tokens are `2`, `>` and empty words for ever. */
  lemma AnnouncedForm()
    ensures Lex("2>&1") == None
  {
    var s := "2>&1";
    assert Skipped(s) == 0 && s[0..] == s && s[1..] == ">&1" && s[1..][0] == '>';
    assert WordLength(s[1..], MAX_WORD - 2, false, false) == 0;
    assert s[..1] == "2" && ReadTok(s).1 == 1;
    var u := s[1..];
    assert Skipped(u) == 0 && u[0..] == u && u[2] == '1';
    assert After(s, 1) == u && DupNext(u);
    hide After, Lex;
    DupTextStalls(s, 1);
  }
}
