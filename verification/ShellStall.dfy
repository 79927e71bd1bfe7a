/** What the parser of programs/sh.c does with a text at which the tokenizer stalls: it either runs
    into the stall and reads empty words for ever, or ends in front of it. */
module ShellStall {
  import opened Options
  import opened ShellLexer
  import opened ShellExpand
  import opened ShellSyntax

  // ------------------------------------------------------------------
  // Tokens before a stall
  // ------------------------------------------------------------------

  lemma ExtendSteps(ts: Tokens, k: nat)
    requires k > 0
    ensures Peek(Extend(ts, k)) == if ts == End then Word("") else Peek(ts)
    ensures Advance(Extend(ts, k)) == if ts == End then Stalled(k - 1) else Extend(Advance(ts), k)
  {}

  lemma {:induction false} ExtendSkips(ts: Tokens, k: nat)
    requires k > 0
    ensures SkipNewlines(Extend(ts, k)) == Extend(SkipNewlines(ts), k)
  {
    if ts.Next? { ExtendSkips(ts.tail, k); }
  }

  lemma ExtendExpects(ts: Tokens, t: Token, k: nat)
    requires k > 0 && t != Eof && t != Word("")
    ensures Expect(Extend(ts, k), t) == Extend(Expect(ts, t), k)
  {}

  // ------------------------------------------------------------------
  // Nothing but empty words
  // ------------------------------------------------------------------

  /** A simple command takes them all as arguments, wanted or not. */
  lemma {:induction false} SimpleTakesAll(env: Env, k: nat, args: seq<string>, redirs: seq<Redir>, used: nat)
    ensures SimpleLoop(env, Stalled(k), args, redirs, used).rest == End
    decreases k
  {
    hide Expanded, Keep;
    if k > 0 {
      var (args', used') := AddArg(env, "", args, used);
      SimpleTakesAll(env, k - 1, args', redirs, used');
    }
  }

  lemma {:induction false} WordsTakeAll(env: Env, k: nat, words: seq<string>, used: nat)
    ensures WordsLoop(env, Stalled(k), words, used).1 == End
    decreases k
  {
    hide AddForWord;
    if k > 0 {
      var (words', used') := AddForWord(env, Word(""), words, used);
      WordsTakeAll(env, k - 1, words', used');
    }
  }

  lemma NoTokens(ts: Tokens)
    requires Count(ts) == 0
    ensures ts == End
  {}

  lemma {:induction false} CommandTakesAll(env: Env, k: nat, used: nat)
    ensures ParseCommand(env, Stalled(k), used).rest == End
  {
    hide SimpleLoop, ParseList, ParseIf, ParseWhile, ParseFor;
    SimpleTakesAll(env, k, [], [], used);
  }

  lemma {:induction false} ListTakesAll(env: Env, k: nat, used: nat)
    ensures ParseList(env, Stalled(k), used).rest == End
  {
    hide ParseCommand, PipelineLoop, AndOrLoop, ListLoop;
    CommandTakesAll(env, k, used);
    NoTokens(PipelineLoop(env, ParseCommand(env, Stalled(k), used)).rest);
    NoTokens(AndOrLoop(env, ParsePipeline(env, Stalled(k), used)).rest);
    NoTokens(ListLoop(env, ParseAndOr(env, Stalled(k), used)).rest);
  }

  // ------------------------------------------------------------------
  // Running into the stall, or not
  // ------------------------------------------------------------------

  /** Two parses, of the same tokens with 1 and with `k` empty words behind them: both have taken
      every word (`left` is None), or they give the same tree and leave the empty words behind
      the same tokens. */
  predicate Alike(p: Parsed, q: Parsed, left: Option<Tokens>, k: nat) {
    if left.None? then p.rest == End && q.rest == End
    else p.rest == Extend(left.value, 1) && q == Parsed(p.ast, Extend(left.value, k), p.used)
  }

  lemma {:induction false} SimpleAlike(env: Env, ts: Tokens, args: seq<string>, redirs: seq<Redir>, used: nat, k: nat)
    returns (left: Option<Tokens>)
    requires k > 0
    ensures Alike(SimpleLoop(env, Extend(ts, 1), args, redirs, used),
                  SimpleLoop(env, Extend(ts, k), args, redirs, used), left, k)
    ensures left.Some? ==> Count(left.value) <= Count(ts)
    decreases Count(ts)
  {
    hide Expanded, Keep, AddArg, IsKeyword;
    left := Some(ts);
    if ts == End {
      SimpleTakesAll(env, 1, args, redirs, used);
      SimpleTakesAll(env, k, args, redirs, used);
      left := None;
    } else {
      var t, next := ts.head, ts.tail;
      if IsRedirect(t) {
        if |redirs| < MAX_REDIRS {
          left := RedirAlike(env, ts, args, redirs, used, k);
        }
      } else if t.Word? {
        if |t.text| == 1 && IsDigit(t.text[0]) {
          left := DigitAlike(env, ts, args, redirs, used, k);
        } else if IsDupWord(t.text) {
          var redirs' := if |redirs| < MAX_REDIRS
                         then redirs + [Redir(DigitValue(t.text[0]), NoMode, Some(DigitValue(t.text[3])), "")]
                         else redirs;
          left := SimpleAlike(env, next, args, redirs', used, k);
        } else if !IsKeyword(t.text) {
          var (args', used') := AddArg(env, t.text, args, used);
          left := SimpleAlike(env, next, args', redirs, used', k);
        }
      }
    }
  }

  lemma {:induction false} RedirAlike(env: Env, ts: Tokens, args: seq<string>, redirs: seq<Redir>, used: nat, k: nat)
    returns (left: Option<Tokens>)
    requires k > 0 && ts.Next? && IsRedirect(ts.head) && |redirs| < MAX_REDIRS
    ensures Alike(SimpleLoop(env, Extend(ts, 1), args, redirs, used),
                  SimpleLoop(env, Extend(ts, k), args, redirs, used), left, k)
    ensures left.Some? ==> Count(left.value) <= Count(ts)
    decreases Count(ts), 0
  {
    hide Expanded, Keep, AddArg, IsKeyword;
    var next := ts.tail;
    ExtendSteps(next, 1);
    ExtendSteps(next, k);
    if next == End {
      var redirs' := redirs + [PlainRedir(ts.head).(file := Expanded(env, ""))];
      SimpleTakesAll(env, 0, args, redirs', used);
      SimpleTakesAll(env, k - 1, args, redirs', used);
      left := None;
    } else if next.head.Word? {
      var redirs' := redirs + [PlainRedir(ts.head).(file := Expanded(env, next.head.text))];
      left := SimpleAlike(env, next.tail, args, redirs', used, k);
    } else {
      left := Some(next);
    }
  }

  lemma {:induction false} NumberedAlike(env: Env, fd: nat, ts: Tokens, k: nat) returns (left: Option<Tokens>)
    requires k > 0 && ts.Next? && (ts.head == RedirOut || ts.head == RedirAppend)
    ensures var p, q := NumberedRedir(env, fd, Extend(ts, 1)), NumberedRedir(env, fd, Extend(ts, k));
            && p.0 == q.0
            && (if left.None? then p.1 == End && q.1 == Stalled(k - 1)
                else p.1 == Extend(left.value, 1) && q.1 == Extend(left.value, k) && Count(left.value) < Count(ts))
  {
    hide Expanded;
    ExtendSteps(ts.tail, 1);
    ExtendSteps(ts.tail, k);
    if ts.tail == End {
      left := None;
    } else if ts.tail.head.Word? {
      left := Some(ts.tail.tail);
    } else {
      left := Some(ts.tail);
    }
  }

  lemma {:induction false} DigitAlike(env: Env, ts: Tokens, args: seq<string>, redirs: seq<Redir>, used: nat, k: nat)
    returns (left: Option<Tokens>)
    requires k > 0 && ts.Next? && ts.head.Word? && |ts.head.text| == 1 && IsDigit(ts.head.text[0])
    ensures Alike(SimpleLoop(env, Extend(ts, 1), args, redirs, used),
                  SimpleLoop(env, Extend(ts, k), args, redirs, used), left, k)
    ensures left.Some? ==> Count(left.value) <= Count(ts)
    decreases Count(ts), 0
  {
    hide Expanded, Keep, AddArg, IsKeyword, NumberedRedir;
    var next, fd := ts.tail, DigitValue(ts.head.text[0]);
    ExtendSteps(next, 1);
    ExtendSteps(next, k);
    if next.Next? && (next.head == RedirOut || next.head == RedirAppend) {
      if |redirs| >= MAX_REDIRS {
        left := Some(next);
      } else {
        left := NumberedAlike(env, fd, next, k);
        var redir := NumberedRedir(env, fd, Extend(next, 1)).0;
        if left.None? {
          SimpleTakesAll(env, 0, args, redirs + [redir], used);
          SimpleTakesAll(env, k - 1, args, redirs + [redir], used);
        } else {
          left := SimpleAlike(env, left.value, args, redirs + [redir], used, k);
        }
      }
    } else {
      var (args', used') := AddArg(env, ts.head.text, args, used);
      left := SimpleAlike(env, next, args', redirs, used', k);
    }
  }

  /** A closing token that follows, or does not. */
  lemma ExpectAlike(p: Parsed, q: Parsed, t: Token, left: Option<Tokens>, k: nat) returns (left': Option<Tokens>)
    requires k > 0 && t != Eof && t != Word("") && Alike(p, q, left, k)
    ensures Alike(p.(rest := Expect(p.rest, t)), q.(rest := Expect(q.rest, t)), left', k)
    ensures left'.Some? ==> left.Some? && Count(left'.value) <= Count(left.value)
  {
    left' := left;
    if left.Some? {
      ExtendExpects(left.value, t, 1);
      ExtendExpects(left.value, t, k);
      left' := Some(Expect(left.value, t));
    }
  }

  lemma {:induction false} CommandAlike(env: Env, ts: Tokens, used: nat, k: nat) returns (left: Option<Tokens>)
    requires k > 0
    ensures Alike(ParseCommand(env, Extend(ts, 1), used), ParseCommand(env, Extend(ts, k), used), left, k)
    ensures left.Some? ==> Count(left.value) <= Count(ts)
    decreases Count(ts), 3
  {
    hide ParseList, ParseIf, ParseWhile, ParseFor, SimpleLoop;
    var t := Peek(ts);
    ExtendSteps(ts, 1);
    ExtendSteps(ts, k);
    if t == Word("if") {
      left := IfAlike(env, ts, used, k);
    } else if t == Word("while") {
      left := WhileAlike(env, ts, used, k);
    } else if t == Word("for") {
      left := ForAlike(env, ts, used, k);
    } else if t == LBrace || t == LParen {
      left := ListAlike(env, ts.tail, used, k);
      var b, c := ParseList(env, Extend(ts.tail, 1), used), ParseList(env, Extend(ts.tail, k), used);
      left := ExpectAlike(b, c, if t == LBrace then RBrace else RParen, left, k);
    } else {
      left := SimpleAlike(env, ts, [], [], used, k);
    }
  }

  lemma {:induction false} PipelineAlike(env: Env, a: Ast, ts: Tokens, used: nat, k: nat) returns (left: Option<Tokens>)
    requires k > 0
    ensures Alike(PipelineLoop(env, Parsed(a, Extend(ts, 1), used)),
                  PipelineLoop(env, Parsed(a, Extend(ts, k), used)), left, k)
    ensures left.Some? ==> Count(left.value) <= Count(ts)
    decreases Count(ts), 0
  {
    hide ParseCommand, SkipNewlines;
    ExtendSteps(ts, 1);
    ExtendSteps(ts, k);
    left := Some(ts);
    if Peek(ts) == Pipe {
      ExtendSkips(ts.tail, 1);
      ExtendSkips(ts.tail, k);
      var next := SkipNewlines(ts.tail);
      left := CommandAlike(env, next, used, k);
      var q, q' := ParseCommand(env, Extend(next, 1), used), ParseCommand(env, Extend(next, k), used);
      if left.Some? {
        left := PipelineAlike(env, Binary(Pipeline, a, q.ast), left.value, q.used, k);
      } else {
        NoTokens(PipelineLoop(env, Parsed(Binary(Pipeline, a, q.ast), End, q.used)).rest);
        NoTokens(PipelineLoop(env, Parsed(Binary(Pipeline, a, q'.ast), End, q'.used)).rest);
      }
    }
  }

  lemma {:induction false} ParsePipelineAlike(env: Env, ts: Tokens, used: nat, k: nat) returns (left: Option<Tokens>)
    requires k > 0
    ensures Alike(ParsePipeline(env, Extend(ts, 1), used), ParsePipeline(env, Extend(ts, k), used), left, k)
    ensures left.Some? ==> Count(left.value) <= Count(ts)
    decreases Count(ts), 4
  {
    hide ParseCommand, PipelineLoop;
    left := CommandAlike(env, ts, used, k);
    var p, q := ParseCommand(env, Extend(ts, 1), used), ParseCommand(env, Extend(ts, k), used);
    if left.Some? {
      left := PipelineAlike(env, p.ast, left.value, p.used, k);
    } else {
      NoTokens(PipelineLoop(env, p).rest);
      NoTokens(PipelineLoop(env, q).rest);
    }
  }

  lemma {:induction false} AndOrAlike(env: Env, a: Ast, ts: Tokens, used: nat, k: nat) returns (left: Option<Tokens>)
    requires k > 0
    ensures Alike(AndOrLoop(env, Parsed(a, Extend(ts, 1), used)),
                  AndOrLoop(env, Parsed(a, Extend(ts, k), used)), left, k)
    ensures left.Some? ==> Count(left.value) <= Count(ts)
    decreases Count(ts), 0
  {
    hide ParsePipeline, SkipNewlines;
    ExtendSteps(ts, 1);
    ExtendSteps(ts, k);
    left := Some(ts);
    if Peek(ts) == AndIf || Peek(ts) == OrIf {
      ExtendSkips(ts.tail, 1);
      ExtendSkips(ts.tail, k);
      var next, op := SkipNewlines(ts.tail), if Peek(ts) == AndIf then And else Or;
      left := ParsePipelineAlike(env, next, used, k);
      var q, q' := ParsePipeline(env, Extend(next, 1), used), ParsePipeline(env, Extend(next, k), used);
      if left.Some? {
        left := AndOrAlike(env, Binary(op, a, q.ast), left.value, q.used, k);
      } else {
        NoTokens(AndOrLoop(env, Parsed(Binary(op, a, q.ast), End, q.used)).rest);
        NoTokens(AndOrLoop(env, Parsed(Binary(op, a, q'.ast), End, q'.used)).rest);
      }
    }
  }

  lemma {:induction false} ParseAndOrAlike(env: Env, ts: Tokens, used: nat, k: nat) returns (left: Option<Tokens>)
    requires k > 0
    ensures Alike(ParseAndOr(env, Extend(ts, 1), used), ParseAndOr(env, Extend(ts, k), used), left, k)
    ensures left.Some? ==> Count(left.value) <= Count(ts)
    decreases Count(ts), 5
  {
    hide ParsePipeline, AndOrLoop;
    left := ParsePipelineAlike(env, ts, used, k);
    var p, q := ParsePipeline(env, Extend(ts, 1), used), ParsePipeline(env, Extend(ts, k), used);
    if left.Some? {
      left := AndOrAlike(env, p.ast, left.value, p.used, k);
    } else {
      NoTokens(AndOrLoop(env, p).rest);
      NoTokens(AndOrLoop(env, q).rest);
    }
  }

  lemma StallEndsNoList()
    ensures !EndsList(Word(""))
  {}

  lemma {:induction false} ListLoopAlike(env: Env, a: Ast, ts: Tokens, used: nat, k: nat) returns (left: Option<Tokens>)
    requires k > 0
    ensures Alike(ListLoop(env, Parsed(a, Extend(ts, 1), used)), ListLoop(env, Parsed(a, Extend(ts, k), used)), left, k)
    ensures left.Some? ==> Count(left.value) <= Count(ts)
    decreases Count(ts), 0
  {
    hide ParseAndOr, SkipNewlines, EndsList, Extend, Stalled;
    ExtendSteps(ts, 1);
    ExtendSteps(ts, k);
    StallEndsNoList();
    left := Some(ts);
    if IsSeparator(Peek(ts)) {
      ExtendSkips(ts.tail, 1);
      ExtendSkips(ts.tail, k);
      var next := SkipNewlines(ts.tail);
      ExtendSteps(next, 1);
      ExtendSteps(next, k);
      if next != End && EndsList(Peek(next)) {
        left := Some(next);
      } else {
        left := ParseAndOrAlike(env, next, used, k);
        var q, q' := ParseAndOr(env, Extend(next, 1), used), ParseAndOr(env, Extend(next, k), used);
        if left.Some? {
          left := ListLoopAlike(env, Binary(Sequence, a, q.ast), left.value, q.used, k);
        } else {
          NoTokens(ListLoop(env, Parsed(Binary(Sequence, a, q.ast), End, q.used)).rest);
          NoTokens(ListLoop(env, Parsed(Binary(Sequence, a, q'.ast), End, q'.used)).rest);
        }
      }
    }
  }

  lemma {:induction false} ListAlike(env: Env, ts: Tokens, used: nat, k: nat) returns (left: Option<Tokens>)
    requires k > 0
    ensures Alike(ParseList(env, Extend(ts, 1), used), ParseList(env, Extend(ts, k), used), left, k)
    ensures left.Some? ==> Count(left.value) <= Count(ts)
    decreases Count(ts), 6
  {
    hide ParseAndOr, ListLoop, SkipNewlines;
    ExtendSkips(ts, 1);
    ExtendSkips(ts, k);
    var next := SkipNewlines(ts);
    ExtendSteps(next, 1);
    ExtendSteps(next, k);
    if next != End && EndsList(Peek(next)) {
      left := Some(next);
    } else {
      left := ParseAndOrAlike(env, next, used, k);
      var p, q := ParseAndOr(env, Extend(next, 1), used), ParseAndOr(env, Extend(next, k), used);
      if left.Some? {
        left := ListLoopAlike(env, p.ast, left.value, p.used, k);
      } else {
        NoTokens(ListLoop(env, p).rest);
        NoTokens(ListLoop(env, q).rest);
      }
    }
  }

  /** The list behind an opening or a middle word that may be missing. */
  function Behind(env: Env, ts: Tokens, word: string, used: nat): Parsed {
    ParseList(env, SkipNewlines(Expect(ts, Word(word))), used)
  }

  lemma {:induction false} BehindAlike(env: Env, ts: Tokens, word: string, used: nat, k: nat)
    returns (left: Option<Tokens>)
    requires k > 0 && word != ""
    ensures Alike(Behind(env, Extend(ts, 1), word, used), Behind(env, Extend(ts, k), word, used), left, k)
    ensures left.Some? ==> Count(left.value) <= Count(ts)
    decreases Count(ts), 7
  {
    hide ParseList, SkipNewlines, Expect;
    ExtendExpects(ts, Word(word), 1);
    ExtendExpects(ts, Word(word), k);
    var next := Expect(ts, Word(word));
    ExtendSkips(next, 1);
    ExtendSkips(next, k);
    left := ListAlike(env, SkipNewlines(next), used, k);
  }

  lemma {:induction false} IfAlike(env: Env, ts: Tokens, used: nat, k: nat) returns (left: Option<Tokens>)
    requires k > 0 && ts.Next? && ts.head != Eof
    ensures Alike(ParseIf(env, Extend(ts, 1), used), ParseIf(env, Extend(ts, k), used), left, k)
    ensures left.Some? ==> Count(left.value) <= Count(ts)
    decreases Count(ts), 1
  {
    hide ParseList, ParseElse, SkipNewlines, Expect;
    ExtendSteps(ts, 1);
    ExtendSteps(ts, k);
    ExtendSkips(ts.tail, 1);
    ExtendSkips(ts.tail, k);
    var next := SkipNewlines(ts.tail);
    left := ListAlike(env, next, used, k);
    var c, c' := ParseList(env, Extend(next, 1), used), ParseList(env, Extend(next, k), used);
    if left.Some? {
      left := BehindAlike(env, left.value, "then", c.used, k);
    }
    var t, t' := Behind(env, c.rest, "then", c.used), Behind(env, c'.rest, "then", c'.used);
    if left.Some? {
      left := ElseAlike(env, left.value, t.used, k);
    } else {
      NoTokens(t.rest);
      NoTokens(t'.rest);
      NoTokens(ParseElse(env, t.rest, t.used).rest);
      NoTokens(ParseElse(env, t'.rest, t'.used).rest);
    }
  }

  lemma {:induction false} ElseAlike(env: Env, ts: Tokens, used: nat, k: nat) returns (left: Option<Tokens>)
    requires k > 0
    ensures Alike(ParseElse(env, Extend(ts, 1), used), ParseElse(env, Extend(ts, k), used), left, k)
    ensures left.Some? ==> Count(left.value) <= Count(ts)
    decreases Count(ts), 2
  {
    hide ParseList, ParseIf, SkipNewlines, Expect;
    ExtendSteps(ts, 1);
    ExtendSteps(ts, k);
    if Peek(ts) == Word("elif") {
      left := IfAlike(env, ts, used, k);
    } else if Peek(ts) == Word("else") {
      ExtendSkips(ts.tail, 1);
      ExtendSkips(ts.tail, k);
      var next := SkipNewlines(ts.tail);
      left := ListAlike(env, next, used, k);
      var e, e' := ParseList(env, Extend(next, 1), used), ParseList(env, Extend(next, k), used);
      left := ExpectAlike(e, e', Word("fi"), left, k);
    } else {
      left := Some(ts);
      var e, e' := Parsed(Nothing, Extend(ts, 1), used), Parsed(Nothing, Extend(ts, k), used);
      left := ExpectAlike(e, e', Word("fi"), left, k);
    }
  }

  lemma {:induction false} WhileAlike(env: Env, ts: Tokens, used: nat, k: nat) returns (left: Option<Tokens>)
    requires k > 0 && ts.Next? && ts.head != Eof
    ensures Alike(ParseWhile(env, Extend(ts, 1), used), ParseWhile(env, Extend(ts, k), used), left, k)
    ensures left.Some? ==> Count(left.value) <= Count(ts)
    decreases Count(ts), 1
  {
    hide ParseList, SkipNewlines, Expect;
    ExtendSteps(ts, 1);
    ExtendSteps(ts, k);
    ExtendSkips(ts.tail, 1);
    ExtendSkips(ts.tail, k);
    var next := SkipNewlines(ts.tail);
    left := ListAlike(env, next, used, k);
    var c, c' := ParseList(env, Extend(next, 1), used), ParseList(env, Extend(next, k), used);
    if left.Some? {
      left := BehindAlike(env, left.value, "do", c.used, k);
    }
    var b, b' := Behind(env, c.rest, "do", c.used), Behind(env, c'.rest, "do", c'.used);
    if left.None? {
      NoTokens(b.rest);
      NoTokens(b'.rest);
    }
    left := ExpectAlike(b, b', Word("done"), left, k);
  }

  lemma {:induction false} WordsAlike(env: Env, ts: Tokens, words: seq<string>, used: nat, k: nat)
    returns (left: Option<Tokens>)
    requires k > 0
    ensures var p, q := WordsLoop(env, Extend(ts, 1), words, used), WordsLoop(env, Extend(ts, k), words, used);
            if left.None? then p.1 == End && q.1 == End
            else p.1 == Extend(left.value, 1) && q == (p.0, Extend(left.value, k), p.2)
    ensures left.Some? ==> Count(left.value) <= Count(ts)
    decreases Count(ts)
  {
    hide AddForWord;
    left := Some(ts);
    if ts == End {
      WordsTakeAll(env, 1, words, used);
      WordsTakeAll(env, k, words, used);
      left := None;
    } else {
      if !EndsWords(ts.head) {
        var (words', used') := AddForWord(env, ts.head, words, used);
        left := WordsAlike(env, ts.tail, words', used', k);
      }
    }
  }

  lemma {:induction false} NameAlike(ts: Tokens, k: nat)
    requires k > 0
    ensures ts == End ==> ForName(Extend(ts, 1)) == ("", End) && ForName(Extend(ts, k)) == ("", Stalled(k - 1))
    ensures ts != End ==> var (name, next) := ForName(ts);
              ForName(Extend(ts, 1)) == (name, Extend(next, 1)) && ForName(Extend(ts, k)) == (name, Extend(next, k))
  {
    ExtendSteps(ts, 1);
    ExtendSteps(ts, k);
  }

  lemma {:induction false} StalledTail(k: nat)
    ensures Peek(Stalled(k)) == (if k == 0 then Eof else Word("")) && SkipNewlines(Stalled(k)) == Stalled(k)
    ensures Expect(Stalled(k), Word("do")) == Stalled(k)
  {}

  /** `do` behind the words, with separators around it. */
  function ToBody(ts: Tokens): Tokens { SkipNewlines(Expect(SkipNewlines(ts), Word("do"))) }

  lemma {:induction false} ToBodyAlike(ts: Tokens, k: nat)
    requires k > 0
    ensures ToBody(Extend(ts, k)) == Extend(ToBody(ts), k) && Count(ToBody(ts)) <= Count(ts)
  {
    hide SkipNewlines, Expect;
    ExtendSkips(ts, k);
    ExtendExpects(SkipNewlines(ts), Word("do"), k);
    ExtendSkips(Expect(SkipNewlines(ts), Word("do")), k);
  }

  /** The header of a loop; `j` empty words are left when the name was one already. */
  lemma {:induction false} HeaderAlike(env: Env, ts: Tokens, used: nat, k: nat) returns (left: Option<Tokens>, j: nat)
    requires k > 0 && ts.Next? && ts.head != Eof
    ensures var p, q := ForHeader(env, Extend(ts, 1), used), ForHeader(env, Extend(ts, k), used);
            if left.None? then p.2 == End && q.2 == Stalled(j)
            else p.2 == Extend(left.value, 1) && q == (p.0, p.1, Extend(left.value, k), p.3)
    ensures left.Some? ==> Count(left.value) < Count(ts)
  {
    hide WordsLoop, SkipNewlines, Expect, ForName;
    j := 0;
    ExtendSteps(ts, 1);
    ExtendSteps(ts, k);
    NameAlike(ts.tail, k);
    StalledTail(0);
    if ts.tail == End {
      StalledTail(k - 1);
      left, j := None, k - 1;
    } else {
      var next := ForName(ts.tail).1;
      ExtendSteps(next, 1);
      ExtendSteps(next, k);
      if Peek(next) == Word("in") {
        left := WordsAlike(env, next.tail, [], used, k);
      } else {
        left := Some(next);
      }
      if left.Some? {
        ToBodyAlike(left.value, 1);
        ToBodyAlike(left.value, k);
        left := Some(ToBody(left.value));
      }
    }
  }

  lemma {:induction false} ForAlike(env: Env, ts: Tokens, used: nat, k: nat) returns (left: Option<Tokens>)
    requires k > 0 && ts.Next? && ts.head != Eof
    ensures Alike(ParseFor(env, Extend(ts, 1), used), ParseFor(env, Extend(ts, k), used), left, k)
    ensures left.Some? ==> Count(left.value) <= Count(ts)
    decreases Count(ts), 1
  {
    hide ParseList, ForHeader, Expect;
    var j;
    left, j := HeaderAlike(env, ts, used, k);
    var p, q := ForHeader(env, Extend(ts, 1), used), ForHeader(env, Extend(ts, k), used);
    if left.Some? {
      left := ListAlike(env, left.value, p.3, k);
    } else {
      ListTakesAll(env, 0, p.3);
      ListTakesAll(env, j, q.3);
    }
    var b, c := ParseList(env, p.2, p.3), ParseList(env, q.2, q.3);
    left := ExpectAlike(b, c, Word("done"), left, k);
  }

  // ------------------------------------------------------------------
  // Texts
  // ------------------------------------------------------------------

  /** The tokens without the last one. */
  function ButLast(ts: Tokens): Tokens {
    match ts
    case End => End
    case Next(t, End) => End
    case Next(t, r) => Next(t, ButLast(r))
  }

  lemma {:induction false} ButLastExtends(ts: Tokens)
    ensures ButLast(Extend(ts, 1)) == ts
  {
    if ts.Next? { ButLastExtends(ts.tail); }
  }

  /** Whether the parser ends on a text at which the tokenizer stalls is decided by the first empty
      word. If the parser takes it, it takes every further one: however often the tokenizer is
      asked, all tokens are used up and none is left to stop at. If it does not, it ends in front
      of the stall, with the same tree however often the tokenizer would be asked. */
  lemma {:induction false} StalledTexts(env: Env, text: string, n: nat)
    requires Lex(text) == None && n > Count(Lead(text))
    ensures var p, q := ParseList(env, Reads(text, Count(Lead(text)) + 1), 0), ParseList(env, Reads(text, n), 0);
            if p.rest == End then q.rest == End
            else q == Parsed(p.ast, Extend(ButLast(p.rest), n - Count(Lead(text))), p.used)
  {
    hide ParseList, ReadTok, Lex;
    var m := Count(Lead(text));
    ReadsAreLead(text, m + 1);
    ReadsAreLead(text, n);
    var left := ListAlike(env, Lead(text), 0, n - m);
    if left.Some? { ButLastExtends(left.value); }
  }

  /** Both happen: a closing brace ends the parse at once, ... */
  lemma BraceEnds(env: Env, text: string)
    requires Lex(text) == None && Lead(text).Next? && Lead(text).head == RBrace
    ensures ParseList(env, Reads(text, Count(Lead(text)) + 1), 0).rest != End
  {
    hide ReadTok, Lex;
    ReadsAreLead(text, Count(Lead(text)) + 1);
  }

  /** ... and a stall at the very start is taken for a command. */
  lemma StallAtOnceIsTaken(env: Env, text: string)
    requires Lex(text) == None && Lead(text) == End
    ensures ParseList(env, Reads(text, 1), 0).rest == End
  {
    hide ReadTok, Lex, ParseList;
    ReadsAreLead(text, 1);
    ListTakesAll(env, 1, 0);
  }
}
