/** From command trees to script text: the whole way through tokenizer, expansion and parser. */
module ShellText {
  import opened Options
  import opened ShellLexer
  import opened ShellExpand
  import opened ShellSyntax
  import opened ShellPrinter
  import opened ShellPieces

  /** A token as text, with a blank behind it. */
  function Spell(t: Token): string {
    match t
    case Word(w) => w + " "
    case AndIf => "&& "
    case OrIf => "|| "
    case Semi => "; "
    case Pipe => "| "
    case LBrace => "{ "
    case RBrace => "} "
    case LParen => "( "
    case RParen => ") "
    case RedirOut => "> "
    case RedirAppend => ">> "
    case RedirIn => "< "
    case Newline => "\n "
    case Eof => " "
  }

  function Render(ts: Tokens): string {
    match ts
    case End => ""
    case Next(t, r) => Spell(t) + Render(r)
  }

  predicate IsPlainChar(c: char) { !IsSpace(c) && !IsSpecial(c) && c != '\\' && c != '\'' && c != '"' && c != '#' }

  predicate IsPlain(w: string) { 0 < |w| < MAX_WORD && forall i :: 0 <= i < |w| ==> IsPlainChar(w[i]) }

  /** A word that the tokenizer reads in one piece. */
  ghost predicate Solid(w: string) {
    IsPlain(w) || (exists s :: Quotable(s) && w == Quote(s)) || exists ps :: OneWord(ps) && w == SpellAll(ps)
  }

  ghost predicate AllSolid(ts: Tokens) {
    match ts
    case End => true
    case Next(t, r) => t != Eof && (t.Word? ==> Solid(t.text)) && AllSolid(r)
  }

  // ------------------------------------------------------------------
  // Tokenizing what was spelled
  // ------------------------------------------------------------------

  /** Blanks and tabs in front of a token change nothing. */
  lemma BlankFirst(c: char, s: string)
    requires c == ' ' || c == '\t'
    ensures ReadTok([c] + s) == (ReadTok(s).0, 1 + ReadTok(s).1)
    ensures Lex([c] + s) == Lex(s)
  {
    hide ReadTok, Lex, Skipped;
    BlankSkipped(c, s);
    SkippedFront([c], s);
  }

  /** A front that is skipped changes nothing. */
  lemma SkippedFront(front: string, s: string)
    requires Skipped(front + s) == |front| + Skipped(s)
    ensures ReadTok(front + s) == (ReadTok(s).0, |front| + ReadTok(s).1)
    ensures Lex(front + s) == Lex(s)
  {
    hide ReadTok, Lex;
    ReadBehind(front, s);
    LexBehind(front + s, s);
  }

  lemma {:induction false} ReadBehind(front: string, s: string)
    requires Skipped(front + s) == |front| + Skipped(s)
    ensures ReadTok(front + s) == (ReadTok(s).0, |front| + ReadTok(s).1)
    ensures (front + s)[ReadTok(front + s).1..] == s[ReadTok(s).1..]
  {
    hide Skipped, Operator, WordLength;
    var u, k := front + s, Skipped(s);
    assert u[|front| + k..] == s[k..];
    var n := ReadTok(s).1;
    assert u[|front| + n..] == s[n..];
  }

  lemma {:induction false} LexBehind(u: string, s: string)
    requires ReadTok(u).0 == ReadTok(s).0 && u[ReadTok(u).1..] == s[ReadTok(s).1..]
    ensures Lex(u) == Lex(s)
  {
    hide ReadTok;
  }

  lemma {:induction false} BlankSkipped(c: char, s: string)
    requires c == ' ' || c == '\t'
    ensures Skipped([c] + s) == 1 + Skipped(s)
  {
    hide LineLength;
    var u := [c] + s;
    assert u[1..] == s;
    assert Blanks(u) == 1 + Blanks(s);
    assert u[Blanks(u)..] == s[Blanks(s)..];
  }

  lemma {:induction false} PlainLength(w: string, rest: string, room: nat)
    requires room >= |w| && forall i :: 0 <= i < |w| ==> IsPlainChar(w[i])
    ensures WordLength(w + " " + rest, room, false, false) == |w|
    decreases |w|
  {
    if w == "" {
      assert (w + " " + rest)[0] == ' ';
    } else {
      assert (w + " " + rest)[0] == w[0];
      assert (w + " " + rest)[1..] == w[1..] + " " + rest;
      PlainLength(w[1..], rest, room - 1);
    }
  }

  lemma {:induction false} LongLength(w: string, rest: string, room: nat)
    requires |w| >= room && forall i :: 0 <= i < |w| ==> IsPlainChar(w[i])
    ensures WordLength(w + rest, room, false, false) == room
    decreases room
  {
    if room > 0 {
      assert (w + rest)[0] == w[0] && (w + rest)[1..] == w[1..] + rest;
      LongLength(w[1..], rest, room - 1);
    }
  }

  /** A word that does not fit into its buffer is cut, and what is left is read as the next word. */
  lemma {:induction false} LongWordIsCut(w: string, rest: string)
    requires |w| >= MAX_WORD && forall i :: 0 <= i < |w| ==> IsPlainChar(w[i])
    ensures ReadTok(w + rest) == (Word(w[..MAX_WORD - 1]), MAX_WORD - 1)
    ensures (w + rest)[MAX_WORD - 1..] == w[MAX_WORD - 1..] + rest
  {
    hide WordLength, ReadTok;
    LongLength(w, rest, MAX_WORD - 1);
    assert (w + rest)[0] == w[0];
    BeginsWord(w + rest);
    assert (w + rest)[..MAX_WORD - 1] == w[..MAX_WORD - 1];
  }

  lemma {:induction false} QuotedLength(s: string, rest: string)
    requires Quotable(s)
    ensures WordLength(Quote(s) + " " + rest, MAX_WORD - 1, false, false) == |Quote(s)|
  {
    var u := Quote(s) + " " + rest;
    var tail := QuoteBody(s) + "'" + (" " + rest);
    assert u[0] == '\'' && u[1..] == tail;
    QuotedBodyLength(s, " " + rest, MAX_WORD - 2);
  }

  lemma {:induction false} WordReadsBack(w: string, rest: string)
    requires Solid(w)
    ensures ReadTok(w + " " + rest) == (Word(w), |w|)
  {
    hide ReadTok, WordLength, Quote, OneWord, SpellAll, IsPlain;
    if IsPlain(w) {
      PlainReadsBack(w, rest);
    } else if s :| Quotable(s) && w == Quote(s) {
      QuotedReadsBack(s, rest);
    } else {
      var ps :| OneWord(ps) && w == SpellAll(ps);
      PiecesReadBack(ps, rest);
    }
  }

  lemma {:induction false} PlainReadsBack(w: string, rest: string)
    requires IsPlain(w)
    ensures ReadTok(w + " " + rest) == (Word(w), |w|)
  {
    hide WordLength, ReadTok;
    var u := w + " " + rest;
    PlainLength(w, rest, MAX_WORD - 1);
    assert u[0] == w[0] && u[..|w|] == w;
    BeginsWord(u);
  }

  lemma {:induction false} QuotedReadsBack(s: string, rest: string)
    requires Quotable(s)
    ensures ReadTok(Quote(s) + " " + rest) == (Word(Quote(s)), |Quote(s)|)
  {
    hide WordLength, ReadTok, QuoteBody;
    var u := Quote(s) + " " + rest;
    QuotedLength(s, rest);
    assert u[0] == '\'' && u[..|Quote(s)|] == Quote(s);
    BeginsWord(u);
  }

  lemma {:induction false} OperatorReadsBack(t: Token, rest: string)
    requires t != Eof && !t.Word?
    ensures ReadTok(Spell(t) + rest) == (t, |Spell(t)| - 1)
  {
    hide ReadTok;
    var u := Spell(t) + rest;
    var c := Spell(t);
    assert u[0] == c[0] && u[1] == c[1];
    assert Operator(u) == Some((t, |c| - 1));
    ReadOperator(u);
  }

  lemma {:induction false} ReadOperator(u: string)
    requires u != [] && !IsBlank(u[0]) && u[0] != '#' && Operator(u).Some?
    ensures ReadTok(u) == Operator(u).value
  {
    hide Operator;
    assert Skipped(u) == 0 && u[0..] == u;
  }

  lemma RenderedEnd()
    ensures ReadTok("").0 == Eof
  {}

  function Append(ts: Tokens, more: Option<Tokens>): Option<Tokens> {
    match ts
    case End => more
    case Next(t, r) =>
      match Append(r, more)
      case None => None
      case Some(all) => Some(Next(t, all))
  }

  /** Text that was rendered from tokens is tokenized into those tokens, whatever comes behind it. */
  lemma {:induction false} LexFront(ts: Tokens, rest: string)
    requires AllSolid(ts)
    ensures Lex(Render(ts) + rest) == Append(ts, Lex(rest))
  {
    hide ReadTok;
    match ts
    case End =>
      assert Render(ts) + rest == rest;
    case Next(t, r) =>
      var text, tail := Render(ts) + rest, Render(r) + rest;
      var n := |Spell(t)| - 1;
      assert ReadTok(text) == (t, n) by {
        assert text == Spell(t) + tail;
        if t.Word? {
          WordReadsBack(t.text, tail);
        } else {
          OperatorReadsBack(t, tail);
        }
      }
      assert text[n..] == [' '] + tail;
      BlankFirst(' ', tail);
      SolidIsNotEmpty(t);
      LexFront(r, rest);
  }

  lemma SolidIsNotEmpty(t: Token)
    requires t.Word? ==> Solid(t.text)
    ensures t != Word("")
  {
    hide OneWord, SpellAll;
    if t.Word? && !IsPlain(t.text) {
      if s :| Quotable(s) && t.text == Quote(s) {
      } else {
        var ps :| OneWord(ps) && t.text == SpellAll(ps);
        WordIsNotEmpty(ps);
      }
    }
  }

  lemma WordIsNotEmpty(ps: seq<Piece>)
    requires OneWord(ps)
    ensures SpellAll(ps) != ""
  {}

  lemma {:induction false} AppendNothing(ts: Tokens)
    ensures Append(ts, Some(End)) == Some(ts)
  {
    if ts.Next? { AppendNothing(ts.tail); }
  }

  lemma {:induction false} LexRender(ts: Tokens)
    requires AllSolid(ts)
    ensures Lex(Render(ts)) == Some(ts)
  {
    hide ReadTok;
    RenderedEnd();
    LexFront(ts, "");
    AppendNothing(ts);
    assert Render(ts) + "" == Render(ts);
  }

  // ------------------------------------------------------------------
  // Comments
  // ------------------------------------------------------------------

  lemma {:induction false} CommentLength(c: string, rest: string)
    requires '\n' !in c && (rest == "" || rest[0] == '\n')
    ensures LineLength(c + rest) == |c|
    decreases |c|
  {
    if c == "" {
      assert c + rest == rest;
    } else {
      assert (c + rest)[0] == c[0] && (c + rest)[1..] == c[1..] + rest;
      CommentLength(c[1..], rest);
    }
  }

  /** A comment up to its newline, or to the end of the text, changes no token. */
  lemma {:induction false} CommentIsNothing(c: string, rest: string)
    requires '\n' !in c && (rest == "" || rest[0] == '\n')
    ensures Lex("#" + c + rest) == Lex(rest)
  {
    hide ReadTok, Lex, Skipped;
    var front := "#" + c;
    CommentSkipped(front, rest);
    SkippedFront(front, rest);
  }

  lemma {:induction false} CommentSkipped(front: string, rest: string)
    requires front != "" && front[0] == '#' && '\n' !in front && (rest == "" || rest[0] == '\n')
    ensures Skipped(front + rest) == |front| + Skipped(rest)
  {
    hide LineLength;
    var s := front + rest;
    CommentLength(front, rest);
    assert s[0] == '#' && Blanks(s) == 0 && s[0..] == s;
    assert Blanks(rest) == 0;
  }

  /** So does one behind any tokens of a line. */
  lemma {:induction false} CommentBehind(ts: Tokens, c: string, rest: string)
    requires AllSolid(ts) && '\n' !in c && (rest == "" || rest[0] == '\n')
    ensures Lex(Render(ts) + ("#" + c + rest)) == Lex(Render(ts) + rest)
  {
    hide Lex;
    LexFront(ts, "#" + c + rest);
    LexFront(ts, rest);
    CommentIsNothing(c, rest);
  }

  // ------------------------------------------------------------------
  // Printed trees
  // ------------------------------------------------------------------

  lemma PlainKeywords()
    ensures Solid("if") && Solid("then") && Solid("elif") && Solid("else") && Solid("fi") && Solid("while")
    ensures Solid("for") && Solid("do") && Solid("done") && Solid("in")
  {
    assert IsPlain("if") && IsPlain("then") && IsPlain("elif") && IsPlain("else") && IsPlain("fi") && IsPlain("while");
    assert IsPlain("for") && IsPlain("do") && IsPlain("done") && IsPlain("in");
  }

  lemma {:induction false} WordsSolid(ss: seq<string>, k: Tokens)
    requires AllQuotable(ss) && AllSolid(k)
    ensures AllSolid(EmitWords(ss, k))
    decreases |ss|
  {
    if ss != [] {
      assert Quotable(ss[0]);
      WordsSolid(ss[1..], k);
    }
  }

  lemma {:induction false} RedirsSolid(rs: seq<Redir>, k: Tokens)
    requires (forall r :: r in rs ==> Spelled(r)) && AllSolid(k)
    ensures AllSolid(EmitRedirs(rs, k))
    decreases |rs|
  {
    if rs != [] {
      var r := rs[0];
      RedirsSolid(rs[1..], k);
      assert Spelled(r);
      assert Quotable(r.file) && Solid(Quote(r.file));
      assert IsPlain(DigitWord(r.fd).text);
    }
  }

  lemma {:induction false} ClosingSolid(st: Style, t: string, k: Tokens)
    requires Solid(t) && AllSolid(k)
    ensures AllSolid(Closing(st, Word(t), k))
  {}

  lemma {:induction false} EmitSolid(st: Style, a: Ast, level: nat, k: Tokens)
    requires (a.Nothing? || Canonical(a, level)) && AllSolid(k)
    ensures AllSolid(Emit(st, a, k))
    decreases a, 1
  {
    hide IsPlain;
    PlainKeywords();
    match a
    case Nothing =>
    case Simple(args, redirs) =>
      RedirsSolid(redirs, k);
      WordsSolid(args, EmitRedirs(redirs, k));
    case Binary(op, l, r) =>
      EmitSolid(st, r, Level(op) - 1, k);
      EmitSolid(st, l, Level(op), Next(OpToken(st, op), Emit(st, r, k)));
    case Group(shape, b) =>
      EmitSolid(st, b, 3, Closing(st, if shape == Brace then RBrace else RParen, k));
    case If(_, _, _) =>
      IfSolid(st, a, k);
    case While(c, b) =>
      ClosingSolid(st, "done", k);
      EmitSolid(st, b, 3, Closing(st, Word("done"), k));
      EmitSolid(st, c, 3, Next(Word("do"), Emit(st, b, Closing(st, Word("done"), k))));
    case For(name, words, b) =>
      ClosingSolid(st, "done", k);
      EmitSolid(st, b, 3, Closing(st, Word("done"), k));
      EmitForDef(st, a, k);
      ForSolid(st, a, Emit(st, b, Closing(st, Word("done"), k)));
  }

  lemma {:induction false} ForSolid(st: Style, a: Ast, body: Tokens)
    requires a.For? && Canonical(a, 0) && AllSolid(body)
    ensures AllSolid(EmitForHeader(st, a, body))
  {
    hide Solid;
    PlainKeywords();
    NameSolid(a.name);
    WordsSolid(a.words, Next(Sep(st), Next(Word("do"), body)));
    assert AllSolid(Next(Word("in"), EmitWords(a.words, Next(Sep(st), Next(Word("do"), body)))));
  }

  lemma NameSolid(name: string)
    requires IsName(name)
    ensures Solid(name)
  {
    assert IsPlain(name);
  }

  lemma {:induction false} IfSolid(st: Style, a: Ast, k: Tokens)
    requires a.If? && Canonical(a, 0) && AllSolid(k)
    ensures AllSolid(EmitIf(st, a, k))
    decreases a, 0
  {
    PlainKeywords();
    var (closer, after) := ElseTokens(st, a, k);
    if closer == Word("elif") {
      assert Canonical(a.els, 3) && Canonical(a.els, 0);
      IfSolid(st, a.els, k);
    } else if closer == Word("else") {
      ClosingSolid(st, "fi", k);
      EmitSolid(st, a.els, 3, Closing(st, Word("fi"), k));
    }
    ClosingSolid(st, closer.text, after);
    var body := Emit(st, a.thn, Closing(st, closer, after));
    EmitSolid(st, a.thn, 3, Closing(st, closer, after));
    EmitSolid(st, a.cond, 3, Next(Word("then"), body));
  }

  /** Every canonical tree has a script, and the shell reads exactly that tree from it. */
  lemma TextRoundTrip(env: Env, st: Style, a: Ast)
    requires Canonical(a, 3) && Need(a) <= STRING_ARENA_SIZE
    ensures var text := Render(Emit(st, a, End));
            && Lex(text).Some?
            && ParseList(env, Lex(text).value, 0) == Parsed(a, End, Need(a))
  {
    EmitSolid(st, a, 3, End);
    LexRender(Emit(st, a, End));
    RoundTrip(env, st, a);
  }

  /** Single-quoting any arguments and joining them with blanks gives a command with exactly
      those arguments: nothing in them is special. */
  lemma QuotedArguments(env: Env, args: seq<string>)
    requires 0 < |args| < MAX_ARGS && AllQuotable(args) && TextNeed(args) <= STRING_ARENA_SIZE
    ensures var line := Render(EmitWords(args, End));
            && Lex(line).Some?
            && ParseList(env, Lex(line).value, 0) == Parsed(Simple(args, []), End, TextNeed(args))
  {
    TextRoundTrip(env, Style(false, false, false), Simple(args, []));
  }
}
