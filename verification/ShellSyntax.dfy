/** The grammar of programs/sh.c: what the recursive-descent parser makes of a token stream.

    These functions are the specification of the parser in ShellParser, and the
    subject of the printing round trip in ShellPrinter. */
module ShellSyntax {
  import opened Options
  import opened ShellLexer
  import opened ShellExpand

  const MAX_ARGS: nat := 128
  const MAX_REDIRS: nat := 16
  const MAX_FOR_WORDS: nat := 128
  const MAX_NODES: nat := 512
  const STRING_ARENA_SIZE: nat := 262144

  datatype Mode = Truncate | Append | Read | NoMode

  /** `dup` is Some(n) for the `2>&1` form, where the source keeps dup_fd >= 0. */
  datatype Redir = Redir(fd: nat, mode: Mode, dup: Option<nat>, file: string)

  datatype BinOp = Pipeline | And | Or | Sequence

  datatype Shape = Brace | Subshell

  /** `Nothing` is the null pointer that parse_list returns for an empty list. */
  datatype Ast =
    | Nothing
    | Simple(args: seq<string>, redirs: seq<Redir>)
    | Binary(op: BinOp, left: Ast, right: Ast)
    | Group(shape: Shape, body: Ast)
    | If(cond: Ast, thn: Ast, els: Ast)
    | While(cond: Ast, body: Ast)
    | For(name: string, words: seq<string>, body: Ast)

  /** How many arena nodes a tree takes. */
  function Size(a: Ast): (n: nat)
    ensures n == 0 <==> a.Nothing?
  {
    match a
    case Nothing => 0
    case Simple(_, _) => 1
    case Binary(_, l, r) => Size(l) + Size(r) + 1
    case Group(_, b) => 1 + Size(b)
    case If(c, t, e) => 1 + Size(c) + Size(t) + Size(e)
    case While(c, b) => 1 + Size(c) + Size(b)
    case For(_, _, b) => 1 + Size(b)
  }

  function Peek(ts: Tokens): Token {
    if ts.End? then Eof else ts.head
  }

  /** next_token: at the end of the text there is nothing to consume. */
  function Advance(ts: Tokens): (r: Tokens)
    ensures Count(r) <= Count(ts)
    ensures Peek(ts) != Eof ==> Count(r) < Count(ts)
  {
    if ts.End? then End else ts.tail
  }

  predicate IsSeparator(t: Token) { t == Newline || t == Semi }

  function SkipNewlines(ts: Tokens): (r: Tokens)
    ensures Count(r) <= Count(ts)
    ensures !IsSeparator(Peek(r))
  {
    if IsSeparator(Peek(ts)) then SkipNewlines(Advance(ts)) else ts
  }

  predicate IsKeyword(w: string) {
    w in ["if", "then", "elif", "else", "fi", "while", "for", "do", "done", "in", "case", "esac"]
  }

  /** The words that end a list; `then` and `do` are not among them. */
  predicate EndsList(t: Token) {
    t == Eof || t == RBrace || t == RParen
    || t == Word("fi") || t == Word("done") || t == Word("else") || t == Word("elif")
  }

  predicate IsRedirect(t: Token) { t == RedirOut || t == RedirAppend || t == RedirIn }

  /** arena_strdup: what is stored, and the arena's new fill. A full arena stores "". */
  function Keep(text: string, used: nat): (r: (string, nat)) {
    if used + |text| + 1 > STRING_ARENA_SIZE then ("", used) else (text, used + |text| + 1)
  }

  /** expand_word into a buffer of MAX_WORD characters. */
  function Expanded(env: Env, word: string): string {
    Fit(Expand(env, word), MAX_WORD)
  }

  datatype Parsed = Parsed(ast: Ast, rest: Tokens, used: nat)

  function DigitValue(c: char): nat
    requires IsDigit(c)
  {
    (c - '0') as int
  }

  predicate IsDupTarget(t: Token) {
    t.Word? && |t.text| == 2 && t.text[0] == '&' && IsDigit(t.text[1])
  }

  predicate IsDupWord(w: string) {
    |w| >= 4 && IsDigit(w[0]) && w[1] == '>' && w[2] == '&' && IsDigit(w[3])
  }

  function PlainRedir(t: Token): Redir {
    match t
    case RedirOut => Redir(1, Truncate, None, "")
    case RedirAppend => Redir(1, Append, None, "")
    case _ => Redir(0, Read, None, "")
  }

  /** `n> target`: the redirection, and the tokens after its target. */
  function NumberedRedir(env: Env, fd: nat, ts: Tokens): (r: (Redir, Tokens))
    requires Peek(ts) == RedirOut || Peek(ts) == RedirAppend
    ensures Count(r.1) < Count(ts)
  {
    var mode := if Peek(ts) == RedirAppend then Append else Truncate;
    var after := Advance(ts);
    var target := Peek(after);
    if IsDupTarget(target) then
      (Redir(fd, mode, Some(DigitValue(target.text[1])), ""), Advance(after))
    else if target.Word? then
      (Redir(fd, mode, None, Expanded(env, target.text)), Advance(after))
    else
      (Redir(fd, mode, None, ""), after)
  }

  /** One more argument; the 128th and later ones are dropped. */
  function AddArg(env: Env, word: string, args: seq<string>, used: nat): (r: (seq<string>, nat)) {
    if |args| < MAX_ARGS - 1 then
      var (text, used') := Keep(Expanded(env, word), used);
      (args + [text], used')
    else (args, used)
  }

  /** The loop of parse_simple, from the arguments and redirections collected so far. */
  function SimpleLoop(env: Env, ts: Tokens, args: seq<string>, redirs: seq<Redir>, used: nat): (r: Parsed)
    ensures Count(r.rest) <= Count(ts)
    ensures r.ast.Simple?
    decreases Count(ts)
  {
    var t := Peek(ts);
    if IsRedirect(t) then
      if |redirs| >= MAX_REDIRS then Parsed(Simple(args, redirs), ts, used)
      else
        var file := Peek(Advance(ts));
        if !file.Word? then
          Parsed(Simple(args, redirs + [PlainRedir(t)]), Advance(ts), used)
        else
          var redir := PlainRedir(t).(file := Expanded(env, file.text));
          SimpleLoop(env, Advance(Advance(ts)), args, redirs + [redir], used)
    else if !t.Word? then Parsed(Simple(args, redirs), ts, used)
    else if |t.text| == 1 && IsDigit(t.text[0]) then
      var t2 := Peek(Advance(ts));
      if t2 == RedirOut || t2 == RedirAppend then
        if |redirs| >= MAX_REDIRS then Parsed(Simple(args, redirs), Advance(ts), used)
        else
          var (redir, rest) := NumberedRedir(env, DigitValue(t.text[0]), Advance(ts));
          SimpleLoop(env, rest, args, redirs + [redir], used)
      else
        var (args', used') := AddArg(env, t.text, args, used);
        SimpleLoop(env, Advance(ts), args', redirs, used')
    else if IsDupWord(t.text) then
      var redirs' := if |redirs| < MAX_REDIRS
                     then redirs + [Redir(DigitValue(t.text[0]), NoMode, Some(DigitValue(t.text[3])), "")]
                     else redirs;
      SimpleLoop(env, Advance(ts), args, redirs', used)
    else if IsKeyword(t.text) then Parsed(Simple(args, redirs), ts, used)
    else
      var (args', used') := AddArg(env, t.text, args, used);
      SimpleLoop(env, Advance(ts), args', redirs, used')
  }

  function ParseSimple(env: Env, ts: Tokens, used: nat): (r: Parsed)
    ensures Count(r.rest) <= Count(ts)
  {
    SimpleLoop(env, ts, [], [], used)
  }

  function ParseCommand(env: Env, ts: Tokens, used: nat): (r: Parsed)
    ensures Count(r.rest) <= Count(ts)
    decreases Count(ts), 3
  {
    var t := Peek(ts);
    if t == Word("if") then ParseIf(env, ts, used)
    else if t == Word("while") then ParseWhile(env, ts, used)
    else if t == Word("for") then ParseFor(env, ts, used)
    else if t == LBrace then
      var b := ParseList(env, Advance(ts), used);
      Parsed(Group(Brace, b.ast), Expect(b.rest, RBrace), b.used)
    else if t == LParen then
      var b := ParseList(env, Advance(ts), used);
      Parsed(Group(Subshell, b.ast), Expect(b.rest, RParen), b.used)
    else ParseSimple(env, ts, used)
  }

  /** Which command begins with which token. */
  lemma CommandCases(env: Env, ts: Tokens, used: nat)
    ensures Peek(ts) == Word("if") ==> ParseCommand(env, ts, used) == ParseIf(env, ts, used)
    ensures Peek(ts) == Word("while") ==> ParseCommand(env, ts, used) == ParseWhile(env, ts, used)
    ensures Peek(ts) == Word("for") ==> ParseCommand(env, ts, used) == ParseFor(env, ts, used)
    ensures Peek(ts) == LBrace ==>
              var b := ParseList(env, Advance(ts), used);
              ParseCommand(env, ts, used) == Parsed(Group(Brace, b.ast), Expect(b.rest, RBrace), b.used)
    ensures Peek(ts) == LParen ==>
              var b := ParseList(env, Advance(ts), used);
              ParseCommand(env, ts, used) == Parsed(Group(Subshell, b.ast), Expect(b.rest, RParen), b.used)
    ensures (Peek(ts).Word? ==> !IsKeyword(Peek(ts).text)) && Peek(ts) != LBrace && Peek(ts) != LParen ==>
              ParseCommand(env, ts, used) == ParseSimple(env, ts, used)
  {
    hide ParseList, ParseIf, ParseWhile, ParseFor, ParseSimple, Expect, Advance;
  }

  /** A closing token is consumed if it is there, and not missed if it is not. */
  function Expect(ts: Tokens, t: Token): (r: Tokens)
    ensures Count(r) <= Count(ts)
  {
    if Peek(ts) == t then Advance(ts) else ts
  }

  function ParsePipeline(env: Env, ts: Tokens, used: nat): (r: Parsed)
    ensures Count(r.rest) <= Count(ts)
    decreases Count(ts), 4
  {
    PipelineLoop(env, ParseCommand(env, ts, used))
  }

  function PipelineLoop(env: Env, p: Parsed): (r: Parsed)
    ensures Count(r.rest) <= Count(p.rest)
    decreases Count(p.rest), 0
  {
    if Peek(p.rest) == Pipe then
      var q := ParseCommand(env, SkipNewlines(Advance(p.rest)), p.used);
      PipelineLoop(env, Parsed(Binary(Pipeline, p.ast, q.ast), q.rest, q.used))
    else p
  }

  function ParseAndOr(env: Env, ts: Tokens, used: nat): (r: Parsed)
    ensures Count(r.rest) <= Count(ts)
    decreases Count(ts), 5
  {
    AndOrLoop(env, ParsePipeline(env, ts, used))
  }

  function AndOrLoop(env: Env, p: Parsed): (r: Parsed)
    ensures Count(r.rest) <= Count(p.rest)
    decreases Count(p.rest), 0
  {
    var t := Peek(p.rest);
    if t == AndIf || t == OrIf then
      var q := ParsePipeline(env, SkipNewlines(Advance(p.rest)), p.used);
      AndOrLoop(env, Parsed(Binary(if t == AndIf then And else Or, p.ast, q.ast), q.rest, q.used))
    else p
  }

  function ParseList(env: Env, ts: Tokens, used: nat): (r: Parsed)
    ensures Count(r.rest) <= Count(ts)
    decreases Count(ts), 6
  {
    var ts' := SkipNewlines(ts);
    if EndsList(Peek(ts')) then Parsed(Nothing, ts', used)
    else ListLoop(env, ParseAndOr(env, ts', used))
  }

  function ListLoop(env: Env, p: Parsed): (r: Parsed)
    ensures Count(r.rest) <= Count(p.rest)
    decreases Count(p.rest), 0
  {
    if IsSeparator(Peek(p.rest)) then
      var ts := SkipNewlines(Advance(p.rest));
      if EndsList(Peek(ts)) then p.(rest := ts)
      else
        var q := ParseAndOr(env, ts, p.used);
        ListLoop(env, Parsed(Binary(Sequence, p.ast, q.ast), q.rest, q.used))
    else p
  }

  /** Reached for `if` and, from itself, for `elif`. */
  function ParseIf(env: Env, ts: Tokens, used: nat): (r: Parsed)
    requires Peek(ts) != Eof
    ensures Count(r.rest) <= Count(ts)
    decreases Count(ts), 1
  {
    var c := ParseList(env, SkipNewlines(Advance(ts)), used);
    var t := ParseList(env, SkipNewlines(Expect(c.rest, Word("then"))), c.used);
    var e := ParseElse(env, t.rest, t.used);
    Parsed(If(c.ast, t.ast, e.ast), e.rest, e.used)
  }

  /** The rest of an if: an elif is a nested if that also takes the one closing `fi`. */
  function ParseElse(env: Env, ts: Tokens, used: nat): (r: Parsed)
    ensures Count(r.rest) <= Count(ts)
    decreases Count(ts), 2
  {
    if Peek(ts) == Word("elif") then ParseIf(env, ts, used)
    else if Peek(ts) == Word("else") then
      var e := ParseList(env, SkipNewlines(Advance(ts)), used);
      e.(rest := Expect(e.rest, Word("fi")))
    else Parsed(Nothing, Expect(ts, Word("fi")), used)
  }

  function ParseWhile(env: Env, ts: Tokens, used: nat): (r: Parsed)
    requires Peek(ts) != Eof
    ensures Count(r.rest) <= Count(ts)
    decreases Count(ts), 1
  {
    var c := ParseList(env, SkipNewlines(Advance(ts)), used);
    var b := ParseList(env, SkipNewlines(Expect(c.rest, Word("do"))), c.used);
    Parsed(While(c.ast, b.ast), Expect(b.rest, Word("done")), b.used)
  }

  /** The name after `for`, cut to the 63 characters that for_var holds. */
  function ForName(ts: Tokens): (r: (string, Tokens))
    ensures Count(r.1) <= Count(ts)
  {
    if Peek(ts).Word? then (Peek(ts).text[..Min(|Peek(ts).text|, NAME_ROOM)], Advance(ts)) else ("", ts)
  }

  /** The loop over the words after `in`: anything but a separator or `do` is consumed. */
  function WordsLoop(env: Env, ts: Tokens, words: seq<string>, used: nat): (r: (seq<string>, Tokens, nat))
    ensures Count(r.1) <= Count(ts)
    decreases Count(ts)
  {
    var t := Peek(ts);
    if EndsWords(t) then (words, ts, used)
    else
      var (words', used') := AddForWord(env, t, words, used);
      WordsLoop(env, Advance(ts), words', used')
  }

  predicate EndsWords(t: Token) { IsSeparator(t) || t == Eof || t == Word("do") }

  /** One more word for the loop; the 129th and later ones are dropped, and so is what is no word. */
  function AddForWord(env: Env, t: Token, words: seq<string>, used: nat): (r: (seq<string>, nat)) {
    if t.Word? && |words| < MAX_FOR_WORDS then
      var (text, used') := Keep(Expanded(env, t.text), used);
      (words + [text], used')
    else (words, used)
  }

  /** Everything between `for` and the body: name, words, tokens left, arena fill. */
  function ForHeader(env: Env, ts: Tokens, used: nat): (r: (string, seq<string>, Tokens, nat))
    requires Peek(ts) != Eof
    ensures Count(r.2) < Count(ts)
  {
    var (name, ts1) := ForName(Advance(ts));
    var (words, ts2, used') :=
      if Peek(ts1) == Word("in") then WordsLoop(env, Advance(ts1), [], used) else ([], ts1, used);
    (name, words, SkipNewlines(Expect(SkipNewlines(ts2), Word("do"))), used')
  }

  function ParseFor(env: Env, ts: Tokens, used: nat): (r: Parsed)
    requires Peek(ts) != Eof
    ensures Count(r.rest) <= Count(ts)
    decreases Count(ts), 1
  {
    var (name, words, ts', used') := ForHeader(env, ts, used);
    var b := ParseList(env, ts', used');
    Parsed(For(name, words, b.ast), Expect(b.rest, Word("done")), b.used)
  }

  // A loop only ever grows the tree it starts from.

  lemma {:induction false} PipelineLoopGrows(env: Env, p: Parsed)
    ensures Size(PipelineLoop(env, p).ast) >= Size(p.ast)
    decreases Count(p.rest)
  {
    if Peek(p.rest) == Pipe {
      var q := ParseCommand(env, SkipNewlines(Advance(p.rest)), p.used);
      PipelineLoopGrows(env, Parsed(Binary(Pipeline, p.ast, q.ast), q.rest, q.used));
    }
  }

  lemma {:induction false} AndOrLoopGrows(env: Env, p: Parsed)
    ensures Size(AndOrLoop(env, p).ast) >= Size(p.ast)
    decreases Count(p.rest)
  {
    var t := Peek(p.rest);
    if t == AndIf || t == OrIf {
      var q := ParsePipeline(env, SkipNewlines(Advance(p.rest)), p.used);
      AndOrLoopGrows(env, Parsed(Binary(if t == AndIf then And else Or, p.ast, q.ast), q.rest, q.used));
    }
  }

  lemma {:induction false} ListLoopGrows(env: Env, p: Parsed)
    ensures Size(ListLoop(env, p).ast) >= Size(p.ast)
    decreases Count(p.rest)
  {
    if IsSeparator(Peek(p.rest)) {
      var ts := SkipNewlines(Advance(p.rest));
      if !EndsList(Peek(ts)) {
        var q := ParseAndOr(env, ts, p.used);
        ListLoopGrows(env, Parsed(Binary(Sequence, p.ast, q.ast), q.rest, q.used));
      }
    }
  }
}
