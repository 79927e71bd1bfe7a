/** Command lines as people write them: words with or without quotes, and redirections among them. */
module ShellWords {
  import opened Options
  import opened ShellLexer
  import opened ShellExpand
  import opened ShellSyntax
  import opened ShellPrinter
  import opened ShellPieces
  import opened ShellText

  /** A part of a simple command: `word`, `> file`, `>> file`, `2> file`, `< file`, and the two forms of
      `2>&1`, of three tokens and of one. */
  datatype Item =
    | Argument(word: string)
    | Output(number: Option<nat>, append: bool, file: string)
    | Input(file: string)
    | Copy(fd: nat, append: bool, target: nat)
    | Joined(word: string)

  function ItemTokens(i: Item, k: Tokens): Tokens {
    match i
    case Argument(w) => Next(Word(w), k)
    case Input(f) => Next(RedirIn, Next(Word(f), k))
    case Output(None, append, f) => Next(if append then RedirAppend else RedirOut, Next(Word(f), k))
    case Output(Some(n), append, f) =>
      Next(DigitWord(n), Next(if append then RedirAppend else RedirOut, Next(Word(f), k)))
    case Copy(n, append, m) =>
      Next(DigitWord(n), Next(if append then RedirAppend else RedirOut, Next(Word("&" + DigitWord(m).text), k)))
    case Joined(w) => Next(Word(w), k)
  }

  function LineTokens(items: seq<Item>, k: Tokens): Tokens {
    if items == [] then k else ItemTokens(items[0], LineTokens(items[1..], k))
  }

  // ------------------------------------------------------------------
  // Meaning
  // ------------------------------------------------------------------

  function Arguments(env: Env, items: seq<Item>): seq<string> {
    if items == [] then []
    else (if items[0].Argument? then [Expanded(env, items[0].word)] else []) + Arguments(env, items[1..])
  }

  function Redirections(env: Env, items: seq<Item>): seq<Redir> {
    if items == [] then []
    else RedirectionOf(env, items[0]) + Redirections(env, items[1..])
  }

  function RedirectionOf(env: Env, i: Item): seq<Redir> {
    match i
    case Argument(_) => []
    case Input(f) => [Redir(0, Read, None, Expanded(env, f))]
    case Output(fd, append, f) =>
      [Redir(if fd.Some? then fd.value else 1, if append then Append else Truncate, None, Expanded(env, f))]
    case Copy(fd, append, m) => [Redir(fd, if append then Append else Truncate, Some(m), "")]
    case Joined(w) =>
      if IsDupWord(w) then [Redir((w[0] - '0') as nat, NoMode, Some((w[3] - '0') as nat), "")] else []
  }

  /** At most the first `n`. */
  function First<T>(s: seq<T>, n: nat): seq<T> { if |s| <= n then s else s[..n] }

  // ------------------------------------------------------------------
  // When the words are taken for what they are
  // ------------------------------------------------------------------

  predicate IsOneDigit(w: string) { |w| == 1 && IsDigit(w[0]) }

  predicate ItemOk(i: Item) {
    match i
    case Argument(w) => !IsKeyword(w) && !IsDupWord(w)
    case Input(_) => true
    case Output(fd, _, f) => fd.Some? ==> fd.value <= 9 && !IsDupTarget(Word(f))
    case Copy(fd, _, m) => fd <= 9 && m <= 9
    case Joined(w) => IsDupWord(w)
  }

  /** A single digit is an argument unless `>` follows. */
  predicate Clear(items: seq<Item>) {
    items == []
    || (&& ItemOk(items[0]) && Clear(items[1..])
        && (items[0].Argument? && IsOneDigit(items[0].word) && |items| > 1 ==>
              !(items[1].Output? && items[1].number.None?)))
  }

  // ------------------------------------------------------------------
  // Reading
  // ------------------------------------------------------------------

  /** A word that is no keyword and no number of a redirection is one more argument, digits included. */
  lemma {:induction false} TakesWord(env: Env, w: string, ts: Tokens, args: seq<string>, redirs: seq<Redir>,
                                     used: nat)
    requires !IsKeyword(w) && !IsDupWord(w) && (IsOneDigit(w) ==> Peek(ts) != RedirOut && Peek(ts) != RedirAppend)
    ensures var (args', used') := AddArg(env, w, args, used);
            SimpleLoop(env, Next(Word(w), ts), args, redirs, used) == SimpleLoop(env, ts, args', redirs, used')
  {
    hide IsKeyword, AddArg;
  }

  lemma {:induction false} TakesNumberedFile(env: Env, fd: nat, op: Token, w: string, ts: Tokens, args: seq<string>,
                                             got: seq<Redir>, used: nat)
    requires fd <= 9 && (op == RedirOut || op == RedirAppend) && |got| < MAX_REDIRS && !IsDupTarget(Word(w))
    ensures var mode := if op == RedirAppend then Append else Truncate;
            SimpleLoop(env, Next(DigitWord(fd), Next(op, Next(Word(w), ts))), args, got, used)
            == SimpleLoop(env, ts, args, got + [Redir(fd, mode, None, Expanded(env, w))], used)
  {
    hide Expanded, IsKeyword;
    var rest := Next(op, Next(Word(w), ts));
    assert DigitValue(DigitWord(fd).text[0]) == fd;
    assert NumberedRedir(env, fd, rest).1 == ts;
  }

  lemma {:induction false} TakesRedirection(env: Env, i: Item, ts: Tokens, args: seq<string>, got: seq<Redir>,
                                            used: nat)
    requires !i.Argument? && ItemOk(i) && |got| < MAX_REDIRS
    ensures SimpleLoop(env, ItemTokens(i, ts), args, got, used)
         == SimpleLoop(env, ts, args, got + RedirectionOf(env, i), used)
  {
    hide Expanded, SimpleLoop;
    match i
    case Input(f) =>
      TakesPlain(env, RedirIn, f, ts, args, got, used);
    case Output(None, append, f) =>
      TakesPlain(env, if append then RedirAppend else RedirOut, f, ts, args, got, used);
    case Output(Some(n), append, f) =>
      TakesNumberedFile(env, n, if append then RedirAppend else RedirOut, f, ts, args, got, used);
    case Copy(n, append, m) =>
      TakesCopy(env, n, if append then RedirAppend else RedirOut, m, ts, args, got, used);
    case Joined(w) =>
      TakesJoined(env, w, ts, args, got, used);
  }

  lemma {:induction false} TakesCopy(env: Env, fd: nat, op: Token, m: nat, ts: Tokens, args: seq<string>,
                                     got: seq<Redir>, used: nat)
    requires fd <= 9 && m <= 9 && (op == RedirOut || op == RedirAppend) && |got| < MAX_REDIRS
    ensures var mode := if op == RedirAppend then Append else Truncate;
            SimpleLoop(env, Next(DigitWord(fd), Next(op, Next(Word("&" + DigitWord(m).text), ts))), args, got, used)
            == SimpleLoop(env, ts, args, got + [Redir(fd, mode, Some(m), "")], used)
  {
    hide Expanded, IsKeyword;
    var w := "&" + DigitWord(m).text;
    var rest := Next(op, Next(Word(w), ts));
    assert w[1] == DigitWord(m).text[0] && IsDupTarget(Word(w));
    assert DigitValue(w[1]) == m && DigitValue(DigitWord(fd).text[0]) == fd;
    assert NumberedRedir(env, fd, rest).1 == ts;
  }

  lemma {:induction false} TakesJoined(env: Env, w: string, ts: Tokens, args: seq<string>, got: seq<Redir>, used: nat)
    requires IsDupWord(w) && |got| < MAX_REDIRS
    ensures SimpleLoop(env, Next(Word(w), ts), args, got, used)
         == SimpleLoop(env, ts, args, got + RedirectionOf(env, Joined(w)), used)
  {
    hide Expanded, IsKeyword;
  }

  /** What AddArg does as long as the arena has room for it. */
  lemma {:induction false} Added(env: Env, w: string, args: seq<string>, more: seq<string>, used: nat)
    requires |args| < MAX_ARGS && used + TextNeed(First([Expanded(env, w)] + more, MAX_ARGS - 1 - |args|))
                                  <= STRING_ARENA_SIZE
    ensures var (args', used') := AddArg(env, w, args, used);
            var all := [Expanded(env, w)] + more;
            && |args'| < MAX_ARGS
            && args' + First(more, MAX_ARGS - 1 - |args'|) == args + First(all, MAX_ARGS - 1 - |args|)
            && used' + TextNeed(First(more, MAX_ARGS - 1 - |args'|))
               == used + TextNeed(First(all, MAX_ARGS - 1 - |args|))
  {
    hide Expanded;
    var room := MAX_ARGS - 1 - |args|;
    var all := [Expanded(env, w)] + more;
    if room > 0 {
      assert First(all, room) == [Expanded(env, w)] + First(more, room - 1);
      assert First(all, room)[1..] == First(more, room - 1);
    } else {
      assert First(all, room) == [] && First(more, room) == [];
    }
  }

  lemma {:induction false} ItemsRead(env: Env, items: seq<Item>, k: Tokens, args: seq<string>, got: seq<Redir>,
                                     used: nat)
    requires Clear(items) && StopsSimple(Peek(k)) && |args| < MAX_ARGS
    requires |got| + |Redirections(env, items)| <= MAX_REDIRS
    requires used + TextNeed(First(Arguments(env, items), MAX_ARGS - 1 - |args|)) <= STRING_ARENA_SIZE
    ensures var more := First(Arguments(env, items), MAX_ARGS - 1 - |args|);
            SimpleLoop(env, LineTokens(items, k), args, got, used)
            == Parsed(Simple(args + more, got + Redirections(env, items)), k, used + TextNeed(more))
    decreases |items|
  {
    hide Expanded, SimpleLoop, AddArg, IsKeyword, IsDupWord, StopsSimple, First, TextNeed;
    if items == [] {
      NothingMore(MAX_ARGS - 1 - |args|);
      assert args + [] == args && got + [] == got;
      StopsHere(env, k, args, got, used);
    } else {
      var i, rest := items[0], LineTokens(items[1..], k);
      if i.Argument? {
        if IsOneDigit(i.word) { AfterDigit(items, k); }
        TakesWord(env, i.word, rest, args, got, used);
        Added(env, i.word, args, Arguments(env, items[1..]), used);
        var (args', used') := AddArg(env, i.word, args, used);
        assert Redirections(env, items) == Redirections(env, items[1..]);
        ItemsRead(env, items[1..], k, args', got, used');
      } else {
        var r := RedirectionOf(env, i);
        assert Arguments(env, items) == Arguments(env, items[1..]);
        TakesRedirection(env, i, rest, args, got, used);
        ItemsRead(env, items[1..], k, args, got + r, used);
        assert got + r + Redirections(env, items[1..]) == got + Redirections(env, items);
      }
    }
  }

  lemma NothingMore(n: nat)
    ensures First<string>([], n) == [] && TextNeed([]) == 0
  {}

  lemma StopsHere(env: Env, k: Tokens, args: seq<string>, got: seq<Redir>, used: nat)
    requires StopsSimple(Peek(k))
    ensures SimpleLoop(env, k, args, got, used) == Parsed(Simple(args, got), k, used)
  {}

  lemma AfterDigit(items: seq<Item>, k: Tokens)
    requires Clear(items) && items != [] && items[0].Argument? && IsOneDigit(items[0].word) && StopsSimple(Peek(k))
    ensures Peek(LineTokens(items[1..], k)) != RedirOut && Peek(LineTokens(items[1..], k)) != RedirAppend
  {
    if |items| > 1 { assert items[1..][0] == items[1]; }
  }

  /** The simple command of any clear line of words and redirections: the expansions of the words in
      order, up to 127 of them, and the redirections in order. */
  lemma {:induction false} SimpleReads(env: Env, items: seq<Item>, k: Tokens, used: nat)
    requires Clear(items) && StopsSimple(Peek(k)) && |Redirections(env, items)| <= MAX_REDIRS
    requires used + TextNeed(First(Arguments(env, items), MAX_ARGS - 1)) <= STRING_ARENA_SIZE
    ensures var args := First(Arguments(env, items), MAX_ARGS - 1);
            ParseSimple(env, LineTokens(items, k), used)
            == Parsed(Simple(args, Redirections(env, items)), k, used + TextNeed(args))
  {
    hide SimpleLoop, Clear;
    ItemsRead(env, items, k, [], [], used);
    var args := First(Arguments(env, items), MAX_ARGS - 1);
    assert [] + args == args && [] + Redirections(env, items) == Redirections(env, items);
  }

  // ------------------------------------------------------------------
  // Words alone
  // ------------------------------------------------------------------

  function WordTokens(ws: seq<string>, k: Tokens): Tokens {
    if ws == [] then k else Next(Word(ws[0]), WordTokens(ws[1..], k))
  }

  function Expansions(env: Env, ws: seq<string>): (r: seq<string>)
    ensures |r| == |ws|
  {
    seq(|ws|, i requires 0 <= i < |ws| => Expanded(env, ws[i]))
  }

  function AsItems(ws: seq<string>): (items: seq<Item>)
    ensures |items| == |ws|
  {
    seq(|ws|, i requires 0 <= i < |ws| => Argument(ws[i]))
  }

  lemma {:induction false} WordsAreItems(env: Env, ws: seq<string>, k: Tokens)
    requires forall w :: w in ws ==> !IsKeyword(w) && !IsDupWord(w)
    ensures LineTokens(AsItems(ws), k) == WordTokens(ws, k) && Clear(AsItems(ws))
    ensures Arguments(env, AsItems(ws)) == Expansions(env, ws) && Redirections(env, AsItems(ws)) == []
    decreases |ws|
  {
    hide IsKeyword, IsDupWord, Expanded;
    if ws != [] {
      assert AsItems(ws)[1..] == AsItems(ws[1..]) && AsItems(ws)[0] == Argument(ws[0]);
      assert ws[0] in ws;
      WordsAreItems(env, ws[1..], k);
      assert Expansions(env, ws) == [Expanded(env, ws[0])] + Expansions(env, ws[1..]);
    }
  }

  /** Words none of which is a keyword, single digits included, are the arguments, in order. */
  lemma {:induction false} WordsRead(env: Env, ws: seq<string>, k: Tokens, used: nat)
    requires (forall w :: w in ws ==> !IsKeyword(w) && !IsDupWord(w)) && StopsSimple(Peek(k)) && |ws| < MAX_ARGS
    requires used + TextNeed(Expansions(env, ws)) <= STRING_ARENA_SIZE
    ensures ParseSimple(env, WordTokens(ws, k), used)
         == Parsed(Simple(Expansions(env, ws), []), k, used + TextNeed(Expansions(env, ws)))
  {
    hide ParseSimple, IsKeyword, IsDupWord, Clear, Arguments, Redirections;
    WordsAreItems(env, ws, k);
    SimpleReads(env, AsItems(ws), k, used);
  }

  /** The words of a `for`: keywords too, but `do`, up to 128 of them. */
  lemma {:induction false} ForWordsRead(env: Env, ws: seq<string>, k: Tokens, got: seq<string>, used: nat)
    requires "do" !in ws && EndsWords(Peek(k)) && |got| <= MAX_FOR_WORDS
    requires used + TextNeed(First(Expansions(env, ws), MAX_FOR_WORDS - |got|)) <= STRING_ARENA_SIZE
    ensures var more := First(Expansions(env, ws), MAX_FOR_WORDS - |got|);
            WordsLoop(env, WordTokens(ws, k), got, used) == (got + more, k, used + TextNeed(more))
    decreases |ws|
  {
    hide Expanded, WordsLoop, First;
    if ws == [] {
      assert got + [] == got;
      EndsHere(env, k, got, used);
    } else {
      var e, rest := Expanded(env, ws[0]), Expansions(env, ws[1..]);
      var room := MAX_FOR_WORDS - |got|;
      assert Expansions(env, ws) == [e] + rest;
      FirstStep(e, rest, room);
      TakesForWord(env, ws[0], WordTokens(ws[1..], k), got, used);
      if room > 0 {
        ForWordsRead(env, ws[1..], k, got + [e], used + |e| + 1);
        assert got + [e] + First(rest, room - 1) == got + ([e] + First(rest, room - 1));
      } else {
        ForWordsRead(env, ws[1..], k, got, used);
      }
    }
  }

  lemma EndsHere(env: Env, k: Tokens, got: seq<string>, used: nat)
    requires EndsWords(Peek(k)) && |got| <= MAX_FOR_WORDS
    ensures WordsLoop(env, k, got, used) == (got, k, used) && First(Expansions(env, []), MAX_FOR_WORDS - |got|) == []
  {}

  lemma FirstStep(e: string, rest: seq<string>, room: nat)
    ensures First([e] + rest, room) == if room > 0 then [e] + First(rest, room - 1) else []
    ensures room > 0 ==> TextNeed(First([e] + rest, room)) == |e| + 1 + TextNeed(First(rest, room - 1))
    ensures room == 0 ==> First(rest, room) == []
  {
    if room > 0 {
      assert First([e] + rest, room) == [e] + First(rest, room - 1);
      assert First([e] + rest, room)[1..] == First(rest, room - 1);
    }
  }

  lemma TakesForWord(env: Env, w: string, ts: Tokens, got: seq<string>, used: nat)
    requires w != "do" && (|got| < MAX_FOR_WORDS ==> used + |Expanded(env, w)| + 1 <= STRING_ARENA_SIZE)
    ensures WordsLoop(env, Next(Word(w), ts), got, used)
         == if |got| < MAX_FOR_WORDS
            then WordsLoop(env, ts, got + [Expanded(env, w)], used + |Expanded(env, w)| + 1)
            else WordsLoop(env, ts, got, used)
  {
    hide Expanded;
  }

  // ------------------------------------------------------------------
  // Lines of text
  // ------------------------------------------------------------------

  ghost predicate ItemSolid(i: Item) {
    match i
    case Argument(w) => Solid(w)
    case Input(f) => Solid(f)
    case Output(fd, _, f) => Solid(f) && (fd.Some? ==> fd.value <= 9)
    case _ => false
  }

  lemma {:induction false} LineSolid(items: seq<Item>, k: Tokens)
    requires (forall i :: 0 <= i < |items| ==> ItemSolid(items[i])) && AllSolid(k)
    ensures AllSolid(LineTokens(items, k))
    decreases |items|
  {
    hide ItemSolid, AllSolid, ItemTokens;
    if items != [] {
      LineSolid(items[1..], k);
      TokensSolid(items[0], LineTokens(items[1..], k));
    }
  }

  lemma TokensSolid(i: Item, k: Tokens)
    requires ItemSolid(i) && AllSolid(k)
    ensures AllSolid(ItemTokens(i, k))
  {
    hide Solid;
    if !i.Argument? { assert AllSolid(Next(Word(i.file), k)); }
    if i.Output? && i.number.Some? {
      DigitSolid(i.number.value);
      assert AllSolid(Next(if i.append then RedirAppend else RedirOut, Next(Word(i.file), k)));
    }
  }

  lemma DigitSolid(n: nat)
    requires n <= 9
    ensures Solid(DigitWord(n).text)
  {
    assert IsPlain(DigitWord(n).text);
  }

  /** A line of such words and redirections, quoted or not, is read as that command. */
  lemma {:induction false} LineReads(env: Env, items: seq<Item>)
    requires items != [] && Clear(items) && (forall i :: 0 <= i < |items| ==> ItemSolid(items[i]))
    requires |Redirections(env, items)| <= MAX_REDIRS
    requires TextNeed(First(Arguments(env, items), MAX_ARGS - 1)) <= STRING_ARENA_SIZE
    ensures var text, args := Render(LineTokens(items, End)), First(Arguments(env, items), MAX_ARGS - 1);
            && Lex(text).Some?
            && ParseList(env, Lex(text).value, 0)
               == Parsed(Simple(args, Redirections(env, items)), End, TextNeed(args))
  {
    hide ParseSimple, ParseList, Clear, ItemSolid, Solid, Arguments, Redirections, IsKeyword, Lex, Render, LineTokens;
    hide BeginsSimple, First, TextNeed, AllSolid;
    assert AllSolid(End) && StopsSimple(Peek(End)) by { NothingSolid(); }
    var ts := LineTokens(items, End);
    LineSolid(items, End);
    LexRender(ts);
    SimpleReads(env, items, End, 0);
    FirstOfLine(items, End);
    ListOfOne(env, ts, 0);
  }

  lemma NothingSolid()
    ensures AllSolid(End) && StopsSimple(Peek(End))
  {}

  /** A line begins with a word that is no keyword, or with a redirection. */
  predicate BeginsSimple(t: Token) { IsRedirect(t) || (t.Word? && !IsKeyword(t.text)) }

  lemma {:induction false} FirstOfLine(items: seq<Item>, k: Tokens)
    requires items != [] && Clear(items)
    ensures BeginsSimple(Peek(LineTokens(items, k)))
  {
    if items[0].Output? && items[0].number.Some? { DigitIsNoKeyword(items[0].number.value); }
    if items[0].Copy? { DigitIsNoKeyword(items[0].fd); }
    if items[0].Joined? { DupIsNoKeyword(items[0].word); }
  }

  lemma DupIsNoKeyword(w: string)
    requires IsDupWord(w)
    ensures !IsKeyword(w)
  {
    assert w[1] == '>';
    assert "then"[1] == 'h' && "elif"[1] == 'l' && "else"[1] == 'l' && "while"[1] == 'h' && "done"[1] == 'o'
        && "case"[1] == 'a' && "esac"[1] == 's';
  }

  lemma DigitIsNoKeyword(n: nat)
    ensures !IsKeyword(DigitWord(n).text)
  {
    assert |DigitWord(n).text| == 1;
  }

  /** Nothing that goes on with a command. */
  predicate StopsList(t: Token) { t != Pipe && t != AndIf && t != OrIf && !IsSeparator(t) }

  lemma {:induction false} ListOfOne(env: Env, ts: Tokens, used: nat)
    requires BeginsSimple(Peek(ts)) && StopsList(Peek(ParseSimple(env, ts, used).rest))
    ensures ParseList(env, ts, used) == ParseSimple(env, ts, used)
  {
    hide ParseSimple, ParseIf, ParseWhile, ParseFor;
    var p := ParseSimple(env, ts, used);
    NoKeywordHere(Peek(ts));
    assert SkipNewlines(ts) == ts;
    assert ParseCommand(env, ts, used) == p;
    assert ParsePipeline(env, ts, used) == p;
    assert ParseAndOr(env, ts, used) == p;
  }

  lemma NoKeywordHere(t: Token)
    requires BeginsSimple(t)
    ensures !IsSeparator(t) && !EndsList(t) && t != LBrace && t != LParen
    ensures t != Word("if") && t != Word("while") && t != Word("for")
  {}

  // ------------------------------------------------------------------
  // Lines of pieces
  // ------------------------------------------------------------------

  function Spellings(words: seq<seq<Piece>>): (ws: seq<string>)
    ensures |ws| == |words|
  {
    seq(|words|, i requires 0 <= i < |words| => SpellAll(words[i]))
  }

  function Meanings(env: Env, words: seq<seq<Piece>>): (ws: seq<string>)
    ensures |ws| == |words|
  {
    seq(|words|, i requires 0 <= i < |words| => Fit(MeanAll(env, words[i]), MAX_WORD))
  }

  /** From text to arguments: a line of words spelled from pieces is the command whose arguments are
      what the pieces mean. */
  lemma {:induction false} PiecesReachTheCommand(env: Env, words: seq<seq<Piece>>)
    requires 0 < |words| < MAX_ARGS && forall i :: 0 <= i < |words| ==> OneWord(words[i])
    requires forall i :: 0 <= i < |words| ==> !IsKeyword(SpellAll(words[i])) && !IsDupWord(SpellAll(words[i]))
    requires TextNeed(Meanings(env, words)) <= STRING_ARENA_SIZE
    ensures var text := Render(WordTokens(Spellings(words), End));
            && Lex(text).Some?
            && ParseList(env, Lex(text).value, 0)
               == Parsed(Simple(Meanings(env, words), []), End, TextNeed(Meanings(env, words)))
  {
    hide OneWord, SpellAll, IsKeyword, IsDupWord, ParseList, Arguments, Redirections, Clear, Solid, MeanAll;
    var ws := Spellings(words);
    assert forall w :: w in ws ==> !IsKeyword(w) && !IsDupWord(w);
    WordsAreItems(env, ws, End);
    forall i | 0 <= i < |words| ensures Expanded(env, ws[i]) == Meanings(env, words)[i] && Solid(ws[i]) {
      PiecesAreSolid(env, words[i]);
    }
    assert Expansions(env, ws) == Meanings(env, words);
    LineReads(env, AsItems(ws));
  }

  lemma PiecesAreSolid(env: Env, ps: seq<Piece>)
    requires OneWord(ps)
    ensures Solid(SpellAll(ps)) && Expanded(env, SpellAll(ps)) == Fit(MeanAll(env, ps), MAX_WORD)
  {
    hide AllOk, SpellAll, MeanAll, Expand;
    ExpandMeans(env, ps);
  }

  // ------------------------------------------------------------------
  // Variables in braces
  // ------------------------------------------------------------------

  /** A variable in braces is one word exactly between double quotes; without them the word ends at the
      brace, which is a token of its own. */
  lemma {:induction false} BracesNeedQuotes(name: string, rest: string)
    requires IsNameLike(name) && |name| <= NAME_ROOM
    ensures ReadTok("${" + name + "} " + rest) == (Word("$"), 1)
    ensures ReadTok("{" + name + "} " + rest) == (LBrace, 1)
    ensures var w := "\"${" + name + "}\""; ReadTok(w + " " + rest) == (Word(w), |w|)
  {
    hide ReadTok;
    var u := "${" + name + "} " + rest;
    assert u[0] == '$' && u[1..][0] == '{';
    WordStops(u[1..], MAX_WORD - 2);
    assert WordLength(u, MAX_WORD - 1, false, false) == 1;
    BeginsWord(u);
    assert u[..1] == "$";
    ReadOperator("{" + name + "} " + rest);
    QuotedBraces(name);
    PiecesReadBack([Double([Braced(name)])], rest);
  }

  lemma QuotedBraces(name: string)
    requires IsNameLike(name) && |name| <= NAME_ROOM
    ensures OneWord([Double([Braced(name)])])
    ensures SpellAll([Double([Braced(name)])]) == "\"${" + name + "}\""
  {
    var p := Double([Braced(name)]);
    assert [Braced(name)][1..] == [] && SpellAtoms([]) == "";
    assert SpellAtoms([Braced(name)]) == "${" + name + "}";
    assert SpellPiece(p) == "\"" + ("${" + name + "}") + "\"";
    assert '}' !in name;
    assert AtomsOk([]) && AtomsOk([Braced(name)]);
    OnePiece(p);
  }

  lemma OnePiece(p: Piece)
    requires PieceOk(p, "")
    ensures AllOk([p]) && SpellAll([p]) == SpellPiece(p)
  {
    hide PieceOk, SpellPiece;
    assert [p][1..] == [] && SpellAll([]) == "" && AllOk([]);
    assert SpellAll([p]) == SpellPiece(p) + "";
  }

  /** So a command with such a variable loses it, and the script ends there: nothing behind the brace is
      even parsed. */
  lemma {:induction false} BareBracesEndTheScript(env: Env, ws: seq<string>, more: Tokens)
    requires (forall w :: w in ws ==> !IsKeyword(w) && !IsDupWord(w)) && |ws| + 1 < MAX_ARGS
    requires TextNeed(Expansions(env, ws + ["$"])) <= STRING_ARENA_SIZE
    ensures ParseList(env, WordTokens(ws + ["$"], Next(LBrace, more)), 0)
         == Parsed(Simple(Expansions(env, ws) + ["$"], []), Next(LBrace, more), TextNeed(Expansions(env, ws) + ["$"]))
  {
    hide IsKeyword, IsDupWord, ParseSimple, ParseList, Expanded, WordTokens;
    var all, k := ws + ["$"], Next(LBrace, more);
    DollarIsPlain(env);
    assert forall w :: w in all ==> w in ws || w == "$";
    assert Expansions(env, all) == Expansions(env, ws) + ["$"];
    WordsRead(env, all, k, 0);
    assert all[0] in all;
    FirstOfWords(all, k);
    ListOfOne(env, WordTokens(all, k), 0);
  }

  lemma FirstOfWords(ws: seq<string>, k: Tokens)
    requires ws != []
    ensures Peek(WordTokens(ws, k)) == Word(ws[0])
  {}

  lemma DollarIsPlain(env: Env)
    ensures !IsKeyword("$") && !IsDupWord("$") && Expanded(env, "$") == "$"
  {
    assert "$"[1..] == "";
    assert ExpandFrom(env, "", false, false) == "";
    assert ExpandFrom(env, "$", false, false) == "$" + "";
  }
}
