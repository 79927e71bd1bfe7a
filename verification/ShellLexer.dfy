/** The tokenizer of programs/sh.c: what read_token makes of the text that is left to read.

    C strings are modelled by the characters before their NUL, so "the end of the
    sequence" plays the part of the terminator. */
module ShellLexer {
  import opened Options

  const MAX_WORD: nat := 4096

  /** An operator's text is fixed by its type, so only words carry text. */
  datatype Token =
    | Word(text: string)
    | AndIf | OrIf | Semi | Pipe
    | LBrace | RBrace | LParen | RParen
    | RedirOut | RedirAppend | RedirIn
    | Newline | Eof

  /** The tokens that are still to come; an endless run of `Eof` follows the last one. */
  datatype Tokens = End | Next(head: Token, tail: Tokens)

  function Count(ts: Tokens): nat {
    match ts
    case End => 0
    case Next(_, r) => 1 + Count(r)
  }

  predicate IsBlank(c: char) { c == ' ' || c == '\t' }

  predicate IsSpace(c: char) {
    c == ' ' || c == '\t' || c == '\n' || c == '\r' || c == '\U{0B}' || c == '\U{0C}'
  }

  predicate IsSpecial(c: char) {
    c == '|' || c == '&' || c == ';' || c == '>' || c == '<'
    || c == '{' || c == '}' || c == '(' || c == ')' || c == '\n'
  }

  predicate IsDigit(c: char) { '0' <= c <= '9' }

  /** How many leading blanks and tabs there are. */
  function Blanks(s: string): (n: nat)
    ensures n <= |s|
    ensures n < |s| ==> !IsBlank(s[n])
  {
    if s != [] && IsBlank(s[0]) then 1 + Blanks(s[1..]) else 0
  }

  /** How many characters come before the next newline. */
  function LineLength(s: string): (n: nat)
    ensures n <= |s|
    ensures n < |s| ==> s[n] == '\n'
  {
    if s != [] && s[0] != '\n' then 1 + LineLength(s[1..]) else 0
  }

  /** Blanks, then a comment if one starts there. */
  function Skipped(s: string): (n: nat)
    ensures n <= |s|
  {
    var b := Blanks(s);
    if b < |s| && s[b] == '#' then b + LineLength(s[b..]) else b
  }

  /** The operator at the front of the text, with its length. */
  function Operator(u: string): (r: Option<(Token, nat)>)
    requires u != []
    ensures r.Some? ==> r.value.0 != Eof && !r.value.0.Word? && 1 <= r.value.1 <= |u|
  {
    if u[0] == '\n' then Some((Newline, 1))
    else if |u| > 1 && u[0] == '&' && u[1] == '&' then Some((AndIf, 2))
    else if |u| > 1 && u[0] == '|' && u[1] == '|' then Some((OrIf, 2))
    else if |u| > 1 && u[0] == '>' && u[1] == '>' then Some((RedirAppend, 2))
    else if u[0] == '|' then Some((Pipe, 1))
    else if u[0] == ';' then Some((Semi, 1))
    else if u[0] == '{' then Some((LBrace, 1))
    else if u[0] == '}' then Some((RBrace, 1))
    else if u[0] == '(' then Some((LParen, 1))
    else if u[0] == ')' then Some((RParen, 1))
    else if u[0] == '>' then Some((RedirOut, 1))
    else if u[0] == '<' then Some((RedirIn, 1))
    else None
  }

  /** The length of the word at the front of `u`, of which at most `room` characters fit.
      Quotes and backslashes stay in the word, so the word is a prefix of the text. */
  function WordLength(u: string, room: nat, inSingle: bool, inDouble: bool): (n: nat)
    ensures n <= |u| && n <= room
    decreases |u|
  {
    if u == [] || room == 0 then 0
    else if u[0] == '\\' && !inSingle then
      if |u| > 1 && room > 1 then 2 + WordLength(u[2..], room - 2, inSingle, inDouble) else 1
    else if u[0] == '\'' && !inDouble then 1 + WordLength(u[1..], room - 1, !inSingle, inDouble)
    else if u[0] == '"' && !inSingle then 1 + WordLength(u[1..], room - 1, inSingle, !inDouble)
    else if !inSingle && !inDouble && (IsSpace(u[0]) || IsSpecial(u[0])) then 0
    else 1 + WordLength(u[1..], room - 1, inSingle, inDouble)
  }

  /** What read_token does with the text `s`: the token, and how far it moves. */
  function ReadTok(s: string): (r: (Token, nat))
    ensures r.1 <= |s|
    ensures r.0 != Eof && r.0 != Word("") ==> r.1 > 0
    ensures r.0 == Eof ==> r.1 == |s|
  {
    var k := Skipped(s);
    var u := s[k..];
    if u == [] then (Eof, k)
    else
      match Operator(u)
      case Some((t, n)) => (t, k + n)
      case None =>
        var n := WordLength(u, MAX_WORD - 1, false, false);
        (Word(u[..n]), k + n)
  }

  /** read_token's two skipping loops. */
  method SkipBlanks(s: string) returns (k: nat)
    ensures k == Skipped(s)
  {
    k := 0;
    while k < |s| && IsBlank(s[k])
      invariant 0 <= k <= |s|
      invariant Blanks(s) == k + Blanks(s[k..])
    {
      assert s[k..][1..] == s[k + 1..];
      k := k + 1;
    }
    if k < |s| && s[k] == '#' {
      var b := k;
      while k < |s| && s[k] != '\n'
        invariant b <= k <= |s|
        invariant LineLength(s[b..]) == k - b + LineLength(s[k..])
      {
        assert s[k..][1..] == s[k + 1..];
        k := k + 1;
      }
    }
  }

  lemma {:induction false} WordStops(u: string, room: nat)
    requires u != [] && (IsSpace(u[0]) || IsSpecial(u[0]))
    ensures WordLength(u, room, false, false) == 0
  {}

  /** One turn of the loop over a word. */
  lemma {:induction false} WordGoesOn(u: string, room: nat, inSingle: bool, inDouble: bool)
    requires u != [] && room > 0 && (inSingle || inDouble || !(IsSpace(u[0]) || IsSpecial(u[0])))
    ensures var c := u[0];
            var n := if c == '\\' && !inSingle && |u| > 1 && room > 1 then 2 else 1;
            var s := if c == '\'' && !inDouble then !inSingle else inSingle;
            var d := if c == '"' && !inSingle then !inDouble else inDouble;
            WordLength(u, room, inSingle, inDouble) == n + WordLength(u[n..], room - n, s, d)
  {}

  /** read_token's loop over a word: it copies quotes and backslashes along. */
  method ScanWord(u: string) returns (word: string)
    ensures word == u[..WordLength(u, MAX_WORD - 1, false, false)]
  {
    hide WordLength, IsSpace, IsSpecial;
    word := "";
    var rest := u;
    var inSingle, inDouble := false, false;
    while rest != [] && |word| < MAX_WORD - 1
      invariant |word| <= MAX_WORD - 1 && u == word + rest
      invariant WordLength(u, MAX_WORD - 1, false, false)
             == |word| + WordLength(rest, MAX_WORD - 1 - |word|, inSingle, inDouble)
      decreases |rest|
    {
      var c := rest[0];
      if !inSingle && !inDouble && (IsSpace(c) || IsSpecial(c)) {
        WordStops(rest, MAX_WORD - 1 - |word|);
        break;
      }
      WordGoesOn(rest, MAX_WORD - 1 - |word|, inSingle, inDouble);
      var n := if c == '\\' && !inSingle && |rest| > 1 && |word| < MAX_WORD - 2 then 2 else 1;
      if c == '\'' && !inDouble {
        inSingle := !inSingle;
      } else if c == '"' && !inSingle {
        inDouble := !inDouble;
      }
      word, rest := word + rest[..n], rest[n..];
    }
  }

  /** read_token reads the next token of the text and moves past it. */
  method ReadToken(s: string) returns (t: Token, n: nat)
    ensures (t, n) == ReadTok(s)
  {
    var k := SkipBlanks(s);
    if k == |s| {
      return Eof, k;
    }
    match Operator(s[k..]) {
      case Some((op, len)) =>
        return op, k + len;
      case None =>
        var word := ScanWord(s[k..]);
        return Word(word), k + |word|;
    }
  }

  /** The character that read_token has no case for, and that ends a word before it starts. */
  predicate Unreadable(u: string)
    requires u != []
  {
    u[0] == '\r' || u[0] == '\U{0B}' || u[0] == '\U{0C}'
    || (u[0] == '&' && !(|u| > 1 && u[1] == '&'))
  }

  /** read_token yields an empty word exactly at an unreadable character. */
  lemma EmptyWordIff(s: string)
    ensures ReadTok(s).0 == Word("") <==> (Skipped(s) < |s| && Unreadable(s[Skipped(s)..]))
  {
    var k := Skipped(s);
    if k < |s| {
      var u := s[k..];
      assert u[0] == s[k];
      var b := Blanks(s);
      if b < |s| && s[b] == '#' {
        assert s[b..][LineLength(s[b..])] == s[k];
      }
      assert !IsBlank(u[0]);
      if Operator(u).None? {
        var n := WordLength(u, MAX_WORD - 1, false, false);
        assert |u[..n]| == n;
        assert Unreadable(u) <==> n == 0;
      }
    }
  }

  /** From then on the tokenizer stands still: it reads the same empty word for ever. */
  lemma EmptyWordForever(s: string)
    requires ReadTok(s).0 == Word("")
    ensures ReadTok(s[ReadTok(s).1..]) == (Word(""), 0)
  {
    EmptyWordIff(s);
    var k := Skipped(s);
    var u := s[k..];
    assert ReadTok(s).1 == k;
    assert u[0] == '\r' || u[0] == '\U{0B}' || u[0] == '\U{0C}' || u[0] == '&';
    assert Skipped(u) == 0;
    assert u[0..] == u;
  }

  /** All the tokens of a text, or None when the tokenizer gets stuck on the way. */
  function Lex(s: string): Option<Tokens>
    decreases |s|
  {
    var (t, n) := ReadTok(s);
    if t == Eof then Some(End)
    else if t == Word("") then None
    else
      match Lex(s[n..])
      case None => None
      case Some(ts) => Some(Next(t, ts))
  }

  // ------------------------------------------------------------------
  // Reading on, whether the tokenizer moves or not
  // ------------------------------------------------------------------

  /** What the first `n` calls of read_token yield, up to the end of the text. */
  function Reads(s: string, n: nat): Tokens
    decreases n
  {
    var (t, k) := ReadTok(s);
    if n == 0 || t == Eof then End else Next(t, Reads(s[k..], n - 1))
  }

  /** The text that is left after `n` calls. */
  function After(s: string, n: nat): string
    decreases n
  {
    if n == 0 then s else After(s[ReadTok(s).1..], n - 1)
  }

  /** The tokens before the tokenizer stalls, or all of them. */
  function Lead(s: string): Tokens
    decreases |s|
  {
    var (t, k) := ReadTok(s);
    if t == Eof || t == Word("") then End else Next(t, Lead(s[k..]))
  }

  /** Empty words only. */
  function Stalled(n: nat): Tokens {
    if n == 0 then End else Next(Word(""), Stalled(n - 1))
  }

  /** `ts` and then `n` empty words. */
  function Extend(ts: Tokens, n: nat): Tokens {
    match ts
    case End => Stalled(n)
    case Next(t, r) => Next(t, Extend(r, n))
  }

  lemma {:induction false} StalledReads(s: string, n: nat)
    requires ReadTok(s).0 == Word("")
    ensures Reads(s, n) == Stalled(n)
    decreases n
  {
    hide ReadTok;
    EmptyWordForever(s);
    if n > 0 { StalledReads(s[ReadTok(s).1..], n - 1); }
  }

  /** A text that can be tokenized is read to its end; at any other one the tokenizer stalls behind
      its lead, and yields empty words from then on. */
  lemma {:induction false} ReadsAreLead(s: string, n: nat)
    requires n >= Count(Lead(s))
    ensures Lex(s).Some? ==> Lex(s).value == Lead(s) == Reads(s, n)
    ensures Lex(s).None? ==> Reads(s, n) == Extend(Lead(s), n - Count(Lead(s)))
    decreases |s|
  {
    hide ReadTok, Stalled;
    var (t, k) := ReadTok(s);
    if t == Word("") {
      StalledReads(s, n);
    } else if t != Eof {
      ReadsAreLead(s[k..], n - 1);
    }
  }

  /** Wherever the tokenizer gets to, what is left must have tokens for the text to have them. */
  lemma {:induction false} StallsLater(s: string, n: nat)
    requires Lex(After(s, n)) == None
    ensures Lex(s) == None
    decreases n
  {
    hide ReadTok;
    if n > 0 {
      StallsLater(s[ReadTok(s).1..], n - 1);
      if ReadTok(s).0 == Eof { NothingLeft(s); }
    }
  }

  lemma NothingLeft(s: string)
    requires ReadTok(s).0 == Eof
    ensures s[ReadTok(s).1..] == "" && Lex("").Some?
  {}

  /** What every word that comes out of the tokenizer looks like. */
  predicate Scanned(w: string) {
    && |w| < MAX_WORD
    && (|w| > 0 ==> w[0] != '&')
    && (|w| > 1 && IsDigit(w[0]) ==> w[1] != '>')
  }

  predicate AllScanned(ts: Tokens) {
    match ts
    case End => true
    case Next(t, r) => (t.Word? ==> Scanned(t.text)) && AllScanned(r)
  }

  lemma ReadWordIsScanned(s: string)
    requires ReadTok(s).0.Word?
    ensures Scanned(ReadTok(s).0.text)
  {
    var u := s[Skipped(s)..];
    var n := WordLength(u, MAX_WORD - 1, false, false);
    var w := u[..n];
    assert |w| == n;
    if |w| > 1 && IsDigit(w[0]) {
      assert n == 1 + WordLength(u[1..], MAX_WORD - 2, false, false);
      assert u[1..][0] == w[1];
    }
  }

  /** However often any text is read on, no word begins with `&`, or with a digit and `>`. */
  lemma {:induction false} ReadsAreScanned(s: string, n: nat)
    ensures AllScanned(Reads(s, n))
    decreases n
  {
    hide ReadTok, Scanned;
    var (t, k) := ReadTok(s);
    if n > 0 && t != Eof {
      if t.Word? { ReadWordIsScanned(s); }
      ReadsAreScanned(s[k..], n - 1);
    }
  }
}
