/** Word expansion of programs/sh.c: quotes, backslashes and `$` forms. */
module ShellExpand {
  import opened ShellLexer

  /** What a word can refer to while it is expanded; `vars` answers get_var. */
  datatype Env = Env(pid: string, status: string, argv0: string, vars: map<string, string>)

  predicate IsNameStart(c: char) { 'a' <= c <= 'z' || 'A' <= c <= 'Z' || c == '_' }

  predicate IsNameChar(c: char) { IsNameStart(c) || IsDigit(c) }

  const NAME_ROOM: nat := 63

  /** Length of the longest prefix of at most `room` name characters. */
  function NameLength(u: string, room: nat): (n: nat)
    ensures n <= |u| && n <= room
    decreases room
  {
    if room > 0 && u != [] && IsNameChar(u[0]) then 1 + NameLength(u[1..], room - 1) else 0
  }

  /** Length of the name in braces: up to the closing brace, the end, or `room` characters. */
  function BracedLength(u: string, room: nat): (n: nat)
    ensures n <= |u| && n <= room
    decreases room
  {
    if room > 0 && u != [] && u[0] != '}' then 1 + BracedLength(u[1..], room - 1) else 0
  }

  function Lookup(env: Env, name: string): string {
    if name in env.vars then env.vars[name] else ""
  }

  /** The value of the `$` form whose text after the `$` is `u`, and how much of `u` it uses. */
  function Dollar(env: Env, u: string): (r: (string, nat))
    ensures r.1 <= |u|
  {
    if u == [] then ("$", 0)
    else if u[0] == '$' then (env.pid, 1)
    else if u[0] == '?' then (env.status, 1)
    else if u[0] == '0' then (env.argv0, 1)
    else if u[0] == '{' then
      var n := BracedLength(u[1..], NAME_ROOM);
      var close := if 1 + n < |u| && u[1 + n] == '}' then 1 else 0;
      (Lookup(env, u[1..1 + n]), 1 + n + close)
    else if IsNameStart(u[0]) then
      var n := NameLength(u, NAME_ROOM);
      (Lookup(env, u[..n]), n)
    else ("$", 0)
  }

  /** One turn of expand_word's loop: the text it adds, the characters it uses, the quote state. */
  datatype Turn = Turn(text: string, used: nat, inSingle: bool, inDouble: bool)

  function TurnAt(env: Env, src: string, inSingle: bool, inDouble: bool): (t: Turn)
    requires src != []
    ensures 1 <= t.used <= |src|
  {
    if src[0] == '\\' && !inSingle then
      if |src| > 1 then Turn([src[1]], 2, inSingle, inDouble) else Turn("", 1, inSingle, inDouble)
    else if src[0] == '\'' && !inDouble then Turn("", 1, !inSingle, inDouble)
    else if src[0] == '"' && !inSingle then Turn("", 1, inSingle, !inDouble)
    else if src[0] == '$' && !inSingle then
      var (value, used) := Dollar(env, src[1..]);
      Turn(value, 1 + used, inSingle, inDouble)
    else Turn([src[0]], 1, inSingle, inDouble)
  }

  /** The expansion a buffer of unlimited size would receive. */
  function ExpandFrom(env: Env, src: string, inSingle: bool, inDouble: bool): string
    decreases |src|
  {
    if src == [] then ""
    else
      var t := TurnAt(env, src, inSingle, inDouble);
      t.text + ExpandFrom(env, src[t.used..], t.inSingle, t.inDouble)
  }

  function Expand(env: Env, src: string): string {
    ExpandFrom(env, src, false, false)
  }

  function Min(a: nat, b: nat): nat { if a <= b then a else b }

  /** What fits into a buffer of `size` characters, terminator included. */
  function Fit(text: string, size: nat): string
    requires size > 0
  {
    text[..Min(|text|, size - 1)]
  }

  /** Copies `text` to `dst[out..]`, stopping before the last cell. */
  method CopyInto(text: string, dst: array<char>, out: nat) returns (out': nat)
    requires out < dst.Length
    modifies dst
    ensures out' == Min(out + |text|, dst.Length - 1)
    ensures dst[..out'] == old(dst[..out]) + text[..out' - out]
    ensures forall k :: out' <= k < dst.Length ==> dst[k] == old(dst[k])
  {
    out' := out;
    var i := 0;
    while i < |text| && out' < dst.Length - 1
      invariant 0 <= i <= |text| && out' == out + i < dst.Length
      invariant dst[..out'] == old(dst[..out]) + text[..i]
      invariant forall k :: out' <= k < dst.Length ==> dst[k] == old(dst[k])
    {
      dst[out'] := text[i];
      assert dst[..out' + 1] == old(dst[..out]) + text[..i] + [text[i]];
      assert text[..i] + [text[i]] == text[..i + 1];
      out', i := out' + 1, i + 1;
    }
  }

  /** The name in `${...}`: the loop that copies it out of the source. */
  method ReadBraced(u: string) returns (n: nat)
    ensures n == BracedLength(u, NAME_ROOM)
  {
    n := 0;
    while n < |u| && u[n] != '}' && n < NAME_ROOM
      invariant n <= NAME_ROOM && n <= |u|
      invariant BracedLength(u, NAME_ROOM) == n + BracedLength(u[n..], NAME_ROOM - n)
    {
      assert u[n..][1..] == u[n + 1..];
      n := n + 1;
    }
  }

  /** The name in `$NAME`. */
  method ReadName(u: string) returns (n: nat)
    ensures n == NameLength(u, NAME_ROOM)
  {
    n := 0;
    while n < |u| && IsNameChar(u[n]) && n < NAME_ROOM
      invariant n <= NAME_ROOM && n <= |u|
      invariant NameLength(u, NAME_ROOM) == n + NameLength(u[n..], NAME_ROOM - n)
    {
      assert u[n..][1..] == u[n + 1..];
      n := n + 1;
    }
  }

  /** The branches of expand_word after a `$`. */
  method ReadDollar(env: Env, u: string) returns (value: string, used: nat)
    ensures (value, used) == Dollar(env, u)
  {
    value, used := "$", 0;
    if u == [] {
    } else if u[0] == '$' {
      value, used := env.pid, 1;
    } else if u[0] == '?' {
      value, used := env.status, 1;
    } else if u[0] == '0' {
      value, used := env.argv0, 1;
    } else if u[0] == '{' {
      var n := ReadBraced(u[1..]);
      value := Lookup(env, u[1..1 + n]);
      used := 1 + n;
      if used < |u| && u[used] == '}' { used := used + 1; }
    } else if IsNameStart(u[0]) {
      used := ReadName(u);
      value := Lookup(env, u[..used]);
    }
  }

  /** One turn of expand_word's loop: it appends what fits of the turn's text. */
  method ExpandTurn(env: Env, src: string, inSingle: bool, inDouble: bool, dst: array<char>, out: nat)
    returns (src': string, inSingle': bool, inDouble': bool, out': nat)
    requires src != [] && out < dst.Length - 1
    modifies dst
    ensures var t := TurnAt(env, src, inSingle, inDouble);
            && src' == src[t.used..] && inSingle' == t.inSingle && inDouble' == t.inDouble
            && out' == Min(out + |t.text|, dst.Length - 1)
            && dst[..out'] == old(dst[..out]) + t.text[..out' - out]
            && forall k :: out' <= k < dst.Length ==> dst[k] == old(dst[k])
  {
    src', inSingle', inDouble', out' := src[1..], inSingle, inDouble, out;
    if src[0] == '\\' && !inSingle {
      if src' != [] {
        out' := CopyInto([src'[0]], dst, out);
        src' := src'[1..];
      }
    } else if src[0] == '\'' && !inDouble {
      inSingle' := !inSingle;
    } else if src[0] == '"' && !inSingle {
      inDouble' := !inDouble;
    } else if src[0] == '$' && !inSingle {
      var value, used := ReadDollar(env, src');
      out' := CopyInto(value, dst, out);
      src' := src'[used..];
    } else {
      out' := CopyInto([src[0]], dst, out);
    }
  }

  lemma FitExtends(made: string, text: string, out: nat, size: nat, out': nat)
    requires size > 0 && out == Min(|made|, size - 1) && out == |made|
    requires out' == Min(out + |text|, size - 1)
    ensures out' == Min(|made + text|, size - 1)
    ensures (made + text)[..out'] == made[..out] + text[..out' - out]
  {}

  lemma SameTail(a: string, b: string, c: string)
    ensures a + (b + c) == a + b + c
  {}

  lemma FitOfPrefix(made: string, rest: string, n: nat, size: nat)
    requires size > 0 && n == Min(|made|, size - 1)
    requires rest == [] || n == size - 1
    ensures n == Min(|made + rest|, size - 1)
    ensures Fit(made + rest, size) == made[..n]
  {}

  /** expand_word fills any buffer with exactly the prefix of the unlimited expansion that
      fits, puts the terminator behind it and leaves the rest of the buffer alone. */
  method ExpandWord(env: Env, word: string, dst: array<char>) returns (n: nat)
    requires dst.Length >= 1
    modifies dst
    ensures n == Min(|Expand(env, word)|, dst.Length - 1)
    ensures dst[..n] == Fit(Expand(env, word), dst.Length)
    ensures dst[n] == '\0'
    ensures forall k :: n < k < dst.Length ==> dst[k] == old(dst[k])
  {
    ghost var full := Expand(env, word);
    var src, out, inSingle, inDouble := word, 0, false, false;
    ghost var made := "";
    while src != [] && out < dst.Length - 1
      invariant full == made + ExpandFrom(env, src, inSingle, inDouble)
      invariant out == Min(|made|, dst.Length - 1)
      invariant dst[..out] == made[..out]
      invariant forall k :: out <= k < dst.Length ==> dst[k] == old(dst[k])
      decreases |src|
    {
      ghost var t := TurnAt(env, src, inSingle, inDouble);
      ghost var out0 := out;
      src, inSingle, inDouble, out := ExpandTurn(env, src, inSingle, inDouble, dst, out);
      FitExtends(made, t.text, out0, dst.Length, out);
      SameTail(made, t.text, ExpandFrom(env, src, inSingle, inDouble));
      made := made + t.text;
    }
    n := out;
    FitOfPrefix(made, ExpandFrom(env, src, inSingle, inDouble), n, dst.Length);
    dst[n] := '\0';
    assert dst[..n] == made[..n];
  }

  /** A single-quoted word: every quote inside is written as quote, backslash, quote, quote. */
  function QuoteBody(s: string): (r: string)
    ensures |r| >= |s|
  {
    if s == [] then ""
    else (if s[0] == '\'' then "'\\''" else [s[0]]) + QuoteBody(s[1..])
  }

  function Quote(s: string): string {
    "'" + QuoteBody(s) + "'"
  }

  /** Inside single quotes: out, an escaped quote, and in again. */
  lemma {:induction false} ExpandEscapedQuote(env: Env, rest: string)
    ensures ExpandFrom(env, "'\\''" + rest, true, false) == "'" + ExpandFrom(env, rest, true, false)
  {
    var src := "'\\''" + rest;
    assert src[1..] == "\\''" + rest;
    assert src[1..][2..] == "'" + rest;
    assert src[1..][2..][1..] == rest;
    assert ExpandFrom(env, src[1..][2..], false, false) == "" + ExpandFrom(env, rest, true, false);
    assert ExpandFrom(env, src[1..], false, false) == "'" + ExpandFrom(env, src[1..][2..], false, false);
    assert ExpandFrom(env, src, true, false) == "" + ExpandFrom(env, src[1..], false, false);
  }

  lemma {:induction false} ExpandQuotedBody(env: Env, s: string)
    ensures ExpandFrom(env, QuoteBody(s) + "'", true, false) == s
  {
    if s == [] {
      assert QuoteBody(s) + "'" == "'";
      assert "'"[1..] == "";
    } else {
      var rest := QuoteBody(s[1..]) + "'";
      ExpandQuotedBody(env, s[1..]);
      if s[0] == '\'' {
        assert QuoteBody(s) + "'" == "'\\''" + rest;
        ExpandEscapedQuote(env, rest);
      } else {
        var src := QuoteBody(s) + "'";
        assert src == [s[0]] + rest;
        assert src[1..] == rest;
        assert ExpandFrom(env, src, true, false) == [s[0]] + ExpandFrom(env, rest, true, false);
      }
    }
  }

  /** Quoting any text and expanding the word gives the text back, in every environment. */
  lemma ExpandQuoted(env: Env, s: string)
    ensures Expand(env, Quote(s)) == s
  {
    ExpandQuotedBody(env, s);
    assert Quote(s)[1..] == QuoteBody(s) + "'";
    assert ExpandFrom(env, Quote(s), false, false) == "" + ExpandFrom(env, Quote(s)[1..], true, false);
  }

  lemma {:induction false} EscapedQuoteLength(tail: string, room: nat)
    requires room >= 4
    ensures WordLength("'\\''" + tail, room, true, false) == 4 + WordLength(tail, room - 4, true, false)
  {
    var u := "'\\''" + tail;
    assert u[1..] == "\\''" + tail;
    assert u[1..][2..] == "'" + tail;
    assert u[1..][2..][1..] == tail;
    assert WordLength(u[1..][2..], room - 3, false, false) == 1 + WordLength(tail, room - 4, true, false);
    assert WordLength(u[1..], room - 1, false, false) == 2 + WordLength(u[1..][2..], room - 3, false, false);
  }

  /** The tokenizer takes the inside of a quoted word, its closing quote and nothing more. */
  lemma {:induction false} QuotedBodyLength(s: string, rest: string, room: nat)
    requires room >= |QuoteBody(s)| + 1
    requires rest != [] && IsSpace(rest[0])
    ensures WordLength(QuoteBody(s) + "'" + rest, room, true, false) == |QuoteBody(s)| + 1
    decreases |s|
  {
    if s == [] {
      var u := QuoteBody(s) + "'" + rest;
      assert u == "'" + rest && u[1..] == rest;
      assert WordLength(rest, room - 1, false, false) == 0;
    } else {
      var tail := QuoteBody(s[1..]) + "'" + rest;
      var u := QuoteBody(s) + "'" + rest;
      if s[0] == '\'' {
        QuotedBodyLength(s[1..], rest, room - 4);
        assert u == "'\\''" + tail;
        EscapedQuoteLength(tail, room);
      } else {
        QuotedBodyLength(s[1..], rest, room - 1);
        assert u == [s[0]] + tail;
        assert u[1..] == tail;
      }
    }
  }
}
