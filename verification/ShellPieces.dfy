/** What a word of a script stands for: words as lists of pieces, how each piece is spelled, and what
    it means. */
module ShellPieces {
  import opened ShellLexer
  import opened ShellExpand

  /** What can stand unquoted and between double quotes. `LoneDollar` is a `$` that begins nothing. */
  datatype Atom =
    | Text(text: string) | Escaped(c: char)
    | Variable(name: string) | Braced(name: string)
    | Status | Pid | ShellName | LoneDollar

  datatype Piece = Bare(atom: Atom) | Single(text: string) | Double(atoms: seq<Atom>)

  // ------------------------------------------------------------------
  // Spelling
  // ------------------------------------------------------------------

  function SpellAtom(a: Atom): string {
    match a
    case Text(s) => s
    case Escaped(c) => ['\\', c]
    case Variable(name) => "$" + name
    case Braced(name) => "${" + name + "}"
    case Status => "$?"
    case Pid => "$$"
    case ShellName => "$0"
    case LoneDollar => "$"
  }

  function SpellAtoms(atoms: seq<Atom>): string {
    if atoms == [] then "" else SpellAtom(atoms[0]) + SpellAtoms(atoms[1..])
  }

  function SpellPiece(p: Piece): string {
    match p
    case Bare(a) => SpellAtom(a)
    case Single(s) => "'" + s + "'"
    case Double(atoms) => "\"" + SpellAtoms(atoms) + "\""
  }

  function SpellAll(ps: seq<Piece>): string {
    if ps == [] then "" else SpellPiece(ps[0]) + SpellAll(ps[1..])
  }

  // ------------------------------------------------------------------
  // Meaning
  // ------------------------------------------------------------------

  function MeanAtom(env: Env, a: Atom): string {
    match a
    case Text(s) => s
    case Escaped(c) => [c]
    case Variable(name) => if name in env.vars then env.vars[name] else ""
    case Braced(name) => if name in env.vars then env.vars[name] else ""
    case Status => env.status
    case Pid => env.pid
    case ShellName => env.argv0
    case LoneDollar => "$"
  }

  function MeanAtoms(env: Env, atoms: seq<Atom>): string {
    if atoms == [] then "" else MeanAtom(env, atoms[0]) + MeanAtoms(env, atoms[1..])
  }

  function MeanPiece(env: Env, p: Piece): string {
    match p
    case Bare(a) => MeanAtom(env, a)
    case Single(s) => s
    case Double(atoms) => MeanAtoms(env, atoms)
  }

  function MeanAll(env: Env, ps: seq<Piece>): string {
    if ps == [] then "" else MeanPiece(env, ps[0]) + MeanAll(env, ps[1..])
  }

  // ------------------------------------------------------------------
  // When the spelling says what is meant
  // ------------------------------------------------------------------

  predicate IsVariable(name: string) {
    0 < |name| <= NAME_ROOM && IsNameStart(name[0]) && forall i :: 0 <= i < |name| ==> IsNameChar(name[i])
  }

  /** A text can be written as it is. */
  predicate Literal(s: string, double: bool) {
    forall i :: 0 <= i < |s| ==> s[i] != '\\' && s[i] != '"' && s[i] != '$' && (double || s[i] != '\'')
  }

  /** Nothing in what follows is taken for a part of the atom. */
  predicate AtomOk(a: Atom, double: bool, next: string) {
    match a
    case Text(s) => Literal(s, double)
    case Variable(name) => IsVariable(name) && (|name| == NAME_ROOM || next == "" || !IsNameChar(next[0]))
    case Braced(name) => |name| <= NAME_ROOM && '}' !in name
    case LoneDollar => next == "" || !(IsNameStart(next[0]) || next[0] in "$?0{")
    case _ => true
  }

  predicate AtomsOk(atoms: seq<Atom>) {
    atoms == [] || (AtomOk(atoms[0], true, SpellAtoms(atoms[1..]) + "\"") && AtomsOk(atoms[1..]))
  }

  predicate PieceOk(p: Piece, next: string) {
    match p
    case Bare(a) => AtomOk(a, false, next)
    case Single(s) => '\'' !in s
    case Double(atoms) => AtomsOk(atoms)
  }

  predicate AllOk(ps: seq<Piece>) {
    ps == [] || (PieceOk(ps[0], SpellAll(ps[1..])) && AllOk(ps[1..]))
  }

  // ------------------------------------------------------------------
  // Expansion gives the meaning
  // ------------------------------------------------------------------

  lemma {:induction false} TextExpands(env: Env, s: string, rest: string, double: bool)
    requires Literal(s, double)
    ensures ExpandFrom(env, s + rest, false, double) == s + ExpandFrom(env, rest, false, double)
    decreases |s|
  {
    hide Dollar;
    if s == "" {
      assert s + rest == rest;
    } else {
      var src := s + rest;
      assert src[0] == s[0] && src[1..] == s[1..] + rest;
      TextExpands(env, s[1..], rest, double);
      assert s == [s[0]] + s[1..];
    }
  }

  lemma {:induction false} NameIsTaken(name: string, rest: string, room: nat)
    requires |name| <= room && (forall i :: 0 <= i < |name| ==> IsNameChar(name[i]))
    requires |name| == room || rest == "" || !IsNameChar(rest[0])
    ensures NameLength(name + rest, room) == |name|
    decreases |name|
  {
    if name == "" {
      assert name + rest == rest;
    } else {
      assert (name + rest)[0] == name[0] && (name + rest)[1..] == name[1..] + rest;
      NameIsTaken(name[1..], rest, room - 1);
    }
  }

  lemma {:induction false} BracedIsTaken(name: string, rest: string, room: nat)
    requires |name| <= room && '}' !in name
    ensures BracedLength(name + "}" + rest, room) == |name|
    decreases |name|
  {
    var u := name + "}" + rest;
    if name == "" {
      assert u[0] == '}';
    } else {
      assert u[0] == name[0] && u[1..] == name[1..] + "}" + rest;
      BracedIsTaken(name[1..], rest, room - 1);
    }
  }

  /** What a `$` form stands for, and how much of the text it takes. */
  lemma {:induction false} DollarMeans(env: Env, a: Atom, double: bool, rest: string)
    requires a.Variable? || a.Braced? || a.Status? || a.Pid? || a.ShellName? || a.LoneDollar?
    requires AtomOk(a, double, rest)
    ensures |SpellAtom(a)| >= 1 && SpellAtom(a)[0] == '$'
    ensures Dollar(env, SpellAtom(a)[1..] + rest) == (MeanAtom(env, a), |SpellAtom(a)| - 1)
  {
    hide Dollar, AtomOk;
    var u := SpellAtom(a)[1..] + rest;
    match a
    case Variable(name) =>
      assert u == name + rest;
      VariableMeans(env, name, rest, double);
    case Braced(name) =>
      assert u == "{" + name + "}" + rest;
      BracedMeans(env, name, rest, double);
    case LoneDollar =>
      assert u == rest;
      LoneDollarMeans(env, rest, double);
    case _ =>
      ShortMeans(env, u);
  }

  lemma {:induction false} VariableMeans(env: Env, name: string, rest: string, double: bool)
    requires AtomOk(Variable(name), double, rest)
    ensures Dollar(env, name + rest) == (MeanAtom(env, Variable(name)), |name|)
  {
    hide NameLength;
    var u := name + rest;
    assert u[0] == name[0];
    NameIsTaken(name, rest, NAME_ROOM);
    assert u[..|name|] == name;
  }

  lemma {:induction false} BracedMeans(env: Env, name: string, rest: string, double: bool)
    requires AtomOk(Braced(name), double, rest)
    ensures Dollar(env, "{" + name + "}" + rest) == (MeanAtom(env, Braced(name)), |name| + 2)
  {
    hide BracedLength;
    var u := "{" + name + "}" + rest;
    assert u[0] == '{' && u[1..] == name + "}" + rest;
    BracedIsTaken(name, rest, NAME_ROOM);
    assert u[1..1 + |name|] == name && u[1 + |name|] == '}';
  }

  lemma LoneDollarMeans(env: Env, rest: string, double: bool)
    requires AtomOk(LoneDollar, double, rest)
    ensures Dollar(env, rest) == ("$", 0)
  {}

  lemma ShortMeans(env: Env, u: string)
    requires u != ""
    ensures u[0] == '?' ==> Dollar(env, u) == (env.status, 1)
    ensures u[0] == '$' ==> Dollar(env, u) == (env.pid, 1)
    ensures u[0] == '0' ==> Dollar(env, u) == (env.argv0, 1)
  {}

  lemma {:induction false} AtomExpands(env: Env, a: Atom, rest: string, double: bool)
    requires AtomOk(a, double, rest)
    ensures ExpandFrom(env, SpellAtom(a) + rest, false, double)
         == MeanAtom(env, a) + ExpandFrom(env, rest, false, double)
  {
    hide Dollar, ExpandFrom, AtomOk;
    var src := SpellAtom(a) + rest;
    match a
    case Text(s) =>
      LiteralAtom(s, double, rest);
      TextExpands(env, s, rest, double);
    case Escaped(c) =>
      assert src == ['\\', c] + rest;
      EscapeExpands(env, c, rest, double);
    case _ =>
      DollarMeans(env, a, double, rest);
      assert src == "$" + (SpellAtom(a)[1..] + rest);
      DollarExpands(env, SpellAtom(a)[1..], rest, double);
  }

  lemma LiteralAtom(s: string, double: bool, next: string)
    requires AtomOk(Text(s), double, next)
    ensures Literal(s, double)
  {}

  lemma EscapeExpands(env: Env, c: char, rest: string, double: bool)
    ensures ExpandFrom(env, ['\\', c] + rest, false, double) == [c] + ExpandFrom(env, rest, false, double)
  {
    var src := ['\\', c] + rest;
    assert src[0] == '\\' && src[1] == c && src[2..] == rest;
  }

  lemma {:induction false} DollarExpands(env: Env, form: string, rest: string, double: bool)
    requires Dollar(env, form + rest).1 == |form|
    ensures ExpandFrom(env, "$" + (form + rest), false, double)
         == Dollar(env, form + rest).0 + ExpandFrom(env, rest, false, double)
  {
    hide Dollar;
    var src := "$" + (form + rest);
    assert src[0] == '$' && src[1..] == form + rest && src[1 + |form|..] == rest;
  }

  lemma {:induction false} AtomsExpand(env: Env, atoms: seq<Atom>, rest: string)
    requires AtomsOk(atoms)
    ensures ExpandFrom(env, SpellAtoms(atoms) + "\"" + rest, false, true)
         == MeanAtoms(env, atoms) + ExpandFrom(env, rest, false, false)
    decreases |atoms|
  {
    hide AtomOk, SpellAtom, MeanAtom, Dollar;
    var src := SpellAtoms(atoms) + "\"" + rest;
    if atoms == [] {
      assert src[0] == '"' && src[1..] == rest;
    } else {
      var tail := SpellAtoms(atoms[1..]) + "\"";
      assert src == SpellAtom(atoms[0]) + (tail + rest);
      AtomOkFurther(atoms[0], tail, rest);
      AtomExpands(env, atoms[0], tail + rest, true);
      AtomsExpand(env, atoms[1..], rest);
      assert MeanAtoms(env, atoms) + ExpandFrom(env, rest, false, false)
          == MeanAtom(env, atoms[0]) + (MeanAtoms(env, atoms[1..]) + ExpandFrom(env, rest, false, false));
    }
  }

  lemma AtomOkFurther(a: Atom, next: string, rest: string)
    requires next != "" && AtomOk(a, true, next)
    ensures AtomOk(a, true, next + rest)
  {
    assert (next + rest)[0] == next[0];
  }

  lemma {:induction false} SingleExpands(env: Env, s: string, rest: string)
    requires '\'' !in s
    ensures ExpandFrom(env, s + "'" + rest, true, false) == s + ExpandFrom(env, rest, false, false)
    decreases |s|
  {
    hide Dollar;
    var src := s + "'" + rest;
    if s == "" {
      assert src[0] == '\'' && src[1..] == rest;
    } else {
      assert src[0] == s[0] && src[1..] == s[1..] + "'" + rest;
      SingleExpands(env, s[1..], rest);
      assert s == [s[0]] + s[1..];
    }
  }

  lemma {:induction false} PieceExpands(env: Env, p: Piece, rest: string)
    requires PieceOk(p, rest)
    ensures ExpandFrom(env, SpellPiece(p) + rest, false, false)
         == MeanPiece(env, p) + ExpandFrom(env, rest, false, false)
  {
    hide AtomOk, SpellAtom, MeanAtom, Dollar, SpellAtoms, MeanAtoms;
    var src := SpellPiece(p) + rest;
    match p
    case Bare(a) =>
      AtomExpands(env, a, rest, false);
    case Single(s) =>
      assert src[0] == '\'' && src[1..] == s + "'" + rest;
      SingleExpands(env, s, rest);
    case Double(atoms) =>
      assert src[0] == '"' && src[1..] == SpellAtoms(atoms) + "\"" + rest;
      AtomsExpand(env, atoms, rest);
  }

  /** Every word that is spelled from pieces expands to what its pieces mean. */
  lemma {:induction false} ExpandMeans(env: Env, ps: seq<Piece>)
    requires AllOk(ps)
    ensures Expand(env, SpellAll(ps)) == MeanAll(env, ps)
    decreases |ps|
  {
    hide PieceOk, SpellPiece, MeanPiece;
    if ps != [] {
      PieceExpands(env, ps[0], SpellAll(ps[1..]));
      ExpandMeans(env, ps[1..]);
    }
  }

  // ------------------------------------------------------------------
  // Reading such a word
  // ------------------------------------------------------------------

  predicate IsNameLike(name: string) { forall i :: 0 <= i < |name| ==> IsNameChar(name[i]) }

  /** A character that does not end a word. */
  predicate IsInner(c: char) { !IsSpace(c) && !IsSpecial(c) }

  /** The tokenizer does not take anything in the atom for the end of the word or for a quote.
      Unquoted braces are special characters, so an unquoted variable cannot be in braces. */
  predicate AtomWhole(a: Atom, double: bool) {
    match a
    case Text(s) => double || forall i :: 0 <= i < |s| ==> IsInner(s[i])
    case Variable(name) => IsNameLike(name)
    case Braced(name) => double && IsNameLike(name)
    case _ => true
  }

  predicate PieceWhole(p: Piece) {
    match p
    case Bare(a) => AtomWhole(a, false)
    case Single(s) => true
    case Double(atoms) => forall i :: 0 <= i < |atoms| ==> AtomWhole(atoms[i], true)
  }

  /** The spelling is one word for the tokenizer, and does not begin a comment. */
  predicate OneWord(ps: seq<Piece>) {
    && AllOk(ps) && (forall i :: 0 <= i < |ps| ==> PieceWhole(ps[i]))
    && 0 < |SpellAll(ps)| < MAX_WORD && SpellAll(ps)[0] != '#'
  }

  lemma {:induction false} TextLength(s: string, rest: string, room: nat, double: bool)
    requires Literal(s, double) && (double || forall i :: 0 <= i < |s| ==> IsInner(s[i])) && room >= |s|
    ensures WordLength(s + rest, room, false, double) == |s| + WordLength(rest, room - |s|, false, double)
    decreases |s|
  {
    if s == "" {
      assert s + rest == rest;
    } else {
      assert (s + rest)[0] == s[0] && (s + rest)[1..] == s[1..] + rest;
      TextLength(s[1..], rest, room - 1, double);
    }
  }

  lemma {:induction false} SingleLength(s: string, rest: string, room: nat)
    requires '\'' !in s && room >= |s| + 1
    ensures WordLength(s + "'" + rest, room, true, false) == |s| + 1 + WordLength(rest, room - |s| - 1, false, false)
    decreases |s|
  {
    var u := s + "'" + rest;
    if s == "" {
      assert u[0] == '\'' && u[1..] == rest;
    } else {
      assert u[0] == s[0] && u[1..] == s[1..] + "'" + rest;
      SingleLength(s[1..], rest, room - 1);
    }
  }

  lemma EscapeLength(c: char, rest: string, room: nat, double: bool)
    requires room >= 2
    ensures WordLength(['\\', c] + rest, room, false, double) == 2 + WordLength(rest, room - 2, false, double)
  {
    var u := ['\\', c] + rest;
    assert u[0] == '\\' && u[2..] == rest;
  }

  /** A spelled `$` form is made of characters that can be written as they are, but for the `$`. */
  lemma {:induction false} DollarLength(form: string, rest: string, room: nat, double: bool)
    requires Literal(form, double) && (double || forall i :: 0 <= i < |form| ==> IsInner(form[i]))
    requires room >= 1 + |form|
    ensures WordLength("$" + form + rest, room, false, double)
         == 1 + |form| + WordLength(rest, room - 1 - |form|, false, double)
  {
    var u := "$" + form + rest;
    assert u[0] == '$' && u[1..] == form + rest;
    TextLength(form, rest, room - 1, double);
  }

  lemma {:induction false} AtomLength(a: Atom, rest: string, room: nat, double: bool)
    requires AtomOk(a, double, rest) && AtomWhole(a, double) && room >= |SpellAtom(a)|
    ensures WordLength(SpellAtom(a) + rest, room, false, double)
         == |SpellAtom(a)| + WordLength(rest, room - |SpellAtom(a)|, false, double)
  {
    hide WordLength, Literal, IsNameLike, IsInner;
    match a
    case Text(s) =>
      TextLength(s, rest, room, double);
    case Escaped(c) =>
      EscapeLength(c, rest, room, double);
    case Variable(name) =>
      NamesAreLiteral(name);
      DollarLength(name, rest, room, double);
    case Braced(name) =>
      assert SpellAtom(a) == "$" + ("{" + name + "}");
      NamesAreLiteral(name);
      DollarLength("{" + name + "}", rest, room, double);
    case Status =>
      assert SpellAtom(a) == "$" + "?";
      NamesAreLiteral("");
      DollarLength("?", rest, room, double);
    case Pid =>
      TwoDollars(rest, room, double);
    case ShellName =>
      assert SpellAtom(a) == "$" + "0";
      NamesAreLiteral("");
      DollarLength("0", rest, room, double);
    case LoneDollar =>
      assert "$" + "" + rest == "$" + rest;
      NamesAreLiteral("");
      DollarLength("", rest, room, double);
  }

  lemma NamesAreLiteral(name: string)
    requires IsNameLike(name)
    ensures forall double :: Literal(name, double)
    ensures Literal("{" + name + "}", true) && forall i :: 0 <= i < |name| ==> IsInner(name[i])
    ensures Literal("?", true) && Literal("?", false) && Literal("0", true) && Literal("0", false)
    ensures IsInner('?') && IsInner('0') && Literal("", true) && Literal("", false)
  {}

  lemma TwoDollars(rest: string, room: nat, double: bool)
    requires room >= 2
    ensures WordLength("$$" + rest, room, false, double) == 2 + WordLength(rest, room - 2, false, double)
  {
    var u := "$$" + rest;
    assert u[0] == '$' && u[1..][0] == '$' && u[1..][1..] == rest;
  }

  lemma {:induction false} AtomsLength(atoms: seq<Atom>, rest: string, room: nat)
    requires AtomsOk(atoms) && (forall i :: 0 <= i < |atoms| ==> AtomWhole(atoms[i], true))
    requires room >= |SpellAtoms(atoms)| + 1
    ensures WordLength(SpellAtoms(atoms) + "\"" + rest, room, false, true)
         == |SpellAtoms(atoms)| + 1 + WordLength(rest, room - |SpellAtoms(atoms)| - 1, false, false)
    decreases |atoms|
  {
    hide AtomOk, AtomWhole, SpellAtom;
    var u := SpellAtoms(atoms) + "\"" + rest;
    if atoms == [] {
      assert u[0] == '"' && u[1..] == rest;
    } else {
      var tail := SpellAtoms(atoms[1..]) + "\"";
      assert u == SpellAtom(atoms[0]) + (tail + rest);
      AtomOkFurther(atoms[0], tail, rest);
      AtomLength(atoms[0], tail + rest, room, true);
      AtomsLength(atoms[1..], rest, room - |SpellAtom(atoms[0])|);
    }
  }

  lemma {:induction false} PieceLength(p: Piece, rest: string, room: nat)
    requires PieceOk(p, rest) && PieceWhole(p) && room >= |SpellPiece(p)|
    ensures WordLength(SpellPiece(p) + rest, room, false, false)
         == |SpellPiece(p)| + WordLength(rest, room - |SpellPiece(p)|, false, false)
  {
    hide AtomOk, AtomWhole, SpellAtom, SpellAtoms;
    var u := SpellPiece(p) + rest;
    match p
    case Bare(a) =>
      AtomLength(a, rest, room, false);
    case Single(s) =>
      assert u[0] == '\'' && u[1..] == s + "'" + rest;
      SingleLength(s, rest, room - 1);
    case Double(atoms) =>
      assert u[0] == '"' && u[1..] == SpellAtoms(atoms) + "\"" + rest;
      AtomsLength(atoms, rest, room - 1);
  }

  /** Nothing that can follow a word is taken for a part of its last piece. */
  predicate Apart(next: string) { next == "" || !(IsNameChar(next[0]) || next[0] in "$?0{") }

  lemma {:induction false} AllLength(ps: seq<Piece>, rest: string, room: nat)
    requires AllOk(ps) && (forall i :: 0 <= i < |ps| ==> PieceWhole(ps[i])) && Apart(rest) && room >= |SpellAll(ps)|
    ensures WordLength(SpellAll(ps) + rest, room, false, false)
         == |SpellAll(ps)| + WordLength(rest, room - |SpellAll(ps)|, false, false)
    decreases |ps|
  {
    hide PieceWhole, SpellPiece, WordLength;
    if ps == [] {
      assert SpellAll(ps) + rest == rest;
    } else {
      var tail := SpellAll(ps[1..]);
      assert SpellAll(ps) + rest == SpellPiece(ps[0]) + (tail + rest);
      PieceOkFurther(ps[0], tail, rest);
      PieceLength(ps[0], tail + rest, room);
      AllLength(ps[1..], rest, room - |SpellPiece(ps[0])|);
    }
  }

  lemma PieceOkFurther(p: Piece, next: string, rest: string)
    requires PieceOk(p, next) && Apart(rest)
    ensures PieceOk(p, next + rest)
  {
    assert next != "" ==> (next + rest)[0] == next[0];
    assert next == "" ==> next + rest == rest;
  }

  /** The tokenizer reads a spelled word in one piece. */
  lemma {:induction false} PiecesReadBack(ps: seq<Piece>, rest: string)
    requires OneWord(ps)
    ensures ReadTok(SpellAll(ps) + " " + rest) == (Word(SpellAll(ps)), |SpellAll(ps)|)
  {
    hide AllOk, SpellAll, PieceWhole, WordLength;
    var w := SpellAll(ps);
    var u := w + " " + rest;
    assert u == w + (" " + rest);
    AllLength(ps, " " + rest, MAX_WORD - 1);
    WordStops(" " + rest, MAX_WORD - 1 - |w|);
    assert WordLength(u, MAX_WORD - 1, false, false) == |w|;
    BeginsWord(u);
    assert u[..|w|] == w;
  }

  lemma BeginsWord(u: string)
    requires u != "" && u[0] != '#' && WordLength(u, MAX_WORD - 1, false, false) > 0
    ensures var n := WordLength(u, MAX_WORD - 1, false, false); ReadTok(u) == (Word(u[..n]), n)
  {
    assert !IsSpace(u[0]) && !IsSpecial(u[0]);
    assert Skipped(u) == 0 && u[0..] == u;
    assert Operator(u).None?;
  }
}
