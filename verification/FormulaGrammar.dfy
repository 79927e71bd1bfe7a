/** Which bottle blocks the composer and the digest tool read: the exact languages, by spelling lines out. */
module FormulaGrammar {
  import opened Options
  import Decimal
  import opened FormulaBlock
  import opened FormulaCompose
  import opened FormulaIdentity
  import opened FormulaEquivalence

  // ------------------------------------------------------------------
  // One line
  // ------------------------------------------------------------------

  function SpellLine(l: Line): string {
    match l
    case Root(url) => "    root_url \"" + url + "\"\n"
    case Rebuild(n) => "    rebuild " + Decimal.Write(n) + "\n"
    case Sha(tag, pour) => "    sha256 cellar: " + pour.cellar + (", " + TagText(tag) + ": \"" + pour.digest + "\"\n")
    case Unsupported => ""
  }

  /** What can be said on a line. */
  predicate IsSaid(l: Line) {
    match l
    case Root(url) => Unquoted(url)
    case Rebuild(_) => true
    case Sha(_, pour) => IsPour(pour)
    case Unsupported => false
  }

  lemma {:induction false} WriteRead(s: string)
    requires IsNumeral(s)
    ensures Decimal.Write(Decimal.Read(s)) == s
    decreases |s|
  {
    if |s| == 1 {
      assert s[..0] == "" && Decimal.Read("") == 0;
      assert Decimal.Read(s) == (s[0] - '0') as int;
      assert s == [s[0]];
    } else {
      var init, d := s[..|s| - 1], (s[|s| - 1] - '0') as int;
      assert init[0] == s[0] != '0';
      WriteRead(init);
      ReadIsPositive(init);
      assert Decimal.Read(s) == 10 * Decimal.Read(init) + d;
      assert Decimal.Read(s) / 10 == Decimal.Read(init) && Decimal.Read(s) % 10 == d;
      assert s == init + [s[|s| - 1]];
    }
  }

  lemma {:induction false} ReadIsPositive(s: string)
    requires Decimal.AllDigits(s) && s != "" && s[0] != '0'
    ensures Decimal.Read(s) > 0
    decreases |s|
  {
    if |s| > 1 {
      assert s[..|s| - 1][0] == s[0];
      ReadIsPositive(s[..|s| - 1]);
    } else {
      assert s[..0] == "" && Decimal.Read("") == 0;
    }
  }

  lemma {:induction false} BetweenThere(s: string, front: string, back: string)
    requires Between(s, front, back).Some?
    ensures s == front + Between(s, front, back).value + back
  {
    assert s == s[..|front|] + s[|front|..|s| - |back|] + s[|s| - |back|..];
  }

  lemma {:induction false} ShaThere(s: string)
    requires |s| >= 104 && "    sha256 cellar: " <= s && ShaParts(s).Some?
    ensures s == SpellLine(Sha(ShaParts(s).value.0, Pour(s[19..|s| - 85], ShaParts(s).value.1)))
  {
    var t := s[|s| - 85..];
    var (tag, digest) := ShaParts(s).value;
    assert t == t[..2] + t[2..16] + t[16..19] + t[19..83] + t[83..];
    assert t == ", " + TagText(tag) + ": \"" + digest + "\"\n";
    assert s == s[..19] + s[19..|s| - 85] + t;
    assert s[..19] == "    sha256 cellar: ";
  }

  /** A line is taken for what it says, and for nothing that it does not say. */
  lemma {:induction false} ClassifyIff(line: string, l: Line)
    requires !l.Unsupported?
    ensures Classify(line) == l <==> IsSaid(l) && line == SpellLine(l)
  {
    if Classify(line) == l { ClassifiedIsSaid(line); }
    if IsSaid(l) && line == SpellLine(l) {
      match l
      case Root(url) =>
        RootLineBack(url);
      case Rebuild(n) =>
        RebuildLineBack(n);
      case Sha(tag, pour) =>
        ShaLineBack(tag, pour);
    }
  }

  lemma {:induction false} ClassifiedIsSaid(line: string)
    requires !Classify(line).Unsupported?
    ensures IsSaid(Classify(line)) && line == SpellLine(Classify(line))
  {
    hide Between, ShaParts, Decimal.Read, Decimal.Write, IsCellar;
    match Classify(line)
    case Root(url) =>
      BetweenThere(line, "    root_url \"", "\"\n");
    case Rebuild(n) =>
      BetweenThere(line, "    rebuild ", "\n");
      WriteRead(Between(line, "    rebuild ", "\n").value);
    case Sha(tag, pour) =>
      ShaThere(line);
      DigestOf(line);
  }

  lemma DigestOf(s: string)
    requires ShaParts(s).Some?
    ensures IsDigest(ShaParts(s).value.1)
  {}

  // ------------------------------------------------------------------
  // A block for the composer
  // ------------------------------------------------------------------

  function SpellLines(ls: seq<Line>): (s: seq<string>)
    ensures |s| == |ls|
  {
    seq(|ls|, i requires 0 <= i < |ls| => SpellLine(ls[i]))
  }

  /** The two lines cannot be in one block. */
  predicate Clash(a: Line, b: Line) {
    (a.Root? && b.Root?) || (a.Rebuild? && b.Rebuild?) || (a.Sha? && b.Sha? && a.tag == b.tag)
  }

  /** Lines that can be in one block, in any order. */
  predicate Lawful(ls: seq<Line>) {
    && (forall i :: 0 <= i < |ls| ==> IsSaid(ls[i]))
    && (forall i, j :: 0 <= i < j < |ls| ==> !Clash(ls[i], ls[j]))
  }

  /** What the lines say together. */
  ghost predicate Tells(ls: seq<Line>, f: Facts) {
    && (forall url :: Root(url) in ls <==> f.root == Some(url))
    && (forall n :: Rebuild(n) in ls <==> f.rebuildSeen && f.rebuild == n)
    && (!f.rebuildSeen ==> f.rebuild == 0)
    && (forall t, p :: Sha(t, p) in ls <==> t in f.tags && f.tags[t] == p)
  }

  /** The next line can come behind what is known. */
  predicate Free(f: Facts, l: Line) {
    match l
    case Root(_) => f.root.None?
    case Rebuild(_) => !f.rebuildSeen
    case Sha(t, _) => t !in f.tags
    case Unsupported => false
  }

  function Take(f: Facts, l: Line): Facts {
    match l
    case Root(url) => f.(root := Some(url))
    case Rebuild(n) => f.(rebuild := n, rebuildSeen := true)
    case Sha(t, p) => f.(tags := f.tags[t := p])
    case Unsupported => f
  }

  lemma {:induction false} TellsMore(ls: seq<Line>, f: Facts, l: Line)
    requires Tells(ls, f) && Free(f, l)
    ensures Tells(ls + [l], Take(f, l))
  {
    var more, g := ls + [l], Take(f, l);
    assert forall m :: m in more <==> m in ls || m == l;
  }

  lemma {:induction false} FreeIff(ls: seq<Line>, f: Facts, l: Line)
    requires Tells(ls, f) && IsSaid(l)
    ensures Free(f, l) <==> forall i :: 0 <= i < |ls| ==> !Clash(ls[i], l)
  {
    if Free(f, l) {
      forall i | 0 <= i < |ls| ensures !Clash(ls[i], l) {
        assert ls[i] in ls;
      }
    } else {
      var m := match l case Root(_) => Root(f.root.value) case Rebuild(_) => Rebuild(f.rebuild)
                       case Sha(t, _) => Sha(t, f.tags[t]);
      assert m in ls;
      var i :| 0 <= i < |ls| && ls[i] == m;
      assert Clash(ls[i], l);
    }
  }

  lemma LearnIs(f: Facts, line: string)
    ensures Learn(f, line) == if Free(f, Classify(line)) then Some(Take(f, Classify(line))) else None
  {
    hide Classify;
  }

  lemma {:induction false} LearnLast(f: Facts, lines: seq<string>, line: string)
    ensures LearnAll(f, lines + [line])
         == if LearnAll(f, lines).Some? then Learn(LearnAll(f, lines).value, line) else None
    decreases |lines|
  {
    hide Classify;
    LearnJoin(f, lines, [line]);
    if LearnAll(f, lines).Some? { LearnOne(LearnAll(f, lines).value, line); }
  }

  /** The composer learns from lines if and only if they are lawful, and then what they say. */
  lemma {:induction false} LearnedIff(ls: seq<Line>)
    requires forall i :: 0 <= i < |ls| ==> IsSaid(ls[i])
    ensures LearnAll(NoFacts(), SpellLines(ls)).Some? <==> Lawful(ls)
    ensures LearnAll(NoFacts(), SpellLines(ls)).Some? ==> Tells(ls, LearnAll(NoFacts(), SpellLines(ls)).value)
    decreases |ls|
  {
    hide SpellLine, Classify, Learn, IsSaid, Tells, Clash, Free, Take;
    if ls == [] {
      NothingSaid();
    } else {
      var init, l := ls[..|ls| - 1], ls[|ls| - 1];
      LearnedIff(init);
      assert SpellLines(ls) == SpellLines(init) + [SpellLine(l)] && ls == init + [l];
      LearnLast(NoFacts(), SpellLines(init), SpellLine(l));
      assert !l.Unsupported? by { SaidIsSupported(l); }
      ClassifyIff(SpellLine(l), l);
      if LearnAll(NoFacts(), SpellLines(init)).Some? {
        var f := LearnAll(NoFacts(), SpellLines(init)).value;
        LearnIs(f, SpellLine(l));
        FreeIff(init, f, l);
        if Free(f, l) { TellsMore(init, f, l); }
      }
    }
  }

  lemma SaidIsSupported(l: Line)
    requires IsSaid(l)
    ensures !l.Unsupported?
  {}

  lemma NothingSaid()
    ensures SpellLines([]) == [] && LearnAll(NoFacts(), []) == Some(NoFacts()) && Tells([], NoFacts())
  {}

  /** The lines that say it, as they were read. */
  function Readings(lines: seq<string>): (ls: seq<Line>)
    ensures |ls| == |lines|
  {
    seq(|lines|, i requires 0 <= i < |lines| => Classify(lines[i]))
  }

  lemma {:induction false} LearnedAreSupported(f: Facts, lines: seq<string>, i: nat)
    requires LearnAll(f, lines).Some? && i < |lines|
    ensures !Classify(lines[i]).Unsupported?
    decreases |lines|
  {
    hide Classify;
    if i > 0 { LearnedAreSupported(Learn(f, lines[0]).value, lines[1..], i - 1); }
  }

  lemma {:induction false} LearnedAreSaid(lines: seq<string>)
    requires LearnAll(NoFacts(), lines).Some?
    ensures lines == SpellLines(Readings(lines)) && Lawful(Readings(lines))
    ensures Tells(Readings(lines), LearnAll(NoFacts(), lines).value)
  {
    hide Classify, SpellLine, IsSaid, Tells, Lawful, LearnAll;
    forall i | 0 <= i < |lines| ensures IsSaid(Classify(lines[i])) && lines[i] == SpellLine(Classify(lines[i])) {
      LearnedAreSupported(NoFacts(), lines, i);
      ClassifiedIsSaid(lines[i]);
    }
    assert lines == SpellLines(Readings(lines));
    LearnedIff(Readings(lines));
  }

  /** A block as the composer wants it: a root, and no rebuild 0. */
  ghost predicate Composable(ls: seq<Line>) { Lawful(ls) && (exists url :: Root(url) in ls) && Rebuild(0) !in ls }

  function BlockOf(ls: seq<Line>): seq<string> { [DO] + SpellLines(ls) + [END] }

  lemma SaidIsInside(l: Line)
    requires IsSaid(l)
    ensures SpellLine(l) != DO && SpellLine(l) != END
  {
    assert SpellLine(l)[2] == ' ' && DO[2] == 'b' && END[2] == 'e';
  }

  lemma {:induction false} BlockOfIsBlock(ls: seq<Line>)
    requires forall i :: 0 <= i < |ls| ==> IsSaid(ls[i])
    ensures IsBlock(BlockOf(ls)) && BlockOf(ls)[1..|BlockOf(ls)| - 1] == SpellLines(ls)
  {
    hide SpellLine, IsSaid;
    var b, inside := BlockOf(ls), SpellLines(ls);
    forall i | 0 <= i < |ls| ensures inside[i] != DO && inside[i] != END { SaidIsInside(ls[i]); }
    assert b[1..] == inside + [END] && b[1..|b| - 1] == inside;
    assert DO != END by { assert DO[2] == 'b' && END[2] == 'e'; }
  }

  /** Where the composer finds a block, whatever is in it. */
  lemma {:induction false} ParseParts(lines: seq<string>, p: seq<string>, b: seq<string>, q: seq<string>)
    requires Surrounds(lines, p, b, q)
    ensures var facts := LearnAll(NoFacts(), b[1..|b| - 1]);
            Parse(lines) == if facts.None? || !Sound(facts.value) then None
                            else Some(Some(Block(|p|, |p| + |b| - 1, facts.value.root.value, facts.value.rebuild,
                                                 facts.value.tags)))
  {
    hide Find, LearnAll;
    var n, inside := |p|, b[1..|b| - 1];
    assert b == [DO] + b[1..] && b == [DO] + inside + [END];
    assert lines == p + [DO] + (b[1..] + q);
    assert p[0..] == p;
    FindHere(p, DO, b[1..] + q, 0);
    assert lines[n + 1..] == b[1..] + q;
    FindNowhere(lines, DO, n + 1);
    var front := p + [DO] + inside;
    assert lines == front + [END] + q;
    assert front[n + 1..] == inside;
    FindHere(front, END, q, n + 1);
    assert lines[n + 1..|front|] == inside;
  }

  /** The composer reads a block of such lines, in any order and in any surroundings, ... */
  lemma {:induction false} ComposableIsParsed(p: seq<string>, ls: seq<Line>, q: seq<string>)
    requires DO !in p && DO !in q && forall i :: 0 <= i < |ls| ==> IsSaid(ls[i])
    ensures var r := Parse(p + BlockOf(ls) + q);
            && (r.Some? <==> Composable(ls))
            && (r.Some? ==> && r.value.Some? && r.value.value.first == |p| && r.value.value.last == |p| + |ls| + 1
                            && Root(r.value.value.root) in ls
                            && (Rebuild(r.value.value.rebuild) in ls || r.value.value.rebuild == 0)
                            && forall t, pour :: Sha(t, pour) in ls
                                           <==> t in r.value.value.tags && r.value.value.tags[t] == pour)
  {
    hide SpellLine, IsSaid, Parse, LearnAll, IsBlock, Lawful;
    BlockOfIsBlock(ls);
    ParseParts(p + BlockOf(ls) + q, p, BlockOf(ls), q);
    LearnedIff(ls);
    if LearnAll(NoFacts(), SpellLines(ls)).Some? {
      var f := LearnAll(NoFacts(), SpellLines(ls)).value;
      assert f.root.Some? ==> Root(f.root.value) in ls;
      assert f.rebuildSeen ==> Rebuild(f.rebuild) in ls;
      assert Rebuild(0) in ls <==> f.rebuildSeen && f.rebuild == 0;
    }
  }

  /** ... and no other. */
  lemma {:induction false} ParsedIsComposable(lines: seq<string>)
    requires Parse(lines).Some? && Parse(lines).value.Some?
    ensures var b := Parse(lines).value.value;
            var p, ls, q := lines[..b.first], Readings(lines[b.first + 1..b.last]), lines[b.last + 1..];
            lines == p + BlockOf(ls) + q && Composable(ls) && DO !in p && DO !in q
  {
    hide Classify, SpellLine, IsSaid, Find, LearnAll;
    var b := Parse(lines).value.value;
    var inside := lines[b.first + 1..b.last];
    assert LearnAll(NoFacts(), inside).Some?;
    LearnedAreSaid(inside);
    var f := LearnAll(NoFacts(), inside).value;
    assert Root(f.root.value) in Readings(inside);
    assert lines == lines[..b.first] + ([DO] + inside + [END]) + lines[b.last + 1..];
  }

  /** And it finds no block exactly where no line begins one. */
  lemma {:induction false} NoBlockIff(lines: seq<string>)
    ensures Parse(lines) == Some(None) <==> DO !in lines
  {
    if DO !in lines { PlainIsParsed(lines); }
  }

  // ------------------------------------------------------------------
  // A block for the digest tool
  // ------------------------------------------------------------------

  function RootsIn(ls: seq<Line>): nat {
    if ls == [] then 0 else RootsIn(ls[..|ls| - 1]) + (if ls[|ls| - 1].Root? then 1 else 0)
  }

  function RebuildsIn(ls: seq<Line>): nat {
    if ls == [] then 0 else RebuildsIn(ls[..|ls| - 1]) + (if ls[|ls| - 1].Rebuild? then 1 else 0)
  }

  function ShasIn(ls: seq<Line>): nat {
    if ls == [] then 0 else ShasIn(ls[..|ls| - 1]) + (if ls[|ls| - 1].Sha? then 1 else 0)
  }

  /** The digest tool wants a root of the registry and no rebuild 0. */
  predicate Strict(l: Line) { (l.Root? ==> IsRoot(l.url)) && (l.Rebuild? ==> l.n > 0) }

  lemma {:induction false} CountLast(n: Counts, lines: seq<string>, line: string)
    ensures CountLines(n, lines + [line])
         == if CountLines(n, lines).Some? then CountLine(CountLines(n, lines).value, line) else None
    decreases |lines|
  {
    hide Classify;
    if lines == [] {
      assert lines + [line] == [line] && [line][1..] == [];
      OneCounted(n, line);
    } else {
      assert (lines + [line])[0] == lines[0] && (lines + [line])[1..] == lines[1..] + [line];
      if CountLine(n, lines[0]).Some? { CountLast(CountLine(n, lines[0]).value, lines[1..], line); }
    }
  }

  lemma OneCounted(n: Counts, line: string)
    ensures CountLines(n, [line]) == CountLine(n, line)
  {
    hide Classify;
    assert [line][1..] == [];
    if CountLine(n, line).Some? { assert CountLines(CountLine(n, line).value, []) == Some(CountLine(n, line).value); }
  }

  lemma {:induction false} CountedIff(ls: seq<Line>)
    requires forall i :: 0 <= i < |ls| ==> IsSaid(ls[i])
    ensures var r := CountLines(Counts(0, 0, 0), SpellLines(ls));
            && (r.Some? <==> forall i :: 0 <= i < |ls| ==> Strict(ls[i]))
            && (r.Some? ==> r.value == Counts(RootsIn(ls), RebuildsIn(ls), ShasIn(ls)))
    decreases |ls|
  {
    hide SpellLine, Classify, IsSaid, IsRoot;
    if ls != [] {
      var init, l := ls[..|ls| - 1], ls[|ls| - 1];
      CountedIff(init);
      assert SpellLines(ls) == SpellLines(init) + [SpellLine(l)];
      CountLast(Counts(0, 0, 0), SpellLines(init), SpellLine(l));
      assert !l.Unsupported? by { SaidIsSupported(l); }
      ClassifyIff(SpellLine(l), l);
      assert forall i :: 0 <= i < |init| ==> init[i] == ls[i];
    }
  }

  /** The digest tool reads a block exactly if it has one root, of the registry, at most one rebuild, not 0,
      and one or two bottles; it does not look whether they are for the same tag. */
  lemma {:induction false} LocatedIff(p: seq<string>, ls: seq<Line>, q: seq<string>)
    requires DO !in p && DO !in q && forall i :: 0 <= i < |ls| ==> IsSaid(ls[i])
    ensures Locate(p + BlockOf(ls) + q).Some?
       <==> && (forall i :: 0 <= i < |ls| ==> Strict(ls[i]))
            && RootsIn(ls) == 1 && RebuildsIn(ls) <= 1 && 1 <= ShasIn(ls) <= 2
  {
    hide SpellLine, IsSaid, Locate, CountLines, IsBlock, Strict;
    BlockOfIsBlock(ls);
    LocateParts(p + BlockOf(ls) + q, p, BlockOf(ls), q);
    CountedIff(ls);
  }

  /** So a block with one tag twice is read by the digest tool, and the composer aborts over it. */
  lemma {:induction false} RepeatedTag(p: seq<string>, q: seq<string>, url: string, t: Tag, a: Pour, b: Pour)
    requires DO !in p && DO !in q && IsRoot(url) && Unquoted(url) && IsPour(a) && IsPour(b)
    ensures var lines := p + BlockOf([Root(url), Sha(t, a), Sha(t, b)]) + q;
            Locate(lines).Some? && Parse(lines) == None
  {
    hide SpellLine, Locate, Parse, IsPour, Unquoted, IsRoot, BlockOf;
    var ls := [Root(url), Sha(t, a), Sha(t, b)];
    assert Clash(ls[1], ls[2]);
    assert !Composable(ls);
    ComposableIsParsed(p, ls, q);
    assert ls[..2] == [Root(url), Sha(t, a)] && ls[..2][..1] == [Root(url)] && [Root(url)][..0] == [];
    assert RootsIn([Root(url)]) == 1 && ShasIn([Root(url)]) == 0 && RebuildsIn([Root(url)]) == 0;
    assert RootsIn(ls[..2]) == 1 && ShasIn(ls[..2]) == 1 && RebuildsIn(ls[..2]) == 0;
    LocatedIff(p, ls, q);
  }
}
