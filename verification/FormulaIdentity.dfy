/** scripts/homebrew-formula-source-digest.rb: when two Formula sources are the same but for their
    bottles. */
module FormulaIdentity {
  import opened Options
  import opened Sequences
  import opened FormulaBlock
  import opened FormulaCompose

  // ------------------------------------------------------------------
  // The digest tool's own reading of a block
  // ------------------------------------------------------------------

  /** What the three counters of the parsing loop hold. */
  datatype Counts = Counts(roots: nat, rebuilds: nat, tags: nat)

  /** One line of a block; None is an abort. This tool wants a registry URL and no rebuild 0. */
  function CountLine(n: Counts, line: string): Option<Counts> {
    match Classify(line)
    case Root(url) => if IsRoot(url) then Some(n.(roots := n.roots + 1)) else None
    case Rebuild(k) => if k > 0 then Some(n.(rebuilds := n.rebuilds + 1)) else None
    case Sha(_, _) => Some(n.(tags := n.tags + 1))
    case Unsupported => None
  }

  function CountLines(n: Counts, lines: seq<string>): Option<Counts>
    decreases |lines|
  {
    if lines == [] then Some(n)
    else
      match CountLine(n, lines[0])
      case None => None
      case Some(n') => CountLines(n', lines[1..])
  }

  predicate Canonical(n: Counts) { n.roots == 1 && n.rebuilds <= 1 && 1 <= n.tags <= 2 }

  datatype Range = Range(first: nat, last: nat)

  /** parse_formula of this tool: None is an abort, Some(None) a source without a block. */
  function Locate(lines: seq<string>): (r: Option<Option<Range>>)
    ensures r.Some? && r.value.Some? ==> r.value.value.first < r.value.value.last < |lines|
  {
    var first := Find(lines, DO, 0);
    if first == |lines| then Some(None)
    else if Find(lines, DO, first + 1) < |lines| then None
    else
      var last := Find(lines, END, first + 1);
      if last == |lines| then None
      else
        var counts := CountLines(Counts(0, 0, 0), lines[first + 1..last]);
        if counts.None? || !Canonical(counts.value) then None else Some(Some(Range(first, last)))
  }

  /** A source this tool has read. */
  datatype Source = Source(lines: seq<string>, range: Option<Range>)

  ghost predicate IsSource(s: Source) { Locate(s.lines) == Some(s.range) }

  function WithoutBlock(s: Source): seq<string>
    requires s.range.Some? ==> s.range.value.first <= s.range.value.last < |s.lines|
  {
    match s.range
    case None => s.lines
    case Some(r) => s.lines[..r.first] + s.lines[r.last + 1..]
  }

  // ------------------------------------------------------------------
  // Equivalence
  // ------------------------------------------------------------------

  function Delete<T>(s: seq<T>, i: nat): seq<T>
    requires i < |s|
  {
    s[..i] + s[i + 1..]
  }

  /** The sources a block may have been put into: without the block, and without the blank line
      before it, behind it, or both. */
  function Variants(s: Source): seq<seq<string>>
    requires IsSource(s) && s.range.Some?
  {
    var stripped, at := WithoutBlock(s), s.range.value.first;
    var before := at > 0 && stripped[at - 1] == BLANK;
    var after := at < |stripped| && stripped[at] == BLANK;
    [stripped]
    + (if after then [Delete(stripped, at)] else [])
    + (if before then [Delete(stripped, at - 1)] else [])
    + (if before && after then [Delete(Delete(stripped, at), at - 1)] else [])
  }

  /** equivalent_excluding_bottle? */
  predicate Equivalent(left: Source, right: Source)
    requires IsSource(left) && IsSource(right)
  {
    if left.range.Some? == right.range.Some? then WithoutBlock(left) == WithoutBlock(right)
    else if left.range.Some? then right.lines in Variants(left)
    else left.lines in Variants(right)
  }

  // ------------------------------------------------------------------
  // Identity
  // ------------------------------------------------------------------

  /** Where the blank lines in front of line `e` begin. */
  function BlankStart(lines: seq<string>, e: nat): (b: nat)
    requires e <= |lines|
    ensures b <= e && forall i :: b <= i < e ==> lines[i] == BLANK
    ensures b > 0 ==> lines[b - 1] != BLANK
  {
    if e > 0 && lines[e - 1] == BLANK then BlankStart(lines, e - 1) else e
  }

  /** source_identity_without_bottle; None is an abort. */
  function Identity(ends: ClassEnd, s: Source): Option<seq<string>>
    requires IsSource(s)
  {
    var lines := WithoutBlock(s);
    match ends(lines)
    case None => None
    case Some(e) =>
      if e > |lines| then None
      else
        var b := BlankStart(lines, e);
        if s.range.Some? && b < e then
          var fewer := Delete(lines, e - 1);
          Some(if b == e - 1 then InsertAt(fewer, e - 1, [BLANK]) else fewer)
        else Some(if b == e then InsertAt(lines, e, [BLANK]) else lines)
  }

  method FindBlankStart(lines: seq<string>, classEnd: nat) returns (b: nat)
    requires classEnd <= |lines|
    ensures b == BlankStart(lines, classEnd)
  {
    b := classEnd;
    while b > 0 && lines[b - 1] == BLANK
      invariant 0 <= b <= classEnd && BlankStart(lines, b) == BlankStart(lines, classEnd)
    {
      b := b - 1;
    }
  }

  /** The same with the list edits of the script. */
  method IdentityLines(ends: ClassEnd, s: Source) returns (r: Option<seq<string>>)
    requires IsSource(s)
    ensures r == Identity(ends, s)
  {
    hide Locate, BlankStart, InsertAt, Delete;
    var lines := WithoutBlock(s);
    var end := ends(lines);
    if end.None? || end.value > |lines| {
      return None;
    }
    var classEnd := end.value;
    var blankStart := FindBlankStart(lines, classEnd);
    if s.range.Some? && blankStart < classEnd {
      DeleteLength(lines, classEnd - 1);
      lines := Delete(lines, classEnd - 1);
      classEnd := classEnd - 1;
    }
    if blankStart == classEnd {
      lines := InsertAt(lines, classEnd, [BLANK]);
    }
    return Some(lines);
  }

  lemma DeleteLength(s: seq<string>, i: nat)
    requires i < |s|
    ensures |Delete(s, i)| == |s| - 1
  {}

  datatype Match = Exact | BlockRemoved | NoMatch

  /** receipt_match_kind; an abort of the identity is no match. */
  function ReceiptMatch(ends: ClassEnd, selected: Source, receipt: Source): Match
    requires IsSource(selected) && IsSource(receipt)
  {
    if selected.lines == receipt.lines then Exact
    else if selected.range.None? || receipt.range.Some? then NoMatch
    else if Identity(ends, selected) == Some(receipt.lines) then BlockRemoved
    else NoMatch
  }

  // ------------------------------------------------------------------
  // Which of the composer's sources the digest tool reads
  // ------------------------------------------------------------------

  /** The two loops over the lines of a block, side by side. */
  predicate SideBySide(f: Facts, n: Counts) {
    && n.roots == (if f.root.Some? then 1 else 0)
    && n.rebuilds == (if f.rebuildSeen then 1 else 0)
    && n.tags == |f.tags|
  }

  /** What the digest tool has to say against the lines so far. */
  predicate Blameless(f: Facts) {
    (f.root.Some? ==> IsRoot(f.root.value)) && (f.rebuildSeen ==> f.rebuild > 0)
  }

  /** What has been learned stays. */
  lemma {:induction false} LearnedStays(f: Facts, lines: seq<string>)
    requires LearnAll(f, lines).Some?
    ensures var g := LearnAll(f, lines).value;
            && (f.root.Some? ==> g.root == f.root) && (f.rebuildSeen ==> g.rebuildSeen && g.rebuild == f.rebuild)
            && forall t :: t in f.tags ==> t in g.tags && g.tags[t] == f.tags[t]
    decreases |lines|
  {
    hide Classify;
    if lines != [] { LearnedStays(Learn(f, lines[0]).value, lines[1..]); }
  }

  lemma {:induction false} CountedIffBlameless(f: Facts, n: Counts, lines: seq<string>)
    requires SideBySide(f, n) && Blameless(f) && LearnAll(f, lines).Some?
    ensures var g, m := LearnAll(f, lines).value, CountLines(n, lines);
            (m.Some? <==> Blameless(g)) && (m.Some? ==> SideBySide(g, m.value))
    decreases |lines|
  {
    hide Classify, IsRoot;
    if lines != [] {
      var f', n' := Learn(f, lines[0]).value, CountLine(n, lines[0]);
      LearnedStays(f', lines[1..]);
      if n'.Some? {
        CountedIffBlameless(f', n'.value, lines[1..]);
      }
    }
  }

  lemma {:induction false} AtMostTwoTags(tags: Tags)
    ensures |tags| <= 2 && (|tags| >= 1 <==> tags != map[])
  {
    var both := {Wasm32, Wasm64};
    forall t: Tag ensures t in both {
      match t case Wasm32 => case Wasm64 =>
    }
    SubsetSize(tags.Keys, both);
  }

  /** The block is one the digest tool takes: from the registry, and with a bottle. */
  predicate Published(b: Option<Block>) { b.Some? ==> IsRoot(b.value.root) && b.value.tags != map[] }

  /** Of the sources the composer can read, the digest tool reads exactly those whose block is from
      the registry and has a bottle, and finds the block in the same place. */
  lemma {:induction false} LocateIff(lines: seq<string>)
    requires Parse(lines).Some?
    ensures Locate(lines).Some? <==> Published(Parse(lines).value)
    ensures Locate(lines).Some? ==>
              Locate(lines).value == match Parse(lines).value
                                     case None => None
                                     case Some(b) => Some(Range(b.first, b.last))
  {
    hide LearnAll, CountLines, Find, IsRoot;
    if Parse(lines).value.Some? {
      var b := Parse(lines).value.value;
      var inside := lines[b.first + 1..b.last];
      CountedIffBlameless(NoFacts(), Counts(0, 0, 0), inside);
      AtMostTwoTags(b.tags);
    }
  }

  lemma NotFromRegistry(root: string, i: nat)
    requires i < |root| && i < |REGISTRY| && root[i] != REGISTRY[i]
    ensures !IsRoot(root)
  {
    assert |REGISTRY| <= |root| ==> root[..|REGISTRY|][i] == root[i];
  }

  lemma {:induction false} LocateRendered(before: seq<string>, after: seq<string>, root: string, rebuild: nat,
                                          tags: Tags)
    requires DO !in before && DO !in after && Unquoted(root) && AllPours(tags)
    ensures var lines := before + Render(root, rebuild, tags) + after;
            && Parse(lines).Some? && Parse(lines).value.Some?
            && Parse(lines).value.value.root == root && Parse(lines).value.value.rebuild == rebuild
            && Parse(lines).value.value.tags == tags
            && (Locate(lines).Some? <==> IsRoot(root) && tags != map[])
  {
    hide Render, Parse, Locate, IsRoot;
    ParseRendered(before, after, root, rebuild, tags);
    LocateIff(before + Render(root, rebuild, tags) + after);
  }

  lemma {:induction false} LocateComposed(ends: ClassEnd, current: seq<string>, planned: seq<string>, a: Publication)
    requires Valid(a) && Compose(ends, current, planned, a).Some?
    ensures var x := Compose(ends, current, planned, a).value;
            var (before, after) := Around(ends, current).value;
            && Locate(x).Some? && Locate(x).value.Some? && Locate(x).value.value.first == |before|
            && WithoutBlock(Source(x, Locate(x).value)) == before + after
  {
    hide Parse, Locate, Render, Refused, Edited, Around, IsRoot;
    var x := Compose(ends, current, planned, a).value;
    ParseComposed(ends, current, planned, a);
    ComposedShape(ends, current, planned, a);
    var (before, after) := Around(ends, current).value;
    var tags := NewTags(Parse(current).value, a);
    var rendered := Render(a.root, a.rebuild, tags);
    assert a.tag in tags;
    LocateIff(x);
    assert x[..|before|] == before && x[|before| + |rendered|..] == after;
  }

  // ------------------------------------------------------------------
  // Composing changes nothing but the block
  // ------------------------------------------------------------------

  lemma {:induction false} AroundOfBlock(ends: ClassEnd, current: seq<string>)
    requires Parse(current).Some? && Parse(current).value.Some? && Locate(current).Some?
    ensures var (before, after) := Around(ends, current).value;
            WithoutBlock(Source(current, Locate(current).value)) == before + after
  {
    hide Parse, Locate;
    LocateIff(current);
  }

  lemma {:induction false} InsertedBlanks(lines: seq<string>, e: nat, gap: seq<string>)
    requires e <= |lines| && gap == if e > 0 && lines[e - 1] == BLANK then [] else [BLANK]
    ensures lines[..e] + gap + ([BLANK] + lines[e..])
         == (if gap == [] then InsertAt(lines, e, [BLANK]) else InsertAt(InsertAt(lines, e, [BLANK]), e + 1, [BLANK]))
  {
    var front, back := lines[..e], lines[e..];
    var one := InsertAt(lines, e, [BLANK]);
    assert one[..e + 1] == front + [BLANK] && one[e + 1..] == back;
    assert front + [] + ([BLANK] + back) == front + [BLANK] + back;
    assert front + [BLANK] + ([BLANK] + back) == front + [BLANK] + [BLANK] + back;
  }

  /** The digest tool can read both sources, and finds them equivalent. */
  predicate FoundEquivalent(x: seq<string>, y: seq<string>) {
    Locate(x).Some? && Locate(y).Some? && Equivalent(Source(x, Locate(x).value), Source(y, Locate(y).value))
  }

  /** Whatever the composer writes, the digest tool finds equivalent to what the composer was given,
      exactly if a block that was there is from the registry and has a bottle. */
  lemma {:induction false} ComposedIsEquivalent(ends: ClassEnd, current: seq<string>, planned: seq<string>,
                                                a: Publication)
    requires Valid(a) && Compose(ends, current, planned, a).Some?
    ensures FoundEquivalent(Compose(ends, current, planned, a).value, current) <==> Published(Parse(current).value)
  {
    hide Locate, Parse, Refused, Edited, Render;
    var x := Compose(ends, current, planned, a).value;
    LocateComposed(ends, current, planned, a);
    LocateIff(current);
    if Locate(current).Some? {
      if Parse(current).value.Some? {
        AroundOfBlock(ends, current);
      } else {
        ComposedShape(ends, current, planned, a);
        var e := ends(current).value;
        var gap := if e > 0 && current[e - 1] == BLANK then [] else [BLANK];
        VariantOfInsertion(current, e, gap, Source(x, Locate(x).value));
      }
    }
  }

  lemma {:induction false} FillsBlock(ends: ClassEnd, lines: seq<string>, a: Publication)
    requires Parse(lines).Some? && Parse(lines).value.Some? && a.tag !in Parse(lines).value.value.tags
    requires a.preserve ==> Parse(lines).value.value.root == a.root && Parse(lines).value.value.rebuild == a.rebuild
    ensures Compose(ends, lines, lines, a).Some?
  {
    hide Parse, Render;
  }

  lemma OutsideRegistry()
    ensures Unquoted("https://example.org") && !IsRoot("https://example.org")
  {
    var root := "https://example.org";
    assert root[8] == 'e' && REGISTRY[8] == 'g';
    NotFromRegistry(root, 8);
  }

  /** It fails, wherever the block stands, for a block from elsewhere, which the composer replaces when
      it discards siblings, ... */
  lemma ForeignRoot(ends: ClassEnd, before: seq<string>, after: seq<string>, pour: Pour, a: Publication)
    requires DO !in before && DO !in after && IsPour(pour) && Valid(a) && !a.preserve && a.tag == Wasm64
    ensures var lines := before + Render("https://example.org", 0, map[Wasm32 := pour]) + after;
            var x := Compose(ends, lines, lines, a);
            x.Some? && !FoundEquivalent(x.value, lines)
  {
    hide Render, Parse, Locate, IsRoot, IsPour, Valid, Unquoted, Compose, FoundEquivalent;
    var root := "https://example.org";
    OutsideRegistry();
    LocateRendered(before, after, root, 0, map[Wasm32 := pour]);
    var lines := before + Render(root, 0, map[Wasm32 := pour]) + after;
    FillsBlock(ends, lines, a);
    ComposedIsEquivalent(ends, lines, lines, a);
  }

  /** ... and for a block without bottles, which it fills. */
  lemma NoBottles(ends: ClassEnd, before: seq<string>, after: seq<string>, a: Publication)
    requires DO !in before && DO !in after && Valid(a)
    ensures var lines := before + Render(a.root, a.rebuild, map[]) + after;
            var x := Compose(ends, lines, lines, a);
            x.Some? && !FoundEquivalent(x.value, lines)
  {
    hide Render, Parse, Locate, IsRoot, Compose, FoundEquivalent;
    RootIsUnquoted(a);
    LocateRendered(before, after, a.root, a.rebuild, map[]);
    var lines := before + Render(a.root, a.rebuild, map[]) + after;
    FillsBlock(ends, lines, a);
    ComposedIsEquivalent(ends, lines, lines, a);
  }

  const OPEN: string := "class Foo < Formula\n"
  const CLOSE: string := "end\n"

  function InClass(block: seq<string>): seq<string> { [OPEN, BLANK] + block + [BLANK, CLOSE] }

  function Sample(): Publication {
    Publication("https://ghcr.io/v2/x", 0, Wasm64, Pour(":any", seq(64, _ => 'a')), false)
  }

  lemma PlainClass()
    ensures OPEN != DO && BLANK != DO && CLOSE != DO
  {
    assert OPEN[0] == 'c' && DO[0] == ' ' && BLANK[0] == '\n' && CLOSE[0] == 'e';
  }

  lemma SampleIsValid()
    ensures Valid(Sample()) && IsPour(Sample().pour)
  {
    assert "https://ghcr.io/v2/x" == REGISTRY + "x";
    CellarsAreCellars();
  }

  /** Both failures in a Formula class, for one publication. */
  lemma FailuresInClass(ends: ClassEnd)
    ensures var lines := InClass(Render("https://example.org", 0, map[Wasm32 := Sample().pour]));
            var x := Compose(ends, lines, lines, Sample());
            x.Some? && !FoundEquivalent(x.value, lines)
    ensures var lines := InClass(Render("https://ghcr.io/v2/x", 0, map[]));
            var x := Compose(ends, lines, lines, Sample());
            x.Some? && !FoundEquivalent(x.value, lines)
  {
    hide Render, Compose, FoundEquivalent, Valid, IsPour;
    SampleIsValid();
    PlainClass();
    ForeignRoot(ends, [OPEN, BLANK], [BLANK, CLOSE], Sample().pour, Sample());
    NoBottles(ends, [OPEN, BLANK], [BLANK, CLOSE], Sample());
  }

  lemma {:induction false} VariantOfInsertion(lines: seq<string>, e: nat, gap: seq<string>, s: Source)
    requires e <= |lines| && gap == if e > 0 && lines[e - 1] == BLANK then [] else [BLANK]
    requires IsSource(s) && s.range.Some? && s.range.value.first == e + |gap|
    requires WithoutBlock(s) == lines[..e] + gap + ([BLANK] + lines[e..])
    ensures lines in Variants(s)
  {
    hide Locate, Delete;
    DeletedBlanks(lines, e, gap);
    if gap == [] {
      assert Variants(s)[1] == lines;
    } else {
      assert Variants(s)[3] == lines;
    }
  }

  lemma {:induction false} DeletedBlanks(lines: seq<string>, e: nat, gap: seq<string>)
    requires e <= |lines| && (gap == [] || gap == [BLANK])
    ensures var at := e + |gap|;
            var stripped := lines[..e] + gap + ([BLANK] + lines[e..]);
            && stripped[at] == BLANK && (gap != [] ==> stripped[at - 1] == BLANK)
            && |Delete(stripped, at)| == |stripped| - 1
            && (if gap == [] then Delete(stripped, at) else Delete(Delete(stripped, at), at - 1)) == lines
  {
    hide Delete;
    var front, back := lines[..e], lines[e..];
    assert front + gap + ([BLANK] + back) == front + gap + [BLANK] + back;
    DeleteMiddle(front + gap, BLANK, back);
    if gap == [] {
      assert front + gap + back == lines;
    } else {
      DeleteMiddle(front, BLANK, back);
      assert front + back == lines;
    }
  }

  lemma DeleteMiddle<T>(x: seq<T>, b: T, y: seq<T>)
    ensures var s := x + [b] + y; s[|x|] == b && |Delete(s, |x|)| == |s| - 1 && Delete(s, |x|) == x + y
  {}

  /** The digest tool can read both sources, and gives both the same identity. */
  predicate FoundIdentical(ends: ClassEnd, x: seq<string>, y: seq<string>) {
    && Locate(x).Some? && Locate(y).Some?
    && Identity(ends, Source(x, Locate(x).value)).Some?
    && Identity(ends, Source(x, Locate(x).value)) == Identity(ends, Source(y, Locate(y).value))
  }

  /** A source without the block that the composer finds in it. */
  function Bare(lines: seq<string>): seq<string>
    requires Parse(lines).Some?
  {
    match Parse(lines).value
    case None => lines
    case Some(b) => lines[..b.first] + lines[b.last + 1..]
  }

  /** An identity exists exactly if the class end can be found in the source without its block. */
  lemma {:induction false} IdentityIff(ends: ClassEnd, s: Source)
    requires Stable(ends) && IsSource(s)
    ensures Identity(ends, s).Some? <==> ends(WithoutBlock(s)).Some?
  {
    hide Locate, BlankStart;
    var lines := WithoutBlock(s);
    if ends(lines).Some? { assert StableAt(ends, lines, ends(lines).value); }
  }

  lemma {:induction false} BareIsAround(ends: ClassEnd, current: seq<string>)
    requires Parse(current).Some? && Parse(current).value.Some?
    ensures var (before, after) := Around(ends, current).value; Bare(current) == before + after
  {
    hide Parse;
  }

  /** The digest tool gives both the same identity, however many blank lines stand before the class
      end, exactly if moreover the class end can be found in the source without its block. */
  lemma {:induction false} ComposedKeepsIdentity(ends: ClassEnd, current: seq<string>, planned: seq<string>,
                                                 a: Publication)
    requires Stable(ends) && Valid(a) && Compose(ends, current, planned, a).Some?
    ensures FoundIdentical(ends, Compose(ends, current, planned, a).value, current)
       <==> Published(Parse(current).value) && ends(Bare(current)).Some?
  {
    hide Locate, Parse, Refused, Edited, Render, Identity, Around, IsRoot;
    LocateComposed(ends, current, planned, a);
    LocateIff(current);
    if Locate(current).Some? {
      if Parse(current).value.Some? {
        ReplacedIdentity(ends, current, planned, a);
      } else {
        AddedIdentity(ends, current, planned, a);
      }
    }
  }

  lemma {:induction false} ReplacedIdentity(ends: ClassEnd, current: seq<string>, planned: seq<string>,
                                            a: Publication)
    requires Stable(ends) && Valid(a) && Compose(ends, current, planned, a).Some?
    requires Parse(current).value.Some? && Locate(current).Some?
    ensures FoundIdentical(ends, Compose(ends, current, planned, a).value, current) <==> ends(Bare(current)).Some?
  {
    hide Locate, Parse, Refused, Edited, Render;
    var x := Compose(ends, current, planned, a).value;
    LocateComposed(ends, current, planned, a);
    LocateIff(current);
    AroundOfBlock(ends, current);
    BareIsAround(ends, current);
    IdentityIff(ends, Source(current, Locate(current).value));
  }

  lemma {:induction false} AddedIdentity(ends: ClassEnd, current: seq<string>, planned: seq<string>, a: Publication)
    requires Stable(ends) && Valid(a) && Compose(ends, current, planned, a).Some?
    requires Parse(current).value.None? && Locate(current).Some?
    ensures ends(current).Some? && FoundIdentical(ends, Compose(ends, current, planned, a).value, current)
  {
    hide Locate, Parse, Refused, Edited, Render;
    var x := Compose(ends, current, planned, a).value;
    LocateComposed(ends, current, planned, a);
    LocateIff(current);
    ComposedShape(ends, current, planned, a);
    var e := ends(current).value;
    var gap := if e > 0 && current[e - 1] == BLANK then [] else [BLANK];
    InsertedBlanks(current, e, gap);
    IdentityOfInsertion(ends, current, e, Source(x, Locate(x).value));
    IdentityIff(ends, Source(current, None));
  }

  /** It fails for a class whose `end` has a comment: the composer replaces the block without looking
      for the class end, and the digest tool finds both sources equivalent, but gives neither an
      identity. */
  lemma {:induction false} CommentedEnd()
    ensures var a := Sample();
            var lines := [OPEN, BLANK] + Render(a.root, a.rebuild, map[a.tag := a.pour]) + [BLANK, "end # Foo\n"];
            var x := Compose(LastEnd, lines, lines, a);
            && x.Some? && FoundEquivalent(x.value, lines) && !FoundIdentical(LastEnd, x.value, lines)
  {
    hide Render, Parse, Locate, IsRoot, FoundEquivalent, FoundIdentical, Valid, IsPour, LastEnd;
    var a, back := Sample(), [BLANK, "end # Foo\n"];
    var tags := map[a.tag := a.pour];
    var lines := [OPEN, BLANK] + Render(a.root, a.rebuild, tags) + back;
    SampleIsValid();
    PlainClass();
    assert "end # Foo\n" != DO by { assert "end # Foo\n"[0] == 'e' && DO[0] == ' '; }
    RootIsUnquoted(a);
    ParseRendered([OPEN, BLANK], back, a.root, a.rebuild, tags);
    LastEndIsStable();
    ComposedIsEquivalent(LastEnd, lines, lines, a);
    ComposedKeepsIdentity(LastEnd, lines, lines, a);
    assert Bare(lines) == [OPEN, BLANK] + back;
    NoPlainEnd([OPEN, BLANK] + back);
  }

  lemma NoPlainEnd(lines: seq<string>)
    requires lines == [OPEN, BLANK, BLANK, "end # Foo\n"]
    ensures LastEnd(lines) == None
  {
    assert forall k :: 0 <= k < 4 ==> lines[k] != CLOSE by {
      assert OPEN[0] == 'c' && BLANK[0] == '\n' && |"end # Foo\n"| > |CLOSE| && CLOSE[0] == 'e';
    }
    if e :| LastEnd(lines) == Some(e) { LastEndIff(lines, e); }
  }

  lemma {:induction false} BlankStartIsUnique(lines: seq<string>, e: nat, b: nat)
    requires b <= e <= |lines| && (forall i :: b <= i < e ==> lines[i] == BLANK) && (b > 0 ==> lines[b - 1] != BLANK)
    ensures BlankStart(lines, e) == b
    decreases e
  {
    if b < e {
      assert lines[e - 1] == BLANK;
      BlankStartIsUnique(lines, e - 1, b);
    }
  }

  lemma {:induction false} IdentityOfInsertion(ends: ClassEnd, lines: seq<string>, e: nat, s: Source)
    requires Stable(ends) && ends(lines) == Some(e) && IsSource(s) && s.range.Some? && Locate(lines) == Some(None)
    requires e <= |lines|
    requires WithoutBlock(s) == if e > 0 && lines[e - 1] == BLANK then InsertAt(lines, e, [BLANK])
                                else InsertAt(InsertAt(lines, e, [BLANK]), e + 1, [BLANK])
    ensures Identity(ends, s) == Identity(ends, Source(lines, None))
  {
    hide Locate, Parse, BlankStart, Delete;
    var one := InsertAt(lines, e, [BLANK]);
    assert StableAt(ends, lines, e) && StableAt(ends, one, e + 1);
    if e > 0 && lines[e - 1] == BLANK {
      OneBlankMore(lines, e);
    } else {
      TwoBlanksMore(lines, e);
    }
  }

  lemma {:induction false} OneBlankMore(lines: seq<string>, e: nat)
    requires 0 < e <= |lines| && lines[e - 1] == BLANK
    ensures var one := InsertAt(lines, e, [BLANK]);
            && |one| == |lines| + 1 && Delete(one, e) == lines
            && BlankStart(one, e + 1) == BlankStart(lines, e) < e
  {
    hide BlankStart;
    var one, b := InsertAt(lines, e, [BLANK]), BlankStart(lines, e);
    assert b == 0 || lines[b - 1] != BLANK;
    BlankStartIsUnique(one, e + 1, b);
  }

  lemma {:induction false} TwoBlanksMore(lines: seq<string>, e: nat)
    requires e <= |lines| && !(e > 0 && lines[e - 1] == BLANK)
    ensures var one := InsertAt(lines, e, [BLANK]);
            var two := InsertAt(one, e + 1, [BLANK]);
            && |two| == |lines| + 2 && Delete(two, e + 1) == one
            && BlankStart(lines, e) == BlankStart(two, e + 2) == e
  {
    hide BlankStart;
    var one := InsertAt(lines, e, [BLANK]);
    var two := InsertAt(one, e + 1, [BLANK]);
    BlankStartIsUnique(lines, e, e);
    BlankStartIsUnique(two, e + 2, e);
  }

  // ------------------------------------------------------------------
  // Identity is a normal form
  // ------------------------------------------------------------------

  lemma {:induction false} NoBlockLeft(s: Source)
    requires IsSource(s)
    ensures DO !in WithoutBlock(s)
  {
    hide CountLines;
    var first := Find(s.lines, DO, 0);
    if s.range.Some? {
      var r := s.range.value;
      var second := Find(s.lines, DO, first + 1);
      assert second == |s.lines|;
    }
  }

  lemma {:induction false} PlainIsSource(lines: seq<string>)
    requires DO !in lines
    ensures Locate(lines) == Some(None)
  {
    assert lines[0..] == lines;
    FindNowhere(lines, DO, 0);
  }

  /** An identity has no block, one class end, and a blank line in front of it. */
  lemma {:induction false} IdentityShape(ends: ClassEnd, s: Source)
    requires Stable(ends) && IsSource(s) && Identity(ends, s).Some?
    ensures var y := Identity(ends, s).value;
            && Locate(y) == Some(None)
            && ends(y).Some? && 0 < ends(y).value < |y| && y[ends(y).value - 1] == BLANK
  {
    hide Locate, Parse, BlankStart;
    var lines := WithoutBlock(s);
    var e := ends(lines).value;
    var b := BlankStart(lines, e);
    var y := Identity(ends, s).value;
    NoBlockLeft(s);
    assert DO != BLANK by { assert |DO| > |BLANK|; }
    assert DO !in y;
    PlainIsSource(y);
    assert StableAt(ends, lines, e);
    if s.range.Some? && b < e {
      var fewer := Delete(lines, e - 1);
      assert fewer == lines[..e - 1] + lines[e..];
      if b < e - 1 {
        assert fewer[e - 2] == lines[e - 2] == BLANK;
      } else {
        assert StableAt(ends, fewer, e - 1);
      }
    }
  }

  /** So computing it again gives it back, ... */
  lemma {:induction false} IdentityIsIdempotent(ends: ClassEnd, s: Source)
    requires Stable(ends) && IsSource(s) && Identity(ends, s).Some?
    ensures var y := Identity(ends, s).value;
            Locate(y) == Some(None) && Identity(ends, Source(y, None)) == Some(y)
  {
    hide Locate;
    IdentityShape(ends, s);
    BlankedIsIdentity(ends, Identity(ends, s).value);
  }

  lemma {:induction false} BlankedIsIdentity(ends: ClassEnd, y: seq<string>)
    requires Locate(y) == Some(None) && ends(y).Some? && 0 < ends(y).value < |y| && y[ends(y).value - 1] == BLANK
    ensures Identity(ends, Source(y, None)) == Some(y)
  {
    hide Locate;
    var e := ends(y).value;
    var b := BlankStart(y, e);
    assert b == 0 || y[b - 1] != BLANK;
  }

  /** ... and a receipt that matches a selected Formula has the Formula's identity; only an exact match
      may have none, which is when the class end cannot be found. */
  lemma {:induction false} MatchKeepsIdentity(ends: ClassEnd, selected: Source, receipt: Source)
    requires Stable(ends) && IsSource(selected) && IsSource(receipt)
    requires ReceiptMatch(ends, selected, receipt) != NoMatch
    ensures Identity(ends, selected) == Identity(ends, receipt)
    ensures Identity(ends, selected).Some? <==> ends(WithoutBlock(selected)).Some?
    ensures ReceiptMatch(ends, selected, receipt) == BlockRemoved ==> Identity(ends, selected).Some?
  {
    hide Locate, Identity;
    IdentityIff(ends, selected);
    if selected.lines != receipt.lines {
      IdentityIsIdempotent(ends, selected);
    }
  }

  /** Exactly when a receipt without a block matches a Formula with one: their identities agree, and
      the receipt has a blank line before its class end. */
  lemma {:induction false} MatchIff(ends: ClassEnd, selected: Source, receipt: Source)
    requires Stable(ends) && IsSource(selected) && IsSource(receipt) && selected.range.Some? && receipt.range.None?
    ensures ReceiptMatch(ends, selected, receipt) == BlockRemoved
       <==> (&& Identity(ends, selected).Some? && Identity(ends, selected) == Identity(ends, receipt)
             && var e := ends(receipt.lines); e.Some? && 0 < e.value && receipt.lines[e.value - 1] == BLANK)
  {
    hide Locate, Identity;
    assert selected.lines != receipt.lines;
    if ReceiptMatch(ends, selected, receipt) == BlockRemoved {
      MatchKeepsIdentity(ends, selected, receipt);
      IdentityShape(ends, selected);
    }
    var e := ends(receipt.lines);
    if e.Some? { assert StableAt(ends, receipt.lines, e.value); }
    if e.Some? && 0 < e.value && receipt.lines[e.value - 1] == BLANK {
      BlankedIsIdentity(ends, receipt.lines);
    }
  }

  /** So what the composer makes of a source without a block matches that source as a receipt exactly
      if there was a blank line before its class end, although their identities always agree. */
  lemma {:induction false} ComposedMatchIff(ends: ClassEnd, current: seq<string>, planned: seq<string>, a: Publication)
    requires Stable(ends) && Valid(a) && Compose(ends, current, planned, a).Some? && Parse(current).value.None?
    ensures var x := Compose(ends, current, planned, a).value;
            && FoundIdentical(ends, x, current) && Locate(x).Some? && Locate(current) == Some(None)
            && ends(current).Some? && ends(current).value < |current|
            && var e := ends(current).value;
               var kind := ReceiptMatch(ends, Source(x, Locate(x).value), Source(current, None));
               kind == if e > 0 && current[e - 1] == BLANK then BlockRemoved else NoMatch
  {
    hide Locate, Parse, Refused, Edited, Render, Identity, Around, IsRoot;
    var x := Compose(ends, current, planned, a).value;
    LocateComposed(ends, current, planned, a);
    LocateIff(current);
    AddedIdentity(ends, current, planned, a);
    assert StableAt(ends, current, ends(current).value);
    MatchIff(ends, Source(x, Locate(x).value), Source(current, None));
    assert x != current;
  }

  /** An empty class is such a source without the blank line. */
  lemma {:induction false} EmptyClassDoesNotMatch()
    ensures var a, current := Sample(), [OPEN, CLOSE];
            var x := InClass(Render(a.root, a.rebuild, map[a.tag := a.pour]));
            && Compose(LastEnd, current, current, a) == Some(x) && FoundIdentical(LastEnd, x, current)
            && ReceiptMatch(LastEnd, Source(x, Locate(x).value), Source(current, None)) == NoMatch
  {
    hide Locate, Parse, Render, Identity, ReceiptMatch, FoundIdentical, Valid, IsRoot;
    var a, current := Sample(), [OPEN, CLOSE];
    SampleIsValid();
    LastEndIsStable();
    PlainClass();
    assert LastEnd(current) == Some(1);
    assert Parse(current) == Some(None) by { PlainIsParsed(current); }
    assert OPEN != BLANK by { assert OPEN[0] == 'c' && BLANK[0] == '\n'; }
    assert NewTags(None, a) == map[a.tag := a.pour];
    var rendered := Render(a.root, a.rebuild, map[a.tag := a.pour]);
    assert current[..1] + ([BLANK] + rendered + [BLANK]) + current[1..] == InClass(rendered);
    ComposedMatchIff(LastEnd, current, current, a);
  }

  lemma {:induction false} PlainIsParsed(lines: seq<string>)
    requires DO !in lines
    ensures Parse(lines) == Some(None)
  {
    assert lines[0..] == lines;
    FindNowhere(lines, DO, 0);
  }
}
