/** scripts/homebrew-formula-runtime-closure.rb: what the resolver makes of a bottle block. */
module FormulaBottle {
  import opened Options
  import opened FormulaBlock
  import opened FormulaCompose
  import opened FormulaIdentity

  const CELLARS: seq<string> := ["any", "any_skip_relocation", CELLAR]

  /** A cellar without its colon or its quotes. */
  function CellarName(literal: string): string {
    if ":" <= literal then literal[1..]
    else if |literal| >= 2 then literal[1..|literal| - 1]
    else ""
  }

  /** One line of a block; None is an abort. */
  function Admit(f: Facts, line: string): Option<Facts> {
    match Classify(line)
    case Root(url) =>
      if !IsRoot(url) || f.root.Some? || EndsWith(url, "/") then None else Some(f.(root := Some(url)))
    case Rebuild(n) =>
      if n == 0 || f.rebuildSeen then None else Some(f.(rebuild := n, rebuildSeen := true))
    case Sha(t, p) =>
      if CellarName(p.cellar) !in CELLARS || t in f.tags then None
      else Some(f.(tags := f.tags[t := Pour(CellarName(p.cellar), p.digest)]))
    case Unsupported => None
  }

  function AdmitAll(f: Facts, lines: seq<string>): Option<Facts>
    decreases |lines|
  {
    if lines == [] then Some(f)
    else
      match Admit(f, lines[0])
      case None => None
      case Some(f') => AdmitAll(f', lines[1..])
  }

  /** parse_bottle of the block whose first line is line `at`. */
  function ReadBottle(lines: seq<string>, at: nat): Option<Block> {
    if at >= |lines| || lines[at] != DO then None
    else
      var last := Find(lines, END, at + 1);
      if last == |lines| then None
      else
        var facts := AdmitAll(NoFacts(), lines[at + 1..last]);
        if facts.None? || facts.value.root.None? || !(1 <= |facts.value.tags| <= 2) then None
        else Some(Block(at, last, facts.value.root.value, facts.value.rebuild, facts.value.tags))
  }

  /** The loop of parse_bottle. */
  method AdmitLines(lines: seq<string>) returns (facts: Option<Facts>)
    ensures facts == AdmitAll(NoFacts(), lines)
  {
    hide Classify, IsRoot, EndsWith, CellarName;
    var root: Option<string> := None;
    var rebuild, rebuildSeen := 0, false;
    var tags: Tags := map[];
    var i := 0;
    assert lines[0..] == lines;
    while i < |lines|
      invariant 0 <= i <= |lines|
      invariant AdmitAll(Facts(root, rebuild, rebuildSeen, tags), lines[i..]) == AdmitAll(NoFacts(), lines)
    {
      assert lines[i..][1..] == lines[i + 1..];
      match Classify(lines[i]) {
        case Root(url) =>
          if !IsRoot(url) || root.Some? { return None; }
          root := Some(url);
          if EndsWith(url, "/") { return None; }
        case Rebuild(n) =>
          if n == 0 || rebuildSeen { return None; }
          rebuild, rebuildSeen := n, true;
        case Sha(t, p) =>
          var cellar := CellarName(p.cellar);
          if cellar !in CELLARS { return None; }
          if t in tags { return None; }
          tags := tags[t := Pour(cellar, p.digest)];
        case Unsupported =>
          return None;
      }
      i := i + 1;
    }
    return Some(Facts(root, rebuild, rebuildSeen, tags));
  }

  /** parse_bottle as it runs. */
  method ParseBottle(lines: seq<string>, at: nat) returns (bottle: Option<Block>)
    ensures bottle == ReadBottle(lines, at)
  {
    hide AdmitAll;
    if at >= |lines| || lines[at] != DO {
      return None;
    }
    var last := at + 1;
    while last < |lines| && lines[last] != END
      invariant at + 1 <= last <= |lines| && Find(lines, END, last) == Find(lines, END, at + 1)
    {
      last := last + 1;
    }
    if last == |lines| {
      return None;
    }
    var facts := AdmitLines(lines[at + 1..last]);
    if facts.None? || facts.value.root.None? || !(1 <= |facts.value.tags| <= 2) {
      return None;
    }
    return Some(Block(at, last, facts.value.root.value, facts.value.rebuild, facts.value.tags));
  }

  // ------------------------------------------------------------------
  // Against the composer's reading
  // ------------------------------------------------------------------

  /** The resolver knows the cellar of every bottle. */
  ghost predicate KnownCellars(tags: Tags) { forall t :: t in tags ==> CellarName(tags[t].cellar) in CELLARS }

  function Named(tags: Tags): Tags { map t | t in tags :: Pour(CellarName(tags[t].cellar), tags[t].digest) }

  predicate IsPlainRoot(url: string) { IsRoot(url) && !EndsWith(url, "/") }

  /** What the resolver has to say against the lines so far. */
  ghost predicate Tolerable(f: Facts) {
    && (f.root.Some? ==> IsPlainRoot(f.root.value)) && (f.rebuildSeen ==> f.rebuild > 0)
    && KnownCellars(f.tags)
  }

  function Translated(f: Facts): Facts { f.(tags := Named(f.tags)) }

  lemma {:induction false} NamedMore(tags: Tags, t: Tag, p: Pour)
    requires KnownCellars(tags) && t !in tags
    ensures Named(tags[t := p]) == Named(tags)[t := Pour(CellarName(p.cellar), p.digest)]
    ensures KnownCellars(tags[t := p]) <==> CellarName(p.cellar) in CELLARS
  {
    hide CellarName;
    var more := tags[t := p];
    assert more[t] == p;
    assert forall u :: u in tags ==> more[u] == tags[u];
  }

  /** One line: the resolver admits it exactly if the composer takes it and it is tolerable. */
  lemma {:induction false} AdmitIff(f: Facts, line: string)
    requires Tolerable(f)
    ensures Admit(Translated(f), line)
         == if Learn(f, line).Some? && Tolerable(Learn(f, line).value) then Some(Translated(Learn(f, line).value))
            else None
  {
    hide Classify, IsRoot, EndsWith, CellarName, KnownCellars, Named;
    match Classify(line) {
      case Sha(t, p) =>
        assert t in Named(f.tags) <==> t in f.tags by { NamedKeys(f.tags, t); }
        if t !in f.tags { NamedMore(f.tags, t, p); }
      case _ =>
    }
  }

  lemma NamedKeys(tags: Tags, t: Tag)
    ensures t in Named(tags) <==> t in tags
  {}

  lemma {:induction false} AdmittedIff(f: Facts, lines: seq<string>)
    requires Tolerable(f)
    ensures var g := LearnAll(f, lines);
            AdmitAll(Translated(f), lines)
            == if g.Some? && Tolerable(g.value) then Some(Translated(g.value)) else None
    decreases |lines|
  {
    hide Learn, Admit, Translated, Tolerable;
    if lines != [] {
      AdmitIff(f, lines[0]);
      var f' := Learn(f, lines[0]);
      if f'.Some? {
        if Tolerable(f'.value) {
          AdmittedIff(f'.value, lines[1..]);
        } else if LearnAll(f'.value, lines[1..]).Some? {
          StaysIntolerable(f'.value, lines[1..]);
        }
      }
    }
  }

  lemma {:induction false} StaysIntolerable(f: Facts, lines: seq<string>)
    requires !Tolerable(f) && LearnAll(f, lines).Some?
    ensures !Tolerable(LearnAll(f, lines).value)
  {
    hide LearnAll, IsPlainRoot, CellarName;
    LearnedStays(f, lines);
  }

  /** The block is one the resolver takes. */
  ghost predicate Pourable(b: Block) { IsPlainRoot(b.root) && b.tags != map[] && KnownCellars(b.tags) }

  lemma {:induction false} SameSizeNamed(tags: Tags)
    ensures |Named(tags)| == |tags| <= 2 && (|tags| >= 1 <==> tags != map[])
  {
    AtMostTwoTags(tags);
    assert Named(tags).Keys == tags.Keys;
  }

  /** Of a source with one block, the resolver reads exactly what the composer can read, is from the
      registry with a root that does not end in a slash, has a bottle, and has only cellars of
      Homebrew; and it reads the same but for the spelling of the cellars. */
  lemma {:induction false} ReadIff(lines: seq<string>, at: nat)
    requires at < |lines| && lines[at] == DO && DO !in lines[..at] && DO !in lines[at + 1..]
    ensures ReadBottle(lines, at)
         == match Parse(lines)
            case Some(Some(b)) => if Pourable(b) then Some(b.(tags := Named(b.tags))) else None
            case _ => None
  {
    hide LearnAll, AdmitAll, Find, IsPlainRoot, KnownCellars, Named;
    OneBlock(lines, at);
    var last := Find(lines, END, at + 1);
    if last < |lines| {
      var inside := lines[at + 1..last];
      var facts := LearnAll(NoFacts(), inside);
      NothingNamed();
      AdmittedIff(NoFacts(), inside);
      if facts.Some? { SameSizeNamed(facts.value.tags); }
    }
  }

  lemma NothingNamed()
    ensures Tolerable(NoFacts()) && Translated(NoFacts()) == NoFacts()
  {}

  lemma {:induction false} OneBlock(lines: seq<string>, at: nat)
    requires at < |lines| && lines[at] == DO && DO !in lines[..at] && DO !in lines[at + 1..]
    ensures Find(lines, DO, 0) == at && Find(lines, DO, at + 1) == |lines|
  {
    assert forall k :: 0 <= k < at ==> lines[k] == lines[..at][k];
    FindNowhere(lines, DO, at + 1);
  }

  /** No sibling that the composer keeps has a cellar that the resolver does not know. */
  ghost predicate KeepsKnownCellars(current: Option<Block>, a: Publication) {
    a.preserve && current.Some? ==>
      forall t :: t in current.value.tags && t != a.tag ==> CellarName(current.value.tags[t].cellar) in CELLARS
  }

  lemma {:induction false} ValidCellar(a: Publication)
    requires Valid(a)
    ensures CellarName(a.pour.cellar) in CELLARS
  {
    hide IsRoot, IsDigest;
    assert ":any"[1..] == "any" && ":any_skip_relocation"[1..] == "any_skip_relocation";
    assert Quoted(CELLAR)[1..|Quoted(CELLAR)| - 1] == CELLAR;
    assert Quoted(CELLAR)[0] == '"';
  }

  lemma {:induction false} NewCellars(current: Option<Block>, a: Publication)
    requires Valid(a)
    ensures KnownCellars(NewTags(current, a)) <==> KeepsKnownCellars(current, a)
  {
    hide CellarName, Valid;
    ValidCellar(a);
    var tags := NewTags(current, a);
    assert tags[a.tag] == a.pour;
    if a.preserve && current.Some? {
      assert forall t :: t in current.value.tags && t != a.tag ==> t in tags && tags[t] == current.value.tags[t];
    }
  }

  /** The resolver reads what the composer has written exactly if the root does not end in a slash and
      the cellars of the siblings kept are known to it; it then reads the publication and those
      siblings. */
  lemma {:induction false} ReadsComposed(ends: ClassEnd, current: seq<string>, planned: seq<string>, a: Publication)
    requires Valid(a) && Compose(ends, current, planned, a).Some?
    ensures var x := Compose(ends, current, planned, a).value;
            var (before, _) := Around(ends, current).value;
            var read := ReadBottle(x, |before|);
            && (read.Some? <==> !EndsWith(a.root, "/") && KeepsKnownCellars(Parse(current).value, a))
            && (read.Some? ==> && read.value.root == a.root && read.value.rebuild == a.rebuild
                               && read.value.tags == Named(NewTags(Parse(current).value, a)))
  {
    hide Parse, ReadBottle, Render, Refused, Edited, Around, IsRoot, EndsWith, KnownCellars, KeepsKnownCellars, Named;
    var x := Compose(ends, current, planned, a).value;
    var tags := NewTags(Parse(current).value, a);
    ParseComposed(ends, current, planned, a);
    ComposedShape(ends, current, planned, a);
    var (before, after) := Around(ends, current).value;
    NewCellars(Parse(current).value, a);
    assert a.tag in tags;
    ComposedOneBlock(ends, current, planned, a);
    ReadIff(x, |before|);
  }

  lemma {:induction false} ComposedOneBlock(ends: ClassEnd, current: seq<string>, planned: seq<string>,
                                            a: Publication)
    requires Valid(a) && Compose(ends, current, planned, a).Some?
    ensures var x := Compose(ends, current, planned, a).value;
            var at := |Around(ends, current).value.0|;
            at < |x| && x[at] == DO && DO !in x[..at] && DO !in x[at + 1..]
  {
    hide Render, Refused, Edited, Around, IsRoot, LearnAll;
    ParseComposed(ends, current, planned, a);
    ComposedShape(ends, current, planned, a);
    var x := Compose(ends, current, planned, a).value;
    var at := |Around(ends, current).value.0|;
    assert Find(x, DO, 0) == at && Find(x, DO, at + 1) == |x|;
    forall k | 0 <= k < |x| && k != at ensures x[k] != DO {}
  }

  /** A root that ends in a slash is one that the composer accepts, here in an empty class, and the digest
      tool reads; the resolver aborts. */
  lemma {:induction false} SlashRoot()
    ensures var a, current := Sample().(root := "https://ghcr.io/v2/x/"), [OPEN, CLOSE];
            var x := Compose(LastEnd, current, current, a);
            && Valid(a) && x.Some? && Locate(x.value).Some? && Around(LastEnd, current).Some?
            && ReadBottle(x.value, |Around(LastEnd, current).value.0|) == None
  {
    hide Locate, Parse, ReadBottle, Render;
    var a, current := Sample().(root := "https://ghcr.io/v2/x/"), [OPEN, CLOSE];
    SampleIsValid();
    PlainClass();
    assert a.root == REGISTRY + "x/";
    assert EndsWith(a.root, "/") by { assert a.root[|a.root| - 1..] == "/"; }
    PlainIsParsed(current);
    assert LastEnd(current) == Some(1);
    LocateComposed(LastEnd, current, current, a);
    ReadsComposed(LastEnd, current, current, a);
  }
}
