/** scripts/homebrew-compose-formula-bottle.rb: publishing one bottle into a Formula. */
module FormulaCompose {
  import opened Options
  import opened FormulaBlock

  const BLANK: string := "\n"

  /** Where the Formula class of a source without a block ends: the line before which a block can
      be put so that Ruby sees it directly in the class. None if there is not exactly one. */
  type ClassEnd = seq<string> -> Option<nat>

  function InsertAt<T>(s: seq<T>, i: nat, t: seq<T>): seq<T>
    requires i <= |s|
  {
    s[..i] + t + s[i..]
  }

  /** What Ruby's grammar promises of one source: the line is an `end`, and blank lines in front of
      it only move it. */
  ghost predicate StableAt(ends: ClassEnd, s: seq<string>, e: nat) {
    ends(s) == Some(e) ==>
      && e < |s| && s[e] == "end\n"
      && ends(InsertAt(s, e, [BLANK])) == Some(e + 1)
      && (e > 0 && s[e - 1] == BLANK ==> ends(s[..e - 1] + s[e..]) == Some(e - 1))
  }

  ghost predicate Stable(ends: ClassEnd) { forall s, e: nat :: StableAt(ends, s, e) }

  /** The arguments; `preserve` is the sibling policy. */
  datatype Publication = Publication(root: string, rebuild: nat, tag: Tag, pour: Pour, preserve: bool)

  predicate IsPathChar(c: char) { 'a' <= c <= 'z' || '0' <= c <= '9' || c in "._/-" }

  const REGISTRY: string := "https://ghcr.io/v2/"

  /** `https://ghcr.io/v2/[a-z0-9._/-]+` */
  predicate IsRoot(s: string) {
    REGISTRY < s && forall i :: |REGISTRY| <= i < |s| ==> IsPathChar(s[i])
  }

  const CELLAR: string := "/home/linuxbrew/.linuxbrew/Cellar"

  function Quoted(s: string): string { "\"" + s + "\"" }

  /** The checks on the arguments, cellar already translated. */
  predicate Valid(a: Publication) {
    && IsRoot(a.root) && IsDigest(a.pour.digest)
    && a.pour.cellar in [":any", ":any_skip_relocation", Quoted(CELLAR)]
  }

  function PourOf(b: Option<Block>, t: Tag): Option<Pour> {
    if b.Some? && t in b.value.tags then Some(b.value.tags[t]) else None
  }

  /** The publication does not fit what is there. */
  predicate Refused(current: Option<Block>, planned: Option<Block>, a: Publication) {
    || (a.preserve && planned.Some? && current.None?)
    || (a.preserve && current.Some? && (current.value.root != a.root || current.value.rebuild != a.rebuild))
    || (PourOf(current, a.tag).Some? && PourOf(current, a.tag) != PourOf(planned, a.tag)
        && PourOf(current, a.tag) != Some(a.pour))
  }

  function NewTags(current: Option<Block>, a: Publication): Tags {
    (if a.preserve && current.Some? then current.value.tags else map[])[a.tag := a.pour]
  }

  /** The edit: replace the block, or put one in front of the class end. */
  function Edited(ends: ClassEnd, lines: seq<string>, current: Option<Block>, rendered: seq<string>)
    : Option<seq<string>>
    requires current.Some? ==> current.value.first <= current.value.last < |lines|
  {
    if current.Some? then Some(lines[..current.value.first] + rendered + lines[current.value.last + 1..])
    else
      match ends(lines)
      case None => None
      case Some(e) =>
        if e > |lines| then None
        else
          var gap := if e > 0 && lines[e - 1] == BLANK then [] else [BLANK];
          Some(lines[..e] + (gap + rendered + [BLANK]) + lines[e..])
  }

  /** The whole script on line sequences; None is an abort. */
  function Compose(ends: ClassEnd, current: seq<string>, planned: seq<string>, a: Publication): Option<seq<string>> {
    var c, p := Parse(current), Parse(planned);
    if c.None? || p.None? || Refused(c.value, p.value, a) then None
    else Edited(ends, current, c.value, Render(a.root, a.rebuild, NewTags(c.value, a)))
  }

  method RenderBlock(root: string, rebuild: nat, tags: Tags) returns (rendered: seq<string>)
    ensures rendered == Render(root, rebuild, tags)
  {
    hide RootLine, RebuildLine, ShaLine;
    rendered := [DO, RootLine(root)];
    if rebuild != 0 { rendered := rendered + [RebuildLine(rebuild)]; }
    if Wasm32 in tags { rendered := rendered + [ShaLine(Wasm32, tags[Wasm32])]; }
    if Wasm64 in tags { rendered := rendered + [ShaLine(Wasm64, tags[Wasm64])]; }
    rendered := rendered + [END];
  }

  /** The script from the check of the publication on: it edits its list of lines. */
  method EditLines(ends: ClassEnd, current: seq<string>, planned: seq<string>, a: Publication)
    returns (out: Option<seq<string>>)
    ensures out == Compose(ends, current, planned, a)
  {
    hide Render;
    var lines := current;
    var c, p := Parse(current), Parse(planned);
    if c.None? || p.None? || Refused(c.value, p.value, a) {
      return None;
    }
    var tags: Tags := if a.preserve && c.value.Some? then c.value.value.tags else map[];
    tags := tags[a.tag := a.pour];
    var rendered := RenderBlock(a.root, a.rebuild, tags);
    match c.value {
      case Some(b) =>
        lines := lines[..b.first] + rendered + lines[b.last + 1..];
      case None =>
        var end := ends(lines);
        if end.None? || end.value > |lines| {
          return None;
        }
        var insertion := rendered;
        if !(end.value > 0 && lines[end.value - 1] == BLANK) {
          insertion := [BLANK] + insertion;
        }
        insertion := insertion + [BLANK];
        assert insertion
            == (if end.value > 0 && lines[end.value - 1] == BLANK then [] else [BLANK]) + rendered + [BLANK];
        lines := lines[..end.value] + insertion + lines[end.value..];
    }
    return Some(lines);
  }

  /** What Ruby's parser says of a source: it is one Formula class with its bottle blocks directly in
      the class, and it is valid. */
  datatype Ruby = Ruby(oneClass: seq<string> -> bool, valid: seq<string> -> bool)

  /** The script as it runs: it checks its arguments and its two sources, edits its list of lines, and
      checks what it has made. */
  method ComposeFormula(ruby: Ruby, ends: ClassEnd, current: seq<string>, planned: seq<string>, a: Publication)
    returns (out: Option<seq<string>>)
    ensures out.Some? <==> && Valid(a) && ruby.oneClass(current) && ruby.oneClass(planned)
                           && var x := Compose(ends, current, planned, a); x.Some? && ruby.valid(x.value)
    ensures out.Some? ==> out == Compose(ends, current, planned, a)
  {
    hide Compose, Valid;
    if !Valid(a) || !ruby.oneClass(current) || !ruby.oneClass(planned) {
      return None;
    }
    out := EditLines(ends, current, planned, a);
    if out.Some? && !ruby.valid(out.value) {
      return None;
    }
  }

  // ------------------------------------------------------------------
  // Reading a composed source
  // ------------------------------------------------------------------

  lemma {:induction false} LearnKeepsPours(f: Facts, lines: seq<string>)
    requires AllPours(f.tags) && (f.root.Some? ==> Unquoted(f.root.value)) && LearnAll(f, lines).Some?
    ensures var g := LearnAll(f, lines).value; AllPours(g.tags) && (g.root.Some? ==> Unquoted(g.root.value))
    decreases |lines|
  {
    if lines != [] {
      ClassifiedPour(lines[0]);
      LearnKeepsPours(Learn(f, lines[0]).value, lines[1..]);
    }
  }

  lemma {:induction false} ClassifiedPour(line: string)
    ensures Classify(line).Sha? ==> IsPour(Classify(line).pour)
    ensures Classify(line).Root? ==> Unquoted(Classify(line).url)
  {}

  lemma {:induction false} ParsedPours(lines: seq<string>)
    requires Parse(lines).Some? && Parse(lines).value.Some?
    ensures AllPours(Parse(lines).value.value.tags)
  {
    var b := Parse(lines).value.value;
    LearnKeepsPours(NoFacts(), lines[b.first + 1..b.last]);
  }

  lemma CellarsAreCellars()
    ensures IsCellar(":any") && IsCellar(":any_skip_relocation") && IsCellar(Quoted(CELLAR))
  {
    var c := Quoted(CELLAR);
    assert c[1..|c| - 1] == CELLAR;
    assert '"' !in CELLAR;
  }

  lemma {:induction false} RootIsUnquoted(a: Publication)
    requires Valid(a)
    ensures Unquoted(a.root) && IsPour(a.pour)
  {
    CellarsAreCellars();
    assert '"' !in REGISTRY;
    forall i | 0 <= i < |a.root| ensures a.root[i] != '"' {
      if i < |REGISTRY| { assert a.root[i] == REGISTRY[i]; }
    }
  }

  /** The lines around the block of a composed source: the same for every publication. */
  function Around(ends: ClassEnd, lines: seq<string>): Option<(seq<string>, seq<string>)>
    requires Parse(lines).Some?
  {
    match Parse(lines).value
    case Some(b) => Some((lines[..b.first], lines[b.last + 1..]))
    case None =>
      match ends(lines)
      case None => None
      case Some(e) =>
        if e > |lines| then None
        else Some((lines[..e] + (if e > 0 && lines[e - 1] == BLANK then [] else [BLANK]), [BLANK] + lines[e..]))
  }

  lemma {:induction false} ComposedShape(ends: ClassEnd, current: seq<string>, planned: seq<string>, a: Publication)
    requires Parse(current).Some?
    ensures Compose(ends, current, planned, a)
         == (if Parse(planned).None? || Refused(Parse(current).value, Parse(planned).value, a)
                || Around(ends, current).None? then None
             else var (before, after) := Around(ends, current).value;
                  Some(before + Render(a.root, a.rebuild, NewTags(Parse(current).value, a)) + after))
  {
    hide Render, Refused, Parse;
    var c := Parse(current).value;
    var rendered := Render(a.root, a.rebuild, NewTags(c, a));
    if c.None? && ends(current).Some? && ends(current).value <= |current| {
      var e := ends(current).value;
      var gap := if e > 0 && current[e - 1] == BLANK then [] else [BLANK];
      assert current[..e] + (gap + rendered + [BLANK]) + current[e..]
          == current[..e] + gap + rendered + ([BLANK] + current[e..]);
    }
  }

  lemma {:induction false} AroundIsPlain(ends: ClassEnd, lines: seq<string>)
    requires Parse(lines).Some? && Around(ends, lines).Some?
    ensures DO !in Around(ends, lines).value.0 && DO !in Around(ends, lines).value.1
  {
    assert DO != BLANK by { assert |DO| > |BLANK|; }
  }

  /** A composed source is parsed as what was published into it. */
  lemma {:induction false} ParseComposed(ends: ClassEnd, current: seq<string>, planned: seq<string>, a: Publication)
    requires Valid(a) && Compose(ends, current, planned, a).Some?
    ensures var x := Compose(ends, current, planned, a).value;
            var (before, after) := Around(ends, current).value;
            var tags := NewTags(Parse(current).value, a);
            && Parse(x) == Some(Some(Block(|before|, |before| + |Render(a.root, a.rebuild, tags)| - 1,
                                           a.root, a.rebuild, tags)))
            && x == before + Render(a.root, a.rebuild, tags) + after
            && Around(ends, x) == Some((before, after))
            && AllPours(tags)
  {
    hide Render, Refused, Parse;
    var c := Parse(current).value;
    var tags := NewTags(c, a);
    RootIsUnquoted(a);
    if c.Some? { ParsedPours(current); }
    ComposedShape(ends, current, planned, a);
    AroundIsPlain(ends, current);
    var (before, after) := Around(ends, current).value;
    var rendered := Render(a.root, a.rebuild, tags);
    ParseRendered(before, after, a.root, a.rebuild, tags);
    var x := before + rendered + after;
    assert |rendered| > 0 by { RenderedLength(a.root, a.rebuild, tags); }
    assert x[..|before|] == before && x[|before| + |rendered|..] == after;
  }

  lemma RenderedLength(root: string, rebuild: nat, tags: Tags)
    ensures |Render(root, rebuild, tags)| > 1
  {}

  // ------------------------------------------------------------------
  // Publishing more than one bottle
  // ------------------------------------------------------------------

  function Then(ends: ClassEnd, x: Option<seq<string>>, planned: seq<string>, a: Publication): Option<seq<string>> {
    if x.None? then None else Compose(ends, x.value, planned, a)
  }

  /** Publishing a second bottle for another tag: whether it is refused, and what comes out, does
      not depend on the first one having been published, except that its line is there too. */
  lemma {:induction false} ComposeSecond(ends: ClassEnd, current: seq<string>, planned: seq<string>,
                                         a: Publication, b: Publication)
    requires Valid(a) && Valid(b) && a.preserve && b.preserve && a.root == b.root && a.rebuild == b.rebuild
        && a.tag != b.tag
    requires Compose(ends, current, planned, a).Some?
    ensures var c, p := Parse(current).value, Parse(planned).value;
            Then(ends, Compose(ends, current, planned, a), planned, b)
            == (if Refused(c, p, b) then None
                else var (before, after) := Around(ends, current).value;
                     Some(before + Render(a.root, a.rebuild, NewTags(c, a)[b.tag := b.pour]) + after))
  {
    hide Render, Parse, Around;
    ParseComposed(ends, current, planned, a);
    var x := Compose(ends, current, planned, a).value;
    ComposedShape(ends, x, planned, b);
    ComposedShape(ends, current, planned, a);
  }

  /** In preserve mode two publications into the same Formula commute: both orders are refused
      together, or give the same lines, whether the Formula had a block before or not. */
  lemma {:induction false} PublicationsCommute(ends: ClassEnd, current: seq<string>, planned: seq<string>,
                                               a: Publication, b: Publication)
    requires Valid(a) && Valid(b) && a.preserve && b.preserve && a.root == b.root && a.rebuild == b.rebuild
        && a.tag != b.tag
    ensures Then(ends, Compose(ends, current, planned, a), planned, b)
         == Then(ends, Compose(ends, current, planned, b), planned, a)
  {
    hide Render, Parse, Around, Refused, Edited;
    if Parse(current).Some? {
      ComposedShape(ends, current, planned, a);
      ComposedShape(ends, current, planned, b);
      if Compose(ends, current, planned, a).Some? { ComposeSecond(ends, current, planned, a, b); }
      if Compose(ends, current, planned, b).Some? { ComposeSecond(ends, current, planned, b, a); }
      var c := Parse(current).value;
      assert NewTags(c, a)[b.tag := b.pour] == NewTags(c, b)[a.tag := a.pour];
    }
  }

  /** Publishing the same bottle again changes nothing, under either policy. */
  lemma {:induction false} PublishingTwice(ends: ClassEnd, current: seq<string>, planned: seq<string>, a: Publication)
    requires Valid(a) && Compose(ends, current, planned, a).Some?
    ensures Then(ends, Compose(ends, current, planned, a), planned, a) == Compose(ends, current, planned, a)
  {
    hide Render, Parse, Around;
    ParseComposed(ends, current, planned, a);
    var x := Compose(ends, current, planned, a).value;
    ComposedShape(ends, x, planned, a);
    ComposedShape(ends, current, planned, a);
    var tags := NewTags(Parse(current).value, a);
    assert NewTags(Parse(x).value, a) == tags;
  }

  /** The assumption on class ends can be met: the last `end` line of the source. */
  function LastEnd(s: seq<string>): Option<nat> {
    if s == [] then None
    else if s[|s| - 1] == "end\n" then Some(|s| - 1)
    else LastEnd(s[..|s| - 1])
  }

  lemma {:induction false} LastEndIff(s: seq<string>, e: nat)
    ensures LastEnd(s) == Some(e) <==> e < |s| && s[e] == "end\n" && "end\n" !in s[e + 1..]
    decreases |s|
  {
    if s != [] {
      var init := s[..|s| - 1];
      LastEndIff(init, e);
      if e < |s| - 1 {
        assert s[e + 1..] == init[e + 1..] + [s[|s| - 1]];
      }
    }
  }

  lemma {:induction false} LastEndIsStable()
    ensures Stable(LastEnd)
  {
    forall s, e: nat ensures StableAt(LastEnd, s, e) {
      if LastEnd(s) == Some(e) {
        LastEndIff(s, e);
        var t := InsertAt(s, e, [BLANK]);
        assert t[e + 1] == s[e] && t[e + 2..] == s[e + 1..];
        LastEndIff(t, e + 1);
        if e > 0 && s[e - 1] == BLANK {
          var u := s[..e - 1] + s[e..];
          assert u[e - 1] == s[e] && u[e..] == s[e + 1..];
          LastEndIff(u, e - 1);
        }
      }
    }
  }
}
