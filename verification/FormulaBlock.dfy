/** The bottle block of a Homebrew Formula, line by line: how
    scripts/homebrew-compose-formula-bottle.rb reads and writes it.

    A source is the sequence of its lines, each with its newline. */
module FormulaBlock {
  import opened Options
  import Decimal

  datatype Tag = Wasm32 | Wasm64

  function TagText(t: Tag): (s: string)
    ensures |s| == 14
  {
    if t == Wasm32 then "wasm32_kandelo" else "wasm64_kandelo"
  }

  /** What a `sha256` line says about its tag. */
  datatype Pour = Pour(cellar: string, digest: string)

  type Tags = map<Tag, Pour>

  const DO: string := "  bottle do\n"
  const END: string := "  end\n"

  // ------------------------------------------------------------------
  // Lines
  // ------------------------------------------------------------------

  function RootLine(url: string): string { "    root_url \"" + url + "\"\n" }

  function RebuildLine(n: nat): string { "    rebuild " + Decimal.Write(n) + "\n" }

  function ShaLine(t: Tag, p: Pour): string {
    "    sha256 cellar: " + p.cellar + (", " + TagText(t) + ": \"" + p.digest + "\"\n")
  }

  /** `[^"]+` */
  predicate Unquoted(s: string) { s != "" && '"' !in s }

  /** `0|[1-9][0-9]*` */
  predicate IsNumeral(s: string) { s != "" && Decimal.AllDigits(s) && (s[0] == '0' ==> s == "0") }

  /** `:[a-z_]+|"[^"]+"` */
  predicate IsCellar(s: string) {
    || (|s| > 1 && s[0] == ':' && forall i :: 0 < i < |s| ==> 'a' <= s[i] <= 'z' || s[i] == '_')
    || (|s| > 2 && s[0] == '"' && s[|s| - 1] == '"' && '"' !in s[1..|s| - 1])
  }

  /** `[0-9a-f]{64}` */
  predicate IsDigest(s: string) { |s| == 64 && forall i :: 0 <= i < |s| ==> '0' <= s[i] <= '9' || 'a' <= s[i] <= 'f' }

  predicate IsPour(p: Pour) { IsCellar(p.cellar) && IsDigest(p.digest) }

  datatype Line = Root(url: string) | Rebuild(n: nat) | Sha(tag: Tag, pour: Pour) | Unsupported

  predicate EndsWith(s: string, t: string) { |t| <= |s| && s[|s| - |t|..] == t }

  /** What is between a fixed front and a fixed end. */
  function Between(s: string, front: string, back: string): Option<string> {
    if |front| + |back| <= |s| && front <= s && EndsWith(s, back) then Some(s[|front|..|s| - |back|]) else None
  }

  /** The last 85 characters of a sha256 line: tag, digest and punctuation have fixed lengths. */
  function ShaParts(s: string): (r: Option<(Tag, string)>) {
    if |s| < 85 then None
    else
      var t := s[|s| - 85..];
      var digest := t[19..83];
      if !(t[..2] == ", " && t[16..19] == ": \"" && t[83..] == "\"\n" && IsDigest(digest)) then None
      else if t[2..16] == TagText(Wasm32) then Some((Wasm32, digest))
      else if t[2..16] == TagText(Wasm64) then Some((Wasm64, digest))
      else None
  }

  /** The three regular expressions of the parser. */
  function Classify(line: string): Line {
    var root := Between(line, "    root_url \"", "\"\n");
    var rebuild := Between(line, "    rebuild ", "\n");
    var sha := ShaParts(line);
    if root.Some? && Unquoted(root.value) then Root(root.value)
    else if rebuild.Some? && IsNumeral(rebuild.value) then Rebuild(Decimal.Read(rebuild.value))
    else if sha.Some? && |line| >= 104 && "    sha256 cellar: " <= line && IsCellar(line[19..|line| - 85])
    then Sha(sha.value.0, Pour(line[19..|line| - 85], sha.value.1))
    else Unsupported
  }

  lemma {:induction false} BetweenBack(front: string, middle: string, back: string)
    ensures Between(front + middle + back, front, back) == Some(middle)
  {
    var s := front + middle + back;
    assert s[..|front|] == front;
    assert s[|s| - |back|..] == back;
    assert s[|front|..|s| - |back|] == middle;
  }

  lemma {:induction false} NotPrefix(line: string, front: string, i: nat)
    requires i < |front| && i < |line| && line[i] != front[i]
    ensures !(front <= line)
  {
    assert |front| <= |line| ==> line[..|front|][i] == line[i];
  }

  lemma RootLineBack(url: string)
    requires Unquoted(url)
    ensures Classify(RootLine(url)) == Root(url)
  {
    BetweenBack("    root_url \"", url, "\"\n");
  }

  lemma {:induction false} WriteIsNumeral(n: nat)
    ensures IsNumeral(Decimal.Write(n)) && (n > 0 ==> Decimal.Write(n)[0] != '0')
  {
    if n >= 10 {
      WriteIsNumeral(n / 10);
      assert Decimal.Write(n)[0] == Decimal.Write(n / 10)[0];
    }
  }

  lemma RebuildLineBack(n: nat)
    ensures Classify(RebuildLine(n)) == Rebuild(n)
  {
    var line := RebuildLine(n);
    assert line[..12] == "    rebuild ";
    assert line[5] == 'e';
    NotPrefix(line, "    root_url \"", 5);
    BetweenBack("    rebuild ", Decimal.Write(n), "\n");
    WriteIsNumeral(n);
    Decimal.ReadWrite(n);
  }

  lemma {:induction false} ShaPartsBack(front: string, t: Tag, digest: string)
    requires IsDigest(digest)
    ensures ShaParts(front + (", " + TagText(t) + ": \"" + digest + "\"\n")) == Some((t, digest))
  {
    var back := ", " + TagText(t) + ": \"" + digest + "\"\n";
    var s := front + back;
    assert |back| == 85 && s[|s| - 85..] == back;
    assert back[..2] == ", " && back[2..16] == TagText(t) && back[16..19] == ": \"";
    assert back[19..83] == digest && back[83..] == "\"\n";
    assert TagText(Wasm32)[4] == '3' && TagText(Wasm64)[4] == '6';
  }

  lemma ShaLineBack(t: Tag, p: Pour)
    requires IsPour(p)
    ensures Classify(ShaLine(t, p)) == Sha(t, p)
  {
    var line := ShaLine(t, p);
    var front := "    sha256 cellar: " + p.cellar;
    ShaPartsBack(front, t, p.digest);
    assert line[4] == 's';
    NotPrefix(line, "    root_url \"", 4);
    NotPrefix(line, "    rebuild ", 4);
    assert line[..19] == "    sha256 cellar: ";
    assert line[19..|line| - 85] == p.cellar;
  }

  // ------------------------------------------------------------------
  // Blocks
  // ------------------------------------------------------------------

  /** The variables of the parsing loop. */
  datatype Facts = Facts(root: Option<string>, rebuild: nat, rebuildSeen: bool, tags: Tags)

  function NoFacts(): Facts { Facts(None, 0, false, map[]) }

  /** One line of a block; None is an abort. */
  function Learn(f: Facts, line: string): Option<Facts> {
    match Classify(line)
    case Root(url) => if f.root.Some? then None else Some(f.(root := Some(url)))
    case Rebuild(n) => if f.rebuildSeen then None else Some(f.(rebuild := n, rebuildSeen := true))
    case Sha(t, p) => if t in f.tags then None else Some(f.(tags := f.tags[t := p]))
    case Unsupported => None
  }

  function LearnAll(f: Facts, lines: seq<string>): Option<Facts>
    decreases |lines|
  {
    if lines == [] then Some(f)
    else
      match Learn(f, lines[0])
      case None => None
      case Some(f') => LearnAll(f', lines[1..])
  }

  /** The checks after the loop. */
  predicate Sound(f: Facts) { f.root.Some? && !(f.rebuildSeen && f.rebuild == 0) }

  /** The loop over the lines of a block. */
  method ParseLines(lines: seq<string>) returns (facts: Option<Facts>)
    ensures facts == LearnAll(NoFacts(), lines)
  {
    var root: Option<string> := None;
    var rebuild, rebuildSeen := 0, false;
    var tags: Tags := map[];
    var i := 0;
    assert lines[0..] == lines;
    while i < |lines|
      invariant 0 <= i <= |lines|
      invariant LearnAll(Facts(root, rebuild, rebuildSeen, tags), lines[i..]) == LearnAll(NoFacts(), lines)
    {
      assert lines[i..][1..] == lines[i + 1..];
      match Classify(lines[i]) {
        case Root(url) =>
          if root.Some? { return None; }
          root := Some(url);
        case Rebuild(n) =>
          if rebuildSeen { return None; }
          rebuild, rebuildSeen := n, true;
        case Sha(t, p) =>
          if t in tags { return None; }
          tags := tags[t := p];
        case Unsupported =>
          return None;
      }
      i := i + 1;
    }
    return Some(Facts(root, rebuild, rebuildSeen, tags));
  }

  /** The first place from `from` on where a line stands, or the number of lines. */
  function Find(lines: seq<string>, line: string, from: nat): (i: nat)
    requires from <= |lines|
    ensures from <= i <= |lines|
    ensures forall k :: from <= k < i ==> lines[k] != line
    ensures i < |lines| ==> lines[i] == line
    decreases |lines| - from
  {
    if from == |lines| || lines[from] == line then from else Find(lines, line, from + 1)
  }

  /** The lines `first` to `last` of a source are its bottle block. */
  datatype Block = Block(first: nat, last: nat, root: string, rebuild: nat, tags: Tags)

  /** parse_formula: None is an abort, Some(None) a source without a block. */
  function Parse(lines: seq<string>): (r: Option<Option<Block>>)
    ensures r.Some? && r.value.Some? ==>
              var b := r.value.value;
              && b.first < b.last < |lines| && lines[b.first] == DO && lines[b.last] == END
              && DO !in lines[..b.first] && DO !in lines[b.last + 1..]
    ensures r == Some(None) ==> DO !in lines
  {
    var first := Find(lines, DO, 0);
    if first == |lines| then Some(None)
    else if Find(lines, DO, first + 1) < |lines| then None
    else
      var last := Find(lines, END, first + 1);
      if last == |lines| then None
      else
        var facts := LearnAll(NoFacts(), lines[first + 1..last]);
        if facts.None? || !Sound(facts.value) then None
        else
          var f := facts.value;
          Some(Some(Block(first, last, f.root.value, f.rebuild, f.tags)))
  }

  function TagLine(tags: Tags, t: Tag): seq<string> { if t in tags then [ShaLine(t, tags[t])] else [] }

  /** Tags in their sorted order. */
  function TagLines(tags: Tags): seq<string> { TagLine(tags, Wasm32) + TagLine(tags, Wasm64) }

  function Inside(root: string, rebuild: nat, tags: Tags): seq<string> {
    [RootLine(root)] + (if rebuild == 0 then [] else [RebuildLine(rebuild)]) + TagLines(tags)
  }

  /** The rendered block. */
  function Render(root: string, rebuild: nat, tags: Tags): seq<string> {
    [DO] + Inside(root, rebuild, tags) + [END]
  }

  ghost predicate AllPours(tags: Tags) { forall t :: t in tags ==> IsPour(tags[t]) }

  // ------------------------------------------------------------------
  // Reading what was rendered
  // ------------------------------------------------------------------

  lemma {:induction false} LearnJoin(f: Facts, a: seq<string>, b: seq<string>)
    ensures LearnAll(f, a + b) == (if LearnAll(f, a).None? then None else LearnAll(LearnAll(f, a).value, b))
    decreases |a|
  {
    if a == [] {
      assert a + b == b;
    } else {
      assert (a + b)[1..] == a[1..] + b;
      if Learn(f, a[0]).Some? { LearnJoin(Learn(f, a[0]).value, a[1..], b); }
    }
  }

  lemma {:induction false} LearnOne(f: Facts, line: string)
    ensures LearnAll(f, [line]) == Learn(f, line)
  {
    assert [line][1..] == [];
  }

  lemma {:induction false} LearnTag(f: Facts, tags: Tags, t: Tag)
    requires AllPours(tags) && t !in f.tags
    ensures LearnAll(f, TagLine(tags, t)) == Some(if t in tags then f.(tags := f.tags[t := tags[t]]) else f)
  {
    hide Classify, ShaLine;
    if t in tags {
      ShaLineBack(t, tags[t]);
      LearnOne(f, ShaLine(t, tags[t]));
    }
  }

  lemma {:induction false} LearnTags(f: Facts, tags: Tags)
    requires AllPours(tags) && f.tags == map[]
    ensures LearnAll(f, TagLines(tags)) == Some(f.(tags := tags))
  {
    hide LearnAll, ShaLine, AllPours;
    var got32: Tags := if Wasm32 in tags then map[Wasm32 := tags[Wasm32]] else map[];
    LearnJoin(f, TagLine(tags, Wasm32), TagLine(tags, Wasm64));
    LearnTag(f, tags, Wasm32);
    LearnTag(f.(tags := got32), tags, Wasm64);
    var got := if Wasm64 in tags then got32[Wasm64 := tags[Wasm64]] else got32;
    forall t ensures t in got <==> t in tags {
      match t case Wasm32 => case Wasm64 =>
    }
    assert got == tags;
  }

  lemma {:induction false} LearnInside(root: string, rebuild: nat, tags: Tags)
    requires Unquoted(root) && AllPours(tags)
    ensures LearnAll(NoFacts(), Inside(root, rebuild, tags)) == Some(Facts(Some(root), rebuild, rebuild != 0, tags))
  {
    hide Classify, TagLines;
    var a, b := [RootLine(root)], if rebuild == 0 then [] else [RebuildLine(rebuild)];
    RootLineBack(root);
    LearnOne(NoFacts(), a[0]);
    var f := NoFacts().(root := Some(root));
    LearnJoin(NoFacts(), a + b, TagLines(tags));
    LearnJoin(NoFacts(), a, b);
    if rebuild != 0 {
      RebuildLineBack(rebuild);
      LearnOne(f, b[0]);
    }
    LearnTags(f.(rebuild := rebuild, rebuildSeen := rebuild != 0), tags);
  }

  /** Lines inside a block are indented further than the lines that begin and end it. */
  lemma {:induction false} InsideIsPlain(root: string, rebuild: nat, tags: Tags)
    ensures DO !in Inside(root, rebuild, tags) && END !in Inside(root, rebuild, tags)
  {
    forall i | 0 <= i < |Inside(root, rebuild, tags)|
      ensures |Inside(root, rebuild, tags)[i]| > 2 && Inside(root, rebuild, tags)[i][2] == ' '
    {}
    assert DO[2] == 'b' && END[2] == 'e';
  }

  lemma {:induction false} FindHere(a: seq<string>, line: string, b: seq<string>, from: nat)
    requires from <= |a| && line !in a[from..]
    ensures Find(a + [line] + b, line, from) == |a|
    decreases |a| - from
  {
    var s := a + [line] + b;
    if from < |a| {
      assert s[from] == a[from] == a[from..][0];
      assert a[from + 1..] == a[from..][1..];
      FindHere(a, line, b, from + 1);
    }
  }

  lemma {:induction false} FindNowhere(s: seq<string>, line: string, from: nat)
    requires from <= |s| && line !in s[from..]
    ensures Find(s, line, from) == |s|
  {
    forall k | from <= k < |s| ensures s[k] in s[from..] {
      assert s[k] == s[from..][k - from];
    }
    var i := Find(s, line, from);
  }

  /** A rendered block between lines that begin no other is read back as it was meant. */
  lemma {:induction false} ParseRendered(before: seq<string>, after: seq<string>, root: string, rebuild: nat,
                                         tags: Tags)
    requires DO !in before && DO !in after && Unquoted(root) && AllPours(tags)
    ensures Parse(before + Render(root, rebuild, tags) + after)
         == Some(Some(Block(|before|, |before| + |Render(root, rebuild, tags)| - 1, root, rebuild, tags)))
  {
    hide Inside, Find, LearnAll, Decimal.Write, Classify;
    var inside := Inside(root, rebuild, tags);
    var lines := before + Render(root, rebuild, tags) + after;
    InsideIsPlain(root, rebuild, tags);
    LearnInside(root, rebuild, tags);
    var n := |before|;
    assert lines == before + [DO] + (inside + [END] + after);
    assert before[0..] == before;
    FindHere(before, DO, inside + [END] + after, 0);
    assert lines[n + 1..] == inside + [END] + after;
    assert DO != END by { assert DO[2] == 'b' && END[2] == 'e'; }
    FindNowhere(lines, DO, n + 1);
    var front := before + [DO] + inside;
    assert lines == front + [END] + after;
    assert front[n + 1..] == inside;
    FindHere(front, END, after, n + 1);
    assert lines[n + 1..|front|] == inside;
  }
}
