/** What the answers of scripts/homebrew-formula-source-digest.rb say about two sources, and what a
    publication by scripts/homebrew-compose-formula-bottle.rb leaves behind. */
module FormulaEquivalence {
  import opened Options
  import opened FormulaBlock
  import opened FormulaCompose
  import opened FormulaIdentity

  // ------------------------------------------------------------------
  // A source and its surroundings
  // ------------------------------------------------------------------

  /** The lines from a `bottle do` to the next `end` of its depth. */
  predicate IsBlock(b: seq<string>) {
    |b| >= 2 && b[0] == DO && b[|b| - 1] == END && DO !in b[1..] && END !in b[1..|b| - 1]
  }

  /** The source is the block `b` between `p` and `q`, which begin no other. */
  predicate Surrounds(lines: seq<string>, p: seq<string>, b: seq<string>, q: seq<string>) {
    lines == p + b + q && IsBlock(b) && DO !in p && DO !in q
  }

  /** Where the tool finds the block: it looks at nothing but the lines of the block. */
  lemma {:induction false} LocateParts(lines: seq<string>, p: seq<string>, b: seq<string>, q: seq<string>)
    requires Surrounds(lines, p, b, q)
    ensures var counts := CountLines(Counts(0, 0, 0), b[1..|b| - 1]);
            Locate(lines) == if counts.Some? && Canonical(counts.value) then Some(Some(Range(|p|, |p| + |b| - 1)))
                             else None
  {
    hide Find, CountLines;
    var n, inside := |p|, b[1..|b| - 1];
    assert b == [DO] + b[1..] && b == [DO] + inside + [END];
    assert lines == p + [DO] + (b[1..] + q);
    assert p[0..] == p;
    FindHere(p, DO, b[1..] + q, 0);
    assert lines[n + 1..] == b[1..] + q;
    FindNowhere(lines, DO, n + 1);
    var front := p + [DO] + inside;
    assert lines == front + [END] + q;
    assert front[n + 1..] == inside;
    FindHere(front, END, q, n + 1);
    assert lines[n + 1..|front|] == inside;
  }

  /** Every source with a block has surroundings, ... */
  lemma {:induction false} HasSurroundings(s: Source)
    requires IsSource(s) && s.range.Some?
    ensures var r := s.range.value;
            Surrounds(s.lines, s.lines[..r.first], s.lines[r.first..r.last + 1], s.lines[r.last + 1..])
  {
    hide CountLines, Find;
    var r := s.range.value;
    LocatedLines(s.lines);
    Sliced(s.lines, r.first, r.last);
  }

  lemma {:induction false} LocatedLines(lines: seq<string>)
    requires Locate(lines).Some? && Locate(lines).value.Some?
    ensures var r := Locate(lines).value.value;
            && lines[r.first] == DO && lines[r.last] == END
            && (forall k :: 0 <= k < |lines| && k != r.first ==> lines[k] != DO)
            && (forall k :: r.first < k < r.last ==> lines[k] != END)
  {
    hide CountLines;
    var r := Locate(lines).value.value;
    assert Find(lines, DO, r.first + 1) == |lines|;
  }

  lemma {:induction false} Sliced(lines: seq<string>, first: nat, last: nat)
    requires first < last < |lines| && lines[first] == DO && lines[last] == END
    requires forall k :: 0 <= k < |lines| && k != first ==> lines[k] != DO
    requires forall k :: first < k < last ==> lines[k] != END
    ensures Surrounds(lines, lines[..first], lines[first..last + 1], lines[last + 1..])
  {
    var p, b, q := lines[..first], lines[first..last + 1], lines[last + 1..];
    assert lines == p + b + q;
    assert DO !in b[1..] by { assert forall k :: 0 <= k < |b[1..]| ==> b[1..][k] == lines[first + 1 + k]; }
    var inside := b[1..|b| - 1];
    assert END !in inside by { assert forall k :: 0 <= k < |inside| ==> inside[k] == lines[first + 1 + k]; }
  }

  /** ... and only one. */
  lemma {:induction false} OneSurroundings(s: Source, p: seq<string>, b: seq<string>, q: seq<string>)
    requires IsSource(s) && s.range.Some? && Surrounds(s.lines, p, b, q)
    ensures s.range == Some(Range(|p|, |p| + |b| - 1)) && WithoutBlock(s) == p + q
  {
    hide Locate, CountLines;
    LocateParts(s.lines, p, b, q);
    assert s.lines[..|p|] == p && s.lines[|p| + |b|..] == q;
  }

  // ------------------------------------------------------------------
  // Equivalence
  // ------------------------------------------------------------------

  /** Two sources with blocks are equivalent if and only if what surrounds the blocks is the same, line by
      line. */
  lemma {:induction false} EquivalentWithBlocks(x: Source, p: seq<string>, b: seq<string>, q: seq<string>,
                                                y: Source, p': seq<string>, b': seq<string>, q': seq<string>)
    requires IsSource(x) && x.range.Some? && Surrounds(x.lines, p, b, q)
    requires IsSource(y) && y.range.Some? && Surrounds(y.lines, p', b', q')
    ensures Equivalent(x, y) <==> p + q == p' + q'
  {
    hide Locate, WithoutBlock;
    OneSurroundings(x, p, b, q);
    OneSurroundings(y, p', b', q');
  }

  predicate LessLast(p: seq<string>, p': seq<string>) { p' == p || p == p' + [BLANK] }

  predicate LessFirst(q: seq<string>, q': seq<string>) { q' == q || q == [BLANK] + q' }

  /** `lines` are the surroundings without at most the blank line before the block and the one behind. */
  ghost predicate Fewer(p: seq<string>, q: seq<string>, lines: seq<string>) {
    exists p', q' :: LessLast(p, p') && LessFirst(q, q') && lines == p' + q'
  }

  /** A source with a block is equivalent to one without if and only if that one is its surroundings
      without at most those two blank lines. */
  lemma {:induction false} EquivalentToBare(x: Source, p: seq<string>, b: seq<string>, q: seq<string>, y: Source)
    requires IsSource(x) && x.range.Some? && Surrounds(x.lines, p, b, q) && IsSource(y) && y.range.None?
    ensures Equivalent(x, y) <==> Fewer(p, q, y.lines)
    ensures Equivalent(y, x) <==> Fewer(p, q, y.lines)
  {
    hide Locate, WithoutBlock, Variants;
    OneSurroundings(x, p, b, q);
    VariantsIff(x, p, q, y.lines);
  }

  predicate EndsBlank(p: seq<string>) { p != [] && p[|p| - 1] == BLANK }

  predicate BeginsBlank(q: seq<string>) { q != [] && q[0] == BLANK }

  lemma {:induction false} VariantsIff(x: Source, p: seq<string>, q: seq<string>, lines: seq<string>)
    requires IsSource(x) && x.range.Some? && x.range.value.first == |p| && WithoutBlock(x) == p + q
    ensures lines in Variants(x) <==> Fewer(p, q, lines)
  {
    hide Locate, WithoutBlock, Delete, Fewer;
    VariantParts(p, q);
    FewerIff(p, q, lines);
  }

  lemma {:induction false} FewerIff(p: seq<string>, q: seq<string>, lines: seq<string>)
    ensures Fewer(p, q, lines)
       <==> || lines == p + q
            || (BeginsBlank(q) && lines == p + q[1..])
            || (EndsBlank(p) && lines == p[..|p| - 1] + q)
            || (EndsBlank(p) && BeginsBlank(q) && lines == p[..|p| - 1] + q[1..])
  {
    assert LessLast(p, p) && LessFirst(q, q);
    if EndsBlank(p) { assert LessLast(p, p[..|p| - 1]); }
    if BeginsBlank(q) { assert LessFirst(q, q[1..]); }
    if Fewer(p, q, lines) {
      var p1, q1 :| LessLast(p, p1) && LessFirst(q, q1) && lines == p1 + q1;
      if p1 != p { assert EndsBlank(p) && p1 == p[..|p| - 1]; }
      if q1 != q { assert BeginsBlank(q) && q1 == q[1..]; }
    }
  }

  lemma {:induction false} VariantParts(p: seq<string>, q: seq<string>)
    ensures |p| > 0 ==> (p + q)[|p| - 1] == p[|p| - 1]
    ensures |q| > 0 ==> (p + q)[|p|] == q[0] && Delete(p + q, |p|) == p + q[1..]
    ensures |p| > 0 ==> Delete(p + q, |p| - 1) == p[..|p| - 1] + q
    ensures |p| > 0 && |q| > 0 ==>
              |Delete(p + q, |p|)| >= |p| && Delete(Delete(p + q, |p|), |p| - 1) == p[..|p| - 1] + q[1..]
  {
    if |q| > 0 {
      assert Delete(p + q, |p|) == p + q[1..];
      if |p| > 0 { assert Delete(p + q[1..], |p| - 1) == p[..|p| - 1] + q[1..]; }
    }
    if |p| > 0 { assert Delete(p + q, |p| - 1) == p[..|p| - 1] + q; }
  }

  /** Two sources without blocks are equivalent if and only if they are equal. */
  lemma EquivalentBare(x: Source, y: Source)
    requires IsSource(x) && IsSource(y) && x.range.None? && y.range.None?
    ensures Equivalent(x, y) <==> x.lines == y.lines
  {}

  /** A block may also have moved: these two sources are equivalent, and have no common surroundings. */
  lemma {:induction false} MovedBlock(u: string, b: seq<string>)
    requires IsBlock(b) && u != DO && Locate([OPEN, u] + b + [CLOSE]).Some?
    ensures FoundEquivalent([OPEN, u] + b + [CLOSE], [OPEN] + b + [u, CLOSE])
    ensures !exists p, b1, b2, q :: Surrounds([OPEN, u] + b + [CLOSE], p, b1, q)
                                    && Surrounds([OPEN] + b + [u, CLOSE], p, b2, q)
  {
    hide Locate, CountLines, IsBlock;
    PlainClass();
    var x, y := [OPEN, u] + b + [CLOSE], [OPEN] + b + [u, CLOSE];
    assert Surrounds(x, [OPEN, u], b, [CLOSE]) && Surrounds(y, [OPEN], b, [u, CLOSE]);
    LocateParts(x, [OPEN, u], b, [CLOSE]);
    LocateParts(y, [OPEN], b, [u, CLOSE]);
    EquivalentWithBlocks(Source(x, Locate(x).value), [OPEN, u], b, [CLOSE],
                         Source(y, Locate(y).value), [OPEN], b, [u, CLOSE]);
    assert [OPEN, u] + [CLOSE] == [OPEN] + [u, CLOSE];
    forall p, b1, b2, q ensures !(Surrounds(x, p, b1, q) && Surrounds(y, p, b2, q)) {
      if Surrounds(x, p, b1, q) && Surrounds(y, p, b2, q) {
        OneSurroundings(Source(x, Locate(x).value), p, b1, q);
        OneSurroundings(Source(y, Locate(y).value), p, b2, q);
      }
    }
  }

  // ------------------------------------------------------------------
  // A change outside the block shows
  // ------------------------------------------------------------------

  lemma {:induction false} ChangedParts(p: seq<string>, b: seq<string>, q: seq<string>, i: nat, l: string)
    requires i < |p| + |b| + |q| && !(|p| <= i < |p| + |b|)
    ensures var p' := if i < |p| then p[i := l] else p;
            var q' := if i < |p| then q else q[i - |p| - |b| := l];
            (p + b + q)[i := l] == p' + b + q' && (l != (p + b + q)[i] ==> p' + q' != p + q)
  {
    var k := if i < |p| then i else i - |b|;
    var p' := if i < |p| then p[i := l] else p;
    var q' := if i < |p| then q else q[i - |p| - |b| := l];
    assert (p' + q')[k] == l && (p + q)[k] == (p + b + q)[i];
  }

  /** With any line outside the block changed, the tool still reads the source, finds the block in the same
      place, and something else around it. */
  lemma {:induction false} ChangedOutside(s: Source, i: nat, l: string)
    requires IsSource(s) && s.range.Some? && i < |s.lines| && l != s.lines[i] && l != DO
    requires !(s.range.value.first <= i <= s.range.value.last)
    ensures IsSource(Source(s.lines[i := l], s.range))
    ensures WithoutBlock(Source(s.lines[i := l], s.range)) != WithoutBlock(s)
  {
    hide Locate, IsBlock, WithoutBlock;
    var r, x := s.range.value, s.lines;
    HasSurroundings(s);
    var p, b, q := x[..r.first], x[r.first..r.last + 1], x[r.last + 1..];
    ChangedParts(p, b, q, i, l);
    var p' := if i < |p| then p[i := l] else p;
    var q' := if i < |p| then q else q[i - |p| - |b| := l];
    assert Surrounds(x[i := l], p', b, q');
    LocateParts(x, p, b, q);
    LocateParts(x[i := l], p', b, q');
    OneSurroundings(s, p, b, q);
    OneSurroundings(Source(x[i := l], s.range), p', b, q');
  }

  /** Whatever the composer writes, with any line outside the block changed it is not equivalent any more,
      neither to what was written nor to a source with a block that it was written into. */
  lemma {:induction false} ChangedLineShows(ends: ClassEnd, current: seq<string>, planned: seq<string>, a: Publication,
                                            x: seq<string>, r: Range, i: nat, l: string)
    requires Valid(a) && Compose(ends, current, planned, a) == Some(x) && Locate(x) == Some(Some(r))
    requires i < |x| && l != x[i] && l != DO && !(r.first <= i <= r.last)
    ensures Locate(x[i := l]) == Some(Some(r)) && !FoundEquivalent(x[i := l], x)
    ensures Parse(current) != Some(None) ==> !FoundEquivalent(x[i := l], current)
  {
    hide Locate, Parse, Compose, Around, WithoutBlock;
    var s := Source(x, Some(r));
    ChangedOutside(s, i, l);
    if Parse(current) != Some(None) && Locate(current).Some? { SameAround(ends, current, planned, a); }
  }

  lemma {:induction false} SameAround(ends: ClassEnd, current: seq<string>, planned: seq<string>, a: Publication)
    requires Valid(a) && Compose(ends, current, planned, a).Some?
    requires Parse(current) != Some(None) && Locate(current).Some?
    ensures var x := Compose(ends, current, planned, a).value;
            && Locate(x).Some? && Locate(x).value.Some? && Locate(current).value.Some?
            && WithoutBlock(Source(x, Locate(x).value)) == WithoutBlock(Source(current, Locate(current).value))
  {
    hide Locate, Parse, Refused, Edited, Around;
    assert Parse(current).Some? && Parse(current).value.Some?;
    LocateComposed(ends, current, planned, a);
    LocateIff(current);
    AroundOfBlock(ends, current);
  }

  // ------------------------------------------------------------------
  // Identity
  // ------------------------------------------------------------------

  function Blanks(n: nat): (s: seq<string>)
    ensures |s| == n && forall i :: 0 <= i < n ==> s[i] == BLANK
  {
    seq(n, _ => BLANK)
  }

  /** The class ends behind `n` blank lines. */
  ghost predicate ClassOf(ends: ClassEnd, lines: seq<string>, head: seq<string>, n: nat, tail: seq<string>) {
    && lines == head + Blanks(n) + tail && (head == [] || head[|head| - 1] != BLANK)
    && ends(lines) == Some(|head| + n)
  }

  /** The blank lines before the class end that an identity has: the composer's own one is not counted, and
      there is at least one. */
  function OwnBlanks(block: bool, n: nat): nat {
    if block then (if n <= 2 then 1 else n - 1) else (if n == 0 then 1 else n)
  }

  /** The identity is the source without its block, but for the number of blank lines before the class
      end. */
  lemma {:induction false} IdentityParts(ends: ClassEnd, s: Source, head: seq<string>, n: nat, tail: seq<string>)
    requires IsSource(s) && ClassOf(ends, WithoutBlock(s), head, n, tail)
    ensures Identity(ends, s) == Some(head + Blanks(OwnBlanks(s.range.Some?, n)) + tail)
  {
    hide Locate, WithoutBlock, BlankStart, Delete, InsertAt;
    BlankStartIsUnique(WithoutBlock(s), |head| + n, |head|);
    BlankSurgery(head, n, tail);
  }

  lemma {:induction false} BlankSurgery(head: seq<string>, n: nat, tail: seq<string>)
    ensures var lines, e := head + Blanks(n) + tail, |head| + n;
            && (n == 0 ==> InsertAt(lines, e, [BLANK]) == head + Blanks(1) + tail)
            && (n > 0 ==> Delete(lines, e - 1) == head + Blanks(n - 1) + tail)
            && (n == 1 ==> |head| <= |Delete(lines, |head|)|
                           && InsertAt(Delete(lines, |head|), |head|, [BLANK]) == head + Blanks(1) + tail)
  {
    if n > 0 {
      TakeBlank(head, n, tail);
      if n == 1 { PutBlank(head, tail); }
    } else {
      PutBlank(head, tail);
    }
  }

  lemma PutBlank(head: seq<string>, tail: seq<string>)
    ensures InsertAt(head + Blanks(0) + tail, |head|, [BLANK]) == head + Blanks(1) + tail
  {
    var lines := head + Blanks(0) + tail;
    assert lines[..|head|] == head && lines[|head|..] == tail && Blanks(1) == [BLANK];
  }

  lemma TakeBlank(head: seq<string>, n: nat, tail: seq<string>)
    requires n > 0
    ensures Delete(head + Blanks(n) + tail, |head| + n - 1) == head + Blanks(n - 1) + tail
  {
    var front := head + Blanks(n - 1);
    assert Blanks(n) == Blanks(n - 1) + [BLANK];
    assert head + Blanks(n) + tail == front + [BLANK] + tail;
    DeleteMiddle(front, BLANK, tail);
  }

  /** Every source whose class end can be found is of this form. */
  lemma {:induction false} HasClass(ends: ClassEnd, s: Source)
    returns (head: seq<string>, n: nat, tail: seq<string>)
    requires Stable(ends) && IsSource(s) && ends(WithoutBlock(s)).Some?
    ensures ClassOf(ends, WithoutBlock(s), head, n, tail)
  {
    hide Locate, WithoutBlock;
    var lines := WithoutBlock(s);
    var e := ends(lines).value;
    assert StableAt(ends, lines, e);
    var b := BlankStart(lines, e);
    head, n, tail := lines[..b], e - b, lines[e..];
    assert Blanks(n) == lines[b..e];
    assert lines == head + Blanks(n) + tail;
  }

  lemma {:induction false} OneMoreBlank(ends: ClassEnd, head: seq<string>, n: nat, tail: seq<string>)
    requires Stable(ends) && ClassOf(ends, head + Blanks(n) + tail, head, n, tail)
    ensures ClassOf(ends, head + Blanks(n + 1) + tail, head, n + 1, tail)
    ensures n > 0 ==> ClassOf(ends, head + Blanks(n - 1) + tail, head, n - 1, tail)
  {
    var lines, e := head + Blanks(n) + tail, |head| + n;
    assert StableAt(ends, lines, e);
    assert lines[..e] == head + Blanks(n) && lines[e..] == tail;
    assert Blanks(n + 1) == Blanks(n) + [BLANK];
    assert InsertAt(lines, e, [BLANK]) == head + Blanks(n + 1) + tail;
    if n > 0 {
      assert lines[e - 1] == BLANK;
      assert lines[..e - 1] == head + Blanks(n - 1);
      assert lines[..e - 1] + lines[e..] == head + Blanks(n - 1) + tail;
    }
  }

  lemma {:induction false} OwnClass(ends: ClassEnd, block: bool, head: seq<string>, n: nat, tail: seq<string>)
    requires Stable(ends) && ClassOf(ends, head + Blanks(n) + tail, head, n, tail)
    ensures var m := OwnBlanks(block, n); ClassOf(ends, head + Blanks(m) + tail, head, m, tail)
  {
    hide ClassOf;
    OneMoreBlank(ends, head, n, tail);
  }

  lemma {:induction false} OneClass(ends: ClassEnd, lines: seq<string>, head: seq<string>, n: nat, tail: seq<string>,
                                    head': seq<string>, n': nat, tail': seq<string>)
    requires ClassOf(ends, lines, head, n, tail) && ClassOf(ends, lines, head', n', tail')
    ensures head == head' && n == n' && tail == tail'
  {
    var e := |head| + n;
    BlankStartIsUnique(lines, e, |head|);
    BlankStartIsUnique(lines, e, |head'|);
    assert lines[..|head|] == head && lines[..|head'|] == head' && lines[e..] == tail && lines[e..] == tail';
  }

  /** Two sources have the same identity if and only if they are the same without their blocks, up to the
      class end with its blank lines, behind it, and in the number of their own blank lines before it. */
  lemma {:induction false} SameIdentityIff(ends: ClassEnd, s: Source, head: seq<string>, n: nat, tail: seq<string>,
                                           s': Source, head': seq<string>, n': nat, tail': seq<string>)
    requires Stable(ends) && IsSource(s) && IsSource(s')
    requires ClassOf(ends, WithoutBlock(s), head, n, tail) && ClassOf(ends, WithoutBlock(s'), head', n', tail')
    ensures Identity(ends, s) == Identity(ends, s')
       <==> head == head' && tail == tail' && OwnBlanks(s.range.Some?, n) == OwnBlanks(s'.range.Some?, n')
  {
    hide Locate, WithoutBlock, Identity, Stable, OwnBlanks, ClassOf;
    IdentityParts(ends, s, head, n, tail);
    IdentityParts(ends, s', head', n', tail');
    assert WithoutBlock(s) == head + Blanks(n) + tail by { ClassLines(ends, WithoutBlock(s), head, n, tail); }
    assert WithoutBlock(s') == head' + Blanks(n') + tail' by { ClassLines(ends, WithoutBlock(s'), head', n', tail'); }
    var m, m' := OwnBlanks(s.range.Some?, n), OwnBlanks(s'.range.Some?, n');
    OwnClass(ends, s.range.Some?, head, n, tail);
    OwnClass(ends, s'.range.Some?, head', n', tail');
    if Identity(ends, s) == Identity(ends, s') {
      OneClass(ends, head + Blanks(m) + tail, head, m, tail, head', m', tail');
    }
  }

  lemma ClassLines(ends: ClassEnd, lines: seq<string>, head: seq<string>, n: nat, tail: seq<string>)
    requires ClassOf(ends, lines, head, n, tail)
    ensures lines == head + Blanks(n) + tail
  {}

  // ------------------------------------------------------------------
  // Publications
  // ------------------------------------------------------------------

  /** What the publication may replace: the bottle that was there when it was planned, or itself. */
  predicate Replaceable(current: Block, planned: Option<Block>, a: Publication) {
    a.tag in current.tags ==>
      || current.tags[a.tag] == a.pour
      || (planned.Some? && a.tag in planned.value.tags && planned.value.tags[a.tag] == current.tags[a.tag])
  }

  /** A publication is written if and only if both sources can be read, the bottle of its tag has not
      changed since it was planned, and a block has its root and rebuild and is still there if the
      siblings are kept; without a block the class end must be found. */
  lemma {:induction false} ComposeIff(ends: ClassEnd, current: seq<string>, planned: seq<string>, a: Publication)
    ensures Compose(ends, current, planned, a).Some?
       <==> match (Parse(current), Parse(planned))
            case (Some(Some(c)), Some(p)) =>
              Replaceable(c, p, a) && (a.preserve ==> c.root == a.root && c.rebuild == a.rebuild)
            case (Some(None), Some(p)) =>
              (a.preserve ==> p.None?) && ends(current).Some? && ends(current).value <= |current|
            case _ => false
  {
    hide Parse, Render;
  }

  /** A bottle that someone else has put there since is never overwritten. */
  lemma NeverOverwritten(ends: ClassEnd, current: seq<string>, planned: seq<string>, a: Publication)
    requires Parse(current).Some? && Parse(current).value.Some? && a.tag in Parse(current).value.value.tags
    requires Parse(current).value.value.tags[a.tag] != a.pour
    requires PourOf(if Parse(planned).Some? then Parse(planned).value else None, a.tag)
             != Some(Parse(current).value.value.tags[a.tag])
    ensures Compose(ends, current, planned, a) == None
  {
    hide Parse, Render;
    ComposeIff(ends, current, planned, a);
  }

  /** What is written: the publication, and beside it exactly the siblings that were there, if they are
      kept. */
  lemma {:induction false} PublishedBlock(ends: ClassEnd, current: seq<string>, planned: seq<string>, a: Publication,
                                          t: Tag)
    requires Valid(a) && Compose(ends, current, planned, a).Some?
    ensures var x := Parse(Compose(ends, current, planned, a).value);
            var c := Parse(current).value;
            && x.Some? && x.value.Some? && x.value.value.root == a.root && x.value.value.rebuild == a.rebuild
            && PourOf(x.value, t) == if t == a.tag then Some(a.pour) else if a.preserve then PourOf(c, t) else None
  {
    hide Parse, Render, Refused, Edited, Around;
    ParseComposed(ends, current, planned, a);
  }
}
