/** scripts/homebrew-formula-runtime-closure.rb as a whole: from the declarations of the Formulae of a
    tap to the lists it prints. */
module FormulaTap {
  import opened Options
  import opened Sequences
  import opened Order
  import opened RuntimeClosure
  import opened FormulaDependencies
  import FormulaBlock
  import FormulaCompose
  import FormulaBottle

  // ------------------------------------------------------------------
  // Declarations
  // ------------------------------------------------------------------

  /** A Formula file: the dependencies it declares, its lines, and the first line of its bottle block,
      if it has one. */
  datatype Formula = Formula(declarations: seq<Declaration>, lines: seq<string>, bottle: Option<nat>)

  /** What parse_formula makes of the bottle block; None is an abort. */
  function BottleIn(f: Formula): Option<Option<FormulaBlock.Block>> {
    match f.bottle
    case None => Some(None)
    case Some(at) =>
      match FormulaBottle.ReadBottle(f.lines, at)
      case None => None
      case Some(b) => Some(Some(b))
  }

  /** A tap, with its name in lower case: what each Formula file says, None where the script aborts
      over the file before it looks at the dependencies and the bottle block. */
  datatype Shelf = Shelf(tap: string, files: string -> Option<Formula>)

  /** The file can be read, and its bottle block and its declarations are accepted. */
  predicate Legible(shelf: Shelf, x: string) {
    && shelf.files(x).Some? && BottleIn(shelf.files(x).value).Some?
    && Accepted(shelf.tap, shelf.files(x).value.declarations)
  }

  /** What parse_formula returns; None is an abort. */
  function DepsOf(shelf: Shelf, x: string): Option<seq<string>> {
    if Legible(shelf, x) then Some(Chosen(shelf.tap, shelf.files(x).value.declarations)) else None
  }

  /** parse_formula as it runs. */
  method ParseFormula(shelf: Shelf, x: string) returns (dependencies: Option<seq<string>>)
    ensures dependencies == DepsOf(shelf, x)
  {
    if shelf.files(x).None? {
      return None;
    }
    var f := shelf.files(x).value;
    if f.bottle.Some? {
      var block := FormulaBottle.ParseBottle(f.lines, f.bottle.value);
      if block.None? {
        return None;
      }
    }
    dependencies := Select(shelf.tap, f.declarations);
  }

  function TapOf(shelf: Shelf, target: string): Tap { Tap(x => DepsOf(shelf, x), target) }

  /** Formula `x` has a required or recommended dependency on Formula `d` of the same tap. */
  ghost predicate Declares(shelf: Shelf, x: string, d: string) {
    && Legible(shelf, x)
    && var ds := shelf.files(x).value.declarations;
       exists i :: 0 <= i < |ds| && ds[i].name == FullName(shelf.tap, d) && ds[i].tags in {{}, {Recommended}}
  }

  /** The edges of the search are these declarations. */
  lemma EdgeIff(shelf: Shelf, target: string, x: string, d: string)
    ensures Edge(TapOf(shelf, target), x, d) <==> Declares(shelf, x, d)
  {
    hide Chosen;
    if Legible(shelf, x) {
      ChosenIff(shelf.tap, shelf.files(x).value.declarations, d);
    }
  }

  ghost predicate DeclaredPath(shelf: Shelf, p: seq<string>) {
    p != [] && forall i :: 0 <= i < |p| - 1 ==> Declares(shelf, p[i], p[i + 1])
  }

  /** `target` needs `x` at run time, directly or over others. */
  ghost predicate Needs(shelf: Shelf, target: string, x: string) {
    exists p :: DeclaredPath(shelf, p) && |p| > 1 && p[0] == target && p[|p| - 1] == x
  }

  lemma PathIff(shelf: Shelf, target: string, p: seq<string>)
    ensures IsPath(TapOf(shelf, target), p) <==> DeclaredPath(shelf, p)
  {
    hide Declares, Edge, TapOf;
    forall i | 0 <= i < |p| - 1
      ensures Edge(TapOf(shelf, target), p[i], p[i + 1]) <==> Declares(shelf, p[i], p[i + 1])
    {
      EdgeIff(shelf, target, p[i], p[i + 1]);
    }
  }

  /** What the search reaches is what the target needs. */
  lemma NeedsIff(shelf: Shelf, target: string, x: string)
    ensures Needs(shelf, target, x) <==> Reachable(TapOf(shelf, target), x, 1)
  {
    hide DeclaredPath, IsPath, DepsOf;
    var g := TapOf(shelf, target);
    if Needs(shelf, target, x) {
      var p :| DeclaredPath(shelf, p) && |p| > 1 && p[0] == target && p[|p| - 1] == x;
      PathIff(shelf, target, p);
      assert PathFromTo(g, p, g.target, x);
    }
    if Reachable(g, x, 1) {
      var p :| PathFromTo(g, p, g.target, x) && |p| > 1;
      PathIff(shelf, target, p);
    }
  }

  lemma DeclaredIsName(shelf: Shelf, x: string, d: string)
    requires Declares(shelf, x, d)
    ensures IsFormulaName(d)
  {
    hide Chosen, IsFormulaName, RuntimeCount;
    var ds := shelf.files(x).value.declarations;
    ChosenIff(shelf.tap, ds, d);
    ChosenAreNames(shelf.tap, ds);
  }

  lemma NeededIsName(shelf: Shelf, target: string, x: string)
    requires Needs(shelf, target, x)
    ensures IsFormulaName(x)
  {
    hide Declares, IsFormulaName;
    var p :| DeclaredPath(shelf, p) && |p| > 1 && p[0] == target && p[|p| - 1] == x;
    assert Declares(shelf, p[|p| - 2], p[|p| - 2 + 1]);
    DeclaredIsName(shelf, p[|p| - 2], x);
  }

  // ------------------------------------------------------------------
  // Dependencies outside the tap
  // ------------------------------------------------------------------

  /** The Formula has a required or recommended dependency outside the tap. */
  predicate External(shelf: Shelf, x: string) {
    shelf.files(x).Some?
    && var ds := shelf.files(x).value.declarations;
       exists i :: 0 <= i < |ds| && !Excluded(ds[i]) && !InTap(shelf.tap, ds[i].name) && Optional !in ds[i].tags
  }

  ghost predicate NoneExternal(shelf: Shelf, target: string) {
    !External(shelf, target) && forall x :: Needs(shelf, target, x) ==> !External(shelf, x)
  }

  method FindExternal(shelf: Shelf, names: seq<string>) returns (found: bool)
    ensures found <==> exists i :: 0 <= i < |names| && External(shelf, names[i])
  {
    var i := 0;
    while i < |names|
      invariant 0 <= i <= |names| && forall j :: 0 <= j < i ==> !External(shelf, names[j])
    {
      if External(shelf, names[i]) {
        return true;
      }
      i := i + 1;
    }
    return false;
  }

  // ------------------------------------------------------------------
  // Lists of names
  // ------------------------------------------------------------------

  method Listed(s: set<string>) returns (xs: seq<string>)
    ensures Distinct(xs) && forall x :: x in xs <==> x in s
  {
    xs := [];
    var left := s;
    while left != {}
      invariant left <= s && Distinct(xs) && forall x :: x in xs <==> x in s - left
      decreases |left|
    {
      var x :| x in left;
      assert x !in xs;
      left := left - {x};
      xs := xs + [x];
    }
  }

  lemma FullNameInjective(tap: string, x: string, y: string)
    requires FullName(tap, x) == FullName(tap, y)
    ensures x == y
  {
    assert FullName(tap, x)[|tap| + 1..] == x && FullName(tap, y)[|tap| + 1..] == y;
  }

  lemma ChildOfFull(tap: string, x: string)
    ensures InTap(tap, FullName(tap, x)) && Child(tap, FullName(tap, x)) == x
  {
    assert FullName(tap, x)[..|tap| + 1] == FullName(tap, "");
  }

  function FullNames(tap: string, xs: seq<string>): (fs: seq<string>)
    ensures |fs| == |xs|
  {
    seq(|xs|, i requires 0 <= i < |xs| => FullName(tap, xs[i]))
  }

  lemma {:induction false} FullNamesIff(tap: string, xs: seq<string>, x: string)
    ensures FullName(tap, x) in FullNames(tap, xs) <==> x in xs
  {
    if FullName(tap, x) in FullNames(tap, xs) {
      var i :| 0 <= i < |xs| && FullNames(tap, xs)[i] == FullName(tap, x);
      FullNameInjective(tap, x, xs[i]);
    }
    if x in xs {
      var i :| 0 <= i < |xs| && xs[i] == x;
      assert FullNames(tap, xs)[i] == FullName(tap, x);
    }
  }

  lemma {:induction false} FullNamesDistinct(tap: string, xs: seq<string>)
    requires Distinct(xs)
    ensures Distinct(FullNames(tap, xs))
  {
    hide FullName;
    forall i, j | 0 <= i < j < |xs| ensures FullNames(tap, xs)[i] != FullNames(tap, xs)[j] {
      if FullName(tap, xs[i]) == FullName(tap, xs[j]) { FullNameInjective(tap, xs[i], xs[j]); }
    }
  }

  /** The full names of the members of `xs`, sorted. */
  ghost predicate SortedFull(tap: string, fs: seq<string>, xs: set<string>) {
    && StrictlySorted(fs)
    && (forall x :: FullName(tap, x) in fs <==> x in xs)
    && (forall f :: f in fs ==> InTap(tap, f) && Child(tap, f) in xs)
  }

  lemma {:induction false} SortFull(tap: string, xs: seq<string>)
    requires Distinct(xs)
    ensures SortedFull(tap, Sort(FullNames(tap, xs)), set x | x in xs)
    ensures |Sort(FullNames(tap, xs))| == |xs|
  {
    hide Sort, StrictlySorted, FullName, FullNames, Distinct, Child;
    FullNamesDistinct(tap, xs);
    SortSorts(FullNames(tap, xs));
    SortLength(FullNames(tap, xs));
    forall x ensures FullName(tap, x) in Sort(FullNames(tap, xs)) <==> x in xs { FullNamesIff(tap, xs, x); }
    forall f | f in Sort(FullNames(tap, xs)) ensures InTap(tap, f) && Child(tap, f) in xs {
      FullNamesChild(tap, xs, f);
    }
  }

  lemma {:induction false} FullNamesChild(tap: string, xs: seq<string>, f: string)
    requires f in FullNames(tap, xs)
    ensures InTap(tap, f) && Child(tap, f) in xs
  {
    hide FullName, Child;
    var i :| 0 <= i < |xs| && FullNames(tap, xs)[i] == f;
    ChildOfFull(tap, xs[i]);
  }

  // ------------------------------------------------------------------
  // What the script prints
  // ------------------------------------------------------------------

  /** A record of the output. */
  datatype Bottle = Bottle(cellar: string, rebuild: int, sha256: string, tag: string, url: string)

  function UrlOf(root: string, name: string, sha256: string): string {
    root + "/" + name + "/blobs/sha256:" + sha256
  }

  /** The record of a Formula, None if it has no bottle block or none for the tag. */
  function BottleOf(shelf: Shelf, tag: FormulaBlock.Tag, name: string): Option<Bottle> {
    match shelf.files(name)
    case None => None
    case Some(f) =>
      match BottleIn(f)
      case Some(Some(b)) => if tag in b.tags then Some(RecordOf(b, b.tags[tag], tag, name)) else None
      case _ => None
  }

  function RecordOf(b: FormulaBlock.Block, p: FormulaBlock.Pour, tag: FormulaBlock.Tag, name: string): Bottle {
    Bottle(p.cellar, b.rebuild, p.digest, FormulaBlock.TagText(tag), UrlOf(b.root, name, p.digest))
  }

  /** The record of a Formula that the composer has written is the publication, exactly if the root
      does not end in a slash and the cellars of the siblings kept are known; otherwise the script
      aborts over the file. */
  lemma PublishedIsResolved(shelf: Shelf, name: string, ends: FormulaCompose.ClassEnd, current: seq<string>,
                            planned: seq<string>, a: FormulaCompose.Publication)
    requires FormulaCompose.Valid(a) && FormulaCompose.Compose(ends, current, planned, a).Some?
    requires FormulaCompose.Around(ends, current).Some? && shelf.files(name).Some?
    requires shelf.files(name).value.lines == FormulaCompose.Compose(ends, current, planned, a).value
    requires shelf.files(name).value.bottle == Some(|FormulaCompose.Around(ends, current).value.0|)
    ensures BottleIn(shelf.files(name).value).Some?
       <==> !FormulaBlock.EndsWith(a.root, "/")
            && FormulaBottle.KeepsKnownCellars(FormulaBlock.Parse(current).value, a)
    ensures BottleIn(shelf.files(name).value).Some? ==>
              BottleOf(shelf, a.tag, name)
              == Some(Bottle(FormulaBottle.CellarName(a.pour.cellar), a.rebuild, a.pour.digest,
                             FormulaBlock.TagText(a.tag), UrlOf(a.root, name, a.pour.digest)))
  {
    hide FormulaCompose.Compose, FormulaCompose.Around, FormulaCompose.Valid, FormulaBottle.ReadBottle,
         FormulaBottle.KeepsKnownCellars, FormulaBlock.EndsWith, FormulaBlock.Parse, UrlOf;
    FormulaBottle.ReadsComposed(ends, current, planned, a);
  }

  /** The search finishes, and nothing it meets depends on another tap. */
  ghost predicate Plain(shelf: Shelf, target: string) {
    Resolvable(TapOf(shelf, target)) && NoneExternal(shelf, target)
  }

  /** The script up to its output: the closure, if it gets that far. */
  method Close(shelf: Shelf, target: string) returns (closure: Option<set<string>>)
    ensures closure.Some? <==> Plain(shelf, target)
    ensures closure.Some? ==> (forall x :: x in closure.value <==> Needs(shelf, target, x))
    ensures closure.Some? ==> |closure.value| <= MAX_DEPENDENCIES
  {
    hide Resolvable, Reachable, Needs, External, TapOf;
    var o, names := Resolve(TapOf(shelf, target));
    if o != Finished {
      return None;
    }
    forall x ensures x in names <==> Needs(shelf, target, x) { ReachedIsNeeded(shelf, target, x); }
    var met := Listed(names);
    met := [target] + met;
    var found := FindExternal(shelf, met);
    MetExternal(shelf, target, names, met);
    if found {
      return None;
    }
    return Some(names);
  }

  lemma ReachedIsNeeded(shelf: Shelf, target: string, x: string)
    ensures Reachable(TapOf(shelf, target), x, 1) <==> Needs(shelf, target, x)
  {
    hide Reachable, Needs;
    NeedsIff(shelf, target, x);
  }

  lemma MetExternal(shelf: Shelf, target: string, names: set<string>, met: seq<string>)
    requires met != [] && met[0] == target && forall x :: x in met[1..] <==> x in names
    requires forall x :: x in names <==> Needs(shelf, target, x)
    ensures (exists i :: 0 <= i < |met| && External(shelf, met[i])) <==> !NoneExternal(shelf, target)
  {
    hide External, Needs;
    if i :| 0 <= i < |met| && External(shelf, met[i]) {
      if i > 0 { assert met[1..][i - 1] == met[i]; }
    }
    if External(shelf, target) { assert External(shelf, met[0]); }
    if x :| Needs(shelf, target, x) && External(shelf, x) {
      var i :| 0 <= i < |met[1..]| && met[1..][i] == x;
      assert met[i + 1] == x;
    }
  }

  /** The target can be read when the search finishes. */
  lemma TargetIsLegible(shelf: Shelf, target: string)
    requires Resolvable(TapOf(shelf, target))
    ensures Legible(shelf, target)
  {
    var g := TapOf(shelf, target);
    assert PathFromTo(g, [target], g.target, target);
    assert Reachable(g, target, 0);
  }

  /** Lines of full names: sorted, and exactly those of the members. */
  ghost predicate NamesOf(tap: string, fs: seq<string>, member: string -> bool) {
    && StrictlySorted(fs)
    && (forall x :: FullName(tap, x) in fs <==> member(x))
    && (forall f :: f in fs ==> InTap(tap, f))
  }

  /** The `--direct` mode: the full names of the target's own dependencies. */
  method PrintDirect(shelf: Shelf, target: string) returns (lines: Option<seq<string>>)
    ensures lines.Some? <==> Plain(shelf, target)
    ensures lines.Some? ==> NamesOf(shelf.tap, lines.value, x => Declares(shelf, target, x))
    ensures lines.Some? ==> |lines.value| <= MAX_DEPENDENCIES
  {
    hide Resolvable, Needs, NoneExternal;
    var closure := Close(shelf, target);
    if closure.None? {
      return None;
    }
    TargetIsLegible(shelf, target);
    var direct := DepsOf(shelf, target).value;
    DirectNames(shelf, target);
    return Some(Sort(FullNames(shelf.tap, direct)));
  }

  lemma DirectNames(shelf: Shelf, target: string)
    requires Legible(shelf, target)
    ensures var lines := Sort(FullNames(shelf.tap, DepsOf(shelf, target).value));
            NamesOf(shelf.tap, lines, x => Declares(shelf, target, x)) && |lines| <= MAX_DEPENDENCIES
  {
    hide Sort, Chosen, StrictlySorted, RuntimeCount, Declares, FullName;
    var ds := shelf.files(target).value.declarations;
    var direct := DepsOf(shelf, target).value;
    ChosenAreNames(shelf.tap, ds);
    SortFull(shelf.tap, direct);
    var lines := Sort(FullNames(shelf.tap, direct));
    forall x ensures FullName(shelf.tap, x) in lines <==> Declares(shelf, target, x) {
      EdgeIff(shelf, target, target, x);
    }
  }

  /** The output with an architecture: the records of the closure, sorted by full name. It comes
      only if every member has a bottle for the tag. */
  method PrintRecords(shelf: Shelf, target: string, tag: FormulaBlock.Tag)
    returns (records: Option<seq<(string, Bottle)>>)
    ensures records.Some? <==>
              Plain(shelf, target) && forall x :: Needs(shelf, target, x) ==> BottleOf(shelf, tag, x).Some?
    ensures records.Some? ==> RecordsOf(shelf, target, tag, records.value)
  {
    hide Needs, Plain, Sort, StrictlySorted, FullName, BottleOf;
    var closure := Close(shelf, target);
    if closure.None? {
      return None;
    }
    var xs := Listed(closure.value);
    SortFull(shelf.tap, xs);
    SameSize(xs, closure.value);
    var fs := Sort(FullNames(shelf.tap, xs));
    records := CollectRecords(shelf, tag, fs);
    if records.Some? {
      AllRecords(shelf, target, tag, fs, records.value, closure.value);
    } else {
      SomeLacks(shelf, target, tag, fs, closure.value);
    }
  }

  method CollectRecords(shelf: Shelf, tag: FormulaBlock.Tag, fs: seq<string>)
    returns (records: Option<seq<(string, Bottle)>>)
    requires forall f :: f in fs ==> InTap(shelf.tap, f)
    ensures records.None? ==> exists f :: f in fs && BottleOf(shelf, tag, Child(shelf.tap, f)) == None
    ensures records.Some? ==>
              |records.value| == |fs| && forall j :: 0 <= j < |fs| ==> RecordAt(shelf, tag, fs, records.value, j)
  {
    hide BottleOf;
    var out: seq<(string, Bottle)> := [];
    var i := 0;
    while i < |fs|
      invariant 0 <= i <= |fs| && |out| == i
      invariant forall j :: 0 <= j < i ==> RecordAt(shelf, tag, fs, out, j)
    {
      assert fs[i] in fs;
      var bottle := BottleOf(shelf, tag, Child(shelf.tap, fs[i]));
      if bottle.None? {
        return None;
      }
      ghost var before := out;
      out := out + [(fs[i], bottle.value)];
      forall j | 0 <= j < i + 1 ensures RecordAt(shelf, tag, fs, out, j) {
        if j < i { assert RecordAt(shelf, tag, fs, before, j) && out[j] == before[j]; }
      }
      i := i + 1;
    }
    return Some(out);
  }

  lemma SomeLacks(shelf: Shelf, target: string, tag: FormulaBlock.Tag, fs: seq<string>, closure: set<string>)
    requires SortedFull(shelf.tap, fs, closure) && forall x :: x in closure <==> Needs(shelf, target, x)
    requires exists f :: f in fs && BottleOf(shelf, tag, Child(shelf.tap, f)) == None
    ensures !(forall x :: Needs(shelf, target, x) ==> BottleOf(shelf, tag, x).Some?)
  {
    hide Needs, StrictlySorted, FullName, BottleOf;
    var f :| f in fs && BottleOf(shelf, tag, Child(shelf.tap, f)) == None;
    assert Needs(shelf, target, Child(shelf.tap, f));
  }

  ghost predicate RecordAt(shelf: Shelf, tag: FormulaBlock.Tag, fs: seq<string>, out: seq<(string, Bottle)>, j: nat)
    requires j < |fs| && j < |out|
  {
    InTap(shelf.tap, fs[j]) && out[j].0 == fs[j] && BottleOf(shelf, tag, Child(shelf.tap, fs[j])) == Some(out[j].1)
  }

  function Keys(records: seq<(string, Bottle)>): (fs: seq<string>)
    ensures |fs| == |records|
  {
    seq(|records|, i requires 0 <= i < |records| => records[i].0)
  }

  /** What is printed: the names that the target needs, each with the record of its own Formula. */
  ghost predicate RecordsOf(shelf: Shelf, target: string, tag: FormulaBlock.Tag, records: seq<(string, Bottle)>) {
    && NamesOf(shelf.tap, Keys(records), x => Needs(shelf, target, x))
    && |records| <= MAX_DEPENDENCIES
    && forall j :: 0 <= j < |records| ==> RecordAt(shelf, tag, Keys(records), records, j)
  }

  lemma {:induction false} SameSize(xs: seq<string>, s: set<string>)
    requires Distinct(xs) && forall x :: x in xs <==> x in s
    ensures |xs| == |s|
    decreases |xs|
  {
    if xs == [] {
      assert s == {};
    } else {
      var x, rest := xs[0], xs[1..];
      assert xs == [x] + rest;
      assert forall y :: y in rest <==> y in s - {x};
      SameSize(rest, s - {x});
    }
  }

  lemma {:induction false} AllRecords(shelf: Shelf, target: string, tag: FormulaBlock.Tag, fs: seq<string>,
                                      out: seq<(string, Bottle)>, closure: set<string>)
    requires |fs| == |out| == |closure| <= MAX_DEPENDENCIES && SortedFull(shelf.tap, fs, closure)
    requires forall x :: x in closure <==> Needs(shelf, target, x)
    requires forall j :: 0 <= j < |fs| ==> RecordAt(shelf, tag, fs, out, j)
    ensures RecordsOf(shelf, target, tag, out)
    ensures forall x :: Needs(shelf, target, x) ==> BottleOf(shelf, tag, x).Some?
  {
    hide Needs, StrictlySorted, FullName, BottleOf, Child;
    assert Keys(out) == fs by {
      forall j | 0 <= j < |fs| ensures Keys(out)[j] == fs[j] { assert RecordAt(shelf, tag, fs, out, j); }
    }
    forall x | Needs(shelf, target, x) ensures BottleOf(shelf, tag, x).Some? {
      assert FullName(shelf.tap, x) in fs;
      RecordedBottle(shelf, tag, fs, out, x);
    }
  }

  lemma {:induction false} RecordedBottle(shelf: Shelf, tag: FormulaBlock.Tag, fs: seq<string>,
                                          out: seq<(string, Bottle)>, x: string)
    requires |fs| == |out| && FullName(shelf.tap, x) in fs
    requires forall j :: 0 <= j < |fs| ==> RecordAt(shelf, tag, fs, out, j)
    ensures BottleOf(shelf, tag, x).Some?
  {
    hide FullName, BottleOf, Child;
    var j :| 0 <= j < |fs| && fs[j] == FullName(shelf.tap, x);
    assert RecordAt(shelf, tag, fs, out, j);
    ChildOfFull(shelf.tap, x);
  }
}
