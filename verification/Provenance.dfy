/** The dependency provenance validator of scripts/homebrew-dependency-provenance.py: it accepts a
    document only if its dependency list is the runtime closure of the Formula. */
module Provenance {
  import opened Options
  import opened Order
  import opened RuntimeClosure
  import opened FormulaDependencies
  import opened FormulaTap
  import FormulaBlock
  import FormulaCompose
  import FormulaBottle

  // ------------------------------------------------------------------
  // The document
  // ------------------------------------------------------------------

  /** `evidence` is what the checks on receipts, logs, versions and digests look at. */
  datatype Dependency<E> = Dependency(name: string, fullName: string, declaredDirectly: bool, bottle: Bottle,
                                      evidence: E)

  /** What exact_tap_dependencies and exact_direct_dependencies return. */
  datatype Static = Static(bottles: map<string, Bottle>, direct: set<string>)

  /** The build the document has to fit: tap, bottle root and tag, and the static closure if a tap
      root is given; `local` stands for the checks on a dependency's evidence alone. */
  datatype Build<!E> = Build(tap: string, root: string, tag: FormulaBlock.Tag, resolved: Option<Static>,
                             local: Dependency<E> -> bool)

  predicate BottleOk(b: Bottle, root: string, tag: FormulaBlock.Tag, name: string) {
    && FormulaBlock.IsDigest(b.sha256) && b.tag == FormulaBlock.TagText(tag) && b.url == UrlOf(root, name, b.sha256)
    && b.cellar in FormulaBottle.CELLARS && b.rebuild >= 0
  }

  /** What the composer has published and the resolver can read passes these checks. */
  lemma PublishedIsOk(shelf: Shelf, name: string, ends: FormulaCompose.ClassEnd, current: seq<string>,
                      planned: seq<string>, a: FormulaCompose.Publication)
    requires FormulaCompose.Valid(a) && FormulaCompose.Compose(ends, current, planned, a).Some?
    requires FormulaCompose.Around(ends, current).Some? && shelf.files(name).Some?
    requires shelf.files(name).value.lines == FormulaCompose.Compose(ends, current, planned, a).value
    requires shelf.files(name).value.bottle == Some(|FormulaCompose.Around(ends, current).value.0|)
    requires BottleIn(shelf.files(name).value).Some?
    ensures BottleOf(shelf, a.tag, name).Some? && BottleOk(BottleOf(shelf, a.tag, name).value, a.root, a.tag, name)
  {
    hide FormulaCompose.Compose, FormulaCompose.Around, BottleIn, BottleOf, UrlOf, FormulaBottle.CellarName;
    PublishedIsResolved(shelf, name, ends, current, planned, a);
    FormulaBottle.ValidCellar(a);
  }

  /** The checks on one dependency, in the order of the loop, the sorting aside. */
  predicate EntryOk<E>(build: Build<E>, d: Dependency<E>) {
    && IsFormulaName(d.name) && d.fullName == FullName(build.tap, d.name)
    && (build.resolved.Some? ==> (d.declaredDirectly <==> d.fullName in build.resolved.value.direct))
    && BottleOk(d.bottle, build.root, build.tag, d.name)
    && (build.resolved.Some? ==>
          d.fullName in build.resolved.value.bottles && build.resolved.value.bottles[d.fullName] == d.bottle)
    && build.local(d)
  }

  function Names<E>(ds: seq<Dependency<E>>): (ns: seq<string>)
    ensures |ns| == |ds|
  {
    seq(|ds|, i requires 0 <= i < |ds| => ds[i].fullName)
  }

  /** The document says what the tap says. */
  ghost predicate Matches<E>(build: Build<E>, ds: seq<Dependency<E>>) {
    && |ds| <= MAX_DEPENDENCIES && StrictlySorted(Names(ds))
    && (forall i :: 0 <= i < |ds| ==> EntryOk(build, ds[i]))
    && (build.resolved.Some? ==> forall x :: x in Names(ds) <==> x in build.resolved.value.bottles)
  }

  lemma {:induction false} SortedAppend(ns: seq<string>, last: string, x: string)
    requires StrictlySorted(ns) && Less(last, x)
    requires if ns == [] then last == "" else last == ns[|ns| - 1]
    ensures StrictlySorted(ns + [x])
  {
    forall i, j | 0 <= i < j < |ns + [x]| ensures Less((ns + [x])[i], (ns + [x])[j]) {
      if j == |ns| && i < |ns| - 1 {
        LessTransitive(ns[i], last, x);
      }
    }
  }

  // ------------------------------------------------------------------
  // The loop over the document
  // ------------------------------------------------------------------

  /** The loop of validate_document accepts exactly the documents that match. */
  method ValidateDocument<E>(build: Build<E>, ds: seq<Dependency<E>>) returns (accepted: bool)
    ensures accepted <==> Matches(build, ds)
  {
    hide Less, IsFormulaName, BottleOk, StrictlySorted;
    if |ds| > MAX_DEPENDENCIES {
      return false;
    }
    var seen: set<string> := {};
    var prior := "";
    var i := 0;
    NoneSorted(Names(ds)[..0]);
    while i < |ds|
      invariant 0 <= i <= |ds| && StrictlySorted(Names(ds)[..i])
      invariant forall x :: x in seen <==> x in Names(ds)[..i]
      invariant if i == 0 then prior == "" else prior == ds[i - 1].fullName
      invariant forall j :: 0 <= j < i ==> EntryOk(build, ds[j])
    {
      var d := ds[i];
      assert Names(ds)[..i + 1] == Names(ds)[..i] + [d.fullName];
      if !(IsFormulaName(d.name) && d.fullName == FullName(build.tap, d.name)) {
        return false;
      }
      if d.fullName in seen || !Less(prior, d.fullName) {
        Unsorted(Names(ds), i, prior);
        return false;
      }
      SortedAppend(Names(ds)[..i], prior, d.fullName);
      seen, prior := seen + {d.fullName}, d.fullName;
      if !EntryOk(build, d) {
        return false;
      }
      i := i + 1;
    }
    assert Names(ds)[..i] == Names(ds);
    accepted := build.resolved.None? || seen == build.resolved.value.bottles.Keys;
    assert accepted && build.resolved.Some? ==> forall x :: x in Names(ds) <==> x in build.resolved.value.bottles;
  }

  lemma NoneSorted(ns: seq<string>)
    requires ns == []
    ensures StrictlySorted(ns)
  {}

  lemma {:induction false} Unsorted(names: seq<string>, i: nat, prior: string)
    requires i < |names| && names[i] != "" && (if i == 0 then prior == "" else prior == names[i - 1])
    requires names[i] in names[..i] || !Less(prior, names[i])
    ensures !StrictlySorted(names)
  {
    if StrictlySorted(names) && names[i] in names[..i] {
      var j :| 0 <= j < i && names[j] == names[i];
      LessIrreflexive(names[i]);
    }
  }

  // ------------------------------------------------------------------
  // The checks on what the resolver prints
  // ------------------------------------------------------------------

  /** parse_expected_dependencies on one line without blanks around it. */
  predicate NameOk(tap: string, full: string) {
    Downcase(full) == full && InTap(tap, full) && IsFormulaName(Child(tap, full))
  }

  function Filled(lines: seq<string>): nat {
    if lines == [] then 0 else Filled(lines[..|lines| - 1]) + (if lines[|lines| - 1] == "" then 0 else 1)
  }

  lemma NoneFilled(lines: seq<string>)
    requires lines == []
    ensures Filled(lines) == 0
  {}

  lemma {:induction false} FilledStep(lines: seq<string>, i: nat)
    requires i < |lines|
    ensures Filled(lines[..i + 1]) == Filled(lines[..i]) + (if lines[i] == "" then 0 else 1)
  {
    assert lines[..i + 1][..i] == lines[..i];
  }

  /** The line is blank or a name that has not come before. */
  predicate LineOk(tap: string, lines: seq<string>, i: nat)
    requires i < |lines|
  {
    lines[i] == "" || (NameOk(tap, lines[i]) && lines[i] !in lines[..i])
  }

  ghost predicate LinesOk(tap: string, lines: seq<string>) {
    forall i :: 0 <= i < |lines| ==> LineOk(tap, lines, i)
  }

  /** parse_expected_dependencies on lines; None is an error. */
  method ParseExpected(tap: string, lines: seq<string>) returns (expected: Option<set<string>>)
    ensures expected.Some? <==> LinesOk(tap, lines) && Filled(lines) <= MAX_DEPENDENCIES
    ensures expected.Some? ==> forall f :: f in expected.value <==> f != "" && f in lines
  {
    hide NameOk, Filled;
    var found: set<string> := {};
    var i := 0;
    assert Filled(lines[..0]) == 0 by { NoneFilled(lines[..0]); }
    while i < |lines|
      invariant 0 <= i <= |lines| && |found| == Filled(lines[..i])
      invariant forall f :: f in found <==> f != "" && f in lines[..i]
      invariant forall j :: 0 <= j < i ==> LineOk(tap, lines, j)
    {
      var full := lines[i];
      FilledStep(lines, i);
      assert lines[..i + 1] == lines[..i] + [full];
      if full != "" {
        if !NameOk(tap, full) || full in found {
          assert !LineOk(tap, lines, i);
          return None;
        }
        found := found + {full};
      }
      i := i + 1;
    }
    assert lines[..i] == lines;
    if |found| > MAX_DEPENDENCIES {
      return None;
    }
    return Some(found);
  }

  predicate RecordOk(tap: string, tag: FormulaBlock.Tag, root: string, record: (string, Bottle)) {
    NameOk(tap, record.0) && BottleOk(record.1, root, tag, Child(tap, record.0))
  }

  /** The checks of exact_tap_dependencies on the resolver's output; None is an error. */
  method CheckRecords(tap: string, tag: FormulaBlock.Tag, root: string, records: seq<(string, Bottle)>)
    returns (bottles: Option<map<string, Bottle>>)
    ensures bottles.Some? <==>
              && |records| <= MAX_DEPENDENCIES && StrictlySorted(Keys(records))
              && forall i :: 0 <= i < |records| ==> RecordOk(tap, tag, root, records[i])
    ensures bottles.Some? ==> Collected(records, |records|, bottles.value)
  {
    hide Less, RecordOk, StrictlySorted, Collected;
    if |records| > MAX_DEPENDENCIES {
      return None;
    }
    var got: map<string, Bottle> := map[];
    var prior := "";
    var i := 0;
    NoneSorted(Keys(records)[..0]);
    NoneCollected(records);
    while i < |records|
      invariant 0 <= i <= |records| && StrictlySorted(Keys(records)[..i])
      invariant if i == 0 then prior == "" else prior == records[i - 1].0
      invariant forall j :: 0 <= j < i ==> RecordOk(tap, tag, root, records[j])
      invariant Collected(records, i, got)
    {
      var full := records[i].0;
      assert Keys(records)[..i + 1] == Keys(records)[..i] + [full];
      if !RecordOk(tap, tag, root, records[i]) {
        return None;
      }
      NamedRecord(tap, tag, root, records[i]);
      if !Less(prior, full) {
        Unsorted(Keys(records), i, prior);
        return None;
      }
      SortedAppend(Keys(records)[..i], prior, full);
      CollectOne(records, i, got);
      got := got[full := records[i].1];
      prior := full;
      i := i + 1;
    }
    assert Keys(records)[..i] == Keys(records);
    return Some(got);
  }

  /** The dictionary of the first `i` records. */
  ghost predicate Collected(records: seq<(string, Bottle)>, i: nat, got: map<string, Bottle>)
    requires i <= |records|
  {
    && (forall f :: f in got <==> f in Keys(records)[..i])
    && forall j :: 0 <= j < i ==> records[j].0 in got && got[records[j].0] == records[j].1
  }

  lemma NoneCollected(records: seq<(string, Bottle)>)
    ensures Collected(records, 0, map[])
  {}

  lemma {:induction false} CollectOne(records: seq<(string, Bottle)>, i: nat, got: map<string, Bottle>)
    requires i < |records| && Collected(records, i, got)
    requires StrictlySorted(Keys(records)[..i + 1])
    ensures Collected(records, i + 1, got[records[i].0 := records[i].1])
  {
    hide StrictlySorted;
    var keys := Keys(records)[..i + 1];
    NotBefore(keys, i);
    assert keys == Keys(records)[..i] + [records[i].0];
    forall j | 0 <= j < i ensures records[j].0 != records[i].0 {
      assert keys[j] == records[j].0 && keys[i] == records[i].0;
    }
  }

  lemma NamedRecord(tap: string, tag: FormulaBlock.Tag, root: string, record: (string, Bottle))
    requires RecordOk(tap, tag, root, record)
    ensures record.0 != ""
  {}

  lemma {:induction false} NotBefore(names: seq<string>, i: nat)
    requires i < |names| && StrictlySorted(names)
    ensures forall j :: 0 <= j < i ==> names[j] != names[i]
  {
    LessIrreflexive(names[i]);
  }

  // ------------------------------------------------------------------
  // What acceptance means
  // ------------------------------------------------------------------

  /** Every Formula the target needs has a bottle that is as the build wants it. */
  ghost predicate AllBottled(shelf: Shelf, target: string, tag: FormulaBlock.Tag, root: string) {
    forall x :: Needs(shelf, target, x) ==>
      BottleOf(shelf, tag, x).Some? && BottleOk(BottleOf(shelf, tag, x).value, root, tag, x)
  }

  ghost predicate BottlesOf(shelf: Shelf, target: string, tag: FormulaBlock.Tag, bottles: map<string, Bottle>) {
    && (forall x :: FullName(shelf.tap, x) in bottles <==> Needs(shelf, target, x))
    && (forall x :: Needs(shelf, target, x) ==> BottleOf(shelf, tag, x) == Some(bottles[FullName(shelf.tap, x)]))
    && (forall f :: f in bottles ==> InTap(shelf.tap, f))
  }

  lemma {:induction false} LowerName(tap: string, x: string)
    requires Downcase(tap) == tap && IsFormulaName(x)
    ensures NameOk(tap, FullName(tap, x))
  {
    ChildOfFull(tap, x);
    var full := FullName(tap, x);
    forall i | 0 <= i < |full| ensures Downcase(full)[i] == full[i] {
      if i < |tap| {
        assert Downcase(tap)[i] == tap[i] == full[i];
      } else if i > |tap| {
        assert full[i] == x[i - |tap| - 1];
      }
    }
  }

  /** exact_tap_dependencies. */
  method ExactTapDependencies(shelf: Shelf, target: string, tag: FormulaBlock.Tag, root: string)
    returns (bottles: Option<map<string, Bottle>>)
    requires Downcase(shelf.tap) == shelf.tap
    ensures bottles.Some? <==> Plain(shelf, target) && AllBottled(shelf, target, tag, root)
    ensures bottles.Some? ==> BottlesOf(shelf, target, tag, bottles.value)
  {
    hide Plain, Needs, AllBottled, BottlesOf, RecordOk, StrictlySorted;
    var records := PrintRecords(shelf, target, tag);
    if records.None? {
      NoRecords(shelf, target, tag, root);
      return None;
    }
    bottles := CheckRecords(shelf.tap, tag, root, records.value);
    RecordsIff(shelf, target, tag, root, records.value);
    if bottles.Some? {
      CheckedRecords(shelf, target, tag, records.value, bottles.value);
    }
  }

  lemma NoRecords(shelf: Shelf, target: string, tag: FormulaBlock.Tag, root: string)
    ensures AllBottled(shelf, target, tag, root) ==>
              forall x :: Needs(shelf, target, x) ==> BottleOf(shelf, tag, x).Some?
  {
    hide Needs, BottleOk, BottleOf;
  }

  /** The checks on the records come to: all the bottles are as the build wants them. */
  lemma {:induction false} RecordsIff(shelf: Shelf, target: string, tag: FormulaBlock.Tag, root: string,
                                      records: seq<(string, Bottle)>)
    requires Downcase(shelf.tap) == shelf.tap && RecordsOf(shelf, target, tag, records)
    ensures (forall i :: 0 <= i < |records| ==> RecordOk(shelf.tap, tag, root, records[i]))
       <==> AllBottled(shelf, target, tag, root)
    ensures |records| <= MAX_DEPENDENCIES && StrictlySorted(Keys(records))
  {
    hide Needs, StrictlySorted, FullName, BottleOf, BottleOk, NameOk, Downcase, IsFormulaName;
    forall i | 0 <= i < |records|
      ensures InTap(shelf.tap, records[i].0)
      ensures var x := Child(shelf.tap, records[i].0);
              && Needs(shelf, target, x) && BottleOf(shelf, tag, x) == Some(records[i].1)
              && NameOk(shelf.tap, records[i].0)
    {
      RecordOfNeeded(shelf, target, tag, records, i);
    }
    forall x | Needs(shelf, target, x)
      ensures exists i :: 0 <= i < |records| && InTap(shelf.tap, records[i].0) && Child(shelf.tap, records[i].0) == x
    {
      var i :| 0 <= i < |records| && Keys(records)[i] == FullName(shelf.tap, x);
      ChildOfFull(shelf.tap, x);
      assert Child(shelf.tap, records[i].0) == x;
    }
  }

  lemma {:induction false} RecordOfNeeded(shelf: Shelf, target: string, tag: FormulaBlock.Tag,
                                          records: seq<(string, Bottle)>, i: nat)
    requires Downcase(shelf.tap) == shelf.tap && RecordsOf(shelf, target, tag, records) && i < |records|
    ensures InTap(shelf.tap, records[i].0)
    ensures var x := Child(shelf.tap, records[i].0);
            && Needs(shelf, target, x) && BottleOf(shelf, tag, x) == Some(records[i].1)
            && NameOk(shelf.tap, records[i].0) && records[i].0 == FullName(shelf.tap, x)
  {
    hide Needs, StrictlySorted, FullName, BottleOf, NameOk, Downcase, IsFormulaName;
    assert RecordAt(shelf, tag, Keys(records), records, i);
    assert Keys(records)[i] == records[i].0;
    var x := Child(shelf.tap, records[i].0);
    NameAndChild(shelf.tap, records[i].0);
    assert FullName(shelf.tap, x) in Keys(records);
    NeededIsName(shelf, target, x);
    LowerName(shelf.tap, x);
  }

  lemma {:induction false} CheckedRecords(shelf: Shelf, target: string, tag: FormulaBlock.Tag,
                                          records: seq<(string, Bottle)>, bottles: map<string, Bottle>)
    requires Downcase(shelf.tap) == shelf.tap && RecordsOf(shelf, target, tag, records)
    requires Collected(records, |records|, bottles)
    ensures BottlesOf(shelf, target, tag, bottles)
  {
    hide Needs, StrictlySorted, FullName, BottleOf, NameOk, Downcase, IsFormulaName;
    assert Keys(records)[..|records|] == Keys(records);
    forall x | Needs(shelf, target, x) ensures BottleOf(shelf, tag, x) == Some(bottles[FullName(shelf.tap, x)]) {
      assert FullName(shelf.tap, x) in Keys(records);
      var i :| 0 <= i < |records| && Keys(records)[i] == FullName(shelf.tap, x);
      RecordOfNeeded(shelf, target, tag, records, i);
      ChildOfFull(shelf.tap, x);
    }
  }

  /** exact_direct_dependencies. */
  method ExactDirectDependencies(shelf: Shelf, target: string) returns (direct: Option<set<string>>)
    requires Downcase(shelf.tap) == shelf.tap
    ensures direct.Some? <==> Plain(shelf, target)
    ensures direct.Some? ==> forall x :: FullName(shelf.tap, x) in direct.value <==> Declares(shelf, target, x)
  {
    hide Plain, Declares, StrictlySorted, NameOk;
    var lines := PrintDirect(shelf, target);
    if lines.None? {
      return None;
    }
    DirectLinesOk(shelf, target, lines.value);
    direct := ParseExpected(shelf.tap, lines.value);
    assert forall x :: FullName(shelf.tap, x) != "";
  }

  lemma {:induction false} DirectLinesOk(shelf: Shelf, target: string, lines: seq<string>)
    requires Downcase(shelf.tap) == shelf.tap && NamesOf(shelf.tap, lines, x => Declares(shelf, target, x))
    ensures LinesOk(shelf.tap, lines) && Filled(lines) <= |lines|
  {
    hide Declares, FullName, NameOk, Downcase, IsFormulaName;
    forall i | 0 <= i < |lines| ensures NameOk(shelf.tap, lines[i]) {
      assert lines[i] in lines;
      var x := Child(shelf.tap, lines[i]);
      NameAndChild(shelf.tap, lines[i]);
      DeclaredIsName(shelf, target, x);
      LowerName(shelf.tap, x);
    }
    forall j | 0 <= j < |lines| ensures LineOk(shelf.tap, lines, j) { NotBefore(lines, j); }
    FilledLines(lines);
  }

  lemma {:induction false} FilledLines(lines: seq<string>)
    ensures Filled(lines) <= |lines|
    decreases |lines|
  {
    if lines != [] { FilledLines(lines[..|lines| - 1]); }
  }

  /** The document says what the tap says: exactly the Formulae that the target needs, sorted and once
      each, each with the bottle that its own Formula names, and with exactly the target's own
      dependencies marked. */
  ghost predicate Fits<E>(shelf: Shelf, target: string, tag: FormulaBlock.Tag, local: Dependency<E> -> bool,
                          ds: seq<Dependency<E>>)
  {
    && |ds| <= MAX_DEPENDENCIES && StrictlySorted(Names(ds))
    && (forall x :: FullName(shelf.tap, x) in Names(ds) <==> Needs(shelf, target, x))
    && forall i :: 0 <= i < |ds| ==> EntryFits(shelf, target, tag, local, ds[i])
  }

  ghost predicate EntryFits<E>(shelf: Shelf, target: string, tag: FormulaBlock.Tag, local: Dependency<E> -> bool,
                               d: Dependency<E>)
  {
    && IsFormulaName(d.name) && d.fullName == FullName(shelf.tap, d.name)
    && BottleOf(shelf, tag, d.name) == Some(d.bottle)
    && (d.declaredDirectly <==> Declares(shelf, target, d.name))
    && local(d)
  }

  /** validate_document with a tap root: the resolver runs twice, its outputs are checked, and the
      document is compared with them. It is accepted exactly if the tap can be resolved, depends
      on no other tap, has all the bottles, and the document says what it says. */
  method ValidateAgainstTap<E>(tapName: string, files: string -> Option<Formula>, target: string, tag: FormulaBlock.Tag,
                               root: string, local: Dependency<E> -> bool, ds: seq<Dependency<E>>)
    returns (accepted: bool)
    ensures var shelf := Shelf(Downcase(tapName), files);
            accepted <==> && Plain(shelf, target) && AllBottled(shelf, target, tag, root)
                          && Fits(shelf, target, tag, local, ds)
  {
    hide Plain, AllBottled, Fits, BottlesOf, Matches, Declares;
    var shelf := Shelf(Downcase(tapName), files);
    DowncaseTwice(tapName);
    var bottles := ExactTapDependencies(shelf, target, tag, root);
    if bottles.None? {
      return false;
    }
    var direct := ExactDirectDependencies(shelf, target);
    var build := Build.Build(shelf.tap, root, tag, Some(Static(bottles.value, direct.value)), local);
    accepted := ValidateDocument(build, ds);
    MatchesIffFits(shelf, target, build, ds);
  }

  lemma DowncaseTwice(s: string)
    ensures Downcase(Downcase(s)) == Downcase(s)
  {}

  lemma {:induction false} MatchesIffFits<E>(shelf: Shelf, target: string, build: Build<E>, ds: seq<Dependency<E>>)
    requires build.tap == shelf.tap && build.resolved.Some? && AllBottled(shelf, target, build.tag, build.root)
    requires BottlesOf(shelf, target, build.tag, build.resolved.value.bottles)
    requires forall x :: FullName(shelf.tap, x) in build.resolved.value.direct <==> Declares(shelf, target, x)
    ensures Matches(build, ds) <==> Fits(shelf, target, build.tag, build.local, ds)
  {
    hide StrictlySorted, Declares, Needs, BottleOk, BottleOf, FullName, EntryOk, EntryFits, IsFormulaName;
    if Matches(build, ds) {
      forall i | 0 <= i < |ds| ensures EntryFits(shelf, target, build.tag, build.local, ds[i]) {
        assert Names(ds)[i] == ds[i].fullName;
        MatchedEntryFits(shelf, target, build, ds[i]);
      }
    }
    if Fits(shelf, target, build.tag, build.local, ds) {
      forall i | 0 <= i < |ds| ensures EntryOk(build, ds[i]) {
        assert Names(ds)[i] == ds[i].fullName;
        FittingEntryMatches(shelf, target, build, ds, i);
      }
      NamesAreBottles(shelf, target, build, ds);
    }
  }

  lemma {:induction false} MatchedEntryFits<E>(shelf: Shelf, target: string, build: Build<E>, d: Dependency<E>)
    requires build.tap == shelf.tap && build.resolved.Some? && EntryOk(build, d)
    requires BottlesOf(shelf, target, build.tag, build.resolved.value.bottles)
    requires forall x :: FullName(shelf.tap, x) in build.resolved.value.direct <==> Declares(shelf, target, x)
    ensures EntryFits(shelf, target, build.tag, build.local, d)
  {
    hide Declares, Needs, BottleOk, BottleOf, FullName, IsFormulaName;
  }

  lemma {:induction false} FittingEntryMatches<E>(shelf: Shelf, target: string, build: Build<E>,
                                                  ds: seq<Dependency<E>>, i: nat)
    requires build.tap == shelf.tap && build.resolved.Some? && AllBottled(shelf, target, build.tag, build.root)
    requires BottlesOf(shelf, target, build.tag, build.resolved.value.bottles)
    requires forall x :: FullName(shelf.tap, x) in build.resolved.value.direct <==> Declares(shelf, target, x)
    requires Fits(shelf, target, build.tag, build.local, ds) && i < |ds|
    ensures EntryOk(build, ds[i])
  {
    hide StrictlySorted, Declares, Needs, BottleOk, BottleOf, FullName, IsFormulaName;
    assert EntryFits(shelf, target, build.tag, build.local, ds[i]);
    assert Names(ds)[i] == FullName(shelf.tap, ds[i].name);
    assert Needs(shelf, target, ds[i].name);
  }

  lemma {:induction false} NamesAreBottles<E>(shelf: Shelf, target: string, build: Build<E>, ds: seq<Dependency<E>>)
    requires build.tap == shelf.tap && build.resolved.Some? && Fits(shelf, target, build.tag, build.local, ds)
    requires BottlesOf(shelf, target, build.tag, build.resolved.value.bottles)
    ensures forall f :: f in Names(ds) <==> f in build.resolved.value.bottles
  {
    hide StrictlySorted, Declares, Needs, BottleOk, BottleOf, FullName, IsFormulaName;
    forall f ensures f in Names(ds) <==> f in build.resolved.value.bottles {
      if f in Names(ds) {
        var i :| 0 <= i < |ds| && Names(ds)[i] == f;
        assert EntryFits(shelf, target, build.tag, build.local, ds[i]);
      }
      if f in build.resolved.value.bottles {
        NameAndChild(shelf.tap, f);
      }
    }
  }

  /** The tap leaves no choice: two accepted documents differ in their evidence at most. */
  lemma {:induction false} AcceptedIsUnique<E>(build: Build<E>, a: seq<Dependency<E>>, b: seq<Dependency<E>>)
    requires build.resolved.Some? && Matches(build, a) && Matches(build, b)
    ensures |a| == |b|
    ensures forall i :: 0 <= i < |a| ==>
              a[i].name == b[i].name && a[i].fullName == b[i].fullName && a[i].bottle == b[i].bottle
              && a[i].declaredDirectly == b[i].declaredDirectly
  {
    SortedIsUnique(Names(a), Names(b));
    forall i | 0 <= i < |a|
      ensures a[i].name == b[i].name && a[i].fullName == b[i].fullName && a[i].bottle == b[i].bottle
      ensures a[i].declaredDirectly == b[i].declaredDirectly
    {
      assert EntryOk(build, a[i]) && EntryOk(build, b[i]);
      assert a[i].fullName == Names(a)[i] == Names(b)[i] == b[i].fullName;
      FullNameInjective(build.tap, a[i].name, b[i].name);
    }
  }
}
