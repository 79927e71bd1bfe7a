/** Which declarations of a Formula are runtime dependencies: the last part of parse_formula in
    scripts/homebrew-formula-runtime-closure.rb. */
module FormulaDependencies {
  import opened Options
  import opened Sequences
  import opened RuntimeClosure

  datatype Tag = Build | Test | Optional | Recommended

  /** A `depends_on` line. */
  datatype Declaration = Declaration(name: string, tags: set<Tag>)

  /** The combinations parse_tags lets through. */
  predicate KnownTags(tags: set<Tag>) {
    tags in {{}, {Recommended}, {Build}, {Test}, {Optional}, {Build, Test}}
  }

  predicate IsLowerOrDigit(c: char) { 'a' <= c <= 'z' || '0' <= c <= '9' }

  /** FORMULA_NAME. */
  predicate IsFormulaName(s: string) {
    && s != "" && IsLowerOrDigit(s[0])
    && forall i :: 0 <= i < |s| ==> IsLowerOrDigit(s[i]) || s[i] == '.' || s[i] == '_' || s[i] == '-'
  }

  function Lower(c: char): char { if 'A' <= c <= 'Z' then c - 'A' + 'a' else c }

  function Downcase(s: string): (r: string)
    ensures |r| == |s|
  {
    seq(|s|, i requires 0 <= i < |s| => Lower(s[i]))
  }

  function FullName(tap: string, name: string): string { tap + "/" + name }

  predicate InTap(tap: string, full: string) { FullName(tap, "") <= full }

  function Child(tap: string, full: string): string
    requires InTap(tap, full)
  {
    full[|tap| + 1..]
  }

  /** The declaration does not count at run time. */
  predicate Excluded(d: Declaration) { d.tags in {{Build}, {Test}, {Build, Test}} }

  /** The declaration makes parse_formula abort. */
  predicate Rejected(tap: string, d: Declaration) {
    && !Excluded(d)
    && (|| (InTap(tap, Downcase(d.name)) && d.name != Downcase(d.name))
        || (InTap(tap, d.name) && !IsFormulaName(Child(tap, d.name))))
  }

  /** The declaration becomes an edge. */
  predicate Selected(tap: string, d: Declaration) {
    !Excluded(d) && InTap(tap, d.name) && Optional !in d.tags
  }

  predicate Repeats(ds: seq<Declaration>, i: nat)
    requires i < |ds|
  {
    exists j :: 0 <= j < i && ds[j].name == ds[i].name
  }

  function RuntimeCount(ds: seq<Declaration>): nat {
    if ds == [] then 0 else RuntimeCount(ds[..|ds| - 1]) + (if Excluded(ds[|ds| - 1]) then 0 else 1)
  }

  function Chosen(tap: string, ds: seq<Declaration>): seq<string> {
    if ds == [] then []
    else
      var d := ds[|ds| - 1];
      Chosen(tap, ds[..|ds| - 1]) + (if Selected(tap, d) then [Child(tap, d.name)] else [])
  }

  predicate Accepted(tap: string, ds: seq<Declaration>) {
    && (forall i :: 0 <= i < |ds| ==> KnownTags(ds[i].tags) && !Repeats(ds, i) && !Rejected(tap, ds[i]))
    && RuntimeCount(ds) <= MAX_DEPENDENCIES
  }

  lemma {:induction false} CountGrows(ds: seq<Declaration>, i: nat)
    requires i <= |ds|
    ensures RuntimeCount(ds[..i]) <= RuntimeCount(ds)
    decreases |ds|
  {
    if i < |ds| {
      CountGrows(ds[..|ds| - 1], i);
      assert ds[..|ds| - 1][..i] == ds[..i];
    } else {
      assert ds[..i] == ds;
    }
  }

  /** parse_tags and the loop over the declarations. It succeeds exactly if all tags are known, no
      declaration repeats an earlier one or is malformed and the runtime ones are not too many, and
      then selects in declaration order. */
  method Select(tap: string, ds: seq<Declaration>) returns (selected: Option<seq<string>>)
    ensures selected.Some? <==> Accepted(tap, ds)
    ensures selected.Some? ==> selected.value == Chosen(tap, ds)
  {
    hide InTap, Child, IsFormulaName, Downcase, KnownTags, Excluded;
    var seen: set<string> := {};
    var runtime := 0;
    var chosen: seq<string> := [];
    var i := 0;
    while i < |ds|
      invariant 0 <= i <= |ds|
      invariant forall x :: x in seen <==> exists j :: 0 <= j < i && ds[j].name == x
      invariant runtime == RuntimeCount(ds[..i]) <= MAX_DEPENDENCIES && chosen == Chosen(tap, ds[..i])
      invariant forall j :: 0 <= j < i ==> KnownTags(ds[j].tags) && !Repeats(ds, j) && !Rejected(tap, ds[j])
    {
      var d := ds[i];
      assert ds[..i + 1][..i] == ds[..i] && ds[..i + 1][i] == d;
      assert d.name in seen <==> Repeats(ds, i);
      if !KnownTags(d.tags) || d.name in seen {
        return None;
      }
      seen := seen + {d.name};
      if !Excluded(d) {
        var sameTap := InTap(tap, d.name);
        if InTap(tap, Downcase(d.name)) && d.name != Downcase(d.name) {
          return None;
        }
        if sameTap && !IsFormulaName(Child(tap, d.name)) {
          return None;
        }
        runtime := runtime + 1;
        if runtime > MAX_DEPENDENCIES {
          CountGrows(ds, i + 1);
          return None;
        }
        if sameTap && Optional !in d.tags {
          chosen := chosen + [Child(tap, d.name)];
        }
      }
      i := i + 1;
    }
    assert ds[..i] == ds;
    return Some(chosen);
  }

  /** An edge of the search is exactly a required or recommended dependency on a Formula of the
      same tap. */
  lemma {:induction false} ChosenIff(tap: string, ds: seq<Declaration>, child: string)
    requires forall i :: 0 <= i < |ds| ==> KnownTags(ds[i].tags)
    ensures child in Chosen(tap, ds)
       <==> exists i :: 0 <= i < |ds| && ds[i].name == FullName(tap, child) && ds[i].tags in {{}, {Recommended}}
    decreases |ds|
  {
    if ds != [] {
      var init, d := ds[..|ds| - 1], ds[|ds| - 1];
      ChosenIff(tap, init, child);
      SelectedIff(tap, d, child);
      if i :| 0 <= i < |ds| && ds[i].name == FullName(tap, child) && ds[i].tags in {{}, {Recommended}} {
        if i < |ds| - 1 {
          assert init[i].name == FullName(tap, child) && init[i].tags in {{}, {Recommended}};
        }
      }
      if child in Chosen(tap, init) {
        var i :| 0 <= i < |init| && init[i].name == FullName(tap, child) && init[i].tags in {{}, {Recommended}};
        assert ds[i] == init[i];
      }
    }
  }

  /** The names selected are proper names, each once and not too many. */
  lemma {:induction false} ChosenAreNames(tap: string, ds: seq<Declaration>)
    requires forall i :: 0 <= i < |ds| ==> !Repeats(ds, i) && !Rejected(tap, ds[i])
    ensures forall i :: 0 <= i < |Chosen(tap, ds)| ==>
              && IsFormulaName(Chosen(tap, ds)[i])
              && exists j :: 0 <= j < |ds| && ds[j].name == FullName(tap, Chosen(tap, ds)[i])
    ensures Distinct(Chosen(tap, ds)) && |Chosen(tap, ds)| <= RuntimeCount(ds)
    decreases |ds|
  {
    if ds != [] {
      var init, d := ds[..|ds| - 1], ds[|ds| - 1];
      assert forall i :: 0 <= i < |init| ==> init[i] == ds[i] && (Repeats(init, i) <==> Repeats(ds, i));
      ChosenAreNames(tap, init);
      if Selected(tap, d) {
        NameAndChild(tap, d.name);
        var child := Child(tap, d.name);
        assert !Repeats(ds, |ds| - 1);
        assert child !in Chosen(tap, init);
      }
    }
  }

  lemma NameAndChild(tap: string, full: string)
    requires InTap(tap, full)
    ensures FullName(tap, Child(tap, full)) == full
  {
    assert full == FullName(tap, "") + full[|tap| + 1..];
  }

  lemma {:induction false} SelectedIff(tap: string, d: Declaration, child: string)
    requires KnownTags(d.tags)
    ensures (Selected(tap, d) && Child(tap, d.name) == child)
       <==> (d.name == FullName(tap, child) && d.tags in {{}, {Recommended}})
  {
    assert {Build} != {Test} && Optional in {Optional};
    assert Optional !in {Recommended};
    if InTap(tap, d.name) {
      assert d.name == FullName(tap, "") + d.name[|tap| + 1..];
      assert FullName(tap, Child(tap, d.name)) == d.name;
    }
    if d.name == FullName(tap, child) {
      assert InTap(tap, d.name) && Child(tap, d.name) == child;
    }
  }
}
