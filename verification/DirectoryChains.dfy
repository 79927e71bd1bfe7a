/** What the walk of fingerprintDirectory in benchmarks/run.ts records, said without walking: by chains
    of entries that lead from the root to what is recorded. */
module DirectoryChains {
  import opened Options
  import opened Order
  import opened FingerprintStream
  import opened DirectoryWalk

  // ------------------------------------------------------------------
  // Chains
  // ------------------------------------------------------------------

  /** The entry `name` of the directory `dir`. */
  datatype Step = Step(dir: Dir, name: string)

  function Names(ss: seq<Step>): (ns: seq<string>)
    ensures |ns| == |ss|
  {
    seq(|ss|, i requires 0 <= i < |ss| => ss[i].name)
  }

  /** The names with slashes between them. */
  function PathOf(ns: seq<string>): string {
    if ns == [] then ""
    else if |ns| == 1 then ns[0]
    else PathOf(ns[..|ns| - 1]) + "/" + ns[|ns| - 1]
  }

  predicate LeadsTo(node: Node, d: Dir) { (node.Sub? || node.LinkDir?) && node.dir == d }

  /** Step `i` of a chain is an entry that can be reached and is not excluded. */
  ghost predicate StepOk(g: Ground, pre: seq<string>, active: set<Dir>, ss: seq<Step>, i: nat)
    requires i < |ss|
  {
    && ss[i].dir in g.fs && ss[i].name in g.fs[ss[i].dir] && ss[i].dir !in active
    && (forall j :: 0 <= j < i ==> ss[j].dir != ss[i].dir)
    && !Excluded(g.exclusions, PathOf(pre + Names(ss[..i + 1])))
    && (i + 1 < |ss| ==> LeadsTo(g.fs[ss[i].dir][ss[i].name], ss[i + 1].dir))
  }

  /** From entry to entry through directories and links to directories, none of them twice and none of
      them active, and none of the paths on the way excluded. `pre` are the names that lead to `dir`. */
  ghost predicate Chain(g: Ground, dir: Dir, pre: seq<string>, active: set<Dir>, ss: seq<Step>) {
    ss != [] && ss[0].dir == dir && forall i :: 0 <= i < |ss| ==> StepOk(g, pre, active, ss, i)
  }

  /** The entry at the end of a chain. */
  function EndOf(g: Ground, ss: seq<Step>): Node {
    if ss != [] && ss[|ss| - 1].dir in g.fs && ss[|ss| - 1].name in g.fs[ss[|ss| - 1].dir]
    then g.fs[ss[|ss| - 1].dir][ss[|ss| - 1].name]
    else Broken
  }

  predicate Met(active: set<Dir>, ss: seq<Step>, d: Dir) { d in active || exists i :: 0 <= i < |ss| && ss[i].dir == d }

  /** `r` is a record for an entry that is `node`: for a directory there is one more where it has been met
      before. */
  ghost predicate Describes(r: Record, node: Node, path: string, active: set<Dir>, ss: seq<Step>) {
    match node
    case Plain(content) => r == Record(File, path, content)
    case LinkFile(content) => r == Record(SymlinkFile, path, content)
    case Special => r == Record(Other, path, "")
    case LinkSpecial => r == Record(SymlinkOther, path, "")
    case Broken => false
    case Sub(d) => r == Record(Directory, path, "") || (Met(active, ss, d) && r == Record(CycleMark, path, ""))
    case LinkDir(d) =>
      r == Record(SymlinkDirectory, path, "") || (Met(active, ss, d) && r == Record(CycleMark, path, ""))
  }

  ghost predicate ChainFor(g: Ground, dir: Dir, pre: seq<string>, active: set<Dir>, ss: seq<Step>, r: Record) {
    Chain(g, dir, pre, active, ss) && Describes(r, EndOf(g, ss), PathOf(pre + Names(ss)), active, ss)
  }

  /** There is a chain for the record. */
  ghost predicate Recorded(g: Ground, dir: Dir, pre: seq<string>, active: set<Dir>, r: Record) {
    exists ss :: ChainFor(g, dir, pre, active, ss, r)
  }

  /** The listings have the names of the file system, sorted, and these can be in paths. */
  ghost predicate Listed(g: Ground) {
    && g.names.Keys == g.fs.Keys
    && (forall d :: d in g.fs ==> StrictlySorted(g.names[d]) && forall n :: n in g.names[d] <==> n in g.fs[d])
    && (forall d, n :: d in g.fs && n in g.fs[d] ==> IsName(n))
  }

  predicate AllNames(ns: seq<string>) { forall i :: 0 <= i < |ns| ==> IsName(ns[i]) }

  lemma {:induction false} JoinIsPath(pre: seq<string>, n: string)
    requires AllNames(pre)
    ensures Join(PathOf(pre), n) == PathOf(pre + [n])
  {
    var all := pre + [n];
    assert all[..|all| - 1] == pre;
    if pre != [] { PathIsNotEmpty(pre); }
  }

  lemma PathIsNotEmpty(ns: seq<string>)
    requires AllNames(ns) && ns != []
    ensures PathOf(ns) != ""
  {}

  // ------------------------------------------------------------------
  // One level
  // ------------------------------------------------------------------

  /** What one name of a directory contributes. */
  function Part(g: Ground, dir: Dir, logical: string, active: set<Dir>, n: string): Option<seq<Record>>
    requires dir in g.fs && dir !in active && n in g.fs[dir]
  {
    var path := Join(logical, n);
    if Excluded(g.exclusions, path) then Some([]) else Entry(g, dir, path, g.fs[dir][n], active)
  }

  lemma {:induction false} EntriesByName(g: Ground, dir: Dir, logical: string, active: set<Dir>, names: seq<string>)
    requires dir in g.fs && dir !in active && forall n :: n in names ==> n in g.fs[dir]
    ensures Entries(g, dir, logical, active, names).Some?
       <==> forall n :: n in names ==> Part(g, dir, logical, active, n).Some?
    ensures Entries(g, dir, logical, active, names).Some? ==>
              forall r :: r in Entries(g, dir, logical, active, names).value
                     <==> exists n :: n in names && r in Part(g, dir, logical, active, n).value
    decreases |names|
  {
    hide Entry, Excluded, Join;
    if names != [] {
      var n, rest := names[0], names[1..];
      assert names == [n] + rest;
      EntriesByName(g, dir, logical, active, rest);
    }
  }

  /** The first step of a chain, and the rest of it. */
  lemma {:induction false} ChainTail(g: Ground, dir: Dir, pre: seq<string>, active: set<Dir>, ss: seq<Step>)
    requires Chain(g, dir, pre, active, ss) && |ss| > 1
    ensures dir in g.fs && dir !in active && ss[0].name in g.fs[dir]
    ensures LeadsTo(g.fs[dir][ss[0].name], ss[1].dir) && !Excluded(g.exclusions, PathOf(pre + [ss[0].name]))
    ensures Chain(g, ss[1].dir, pre + [ss[0].name], active + {dir}, ss[1..])
    ensures pre + [ss[0].name] + Names(ss[1..]) == pre + Names(ss) && EndOf(g, ss[1..]) == EndOf(g, ss)
  {
    hide Excluded, PathOf;
    assert StepOk(g, pre, active, ss, 0);
    assert Names(ss[..1]) == [ss[0].name];
    var tail, pre' := ss[1..], pre + [ss[0].name];
    forall i | 0 <= i < |tail| ensures StepOk(g, pre', active + {dir}, tail, i) {
      assert StepOk(g, pre, active, ss, i + 1);
      assert pre' + Names(tail[..i + 1]) == pre + Names(ss[..i + 2]);
      assert forall j :: 0 <= j < i ==> tail[j] == ss[j + 1];
    }
  }

  lemma {:induction false} ChainCons(g: Ground, dir: Dir, pre: seq<string>, active: set<Dir>, n: string,
                                     tail: seq<Step>)
    requires dir in g.fs && dir !in active && n in g.fs[dir] && !Excluded(g.exclusions, PathOf(pre + [n]))
    requires tail != [] && LeadsTo(g.fs[dir][n], tail[0].dir)
    requires Chain(g, tail[0].dir, pre + [n], active + {dir}, tail)
    ensures var ss := [Step(dir, n)] + tail;
            && Chain(g, dir, pre, active, ss)
            && pre + [n] + Names(tail) == pre + Names(ss) && EndOf(g, ss) == EndOf(g, tail)
  {
    hide Excluded, PathOf;
    var ss := [Step(dir, n)] + tail;
    assert Names(ss[..1]) == [n];
    forall i | 0 <= i < |ss| ensures StepOk(g, pre, active, ss, i) {
      if i > 0 {
        assert StepOk(g, pre + [n], active + {dir}, tail, i - 1);
        assert pre + [n] + Names(tail[..i]) == pre + Names(ss[..i + 1]);
        assert forall j :: 0 < j < i ==> ss[j] == tail[j - 1];
      }
    }
  }

  lemma {:induction false} ChainOne(g: Ground, dir: Dir, pre: seq<string>, active: set<Dir>, n: string)
    requires dir in g.fs && dir !in active && n in g.fs[dir] && !Excluded(g.exclusions, PathOf(pre + [n]))
    ensures var ss := [Step(dir, n)];
            Chain(g, dir, pre, active, ss) && Names(ss) == [n] && EndOf(g, ss) == g.fs[dir][n]
  {
    hide Excluded, PathOf;
    var ss := [Step(dir, n)];
    assert ss[..1] == ss && Names(ss) == [n];
  }

  // ------------------------------------------------------------------
  // The records of a walk are those of the chains
  // ------------------------------------------------------------------

  lemma MetFurther(active: set<Dir>, s: Step, tail: seq<Step>, d: Dir)
    ensures Met(active, [s] + tail, d) <==> Met(active + {s.dir}, tail, d)
  {
    var ss := [s] + tail;
    if i :| 0 <= i < |ss| && ss[i].dir == d {
      if i > 0 { assert tail[i - 1].dir == d; }
    }
    if s.dir == d { assert ss[0].dir == d; }
    if i :| 0 <= i < |tail| && tail[i].dir == d { assert ss[i + 1].dir == d; }
  }

  lemma DescribesFurther(r: Record, node: Node, path: string, active: set<Dir>, s: Step, tail: seq<Step>)
    ensures Describes(r, node, path, active, [s] + tail) <==> Describes(r, node, path, active + {s.dir}, tail)
  {
    hide Met;
    if node.Sub? || node.LinkDir? { MetFurther(active, s, tail, node.dir); }
  }

  /** There is one that begins with the entry `n`. */
  ghost predicate Begins(g: Ground, dir: Dir, pre: seq<string>, active: set<Dir>, n: string, r: Record) {
    exists ss: seq<Step> :: ChainFor(g, dir, pre, active, ss, r) && ss[0].name == n
  }

  /** One chain of more than one step: its first entry is a directory, and the rest is a chain from there. */
  lemma {:induction false} LongChain(g: Ground, dir: Dir, pre: seq<string>, active: set<Dir>, ss: seq<Step>, r: Record)
    requires ChainFor(g, dir, pre, active, ss, r) && |ss| > 1
    ensures dir in g.fs && dir !in active && ss[0].name in g.fs[dir]
    ensures LeadsTo(g.fs[dir][ss[0].name], ss[1].dir) && !Excluded(g.exclusions, PathOf(pre + [ss[0].name]))
    ensures Recorded(g, ss[1].dir, pre + [ss[0].name], active + {dir}, r)
  {
    hide Excluded, PathOf, Describes;
    ChainTail(g, dir, pre, active, ss);
    assert ss == [ss[0]] + ss[1..];
    DescribesFurther(r, EndOf(g, ss), PathOf(pre + Names(ss)), active, ss[0], ss[1..]);
    assert ChainFor(g, ss[1].dir, pre + [ss[0].name], active + {dir}, ss[1..], r);
  }

  lemma {:induction false} LongerChain(g: Ground, dir: Dir, pre: seq<string>, active: set<Dir>, n: string, d: Dir,
                                       r: Record)
    requires dir in g.fs && dir !in active && n in g.fs[dir] && !Excluded(g.exclusions, PathOf(pre + [n]))
    requires LeadsTo(g.fs[dir][n], d) && Recorded(g, d, pre + [n], active + {dir}, r)
    ensures Begins(g, dir, pre, active, n, r)
  {
    hide Excluded, PathOf, Describes;
    var tail :| ChainFor(g, d, pre + [n], active + {dir}, tail, r);
    ChainCons(g, dir, pre, active, n, tail);
    var ss := [Step(dir, n)] + tail;
    DescribesFurther(r, EndOf(g, ss), PathOf(pre + Names(ss)), active, Step(dir, n), tail);
    assert ChainFor(g, dir, pre, active, ss, r) && ss[0].name == n;
  }

  lemma {:induction false} ShortChain(g: Ground, dir: Dir, pre: seq<string>, active: set<Dir>, n: string, r: Record)
    requires dir in g.fs && dir !in active && n in g.fs[dir] && !Excluded(g.exclusions, PathOf(pre + [n]))
    requires Describes(r, g.fs[dir][n], PathOf(pre + [n]), active, [Step(dir, n)])
    ensures Begins(g, dir, pre, active, n, r)
  {
    hide Excluded, PathOf, Describes;
    ChainOne(g, dir, pre, active, n);
    assert ChainFor(g, dir, pre, active, [Step(dir, n)], r) && [Step(dir, n)][0].name == n;
  }

  /** What a chain says about its first entry. */
  lemma {:induction false} FirstStep(g: Ground, dir: Dir, pre: seq<string>, active: set<Dir>, n: string, r: Record)
    requires dir in g.fs && dir !in active && n in g.fs[dir] && Begins(g, dir, pre, active, n, r)
    ensures !Excluded(g.exclusions, PathOf(pre + [n]))
    ensures || Describes(r, g.fs[dir][n], PathOf(pre + [n]), active, [Step(dir, n)])
            || exists d :: LeadsTo(g.fs[dir][n], d) && Recorded(g, d, pre + [n], active + {dir}, r)
  {
    hide Excluded, PathOf, Describes;
    var ss: seq<Step> :| ChainFor(g, dir, pre, active, ss, r) && ss[0].name == n;
    if |ss| == 1 {
      assert StepOk(g, pre, active, ss, 0);
      assert ss[..1] == ss == [Step(dir, n)] && Names(ss) == [n];
    } else {
      LongChain(g, dir, pre, active, ss, r);
    }
  }

  lemma {:induction false} PartIff(g: Ground, dir: Dir, pre: seq<string>, active: set<Dir>, n: string, r: Record)
    requires Listed(g) && AllNames(pre) && dir in g.fs && dir !in active && n in g.fs[dir]
    requires Part(g, dir, PathOf(pre), active, n).Some?
    ensures r in Part(g, dir, PathOf(pre), active, n).value <==> Begins(g, dir, pre, active, n, r)
    decreases g.fs.Keys - active, 0
  {
    hide Excluded, PathOf, Walk, Join, Listed, Recorded, Begins;
    JoinIsPath(pre, n);
    var node, path := g.fs[dir][n], PathOf(pre + [n]);
    if Begins(g, dir, pre, active, n, r) { FirstStep(g, dir, pre, active, n, r); }
    if !Excluded(g.exclusions, path) {
      if node.Sub? || node.LinkDir? {
        DirectoryPart(g, dir, pre, active, n, r);
      } else if r in Part(g, dir, PathOf(pre), active, n).value {
        ShortChain(g, dir, pre, active, n, r);
      }
    }
  }

  lemma {:induction false} DirectoryPart(g: Ground, dir: Dir, pre: seq<string>, active: set<Dir>, n: string, r: Record)
    requires Listed(g) && AllNames(pre) && dir in g.fs && dir !in active && n in g.fs[dir]
    requires g.fs[dir][n].Sub? || g.fs[dir][n].LinkDir?
    requires !Excluded(g.exclusions, PathOf(pre + [n])) && Part(g, dir, PathOf(pre), active, n).Some?
    ensures r in Part(g, dir, PathOf(pre), active, n).value <==> Begins(g, dir, pre, active, n, r)
    decreases g.fs.Keys - active, 0, 0
  {
    hide Excluded, PathOf, Walk, Join, Listed, Recorded;
    JoinIsPath(pre, n);
    var node, path := g.fs[dir][n], PathOf(pre + [n]);
    var d := node.dir;
    assert IsName(n) by { ListedName(g, dir, n); }
    assert AllNames(pre + [n]);
    RecordedIff(g, d, pre + [n], active + {dir}, r);
    assert Met(active, [Step(dir, n)], d) <==> d in active + {dir} by {
      MetFurther(active, Step(dir, n), [], d);
      assert [Step(dir, n)] + [] == [Step(dir, n)];
    }
    if r in Part(g, dir, PathOf(pre), active, n).value {
      if Describes(r, node, path, active, [Step(dir, n)]) {
        ShortChain(g, dir, pre, active, n, r);
      } else {
        LongerChain(g, dir, pre, active, n, d, r);
      }
    }
    if Begins(g, dir, pre, active, n, r) { FirstStep(g, dir, pre, active, n, r); }
    if Recorded(g, d, pre + [n], active + {dir}, r) { RecordedIsNew(g, d, pre + [n], active + {dir}, r); }
  }

  lemma RecordedIsNew(g: Ground, dir: Dir, pre: seq<string>, active: set<Dir>, r: Record)
    requires Recorded(g, dir, pre, active, r)
    ensures dir in g.fs && dir !in active
  {
    var ss: seq<Step> :| ChainFor(g, dir, pre, active, ss, r);
    assert StepOk(g, pre, active, ss, 0);
  }

  lemma ListedName(g: Ground, dir: Dir, n: string)
    requires Listed(g) && dir in g.fs && n in g.fs[dir]
    ensures IsName(n)
  {}

  /** A record is in the walk if and only if there is a chain for it. */
  lemma {:induction false} RecordedIff(g: Ground, dir: Dir, pre: seq<string>, active: set<Dir>, r: Record)
    requires Listed(g) && AllNames(pre) && Walk(g, dir, PathOf(pre), active).Some?
    ensures r in Walk(g, dir, PathOf(pre), active).value
       <==> if dir in active then r == Record(CycleMark, PathOf(pre), "") else Recorded(g, dir, pre, active, r)
    decreases g.fs.Keys - active, 1
  {
    hide Excluded, PathOf, Entries, Entry, Describes, Part, IsName;
    if dir !in active {
      var names := g.names[dir];
      assert forall n :: n in names ==> n in g.fs[dir];
      EntriesByName(g, dir, PathOf(pre), active, names);
      forall n | n in names
        ensures r in Part(g, dir, PathOf(pre), active, n).value <==> Begins(g, dir, pre, active, n, r)
      {
        PartIff(g, dir, pre, active, n, r);
      }
      if Recorded(g, dir, pre, active, r) {
        var ss: seq<Step> :| ChainFor(g, dir, pre, active, ss, r);
        assert StepOk(g, pre, active, ss, 0);
        assert Begins(g, dir, pre, active, ss[0].name, r);
      }
    }
  }

  // ------------------------------------------------------------------
  // When the walk throws
  // ------------------------------------------------------------------

  /** The end of a chain at which the walk throws: a link to nowhere, or a directory that cannot be read. */
  ghost predicate Breaks(g: Ground, active: set<Dir>, ss: seq<Step>) {
    var node := EndOf(g, ss);
    node.Broken? || ((node.Sub? || node.LinkDir?) && node.dir !in g.fs && !Met(active, ss, node.dir))
  }

  ghost predicate ChainBreaks(g: Ground, dir: Dir, pre: seq<string>, active: set<Dir>, ss: seq<Step>) {
    Chain(g, dir, pre, active, ss) && Breaks(g, active, ss)
  }

  ghost predicate Fails(g: Ground, dir: Dir, pre: seq<string>, active: set<Dir>) {
    exists ss :: ChainBreaks(g, dir, pre, active, ss)
  }

  ghost predicate FailsAt(g: Ground, dir: Dir, pre: seq<string>, active: set<Dir>, n: string) {
    exists ss: seq<Step> :: ChainBreaks(g, dir, pre, active, ss) && ss[0].name == n
  }

  lemma {:induction false} BreaksFurther(g: Ground, active: set<Dir>, s: Step, tail: seq<Step>)
    requires EndOf(g, [s] + tail) == EndOf(g, tail)
    ensures Breaks(g, active, [s] + tail) <==> Breaks(g, active + {s.dir}, tail)
  {
    hide Met, EndOf;
    var node := EndOf(g, tail);
    if node.Sub? || node.LinkDir? { MetFurther(active, s, tail, node.dir); }
  }

  lemma {:induction false} LongBreak(g: Ground, dir: Dir, pre: seq<string>, active: set<Dir>, ss: seq<Step>)
    requires ChainBreaks(g, dir, pre, active, ss) && |ss| > 1
    ensures dir in g.fs && ss[0].name in g.fs[dir] && !Excluded(g.exclusions, PathOf(pre + [ss[0].name]))
    ensures LeadsTo(g.fs[dir][ss[0].name], ss[1].dir)
    ensures Fails(g, ss[1].dir, pre + [ss[0].name], active + {dir}) && ss[1].dir in g.fs && ss[1].dir !in active + {dir}
  {
    hide Excluded, PathOf, Breaks;
    ChainTail(g, dir, pre, active, ss);
    assert ss == [ss[0]] + ss[1..];
    BreaksFurther(g, active, ss[0], ss[1..]);
    assert ChainBreaks(g, ss[1].dir, pre + [ss[0].name], active + {dir}, ss[1..]);
    assert StepOk(g, pre + [ss[0].name], active + {dir}, ss[1..], 0);
  }

  lemma {:induction false} LongerBreak(g: Ground, dir: Dir, pre: seq<string>, active: set<Dir>, n: string, d: Dir)
    requires dir in g.fs && dir !in active && n in g.fs[dir] && !Excluded(g.exclusions, PathOf(pre + [n]))
    requires LeadsTo(g.fs[dir][n], d) && Fails(g, d, pre + [n], active + {dir})
    ensures FailsAt(g, dir, pre, active, n)
  {
    hide Excluded, PathOf, Breaks;
    var tail :| ChainBreaks(g, d, pre + [n], active + {dir}, tail);
    ChainCons(g, dir, pre, active, n, tail);
    var ss := [Step(dir, n)] + tail;
    BreaksFurther(g, active, Step(dir, n), tail);
    assert ChainBreaks(g, dir, pre, active, ss) && ss[0].name == n;
  }

  lemma {:induction false} ShortBreak(g: Ground, dir: Dir, pre: seq<string>, active: set<Dir>, n: string)
    requires dir in g.fs && dir !in active && n in g.fs[dir] && !Excluded(g.exclusions, PathOf(pre + [n]))
    requires Breaks(g, active, [Step(dir, n)])
    ensures FailsAt(g, dir, pre, active, n)
  {
    hide Excluded, PathOf, Breaks;
    ChainOne(g, dir, pre, active, n);
    assert ChainBreaks(g, dir, pre, active, [Step(dir, n)]) && [Step(dir, n)][0].name == n;
  }

  lemma {:induction false} FirstBreak(g: Ground, dir: Dir, pre: seq<string>, active: set<Dir>, n: string)
    requires dir in g.fs && dir !in active && n in g.fs[dir] && FailsAt(g, dir, pre, active, n)
    ensures !Excluded(g.exclusions, PathOf(pre + [n]))
    ensures || Breaks(g, active, [Step(dir, n)])
            || exists d :: LeadsTo(g.fs[dir][n], d) && d in g.fs && d !in active + {dir}
                           && Fails(g, d, pre + [n], active + {dir})
  {
    hide Excluded, PathOf, Breaks;
    var ss: seq<Step> :| ChainBreaks(g, dir, pre, active, ss) && ss[0].name == n;
    if |ss| == 1 {
      assert StepOk(g, pre, active, ss, 0);
      assert ss[..1] == ss == [Step(dir, n)] && Names(ss) == [n];
    } else {
      LongBreak(g, dir, pre, active, ss);
    }
  }

  lemma {:induction false} PartFailsIff(g: Ground, dir: Dir, pre: seq<string>, active: set<Dir>, n: string)
    requires Listed(g) && AllNames(pre) && dir in g.fs && dir !in active && n in g.fs[dir]
    ensures Part(g, dir, PathOf(pre), active, n).None? <==> FailsAt(g, dir, pre, active, n)
    decreases g.fs.Keys - active, 0
  {
    hide Excluded, PathOf, Walk, Join, Listed, Fails, FailsAt;
    JoinIsPath(pre, n);
    var node, s := g.fs[dir][n], Step(dir, n);
    assert EndOf(g, [s]) == node;
    if node.Sub? || node.LinkDir? {
      ListedName(g, dir, n);
      assert AllNames(pre + [n]);
      FailsIff(g, node.dir, pre + [n], active + {dir});
      MetFurther(active, s, [], node.dir);
      assert [s] + [] == [s];
    }
    if FailsAt(g, dir, pre, active, n) { FirstBreak(g, dir, pre, active, n); }
    if Part(g, dir, PathOf(pre), active, n).None? {
      if Breaks(g, active, [s]) {
        ShortBreak(g, dir, pre, active, n);
      } else {
        LongerBreak(g, dir, pre, active, n, node.dir);
      }
    }
  }

  /** The walk throws if and only if it begins nowhere or some chain leads to such an end. */
  lemma {:induction false} FailsIff(g: Ground, dir: Dir, pre: seq<string>, active: set<Dir>)
    requires Listed(g) && AllNames(pre)
    ensures Walk(g, dir, PathOf(pre), active).None?
       <==> dir !in active && (dir !in g.fs || Fails(g, dir, pre, active))
    decreases g.fs.Keys - active, 1
  {
    hide Excluded, PathOf, Entries, Entry, Breaks, Part, IsName;
    if dir !in active && dir in g.fs {
      var names := g.names[dir];
      assert forall n :: n in names ==> n in g.fs[dir];
      EntriesByName(g, dir, PathOf(pre), active, names);
      forall n | n in names
        ensures Part(g, dir, PathOf(pre), active, n).None? <==> FailsAt(g, dir, pre, active, n)
      {
        PartFailsIff(g, dir, pre, active, n);
      }
      if Fails(g, dir, pre, active) {
        var ss: seq<Step> :| ChainBreaks(g, dir, pre, active, ss);
        assert StepOk(g, pre, active, ss, 0);
        assert FailsAt(g, dir, pre, active, ss[0].name);
      }
    }
  }

  // ------------------------------------------------------------------
  // Names and paths
  // ------------------------------------------------------------------

  lemma LastSlash(a: string, n: string)
    requires '/' !in n
    ensures var p := a + "/" + n; p[|a|] == '/' && forall i :: |a| < i < |p| ==> p[i] != '/'
  {
    var p := a + "/" + n;
    assert forall i :: |a| < i < |p| ==> p[i] == n[i - |a| - 1];
  }

  lemma {:induction false} SplitOnce(a: string, n: string, b: string, m: string)
    requires a + "/" + n == b + "/" + m && '/' !in n && '/' !in m
    ensures a == b && n == m
  {
    var p := a + "/" + n;
    LastSlash(a, n);
    LastSlash(b, m);
    assert |a| == |b|;
    assert p[..|a|] == a && (b + "/" + m)[..|b|] == b;
    assert p[|a| + 1..] == n && (b + "/" + m)[|b| + 1..] == m;
  }

  lemma {:induction false} NoSlashInOne(n: string, ms: seq<string>)
    requires '/' !in n && |ms| > 1
    ensures n != PathOf(ms)
  {
    var p := PathOf(ms[..|ms| - 1]);
    assert (p + "/" + ms[|ms| - 1])[|p|] == '/';
  }

  /** A path says which names it is made of. */
  lemma {:induction false} PathIsInjective(ns: seq<string>, ms: seq<string>)
    requires AllNames(ns) && AllNames(ms) && PathOf(ns) == PathOf(ms)
    ensures ns == ms
    decreases |ns|
  {
    hide PathOf;
    PathCases(ns);
    PathCases(ms);
    if ns != [] && ms != [] {
      var n, m := ns[|ns| - 1], ms[|ms| - 1];
      var ns', ms' := ns[..|ns| - 1], ms[..|ms| - 1];
      if |ns| > 1 && |ms| > 1 {
        SplitOnce(PathOf(ns'), n, PathOf(ms'), m);
        PathIsInjective(ns', ms');
        assert ns == ns' + [n] && ms == ms' + [m];
      } else if |ms| > 1 {
        NoSlashInOne(ns[0], ms);
      } else if |ns| > 1 {
        NoSlashInOne(ms[0], ns);
      }
    }
  }

  lemma PathCases(ns: seq<string>)
    requires AllNames(ns)
    ensures PathOf(ns) == "" <==> ns == []
    ensures |ns| == 1 ==> PathOf(ns) == ns[0]
    ensures |ns| > 1 ==> PathOf(ns) == PathOf(ns[..|ns| - 1]) + "/" + ns[|ns| - 1]
  {}

  /** An excluded path excludes what lies below it and nothing else: exclusion is by names, not by
      characters. */
  lemma {:induction false} ExcludedIff(es: seq<string>, ns: seq<string>)
    requires AllNames(es) && AllNames(ns) && es != []
    ensures Excluded([PathOf(es)], PathOf(ns)) <==> es <= ns
  {
    hide PathOf;
    var e, p := PathOf(es), PathOf(ns);
    if es <= ns {
      PrefixPath(es, ns);
      assert p == [e][0] || [e][0] + "/" <= p;
    }
    if Excluded([e], p) {
      if p == e {
        PathIsInjective(es, ns);
      } else {
        BelowPath(es, ns);
      }
    }
  }

  lemma {:induction false} PrefixPath(es: seq<string>, ns: seq<string>)
    requires AllNames(ns) && es != [] && es <= ns
    ensures PathOf(ns) == PathOf(es) || PathOf(es) + "/" <= PathOf(ns)
    decreases |ns|
  {
    hide PathOf;
    PathCases(ns);
    if |es| < |ns| {
      var init := ns[..|ns| - 1];
      assert es <= init;
      PrefixPath(es, init);
    } else {
      assert es == ns;
    }
  }

  lemma {:induction false} BelowPath(es: seq<string>, ns: seq<string>)
    requires AllNames(es) && AllNames(ns) && es != [] && PathOf(es) + "/" <= PathOf(ns)
    ensures es <= ns
    decreases |ns|
  {
    hide PathOf;
    PathCases(ns);
    var e, p := PathOf(es), PathOf(ns);
    assert p[|e|] == '/';
    if |ns| > 1 {
      var init, n := ns[..|ns| - 1], ns[|ns| - 1];
      var q := PathOf(init);
      assert p == q + "/" + n;
      LastSlash(q, n);
      assert |e| <= |q|;
      if |e| == |q| {
        assert e == p[..|e|] == q;
        PathIsInjective(es, init);
      } else {
        assert q[..|e| + 1] == p[..|e| + 1] == e + "/";
        BelowPath(es, init);
      }
    }
  }
}
