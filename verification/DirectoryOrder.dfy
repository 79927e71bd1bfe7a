/** The order of the records of a directory walk, and what two equal streams say about two file systems. */
module DirectoryOrder {
  import opened Options
  import opened Sequences
  import opened Order
  import opened FingerprintStream
  import opened DirectoryWalk
  import opened DirectoryChains

  // ------------------------------------------------------------------
  // The order of places
  // ------------------------------------------------------------------

  /** A record with the names of its path. */
  datatype Placed = Placed(names: seq<string>, record: Record)

  predicate LessAt(a: seq<string>, b: seq<string>, k: nat) {
    k <= |a| && k < |b| && a[..k] == b[..k] && (k == |a| || Less(a[k], b[k]))
  }

  /** Name by name; what lies in a directory comes behind it. */
  ghost predicate NamesLess(a: seq<string>, b: seq<string>) { exists k: nat :: LessAt(a, b, k) }

  /** By names, and the cycle mark of a directory behind the directory. */
  ghost predicate Before(p: Placed, q: Placed) {
    NamesLess(p.names, q.names)
    || (p.names == q.names && p.record.kind != CycleMark && q.record.kind == CycleMark)
  }

  ghost predicate InOrder(ps: seq<Placed>) { forall i, j :: 0 <= i < j < |ps| ==> Before(ps[i], ps[j]) }

  lemma {:induction false} NotBoth(a: seq<string>, b: seq<string>)
    requires NamesLess(a, b)
    ensures a != b && !NamesLess(b, a)
  {
    var k: nat :| LessAt(a, b, k);
    if a == b { LessIrreflexive(a[k]); }
    if NamesLess(b, a) {
      var m: nat :| LessAt(b, a, m);
      if k < m {
        assert b[..m][k] == a[..m][k];
        LessIrreflexive(a[k]);
      } else if m < k {
        assert b[..k][m] == a[..k][m];
        LessIrreflexive(b[m]);
      } else {
        LessTransitive(a[k], b[k], a[k]);
        LessIrreflexive(a[k]);
      }
    }
  }

  lemma BeforeIsStrict(p: Placed, q: Placed)
    requires Before(p, q)
    ensures p != q && !Before(q, p)
  {
    hide NamesLess;
    if NamesLess(p.names, q.names) { NotBoth(p.names, q.names); }
    if NamesLess(q.names, p.names) { NotBoth(q.names, p.names); }
  }

  // ------------------------------------------------------------------
  // A walk is in order
  // ------------------------------------------------------------------

  ghost predicate PlacedAt(rs: seq<Record>, ps: seq<Placed>, pre: seq<string>, i: nat)
    requires i < |rs| && i < |ps|
  {
    && ps[i].record == rs[i] && rs[i].path == PathOf(ps[i].names)
    && pre <= ps[i].names && AllNames(ps[i].names)
  }

  /** The records with their names, all below `pre`, in order. */
  ghost predicate Placement(rs: seq<Record>, ps: seq<Placed>, pre: seq<string>) {
    |ps| == |rs| && (forall i :: 0 <= i < |rs| ==> PlacedAt(rs, ps, pre, i)) && InOrder(ps)
  }

  lemma {:induction false} PlaceTwo(rs: seq<Record>, ps: seq<Placed>, rs': seq<Record>, ps': seq<Placed>,
                                    pre: seq<string>)
    requires Placement(rs, ps, pre) && Placement(rs', ps', pre)
    requires forall i, j :: 0 <= i < |ps| && 0 <= j < |ps'| ==> Before(ps[i], ps'[j])
    ensures Placement(rs + rs', ps + ps', pre)
  {
    hide Before, PathOf, AllNames;
    var all, placed := rs + rs', ps + ps';
    forall i | 0 <= i < |all| ensures PlacedAt(all, placed, pre, i) {
      if i < |rs| { assert PlacedAt(rs, ps, pre, i); } else { assert PlacedAt(rs', ps', pre, i - |rs|); }
    }
  }

  lemma {:induction false} PlaceHigher(rs: seq<Record>, ps: seq<Placed>, pre: seq<string>, n: string)
    requires Placement(rs, ps, pre + [n])
    ensures Placement(rs, ps, pre)
    ensures forall i :: 0 <= i < |ps| ==> |ps[i].names| > |pre| && ps[i].names[|pre|] == n
  {
    hide Before, PathOf, AllNames;
    forall i | 0 <= i < |rs|
      ensures PlacedAt(rs, ps, pre, i) && |ps[i].names| > |pre| && ps[i].names[|pre|] == n
    {
      assert PlacedAt(rs, ps, pre + [n], i);
      assert ps[i].names[|pre|] == (pre + [n])[|pre|];
      assert ps[i].names[..|pre|] == ps[i].names[..|pre| + 1][..|pre|] == pre;
    }
  }

  lemma {:induction false} PlaceOne(r: Record, names: seq<string>)
    requires r.path == PathOf(names) && AllNames(names)
    ensures Placement([r], [Placed(names, r)], names)
  {}

  /** The names of the walk below `dir`. */
  lemma {:induction false} WalkPlaces(g: Ground, dir: Dir, pre: seq<string>, active: set<Dir>) returns (ps: seq<Placed>)
    requires Listed(g) && AllNames(pre) && Walk(g, dir, PathOf(pre), active).Some?
    ensures Placement(Walk(g, dir, PathOf(pre), active).value, ps, pre)
    ensures dir in active ==> ps == [Placed(pre, Record(CycleMark, PathOf(pre), ""))]
    ensures dir !in active ==> forall i :: 0 <= i < |ps| ==> |ps[i].names| > |pre|
    decreases g.fs.Keys - active, 1
  {
    hide Placement, Entries, PathOf, IsName, Less;
    if dir in active {
      PlaceOne(Record(CycleMark, PathOf(pre), ""), pre);
      ps := [Placed(pre, Record(CycleMark, PathOf(pre), ""))];
    } else {
      ps := EntriesPlaces(g, dir, pre, active, g.names[dir]);
    }
  }

  lemma {:induction false} EntriesPlaces(g: Ground, dir: Dir, pre: seq<string>, active: set<Dir>, names: seq<string>)
    returns (ps: seq<Placed>)
    requires Listed(g) && AllNames(pre) && dir in g.fs && dir !in active && StrictlySorted(names)
    requires (forall n :: n in names ==> n in g.fs[dir]) && Entries(g, dir, PathOf(pre), active, names).Some?
    ensures Placement(Entries(g, dir, PathOf(pre), active, names).value, ps, pre)
    ensures forall i :: 0 <= i < |ps| ==> |ps[i].names| > |pre| && ps[i].names[|pre|] in names
    decreases g.fs.Keys - active, 0, |names| + 1
  {
    hide Placement, Entry, PathOf, Listed, Less, Excluded, Join;
    if names == [] {
      ps := [];
      NothingPlaced(pre);
    } else {
      var n, rest := names[0], names[1..];
      var first := Part(g, dir, PathOf(pre), active, n);
      var qs := PartPlaces(g, dir, pre, active, n);
      PlaceHigher(first.value, qs, pre, n);
      var rs := EntriesPlaces(g, dir, pre, active, rest);
      forall i, j | 0 <= i < |qs| && 0 <= j < |rs| ensures Before(qs[i], rs[j]) {
        LaterName(names, rs[j].names[|pre|]);
        PrefixOf(first.value, qs, pre, i);
        PrefixOf(Entries(g, dir, PathOf(pre), active, rest).value, rs, pre, j);
        assert LessAt(qs[i].names, rs[j].names, |pre|);
      }
      ps := qs + rs;
      PlaceTwo(first.value, qs, Entries(g, dir, PathOf(pre), active, rest).value, rs, pre);
    }
  }

  lemma NothingPlaced(pre: seq<string>)
    ensures Placement([], [], pre)
  {}

  lemma LaterName(names: seq<string>, m: string)
    requires StrictlySorted(names) && names != [] && m in names[1..]
    ensures Less(names[0], m)
  {
    var k :| 0 <= k < |names[1..]| && names[1..][k] == m;
    assert Less(names[0], names[k + 1]);
  }

  lemma PrefixOf(rs: seq<Record>, ps: seq<Placed>, pre: seq<string>, i: nat)
    requires Placement(rs, ps, pre) && i < |ps|
    ensures pre <= ps[i].names && |rs| == |ps|
  {
    assert PlacedAt(rs, ps, pre, i);
  }

  lemma {:induction false} PartPlaces(g: Ground, dir: Dir, pre: seq<string>, active: set<Dir>, n: string)
    returns (ps: seq<Placed>)
    requires Listed(g) && AllNames(pre) && dir in g.fs && dir !in active && n in g.fs[dir]
    requires Part(g, dir, PathOf(pre), active, n).Some?
    ensures Placement(Part(g, dir, PathOf(pre), active, n).value, ps, pre + [n])
    decreases g.fs.Keys - active, 0, 0
  {
    hide Placement, PathOf, Listed, Excluded, Join, Walk;
    JoinIsPath(pre, n);
    ListedName(g, dir, n);
    var below, node := pre + [n], g.fs[dir][n];
    var path := PathOf(below);
    assert AllNames(below);
    if Excluded(g.exclusions, path) {
      ps := [];
      NothingPlaced(below);
    } else if node.Sub? || node.LinkDir? {
      var r := Record(if node.Sub? then Directory else SymlinkDirectory, path, "");
      var qs := WalkPlaces(g, node.dir, below, active + {dir});
      PlaceOne(r, below);
      ps := [Placed(below, r)] + qs;
      var rs := Walk(g, node.dir, path, active + {dir}).value;
      forall j | 0 <= j < |qs| ensures Before(Placed(below, r), qs[j]) {
        PrefixOf(rs, qs, below, j);
        if node.dir !in active + {dir} { assert LessAt(below, qs[j].names, |below|); }
      }
      PlaceTwo([r], [Placed(below, r)], rs, qs, below);
    } else {
      var r := Part(g, dir, PathOf(pre), active, n).value[0];
      PlaceOne(r, below);
      ps := [Placed(below, r)];
    }
  }

  // ------------------------------------------------------------------
  // Each record once
  // ------------------------------------------------------------------

  lemma {:induction false} OnceEach(rs: seq<Record>, ps: seq<Placed>, pre: seq<string>)
    requires Placement(rs, ps, pre)
    ensures Distinct(rs)
  {
    hide PathOf, AllNames, Before;
    forall i, j | 0 <= i < j < |rs| ensures rs[i] != rs[j] {
      assert PlacedAt(rs, ps, pre, i) && PlacedAt(rs, ps, pre, j);
      if rs[i] == rs[j] {
        PathIsInjective(ps[i].names, ps[j].names);
        BeforeIsStrict(ps[i], ps[j]);
      }
    }
  }

  lemma {:induction false} SamePlaces(ps: seq<Placed>, qs: seq<Placed>)
    requires InOrder(ps) && InOrder(qs) && forall p :: p in ps <==> p in qs
    ensures ps == qs
    decreases |ps|
  {
    hide Before;
    assert ps != [] ==> ps[0] in qs;
    assert qs != [] ==> qs[0] in ps;
    if ps != [] {
      SameFirst(ps, qs);
      forall p ensures p in ps[1..] <==> p in qs[1..] {
        FirstOnce(ps, p);
        FirstOnce(qs, p);
      }
      SamePlaces(ps[1..], qs[1..]);
      assert ps == [ps[0]] + ps[1..] && qs == [qs[0]] + qs[1..];
    }
  }

  lemma {:induction false} SameFirst(ps: seq<Placed>, qs: seq<Placed>)
    requires InOrder(ps) && InOrder(qs) && ps != [] && qs != [] && ps[0] in qs && qs[0] in ps
    ensures ps[0] == qs[0]
  {
    hide Before;
    var j :| 0 <= j < |qs| && qs[j] == ps[0];
    var i :| 0 <= i < |ps| && ps[i] == qs[0];
    if i > 0 && j > 0 { BeforeIsStrict(ps[0], ps[i]); }
  }

  lemma {:induction false} FirstOnce(ps: seq<Placed>, p: Placed)
    requires InOrder(ps) && ps != []
    ensures p in ps[1..] <==> p in ps && p != ps[0]
  {
    hide Before;
    if p in ps[1..] {
      var k :| 0 <= k < |ps[1..]| && ps[1..][k] == p;
      BeforeIsStrict(ps[0], ps[k + 1]);
    }
    if p in ps && p != ps[0] {
      var k :| 0 <= k < |ps| && ps[k] == p;
      assert ps[1..][k - 1] == p;
    }
  }

  /** Records with the same members, each in order, are the same records. */
  lemma {:induction false} SameRecords(rs: seq<Record>, ps: seq<Placed>, rs': seq<Record>, ps': seq<Placed>)
    requires Placement(rs, ps, []) && Placement(rs', ps', []) && forall r :: r in rs <==> r in rs'
    ensures rs == rs'
  {
    hide Before, PathOf, AllNames;
    forall p ensures p in ps <==> p in ps' {
      if p in ps { PlacedToo(rs, ps, rs', ps', p); }
      if p in ps' { PlacedToo(rs', ps', rs, ps, p); }
    }
    SamePlaces(ps, ps');
    forall i | 0 <= i < |rs| ensures rs[i] == rs'[i] {
      assert PlacedAt(rs, ps, [], i) && PlacedAt(rs', ps', [], i);
    }
  }

  lemma {:induction false} PlacedToo(rs: seq<Record>, ps: seq<Placed>, rs': seq<Record>, ps': seq<Placed>, p: Placed)
    requires Placement(rs, ps, []) && Placement(rs', ps', []) && p in ps && forall r :: r in rs ==> r in rs'
    ensures p in ps'
  {
    hide Before, PathOf, AllNames;
    var i :| 0 <= i < |ps| && ps[i] == p;
    assert PlacedAt(rs, ps, [], i) && rs[i] in rs';
    var j :| 0 <= j < |rs'| && rs'[j] == rs[i];
    assert PlacedAt(rs', ps', [], j);
    PathIsInjective(p.names, ps'[j].names);
  }

  // ------------------------------------------------------------------
  // What a stream shows
  // ------------------------------------------------------------------

  ghost predicate InTree(g: Ground, root: Dir, r: Record) { Recorded(g, root, [], {}, r) }

  lemma {:induction false} WalkFromRoot(g: Ground, root: Dir) returns (ps: seq<Placed>)
    requires Listed(g) && Walk(g, root, "", {}).Some?
    ensures Placement(Walk(g, root, "", {}).value, ps, []) && Distinct(Walk(g, root, "", {}).value)
    ensures forall r :: r in Walk(g, root, "", {}).value <==> InTree(g, root, r)
  {
    hide Walk, Placement, Listed, Recorded, Distinct;
    assert PathOf([]) == "";
    ps := WalkPlaces(g, root, [], {});
    OnceEach(Walk(g, root, "", {}).value, ps, []);
    forall r ensures r in Walk(g, root, "", {}).value <==> InTree(g, root, r) { RecordedIff(g, root, [], {}, r); }
  }

  lemma {:induction false} WalkIsWellFormed(g: Ground, root: Dir)
    requires Listed(g) && Walk(g, root, "", {}).Some?
    ensures forall i :: 0 <= i < |Walk(g, root, "", {}).value| ==> WellFormed(Walk(g, root, "", {}).value[i])
  {
    hide Walk, Excluded, WellFormed;
    forall d, i | d in g.names && 0 <= i < |g.names[d]| ensures IsName(g.names[d][i]) {
      assert g.names[d][i] in g.names[d];
    }
    WalkIsGood(g, root, "", {});
  }

  /** Two streams are equal if and only if the two trees have the same records: the fingerprint is taken
      over all that there is in the tree, and over nothing else. */
  lemma {:induction false} StreamsAgreeIff(g: Ground, root: Dir, g': Ground, root': Dir)
    requires Listed(g) && Listed(g') && Walk(g, root, "", {}).Some? && Walk(g', root', "", {}).Some?
    ensures Stream(Walk(g, root, "", {}).value) == Stream(Walk(g', root', "", {}).value)
       <==> forall r :: InTree(g, root, r) <==> InTree(g', root', r)
  {
    hide Walk, Placement, Listed, InTree, Distinct, Stream, WellFormed;
    var rs, rs' := Walk(g, root, "", {}).value, Walk(g', root', "", {}).value;
    var ps := WalkFromRoot(g, root);
    var ps' := WalkFromRoot(g', root');
    if Stream(rs) == Stream(rs') {
      WalkIsWellFormed(g, root);
      WalkIsWellFormed(g', root');
      StreamIsInjective(rs, rs');
    }
    if forall r :: InTree(g, root, r) <==> InTree(g', root', r) { SameRecords(rs, ps, rs', ps'); }
  }

  /** What a record shows of an entry that is no directory met before. */
  function Shown(node: Node): (Kind, string) {
    match node
    case Plain(content) => (File, content)
    case LinkFile(content) => (SymlinkFile, content)
    case Special => (Other, "")
    case LinkSpecial => (SymlinkOther, "")
    case Sub(_) => (Directory, "")
    case LinkDir(_) => (SymlinkDirectory, "")
    case Broken => (CycleMark, "")
  }

  /** The names of a chain determine its directories. */
  lemma {:induction false} NamesLeadOneWay(g: Ground, dir: Dir, pre: seq<string>, active: set<Dir>, ss: seq<Step>,
                                           ts: seq<Step>, i: nat)
    requires Chain(g, dir, pre, active, ss) && Chain(g, dir, pre, active, ts) && Names(ss) == Names(ts) && i < |ss|
    ensures |ss| == |ts| && ss[i] == ts[i]
    decreases i
  {
    hide Excluded, PathOf;
    assert Names(ss)[i] == Names(ts)[i];
    if i > 0 {
      NamesLeadOneWay(g, dir, pre, active, ss, ts, i - 1);
      assert StepOk(g, pre, active, ss, i - 1) && StepOk(g, pre, active, ts, i - 1);
    }
  }

  lemma {:induction false} ChainNames(g: Ground, dir: Dir, ss: seq<Step>)
    requires Listed(g) && Chain(g, dir, [], {}, ss)
    ensures AllNames(Names(ss)) && [] + Names(ss) == Names(ss)
  {
    hide Excluded, PathOf, IsName;
    forall i | 0 <= i < |ss| ensures IsName(Names(ss)[i]) {
      assert StepOk(g, [], {}, ss, i);
    }
  }

  /** A record of the tree at the end of a chain. */
  lemma {:induction false} ShownInTree(g: Ground, root: Dir, ss: seq<Step>, r: Record)
    requires Listed(g) && Chain(g, root, [], {}, ss) && r.path == PathOf(Names(ss)) && r.kind != CycleMark
    ensures InTree(g, root, r) <==> (r.kind, r.content) == Shown(EndOf(g, ss))
  {
    hide Excluded, PathOf, Chain, Met, EndOf;
    ChainNames(g, root, ss);
    if (r.kind, r.content) == Shown(EndOf(g, ss)) {
      assert Describes(r, EndOf(g, ss), PathOf([] + Names(ss)), {}, ss);
      assert ChainFor(g, root, [], {}, ss, r);
    }
    if InTree(g, root, r) {
      var ts :| ChainFor(g, root, [], {}, ts, r);
      ChainNames(g, root, ts);
      DescribedPath(r, EndOf(g, ts), PathOf([] + Names(ts)), {}, ts);
      PathIsInjective(Names(ss), Names(ts));
      SameChain(g, root, ss, ts);
    }
  }

  lemma DescribedPath(r: Record, node: Node, path: string, active: set<Dir>, ss: seq<Step>)
    requires Describes(r, node, path, active, ss)
    ensures r.path == path
  {}

  lemma {:induction false} SameChain(g: Ground, root: Dir, ss: seq<Step>, ts: seq<Step>)
    requires Chain(g, root, [], {}, ss) && Chain(g, root, [], {}, ts) && Names(ss) == Names(ts)
    ensures ss == ts
  {
    hide Chain;
    assert |ss| == |Names(ss)| == |Names(ts)| == |ts|;
    forall i | 0 <= i < |ss| ensures ss[i] == ts[i] { NamesLeadOneWay(g, root, [], {}, ss, ts, i); }
  }

  /** So two trees that differ in the content or the kind of what one path leads to have different
      streams. */
  lemma {:induction false} ChangesShow(g: Ground, root: Dir, ss: seq<Step>, g': Ground, root': Dir, ss': seq<Step>)
    requires Listed(g) && Listed(g') && Walk(g, root, "", {}).Some? && Walk(g', root', "", {}).Some?
    requires Chain(g, root, [], {}, ss) && Chain(g', root', [], {}, ss') && Names(ss) == Names(ss')
    requires Shown(EndOf(g, ss)) != Shown(EndOf(g', ss')) && !EndOf(g, ss).Broken?
    ensures Stream(Walk(g, root, "", {}).value) != Stream(Walk(g', root', "", {}).value)
  {
    hide Walk, Listed, Chain, EndOf, PathOf, Stream, InTree;
    var (kind, content) := Shown(EndOf(g, ss));
    var r := Record(kind, PathOf(Names(ss)), content);
    ShownInTree(g, root, ss, r);
    ShownInTree(g', root', ss', r);
    StreamsAgreeIff(g, root, g', root');
  }

  // ------------------------------------------------------------------
  // Counts
  // ------------------------------------------------------------------

  /** The contents of all files, one behind the other. */
  function Contents(rs: seq<Record>): string {
    if rs == [] then ""
    else
      var r := rs[|rs| - 1];
      Contents(rs[..|rs| - 1]) + (if IsFileKind(r.kind) then r.content else "")
  }

  function FilesIn(rs: seq<Record>): set<int> { set i | 0 <= i < |rs| && IsFileKind(rs[i].kind) }

  lemma OneMoreFile(rs: seq<Record>, r: Record)
    ensures |FilesIn(rs + [r])| == |FilesIn(rs)| + (if IsFileKind(r.kind) then 1 else 0)
    ensures Contents(rs + [r]) == Contents(rs) + (if IsFileKind(r.kind) then r.content else "")
  {
    var more := rs + [r];
    assert more[..|rs|] == rs;
    assert FilesIn(more) == FilesIn(rs) + (if IsFileKind(r.kind) then {|rs|} else {});
  }

  /** fileCount is the number of file records, sizeBytes that of all their bytes. */
  lemma {:induction false} CountsFiles(rs: seq<Record>)
    ensures FileCount(rs) == |FilesIn(rs)| && SizeBytes(rs) == |Contents(rs)|
    decreases |rs|
  {
    hide FileCount, SizeBytes, EncodeAll, Encode, FilesIn;
    if rs == [] {
      NoRecords();
      assert FilesIn(rs) == {} by { NoFiles(); }
    } else {
      var init, r := rs[..|rs| - 1], rs[|rs| - 1];
      CountsFiles(init);
      assert rs == init + [r];
      OneMoreFile(init, r);
      EncodeJoin(init, [r]);
      OneRecord(r);
    }
  }

  lemma NoFiles()
    ensures FilesIn([]) == {}
  {}

  // ------------------------------------------------------------------
  // From listings
  // ------------------------------------------------------------------

  lemma {:induction false} SortedIsListed(fs: FileSystem, listing: map<Dir, seq<string>>, exclusions: seq<string>)
    requires Lists(fs, listing)
    ensures Listed(Ground(fs, SortedListing(listing), exclusions))
  {
    hide Sort, IsName, StrictlySorted;
    forall d | d in fs
      ensures StrictlySorted(Sort(listing[d])) && forall n :: n in Sort(listing[d]) <==> n in fs[d]
    {
      SortSorts(listing[d]);
    }
  }

  /** Whatever the listings, a fingerprint comes out if and only if no chain leads to a broken end, and two
      of them hash the same stream if and only if the trees have the same records. */
  lemma {:induction false} FingerprintIff(fs: FileSystem, listing: map<Dir, seq<string>>, exclusions: seq<string>,
                                          root: Dir, fs': FileSystem, listing': map<Dir, seq<string>>,
                                          exclusions': seq<string>, root': Dir)
    requires Lists(fs, listing) && Lists(fs', listing')
    ensures var g := Ground(fs, SortedListing(listing), exclusions);
            var g' := Ground(fs', SortedListing(listing'), exclusions');
            && (Result(g, root).Some? <==> root in fs && !Fails(g, root, [], {}))
            && (Result(g, root).Some? && Result(g', root').Some? ==>
                  (Result(g, root).value.0 == Result(g', root').value.0
                   <==> forall r :: InTree(g, root, r) <==> InTree(g', root', r)))
  {
    hide Walk, Fails, InTree, Listed, SortedListing, Lists, Stream, FileCount, SizeBytes;
    var g, g' := Ground(fs, SortedListing(listing), exclusions), Ground(fs', SortedListing(listing'), exclusions');
    SortedIsListed(fs, listing, exclusions);
    SortedIsListed(fs', listing', exclusions');
    assert PathOf([]) == "";
    FailsIff(g, root, [], {});
    if Result(g, root).Some? && Result(g', root').Some? { StreamsAgreeIff(g, root, g', root'); }
  }
}
