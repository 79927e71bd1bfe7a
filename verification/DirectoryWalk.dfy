/** The directory walk of fingerprintDirectory in benchmarks/run.ts: every file system, symbolic
    links in circles included. */
module DirectoryWalk {
  import opened Options
  import opened Sequences
  import opened Order
  import opened FingerprintStream

  /** What realpathSync identifies a directory by. */
  type Dir = nat

  /** An entry, symbolic links followed: `Broken` is a link to nowhere, where realpathSync throws. */
  datatype Node =
    | Plain(content: string) | Sub(dir: Dir) | Special
    | LinkFile(content: string) | LinkDir(dir: Dir) | LinkSpecial | Broken

  /** The directories of the file system, each with its entries by name. */
  type FileSystem = map<Dir, map<string, Node>>

  /** A name can be in a path. */
  predicate IsName(s: string) { s != "" && NulFree(s) && '/' !in s }

  /** readdirSync may list the entries of a directory in any order, each once. */
  ghost predicate Lists(fs: FileSystem, listing: map<Dir, seq<string>>) {
    && listing.Keys == fs.Keys
    && (forall d :: d in fs ==> Distinct(listing[d]) && forall n :: n in listing[d] <==> n in fs[d])
    && (forall d, n :: d in fs && n in fs[d] ==> IsName(n))
  }

  /** What the walk goes by: the listings, sorted. */
  function SortedListing(listing: map<Dir, seq<string>>): map<Dir, seq<string>> {
    map d | d in listing :: Sort(listing[d])
  }

  function Join(logical: string, name: string): string {
    if logical == "" then name else logical + "/" + name
  }

  predicate Excluded(exclusions: seq<string>, path: string) {
    exists i :: 0 <= i < |exclusions| && (path == exclusions[i] || exclusions[i] + "/" <= path)
  }

  /** The file system, the sorted listings and the exclusions of a walk. */
  datatype Ground = Ground(fs: FileSystem, names: map<Dir, seq<string>>, exclusions: seq<string>)

  // ------------------------------------------------------------------
  // The records of a walk
  // ------------------------------------------------------------------

  /** The records of walk(dir, logical) while the directories `active` are being walked; None if
      the walk throws. Each level makes one more directory active, so even circles end. */
  function Walk(g: Ground, dir: Dir, logical: string, active: set<Dir>): Option<seq<Record>>
    decreases g.fs.Keys - active, 1
  {
    if dir in active then Some([Record(CycleMark, logical, "")])
    else if dir !in g.fs || dir !in g.names then None
    else Entries(g, dir, logical, active, g.names[dir])
  }

  /** The records of the entries `names` of an active directory. */
  function Entries(g: Ground, dir: Dir, logical: string, active: set<Dir>, names: seq<string>): Option<seq<Record>>
    requires dir in g.fs && dir !in active
    decreases g.fs.Keys - active, 0, |names|
  {
    if names == [] then Some([])
    else if names[0] !in g.fs[dir] then None
    else
      var path := Join(logical, names[0]);
      var first := if Excluded(g.exclusions, path) then Some([]) else Entry(g, dir, path, g.fs[dir][names[0]], active);
      if first.None? then None
      else
        match Entries(g, dir, logical, active, names[1..])
        case None => None
        case Some(rest) => Some(first.value + rest)
  }

  /** The records of one entry that is not excluded. */
  function Entry(g: Ground, dir: Dir, path: string, node: Node, active: set<Dir>): Option<seq<Record>>
    requires dir in g.fs && dir !in active
    decreases g.fs.Keys - active, 0, 0
  {
    match node
    case Plain(content) => Some([Record(File, path, content)])
    case LinkFile(content) => Some([Record(SymlinkFile, path, content)])
    case Special => Some([Record(Other, path, "")])
    case LinkSpecial => Some([Record(SymlinkOther, path, "")])
    case Broken => None
    case Sub(d) => Under(Record(Directory, path, ""), Walk(g, d, path, active + {dir}))
    case LinkDir(d) => Under(Record(SymlinkDirectory, path, ""), Walk(g, d, path, active + {dir}))
  }

  function Under(r: Record, rs: Option<seq<Record>>): Option<seq<Record>> {
    if rs.None? then None else Some([r] + rs.value)
  }

  // ------------------------------------------------------------------
  // The code
  // ------------------------------------------------------------------

  class Fingerprint {
    const ground: Ground
    var stream: string
    var fileCount: nat
    var sizeBytes: nat
    var active: set<Dir>

    constructor (ground: Ground)
      ensures this.ground == ground && stream == HEADER + "\0" && fileCount == 0 && sizeBytes == 0 && active == {}
    {
      this.ground := ground;
      stream, fileCount, sizeBytes, active := HEADER + "\0", 0, 0, {};
    }

    /** The stream and the counts have grown by these records. */
    twostate predicate Added(rs: seq<Record>)
      reads this
    {
      && stream == old(stream) + EncodeAll(rs)
      && fileCount == old(fileCount) + FileCount(rs) && sizeBytes == old(sizeBytes) + SizeBytes(rs)
    }

    method Mark(kind: Kind, path: string)
      requires !IsFileKind(kind)
      modifies this
      ensures active == old(active) && Added([Record(kind, path, "")])
    {
      stream := stream + (KindText(kind) + "\0" + (path + "\0" + ""));
      OneRecord(Record(kind, path, ""));
    }

    method HashFile(kind: Kind, path: string, content: string)
      requires IsFileKind(kind)
      modifies this
      ensures active == old(active) && Added([Record(kind, path, content)])
    {
      stream := stream + Encode(Record(kind, path, content));
      fileCount := fileCount + 1;
      sizeBytes := sizeBytes + |content|;
      OneRecord(Record(kind, path, content));
    }

    /** walk: whatever happens, the directory it made active is inactive again at the end. */
    method WalkDirectory(dir: Dir, logical: string) returns (ok: bool)
      modifies this
      ensures active == old(active)
      ensures ok <==> Walk(ground, dir, logical, old(active)).Some?
      ensures ok ==> Added(Walk(ground, dir, logical, old(active)).value)
      decreases ground.fs.Keys - active, 1
    {
      if dir in active {
        Mark(CycleMark, logical);
        return true;
      }
      if dir !in ground.fs || dir !in ground.names {
        return false;
      }
      ghost var before := active;
      active := active + {dir};
      ok := WalkEntries(dir, logical, ground.names[dir], before);
      active := active - {dir};
    }

    /** The loop over the entries of an active directory. */
    method WalkEntries(dir: Dir, logical: string, names: seq<string>, ghost before: set<Dir>) returns (ok: bool)
      requires dir in ground.fs && dir !in before && active == before + {dir}
      modifies this
      ensures active == old(active)
      ensures ok <==> Entries(ground, dir, logical, before, names).Some?
      ensures ok ==> Added(Entries(ground, dir, logical, before, names).value)
      decreases ground.fs.Keys - before, 0, |names| + 1
    {
      hide Entry, Walk, EncodeAll, FileCount, SizeBytes, Excluded;
      if names == [] {
        NoRecords();
        return true;
      }
      if names[0] !in ground.fs[dir] {
        return false;
      }
      var path := Join(logical, names[0]);
      ghost var done := [];
      ok := true;
      if Excluded(ground.exclusions, path) {
        NoRecords();
      } else {
        ok, done := WalkEntry(dir, path, ground.fs[dir][names[0]], before);
      }
      if ok {
        assert Added(done);
        ok := WalkEntries(dir, logical, names[1..], before);
        if ok {
          EncodeJoin(done, Entries(ground, dir, logical, before, names[1..]).value);
        }
      }
    }

    method WalkEntry(dir: Dir, path: string, node: Node, ghost before: set<Dir>)
      returns (ok: bool, ghost done: seq<Record>)
      requires dir in ground.fs && dir !in before && active == before + {dir}
      modifies this
      ensures active == old(active)
      ensures ok <==> Entry(ground, dir, path, node, before).Some?
      ensures ok ==> Some(done) == Entry(ground, dir, path, node, before) && Added(done)
      decreases ground.fs.Keys - before, 0, 1
    {
      hide Walk, EncodeAll, FileCount, SizeBytes;
      ok, done := true, [];
      match node {
        case Plain(content) =>
          HashFile(File, path, content);
          done := [Record(File, path, content)];
        case LinkFile(content) =>
          HashFile(SymlinkFile, path, content);
          done := [Record(SymlinkFile, path, content)];
        case Special =>
          Mark(Other, path);
          done := [Record(Other, path, "")];
        case LinkSpecial =>
          Mark(SymlinkOther, path);
          done := [Record(SymlinkOther, path, "")];
        case Broken =>
          ok := false;
        case Sub(d) =>
          ok, done := MarkAndWalk(Directory, d, path, before, dir);
        case LinkDir(d) =>
          ok, done := MarkAndWalk(SymlinkDirectory, d, path, before, dir);
      }
    }

    method MarkAndWalk(kind: Kind, d: Dir, path: string, ghost before: set<Dir>, ghost dir: Dir)
      returns (ok: bool, ghost done: seq<Record>)
      requires !IsFileKind(kind) && dir in ground.fs && dir !in before && active == before + {dir}
      modifies this
      ensures active == old(active)
      ensures ok <==> Walk(ground, d, path, active).Some?
      ensures ok ==> Some(done) == Under(Record(kind, path, ""), Walk(ground, d, path, active)) && Added(done)
      decreases ground.fs.Keys - before, 0, 0
    {
      Mark(kind, path);
      done := [];
      ok := WalkDirectory(d, path);
      if ok {
        done := [Record(kind, path, "")] + Walk(ground, d, path, active).value;
        EncodeJoin([Record(kind, path, "")], Walk(ground, d, path, active).value);
      }
    }
  }

  lemma {:induction false} OneRecord(r: Record)
    ensures EncodeAll([r]) == Encode(r)
    ensures FileCount([r]) == (if IsFileKind(r.kind) then 1 else 0)
    ensures SizeBytes([r]) == (if IsFileKind(r.kind) then |r.content| else 0)
  {
    assert [r][1..] == [];
    assert EncodeAll([]) == "" && FileCount([]) == 0 && SizeBytes([]) == 0;
    assert Encode(r) + "" == Encode(r);
  }

  lemma NoRecords()
    ensures EncodeAll([]) == "" && FileCount([]) == 0 && SizeBytes([]) == 0
  {}

  // ------------------------------------------------------------------
  // What a walk emits
  // ------------------------------------------------------------------

  ghost predicate GroundOk(g: Ground) {
    forall d, i :: d in g.names && 0 <= i < |g.names[d]| ==> IsName(g.names[d][i])
  }

  /** Every record is well formed and lies outside the exclusions. */
  ghost predicate Good(g: Ground, rs: seq<Record>) {
    forall i :: 0 <= i < |rs| ==> WellFormed(rs[i]) && !Excluded(g.exclusions, rs[i].path)
  }

  lemma {:induction false} WalkIsGood(g: Ground, dir: Dir, logical: string, active: set<Dir>)
    requires GroundOk(g) && NulFree(logical) && Walk(g, dir, logical, active).Some?
    requires dir in active ==> !Excluded(g.exclusions, logical)
    ensures Good(g, Walk(g, dir, logical, active).value)
    decreases g.fs.Keys - active, 1
  {
    if dir !in active {
      EntriesAreGood(g, dir, logical, active, g.names[dir]);
    }
  }

  lemma {:induction false} EntriesAreGood(g: Ground, dir: Dir, logical: string, active: set<Dir>, names: seq<string>)
    requires GroundOk(g) && NulFree(logical) && dir in g.fs && dir !in active
    requires forall i :: 0 <= i < |names| ==> IsName(names[i])
    requires Entries(g, dir, logical, active, names).Some?
    ensures Good(g, Entries(g, dir, logical, active, names).value)
    decreases g.fs.Keys - active, 0, |names| + 1
  {
    if names != [] {
      var path := Join(logical, names[0]);
      assert NulFree(path);
      if !Excluded(g.exclusions, path) {
        EntryIsGood(g, dir, path, g.fs[dir][names[0]], active);
      }
      EntriesAreGood(g, dir, logical, active, names[1..]);
    }
  }

  lemma {:induction false} EntryIsGood(g: Ground, dir: Dir, path: string, node: Node, active: set<Dir>)
    requires GroundOk(g) && NulFree(path) && dir in g.fs && dir !in active && !Excluded(g.exclusions, path)
    requires Entry(g, dir, path, node, active).Some?
    ensures Good(g, Entry(g, dir, path, node, active).value)
    decreases g.fs.Keys - active, 0, 1
  {
    if node.Sub? || node.LinkDir? {
      WalkIsGood(g, node.dir, path, active + {dir});
    }
  }

  /** What fingerprintDirectory hashes and counts; None for a walk that throws. */
  function Result(g: Ground, root: Dir): Option<(string, nat, nat)> {
    match Walk(g, root, "", {})
    case None => None
    case Some(rs) => Some((Stream(rs), FileCount(rs), SizeBytes(rs)))
  }

  /** The order in which readdirSync lists entries makes no difference to the result. */
  lemma {:induction false} ListingOrderIsForgotten(fs: FileSystem, a: map<Dir, seq<string>>, b: map<Dir, seq<string>>,
                                                   exclusions: seq<string>, root: Dir)
    requires Lists(fs, a) && Lists(fs, b)
    ensures Result(Ground(fs, SortedListing(a), exclusions), root)
        == Result(Ground(fs, SortedListing(b), exclusions), root)
  {
    SameListings(fs, a, b);
  }

  lemma {:induction false} SameListings(fs: FileSystem, a: map<Dir, seq<string>>, b: map<Dir, seq<string>>)
    requires Lists(fs, a) && Lists(fs, b)
    ensures SortedListing(a) == SortedListing(b)
  {
    forall d | d in fs ensures Sort(a[d]) == Sort(b[d]) {
      SortForgetsOrder(a[d], b[d]);
    }
  }

  lemma {:induction false} SortedListingIsOk(fs: FileSystem, listing: map<Dir, seq<string>>, exclusions: seq<string>)
    requires Lists(fs, listing)
    ensures GroundOk(Ground(fs, SortedListing(listing), exclusions))
  {
    forall d, i | d in listing && 0 <= i < |Sort(listing[d])| ensures IsName(Sort(listing[d])[i]) {
      SortSorts(listing[d]);
      assert Sort(listing[d])[i] in Sort(listing[d]);
    }
  }

  /** fingerprintDirectory from the header on. Everything that is hashed can be read back as the
      records of the walk; the two counts are those of the records; no record lies at or below an
      excluded path. None is the answer for a walk that throws. */
  method FingerprintDirectory(fs: FileSystem, listing: map<Dir, seq<string>>, exclusions: seq<string>, root: Dir)
    returns (r: Option<(string, nat, nat)>)
    requires Lists(fs, listing)
    ensures r == Result(Ground(fs, SortedListing(listing), exclusions), root)
    ensures var rs := Walk(Ground(fs, SortedListing(listing), exclusions), root, "", {});
            && (r.Some? <==> rs.Some?)
            && (r.Some? ==>
                  && ReadStream(r.value.0) == Some(rs.value)
                  && r.value.1 == FileCount(rs.value) && r.value.2 == SizeBytes(rs.value)
                  && forall i :: 0 <= i < |rs.value| ==> !Excluded(exclusions, rs.value[i].path))
  {
    hide Walk, Excluded, ReadStream, EncodeAll, FileCount, SizeBytes, SortedListing, Lists;
    var ground := Ground(fs, SortedListing(listing), exclusions);
    var f := new Fingerprint(ground);
    var ok := f.WalkDirectory(root, "");
    if !ok {
      return None;
    }
    ghost var rs := Walk(ground, root, "", {}).value;
    SortedListingIsOk(fs, listing, exclusions);
    WalkIsGood(ground, root, "", {});
    StreamBack(rs);
    return Some((f.stream, f.fileCount, f.sizeBytes));
  }
}
