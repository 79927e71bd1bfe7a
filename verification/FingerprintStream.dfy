/** The byte stream that fingerprintDirectory of benchmarks/run.ts hashes, and reading it back.

    A stream is a string whose characters are its bytes; names are their UTF-8 bytes. */
module FingerprintStream {
  import opened Options
  import Decimal

  datatype Kind = File | SymlinkFile | Directory | SymlinkDirectory | SymlinkOther | Other | CycleMark

  /** `content` is the file's bytes, and empty for the kinds that have none. */
  datatype Record = Record(kind: Kind, path: string, content: string)

  predicate IsFileKind(k: Kind) { k == File || k == SymlinkFile }

  function KindText(k: Kind): string {
    match k
    case File => "file"
    case SymlinkFile => "symlink-file"
    case Directory => "directory"
    case SymlinkDirectory => "symlink-directory"
    case SymlinkOther => "symlink-other"
    case Other => "other"
    case CycleMark => "cycle"
  }

  const HEADER: string := "kandelo-benchmark-directory-v1"

  /** A name, a path: anything without a NUL. */
  predicate NulFree(s: string) { forall i :: 0 <= i < |s| ==> s[i] != '\0' }

  predicate WellFormed(r: Record) { NulFree(r.path) && (!IsFileKind(r.kind) ==> r.content == "") }

  /** The calls of hash.update for one record. */
  function Encode(r: Record): string {
    KindText(r.kind) + "\0" + (r.path + "\0" + Tail(r))
  }

  function Tail(r: Record): string {
    if IsFileKind(r.kind) then Decimal.Write(|r.content|) + "\0" + (r.content + "\0") else ""
  }

  function EncodeAll(rs: seq<Record>): string {
    if rs == [] then "" else Encode(rs[0]) + EncodeAll(rs[1..])
  }

  /** The whole stream. */
  function Stream(rs: seq<Record>): string { HEADER + "\0" + EncodeAll(rs) }

  function FileCount(rs: seq<Record>): nat {
    if rs == [] then 0 else (if IsFileKind(rs[0].kind) then 1 else 0) + FileCount(rs[1..])
  }

  function SizeBytes(rs: seq<Record>): nat {
    if rs == [] then 0 else (if IsFileKind(rs[0].kind) then |rs[0].content| else 0) + SizeBytes(rs[1..])
  }

  // ------------------------------------------------------------------
  // Reading
  // ------------------------------------------------------------------

  /** The field up to the next NUL, and what comes behind it. */
  function Field(s: string): (r: Option<(string, string)>)
    ensures r.Some? ==> |r.value.0| + 1 + |r.value.1| == |s|
  {
    if s == "" then None
    else if s[0] == '\0' then Some(("", s[1..]))
    else
      match Field(s[1..])
      case None => None
      case Some((f, rest)) => Some(([s[0]] + f, rest))
  }

  function KindOf(text: string): Option<Kind> {
    if text == "file" then Some(File)
    else if text == "symlink-file" then Some(SymlinkFile)
    else if text == "directory" then Some(Directory)
    else if text == "symlink-directory" then Some(SymlinkDirectory)
    else if text == "symlink-other" then Some(SymlinkOther)
    else if text == "other" then Some(Other)
    else if text == "cycle" then Some(CycleMark)
    else None
  }

  /** One record, and what comes behind it. */
  function ReadRecord(s: string): (r: Option<(Record, string)>)
    ensures r.Some? ==> |r.value.1| < |s|
  {
    match Field(s)
    case None => None
    case Some((kindText, s1)) =>
      match Field(s1)
      case None => None
      case Some((path, s2)) =>
        match KindOf(kindText)
        case None => None
        case Some(kind) =>
          if !IsFileKind(kind) then Some((Record(kind, path, ""), s2))
          else
            match Field(s2)
            case None => None
            case Some((digits, s3)) =>
              if !Decimal.AllDigits(digits) then None
              else
                var n := Decimal.Read(digits);
                if n + 1 > |s3| then None else Some((Record(kind, path, s3[..n]), s3[n + 1..]))
  }

  function ReadRecords(s: string): Option<seq<Record>>
    decreases |s|
  {
    if s == "" then Some([])
    else
      match ReadRecord(s)
      case None => None
      case Some((r, rest)) =>
        match ReadRecords(rest)
        case None => None
        case Some(rs) => Some([r] + rs)
  }

  function ReadStream(s: string): Option<seq<Record>> {
    match Field(s)
    case None => None
    case Some((header, rest)) => if header == HEADER then ReadRecords(rest) else None
  }

  // ------------------------------------------------------------------
  // Reading back
  // ------------------------------------------------------------------

  lemma {:induction false} FieldBack(f: string, rest: string)
    requires NulFree(f)
    ensures Field(f + "\0" + rest) == Some((f, rest))
    decreases |f|
  {
    var s := f + "\0" + rest;
    if f == "" {
      assert s[1..] == rest;
    } else {
      assert s[1..] == f[1..] + "\0" + rest;
      FieldBack(f[1..], rest);
      assert [f[0]] + f[1..] == f;
    }
  }

  lemma KindBack(k: Kind)
    ensures NulFree(KindText(k)) && KindOf(KindText(k)) == Some(k)
  {}

  /** A record can be read off the front of any text, whatever bytes its file has: the length
      says where it ends. */
  lemma {:induction false} RecordBack(r: Record, rest: string)
    requires WellFormed(r)
    ensures ReadRecord(Encode(r) + rest) == Some((r, rest))
  {
    hide KindText, KindOf, Field, Decimal.Write, Decimal.Read;
    var s1 := r.path + "\0" + Tail(r) + rest;
    assert Encode(r) + rest == KindText(r.kind) + "\0" + s1;
    KindBack(r.kind);
    FieldBack(KindText(r.kind), s1);
    var s2 := Tail(r) + rest;
    assert s1 == r.path + "\0" + s2;
    FieldBack(r.path, s2);
    if IsFileKind(r.kind) {
      var digits, s3 := Decimal.Write(|r.content|), r.content + "\0" + rest;
      assert s2 == digits + "\0" + s3;
      FieldBack(digits, s3);
      Decimal.ReadWrite(|r.content|);
      assert s3[..|r.content|] == r.content && s3[|r.content| + 1..] == rest;
    } else {
      assert s2 == rest;
    }
  }

  lemma {:induction false} RecordsBack(rs: seq<Record>)
    requires forall i :: 0 <= i < |rs| ==> WellFormed(rs[i])
    ensures ReadRecords(EncodeAll(rs)) == Some(rs)
    decreases |rs|
  {
    if rs != [] {
      RecordBack(rs[0], EncodeAll(rs[1..]));
      RecordsBack(rs[1..]);
      assert [rs[0]] + rs[1..] == rs;
      assert Encode(rs[0]) != "";
    }
  }

  /** The records can be read back from the stream. */
  lemma {:induction false} StreamBack(rs: seq<Record>)
    requires forall i :: 0 <= i < |rs| ==> WellFormed(rs[i])
    ensures ReadStream(Stream(rs)) == Some(rs)
  {
    FieldBack(HEADER, EncodeAll(rs));
    RecordsBack(rs);
  }

  /** So two walks that hash the same stream saw the same records, file contents that imitate
      records included. */
  lemma {:induction false} StreamIsInjective(rs: seq<Record>, ss: seq<Record>)
    requires forall i :: 0 <= i < |rs| ==> WellFormed(rs[i])
    requires forall i :: 0 <= i < |ss| ==> WellFormed(ss[i])
    requires Stream(rs) == Stream(ss)
    ensures rs == ss
  {
    StreamBack(rs);
    StreamBack(ss);
  }

  lemma {:induction false} EncodeJoin(rs: seq<Record>, ss: seq<Record>)
    ensures EncodeAll(rs + ss) == EncodeAll(rs) + EncodeAll(ss)
    ensures FileCount(rs + ss) == FileCount(rs) + FileCount(ss)
    ensures SizeBytes(rs + ss) == SizeBytes(rs) + SizeBytes(ss)
    decreases |rs|
  {
    if rs == [] {
      assert rs + ss == ss;
    } else {
      assert (rs + ss)[1..] == rs[1..] + ss;
      EncodeJoin(rs[1..], ss);
      assert Encode(rs[0]) + (EncodeAll(rs[1..]) + EncodeAll(ss)) == Encode(rs[0]) + EncodeAll(rs[1..]) + EncodeAll(ss);
    }
  }
}
