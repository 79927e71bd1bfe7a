/** The plumbing of run_pipeline in programs/sh.c: which process of a nested pipeline holds
    which end of which pipe once everything is set up. */
module ShellPipeline {
  import opened Options
  import opened Descriptors

  /** The way from a process to its children: the two sides of a pipeline, a subshell's body. */
  datatype Step = L | R | B

  /** What runs: a command, `left | right`, or `( body )`. */
  datatype Job = Command | Pipe(left: Job, right: Job) | Subshell(body: Job)

  /** A pipe is named after the process that made it. */
  datatype File = Plain(id: int) | End(write: bool, pipe: seq<Step>)

  type Files = Table<File>

  // ------------------------------------------------------------------
  // One pipeline
  // ------------------------------------------------------------------

  /** pipe(): the read end gets the lowest free number, the write end the next one. */
  function MakePipe(t: Files, id: seq<Step>): (r: (Files, int, int)) {
    var r: int := LowestFree(t);
    var t1 := t[r := End(false, id)];
    var w: int := LowestFree(t1);
    (t1[w := End(true, id)], r, w)
  }

  /** Standard output goes into the pipe. */
  function LeftTable(t: Files, id: seq<Step>): Files {
    var (t', r, w) := MakePipe(t, id);
    Close(Dup2(Close(t', r), w, 1), w)
  }

  /** Standard input comes out of the pipe. */
  function RightTable(t: Files, id: seq<Step>): Files {
    var (t', r, w) := MakePipe(t, id);
    Close(Dup2(Close(t', w), r, 0), r)
  }

  /** run_pipeline up to the first waitpid, with the answers of pipe and the two forks: the tables
      its children start their jobs with, None for a child that is not made. The parent's own table
      is back as it was on every path. */
  method SetUp(p: Process<File>, id: seq<Step>, pipes: bool, leftForks: bool, rightForks: bool)
    returns (left: Option<Files>, right: Option<Files>)
    modifies p
    ensures p.table == old(p.table)
    ensures left == if pipes && leftForks then Some(LeftTable(old(p.table), id)) else None
    ensures right == if pipes && leftForks && rightForks then Some(RightTable(old(p.table), id)) else None
  {
    left, right := None, None;
    if !pipes {
      return;
    }
    var r: int := p.OpenFile(End(false, id));
    var w: int := p.OpenFile(End(true, id));
    assert (p.table, r, w) == MakePipe(old(p.table), id);
    assert p.table - {r} - {w} == old(p.table);
    if !leftForks {
      p.CloseFd(r);
      p.CloseFd(w);
      return;
    }
    var child := new Process<File>(p.table);
    child.CloseFd(r);
    child.Dup2Fd(w, 1);
    child.CloseFd(w);
    left := Some(child.table);
    if !rightForks {
      p.CloseFd(r);
      p.CloseFd(w);
      return;
    }
    child := new Process<File>(p.table);
    child.CloseFd(w);
    child.Dup2Fd(r, 0);
    child.CloseFd(r);
    right := Some(child.table);
    p.CloseFd(r);
    p.CloseFd(w);
  }

  /** Each child differs from its parent in one descriptor at most, and neither end of the pipe is
      left on any other number. The right child gets its end only if 0 was open, the left one only
      if 0 or 1 was. */
  lemma ChildrenDifferInOne(t: Files, id: seq<Step>)
    ensures LeftTable(t, id) == if 0 in t || 1 in t then t[1 := End(true, id)] else t
    ensures RightTable(t, id) == if 0 in t then t[0 := End(false, id)] else t
  {
    var (t', r, w) := MakePipe(t, id);
    assert r != w && r !in t && w !in t;
    assert 0 in t ==> r != 0 && w != 1;
    assert 0 !in t ==> r == 0;
    var t1 := t[r := End(false, id)];
    assert 0 !in t && 1 !in t ==> 0 in t1 && 1 !in t1;
    assert w == LowestFree(t1);
    assert 0 !in t && 1 !in t ==> w == 1;
    assert LeftTable(t, id) == if 0 in t || 1 in t then t[1 := End(true, id)] else t;
    assert RightTable(t, id) == if 0 in t then t[0 := End(false, id)] else t;
  }

  ghost predicate HoldsFile(t: Files, file: File) { exists f :: f in t && t[f] == file }

  /** With standard input closed the right child loses its pipe, and this is the only case: it
      is connected exactly if descriptor 0 was open. The left child needs 0 or 1. */
  lemma ConnectedIff(t: Files, id: seq<Step>)
    requires !HoldsFile(t, End(true, id)) && !HoldsFile(t, End(false, id))
    ensures HoldsFile(RightTable(t, id), End(false, id)) <==> 0 in t
    ensures HoldsFile(LeftTable(t, id), End(true, id)) <==> 0 in t || 1 in t
  {
    hide LeftTable, RightTable;
    ChildrenDifferInOne(t, id);
    if 0 in t { assert RightTable(t, id)[0] == End(false, id); }
    if 0 in t || 1 in t { assert LeftTable(t, id)[1] == End(true, id); }
  }

  // ------------------------------------------------------------------
  // Pipelines in pipelines
  // ------------------------------------------------------------------

  /** There is a process at the end of this way. */
  predicate IsProcess(job: Job, q: seq<Step>) {
    q == [] || match job
               case Command => false
               case Pipe(l, r) => (q[0] == L && IsProcess(l, q[1..])) || (q[0] == R && IsProcess(r, q[1..]))
               case Subshell(b) => q[0] == B && IsProcess(b, q[1..])
  }

  /** The job of the process at the end of this way. */
  function JobAt(job: Job, q: seq<Step>): Job
    requires IsProcess(job, q)
  {
    if q == [] then job
    else
      match job
      case Pipe(l, r) => if q[0] == L then JobAt(l, q[1..]) else JobAt(r, q[1..])
      case Subshell(b) => JobAt(b, q[1..])
  }

  /** Its table once every pipe of the job is set up, when the process at `at` began with `t`. */
  function TableAt(job: Job, t: Files, at: seq<Step>, q: seq<Step>): Files
    requires IsProcess(job, q)
    decreases job
  {
    if q == [] then t
    else
      match job
      case Pipe(l, r) =>
        if q[0] == L then TableAt(l, LeftTable(t, at), at + [L], q[1..])
        else TableAt(r, RightTable(t, at), at + [R], q[1..])
      case Subshell(b) => TableAt(b, t, at + [B], q[1..])
  }

  /** `q` is on the right edge of the left side of the pipeline at `n`: its last stage, or a
      process that waits for that stage. */
  predicate Writes(n: seq<Step>, q: seq<Step>) {
    n < q && q[|n|] == L && L !in q[|n| + 1..]
  }

  /** `q` is on the left edge of the right side of the pipeline at `n`. */
  predicate Reads(n: seq<Step>, q: seq<Step>) {
    n < q && q[|n|] == R && R !in q[|n| + 1..]
  }

  /** No pipe made at or below `at` is in the table. */
  ghost predicate NoEnds(t: Files, at: seq<Step>) {
    forall f :: f in t && t[f].End? ==> !(at <= t[f].pipe)
  }

  /** A file that no process from here on will make. */
  ghost predicate Foreign(file: File, at: seq<Step>) { file.End? ==> !(at <= file.pipe) }

  lemma {:induction false} LongerPrefix(at: seq<Step>, s: Step, p: seq<Step>)
    ensures at + [s] <= p ==> at <= p && p[|at|] == s
  {
    if at + [s] <= p {
      assert p[..|at|] == (at + [s])[..|at|] == at;
      assert p[..|at| + 1][|at|] == s;
    }
  }

  lemma ForeignBelow(file: File, at: seq<Step>, s: Step)
    requires Foreign(file, at)
    ensures Foreign(file, at + [s])
  {
    if file.End? { LongerPrefix(at, s, file.pipe); }
  }

  /** A foreign file stays where it is, except that a left side loses descriptor 1 and a right
      side descriptor 0. */
  lemma {:induction false} ForeignFile(job: Job, t: Files, at: seq<Step>, q: seq<Step>, file: File, f: int)
    requires IsProcess(job, q) && Foreign(file, at)
    ensures (f in TableAt(job, t, at, q) && TableAt(job, t, at, q)[f] == file)
        <==> (f in t && t[f] == file && (f == 1 ==> L !in q) && (f == 0 ==> R !in q))
    decreases job
  {
    if q != [] {
      assert forall s :: s in q <==> s == q[0] || s in q[1..];
      ForeignBelow(file, at, q[0]);
      ChildrenDifferInOne(t, at);
      match job
      case Pipe(l, r) =>
        if q[0] == L {
          ForeignFile(l, LeftTable(t, at), at + [L], q[1..], file, f);
        } else {
          ForeignFile(r, RightTable(t, at), at + [R], q[1..], file, f);
        }
      case Subshell(b) =>
        ForeignFile(b, t, at + [B], q[1..], file, f);
    }
  }

  lemma NoEndsBelow(t: Files, at: seq<Step>, s: Step)
    requires NoEnds(t, at)
    ensures NoEnds(t, at + [s])
    ensures NoEnds(t[1 := End(true, at)], at + [s]) && NoEnds(t[0 := End(false, at)], at + [s])
  {
    forall f | f in t && t[f].End? ensures !(at + [s] <= t[f].pipe) { ForeignBelow(t[f], at, s); }
  }

  /** The end of the pipe at `n` that a process holds, below a step that leads away from `n`. */
  lemma OtherBranch(at: seq<Step>, n: seq<Step>, s: Step, write: bool)
    requires n != [] && n[0] != s
    ensures Foreign(End(write, at + n), at + [s])
  {
    assert (at + n)[|at|] == n[0];
    LongerPrefix(at, s, at + n);
  }

  /** Who holds what. For every pipeline nested in a job, every process the job is made of and
      every descriptor number: the process has the pipe's write end on that number exactly if
      the number is 1, the process is on the right edge of the pipeline's left side, and 0 or 1 was
      open at the start; and the read end exactly if the number is 0, it is on the left edge of the
      right side, and 0 was open. */
  lemma {:induction false} PipeHolders(job: Job, t: Files, at: seq<Step>, n: seq<Step>, q: seq<Step>, f: int)
    requires IsProcess(job, q) && IsProcess(job, n) && JobAt(job, n).Pipe?
    requires NoEnds(t, at)
    ensures (f in TableAt(job, t, at, q) && TableAt(job, t, at, q)[f] == End(true, at + n))
        <==> (f == 1 && Writes(n, q) && (0 in t || 1 in t))
    ensures (f in TableAt(job, t, at, q) && TableAt(job, t, at, q)[f] == End(false, at + n))
        <==> (f == 0 && Reads(n, q) && 0 in t)
    decreases job
  {
    if q == [] {
      assert at <= at + n;
    } else if n == [] {
      assert at + n == at;
      OwnPipe(job, t, at, q, f);
      assert q[|n| + 1..] == q[1..];
    } else {
      assert at + n == at + [n[0]] + n[1..];
      NoEndsBelow(t, at, q[0]);
      ChildrenDifferInOne(t, at);
      if n[0] == q[0] {
        SameEdge(n, q);
        match job
        case Pipe(l, r) =>
          if q[0] == L {
            PipeHolders(l, LeftTable(t, at), at + [L], n[1..], q[1..], f);
          } else {
            PipeHolders(r, RightTable(t, at), at + [R], n[1..], q[1..], f);
          }
        case Subshell(b) =>
          PipeHolders(b, t, at + [B], n[1..], q[1..], f);
      } else {
        OtherBranch(at, n, q[0], true);
        OtherBranch(at, n, q[0], false);
        assert at <= at + n && (at + n)[|at|] == n[0];
        if q[0] == L {
          ForeignFile(job.left, LeftTable(t, at), at + [L], q[1..], End(true, at + n), f);
          ForeignFile(job.left, LeftTable(t, at), at + [L], q[1..], End(false, at + n), f);
        } else {
          ForeignFile(job.right, RightTable(t, at), at + [R], q[1..], End(true, at + n), f);
          ForeignFile(job.right, RightTable(t, at), at + [R], q[1..], End(false, at + n), f);
        }
      }
    }
  }

  lemma SameEdge(n: seq<Step>, q: seq<Step>)
    requires n != [] && q != [] && n[0] == q[0]
    ensures Writes(n, q) <==> Writes(n[1..], q[1..])
    ensures Reads(n, q) <==> Reads(n[1..], q[1..])
  {
    assert n == [n[0]] + n[1..] && q == [q[0]] + q[1..];
    assert n <= q <==> n[1..] <= q[1..];
    if n < q {
      assert q[|n| + 1..] == q[1..][|n[1..]| + 1..];
    }
  }

  /** The pipe a process makes itself. */
  lemma {:induction false} OwnPipe(job: Job, t: Files, at: seq<Step>, q: seq<Step>, f: int)
    requires job.Pipe? && IsProcess(job, q) && q != [] && NoEnds(t, at)
    ensures (f in TableAt(job, t, at, q) && TableAt(job, t, at, q)[f] == End(true, at))
        <==> (f == 1 && q[0] == L && L !in q[1..] && (0 in t || 1 in t))
    ensures (f in TableAt(job, t, at, q) && TableAt(job, t, at, q)[f] == End(false, at))
        <==> (f == 0 && q[0] == R && R !in q[1..] && 0 in t)
  {
    ChildrenDifferInOne(t, at);
    assert Foreign(End(true, at), at + [q[0]]) && Foreign(End(false, at), at + [q[0]]);
    if q[0] == L {
      ForeignFile(job.left, LeftTable(t, at), at + [L], q[1..], End(true, at), f);
      ForeignFile(job.left, LeftTable(t, at), at + [L], q[1..], End(false, at), f);
    } else {
      ForeignFile(job.right, RightTable(t, at), at + [R], q[1..], End(true, at), f);
      ForeignFile(job.right, RightTable(t, at), at + [R], q[1..], End(false, at), f);
    }
  }
}
