/** Redirections of builtins in programs/sh.c: save, apply, run, restore. */
module ShellRedirect {
  import opened Options
  import opened Descriptors

  /** Open files are just told apart here. */
  type Files = Table<int>

  /** Where a redirected descriptor is to lead: `n>&m`, a file that open() delivers, or one that it
      does not. */
  datatype Source = FromFd(fd: nat) | FromFile(file: int) | Missing

  datatype Redirection = Redirection(fd: nat, source: Source)

  // ------------------------------------------------------------------
  // What each phase does to the table
  // ------------------------------------------------------------------

  /** The copies made before anything is redirected, -1 where dup failed. */
  function Save(t: Files, rs: seq<Redirection>): (r: (Files, seq<int>))
    ensures |r.1| == |rs|
    decreases |rs|
  {
    if rs == [] then (t, [])
    else
      var (t', n) := Dup(t, rs[0].fd);
      var (t'', saved) := Save(t', rs[1..]);
      (t'', [n] + saved)
  }

  /** open, dup2 and close, or just dup2. */
  function Apply1(t: Files, r: Redirection): Files {
    match r.source
    case FromFd(m) => Dup2(t, m, r.fd)
    case FromFile(file) =>
      var n := LowestFree(t);
      var t' := t[n := file];
      if n != r.fd then Close(Dup2(t', n, r.fd), n) else t'
    case Missing => t
  }

  function Apply(t: Files, rs: seq<Redirection>): Files
    decreases |rs|
  {
    if rs == [] then t else Apply(Apply1(t, rs[0]), rs[1..])
  }

  function Restore(t: Files, rs: seq<Redirection>, saved: seq<int>): Files
    requires |saved| == |rs|
    decreases |rs|
  {
    if rs == [] then t else Restore(Close(Dup2(t, saved[0], rs[0].fd), saved[0]), rs[1..], saved[1..])
  }

  /** The table after a builtin has run with these redirections. */
  function Around(t: Files, rs: seq<Redirection>): Files {
    var (t', saved) := Save(t, rs);
    Restore(Apply(t', rs), rs, saved)
  }

  // ------------------------------------------------------------------
  // The code
  // ------------------------------------------------------------------

  ghost predicate AllOpenable(rs: seq<Redirection>) {
    forall j :: 0 <= j < |rs| ==> !rs[j].source.Missing?
  }

  /** apply_redirects; it exits the shell at a file that cannot be opened. */
  method ApplyRedirects(p: Process<int>, rs: seq<Redirection>) returns (ok: bool)
    modifies p
    ensures ok <==> AllOpenable(rs)
    ensures ok ==> p.table == Apply(old(p.table), rs)
  {
    var i := 0;
    while i < |rs|
      invariant 0 <= i <= |rs| && Apply(p.table, rs[i..]) == Apply(old(p.table), rs)
      invariant forall j :: 0 <= j < i ==> !rs[j].source.Missing?
    {
      var r := rs[i];
      assert rs[i..][1..] == rs[i + 1..];
      match r.source {
        case FromFd(m) =>
          p.Dup2Fd(m, r.fd);
        case FromFile(file) =>
          var n := p.OpenFile(file);
          if n != r.fd {
            p.Dup2Fd(n, r.fd);
            p.CloseFd(n);
          }
        case Missing =>
          return false;
      }
      i := i + 1;
    }
    return true;
  }

  method SaveDescriptors(p: Process<int>, rs: seq<Redirection>) returns (saved: seq<int>)
    modifies p
    ensures (p.table, saved) == Save(old(p.table), rs)
  {
    saved := [];
    var i := 0;
    assert rs[0..] == rs && saved + Save(p.table, rs).1 == Save(p.table, rs).1;
    while i < |rs|
      invariant 0 <= i <= |rs|
      invariant var (t, rest) := Save(p.table, rs[i..]); (t, saved + rest) == Save(old(p.table), rs)
    {
      var n := p.DupFd(rs[i].fd);
      assert rs[i..][1..] == rs[i + 1..];
      assert forall rest: seq<int> :: saved + ([n] + rest) == saved + [n] + rest;
      saved := saved + [n];
      i := i + 1;
    }
    assert rs[i..] == [] && saved + [] == saved;
  }

  method RestoreDescriptors(p: Process<int>, rs: seq<Redirection>, saved: seq<int>)
    requires |saved| == |rs|
    modifies p
    ensures p.table == Restore(old(p.table), rs, saved)
  {
    var i := 0;
    while i < |rs|
      invariant 0 <= i <= |rs| && Restore(p.table, rs[i..], saved[i..]) == Restore(old(p.table), rs, saved)
    {
      p.Dup2Fd(saved[i], rs[i].fd);
      p.CloseFd(saved[i]);
      assert rs[i..][1..] == rs[i + 1..] && saved[i..][1..] == saved[i + 1..];
      i := i + 1;
    }
  }

  /** run_simple for a builtin that itself leaves the descriptors alone: unless the shell exits over a
      file, the table afterwards is `Around` of the one before. */
  method RunBuiltin(p: Process<int>, rs: seq<Redirection>) returns (ok: bool)
    modifies p
    ensures ok <==> AllOpenable(rs)
    ensures ok ==> p.table == Around(old(p.table), rs)
  {
    var saved := SaveDescriptors(p, rs);
    ok := ApplyRedirects(p, rs);
    if ok {
      RestoreDescriptors(p, rs, saved);
    }
  }

  // ------------------------------------------------------------------
  // The copies
  // ------------------------------------------------------------------

  /** `u` has everything `t` has. */
  ghost predicate Extends(u: Files, t: Files) {
    forall k :: k in t ==> k in u && u[k] == t[k]
  }

  /** What the saving loop achieves: every descriptor that was open at its turn has a copy, ... */
  ghost predicate Copies(t: Files, u: Files, rs: seq<Redirection>, saved: seq<int>) {
    && |saved| == |rs| && Extends(u, t)
    && (forall k :: k in u ==> k in t || (k >= 0 && k in saved))
    && forall j :: 0 <= j < |rs| ==> Copied(t, u, rs[j].fd, saved[j])
  }

  ghost predicate Copied(t: Files, u: Files, fd: int, n: int) {
    && n >= -1
    && (n >= 0 ==> n in u && n !in t)
    && (fd in t ==> n >= 0 && u[n] == t[fd])
  }

  /** ... the copies are all different, and none sits on a number that was saved before it. */
  ghost predicate Apart(rs: seq<Redirection>, saved: seq<int>) {
    && |saved| == |rs|
    && (forall j, m :: 0 <= j < m < |rs| && saved[j] >= 0 ==> saved[j] != saved[m])
    && (forall j, m :: 0 <= j <= m < |rs| && saved[j] >= 0 ==> saved[m] != rs[j].fd)
  }

  lemma {:induction false} SaveCopies(t: Files, rs: seq<Redirection>)
    ensures Copies(t, Save(t, rs).0, rs, Save(t, rs).1) && Apart(rs, Save(t, rs).1)
    decreases |rs|
  {
    if rs != [] {
      var (t1, n) := Dup(t, rs[0].fd);
      var (u, saved) := Save(t1, rs[1..]);
      SaveCopies(t1, rs[1..]);
      CopiesFirst(t, t1, n, u, rs, saved);
      ApartFirst(t, t1, n, u, rs, saved);
    }
  }

  lemma {:induction false} CopiesFirst(t: Files, t1: Files, n: int, u: Files, rs: seq<Redirection>, saved: seq<int>)
    requires rs != [] && (t1, n) == Dup(t, rs[0].fd) && Copies(t1, u, rs[1..], saved)
    ensures Copies(t, u, rs, [n] + saved)
  {
    var all := [n] + saved;
    forall k | k in u ensures k in t || (k >= 0 && k in all) {
      if k !in t && k in t1 { assert all[0] == k; }
      assert k in saved ==> k in all;
    }
    forall j | 0 <= j < |rs| ensures Copied(t, u, rs[j].fd, all[j]) {
      if j > 0 {
        assert Copied(t1, u, rs[1..][j - 1].fd, saved[j - 1]);
      }
    }
  }

  lemma {:induction false} ApartFirst(t: Files, t1: Files, n: int, u: Files, rs: seq<Redirection>, saved: seq<int>)
    requires rs != [] && (t1, n) == Dup(t, rs[0].fd) && Copies(t1, u, rs[1..], saved) && Apart(rs[1..], saved)
    ensures Apart(rs, [n] + saved)
  {
    var all := [n] + saved;
    forall j, m | 0 <= j < m < |rs| && all[j] >= 0 ensures all[j] != all[m] && all[m] != rs[j].fd {
      assert Copied(t1, u, rs[1..][m - 1].fd, saved[m - 1]);
      if j > 0 {
        assert all[j] == saved[j - 1] && rs[j] == rs[1..][j - 1] && all[m] == saved[m - 1];
      }
    }
    forall j | 0 <= j < |rs| && all[j] >= 0 ensures all[j] != rs[j].fd {
      if j > 0 { assert all[j] == saved[j - 1] && rs[j] == rs[1..][j - 1]; }
    }
  }

  // ------------------------------------------------------------------
  // When the table comes back
  // ------------------------------------------------------------------

  predicate IsTarget(rs: seq<Redirection>, k: int) {
    exists j :: 0 <= j < |rs| && rs[j].fd == k
  }

  lemma {:induction false} TargetFirst(rs: seq<Redirection>, k: int)
    requires rs != []
    ensures IsTarget(rs, k) <==> rs[0].fd == k || IsTarget(rs[1..], k)
  {
    if IsTarget(rs, k) {
      var j :| 0 <= j < |rs| && rs[j].fd == k;
      assert j > 0 ==> rs[1..][j - 1].fd == k;
    }
    if IsTarget(rs[1..], k) {
      var j :| 0 <= j < |rs[1..]| && rs[1..][j].fd == k;
      assert rs[j + 1].fd == k;
    }
  }

  predicate IsLast(rs: seq<Redirection>, i: nat)
    requires i < |rs|
  {
    forall m :: i < m < |rs| ==> rs[m].fd != rs[i].fd
  }

  /** A file redirection puts the file on its descriptor, open or not, and changes nothing else. */
  lemma ApplyFile(t: Files, r: Redirection)
    requires r.source.FromFile?
    ensures Apply1(t, r) == t[r.fd := r.source.file]
  {
    var n := LowestFree(t);
    if n != r.fd {
      var t' := t[n := r.source.file];
      assert Close(Dup2(t', n, r.fd), n) == t[r.fd := r.source.file];
    }
  }

  /** Nothing is closed, and only targets change. */
  ghost predicate Applied(t: Files, v: Files, rs: seq<Redirection>) {
    && (forall k :: k in t ==> k in v)
    && (forall k :: !IsTarget(rs, k) ==> (k in v <==> k in t))
    && (forall k :: !IsTarget(rs, k) && k in t ==> v[k] == t[k])
  }

  lemma ApplyOne(t: Files, r: Redirection)
    ensures forall k :: k in t ==> k in Apply1(t, r)
    ensures forall k :: k != r.fd ==> (k in Apply1(t, r) <==> k in t)
    ensures forall k :: k != r.fd && k in t ==> Apply1(t, r)[k] == t[k]
  {
    if r.source.FromFile? { ApplyFile(t, r); }
  }

  lemma {:induction false} ApplyMany(t: Files, rs: seq<Redirection>)
    ensures Applied(t, Apply(t, rs), rs)
    decreases |rs|
  {
    hide Apply1;
    if rs != [] {
      ApplyOne(t, rs[0]);
      ApplyMany(Apply1(t, rs[0]), rs[1..]);
      forall k ensures IsTarget(rs, k) <==> rs[0].fd == k || IsTarget(rs[1..], k) { TargetFirst(rs, k); }
    }
  }

  function At(t: Files, k: int): Option<int> { if k in t then Some(t[k]) else None }

  /** Where descriptor `k` leads while the builtin runs: the last redirection of `k` decides, and `n>&m`
      means what `m` led to before it; from a closed `m` nothing is taken. */
  function Leads(t: Files, rs: seq<Redirection>, k: int): Option<int> {
    if rs == [] then At(t, k)
    else
      var before, r := rs[..|rs| - 1], rs[|rs| - 1];
      if r.fd != k then Leads(t, before, k)
      else
        match r.source
        case FromFile(file) => Some(file)
        case FromFd(m) => if Leads(t, before, m).Some? then Leads(t, before, m) else Leads(t, before, k)
        case Missing => Leads(t, before, k)
  }

  lemma {:induction false} ApplyLast(t: Files, rs: seq<Redirection>, r: Redirection)
    ensures Apply(t, rs + [r]) == Apply1(Apply(t, rs), r)
    decreases |rs|
  {
    hide Apply1;
    if rs == [] {
      assert rs + [r] == [r] && [r][1..] == [];
      assert Apply(Apply1(t, r), []) == Apply1(t, r);
    } else {
      assert (rs + [r])[0] == rs[0] && (rs + [r])[1..] == rs[1..] + [r];
      ApplyLast(Apply1(t, rs[0]), rs[1..], r);
    }
  }

  /** The builtin finds every descriptor where the redirections say, in their order. */
  lemma {:induction false} AppliedLeads(t: Files, rs: seq<Redirection>, k: int)
    ensures At(Apply(t, rs), k) == Leads(t, rs, k)
    decreases |rs|
  {
    hide Apply;
    if rs == [] {
      assert Apply(t, rs) == t by { NothingApplied(t); }
    } else {
      var before, r := rs[..|rs| - 1], rs[|rs| - 1];
      assert rs == before + [r];
      ApplyLast(t, before, r);
      AppliedLeads(t, before, k);
      if r.source.FromFile? { ApplyFile(Apply(t, before), r); }
      if r.source.FromFd? { AppliedLeads(t, before, r.source.fd); }
    }
  }

  lemma NothingApplied(t: Files)
    ensures Apply(t, []) == t
  {}

  /** The order counts: `> f 2>&1` sends both to the file, `2>&1 > f` only one. */
  lemma OrderCounts(out: int, err: int, f: int)
    ensures var t := map[1 := out, 2 := err];
            var toFile, toOut := Redirection(1, FromFile(f)), Redirection(2, FromFd(1));
            && Leads(t, [toFile, toOut], 1) == Leads(t, [toFile, toOut], 2) == Some(f)
            && Leads(t, [toOut, toFile], 1) == Some(f) && Leads(t, [toOut, toFile], 2) == Some(out)
  {
    var t := map[1 := out, 2 := err];
    var toFile, toOut := Redirection(1, FromFile(f)), Redirection(2, FromFd(1));
    assert [toFile, toOut][..1] == [toFile] && [toOut, toFile][..1] == [toOut];
    assert [toFile][..0] == [] && [toOut][..0] == [];
    assert Leads(t, [], 1) == Some(out) && Leads(t, [toFile], 1) == Some(f) && Leads(t, [toOut], 2) == Some(out);
  }

  /** An entry that no copy is taken to and that is no copy itself survives the restoring loop. */
  lemma {:induction false} RestoreKeeps(u: Files, rs: seq<Redirection>, saved: seq<int>, k: int)
    requires |saved| == |rs| && k in u
    requires forall m :: 0 <= m < |rs| && saved[m] >= 0 ==> saved[m] != k && rs[m].fd != k
    ensures k in Restore(u, rs, saved) && Restore(u, rs, saved)[k] == u[k]
    decreases |rs|
  {
    if rs != [] {
      var u1 := Close(Dup2(u, saved[0], rs[0].fd), saved[0]);
      assert k in u1 && u1[k] == u[k];
      RestoreKeeps(u1, rs[1..], saved[1..], k);
    }
  }

  /** A number that no copy is taken to is free in the end if it was free or held a copy. */
  lemma {:induction false} RestoreFrees(u: Files, rs: seq<Redirection>, saved: seq<int>, k: nat)
    requires |saved| == |rs| && (k !in u || k in saved)
    requires forall m :: 0 <= m < |rs| && saved[m] >= 0 ==> rs[m].fd != k
    ensures k !in Restore(u, rs, saved)
    decreases |rs|
  {
    if rs != [] {
      var u1 := Close(Dup2(u, saved[0], rs[0].fd), saved[0]);
      assert saved == [saved[0]] + saved[1..];
      assert k !in u1 || k in saved[1..];
      RestoreFrees(u1, rs[1..], saved[1..], k);
    }
  }

  /** Whatever lies on the number of copy `j` when the loop begins ends up on its descriptor, if
      no later copy is taken there. */
  lemma {:induction false} RestoreDelivers(u: Files, rs: seq<Redirection>, saved: seq<int>, j: nat)
    requires |saved| == |rs| && j < |rs| && saved[j] >= 0 && saved[j] in u
    requires forall m :: 0 <= m < j && saved[m] >= 0 ==> saved[m] != saved[j] && rs[m].fd != saved[j]
    requires forall m :: j <= m < |rs| && saved[m] >= 0 ==> saved[m] != rs[j].fd
    requires forall m :: j < m < |rs| && saved[m] >= 0 ==> rs[m].fd != rs[j].fd
    ensures rs[j].fd in Restore(u, rs, saved) && Restore(u, rs, saved)[rs[j].fd] == u[saved[j]]
    decreases |rs|
  {
    var u1 := Close(Dup2(u, saved[0], rs[0].fd), saved[0]);
    var rs1, saved1 := rs[1..], saved[1..];
    assert forall m :: 0 <= m < |rs1| ==> rs1[m] == rs[m + 1] && saved1[m] == saved[m + 1];
    if j == 0 {
      assert rs[0].fd in u1 && u1[rs[0].fd] == u[saved[0]];
      RestoreKeeps(u1, rs1, saved1, rs[0].fd);
    } else {
      assert saved[j] in u1 && u1[saved[j]] == u[saved[j]];
      RestoreDelivers(u1, rs1, saved1, j - 1);
    }
  }

  /** A descriptor that has a copy was open, or a copy itself. */
  lemma {:induction false} OpenAtItsTurn(t: Files, rs: seq<Redirection>, i: nat)
    requires i < |rs| && Save(t, rs).1[i] >= 0
    ensures rs[i].fd in t || rs[i].fd in Save(t, rs).1
    decreases |rs|
  {
    var (t1, n) := Dup(t, rs[0].fd);
    var (u, saved) := Save(t1, rs[1..]);
    if i > 0 {
      OpenAtItsTurn(t1, rs[1..], i - 1);
      assert Save(t, rs).1 == [n] + saved;
      assert rs[i].fd in saved ==> rs[i].fd in [n] + saved;
    }
  }

  /** The last copy that is taken to the descriptor of redirection `i`. */
  lemma {:induction false} LastCopy(rs: seq<Redirection>, saved: seq<int>, i: nat) returns (j: nat)
    requires |saved| == |rs| && i < |rs| && saved[i] >= 0
    ensures i <= j < |rs| && rs[j].fd == rs[i].fd && saved[j] >= 0
    ensures forall m :: j < m < |rs| && saved[m] >= 0 ==> rs[m].fd != rs[j].fd
    decreases |rs| - i
  {
    if m :| i < m < |rs| && saved[m] >= 0 && rs[m].fd == rs[i].fd {
      j := LastCopy(rs, saved, m);
    } else {
      j := i;
    }
  }

  /** What the two loops before the restoring one have made of the table. */
  lemma {:induction false} BeforeRestoring(t: Files, rs: seq<Redirection>)
    ensures var (u, saved) := Save(t, rs);
            Copies(t, u, rs, saved) && Apart(rs, saved) && Applied(u, Apply(u, rs), rs)
  {
    SaveCopies(t, rs);
    ApplyMany(Save(t, rs).0, rs);
  }

  /** Redirection `i` is undone, where `saved` are the copies and `v` is the table while the builtin
      runs. Of an open descriptor the last copy counts: it must still lead where the descriptor
      led. A closed descriptor must have had no copy, and must not have been opened unless the
      copy of another one had been put on its number: restoring that one closes it. */
  predicate Undone(t: Files, rs: seq<Redirection>, saved: seq<int>, v: Files, i: nat)
    requires |saved| == |rs| && i < |rs|
  {
    if rs[i].fd in t then IsLast(rs, i) ==> saved[i] in v && v[saved[i]] == t[rs[i].fd]
    else saved[i] < 0 && (rs[i].fd in saved || rs[i].fd !in v)
  }

  predicate AllUndone(t: Files, rs: seq<Redirection>) {
    var (u, saved) := Save(t, rs);
    forall i :: 0 <= i < |rs| ==> Undone(t, rs, saved, Apply(u, rs), i)
  }

  /** A redirection that is not undone shows: something stays on a descriptor that was closed, or
      ends up on one that was open. */
  lemma {:induction false} TraceShows(t: Files, rs: seq<Redirection>, i: nat)
    requires i < |rs| && !Undone(t, rs, Save(t, rs).1, Apply(Save(t, rs).0, rs), i)
    ensures Around(t, rs) != t
  {
    hide Save, Apply, Restore;
    var (u, saved) := Save(t, rs);
    var v, c := Apply(u, rs), rs[i].fd;
    BeforeRestoring(t, rs);
    assert Copied(t, u, c, saved[i]);
    if c in t {
      RestoreDelivers(v, rs, saved, i);
    } else if saved[i] >= 0 {
      var j := LastCopy(rs, saved, i);
      assert Copied(t, u, c, saved[j]);
      RestoreDelivers(v, rs, saved, j);
    } else {
      forall m | 0 <= m < |rs| && saved[m] >= 0 ensures saved[m] != c && rs[m].fd != c { OpenAtItsTurn(t, rs, m); }
      RestoreKeeps(v, rs, saved, c);
    }
  }

  /** The last redirection of a descriptor. */
  lemma {:induction false} LastOf(rs: seq<Redirection>, k: int) returns (j: nat)
    requires IsTarget(rs, k)
    ensures j < |rs| && rs[j].fd == k && IsLast(rs, j)
    decreases |rs|
  {
    TargetFirst(rs, k);
    if IsTarget(rs[1..], k) {
      j := LastOf(rs[1..], k);
      j := j + 1;
      assert forall m :: j < m < |rs| ==> rs[m] == rs[1..][m - 1];
    } else {
      j := 0;
      assert forall m :: 0 < m < |rs| ==> rs[m] == rs[1..][m - 1];
    }
  }

  /** If all are undone every descriptor that was open leads where it did, ... */
  lemma {:induction false} OpenComesBack(t: Files, rs: seq<Redirection>, k: int)
    requires AllUndone(t, rs) && k in t
    ensures k in Around(t, rs) && Around(t, rs)[k] == t[k]
  {
    hide Save, Apply, Restore;
    var (u, saved) := Save(t, rs);
    var v := Apply(u, rs);
    BeforeRestoring(t, rs);
    if IsTarget(rs, k) {
      var j := LastOf(rs, k);
      assert Copied(t, u, k, saved[j]) && Undone(t, rs, saved, v, j);
      RestoreDelivers(v, rs, saved, j);
    } else {
      forall m | 0 <= m < |rs| && saved[m] >= 0 ensures saved[m] != k && rs[m].fd != k {
        assert Copied(t, u, rs[m].fd, saved[m]);
      }
      RestoreKeeps(v, rs, saved, k);
    }
  }

  /** ... and every other number is free again. */
  lemma {:induction false} ClosedStaysClosed(t: Files, rs: seq<Redirection>, k: int)
    requires AllUndone(t, rs) && k !in t
    ensures k !in Around(t, rs)
  {
    hide Save, Apply, Restore;
    var (u, saved) := Save(t, rs);
    var v := Apply(u, rs);
    BeforeRestoring(t, rs);
    assert forall m :: 0 <= m < |rs| && rs[m].fd == k ==> Undone(t, rs, saved, v, m);
    if k >= 0 {
      RestoreFrees(v, rs, saved, k);
    } else {
      RestoreNoNegative(v, rs, saved, k);
    }
  }

  lemma {:induction false} RestoreNoNegative(u: Files, rs: seq<Redirection>, saved: seq<int>, k: int)
    requires |saved| == |rs| && k < 0 && k !in u
    ensures k !in Restore(u, rs, saved)
    decreases |rs|
  {
    if rs != [] {
      RestoreNoNegative(Close(Dup2(u, saved[0], rs[0].fd), saved[0]), rs[1..], saved[1..], k);
    }
  }

  /** The table comes back exactly if every redirection is undone: for all tables and redirections. */
  lemma RestoredIff(t: Files, rs: seq<Redirection>)
    ensures Around(t, rs) == t <==> AllUndone(t, rs)
  {
    hide Save, Apply, Around;
    if AllUndone(t, rs) {
      forall k | k in t ensures k in Around(t, rs) && Around(t, rs)[k] == t[k] { OpenComesBack(t, rs, k); }
      forall k | k !in t ensures k !in Around(t, rs) { ClosedStaysClosed(t, rs, k); }
      assert Around(t, rs) == t;
    } else {
      var i :| 0 <= i < |rs| && !Undone(t, rs, Save(t, rs).1, Apply(Save(t, rs).0, rs), i);
      TraceShows(t, rs, i);
    }
  }

  ghost predicate AllOpen(t: Files, rs: seq<Redirection>) {
    forall j :: 0 <= j < |rs| ==> rs[j].fd in t
  }

  /** If every redirected descriptor was open, the builtin leaves the table as it was: repeated
      descriptors, `n>&m` forms and files on any number included. */
  lemma {:induction false} OpenTargetsAreRestored(t: Files, rs: seq<Redirection>)
    requires AllOpen(t, rs)
    ensures Around(t, rs) == t
  {
    hide Save, Apply, Around;
    var (u, saved) := Save(t, rs);
    BeforeRestoring(t, rs);
    forall i | 0 <= i < |rs| ensures Undone(t, rs, saved, Apply(u, rs), i) {
      assert Copied(t, u, rs[i].fd, saved[i]);
      assert !IsTarget(rs, saved[i]);
    }
    RestoredIff(t, rs);
  }

  // ------------------------------------------------------------------
  // Files only
  // ------------------------------------------------------------------

  /** Every redirection opens a file anew. */
  ghost predicate NewFiles(t: Files, rs: seq<Redirection>) {
    forall j :: 0 <= j < |rs| ==> rs[j].source.FromFile? && rs[j].source.file !in t.Values
  }

  /** The same condition without running anything but the copying: the last copy of an open descriptor
      does not sit on a redirected number, and on the number of a closed one that had no copy sits
      the copy of another one. */
  predicate Traceless(t: Files, rs: seq<Redirection>, saved: seq<int>, i: nat)
    requires |saved| == |rs| && i < |rs|
  {
    if rs[i].fd in t then IsLast(rs, i) ==> !IsTarget(rs, saved[i])
    else saved[i] < 0 && rs[i].fd in saved
  }

  predicate AllTraceless(t: Files, rs: seq<Redirection>) {
    forall i :: 0 <= i < |rs| ==> Traceless(t, rs, Save(t, rs).1, i)
  }

  /** Targets end up on new files. */
  lemma {:induction false} TargetsAreNew(t: Files, rs: seq<Redirection>, known: set<int>)
    requires forall j :: 0 <= j < |rs| ==> rs[j].source.FromFile? && rs[j].source.file !in known
    ensures forall k :: IsTarget(rs, k) ==> k in Apply(t, rs) && Apply(t, rs)[k] !in known
    decreases |rs|
  {
    if rs != [] {
      ApplyFile(t, rs[0]);
      var t1, rs1 := Apply1(t, rs[0]), rs[1..];
      assert forall j :: 0 <= j < |rs1| ==> rs1[j] == rs[j + 1];
      TargetsAreNew(t1, rs1, known);
      ApplyMany(t1, rs1);
      forall k ensures IsTarget(rs, k) <==> rs[0].fd == k || IsTarget(rs1, k) { TargetFirst(rs, k); }
    }
  }

  /** For files, the table comes back exactly if no redirection leaves a trace. */
  lemma {:induction false} RestoredIffTraceless(t: Files, rs: seq<Redirection>)
    requires NewFiles(t, rs)
    ensures Around(t, rs) == t <==> AllTraceless(t, rs)
  {
    hide Save, Apply, Around;
    var (u, saved) := Save(t, rs);
    var v := Apply(u, rs);
    BeforeRestoring(t, rs);
    TargetsAreNew(u, rs, t.Values);
    forall i | 0 <= i < |rs| ensures Undone(t, rs, saved, v, i) <==> Traceless(t, rs, saved, i) {
      UndoneIffTraceless(t, rs, u, saved, v, i);
    }
    RestoredIff(t, rs);
  }

  lemma {:induction false} UndoneIffTraceless(t: Files, rs: seq<Redirection>, u: Files, saved: seq<int>, v: Files,
                                              i: nat)
    requires Copies(t, u, rs, saved) && Applied(u, v, rs) && i < |rs|
    requires forall k :: IsTarget(rs, k) ==> k in v && v[k] !in t.Values
    ensures Undone(t, rs, saved, v, i) <==> Traceless(t, rs, saved, i)
  {
    assert Copied(t, u, rs[i].fd, saved[i]) && IsTarget(rs, rs[i].fd);
    assert rs[i].fd in t ==> t[rs[i].fd] in t.Values;
  }

  /** With different descriptors that means: all of them were open. */
  lemma RestoredIffOpen(t: Files, rs: seq<Redirection>)
    requires NewFiles(t, rs) && forall i :: 0 <= i < |rs| ==> IsLast(rs, i)
    ensures Around(t, rs) == t <==> AllOpen(t, rs)
  {
    hide Save, Around, IsLast;
    if AllOpen(t, rs) {
      OpenTargetsAreRestored(t, rs);
    } else {
      var i :| 0 <= i < |rs| && rs[i].fd !in t;
      var (u, saved) := Save(t, rs);
      RestoredIffTraceless(t, rs);
      SaveCopies(t, rs);
      if rs[i].fd in saved {
        var j :| 0 <= j < |saved| && saved[j] == rs[i].fd;
        assert IsLast(rs, j) && IsTarget(rs, rs[i].fd);
        assert !Traceless(t, rs, saved, j);
      } else {
        assert !Traceless(t, rs, saved, i);
      }
    }
  }

  /** `echo 3> f` where 3 is closed: the file stays open on 3. */
  lemma ClosedTargetStaysOpen(out: int, file: int)
    requires file != out
    ensures Around(map[1 := out], [Redirection(3, FromFile(file))]) != map[1 := out]
  {
    var t, rs: seq<Redirection> := map[1 := out], [Redirection(3, FromFile(file))];
    assert forall v :: v in t.Values ==> v == out;
    RestoredIffOpen(t, rs);
  }

  /** `echo 0> f 1> g 1> h` where 0 is closed: the first copy of 1 is put on 0, so restoring 1
      closes 0, and the second copy of 1 puts 1 right. The table comes back after all. */
  lemma RepeatedTargetHidesClosedOne(out: int, f: int, g: int, h: int)
    requires f != out && g != out && h != out
    ensures var rs := [Redirection(0, FromFile(f)), Redirection(1, FromFile(g)), Redirection(1, FromFile(h))];
            Around(map[1 := out], rs) == map[1 := out] && !AllOpen(map[1 := out], rs)
  {
    var t := map[1 := out];
    var rs := [Redirection(0, FromFile(f)), Redirection(1, FromFile(g)), Redirection(1, FromFile(h))];
    assert forall v :: v in t.Values ==> v == out;
    assert LowestFree(t) == 0;
    var t1 := t[0 := out];
    assert 0 in t1 && 1 in t1 && 2 !in t1;
    assert LowestFree(t1) == 2;
    assert rs[1..] == [rs[1], rs[2]] && rs[1..][1..] == [rs[2]] && [rs[2]][1..] == [];
    assert Save(t1, [rs[2]]).1 == [2];
    assert Save(t, [rs[1], rs[2]]).1 == [0, 2];
    assert Save(t, rs).1 == [-1, 0, 2];
    assert rs[0].fd !in t && !IsLast(rs, 1);
    RestoredIffTraceless(t, rs);
  }
}
