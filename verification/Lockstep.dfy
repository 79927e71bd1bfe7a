/** The two-process drawing protocol of programs/cube_pyramid.c: parent and child take turns,
    passing one byte over a `go` pipe and one back over a `done` pipe for every frame. */
module Lockstep {
  /** How many frames to draw; `Forever` is FRAMES_INFINITE. */
  datatype Frames = Forever | Only(n: nat)

  /** Where the parent stands; `Waiting` is its waitpid after the loop, with the loop's result. */
  datatype Parent = PSetup | PDraw | PSend | PRecv | PWaiting(rc: int) | PExited(rc: int) | PKilled

  datatype Child = CSetup | CRecv | CDraw | CSend | CExited(rc: int) | CKilled

  /** `go` and `done` count the bytes in the pipes, `drawnP` and `drawnC` the frames shown;
      `failedP` and `failedC` record that a setup or drawing call of the process itself has failed. */
  datatype State = State(p: Parent, c: Child, go: nat, done: nat, drawnP: nat, drawnC: nat, turnsP: nat,
                         turnsC: nat, failedP: bool, failedC: bool)

  function Start(): State { State(PSetup, CSetup, 0, 0, 0, 0, 0, 0, false, false) }

  predicate Failed(s: State) { s.failedP || s.failedC }
  predicate ParentGone(s: State) { s.p.PExited? || s.p.PKilled? }
  predicate ChildGone(s: State) { s.c.CExited? || s.c.CKilled? }

  /** The head of both loops: `turns` rounds are over. */
  predicate More(frames: Frames, turns: nat) { frames.Forever? || turns < frames.n }

  function ParentLoop(frames: Frames, turns: nat): Parent {
    if More(frames, turns) then PDraw else PWaiting(0)
  }

  function ChildLoop(frames: Frames, turns: nat): Child {
    if More(frames, turns) then CRecv else CExited(0)
  }

  /** What can happen next. `ok` says whether the call of a setup or drawing step succeeds. */
  datatype Action = ParentMoves(ok: bool, code: int) | ChildMoves(ok: bool, code: int)

  /** Whether the process can go on: reads block on an empty pipe while the other end is open,
      and waitpid blocks until the child is gone. The parent keeps its end of `go` open while
      it waits. */
  predicate Enabled(s: State, a: Action) {
    match a
    case ParentMoves(ok, code) =>
      (match s.p
       case PSetup => ok || code != 0
       case PDraw => true
       case PSend => ok
       case PRecv => ok && (s.done > 0 || ChildGone(s))
       case PWaiting(_) => ok && ChildGone(s)
       case _ => false)
    case ChildMoves(ok, code) =>
      (match s.c
       case CSetup => ok || code != 0
       case CRecv => ok && (s.go > 0 || ParentGone(s))
       case CDraw => true
       case CSend => ok
       case _ => false)
  }

  function After(frames: Frames, s: State, a: Action): State
    requires Enabled(s, a)
  {
    match a
    case ParentMoves(ok, code) =>
      (match s.p
       case PSetup => if ok then s.(p := ParentLoop(frames, 0)) else s.(p := PWaiting(code), failedP := true)
       case PDraw => if ok then s.(p := PSend, drawnP := s.drawnP + 1) else s.(p := PWaiting(7), failedP := true)
       case PSend => if ChildGone(s) then s.(p := PKilled) else s.(p := PRecv, go := s.go + 1)
       case PRecv =>
         if s.done > 0 then
           s.(p := ParentLoop(frames, s.turnsP + 1), done := s.done - 1, turnsP := s.turnsP + 1)
         else s.(p := PWaiting(9))
       case PWaiting(rc) => s.(p := PExited(rc)))
    case ChildMoves(ok, code) =>
      (match s.c
       case CSetup => if ok then s.(c := ChildLoop(frames, 0)) else s.(c := CExited(code), failedC := true)
       case CRecv => if s.go > 0 then s.(c := CDraw, go := s.go - 1) else s.(c := CExited(8))
       case CDraw => if ok then s.(c := CSend, drawnC := s.drawnC + 1) else s.(c := CExited(9), failedC := true)
       case CSend =>
         if ParentGone(s) then s.(c := CKilled)
         else s.(c := ChildLoop(frames, s.turnsC + 1), done := s.done + 1, turnsC := s.turnsC + 1))
  }

  /** A run: one action after the other, each of them possible. */
  predicate IsRun(frames: Frames, s: State, run: seq<Action>)
    decreases |run|
  {
    run == [] || (Enabled(s, run[0]) && IsRun(frames, After(frames, s, run[0]), run[1..]))
  }

  function Final(frames: Frames, s: State, run: seq<Action>): State
    requires IsRun(frames, s, run)
    decreases |run|
  {
    if run == [] then s else Final(frames, After(frames, s, run[0]), run[1..])
  }

  // ------------------------------------------------------------------
  // What every interleaving keeps
  // ------------------------------------------------------------------

  /** The turn: with the parent, in the `go` pipe, with the child, or in the `done` pipe. */
  function Turns(s: State): nat {
    (if s.p.PSetup? || s.p.PDraw? || s.p.PSend? then 1 else 0) + s.go
    + (if s.c.CDraw? || s.c.CSend? then 1 else 0) + s.done
  }

  /** There is at most one turn; it is lost only with the process that held it, or at the end. */
  ghost predicate TurnOk(s: State) {
    && Turns(s) <= 1
    && (s.p.PRecv? && !ChildGone(s) ==> Turns(s) == 1)
    && (ParentGone(s) ==> ChildGone(s)) && !s.c.CKilled?
  }

  /** Both count the same frames, the parent at most one ahead. */
  ghost predicate CountsOk(s: State) {
    && s.drawnC == (if s.c.CSend? then s.turnsC + 1 else s.turnsC)
    && s.turnsC == s.turnsP + s.done
    && s.drawnC <= s.drawnP <= s.drawnC + 1
    && (s.p.PSetup? || s.p.PDraw? ==> s.drawnP == s.turnsP)
    && (s.p.PSend? || s.p.PRecv? ==> s.drawnP == s.turnsP + 1)
    && (s.go > 0 || s.c.CDraw? ==> s.drawnP == s.drawnC + 1)
    && (s.p.PSetup? ==> s.turnsP == 0) && (s.c.CSetup? ==> s.turnsC == 0)
  }

  /** Nobody runs a frame too many. */
  ghost predicate LimitsOk(frames: Frames, s: State) {
    && (frames.Only? ==> s.drawnP <= frames.n)
    && (s.p.PDraw? || s.p.PSend? || s.p.PRecv? ==> More(frames, s.turnsP))
    && (s.c.CRecv? || s.c.CDraw? || s.c.CSend? ==> More(frames, s.turnsC))
  }

  /** How the loops end. */
  ghost predicate EndsOk(frames: Frames, s: State) {
    && (s.p == PWaiting(0) || s.p == PExited(0) ==> !More(frames, s.turnsP))
    && (s.c == CExited(0) ==> !More(frames, s.turnsC))
    && (!Failed(s) ==> Healthy(s))
  }

  /** What a failure leads to: the process ends its loop, and a parent that failed has kept the
      turn, so a child that did not fail has nothing to read. */
  ghost predicate FailuresOk(frames: Frames, s: State) {
    && (s.failedC ==> s.c.CExited?)
    && (s.c.CExited? && !s.failedC ==> s.c.rc == 0)
    && (s.p.PWaiting? && !s.failedP ==> s.p.rc == 0 || ChildGone(s))
    && (s.failedP ==> s.p.PWaiting? || s.p.PExited?)
    && (s.failedP && !s.failedC && More(frames, 0) ==> s.go == 0 && (s.c.CSetup? || s.c.CRecv?))
  }

  ghost predicate Inv(frames: Frames, s: State) {
    TurnOk(s) && CountsOk(s) && LimitsOk(frames, s) && EndsOk(frames, s) && FailuresOk(frames, s)
  }

  /** Without failures nobody is killed, no read meets the end of a pipe, and the turn is never
      lost while there is work. */
  ghost predicate Healthy(s: State) {
    && !s.p.PKilled?
    && (s.p.PWaiting? || s.p.PExited? ==> s.p.rc == 0)
    && (s.c.CExited? ==> s.c.rc == 0)
  }

  lemma {:induction false} StepKeeps(frames: Frames, s: State, a: Action)
    requires Inv(frames, s) && Enabled(s, a)
    ensures Inv(frames, After(frames, s, a))
  {
    TurnKept(frames, s, a);
    CountsKept(frames, s, a);
    LimitsKept(frames, s, a);
    EndsKept(frames, s, a);
    FailuresKept(frames, s, a);
  }

  lemma {:induction false} TurnKept(frames: Frames, s: State, a: Action)
    requires TurnOk(s) && Enabled(s, a)
    ensures TurnOk(After(frames, s, a))
  {}

  lemma {:induction false} CountsKept(frames: Frames, s: State, a: Action)
    requires TurnOk(s) && CountsOk(s) && Enabled(s, a)
    ensures CountsOk(After(frames, s, a))
  {}

  lemma {:induction false} LimitsKept(frames: Frames, s: State, a: Action)
    requires Inv(frames, s) && Enabled(s, a)
    ensures LimitsOk(frames, After(frames, s, a))
  {}

  lemma {:induction false} EndsKept(frames: Frames, s: State, a: Action)
    requires Inv(frames, s) && Enabled(s, a)
    ensures EndsOk(frames, After(frames, s, a))
  {}

  lemma {:induction false} FailuresKept(frames: Frames, s: State, a: Action)
    requires Inv(frames, s) && Enabled(s, a)
    ensures FailuresOk(frames, After(frames, s, a))
  {}

  lemma {:induction false} StartOk(frames: Frames)
    ensures Inv(frames, Start())
  {}

  lemma {:induction false} RunKeeps(frames: Frames, s: State, run: seq<Action>)
    requires Inv(frames, s) && IsRun(frames, s, run)
    ensures Inv(frames, Final(frames, s, run))
    decreases |run|
  {
    if run != [] {
      StepKeeps(frames, s, run[0]);
      RunKeeps(frames, After(frames, s, run[0]), run[1..]);
    }
  }

  /** In every state of every run, whatever fails: there is at most one turn, and exactly one while
      nothing has failed and the parent is at work, so parent and child are never both drawing;
      the child has drawn as many frames as the parent or one fewer; and the child is never cut
      off by its parent. */
  lemma {:induction false} TakingTurns(frames: Frames, run: seq<Action>)
    requires IsRun(frames, Start(), run)
    ensures var s := Final(frames, Start(), run);
            && Turns(s) <= 1
            && !((s.p.PDraw? || s.p.PSend?) && (s.c.CDraw? || s.c.CSend?))
            && s.drawnC <= s.drawnP <= s.drawnC + 1
            && (frames.Only? ==> s.drawnP <= frames.n)
            && !s.c.CKilled? && (ParentGone(s) ==> ChildGone(s))
            && (!Failed(s) && !s.p.PWaiting? && !ParentGone(s) ==> Turns(s) == 1)
  {
    hide Final, IsRun, Inv, Turns, ParentGone, ChildGone;
    StartOk(frames);
    RunKeeps(frames, Start(), run);
    InvMeans(frames, Final(frames, Start(), run));
  }

  lemma {:induction false} InvMeans(frames: Frames, s: State)
    requires Inv(frames, s)
    ensures Turns(s) <= 1 && !((s.p.PDraw? || s.p.PSend?) && (s.c.CDraw? || s.c.CSend?))
    ensures s.drawnC <= s.drawnP <= s.drawnC + 1 && (frames.Only? ==> s.drawnP <= frames.n)
    ensures !s.c.CKilled? && (ParentGone(s) ==> ChildGone(s))
    ensures !Failed(s) && !s.p.PWaiting? && !ParentGone(s) ==> Turns(s) == 1
  {}

  // ------------------------------------------------------------------
  // Getting stuck
  // ------------------------------------------------------------------

  ghost predicate Stuck(s: State) { forall a :: !Enabled(s, a) }

  predicate Over(s: State) { ParentGone(s) && ChildGone(s) }

  /** The parent has given up without passing the turn on, and waits for a child that waits for
      the turn: the parent still holds the writing end of the child's pipe. */
  predicate Deadlock(s: State) { s.p.PWaiting? && s.c.CRecv? && s.go == 0 }

  /** A run can stop in two ways only: both processes are gone, or that deadlock. */
  lemma {:induction false} StuckIff(frames: Frames, s: State)
    requires Inv(frames, s)
    ensures Stuck(s) <==> Over(s) || Deadlock(s)
  {
    var p, c := ParentMoves(true, 0), ChildMoves(true, 0);
    if !Over(s) && !Deadlock(s) {
      assert Enabled(s, p) || Enabled(s, c);
    }
  }

  /** Which failures lead there: every run of at least one frame that cannot go on has ended in the
      deadlock exactly if a call of the parent has failed and no call of the child; in all other
      cases both processes are gone. */
  lemma {:induction false} DeadlockIff(frames: Frames, run: seq<Action>)
    requires More(frames, 0) && IsRun(frames, Start(), run) && Stuck(Final(frames, Start(), run))
    ensures var s := Final(frames, Start(), run);
            && (Deadlock(s) <==> s.failedP && !s.failedC)
            && (Over(s) <==> !s.failedP || s.failedC)
  {
    hide Final, IsRun, Stuck, Inv;
    var s := Final(frames, Start(), run);
    StartOk(frames);
    RunKeeps(frames, Start(), run);
    StuckIff(frames, s);
    DeadlockByFailures(frames, s);
  }

  lemma {:induction false} DeadlockByFailures(frames: Frames, s: State)
    requires Inv(frames, s) && More(frames, 0) && (Over(s) || Deadlock(s))
    ensures Deadlock(s) <==> s.failedP && !s.failedC
    ensures !(Over(s) && Deadlock(s))
  {}

  /** A parent whose setup fails leaves a child that does not fail waiting for ever, ... */
  lemma {:induction false} ParentFailureDeadlocks(frames: Frames, code: int)
    requires code != 0 && More(frames, 0)
    ensures var run := [ParentMoves(false, code), ChildMoves(true, 0)];
            IsRun(frames, Start(), run) && Deadlock(Final(frames, Start(), run)) && Stuck(Final(frames, Start(), run))
  {
    var run := [ParentMoves(false, code), ChildMoves(true, 0)];
    var s1 := After(frames, Start(), run[0]);
    assert run[1..] == [run[1]] && run[1..][1..] == [];
    var s2 := After(frames, s1, run[1]);
    assert IsRun(frames, s2, []) && Final(frames, s2, []) == s2;
    assert IsRun(frames, s1, run[1..]) && Final(frames, s1, run[1..]) == s2;
    RunKeeps(frames, Start(), run);
    StuckIff(frames, Final(frames, Start(), run));
  }

  /** ... and a child that fails too lets it go. */
  lemma {:induction false} BothFail(frames: Frames, code: int)
    requires code != 0
    ensures var run := [ParentMoves(false, code), ChildMoves(false, code), ParentMoves(true, 0)];
            IsRun(frames, Start(), run) && Over(Final(frames, Start(), run))
  {
    var run := [ParentMoves(false, code), ChildMoves(false, code), ParentMoves(true, 0)];
    var s1 := After(frames, Start(), run[0]);
    var s2 := After(frames, s1, run[1]);
    var s3 := After(frames, s2, run[2]);
    assert run[1..] == [run[1], run[2]] && run[1..][1..] == [run[2]] && run[1..][1..][1..] == [];
    assert IsRun(frames, s3, []) && Final(frames, s3, []) == s3;
    assert IsRun(frames, s2, [run[2]]) && Final(frames, s2, [run[2]]) == s3;
    assert IsRun(frames, s1, [run[1], run[2]]) && Final(frames, s1, [run[1], run[2]]) == s3;
  }

  // ------------------------------------------------------------------
  // A limited number of frames
  // ------------------------------------------------------------------

  function ParentRank(p: Parent): nat {
    match p
    case PSetup => 6
    case PDraw => 5
    case PSend => 4
    case PRecv => 3
    case PWaiting(_) => 1
    case _ => 0
  }

  function ChildRank(c: Child): nat {
    match c
    case CSetup => 5
    case CRecv => 4
    case CDraw => 3
    case CSend => 2
    case _ => 0
  }

  /** An upper bound on the steps that are left. */
  function Rank(n: nat, s: State): int {
    4 * (n - s.turnsP) + ParentRank(s.p) + 4 * (n - s.turnsC) + ChildRank(s.c)
  }

  lemma {:induction false} RankFalls(n: nat, s: State, a: Action)
    requires Inv(Only(n), s) && Enabled(s, a)
    ensures 0 <= Rank(n, After(Only(n), s, a)) < Rank(n, s)
  {
    StepKeeps(Only(n), s, a);
    TurnsWithin(n, s);
    TurnsWithin(n, After(Only(n), s, a));
  }

  lemma {:induction false} TurnsWithin(n: nat, s: State)
    requires Inv(Only(n), s)
    ensures s.turnsP <= s.turnsC <= n
  {}

  lemma {:induction false} RunsAreShort(n: nat, s: State, run: seq<Action>)
    requires Inv(Only(n), s) && IsRun(Only(n), s, run)
    ensures |run| <= Rank(n, s)
    decreases |run|
  {
    TurnsWithin(n, s);
    if run != [] {
      RankFalls(n, s, run[0]);
      StepKeeps(Only(n), s, run[0]);
      RunsAreShort(n, After(Only(n), s, run[0]), run[1..]);
    }
  }

  /** With n frames every run, failures or not, is over after at most 8n + 11 steps; and one that
      cannot go on and saw no failure has both loops finished with result 0 and exactly n frames
      drawn by each. */
  lemma {:induction false} AllFramesDrawn(n: nat, run: seq<Action>)
    requires IsRun(Only(n), Start(), run)
    ensures |run| <= 8 * n + 11
    ensures var s := Final(Only(n), Start(), run);
            Stuck(s) && !Failed(s) ==>
              s.p == PExited(0) && s.c == CExited(0) && s.drawnP == n && s.drawnC == n && Turns(s) == 0
  {
    hide Final, IsRun, Stuck, Turns, Inv;
    StartOk(Only(n));
    RunsAreShort(n, Start(), run);
    RunKeeps(Only(n), Start(), run);
    var s := Final(Only(n), Start(), run);
    StuckIff(Only(n), s);
    if Stuck(s) && !Failed(s) {
      FinishedCounts(n, s);
    }
  }

  lemma {:induction false} FinishedCounts(n: nat, s: State)
    requires Inv(Only(n), s) && (Over(s) || Deadlock(s)) && !Failed(s)
    ensures s.p == PExited(0) && s.c == CExited(0) && s.drawnP == n && s.drawnC == n && Turns(s) == 0
  {}
}
