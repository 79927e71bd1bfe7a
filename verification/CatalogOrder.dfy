/** The order in which examples/gencat.c sorts its tables: comparing by subtraction, and what becomes of
    the messages. */
module CatalogOrder {
  import opened Options
  import opened Sequences
  import opened Catalog
  import opened CatalogReader
  import opened CatalogTables

  // ------------------------------------------------------------------
  // Comparing
  // ------------------------------------------------------------------

  /** The int subtraction in cmp_int and cmp_msg, as a 32-bit machine does it. */
  function Difference(a: int32, b: int32): int32 {
    ToSigned((a - b) % TWO32)
  }

  /** It has the sign of the true difference exactly if that difference is an int. */
  lemma DifferenceIff(a: int32, b: int32)
    ensures ((Difference(a, b) < 0 <==> a < b) && (Difference(a, b) == 0 <==> a == b))
       <==> -0x8000_0000 <= a - b < 0x8000_0000
  {}

  /** It does not always: the least int minus one comes out positive. */
  lemma DifferenceWraps()
    ensures Difference(-0x8000_0000, 1) > 0
  {}

  predicate Ordered(m: Msg, n: Msg) { m.setId < n.setId || (m.setId == n.setId && m.msgId <= n.msgId) }

  /** cmp_msg: by set, then by message. */
  function CompareMsg(m: Msg, n: Msg): int32 {
    if m.setId != n.setId then Difference(m.setId, n.setId) else Difference(m.msgId, n.msgId)
  }

  /** cmp_msg agrees with the order of messages exactly if the numbers it subtracts differ by an
      int. */
  lemma CompareMsgIff(m: Msg, n: Msg)
    ensures var d := if m.setId != n.setId then m.setId - n.setId else m.msgId - n.msgId;
            ((CompareMsg(m, n) <= 0 <==> Ordered(m, n)) && (CompareMsg(m, n) >= 0 <==> Ordered(n, m)))
            <==> -0x8000_0000 <= d < 0x8000_0000
  {
    DifferenceIff(m.setId, n.setId);
    DifferenceIff(m.msgId, n.msgId);
  }

  /** What it always says: `b` may follow `a` exactly if it lies at most half the circle up. */
  lemma StepIff(a: int32, b: int32)
    ensures Difference(a, b) <= 0 <==> Offset(b, a) <= TWO31
  {}

  lemma CompareIsTotal(m: Msg, n: Msg)
    ensures CompareMsg(m, n) <= 0 || CompareMsg(n, m) <= 0
  {
    hide Difference;
    StepIff(m.setId, n.setId);
    StepIff(n.setId, m.setId);
    StepIff(m.msgId, n.msgId);
    StepIff(n.msgId, m.msgId);
  }

  /** What qsort leaves: a permutation in which no element compares greater than the next one. */
  ghost predicate Qsorted(t: Tables, sets: seq<int32>, msgs: seq<Msg>) {
    && multiset(sets) == multiset(t.sets) && multiset(msgs) == multiset(t.msgs)
    && SetChain(sets) && MsgChain(msgs)
  }

  predicate SetChain(sets: seq<int32>) {
    forall i :: 0 <= i < |sets| - 1 ==> Difference(sets[i], sets[i + 1]) <= 0
  }

  predicate MsgChain(msgs: seq<Msg>) {
    forall i :: 0 <= i < |msgs| - 1 ==> CompareMsg(msgs[i], msgs[i + 1]) <= 0
  }

  // ------------------------------------------------------------------
  // Permutations
  // ------------------------------------------------------------------

  lemma {:induction false} SameLength<T>(a: seq<T>, b: seq<T>)
    requires multiset(a) == multiset(b)
    ensures |a| == |b|
    ensures forall x :: x in a <==> x in b
  {
    assert |multiset(a)| == |a| && |multiset(b)| == |b|;
    forall x ensures x in a <==> x in b {
      assert x in a <==> x in multiset(a);
      assert x in b <==> x in multiset(b);
    }
  }

  lemma {:induction false} CountOne(s: seq<int32>, x: int32)
    requires Distinct(s)
    ensures multiset(s)[x] <= 1
    decreases |s|
  {
    if s != [] {
      assert s == s[..|s| - 1] + [s[|s| - 1]];
      CountOne(s[..|s| - 1], x);
      if s[|s| - 1] == x {
        assert x !in s[..|s| - 1];
        assert x !in multiset(s[..|s| - 1]);
      }
    }
  }

  lemma {:induction false} CountTwo(s: seq<int32>, i: nat, j: nat)
    requires i < j < |s| && s[i] == s[j]
    ensures multiset(s)[s[i]] >= 2
  {
    var x := s[i];
    assert s == s[..j] + [x] + s[j + 1..];
    assert x == s[..j][i] && x in multiset(s[..j]);
    assert multiset(s) == multiset(s[..j]) + multiset{x} + multiset(s[j + 1..]);
  }

  lemma {:induction false} StillDistinct(sets: seq<int32>, from: seq<int32>)
    requires multiset(sets) == multiset(from) && Distinct(from)
    ensures Distinct(sets)
  {
    forall i, j | 0 <= i < j < |sets| ensures sets[i] != sets[j] {
      if sets[i] == sets[j] {
        CountOne(from, sets[i]);
        CountTwo(sets, i, j);
      }
    }
  }

  lemma {:induction false} EntriesJoin(a: seq<Msg>, b: seq<Msg>, strings: seq<byte>)
    requires Terminated(a + b, strings)
    ensures Terminated(a, strings) && Terminated(b, strings)
    ensures EntriesOf(a + b, strings) == EntriesOf(a, strings) + EntriesOf(b, strings)
  {
    assert forall k :: 0 <= k < |a| ==> a[k] == (a + b)[k];
    assert forall k :: 0 <= k < |b| ==> b[k] == (a + b)[|a| + k];
  }

  lemma {:induction false} TerminatedPart(a: seq<Msg>, b: seq<Msg>, strings: seq<byte>)
    requires Terminated(a, strings) && forall m :: m in b ==> m in a
    ensures Terminated(b, strings)
  {
    forall k | 0 <= k < |b|
      ensures 1 <= b[k].len && b[k].offset + b[k].len <= |strings| && strings[b[k].offset + b[k].len - 1] == 0
    {
      assert b[k] in a;
    }
  }

  lemma {:induction false} RemoveOne(m: Msg, a: seq<Msg>, b1: seq<Msg>, b2: seq<Msg>)
    requires multiset([m] + a) == multiset(b1 + ([m] + b2))
    ensures multiset(a) == multiset(b1 + b2)
  {
    var x, y := multiset([m] + a), multiset(b1 + ([m] + b2));
    assert x == multiset{m} + multiset(a);
    assert y == multiset(b1) + multiset([m] + b2) == multiset(b1) + (multiset{m} + multiset(b2));
    assert multiset(b1 + b2) == multiset(b1) + multiset(b2);
    assert x - multiset{m} == multiset(a) && y - multiset{m} == multiset(b1) + multiset(b2);
  }

  lemma {:induction false} PermutedEntries(a: seq<Msg>, b: seq<Msg>, strings: seq<byte>)
    requires multiset(a) == multiset(b) && Terminated(a, strings) && Terminated(b, strings)
    ensures multiset(EntriesOf(a, strings)) == multiset(EntriesOf(b, strings))
    decreases |a|
  {
    hide EntriesOf, Terminated;
    SameLength(a, b);
    if a != [] {
      var m, a' := a[0], a[1..];
      assert m in b;
      var j :| 0 <= j < |b| && b[j] == m;
      var b1, b2 := b[..j], b[j + 1..];
      assert a == [m] + a' && b == b1 + ([m] + b2);
      EntriesJoin([m], a', strings);
      EntriesJoin(b1, [m] + b2, strings);
      EntriesJoin([m], b2, strings);
      RemoveOne(m, a', b1, b2);
      TerminatedPart(b, b1 + b2, strings);
      EntriesJoin(b1, b2, strings);
      PermutedEntries(a', b1 + b2, strings);
    } else {
      assert a == b;
    }
  }

  /** Sorting keeps what parse_file has established. */
  lemma {:induction false} QsortedKeeps(t: Tables, sets: seq<int32>, msgs: seq<Msg>)
    requires TablesOk(t) && Qsorted(t, sets, msgs)
    ensures Distinct(sets) && Known(sets, msgs) && |sets| == |t.sets| && |msgs| == |t.msgs|
    ensures forall x :: x in sets <==> x in t.sets
    ensures WithinLimits(sets, msgs, t.strings) && Terminated(msgs, t.strings)
  {
    StillDistinct(sets, t.sets);
    SameLength(sets, t.sets);
    SameLength(msgs, t.msgs);
    forall k | 0 <= k < |msgs|
      ensures msgs[k].setId in sets
      ensures 1 <= msgs[k].len && msgs[k].offset + msgs[k].len <= |t.strings|
      ensures t.strings[msgs[k].offset + msgs[k].len - 1] == 0
    {
      assert msgs[k] in t.msgs;
    }
  }

  // ------------------------------------------------------------------
  // When the merge finds every message
  // ------------------------------------------------------------------

  /** All sets lie in the half of the circle that begins at `s`. */
  predicate HalfCircle(sets: seq<int32>, s: int32) { forall x :: x in sets ==> Offset(x, s) < TWO31 }

  predicate OneSet(msgs: seq<Msg>) {
    forall i, j :: 0 <= i < |msgs| && 0 <= j < |msgs| ==> msgs[i].setId == msgs[j].setId
  }

  /** At most one set has messages, or all sets lie in one half of the circle. */
  predicate MergeSafe(t: Tables) {
    OneSet(t.msgs) || exists s :: s in t.sets && HalfCircle(t.sets, s)
  }

  lemma OffsetIsMod(x: int32, s: int32)
    ensures Offset(x, s) == (x - s) % TWO32
  {}

  /** Within a half of the circle, what may follow lies further up. */
  lemma Upwards(x: int32, y: int32, s: int32)
    requires Offset(x, s) < TWO31 && Offset(y, s) < TWO31 && Difference(x, y) <= 0
    ensures Offset(x, s) <= Offset(y, s)
  {
    StepIff(x, y);
  }

  lemma {:induction false} SetsUpwards(sets: seq<int32>, s: int32, i: nat, j: nat)
    requires HalfCircle(sets, s) && SetChain(sets) && Distinct(sets) && i < j < |sets|
    ensures Offset(sets[i], s) < Offset(sets[j], s)
    decreases j
  {
    hide Offset, Difference;
    assert Difference(sets[j - 1], sets[j - 1 + 1]) <= 0;
    Upwards(sets[j - 1], sets[j], s);
    if Offset(sets[j - 1], s) == Offset(sets[j], s) { OffsetInjective(sets[j - 1], sets[j], s); }
    if i < j - 1 { SetsUpwards(sets, s, i, j - 1); }
  }

  lemma {:induction false} MsgsUpwards(sets: seq<int32>, msgs: seq<Msg>, s: int32, i: nat, j: nat)
    requires HalfCircle(sets, s) && Known(sets, msgs) && MsgChain(msgs) && i < j < |msgs|
    ensures Offset(msgs[i].setId, s) <= Offset(msgs[j].setId, s)
    decreases j
  {
    hide Offset, Difference;
    assert msgs[j - 1].setId in sets && msgs[j].setId in sets;
    assert CompareMsg(msgs[j - 1], msgs[j - 1 + 1]) <= 0;
    if msgs[j - 1].setId != msgs[j].setId { Upwards(msgs[j - 1].setId, msgs[j].setId, s); }
    if i < j - 1 { MsgsUpwards(sets, msgs, s, i, j - 1); }
  }

  lemma {:induction false} HalfCircleIsCut(sets: seq<int32>, msgs: seq<Msg>, s: int32)
    requires HalfCircle(sets, s) && Distinct(sets) && Known(sets, msgs) && SetChain(sets) && MsgChain(msgs)
    ensures Reach(sets, msgs, |sets|) == |msgs|
  {
    hide Reach, Offset, HalfCircle, SetChain, MsgChain;
    forall i, j | 0 <= i < j < |sets| ensures Offset(sets[i], s) < Offset(sets[j], s) { SetsUpwards(sets, s, i, j); }
    forall i, j | 0 <= i < j < |msgs| ensures Offset(msgs[i].setId, s) <= Offset(msgs[j].setId, s) {
      MsgsUpwards(sets, msgs, s, i, j);
    }
    RangesPartition(sets, msgs, s);
  }

  /** Where all messages are of one set, that set takes them all, wherever it comes. */
  lemma {:induction false} OneSetIsCut(sets: seq<int32>, msgs: seq<Msg>, i: nat)
    requires OneSet(msgs) && Known(sets, msgs) && i <= |sets|
    ensures Reach(sets, msgs, i) == if msgs != [] && msgs[0].setId in sets[..i] then |msgs| else 0
    decreases i
  {
    if i > 0 && msgs != [] {
      OneSetIsCut(sets, msgs, i - 1);
      assert sets[..i] == sets[..i - 1] + [sets[i - 1]];
      if msgs[0].setId == sets[i - 1] { OneRun(msgs, 0); }
    } else if i > 0 {
      OneSetIsCut(sets, msgs, i - 1);
    }
  }

  lemma {:induction false} OneRun(msgs: seq<Msg>, from: nat)
    requires OneSet(msgs) && msgs != [] && from <= |msgs|
    ensures RunLength(msgs, msgs[0].setId, from) == |msgs| - from
  {
    assert forall k :: from <= k < |msgs| ==> msgs[k].setId == msgs[0].setId;
  }

  lemma {:induction false} SafeIsCut(t: Tables, sets: seq<int32>, msgs: seq<Msg>)
    requires TablesOk(t) && Qsorted(t, sets, msgs) && MergeSafe(t)
    ensures Reach(sets, msgs, |sets|) == |msgs|
  {
    hide Reach, Offset, RunLength, TablesOk, SetChain, MsgChain;
    QsortedKeeps(t, sets, msgs);
    if OneSet(t.msgs) {
      SameLength(msgs, t.msgs);
      forall i, j | 0 <= i < |msgs| && 0 <= j < |msgs| ensures msgs[i].setId == msgs[j].setId {
        assert msgs[i] in t.msgs && msgs[j] in t.msgs;
      }
      OneSetIsCut(sets, msgs, |sets|);
      assert sets[..|sets|] == sets;
    } else {
      var s :| s in t.sets && HalfCircle(t.sets, s);
      HalfCircleIsCut(sets, msgs, s);
    }
  }

  // ------------------------------------------------------------------
  // When it does not
  // ------------------------------------------------------------------

  /** An order of the messages that qsort may leave: each one is put in front of the first that it
      may precede. */
  function InsertMsg(m: Msg, msgs: seq<Msg>): (r: seq<Msg>)
    ensures r != [] && (r[0] == m || (msgs != [] && r[0] == msgs[0]))
  {
    if msgs == [] || CompareMsg(m, msgs[0]) <= 0 then [m] + msgs else [msgs[0]] + InsertMsg(m, msgs[1..])
  }

  function ChainMsgs(msgs: seq<Msg>): seq<Msg> {
    if msgs == [] then [] else InsertMsg(msgs[0], ChainMsgs(msgs[1..]))
  }

  lemma {:induction false} InsertMsgChains(m: Msg, msgs: seq<Msg>)
    requires MsgChain(msgs)
    ensures MsgChain(InsertMsg(m, msgs)) && multiset(InsertMsg(m, msgs)) == multiset{m} + multiset(msgs)
    decreases |msgs|
  {
    hide CompareMsg, MsgChain;
    if msgs == [] || CompareMsg(m, msgs[0]) <= 0 {
      PrependChains(m, msgs);
    } else {
      TailChains(msgs);
      InsertMsgChains(m, msgs[1..]);
      CompareIsTotal(m, msgs[0]);
      PrependChains(msgs[0], InsertMsg(m, msgs[1..]));
      assert msgs == [msgs[0]] + msgs[1..];
    }
  }

  lemma {:induction false} TailChains(msgs: seq<Msg>)
    requires MsgChain(msgs) && msgs != []
    ensures MsgChain(msgs[1..]) && (|msgs| > 1 ==> CompareMsg(msgs[0], msgs[1]) <= 0)
  {
    hide CompareMsg;
    var rest := msgs[1..];
    forall i | 0 <= i < |rest| - 1 ensures CompareMsg(rest[i], rest[i + 1]) <= 0 {
      assert rest[i] == msgs[i + 1] && rest[i + 1] == msgs[i + 1 + 1];
    }
    if |msgs| > 1 { assert CompareMsg(msgs[0], msgs[0 + 1]) <= 0; }
  }

  lemma {:induction false} PrependChains(m: Msg, msgs: seq<Msg>)
    requires MsgChain(msgs) && (msgs == [] || CompareMsg(m, msgs[0]) <= 0)
    ensures MsgChain([m] + msgs) && multiset([m] + msgs) == multiset{m} + multiset(msgs)
  {
    hide CompareMsg;
    var r := [m] + msgs;
    forall i | 0 <= i < |r| - 1 ensures CompareMsg(r[i], r[i + 1]) <= 0 {
      if i > 0 { assert r[i] == msgs[i - 1] && r[i + 1] == msgs[i - 1 + 1]; }
    }
  }

  lemma {:induction false} ChainMsgsChains(msgs: seq<Msg>)
    ensures MsgChain(ChainMsgs(msgs)) && multiset(ChainMsgs(msgs)) == multiset(msgs)
    decreases |msgs|
  {
    hide MsgChain, InsertMsg;
    if msgs == [] {
      NoMsgChain();
    } else {
      ChainMsgsChains(msgs[1..]);
      InsertMsgChains(msgs[0], ChainMsgs(msgs[1..]));
      assert msgs == [msgs[0]] + msgs[1..];
    }
  }

  lemma NoMsgChain()
    ensures MsgChain([])
  {}

  /** The sets in the order of the circle, from `s` up. */
  function InsertSet(x: int32, sets: seq<int32>, s: int32): seq<int32> {
    if sets == [] || Offset(x, s) < Offset(sets[0], s) then [x] + sets else [sets[0]] + InsertSet(x, sets[1..], s)
  }

  function FromUp(sets: seq<int32>, s: int32): seq<int32> {
    if sets == [] then [] else InsertSet(sets[0], FromUp(sets[1..], s), s)
  }

  lemma {:induction false} InsertSetAscends(x: int32, sets: seq<int32>, s: int32)
    requires Ascending(sets, s) && x !in sets
    ensures Ascending(InsertSet(x, sets, s), s) && multiset(InsertSet(x, sets, s)) == multiset{x} + multiset(sets)
    decreases |sets|
  {
    hide Offset, Ascending;
    if sets == [] || Offset(x, s) < Offset(sets[0], s) {
      PrependAscends(x, sets, s);
    } else {
      var y, rest := sets[0], sets[1..];
      assert sets == [y] + rest && x != y;
      if Offset(x, s) == Offset(y, s) { OffsetInjective(x, y, s); }
      TailAscends(sets, s);
      InsertSetAscends(x, rest, s);
      var r := InsertSet(x, rest, s);
      HeadOfInsert(x, rest, s);
      PrependAscends(y, r, s);
    }
  }

  lemma HeadOfInsert(x: int32, sets: seq<int32>, s: int32)
    ensures var r := InsertSet(x, sets, s); r != [] && (r[0] == x || (sets != [] && r[0] == sets[0]))
  {}

  lemma {:induction false} PrependAscends(x: int32, sets: seq<int32>, s: int32)
    requires Ascending(sets, s) && (sets == [] || Offset(x, s) < Offset(sets[0], s))
    ensures Ascending([x] + sets, s) && multiset([x] + sets) == multiset{x} + multiset(sets)
  {
    hide Offset;
    var r := [x] + sets;
    forall i, j | 0 <= i < j < |r| ensures Offset(r[i], s) < Offset(r[j], s) {
      if i == 0 && j > 1 { assert Offset(sets[0], s) < Offset(sets[j - 1], s); }
    }
  }

  lemma {:induction false} TailAscends(sets: seq<int32>, s: int32)
    requires Ascending(sets, s) && sets != []
    ensures Ascending(sets[1..], s) && (|sets| > 1 ==> Offset(sets[0], s) < Offset(sets[1], s))
  {}

  lemma {:induction false} FromUpAscends(sets: seq<int32>, s: int32)
    requires Distinct(sets)
    ensures Ascending(FromUp(sets, s), s) && multiset(FromUp(sets, s)) == multiset(sets)
    decreases |sets|
  {
    hide Offset, InsertSet;
    if sets != [] {
      var rest := sets[1..];
      assert sets == [sets[0]] + rest;
      FromUpAscends(rest, s);
      SameLength(FromUp(rest, s), rest);
      assert sets[0] !in rest;
      InsertSetAscends(sets[0], FromUp(rest, s), s);
    }
  }

  /** Where no half of the circle holds all sets, none of the gaps between neighbours is wider than a
      half. */
  lemma {:induction false} NoWideGap(sets: seq<int32>, f: int32, i: nat)
    requires Ascending(sets, f) && i + 1 < |sets| && forall s :: s in sets ==> !HalfCircle(sets, s)
    ensures Difference(sets[i], sets[i + 1]) <= 0
  {
    hide Offset, Difference, HalfCircle;
    var a, b := sets[i], sets[i + 1];
    StepIff(a, b);
    if Offset(b, a) > TWO31 {
      forall x | x in sets ensures Offset(x, b) < TWO31 {
        var k :| 0 <= k < |sets| && sets[k] == x;
        if k < i { assert Offset(sets[k], f) < Offset(a, f); }
        if k > i + 1 { assert Offset(b, f) < Offset(sets[k], f); }
        BeyondWideGap(a, b, x, f);
      }
      HalfFromOffsets(sets, b);
    }
  }

  lemma BeyondWideGap(a: int32, b: int32, x: int32, f: int32)
    requires Offset(a, f) < Offset(b, f) && Offset(b, a) > TWO31
    requires Offset(x, f) <= Offset(a, f) || Offset(b, f) <= Offset(x, f)
    ensures Offset(x, b) < TWO31
  {}

  lemma HalfFromOffsets(sets: seq<int32>, s: int32)
    requires forall x :: x in sets ==> Offset(x, s) < TWO31
    ensures HalfCircle(sets, s)
  {}

  /** And neither is the one that closes the circle. */
  lemma {:induction false} NoWideEnd(sets: seq<int32>, f: int32)
    requires Ascending(sets, f) && sets != [] && f in sets && !HalfCircle(sets, f)
    ensures Difference(sets[|sets| - 1], f) <= 0
  {
    hide Difference;
    var last := sets[|sets| - 1];
    StepIff(last, f);
    var x :| x in sets && Offset(x, f) >= TWO31;
    var k :| 0 <= k < |sets| && sets[k] == x;
    assert Offset(x, f) <= Offset(last, f);
  }

  /** An order of the sets that qsort may leave, with `f` last. */
  function FromBehind(sets: seq<int32>, f: int32): seq<int32>
    requires FromUp(sets, f) != []
  {
    FromUp(sets, f)[1..] + [f]
  }

  lemma {:induction false} FirstFromUp(sets: seq<int32>, f: int32)
    requires Distinct(sets) && f in sets
    ensures FromUp(sets, f) != [] && FromUp(sets, f)[0] == f
  {
    hide FromUp;
    FromUpAscends(sets, f);
    var r := FromUp(sets, f);
    SameLength(r, sets);
    assert f in r && r != [];
    assert forall k :: 0 < k < |r| ==> Offset(r[0], f) < Offset(r[k], f);
    assert Offset(f, f) == 0;
  }

  lemma {:induction false} FromBehindChains(sets: seq<int32>, f: int32)
    requires Distinct(sets) && f in sets && forall s :: s in sets ==> !HalfCircle(sets, s)
    ensures FromUp(sets, f) != []
    ensures SetChain(FromBehind(sets, f)) && multiset(FromBehind(sets, f)) == multiset(sets)
  {
    hide FromUp, Offset, Difference, HalfCircle, Ascending;
    var up := FromUp(sets, f);
    FromUpAscends(sets, f);
    FirstFromUp(sets, f);
    SameLength(up, sets);
    forall s | s in up ensures !HalfCircle(up, s) { SameHalves(sets, up, s); }
    var r := FromBehind(sets, f);
    assert up == [f] + up[1..];
    assert multiset(r) == multiset(up);
    forall i | 0 <= i < |r| - 1 ensures Difference(r[i], r[i + 1]) <= 0 {
      if i + 1 < |up[1..]| {
        NoWideGap(up, f, i + 1);
      } else {
        NoWideEnd(up, f);
      }
    }
  }

  lemma SameHalves(a: seq<int32>, b: seq<int32>, s: int32)
    requires forall x :: x in a <==> x in b
    ensures HalfCircle(a, s) <==> HalfCircle(b, s)
  {}

  /** With the first message's set last, the merge finds nothing before it and only its messages
      then. */
  lemma {:induction false} NothingBeforeLast(sets: seq<int32>, msgs: seq<Msg>, i: nat)
    requires Distinct(sets) && sets != [] && msgs != [] && msgs[0].setId == sets[|sets| - 1] && i < |sets|
    ensures Reach(sets, msgs, i) == 0
    decreases i
  {
    if i > 0 { NothingBeforeLast(sets, msgs, i - 1); }
  }

  lemma {:induction false} LastTakesItsOwn(sets: seq<int32>, msgs: seq<Msg>)
    requires Distinct(sets) && sets != [] && msgs != [] && msgs[0].setId == sets[|sets| - 1] && !OneSet(msgs)
    ensures Reach(sets, msgs, |sets|) < |msgs|
  {
    hide RunLength;
    NothingBeforeLast(sets, msgs, |sets| - 1);
    var n := RunLength(msgs, sets[|sets| - 1], 0);
    assert Reach(sets, msgs, |sets|) == n;
    assert n < |msgs|;
  }

  /** Tables that are not safe have a sorting that loses messages. */
  lemma {:induction false} UnsafeIsNotCut(t: Tables) returns (sets: seq<int32>, msgs: seq<Msg>)
    requires TablesOk(t) && !MergeSafe(t)
    ensures Qsorted(t, sets, msgs) && Reach(sets, msgs, |sets|) < |msgs|
  {
    hide Reach, FromUp, HalfCircle, SetChain, MsgChain;
    msgs := ChainMsgs(t.msgs);
    ChainMsgsChains(t.msgs);
    SameLength(msgs, t.msgs);
    StillManySets(t.msgs, msgs);
    var f := msgs[0].setId;
    assert msgs[0] in t.msgs;
    FromBehindChains(t.sets, f);
    sets := FromBehind(t.sets, f);
    StillDistinct(sets, t.sets);
    LastTakesItsOwn(sets, msgs);
  }

  lemma {:induction false} StillManySets(a: seq<Msg>, b: seq<Msg>)
    requires !OneSet(a) && forall m :: m in a <==> m in b
    ensures !OneSet(b) && b != []
  {
    var i, j :| 0 <= i < |a| && 0 <= j < |a| && a[i].setId != a[j].setId;
    assert a[i] in b && a[j] in b;
  }

  /** Whatever qsort leaves, the merge finds every message, exactly if at most one set has messages or
      all sets lie in one half of the circle. */
  lemma {:induction false} CutIff(t: Tables)
    requires TablesOk(t)
    ensures (forall sets, msgs :: Qsorted(t, sets, msgs) ==> Reach(sets, msgs, |sets|) == |msgs|) <==> MergeSafe(t)
  {
    hide Reach, TablesOk, Qsorted, MergeSafe;
    if MergeSafe(t) {
      forall sets, msgs | Qsorted(t, sets, msgs) ensures Reach(sets, msgs, |sets|) == |msgs| {
        SafeIsCut(t, sets, msgs);
      }
    } else {
      var sets, msgs := UnsafeIsNotCut(t);
      assert Reach(sets, msgs, |sets|) != |msgs|;
    }
  }

  // ------------------------------------------------------------------
  // From lines to readers
  // ------------------------------------------------------------------

  lemma EmptyEntries()
    ensures EntriesOf([], []) == []
  {}

  /** What parse_file leaves for `lines`. */
  lemma {:induction false} FedTables(lines: seq<Line>)
    requires FeedAll(Empty(), lines).Some?
    ensures var t := FeedAll(Empty(), lines).value;
            TablesOk(t) && EntriesOf(t.msgs, t.strings) == Announced(1, lines)
  {
    hide EntriesOf, FeedAll, Announced;
    assert EntriesOf([], []) == [] by { EmptyEntries(); }
    FeedAllKeeps(Empty(), lines);
    assert [] + Announced(1, lines) == Announced(1, lines);
  }

  /** A reader of the catalog finds every announced message with its set and its text, as often as it
      was announced, and nothing else. */
  ghost predicate Faithful(lines: seq<Line>, strings: seq<byte>, sets: seq<int32>, msgs: seq<Msg>) {
    && WithinLimits(sets, msgs, strings) && Readable(CatalogFile(sets, msgs, strings))
    && multiset(Decode(CatalogFile(sets, msgs, strings))) == multiset(Announced(1, lines))
  }

  /** Whatever qsort leaves, the catalog can be read without leaving the file, and it is faithful
      exactly if the merge has found every message. */
  lemma {:induction false} FaithfulIfCut(lines: seq<Line>, sets: seq<int32>, msgs: seq<Msg>)
    requires FeedAll(Empty(), lines).Some? && Qsorted(FeedAll(Empty(), lines).value, sets, msgs)
    ensures var t := FeedAll(Empty(), lines).value;
            && WithinLimits(sets, msgs, t.strings)
            && Readable(CatalogFile(sets, msgs, t.strings))
            && (Faithful(lines, t.strings, sets, msgs) <==> Reach(sets, msgs, |sets|) == |msgs|)
  {
    hide EntriesOf, FeedAll, Readable, CatalogFile, Decode, Announced, Qsorted, Reach;
    var t := FeedAll(Empty(), lines).value;
    FedTables(lines);
    QsortedKeeps(t, sets, msgs);
    DecodesBack(sets, msgs, t.strings);
    SamePermutation(t, sets, msgs);
    PermutedEntries(msgs, t.msgs, t.strings);
    OnlyTheWhole(EntriesOf(msgs, t.strings), Announced(1, lines), Reach(sets, msgs, |sets|));
  }

  lemma SamePermutation(t: Tables, sets: seq<int32>, msgs: seq<Msg>)
    requires Qsorted(t, sets, msgs)
    ensures multiset(msgs) == multiset(t.msgs)
  {}

  lemma {:induction false} OnlyTheWhole<T>(a: seq<T>, b: seq<T>, n: nat)
    requires multiset(a) == multiset(b) && n <= |a|
    ensures multiset(a[..n]) == multiset(b) <==> n == |a|
  {
    if n == |a| {
      assert a[..n] == a;
    } else {
      assert |multiset(a[..n])| == n && |multiset(a)| == |a|;
    }
  }

  /** The catalog is faithful for every sorting that qsort may leave exactly if at most one set has
      messages or all sets lie in one half of the circle. */
  lemma {:induction false} CatalogIsFaithful(lines: seq<Line>)
    requires FeedAll(Empty(), lines).Some?
    ensures var t := FeedAll(Empty(), lines).value;
            (forall sets, msgs :: Qsorted(t, sets, msgs) ==> Faithful(lines, t.strings, sets, msgs)) <==> MergeSafe(t)
  {
    hide FeedAll, Faithful, Qsorted, TablesOk, Reach, MergeSafe, WithinLimits, Readable;
    var t := FeedAll(Empty(), lines).value;
    FedTables(lines);
    CutIff(t);
    forall sets, msgs | Qsorted(t, sets, msgs)
      ensures Faithful(lines, t.strings, sets, msgs) <==> Reach(sets, msgs, |sets|) == |msgs|
    {
      FaithfulIfCut(lines, sets, msgs);
    }
  }

  // ------------------------------------------------------------------
  // A catalog that loses messages
  // ------------------------------------------------------------------

  const LOW: int32 := -0x8000_0000
  const HIGH: int32 := 0x4000_0000

  /** Three sets that no half of the circle holds. */
  function ThreeSets(): seq<Line> {
    [SetLine(LOW), SetLine(0), Message(1, []), SetLine(HIGH), Message(1, []), SetLine(LOW), Message(1, [])]
  }

  function ThreeTables(): Tables {
    Tables([LOW, 0, HIGH], [Msg(0, 1, 0, 1), Msg(HIGH, 1, 1, 1), Msg(LOW, 1, 2, 1)], [0, 0, 0], LOW)
  }

  lemma FeedSet(t: Tables, id: int32, sets: seq<int32>, rest: seq<Line>)
    requires AddSet(t.sets, id) == Some(sets)
    ensures FeedAll(t, [SetLine(id)] + rest) == FeedAll(t.(sets := sets, cur := id), rest)
  {
    assert ([SetLine(id)] + rest)[1..] == rest;
  }

  lemma FeedMessage(t: Tables, msgs: seq<Msg>, strings: seq<byte>, rest: seq<Line>)
    requires t.cur in t.sets && |t.msgs| < 10 && |t.strings| < 10
    requires msgs == t.msgs + [Msg(t.cur, 1, |t.strings|, 1)] && strings == t.strings + [0]
    ensures FeedAll(t, [Message(1, [])] + rest) == FeedAll(t.(msgs := msgs, strings := strings), rest)
  {
    assert ([Message(1, [])] + rest)[1..] == rest;
    assert t.strings + [] + [0] == t.strings + [0];
  }

  lemma FirstThree(rest: seq<Line>)
    ensures FeedAll(Empty(), [SetLine(LOW)] + ([SetLine(0)] + ([Message(1, [])] + rest)))
         == FeedAll(Tables([LOW, 0], [Msg(0, 1, 0, 1)], [0], 0), rest)
  {
    hide FeedAll;
    var m := [Message(1, [])] + rest;
    assert [] + [LOW] == [LOW] && [LOW] + [0] == [LOW, 0];
    FeedSet(Empty(), LOW, [LOW], [SetLine(0)] + m);
    FeedSet(Tables([LOW], [], [], LOW), 0, [LOW, 0], m);
    FeedMessage(Tables([LOW, 0], [], [], 0), [Msg(0, 1, 0, 1)], [0], rest);
  }

  lemma LastFour()
    ensures FeedAll(Tables([LOW, 0], [Msg(0, 1, 0, 1)], [0], 0),
                    [SetLine(HIGH)] + ([Message(1, [])] + ([SetLine(LOW)] + ([Message(1, [])] + []))))
         == Some(ThreeTables())
  {
    hide FeedAll;
    var one := [Msg(0, 1, 0, 1)];
    var two := one + [Msg(HIGH, 1, 1, 1)];
    var m := [SetLine(LOW)] + ([Message(1, [])] + []);
    assert [LOW, 0] + [HIGH] == [LOW, 0, HIGH];
    FeedSet(Tables([LOW, 0], one, [0], 0), HIGH, [LOW, 0, HIGH], [Message(1, [])] + m);
    FeedMessage(Tables([LOW, 0, HIGH], one, [0], HIGH), two, [0] + [0], m);
    FeedSet(Tables([LOW, 0, HIGH], two, [0] + [0], HIGH), LOW, [LOW, 0, HIGH], [Message(1, [])] + []);
    FeedMessage(Tables([LOW, 0, HIGH], two, [0] + [0], LOW), two + [Msg(LOW, 1, 2, 1)], [0] + [0] + [0], []);
    assert ThreeTables() == Tables([LOW, 0, HIGH], two + [Msg(LOW, 1, 2, 1)], [0] + [0] + [0], LOW);
    FeedNone(ThreeTables());
  }

  lemma FeedNone(t: Tables)
    ensures FeedAll(t, []) == Some(t)
  {}

  lemma ThreeSetsFed()
    ensures FeedAll(Empty(), ThreeSets()) == Some(ThreeTables())
  {
    hide FeedAll, ThreeTables;
    var rest := [SetLine(HIGH)] + ([Message(1, [])] + ([SetLine(LOW)] + ([Message(1, [])] + [])));
    assert ThreeSets() == [SetLine(LOW)] + ([SetLine(0)] + ([Message(1, [])] + rest));
    FirstThree(rest);
    LastFour();
  }

  lemma ThreeTablesReach()
    ensures var t := ThreeTables(); Reach(t.sets, t.msgs, |t.sets|) == 2
  {
    var t := ThreeTables();
    assert RunLength(t.msgs, LOW, 0) == 0;
    assert RunLength(t.msgs, 0, 0) == 1;
    assert RunLength(t.msgs, HIGH, 1) == 1;
    assert Reach(t.sets, t.msgs, 1) == 0;
    assert Reach(t.sets, t.msgs, 2) == 1;
  }

  /** Here the tables as they stand are in an order that qsort may leave, and the message of the set
      that comes first in the set table and last in the message table is lost. */
  lemma WrappedOrderLosesMessages()
    ensures FeedAll(Empty(), ThreeSets()) == Some(ThreeTables())
    ensures var t := ThreeTables();
            && Qsorted(t, t.sets, t.msgs) && Reach(t.sets, t.msgs, |t.sets|) == 2 && |t.msgs| == 3
            && !Faithful(ThreeSets(), t.strings, t.sets, t.msgs)
  {
    hide ThreeSets, FeedAll, Reach, Faithful;
    ThreeSetsFed();
    ThreeTablesReach();
    var t := ThreeTables();
    FaithfulIfCut(ThreeSets(), t.sets, t.msgs);
  }
}
