/** The message catalog compiler examples/gencat.c: tables, the catalog file, and reading it. */
module Catalog {

  type byte = x: int | 0 <= x < 256

  const MAX_SETS: nat := 256
  const MAX_MSGS: nat := 4096
  const MAX_STRINGS: nat := 262144
  const MAGIC: nat := 0xff88ff89
  const TWO32: nat := 0x1_0000_0000
  const TWO31: nat := 0x8000_0000

  /** C's int. */
  type int32 = x: int | -0x8000_0000 <= x < 0x8000_0000

  datatype Msg = Msg(setId: int32, msgId: int32, offset: nat, len: nat)

  // ------------------------------------------------------------------
  // Numbers
  // ------------------------------------------------------------------

  function Put32(v: nat): (s: seq<byte>)
    requires v < TWO32
    ensures |s| == 4
  {
    [v / 0x100_0000, v / 0x1_0000 % 0x100, v / 0x100 % 0x100, v % 0x100]
  }

  function Get32(s: seq<byte>): nat
    requires |s| == 4
  {
    s[0] as int * 0x100_0000 + s[1] as int * 0x1_0000 + s[2] as int * 0x100 + s[3] as int
  }

  /** The cast to uint32_t, and back. */
  function ToUnsigned(x: int32): (v: nat)
    ensures v < TWO32
  {
    if x < 0 then x + TWO32 else x
  }

  function ToSigned(v: nat): int32
    requires v < TWO32
  {
    if v >= TWO31 then v - TWO32 else v
  }

  lemma NumberBack(v: nat)
    requires v < TWO32
    ensures Get32(Put32(v)) == v
  {
    var a, b := v / 0x1_0000, v % 0x1_0000;
    assert v / 0x100_0000 == a / 0x100 && v / 0x100 % 0x100 == b / 0x100;
  }

  lemma SignedBack(x: int32)
    ensures ToSigned(Get32(Put32(ToUnsigned(x)))) == x
  {
    NumberBack(ToUnsigned(x));
  }

  // ------------------------------------------------------------------
  // Tables of three-number rows
  // ------------------------------------------------------------------

  datatype Row = Row(a: nat, b: nat, c: nat)

  predicate Fits(r: Row) { r.a < TWO32 && r.b < TWO32 && r.c < TWO32 }

  predicate AllFit(rs: seq<Row>) { forall i :: 0 <= i < |rs| ==> Fits(rs[i]) }

  function RowBytes(r: Row): (s: seq<byte>)
    requires Fits(r)
    ensures |s| == 12
  {
    Put32(r.a) + Put32(r.b) + Put32(r.c)
  }

  function Rows(rs: seq<Row>): (s: seq<byte>)
    requires AllFit(rs)
    ensures |s| == 12 * |rs|
  {
    if rs == [] then [] else Rows(rs[..|rs| - 1]) + RowBytes(rs[|rs| - 1])
  }

  lemma {:induction false} RowAt(rs: seq<Row>, i: nat)
    requires AllFit(rs) && i < |rs|
    ensures Rows(rs)[12 * i..12 * i + 12] == RowBytes(rs[i])
    decreases |rs|
  {
    var init := rs[..|rs| - 1];
    if i < |rs| - 1 {
      RowAt(init, i);
      assert Rows(rs)[12 * i..12 * i + 12] == Rows(init)[12 * i..12 * i + 12];
      assert init[i] == rs[i];
    }
  }

  /** The row of a table that starts at `base` in a file. */
  function ReadRow(file: seq<byte>, base: nat, i: nat): Row
    requires base + 12 * i + 12 <= |file|
  {
    var at := base + 12 * i;
    Row(Get32(file[at..at + 4]), Get32(file[at + 4..at + 8]), Get32(file[at + 8..at + 12]))
  }

  lemma {:induction false} SliceOfSlice(s: seq<byte>, lo: nat, hi: nat, i: nat, j: nat)
    requires lo <= hi <= |s| && i <= j <= hi - lo
    ensures s[lo..hi][i..j] == s[lo + i..lo + j]
  {
    assert |s[lo..hi][i..j]| == |s[lo + i..lo + j]|;
    forall k | 0 <= k < j - i ensures s[lo..hi][i..j][k] == s[lo + i..lo + j][k] {}
  }

  lemma {:induction false} ReadRowBack(file: seq<byte>, base: nat, rs: seq<Row>, i: nat)
    requires AllFit(rs) && i < |rs| && base + 12 * |rs| <= |file|
    requires file[base..base + 12 * |rs|] == Rows(rs)
    ensures ReadRow(file, base, i) == rs[i]
  {
    hide Put32, Get32, Rows;
    var at := base + 12 * i;
    RowAt(rs, i);
    var row := RowBytes(rs[i]);
    SliceOfSlice(file, base, base + 12 * |rs|, 12 * i, 12 * i + 12);
    assert file[at..at + 12] == row;
    SliceOfSlice(file, at, at + 12, 0, 4);
    SliceOfSlice(file, at, at + 12, 4, 8);
    SliceOfSlice(file, at, at + 12, 8, 12);
    assert row[0..4] == Put32(rs[i].a) && row[4..8] == Put32(rs[i].b) && row[8..12] == Put32(rs[i].c);
    NumberBack(rs[i].a);
    NumberBack(rs[i].b);
    NumberBack(rs[i].c);
  }

  // ------------------------------------------------------------------
  // The merge of sets and messages
  // ------------------------------------------------------------------

  /** How many of the messages from `from` on are of this set before another one comes. */
  function RunLength(msgs: seq<Msg>, id: int32, from: nat): (n: nat)
    requires from <= |msgs|
    ensures from + n <= |msgs|
    ensures forall k :: from <= k < from + n ==> msgs[k].setId == id
    ensures from + n < |msgs| ==> msgs[from + n].setId != id
    decreases |msgs| - from
  {
    if from < |msgs| && msgs[from].setId == id then 1 + RunLength(msgs, id, from + 1) else 0
  }

  /** Where the messages of the first `i` sets end. */
  function Reach(sets: seq<int32>, msgs: seq<Msg>, i: nat): (n: nat)
    requires i <= |sets|
    ensures n <= |msgs|
  {
    if i == 0 then 0 else
      var from := Reach(sets, msgs, i - 1);
      from + RunLength(msgs, sets[i - 1], from)
  }

  function SetRows(sets: seq<int32>, msgs: seq<Msg>): (rs: seq<Row>)
    ensures |rs| == |sets|
  {
    seq(|sets|, i requires 0 <= i < |sets| =>
      Row(ToUnsigned(sets[i]), Reach(sets, msgs, i + 1) - Reach(sets, msgs, i), Reach(sets, msgs, i)))
  }

  function MsgRows(msgs: seq<Msg>): (rs: seq<Row>)
    ensures |rs| == |msgs|
  {
    seq(|msgs|, i requires 0 <= i < |msgs| => Row(ToUnsigned(msgs[i].msgId), msgs[i].len, msgs[i].offset))
  }

  /** How far up from `s` the id `x` lies on the circle of the 32-bit numbers. */
  function Offset(x: int32, s: int32): nat {
    if x >= s then x - s else x - s + TWO32
  }

  lemma OffsetInjective(x: int32, y: int32, s: int32)
    requires Offset(x, s) == Offset(y, s)
    ensures x == y
  {}

  /** In the order of the circle, from `s` up. */
  predicate Ascending(sets: seq<int32>, s: int32) {
    forall i, j :: 0 <= i < j < |sets| ==> Offset(sets[i], s) < Offset(sets[j], s)
  }

  predicate SortedBySet(msgs: seq<Msg>, s: int32) {
    forall i, j :: 0 <= i < j < |msgs| ==> Offset(msgs[i].setId, s) <= Offset(msgs[j].setId, s)
  }

  /** Every message's set is in the set table. */
  predicate Known(sets: seq<int32>, msgs: seq<Msg>) { forall k :: 0 <= k < |msgs| ==> msgs[k].setId in sets }

  /** After the first `i` sets, only messages of later sets are left. */
  lemma {:induction false} ReachIsExact(sets: seq<int32>, msgs: seq<Msg>, s: int32, i: nat, k: nat)
    requires Ascending(sets, s) && SortedBySet(msgs, s) && Known(sets, msgs) && 0 < i <= |sets|
    requires Reach(sets, msgs, i) <= k < |msgs|
    ensures Offset(msgs[k].setId, s) > Offset(sets[i - 1], s)
    decreases i, 0
  {
    hide Offset;
    var to := Reach(sets, msgs, i);
    assert Offset(msgs[to].setId, s) <= Offset(msgs[k].setId, s);
    NotBefore(sets, msgs, s, i, to);
    if Offset(msgs[to].setId, s) == Offset(sets[i - 1], s) { OffsetInjective(msgs[to].setId, sets[i - 1], s); }
  }

  lemma {:induction false} NotBefore(sets: seq<int32>, msgs: seq<Msg>, s: int32, i: nat, k: nat)
    requires Ascending(sets, s) && SortedBySet(msgs, s) && Known(sets, msgs) && 0 < i <= |sets|
    requires Reach(sets, msgs, i - 1) <= k < |msgs|
    ensures Offset(msgs[k].setId, s) >= Offset(sets[i - 1], s)
    decreases i - 1, 1
  {
    hide Offset, Reach;
    var j :| 0 <= j < |sets| && sets[j] == msgs[k].setId;
    if i > 1 {
      assert j < i - 1 ==> Offset(sets[j], s) <= Offset(sets[i - 2], s);
      ReachIsExact(sets, msgs, s, i - 1, k);
    }
  }

  /** Where both tables are in the order of the circle, the ranges of the set table cut the message
      table into consecutive pieces that use it up, and each piece holds the messages of its set. */
  lemma {:induction false} RangesPartition(sets: seq<int32>, msgs: seq<Msg>, s: int32)
    requires Ascending(sets, s) && SortedBySet(msgs, s) && Known(sets, msgs)
    ensures Reach(sets, msgs, |sets|) == |msgs|
    ensures forall i, k :: 0 <= i < |sets| && Reach(sets, msgs, i) <= k < Reach(sets, msgs, i + 1) ==>
              msgs[k].setId == sets[i]
  {
    hide Reach, RunLength, Offset;
    EndsAtTheEnd(sets, msgs, s);
    forall i, k | 0 <= i < |sets| && Reach(sets, msgs, i) <= k < Reach(sets, msgs, i + 1)
      ensures msgs[k].setId == sets[i]
    {
      InRange(sets, msgs, i, k);
    }
  }

  lemma {:induction false} EndsAtTheEnd(sets: seq<int32>, msgs: seq<Msg>, s: int32)
    requires Ascending(sets, s) && SortedBySet(msgs, s) && Known(sets, msgs)
    ensures Reach(sets, msgs, |sets|) == |msgs|
  {
    hide Reach, RunLength, Offset;
    var end := Reach(sets, msgs, |sets|);
    if end < |msgs| {
      assert msgs[end].setId in sets;
      ReachIsExact(sets, msgs, s, |sets|, end);
    }
  }

  lemma {:induction false} InRange(sets: seq<int32>, msgs: seq<Msg>, i: nat, k: nat)
    requires i < |sets| && Reach(sets, msgs, i) <= k < Reach(sets, msgs, i + 1)
    ensures msgs[k].setId == sets[i]
  {
    assert Reach(sets, msgs, i + 1) == Reach(sets, msgs, i) + RunLength(msgs, sets[i], Reach(sets, msgs, i));
  }

  // ------------------------------------------------------------------
  // The file
  // ------------------------------------------------------------------

  predicate WithinLimits(sets: seq<int32>, msgs: seq<Msg>, strings: seq<byte>) {
    && |sets| <= MAX_SETS && |msgs| <= MAX_MSGS && |strings| <= MAX_STRINGS
    && forall k :: 0 <= k < |msgs| ==> 1 <= msgs[k].len && msgs[k].offset + msgs[k].len <= |strings|
  }

  lemma RowsFit(sets: seq<int32>, msgs: seq<Msg>, strings: seq<byte>)
    requires WithinLimits(sets, msgs, strings)
    ensures AllFit(SetRows(sets, msgs)) && AllFit(MsgRows(msgs))
  {}

  function Header(nsets: nat, nmsgs: nat, size: nat): (s: seq<byte>)
    requires nsets <= MAX_SETS && nmsgs <= MAX_MSGS && size <= MAX_STRINGS
    ensures |s| == 20
  {
    Put32(MAGIC) + Put32(nsets) + Put32(12 * nsets + 12 * nmsgs + size) + Put32(12 * nsets)
    + Put32(12 * nsets + 12 * nmsgs)
  }

  /** The documented layout. */
  function CatalogFile(sets: seq<int32>, msgs: seq<Msg>, strings: seq<byte>): seq<byte>
    requires WithinLimits(sets, msgs, strings)
  {
    RowsFit(sets, msgs, strings);
    Header(|sets|, |msgs|, |strings|) + Rows(SetRows(sets, msgs)) + Rows(MsgRows(msgs)) + strings
  }

  method Put32be(buf: array<byte>, at: nat, v: nat)
    requires v < TWO32 && at + 4 <= buf.Length
    modifies buf
    ensures buf[..at + 4] == old(buf[..at]) + Put32(v) && buf[at + 4..] == old(buf[at + 4..])
  {
    buf[at] := v / 0x100_0000;
    buf[at + 1] := v / 0x1_0000 % 0x100;
    buf[at + 2] := v / 0x100 % 0x100;
    buf[at + 3] := v % 0x100;
  }

  method PutRow(buf: array<byte>, at: nat, r: Row)
    requires Fits(r) && at + 12 <= buf.Length
    modifies buf
    ensures buf[..at + 12] == old(buf[..at]) + RowBytes(r) && buf[at + 12..] == old(buf[at + 12..])
  {
    hide Put32;
    ghost var b0 := buf[..];
    Put32be(buf, at, r.a);
    ghost var b1 := buf[..];
    Put32be(buf, at + 4, r.b);
    ghost var b2 := buf[..];
    Put32be(buf, at + 8, r.c);
    assert b2[at + 12..] == b2[at + 8..][4..] && b1[at + 12..] == b1[at + 4..][8..];
  }

  lemma {:induction false} RowsGrow(rs: seq<Row>, i: nat)
    requires AllFit(rs) && i < |rs|
    ensures AllFit(rs[..i]) && AllFit(rs[..i + 1]) && Rows(rs[..i + 1]) == Rows(rs[..i]) + RowBytes(rs[i])
  {
    assert rs[..i + 1][..i] == rs[..i] && rs[..i + 1][i] == rs[i];
  }

  /** The inner loop: past the messages of one set. */
  method PassSet(msgs: seq<Msg>, id: int32, first: nat) returns (count: nat)
    requires first <= |msgs|
    ensures count == RunLength(msgs, id, first)
  {
    var idx := first;
    count := 0;
    while idx < |msgs| && msgs[idx].setId == id
      invariant first <= idx <= |msgs| && count == idx - first
      invariant RunLength(msgs, id, first) == count + RunLength(msgs, id, idx)
    {
      idx, count := idx + 1, count + 1;
    }
  }

  lemma {:induction false} SetRowAt(sets: seq<int32>, msgs: seq<Msg>, i: nat)
    requires i < |sets|
    ensures var first := Reach(sets, msgs, i);
            var count := RunLength(msgs, sets[i], first);
            && Reach(sets, msgs, i + 1) == first + count
            && SetRows(sets, msgs)[i] == Row(ToUnsigned(sets[i]), count, first)
  {}

  lemma NothingReached(sets: seq<int32>, msgs: seq<Msg>)
    ensures Reach(sets, msgs, 0) == 0
  {}

  /** The set table: the loop over the sets walks through the messages once. */
  method PutSets(buf: array<byte>, sets: seq<int32>, msgs: seq<Msg>)
    requires AllFit(SetRows(sets, msgs)) && 20 + 12 * |sets| <= buf.Length
    modifies buf
    ensures buf[..20 + 12 * |sets|] == old(buf[..20]) + Rows(SetRows(sets, msgs))
  {
    hide SetRows, Rows, RowBytes, Fits, Reach, RunLength;
    ghost var rs := SetRows(sets, msgs);
    var i, idx := 0, 0;
    assert rs[..0] == [] && Rows(rs[..0]) == [];
    NothingReached(sets, msgs);
    while i < |sets|
      invariant 0 <= i <= |sets| && idx == Reach(sets, msgs, i)
      invariant buf[..20 + 12 * i] == old(buf[..20]) + Rows(rs[..i])
    {
      var first := idx;
      var count := PassSet(msgs, sets[i], first);
      idx := first + count;
      SetRowAt(sets, msgs, i);
      RowsGrow(rs, i);
      PutRow(buf, 20 + 12 * i, Row(ToUnsigned(sets[i]), count, first));
      assert old(buf[..20]) + Rows(rs[..i]) + RowBytes(rs[i]) == old(buf[..20]) + Rows(rs[..i + 1]);
      i := i + 1;
    }
    assert rs[..|sets|] == rs;
  }

  method PutMsgs(buf: array<byte>, base: nat, msgs: seq<Msg>)
    requires AllFit(MsgRows(msgs)) && base + 12 * |msgs| <= buf.Length
    modifies buf
    ensures buf[..base + 12 * |msgs|] == old(buf[..base]) + Rows(MsgRows(msgs))
  {
    hide RowBytes, Fits;
    ghost var rs := MsgRows(msgs);
    var i := 0;
    while i < |msgs|
      invariant 0 <= i <= |msgs|
      invariant buf[..base + 12 * i] == old(buf[..base]) + Rows(rs[..i])
    {
      RowsGrow(rs, i);
      PutRow(buf, base + 12 * i, Row(ToUnsigned(msgs[i].msgId), msgs[i].len, msgs[i].offset));
      i := i + 1;
    }
    assert rs[..|msgs|] == rs;
  }

  method PutHeader(buf: array<byte>, nsets: nat, nmsgs: nat, size: nat)
    requires nsets <= MAX_SETS && nmsgs <= MAX_MSGS && size <= MAX_STRINGS && buf.Length >= 20
    modifies buf
    ensures buf[..20] == Header(nsets, nmsgs, size)
  {
    Put32be(buf, 0, MAGIC);
    Put32be(buf, 4, nsets);
    Put32be(buf, 8, 12 * nsets + 12 * nmsgs + size);
    Put32be(buf, 12, 12 * nsets);
    Put32be(buf, 16, 12 * nsets + 12 * nmsgs);
  }

  method PutStrings(buf: array<byte>, base: nat, strings: seq<byte>)
    requires base + |strings| == buf.Length
    modifies buf
    ensures buf[..] == old(buf[..base]) + strings
  {
    var i := 0;
    while i < |strings|
      invariant 0 <= i <= |strings|
      invariant buf[..base + i] == old(buf[..base]) + strings[..i]
    {
      buf[base + i] := strings[i];
      assert buf[..base + i + 1] == buf[..base + i] + [strings[i]];
      i := i + 1;
    }
    assert buf[..] == buf[..base + i] && strings[..i] == strings;
  }

  /** main from the sorted tables on: the buffer that is written out. */
  method Build(sets: seq<int32>, msgs: seq<Msg>, strings: seq<byte>) returns (buf: array<byte>)
    requires WithinLimits(sets, msgs, strings)
    ensures buf[..] == CatalogFile(sets, msgs, strings)
  {
    RowsFit(sets, msgs, strings);
    var base := 20 + 12 * |sets|;
    buf := new byte[base + 12 * |msgs| + |strings|](_ => 0);
    PutHeader(buf, |sets|, |msgs|, |strings|);
    PutSets(buf, sets, msgs);
    PutMsgs(buf, base, msgs);
    PutStrings(buf, base + 12 * |msgs|, strings);
  }
}
