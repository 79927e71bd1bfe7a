/** Reading a message catalog by its documented layout (examples/gencat.c, lines 4-19). */
module CatalogReader {
  import opened Catalog

  datatype Entry = Entry(setId: int32, msgId: int32, text: seq<byte>)

  /** Word `i` of the header. */
  function Word(file: seq<byte>, i: nat): nat
    requires i < 5 && |file| >= 20
  {
    Get32(file[4 * i..4 * i + 4])
  }

  function MsgsAt(file: seq<byte>): nat
    requires |file| >= 20
  {
    20 + Word(file, 3)
  }

  function StringsAt(file: seq<byte>): nat
    requires |file| >= 20
  {
    20 + Word(file, 4)
  }

  /** The header is right, and the tables lie one behind the other inside the file. */
  predicate HasTables(file: seq<byte>) {
    && |file| >= 20 && Word(file, 0) == MAGIC && 20 + Word(file, 2) == |file|
    && 12 * Word(file, 1) <= Word(file, 3) <= Word(file, 4) <= Word(file, 2)
  }

  function SetRow(file: seq<byte>, i: nat): Row
    requires HasTables(file) && i < Word(file, 1)
  {
    ReadRow(file, 20, i)
  }

  /** The message rows a set refers to exist, and their texts lie inside the file. */
  predicate HasMessages(file: seq<byte>, i: nat)
    requires HasTables(file) && i < Word(file, 1)
  {
    var s := SetRow(file, i);
    && MsgsAt(file) + 12 * (s.c + s.b) <= StringsAt(file)
    && forall k :: s.c <= k < s.c + s.b ==> HasText(file, k)
  }

  predicate HasText(file: seq<byte>, k: nat)
    requires HasTables(file)
  {
    && MsgsAt(file) + 12 * k + 12 <= StringsAt(file)
    && var m := ReadRow(file, MsgsAt(file), k);
       && 1 <= m.b && StringsAt(file) + m.c + m.b <= |file|
       && file[StringsAt(file) + m.c + m.b - 1] == 0
  }

  predicate Readable(file: seq<byte>) {
    HasTables(file) && forall i :: 0 <= i < Word(file, 1) ==> HasMessages(file, i)
  }

  function ReadEntry(file: seq<byte>, setId: nat, k: nat): Entry
    requires HasTables(file) && HasText(file, k) && setId < TWO32
  {
    var m := ReadRow(file, MsgsAt(file), k);
    var at := StringsAt(file) + m.c;
    Entry(ToSigned(setId), ToSigned(m.a % TWO32), file[at..at + m.b - 1])
  }

  function ReadSet(file: seq<byte>, i: nat): seq<Entry>
    requires HasTables(file) && i < Word(file, 1) && HasMessages(file, i)
  {
    var s := SetRow(file, i);
    seq(s.b, j requires 0 <= j < s.b => ReadEntry(file, s.a % TWO32, s.c + j))
  }

  /** The entries of the first `i` sets. */
  function ReadSets(file: seq<byte>, i: nat): seq<Entry>
    requires Readable(file) && i <= Word(file, 1)
  {
    if i == 0 then [] else ReadSets(file, i - 1) + ReadSet(file, i - 1)
  }

  function Decode(file: seq<byte>): seq<Entry>
    requires Readable(file)
  {
    ReadSets(file, Word(file, 1))
  }

  // ------------------------------------------------------------------
  // Reading what was built
  // ------------------------------------------------------------------

  function TextOf(m: Msg, strings: seq<byte>): seq<byte>
    requires 1 <= m.len && m.offset + m.len <= |strings|
  {
    strings[m.offset..m.offset + m.len - 1]
  }

  /** Every text ends in its NUL. */
  predicate Terminated(msgs: seq<Msg>, strings: seq<byte>) {
    forall k :: 0 <= k < |msgs| ==>
      1 <= msgs[k].len && msgs[k].offset + msgs[k].len <= |strings|
      && strings[msgs[k].offset + msgs[k].len - 1] == 0
  }

  function EntryOf(m: Msg, strings: seq<byte>): Entry
    requires 1 <= m.len && m.offset + m.len <= |strings|
  {
    Entry(m.setId, m.msgId, TextOf(m, strings))
  }

  function EntriesOf(msgs: seq<Msg>, strings: seq<byte>): (es: seq<Entry>)
    requires Terminated(msgs, strings)
    ensures |es| == |msgs|
  {
    seq(|msgs|, k requires 0 <= k < |msgs| => EntryOf(msgs[k], strings))
  }

  /** The parts of a built file. */
  lemma {:induction false} FileParts(sets: seq<int32>, msgs: seq<Msg>, strings: seq<byte>)
    requires WithinLimits(sets, msgs, strings)
    ensures var f := CatalogFile(sets, msgs, strings);
            var m, s := 20 + 12 * |sets|, 20 + 12 * |sets| + 12 * |msgs|;
            && |f| == s + |strings| && f[..20] == Header(|sets|, |msgs|, |strings|)
            && AllFit(SetRows(sets, msgs)) && f[20..m] == Rows(SetRows(sets, msgs))
            && AllFit(MsgRows(msgs)) && f[m..s] == Rows(MsgRows(msgs))
            && f[s..] == strings
  {
    hide Header, Rows, SetRows, MsgRows, AllFit;
    RowsFit(sets, msgs, strings);
    var h, a, b := Header(|sets|, |msgs|, |strings|), Rows(SetRows(sets, msgs)), Rows(MsgRows(msgs));
    FourParts(h, a, b, strings);
  }

  lemma {:induction false} FourParts(h: seq<byte>, a: seq<byte>, b: seq<byte>, c: seq<byte>)
    ensures var f := h + a + b + c;
            && f[..|h|] == h && f[|h|..|h| + |a|] == a && f[|h| + |a|..|h| + |a| + |b|] == b
            && f[|h| + |a| + |b|..] == c
  {}

  lemma {:induction false} HeaderWords(nsets: nat, nmsgs: nat, size: nat, file: seq<byte>)
    requires nsets <= MAX_SETS && nmsgs <= MAX_MSGS && size <= MAX_STRINGS
    requires |file| >= 20 && file[..20] == Header(nsets, nmsgs, size)
    ensures Word(file, 0) == MAGIC && Word(file, 1) == nsets && Word(file, 2) == 12 * nsets + 12 * nmsgs + size
    ensures Word(file, 3) == 12 * nsets && Word(file, 4) == 12 * nsets + 12 * nmsgs
  {
    var h := Header(nsets, nmsgs, size);
    assert h[0..4] == Put32(MAGIC) && h[4..8] == Put32(nsets) && h[8..12] == Put32(12 * nsets + 12 * nmsgs + size);
    assert h[12..16] == Put32(12 * nsets) && h[16..20] == Put32(12 * nsets + 12 * nmsgs);
    SliceOfSlice(file, 0, 20, 0, 4);
    SliceOfSlice(file, 0, 20, 4, 8);
    SliceOfSlice(file, 0, 20, 8, 12);
    SliceOfSlice(file, 0, 20, 12, 16);
    SliceOfSlice(file, 0, 20, 16, 20);
    hide Put32, Get32;
    NumberBack(MAGIC);
    NumberBack(nsets);
    NumberBack(12 * nsets + 12 * nmsgs + size);
    NumberBack(12 * nsets);
    NumberBack(12 * nsets + 12 * nmsgs);
  }

  lemma {:induction false} BuiltTables(sets: seq<int32>, msgs: seq<Msg>, strings: seq<byte>)
    requires WithinLimits(sets, msgs, strings)
    ensures var f := CatalogFile(sets, msgs, strings);
            && HasTables(f) && Word(f, 1) == |sets|
            && MsgsAt(f) == 20 + 12 * |sets| && StringsAt(f) == 20 + 12 * |sets| + 12 * |msgs|
  {
    hide Header, Rows, SetRows, MsgRows, AllFit, CatalogFile;
    FileParts(sets, msgs, strings);
    HeaderWords(|sets|, |msgs|, |strings|, CatalogFile(sets, msgs, strings));
  }

  lemma {:induction false} BuiltMessage(sets: seq<int32>, msgs: seq<Msg>, strings: seq<byte>, k: nat)
    requires WithinLimits(sets, msgs, strings) && Terminated(msgs, strings) && k < |msgs|
    ensures var f := CatalogFile(sets, msgs, strings);
            && HasTables(f) && HasText(f, k)
            && ReadEntry(f, ToUnsigned(msgs[k].setId), k) == EntryOf(msgs[k], strings)
  {
    hide Header, Rows, SetRows, MsgRows, AllFit, CatalogFile, ReadRow, HasTables;
    var f := CatalogFile(sets, msgs, strings);
    BuiltTables(sets, msgs, strings);
    FileParts(sets, msgs, strings);
    ReadRowBack(f, MsgsAt(f), MsgRows(msgs), k);
    MsgRowAt(msgs, k);
    var m, s := msgs[k], StringsAt(f);
    assert f[s + m.offset + m.len - 1] == strings[m.offset + m.len - 1];
    SliceOfSlice(f, s, |f|, m.offset, m.offset + m.len - 1);
    assert f[s..|f|] == f[s..];
  }

  lemma {:induction false} MsgRowAt(msgs: seq<Msg>, k: nat)
    requires k < |msgs|
    ensures MsgRows(msgs)[k] == Row(ToUnsigned(msgs[k].msgId), msgs[k].len, msgs[k].offset)
  {}

  lemma {:induction false} BuiltSet(sets: seq<int32>, msgs: seq<Msg>, strings: seq<byte>, i: nat)
    requires WithinLimits(sets, msgs, strings) && Terminated(msgs, strings) && i < |sets|
    ensures var f := CatalogFile(sets, msgs, strings);
            && HasTables(f) && i < Word(f, 1) && HasMessages(f, i)
            && ReadSet(f, i) == EntriesOf(msgs, strings)[Reach(sets, msgs, i)..Reach(sets, msgs, i + 1)]
  {
    hide Header, Rows, SetRows, MsgRows, AllFit, CatalogFile, ReadRow, HasTables, HasText, ReadEntry, EntryOf;
    hide Reach, RunLength;
    var f := CatalogFile(sets, msgs, strings);
    BuiltTables(sets, msgs, strings);
    FileParts(sets, msgs, strings);
    ReadRowBack(f, 20, SetRows(sets, msgs), i);
    SetRowAt(sets, msgs, i);
    var from, to := Reach(sets, msgs, i), Reach(sets, msgs, i + 1);
    forall k | from <= k < to
      ensures HasText(f, k) && ReadEntry(f, ToUnsigned(sets[i]), k) == EntriesOf(msgs, strings)[k]
    {
      InRange(sets, msgs, i, k);
      BuiltMessage(sets, msgs, strings, k);
    }
  }

  lemma {:induction false} BuiltSets(sets: seq<int32>, msgs: seq<Msg>, strings: seq<byte>, i: nat)
    requires WithinLimits(sets, msgs, strings) && Terminated(msgs, strings) && i <= |sets|
    requires Readable(CatalogFile(sets, msgs, strings)) && Word(CatalogFile(sets, msgs, strings), 1) == |sets|
    ensures ReadSets(CatalogFile(sets, msgs, strings), i) == EntriesOf(msgs, strings)[..Reach(sets, msgs, i)]
    decreases i
  {
    hide CatalogFile, ReadSet, EntriesOf, Readable, Reach, RunLength, SetRows, Word, ToUnsigned;
    hide WithinLimits, Terminated;
    NothingReached(sets, msgs);
    if i > 0 {
      SetRowAt(sets, msgs, i - 1);
      BuiltSets(sets, msgs, strings, i - 1);
      BuiltSet(sets, msgs, strings, i - 1);
      var from, to := Reach(sets, msgs, i - 1), Reach(sets, msgs, i);
      assert EntriesOf(msgs, strings)[..to] == EntriesOf(msgs, strings)[..from] + EntriesOf(msgs, strings)[from..to];
    }
  }

  /** A reader that follows the documented layout gets exactly the messages of the message table that
      the set table reaches, in order, with their texts; every offset it meets on the way lies
      inside the file. */
  lemma {:induction false} DecodesBack(sets: seq<int32>, msgs: seq<Msg>, strings: seq<byte>)
    requires WithinLimits(sets, msgs, strings) && Terminated(msgs, strings)
    ensures Readable(CatalogFile(sets, msgs, strings))
    ensures Decode(CatalogFile(sets, msgs, strings)) == EntriesOf(msgs, strings)[..Reach(sets, msgs, |sets|)]
  {
    hide CatalogFile, ReadSet, EntriesOf, HasMessages, HasTables, Reach;
    var f := CatalogFile(sets, msgs, strings);
    BuiltTables(sets, msgs, strings);
    forall i | 0 <= i < |sets| ensures HasMessages(f, i) {
      BuiltSet(sets, msgs, strings, i);
    }
    BuiltSets(sets, msgs, strings, |sets|);
  }
}
