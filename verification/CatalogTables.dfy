/** How examples/gencat.c fills its tables from message files. */
module CatalogTables {
  import opened Options
  import opened Sequences
  import opened Catalog
  import opened CatalogReader

  /** What a line of input comes to: a new file begins (set 1), `$set n`, or `n text`. */
  datatype Line = NewFile | SetLine(id: int32) | Message(id: int32, text: seq<byte>)

  datatype Tables = Tables(sets: seq<int32>, msgs: seq<Msg>, strings: seq<byte>, cur: int32)

  function Empty(): Tables { Tables([], [], [], 1) }

  /** None is gencat's exit(1). */
  function AddSet(sets: seq<int32>, id: int32): Option<seq<int32>> {
    if id in sets then Some(sets)
    else if |sets| >= MAX_SETS then None
    else Some(sets + [id])
  }

  function Feed(t: Tables, line: Line): Option<Tables> {
    match line
    case NewFile => Some(t.(cur := 1))
    case SetLine(id) =>
      (match AddSet(t.sets, id)
       case None => None
       case Some(sets) => Some(t.(sets := sets, cur := id)))
    case Message(id, text) =>
      match AddSet(t.sets, t.cur)
      case None => None
      case Some(sets) =>
        if |t.msgs| >= MAX_MSGS || |t.strings| + |text| + 1 > MAX_STRINGS then None
        else Some(t.(sets := sets, msgs := t.msgs + [Msg(t.cur, id, |t.strings|, |text| + 1)],
                     strings := t.strings + text + [0]))
  }

  function FeedAll(t: Tables, lines: seq<Line>): Option<Tables>
    decreases |lines|
  {
    if lines == [] then Some(t)
    else
      match Feed(t, lines[0])
      case None => None
      case Some(t') => FeedAll(t', lines[1..])
  }

  // ------------------------------------------------------------------
  // The code: fixed arrays and counters
  // ------------------------------------------------------------------

  class Compiler {
    const sets: array<int32>
    const msgs: array<Msg>
    const strings: array<byte>
    var nsets: nat
    var nmsg: nat
    var stringPos: nat
    var curSet: int32

    ghost predicate Valid()
      reads this
    {
      && sets.Length == MAX_SETS && msgs.Length == MAX_MSGS && strings.Length == MAX_STRINGS
      && nsets <= MAX_SETS && nmsg <= MAX_MSGS && stringPos <= MAX_STRINGS
    }

    ghost function Now(): Tables
      reads this, sets, msgs, strings
      requires Valid()
    {
      Tables(sets[..nsets], msgs[..nmsg], strings[..stringPos], curSet)
    }

    constructor ()
      ensures Valid() && fresh(sets) && fresh(msgs) && fresh(strings) && Now() == Empty()
    {
      sets := new int32[MAX_SETS](_ => 0);
      msgs := new Msg[MAX_MSGS](_ => Msg(0, 0, 0, 0));
      strings := new byte[MAX_STRINGS](_ => 0);
      nsets, nmsg, stringPos, curSet := 0, 0, 0, 1;
    }

    method AddSetHere(id: int32) returns (ok: bool)
      requires Valid()
      modifies this`nsets, sets
      ensures Valid()
      ensures AddSet(old(sets[..nsets]), id) == if ok then Some(sets[..nsets]) else None
      ensures sets[..old(nsets)] == old(sets[..nsets])
    {
      var i := 0;
      while i < nsets
        invariant 0 <= i <= nsets && id !in sets[..i]
      {
        if sets[i] == id {
          return true;
        }
        i := i + 1;
      }
      if nsets >= MAX_SETS {
        return false;
      }
      sets[nsets] := id;
      assert sets[..nsets + 1] == old(sets[..nsets]) + [id];
      nsets := nsets + 1;
      return true;
    }

    /** memcpy of the text and its NUL. */
    method StoreText(text: seq<byte>)
      requires Valid() && stringPos + |text| + 1 <= MAX_STRINGS
      modifies strings
      ensures strings[..stringPos] == old(strings[..stringPos])
      ensures strings[stringPos..stringPos + |text| + 1] == text + [0]
    {
      var i := 0;
      while i < |text|
        invariant 0 <= i <= |text|
        invariant strings[..stringPos] == old(strings[..stringPos])
        invariant strings[stringPos..stringPos + i] == text[..i]
      {
        strings[stringPos + i] := text[i];
        assert strings[stringPos..stringPos + i + 1] == text[..i] + [text[i]];
        i := i + 1;
      }
      strings[stringPos + i] := 0;
      assert strings[stringPos..stringPos + i + 1] == text + [0];
    }

    /** One line of parse_file. */
    method FeedLine(line: Line) returns (ok: bool)
      requires Valid()
      modifies this, sets, msgs, strings
      ensures Valid()
      ensures ok ==> Feed(old(Now()), line) == Some(Now())
      ensures !ok ==> Feed(old(Now()), line) == None
    {
      match line {
        case NewFile =>
          curSet := 1;
          ok := true;
        case SetLine(id) =>
          ok := AddSetHere(id);
          curSet := id;
        case Message(id, text) =>
          ok := AddSetHere(curSet);
          if ok {
            if nmsg >= MAX_MSGS || stringPos + |text| + 1 > MAX_STRINGS {
              return false;
            }
            msgs[nmsg] := Msg(curSet, id, stringPos, |text| + 1);
            StoreText(text);
            assert strings[..stringPos + |text| + 1]
                == strings[..stringPos] + strings[stringPos..stringPos + |text| + 1];
            assert strings[..stringPos + |text| + 1] == old(strings[..stringPos]) + text + [0];
            assert msgs[..nmsg + 1] == old(msgs[..nmsg]) + [Msg(curSet, id, stringPos, |text| + 1)];
            stringPos := stringPos + |text| + 1;
            nmsg := nmsg + 1;
          }
      }
    }
  }

  // ------------------------------------------------------------------
  // What the tables hold
  // ------------------------------------------------------------------

  ghost predicate TablesOk(t: Tables) {
    && Distinct(t.sets) && Known(t.sets, t.msgs) && Terminated(t.msgs, t.strings)
    && WithinLimits(t.sets, t.msgs, t.strings)
  }

  /** The messages that the lines announce, with the set each belongs to. */
  function Announced(cur: int32, lines: seq<Line>): seq<Entry>
    decreases |lines|
  {
    if lines == [] then []
    else
      match lines[0]
      case NewFile => Announced(1, lines[1..])
      case SetLine(id) => Announced(id, lines[1..])
      case Message(id, text) => [Entry(cur, id, text)] + Announced(cur, lines[1..])
  }

  lemma {:induction false} MessageKeeps(t: Tables, id: int32, text: seq<byte>)
    requires TablesOk(t) && Feed(t, Message(id, text)).Some?
    ensures var t' := Feed(t, Message(id, text)).value;
            && TablesOk(t') && t'.cur == t.cur
            && EntriesOf(t'.msgs, t'.strings) == EntriesOf(t.msgs, t.strings) + [Entry(t.cur, id, text)]
  {
    var t' := Feed(t, Message(id, text)).value;
    var n := |t.msgs|;
    assert t'.sets == t.sets || t'.sets == t.sets + [t.cur];
    assert t.cur in t'.sets;
    forall k | 0 <= k < n
      ensures 1 <= t'.msgs[k].len && t'.msgs[k].offset + t'.msgs[k].len <= |t'.strings|
      ensures EntryOf(t'.msgs[k], t'.strings) == EntryOf(t.msgs[k], t.strings)
      ensures t'.strings[t'.msgs[k].offset + t'.msgs[k].len - 1] == 0
      ensures t'.msgs[k].setId in t'.sets
    {
      assert t'.msgs[k] == t.msgs[k];
      var m := t.msgs[k];
      assert t'.strings[m.offset..m.offset + m.len - 1] == t.strings[m.offset..m.offset + m.len - 1];
    }
    var m := t'.msgs[n];
    assert t'.strings[m.offset..m.offset + m.len - 1] == text;
  }

  lemma {:induction false} FeedAllKeeps(t: Tables, lines: seq<Line>)
    requires TablesOk(t) && FeedAll(t, lines).Some?
    ensures var t' := FeedAll(t, lines).value;
            && TablesOk(t')
            && EntriesOf(t'.msgs, t'.strings) == EntriesOf(t.msgs, t.strings) + Announced(t.cur, lines)
    decreases |lines|
  {
    hide EntriesOf;
    if lines == [] {
      assert EntriesOf(t.msgs, t.strings) + [] == EntriesOf(t.msgs, t.strings);
    } else {
      var t1 := Feed(t, lines[0]).value;
      match lines[0] {
        case NewFile =>
        case SetLine(_) =>
          assert t1.sets == t.sets || t1.sets == t.sets + [t1.cur];
          assert forall k :: 0 <= k < |t.msgs| ==> t.msgs[k].setId in t1.sets;
        case Message(id, text) =>
          MessageKeeps(t, id, text);
      }
      FeedAllKeeps(t1, lines[1..]);
      if lines[0].Message? {
        var e := [Entry(t.cur, lines[0].id, lines[0].text)];
        assert EntriesOf(t.msgs, t.strings) + e + Announced(t.cur, lines[1..])
            == EntriesOf(t.msgs, t.strings) + (e + Announced(t.cur, lines[1..]));
      }
    }
  }

  // ------------------------------------------------------------------
  // When gencat stops
  // ------------------------------------------------------------------

  /** The sets that lines speak of, when set `cur` is the current one. */
  function Mentioned(cur: int32, lines: seq<Line>): set<int32>
    decreases |lines|
  {
    if lines == [] then {}
    else
      match lines[0]
      case NewFile => Mentioned(1, lines[1..])
      case SetLine(id) => {id} + Mentioned(id, lines[1..])
      case Message(_, _) => {cur} + Mentioned(cur, lines[1..])
  }

  function MessagesIn(lines: seq<Line>): nat {
    if lines == [] then 0 else (if lines[0].Message? then 1 else 0) + MessagesIn(lines[1..])
  }

  /** The texts with their terminators. */
  function BytesIn(lines: seq<Line>): nat {
    if lines == [] then 0 else (if lines[0].Message? then |lines[0].text| + 1 else 0) + BytesIn(lines[1..])
  }

  function Members(sets: seq<int32>): set<int32> { set x | x in sets }

  lemma {:induction false} MembersCount(sets: seq<int32>)
    requires Distinct(sets)
    ensures |Members(sets)| == |sets|
    decreases |sets|
  {
    if sets == [] {
      assert Members(sets) == {};
    } else {
      var rest := sets[1..];
      assert sets == [sets[0]] + rest && sets[0] !in rest;
      MembersCount(rest);
      assert Members(sets) == {sets[0]} + Members(rest);
    }
  }

  ghost predicate Room(t: Tables, lines: seq<Line>) {
    && |Members(t.sets) + Mentioned(t.cur, lines)| <= MAX_SETS
    && |t.msgs| + MessagesIn(lines) <= MAX_MSGS && |t.strings| + BytesIn(lines) <= MAX_STRINGS
  }

  lemma AddSetKeeps(sets: seq<int32>, id: int32)
    requires Distinct(sets) && |sets| <= MAX_SETS
    ensures AddSet(sets, id).Some? ==> Distinct(AddSet(sets, id).value) && |AddSet(sets, id).value| <= MAX_SETS
  {}

  lemma {:induction false} AddSetMembers(sets: seq<int32>, id: int32, more: set<int32>)
    requires Distinct(sets) && |sets| <= MAX_SETS
    ensures AddSet(sets, id).Some? ==> Members(AddSet(sets, id).value) + more == Members(sets) + ({id} + more)
    ensures AddSet(sets, id).None? ==> |Members(sets) + ({id} + more)| > MAX_SETS
  {
    hide Distinct;
    MembersCount(sets);
    var all := Members(sets) + ({id} + more);
    if id in sets {
      assert all == Members(sets) + more;
    } else {
      assert Members(sets + [id]) == Members(sets) + {id};
      assert all == Members(sets) + {id} + more;
      SubsetSize(Members(sets) + {id}, all);
    }
  }

  /** It stops exactly if there are too many sets, messages or bytes in all. */
  lemma {:induction false} FeedAllIff(t: Tables, lines: seq<Line>)
    requires Distinct(t.sets) && |t.sets| <= MAX_SETS && |t.msgs| <= MAX_MSGS && |t.strings| <= MAX_STRINGS
    ensures FeedAll(t, lines).Some? <==> Room(t, lines)
    decreases |lines|
  {
    hide AddSet, Members, Distinct;
    if lines == [] {
      MembersCount(t.sets);
      assert Members(t.sets) + {} == Members(t.sets);
    } else {
      var rest := lines[1..];
      match lines[0] {
        case NewFile =>
          FeedAllIff(t.(cur := 1), rest);
        case SetLine(id) =>
          AddSetKeeps(t.sets, id);
          AddSetMembers(t.sets, id, Mentioned(id, rest));
          if AddSet(t.sets, id).Some? { FeedAllIff(Feed(t, lines[0]).value, rest); }
        case Message(_, _) =>
          AddSetKeeps(t.sets, t.cur);
          AddSetMembers(t.sets, t.cur, Mentioned(t.cur, rest));
          if Feed(t, lines[0]).Some? { FeedAllIff(Feed(t, lines[0]).value, rest); }
      }
    }
  }
}
