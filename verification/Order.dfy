/** The order in which both the dependency documents and the directory walk list their names. */
module Order {
  import opened Sequences

  /** Strings compare by their characters, a prefix first. */
  predicate Less(a: string, b: string) {
    b != "" && (a == "" || a[0] < b[0] || (a[0] == b[0] && Less(a[1..], b[1..])))
  }

  /** One string comes before another exactly if it is a part of its front, or has the smaller character
      where they first differ. */
  lemma {:induction false} LessIff(a: string, b: string)
    ensures Less(a, b) <==> a < b || exists i :: 0 <= i < |a| && i < |b| && a[..i] == b[..i] && a[i] < b[i]
    decreases |a|
  {
    if a != "" && b != "" && a[0] == b[0] {
      var a', b' := a[1..], b[1..];
      LessIff(a', b');
      assert a == [a[0]] + a' && b == [b[0]] + b';
      if i :| 0 <= i < |a'| && i < |b'| && a'[..i] == b'[..i] && a'[i] < b'[i] {
        assert a[..i + 1] == [a[0]] + a'[..i] && b[..i + 1] == [b[0]] + b'[..i];
        assert a[i + 1] < b[i + 1];
      }
      if i :| 0 <= i < |a| && i < |b| && a[..i] == b[..i] && a[i] < b[i] {
        assert a'[..i - 1] == a[..i][1..] && b'[..i - 1] == b[..i][1..];
        assert a'[i - 1] < b'[i - 1];
      }
      assert a < b <==> a' < b';
    } else if a != "" && b != "" && a[0] < b[0] {
      assert a[..0] == b[..0];
    }
  }

  lemma {:induction false} LessTransitive(a: string, b: string, c: string)
    requires Less(a, b) && Less(b, c)
    ensures Less(a, c)
    decreases |a|
  {
    if a != "" && a[0] == b[0] == c[0] { LessTransitive(a[1..], b[1..], c[1..]); }
  }

  lemma {:induction false} LessIrreflexive(a: string)
    ensures !Less(a, a)
    decreases |a|
  {
    if a != "" { LessIrreflexive(a[1..]); }
  }

  ghost predicate StrictlySorted(names: seq<string>) {
    forall i, j :: 0 <= i < j < |names| ==> Less(names[i], names[j])
  }

  /** A strictly sorted list is determined by its elements. */
  lemma {:induction false} SortedIsUnique(a: seq<string>, b: seq<string>)
    requires StrictlySorted(a) && StrictlySorted(b) && forall x :: x in a <==> x in b
    ensures a == b
    decreases |a|
  {
    assert a != [] ==> a[0] in a;
    assert b != [] ==> b[0] in b;
    if a != [] && b != [] {
      FirstIsEqual(a, b);
      forall x ensures x in a[1..] <==> x in b[1..] {
        NotAgain(a, x);
        NotAgain(b, x);
        assert a == [a[0]] + a[1..] && b == [b[0]] + b[1..];
        assert x in a <==> x == a[0] || x in a[1..];
        assert x in b <==> x == b[0] || x in b[1..];
      }
      SortedIsUnique(a[1..], b[1..]);
      assert a == [a[0]] + a[1..] && b == [b[0]] + b[1..];
    }
  }

  lemma {:induction false} NotAgain(a: seq<string>, x: string)
    requires StrictlySorted(a) && a != []
    ensures x in a[1..] ==> x != a[0]
  {
    if x in a[1..] {
      var i :| 0 <= i < |a[1..]| && a[1..][i] == x;
      assert Less(a[0], a[i + 1]);
      LessIrreflexive(x);
    }
  }

  lemma {:induction false} FirstIsEqual(a: seq<string>, b: seq<string>)
    requires StrictlySorted(a) && StrictlySorted(b) && a != [] && b != []
    requires forall x :: x in a <==> x in b
    ensures a[0] == b[0]
  {
    assert a[0] in b && b[0] in a;
    var j :| 0 <= j < |b| && b[j] == a[0];
    var i :| 0 <= i < |a| && a[i] == b[0];
    if i > 0 && j > 0 {
      LessTransitive(a[0], a[i], a[0]);
      LessIrreflexive(a[0]);
    }
  }

  lemma {:induction false} LessTotal(a: string, b: string)
    ensures a == b || Less(a, b) || Less(b, a)
    decreases |a|
  {
    if a != "" && b != "" && a[0] == b[0] {
      LessTotal(a[1..], b[1..]);
      assert a == [a[0]] + a[1..] && b == [b[0]] + b[1..];
    }
  }

  /** Where `x` belongs among sorted names. */
  function Insert(x: string, s: seq<string>): seq<string> {
    if s == [] || Less(x, s[0]) then [x] + s else [s[0]] + Insert(x, s[1..])
  }

  /** Sorting by comparison. */
  function Sort(s: seq<string>): seq<string> {
    if s == [] then [] else Insert(s[0], Sort(s[1..]))
  }

  lemma {:induction false} InsertSorts(x: string, s: seq<string>)
    requires StrictlySorted(s) && x !in s
    ensures StrictlySorted(Insert(x, s)) && forall y :: y in Insert(x, s) <==> y == x || y in s
    decreases |s|
  {
    if s == [] {
    } else if Less(x, s[0]) {
      forall j | 0 <= j < |s| ensures Less(x, s[j]) {
        if j > 0 { LessTransitive(x, s[0], s[j]); }
      }
    } else {
      LessTotal(x, s[0]);
      assert forall y :: y in s <==> y == s[0] || y in s[1..] by { assert s == [s[0]] + s[1..]; }
      InsertSorts(x, s[1..]);
      var t := Insert(x, s[1..]);
      forall j | 0 <= j < |t| ensures Less(s[0], t[j]) {
        assert t[j] in t;
        if t[j] != x {
          var k :| 0 <= k < |s[1..]| && s[1..][k] == t[j];
          assert Less(s[0], s[k + 1]);
        }
      }
    }
  }

  /** Sorting distinct names gives the strictly sorted list of them, whatever their order was. */
  lemma {:induction false} SortSorts(s: seq<string>)
    requires Distinct(s)
    ensures StrictlySorted(Sort(s)) && forall y :: y in Sort(s) <==> y in s
    decreases |s|
  {
    if s != [] {
      assert forall y :: y in s <==> y == s[0] || y in s[1..] by { assert s == [s[0]] + s[1..]; }
      SortSorts(s[1..]);
      assert s[0] !in s[1..];
      InsertSorts(s[0], Sort(s[1..]));
    }
  }

  lemma {:induction false} InsertLength(x: string, s: seq<string>)
    ensures |Insert(x, s)| == |s| + 1
    decreases |s|
  {
    if s != [] && !Less(x, s[0]) { InsertLength(x, s[1..]); }
  }

  lemma {:induction false} SortLength(s: seq<string>)
    ensures |Sort(s)| == |s|
    decreases |s|
  {
    if s != [] {
      SortLength(s[1..]);
      InsertLength(s[0], Sort(s[1..]));
    }
  }

  lemma {:induction false} SortForgetsOrder(s: seq<string>, t: seq<string>)
    requires Distinct(s) && Distinct(t) && forall y :: y in s <==> y in t
    ensures Sort(s) == Sort(t)
  {
    SortSorts(s);
    SortSorts(t);
    SortedIsUnique(Sort(s), Sort(t));
  }
}
