/** How a tree lies in the node pool of programs/sh.c. */
module ShellArena {
  import opened Options
  import opened ShellSyntax

  /** A pointer into the node pool; None is NULL. */
  type Ptr = Option<nat>

  datatype Kind =
    | SimpleNode | BinaryNode(op: BinOp) | GroupNode(shape: Shape) | IfNode | WhileNode | ForNode

  datatype Node = Node(
    kind: Kind, args: seq<string>, redirs: seq<Redir>,
    left: Ptr, right: Ptr, body: Ptr, elsePart: Ptr,
    forVar: string, forWords: seq<string>)

  /** A node just cleared by alloc_node. */
  function Blank(kind: Kind): Node {
    Node(kind, [], [], None, None, None, None, "", [])
  }

  /** The four pointer fields of a node. */
  function Kids(n: Node): seq<Ptr> { [n.left, n.right, n.body, n.elsePart] }

  /** The subtrees those four fields lead to. */
  function Children(a: Ast): (cs: seq<Ast>)
    ensures |cs| == 4
  {
    match a
    case Binary(_, l, r) => [l, r, Nothing, Nothing]
    case Group(_, b) => [Nothing, Nothing, b, Nothing]
    case If(c, t, e) => [c, t, Nothing, e]
    case While(c, b) => [c, b, Nothing, Nothing]
    case For(_, _, b) => [Nothing, b, Nothing, Nothing]
    case _ => [Nothing, Nothing, Nothing, Nothing]
  }

  function ForestSize(cs: seq<Ast>): nat {
    if cs == [] then 0 else Size(cs[0]) + ForestSize(cs[1..])
  }

  lemma {:induction false} ForestOfFour(a: Ast, b: Ast, c: Ast, d: Ast)
    ensures ForestSize([a, b, c, d]) == Size(a) + Size(b) + Size(c) + Size(d)
  {
    assert [a, b, c, d][1..] == [b, c, d] && [b, c, d][1..] == [c, d] && [c, d][1..] == [d];
    assert ForestSize([d]) == Size(d);
    assert ForestSize([c, d]) == Size(c) + Size(d);
  }

  lemma {:induction false} SizeByChildren(a: Ast)
    requires !a.Nothing?
    ensures Size(a) == 1 + ForestSize(Children(a))
  {
    var cs := Children(a);
    ForestOfFour(cs[0], cs[1], cs[2], cs[3]);
    assert cs == [cs[0], cs[1], cs[2], cs[3]];
  }

  /** What a tree's node holds besides its pointers. */
  function Label(a: Ast): Node
    requires !a.Nothing?
  {
    match a
    case Simple(args, redirs) => Blank(SimpleNode).(args := args, redirs := redirs)
    case Binary(op, _, _) => Blank(BinaryNode(op))
    case Group(shape, _) => Blank(GroupNode(shape))
    case If(_, _, _) => Blank(IfNode)
    case While(_, _) => Blank(WhileNode)
    case For(name, words, _) => Blank(ForNode).(forVar := name, forWords := words)
  }

  /** The pointer to the root of a tree that fills the pool from `lo` on: a binary node is
      allocated after its operands, every other node before its children. */
  function PtrTo(a: Ast, lo: nat): Ptr {
    if a.Nothing? then None
    else if a.Binary? then Some(lo + Size(a.left) + Size(a.right))
    else Some(lo)
  }

  /** The pointers to trees that lie side by side from `at` on. */
  function PtrsTo(cs: seq<Ast>, at: nat): (ps: seq<Ptr>)
    ensures |ps| == |cs|
  {
    if cs == [] then [] else [PtrTo(cs[0], at)] + PtrsTo(cs[1..], at + Size(cs[0]))
  }

  /** The node of a tree whose children fill the pool from `at` on. */
  function RootNode(a: Ast, at: nat): Node
    requires !a.Nothing?
  {
    var ps := PtrsTo(Children(a), at);
    Label(a).(left := ps[0], right := ps[1], body := ps[2], elsePart := ps[3])
  }

  /** The pool contents that stand for a tree, from index `lo` on, without gaps. */
  function Layout(a: Ast, lo: nat): (s: seq<Node>)
    ensures |s| == Size(a)
    decreases Size(a), 0
  {
    if a.Nothing? then []
    else
      SizeByChildren(a);
      if a.Binary? then Layouts(Children(a), lo) + [RootNode(a, lo)]
      else [RootNode(a, lo + 1)] + Layouts(Children(a), lo + 1)
  }

  function Layouts(cs: seq<Ast>, at: nat): (s: seq<Node>)
    ensures |s| == ForestSize(cs)
    decreases ForestSize(cs), |cs| + 1
  {
    if cs == [] then [] else Layout(cs[0], at) + Layouts(cs[1..], at + Size(cs[0]))
  }

  /** The pool has the nodes `s` from `lo` on. */
  ghost predicate HasAt(pool: seq<Node>, s: seq<Node>, lo: nat) {
    lo + |s| <= |pool| && pool[lo..lo + |s|] == s
  }

  lemma {:induction false} SplitAt(pool: seq<Node>, s: seq<Node>, t: seq<Node>, lo: nat)
    requires HasAt(pool, s + t, lo)
    ensures HasAt(pool, s, lo) && HasAt(pool, t, lo + |s|)
  {
    var u := pool[lo..lo + |s + t|];
    assert u[..|s|] == s && u[|s|..] == t;
    assert u[..|s|] == pool[lo..lo + |s|];
    assert u[|s|..] == pool[lo + |s|..lo + |s + t|];
  }

  lemma {:induction false} JoinAt(pool: seq<Node>, s: seq<Node>, t: seq<Node>, lo: nat)
    requires HasAt(pool, s, lo) && HasAt(pool, t, lo + |s|)
    ensures HasAt(pool, s + t, lo)
  {
    assert pool[lo..lo + |s|] + pool[lo + |s|..lo + |s| + |t|] == pool[lo..lo + |s + t|];
  }

  /** Writing behind `mid` does not disturb what lies before it. */
  lemma {:induction false} HasAtPrefix(pool: seq<Node>, pool': seq<Node>, s: seq<Node>, lo: nat, mid: nat)
    requires HasAt(pool, s, lo) && lo + |s| <= mid <= |pool| && mid <= |pool'|
    requires pool[..mid] == pool'[..mid]
    ensures HasAt(pool', s, lo)
  {
    assert pool[lo..lo + |s|] == pool[..mid][lo..lo + |s|] == pool'[lo..lo + |s|];
  }

  lemma {:induction false} HasAtUpdate(pool: seq<Node>, s: seq<Node>, lo: nat, n: nat, node: Node)
    requires HasAt(pool, s, lo) && n < lo <= |pool|
    ensures HasAt(pool[n := node], s, lo)
  {
    assert pool[n := node][lo..lo + |s|] == pool[lo..lo + |s|];
  }

  lemma {:induction false} HasOne(pool: seq<Node>, n: nat)
    requires n < |pool|
    ensures HasAt(pool, [pool[n]], n)
  {}

  lemma {:induction false} ConsForest(pool: seq<Node>, a: Ast, rest: seq<Ast>, at: nat)
    requires HasAt(pool, Layout(a, at), at) && HasAt(pool, Layouts(rest, at + Size(a)), at + Size(a))
    ensures HasAt(pool, Layouts([a] + rest, at), at)
  {
    JoinAt(pool, Layout(a, at), Layouts(rest, at + Size(a)), at);
    assert ([a] + rest)[1..] == rest;
  }

  lemma {:induction false} TwoForest(pool: seq<Node>, c: Ast, d: Ast, at: nat)
    requires HasAt(pool, Layout(c, at), at) && HasAt(pool, Layout(d, at + Size(c)), at + Size(c))
    ensures HasAt(pool, Layouts([c, d], at), at)
  {
    hide Layout;
    assert [c] + [d] == [c, d] && [d] + [] == [d];
    ConsForest(pool, d, [], at + Size(c));
    ConsForest(pool, c, [d], at);
  }

  lemma {:induction false} FourForest(pool: seq<Node>, a: Ast, b: Ast, c: Ast, d: Ast, at: nat)
    requires HasAt(pool, Layout(a, at), at)
    requires var i := at + Size(a);
             && HasAt(pool, Layout(b, i), i)
             && HasAt(pool, Layouts([c, d], i + Size(b)), i + Size(b))
    ensures HasAt(pool, Layouts([a, b, c, d], at), at)
  {
    hide Layout, Layouts, HasAt;
    assert [b] + [c, d] == [b, c, d] && [a] + [b, c, d] == [a, b, c, d];
    ConsForest(pool, b, [c, d], at + Size(a));
    ConsForest(pool, a, [b, c, d], at);
  }

  lemma {:induction false} ConsPtrs(a: Ast, rest: seq<Ast>, at: nat)
    ensures PtrsTo([a] + rest, at) == [PtrTo(a, at)] + PtrsTo(rest, at + Size(a))
  {
    assert ([a] + rest)[1..] == rest;
  }

  lemma {:induction false} FourPtrs(a: Ast, b: Ast, c: Ast, d: Ast, at: nat)
    ensures var i := at + Size(a);
            var j := i + Size(b);
            PtrsTo([a, b, c, d], at) == [PtrTo(a, at), PtrTo(b, i), PtrTo(c, j), PtrTo(d, j + Size(c))]
  {
    hide PtrTo, Size;
    assert [c] + [d] == [c, d] && [b] + [c, d] == [b, c, d] && [a] + [b, c, d] == [a, b, c, d];
    var i := at + Size(a);
    var j := i + Size(b);
    ConsPtrs(d, [], j + Size(c));
    ConsPtrs(c, [d], j);
    ConsPtrs(b, [c, d], i);
    ConsPtrs(a, [b, c, d], at);
  }

  /** The node of a tree, pointer by pointer. */
  lemma {:induction false} RootNodeFields(a: Ast, at: nat)
    requires !a.Nothing?
    ensures var cs := Children(a);
            var i := at + Size(cs[0]);
            var j := i + Size(cs[1]);
            RootNode(a, at) == Label(a).(left := PtrTo(cs[0], at), right := PtrTo(cs[1], i), body := PtrTo(cs[2], j),
                                         elsePart := PtrTo(cs[3], j + Size(cs[2])))
  {
    var cs := Children(a);
    assert cs == [cs[0], cs[1], cs[2], cs[3]];
    FourPtrs(cs[0], cs[1], cs[2], cs[3], at);
  }

  /** Where the second, third and fourth child lie. */
  lemma {:induction false} Offsets(a: Ast, b: Ast, c: Ast)
    ensures ForestSize([]) == 0 && ForestSize([a]) == Size(a)
    ensures ForestSize([a, b]) == Size(a) + Size(b) && ForestSize([a, b, c]) == Size(a) + Size(b) + Size(c)
  {
    hide Size;
    assert [a, b, c][1..] == [b, c] && [a, b][1..] == [b] && [b, c][1..] == [c];
    OneTree(a);
    OneTree(b);
    OneTree(c);
    assert ForestSize([b, c]) == Size(b) + ForestSize([c]);
  }

  lemma {:induction false} OneTree(a: Ast)
    ensures ForestSize([a]) == Size(a)
  {
    hide Size;
    assert [a][1..] == [];
  }

  lemma {:induction false} GroupRoot(shape: Shape, b: Ast, at: nat)
    ensures RootNode(Group(shape, b), at)
        == Blank(GroupNode(shape)).(body := PtrTo(b, at + ForestSize([Nothing, Nothing])))
  {
    RootNodeFields(Group(shape, b), at);
    Offsets(Nothing, Nothing, b);
  }

  lemma {:induction false} WhileRoot(c: Ast, b: Ast, at: nat)
    ensures RootNode(While(c, b), at)
         == Blank(WhileNode).(left := PtrTo(c, at + ForestSize([])), right := PtrTo(b, at + ForestSize([c])))
  {
    RootNodeFields(While(c, b), at);
    Offsets(c, b, Nothing);
  }

  lemma {:induction false} IfRoot(c: Ast, t: Ast, e: Ast, at: nat)
    ensures RootNode(If(c, t, e), at)
         == Blank(IfNode).(left := PtrTo(c, at + ForestSize([])), right := PtrTo(t, at + ForestSize([c])),
                           elsePart := PtrTo(e, at + ForestSize([c, t, Nothing])))
  {
    RootNodeFields(If(c, t, e), at);
    Offsets(c, t, Nothing);
  }

  lemma {:induction false} ForRoot(name: string, words: seq<string>, b: Ast, at: nat)
    ensures RootNode(For(name, words, b), at)
         == Blank(ForNode).(forVar := name, forWords := words, right := PtrTo(b, at + ForestSize([Nothing])))
  {
    RootNodeFields(For(name, words, b), at);
    Offsets(Nothing, b, Nothing);
  }

  /** A tree is in place when its node and its children are. */
  lemma {:induction false} PlaceTree(pool: seq<Node>, a: Ast, lo: nat, root: nat, at: nat)
    requires PtrTo(a, lo) == Some(root) && at == if a.Binary? then lo else lo + 1
    requires HasAt(pool, Layouts(Children(a), at), at)
    requires root < |pool| && pool[root] == RootNode(a, at)
    ensures HasAt(pool, Layout(a, lo), lo)
  {
    HasOne(pool, root);
    SizeByChildren(a);
    if a.Binary? {
      JoinAt(pool, Layouts(Children(a), at), [RootNode(a, at)], lo);
    } else {
      JoinAt(pool, [RootNode(a, at)], Layouts(Children(a), at), lo);
    }
  }

  /** The same, spelled out for the four subtrees. */
  lemma {:induction false} Place(pool: seq<Node>, t: Ast, lo: nat, root: nat, a: Ast, b: Ast, c: Ast, d: Ast)
    requires !t.Nothing? && PtrTo(t, lo) == Some(root) && Children(t) == [a, b, c, d]
    requires var at := if t.Binary? then lo else lo + 1;
             var i := at + Size(a);
             var j := i + Size(b);
             && HasAt(pool, Layout(a, at), at) && HasAt(pool, Layout(b, i), i)
             && HasAt(pool, Layout(c, j), j) && HasAt(pool, Layout(d, j + Size(c)), j + Size(c))
             && root < |pool|
             && pool[root] == Label(t).(left := PtrTo(a, at), right := PtrTo(b, i), body := PtrTo(c, j),
                                        elsePart := PtrTo(d, j + Size(c)))
    ensures HasAt(pool, Layout(t, lo), lo)
  {
    hide Layout, Layouts, HasAt, Size;
    var at := if t.Binary? then lo else lo + 1;
    assert HasAt(pool, Layouts(Children(t), at), at) by {
      TwoForest(pool, c, d, at + Size(a) + Size(b));
      FourForest(pool, a, b, c, d, at);
    }
    assert pool[root] == RootNode(t, at) by {
      var cs := Children(t);
      assert cs[0] == a && cs[1] == b && cs[2] == c && cs[3] == d;
      RootNodeFields(t, at);
    }
    PlaceTree(pool, t, lo, root, at);
  }

  /** Two trees side by side and a node over them make a binary tree. */
  lemma {:induction false} PlaceBinary(was: seq<Node>, pool: seq<Node>, op: BinOp, l: Ast, r: Ast, lo: nat, n: nat)
    requires HasAt(was, Layout(l, lo), lo) && HasAt(was, Layout(r, lo + Size(l)), lo + Size(l))
    requires n == lo + Size(l) + Size(r) < |was|
    requires pool == was[n := Blank(BinaryNode(op)).(left := PtrTo(l, lo), right := PtrTo(r, lo + Size(l)))]
    ensures HasAt(pool, Layout(Binary(op, l, r), lo), lo)
    ensures pool[..lo] == was[..lo]
  {
    hide Layout;
    assert pool[..n] == was[..n];
    HasAtPrefix(was, pool, Layout(l, lo), lo, n);
    HasAtPrefix(was, pool, Layout(r, lo + Size(l)), lo + Size(l), n);
    HasNothing(pool, n);
    Place(pool, Binary(op, l, r), lo, n, l, r, Nothing, Nothing);
  }

  /** A cleared node is a tree of its own once its arguments are in. */
  lemma {:induction false} PlaceSimple(pool: seq<Node>, args: seq<string>, redirs: seq<Redir>, lo: nat)
    requires lo < |pool| && pool[lo] == Blank(SimpleNode).(args := args, redirs := redirs)
    ensures HasAt(pool, Layout(Simple(args, redirs), lo), lo)
  {
    hide Layout;
    HasNothing(pool, lo + 1);
    Place(pool, Simple(args, redirs), lo, lo, Nothing, Nothing, Nothing, Nothing);
  }

  /** One more tree behind a row of trees. */
  lemma {:induction false} AppendForest(cs: seq<Ast>, c: Ast, at: nat)
    ensures ForestSize(cs + [c]) == ForestSize(cs) + Size(c)
    ensures Layouts(cs + [c], at) == Layouts(cs, at) + Layout(c, at + ForestSize(cs))
    decreases |cs|
  {
    hide Layout, Size;
    if cs == [] {
      assert [c][1..] == [];
      assert Layouts([c], at) == Layout(c, at) + Layouts([], at + Size(c));
    } else {
      var first := Layout(cs[0], at);
      AppendForest(cs[1..], c, at + Size(cs[0]));
      assert (cs + [c])[1..] == cs[1..] + [c];
      assert Layouts(cs + [c], at) == first + Layouts(cs[1..] + [c], at + Size(cs[0]));
      assert Layouts(cs, at) == first + Layouts(cs[1..], at + Size(cs[0]));
    }
  }

  lemma {:induction false} AppendInPlace(pool: seq<Node>, cs: seq<Ast>, c: Ast, at: nat)
    requires HasAt(pool, Layouts(cs, at), at)
    requires HasAt(pool, Layout(c, at + ForestSize(cs)), at + ForestSize(cs))
    ensures HasAt(pool, Layouts(cs + [c], at), at)
  {
    hide Layout, Layouts, HasAt;
    AppendForest(cs, c, at);
    JoinAt(pool, Layouts(cs, at), Layout(c, at + ForestSize(cs)), at);
  }

  lemma {:induction false} FitsForest(pool: seq<Node>, cs: seq<Ast>, at: nat)
    requires HasAt(pool, Layouts(cs, at), at)
    ensures at + ForestSize(cs) <= |pool|
  {}

  lemma {:induction false} LayoutFits(pool: seq<Node>, a: Ast, lo: nat)
    requires HasAt(pool, Layout(a, lo), lo)
    ensures lo + Size(a) <= |pool|
  {}

  lemma {:induction false} HasNothing(pool: seq<Node>, at: nat)
    requires at <= |pool|
    ensures HasAt(pool, Layout(Nothing, at), at) && PtrTo(Nothing, at) == None
  {}

  // ------------------------------------------------------------------
  // What a walk over the pointers meets
  // ------------------------------------------------------------------

  /** How often a walk that follows every pointer from `p`, at most `depth` levels down, meets
      node `i`. It knows nothing of trees: shared nodes are met again, and cycles go round. */
  function Met(pool: seq<Node>, p: Ptr, depth: nat, i: nat): nat
    decreases depth, 0
  {
    if p.None? || depth == 0 then 0
    else
      Within(p.value, i, p.value + 1)
      + (if p.value < |pool| then MetAll(pool, Kids(pool[p.value]), depth - 1, i) else 0)
  }

  function MetAll(pool: seq<Node>, ps: seq<Ptr>, depth: nat, i: nat): nat
    decreases depth, |ps| + 1
  {
    if ps == [] then 0 else Met(pool, ps[0], depth, i) + MetAll(pool, ps[1..], depth, i)
  }

  function Within(lo: nat, i: nat, hi: nat): nat { if lo <= i < hi then 1 else 0 }

  /** A tree's root and its children are held side by side. */
  lemma {:induction false} SplitTree(pool: seq<Node>, a: Ast, lo: nat) returns (root: nat, at: nat)
    requires HasAt(pool, Layout(a, lo), lo) && !a.Nothing?
    ensures PtrTo(a, lo) == Some(root)
    ensures HasAt(pool, Layouts(Children(a), at), at)
    ensures root < |pool| && pool[root] == RootNode(a, at) && Kids(pool[root]) == PtrsTo(Children(a), at)
    ensures Size(a) == 1 + ForestSize(Children(a))
    ensures (root == lo && at == lo + 1) || (at == lo && root == lo + ForestSize(Children(a)))
  {
    hide Layouts, HasAt, ForestSize, Size, Children, RootNode;
    SizeByChildren(a);
    RootPoints(a, if a.Binary? then lo else lo + 1);
    var cs := Children(a);
    if a.Binary? {
      at := lo;
      root := lo + ForestSize(cs);
      ForestOfFour(a.left, a.right, Nothing, Nothing);
      SplitAt(pool, Layouts(cs, at), [RootNode(a, at)], lo);
    } else {
      at := lo + 1;
      root := lo;
      SplitAt(pool, [RootNode(a, at)], Layouts(cs, at), lo);
    }
    HasNode(pool, RootNode(a, at), root);
  }

  lemma HasNode(pool: seq<Node>, node: Node, at: nat)
    requires HasAt(pool, [node], at)
    ensures at < |pool| && pool[at] == node
  {
    assert pool[at] == pool[at..at + 1][0];
  }

  lemma RootPoints(a: Ast, at: nat)
    requires !a.Nothing?
    ensures Kids(RootNode(a, at)) == PtrsTo(Children(a), at)
    ensures a.Binary? ==> Children(a) == [a.left, a.right, Nothing, Nothing]
  {}

  lemma {:induction false} MetRoot(pool: seq<Node>, root: nat, depth: nat, i: nat)
    requires root < |pool| && depth > 0
    ensures Met(pool, Some(root), depth, i) == Within(root, i, root + 1) + MetAll(pool, Kids(pool[root]), depth - 1, i)
  {}

  /** The walk from a tree's root meets each node of its interval exactly once and no other
      node, however deep it is allowed to go: no sharing, no cycle, no leak. */
  lemma {:induction false} WalkIsInterval(pool: seq<Node>, a: Ast, lo: nat, depth: nat, i: nat)
    requires HasAt(pool, Layout(a, lo), lo)
    requires depth >= Size(a)
    ensures Met(pool, PtrTo(a, lo), depth, i) == Within(lo, i, lo + Size(a))
    decreases Size(a), 0
  {
    hide Layout, Layouts, HasAt, Children, Kids, PtrsTo, MetAll, ForestSize;
    if !a.Nothing? {
      var root, at := SplitTree(pool, a, lo);
      WalkForest(pool, Children(a), at, depth - 1, i);
      MetRoot(pool, root, depth, i);
    }
  }

  lemma {:induction false} MetFirst(pool: seq<Node>, p: Ptr, ps: seq<Ptr>, depth: nat, i: nat)
    ensures MetAll(pool, [p] + ps, depth, i) == Met(pool, p, depth, i) + MetAll(pool, ps, depth, i)
  {
    assert ([p] + ps)[1..] == ps;
  }

  lemma {:induction false} WalkForest(pool: seq<Node>, cs: seq<Ast>, at: nat, depth: nat, i: nat)
    requires HasAt(pool, Layouts(cs, at), at)
    requires depth >= ForestSize(cs)
    ensures MetAll(pool, PtrsTo(cs, at), depth, i) == Within(at, i, at + ForestSize(cs))
    decreases ForestSize(cs), |cs| + 1
  {
    hide Layout, Met;
    if cs != [] {
      var a, next := cs[0], at + Size(cs[0]);
      SplitAt(pool, Layout(a, at), Layouts(cs[1..], next), at);
      var first, others := PtrTo(a, at), PtrsTo(cs[1..], next);
      assert Met(pool, first, depth, i) == Within(at, i, next) by { WalkIsInterval(pool, a, at, depth, i); }
      assert MetAll(pool, others, depth, i) == Within(next, i, at + ForestSize(cs)) by {
        WalkForest(pool, cs[1..], next, depth, i);
      }
      assert PtrsTo(cs, at) == [first] + others;
      MetFirst(pool, first, others, depth, i);
    }
  }

  // ------------------------------------------------------------------
  // What run_node sees
  // ------------------------------------------------------------------

  /** The tree that the fields of the nodes mean to run_node, to a depth. */
  function TreeAt(pool: seq<Node>, p: Ptr, depth: nat): Ast
    decreases depth
  {
    if p.None? || depth == 0 || p.value >= |pool| then Nothing
    else
      var n := pool[p.value];
      match n.kind
      case SimpleNode => Simple(n.args, n.redirs)
      case BinaryNode(op) => Binary(op, TreeAt(pool, n.left, depth - 1), TreeAt(pool, n.right, depth - 1))
      case GroupNode(shape) => Group(shape, TreeAt(pool, n.body, depth - 1))
      case IfNode =>
        If(TreeAt(pool, n.left, depth - 1), TreeAt(pool, n.right, depth - 1), TreeAt(pool, n.elsePart, depth - 1))
      case WhileNode => While(TreeAt(pool, n.left, depth - 1), TreeAt(pool, n.right, depth - 1))
      case ForNode => For(n.forVar, n.forWords, TreeAt(pool, n.right, depth - 1))
  }

  lemma {:induction false} SplitForest(pool: seq<Node>, a: Ast, rest: seq<Ast>, at: nat)
    requires HasAt(pool, Layouts([a] + rest, at), at)
    ensures HasAt(pool, Layout(a, at), at) && HasAt(pool, Layouts(rest, at + Size(a)), at + Size(a))
  {
    hide Layout;
    assert ([a] + rest)[1..] == rest;
    SplitAt(pool, Layout(a, at), Layouts(rest, at + Size(a)), at);
  }

  lemma {:induction false} SplitFour(pool: seq<Node>, a: Ast, b: Ast, c: Ast, d: Ast, at: nat)
    requires HasAt(pool, Layouts([a, b, c, d], at), at)
    ensures var i := at + Size(a);
            var j := i + Size(b);
            var k := j + Size(c);
            && HasAt(pool, Layout(a, at), at) && HasAt(pool, Layout(b, i), i)
            && HasAt(pool, Layout(c, j), j) && HasAt(pool, Layout(d, k), k)
  {
    hide Layout, Layouts, HasAt;
    assert [c] + [d] == [c, d] && [b] + [c, d] == [b, c, d] && [a] + [b, c, d] == [a, b, c, d] && [d] + [] == [d];
    SplitForest(pool, a, [b, c, d], at);
    SplitForest(pool, b, [c, d], at + Size(a));
    SplitForest(pool, c, [d], at + Size(a) + Size(b));
    SplitForest(pool, d, [], at + Size(a) + Size(b) + Size(c));
  }

  /** Every child of a tree is there, too, and the pointers lead to them. */
  lemma {:induction false} ChildrenThere(pool: seq<Node>, a: Ast, lo: nat, depth: nat) returns (root: nat)
    requires HasAt(pool, Layout(a, lo), lo) && !a.Nothing? && depth >= Size(a)
    ensures PtrTo(a, lo) == Some(root) && root < |pool| && depth > 0
    ensures var n, cs := pool[root], Children(a);
            && n == Label(a).(left := n.left, right := n.right, body := n.body, elsePart := n.elsePart)
            && TreeAt(pool, n.left, depth - 1) == cs[0] && TreeAt(pool, n.right, depth - 1) == cs[1]
            && TreeAt(pool, n.body, depth - 1) == cs[2] && TreeAt(pool, n.elsePart, depth - 1) == cs[3]
    decreases Size(a), 0
  {
    hide Layout, Layouts, HasAt, Children, TreeAt, PtrTo, ForestSize, Label;
    var at;
    root, at := SplitTree(pool, a, lo);
    var cs := Children(a);
    assert cs == [cs[0], cs[1], cs[2], cs[3]];
    ForestOfFour(cs[0], cs[1], cs[2], cs[3]);
    SplitFour(pool, cs[0], cs[1], cs[2], cs[3], at);
    RootNodeFields(a, at);
    var i := at + Size(cs[0]);
    var j := i + Size(cs[1]);
    TreeComesBack(pool, cs[0], at, depth - 1);
    TreeComesBack(pool, cs[1], i, depth - 1);
    TreeComesBack(pool, cs[2], j, depth - 1);
    TreeComesBack(pool, cs[3], j + Size(cs[2]), depth - 1);
  }

  /** A tree that lies in the pool is the tree that run_node finds there. */
  lemma {:induction false} TreeComesBack(pool: seq<Node>, a: Ast, lo: nat, depth: nat)
    requires HasAt(pool, Layout(a, lo), lo) && depth >= Size(a)
    ensures TreeAt(pool, PtrTo(a, lo), depth) == a
    decreases Size(a), 1
  {
    hide Layout, HasAt;
    if !a.Nothing? { var root := ChildrenThere(pool, a, lo, depth); }
  }
}
