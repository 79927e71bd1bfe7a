/** The dependency search of scripts/homebrew-formula-runtime-closure.rb: a depth-first walk with
    three colours that collects a Formula's runtime closure or names a cycle. */
module RuntimeClosure {
  import opened Options
  import opened Sequences

  const MAX_DEPENDENCIES: nat := 128

  /** The tap: what parse_formula returns for a name (None: it aborts), and the Formula asked for.
      Nothing says that the names are finitely many. */
  datatype Tap = Tap(deps: string -> Option<seq<string>>, target: string)

  ghost predicate Edge(g: Tap, x: string, d: string) { g.deps(x).Some? && d in g.deps(x).value }

  ghost predicate IsPath(g: Tap, p: seq<string>) {
    p != [] && forall i :: 0 <= i < |p| - 1 ==> Edge(g, p[i], p[i + 1])
  }

  ghost predicate PathFromTo(g: Tap, p: seq<string>, x: string, y: string) {
    IsPath(g, p) && p[0] == x && p[|p| - 1] == y
  }

  /** `x` can be reached from the target by `steps` or more edges. */
  ghost predicate Reachable(g: Tap, x: string, steps: nat) {
    exists p :: PathFromTo(g, p, g.target, x) && |p| > steps
  }

  /** A genuine cycle that can be reached from the target. */
  ghost predicate IsCycle(g: Tap, p: seq<string>) {
    |p| >= 2 && IsPath(g, p) && p[0] == p[|p| - 1] && Reachable(g, p[0], 0)
  }

  datatype Mark = Visiting | Done

  /** The script's variables; `order` lists the finished names in the order they were finished,
      `parsed` the calls of parse_formula. */
  datatype View = View(closure: set<string>, states: map<string, Mark>, stack: seq<string>,
                       order: seq<string>, parsed: seq<string>)

  // ------------------------------------------------------------------
  // The invariant
  // ------------------------------------------------------------------

  /** The stack is the path of the names being visited, from the target on. */
  ghost predicate StackOk(g: Tap, v: View) {
    && Distinct(v.stack)
    && (forall x :: x in v.stack <==> x in v.states && v.states[x] == Visiting)
    && (v.stack != [] ==> v.stack[0] == g.target && IsPath(g, v.stack))
  }

  /** Finished names were parsed, and their dependencies were finished before them. */
  ghost predicate OrderOk(g: Tap, v: View) {
    && Distinct(v.order)
    && (forall x :: x in v.order <==> x in v.states && v.states[x] == Done)
    && (forall i :: 0 <= i < |v.order| ==> DependsOnEarlier(g, v.order, i))
  }

  ghost predicate DependsOnEarlier(g: Tap, order: seq<string>, i: nat)
    requires i < |order|
  {
    g.deps(order[i]).Some? && forall d :: d in g.deps(order[i]).value ==> d in order[..i]
  }

  /** Every name met can be reached, and was parsed once. */
  ghost predicate MetOk(g: Tap, v: View) {
    && (forall x :: x in v.states ==> Reachable(g, x, 0))
    && Distinct(v.parsed) && (forall x :: x in v.parsed <==> x in v.states)
  }

  /** The closure holds the names met, the target aside; `next` is the one about to be visited. */
  ghost predicate ClosureOk(g: Tap, v: View, next: Option<string>) {
    && (forall x :: x in v.closure ==> (x in v.states && x != g.target) || next == Some(x))
    && (forall x :: x in v.states ==> x == g.target || x in v.closure)
    && |v.closure| <= MAX_DEPENDENCIES
  }

  ghost predicate Inv(g: Tap, v: View) { StackOk(g, v) && OrderOk(g, v) && MetOk(g, v) && ClosureOk(g, v, None) }

  /** When visit_formula is called with a name: at the start, or for a dependency of the name on
      top of the stack. */
  ghost predicate Ready(g: Tap, v: View, name: string) {
    && StackOk(g, v) && OrderOk(g, v) && MetOk(g, v) && ClosureOk(g, v, Some(name))
    && (if v.stack == [] then name == g.target && v.states == map[] && v.closure == {}
        else Edge(g, v.stack[|v.stack| - 1], name) && name in v.closure)
  }

  // ------------------------------------------------------------------
  // The steps
  // ------------------------------------------------------------------

  function Entered(v: View, name: string): View {
    v.(states := v.states[name := Visiting], stack := v.stack + [name], parsed := v.parsed + [name])
  }

  function Left(v: View, name: string): View
    requires v.stack != []
  {
    v.(states := v.states[name := Done], stack := v.stack[..|v.stack| - 1], order := v.order + [name])
  }

  lemma {:induction false} StackReaches(g: Tap, v: View, name: string)
    requires Ready(g, v, name)
    ensures IsPath(g, v.stack + [name]) && (v.stack + [name])[0] == g.target
    ensures Reachable(g, name, if v.stack == [] then 0 else 1)
  {
    var p := v.stack + [name];
    forall i | 0 <= i < |p| - 1 ensures Edge(g, p[i], p[i + 1]) {
      if i < |v.stack| - 1 { assert Edge(g, v.stack[i], v.stack[i + 1]); }
    }
    assert PathFromTo(g, p, g.target, name);
  }

  lemma {:induction false} EnterKeeps(g: Tap, v: View, name: string)
    requires Ready(g, v, name) && name !in v.states
    ensures Inv(g, Entered(v, name))
  {
    hide Reachable, IsPath, Edge, DependsOnEarlier;
    var w := Entered(v, name);
    StackReaches(g, v, name);
    ReachableAtAll(g, name, if v.stack == [] then 0 else 1);
    EnterStack(g, v, name);
    EnterMet(g, v, name);
    assert name !in v.order;
    assert v.stack != [] ==> v.stack[0] in v.stack;
  }

  lemma {:induction false} EnterStack(g: Tap, v: View, name: string)
    requires StackOk(g, v) && name !in v.states && IsPath(g, v.stack + [name]) && (v.stack + [name])[0] == g.target
    ensures StackOk(g, Entered(v, name))
  {
    hide IsPath;
    assert forall x :: x in v.stack + [name] <==> x in v.stack || x == name;
  }

  lemma {:induction false} EnterMet(g: Tap, v: View, name: string)
    requires MetOk(g, v) && name !in v.states && Reachable(g, name, 0)
    ensures MetOk(g, Entered(v, name))
  {
    hide Reachable;
    assert name !in v.parsed;
    assert forall x :: x in v.parsed + [name] <==> x in v.parsed || x == name;
  }

  /** The closure grows by a dependency of the name on top. */
  lemma {:induction false} AddKeeps(g: Tap, v: View, d: string)
    requires Inv(g, v) && v.stack != [] && Edge(g, v.stack[|v.stack| - 1], d)
    requires |v.closure + {d}| <= MAX_DEPENDENCIES
    ensures Ready(g, v.(closure := v.closure + {d}), d)
  {}

  lemma {:induction false} LeaveKeeps(g: Tap, v: View, name: string)
    requires Inv(g, v) && v.stack != [] && v.stack[|v.stack| - 1] == name
    requires g.deps(name).Some? && forall d :: d in g.deps(name).value ==> d in v.order
    ensures Inv(g, Left(v, name))
  {
    hide OrderOk, MetOk, ClosureOk, IsPath, Left;
    assert name in v.stack;
    LeaveStack(g, v, name);
    LeaveOrder(g, v, name);
    LeaveMet(g, v, name);
  }

  lemma {:induction false} LeaveStack(g: Tap, v: View, name: string)
    requires StackOk(g, v) && v.stack != [] && v.stack[|v.stack| - 1] == name
    ensures StackOk(g, Left(v, name))
  {
    hide Edge, IsPath, Distinct;
    var w := Left(v, name);
    forall x ensures x in w.stack <==> x in v.stack && x != name {
      WithoutLast(v.stack, x);
    }
    WithoutLast(v.stack, name);
    PathShortens(g, v.stack);
  }

  lemma {:induction false} WithoutLast(s: seq<string>, x: string)
    requires Distinct(s) && s != []
    ensures Distinct(s[..|s| - 1]) && (x in s[..|s| - 1] <==> x in s && x != s[|s| - 1])
  {
    var n := |s| - 1;
    assert s == s[..n] + [s[n]];
    if x in s && x != s[n] {
      var i :| 0 <= i < |s| && s[i] == x;
      assert s[..n][i] == x;
    }
  }

  lemma {:induction false} LeaveMet(g: Tap, v: View, name: string)
    requires MetOk(g, v) && ClosureOk(g, v, None) && v.stack != [] && name in v.states
    ensures MetOk(g, Left(v, name)) && ClosureOk(g, Left(v, name), None)
  {
    hide Reachable;
    assert forall x :: x in Left(v, name).states <==> x in v.states;
  }

  lemma PathShortens(g: Tap, p: seq<string>)
    requires IsPath(g, p)
    ensures |p| > 1 ==> IsPath(g, p[..|p| - 1])
  {}

  lemma {:induction false} LeaveOrder(g: Tap, v: View, name: string)
    requires OrderOk(g, v) && v.stack != [] && name in v.states && v.states[name] == Visiting
    requires g.deps(name).Some? && forall d :: d in g.deps(name).value ==> d in v.order
    ensures OrderOk(g, Left(v, name))
  {
    var w := Left(v, name);
    assert name !in v.order;
    assert forall x :: x in w.order <==> x in v.order || x == name;
    forall i | 0 <= i < |w.order| ensures DependsOnEarlier(g, w.order, i) {
      if i < |v.order| {
        assert DependsOnEarlier(g, v.order, i);
        assert w.order[..i] == v.order[..i];
      } else {
        assert w.order[..i] == v.order;
      }
    }
  }

  /** A name met while it is being visited closes a cycle: the stack from it on, and it again. */
  lemma {:induction false} CycleFound(g: Tap, v: View, name: string, at: nat)
    requires Ready(g, v, name) && at < |v.stack| && v.stack[at] == name
    ensures IsCycle(g, v.stack[at..] + [name])
  {
    StackReaches(g, v, name);
    var p, c := v.stack + [name], v.stack[at..] + [name];
    assert c == p[at..];
    assert IsPath(g, c) by {
      forall i | 0 <= i < |c| - 1 ensures Edge(g, c[i], c[i + 1]) {
        assert Edge(g, p[at + i], p[at + i + 1]);
      }
    }
  }

  // ------------------------------------------------------------------
  // The search
  // ------------------------------------------------------------------

  datatype Outcome = Finished | Cycle(path: seq<string>) | TooMany | Unparsable(name: string)

  /** More names than the limit, all of them dependencies. */
  ghost predicate Oversized(g: Tap, s: set<string>) {
    |s| > MAX_DEPENDENCIES && forall x :: x in s ==> Reachable(g, x, 1)
  }

  /** Why a search that did not finish stopped: each of the aborts tells the truth. */
  ghost predicate Justified(g: Tap, o: Outcome) {
    match o
    case Finished => true
    case Cycle(p) => IsCycle(g, p)
    case TooMany => exists s :: Oversized(g, s)
    case Unparsable(x) => Reachable(g, x, 0) && g.deps(x) == None
  }

  method IndexOf(s: seq<string>, x: string) returns (i: nat)
    requires x in s
    ensures i < |s| && s[i] == x
  {
    i := 0;
    while s[i] != x
      invariant i < |s| && x in s[i..]
      decreases |s| - i
    {
      i := i + 1;
    }
  }

  /** What the colours of a name say. */
  lemma {:induction false} Coloured(g: Tap, v: View, name: string)
    requires Ready(g, v, name) && name in v.states
    ensures v.states[name] == Done ==> name in v.order
    ensures v.states[name] == Visiting ==> name in v.stack
  {}

  /** A dependency that is finished already needs no visit. */
  lemma {:induction false} DoneKeeps(g: Tap, v: View, name: string)
    requires Ready(g, v, name) && name in v.order
    ensures Inv(g, v)
  {
    assert v.stack != [] ==> v.stack[0] in v.stack;
  }

  /** Apart from the target itself, to be reached at all is to be reached by an edge. */
  lemma {:induction false} OneStep(g: Tap, x: string)
    requires Reachable(g, x, 0) && x != g.target
    ensures Reachable(g, x, 1)
  {
    var p :| PathFromTo(g, p, g.target, x) && |p| > 0;
    assert |p| != 1;
  }

  lemma {:induction false} ClosureReached(g: Tap, v: View, d: string)
    requires Inv(g, v) && v.stack != [] && Edge(g, v.stack[|v.stack| - 1], d)
    ensures forall x :: x in v.closure + {d} ==> Reachable(g, x, 1)
  {
    forall x | x in v.closure + {d} ensures Reachable(g, x, 1) {
      if x in v.closure {
        OneStep(g, x);
      } else {
        var p := v.stack + [d];
        forall i | 0 <= i < |p| - 1 ensures Edge(g, p[i], p[i + 1]) {
          if i < |v.stack| - 1 { assert Edge(g, v.stack[i], v.stack[i + 1]); }
        }
        assert PathFromTo(g, p, g.target, d) && |p| > 1;
      }
    }
  }

  /** One more name for the closure unless the dependency was met before. */
  lemma {:induction false} ClosureGrows(g: Tap, v: View, d: string, before: set<string>)
    requires Inv(g, v) && before <= v.closure && d !in v.states
    ensures |before| < |v.closure + {d}|
  {
    assert d !in v.closure;
    SubsetSize(before + {d}, v.closure + {d});
    assert d !in before && |before + {d}| == |before| + 1;
  }

  class Search {
    const tap: Tap
    var closure: set<string>
    var states: map<string, Mark>
    var stack: seq<string>
    ghost var order: seq<string>
    ghost var parsed: seq<string>

    ghost function Now(): View
      reads this
    {
      View(closure, states, stack, order, parsed)
    }

    constructor (tap: Tap)
      ensures this.tap == tap && Now() == View({}, map[], [], [], [])
    {
      this.tap := tap;
      closure, states, stack, order, parsed := {}, map[], [], [], [];
    }

    /** visit_formula. It ends on every tap, an infinite one too: each descent into a name not met
        before finds one more name for the closure. */
    method Visit(name: string) returns (o: Outcome)
      requires Ready(tap, Now(), name)
      modifies this
      ensures Justified(tap, o)
      ensures o == Finished ==>
                && Inv(tap, Now()) && stack == old(stack) && name in order
                && old(closure) <= closure && old(order) <= order
      decreases MAX_DEPENDENCIES + 1 - |closure|, if name in states then 0 else 2
    {
      hide StackOk, OrderOk, MetOk, ClosureOk, Reachable, IsCycle;
      if name in states {
        Coloured(tap, Now(), name);
        if states[name] == Done {
          DoneKeeps(tap, Now(), name);
          return Finished;
        }
        var at := IndexOf(stack, name);
        CycleFound(tap, Now(), name, at);
        return Cycle(stack[at..] + [name]);
      }
      EnterKeeps(tap, Now(), name);
      StackReaches(tap, Now(), name);
      ReachableAtAll(tap, name, if stack == [] then 0 else 1);
      states, stack := states[name := Visiting], stack + [name];
      parsed := parsed + [name];
      if tap.deps(name) == None {
        return Unparsable(name);
      }
      o := VisitAll(name, tap.deps(name).value);
      if o == Finished {
        LeaveKeeps(tap, Now(), name);
        stack := stack[..|stack| - 1];
        states := states[name := Done];
        order := order + [name];
      }
    }

    /** The loop over the dependencies of the name on top of the stack. */
    method VisitAll(name: string, dependencies: seq<string>) returns (o: Outcome)
      requires Inv(tap, Now()) && stack != [] && stack[|stack| - 1] == name && tap.deps(name) == Some(dependencies)
      modifies this
      ensures Justified(tap, o)
      ensures o == Finished ==>
                && Inv(tap, Now()) && stack == old(stack)
                && old(closure) <= closure && old(order) <= order
                && forall d :: d in dependencies ==> d in order
      decreases MAX_DEPENDENCIES + 1 - |closure|, 1
    {
      hide Inv, Ready, Edge, Reachable;
      var i := 0;
      while i < |dependencies|
        invariant 0 <= i <= |dependencies| && Inv(tap, Now()) && stack == old(stack)
        invariant old(closure) <= closure && old(order) <= order
        invariant forall j :: 0 <= j < i ==> dependencies[j] in order
      {
        var d := dependencies[i];
        ClosureReached(tap, Now(), d);
        if d !in states { ClosureGrows(tap, Now(), d, old(closure)); }
        SubsetSize(old(closure), closure + {d});
        if |closure + {d}| > MAX_DEPENDENCIES {
          assert Oversized(tap, closure + {d});
          closure := closure + {d};
          return TooMany;
        }
        AddKeeps(tap, Now(), d);
        closure := closure + {d};
        o := Visit(d);
        if o != Finished {
          return;
        }
        i := i + 1;
      }
      return Finished;
    }
  }

  lemma {:induction false} ReachableAtAll(g: Tap, x: string, steps: nat)
    requires Reachable(g, x, steps)
    ensures Reachable(g, x, 0)
  {
    var p :| PathFromTo(g, p, g.target, x) && |p| > steps;
  }

  // ------------------------------------------------------------------
  // What a finished search means
  // ------------------------------------------------------------------

  /** From a finished name every path stays among the finished names and runs backwards. */
  lemma {:induction false} PathRunsBack(g: Tap, v: View, p: seq<string>, i: nat) returns (j: nat)
    requires OrderOk(g, v) && IsPath(g, p) && i < |v.order| && v.order[i] == p[0]
    ensures j < |v.order| && v.order[j] == p[|p| - 1]
    ensures if |p| == 1 then j == i else j < i
    decreases |p|
  {
    if |p| == 1 {
      j := i;
    } else {
      assert DependsOnEarlier(g, v.order, i) && Edge(g, p[0], p[1]);
      assert p[1] in v.order[..i];
      var k :| 0 <= k < i && v.order[k] == p[1];
      assert IsPath(g, p[1..]) by {
        forall m | 0 <= m < |p[1..]| - 1 ensures Edge(g, p[1..][m], p[1..][m + 1]) {
          assert Edge(g, p[m + 1], p[m + 2]);
        }
      }
      j := PathRunsBack(g, v, p[1..], k);
    }
  }

  /** What the state says when the walk from the target is over. */
  ghost predicate Complete(g: Tap, v: View) { Inv(g, v) && v.stack == [] && g.target in v.order }

  lemma {:induction false} ReachedIsFinished(g: Tap, v: View, x: string)
    requires Complete(g, v) && Reachable(g, x, 0)
    ensures x in v.order
  {
    var p :| PathFromTo(g, p, g.target, x) && |p| > 0;
    var i :| 0 <= i < |v.order| && v.order[i] == g.target;
    var j := PathRunsBack(g, v, p, i);
  }

  /** No cycle can be reached from the target. */
  lemma {:induction false} NoCycles(g: Tap, v: View, p: seq<string>)
    requires Complete(g, v)
    ensures !IsCycle(g, p)
  {
    if IsCycle(g, p) {
      ReachedIsFinished(g, v, p[0]);
      var i :| 0 <= i < |v.order| && v.order[i] == p[0];
      var j := PathRunsBack(g, v, p, i);
    }
  }

  /** The closure is exactly what the target reaches by one or more edges; the target is not in
      it; every name reached was parsed, and parsed once. */
  lemma {:induction false} ClosureIsExact(g: Tap, v: View)
    requires Complete(g, v)
    ensures forall x :: x in v.closure <==> Reachable(g, x, 1)
    ensures g.target !in v.closure && |v.closure| <= MAX_DEPENDENCIES
    ensures forall x :: Reachable(g, x, 0) ==> g.deps(x).Some?
    ensures Distinct(v.parsed) && forall x :: x in v.parsed <==> x == g.target || x in v.closure
  {
    forall x ensures x in v.closure <==> Reachable(g, x, 1) {
      if x in v.closure {
        OneStep(g, x);
      } else if Reachable(g, x, 1) {
        ReachableAtAll(g, x, 1);
        ReachedIsFinished(g, v, x);
        assert x == g.target;
        var p :| PathFromTo(g, p, g.target, x) && |p| > 1;
        assert IsCycle(g, p) by { assert PathFromTo(g, [x], g.target, x); }
        NoCycles(g, v, p);
      }
    }
    forall x | Reachable(g, x, 0) ensures g.deps(x).Some? {
      ReachedIsFinished(g, v, x);
      var i :| 0 <= i < |v.order| && v.order[i] == x;
      assert DependsOnEarlier(g, v.order, i);
    }
  }

  /** The tap can be resolved: everything the target reaches can be parsed, is not too much and
      has no cycle. */
  ghost predicate Resolvable(g: Tap) {
    && (forall x :: Reachable(g, x, 0) ==> g.deps(x).Some?)
    && (forall s :: !Oversized(g, s))
    && (forall p :: !IsCycle(g, p))
  }

  /** The script from `closure = Set.new` to the end of the walk. It finishes exactly on the taps
      that can be resolved, with the exact closure; otherwise it names a true reason. */
  method Resolve(g: Tap) returns (o: Outcome, closure: set<string>)
    ensures o == Finished <==> Resolvable(g)
    ensures o == Finished ==> (forall x :: x in closure <==> Reachable(g, x, 1)) && g.target !in closure
    ensures o == Finished ==> |closure| <= MAX_DEPENDENCIES
    ensures Justified(g, o)
  {
    hide IsPath, Reachable, IsCycle;
    var search := new Search(g);
    StartIsReady(g);
    o := search.Visit(g.target);
    closure := search.closure;
    if o == Finished {
      ClosureIsExact(g, search.Now());
      FinishedIsResolvable(g, search.Now());
    } else {
      JustifiedIsNotResolvable(g, o);
    }
  }

  lemma {:induction false} StartIsReady(g: Tap)
    ensures Ready(g, View({}, map[], [], [], []), g.target)
  {}

  lemma {:induction false} FinishedIsResolvable(g: Tap, v: View)
    requires Complete(g, v)
    ensures Resolvable(g)
  {
    hide IsPath, Reachable, IsCycle;
    ClosureIsExact(g, v);
    forall p ensures !IsCycle(g, p) { NoCycles(g, v, p); }
    forall s ensures !Oversized(g, s) {
      if Oversized(g, s) {
        assert s <= v.closure;
        SubsetSize(s, v.closure);
      }
    }
  }

  lemma {:induction false} JustifiedIsNotResolvable(g: Tap, o: Outcome)
    requires Justified(g, o) && o != Finished
    ensures !Resolvable(g)
  {
    hide IsPath, Reachable, IsCycle;
  }
}
