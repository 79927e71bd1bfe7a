/** The parser of programs/sh.c as it runs: global tokenizer state, a pool of AST nodes
    that is never freed, and recursive-descent methods that fill it in place. */
module ShellParser {
  import opened Options
  import opened ShellLexer
  import opened ShellExpand
  import opened ShellSyntax
  import opened ShellArena

  /** A node that was allocated before its children, while they are being read: what it holds,
      the next free node, the pool and the exhaustion flag when it was allocated, and the
      children read so far. */
  datatype Opened = Opened(node: Node, lo: nat, before: seq<Node>, was: bool, kids: seq<Ast>)

  /** The fields that hold a list. */
  datatype Field = LeftField | RightField | BodyField

  function Put(node: Node, f: Field, p: Ptr): Node {
    match f
    case LeftField => node.(left := p)
    case RightField => node.(right := p)
    case BodyField => node.(body := p)
  }

  lemma FourKids(a: Ast, b: Ast, c: Ast, d: Ast)
    ensures [] + [a] == [a] && [a] + [b] == [a, b] && [a, b] + [c] == [a, b, c] && [a, b, c] + [d] == [a, b, c, d]
  {}

  class Shell {
    const env: Env
    const pool: array<Node>
    /** tok_pos: the text from there on. */
    var text: string
    var cur: Token
    var peeked: bool
    var nodeNext: nat
    var stringNext: nat
    /** Whether alloc_node has handed out node 0 for want of a free one. */
    ghost var exhausted: bool

    /** The text still to read has tokens: no character is left that read_token stalls on. */
    ghost predicate Valid()
      reads this
    {
      && Lex(text).Some?
      && (peeked && cur == Eof ==> text == "")
      && pool.Length == MAX_NODES
      && nodeNext <= MAX_NODES
    }

    /** The tokens the parser has not consumed yet, a peeked one included. */
    ghost function Pending(): Tokens
      reads this
      requires Valid()
    {
      if peeked && cur != Eof then Next(cur, Lex(text).value) else Lex(text).value
    }

    /** A peeked token is the first of the pending ones. */
    lemma Waiting()
      requires Valid() && peeked && cur != Eof
      ensures Peek(Pending()) == cur && Count(Advance(Pending())) < Count(Pending())
    {}

    constructor (env: Env)
      ensures Valid() && fresh(pool) && !exhausted && nodeNext == 0
      ensures this.env == env
    {
      this.env := env;
      pool := new Node[MAX_NODES](_ => Blank(SimpleNode));
      text, cur, peeked := "", Eof, false;
      nodeNext, stringNext, exhausted := 0, 0, false;
    }

    method ReadTokenHere()
      requires Valid() && !peeked
      modifies this`text, this`cur
      ensures Valid() && Lex(text).value == Advance(old(Pending()))
      ensures cur == Peek(old(Pending())) && (cur == Eof ==> text == "")
    {
      var t, n := ReadToken(text);
      cur, text := t, text[n..];
    }

    method NextToken()
      requires Valid()
      modifies this`text, this`cur, this`peeked
      ensures Valid() && Pending() == Advance(old(Pending()))
    {
      if peeked {
        peeked := false;
      } else {
        ReadTokenHere();
      }
    }

    method PeekToken()
      requires Valid()
      modifies this`text, this`cur, this`peeked
      ensures Valid() && Pending() == old(Pending())
      ensures peeked && cur == Peek(Pending())
    {
      if !peeked {
        ReadTokenHere();
        peeked := true;
      }
    }

    method SkipSeparators()
      requires Valid()
      modifies this`text, this`cur, this`peeked
      ensures Valid() && Pending() == SkipNewlines(old(Pending()))
    {
      PeekToken();
      while IsSeparator(cur)
        invariant Valid() && peeked && cur == Peek(Pending())
        invariant SkipNewlines(Pending()) == SkipNewlines(old(Pending()))
        decreases Count(Pending())
      {
        NextToken();
        PeekToken();
      }
    }

    method ExpectToken(t: Token)
      requires Valid()
      modifies this`text, this`cur, this`peeked
      ensures Valid() && Pending() == Expect(old(Pending()), t)
    {
      PeekToken();
      if cur == t { NextToken(); }
    }

    // ----------------------------------------------------------------
    // Arenas
    // ----------------------------------------------------------------

    /** A full pool hands out node 0 again, contents and all. */
    method AllocNode(kind: Kind) returns (n: nat)
      requires Valid()
      modifies this`nodeNext, this`exhausted, pool
      ensures Valid() && Pending() == old(Pending()) && n < MAX_NODES
      ensures old(nodeNext) < MAX_NODES ==>
                && n == old(nodeNext) && nodeNext == n + 1 && exhausted == old(exhausted)
                && pool[..] == old(pool[..])[n := Blank(kind)]
      ensures old(nodeNext) == MAX_NODES ==> n == 0 && exhausted && pool[..] == old(pool[..]) && nodeNext == MAX_NODES
    {
      if nodeNext >= MAX_NODES {
        exhausted := true;
        return 0;
      }
      n := nodeNext;
      nodeNext := nodeNext + 1;
      pool[n] := Blank(kind);
    }

    method SetNode(n: nat, node: Node)
      requires n < pool.Length
      modifies pool
      ensures pool[..] == old(pool[..])[n := node]
    {
      pool[n] := node;
    }

    method StrDup(s: string) returns (kept: string)
      modifies this`stringNext
      ensures (kept, stringNext) == Keep(s, old(stringNext))
    {
      if stringNext + |s| + 1 > STRING_ARENA_SIZE {
        return "";
      }
      kept := s;
      stringNext := stringNext + |s| + 1;
    }

    method ExpandHere(word: string) returns (expanded: string)
      ensures expanded == Expanded(env, word)
    {
      var buffer := new char[MAX_WORD];
      var n := ExpandWord(env, word, buffer);
      expanded := buffer[..n];
    }

    // ----------------------------------------------------------------
    // Parser
    // ----------------------------------------------------------------

    /** What every parse method leaves behind, seen from a call that began with the next free
        node `lo`, the pool contents `before` and the exhaustion flag `was`: unless the pool ran
        out, the tree the grammar gives lies in the pool from `lo` on and ends at the next free
        node, nothing before `lo` has changed, and the grammar's tokens are left. The pool runs
        out only if that tree is too big for it. */
    ghost predicate Built(spec: Parsed, p: Ptr, lo: nat, before: seq<Node>, was: bool)
      reads this, pool
    {
      && Valid() && Standing(spec.ast, p, lo, before, was)
      && (!exhausted ==> Pending() == spec.rest && stringNext == spec.used)
    }

    /** The part of it that is about the pool. */
    ghost predicate Standing(a: Ast, p: Ptr, lo: nat, before: seq<Node>, was: bool)
      reads this`nodeNext, this`exhausted, pool
    {
      && pool.Length == MAX_NODES && lo <= MAX_NODES && |before| == MAX_NODES
      && (was ==> exhausted)
      && (exhausted && !was ==> lo + Size(a) > MAX_NODES)
      && (!exhausted ==>
            && nodeNext == lo + Size(a)
            && p == PtrTo(a, lo)
            && HasAt(pool[..], Layout(a, lo), lo)
            && pool[..lo] == before[..lo])
    }

    /** Once the pool is exhausted, all that is known is that the tree is too big; so is a bigger one. */
    lemma StandsForBigger(a: Ast, b: Ast, p: Ptr, lo: nat, before: seq<Node>, was: bool)
      requires Standing(a, p, lo, before, was) && (a != b ==> exhausted && Size(b) >= Size(a))
      ensures Standing(b, p, lo, before, was)
    {}

    /** A binary node over the two trees built last. */
    method Combine(op: BinOp, left: Ptr, right: Ptr, ghost l: Ast, ghost r: Ast, ghost lo: nat) returns (p: Ptr)
      requires Valid()
      requires !exhausted ==>
                 && nodeNext == lo + Size(l) + Size(r)
                 && left == PtrTo(l, lo) && HasAt(pool[..], Layout(l, lo), lo)
                 && right == PtrTo(r, lo + Size(l)) && HasAt(pool[..], Layout(r, lo + Size(l)), lo + Size(l))
      modifies this`nodeNext, this`exhausted, pool
      ensures Valid() && Pending() == old(Pending())
      ensures old(exhausted) ==> exhausted
      ensures exhausted && !old(exhausted) ==> old(nodeNext) == MAX_NODES
      ensures var t := Binary(op, l, r);
              !exhausted ==>
                && nodeNext == lo + Size(t) && p == PtrTo(t, lo) && HasAt(pool[..], Layout(t, lo), lo)
                && pool[..lo] == old(pool[..lo])
    {
      hide Layout, HasAt;
      var n := AllocNode(BinaryNode(op));
      SetNode(n, pool[n].(left := left, right := right));
      p := Some(n);
      if !exhausted {
        PlaceBinary(old(pool[..]), pool[..], op, l, r, lo, n);
      }
    }

    /** Node `n` gets a new argument list and a new redirection list, the rest stays. */
    twostate predicate Collected(n: nat)
      reads this, pool
      requires n < pool.Length
    {
      pool[..] == old(pool[..])[n := old(pool[n]).(args := pool[n].args, redirs := pool[n].redirs)]
    }

    method AddRedir(n: nat, redir: Redir)
      requires n < pool.Length
      modifies pool
      ensures Collected(n) && pool[n].args == old(pool[n].args) && pool[n].redirs == old(pool[n].redirs) + [redir]
    {
      SetNode(n, pool[n].(redirs := pool[n].redirs + [redir]));
    }

    method AddWord(n: nat, word: string)
      requires n < pool.Length
      modifies this`stringNext, pool
      ensures Collected(n) && pool[n].redirs == old(pool[n].redirs)
      ensures (pool[n].args, stringNext) == AddArg(env, word, old(pool[n].args), old(stringNext))
    {
      if |pool[n].args| < MAX_ARGS - 1 {
        var expanded := ExpandHere(word);
        var kept := StrDup(expanded);
        SetNode(n, pool[n].(args := pool[n].args + [kept]));
      }
    }

    /** What one turn of parse_simple's loop has to do with the node it fills. */
    twostate predicate Turned(n: nat, more: bool)
      reads this, pool
      requires n < pool.Length && old(Valid()) && Valid()
    {
      && Collected(n)
      && Count(Pending()) <= old(Count(Pending()))
      && (more ==> Count(Pending()) < old(Count(Pending())))
      && SimpleLoop(env, old(Pending()), old(pool[n].args), old(pool[n].redirs), old(stringNext))
         == (if more then SimpleLoop(env, Pending(), pool[n].args, pool[n].redirs, stringNext)
             else Parsed(Simple(pool[n].args, pool[n].redirs), Pending(), stringNext))
    }

    /** A redirection that starts with its operator. */
    method RedirTurn(n: nat) returns (more: bool)
      requires Valid() && n < MAX_NODES && IsRedirect(Peek(Pending())) && peeked
      modifies this`text, this`cur, this`peeked, pool
      ensures Valid() && Turned(n, more)
    {
      if |pool[n].redirs| >= MAX_REDIRS {
        return false;
      }
      var redir := PlainRedir(cur);
      NextToken();
      PeekToken();
      if !cur.Word? {
        AddRedir(n, redir);
        return false;
      }
      var file := ExpandHere(cur.text);
      AddRedir(n, redir.(file := file));
      NextToken();
      return true;
    }

    /** The part of a numbered redirection from its operator on. */
    method NumberedRedirTurn(fd: nat) returns (redir: Redir)
      requires Valid() && peeked && (cur == RedirOut || cur == RedirAppend)
      modifies this`text, this`cur, this`peeked
      ensures Valid() && (redir, Pending()) == NumberedRedir(env, fd, old(Pending()))
    {
      var mode := if cur == RedirAppend then Append else Truncate;
      redir := Redir(fd, mode, None, "");
      NextToken();
      PeekToken();
      if IsDupTarget(cur) {
        redir := redir.(dup := Some(DigitValue(cur.text[1])));
        NextToken();
      } else if cur.Word? {
        var file := ExpandHere(cur.text);
        redir := redir.(file := file);
        NextToken();
      }
    }

    /** A word that is one digit: a descriptor number if an output operator follows. */
    method DigitTurn(n: nat) returns (more: bool)
      requires Valid() && n < MAX_NODES && peeked && cur.Word? && |cur.text| == 1 && IsDigit(cur.text[0])
      modifies this`text, this`cur, this`peeked, this`stringNext, pool
      ensures Valid() && Turned(n, more)
    {
      hide NumberedRedir, AddArg, Lex, IsKeyword;
      var saved := cur.text;
      NextToken();
      PeekToken();
      if cur == RedirOut || cur == RedirAppend {
        if |pool[n].redirs| >= MAX_REDIRS {
          return false;
        }
        var redir := NumberedRedirTurn(DigitValue(saved[0]));
        AddRedir(n, redir);
      } else {
        AddWord(n, saved);
      }
      return true;
    }

    /** Any other word: the one-word `2>&1` form, a keyword, or an argument. */
    method WordTurn(n: nat) returns (more: bool)
      requires Valid() && n < MAX_NODES && peeked && cur.Word? && !(|cur.text| == 1 && IsDigit(cur.text[0]))
      modifies this`text, this`cur, this`peeked, this`stringNext, pool
      ensures Valid() && Turned(n, more)
    {
      hide AddArg, Lex;
      if IsDupWord(cur.text) {
        if |pool[n].redirs| < MAX_REDIRS {
          AddRedir(n, Redir(DigitValue(cur.text[0]), NoMode, Some(DigitValue(cur.text[3])), ""));
        }
        NextToken();
        return true;
      }
      if IsKeyword(cur.text) {
        return false;
      }
      AddWord(n, cur.text);
      NextToken();
      return true;
    }

    method SimpleTurn(n: nat) returns (more: bool)
      requires Valid() && n < MAX_NODES
      modifies this`text, this`cur, this`peeked, this`stringNext, pool
      ensures Valid() && Turned(n, more)
    {
      PeekToken();
      if IsRedirect(cur) {
        more := RedirTurn(n);
      } else if !cur.Word? {
        more := false;
      } else if |cur.text| == 1 && IsDigit(cur.text[0]) {
        more := DigitTurn(n);
      } else {
        more := WordTurn(n);
      }
    }

    method ReadSimple() returns (p: Ptr)
      requires Valid()
      modifies this, pool
      ensures Built(ParseSimple(env, old(Pending()), old(stringNext)), p, old(nodeNext), old(pool[..]), old(exhausted))
      ensures Count(Pending()) <= old(Count(Pending()))
    {
      hide SimpleLoop, Layout, HasAt;
      ghost var lo, before := nodeNext, pool[..];
      ghost var spec := SimpleLoop(env, Pending(), [], [], stringNext);
      var n := AllocNode(SimpleNode);
      var more := true;
      while more
        invariant Valid() && n < MAX_NODES
        invariant lo == MAX_NODES || (n == lo && nodeNext == lo + 1)
        invariant exhausted == (old(exhausted) || lo == MAX_NODES)
        invariant Count(Pending()) <= old(Count(Pending()))
        invariant lo < MAX_NODES ==>
                    && pool[..] == before[lo := Blank(SimpleNode).(args := pool[lo].args, redirs := pool[lo].redirs)]
                    && spec == (if more then SimpleLoop(env, Pending(), pool[lo].args, pool[lo].redirs, stringNext)
                                else Parsed(Simple(pool[lo].args, pool[lo].redirs), Pending(), stringNext))
        decreases more, Count(Pending())
      {
        more := SimpleTurn(n);
      }
      p := Some(n);
      if !exhausted {
        PlaceSimple(pool[..], pool[n].args, pool[n].redirs, n);
      }
    }

    method ReadPipeline() returns (left: Ptr)
      requires Valid()
      modifies this, pool
      ensures Built(ParsePipeline(env, old(Pending()), old(stringNext)), left, old(nodeNext),
                    old(pool[..]), old(exhausted))
      ensures Count(Pending()) <= old(Count(Pending()))
      decreases Count(Pending()), 4
    {
      hide ParseCommand, Standing, Lex, SkipNewlines, Count, Size;
      ghost var lo, before, was := nodeNext, pool[..], exhausted;
      ghost var p := ParseCommand(env, Pending(), stringNext);
      ghost var spec := PipelineLoop(env, p);
      left := ReadCommand();
      PeekToken();
      while cur == Pipe
        invariant Valid() && peeked && cur == Peek(Pending())
        invariant Built(p, left, lo, before, was) && PipelineLoop(env, p) == spec
        invariant Count(Pending()) <= old(Count(Pending()))
        decreases Count(Pending())
      {
        Waiting();
        NextToken();
        SkipSeparators();
        left, p := PipeNext(left, p, lo, before, was);
        PeekToken();
      }
      PipelineLoopGrows(env, p);
      StandsForBigger(p.ast, spec.ast, left, lo, before, was);
    }

    /** Behind a `|`: the next command, and the node over it and what was read before. */
    method PipeNext(left: Ptr, ghost p: Parsed, ghost lo: nat, ghost before: seq<Node>, ghost was: bool)
      returns (top: Ptr, ghost p': Parsed)
      requires Valid() && Standing(p.ast, left, lo, before, was) && (!exhausted ==> stringNext == p.used)
      modifies this, pool
      ensures Built(p', top, lo, before, was) && Count(Pending()) <= old(Count(Pending()))
      ensures var q := ParseCommand(env, old(Pending()), old(stringNext));
              p' == if old(exhausted) then p else Parsed(Binary(Pipeline, p.ast, q.ast), q.rest, q.used)
      decreases Count(Pending()), 4
    {
      hide ParseCommand, Layout, HasAt, PtrTo, Lex, Count;
      ghost var mid, poolMid, wasMid := nodeNext, pool[..], exhausted;
      ghost var q := ParseCommand(env, Pending(), stringNext);
      var right := ReadCommand();
      top, p' := Join(Pipeline, left, right, p, q, lo, mid, before, poolMid, was, wasMid);
    }

    /** The node over the tree `p` that a loop has built so far and the operand `q` it read next,
        with the state it was in between (`mid`, `poolMid`, `wasMid`). */
    method Join(op: BinOp, left: Ptr, right: Ptr, ghost p: Parsed, ghost q: Parsed, ghost lo: nat, ghost mid: nat,
                ghost before: seq<Node>, ghost poolMid: seq<Node>, ghost was: bool, ghost wasMid: bool)
      returns (top: Ptr, ghost p': Parsed)
      requires Built(q, right, mid, poolMid, wasMid)
      requires lo <= MAX_NODES && |before| == MAX_NODES
      requires (was ==> wasMid) && (wasMid && !was ==> lo + Size(p.ast) > MAX_NODES)
      requires !wasMid ==>
                 && mid == lo + Size(p.ast) && left == PtrTo(p.ast, lo)
                 && HasAt(poolMid, Layout(p.ast, lo), lo) && poolMid[..lo] == before[..lo]
      modifies this`nodeNext, this`exhausted, pool
      ensures Built(p', top, lo, before, was) && Pending() == old(Pending())
      ensures p' == if wasMid then p else Parsed(Binary(op, p.ast, q.ast), q.rest, q.used)
    {
      hide Layout, HasAt;
      p' := if wasMid then p else Parsed(Binary(op, p.ast, q.ast), q.rest, q.used);
      if !exhausted {
        LayoutFits(poolMid, p.ast, lo);
        HasAtPrefix(poolMid, pool[..], Layout(p.ast, lo), lo, mid);
        assert pool[..lo] == pool[..mid][..lo] == poolMid[..lo];
      }
      top := Combine(op, left, right, p.ast, q.ast, lo);
    }

    method ReadAndOr() returns (left: Ptr)
      requires Valid()
      modifies this, pool
      ensures Built(ParseAndOr(env, old(Pending()), old(stringNext)), left, old(nodeNext),
                    old(pool[..]), old(exhausted))
      ensures Count(Pending()) <= old(Count(Pending()))
      decreases Count(Pending()), 5
    {
      hide ParsePipeline, Standing, Lex, SkipNewlines, Count, Size;
      ghost var lo, before, was := nodeNext, pool[..], exhausted;
      ghost var p := ParsePipeline(env, Pending(), stringNext);
      ghost var spec := AndOrLoop(env, p);
      left := ReadPipeline();
      PeekToken();
      while cur == AndIf || cur == OrIf
        invariant Valid() && peeked && cur == Peek(Pending())
        invariant Built(p, left, lo, before, was) && AndOrLoop(env, p) == spec
        invariant Count(Pending()) <= old(Count(Pending()))
        decreases Count(Pending())
      {
        var op := if cur == AndIf then And else Or;
        Waiting();
        NextToken();
        SkipSeparators();
        left, p := AndOrNext(op, left, p, lo, before, was);
        PeekToken();
      }
      AndOrLoopGrows(env, p);
      StandsForBigger(p.ast, spec.ast, left, lo, before, was);
    }

    method AndOrNext(op: BinOp, left: Ptr, ghost p: Parsed, ghost lo: nat, ghost before: seq<Node>, ghost was: bool)
      returns (top: Ptr, ghost p': Parsed)
      requires Valid() && Standing(p.ast, left, lo, before, was) && (!exhausted ==> stringNext == p.used)
      modifies this, pool
      ensures Built(p', top, lo, before, was) && Count(Pending()) <= old(Count(Pending()))
      ensures var q := ParsePipeline(env, old(Pending()), old(stringNext));
              p' == if old(exhausted) then p else Parsed(Binary(op, p.ast, q.ast), q.rest, q.used)
      decreases Count(Pending()), 5
    {
      hide ParsePipeline, Layout, HasAt, PtrTo, Lex, Count;
      ghost var mid, poolMid, wasMid := nodeNext, pool[..], exhausted;
      ghost var q := ParsePipeline(env, Pending(), stringNext);
      var right := ReadPipeline();
      top, p' := Join(op, left, right, p, q, lo, mid, before, poolMid, was, wasMid);
    }

    method ReadList() returns (left: Ptr)
      requires Valid()
      modifies this, pool
      ensures Built(ParseList(env, old(Pending()), old(stringNext)), left, old(nodeNext), old(pool[..]), old(exhausted))
      ensures Count(Pending()) <= old(Count(Pending()))
      decreases Count(Pending()), 6
    {
      hide ParseAndOr, ListLoop, Lex, SkipNewlines, Count, EndsList, Layout, HasAt, PtrTo, Built;
      ghost var lo := nodeNext;
      SkipSeparators();
      PeekToken();
      if EndsList(cur) {
        HasNothing(pool[..], lo);
        NothingBuilt(old(pool[..]));
        return None;
      }
      left := ReadItems();
    }

    lemma NothingBuilt(before: seq<Node>)
      requires Valid() && pool[..] == before && HasAt(pool[..], Layout(Nothing, nodeNext), nodeNext)
      requires PtrTo(Nothing, nodeNext) == None
      ensures Built(Parsed(Nothing, Pending(), stringNext), None, nodeNext, before, exhausted)
    {
      hide Layout, HasAt, PtrTo, Lex;
    }

    /** The loop of a list that is not empty. */
    method ReadItems() returns (left: Ptr)
      requires Valid()
      modifies this, pool
      ensures Built(ListLoop(env, ParseAndOr(env, old(Pending()), old(stringNext))), left, old(nodeNext),
                    old(pool[..]), old(exhausted))
      ensures Count(Pending()) <= old(Count(Pending()))
      decreases Count(Pending()), 6, 1
    {
      hide ParseAndOr, Standing, Lex, SkipNewlines, Count, EndsList, Size;
      ghost var lo, before, was := nodeNext, pool[..], exhausted;
      ghost var p := ParseAndOr(env, Pending(), stringNext);
      ghost var spec := ListLoop(env, p);
      left := ReadAndOr();
      PeekToken();
      while IsSeparator(cur)
        invariant Valid() && peeked && cur == Peek(Pending())
        invariant Built(p, left, lo, before, was) && ListLoop(env, p) == spec
        invariant Count(Pending()) <= old(Count(Pending()))
        decreases Count(Pending())
      {
        Waiting();
        NextToken();
        SkipSeparators();
        PeekToken();
        if EndsList(cur) {
          p := if exhausted then p else p.(rest := Pending());
          break;
        }
        left, p := ListNext(left, p, lo, before, was);
        PeekToken();
      }
      ListLoopGrows(env, p);
      StandsForBigger(p.ast, spec.ast, left, lo, before, was);
    }

    method ListNext(left: Ptr, ghost p: Parsed, ghost lo: nat, ghost before: seq<Node>, ghost was: bool)
      returns (top: Ptr, ghost p': Parsed)
      requires Valid() && Standing(p.ast, left, lo, before, was) && (!exhausted ==> stringNext == p.used)
      modifies this, pool
      ensures Built(p', top, lo, before, was) && Count(Pending()) <= old(Count(Pending()))
      ensures var q := ParseAndOr(env, old(Pending()), old(stringNext));
              p' == if old(exhausted) then p else Parsed(Binary(Sequence, p.ast, q.ast), q.rest, q.used)
      decreases Count(Pending()), 6, 0
    {
      hide ParseAndOr, Layout, HasAt, PtrTo, Lex, Count;
      ghost var mid, poolMid, wasMid := nodeNext, pool[..], exhausted;
      ghost var q := ParseAndOr(env, Pending(), stringNext);
      var right := ReadAndOr();
      top, p' := Join(Sequence, left, right, p, q, lo, mid, before, poolMid, was, wasMid);
    }

    /** What a method that allocates its node first knows while it reads the children: they fill
        the pool from behind the node up to the next free one, and the node is theirs to set. */
    ghost predicate Open(n: nat, o: Opened)
      reads this, pool
    {
      Valid() && Laid(n, o)
    }

    ghost predicate Laid(n: nat, o: Opened)
      reads this`nodeNext, this`exhausted, pool
    {
      && pool.Length == MAX_NODES && o.lo <= MAX_NODES && |o.before| == MAX_NODES && n < MAX_NODES
      && (o.was ==> exhausted)
      && (exhausted && !o.was ==> o.lo + 1 + ForestSize(o.kids) > MAX_NODES)
      && (!exhausted ==>
            && n == o.lo && nodeNext == o.lo + 1 + ForestSize(o.kids) && pool[n] == o.node
            && pool[..n] == o.before[..n]
            && HasAt(pool[..], Layouts(o.kids, n + 1), n + 1))
    }

    lemma NodeIsOpen(n: nat, o: Opened)
      requires Laid(n, o)
      ensures n < pool.Length && (!exhausted ==> pool[n] == o.node)
    {}

    method OpenNode(kind: Kind) returns (n: nat, ghost o: Opened)
      requires Valid()
      modifies this`nodeNext, this`exhausted, pool
      ensures Open(n, o) && Pending() == old(Pending())
      ensures o == Opened(Blank(kind), old(nodeNext), old(pool[..]), old(exhausted), [])
    {
      o := Opened(Blank(kind), nodeNext, pool[..], exhausted, []);
      n := AllocNode(kind);
    }

    /** One more child, `c` in the grammar, read by ReadList. */
    method ReadChild(n: nat, ghost o: Opened, ghost c: Parsed) returns (p: Ptr, ghost o': Opened)
      requires Open(n, o) && (!exhausted ==> c == ParseList(env, Pending(), stringNext))
      modifies this, pool
      ensures o' == o.(kids := o.kids + [c.ast]) && Open(n, o') && Count(Pending()) <= old(Count(Pending()))
      ensures old(exhausted) ==> exhausted
      ensures !exhausted ==>
                p == PtrTo(c.ast, n + 1 + ForestSize(o.kids)) && Pending() == c.rest && stringNext == c.used
      decreases Count(Pending()), 7
    {
      hide ParseList, Layout, Layouts, HasAt, PtrTo, Lex;
      ghost var mid, pool0 := nodeNext, pool[..];
      p := ReadList();
      o' := o.(kids := o.kids + [c.ast]);
      AddKid(n, o, c, p, mid, pool0, old(exhausted));
    }

    lemma AddKid(n: nat, o: Opened, c: Parsed, p: Ptr, mid: nat, pool0: seq<Node>, was: bool)
      requires o.lo <= MAX_NODES && |o.before| == MAX_NODES && n < MAX_NODES
      requires o.was ==> was
      requires was && !o.was ==> o.lo + 1 + ForestSize(o.kids) > MAX_NODES
      requires !was ==>
            && n == o.lo && mid == o.lo + 1 + ForestSize(o.kids) && |pool0| == MAX_NODES && pool0[n] == o.node
            && pool0[..n] == o.before[..n]
            && HasAt(pool0, Layouts(o.kids, n + 1), n + 1)
            && Built(c, p, mid, pool0, was)
      requires was ==> exhausted && Valid()
      ensures Open(n, o.(kids := o.kids + [c.ast]))
    {
      hide Layout, Layouts, HasAt, PtrTo, Lex;
      AppendForest(o.kids, c.ast, n + 1);
      if !exhausted {
        FitsForest(pool0, o.kids, n + 1);
        assert pool[n] == pool[..mid][n] && pool[..n] == pool[..mid][..n] && pool0[..mid][..n] == pool0[..n];
        HasAtPrefix(pool0, pool[..], Layouts(o.kids, n + 1), n + 1, mid);
        AppendInPlace(pool[..], o.kids, c.ast, n + 1);
      }
    }

    /** Sets the open node. */
    method SetOpen(n: nat, node: Node, ghost o: Opened) returns (ghost o': Opened)
      requires Open(n, o)
      modifies pool
      ensures o' == o.(node := node) && Open(n, o')
    {
      hide Layouts, HasAt;
      o' := o.(node := node);
      ghost var mid := pool[..];
      SetNode(n, node);
      if !exhausted {
        HasAtUpdate(mid, Layouts(o.kids, n + 1), n + 1, n, node);
      }
    }

    /** A pointer field that stays NULL. */
    lemma SkipKid(n: nat, o: Opened)
      requires Open(n, o)
      ensures Open(n, o.(kids := o.kids + [Nothing]))
    {
      hide Layouts, HasAt;
      AppendForest(o.kids, Nothing, n + 1);
      if !exhausted {
        FitsForest(pool[..], o.kids, n + 1);
        HasNothing(pool[..], n + 1 + ForestSize(o.kids));
        AppendInPlace(pool[..], o.kids, Nothing, n + 1);
      }
    }

    /** Once all four fields are set, the tree is built. */
    lemma Close(n: nat, o: Opened, spec: Parsed)
      requires Open(n, o)
      requires !spec.ast.Nothing? && !spec.ast.Binary? && Children(spec.ast) == o.kids
      requires !exhausted ==> spec.rest == Pending() && spec.used == stringNext
      requires !exhausted ==> RootNode(spec.ast, n + 1) == o.node
      ensures Built(spec, Some(n), o.lo, o.before, o.was)
    {
      hide Layout, Layouts, HasAt, RootNode;
      SizeByChildren(spec.ast);
      if !exhausted {
        PlaceTree(pool[..], spec.ast, n, n, n + 1);
      }
    }

    // The four commands that allocate their node first, with the children they have.

    lemma GroupBuilt(n: nat, o: Opened, shape: Shape, b: Ast, spec: Parsed)
      requires Open(n, o) && o.kids == [Nothing, Nothing, b] && spec.ast == Group(shape, b)
      requires !exhausted ==> spec.rest == Pending() && spec.used == stringNext
      requires !exhausted ==>
                 o.node == Blank(GroupNode(shape)).(body := PtrTo(b, n + 1 + ForestSize([Nothing, Nothing])))
      ensures Built(spec, Some(n), o.lo, o.before, o.was)
    {
      hide Laid, PtrTo, ForestSize, RootNode, Built, Valid, Pending;
      FourKids(Nothing, Nothing, b, Nothing);
      SkipKid(n, o);
      GroupRoot(shape, b, n + 1);
      Close(n, o.(kids := [Nothing, Nothing, b, Nothing]), spec);
    }

    lemma WhileBuilt(n: nat, o: Opened, c: Ast, b: Ast, spec: Parsed)
      requires Open(n, o) && o.kids == [c, b] && spec.ast == While(c, b)
      requires !exhausted ==> spec.rest == Pending() && spec.used == stringNext
      requires !exhausted ==> o.node == Blank(WhileNode).(left := PtrTo(c, n + 1 + ForestSize([])),
                                                          right := PtrTo(b, n + 1 + ForestSize([c])))
      ensures Built(spec, Some(n), o.lo, o.before, o.was)
    {
      hide Laid, PtrTo, ForestSize, RootNode, Built, Valid, Pending;
      FourKids(c, b, Nothing, Nothing);
      SkipKid(n, o);
      SkipKid(n, o.(kids := [c, b, Nothing]));
      WhileRoot(c, b, n + 1);
      Close(n, o.(kids := [c, b, Nothing, Nothing]), spec);
    }

    lemma ForBuilt(n: nat, o: Opened, name: string, words: seq<string>, b: Ast, spec: Parsed)
      requires Open(n, o) && o.kids == [Nothing, b] && spec.ast == For(name, words, b)
      requires !exhausted ==> spec.rest == Pending() && spec.used == stringNext
      requires !exhausted ==> o.node == Blank(ForNode).(forVar := name, forWords := words,
                                                        right := PtrTo(b, n + 1 + ForestSize([Nothing])))
      ensures Built(spec, Some(n), o.lo, o.before, o.was)
    {
      hide Laid, PtrTo, ForestSize, RootNode, Built, Valid, Pending;
      FourKids(Nothing, b, Nothing, Nothing);
      SkipKid(n, o);
      SkipKid(n, o.(kids := [Nothing, b, Nothing]));
      ForRoot(name, words, b, n + 1);
      Close(n, o.(kids := [Nothing, b, Nothing, Nothing]), spec);
    }

    /** The node of a group, before its body is read. */
    method OpenGroup(shape: Shape) returns (n: nat, ghost o: Opened)
      requires Valid() && peeked && cur != Eof
      modifies this`text, this`cur, this`peeked, this`nodeNext, this`exhausted, pool
      ensures Open(n, o) && Pending() == Advance(old(Pending()))
      ensures o == Opened(Blank(GroupNode(shape)), old(nodeNext), old(pool[..]), old(exhausted), [Nothing, Nothing])
    {
      hide Laid, Valid, Pending, Advance;
      FourKids(Nothing, Nothing, Nothing, Nothing);
      NextToken();
      n, o := OpenNode(GroupNode(shape));
      SkipKid(n, o);
      SkipKid(n, o.(kids := [Nothing]));
      o := o.(kids := [Nothing, Nothing]);
    }

    lemma GroupSpec(ts: Tokens, used: nat, shape: Shape)
      requires Peek(ts) == if shape == Brace then LBrace else LParen
      ensures var b := ParseList(env, Advance(ts), used);
              ParseCommand(env, ts, used)
              == Parsed(Group(shape, b.ast), Expect(b.rest, if shape == Brace then RBrace else RParen), b.used)
    {
      hide ParseCommand, ParseList, Expect, Advance;
      CommandCases(env, ts, used);
    }

    method ReadGroup(shape: Shape) returns (p: Ptr)
      requires Valid() && peeked && cur == (if shape == Brace then LBrace else LParen)
      modifies this, pool
      ensures Built(ParseCommand(env, old(Pending()), old(stringNext)), p, old(nodeNext), old(pool[..]), old(exhausted))
      ensures Count(Pending()) <= old(Count(Pending()))
      decreases Count(Pending()), 2
    {
      hide ParseCommand, ParseList, Laid, Valid, Pending, PtrTo, ForestSize, Built, Count, Advance, Expect;
      Waiting();
      ghost var c := ParseList(env, Advance(Pending()), stringNext);
      ghost var spec := ParseCommand(env, Pending(), stringNext);
      GroupSpec(Pending(), stringNext, shape);
      FourKids(Nothing, Nothing, c.ast, Nothing);
      ghost var o;
      var n;
      n, o := OpenGroup(shape);
      o := ReadSide(n, BodyField, o, c);
      ExpectToken(if shape == Brace then RBrace else RParen);
      GroupBuilt(n, o, shape, c.ast, spec);
      p := Some(n);
    }

    /** One more word for the loop of node `n`. */
    method AddForWordHere(n: nat)
      requires n < pool.Length
      modifies this`stringNext, pool
      ensures pool[..] == old(pool[..])[n := old(pool[n]).(forWords := pool[n].forWords)]
      ensures (pool[n].forWords, stringNext) == AddForWord(env, cur, old(pool[n].forWords), old(stringNext))
    {
      if cur.Word? && |pool[n].forWords| < MAX_FOR_WORDS {
        var expanded := ExpandHere(cur.text);
        var kept := StrDup(expanded);
        SetNode(n, pool[n].(forWords := pool[n].forWords + [kept]));
      }
    }

    /** The words after `in`, collected in the node. */
    method ReadWords(n: nat)
      requires Valid() && n < MAX_NODES
      modifies this`text, this`cur, this`peeked, this`stringNext, pool
      ensures Valid() && pool[..] == old(pool[..])[n := old(pool[n]).(forWords := pool[n].forWords)]
      ensures (pool[n].forWords, Pending(), stringNext)
           == WordsLoop(env, old(Pending()), old(pool[n].forWords), old(stringNext))
    {
      hide AddForWord, Lex, Count;
      PeekToken();
      while !EndsWords(cur)
        invariant Valid() && peeked && cur == Peek(Pending())
        invariant pool[..] == old(pool[..])[n := old(pool[n]).(forWords := pool[n].forWords)]
        invariant WordsLoop(env, Pending(), pool[n].forWords, stringNext)
               == WordsLoop(env, old(Pending()), old(pool[n].forWords), old(stringNext))
        decreases Count(Pending())
      {
        Waiting();
        AddForWordHere(n);
        NextToken();
        PeekToken();
      }
    }

    /** Everything between `for` and the body. */
    method ReadForHeader(n: nat)
      requires Valid() && n < MAX_NODES && peeked && cur == Word("for")
      modifies this`text, this`cur, this`peeked, this`stringNext, pool
      ensures Valid()
      ensures pool[..] == old(pool[..])[n := old(pool[n]).(forVar := pool[n].forVar, forWords := pool[n].forWords)]
      ensures Count(Pending()) < old(Count(Pending()))
      ensures old(pool[n].forVar) == "" && old(pool[n].forWords) == [] ==>
                (pool[n].forVar, pool[n].forWords, Pending(), stringNext)
                == ForHeader(env, old(Pending()), old(stringNext))
    {
      hide Lex, SkipNewlines, WordsLoop, Count;
      NextToken();
      PeekToken();
      if cur.Word? {
        SetNode(n, pool[n].(forVar := cur.text[..Min(|cur.text|, NAME_ROOM)]));
        NextToken();
      }
      PeekToken();
      if cur == Word("in") {
        NextToken();
        ReadWords(n);
      }
      SkipSeparators();
      ExpectToken(Word("do"));
      SkipSeparators();
    }

    /** One more child, put into a field of the open node. */
    method ReadSide(n: nat, f: Field, ghost o: Opened, ghost c: Parsed) returns (ghost o': Opened)
      requires Open(n, o) && (!exhausted ==> c == ParseList(env, Pending(), stringNext))
      modifies this, pool
      ensures Open(n, o') && o' == o.(kids := o.kids + [c.ast], node := o'.node)
      ensures Count(Pending()) <= old(Count(Pending())) && (old(exhausted) ==> exhausted)
      ensures var p := PtrTo(c.ast, n + 1 + ForestSize(o.kids));
              !exhausted ==>
                && Pending() == c.rest && stringNext == c.used
                && o'.node == Put(o.node, f, p)
      decreases Count(Pending()), 8
    {
      hide ParseList, Laid, Lex, PtrTo, ForestSize;
      var p;
      p, o' := ReadChild(n, o, c);
      NodeIsOpen(n, o');
      o' := SetOpen(n, Put(pool[n], f, p), o');
    }

    /** `then` or `do`, and the list behind it. */
    method ReadBody(n: nat, keyword: string, ghost o: Opened, ghost b: Parsed) returns (ghost o': Opened)
      requires Open(n, o)
      requires !exhausted ==> b == ParseList(env, SkipNewlines(Expect(Pending(), Word(keyword))), stringNext)
      modifies this, pool
      ensures Open(n, o') && o' == o.(kids := o.kids + [b.ast], node := o'.node)
      ensures Count(Pending()) <= old(Count(Pending())) && (old(exhausted) ==> exhausted)
      ensures !exhausted ==>
                && Pending() == b.rest && stringNext == b.used
                && o'.node == o.node.(right := PtrTo(b.ast, n + 1 + ForestSize(o.kids)))
      decreases Count(Pending()), 9
    {
      hide ParseList, Laid, Valid, Pending, PtrTo, ForestSize, SkipNewlines, Count, Advance, Expect;
      ExpectToken(Word(keyword));
      SkipSeparators();
      o' := ReadSide(n, RightField, o, b);
    }

    /** A node and its first list. */
    method ReadCondition(kind: Kind, ghost c: Parsed) returns (n: nat, ghost o: Opened)
      requires Valid() && peeked && cur.Word?
      requires c == ParseList(env, SkipNewlines(Advance(Pending())), stringNext)
      modifies this, pool
      ensures Open(n, o) && o == Opened(o.node, old(nodeNext), old(pool[..]), old(exhausted), [] + [c.ast])
      ensures !exhausted ==>
                && Pending() == c.rest && stringNext == c.used
                && o.node == Blank(kind).(left := PtrTo(c.ast, n + 1 + ForestSize([])))
      ensures Count(Pending()) < old(Count(Pending()))
      decreases Count(Pending()), 0, 0
    {
      hide ParseList, Laid, Valid, Pending, PtrTo, ForestSize, SkipNewlines, Count, Advance;
      Waiting();
      NextToken();
      SkipSeparators();
      n, o := OpenNode(kind);
      o := ReadSide(n, LeftField, o, c);
    }

    /** What `if` and `while` share: a condition, `then` or `do`, and a body. */
    method ReadHead(kind: Kind, keyword: string) returns (n: nat, ghost o: Opened, ghost c: Parsed, ghost b: Parsed)
      requires Valid() && peeked && cur.Word?
      modifies this, pool
      ensures c == ParseList(env, SkipNewlines(Advance(old(Pending()))), old(stringNext))
      ensures b == ParseList(env, SkipNewlines(Expect(c.rest, Word(keyword))), c.used)
      ensures Open(n, o) && o == Opened(o.node, old(nodeNext), old(pool[..]), old(exhausted), [c.ast, b.ast])
      ensures !exhausted ==>
                && Pending() == b.rest && stringNext == b.used
                && o.node == Blank(kind).(left := PtrTo(c.ast, n + 1 + ForestSize([])),
                                          right := PtrTo(b.ast, n + 1 + ForestSize([c.ast])))
      ensures Count(Pending()) < old(Count(Pending()))
      decreases Count(Pending()), 0
    {
      hide ParseList, Laid, Open, Valid, Pending, PtrTo, ForestSize, SkipNewlines, Count, Advance, Expect, Peek, Lex;
      Waiting();
      c := ParseList(env, SkipNewlines(Advance(Pending())), stringNext);
      b := ParseList(env, SkipNewlines(Expect(c.rest, Word(keyword))), c.used);
      FourKids(c.ast, b.ast, Nothing, Nothing);
      n, o := ReadCondition(kind, c);
      o := ReadBody(n, keyword, o, b);
    }

    method ReadWhile() returns (p: Ptr)
      requires Valid() && peeked && cur == Word("while")
      modifies this, pool
      ensures Built(ParseWhile(env, old(Pending()), old(stringNext)), p, old(nodeNext), old(pool[..]), old(exhausted))
      ensures Count(Pending()) <= old(Count(Pending()))
      decreases Count(Pending()), 1
    {
      hide ParseList, Laid, Valid, Pending, PtrTo, ForestSize, RootNode, Built, SkipNewlines, Count, Advance, Expect;
      Waiting();
      ghost var spec := ParseWhile(env, Pending(), stringNext);
      ghost var o, c, d;
      var n;
      n, o, c, d := ReadHead(WhileNode, "do");
      ExpectToken(Word("done"));
      WhileBuilt(n, o, c.ast, d.ast, spec);
      p := Some(n);
    }

    method ReadElse(n: nat, ghost o: Opened, ghost e: Parsed) returns (p: Ptr, ghost o': Opened)
      requires Open(n, o) && (!exhausted ==> e == ParseElse(env, Pending(), stringNext))
      modifies this, pool
      ensures o' == o.(kids := o.kids + [e.ast]) && Open(n, o') && Count(Pending()) <= old(Count(Pending()))
      ensures old(exhausted) ==> exhausted
      ensures !exhausted ==>
                p == PtrTo(e.ast, n + 1 + ForestSize(o.kids)) && Pending() == e.rest && stringNext == e.used
      decreases Count(Pending()), 2
    {
      hide ParseList, ParseIf, Layout, Layouts, HasAt, Lex, ForestSize;
      ghost var mid, pool0 := nodeNext, pool[..];
      o' := o.(kids := o.kids + [e.ast]);
      PeekToken();
      if cur == Word("elif") {
        p := ReadIf();
        AddKid(n, o, e, p, mid, pool0, old(exhausted));
      } else if cur == Word("else") {
        NextToken();
        SkipSeparators();
        ghost var c := if exhausted then e else ParseList(env, Pending(), stringNext);
        p, o' := ReadChild(n, o, c);
        ExpectToken(Word("fi"));
      } else {
        p := None;
        ExpectToken(Word("fi"));
        if exhausted {
          SkipMissing(n, o, e.ast);
        } else {
          SkipKid(n, o);
        }
      }
    }

    lemma SkipMissing(n: nat, o: Opened, a: Ast)
      requires Open(n, o) && exhausted
      ensures Open(n, o.(kids := o.kids + [a]))
    {
      AppendForest(o.kids, a, n + 1);
    }

    /** The rest of an `if`, put into its field. */
    method ReadElsePart(n: nat, ghost o: Opened, ghost e: Parsed) returns (ghost o': Opened)
      requires Open(n, o) && (!exhausted ==> e == ParseElse(env, Pending(), stringNext))
      modifies this, pool
      ensures Open(n, o') && o' == o.(kids := o.kids + [e.ast], node := o'.node)
      ensures Count(Pending()) <= old(Count(Pending())) && (old(exhausted) ==> exhausted)
      ensures !exhausted ==>
                && Pending() == e.rest && stringNext == e.used
                && o'.node == o.node.(elsePart := PtrTo(e.ast, n + 1 + ForestSize(o.kids)))
      decreases Count(Pending()), 3
    {
      hide ParseElse, Laid, Valid, Pending, PtrTo, ForestSize, Count;
      var els;
      els, o' := ReadElse(n, o, e);
      NodeIsOpen(n, o');
      o' := SetOpen(n, pool[n].(elsePart := els), o');
    }

    lemma IfSpec(ts: Tokens, used: nat, c: Parsed, t: Parsed, e: Parsed)
      requires Peek(ts) != Eof && c == ParseList(env, SkipNewlines(Advance(ts)), used)
      requires t == ParseList(env, SkipNewlines(Expect(c.rest, Word("then"))), c.used)
      requires e == ParseElse(env, t.rest, t.used)
      ensures ParseIf(env, ts, used) == Parsed(If(c.ast, t.ast, e.ast), e.rest, e.used)
    {
      hide ParseList, ParseElse, SkipNewlines, Advance, Expect;
    }

    lemma IfBuilt(n: nat, o: Opened, c: Ast, t: Ast, e: Ast, spec: Parsed)
      requires Open(n, o) && o.kids == [c, t, Nothing, e] && spec.ast == If(c, t, e)
      requires !exhausted ==> spec.rest == Pending() && spec.used == stringNext
      requires !exhausted ==> o.node == Blank(IfNode).(left := PtrTo(c, n + 1 + ForestSize([])),
                                                       right := PtrTo(t, n + 1 + ForestSize([c])),
                                                       elsePart := PtrTo(e, n + 1 + ForestSize([c, t, Nothing])))
      ensures Built(spec, Some(n), o.lo, o.before, o.was)
    {
      hide Laid, PtrTo, ForestSize, RootNode, Built, Valid, Pending;
      IfRoot(c, t, e, n + 1);
      Close(n, o, spec);
    }

    method ReadIf() returns (p: Ptr)
      requires Valid() && peeked && (cur == Word("if") || cur == Word("elif"))
      modifies this, pool
      ensures Built(ParseIf(env, old(Pending()), old(stringNext)), p, old(nodeNext), old(pool[..]), old(exhausted))
      ensures Count(Pending()) <= old(Count(Pending()))
      decreases Count(Pending()), 1
    {
      hide ParseIf, ParseList, Laid, Open, Valid, Pending, PtrTo, ForestSize, Built, SkipNewlines;
      hide Count, Advance, Expect, Lex;
      Waiting();
      ghost var ts, used := Pending(), stringNext;
      ghost var o, c, t;
      var n;
      n, o, c, t := ReadHead(IfNode, "then");
      p := ReadIfRest(n, o, c, t, ts, used);
    }

    /** What follows the `then` list of an `if`. */
    method ReadIfRest(n: nat, ghost o: Opened, ghost c: Parsed, ghost t: Parsed, ghost ts: Tokens, ghost used: nat)
      returns (p: Ptr)
      requires Peek(ts) != Eof && c == ParseList(env, SkipNewlines(Advance(ts)), used)
      requires t == ParseList(env, SkipNewlines(Expect(c.rest, Word("then"))), c.used)
      requires Open(n, o) && o.kids == [c.ast, t.ast]
      requires !exhausted ==>
                 && Pending() == t.rest && stringNext == t.used
                 && o.node == Blank(IfNode).(left := PtrTo(c.ast, n + 1 + ForestSize([])),
                                             right := PtrTo(t.ast, n + 1 + ForestSize([c.ast])))
      modifies this, pool
      ensures Built(ParseIf(env, ts, used), p, o.lo, o.before, o.was)
      ensures Count(Pending()) <= old(Count(Pending()))
      decreases Count(Pending()), 4
    {
      hide ParseIf, ParseList, ParseElse, Laid, Open, Valid, Pending, PtrTo, ForestSize, Built, SkipNewlines;
      hide Count, Advance, Expect, Lex, Peek, Size;
      ghost var e := ParseElse(env, t.rest, t.used);
      ghost var o' := o.(kids := [c.ast, t.ast, Nothing]);
      FourKids(c.ast, t.ast, Nothing, e.ast);
      SkipKid(n, o);
      o' := ReadElsePart(n, o', e);
      IfSpec(ts, used, c, t, e);
      IfBuilt(n, o', c.ast, t.ast, e.ast, ParseIf(env, ts, used));
      p := Some(n);
    }

    /** The node of a `for`, with its variable and words. */
    method OpenFor() returns (n: nat, ghost o: Opened)
      requires Valid() && peeked && cur == Word("for")
      modifies this, pool
      ensures Open(n, o) && o == Opened(o.node, old(nodeNext), old(pool[..]), old(exhausted), [Nothing])
      ensures Count(Pending()) < old(Count(Pending())) && (old(exhausted) ==> exhausted)
      ensures !exhausted ==>
                var h := ForHeader(env, old(Pending()), old(stringNext));
                Pending() == h.2 && stringNext == h.3 && o.node == Blank(ForNode).(forVar := h.0, forWords := h.1)
    {
      hide ForHeader, Layouts, HasAt, Lex, ForestSize, Count;
      FourKids(Nothing, Nothing, Nothing, Nothing);
      n, o := OpenNode(ForNode);
      ghost var pool0 := pool[..];
      ReadForHeader(n);
      o := o.(node := pool[n]);
      if !exhausted {
        HasAtUpdate(pool0, Layouts([], n + 1), n + 1, n, pool[n]);
      }
      SkipKid(n, o);
      o := o.(kids := [Nothing]);
    }

    method ReadFor() returns (p: Ptr)
      requires Valid() && peeked && cur == Word("for")
      modifies this, pool
      ensures Built(ParseFor(env, old(Pending()), old(stringNext)), p, old(nodeNext), old(pool[..]), old(exhausted))
      ensures Count(Pending()) <= old(Count(Pending()))
      decreases Count(Pending()), 1
    {
      hide ParseList, ForHeader, Laid, Valid, Pending, PtrTo, ForestSize, Built, Count, Expect;
      Waiting();
      ghost var h := ForHeader(env, Pending(), stringNext);
      ghost var c := ParseList(env, h.2, h.3);
      ghost var spec := ParseFor(env, Pending(), stringNext);
      FourKids(Nothing, c.ast, Nothing, Nothing);
      ghost var o;
      var n;
      n, o := OpenFor();
      o := ReadSide(n, RightField, o, c);
      ExpectToken(Word("done"));
      ForBuilt(n, o, h.0, h.1, c.ast, spec);
      p := Some(n);
    }

    method ReadCommand() returns (p: Ptr)
      requires Valid()
      modifies this, pool
      ensures Built(ParseCommand(env, old(Pending()), old(stringNext)), p, old(nodeNext), old(pool[..]), old(exhausted))
      ensures Count(Pending()) <= old(Count(Pending()))
      decreases Count(Pending()), 3
    {
      hide ParseList, ParseIf, ParseWhile, ParseFor, ParseSimple, Layout, HasAt, Lex, Count;
      PeekToken();
      if cur == Word("if") {
        p := ReadIf();
      } else if cur == Word("while") {
        p := ReadWhile();
      } else if cur == Word("for") {
        p := ReadFor();
      } else if cur == LBrace {
        p := ReadGroup(Brace);
      } else if cur == LParen {
        p := ReadGroup(Subshell);
      } else {
        p := ReadSimple();
      }
    }

    /** The parsing half of run_string. A text whose tree has at most MAX_NODES nodes is parsed into
        exactly that tree: it fills the pool from node 0 on, reading the fields of its nodes the way
        run_node does gives the tree, and a walk over the pointers from its root, to any depth, meets
        each of the nodes once and nothing else. */
    method ParseString(input: string) returns (p: Ptr)
      requires Valid() && Lex(input).Some?
      modifies this, pool
      ensures Valid()
      ensures var spec := ParseList(env, Lex(input).value, 0);
              && (exhausted <==> Size(spec.ast) > MAX_NODES)
              && (Size(spec.ast) <= MAX_NODES ==>
                    && p == PtrTo(spec.ast, 0) && nodeNext == Size(spec.ast)
                    && HasAt(pool[..], Layout(spec.ast, 0), 0)
                    && Pending() == spec.rest && stringNext == spec.used
                    && TreeAt(pool[..], p, nodeNext) == spec.ast
                    && forall depth: nat, i: nat :: depth >= nodeNext ==>
                         Met(pool[..], p, depth, i) == Within(0, i, nodeNext))
    {
      hide Layout, HasAt, Met, ParseList, Lex, TreeAt;
      text, peeked, nodeNext, stringNext := input, false, 0, 0;
      exhausted := false;
      p := ReadList();
      ghost var a := ParseList(env, Lex(input).value, 0).ast;
      if !exhausted {
        TreeComesBack(pool[..], a, 0, nodeNext);
        forall depth: nat, i: nat | depth >= nodeNext
          ensures Met(pool[..], p, depth, i) == Within(0, i, nodeNext)
        {
          WalkIsInterval(pool[..], a, 0, depth, i);
        }
      }
    }
  }
}
