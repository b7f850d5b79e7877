/** The parser that runs the tables (Parse, yy_shift, yy_reduce): the stack always spells
    what has been read, and acceptance means derivation. */
module Driver {
  import opened Grammars
  import opened Items
  import opened Tables
  import opened Walks

  datatype Entry = Entry(stateno: nat, major: nat)

  /** How a turn of the loop in Parse, or a call of Parse, ends. */
  datatype Status = Reduced | Shifted | Accepted | Overflow | SyntaxError | Stuck | Running

  /** yy_shift: nothing is left of the stack when it overflows. */
  function Push(depth: nat, stack: seq<Entry>, e: Entry, done: Status): (Status, seq<Entry>) {
    if |stack| >= depth then (Overflow, []) else (done, stack + [e])
  }

  /** yy_reduce.  Stuck stands for popping more than there is, and for a lookup that
      gives neither a state nor the accept action. */
  function ReduceBy(t: ParserTables, depth: nat, stack: seq<Entry>, r: nat): (Status, seq<Entry>) {
    if r >= |t.rules| || t.rules[r].1 >= |stack| then (Stuck, stack)
    else
      var base := stack[..|stack| - t.rules[r].1];
      var q := base[|base| - 1].stateno;
      if !(q < |t.reduceOfst| == |t.dflt| && |t.lookahead| == |t.action|) then (Stuck, stack)
      else
        var act := FindReduceAction(t, q, t.rules[r].0);
        if 0 <= act < t.d.nstate then Push(depth, base, Entry(act, t.rules[r].0), Reduced)
        else if act == t.d.AcceptCode() then (Accepted, [])
        else (Stuck, base)
  }

  /** One turn of the loop in Parse. */
  function Turn(t: ParserTables, depth: nat, stack: seq<Entry>, major: nat): (Status, seq<Entry>) {
    if stack == [] || !(stack[|stack| - 1].stateno < |t.shiftOfst| == |t.dflt| && |t.lookahead| == |t.action|) then (Stuck, stack)
    else
      var act := FindShiftAction(t, stack[|stack| - 1].stateno, major);
      if act < 0 then (Stuck, stack)
      else if act < t.d.nstate then Push(depth, stack, Entry(act, major), Shifted)
      else if act < t.d.nstate + t.d.nrule then ReduceBy(t, depth, stack, act - t.d.nstate)
      else if act == t.d.ErrorCode() then (SyntaxError, stack)
      else (Accepted, [])
  }

  /** Only a full stack overflows. */
  lemma OverflowMeansFull(t: ParserTables, depth: nat, stack: seq<Entry>, major: nat)
    ensures Turn(t, depth, stack, major).0.Overflow? ==> |stack| >= depth
  {
  }

  /** A call of Parse on one token, for at most so many turns: a shifted end of input stays
      the lookahead. */
  function Run(t: ParserTables, depth: nat, stack: seq<Entry>, major: nat, fuel: nat): (Status, seq<Entry>)
    decreases fuel
  {
    if fuel == 0 then (Running, stack)
    else
      var (status, next) := Turn(t, depth, stack, major);
      if status.Reduced? || (status.Shifted? && major == 0) then Run(t, depth, next, major, fuel - 1) else (status, next)
  }

  // ----- What the stack says -----

  /** The states of the stack follow the transitions of the automaton. */
  ghost predicate OnPath(w: Walk, stack: seq<Entry>) {
    && stack != [] && stack[0].stateno == 0
    && forall k :: 0 < k < |stack| ==> Follows(w, stack[k - 1].stateno, stack[k])
  }

  ghost predicate Follows(w: Walk, p: nat, e: Entry) {
    p < w.n && w.step(p, e.major) == e.stateno
  }

  /** Trees for the symbols of the stack, over the tokens read. */
  ghost predicate Spells(g: Grammar, stack: seq<Entry>, ts: seq<Tree>, consumed: seq<nat>) {
    && ValidForest(g, ts) && |ts| + 1 == |stack| && Yields(ts) == consumed
    && forall k :: 0 <= k < |ts| ==> Root(g, ts[k]) == stack[k + 1].major
  }

  ghost predicate StackOk(g: Grammar, w: Walk, stack: seq<Entry>, consumed: seq<nat>) {
    OnPath(w, stack) && AllTerminals(g, consumed) && exists ts :: Spells(g, stack, ts, consumed)
  }

  lemma StateOnPath(g: Grammar, w: Walk, stack: seq<Entry>, k: nat)
    requires Walkable(g, w) && OnPath(w, stack) && k < |stack|
    ensures stack[k].stateno < w.n && (stack[k].stateno == 0 <==> k == 0)
  {
    if k > 0 {
      assert Follows(w, stack[k - 1].stateno, stack[k]);
      assert StepOk(g, w, stack[k - 1].stateno, stack[k].major);
    }
  }

  /** One symbol down the stack, an item has its dot one symbol to the left. */
  lemma DotBack(g: Grammar, w: Walk, p: nat, e: Entry, it: Item)
    requires Walkable(g, w) && Follows(w, p, e) && it in w.items(e.stateno) && it.dot > 0
    ensures Item(it.rule, it.dot - 1) in w.items(p)
    ensures Ok(g, it) && g.rules[it.rule].rhs[it.dot - 1] == e.major
  {
    assert StepOk(g, w, p, e.major);
  }

  /** The symbols an item has read are on top of the stack, and below them is a state
      where its rule began. */
  lemma {:induction false} PopsHandle(g: Grammar, w: Walk, stack: seq<Entry>, it: Item)
    requires Walkable(g, w) && OnPath(w, stack) && it in w.items(stack[|stack| - 1].stateno)
    ensures it.dot < |stack| && Ok(g, it)
    ensures forall k :: 0 <= k < it.dot ==> stack[|stack| - it.dot + k].major == g.rules[it.rule].rhs[k]
    ensures Item(it.rule, 0) in w.items(stack[|stack| - 1 - it.dot].stateno)
    decreases |stack|
  {
    var top := |stack| - 1;
    StateOnPath(g, w, stack, top);
    ItemOk(g, w, stack[top].stateno, it);
    if it.dot > 0 {
      assert Follows(w, stack[top - 1].stateno, stack[top]);
      DotBack(g, w, stack[top - 1].stateno, stack[top], it);
      PopsHandle(g, w, stack[..top], Item(it.rule, it.dot - 1));
    }
  }

  lemma ItemOk(g: Grammar, w: Walk, i: nat, it: Item)
    requires Walkable(g, w) && i < w.n && it in w.items(i)
    ensures Ok(g, it) && (i == 0 ==> it.dot == 0)
    ensures it.dot == 0 ==> if g.rules[it.rule].lhs == g.start then i == 0 else w.step(i, g.rules[it.rule].lhs) >= 0
    ensures HasNext(g, it) ==> w.step(i, Next(g, it)) >= 0
  {
    assert ItemsOk(g, w, i);
  }

  // ----- One turn keeps it -----

  lemma PushOk(g: Grammar, w: Walk, stack: seq<Entry>, ts: seq<Tree>, e: Entry, tree: Tree)
    requires Walkable(g, w) && OnPath(w, stack) && Follows(w, stack[|stack| - 1].stateno, e)
    requires Spells(g, stack, ts, Yields(ts)) && ValidTree(g, tree) && Root(g, tree) == e.major
    ensures OnPath(w, stack + [e]) && Spells(g, stack + [e], ts + [tree], Yields(ts) + Yield(tree))
  {
    YieldsConcat(ts, [tree]);
    YieldsSingle(tree);
    var longer := stack + [e];
    forall k | 0 < k < |longer|
      ensures Follows(w, longer[k - 1].stateno, longer[k])
    {
      if k < |stack| { assert Follows(w, stack[k - 1].stateno, stack[k]); }
    }
  }

  /** Shifting a token: it is read. */
  lemma ShiftKeeps(g: Grammar, w: Walk, stack: seq<Entry>, consumed: seq<nat>, e: Entry)
    requires Walkable(g, w) && StackOk(g, w, stack, consumed) && g.IsTerminal(e.major) && e.major < g.nsymbol
    requires Follows(w, stack[|stack| - 1].stateno, e)
    ensures StackOk(g, w, stack + [e], consumed + [e.major])
  {
    var ts :| Spells(g, stack, ts, consumed);
    PushOk(g, w, stack, ts, e, Leaf(e.major));
  }

  /** Popping a handle: its trees become the children of one. */
  lemma PopOk(g: Grammar, w: Walk, stack: seq<Entry>, ts: seq<Tree>, r: nat) returns (tree: Tree, rest: seq<Tree>)
    requires Walkable(g, w) && OnPath(w, stack) && Spells(g, stack, ts, Yields(ts)) && r < |g.rules|
    requires var n := |g.rules[r].rhs|; n < |stack| && forall k :: 0 <= k < n ==> stack[|stack| - n + k].major == g.rules[r].rhs[k]
    ensures ValidTree(g, tree) && Root(g, tree) == g.rules[r].lhs && Yields(rest) + Yield(tree) == Yields(ts)
    ensures var base := stack[..|stack| - |g.rules[r].rhs|]; OnPath(w, base) && Spells(g, base, rest, Yields(rest))
  {
    var n := |g.rules[r].rhs|;
    var m := |ts| - n;
    rest := ts[..m];
    tree := Node(r, ts[m..]);
    YieldsConcat(rest, ts[m..]);
    assert rest + ts[m..] == ts;
    BaseOnPath(w, stack, |stack| - n);
    BaseSpells(g, stack, ts, m);
    HandleTree(g, stack, ts, m, r);
  }

  lemma BaseOnPath(w: Walk, stack: seq<Entry>, m: nat)
    requires OnPath(w, stack) && 0 < m <= |stack|
    ensures OnPath(w, stack[..m])
  {
    var base := stack[..m];
    forall k | 0 < k < |base| ensures Follows(w, base[k - 1].stateno, base[k]) { assert Follows(w, stack[k - 1].stateno, stack[k]); }
  }

  lemma BaseSpells(g: Grammar, stack: seq<Entry>, ts: seq<Tree>, m: nat)
    requires Spells(g, stack, ts, Yields(ts)) && m <= |ts|
    ensures Spells(g, stack[..m + 1], ts[..m], Yields(ts[..m]))
  {
  }

  lemma HandleTree(g: Grammar, stack: seq<Entry>, ts: seq<Tree>, m: nat, r: nat)
    requires Spells(g, stack, ts, Yields(ts)) && m <= |ts| && r < |g.rules| && |ts| - m == |g.rules[r].rhs|
    requires forall k :: 0 <= k < |ts| - m ==> stack[m + 1 + k].major == g.rules[r].rhs[k]
    ensures ValidTree(g, Node(r, ts[m..]))
  {
    var children := ts[m..];
    forall k | 0 <= k < |children| ensures Root(g, children[k]) == g.rules[r].rhs[k] { assert children[k] == ts[m + k]; }
    assert Roots(g, children) == g.rules[r].rhs;
  }

  /** What is left of the stack, and the tree of what was popped. */
  lemma HandlePopped(g: Grammar, w: Walk, stack: seq<Entry>, consumed: seq<nat>, r: nat)
    returns (tree: Tree, rest: seq<Tree>, base: seq<Entry>)
    requires Walkable(g, w) && StackOk(g, w, stack, consumed)
    requires r < |g.rules| && Item(r, |g.rules[r].rhs|) in w.items(stack[|stack| - 1].stateno)
    ensures |g.rules[r].rhs| < |stack| && base == stack[..|stack| - |g.rules[r].rhs|]
    ensures OnPath(w, base) && Spells(g, base, rest, Yields(rest)) && Item(r, 0) in w.items(base[|base| - 1].stateno)
    ensures ValidTree(g, tree) && Root(g, tree) == g.rules[r].lhs && Yields(rest) + Yield(tree) == consumed
  {
    PopsHandle(g, w, stack, Item(r, |g.rules[r].rhs|));
    var ts :| Spells(g, stack, ts, consumed);
    tree, rest := PopOk(g, w, stack, ts, r);
    base := stack[..|stack| - |g.rules[r].rhs|];
  }

  /** A reduce by a rule that the top state has completed is never stuck: the goto lookup
      gives a state or acceptance; afterwards the stack spells the same tokens, and
      acceptance means that the start symbol derives them. */
  lemma ReduceKeeps(g: Grammar, w: Walk, t: ParserTables, depth: nat, stack: seq<Entry>, consumed: seq<nat>, r: nat)
    requires Walkable(g, w) && TablesFit(g, w, t) && StackOk(g, w, stack, consumed)
    requires r < |g.rules| && Item(r, |g.rules[r].rhs|) in w.items(stack[|stack| - 1].stateno)
    ensures var (status, next) := ReduceBy(t, depth, stack, r);
            match status
            case Reduced => StackOk(g, w, next, consumed)
            case Accepted => g.rules[r].lhs == g.start && Derives(g, g.start, consumed) && next == []
            case Overflow => next == []
            case _ => false
  {
    var lhs := g.rules[r].lhs;
    var tree, rest, base := HandlePopped(g, w, stack, consumed, r);
    var q := base[|base| - 1].stateno;
    StateOnPath(g, w, base, |base| - 1);
    ItemOk(g, w, q, Item(r, 0));
    if lhs == g.start {
      assert |base| == 1 && rest == [];
    } else {
      var e := Entry(w.step(q, lhs), lhs);
      assert StepOk(g, w, q, lhs);
      PushOk(g, w, base, rest, e, tree);
    }
  }

  /** The end-of-input symbol is no identifier, so no rule can name it. */
  ghost predicate EndNotNamed(g: Grammar) {
    forall r, i :: 0 <= r < |g.rules| && 0 <= i < |g.rules[r].rhs| ==> g.rules[r].rhs[i] != 0
  }

  lemma StepIsNamed(g: Grammar, w: Walk, i: nat, x: nat) returns (r: nat, k: nat)
    requires Walkable(g, w) && i < w.n && w.step(i, x) >= 0
    ensures r < |g.rules| && k < |g.rules[r].rhs| && g.rules[r].rhs[k] == x
  {
    assert StepOk(g, w, i, x);
    var it :| it in w.items(w.step(i, x)) && it.dot > 0;
    r, k := it.rule, it.dot - 1;
  }

  lemma EndNotShifted(g: Grammar, w: Walk, i: nat)
    requires Walkable(g, w) && EndNotNamed(g) && i < w.n
    ensures w.step(i, 0) < 0
  {
    if w.step(i, 0) >= 0 {
      var r, k := StepIsNamed(g, w, i, 0);
    }
  }

  /** The parser's setting: a grammar, its automaton, and tables that fit it. */
  ghost predicate Setting(g: Grammar, w: Walk, t: ParserTables) {
    Walkable(g, w) && TablesFit(g, w, t) && EndNotNamed(g)
  }

  /** What a turn or a call on the token `major` may end with.  It is never stuck. */
  ghost predicate Outcome(g: Grammar, w: Walk, consumed: seq<nat>, major: nat, status: Status, next: seq<Entry>) {
    match status
    case Shifted => major != 0 && StackOk(g, w, next, consumed + [major])
    case Reduced => StackOk(g, w, next, consumed)
    case Running => StackOk(g, w, next, consumed)
    case SyntaxError => StackOk(g, w, next, consumed)
    case Accepted => major == 0 && Derives(g, g.start, consumed) && next == []
    case Overflow => next == []
    case Stuck => false
  }

  lemma TurnKeeps(g: Grammar, w: Walk, t: ParserTables, depth: nat, stack: seq<Entry>, consumed: seq<nat>, major: nat)
    requires Setting(g, w, t) && StackOk(g, w, stack, consumed) && g.IsTerminal(major)
    ensures var (status, next) := Turn(t, depth, stack, major); Outcome(g, w, consumed, major, status, next)
  {
    var q := stack[|stack| - 1].stateno;
    StateOnPath(g, w, stack, |stack| - 1);
    var act := FindShiftAction(t, q, major);
    assert CellFits(g, w, q, major, act);
    if 0 <= act < t.d.nstate {
      EndNotShifted(g, w, q);
      ShiftKeeps(g, w, stack, consumed, Entry(act, major));
    } else if act < t.d.nstate + t.d.nrule {
      ReduceKeeps(g, w, t, depth, stack, consumed, act - t.d.nstate);
    }
  }

  /** A call of Parse, however many turns it takes. */
  lemma {:induction false} RunKeeps(g: Grammar, w: Walk, t: ParserTables, depth: nat, stack: seq<Entry>, consumed: seq<nat>, major: nat,
                                    fuel: nat)
    requires Setting(g, w, t) && StackOk(g, w, stack, consumed) && g.IsTerminal(major)
    ensures var (status, next) := Run(t, depth, stack, major, fuel);
            !status.Reduced? && Outcome(g, w, consumed, major, status, next)
    decreases fuel
  {
    if fuel > 0 {
      var (status, next) := Turn(t, depth, stack, major);
      TurnKeeps(g, w, t, depth, stack, consumed, major);
      if status.Reduced? { RunKeeps(g, w, t, depth, next, consumed, major, fuel - 1); }
    }
  }

  lemma EmptyStackOk(g: Grammar, w: Walk)
    ensures StackOk(g, w, [Entry(0, 0)], [])
  {
    assert Spells(g, [Entry(0, 0)], [], []);
  }

  // ----- The parser -----

  class Parser {
    const t: ParserTables
    const ndebug: bool            // the build that skips the overflow test after popping
    var yyidx: int                // index of the top of the stack, -1 when there is none
    const yystack: array<Entry>
    ghost const g: Grammar
    ghost const w: Walk
    ghost var consumed: seq<nat>  // tokens read since the stack was started

    ghost function Stack(): seq<Entry>
      requires -1 <= yyidx < yystack.Length
      reads this, yystack
    {
      yystack[..yyidx + 1]
    }

    ghost predicate Valid()
      reads this, yystack
    {
      && Setting(g, w, t) && -1 <= yyidx < yystack.Length && yystack.Length > 0
      && (yyidx >= 0 ==> StackOk(g, w, Stack(), consumed))
    }

    constructor (t: ParserTables, depth: nat, ndebug: bool, ghost g: Grammar, ghost w: Walk)
      requires Setting(g, w, t) && depth > 0
      ensures Valid() && fresh(yystack) && yystack.Length == depth && yyidx == -1
      ensures this.t == t && this.g == g && this.w == w
    {
      this.t, this.ndebug := t, ndebug;
      this.g, this.w := g, w;
      yyidx := -1;
      yystack := new Entry[depth](_ => Entry(0, 0));
      consumed := [];
    }

    /** yy_shift. */
    method YyShift(newState: nat, major: nat, ghost done: Status) returns (ok: bool)
      requires -1 <= yyidx < yystack.Length
      modifies this`yyidx, yystack
      ensures -1 <= yyidx < yystack.Length
      ensures (if ok then done else Overflow, Stack()) == Push(yystack.Length, old(Stack()), Entry(newState, major), done)
    {
      yyidx := yyidx + 1;
      if yyidx >= yystack.Length {
        yyidx := yyidx - 1;
        while yyidx >= 0
          invariant -1 <= yyidx < yystack.Length
        {
          yyidx := yyidx - 1;
        }
        return false;
      }
      yystack[yyidx] := Entry(newState, major);
      ok := true;
      assert Stack() == old(Stack()) + [Entry(newState, major)];
    }

    /** yy_reduce. */
    method YyReduce(ruleno: nat) returns (status: Status)
      requires -1 <= yyidx < yystack.Length && ruleno < |t.rules| && t.rules[ruleno].1 <= yyidx
      requires yystack[yyidx - t.rules[ruleno].1].stateno < |t.reduceOfst| == |t.dflt| && |t.lookahead| == |t.action|
      modifies this`yyidx, yystack
      ensures -1 <= yyidx < yystack.Length
      ensures (status, Stack()) == ReduceBy(t, yystack.Length, old(Stack()), ruleno)
    {
      ghost var stack := Stack();
      var yygoto, yysize := t.rules[ruleno].0, t.rules[ruleno].1;
      yyidx := yyidx - yysize;
      ghost var base := Stack();
      assert base == stack[..|stack| - yysize];
      var yyact := FindReduceAction(t, yystack[yyidx].stateno, yygoto);
      if 0 <= yyact < t.d.nstate {
        if ndebug && yysize > 0 {
          yyidx := yyidx + 1;
          yystack[yyidx] := Entry(yyact, yygoto);
          status := Reduced;
          assert Stack() == base + [Entry(yyact, yygoto)];
        } else {
          var ok := YyShift(yyact, yygoto, Reduced);
          status := if ok then Reduced else Overflow;
        }
      } else if yyact == t.d.AcceptCode() {
        yyidx := -1;
        status := Accepted;
      } else {
        status := Stuck;
      }
    }

    /** The body of the loop in Parse. */
    method ParseTurn(major: nat) returns (status: Status)
      requires Setting(g, w, t) && 0 <= yyidx < yystack.Length && OnPath(w, Stack()) && g.IsTerminal(major)
      modifies this`yyidx, yystack
      ensures -1 <= yyidx < yystack.Length
      ensures (status, Stack()) == Turn(t, yystack.Length, old(Stack()), major)
      ensures status.Overflow? ==> old(yyidx) + 1 >= yystack.Length
    {
      StateOnPath(g, w, Stack(), yyidx);
      var q := yystack[yyidx].stateno;
      var yyact := FindShiftAction(t, q, major);
      assert CellFits(g, w, q, major, yyact);
      if yyact < t.d.nstate {
        var ok := YyShift(yyact, major, Shifted);
        status := if ok then Shifted else Overflow;
      } else if yyact < t.d.nstate + t.d.nrule {
        ReduceReady(g, w, t, Stack(), yyact - t.d.nstate);
        status := YyReduce(yyact - t.d.nstate);
      } else {
        status := SyntaxError;
      }
    }

    /** The loop in Parse, for at most so many turns. */
    method ParseLoop(major: nat, fuel: nat, ghost read: seq<nat>) returns (status: Status)
      requires Setting(g, w, t) && 0 <= yyidx < yystack.Length && StackOk(g, w, Stack(), read) && g.IsTerminal(major)
      modifies this`yyidx, yystack
      ensures -1 <= yyidx < yystack.Length
      ensures (status, Stack()) == Run(t, yystack.Length, old(Stack()), major, fuel)
    {
      ghost var result := Run(t, yystack.Length, Stack(), major, fuel);
      var left := fuel;
      status := Reduced;
      while left > 0
        invariant 0 <= yyidx < yystack.Length && StackOk(g, w, Stack(), read)
        invariant result == Run(t, yystack.Length, Stack(), major, left)
      {
        TurnKeeps(g, w, t, yystack.Length, Stack(), read, major);
        status := ParseTurn(major);
        left := left - 1;
        if !status.Reduced? { return; }
      }
      status := Running;
    }

    /** An empty stack gets its first entry. */
    method Initialize()
      requires Valid()
      modifies this`yyidx, this`consumed, yystack
      ensures Valid() && yyidx >= 0
      ensures Stack() == (if old(yyidx) < 0 then [Entry(0, 0)] else old(Stack()))
      ensures consumed == (if old(yyidx) < 0 then [] else old(consumed))
    {
      if yyidx < 0 {
        yyidx := 0;
        yystack[0] := Entry(0, 0);
        consumed := [];
        EmptyStackOk(g, w);
        assert Stack() == [Entry(0, 0)];
      }
    }

    /** Parse, for at most so many turns: it runs the tables on the stack.  Whatever happens,
        the stack spells the tokens read, and acceptance comes only at the end of input and
        only for what the start symbol derives. */
    method Parse(major: nat, fuel: nat) returns (status: Status)
      requires Valid() && g.IsTerminal(major)
      modifies this`yyidx, this`consumed, yystack
      ensures Valid()
      ensures var stack := if old(yyidx) < 0 then [Entry(0, 0)] else old(Stack());
              var read := if old(yyidx) < 0 then [] else old(consumed);
              && (status, Stack()) == Run(t, yystack.Length, stack, major, fuel)
              && Outcome(g, w, read, major, status, Stack())
              && consumed == if status.Shifted? then read + [major] else read
    {
      Initialize();
      RunKeeps(g, w, t, yystack.Length, Stack(), consumed, major, fuel);
      status := ParseLoop(major, fuel, consumed);
      if status.Shifted? { consumed := consumed + [major]; }
    }
  }

  /** What yy_reduce needs is there. */
  lemma ReduceReady(g: Grammar, w: Walk, t: ParserTables, stack: seq<Entry>, r: nat)
    requires Setting(g, w, t) && OnPath(w, stack) && r < |g.rules|
    requires Item(r, |g.rules[r].rhs|) in w.items(stack[|stack| - 1].stateno)
    ensures t.rules[r].1 < |stack| && stack[|stack| - 1 - t.rules[r].1].stateno < w.n
  {
    PopsHandle(g, w, stack, Item(r, |g.rules[r].rhs|));
    StateOnPath(g, w, stack, |stack| - 1 - t.rules[r].1);
  }
}
