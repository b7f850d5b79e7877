/** What the generated parser accepts: exactly the language of the grammar, when the
    generator reports no conflict and no precedences are declared. */
module Language {
  import opened Grammars
  import opened FirstSets
  import opened Items
  import opened Configlists
  import opened States
  import opened Lookaheads
  import opened Actions
  import opened Tables
  import opened Generator
  import opened Walks
  import opened Driver

  // ----- Calls of Parse on a whole input -----

  /** One call of Parse for every token, as long as each is shifted; the first call has k
      turns left, the others `fuel`. */
  function Session(t: ParserTables, depth: nat, stack: seq<Entry>, input: seq<nat>, k: nat, fuel: nat): Status
    decreases |input|
  {
    if input == [] then Running
    else
      var (status, next) := Run(t, depth, stack, input[0], k);
      if status.Shifted? then Session(t, depth, next, input[1..], fuel, fuel) else status
  }

  /** The calls of Parse on w and then on end of input, by a parser that has no stack. */
  function ParseInput(t: ParserTables, depth: nat, w: seq<nat>, fuel: nat): Status {
    Session(t, depth, [Entry(0, 0)], w + [0], fuel, fuel)
  }

  /** Proper tokens: terminals other than end of input. */
  ghost predicate Tokens(g: Grammar, w: seq<nat>) {
    forall i :: 0 <= i < |w| ==> w[i] != 0 && g.IsTerminal(w[i])
  }

  lemma SessionStep(g: Grammar, w: Walk, t: ParserTables, depth: nat, stack: seq<Entry>, consumed: seq<nat>,
                    rest: seq<nat>, k: nat, fuel: nat) returns (next: seq<Entry>)
    requires Setting(g, w, t) && StackOk(g, w, stack, consumed) && Tokens(g, rest) && rest != []
    requires Session(t, depth, stack, rest + [0], k, fuel).Accepted?
    ensures StackOk(g, w, next, consumed + [rest[0]]) && Session(t, depth, next, rest[1..] + [0], fuel, fuel).Accepted?
  {
    var input := rest + [0];
    assert input[0] == rest[0] && input[1..] == rest[1..] + [0];
    next := Run(t, depth, stack, input[0], k).1;
    RunKeeps(g, w, t, depth, stack, consumed, input[0], k);
  }

  lemma SessionEnds(g: Grammar, w: Walk, t: ParserTables, depth: nat, stack: seq<Entry>, consumed: seq<nat>, k: nat, fuel: nat)
    requires Setting(g, w, t) && StackOk(g, w, stack, consumed)
    requires Session(t, depth, stack, [0], k, fuel).Accepted?
    ensures Derives(g, g.start, consumed)
  {
    RunKeeps(g, w, t, depth, stack, consumed, 0, k);
  }

  lemma HeadMoved(consumed: seq<nat>, rest: seq<nat>)
    requires rest != []
    ensures consumed + [rest[0]] + rest[1..] == consumed + rest
  {
  }

  lemma {:induction false} SessionSound(g: Grammar, w: Walk, t: ParserTables, depth: nat, stack: seq<Entry>, consumed: seq<nat>,
                                        rest: seq<nat>, k: nat, fuel: nat)
    requires Setting(g, w, t) && StackOk(g, w, stack, consumed) && Tokens(g, rest)
    requires Session(t, depth, stack, rest + [0], k, fuel).Accepted?
    ensures Derives(g, g.start, consumed + rest)
    decreases |rest|
  {
    if rest == [] {
      assert consumed + rest == consumed && rest + [0] == [0];
      SessionEnds(g, w, t, depth, stack, consumed, k, fuel);
    } else {
      var next := SessionStep(g, w, t, depth, stack, consumed, rest, k, fuel);
      SessionSound(g, w, t, depth, next, consumed + [rest[0]], rest[1..], fuel, fuel);
      HeadMoved(consumed, rest);
    }
  }

  /** Whatever is accepted is derived. */
  lemma AcceptedIsDerived(g: Grammar, w: Walk, t: ParserTables, depth: nat, tokens: seq<nat>, fuel: nat)
    requires Setting(g, w, t) && Tokens(g, tokens) && ParseInput(t, depth, tokens, fuel).Accepted?
    ensures Derives(g, g.start, tokens)
  {
    EmptyStackOk(g, w);
    SessionSound(g, w, t, depth, [Entry(0, 0)], [], tokens, fuel, fuel);
    assert [] + tokens == tokens;
  }

  // ----- Turns on a stack and an input -----

  datatype Progress = At(stack: seq<Entry>, input: seq<nat>) | Over | Bad

  function After(t: ParserTables, depth: nat, stack: seq<Entry>, input: seq<nat>): Progress {
    if input == [] then Bad
    else
      var (status, next) := Turn(t, depth, stack, input[0]);
      if status.Reduced? then At(next, input)
      else if status.Shifted? && input[0] != 0 then At(next, input[1..])
      else if status.Overflow? then Over
      else Bad
  }

  function Steps(t: ParserTables, depth: nat, stack: seq<Entry>, input: seq<nat>, n: nat): Progress
    decreases n
  {
    if n == 0 then At(stack, input)
    else
      match After(t, depth, stack, input)
      case At(next, rest) => Steps(t, depth, next, rest, n - 1)
      case Over => Over
      case Bad => Bad
  }

  /** The parser gets from one stack and input to another if its stack may hold as many entries
      as `peak`; otherwise it overflows. */
  ghost predicate Goes(t: ParserTables, depth: nat, stack: seq<Entry>, input: seq<nat>, stack': seq<Entry>, input': seq<nat>, peak: nat) {
    exists n :: GoesIn(t, depth, stack, input, stack', input', peak, n)
  }

  ghost predicate GoesIn(t: ParserTables, depth: nat, stack: seq<Entry>, input: seq<nat>, stack': seq<Entry>, input': seq<nat>,
                         peak: nat, n: nat) {
    Steps(t, depth, stack, input, n) == if peak <= depth then At(stack', input') else Over
  }

  lemma {:induction false} StepsAdd(t: ParserTables, depth: nat, stack: seq<Entry>, input: seq<nat>, n: nat, m: nat)
    ensures Steps(t, depth, stack, input, n + m) ==
            match Steps(t, depth, stack, input, n)
            case At(next, rest) => Steps(t, depth, next, rest, m)
            case p => p
    decreases n
  {
    if n > 0 {
      match After(t, depth, stack, input)
      case At(next, rest) => StepsAdd(t, depth, next, rest, n - 1, m);
      case _ =>
    }
  }

  lemma GoesOn(t: ParserTables, depth: nat, s0: seq<Entry>, i0: seq<nat>, s1: seq<Entry>, i1: seq<nat>, s2: seq<Entry>, i2: seq<nat>,
               peak: nat, peak': nat, highest: nat)
    requires Goes(t, depth, s0, i0, s1, i1, peak) && Goes(t, depth, s1, i1, s2, i2, peak') && highest == Max(peak, peak')
    ensures Goes(t, depth, s0, i0, s2, i2, highest)
  {
    var n: nat :| GoesIn(t, depth, s0, i0, s1, i1, peak, n);
    var m: nat :| GoesIn(t, depth, s1, i1, s2, i2, peak', m);
    StepsAdd(t, depth, s0, i0, n, m);
    assert GoesIn(t, depth, s0, i0, s2, i2, highest, n + m);
  }

  lemma GoesNowhere(t: ParserTables, depth: nat, stack: seq<Entry>, input: seq<nat>)
    ensures Goes(t, depth, stack, input, stack, input, 0)
  {
    assert GoesIn(t, depth, stack, input, stack, input, 0, 0);
  }

  lemma GoesOneStep(t: ParserTables, depth: nat, stack: seq<Entry>, input: seq<nat>, stack': seq<Entry>, input': seq<nat>, peak: nat)
    requires After(t, depth, stack, input) == if peak <= depth then At(stack', input') else Over
    ensures Goes(t, depth, stack, input, stack', input', peak)
  {
    assert Steps(t, depth, stack, input, 1) == After(t, depth, stack, input);
    assert GoesIn(t, depth, stack, input, stack', input', peak, 1);
  }

  // ----- The room that a derivation needs -----

  function Max(a: nat, b: nat): nat { if a < b then b else a }

  /** How many entries the stack grows by at most while a tree is read, its own one included. */
  function Need(tree: Tree): nat
    decreases tree, 0
  {
    match tree
    case Leaf(_) => 1
    case Node(_, ts) => Max(1, NeedAll(ts))
  }

  /** While some trees are read one after the other, the earlier ones staying on the stack. */
  function NeedAll(ts: seq<Tree>): nat
    decreases ts, 1
  {
    if ts == [] then 0 else Max(Need(ts[0]), 1 + NeedAll(ts[1..]))
  }

  /** It is the maximum over the trees of the number of those before and what the tree needs. */
  lemma {:induction false} NeedAllIsMax(ts: seq<Tree>)
    ensures forall i :: 0 <= i < |ts| ==> i + Need(ts[i]) <= NeedAll(ts)
    ensures ts != [] ==> exists i :: 0 <= i < |ts| && i + Need(ts[i]) == NeedAll(ts)
    decreases |ts|
  {
    if ts != [] {
      NeedAllIsMax(ts[1..]);
      forall i | 0 <= i < |ts| ensures i + Need(ts[i]) <= NeedAll(ts) {
        if i > 0 { assert ts[i] == ts[1..][i - 1]; }
      }
      if NeedAll(ts) == Need(ts[0]) {
        assert 0 + Need(ts[0]) == NeedAll(ts);
      } else {
        var i :| 0 <= i < |ts[1..]| && i + Need(ts[1..][i]) == NeedAll(ts[1..]);
        assert ts[1..][i] == ts[i + 1];
      }
    }
  }

  /** How high a stack of n entries grows. */
  function Peak(n: nat, ts: seq<Tree>): nat { if ts == [] then 0 else n + NeedAll(ts) }

  lemma PeakStep(n: nat, ts: seq<Tree>)
    requires ts != []
    ensures Peak(n, ts) == Max(n + Need(ts[0]), Peak(n + 1, ts[1..]))
  {
  }

  /** The derivation fits on a stack of this depth, whose first entry is the initial state. */
  predicate Fits(tree: Tree, depth: nat)
    requires tree.Node?
  {
    tree.children == [] || 1 + NeedAll(tree.children) <= depth
  }

  // ----- Lookaheads that suffice -----

  /** The lookaheads of the items of each state. */
  type Looks = (nat, Item) -> set<nat>

  /** What may follow the next symbol of an item. */
  ghost predicate MayFollow(a: Analysis, look: Looks, q: nat, it: Item, x: nat)
    requires a.Valid() && HasNext(a.g, it)
  {
    x in FirstOf(a.g, a.lambda, a.first, Rest(a.g, it)) || (AllLambda(a.lambda, Rest(a.g, it)) && x in look(q, it))
  }

  /** The lookaheads of an item reach the rules it asks for and the item advanced. */
  ghost predicate LooksOk(a: Analysis, w: Walk, look: Looks, q: nat)
    requires a.Valid()
  {
    AsksWith(a, w, look, q) && AdvancesOk(a.g, w, look, q)
  }

  ghost predicate AsksWith(a: Analysis, w: Walk, look: Looks, q: nat)
    requires a.Valid()
  {
    forall it, b :: it in w.items(q) && Expands(a.g, it, b) ==>
      b in w.items(q) && forall x :: MayFollow(a, look, q, it, x) ==> x in look(q, b)
  }

  ghost predicate AdvancesOk(g: Grammar, w: Walk, look: Looks, q: nat) {
    forall it :: it in w.items(q) && HasNext(g, it) && w.step(q, Next(g, it)) >= 0 ==>
      look(q, it) <= look(w.step(q, Next(g, it)), Advance(it))
  }

  /** The tables take the transitions on terminals, and the reduces on lookaheads. */
  ghost predicate TakesOk(g: Grammar, w: Walk, look: Looks, t: ParserTables, q: nat)
    requires TablesFit(g, w, t) && q < w.n
  {
    && (forall x :: 0 <= x < g.nterminal && w.step(q, x) >= 0 ==> FindShiftAction(t, q, x) == w.step(q, x))
    && (forall it, x :: it in w.items(q) && Complete(g, it) && x in look(q, it) && g.IsTerminal(x) ==>
          FindShiftAction(t, q, x) == w.n + it.rule)
  }

  ghost predicate Full(a: Analysis, w: Walk, look: Looks, t: ParserTables) {
    && a.Valid() && LambdaExact(a.g, a.lambda) && FirstExact(a.g, a.first)
    && Walkable(a.g, w) && TablesFit(a.g, w, t)
    && (forall q :: 0 <= q < w.n ==> LooksOk(a, w, look, q) && TakesOk(a.g, w, look, t, q))
    && forall r :: 0 <= r < |a.g.rules| && a.g.rules[r].lhs == a.g.start ==> Item(r, 0) in w.items(0) && 0 in look(0, Item(r, 0))
  }

  // ----- FIRST and lambda on forests -----

  lemma {:induction false} ForestStarts(a: Analysis, ts: seq<Tree>)
    requires a.Valid() && LambdaExact(a.g, a.lambda) && FirstExact(a.g, a.first) && ValidForest(a.g, ts)
    requires forall i :: 0 <= i < |ts| ==> Root(a.g, ts[i]) < a.g.nsymbol
    ensures Yields(ts) == [] ==> AllLambda(a.lambda, Roots(a.g, ts))
    ensures Yields(ts) != [] && a.g.IsTerminal(Yields(ts)[0]) ==> Yields(ts)[0] in FirstOf(a.g, a.lambda, a.first, Roots(a.g, ts))
  {
    if ts != [] {
      ForestStarts(a, ts[1..]);
      var x, y := Root(a.g, ts[0]), Yield(ts[0]);
      assert Roots(a.g, ts) == [x] + Roots(a.g, ts[1..]);
      assert Derives(a.g, x, y);
      if y == [] {
        assert Nullable(a.g, x);
      } else if a.g.IsNonterminal(x) && a.g.IsTerminal(y[0]) {
        assert StartsWith(a.g, x, y[0]);
      } else if a.g.IsTerminal(x) {
        TerminalTree(a.g, ts[0]);
      }
    }
  }

  lemma TerminalTree(g: Grammar, tree: Tree)
    requires g.Valid() && ValidTree(g, tree) && g.IsTerminal(Root(g, tree))
    ensures tree == Leaf(Root(g, tree))
  {
  }

  // ----- Following a derivation -----

  /** The state on top of the stack. */
  function Top(stack: seq<Entry>): nat
    requires stack != []
  {
    stack[|stack| - 1].stateno
  }

  function Next1(w: Walk, stack: seq<Entry>, x: nat): seq<Entry>
    requires stack != [] && w.step(Top(stack), x) >= 0
  {
    stack + [Entry(w.step(Top(stack), x), x)]
  }

  lemma PushOnPath(g: Grammar, w: Walk, stack: seq<Entry>, x: nat)
    requires Walkable(g, w) && OnPath(w, stack) && w.step(Top(stack), x) >= 0
    ensures OnPath(w, Next1(w, stack, x)) && Top(Next1(w, stack, x)) == w.step(Top(stack), x) < w.n
  {
    StateOnPath(g, w, stack, |stack| - 1);
    assert StepOk(g, w, Top(stack), x);
    var longer := Next1(w, stack, x);
    forall k | 0 < k < |longer|
      ensures Follows(w, longer[k - 1].stateno, longer[k])
    {
      if k < |stack| { assert Follows(w, stack[k - 1].stateno, stack[k]); }
    }
  }

  /** A token that can be shifted is shifted. */
  lemma LeafGoes(a: Analysis, w: Walk, look: Looks, t: ParserTables, depth: nat, stack: seq<Entry>, x: nat, rest: seq<nat>)
    requires Full(a, w, look, t) && OnPath(w, stack) && w.step(Top(stack), x) >= 0 && a.g.IsTerminal(x) && x != 0
    ensures Goes(t, depth, stack, [x] + rest, Next1(w, stack, x), rest, |stack| + 1)
  {
    var q := Top(stack);
    StateOnPath(a.g, w, stack, |stack| - 1);
    PushOnPath(a.g, w, stack, x);
    assert TakesOk(a.g, w, look, t, q);
    assert FindShiftAction(t, q, x) == w.step(q, x);
    assert ([x] + rest)[1..] == rest;
    GoesOneStep(t, depth, stack, [x] + rest, Next1(w, stack, x), rest, |stack| + 1);
  }

  /** A completed rule is reduced, and its symbol pushed. */
  lemma ReduceGoes(a: Analysis, w: Walk, look: Looks, t: ParserTables, depth: nat, base: seq<Entry>, stack: seq<Entry>, r: nat, rest: seq<nat>)
    requires Full(a, w, look, t) && OnPath(w, base) && OnPath(w, stack) && base <= stack && r < |a.g.rules|
    requires |stack| == |base| + |a.g.rules[r].rhs| && w.step(Top(base), a.g.rules[r].lhs) >= 0
    requires rest != [] && a.g.IsTerminal(rest[0])
    requires Item(r, |a.g.rules[r].rhs|) in w.items(Top(stack)) && rest[0] in look(Top(stack), Item(r, |a.g.rules[r].rhs|))
    ensures Goes(t, depth, stack, rest, Next1(w, base, a.g.rules[r].lhs), rest, |base| + 1)
  {
    var q, p, lhs := Top(stack), Top(base), a.g.rules[r].lhs;
    StateOnPath(a.g, w, stack, |stack| - 1);
    StateOnPath(a.g, w, base, |base| - 1);
    PushOnPath(a.g, w, base, lhs);
    assert TakesOk(a.g, w, look, t, q);
    assert FindShiftAction(t, q, rest[0]) == w.n + r;
    assert stack[..|stack| - |a.g.rules[r].rhs|] == base;
    assert FindReduceAction(t, p, lhs) == w.step(p, lhs);
    GoesOneStep(t, depth, stack, rest, Next1(w, base, lhs), rest, |base| + 1);
  }

  /** The rule that the root of the tree applies is one the item asks for. */
  lemma AskedFor(a: Analysis, w: Walk, look: Looks, t: ParserTables, q: nat, it: Item, r: nat, x: nat)
    requires Full(a, w, look, t) && q < w.n && it in w.items(q) && HasNext(a.g, it)
    requires r < |a.g.rules| && Next(a.g, it) == a.g.rules[r].lhs && MayFollow(a, look, q, it, x)
    ensures Item(r, 0) in w.items(q) && x in look(q, Item(r, 0)) && w.step(q, a.g.rules[r].lhs) >= 0
  {
    assert Expands(a.g, it, Item(r, 0));
    assert LooksOk(a, w, look, q);
    ItemOk(a.g, w, q, it);
  }

  /** An item advances with its lookaheads. */
  lemma AdvancesWith(a: Analysis, w: Walk, look: Looks, t: ParserTables, q: nat, it: Item, x: nat)
    requires Full(a, w, look, t) && q < w.n && it in w.items(q) && HasNext(a.g, it) && x in look(q, it)
    ensures w.step(q, Next(a.g, it)) >= 0
    ensures Advance(it) in w.items(w.step(q, Next(a.g, it))) && x in look(w.step(q, Next(a.g, it)), Advance(it))
  {
    ItemOk(a.g, w, q, it);
    assert StepOk(a.g, w, q, Next(a.g, it));
    assert LooksOk(a, w, look, q);
  }

  /** The children that are left, and what comes behind them. */
  lemma RestFollows(a: Analysis, w: Walk, look: Looks, q: nat, it: Item, ts: seq<Tree>, rest: seq<nat>)
    requires a.Valid() && LambdaExact(a.g, a.lambda) && FirstExact(a.g, a.first) && HasNext(a.g, it)
    requires ValidForest(a.g, ts) && Roots(a.g, ts) == Rest(a.g, it) && Tokens(a.g, Yields(ts))
    requires rest != [] && rest[0] in look(q, it)
    ensures MayFollow(a, look, q, it, (Yields(ts) + rest)[0])
  {
    forall i | 0 <= i < |ts|
      ensures Root(a.g, ts[i]) < a.g.nsymbol
    {
      assert Roots(a.g, ts)[i] == a.g.rules[it.rule].rhs[it.dot + 1 + i];
    }
    ForestStarts(a, ts);
  }

  lemma TokensSplit(g: Grammar, v: seq<nat>, w: seq<nat>)
    requires Tokens(g, v + w)
    ensures Tokens(g, v) && Tokens(g, w)
  {
    forall i | 0 <= i < |v| ensures v[i] != 0 && g.IsTerminal(v[i]) { assert (v + w)[i] == v[i]; }
    forall i | 0 <= i < |w| ensures w[i] != 0 && g.IsTerminal(w[i]) { assert (v + w)[|v| + i] == w[i]; }
  }

  /** A stack whose top has the item with trees for what it has left to read, and an input
      behind them that begins with one of the item's lookaheads. */
  ghost predicate Ready(a: Analysis, w: Walk, look: Looks, stack: seq<Entry>, it: Item, ts: seq<Tree>, rest: seq<nat>) {
    && OnPath(w, stack) && it in w.items(Top(stack)) && Ok(a.g, it)
    && ValidForest(a.g, ts) && Roots(a.g, ts) == a.g.rules[it.rule].rhs[it.dot..] && Tokens(a.g, Yields(ts))
    && rest != [] && a.g.IsTerminal(rest[0]) && rest[0] in look(Top(stack), it)
  }

  /** From a state that asks for a tree's root, the parser reads the tree and pushes the
      root. */
  lemma {:induction false} TreeGoes(a: Analysis, w: Walk, look: Looks, t: ParserTables, depth: nat, stack: seq<Entry>, it: Item,
                                    tree: Tree, rest: seq<nat>)
    requires Full(a, w, look, t) && OnPath(w, stack) && it in w.items(Top(stack)) && HasNext(a.g, it)
    requires ValidTree(a.g, tree) && Root(a.g, tree) == Next(a.g, it) && Tokens(a.g, Yield(tree))
    requires rest != [] && a.g.IsTerminal(rest[0]) && MayFollow(a, look, Top(stack), it, rest[0])
    ensures w.step(Top(stack), Root(a.g, tree)) >= 0
    ensures Goes(t, depth, stack, Yield(tree) + rest, Next1(w, stack, Root(a.g, tree)), rest, |stack| + Need(tree))
    decreases tree, 0
  {
    var q := Top(stack);
    StateOnPath(a.g, w, stack, |stack| - 1);
    ItemOk(a.g, w, q, it);
    match tree
    case Leaf(x) =>
      assert Yield(tree) == [x] && [x][0] == x;
      LeafGoes(a, w, look, t, depth, stack, x, rest);
    case Node(r, ts) =>
      AskedFor(a, w, look, t, q, it, r, rest[0]);
      var top := ForestGoes(a, w, look, t, depth, stack, Item(r, 0), ts, rest);
      ReduceGoes(a, w, look, t, depth, stack, top, r, rest);
      GoesOn(t, depth, stack, Yields(ts) + rest, top, rest, Next1(w, stack, a.g.rules[r].lhs), rest, Peak(|stack|, ts), |stack| + 1,
             |stack| + Need(tree));
  }

  lemma ChildThenRest(t: ParserTables, depth: nat, s0: seq<Entry>, i0: seq<nat>, s1: seq<Entry>, i1: seq<nat>, s2: seq<Entry>, i2: seq<nat>,
                      ts: seq<Tree>, peak: nat)
    requires ts != [] && |s1| == |s0| + 1 && peak == Peak(|s1|, ts[1..])
    requires Goes(t, depth, s0, i0, s1, i1, |s0| + Need(ts[0])) && Goes(t, depth, s1, i1, s2, i2, peak)
    ensures Goes(t, depth, s0, i0, s2, i2, Peak(|s0|, ts))
  {
    PeakStep(|s0|, ts);
    GoesOn(t, depth, s0, i0, s1, i1, s2, i2, |s0| + Need(ts[0]), peak, Peak(|s0|, ts));
  }

  /** The same for the symbols of a rule that are left to read. */
  lemma {:induction false} ForestGoes(a: Analysis, w: Walk, look: Looks, t: ParserTables, depth: nat, stack: seq<Entry>, it: Item,
                                      ts: seq<Tree>, rest: seq<nat>) returns (top: seq<Entry>)
    requires Full(a, w, look, t) && Ready(a, w, look, stack, it, ts, rest)
    ensures OnPath(w, top) && stack <= top && |top| == |stack| + |ts|
    ensures Item(it.rule, it.dot + |ts|) in w.items(Top(top)) && rest[0] in look(Top(top), Item(it.rule, it.dot + |ts|))
    ensures Goes(t, depth, stack, Yields(ts) + rest, top, rest, Peak(|stack|, ts))
    decreases ts, 1
  {
    StateOnPath(a.g, w, stack, |stack| - 1);
    if ts == [] {
      top := stack;
      assert Yields(ts) + rest == rest;
      GoesNowhere(t, depth, stack, rest);
    } else {
      var next := FirstChildGoes(a, w, look, t, depth, stack, it, ts, rest);
      top := ForestGoes(a, w, look, t, depth, next, Advance(it), ts[1..], rest);
      ChildThenRest(t, depth, stack, Yields(ts) + rest, next, Yields(ts[1..]) + rest, top, rest, ts, Peak(|next|, ts[1..]));
    }
  }

  /** Its first symbol. */
  lemma {:induction false} FirstChildGoes(a: Analysis, w: Walk, look: Looks, t: ParserTables, depth: nat, stack: seq<Entry>, it: Item,
                                          ts: seq<Tree>, rest: seq<nat>) returns (next: seq<Entry>)
    requires Full(a, w, look, t) && Ready(a, w, look, stack, it, ts, rest) && ts != []
    ensures Ready(a, w, look, next, Advance(it), ts[1..], rest) && stack <= next && |next| == |stack| + 1
    ensures Goes(t, depth, stack, Yields(ts) + rest, next, Yields(ts[1..]) + rest, |stack| + Need(ts[0]))
    decreases ts, 0
  {
    var q, x, tail := Top(stack), Root(a.g, ts[0]), ts[1..];
    StateOnPath(a.g, w, stack, |stack| - 1);
    ForestParts(a.g, it, ts);
    RestFollows(a, w, look, q, it, tail, rest);
    FirstIsTerminal(a.g, Yields(tail), rest);
    TreeGoes(a, w, look, t, depth, stack, it, ts[0], Yields(tail) + rest);
    AdvancesWith(a, w, look, t, q, it, rest[0]);
    PushOnPath(a.g, w, stack, x);
    YieldsAndRest(ts, rest);
    next := Next1(w, stack, x);
  }

  lemma YieldsAndRest(ts: seq<Tree>, rest: seq<nat>)
    requires ts != []
    ensures Yields(ts) + rest == Yield(ts[0]) + (Yields(ts[1..]) + rest)
  {
  }

  /** The first of the trees that are left, and the others. */
  lemma ForestParts(g: Grammar, it: Item, ts: seq<Tree>)
    requires Ok(g, it) && ts != [] && ValidForest(g, ts) && Roots(g, ts) == g.rules[it.rule].rhs[it.dot..] && Tokens(g, Yields(ts))
    ensures HasNext(g, it) && Root(g, ts[0]) == Next(g, it) && ValidTree(g, ts[0]) && ValidForest(g, ts[1..])
    ensures Roots(g, ts[1..]) == Rest(g, it) == g.rules[it.rule].rhs[it.dot + 1..]
    ensures Tokens(g, Yield(ts[0])) && Tokens(g, Yields(ts[1..]))
  {
    assert Roots(g, ts)[0] == Root(g, ts[0]) && Roots(g, ts[1..]) == Roots(g, ts)[1..];
    TokensSplit(g, Yield(ts[0]), Yields(ts[1..]));
  }

  lemma FirstIsTerminal(g: Grammar, v: seq<nat>, rest: seq<nat>)
    requires Tokens(g, v) && rest != [] && g.IsTerminal(rest[0])
    ensures v + rest != [] && g.IsTerminal((v + rest)[0])
  {
  }

  // ----- Derived inputs are accepted -----

  /** A whole derivation brings the parser to a stack that it accepts at the end of input. */
  lemma DerivationGoes(a: Analysis, w: Walk, look: Looks, t: ParserTables, depth: nat, tree: Tree) returns (top: seq<Entry>)
    requires Full(a, w, look, t) && ValidTree(a.g, tree) && Root(a.g, tree) == a.g.start && Tokens(a.g, Yield(tree))
    ensures tree.Node? && Turn(t, depth, top, 0).0.Accepted?
    ensures Goes(t, depth, [Entry(0, 0)], Yield(tree) + [0], top, [0], Peak(1, tree.children))
  {
    if tree.Leaf? {
      LeafYield(a.g, tree);
      assert false;
    } else {
      var r, ts := tree.rule, tree.children;
      assert OnPath(w, [Entry(0, 0)]);
      top := ForestGoes(a, w, look, t, depth, [Entry(0, 0)], Item(r, 0), ts, [0]);
      assert |ts| == |Roots(a.g, ts)| == |a.g.rules[r].rhs|;
      StartAccepts(a, w, look, t, depth, r, |ts|, top);
    }
  }

  /** The whole right-hand side of a rule of the start symbol, and the end of input. */
  lemma StartAccepts(a: Analysis, w: Walk, look: Looks, t: ParserTables, depth: nat, r: nat, n: nat, top: seq<Entry>)
    requires Full(a, w, look, t) && r < |a.g.rules| && n == |a.g.rules[r].rhs| && a.g.rules[r].lhs == a.g.start
    requires OnPath(w, top) && [Entry(0, 0)] <= top && |top| == n + 1
    requires Item(r, n) in w.items(Top(top)) && 0 in look(Top(top), Item(r, n))
    ensures Turn(t, depth, top, 0).0.Accepted?
  {
    StateOnPath(a.g, w, top, |top| - 1);
    assert TakesOk(a.g, w, look, t, Top(top));
    assert FindShiftAction(t, Top(top), 0) == w.n + r;
    assert top[..|top| - n] == [Entry(0, 0)];
  }

  lemma LeafYield(g: Grammar, tree: Tree)
    requires tree.Leaf?
    ensures Yield(tree) == [Root(g, tree)] && Yield(tree)[0] == Root(g, tree)
  {
  }

  /** The calls of Parse take the turns one after the other. */
  lemma {:induction false} SessionFollows(t: ParserTables, depth: nat, stack: seq<Entry>, input: seq<nat>, k: nat, fuel: nat,
                                          top: seq<Entry>, peak: nat, n: nat)
    requires k > n && fuel > n && GoesIn(t, depth, stack, input, top, [0], peak, n) && Turn(t, depth, top, 0).0.Accepted?
    ensures Session(t, depth, stack, input, k, fuel) == if peak <= depth then Accepted else Overflow
    decreases n
  {
    if n > 0 && input != [] {
      var (status, next) := Turn(t, depth, stack, input[0]);
      if status.Reduced? {
        assert Run(t, depth, stack, input[0], k) == Run(t, depth, next, input[0], k - 1);
        SessionFollows(t, depth, next, input, k - 1, fuel, top, peak, n - 1);
      } else if status.Shifted? {
        SessionFollows(t, depth, next, input[1..], fuel, fuel, top, peak, n - 1);
      }
    }
  }

  /** What a tree derives is accepted, given turns enough, if the tree fits on the stack, and
      overflows the stack otherwise. */
  lemma DerivedIsAccepted(a: Analysis, w: Walk, look: Looks, t: ParserTables, depth: nat, tree: Tree) returns (n: nat)
    requires Full(a, w, look, t) && ValidTree(a.g, tree) && Root(a.g, tree) == a.g.start && Tokens(a.g, Yield(tree))
    ensures tree.Node? && forall fuel: nat :: fuel > n ==>
              ParseInput(t, depth, Yield(tree), fuel) == if Fits(tree, depth) then Accepted else Overflow
  {
    var top := DerivationGoes(a, w, look, t, depth, tree);
    var tokens, peak := Yield(tree), Peak(1, tree.children);
    n :| GoesIn(t, depth, [Entry(0, 0)], tokens + [0], top, [0], peak, n);
    forall fuel: nat | fuel > n
      ensures ParseInput(t, depth, tokens, fuel) == if peak <= depth then Accepted else Overflow
    {
      SessionFollows(t, depth, [Entry(0, 0)], tokens + [0], fuel, fuel, top, peak, n);
    }
  }

  // ----- The generator's lookaheads suffice -----

  ghost function LooksOf(fws: map<Config, set<nat>>): Looks {
    (q: nat, it: Item) => if Config(q, it) in fws then fws[Config(q, it)] else {}
  }

  /** A state hands lookaheads to the rules that its items ask for. */
  lemma AskedHasLookahead(a: Analysis, states: seq<State>, edges: set<Edge>, fws: map<Config, set<nat>>, q: nat, it: Item, b: Item, x: nat)
    requires a.Valid() && q < |states| && StateOk(a.g, a.Behind(), states[q]) && LookaheadsOk(states, edges, fws)
    requires it in states[q].closure.members && Expands(a.g, it, b) && MayFollow(a, LooksOf(fws), q, it, x)
    ensures b in states[q].closure.members && x in LooksOf(fws)(q, b)
  {
    var s := states[q];
    AskedIsMember(a.g, a.Behind(), s, it, b);
    LookaheadsFlow(states, edges, fws, Config(q, b), x);
    if x in a.Behind().gives(it) {
      assert HasSource(a.g, a.Behind(), StartList(s.key, s.look), s.closure.members, b, x);
    } else {
      LookaheadsFlow(states, edges, fws, Config(q, it), x);
      assert Forward(states, edges, Config(q, it), Config(q, b));
    }
  }

  lemma AskedIsMember(g: Grammar, giving: Giving, s: State, it: Item, b: Item)
    requires StateOk(g, giving, s) && it in s.closure.members && Expands(g, it, b)
    ensures b in s.closure.members
    ensures giving.through(it) ==> b in s.closure.links(it)
  {
    ClosureIsClosed(g, StartList(s.key, s.look).members);
  }

  lemma AdvancedHasLookahead(g: Grammar, giving: Giving, states: seq<State>, edges: set<Edge>, fws: map<Config, set<nat>>, q: nat, it: Item, x: nat)
    requires Walkable(g, WalkOf(states)) && AllLinksMade(g, states, edges) && LookaheadsOk(states, edges, fws) && q < |states|
    requires it in states[q].closure.members && HasNext(g, it) && Next(g, it) in states[q].shifts && x in LooksOf(fws)(q, it)
    ensures x in LooksOf(fws)(states[q].shifts[Next(g, it)], Advance(it))
  {
    var j := states[q].shifts[Next(g, it)];
    assert LinksMade(g, states, edges, q);
    assert StepOk(g, WalkOf(states), q, Next(g, it));
    LookaheadsFlow(states, edges, fws, Config(q, it), x);
    assert Forward(states, edges, Config(q, it), Config(j, Advance(it)));
  }

  lemma GeneratedAsks(a: Analysis, states: seq<State>, edges: set<Edge>, fws: map<Config, set<nat>>, q: nat)
    requires a.Valid() && q < |states| && StateOk(a.g, a.Behind(), states[q]) && LookaheadsOk(states, edges, fws)
    ensures AsksWith(a, WalkOf(states), LooksOf(fws), q)
  {
    forall it, b | it in states[q].closure.members && Expands(a.g, it, b)
      ensures b in states[q].closure.members
    {
      AskedIsMember(a.g, a.Behind(), states[q], it, b);
    }
    forall it, b, x: nat | it in states[q].closure.members && Expands(a.g, it, b) && MayFollow(a, LooksOf(fws), q, it, x)
      ensures x in LooksOf(fws)(q, b)
    {
      AskedHasLookahead(a, states, edges, fws, q, it, b, x);
    }
  }

  lemma GeneratedAdvances(g: Grammar, giving: Giving, states: seq<State>, edges: set<Edge>, fws: map<Config, set<nat>>, q: nat)
    requires Walkable(g, WalkOf(states)) && AllLinksMade(g, states, edges) && LookaheadsOk(states, edges, fws) && q < |states|
    ensures AdvancesOk(g, WalkOf(states), LooksOf(fws), q)
  {
    forall it, x: nat | it in states[q].closure.members && HasNext(g, it) && Next(g, it) in states[q].shifts && x in LooksOf(fws)(q, it)
      ensures x in LooksOf(fws)(states[q].shifts[Next(g, it)], Advance(it))
    {
      AdvancedHasLookahead(g, giving, states, edges, fws, q, it, x);
    }
  }

  lemma GeneratedLooks(a: Analysis, states: seq<State>, edges: set<Edge>, fws: map<Config, set<nat>>, q: nat)
    requires a.Valid() && IsAutomaton(a.g, a.Behind(), states, edges) && LookaheadsOk(states, edges, fws) && q < |states|
    requires Walkable(a.g, WalkOf(states))
    ensures LooksOk(a, WalkOf(states), LooksOf(fws), q)
  {
    GeneratedAsks(a, states, edges, fws, q);
    GeneratedAdvances(a.g, a.Behind(), states, edges, fws, q);
  }

  lemma GeneratedTakes(g: Grammar, states: seq<State>, fws: map<Config, set<nat>>, t: ParserTables, q: nat)
    requires Drives(g, states, t) && TablesFit(g, WalkOf(states), t) && TakesAll(g, states, fws, t) && q < |states|
    requires TerminalsOnly(g, fws) && forall c :: c in fws <==> IsConfig(states, c)
    ensures TakesOk(g, WalkOf(states), LooksOf(fws), t, q)
  {
    forall x | 0 <= x < g.nterminal && x in states[q].shifts
      ensures FindShiftAction(t, q, x) == states[q].shifts[x]
    {
      assert IsAction(g, states, fws, q, Action(x, Shift, states[q].shifts[x]));
    }
    forall it, x: nat | it in states[q].closure.members && Complete(g, it) && x in LooksOf(fws)(q, it) && g.IsTerminal(x)
      ensures FindShiftAction(t, q, x) == |states| + it.rule
    {
      assert Item(it.rule, |g.rules[it.rule].rhs|) == it;
      assert IsAction(g, states, fws, q, Action(x, Reduce, it.rule));
    }
  }

  lemma GeneratedStarts(a: Analysis, states: seq<State>, edges: set<Edge>, fws: map<Config, set<nat>>, r: nat)
    requires a.Valid() && IsAutomaton(a.g, a.Behind(), states, edges) && LookaheadsOk(states, edges, fws)
    requires r < |a.g.rules| && a.g.rules[r].lhs == a.g.start
    ensures Item(r, 0) in states[0].closure.members && 0 in LooksOf(fws)(0, Item(r, 0))
  {
    var s, it := states[0], Item(r, 0);
    assert StateOk(a.g, a.Behind(), s) && it in ItemSet(s.key);
    KeyAndMembers(a.g, a.Behind(), s);
    assert it in s.key;
    assert HasSource(a.g, a.Behind(), StartList(s.key, s.look), s.closure.members, it, 0);
    LookaheadsFlow(states, edges, fws, Config(0, it), 0);
  }

  lemma GeneratedFull(a: Analysis, states: seq<State>, edges: set<Edge>, fws: map<Config, set<nat>>, t: ParserTables)
    requires a.Valid() && LambdaExact(a.g, a.lambda) && FirstExact(a.g, a.first) && a.g.StartIsolated()
    requires Generated(a.g, a.Behind(), states, edges, fws, t) && TakesAll(a.g, states, fws, t)
    ensures Full(a, WalkOf(states), LooksOf(fws), t)
  {
    GeneratedWalk(a.g, a.Behind(), states, edges, t);
    forall q | 0 <= q < |states|
      ensures LooksOk(a, WalkOf(states), LooksOf(fws), q) && TakesOk(a.g, WalkOf(states), LooksOf(fws), t, q)
    {
      GeneratedLooks(a, states, edges, fws, q);
      GeneratedTakes(a.g, states, fws, t, q);
    }
    forall r | 0 <= r < |a.g.rules| && a.g.rules[r].lhs == a.g.start
      ensures Item(r, 0) in states[0].closure.members && 0 in LooksOf(fws)(0, Item(r, 0))
    {
      GeneratedStarts(a, states, edges, fws, r);
    }
  }

  /** The generated parser accepts nothing but the language of the grammar ... */
  lemma GeneratedIsSound(a: Analysis, states: seq<State>, edges: set<Edge>, fws: map<Config, set<nat>>, t: ParserTables,
                         depth: nat, tokens: seq<nat>, fuel: nat)
    requires a.Valid() && a.g.StartIsolated() && EndNotNamed(a.g) && Generated(a.g, a.Behind(), states, edges, fws, t)
    requires Tokens(a.g, tokens) && ParseInput(t, depth, tokens, fuel).Accepted?
    ensures Derives(a.g, a.g.start, tokens)
  {
    GeneratedWalk(a.g, a.Behind(), states, edges, t);
    AcceptedIsDerived(a.g, WalkOf(states), t, depth, tokens, fuel);
  }

  /** ... and, when its tables take every action, all of it that fits on the stack: with turns
      enough, the yield of a derivation is accepted if the derivation fits, and overflows the
      stack if it does not. */
  lemma GeneratedIsComplete(a: Analysis, states: seq<State>, edges: set<Edge>, fws: map<Config, set<nat>>, t: ParserTables,
                            depth: nat, tree: Tree) returns (n: nat)
    requires a.Valid() && LambdaExact(a.g, a.lambda) && FirstExact(a.g, a.first) && a.g.StartIsolated()
    requires Generated(a.g, a.Behind(), states, edges, fws, t) && TakesAll(a.g, states, fws, t)
    requires ValidTree(a.g, tree) && Root(a.g, tree) == a.g.start && Tokens(a.g, Yield(tree))
    ensures tree.Node? && forall fuel: nat :: fuel > n ==>
              ParseInput(t, depth, Yield(tree), fuel) == if Fits(tree, depth) then Accepted else Overflow
  {
    GeneratedFull(a, states, edges, fws, t);
    n := DerivedIsAccepted(a, WalkOf(states), LooksOf(fws), t, depth, tree);
  }

  /** With more than n turns a call the sentence is accepted from this depth on, and overflows below. */
  ghost predicate DecidedAfter(t: ParserTables, depth: nat, tokens: seq<nat>, least: nat, n: nat) {
    forall fuel: nat :: fuel > n ==> ParseInput(t, depth, tokens, fuel) == if least <= depth then Accepted else Overflow
  }

  ghost predicate Decided(t: ParserTables, depth: nat, tokens: seq<nat>, least: nat) {
    exists n: nat :: DecidedAfter(t, depth, tokens, least, n)
  }

  /** So every sentence has a depth from which on it is accepted, and below which it overflows. */
  lemma SentenceNeedsDepth(a: Analysis, states: seq<State>, edges: set<Edge>, fws: map<Config, set<nat>>, t: ParserTables,
                           tokens: seq<nat>) returns (least: nat)
    requires a.Valid() && LambdaExact(a.g, a.lambda) && FirstExact(a.g, a.first) && a.g.StartIsolated()
    requires Generated(a.g, a.Behind(), states, edges, fws, t) && TakesAll(a.g, states, fws, t)
    requires Tokens(a.g, tokens) && Derives(a.g, a.g.start, tokens)
    ensures forall depth: nat :: Decided(t, depth, tokens, least)
  {
    var tree :| ValidTree(a.g, tree) && Root(a.g, tree) == a.g.start && Yield(tree) == tokens;
    least := if tree.Node? then Peak(1, tree.children) else 0;
    forall depth: nat ensures Decided(t, depth, tokens, least) {
      var n := GeneratedIsComplete(a, states, edges, fws, t, depth, tree);
      assert DecidedAfter(t, depth, tokens, least, n);
    }
  }
}
