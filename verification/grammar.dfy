/** Grammars as the parser generator sees them once symbols and rules are numbered:
    terminals are 0 .. nterminal-1 with 0 the end of input, nonterminals follow, and a
    rule's number is its position in the list. */
module Grammars {

  datatype Rule = Rule(lhs: nat, rhs: seq<nat>)

  datatype Grammar = Grammar(nterminal: nat, nsymbol: nat, rules: seq<Rule>, start: nat) {

    predicate IsTerminal(x: nat) { x < nterminal }

    predicate IsNonterminal(x: nat) { nterminal <= x < nsymbol }

    ghost predicate Valid() {
      && 1 <= nterminal
      && IsNonterminal(start)
      && forall r :: 0 <= r < |rules| ==>
           IsNonterminal(rules[r].lhs) && forall i :: 0 <= i < |rules[r].rhs| ==> rules[r].rhs[i] < nsymbol
    }

    /** FindStates reports a grammar without this as an error. */
    ghost predicate StartIsolated() {
      forall r, i :: 0 <= r < |rules| && 0 <= i < |rules[r].rhs| ==> rules[r].rhs[i] != start
    }
  }

  /** Derivation trees.  A leaf may be any symbol, so a tree stands for the derivation
      of a sentential form; a node names the rule applied. */
  datatype Tree = Leaf(sym: nat) | Node(rule: nat, children: seq<Tree>)

  ghost function Root(g: Grammar, t: Tree): nat {
    match t
    case Leaf(x) => x
    case Node(r, _) => if r < |g.rules| then g.rules[r].lhs else 0
  }

  ghost function Roots(g: Grammar, ts: seq<Tree>): (xs: seq<nat>)
    ensures |xs| == |ts| && forall i :: 0 <= i < |ts| ==> xs[i] == Root(g, ts[i])
  {
    seq(|ts|, i requires 0 <= i < |ts| => Root(g, ts[i]))
  }

  ghost predicate ValidTree(g: Grammar, t: Tree) {
    match t
    case Leaf(x) => x < g.nsymbol
    case Node(r, ts) => r < |g.rules| && Roots(g, ts) == g.rules[r].rhs && forall c :: c in ts ==> ValidTree(g, c)
  }

  ghost predicate ValidForest(g: Grammar, ts: seq<Tree>) {
    forall t :: t in ts ==> ValidTree(g, t)
  }

  /** The sentential form at the leaves. */
  ghost function Yield(t: Tree): seq<nat>
    decreases t, 1
  {
    match t
    case Leaf(x) => [x]
    case Node(_, ts) => Yields(ts)
  }

  ghost function Yields(ts: seq<Tree>): seq<nat>
    decreases ts, 0
  {
    if ts == [] then [] else Yield(ts[0]) + Yields(ts[1..])
  }

  lemma Regrouped<T>(a: seq<T>, b: seq<T>, c: seq<T>)
    ensures a + (b + c) == a + b + c
  {
  }

  lemma {:induction false} YieldsConcat(a: seq<Tree>, b: seq<Tree>)
    ensures Yields(a + b) == Yields(a) + Yields(b)
  {
    if a == [] {
      assert a + b == b;
    } else {
      YieldsConcat(a[1..], b);
      assert (a + b)[0] == a[0] && (a + b)[1..] == a[1..] + b;
      Regrouped(Yield(a[0]), Yields(a[1..]), Yields(b));
    }
  }

  lemma YieldsSingle(t: Tree)
    ensures Yields([t]) == Yield(t)
  {
    assert [t][1..] == [];
  }

  /** x derives the sentential form w. */
  ghost predicate Derives(g: Grammar, x: nat, w: seq<nat>) {
    exists t :: ValidTree(g, t) && Root(g, t) == x && Yield(t) == w
  }

  ghost predicate DerivesAll(g: Grammar, xs: seq<nat>, w: seq<nat>) {
    exists ts :: ValidForest(g, ts) && Roots(g, ts) == xs && Yields(ts) == w
  }

  ghost predicate AllTerminals(g: Grammar, w: seq<nat>) {
    forall i :: 0 <= i < |w| ==> g.IsTerminal(w[i])
  }

  ghost predicate Nullable(g: Grammar, x: nat) { Derives(g, x, []) }

  ghost predicate StartsWith(g: Grammar, x: nat, t: nat) {
    exists w :: w != [] && w[0] == t && Derives(g, x, w)
  }

  // ----- The textbook reading: rewriting one nonterminal at a time -----

  ghost predicate Step(g: Grammar, u: seq<nat>, v: seq<nat>) {
    exists i: nat, r: nat :: StepAt(g, u, v, i, r)
  }

  ghost predicate StepAt(g: Grammar, u: seq<nat>, v: seq<nat>, i: nat, r: nat) {
    i < |u| && r < |g.rules| && u[i] == g.rules[r].lhs && v == u[..i] + g.rules[r].rhs + u[i + 1..]
  }

  ghost predicate IsDerivation(g: Grammar, path: seq<seq<nat>>, u: seq<nat>, v: seq<nat>) {
    && path != [] && path[0] == u && path[|path| - 1] == v
    && forall i :: 0 <= i < |path| - 1 ==> Step(g, path[i], path[i + 1])
  }

  ghost predicate Rewrites(g: Grammar, u: seq<nat>, v: seq<nat>) {
    exists path :: IsDerivation(g, path, u, v)
  }

  lemma RewritesReflexive(g: Grammar, u: seq<nat>)
    ensures Rewrites(g, u, u)
  {
    assert IsDerivation(g, [u], u, u);
  }

  lemma RewritesTransitive(g: Grammar, u: seq<nat>, v: seq<nat>, w: seq<nat>)
    requires Rewrites(g, u, v) && Rewrites(g, v, w)
    ensures Rewrites(g, u, w)
  {
    var p :| IsDerivation(g, p, u, v);
    var q :| IsDerivation(g, q, v, w);
    assert IsDerivation(g, p + q[1..], u, w);
  }

  lemma StepInContext(g: Grammar, a: seq<nat>, u: seq<nat>, v: seq<nat>, b: seq<nat>)
    requires Step(g, u, v)
    ensures Step(g, a + u + b, a + v + b)
  {
    var i, r :| StepAt(g, u, v, i, r);
    assert StepAt(g, a + u + b, a + v + b, |a| + i, r);
  }

  lemma RewritesInContext(g: Grammar, a: seq<nat>, u: seq<nat>, v: seq<nat>, b: seq<nat>)
    requires Rewrites(g, u, v)
    ensures Rewrites(g, a + u + b, a + v + b)
  {
    var p :| IsDerivation(g, p, u, v);
    var q := seq(|p|, i requires 0 <= i < |p| => a + p[i] + b);
    forall i | 0 <= i < |q| - 1
      ensures Step(g, q[i], q[i + 1])
    {
      StepInContext(g, a, p[i], p[i + 1], b);
    }
    assert IsDerivation(g, q, a + u + b, a + v + b);
  }

  lemma RewritesAppend(g: Grammar, a: seq<nat>, a': seq<nat>, b: seq<nat>, b': seq<nat>)
    requires Rewrites(g, a, a') && Rewrites(g, b, b')
    ensures Rewrites(g, a + b, a' + b')
  {
    RewritesInContext(g, [], a, a', b);
    RewritesInContext(g, a', b, b', []);
    assert [] + a + b == a + b;
    assert [] + a' + b == a' + b == a' + b + [];
    assert a' + b' + [] == a' + b';
    RewritesTransitive(g, a + b, a' + b, a' + b');
  }

  lemma {:induction false} TreeRewrites(g: Grammar, t: Tree)
    requires ValidTree(g, t)
    ensures Rewrites(g, [Root(g, t)], Yield(t))
    decreases t, 1
  {
    match t
    case Leaf(x) =>
      RewritesReflexive(g, [x]);
    case Node(r, ts) =>
      ForestRewrites(g, ts);
      assert StepAt(g, [Root(g, t)], Roots(g, ts), 0, r);
      assert IsDerivation(g, [[Root(g, t)], Roots(g, ts)], [Root(g, t)], Roots(g, ts));
      RewritesTransitive(g, [Root(g, t)], Roots(g, ts), Yields(ts));
  }

  lemma {:induction false} ForestRewrites(g: Grammar, ts: seq<Tree>)
    requires ValidForest(g, ts)
    ensures Rewrites(g, Roots(g, ts), Yields(ts))
    decreases ts, 0
  {
    if ts == [] {
      RewritesReflexive(g, []);
    } else {
      TreeRewrites(g, ts[0]);
      ForestRewrites(g, ts[1..]);
      RewritesAppend(g, [Root(g, ts[0])], Yield(ts[0]), Roots(g, ts[1..]), Yields(ts[1..]));
      assert Roots(g, ts) == [Root(g, ts[0])] + Roots(g, ts[1..]);
    }
  }

  lemma {:induction false} LeavesYield(g: Grammar, w: seq<nat>) returns (ts: seq<Tree>)
    requires forall i :: 0 <= i < |w| ==> w[i] < g.nsymbol
    ensures ValidForest(g, ts) && Roots(g, ts) == w && Yields(ts) == w
  {
    if w == [] {
      ts := [];
    } else {
      ts := LeavesYield(g, w[1..]);
      ts := [Leaf(w[0])] + ts;
    }
  }

  /** Undo one rewriting step on a forest: gather the rule's children under a node. */
  lemma Gather(g: Grammar, ts: seq<Tree>, u: seq<nat>, i: nat, r: nat) returns (us: seq<Tree>)
    requires ValidForest(g, ts) && StepAt(g, u, Roots(g, ts), i, r)
    ensures ValidForest(g, us) && Roots(g, us) == u && Yields(us) == Yields(ts)
  {
    var rhs := g.rules[r].rhs;
    var a, b, c := ts[..i], ts[i..i + |rhs|], ts[i + |rhs|..];
    assert ts == a + b + c;
    assert Roots(g, b) == Roots(g, ts)[i..i + |rhs|] == rhs;
    var node := Node(r, b);
    us := a + [node] + c;
    assert Roots(g, us) == u by {
      assert Roots(g, a) == u[..i] && Roots(g, c) == u[i + 1..];
    }
    YieldsConcat(a + [node], c);
    YieldsConcat(a, [node]);
    YieldsSingle(node);
    YieldsConcat(a, b);
    YieldsConcat(a + b, c);
  }

  lemma {:induction false} DerivationHasForest(g: Grammar, path: seq<seq<nat>>, u: seq<nat>, v: seq<nat>)
    requires g.Valid() && IsDerivation(g, path, u, v)
    requires forall i :: 0 <= i < |u| ==> u[i] < g.nsymbol
    ensures DerivesAll(g, u, v)
    decreases |path|
  {
    if |path| == 1 {
      var ts := LeavesYield(g, u);
    } else {
      assert Step(g, path[0], path[1]);
      var i: nat, r: nat :| StepAt(g, u, path[1], i, r);
      var rest := path[1..];
      forall k | 0 <= k < |rest| - 1
        ensures Step(g, rest[k], rest[k + 1])
      {
        assert Step(g, path[k + 1], path[k + 1 + 1]);
      }
      DerivationHasForest(g, rest, path[1], v);
      var ts :| ValidForest(g, ts) && Roots(g, ts) == path[1] && Yields(ts) == v;
      var us := Gather(g, ts, u, i, r);
    }
  }

  /** Trees and rewriting agree. */
  lemma DerivesIffRewrites(g: Grammar, x: nat, w: seq<nat>)
    requires g.Valid() && x < g.nsymbol
    ensures Derives(g, x, w) <==> Rewrites(g, [x], w)
  {
    if Derives(g, x, w) {
      var t :| ValidTree(g, t) && Root(g, t) == x && Yield(t) == w;
      TreeRewrites(g, t);
    }
    if Rewrites(g, [x], w) {
      var path :| IsDerivation(g, path, [x], w);
      DerivationHasForest(g, path, [x], w);
      var ts :| ValidForest(g, ts) && Roots(g, ts) == [x] && Yields(ts) == w;
      assert ts == [ts[0]] && Root(g, ts[0]) == Roots(g, ts)[0];
      YieldsSingle(ts[0]);
    }
  }
}
