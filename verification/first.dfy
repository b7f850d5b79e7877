/** FindFirstSets: which nonterminals derive the empty string, and which terminals can
    begin what a nonterminal derives. */
module FirstSets {
  import opened Grammars

  /** The sets a symbol list contributes, as the generator's loops walk it: stop at the
      first terminal or at the first nonterminal that is not nullable. */
  function FirstOf(g: Grammar, lambda: seq<bool>, first: seq<set<nat>>, xs: seq<nat>): set<nat>
    requires Shape(g, lambda, first) && forall i :: 0 <= i < |xs| ==> xs[i] < g.nsymbol
  {
    if xs == [] then {}
    else if g.IsTerminal(xs[0]) then {xs[0]}
    else first[xs[0]] + if lambda[xs[0]] then FirstOf(g, lambda, first, xs[1..]) else {}
  }

  ghost predicate Shape(g: Grammar, lambda: seq<bool>, first: seq<set<nat>>) {
    g.Valid() && |lambda| == |first| == g.nsymbol
  }

  predicate AllLambda(lambda: seq<bool>, xs: seq<nat>) {
    forall i :: 0 <= i < |xs| ==> xs[i] < |lambda| && lambda[xs[i]]
  }

  ghost predicate LambdaSound(g: Grammar, lambda: seq<bool>) {
    |lambda| == g.nsymbol && forall x :: 0 <= x < |lambda| && lambda[x] ==> Nullable(g, x)
  }

  ghost predicate LambdaClosed(g: Grammar, lambda: seq<bool>) {
    && |lambda| == g.nsymbol && g.Valid()
    && forall r :: 0 <= r < |g.rules| && AllLambda(lambda, g.rules[r].rhs) ==> lambda[g.rules[r].lhs]
  }

  ghost predicate FirstSound(g: Grammar, first: seq<set<nat>>) {
    && |first| == g.nsymbol
    && forall x, t :: 0 <= x < |first| && t in first[x] ==> g.IsTerminal(t) && StartsWith(g, x, t)
  }

  ghost predicate RuleClosed(g: Grammar, lambda: seq<bool>, first: seq<set<nat>>, r: nat)
    requires Shape(g, lambda, first) && r < |g.rules|
  {
    FirstOf(g, lambda, first, g.rules[r].rhs) <= first[g.rules[r].lhs]
  }

  ghost predicate LambdaExact(g: Grammar, lambda: seq<bool>) {
    |lambda| == g.nsymbol && forall x :: 0 <= x < g.nsymbol ==> (lambda[x] <==> Nullable(g, x))
  }

  ghost predicate FirstExact(g: Grammar, first: seq<set<nat>>) {
    && |first| == g.nsymbol
    && forall x: nat, t: nat :: g.IsNonterminal(x) ==> (t in first[x] <==> g.IsTerminal(t) && StartsWith(g, x, t))
  }

  lemma {:induction false} NullForest(g: Grammar, lambda: seq<bool>, xs: seq<nat>) returns (ts: seq<Tree>)
    requires LambdaSound(g, lambda) && AllLambda(lambda, xs)
    ensures ValidForest(g, ts) && Roots(g, ts) == xs && Yields(ts) == []
  {
    if xs == [] {
      ts := [];
    } else {
      var rest := NullForest(g, lambda, xs[1..]);
      var t :| ValidTree(g, t) && Root(g, t) == xs[0] && Yield(t) == [];
      ts := [t] + rest;
      assert ts[1..] == rest;
    }
  }

  lemma NullRule(g: Grammar, lambda: seq<bool>, r: nat)
    requires LambdaSound(g, lambda) && r < |g.rules| && AllLambda(lambda, g.rules[r].rhs)
    ensures Nullable(g, g.rules[r].lhs)
  {
    var ts := NullForest(g, lambda, g.rules[r].rhs);
    var t := Node(r, ts);
    assert ValidTree(g, t) && Yield(t) == [];
  }

  lemma {:induction false} NullTreeLambda(g: Grammar, lambda: seq<bool>, t: Tree)
    requires LambdaClosed(g, lambda) && ValidTree(g, t) && Yield(t) == []
    ensures lambda[Root(g, t)]
    decreases t, 1
  {
    match t
    case Node(r, ts) =>
      NullForestLambda(g, lambda, ts);
  }

  lemma {:induction false} NullForestLambda(g: Grammar, lambda: seq<bool>, ts: seq<Tree>)
    requires LambdaClosed(g, lambda) && ValidForest(g, ts) && Yields(ts) == []
    ensures AllLambda(lambda, Roots(g, ts))
    decreases ts, 0
  {
    if ts != [] {
      assert Yield(ts[0]) == [] && Yields(ts[1..]) == [];
      NullTreeLambda(g, lambda, ts[0]);
      NullForestLambda(g, lambda, ts[1..]);
      assert Roots(g, ts)[1..] == Roots(g, ts[1..]);
    }
  }

  lemma LambdaIsExact(g: Grammar, lambda: seq<bool>)
    requires LambdaSound(g, lambda) && LambdaClosed(g, lambda)
    ensures LambdaExact(g, lambda)
  {
    forall x | 0 <= x < g.nsymbol && Nullable(g, x)
      ensures lambda[x]
    {
      var t :| ValidTree(g, t) && Root(g, t) == x && Yield(t) == [];
      NullTreeLambda(g, lambda, t);
    }
  }

  /** Every terminal the loops would add begins a sentential form of the list. */
  lemma {:induction false} FirstOfSound(g: Grammar, lambda: seq<bool>, first: seq<set<nat>>, xs: seq<nat>, a: nat)
    returns (ts: seq<Tree>)
    requires Shape(g, lambda, first) && LambdaSound(g, lambda) && FirstSound(g, first)
    requires forall i :: 0 <= i < |xs| ==> xs[i] < g.nsymbol
    requires a in FirstOf(g, lambda, first, xs)
    ensures ValidForest(g, ts) && Roots(g, ts) == xs && Yields(ts) != [] && Yields(ts)[0] == a
    ensures g.IsTerminal(a)
  {
    var head: Tree, rest: seq<Tree>;
    if g.IsTerminal(xs[0]) {
      head := Leaf(a);
      rest := LeavesYield(g, xs[1..]);
    } else if a in first[xs[0]] {
      assert StartsWith(g, xs[0], a);
      var w :| w != [] && w[0] == a && Derives(g, xs[0], w);
      head :| ValidTree(g, head) && Root(g, head) == xs[0] && Yield(head) == w;
      rest := LeavesYield(g, xs[1..]);
    } else {
      head :| ValidTree(g, head) && Root(g, head) == xs[0] && Yield(head) == [];
      rest := FirstOfSound(g, lambda, first, xs[1..], a);
    }
    ts := [head] + rest;
    assert ts[1..] == rest;
  }

  lemma FirstRuleSound(g: Grammar, lambda: seq<bool>, first: seq<set<nat>>, r: nat, a: nat)
    requires Shape(g, lambda, first) && LambdaSound(g, lambda) && FirstSound(g, first)
    requires r < |g.rules| && a in FirstOf(g, lambda, first, g.rules[r].rhs)
    ensures g.IsTerminal(a) && StartsWith(g, g.rules[r].lhs, a)
  {
    var ts := FirstOfSound(g, lambda, first, g.rules[r].rhs, a);
    var t := Node(r, ts);
    assert ValidTree(g, t) && Yield(t) == Yields(ts);
    assert Derives(g, g.rules[r].lhs, Yields(ts));
  }

  lemma {:induction false} TreeFirst(g: Grammar, lambda: seq<bool>, first: seq<set<nat>>, t: Tree)
    requires Shape(g, lambda, first) && LambdaClosed(g, lambda)
    requires forall r :: 0 <= r < |g.rules| ==> RuleClosed(g, lambda, first, r)
    requires ValidTree(g, t) && Yield(t) != [] && g.IsTerminal(Yield(t)[0])
    ensures if g.IsTerminal(Root(g, t)) then Yield(t)[0] == Root(g, t) else Yield(t)[0] in first[Root(g, t)]
    decreases t, 1
  {
    match t
    case Leaf(x) =>
    case Node(r, ts) =>
      ForestFirst(g, lambda, first, ts);
      assert RuleClosed(g, lambda, first, r);
  }

  lemma {:induction false} ForestFirst(g: Grammar, lambda: seq<bool>, first: seq<set<nat>>, ts: seq<Tree>)
    requires Shape(g, lambda, first) && LambdaClosed(g, lambda)
    requires forall r :: 0 <= r < |g.rules| ==> RuleClosed(g, lambda, first, r)
    requires ValidForest(g, ts) && Yields(ts) != [] && g.IsTerminal(Yields(ts)[0])
    requires forall i :: 0 <= i < |ts| ==> Root(g, ts[i]) < g.nsymbol
    ensures Yields(ts)[0] in FirstOf(g, lambda, first, Roots(g, ts))
    decreases ts, 0
  {
    assert Roots(g, ts)[1..] == Roots(g, ts[1..]);
    if Yield(ts[0]) == [] {
      NullTreeLambda(g, lambda, ts[0]);
      assert !g.IsTerminal(Root(g, ts[0])) by {
        if ts[0].Node? { assert g.IsNonterminal(g.rules[ts[0].rule].lhs); }
      }
      ForestFirst(g, lambda, first, ts[1..]);
    } else {
      TreeFirst(g, lambda, first, ts[0]);
    }
  }

  lemma FirstIsExact(g: Grammar, lambda: seq<bool>, first: seq<set<nat>>)
    requires Shape(g, lambda, first) && LambdaClosed(g, lambda) && FirstSound(g, first)
    requires forall r :: 0 <= r < |g.rules| ==> RuleClosed(g, lambda, first, r)
    ensures FirstExact(g, first)
  {
    forall x: nat, a: nat | g.IsNonterminal(x) && g.IsTerminal(a) && StartsWith(g, x, a)
      ensures a in first[x]
    {
      var w :| w != [] && w[0] == a && Derives(g, x, w);
      var t :| ValidTree(g, t) && Root(g, t) == x && Yield(t) == w;
      TreeFirst(g, lambda, first, t);
    }
  }

  // ----- The two fixpoint loops -----

  /** The inner loop over a right-hand side: is every symbol nullable so far? */
  method RuleLambda(lambda: seq<bool>, rhs: seq<nat>) returns (all: bool)
    requires forall i :: 0 <= i < |rhs| ==> rhs[i] < |lambda|
    ensures all <==> AllLambda(lambda, rhs)
  {
    var i := 0;
    while i < |rhs|
      invariant 0 <= i <= |rhs|
      invariant forall k :: 0 <= k < i ==> lambda[rhs[k]]
    {
      if !lambda[rhs[i]] { break; }
      i := i + 1;
    }
    all := i == |rhs|;
  }

  ghost function Unset(lambda: seq<bool>): set<int> {
    set x | 0 <= x < |lambda| && !lambda[x]
  }

  /** One pass over the rules. */
  method LambdaPass(g: Grammar, before: seq<bool>) returns (lambda: seq<bool>, progress: bool)
    requires g.Valid() && LambdaSound(g, before)
    ensures LambdaSound(g, lambda)
    ensures if progress then Unset(lambda) < Unset(before) else lambda == before && LambdaClosed(g, lambda)
  {
    lambda, progress := before, false;
    for r := 0 to |g.rules|
      invariant LambdaSound(g, lambda)
      invariant if progress then Unset(lambda) < Unset(before) else lambda == before
      invariant !progress ==>
                  forall k :: 0 <= k < r && AllLambda(lambda, g.rules[k].rhs) ==> lambda[g.rules[k].lhs]
    {
      var rule := g.rules[r];
      if !lambda[rule.lhs] {
        var all := RuleLambda(lambda, rule.rhs);
        if all {
          NullRule(g, lambda, r);
          assert rule.lhs in Unset(before);
          lambda := lambda[rule.lhs := true];
          progress := true;
          assert rule.lhs !in Unset(lambda);
        }
      }
    }
  }

  method FindLambda(g: Grammar) returns (lambda: seq<bool>)
    requires g.Valid()
    ensures LambdaExact(g, lambda) && LambdaSound(g, lambda) && LambdaClosed(g, lambda)
  {
    lambda := seq(g.nsymbol, _ => false);
    var progress := true;
    while progress
      invariant LambdaSound(g, lambda)
      invariant !progress ==> LambdaClosed(g, lambda)
      decreases Unset(lambda), progress
    {
      lambda, progress := LambdaPass(g, lambda);
    }
    LambdaIsExact(g, lambda);
  }

  ghost function Missing(g: Grammar, first: seq<set<nat>>): set<(int, int)> {
    set x, t | 0 <= x < |first| && 0 <= t < g.nterminal && t !in first[x] :: (x, t)
  }

  /** Adding something new leaves less to add. */
  lemma AddingShrinksMissing(g: Grammar, first: seq<set<nat>>, x: nat, ts: set<nat>)
    requires x < |first| && !(ts <= first[x]) && forall t :: t in ts ==> g.IsTerminal(t)
    ensures Missing(g, first[x := first[x] + ts]) < Missing(g, first)
  {
    var t :| t in ts && t !in first[x];
    assert (x, t) in Missing(g, first);
    assert (x, t) !in Missing(g, first[x := first[x] + ts]);
  }

  /** Past a nullable prefix, the rest contributes. */
  lemma {:induction false} PrefixFirst(g: Grammar, lambda: seq<bool>, first: seq<set<nat>>, xs: seq<nat>, i: nat)
    requires Shape(g, lambda, first) && i <= |xs| && AllLambda(lambda, xs[..i])
    requires forall k :: 0 <= k < |xs| ==> xs[k] < g.nsymbol
    requires forall x :: 0 <= x < g.nterminal ==> !lambda[x]
    ensures FirstOf(g, lambda, first, xs[i..]) <= FirstOf(g, lambda, first, xs)
  {
    if i > 0 {
      assert xs[..i][0] == xs[0] && xs[..i][1..] == xs[1..][..i - 1];
      PrefixFirst(g, lambda, first, xs[1..], i - 1);
      assert xs[i..] == xs[1..][i - 1..];
    }
  }

  /** A pass so far: sound, and smaller in what is missing once anything was added. */
  ghost predicate Walking(g: Grammar, lambda: seq<bool>, before: seq<set<nat>>, first: seq<set<nat>>, progress: bool) {
    && Shape(g, lambda, first) && LambdaSound(g, lambda) && FirstSound(g, first)
    && if progress then Missing(g, first) < Missing(g, before) else first == before
  }

  /** At symbol i of a right-hand side, everything before it nullable and given. */
  ghost predicate WalkedTo(g: Grammar, lambda: seq<bool>, first: seq<set<nat>>, progress: bool, r: nat, i: nat)
    requires Shape(g, lambda, first) && r < |g.rules|
  {
    var rhs := g.rules[r].rhs;
    && i <= |rhs| && AllLambda(lambda, rhs[..i])
    && (!progress ==> FirstOf(g, lambda, first, rhs) <= first[g.rules[r].lhs] + FirstOf(g, lambda, first, rhs[i..]))
  }

  /** The terminals that symbol i gives. */
  method GiveFirst(g: Grammar, lambda: seq<bool>, before: seq<set<nat>>, first: seq<set<nat>>, progress: bool, r: nat, i: nat, ts: set<nat>)
    returns (first': seq<set<nat>>, progress': bool)
    requires Walking(g, lambda, before, first, progress) && r < |g.rules| && i < |g.rules[r].rhs| && AllLambda(lambda, g.rules[r].rhs[..i])
    requires var x := g.rules[r].rhs[i]; ts == if g.IsTerminal(x) then {x} else first[x]
    ensures Walking(g, lambda, before, first', progress') && (progress' <==> progress || !(ts <= first[g.rules[r].lhs]))
  {
    var lhs := g.rules[r].lhs;
    first', progress' := first, progress;
    if !(ts <= first[lhs]) {
      GivenSound(g, lambda, first, r, i, ts);
      AddingShrinksMissing(g, first, lhs, ts);
      first', progress' := first[lhs := first[lhs] + ts], true;
    }
  }

  lemma GivenSound(g: Grammar, lambda: seq<bool>, first: seq<set<nat>>, r: nat, i: nat, ts: set<nat>)
    requires Shape(g, lambda, first) && LambdaSound(g, lambda) && FirstSound(g, first)
    requires r < |g.rules| && i < |g.rules[r].rhs| && AllLambda(lambda, g.rules[r].rhs[..i])
    requires var x := g.rules[r].rhs[i]; ts == if g.IsTerminal(x) then {x} else first[x]
    ensures FirstSound(g, first[g.rules[r].lhs := first[g.rules[r].lhs] + ts]) && forall t :: t in ts ==> g.IsTerminal(t)
  {
    var rhs, lhs := g.rules[r].rhs, g.rules[r].lhs;
    var x := rhs[i];
    PrefixFirst(g, lambda, first, rhs, i);
    assert rhs[i..][0] == x;
    assert ts <= FirstOf(g, lambda, first, rhs[i..]);
    forall a | a in ts ensures g.IsTerminal(a) && StartsWith(g, lhs, a) { FirstRuleSound(g, lambda, first, r, a); }
  }

  lemma WalkOn(g: Grammar, lambda: seq<bool>, first: seq<set<nat>>, progress: bool, r: nat, i: nat, x: nat)
    requires Shape(g, lambda, first) && r < |g.rules| && WalkedTo(g, lambda, first, progress, r, i) && i < |g.rules[r].rhs|
    requires x == g.rules[r].rhs[i]
    requires !progress ==> (if g.IsTerminal(x) then {x} else first[x]) <= first[g.rules[r].lhs]
    ensures !g.IsTerminal(x) && lambda[x] ==> WalkedTo(g, lambda, first, progress, r, i + 1)
    ensures !progress && !(!g.IsTerminal(x) && lambda[x]) ==> RuleClosed(g, lambda, first, r)
  {
    var rhs := g.rules[r].rhs;
    assert rhs[i..][0] == x && rhs[i..][1..] == rhs[i + 1..] && rhs[..i + 1] == rhs[..i] + [x];
  }

  /** The loop over one rule's right-hand side. */
  method RuleFirst(g: Grammar, lambda: seq<bool>, before: seq<set<nat>>, r: nat)
    returns (first: seq<set<nat>>, progress: bool)
    requires Shape(g, lambda, before) && LambdaSound(g, lambda) && FirstSound(g, before) && r < |g.rules|
    ensures Walking(g, lambda, before, first, progress) && (!progress ==> RuleClosed(g, lambda, first, r))
  {
    first, progress := before, false;
    var rhs, lhs := g.rules[r].rhs, g.rules[r].lhs;
    var i := 0;
    while i < |rhs|
      invariant 0 <= i <= |rhs|
      invariant Walking(g, lambda, before, first, progress) && WalkedTo(g, lambda, first, progress, r, i)
    {
      var x := rhs[i];
      if g.IsTerminal(x) {
        first, progress := GiveFirst(g, lambda, before, first, progress, r, i, {x});
        WalkOn(g, lambda, first, progress, r, i, x);
        break;
      } else if x == lhs {
        WalkOn(g, lambda, first, progress, r, i, x);
        if !lambda[lhs] { break; }
      } else {
        first, progress := GiveFirst(g, lambda, before, first, progress, r, i, first[x]);
        WalkOn(g, lambda, first, progress, r, i, x);
        if !lambda[x] { break; }
      }
      i := i + 1;
    }
    assert i == |rhs| ==> rhs[i..] == [];
  }

  /** One pass over the rules. */
  method FirstPass(g: Grammar, lambda: seq<bool>, before: seq<set<nat>>) returns (first: seq<set<nat>>, progress: bool)
    requires Shape(g, lambda, before) && LambdaSound(g, lambda) && FirstSound(g, before)
    ensures Shape(g, lambda, first) && FirstSound(g, first)
    ensures if progress then Missing(g, first) < Missing(g, before)
            else first == before && forall r :: 0 <= r < |g.rules| ==> RuleClosed(g, lambda, first, r)
  {
    first, progress := before, false;
    for r := 0 to |g.rules|
      invariant Shape(g, lambda, first) && FirstSound(g, first)
      invariant if progress then Missing(g, first) < Missing(g, before) else first == before
      invariant !progress ==> forall k :: 0 <= k < r ==> RuleClosed(g, lambda, first, k)
    {
      var changed: bool;
      first, changed := RuleFirst(g, lambda, first, r);
      progress := progress || changed;
    }
  }

  /** FindFirstSets: both loops stop, and what they leave is exact. */
  method FindFirstSets(g: Grammar) returns (lambda: seq<bool>, first: seq<set<nat>>)
    requires g.Valid()
    ensures LambdaExact(g, lambda) && FirstExact(g, first) && Shape(g, lambda, first)
  {
    lambda := FindLambda(g);
    first := seq(g.nsymbol, _ => {});
    var progress := true;
    while progress
      invariant Shape(g, lambda, first) && FirstSound(g, first)
      invariant !progress ==> forall r :: 0 <= r < |g.rules| ==> RuleClosed(g, lambda, first, r)
      decreases Missing(g, first), progress
    {
      first, progress := FirstPass(g, lambda, first);
    }
    FirstIsExact(g, lambda, first);
  }
}
