/** What a lookahead is, told by the grammar alone, and that the generator finds exactly these:
    the LALR(1) lookaheads. */
module Lalr {
  import opened Grammars
  import opened FirstSets
  import opened Items
  import opened Configlists
  import opened States
  import opened Lookaheads

  // ----- The definition -----

  ghost predicate BeginsAt(g: Grammar, x: nat, t: nat) {
    if g.IsTerminal(x) then x == t else g.IsTerminal(t) && StartsWith(g, x, t)
  }

  ghost predicate BeginsBehind(g: Grammar, xs: seq<nat>, t: nat, i: nat) { i < |xs| && Vanish(g, xs[..i]) && BeginsAt(g, xs[i], t) }

  /** Something that the symbols derive begins with the terminal t, those before it vanishing. */
  ghost predicate Begins(g: Grammar, xs: seq<nat>, t: nat) { exists i: nat :: BeginsBehind(g, xs, t, i) }

  ghost predicate Vanish(g: Grammar, xs: seq<nat>) { forall i :: 0 <= i < |xs| ==> Nullable(g, xs[i]) }

  /** After the string w of symbols the rule of this item, when it is done, can be followed by t,
      in at most n steps: the start rule by the end of input; a rule that another item asks for
      by what comes behind it there, and where that vanishes by what follows that item; and no
      symbol read makes a difference. */
  ghost predicate FollowedIn(g: Grammar, w: seq<nat>, it: Item, t: nat, n: nat)
    decreases n
  {
    n > 0 && (
      || (w == [] && it in StartBasis(g) && t == 0)
      || (exists c :: c in Closure(g, BasisAfter(g, w)) && Asks(g, c, it, t))
      || (exists c :: HandsOn(g, c, it) && FollowedIn(g, w, c, t, n - 1))
      || (exists c :: ReadsLast(g, w, c, it) && FollowedIn(g, w[..|w| - 1], c, t, n - 1)))
  }

  ghost predicate Asks(g: Grammar, c: Item, it: Item, t: nat) { Expands(g, c, it) && Begins(g, Rest(g, c), t) }

  ghost predicate HandsOn(g: Grammar, c: Item, it: Item) { Expands(g, c, it) && Vanish(g, Rest(g, c)) }

  predicate ReadsLast(g: Grammar, w: seq<nat>, c: Item, it: Item) {
    w != [] && HasNext(g, c) && Next(g, c) == w[|w| - 1] && it == Advance(c)
  }

  /** So the definition of a lookahead in the state of this basis: over all strings that lead to it. */
  ghost predicate IsLookahead(g: Grammar, basis: set<Item>, it: Item, t: nat) {
    exists w, n: nat :: BasisAfter(g, w) == basis && FollowedIn(g, w, it, t, n)
  }

  // ----- The analysis computes these notions -----

  lemma VanishIsAllLambda(g: Grammar, lambda: seq<bool>, xs: seq<nat>)
    requires LambdaExact(g, lambda) && forall i :: 0 <= i < |xs| ==> xs[i] < g.nsymbol
    ensures Vanish(g, xs) <==> AllLambda(lambda, xs)
  {
    if Vanish(g, xs) {
      forall i | 0 <= i < |xs| ensures lambda[xs[i]] { assert Nullable(g, xs[i]); }
    }
    if AllLambda(lambda, xs) {
      forall i | 0 <= i < |xs| ensures Nullable(g, xs[i]) { assert lambda[xs[i]]; }
    }
  }

  lemma VanishStep(g: Grammar, x: nat, xs: seq<nat>)
    ensures Vanish(g, [x] + xs) <==> Nullable(g, x) && Vanish(g, xs)
  {
    var s := [x] + xs;
    assert s[0] == x && forall i :: 0 <= i < |xs| ==> s[i + 1] == xs[i];
    if Vanish(g, s) {
      forall i | 0 <= i < |xs| ensures Nullable(g, xs[i]) { assert Nullable(g, s[i + 1]); }
    }
  }

  lemma BeginsStep(g: Grammar, xs: seq<nat>, t: nat)
    requires xs != []
    ensures Begins(g, xs, t) <==> BeginsAt(g, xs[0], t) || (Nullable(g, xs[0]) && Begins(g, xs[1..], t))
  {
    var r := xs[1..];
    if i: nat :| BeginsBehind(g, xs, t, i) {
      if i > 0 {
        assert xs[..i] == [xs[0]] + r[..i - 1];
        VanishStep(g, xs[0], r[..i - 1]);
        assert BeginsBehind(g, r, t, i - 1);
      }
    }
    if BeginsAt(g, xs[0], t) { assert BeginsBehind(g, xs, t, 0); }
    if Nullable(g, xs[0]) && Begins(g, r, t) {
      var i: nat :| BeginsBehind(g, r, t, i);
      assert xs[..i + 1] == [xs[0]] + r[..i];
      VanishStep(g, xs[0], r[..i]);
      assert BeginsBehind(g, xs, t, i + 1);
    }
  }

  lemma {:induction false} BeginsIsFirst(a: Analysis, xs: seq<nat>, t: nat)
    requires a.Valid() && LambdaExact(a.g, a.lambda) && FirstExact(a.g, a.first) && forall i :: 0 <= i < |xs| ==> xs[i] < a.g.nsymbol
    ensures Begins(a.g, xs, t) <==> t in FirstOf(a.g, a.lambda, a.first, xs)
    decreases |xs|
  {
    if xs != [] {
      var x := xs[0];
      BeginsStep(a.g, xs, t);
      BeginsIsFirst(a, xs[1..], t);
      assert a.lambda[x] <==> Nullable(a.g, x);
      assert !a.g.IsTerminal(x) ==> (t in a.first[x] <==> BeginsAt(a.g, x, t));
    }
  }

  lemma GivesExactly(a: Analysis, c: Item, t: nat)
    requires a.Valid() && LambdaExact(a.g, a.lambda) && FirstExact(a.g, a.first) && HasNext(a.g, c)
    ensures t in a.Behind().gives(c) <==> Begins(a.g, Rest(a.g, c), t)
    ensures a.Behind().through(c) <==> Vanish(a.g, Rest(a.g, c))
  {
    BeginsIsFirst(a, Rest(a.g, c), t);
    VanishIsAllLambda(a.g, a.lambda, Rest(a.g, c));
  }

  // ----- No lookahead that is not one -----

  /** A lookahead that a configuration has in its own state: the state started with it, or an
      item asks for its rule. */
  lemma OwnSource(a: Analysis, s: State, it: Item, t: nat) returns (c: Item)
    requires a.Valid() && LambdaExact(a.g, a.lambda) && FirstExact(a.g, a.first) && StateOk(a.g, a.Behind(), s)
    requires it in s.closure.members && t in s.closure.fws(it)
    ensures (t in s.look && it in ItemSet(s.key)) || (c in Closure(a.g, ItemSet(s.key)) && Asks(a.g, c, it, t))
  {
    var start := StartList(s.key, s.look);
    c := it;
    ClosureOfKey(a.g, a.Behind(), s);
    assert HasSource(a.g, a.Behind(), start, s.closure.members, it, t);
    if t in start.fws(it) {
      assert it in s.key;
    } else {
      c :| c in s.closure.members && Expands(a.g, c, it) && t in a.Behind().gives(c);
      GivesExactly(a, c, t);
    }
  }

  lemma SourceGives(a: Analysis, s: State, it: Item, t: nat, c: Item)
    requires a.Valid() && LambdaExact(a.g, a.lambda) && FirstExact(a.g, a.first) && StateOk(a.g, a.Behind(), s)
    requires it in s.closure.members && c in Closure(a.g, ItemSet(s.key)) && Asks(a.g, c, it, t)
    ensures t in s.closure.fws(it)
  {
    ClosureOfKey(a.g, a.Behind(), s);
    GivesExactly(a, c, t);
    assert HasSource(a.g, a.Behind(), StartList(s.key, s.look), s.closure.members, it, t);
  }

  lemma OneState(g: Grammar, giving: Giving, states: seq<State>, edges: set<Edge>, q: nat)
    requires IsAutomaton(g, giving, states, edges) && q < |states|
    ensures StateOk(g, giving, states[q]) && Reachable(g, states[q]) && states[q].look == (if q == 0 then {0} else {})
    ensures q == 0 ==> ItemSet(states[q].key) == StartBasis(g)
  {
  }

  lemma OwnIsLookahead(a: Analysis, s: State, it: Item, t: nat, first: bool) returns (w: seq<nat>)
    requires a.Valid() && LambdaExact(a.g, a.lambda) && FirstExact(a.g, a.first) && StateOk(a.g, a.Behind(), s)
    requires it in s.closure.members && t in s.closure.fws(it) && s.look == (if first then {0} else {}) && Reachable(a.g, s)
    requires first ==> ItemSet(s.key) == StartBasis(a.g)
    ensures BasisAfter(a.g, w) == ItemSet(s.key) && FollowedIn(a.g, w, it, t, 1)
  {
    var c := OwnSource(a, s, it, t);
    if t in s.look && it in ItemSet(s.key) {
      w := [];
    } else {
      w :| ItemSet(s.key) == BasisAfter(a.g, w);
    }
  }

  lemma {:induction false} CarriedIsLookahead(a: Analysis, states: seq<State>, edges: set<Edge>, path: seq<Config>, c: Config, b: Config, t: nat)
    returns (w: seq<nat>, n: nat)
    requires a.Valid() && LambdaExact(a.g, a.lambda) && FirstExact(a.g, a.first) && IsAutomaton(a.g, a.Behind(), states, edges)
    requires IsConfig(states, c) && t in states[c.state].closure.fws(c.item) && JoinedPath(states, edges, path, c, b)
    ensures b.state < |states| && BasisAfter(a.g, w) == ItemSet(states[b.state].key) && FollowedIn(a.g, w, b.item, t, n)
    decreases |path|
  {
    if |path| == 1 {
      OneState(a.g, a.Behind(), states, edges, c.state);
      w := OwnIsLookahead(a, states[c.state], c.item, t, c.state == 0);
      n := 1;
    } else {
      var d := ShorterPath(states, edges, path, c, b);
      w, n := CarriedIsLookahead(a, states, edges, path[..|path| - 1], c, d, t);
      w, n := StepIsLookahead(a, states, edges, d, b, t, w, n);
    }
  }

  lemma ShorterPath(states: seq<State>, edges: set<Edge>, path: seq<Config>, c: Config, b: Config) returns (d: Config)
    requires JoinedPath(states, edges, path, c, b) && |path| > 1
    ensures Forward(states, edges, d, b) && JoinedPath(states, edges, path[..|path| - 1], c, d)
  {
    var m := |path| - 2;
    d := path[m];
    assert Forward(states, edges, path[m], path[m + 1]);
  }

  lemma StepIsLookahead(a: Analysis, states: seq<State>, edges: set<Edge>, d: Config, b: Config, t: nat, w: seq<nat>, n: nat)
    returns (w': seq<nat>, n': nat)
    requires a.Valid() && LambdaExact(a.g, a.lambda) && FirstExact(a.g, a.first) && IsAutomaton(a.g, a.Behind(), states, edges)
    requires Forward(states, edges, d, b) && BasisAfter(a.g, w) == ItemSet(states[d.state].key) && FollowedIn(a.g, w, d.item, t, n)
    ensures b.state < |states| && BasisAfter(a.g, w') == ItemSet(states[b.state].key) && FollowedIn(a.g, w', b.item, t, n')
  {
    n' := n + 1;
    OneState(a.g, a.Behind(), states, edges, d.state);
    if d.state == b.state && b.item in states[d.state].closure.links(d.item) {
      w' := w;
      LinkHandsOn(a, states[d.state], d.item, b.item);
      FollowedHanded(a.g, w, d.item, b.item, t, n);
    } else {
      w' := EdgeReads(a.g, a.Behind(), states, edges, d, b, w);
      FollowedRead(a.g, w, w', d.item, b.item, t, n);
    }
  }

  lemma LinkHandsOn(a: Analysis, s: State, c: Item, b: Item)
    requires a.Valid() && LambdaExact(a.g, a.lambda) && FirstExact(a.g, a.first) && StateOk(a.g, a.Behind(), s) && c in s.closure.members
    ensures b in s.closure.links(c) <==> HandsOn(a.g, c, b)
  {
    if HasNext(a.g, c) { GivesExactly(a, c, 0); }
  }

  lemma EdgeReads(g: Grammar, giving: Giving, states: seq<State>, edges: set<Edge>, d: Config, b: Config, w: seq<nat>) returns (w': seq<nat>)
    requires EdgesOk(g, states, edges) && Edge(d, b) in edges && StateOk(g, giving, states[d.state]) && BasisAfter(g, w) == ItemSet(states[d.state].key)
    requires d.state < |states|
    ensures ReadsLast(g, w', d.item, b.item) && w'[..|w'| - 1] == w
    ensures b.state < |states| && BasisAfter(g, w') == ItemSet(states[b.state].key)
  {
    assert EdgeOk(g, states, Edge(d, b));
    w' := w + [Next(g, d.item)];
    assert w'[..|w'| - 1] == w;
    ClosureOfKey(g, giving, states[d.state]);
  }

  lemma FollowedHanded(g: Grammar, w: seq<nat>, c: Item, it: Item, t: nat, n: nat)
    requires FollowedIn(g, w, c, t, n) && HandsOn(g, c, it)
    ensures FollowedIn(g, w, it, t, n + 1)
  {
  }

  lemma FollowedRead(g: Grammar, v: seq<nat>, w: seq<nat>, c: Item, it: Item, t: nat, n: nat)
    requires ReadsLast(g, w, c, it) && w[..|w| - 1] == v && FollowedIn(g, v, c, t, n)
    ensures FollowedIn(g, w, it, t, n + 1)
  {
  }

  // ----- And none is missing -----

  datatype Reason = Starts | Asked(c: Item) | Handed(c: Item) | Read(c: Item)

  lemma FollowedWhy(g: Grammar, w: seq<nat>, it: Item, t: nat, n: nat) returns (why: Reason)
    requires FollowedIn(g, w, it, t, n)
    ensures n > 0
    ensures match why
            case Starts => w == [] && it in StartBasis(g) && t == 0
            case Asked(c) => c in Closure(g, BasisAfter(g, w)) && Asks(g, c, it, t)
            case Handed(c) => HandsOn(g, c, it) && FollowedIn(g, w, c, t, n - 1)
            case Read(c) => ReadsLast(g, w, c, it) && FollowedIn(g, w[..|w| - 1], c, t, n - 1)
  {
    if w == [] && it in StartBasis(g) && t == 0 {
      why := Starts;
    } else if c :| c in Closure(g, BasisAfter(g, w)) && Asks(g, c, it, t) {
      why := Asked(c);
    } else if c :| HandsOn(g, c, it) && FollowedIn(g, w, c, t, n - 1) {
      why := Handed(c);
    } else {
      var c :| ReadsLast(g, w, c, it) && FollowedIn(g, w[..|w| - 1], c, t, n - 1);
      why := Read(c);
    }
  }

  /** What can be followed after w is an item of w's state. */
  lemma {:induction false} FollowedIsMember(g: Grammar, w: seq<nat>, it: Item, t: nat, n: nat)
    requires FollowedIn(g, w, it, t, n)
    ensures it in Closure(g, BasisAfter(g, w))
    decreases n
  {
    var why := FollowedWhy(g, w, it, t, n);
    match why
    case Starts => InBasis(g, w, it);
    case Asked(c) => Expanded(g, BasisAfter(g, w), c, it);
    case Handed(c) =>
      FollowedIsMember(g, w, c, t, n - 1);
      Expanded(g, BasisAfter(g, w), c, it);
    case Read(c) =>
      FollowedIsMember(g, w[..|w| - 1], c, t, n - 1);
      InBasis(g, w, it);
  }

  lemma Expanded(g: Grammar, basis: set<Item>, c: Item, it: Item)
    requires c in Closure(g, basis) && Expands(g, c, it)
    ensures it in Closure(g, basis)
  {
    ClosureIsClosed(g, basis);
  }

  lemma InBasis(g: Grammar, w: seq<nat>, it: Item)
    requires it in BasisAfter(g, w)
    ensures it in Closure(g, BasisAfter(g, w))
  {
    if w != [] { GotoOk(g, Closure(g, BasisAfter(g, w[..|w| - 1])), w[|w| - 1]); }
    ClosureHasBasis(g, BasisAfter(g, w));
  }

  lemma OwnIsCarried(states: seq<State>, edges: set<Edge>, c: Config, t: nat)
    requires IsConfig(states, c) && t in states[c.state].closure.fws(c.item)
    ensures Carried(states, edges, c, t)
  {
    assert JoinedPath(states, edges, [c], c, c);
  }

  lemma CarriedOn(states: seq<State>, edges: set<Edge>, c: Config, b: Config, t: nat)
    requires Carried(states, edges, c, t) && Forward(states, edges, c, b)
    ensures Carried(states, edges, b, t)
  {
    var a, path :| IsConfig(states, a) && t in states[a.state].closure.fws(a.item) && JoinedPath(states, edges, path, a, c);
    assert JoinedPath(states, edges, path + [b], a, b);
  }

  lemma FirstStarts(g: Grammar, giving: Giving, states: seq<State>, edges: set<Edge>, q: nat, it: Item)
    requires IsAutomaton(g, giving, states, edges) && q < |states| && ItemSet(states[q].key) == StartBasis(g) && it in StartBasis(g)
    ensures it in states[q].closure.members && 0 in states[q].closure.fws(it)
  {
    OneStatePerBasis(g, giving, states, q);
    OneState(g, giving, states, edges, q);
    var s := states[q];
    ClosureOfKey(g, giving, s);
    InBasis(g, [], it);
    assert it in s.key;
    assert HasSource(g, giving, StartList(s.key, s.look), s.closure.members, it, 0);
  }

  /** Given in its own state or carried there. */
  ghost predicate Held(states: seq<State>, edges: set<Edge>, q: nat, it: Item, t: nat) {
    IsConfig(states, Config(q, it)) && Carried(states, edges, Config(q, it), t)
  }

  lemma AskedIsHeld(a: Analysis, states: seq<State>, edges: set<Edge>, q: nat, c: Item, it: Item, t: nat)
    requires a.Valid() && LambdaExact(a.g, a.lambda) && FirstExact(a.g, a.first) && q < |states| && StateOk(a.g, a.Behind(), states[q])
    requires c in Closure(a.g, ItemSet(states[q].key)) && Asks(a.g, c, it, t)
    ensures Held(states, edges, q, it, t)
  {
    ClosureOfKey(a.g, a.Behind(), states[q]);
    Expanded(a.g, ItemSet(states[q].key), c, it);
    SourceGives(a, states[q], it, t, c);
    OwnIsCarried(states, edges, Config(q, it), t);
  }

  lemma HandedIsHeld(a: Analysis, states: seq<State>, edges: set<Edge>, q: nat, c: Item, it: Item, t: nat)
    requires a.Valid() && LambdaExact(a.g, a.lambda) && FirstExact(a.g, a.first) && q < |states| && StateOk(a.g, a.Behind(), states[q])
    requires Held(states, edges, q, c, t) && HandsOn(a.g, c, it)
    ensures Held(states, edges, q, it, t)
  {
    ClosureOfKey(a.g, a.Behind(), states[q]);
    Expanded(a.g, ItemSet(states[q].key), c, it);
    LinkHandsOn(a, states[q], c, it);
    CarriedOn(states, edges, Config(q, c), Config(q, it), t);
  }

  lemma StartsIsHeld(g: Grammar, giving: Giving, states: seq<State>, edges: set<Edge>, q: nat, it: Item)
    requires IsAutomaton(g, giving, states, edges) && q < |states| && ItemSet(states[q].key) == StartBasis(g) && it in StartBasis(g)
    ensures Held(states, edges, q, it, 0)
  {
    FirstStarts(g, giving, states, edges, q, it);
    OwnIsCarried(states, edges, Config(q, it), 0);
  }

  /** The link from the state before the last symbol. */
  lemma LinkFrom(g: Grammar, giving: Giving, states: seq<State>, edges: set<Edge>, p: nat, c: Item, q: nat)
    requires IsAutomaton(g, giving, states, edges) && p < |states| && q < |states| && HasNext(g, c)
    requires c in Closure(g, ItemSet(states[p].key)) && ItemSet(states[q].key) == Goto(g, Closure(g, ItemSet(states[p].key)), Next(g, c))
    ensures Forward(states, edges, Config(p, c), Config(q, Advance(c)))
  {
    var j := Successor(g, giving, states, edges, p, c);
    OneStatePerBasis(g, giving, states, q);
    assert j == q;
    OneState(g, giving, states, edges, p);
    OneState(g, giving, states, edges, q);
    ClosureOfKey(g, giving, states[p]);
    KeyIsMember(g, giving, states[q], Advance(c));
    assert LinksMade(g, states, edges, p);
  }

  lemma KeyIsMember(g: Grammar, giving: Giving, s: State, it: Item)
    requires StateOk(g, giving, s) && it in ItemSet(s.key)
    ensures it in s.closure.members
  {
    ClosureOfKey(g, giving, s);
    ClosureHasBasis(g, ItemSet(s.key));
  }

  lemma {:induction false} HandedHeld(a: Analysis, states: seq<State>, edges: set<Edge>, q: nat, w: seq<nat>, c: Item, it: Item, t: nat, n: nat)
    requires a.Valid() && LambdaExact(a.g, a.lambda) && FirstExact(a.g, a.first) && IsAutomaton(a.g, a.Behind(), states, edges)
    requires q < |states| && ItemSet(states[q].key) == BasisAfter(a.g, w) && FollowedIn(a.g, w, c, t, n) && HandsOn(a.g, c, it)
    ensures Held(states, edges, q, it, t)
    decreases n, 1
  {
    LookaheadIsHeld(a, states, edges, q, w, c, t, n);
    OneState(a.g, a.Behind(), states, edges, q);
    HandedIsHeld(a, states, edges, q, c, it, t);
  }

  lemma {:induction false} ReadHeld(a: Analysis, states: seq<State>, edges: set<Edge>, q: nat, v: seq<nat>, c: Item, t: nat, n: nat)
    requires a.Valid() && LambdaExact(a.g, a.lambda) && FirstExact(a.g, a.first) && IsAutomaton(a.g, a.Behind(), states, edges)
    requires q < |states| && HasNext(a.g, c) && ItemSet(states[q].key) == Goto(a.g, Closure(a.g, BasisAfter(a.g, v)), Next(a.g, c))
    requires FollowedIn(a.g, v, c, t, n)
    ensures Held(states, edges, q, Advance(c), t)
    decreases n, 1
  {
    FollowedIsMember(a.g, v, c, t, n);
    NotEmpty(a.g, BasisAfter(a.g, v), c);
    var p := EveryBasisReached(a.g, a.Behind(), states, edges, v);
    LookaheadIsHeld(a, states, edges, p, v, c, t, n);
    LinkFrom(a.g, a.Behind(), states, edges, p, c, q);
    CarriedOn(states, edges, Config(p, c), Config(q, Advance(c)), t);
  }

  lemma {:induction false} LookaheadIsHeld(a: Analysis, states: seq<State>, edges: set<Edge>, q: nat, w: seq<nat>, it: Item, t: nat, n: nat)
    requires a.Valid() && LambdaExact(a.g, a.lambda) && FirstExact(a.g, a.first) && IsAutomaton(a.g, a.Behind(), states, edges)
    requires q < |states| && ItemSet(states[q].key) == BasisAfter(a.g, w) && FollowedIn(a.g, w, it, t, n)
    ensures Held(states, edges, q, it, t)
    decreases n, 0
  {
    var why := FollowedWhy(a.g, w, it, t, n);
    match why
    case Starts => StartsIsHeld(a.g, a.Behind(), states, edges, q, it);
    case Asked(c) => AskedIsHeld(a, states, edges, q, c, it, t);
    case Handed(c) => HandedHeld(a, states, edges, q, w, c, it, t, n - 1);
    case Read(c) => ReadHeld(a, states, edges, q, w[..|w| - 1], c, t, n - 1);
  }

  lemma NotEmpty(g: Grammar, basis: set<Item>, it: Item)
    requires it in Closure(g, basis)
    ensures basis != {}
  {
    var path :| IsExpansion(g, basis, path, it);
  }

  /** The generator's lookaheads are exactly those of the definition. */
  lemma LookaheadsExactly(a: Analysis, states: seq<State>, edges: set<Edge>, fws: map<Config, set<nat>>, q: nat, it: Item, t: nat)
    requires a.Valid() && LambdaExact(a.g, a.lambda) && FirstExact(a.g, a.first)
    requires IsAutomaton(a.g, a.Behind(), states, edges) && LookaheadsOk(states, edges, fws) && q < |states|
    ensures Config(q, it) in fws && t in fws[Config(q, it)] <==> IsLookahead(a.g, ItemSet(states[q].key), it, t)
  {
    var b := Config(q, it);
    if b in fws && t in fws[b] {
      var c, path :| IsConfig(states, c) && t in states[c.state].closure.fws(c.item) && JoinedPath(states, edges, path, c, b);
      var w, n := CarriedIsLookahead(a, states, edges, path, c, b, t);
    }
    if IsLookahead(a.g, ItemSet(states[q].key), it, t) {
      var w, n: nat :| BasisAfter(a.g, w) == ItemSet(states[q].key) && FollowedIn(a.g, w, it, t, n);
      LookaheadIsHeld(a, states, edges, q, w, it, t, n);
    }
  }

  ghost predicate LalrExact(g: Grammar, states: seq<State>, fws: map<Config, set<nat>>) {
    forall q: nat, it: Item, t: nat :: q < |states| ==>
      (Config(q, it) in fws && t in fws[Config(q, it)] <==> IsLookahead(g, ItemSet(states[q].key), it, t))
  }

  lemma AllLookaheadsExactly(a: Analysis, states: seq<State>, edges: set<Edge>, fws: map<Config, set<nat>>)
    requires a.Valid() && LambdaExact(a.g, a.lambda) && FirstExact(a.g, a.first)
    requires IsAutomaton(a.g, a.Behind(), states, edges) && LookaheadsOk(states, edges, fws)
    ensures LalrExact(a.g, states, fws)
  {
    forall q: nat, it: Item, t: nat | q < |states|
      ensures Config(q, it) in fws && t in fws[Config(q, it)] <==> IsLookahead(a.g, ItemSet(states[q].key), it, t)
    {
      LookaheadsExactly(a, states, edges, fws, q, it, t);
    }
  }
}
