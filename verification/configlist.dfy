/** Configlist_closure: from the basis of a state to all its configurations, with the
    lookaheads each new configuration is given and the links along which lookaheads are
    to be propagated within the state. */
module Configlists {
  import opened Grammars
  import opened FirstSets
  import opened Items

  /** The grammar with its nullable symbols and FIRST sets. */
  datatype Analysis = Analysis(g: Grammar, lambda: seq<bool>, first: seq<set<nat>>) {
    ghost predicate Valid() {
      Shape(g, lambda, first) && forall x :: 0 <= x < g.nterminal ==> !lambda[x]
    }

    /** The terminals that can follow the next symbol within the rule, and whether all
        that follows can vanish. */
    ghost function Behind(): (Giving)
      requires Valid()
    {
      Giving((it: Item) => if HasNext(g, it) then FirstOf(g, lambda, first, Rest(g, it)) else {},
             (it: Item) => HasNext(g, it) && AllLambda(lambda, Rest(g, it)))
    }
  }

  /** What a configuration gives the rules it asks for: lookaheads of its own, and
      whether its follow set is handed on as well. */
  datatype Giving = Giving(gives: Item -> set<nat>, through: Item -> bool)

  /** The list under construction: the items in order, the same as a set (the table that
      finds them), and for each item its follow set and its forward propagation links. */
  datatype Configs = Configs(current: seq<Item>, members: set<Item>, fws: Item -> set<nat>, links: Item -> set<Item>) {
    ghost predicate Valid(g: Grammar) {
      && (forall i :: 0 <= i < |current| ==> current[i] in members)
      && (forall x :: x in members ==> exists i :: 0 <= i < |current| && current[i] == x)
      && |current| == |members| && AllOk(g, members)
    }
  }

  /** Configlist_add. */
  function AddConfig(c: Configs, it: Item): Configs {
    if it in c.members then c
    else Configs(c.current + [it], c.members + {it},
                 (x: Item) => if x == it then {} else c.fws(x), (x: Item) => if x == it then {} else c.links(x))
  }

  lemma AddConfigValid(g: Grammar, c: Configs, it: Item)
    requires c.Valid(g) && Ok(g, it)
    ensures AddConfig(c, it).Valid(g) && c.current <= AddConfig(c, it).current
  {
    if it !in c.members {
      var d := AddConfig(c, it);
      assert d.current[|c.current|] == it;
      forall x | x in c.members ensures exists i :: 0 <= i < |d.current| && d.current[i] == x {
        StillListed(c.current, d.current, x);
      }
    }
  }

  lemma StillListed(s: seq<Item>, t: seq<Item>, x: Item)
    requires s <= t && exists i :: 0 <= i < |s| && s[i] == x
    ensures exists i :: 0 <= i < |t| && t[i] == x
  {
    var i :| 0 <= i < |s| && s[i] == x;
    assert t[i] == x;
  }

  // ----- What the closure promises -----

  /** Where the lookaheads of b come from: they were there at the start, or come from a
      configuration that asks for b's rule. */
  ghost predicate HasSource(g: Grammar, giving: Giving, start: Configs, members: set<Item>, b: Item, t: nat) {
    t in start.fws(b) || exists c :: c in members && Expands(g, c, b) && t in giving.gives(c)
  }

  ghost predicate FwsSound(g: Grammar, giving: Giving, start: Configs, v: Configs) {
    forall b, t :: t in v.fws(b) ==> HasSource(g, giving, start, v.members, b, t)
  }

  /** Configuration c has given every rule from r on what it has to give. */
  ghost predicate Given(g: Grammar, giving: Giving, c: Item, r: nat, v: Configs) {
    forall b :: Expands(g, c, b) && b.rule >= r ==> b in v.members && giving.gives(c) <= v.fws(b)
  }

  ghost predicate Linked(g: Grammar, giving: Giving, c: Item, r: nat, v: Configs) {
    forall b :: b in v.links(c) <==> Expands(g, c, b) && b.rule >= r && giving.through(c)
  }

  ghost predicate Done(g: Grammar, giving: Giving, c: Item, r: nat, v: Configs) {
    Given(g, giving, c, r, v) && Linked(g, giving, c, r, v)
  }

  ghost predicate Keeps(start: Configs, v: Configs) {
    start.members <= v.members && forall it :: start.fws(it) <= v.fws(it)
  }

  /** Nothing is held that does not belong there: no item outside a given closed set, and
      no lookahead without a source. */
  ghost predicate Sound(g: Grammar, giving: Giving, start: Configs, bound: set<Item>, v: Configs) {
    && Keeps(start, v) && v.members <= bound && FwsSound(g, giving, start, v)
  }

  /** The result: exactly the closure, with exact follow sets and links. */
  ghost predicate IsClosure(g: Grammar, giving: Giving, start: Configs, v: Configs) {
    && v.members == Closure(g, start.members)
    && (forall b, t :: b in v.members ==> (t in v.fws(b) <==> HasSource(g, giving, start, v.members, b, t)))
    && (forall c, b :: c in v.members ==> (b in v.links(c) <==> Expands(g, c, b) && giving.through(c)))
  }

  /** What one turn does: c asks for the rule that b starts. */
  ghost predicate Turned(v: Configs, w: Configs, c: Item, b: Item, gives: set<nat>, through: bool) {
    && w.members == v.members + {b}
    && (forall x :: w.fws(x) == if x == b then v.fws(x) + gives else v.fws(x))
    && (forall x :: w.links(x) == if x == c && through then v.links(x) + {b} else v.links(x))
  }

  lemma SourceKept(g: Grammar, giving: Giving, start: Configs, members: set<Item>, members': set<Item>, b: Item, t: nat)
    requires members <= members' && HasSource(g, giving, start, members, b, t)
    ensures HasSource(g, giving, start, members', b, t)
  {
  }

  /** A turn keeps the list sound. */
  lemma TurnedSound(g: Grammar, giving: Giving, start: Configs, bound: set<Item>, v: Configs, w: Configs, c: Item, b: Item)
    requires Sound(g, giving, start, bound, v) && c in v.members && Expands(g, c, b) && Closed(g, bound)
    requires Turned(v, w, c, b, giving.gives(c), giving.through(c))
    ensures Sound(g, giving, start, bound, w)
  {
    forall x, t | t in w.fws(x)
      ensures HasSource(g, giving, start, w.members, x, t)
    {
      if t in v.fws(x) {
        SourceKept(g, giving, start, v.members, w.members, x, t);
      }
    }
  }

  /** What another configuration has done stays done, and c is done with one rule more. */
  lemma TurnedDone(g: Grammar, giving: Giving, v: Configs, w: Configs, c: Item, b: Item, x: Item, r: nat)
    requires Expands(g, c, b) && Turned(v, w, c, b, giving.gives(c), giving.through(c))
    requires if x == c then r == b.rule && Done(g, giving, x, r + 1, v) else Done(g, giving, x, r, v)
    ensures Done(g, giving, x, r, w)
  {
  }

  /** When every member is done, the list is the closure. */
  lemma AllDone(g: Grammar, giving: Giving, start: Configs, v: Configs)
    requires Sound(g, giving, start, Closure(g, start.members), v) && AllOk(g, v.members)
    requires forall c :: c in v.members ==> Done(g, giving, c, 0, v)
    ensures IsClosure(g, giving, start, v)
  {
    assert Closed(g, v.members);
    ClosureIsLeast(g, start.members, v.members);
    forall b, t | b in v.members && HasSource(g, giving, start, v.members, b, t)
      ensures t in v.fws(b)
    {
      if t !in start.fws(b) {
        var c :| c in v.members && Expands(g, c, b) && t in giving.gives(c);
      }
    }
  }

  // ----- The loops -----

  /** The innermost loop: walk the symbols behind the next one. */
  method FeedConfig(a: Analysis, c: Item, before: set<nat>, ghost giving: Giving) returns (fws: set<nat>, through: bool)
    requires a.Valid() && HasNext(a.g, c) && giving == a.Behind()
    ensures fws == before + giving.gives(c) && through == giving.through(c)
  {
    var xs := Rest(a.g, c);
    var i := 0;
    fws := before;
    while i < |xs|
      invariant 0 <= i <= |xs| && AllLambda(a.lambda, xs[..i])
      invariant fws + FirstOf(a.g, a.lambda, a.first, xs[i..]) == before + FirstOf(a.g, a.lambda, a.first, xs)
    {
      var x := xs[i];
      assert xs[i..][0] == x && xs[i..][1..] == xs[i + 1..];
      if a.g.IsTerminal(x) {
        return fws + {x}, false;
      }
      fws := fws + a.first[x];
      if !a.lambda[x] { return fws, false; }
      i := i + 1;
    }
    assert xs[i..] == [] && xs[..i] == xs;
    through := true;
  }

  function Feed(c: Configs, b: Item, fws: set<nat>): Configs {
    c.(fws := (x: Item) => if x == b then fws else c.fws(x))
  }

  function Link(c: Configs, from: Item, to: Item): Configs {
    c.(links := (x: Item) => if x == from then c.links(x) + {to} else c.links(x))
  }

  /** An item that is not on the list has no lookaheads and no links. */
  ghost predicate Quiet(c: Configs) {
    forall x :: x !in c.members ==> c.fws(x) == {} && c.links(x) == {}
  }

  function Asked(configs: Configs, c: Item, b: Item, fws: set<nat>, through: bool): Configs {
    var fed := Feed(AddConfig(configs, b), b, fws);
    if through then Link(fed, c, b) else fed
  }

  lemma AskedTurned(configs: Configs, c: Item, b: Item, gives: set<nat>, through: bool)
    requires Quiet(configs) && c in configs.members
    ensures var w := Asked(configs, c, b, AddConfig(configs, b).fws(b) + gives, through);
            Turned(configs, w, c, b, gives, through) && Quiet(w)
  {
  }

  lemma AskedValid(g: Grammar, configs: Configs, c: Item, b: Item, fws: set<nat>, through: bool)
    requires configs.Valid(g) && Ok(g, b)
    ensures Asked(configs, c, b, fws, through).Valid(g) && configs.current <= Asked(configs, c, b, fws, through).current
  {
    AddConfigValid(g, configs, b);
  }

  /** The body of the middle loop: one rule that c asks for. */
  method AskRule(a: Analysis, configs: Configs, c: Item, r: nat, ghost giving: Giving) returns (configs': Configs)
    requires a.Valid() && giving == a.Behind() && HasNext(a.g, c)
    ensures configs' == Asked(configs, c, Item(r, 0), AddConfig(configs, Item(r, 0)).fws(Item(r, 0)) + giving.gives(c), giving.through(c))
  {
    var b := Item(r, 0);
    configs' := AddConfig(configs, b);
    var fws, through := FeedConfig(a, c, configs'.fws(b), giving);
    configs' := Feed(configs', b, fws);
    if through { configs' := Link(configs', c, b); }
  }

  /** What c's turns leave alone: who was done is done, and only c's links change. */
  ghost predicate OthersKept(g: Grammar, giving: Giving, c: Item, v: Configs, w: Configs) {
    && (forall x :: x != c && Done(g, giving, x, 0, v) ==> Done(g, giving, x, 0, w))
    && (forall x :: x != c ==> w.links(x) == v.links(x))
  }

  lemma TurnKeepsOthers(g: Grammar, giving: Giving, c: Item, b: Item, v0: Configs, v: Configs, w: Configs)
    requires OthersKept(g, giving, c, v0, v)
    requires Expands(g, c, b) && Turned(v, w, c, b, giving.gives(c), giving.through(c))
    ensures OthersKept(g, giving, c, v0, w)
  {
    forall x | x != c && Done(g, giving, x, 0, v)
      ensures Done(g, giving, x, 0, w)
    {
      TurnedDone(g, giving, v, w, c, b, x, 0);
    }
  }

  lemma NoSuchRule(g: Grammar, giving: Giving, c: Item, r: nat, v: Configs)
    requires Done(g, giving, c, r + 1, v) && !Expands(g, c, Item(r, 0))
    ensures Done(g, giving, c, r, v)
  {
    forall b | Expands(g, c, b) && b.rule >= r
      ensures b.rule >= r + 1
    {
      assert b == Item(b.rule, 0);
    }
  }

  lemma NothingAsked(g: Grammar, giving: Giving, c: Item, r: nat, v: Configs)
    requires r >= |g.rules| && v.links(c) == {}
    ensures Done(g, giving, c, r, v)
  {
  }

  /** How far the middle loop has come. */
  ghost predicate Asking(g: Grammar, giving: Giving, start: Configs, bound: set<Item>, c: Item, r: nat, v0: Configs, v: Configs) {
    && v.Valid(g) && Quiet(v) && v0.current <= v.current
    && Sound(g, giving, start, bound, v) && Done(g, giving, c, r, v) && OthersKept(g, giving, c, v0, v) && c in v.members
  }

  lemma AskingStart(g: Grammar, giving: Giving, start: Configs, bound: set<Item>, c: Item, v: Configs)
    requires v.Valid(g) && Quiet(v) && c in v.members && Sound(g, giving, start, bound, v) && v.links(c) == {}
    ensures Asking(g, giving, start, bound, c, |g.rules|, v, v)
  {
    NothingAsked(g, giving, c, |g.rules|, v);
  }

  lemma AskingTurn(g: Grammar, giving: Giving, start: Configs, bound: set<Item>, c: Item, r: nat, v0: Configs, v: Configs, w: Configs)
    requires Closed(g, bound) && Asking(g, giving, start, bound, c, r + 1, v0, v) && Expands(g, c, Item(r, 0))
    requires w == Asked(v, c, Item(r, 0), AddConfig(v, Item(r, 0)).fws(Item(r, 0)) + giving.gives(c), giving.through(c))
    ensures Asking(g, giving, start, bound, c, r, v0, w)
  {
    var b := Item(r, 0);
    AskedTurned(v, c, b, giving.gives(c), giving.through(c));
    AskedValid(g, v, c, b, AddConfig(v, b).fws(b) + giving.gives(c), giving.through(c));
    TurnedSound(g, giving, start, bound, v, w, c, b);
    TurnedDone(g, giving, v, w, c, b, c, r);
    TurnKeepsOthers(g, giving, c, b, v0, v, w);
  }

  /** The middle loop: the rules below r for the symbol behind c's dot, the latest first. */
  function AskRules(g: Grammar, v: Configs, c: Item, gives: set<nat>, through: bool, r: nat): Configs
    decreases r
  {
    if r == 0 then v
    else
      var b := Item(r - 1, 0);
      var w := if Expands(g, c, b) then Asked(v, c, b, AddConfig(v, b).fws(b) + gives, through) else v;
      AskRules(g, w, c, gives, through, r - 1)
  }

  lemma AskStep(g: Grammar, giving: Giving, start: Configs, bound: set<Item>, c: Item, r: nat, v0: Configs, v: Configs) returns (w: Configs)
    requires Closed(g, bound) && Asking(g, giving, start, bound, c, r + 1, v0, v)
    ensures Asking(g, giving, start, bound, c, r, v0, w)
    ensures AskRules(g, v, c, giving.gives(c), giving.through(c), r + 1) == AskRules(g, w, c, giving.gives(c), giving.through(c), r)
  {
    var b := Item(r, 0);
    if Expands(g, c, b) {
      w := Asked(v, c, b, AddConfig(v, b).fws(b) + giving.gives(c), giving.through(c));
      AskingTurn(g, giving, start, bound, c, r, v0, v, w);
    } else {
      w := v;
      NoSuchRule(g, giving, c, r, v);
    }
  }

  lemma {:induction false} AskRulesAsks(g: Grammar, giving: Giving, start: Configs, bound: set<Item>, c: Item, r: nat, v0: Configs, v: Configs)
    returns (w: Configs)
    requires Closed(g, bound) && Asking(g, giving, start, bound, c, r, v0, v)
    ensures w == AskRules(g, v, c, giving.gives(c), giving.through(c), r)
    ensures Asking(g, giving, start, bound, c, 0, v0, w)
    decreases r
  {
    if r == 0 {
      w := v;
    } else {
      var u := AskStep(g, giving, start, bound, c, r - 1, v0, v);
      w := AskRulesAsks(g, giving, start, bound, c, r - 1, v0, u);
    }
  }

  method ExpandConfig(a: Analysis, configs: Configs, c: Item, ghost giving: Giving) returns (configs': Configs)
    requires a.Valid() && giving == a.Behind()
    ensures configs' == AskRules(a.g, configs, c, giving.gives(c), giving.through(c), |a.g.rules|)
  {
    configs' := configs;
    var r := |a.g.rules|;
    ghost var gives, through := giving.gives(c), giving.through(c);
    while r > 0
      invariant 0 <= r && AskRules(a.g, configs', c, gives, through, r) == AskRules(a.g, configs, c, gives, through, |a.g.rules|)
    {
      r := r - 1;
      if Expands(a.g, c, Item(r, 0)) {
        configs' := AskRule(a, configs', c, r, giving);
      }
    }
  }

  /** The first k configurations are done with, and none behind them has been touched. */
  ghost predicate Upto(g: Grammar, giving: Giving, k: nat, v: Configs) {
    && k <= |v.current|
    && (forall i :: 0 <= i < k ==> Done(g, giving, v.current[i], 0, v))
    && (forall i :: k <= i < |v.current| ==> v.links(v.current[i]) == {})
  }

  lemma OneFurther(g: Grammar, giving: Giving, v: Configs, w: Configs, k: nat)
    requires v.Valid(g) && w.Valid(g) && Quiet(v) && v.current <= w.current && k < |v.current|
    requires Upto(g, giving, k, v)
    requires Done(g, giving, v.current[k], 0, w) && OthersKept(g, giving, v.current[k], v, w)
    ensures Upto(g, giving, k + 1, w)
  {
    DistinctList(g, w);
    forall i | 0 <= i < k
      ensures Done(g, giving, w.current[i], 0, w)
    {
      assert Done(g, giving, v.current[i], 0, v);
    }
  }

  /** What the outer loop keeps. */
  ghost predicate Closing(g: Grammar, giving: Giving, start: Configs, bound: set<Item>, k: nat, v: Configs) {
    && v.Valid(g) && Quiet(v) && start.current <= v.current
    && Upto(g, giving, k, v) && Sound(g, giving, start, bound, v)
  }

  lemma Further(g: Grammar, giving: Giving, start: Configs, bound: set<Item>, v: Configs, w: Configs, k: nat)
    requires Closed(g, bound) && Closing(g, giving, start, bound, k, v) && k < |v.current|
    requires w == AskRules(g, v, v.current[k], giving.gives(v.current[k]), giving.through(v.current[k]), |g.rules|)
    ensures Closing(g, giving, start, bound, k + 1, w)
  {
    var c := v.current[k];
    AskingStart(g, giving, start, bound, c, v);
    var w' := AskRulesAsks(g, giving, start, bound, c, |g.rules|, v, v);
    OneFurther(g, giving, v, w, k);
  }

  /** As long as its set, the list repeats nothing. */
  lemma DistinctList(g: Grammar, v: Configs)
    requires v.Valid(g)
    ensures forall i, j :: 0 <= i < j < |v.current| ==> v.current[i] != v.current[j]
  {
    forall i, j | 0 <= i < j < |v.current|
      ensures v.current[i] != v.current[j]
    {
      if v.current[i] == v.current[j] {
        var rest := v.current[..j] + v.current[j + 1..];
        assert v.members <= (set x | x in rest) by {
          forall x | x in v.members ensures x in rest {
            var k :| 0 <= k < |v.current| && v.current[k] == x;
            if k < j { assert rest[k] == x; } else if k > j { assert rest[k - 1] == x; } else { assert rest[i] == x; }
          }
        }
        ElemsSize(rest);
        SubsetSize(v.members, set x | x in rest);
      }
    }
  }

  lemma {:induction false} ElemsSize<T>(s: seq<T>)
    ensures |set x | x in s| <= |s|
  {
    if s != [] {
      ElemsSize(s[1..]);
      assert (set x | x in s) == (set x | x in s[1..]) + {s[0]};
    }
  }

  lemma {:induction false} SubsetSize<T>(a: set<T>, b: set<T>)
    requires a <= b
    ensures |a| <= |b|
  {
    if a != {} {
      var x :| x in a;
      SubsetSize(a - {x}, b - {x});
    }
  }

  method CloseTurn(a: Analysis, ghost start: Configs, ghost giving: Giving, ghost bound: set<Item>, configs: Configs, k: nat)
    returns (configs': Configs)
    requires a.Valid() && giving == a.Behind() && Closed(a.g, bound) && k < |configs.current|
    requires Closing(a.g, giving, start, bound, k, configs)
    ensures Closing(a.g, giving, start, bound, k + 1, configs')
  {
    configs' := ExpandConfig(a, configs, configs.current[k], giving);
    Further(a.g, giving, start, bound, configs, configs', k);
  }

  lemma StartClosing(g: Grammar, giving: Giving, start: Configs) returns (bound: set<Item>)
    requires start.Valid(g) && Quiet(start) && forall x :: start.links(x) == {}
    ensures bound == Closure(g, start.members) && Closed(g, bound) && Closing(g, giving, start, bound, 0, start)
  {
    bound := Closure(g, start.members);
    ClosureHasBasis(g, start.members);
    ClosureIsClosed(g, start.members);
    StartSound(g, giving, start, bound);
  }

  /** The loop over the list, which grows meanwhile. */
  method CloseLoop(a: Analysis, start: Configs, ghost giving: Giving, ghost bound: set<Item>) returns (configs: Configs)
    requires a.Valid() && giving == a.Behind() && Closed(a.g, bound) && Closing(a.g, giving, start, bound, 0, start)
    ensures Closing(a.g, giving, start, bound, |configs.current|, configs)
  {
    configs := start;
    var k := 0;
    while k < |configs.current|
      invariant Closing(a.g, giving, start, bound, k, configs) && k <= |configs.current|
      decreases |AllItems(a.g)| - k
    {
      WithinAllItems(a.g, configs);
      configs := CloseTurn(a, start, giving, bound, configs, k);
      k := k + 1;
    }
  }

  /** Configlist_closure: exactly the closure, whatever order it is found in. */
  method CloseConfigs(a: Analysis, start: Configs, ghost giving: Giving) returns (configs: Configs)
    requires a.Valid() && giving == a.Behind() && start.Valid(a.g) && Quiet(start)
    requires forall x :: start.links(x) == {}
    ensures configs.Valid(a.g) && start.current <= configs.current
    ensures IsClosure(a.g, giving, start, configs)
  {
    ghost var bound := StartClosing(a.g, giving, start);
    configs := CloseLoop(a, start, giving, bound);
    AllDone(a.g, giving, start, configs);
  }

  lemma StartSound(g: Grammar, giving: Giving, start: Configs, bound: set<Item>)
    requires start.members <= bound
    ensures Sound(g, giving, start, bound, start)
  {
  }

  lemma WithinAllItems(g: Grammar, v: Configs)
    requires v.Valid(g)
    ensures |v.current| <= |AllItems(g)|
  {
    forall x | x in v.members ensures x in AllItems(g) { InAllItems(g, x); }
    SubsetSize(v.members, AllItems(g));
  }
}
