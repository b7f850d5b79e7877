/** FindLinks and FindFollowSets on the automaton: the lookaheads of every configuration. */
module Lookaheads {
  import opened Grammars
  import opened FirstSets
  import opened Items
  import opened Configlists
  import opened States
  import FollowSets

  ghost predicate IsConfig(states: seq<State>, c: Config) {
    c.state < |states| && c.item in states[c.state].closure.members
  }

  /** A forward link: within the state, or along a shift. */
  predicate Joined(states: seq<State>, edges: set<Edge>, a: Config, b: Config) {
    a.state < |states| && ((a.state == b.state && b.item in states[a.state].closure.links(a.item)) || Edge(a, b) in edges)
  }

  ghost predicate Forward(states: seq<State>, edges: set<Edge>, a: Config, b: Config) {
    IsConfig(states, a) && IsConfig(states, b) && Joined(states, edges, a, b)
  }

  ghost predicate JoinedPath(states: seq<State>, edges: set<Edge>, path: seq<Config>, a: Config, b: Config) {
    && path != [] && path[0] == a && path[|path| - 1] == b
    && forall i :: 0 <= i < |path| - 1 ==> Forward(states, edges, path[i], path[i + 1])
  }

  /** b is reached by links from a configuration that was given t in its own state. */
  ghost predicate Carried(states: seq<State>, edges: set<Edge>, b: Config, t: nat) {
    exists a, path :: IsConfig(states, a) && t in states[a.state].closure.fws(a.item) && JoinedPath(states, edges, path, a, b)
  }

  ghost predicate TerminalsOnly(g: Grammar, fws: map<Config, set<nat>>) {
    forall c, t :: c in fws && t in fws[c] ==> g.IsTerminal(t)
  }

  ghost predicate LookaheadsOk(states: seq<State>, edges: set<Edge>, fws: map<Config, set<nat>>) {
    && (forall c :: c in fws <==> IsConfig(states, c))
    && forall b, t :: b in fws ==> (t in fws[b] <==> Carried(states, edges, b, t))
  }

  /** The configurations of all states, in order. */
  method AllConfigs(ghost g: Grammar, ghost giving: Giving, states: seq<State>) returns (nodes: seq<Config>)
    requires AllOkStates(g, giving, states)
    ensures forall c :: c in nodes <==> IsConfig(states, c)
  {
    nodes := [];
    for i := 0 to |states|
      invariant forall c :: c in nodes <==> c.state < i && IsConfig(states, c)
    {
      var configs := states[i].configs;
      assert StateOk(g, giving, states[i]);
      for k := 0 to |configs|
        invariant forall c :: c in nodes <==> IsConfig(states, c) && (c.state < i || (c.state == i && c.item in configs[..k]))
      {
        assert configs[k] in ItemSet(configs);
        nodes := nodes + [Config(i, configs[k])];
      }
      forall x ensures x in configs[..|configs|] <==> x in states[i].closure.members {
        assert x in ItemSet(configs) <==> x in states[i].closure.members;
      }
    }
  }

  /** FindLinks: both kinds of links of one configuration. */
  method LinksOf(states: seq<State>, edges: set<Edge>, nodes: seq<Config>, a: Config) returns (list: seq<Config>)
    ensures forall b :: b in list <==> b in nodes && Joined(states, edges, a, b)
  {
    list := [];
    for k := 0 to |nodes|
      invariant forall b :: b in list <==> b in nodes[..k] && Joined(states, edges, a, b)
    {
      if Joined(states, edges, a, nodes[k]) { list := list + [nodes[k]]; }
    }
    assert nodes[..|nodes|] == nodes;
  }

  method FindLinks(states: seq<State>, edges: set<Edge>, nodes: seq<Config>) returns (links: map<Config, seq<Config>>)
    requires forall c :: c in nodes <==> IsConfig(states, c)
    ensures forall a :: a in links <==> a in nodes
    ensures forall a, b :: a in links ==> (b in links[a] <==> b in nodes && Joined(states, edges, a, b))
  {
    links := map[];
    for k := 0 to |nodes|
      invariant forall a :: a in links <==> a in nodes[..k]
      invariant forall a, b :: a in links ==> (b in links[a] <==> b in nodes && Joined(states, edges, a, b))
    {
      assert IsConfig(states, nodes[k]);
      var list := LinksOf(states, edges, nodes, nodes[k]);
      links := links[nodes[k] := list];
    }
    assert nodes[..|nodes|] == nodes;
  }

  method StartSets(states: seq<State>, nodes: seq<Config>) returns (fws: map<Config, set<nat>>)
    requires forall c :: c in nodes <==> IsConfig(states, c)
    ensures forall a :: a in fws <==> a in nodes
    ensures forall a :: a in fws ==> IsConfig(states, a) && fws[a] == states[a.state].closure.fws(a.item)
  {
    fws := map[];
    for k := 0 to |nodes|
      invariant forall a :: a in fws <==> a in nodes[..k]
      invariant forall a :: a in fws ==> IsConfig(states, a) && fws[a] == states[a.state].closure.fws(a.item)
    {
      assert IsConfig(states, nodes[k]);
      fws := fws[nodes[k] := states[nodes[k].state].closure.fws(nodes[k].item)];
    }
    assert nodes[..|nodes|] == nodes;
  }

  // ----- Lookaheads are terminals -----

  lemma {:induction false} FirstOfTerminals(a: Analysis, xs: seq<nat>)
    requires a.Valid() && FirstExact(a.g, a.first) && forall i :: 0 <= i < |xs| ==> xs[i] < a.g.nsymbol
    ensures forall t :: t in FirstOf(a.g, a.lambda, a.first, xs) ==> a.g.IsTerminal(t)
  {
    if xs != [] && !a.g.IsTerminal(xs[0]) {
      FirstOfTerminals(a, xs[1..]);
      assert a.g.IsNonterminal(xs[0]);
    }
  }

  lemma GivenTerminals(a: Analysis, s: State, it: Item, t: nat)
    requires a.Valid() && FirstExact(a.g, a.first) && StateOk(a.g, a.Behind(), s)
    requires (forall x :: x in s.look ==> a.g.IsTerminal(x)) && it in s.closure.members && t in s.closure.fws(it)
    ensures a.g.IsTerminal(t)
  {
    var start := StartList(s.key, s.look);
    assert HasSource(a.g, a.Behind(), start, s.closure.members, it, t);
    if t !in start.fws(it) {
      var c :| c in s.closure.members && Expands(a.g, c, it) && t in a.Behind().gives(c);
      FirstOfTerminals(a, Rest(a.g, c));
    }
  }

  // ----- The whole computation -----

  ghost predicate SameGraph(states: seq<State>, edges: set<Edge>, nodes: seq<Config>, links: map<Config, seq<Config>>,
                            fws0: map<Config, set<nat>>) {
    && (forall c :: c in nodes <==> IsConfig(states, c))
    && (forall a :: a in links <==> a in nodes) && (forall a :: a in fws0 <==> a in nodes)
    && (forall a, b :: a in links ==> (b in links[a] <==> b in nodes && Joined(states, edges, a, b)))
    && forall a :: a in fws0 ==> IsConfig(states, a) && fws0[a] == states[a.state].closure.fws(a.item)
  }

  lemma SamePath(states: seq<State>, edges: set<Edge>, nodes: seq<Config>, links: map<Config, seq<Config>>,
                 fws0: map<Config, set<nat>>, path: seq<Config>, a: Config, b: Config)
    requires SameGraph(states, edges, nodes, links, fws0)
    ensures FollowSets.IsPath(links, path, a, b) <==> JoinedPath(states, edges, path, a, b)
  {
    if FollowSets.IsPath(links, path, a, b) {
      forall i | 0 <= i < |path| - 1
        ensures Forward(states, edges, path[i], path[i + 1])
      {
        assert path[i] in links && path[i + 1] in links[path[i]];
        assert IsConfig(states, path[i + 1]);
      }
    }
    if JoinedPath(states, edges, path, a, b) {
      forall i | 0 <= i < |path| - 1
        ensures path[i] in links && path[i + 1] in links[path[i]]
      {
        assert Forward(states, edges, path[i], path[i + 1]);
      }
    }
  }

  lemma SameOrigins(states: seq<State>, edges: set<Edge>, nodes: seq<Config>, links: map<Config, seq<Config>>,
                    fws0: map<Config, set<nat>>, b: Config, t: nat)
    requires SameGraph(states, edges, nodes, links, fws0)
    ensures FollowSets.HasOrigin(links, fws0, b, t) <==> Carried(states, edges, b, t)
  {
    if FollowSets.HasOrigin(links, fws0, b, t) {
      var a, path :| a in fws0 && t in fws0[a] && FollowSets.IsPath(links, path, a, b);
      SamePath(states, edges, nodes, links, fws0, path, a, b);
    }
    if Carried(states, edges, b, t) {
      var a, path :| IsConfig(states, a) && t in states[a.state].closure.fws(a.item) && JoinedPath(states, edges, path, a, b);
      SamePath(states, edges, nodes, links, fws0, path, a, b);
    }
  }

  lemma LooksAreTerminals(a: Analysis, states: seq<State>, c: Config, t: nat)
    requires a.Valid() && FirstExact(a.g, a.first) && AllOkStates(a.g, a.Behind(), states)
    requires forall i, t :: 0 <= i < |states| && t in states[i].look ==> a.g.IsTerminal(t)
    requires IsConfig(states, c) && t in states[c.state].closure.fws(c.item)
    ensures a.g.IsTerminal(t)
  {
    assert StateOk(a.g, a.Behind(), states[c.state]);
    GivenTerminals(a, states[c.state], c.item, t);
  }

  lemma AllLooksAreTerminals(a: Analysis, states: seq<State>)
    requires a.Valid() && FirstExact(a.g, a.first) && AllOkStates(a.g, a.Behind(), states)
    requires forall i, t :: 0 <= i < |states| && t in states[i].look ==> a.g.IsTerminal(t)
    ensures forall c, t :: IsConfig(states, c) && t in states[c.state].closure.fws(c.item) ==> t < a.g.nterminal
  {
    forall c, t | IsConfig(states, c) && t in states[c.state].closure.fws(c.item)
      ensures t < a.g.nterminal
    {
      LooksAreTerminals(a, states, c, t);
    }
  }

  lemma GraphIsOk(states: seq<State>, edges: set<Edge>, nodes: seq<Config>, links: map<Config, seq<Config>>,
                  fws0: map<Config, set<nat>>, limit: nat)
    requires SameGraph(states, edges, nodes, links, fws0)
    requires forall c, t :: IsConfig(states, c) && t in states[c.state].closure.fws(c.item) ==> t < limit
    ensures FollowSets.GraphOk(links, fws0, limit)
  {
    forall c, k | c in links && 0 <= k < |links[c]|
      ensures links[c][k] in fws0
    {
      assert links[c][k] in links[c];
    }
  }

  lemma CarriedExactly(g: Grammar, states: seq<State>, edges: set<Edge>, nodes: seq<Config>, links: map<Config, seq<Config>>,
                       fws0: map<Config, set<nat>>, fws: map<Config, set<nat>>)
    requires SameGraph(states, edges, nodes, links, fws0) && FollowSets.GraphOk(links, fws0, g.nterminal)
    requires fws.Keys == fws0.Keys && forall b, t :: b in fws ==> (t in fws[b] <==> FollowSets.HasOrigin(links, fws0, b, t))
    ensures LookaheadsOk(states, edges, fws) && TerminalsOnly(g, fws)
  {
    forall b, t: nat | b in fws
      ensures t in fws[b] <==> Carried(states, edges, b, t)
      ensures t in fws[b] ==> t < g.nterminal
    {
      SameOrigins(states, edges, nodes, links, fws0, b, t);
    }
  }

  /** FindLinks and FindFollowSets: a lookahead is in a configuration's set exactly if it
      is carried there. */
  method ComputeLookaheads(a: Analysis, states: seq<State>, edges: set<Edge>) returns (fws: map<Config, set<nat>>)
    requires a.Valid() && FirstExact(a.g, a.first) && IsAutomaton(a.g, a.Behind(), states, edges)
    ensures LookaheadsOk(states, edges, fws) && TerminalsOnly(a.g, fws)
  {
    var nodes := AllConfigs(a.g, a.Behind(), states);
    var links := FindLinks(states, edges, nodes);
    var fws0 := StartSets(states, nodes);
    AllLooksAreTerminals(a, states);
    GraphIsOk(states, edges, nodes, links, fws0, a.g.nterminal);
    fws := FollowSets.FindFollowSets(nodes, links, fws0, a.g.nterminal);
    CarriedExactly(a.g, states, edges, nodes, links, fws0, fws);
  }

  // ----- What the lookaheads are used for -----

  /** A configuration has at least what its state gave it, and passes on what it has. */
  lemma LookaheadsFlow(states: seq<State>, edges: set<Edge>, fws: map<Config, set<nat>>, a: Config, t: nat)
    requires LookaheadsOk(states, edges, fws) && IsConfig(states, a)
    ensures t in states[a.state].closure.fws(a.item) ==> t in fws[a]
    ensures forall b :: Forward(states, edges, a, b) && t in fws[a] ==> t in fws[b]
  {
    if t in states[a.state].closure.fws(a.item) {
      assert JoinedPath(states, edges, [a], a, a);
    }
    forall b | Forward(states, edges, a, b) && t in fws[a]
      ensures t in fws[b]
    {
      var c, path :| IsConfig(states, c) && t in states[c.state].closure.fws(c.item) && JoinedPath(states, edges, path, c, a);
      var longer := path + [b];
      forall i | 0 <= i < |longer| - 1
        ensures Forward(states, edges, longer[i], longer[i + 1])
      {
        if i < |path| - 1 { assert Forward(states, edges, path[i], path[i + 1]); }
      }
      assert JoinedPath(states, edges, longer, c, b);
    }
  }

  ghost predicate OfStartRule(g: Grammar, it: Item) {
    it.rule < |g.rules| && g.rules[it.rule].lhs == g.start
  }

  /** Nothing asks for a start rule. */
  lemma StartNotAsked(g: Grammar, c: Item, it: Item)
    requires g.StartIsolated() && OfStartRule(g, it)
    ensures !Expands(g, c, it)
  {
    if HasNext(g, c) { assert g.rules[c.rule].rhs[c.dot] != g.start; }
  }

  /** So its configurations hold what the first state's basis was given. */
  lemma StartRuleGiven(g: Grammar, giving: Giving, s: State, it: Item, t: nat)
    requires StateOk(g, giving, s) && s.look <= {0} && it in s.closure.members && t in s.closure.fws(it)
    requires forall c :: !Expands(g, c, it)
    ensures t == 0
  {
    assert HasSource(g, giving, StartList(s.key, s.look), s.closure.members, it, t);
  }

  /** A link into a start rule comes from a start rule. */
  ghost predicate StartRulesApart(g: Grammar, states: seq<State>, edges: set<Edge>) {
    forall a, b :: Forward(states, edges, a, b) && OfStartRule(g, b.item) ==> OfStartRule(g, a.item)
  }

  lemma LinkedWithin(g: Grammar, giving: Giving, s: State, c: Item, b: Item)
    requires StateOk(g, giving, s) && c in s.closure.members && b in s.closure.links(c)
    ensures Expands(g, c, b)
  {
  }

  lemma IntoStartRule(g: Grammar, giving: Giving, states: seq<State>, edges: set<Edge>, a: Config, b: Config)
    requires g.StartIsolated() && AllOkStates(g, giving, states) && EdgesOk(g, states, edges)
    requires Forward(states, edges, a, b) && OfStartRule(g, b.item)
    ensures OfStartRule(g, a.item)
  {
    StartNotAsked(g, a.item, b.item);
    if Edge(a, b) in edges {
      assert EdgeOk(g, states, Edge(a, b));
    } else {
      LinkedWithin(g, giving, states[a.state], a.item, b.item);
      assert false;
    }
  }

  lemma {:induction false} StartRulePath(g: Grammar, states: seq<State>, edges: set<Edge>, path: seq<Config>, a: Config, b: Config)
    requires StartRulesApart(g, states, edges) && JoinedPath(states, edges, path, a, b) && OfStartRule(g, b.item)
    ensures OfStartRule(g, a.item)
    decreases |path|
  {
    if |path| > 1 {
      var c := path[|path| - 2];
      assert Forward(states, edges, path[|path| - 2], path[|path| - 2 + 1]);
      StartRulePath(g, states, edges, path[..|path| - 1], a, c);
    }
  }

  lemma OriginOfStartRule(g: Grammar, states: seq<State>, edges: set<Edge>, b: Config, t: nat) returns (a: Config)
    requires StartRulesApart(g, states, edges) && Carried(states, edges, b, t) && OfStartRule(g, b.item)
    ensures IsConfig(states, a) && t in states[a.state].closure.fws(a.item) && OfStartRule(g, a.item)
  {
    var c, path :| IsConfig(states, c) && t in states[c.state].closure.fws(c.item) && JoinedPath(states, edges, path, c, b);
    StartRulePath(g, states, edges, path, c, b);
    a := c;
  }

  lemma StartRulesAreApart(g: Grammar, giving: Giving, states: seq<State>, edges: set<Edge>)
    requires g.StartIsolated() && AllOkStates(g, giving, states) && EdgesOk(g, states, edges)
    ensures StartRulesApart(g, states, edges)
  {
    forall x, y | Forward(states, edges, x, y) && OfStartRule(g, y.item)
      ensures OfStartRule(g, x.item)
    {
      IntoStartRule(g, giving, states, edges, x, y);
    }
  }

  lemma StartRuleGivenEnd(g: Grammar, giving: Giving, states: seq<State>, a: Config, t: nat)
    requires g.StartIsolated() && AllOkStates(g, giving, states) && forall i :: 0 <= i < |states| ==> states[i].look <= {0}
    requires IsConfig(states, a) && OfStartRule(g, a.item) && t in states[a.state].closure.fws(a.item)
    ensures t == 0
  {
    forall c ensures !Expands(g, c, a.item) { StartNotAsked(g, c, a.item); }
    assert StateOk(g, giving, states[a.state]);
    StartRuleGiven(g, giving, states[a.state], a.item, t);
  }

  /** Whatever is carried into a start rule is end of input. */
  ghost predicate EndCarried(g: Grammar, states: seq<State>, edges: set<Edge>) {
    forall b, t :: Carried(states, edges, b, t) && OfStartRule(g, b.item) ==> t == 0
  }

  lemma EndIsCarriedBy(g: Grammar, giving: Giving, states: seq<State>, edges: set<Edge>)
    requires g.StartIsolated() && AllOkStates(g, giving, states) && EdgesOk(g, states, edges)
    requires forall i :: 0 <= i < |states| ==> states[i].look <= {0}
    ensures EndCarried(g, states, edges)
  {
    StartRulesAreApart(g, giving, states, edges);
    forall b, t: nat | Carried(states, edges, b, t) && OfStartRule(g, b.item)
      ensures t == 0
    {
      var a := OriginOfStartRule(g, states, edges, b, t);
      StartRuleGivenEnd(g, giving, states, a, t);
    }
  }

  lemma EndIsCarried(g: Grammar, giving: Giving, states: seq<State>, edges: set<Edge>)
    requires g.StartIsolated() && IsAutomaton(g, giving, states, edges)
    ensures EndCarried(g, states, edges)
  {
    EndIsCarriedBy(g, giving, states, edges);
  }

  /** The lookaheads of a start rule are end of input and nothing else. */
  lemma StartRuleLookaheads(g: Grammar, giving: Giving, states: seq<State>, edges: set<Edge>, fws: map<Config, set<nat>>, b: Config)
    requires g.StartIsolated() && IsAutomaton(g, giving, states, edges)
    requires LookaheadsOk(states, edges, fws) && b in fws && OfStartRule(g, b.item)
    ensures fws[b] <= {0}
  {
    EndIsCarried(g, giving, states, edges);
    CarriedSet(g, states, edges, fws, b);
  }

  lemma CarriedSet(g: Grammar, states: seq<State>, edges: set<Edge>, fws: map<Config, set<nat>>, b: Config)
    requires EndCarried(g, states, edges) && LookaheadsOk(states, edges, fws) && b in fws && OfStartRule(g, b.item)
    ensures fws[b] <= {0}
  {
    forall t: nat | t in fws[b]
      ensures t == 0
    {
      assert Carried(states, edges, b, t);
    }
  }
}
