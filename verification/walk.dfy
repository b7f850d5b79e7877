/** The automaton and the tables as the running parser meets them. */
module Walks {
  import opened Grammars
  import opened Items
  import opened Configlists
  import opened States
  import opened Tables
  import opened Generator

  /** The items of each of n states, and its transitions; -1 where there is none. */
  datatype Walk = Walk(n: nat, items: nat -> set<Item>, step: (nat, nat) -> int)

  ghost function WalkOf(states: seq<State>): Walk {
    Walk(|states|,
         (i: nat) => if i < |states| then states[i].closure.members else {},
         (i: nat, x: nat) => if i < |states| && x in states[i].shifts then states[i].shifts[x] as int else -1)
  }

  /** The first state has read nothing; an item at the start of its rule is asked for by a
      transition on its symbol, or it is a start rule in the first state. */
  ghost predicate ItemsOk(g: Grammar, w: Walk, i: nat) {
    forall it :: it in w.items(i) ==>
      && Ok(g, it) && (i == 0 ==> it.dot == 0)
      && (it.dot == 0 ==> (if g.rules[it.rule].lhs == g.start then i == 0 else w.step(i, g.rules[it.rule].lhs) >= 0))
      && (HasNext(g, it) ==> w.step(i, Next(g, it)) >= 0)
  }

  /** A transition advances items over its symbol and nothing else; none leads back to
      the first state. */
  ghost predicate StepOk(g: Grammar, w: Walk, p: nat, x: nat) {
    w.step(p, x) < 0 ||
    (var q: nat := w.step(p, x);
     && 0 < q < w.n && x < g.nsymbol && (exists it :: it in w.items(q) && it.dot > 0)
     && (forall it :: it in w.items(q) && it.dot > 0 ==>
           Ok(g, it) && Item(it.rule, it.dot - 1) in w.items(p) && g.rules[it.rule].rhs[it.dot - 1] == x)
     && (forall it :: it in w.items(p) && HasNext(g, it) && Next(g, it) == x ==> Advance(it) in w.items(q)))
  }

  ghost predicate Walkable(g: Grammar, w: Walk) {
    && g.Valid() && w.n > 0
    && (forall i :: 0 <= i < w.n ==> ItemsOk(g, w, i))
    && (forall p, x :: 0 <= p < w.n ==> StepOk(g, w, p, x))
  }

  /** A shift lookup gives a transition, a reduce by a rule the state has completed (by a
      start rule only at the end of input), or the error action. */
  ghost predicate CellFits(g: Grammar, w: Walk, i: nat, x: nat, code: int) {
    || (0 <= code < w.n && w.step(i, x) == code)
    || (w.n <= code < w.n + |g.rules| &&
        var r: nat := code - w.n;
        Item(r, |g.rules[r].rhs|) in w.items(i) && (g.rules[r].lhs == g.start ==> x == 0))
    || code == w.n + |g.rules|
  }

  ghost predicate TablesFit(g: Grammar, w: Walk, t: ParserTables) {
    && t.d == Dims(g.nterminal, g.nsymbol, w.n, |g.rules|)
    && w.n == |t.shiftOfst| == |t.reduceOfst| == |t.dflt| && |t.lookahead| == |t.action|
    && |t.rules| == |g.rules| && (forall r :: 0 <= r < |g.rules| ==> t.rules[r] == (g.rules[r].lhs, |g.rules[r].rhs|))
    && (forall i, x :: 0 <= i < w.n && 0 <= x < g.nterminal ==> CellFits(g, w, i, x, FindShiftAction(t, i, x)))
    && (forall i, x :: 0 <= i < w.n && g.IsNonterminal(x) && w.step(i, x) >= 0 ==> FindReduceAction(t, i, x) == w.step(i, x))
    && (w.n > 0 ==> FindReduceAction(t, 0, g.start) == t.d.AcceptCode())
  }

  // ----- The generator's output is like this -----

  /** An item with the dot inside belongs to the basis. */
  lemma DottedInBasis(g: Grammar, giving: Giving, s: State, it: Item)
    requires StateOk(g, giving, s) && it in s.closure.members && it.dot > 0
    ensures it in ItemSet(s.key)
  {
    ClosureOfKey(g, giving, s);
    if it !in ItemSet(s.key) {
      var a := ClosureOrigin(g, ItemSet(s.key), it);
    }
  }

  /** An item at the start of its rule is in the basis, or something asks for it. */
  lemma UndottedOrigin(g: Grammar, giving: Giving, s: State, it: Item)
    requires StateOk(g, giving, s) && it in s.closure.members && it.dot == 0 && it !in ItemSet(s.key) && AllShifted(g, s)
    ensures it.rule < |g.rules| && g.rules[it.rule].lhs in s.shifts
    ensures g.StartIsolated() ==> g.rules[it.rule].lhs != g.start
  {
    ClosureOfKey(g, giving, s);
    var a := ClosureOrigin(g, ItemSet(s.key), it);
    if g.StartIsolated() && g.rules[it.rule].lhs == g.start { StartNotAskedFor(g, a, it); }
  }

  lemma StartNotAskedFor(g: Grammar, a: Item, it: Item)
    requires g.StartIsolated() && Expands(g, a, it)
    ensures g.rules[it.rule].lhs != g.start
  {
    assert g.rules[a.rule].rhs[a.dot] == g.rules[it.rule].lhs;
  }

  /** Only the first state has items in its basis that have read nothing. */
  lemma BasisDots(g: Grammar, giving: Giving, states: seq<State>, edges: set<Edge>, i: nat, it: Item)
    requires IsAutomaton(g, giving, states, edges) && i < |states| && it in ItemSet(states[i].key)
    ensures if i == 0 then it.dot == 0 && it.rule < |g.rules| && g.rules[it.rule].lhs == g.start else it.dot > 0
  {
    assert Reachable(g, states[i]);
    var w :| ItemSet(states[i].key) == BasisAfter(g, w);
    if w == [] {
      OneStatePerBasis(g, giving, states, 0);
    } else if i == 0 {
    }
  }

  lemma StateItemsOk(g: Grammar, giving: Giving, states: seq<State>, edges: set<Edge>, i: nat)
    requires g.StartIsolated() && IsAutomaton(g, giving, states, edges) && i < |states|
    ensures ItemsOk(g, WalkOf(states), i)
  {
    var s := states[i];
    assert StateOk(g, giving, s) && AllShifted(g, s);
    forall it | it in s.closure.members
      ensures Ok(g, it) && (i == 0 ==> it.dot == 0)
      ensures it.dot == 0 ==> if g.rules[it.rule].lhs == g.start then i == 0 else g.rules[it.rule].lhs in s.shifts
    {
      if it.dot > 0 { DottedInBasis(g, giving, s, it); }
      if it in ItemSet(s.key) {
        BasisDots(g, giving, states, edges, i, it);
      } else {
        UndottedOrigin(g, giving, s, it);
      }
    }
  }

  /** The key is part of the state, and is all of it that has read something. */
  lemma KeyAndMembers(g: Grammar, giving: Giving, s: State)
    requires StateOk(g, giving, s)
    ensures ItemSet(s.key) <= s.closure.members
    ensures forall it :: it in s.closure.members && it.dot > 0 ==> it in ItemSet(s.key)
  {
    ClosureOfKey(g, giving, s);
    ClosureHasBasis(g, ItemSet(s.key));
    var members := s.closure.members;
    forall it | it in members && it.dot > 0
      ensures it in ItemSet(s.key)
    {
      DottedInBasis(g, giving, s, it);
    }
  }

  lemma GotoSymbol(g: Grammar, members: set<Item>, x: nat)
    requires g.Valid() && Goto(g, members, x) != {}
    ensures x < g.nsymbol && exists it :: it in Goto(g, members, x) && it.dot > 0
  {
    var b :| b in Goto(g, members, x);
    var a :| a in members && HasNext(g, a) && Next(g, a) == x && Advance(a) == b;
    assert g.rules[a.rule].rhs[a.dot] < g.nsymbol;
  }

  /** The two sides of a transition. */
  lemma TransitionOk(g: Grammar, members: set<Item>, key: set<Item>, members': set<Item>, x: nat)
    requires key == Goto(g, members, x) && key <= members'
    requires forall it :: it in members' && it.dot > 0 ==> it in key
    ensures forall it :: it in members' && it.dot > 0 ==>
              Ok(g, it) && Item(it.rule, it.dot - 1) in members && g.rules[it.rule].rhs[it.dot - 1] == x
    ensures forall it :: it in members && HasNext(g, it) && Next(g, it) == x ==> Advance(it) in members'
  {
  }

  lemma StateTransition(g: Grammar, giving: Giving, states: seq<State>, p: nat, x: nat)
    requires g.Valid() && AllOkStates(g, giving, states) && ShiftsOk(g, states) && p < |states| && x in states[p].shifts
    ensures var q := states[p].shifts[x];
            && q < |states| && x < g.nsymbol && (exists it :: it in states[q].closure.members && it.dot > 0)
            && (forall it :: it in states[q].closure.members && it.dot > 0 ==>
                  Ok(g, it) && Item(it.rule, it.dot - 1) in states[p].closure.members && g.rules[it.rule].rhs[it.dot - 1] == x)
            && (forall it :: it in states[p].closure.members && HasNext(g, it) && Next(g, it) == x ==>
                  Advance(it) in states[q].closure.members)
  {
    var q := states[p].shifts[x];
    assert ShiftOk(g, states, p, x, q);
    assert StateOk(g, giving, states[p]) && StateOk(g, giving, states[q]);
    KeyAndMembers(g, giving, states[q]);
    assert states[q].key[0] in ItemSet(states[q].key);
    GotoSymbol(g, states[p].closure.members, x);
    TransitionOk(g, states[p].closure.members, ItemSet(states[q].key), states[q].closure.members, x);
  }

  lemma StepFrom(g: Grammar, w: Walk, p: nat, x: nat, q: nat)
    requires w.step(p, x) == q && q < w.n && x < g.nsymbol
    requires (forall it :: it in w.items(0) ==> it.dot == 0) && exists it :: it in w.items(q) && it.dot > 0
    requires forall it :: it in w.items(q) && it.dot > 0 ==>
               Ok(g, it) && Item(it.rule, it.dot - 1) in w.items(p) && g.rules[it.rule].rhs[it.dot - 1] == x
    requires forall it :: it in w.items(p) && HasNext(g, it) && Next(g, it) == x ==> Advance(it) in w.items(q)
    ensures StepOk(g, w, p, x)
  {
  }

  lemma StateStepOk(g: Grammar, giving: Giving, states: seq<State>, p: nat, x: nat)
    requires g.Valid() && AllOkStates(g, giving, states) && ShiftsOk(g, states) && p < |states|
    requires |states| > 0 && forall it :: it in states[0].closure.members ==> it.dot == 0
    ensures StepOk(g, WalkOf(states), p, x)
  {
    if x in states[p].shifts {
      StateTransition(g, giving, states, p, x);
      StepFrom(g, WalkOf(states), p, x, states[p].shifts[x]);
    }
  }

  /** The automaton is walkable, and its tables fit it. */
  lemma GeneratedWalk(g: Grammar, giving: Giving, states: seq<State>, edges: set<Edge>, t: ParserTables)
    requires g.Valid() && g.StartIsolated() && IsAutomaton(g, giving, states, edges) && Drives(g, states, t)
    ensures Walkable(g, WalkOf(states)) && TablesFit(g, WalkOf(states), t)
  {
    forall i | 0 <= i < |states| ensures ItemsOk(g, WalkOf(states), i) { StateItemsOk(g, giving, states, edges, i); }
    assert ItemsOk(g, WalkOf(states), 0);
    forall p, x: nat | 0 <= p < |states| ensures StepOk(g, WalkOf(states), p, x) { StateStepOk(g, giving, states, p, x); }
    DrivesFits(g, states, t);
  }

  lemma DrivesFits(g: Grammar, states: seq<State>, t: ParserTables)
    requires Drives(g, states, t)
    ensures TablesFit(g, WalkOf(states), t)
  {
    forall i, x | 0 <= i < |states| && 0 <= x < g.nterminal
      ensures CellFits(g, WalkOf(states), i, x, FindShiftAction(t, i, x))
    {
      assert CellOk(g, states, i, x, FindShiftAction(t, i, x));
    }
  }
}
