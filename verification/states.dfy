/** The states of the parser: each the closure of a sorted basis, with its shifts; and
    what it means for a list of states to be the LR(0) automaton of a grammar. */
module States {
  import opened Grammars
  import opened Items
  import opened Configlists
  import opened StateTables
  import MergeSort

  // ----- Sorted lists of items -----

  ghost predicate Strict(s: seq<Item>) {
    forall i, j :: 0 <= i < j < |s| ==> CompareItems(s[i], s[j]) < 0
  }

  ghost function ItemSet(s: seq<Item>): set<Item> { set i | 0 <= i < |s| :: s[i] }

  lemma ItemsCompare()
    ensures MergeSort.TotalPreorder(CompareItems)
  {
  }

  /** A sorted list without repetitions is determined by its elements. */
  lemma {:induction false} StrictUnique(a: seq<Item>, b: seq<Item>)
    requires Strict(a) && Strict(b) && ItemSet(a) == ItemSet(b)
    ensures a == b
  {
    EmptyItemSet(a);
    EmptyItemSet(b);
    if a != [] {
      assert a[0] in ItemSet(b);
      assert b[0] in ItemSet(a);
      assert a[0] == b[0];
      StrictTail(a);
      StrictTail(b);
      StrictUnique(a[1..], b[1..]);
    }
  }

  lemma EmptyItemSet(s: seq<Item>)
    ensures ItemSet(s) == {} <==> s == []
  {
    assert s == [] || s[0] in ItemSet(s);
  }

  lemma StrictTail(a: seq<Item>)
    requires Strict(a) && a != []
    ensures Strict(a[1..]) && ItemSet(a[1..]) == ItemSet(a) - {a[0]}
  {
    forall x ensures x in ItemSet(a[1..]) <==> x in ItemSet(a) && x != a[0] {
      if x in ItemSet(a) && x != a[0] {
        var i :| 0 <= i < |a| && a[i] == x;
        assert a[1..][i - 1] == x;
      }
    }
  }

  /** Sorting a list without repetitions. */
  lemma SortedStrictly(s: seq<Item>, members: set<Item>)
    requires MergeSort.NoRepeats(s) && ItemSet(s) == members
    ensures var t := MergeSort.StableSort(CompareItems, s); Strict(t) && ItemSet(t) == members
  {
    var t := MergeSort.StableSort(CompareItems, s);
    MergeSort.StableSortPermutes(CompareItems, s);
    MergeSort.PermutedNoRepeats(s, t);
    SameItemSet(s, t);
    ItemsCompare();
    MergeSort.StableSortSorted(CompareItems, s);
    SortedNoRepeats(t);
  }

  lemma SameItemSet(s: seq<Item>, t: seq<Item>)
    requires multiset(s) == multiset(t)
    ensures ItemSet(s) == ItemSet(t)
  {
    forall x ensures x in ItemSet(t) <==> x in ItemSet(s) {
      assert x in multiset(t) <==> x in multiset(s);
    }
  }

  lemma SortedNoRepeats(t: seq<Item>)
    requires MergeSort.Sorted(CompareItems, t) && MergeSort.NoRepeats(t)
    ensures Strict(t)
  {
    forall i, j | 0 <= i < j < |t|
      ensures CompareItems(t[i], t[j]) < 0
    {
      assert !MergeSort.Less(CompareItems, t[j], t[i]);
    }
  }

  // ----- States -----

  /** key is the sorted basis and look the lookaheads its items start with; configs are
      the sorted closure; shifts give the successor for each symbol that can be read. */
  datatype State = State(key: seq<Item>, look: set<nat>, configs: seq<Item>, closure: Configs, shifts: map<nat, nat>)

  function StartList(key: seq<Item>, look: set<nat>): Configs {
    var members := set x | x in key;
    Configs(key, members, (x: Item) => if x in members then look else {}, (x: Item) => {})
  }

  ghost predicate StateOk(g: Grammar, giving: Giving, s: State) {
    && Strict(s.key) && AllOk(g, ItemSet(s.key)) && Strict(s.configs) && ItemSet(s.configs) == s.closure.members
    && s.closure.Valid(g) && IsClosure(g, giving, StartList(s.key, s.look), s.closure)
  }

  ghost predicate AllOkStates(g: Grammar, giving: Giving, states: seq<State>) {
    forall i :: 0 <= i < |states| ==> StateOk(g, giving, states[i])
  }

  ghost predicate DistinctKeys(states: seq<State>) {
    forall i, j :: 0 <= i < j < |states| ==> states[i].key != states[j].key
  }

  /** A shift leads to the state whose basis is all items advanced over the symbol. */
  ghost predicate ShiftOk(g: Grammar, states: seq<State>, i: nat, x: nat, j: nat)
    requires i < |states|
  {
    j < |states| && ItemSet(states[j].key) == Goto(g, states[i].closure.members, x) && states[j].key != []
  }

  ghost predicate ShiftsOk(g: Grammar, states: seq<State>) {
    forall i, x :: 0 <= i < |states| && x in states[i].shifts ==> ShiftOk(g, states, i, x, states[i].shifts[x])
  }

  /** The state has a shift for every symbol that can be read. */
  ghost predicate AllShifted(g: Grammar, s: State) {
    forall it :: it in s.closure.members && HasNext(g, it) ==> Next(g, it) in s.shifts
  }

  /** The state is where some string of symbols leads. */
  ghost predicate Reachable(g: Grammar, s: State) {
    exists w :: ItemSet(s.key) == BasisAfter(g, w)
  }

  ghost predicate AllReachable(g: Grammar, states: seq<State>) {
    forall i :: 0 <= i < |states| ==> Reachable(g, states[i])
  }

  /** Configurations and the links between states along which lookaheads propagate. */
  datatype Config = Config(state: nat, item: Item)
  datatype Edge = Edge(from: Config, to: Config)

  ghost predicate EdgeOk(g: Grammar, states: seq<State>, e: Edge) {
    && e.from.state < |states| && e.to.state < |states|
    && e.from.item in states[e.from.state].closure.members && HasNext(g, e.from.item)
    && e.to.item == Advance(e.from.item)
    && ShiftOk(g, states, e.from.state, Next(g, e.from.item), e.to.state)
  }

  ghost predicate EdgesOk(g: Grammar, states: seq<State>, edges: set<Edge>) {
    forall e :: e in edges ==> EdgeOk(g, states, e)
  }

  /** Every item that a shift advances has its link. */
  ghost predicate LinksMade(g: Grammar, states: seq<State>, edges: set<Edge>, i: nat)
    requires i < |states|
  {
    forall it :: it in states[i].closure.members && HasNext(g, it) && Next(g, it) in states[i].shifts ==>
      Edge(Config(i, it), Config(states[i].shifts[Next(g, it)], Advance(it))) in edges
  }

  ghost predicate AllLinksMade(g: Grammar, states: seq<State>, edges: set<Edge>) {
    forall i :: 0 <= i < |states| ==> LinksMade(g, states, edges, i)
  }

  // ----- The automaton -----

  /** The states are the LR(0) automaton: each is the closure of a basis that some string
      of symbols leads to, no two have the same basis, all shifts and links are there,
      and the first is where the parser starts, with end of input as its lookahead. */
  ghost predicate IsAutomaton(g: Grammar, giving: Giving, states: seq<State>, edges: set<Edge>) {
    && AllOkStates(g, giving, states) && DistinctKeys(states) && ShiftsOk(g, states) && AllReachable(g, states)
    && EdgesOk(g, states, edges) && AllLinksMade(g, states, edges)
    && (forall i :: 0 <= i < |states| ==> AllShifted(g, states[i]))
    && |states| > 0 && ItemSet(states[0].key) == StartBasis(g)
    && forall i :: 0 <= i < |states| ==> states[i].look == if i == 0 then {0} else {}
  }

  /** The state that reading w from the first one leads to. */
  ghost predicate LeadsTo(states: seq<State>, w: seq<nat>, i: nat)
    decreases |w|
  {
    if w == [] then i == 0 && |states| > 0
    else exists p: nat :: p < |states| && LeadsTo(states, w[..|w| - 1], p) &&
                   w[|w| - 1] in states[p].shifts && states[p].shifts[w[|w| - 1]] == i
  }

  /** Reading w by shifts arrives at the state with the items that w leads to. */
  lemma {:induction false} LeadsToBasis(g: Grammar, giving: Giving, states: seq<State>, edges: set<Edge>, w: seq<nat>, i: nat)
    requires IsAutomaton(g, giving, states, edges) && LeadsTo(states, w, i)
    ensures i < |states| && ItemSet(states[i].key) == BasisAfter(g, w)
    decreases |w|
  {
    if w != [] {
      var v, x := w[..|w| - 1], w[|w| - 1];
      var p: nat :| p < |states| && LeadsTo(states, v, p) && x in states[p].shifts && states[p].shifts[x] == i;
      LeadsToBasis(g, giving, states, edges, v, p);
      assert ShiftOk(g, states, p, x, i);
      ClosureOfKey(g, giving, states[p]);
    }
  }

  lemma ClosureOfKey(g: Grammar, giving: Giving, s: State)
    requires StateOk(g, giving, s)
    ensures s.closure.members == Closure(g, ItemSet(s.key))
  {
    assert (set y | y in s.key) == ItemSet(s.key);
  }

  lemma LeadsOn(states: seq<State>, w: seq<nat>, p: nat, i: nat)
    requires w != [] && p < |states| && LeadsTo(states, w[..|w| - 1], p)
    requires w[|w| - 1] in states[p].shifts && states[p].shifts[w[|w| - 1]] == i
    ensures LeadsTo(states, w, i)
  {
  }

  lemma {:induction false} EveryBasisReached(g: Grammar, giving: Giving, states: seq<State>, edges: set<Edge>, w: seq<nat>)
    returns (i: nat)
    requires IsAutomaton(g, giving, states, edges) && (w == [] || BasisAfter(g, w) != {})
    ensures LeadsTo(states, w, i) && i < |states| && ItemSet(states[i].key) == BasisAfter(g, w)
    decreases |w|
  {
    if w == [] {
      i := 0;
    } else {
      var v, x := w[..|w| - 1], w[|w| - 1];
      var it := SomethingToRead(g, BasisAfter(g, v), x);
      var p := EveryBasisReached(g, giving, states, edges, v);
      i := Successor(g, giving, states, edges, p, it);
      LeadsOn(states, w, p, i);
    }
  }

  /** Every string of symbols that some item can read has its state, and only one. */
  lemma EveryBasisHasState(g: Grammar, giving: Giving, states: seq<State>, edges: set<Edge>, w: seq<nat>) returns (i: nat)
    requires IsAutomaton(g, giving, states, edges) && (w == [] || BasisAfter(g, w) != {})
    ensures LeadsTo(states, w, i) && i < |states| && ItemSet(states[i].key) == BasisAfter(g, w)
    ensures forall k :: 0 <= k < |states| && ItemSet(states[k].key) == BasisAfter(g, w) ==> k == i
  {
    i := EveryBasisReached(g, giving, states, edges, w);
    OneStatePerBasis(g, giving, states, i);
  }

  lemma SomethingToRead(g: Grammar, basis: set<Item>, x: nat) returns (it: Item)
    requires Goto(g, Closure(g, basis), x) != {}
    ensures basis != {} && it in Closure(g, basis) && HasNext(g, it) && Next(g, it) == x
  {
    var b: Item :| b in Goto(g, Closure(g, basis), x);
    it :| it in Closure(g, basis) && HasNext(g, it) && Next(g, it) == x;
    var path :| IsExpansion(g, basis, path, it);
  }

  lemma Successor(g: Grammar, giving: Giving, states: seq<State>, edges: set<Edge>, p: nat, it: Item) returns (i: nat)
    requires IsAutomaton(g, giving, states, edges) && p < |states|
    requires it in Closure(g, ItemSet(states[p].key)) && HasNext(g, it)
    ensures Next(g, it) in states[p].shifts && states[p].shifts[Next(g, it)] == i < |states|
    ensures ItemSet(states[i].key) == Goto(g, Closure(g, ItemSet(states[p].key)), Next(g, it))
  {
    ClosureOfKey(g, giving, states[p]);
    i := states[p].shifts[Next(g, it)];
    assert ShiftOk(g, states, p, Next(g, it), i);
  }

  lemma OneStatePerBasis(g: Grammar, giving: Giving, states: seq<State>, i: nat)
    requires AllOkStates(g, giving, states) && DistinctKeys(states) && i < |states|
    ensures forall k :: 0 <= k < |states| && ItemSet(states[k].key) == ItemSet(states[i].key) ==> k == i
  {
    forall k | 0 <= k < |states| && ItemSet(states[k].key) == ItemSet(states[i].key)
      ensures k == i
    {
      assert StateOk(g, giving, states[k]) && StateOk(g, giving, states[i]);
      StrictUnique(states[k].key, states[i].key);
      KeysDiffer(states, k, i);
    }
  }

  lemma KeysDiffer(states: seq<State>, k: nat, i: nat)
    requires DistinctKeys(states) && k < |states| && i < |states| && states[k].key == states[i].key
    ensures k == i
  {
  }
}
