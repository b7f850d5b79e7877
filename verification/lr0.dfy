/** FindStates, getstate and buildshifts: the recursion that builds every state of the
    LR(0) automaton, and its propagation links, from the first one. */
module Lr0 {
  import opened Grammars
  import opened Items
  import opened Configlists
  import opened StateTables
  import opened States
  import MergeSort

  function Keys(states: seq<State>): (keys: seq<seq<Item>>)
    ensures |keys| == |states| && forall i :: 0 <= i < |states| ==> keys[i] == states[i].key
  {
    seq(|states|, i requires 0 <= i < |states| => states[i].key)
  }

  /** What holds of the states at every moment of the construction. */
  ghost predicate Inv(g: Grammar, giving: Giving, states: seq<State>, edges: set<Edge>) {
    && AllOkStates(g, giving, states) && DistinctKeys(states) && ShiftsOk(g, states) && AllReachable(g, states)
    && EdgesOk(g, states, edges) && AllLinksMade(g, states, edges)
  }

  /** Older states are as they were, and the new ones have all their shifts; only the very
      first one is given lookaheads to start with. */
  ghost predicate Grown(g: Grammar, before: seq<State>, after: seq<State>) {
    && |before| <= |after| && (forall k :: 0 <= k < |before| ==> after[k] == before[k])
    && forall k :: |before| <= k < |after| ==> AllShifted(g, after[k]) && (k > 0 ==> after[k].look == {})
  }

  /** While the shifts of state |before| are being made. */
  ghost predicate Building(g: Grammar, before: seq<State>, s: State, states: seq<State>) {
    var i := |before|;
    && i < |states| && (forall k :: 0 <= k < i ==> states[k] == before[k])
    && states[i] == s.(shifts := states[i].shifts)
    && forall k :: i < k < |states| ==> AllShifted(g, states[k]) && states[k].look == {}
  }

  /** The configurations marked are those whose next symbol has its shift, among them all
      of the first c. */
  ghost predicate Marked(g: Grammar, configs: seq<Item>, status: seq<bool>, shifts: map<nat, nat>, c: nat) {
    && |status| == |configs|
    && (forall k :: 0 <= k < |configs| ==> (status[k] <==> HasNext(g, configs[k]) && Next(g, configs[k]) in shifts))
    && (forall k :: 0 <= k < c && k < |configs| && HasNext(g, configs[k]) ==> status[k])
  }

  // ----- Adding a state -----

  lemma AddedState(g: Grammar, giving: Giving, states: seq<State>, edges: set<Edge>, s: State)
    requires Inv(g, giving, states, edges) && StateOk(g, giving, s) && s.shifts == map[] && Reachable(g, s)
    requires forall i :: 0 <= i < |states| ==> states[i].key != s.key
    ensures Inv(g, giving, states + [s], edges)
  {
    var states' := states + [s];
    forall i, x | 0 <= i < |states'| && x in states'[i].shifts
      ensures ShiftOk(g, states', i, x, states'[i].shifts[x])
    {
      assert states'[i] == states[i];
      assert ShiftOk(g, states, i, x, states[i].shifts[x]);
    }
    forall e | e in edges
      ensures EdgeOk(g, states', e)
    {
      assert EdgeOk(g, states, e);
    }
    forall i | 0 <= i < |states'|
      ensures LinksMade(g, states', edges, i)
    {
      if i < |states| { assert LinksMade(g, states, edges, i); }
    }
  }

  // ----- Adding a shift with its links -----

  function BackLinks(g: Grammar, states: seq<State>, i: nat, x: nat, j: nat): set<Edge>
    requires i < |states|
  {
    set it | it in states[i].closure.members && HasNext(g, it) && Next(g, it) == x ::
      Edge(Config(i, it), Config(j, Advance(it)))
  }

  function WithShift(states: seq<State>, i: nat, x: nat, j: nat): seq<State>
    requires i < |states|
  {
    states[i := states[i].(shifts := states[i].shifts[x := j])]
  }

  lemma AddedShift(g: Grammar, giving: Giving, states: seq<State>, edges: set<Edge>, i: nat, x: nat, j: nat)
    requires Inv(g, giving, states, edges) && i < |states| && ShiftOk(g, states, i, x, j) && x !in states[i].shifts
    ensures Inv(g, giving, WithShift(states, i, x, j), edges + BackLinks(g, states, i, x, j))
  {
    AddedShiftStates(g, giving, states, i, x, j);
    AddedShiftEdges(g, states, edges, i, x, j);
    AddedShiftLinks(g, states, edges, i, x, j);
  }

  lemma AddedShiftLinks(g: Grammar, states: seq<State>, edges: set<Edge>, i: nat, x: nat, j: nat)
    requires AllLinksMade(g, states, edges) && i < |states| && x !in states[i].shifts
    ensures AllLinksMade(g, WithShift(states, i, x, j), edges + BackLinks(g, states, i, x, j))
  {
    forall k | 0 <= k < |states|
      ensures LinksMade(g, WithShift(states, i, x, j), edges + BackLinks(g, states, i, x, j), k)
    {
      assert LinksMade(g, states, edges, k);
    }
  }

  lemma AddedShiftStates(g: Grammar, giving: Giving, states: seq<State>, i: nat, x: nat, j: nat)
    requires AllOkStates(g, giving, states) && DistinctKeys(states) && ShiftsOk(g, states) && AllReachable(g, states)
    requires i < |states| && ShiftOk(g, states, i, x, j)
    ensures var states' := WithShift(states, i, x, j);
            AllOkStates(g, giving, states') && DistinctKeys(states') && ShiftsOk(g, states') && AllReachable(g, states')
  {
    var states' := WithShift(states, i, x, j);
    forall k | 0 <= k < |states'| ensures StateOk(g, giving, states'[k]) && Reachable(g, states'[k]) {
      ShiftKeepsState(g, giving, states, i, x, j, k);
    }
    ShiftKeepsShifts(g, states, i, x, j);
    ShiftKeepsKeys(states, i, x, j);
  }

  lemma ShiftKeepsState(g: Grammar, giving: Giving, states: seq<State>, i: nat, x: nat, j: nat, k: nat)
    requires i < |states| && k < |states| && StateOk(g, giving, states[k]) && Reachable(g, states[k])
    ensures StateOk(g, giving, WithShift(states, i, x, j)[k]) && Reachable(g, WithShift(states, i, x, j)[k])
  {
  }

  lemma ShiftKeepsShifts(g: Grammar, states: seq<State>, i: nat, x: nat, j: nat)
    requires ShiftsOk(g, states) && i < |states| && ShiftOk(g, states, i, x, j)
    ensures ShiftsOk(g, WithShift(states, i, x, j))
  {
    var states' := WithShift(states, i, x, j);
    forall k, y | 0 <= k < |states'| && y in states'[k].shifts
      ensures ShiftOk(g, states', k, y, states'[k].shifts[y])
    {
      assert (k == i && y == x) || ShiftOk(g, states, k, y, states[k].shifts[y]);
    }
  }

  lemma ShiftKeepsKeys(states: seq<State>, i: nat, x: nat, j: nat)
    requires DistinctKeys(states) && i < |states|
    ensures DistinctKeys(WithShift(states, i, x, j))
  {
  }

  lemma AddedShiftEdges(g: Grammar, states: seq<State>, edges: set<Edge>, i: nat, x: nat, j: nat)
    requires EdgesOk(g, states, edges) && i < |states| && ShiftOk(g, states, i, x, j)
    ensures EdgesOk(g, WithShift(states, i, x, j), edges + BackLinks(g, states, i, x, j))
  {
    forall e | e in edges + BackLinks(g, states, i, x, j)
      ensures EdgeOk(g, WithShift(states, i, x, j), e)
    {
      if e in edges { assert EdgeOk(g, states, e); }
    }
  }

  // ----- The builder -----

  /** The bases that no state has yet. */
  ghost function Unseen(g: Grammar, states: seq<State>): set<set<Item>> {
    (set b | b <= AllItems(g)) - (set i | 0 <= i < |states| :: ItemSet(states[i].key))
  }

  lemma UnseenShrinks(g: Grammar, states: seq<State>, states': seq<State>)
    requires |states| <= |states'| && forall i :: 0 <= i < |states| ==> states'[i].key == states[i].key
    ensures Unseen(g, states') <= Unseen(g, states)
  {
    forall i | 0 <= i < |states|
      ensures ItemSet(states[i].key) in (set k | 0 <= k < |states'| :: ItemSet(states'[k].key))
    {
      assert states'[i].key == states[i].key;
    }
  }

  lemma NewBasisSeen(g: Grammar, states: seq<State>, s: State)
    requires AllOk(g, ItemSet(s.key))
    requires forall i :: 0 <= i < |states| ==> ItemSet(states[i].key) != ItemSet(s.key)
    ensures Unseen(g, states + [s]) < Unseen(g, states)
  {
    var b := ItemSet(s.key);
    UnseenShrinks(g, states, states + [s]);
    forall it | it in b ensures it in AllItems(g) { InAllItems(g, it); }
    assert b in Unseen(g, states);
    assert ItemSet((states + [s])[|states|].key) == b;
  }

  predicate Reads(g: Grammar, it: Item, x: nat) { HasNext(g, it) && Next(g, it) == x }

  /** The configurations from..b with x behind their dot, at these places, are gathered. */
  ghost predicate Gathered(g: Grammar, configs: seq<Item>, from: nat, x: nat, b: nat, places: seq<nat>, basis: seq<Item>) {
    && |places| == |basis| && b <= |configs|
    && (forall k :: 0 <= k < |places| ==> from <= places[k] < b && Reads(g, configs[places[k]], x))
    && (forall k :: 0 <= k < |places| ==> basis[k] == Advance(configs[places[k]]))
    && (forall k, l :: 0 <= k < l < |places| ==> places[k] < places[l])
    && (forall k :: from <= k < b && Reads(g, configs[k], x) ==> k in places)
  }

  lemma GatherNext(g: Grammar, configs: seq<Item>, from: nat, x: nat, b: nat, places: seq<nat>, basis: seq<Item>,
                   places': seq<nat>, basis': seq<Item>)
    requires Gathered(g, configs, from, x, b, places, basis) && from <= b < |configs|
    requires if Reads(g, configs[b], x) then places' == places + [b] && basis' == basis + [Advance(configs[b])]
             else places' == places && basis' == basis
    ensures Gathered(g, configs, from, x, b + 1, places', basis')
  {
  }

  /** All of them are the basis, each once. */
  lemma GatheredAll(g: Grammar, configs: seq<Item>, from: nat, x: nat, places: seq<nat>, basis: seq<Item>)
    requires Gathered(g, configs, from, x, |configs|, places, basis)
    requires forall k :: 0 <= k < |configs| && Reads(g, configs[k], x) ==> from <= k
    requires forall k, l :: 0 <= k < l < |configs| ==> configs[k] != configs[l]
    ensures ItemSet(basis) == Goto(g, ItemSet(configs), x)
    ensures forall k, l :: 0 <= k < l < |basis| ==> basis[k] != basis[l]
  {
    forall it | it in Goto(g, ItemSet(configs), x) ensures it in ItemSet(basis) {
      var k :| 0 <= k < |configs| && Reads(g, configs[k], x) && it == Advance(configs[k]);
      var l :| 0 <= l < |places| && places[l] == k;
      assert basis[l] == it;
    }
  }

  /** The configurations not used yet that have x behind their dot, advanced: the basis
      under construction in buildshifts. */
  method GatherBasis(g: Grammar, configs: seq<Item>, from: nat, x: nat, status: seq<bool>) returns (basis: seq<Item>, status': seq<bool>)
    requires from < |configs| == |status|
    requires forall k :: 0 <= k < |configs| && Reads(g, configs[k], x) ==> from <= k && !status[k]
    requires forall k, l :: 0 <= k < l < |configs| ==> configs[k] != configs[l]
    ensures ItemSet(basis) == Goto(g, ItemSet(configs), x)
    ensures forall k, l :: 0 <= k < l < |basis| ==> basis[k] != basis[l]
    ensures |status'| == |status|
    ensures forall k :: 0 <= k < |status| ==> (status'[k] <==> status[k] || Reads(g, configs[k], x))
  {
    basis, status' := [], status;
    ghost var places: seq<nat> := [];
    for b := from to |configs|
      invariant |status'| == |status| && Gathered(g, configs, from, x, b, places, basis)
      invariant forall k :: 0 <= k < |status| ==> (status'[k] <==> status[k] || (k < b && Reads(g, configs[k], x)))
    {
      ghost var basisBefore, placesBefore := basis, places;
      if !status'[b] && HasNext(g, configs[b]) && Next(g, configs[b]) == x {
        status' := status'[b := true];
        basis := basis + [Advance(configs[b])];
        places := places + [b];
      }
      GatherNext(g, configs, from, x, b, placesBefore, basisBefore, places, basis);
    }
    GatheredAll(g, configs, from, x, places, basis);
  }

  /** Configlist_closure and Configlist_sort on a sorted basis: a new state. */
  method MakeState(a: Analysis, key: seq<Item>, look: set<nat>, ghost giving: Giving) returns (s: State)
    requires a.Valid() && giving == a.Behind() && Strict(key) && AllOk(a.g, ItemSet(key))
    ensures StateOk(a.g, giving, s) && s.key == key && s.look == look && s.shifts == map[]
  {
    var start := StartList(key, look);
    StartListValid(a.g, key, look);
    var closure := CloseConfigs(a, start, giving);
    DistinctList(a.g, closure);
    MembersAreItemSet(a.g, closure);
    SortedStrictly(closure.current, closure.members);
    s := State(key, look, MergeSort.StableSort(CompareItems, closure.current), closure, map[]);
  }

  lemma MembersAreItemSet(g: Grammar, c: Configs)
    requires c.Valid(g)
    ensures ItemSet(c.current) == c.members
  {
  }

  lemma StartListValid(g: Grammar, key: seq<Item>, look: set<nat>)
    requires Strict(key) && AllOk(g, ItemSet(key))
    ensures var start := StartList(key, look);
            start.Valid(g) && Quiet(start) && start.members == ItemSet(key) && forall x :: start.links(x) == {}
  {
    var start := StartList(key, look);
    StrictSize(key);
    assert start.members == ItemSet(key);
  }

  lemma {:induction false} StrictSize(s: seq<Item>)
    requires Strict(s)
    ensures |ItemSet(s)| == |s|
  {
    if s != [] {
      StrictTail(s);
      StrictSize(s[1..]);
      assert s[0] in ItemSet(s);
    }
  }

  lemma BasisAfterOk(g: Grammar, w: seq<nat>)
    ensures AllOk(g, BasisAfter(g, w))
  {
    if w == [] { StartOk(g); } else { GotoOk(g, Closure(g, BasisAfter(g, w[..|w| - 1])), w[|w| - 1]); }
  }

  /** A key that is not in the table is a basis that no state has. */
  lemma NotSeen(g: Grammar, giving: Giving, states: seq<State>, edges: set<Edge>, key: seq<Item>)
    requires Inv(g, giving, states, edges) && Strict(key)
    requires forall i :: 0 <= i < |states| ==> states[i].key != key
    ensures forall i :: 0 <= i < |states| ==> ItemSet(states[i].key) != ItemSet(key)
  {
    forall i | 0 <= i < |states|
      ensures ItemSet(states[i].key) != ItemSet(key)
    {
      assert StateOk(g, giving, states[i]);
      if ItemSet(states[i].key) == ItemSet(key) { StrictUnique(states[i].key, key); }
    }
  }

  /** Advancing a state over x is reading x after the symbols that led to the state. */
  lemma StepBasis(g: Grammar, giving: Giving, s: State, w: seq<nat>, x: nat)
    requires StateOk(g, giving, s) && ItemSet(s.key) == BasisAfter(g, w)
    ensures Goto(g, ItemSet(s.configs), x) == BasisAfter(g, w + [x])
  {
    assert (w + [x])[..|w|] == w;
    assert (set y | y in s.key) == ItemSet(s.key);
  }

  /** No configuration with c's next symbol has been used, and none comes before c. */
  lemma NoneUsed(g: Grammar, giving: Giving, s: State, status: seq<bool>, c: nat)
    requires StateOk(g, giving, s) && Marked(g, s.configs, status, s.shifts, c)
    requires c < |s.configs| && !status[c] && HasNext(g, s.configs[c])
    ensures forall k :: 0 <= k < |s.configs| && HasNext(g, s.configs[k]) && Next(g, s.configs[k]) == Next(g, s.configs[c]) ==>
              c <= k && !status[k]
    ensures forall k, l :: 0 <= k < l < |s.configs| ==> s.configs[k] != s.configs[l]
  {
    forall k, l | 0 <= k < l < |s.configs|
      ensures s.configs[k] != s.configs[l]
    {
      assert CompareItems(s.configs[k], s.configs[l]) < 0;
    }
  }

  lemma ReadyToShift(g: Grammar, giving: Giving, s1: seq<State>, s2: seq<State>, i: nat, c: nat, j: nat, basis: set<Item>)
    requires i < |s1| && Grown(g, s1, s2) && j < |s2| && StateOk(g, giving, s1[i])
    requires c < |s1[i].configs| && HasNext(g, s1[i].configs[c])
    requires basis == Goto(g, ItemSet(s1[i].configs), Next(g, s1[i].configs[c])) && ItemSet(s2[j].key) == basis
    ensures ShiftOk(g, s2, i, Next(g, s1[i].configs[c]), j)
  {
    var it := s1[i].configs[c];
    assert it in ItemSet(s1[i].configs);
    assert Advance(it) in basis;
  }

  lemma BuildingStarts(g: Grammar, before: seq<State>, s: State, states: seq<State>, status: seq<bool>)
    requires |states| == |before| + 1 && states[..|before|] == before && states[|before|] == s && s.shifts == map[]
    requires |status| == |s.configs| && forall k :: 0 <= k < |status| ==> !status[k]
    ensures Building(g, before, s, states) && Marked(g, s.configs, status, s.shifts, 0)
  {
    forall k | 0 <= k < |before| ensures states[k] == before[k] { assert states[..|before|][k] == before[k]; }
  }

  lemma AlreadyMarked(g: Grammar, configs: seq<Item>, status: seq<bool>, shifts: map<nat, nat>, c: nat)
    requires Marked(g, configs, status, shifts, c) && c < |configs| && (status[c] || !HasNext(g, configs[c]))
    ensures Marked(g, configs, status, shifts, c + 1)
  {
  }

  /** What a turn of buildshifts leaves behind. */
  lemma ShiftTurned(g: Grammar, before: seq<State>, s: State, s1: seq<State>, s2: seq<State>, c: nat, x: nat, j: nat,
                    status: seq<bool>, status': seq<bool>)
    requires Building(g, before, s, s1) && Grown(g, s1, s2)
    requires Marked(g, s.configs, status, s1[|before|].shifts, c) && |status'| == |status|
    requires c < |s.configs| && HasNext(g, s.configs[c]) && x == Next(g, s.configs[c])
    requires forall k :: 0 <= k < |status| ==>
               (status'[k] <==> status[k] || (HasNext(g, s.configs[k]) && Next(g, s.configs[k]) == x))
    ensures var s3 := WithShift(s2, |before|, x, j);
            && Building(g, before, s, s3) && Unseen(g, s3) <= Unseen(g, s1)
            && Marked(g, s.configs, status', s3[|before|].shifts, c + 1)
  {
    UnseenShrinks(g, s1, WithShift(s2, |before|, x, j));
  }

  lemma BuiltIsGrown(g: Grammar, before: seq<State>, s: State, states: seq<State>)
    requires Building(g, before, s, states) && AllShifted(g, states[|before|]) && (before != [] ==> s.look == {})
    ensures Grown(g, before, states) && states[|before|].key == s.key && states[|before|].look == s.look
  {
  }

  lemma AllMarked(g: Grammar, giving: Giving, s: State, status: seq<bool>)
    requires StateOk(g, giving, s) && Marked(g, s.configs, status, s.shifts, |s.configs|)
    ensures AllShifted(g, s)
  {
    forall it | it in s.closure.members && HasNext(g, it)
      ensures Next(g, it) in s.shifts
    {
      assert it in ItemSet(s.configs);
      var k :| 0 <= k < |s.configs| && s.configs[k] == it;
      assert status[k];
    }
  }

  lemma SameKeys(states: seq<State>, i: nat, x: nat, j: nat, after: seq<State>)
    requires i < |states| && after == WithShift(states, i, x, j)
    ensures Keys(after) == Keys(states) && |after| == |states|
  {
  }

  class Lemon {
    const a: Analysis
    ghost const giving: Giving
    var states: seq<State>
    var edges: set<Edge>
    var ht: seq<seq<nat>>

    ghost predicate Valid()
      reads this
    {
      && a.Valid() && giving == a.Behind()
      && Inv(a.g, giving, states, edges) && TableOk(ht, Keys(states), |states|)
    }

    constructor (a: Analysis)
      requires a.Valid()
      ensures Valid() && this.a == a && states == []
    {
      this.a := a;
      giving := a.Behind();
      states, edges := [], {};
      ht := seq(128, _ => []);
      new;
      NoStates(a.g, giving);
    }

    static lemma NoStates(g: Grammar, giving: Giving)
      ensures Inv(g, giving, [], {}) && TableOk(seq(128, _ => []), [], 0)
    {
    }

    /** The part of getstate that makes a new state and enters it into the table. */
    method AddState(key: seq<Item>, look: set<nat>, ghost w: seq<nat>) returns (i: nat)
      requires Valid() && Strict(key) && AllOk(a.g, ItemSet(key)) && ItemSet(key) == BasisAfter(a.g, w)
      requires forall i :: 0 <= i < |states| ==> states[i].key != key
      modifies this
      ensures Valid() && i == |old(states)| && edges == old(edges)
      ensures |states| == i + 1 && states[..i] == old(states)
      ensures states[i].key == key && states[i].look == look && states[i].shifts == map[]
    {
      var s := MakeState(a, key, look, giving);
      i := |states|;
      AddedState(a.g, giving, states, edges, s);
      assert Keys(states + [s]) == Keys(states) + [key];
      ht := StateInsert(ht, Keys(states), key);
      states := states + [s];
    }

    /** Action_add of a shift, and the links of the configurations it advances. */
    method AddShift(i: nat, x: nat, j: nat)
      requires Valid() && i < |states| && ShiftOk(a.g, states, i, x, j) && x !in states[i].shifts
      modifies `states, `edges
      ensures Valid() && states == WithShift(old(states), i, x, j)
      ensures edges == old(edges) + BackLinks(a.g, old(states), i, x, j)
    {
      var links, after := edges + BackLinks(a.g, states, i, x, j), WithShift(states, i, x, j);
      assert Inv(a.g, giving, after, links) by { AddedShift(a.g, giving, states, edges, i, x, j); }
      assert TableOk(ht, Keys(after), |after|) by { SameKeys(states, i, x, j, after); }
      states, edges := after, links;
    }

    /** getstate. */
    method GetState(basis: seq<Item>, look: set<nat>, ghost w: seq<nat>) returns (j: nat)
      requires Valid() && (forall k, l :: 0 <= k < l < |basis| ==> basis[k] != basis[l])
      requires ItemSet(basis) == BasisAfter(a.g, w) && (states != [] ==> look == {})
      modifies this
      ensures Valid() && Grown(a.g, old(states), states) && old(edges) <= edges
      ensures j < |states| && ItemSet(states[j].key) == ItemSet(basis)
      ensures old(states) == [] ==> j == 0 && states[0].look == look
      decreases Unseen(a.g, states), 1
    {
      var key := MergeSort.StableSort(CompareItems, basis);
      SortedStrictly(basis, ItemSet(basis));
      var r := StateFind(ht, Keys(states), key);
      if r.Some? {
        j := r.value;
      } else {
        j := NewState(key, look, w);
      }
    }

    /** Its second branch: a state that is not in the table yet. */
    method NewState(key: seq<Item>, look: set<nat>, ghost w: seq<nat>) returns (j: nat)
      requires Valid() && Strict(key) && ItemSet(key) == BasisAfter(a.g, w) && (states != [] ==> look == {})
      requires forall i :: 0 <= i < |states| ==> states[i].key != key
      modifies this
      ensures Valid() && Grown(a.g, old(states), states) && old(edges) <= edges
      ensures j == |old(states)| < |states| && states[j].key == key && states[j].look == look
      decreases Unseen(a.g, states), 0
    {
      ghost var before := states;
      BasisAfterOk(a.g, w);
      NotSeen(a.g, giving, states, edges, key);
      j := AddState(key, look, w);
      ghost var s := states[j];
      NewBasisSeen(a.g, before, s);
      assert states == before + [s];
      BuildShifts(j, w, before);
      BuiltIsGrown(a.g, before, s, states);
    }

    /** buildshifts: every symbol that can be read in state i, in the order of the sorted
        configurations, and the state it leads to. */
    method BuildShifts(i: nat, ghost w: seq<nat>, ghost before: seq<State>)
      requires Valid() && i == |before| && |states| == i + 1 && states[..i] == before
      requires states[i].shifts == map[] && ItemSet(states[i].key) == BasisAfter(a.g, w)
      modifies this
      ensures Valid() && Building(a.g, before, old(states[i]), states) && AllShifted(a.g, states[i])
      ensures old(edges) <= edges
      decreases Unseen(a.g, states), 3
    {
      ghost var s := states[i];
      var configs := states[i].configs;
      var status := seq(|configs|, _ => false);
      BuildingStarts(a.g, before, s, states, status);
      for c := 0 to |configs|
        invariant Valid() && Building(a.g, before, s, states) && old(edges) <= edges
        invariant Marked(a.g, configs, status, states[i].shifts, c)
        invariant Unseen(a.g, states) <= Unseen(a.g, old(states))
      {
        if !status[c] && HasNext(a.g, configs[c]) {
          status := ShiftTurn(i, c, status, w, before, s);
        } else {
          AlreadyMarked(a.g, configs, status, states[i].shifts, c);
        }
      }
      AllMarked(a.g, giving, states[i], status);
    }

    /** The body of the outer loop of buildshifts. */
    method ShiftTurn(i: nat, c: nat, status: seq<bool>, ghost w: seq<nat>, ghost before: seq<State>, ghost s: State)
      returns (status': seq<bool>)
      requires Valid() && i == |before| && Building(a.g, before, s, states)
      requires Marked(a.g, s.configs, status, states[i].shifts, c)
      requires c < |s.configs| && !status[c] && HasNext(a.g, s.configs[c])
      requires ItemSet(s.key) == BasisAfter(a.g, w)
      modifies this
      ensures Valid() && Building(a.g, before, s, states) && old(edges) <= edges
      ensures Marked(a.g, s.configs, status', states[i].shifts, c + 1)
      ensures Unseen(a.g, states) <= Unseen(a.g, old(states))
      decreases Unseen(a.g, states), 2
    {
      var configs := states[i].configs;
      var x := Next(a.g, configs[c]);
      var basis;
      NoneUsed(a.g, giving, states[i], status, c);
      basis, status' := GatherBasis(a.g, configs, c, x, status);
      StepBasis(a.g, giving, states[i], w, x);
      ghost var s1 := states;
      var j := GetState(basis, {}, w + [x]);
      ghost var s2 := states;
      ReadyToShift(a.g, giving, s1, s2, i, c, j, ItemSet(basis));
      AddShift(i, x, j);
      ShiftTurned(a.g, before, s, s1, s2, c, x, j, status, status');
    }

    /** FindStates. */
    method FindStates()
      requires Valid() && states == [] && edges == {}
      modifies this
      ensures Valid() && IsAutomaton(a.g, giving, states, edges)
    {
      var g := a.g;
      var basis := [];
      ghost var rules: seq<nat> := [];
      for r := |g.rules| downto 0
        invariant |rules| == |basis| && forall k :: 0 <= k < |basis| ==> basis[k] == Item(rules[k], 0) && r <= rules[k] < |g.rules|
        invariant forall k, l :: 0 <= k < l < |rules| ==> rules[k] > rules[l]
        invariant forall k :: 0 <= k < |basis| ==> g.rules[rules[k]].lhs == g.start
        invariant forall q :: r <= q < |g.rules| && g.rules[q].lhs == g.start ==> Item(q, 0) in basis
      {
        if g.rules[r].lhs == g.start { basis, rules := basis + [Item(r, 0)], rules + [r]; }
      }
      assert ItemSet(basis) == StartBasis(g) == BasisAfter(g, []);
      var first := GetState(basis, {0}, []);
    }
  }
}
