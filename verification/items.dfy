/** LR(0) items of a grammar: closure, advancing over a symbol, and the set of items that
    a string of symbols leads to. */
module Items {
  import opened Grammars

  /** A rule with a dot in its right-hand side. */
  datatype Item = Item(rule: nat, dot: nat)

  ghost predicate Ok(g: Grammar, it: Item) {
    it.rule < |g.rules| && it.dot <= |g.rules[it.rule].rhs|
  }

  ghost predicate AllOk(g: Grammar, items: set<Item>) {
    forall it :: it in items ==> Ok(g, it)
  }

  predicate HasNext(g: Grammar, it: Item) {
    it.rule < |g.rules| && it.dot < |g.rules[it.rule].rhs|
  }

  function Next(g: Grammar, it: Item): nat
    requires HasNext(g, it)
  {
    g.rules[it.rule].rhs[it.dot]
  }

  /** What follows the next symbol. */
  function Rest(g: Grammar, it: Item): seq<nat>
    requires HasNext(g, it)
  {
    g.rules[it.rule].rhs[it.dot + 1..]
  }

  function Advance(it: Item): Item { Item(it.rule, it.dot + 1) }

  predicate Complete(g: Grammar, it: Item) {
    it.rule < |g.rules| && it.dot == |g.rules[it.rule].rhs|
  }

  ghost function AllItems(g: Grammar): set<Item> {
    set r, d | 0 <= r < |g.rules| && 0 <= d <= |g.rules[r].rhs| :: Item(r, d)
  }

  lemma InAllItems(g: Grammar, it: Item)
    ensures it in AllItems(g) <==> Ok(g, it)
  {
  }

  /** b starts a rule for the symbol behind a's dot. */
  predicate Expands(g: Grammar, a: Item, b: Item) {
    HasNext(g, a) && b.rule < |g.rules| && b.dot == 0 && g.rules[b.rule].lhs == Next(g, a)
  }

  ghost predicate IsExpansion(g: Grammar, basis: set<Item>, path: seq<Item>, it: Item) {
    && path != [] && path[0] in basis && path[|path| - 1] == it
    && forall i :: 0 <= i < |path| - 1 ==> Expands(g, path[i], path[i + 1])
  }

  ghost predicate Reaches(g: Grammar, basis: set<Item>, it: Item) {
    exists path :: IsExpansion(g, basis, path, it)
  }

  ghost function Closure(g: Grammar, basis: set<Item>): set<Item> {
    set it | it in AllItems(g) && Reaches(g, basis, it)
  }

  ghost predicate Closed(g: Grammar, items: set<Item>) {
    forall a, b :: a in items && Expands(g, a, b) ==> b in items
  }

  lemma ClosureHasBasis(g: Grammar, basis: set<Item>)
    requires AllOk(g, basis)
    ensures basis <= Closure(g, basis) && AllOk(g, Closure(g, basis))
  {
    forall it | it in basis
      ensures it in Closure(g, basis)
    {
      assert IsExpansion(g, basis, [it], it);
    }
  }

  lemma ClosureIsClosed(g: Grammar, basis: set<Item>)
    ensures Closed(g, Closure(g, basis))
  {
    forall a, b | a in Closure(g, basis) && Expands(g, a, b)
      ensures b in Closure(g, basis)
    {
      var path :| IsExpansion(g, basis, path, a);
      assert IsExpansion(g, basis, path + [b], b);
      InAllItems(g, b);
    }
  }

  lemma {:induction false} ExpansionStaysIn(g: Grammar, basis: set<Item>, items: set<Item>, path: seq<Item>, it: Item)
    requires basis <= items && Closed(g, items) && IsExpansion(g, basis, path, it)
    ensures it in items
    decreases |path|
  {
    if |path| > 1 {
      var prefix := path[..|path| - 1];
      ExpansionStaysIn(g, basis, items, prefix, prefix[|prefix| - 1]);
      assert Expands(g, path[|path| - 2], path[|path| - 2 + 1]);
    }
  }

  /** The closure is the least closed set around the basis. */
  lemma ClosureIsLeast(g: Grammar, basis: set<Item>, items: set<Item>)
    requires basis <= items && Closed(g, items)
    ensures Closure(g, basis) <= items
  {
    forall it | it in Closure(g, basis)
      ensures it in items
    {
      var path :| IsExpansion(g, basis, path, it);
      ExpansionStaysIn(g, basis, items, path, it);
    }
  }

  /** An item of the closure is in the basis, or starts a rule that an item of the closure
      asks for. */
  lemma ClosureOrigin(g: Grammar, basis: set<Item>, it: Item) returns (a: Item)
    requires it in Closure(g, basis) && it !in basis
    ensures a in Closure(g, basis) && Expands(g, a, it)
  {
    var path :| IsExpansion(g, basis, path, it);
    assert |path| > 1;
    a := path[|path| - 2];
    assert Expands(g, path[|path| - 2], path[|path| - 2 + 1]);
    assert IsExpansion(g, basis, path[..|path| - 1], a);
    InAllItems(g, a);
  }

  /** The items advanced over x. */
  ghost function Goto(g: Grammar, items: set<Item>, x: nat): set<Item> {
    set it | it in items && HasNext(g, it) && Next(g, it) == x :: Advance(it)
  }

  ghost function StartBasis(g: Grammar): set<Item> {
    set r | 0 <= r < |g.rules| && g.rules[r].lhs == g.start :: Item(r, 0)
  }

  /** The basis that reading the symbols w leads to. */
  ghost function BasisAfter(g: Grammar, w: seq<nat>): set<Item> {
    if w == [] then StartBasis(g)
    else Goto(g, Closure(g, BasisAfter(g, w[..|w| - 1])), w[|w| - 1])
  }

  lemma GotoOk(g: Grammar, items: set<Item>, x: nat)
    ensures AllOk(g, Goto(g, items, x))
  {
  }

  lemma StartOk(g: Grammar)
    ensures AllOk(g, StartBasis(g))
  {
  }
}
