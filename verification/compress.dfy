/** CompressTables: the most frequent reduce of a state becomes its default action. */
module Compression {
  import opened Actions
  import MergeSort
  import opened Options

  ghost predicate Explicit(row: seq<Action>, a: Action) { a in row && Live(a) }

  /** The action on x: the live action on x, or the live default action (on the symbol
      behind all others) when there is none. */
  ghost predicate Does(row: seq<Action>, dflt: nat, x: nat, kind: Kind, arg: nat) {
    || Explicit(row, Action(x, kind, arg))
    || ((forall a :: a in row && a.sp == x ==> !Live(a)) && Explicit(row, Action(dflt, kind, arg)))
  }

  ghost predicate OneLiveEach(row: seq<Action>) {
    forall k, l :: 0 <= k < l < |row| && row[k].sp == row[l].sp ==> !(Live(row[k]) && Live(row[l]))
  }

  /** The positions from k on that reduce by r. */
  ghost function ReducesBy(row: seq<Action>, k: nat, r: nat): set<int> {
    set j | k <= j < |row| && row[j].kind.Reduce? && row[j].arg == r
  }

  lemma ReducesByStep(row: seq<Action>, k: nat, r: nat)
    requires k < |row|
    ensures |ReducesBy(row, k, r)| == |ReducesBy(row, k + 1, r)| + if row[k].kind.Reduce? && row[k].arg == r then 1 else 0
  {
    if row[k].kind.Reduce? && row[k].arg == r {
      assert ReducesBy(row, k, r) == ReducesBy(row, k + 1, r) + {k};
    } else {
      assert ReducesBy(row, k, r) == ReducesBy(row, k + 1, r);
    }
  }

  lemma {:induction false} ReducesByLater(row: seq<Action>, k: nat, r: nat)
    requires k <= |row|
    ensures |ReducesBy(row, k, r)| <= |ReducesBy(row, 0, r)|
    ensures (forall j :: 0 <= j < k ==> !(row[j].kind.Reduce? && row[j].arg == r)) ==>
              |ReducesBy(row, k, r)| == |ReducesBy(row, 0, r)|
  {
    if k > 0 {
      ReducesByStep(row, k - 1, r);
      ReducesByLater(row, k - 1, r);
    }
  }

  /** The inner loop: the reduces by row[k]'s rule from k on. */
  method CountSame(row: seq<Action>, k: nat, rbest: Option<nat>) returns (n: nat)
    requires k < |row| && row[k].kind.Reduce? && rbest != Some(row[k].arg)
    ensures n == |ReducesBy(row, k, row[k].arg)|
  {
    n := 1;
    var rp := row[k].arg;
    ghost var rest := |ReducesBy(row, k, rp)|;
    ReducesByStep(row, k, rp);
    for j := k + 1 to |row|
      invariant n + |ReducesBy(row, j, rp)| == rest
    {
      ReducesByStep(row, j, rp);
      if row[j].kind.Reduce? && rbest != Some(row[j].arg) && row[j].arg == rp { n := n + 1; }
    }
    assert ReducesBy(row, |row|, rp) == {};
  }

  predicate By(a: Action, r: nat) { a.kind.Reduce? && a.arg == r }

  ghost predicate StandsFirst(row: seq<Action>, r: nat) {
    exists f :: 0 <= f < |row| && By(row[f], r) && FewerBefore(row, f, |ReducesBy(row, 0, r)|)
  }

  /** The rules that reduce before position f have fewer reduces in the row. */
  ghost predicate FewerBefore(row: seq<Action>, f: nat, n: nat) {
    forall j :: 0 <= j < f && j < |row| && row[j].kind.Reduce? ==> |ReducesBy(row, 0, row[j].arg)| < n
  }

  /** The search for the best rule: no rule has more reduces in the row, and none that has as
      many comes before it. */
  method MostFrequent(row: seq<Action>) returns (rbest: Option<nat>, nbest: nat)
    ensures forall r :: |ReducesBy(row, 0, r)| <= nbest
    ensures nbest > 0 ==> rbest.Some? && nbest == |ReducesBy(row, 0, rbest.value)| && StandsFirst(row, rbest.value)
  {
    rbest, nbest := None, 0;
    ghost var f := 0;
    for k := 0 to |row|
      invariant forall j :: 0 <= j < k && row[j].kind.Reduce? ==> |ReducesBy(row, 0, row[j].arg)| <= nbest
      invariant if rbest.Some? then nbest == |ReducesBy(row, 0, rbest.value)| else nbest == 0
      invariant rbest.Some? ==> f < k && By(row[f], rbest.value) && FewerBefore(row, f, nbest)
    {
      if row[k].kind.Reduce? && rbest != Some(row[k].arg) {
        var n := CountSame(row, k, rbest);
        ReducesByLater(row, k, row[k].arg);
        if n > nbest { nbest, rbest, f := n, Some(row[k].arg), k; }
      }
    }
    forall r
      ensures |ReducesBy(row, 0, r)| <= nbest
    {
      if ReducesBy(row, 0, r) != {} {
        var j :| j in ReducesBy(row, 0, r);
        assert row[j].kind.Reduce? && row[j].arg == r;
      }
    }
  }


  /** What folding rule r at position f does to number k. */
  function FoldedAt(row: seq<Action>, dflt: nat, r: nat, f: nat, k: nat): Action
    requires k < |row|
  {
    if k == f then row[k].(sp := dflt) else if k > f && By(row[k], r) then row[k].(kind := NotUsed) else row[k]
  }

  ghost predicate Folded(row: seq<Action>, dflt: nat, r: nat, row': seq<Action>) {
    && (forall a :: Explicit(row', a) <==> a == Action(dflt, Reduce, r) || (Explicit(row, a) && !By(a, r)))
    && OneLiveEach(row') && exists x :: Explicit(row, Action(x, Reduce, r))
  }

  /** The second part: the first reduce by r becomes the default, the others go out of use. */
  method FoldRow(row: seq<Action>, dflt: nat, r: nat) returns (row': seq<Action>)
    requires OneLiveEach(row) && (forall a :: a in row ==> a.sp < dflt) && ReducesBy(row, 0, r) != {}
    ensures Folded(row, dflt, r, row')
  {
    ghost var witness' :| witness' in ReducesBy(row, 0, r);
    var f := 0;
    while !By(row[f], r)
      invariant 0 <= f <= witness' && forall k :: 0 <= k < f ==> !By(row[k], r)
      decreases witness' - f
    {
      f := f + 1;
    }
    var list := row[f := row[f].(sp := dflt)];
    for j := f + 1 to |row|
      invariant |list| == |row|
      invariant forall k :: 0 <= k < j ==> list[k] == FoldedAt(row, dflt, r, f, k)
      invariant forall k :: j <= k < |row| ==> list[k] == row[k]
    {
      if list[j].kind.Reduce? && list[j].arg == r { list := list[j := list[j].(kind := NotUsed)]; }
    }
    row' := MergeSort.StableSort(CompareActions, list);
    FoldedList(row, dflt, r, f, list);
    SortedFolded(row, dflt, r, list);
  }

  lemma FoldedList(row: seq<Action>, dflt: nat, r: nat, f: nat, list: seq<Action>)
    requires OneLiveEach(row) && (forall a :: a in row ==> a.sp < dflt)
    requires f < |row| && By(row[f], r) && forall k :: 0 <= k < f ==> !By(row[k], r)
    requires |list| == |row| && forall k :: 0 <= k < |row| ==> list[k] == FoldedAt(row, dflt, r, f, k)
    ensures Folded(row, dflt, r, list)
  {
    forall a
      ensures Explicit(list, a) <==> a == Action(dflt, Reduce, r) || (Explicit(row, a) && !By(a, r))
    {
      if Explicit(list, a) {
        var k :| 0 <= k < |list| && list[k] == a;
        assert row[k] in row;
      }
      if a == Action(dflt, Reduce, r) { assert list[f] == a; }
      if Explicit(row, a) && !By(a, r) {
        var k :| 0 <= k < |row| && row[k] == a;
        assert list[k] == a;
      }
    }
    assert Explicit(row, Action(row[f].sp, Reduce, r)) by { assert row[f] in row; }
    forall k, l | 0 <= k < l < |list| && list[k].sp == list[l].sp
      ensures !(Live(list[k]) && Live(list[l]))
    {
      assert row[k] in row && row[l] in row;
    }
  }

  /** Sorting changes none of this. */
  lemma SortedFolded(row: seq<Action>, dflt: nat, r: nat, list: seq<Action>)
    requires Folded(row, dflt, r, list)
    ensures Folded(row, dflt, r, MergeSort.StableSort(CompareActions, list))
  {
    var sorted := MergeSort.StableSort(CompareActions, list);
    MergeSort.StableSortPermutes(CompareActions, list);
    forall a ensures a in sorted <==> a in list { assert a in multiset(sorted) <==> a in multiset(list); }
    PermutedOneLive(list, sorted);
  }

  ghost predicate OneLiveCounted(list: seq<Action>) {
    && (forall a :: Live(a) ==> multiset(list)[a] <= 1)
    && forall a, b :: a in list && b in list && Live(a) && Live(b) && a.sp == b.sp ==> a == b
  }

  lemma OneLiveByCount(list: seq<Action>)
    ensures OneLiveEach(list) <==> OneLiveCounted(list)
  {
    if OneLiveEach(list) {
      forall a | Live(a) ensures multiset(list)[a] <= 1 { MergeSort.CountedOnce(list, a); }
      forall a, b | a in list && b in list && Live(a) && Live(b) && a.sp == b.sp ensures a == b {
        var k :| 0 <= k < |list| && list[k] == a;
        var l :| 0 <= l < |list| && list[l] == b;
      }
    }
    if OneLiveCounted(list) {
      forall k, l | 0 <= k < l < |list| && list[k].sp == list[l].sp && Live(list[k])
        ensures !Live(list[l])
      {
        MergeSort.CountedOnce(list, list[k]);
        assert list[k] in list && list[l] in list;
      }
    }
  }

  lemma PermutedOneLive(list: seq<Action>, sorted: seq<Action>)
    requires OneLiveEach(list) && multiset(sorted) == multiset(list) && forall a :: a in sorted <==> a in list
    ensures OneLiveEach(sorted)
  {
    OneLiveByCount(list);
    OneLiveByCount(sorted);
  }

  ghost predicate IsMostFrequent(row: seq<Action>, r: nat) {
    forall q :: |ReducesBy(row, 0, q)| <= |ReducesBy(row, 0, r)|
  }

  /** CompressTables for one state: nothing, or the most frequent rule, found at least
      twice, becomes the default. */
  /** The first of the most frequent rules is folded if it has at least two reduces. */
  ghost predicate IsCompressed(row: seq<Action>, dflt: nat, row': seq<Action>) {
    if exists r :: |ReducesBy(row, 0, r)| >= 2 then exists r :: Folded(row, dflt, r, row') && IsTheDefault(row, r) else row' == row
  }

  ghost predicate IsTheDefault(row: seq<Action>, r: nat) {
    IsMostFrequent(row, r) && StandsFirst(row, r) && |ReducesBy(row, 0, r)| >= 2
  }

  method CompressRow(row: seq<Action>, dflt: nat) returns (row': seq<Action>)
    requires OneLiveEach(row) && forall a :: a in row ==> a.sp < dflt
    ensures IsCompressed(row, dflt, row')
    ensures row' == row || exists r :: Folded(row, dflt, r, row') && IsMostFrequent(row, r) && |ReducesBy(row, 0, r)| >= 2
  {
    var rbest, nbest := MostFrequent(row);
    if nbest < 2 {
      row' := row;
    } else {
      row' := FoldRow(row, dflt, rbest.value);
      assert IsTheDefault(row, rbest.value);
    }
  }

  /** Folding preserves what the state does: every live action is still taken, explicitly
      or by default; and an action that is taken on a symbol was there, or is the default
      and was there on some symbol. */
  lemma FoldingPreserves(row: seq<Action>, dflt: nat, r: nat, row': seq<Action>, x: nat, kind: Kind, arg: nat)
    requires OneLiveEach(row) && (forall a :: a in row ==> a.sp < dflt) && Folded(row, dflt, r, row') && x < dflt
    ensures Explicit(row, Action(x, kind, arg)) ==> Does(row', dflt, x, kind, arg)
    ensures Does(row', dflt, x, kind, arg) ==>
              (Explicit(row, Action(x, kind, arg)) ||
               ((forall a :: a in row && a.sp == x ==> !Live(a)) && kind.Reduce? && arg == r))
  {
    OneLiveByCount(row);
    OneLiveByCount(row');
    var a := Action(x, kind, arg);
    if Explicit(row, a) && By(a, r) {
      forall b | b in row' && b.sp == x ensures !Live(b) {
        assert Explicit(row', b) ==> Explicit(row, b) && !By(b, r);
        assert Explicit(row, b) ==> a == b;
      }
    }
    if Does(row', dflt, x, kind, arg) && !Explicit(row, a) {
      assert !Explicit(row', a);
      assert Explicit(row', Action(dflt, kind, arg));
      forall b | b in row && b.sp == x ensures !Live(b) {
        assert Explicit(row, b) && !By(b, r) ==> Explicit(row', b);
        assert Explicit(row, b) && By(b, r) ==> a == b;
      }
    }
  }
}
