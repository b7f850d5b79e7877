/** Which of the actions that contend for a symbol is taken, told by precedences alone. */
module Contention {
  import opened Grammars
  import opened States
  import opened Actions
  import MergeSort
  import opened Options

  // ----- The contenders of a symbol -----

  /** The reduces on x in state i by the first n rules, in the order of the rules. */
  ghost function ReducesOn(g: Grammar, states: seq<State>, fws: map<Config, set<nat>>, i: nat, x: nat, n: nat): seq<Action> {
    if n == 0 then []
    else
      var before, a := ReducesOn(g, states, fws, i, x, n - 1), Action(x, Reduce, n - 1);
      if IsReduce(g, states, fws, i, a) then before + [a] else before
  }

  /** All actions on x in state i: the shift, the accept, the reduces. */
  ghost function Contenders(g: Grammar, states: seq<State>, fws: map<Config, set<nat>>, i: nat, x: nat): seq<Action>
    requires i < |states|
  {
    (if x in states[i].shifts then [Action(x, Shift, states[i].shifts[x])] else [])
    + (if i == 0 && x == g.start then [Action(x, Accept, 0)] else []) + ReducesOn(g, states, fws, i, x, |g.rules|)
  }

  /** Those of the symbols below n, symbol by symbol. */
  ghost function AllContenders(g: Grammar, states: seq<State>, fws: map<Config, set<nat>>, i: nat, n: nat): seq<Action>
    requires i < |states|
  {
    if n == 0 then [] else AllContenders(g, states, fws, i, n - 1) + Contenders(g, states, fws, i, n - 1)
  }

  ghost predicate Ordered(s: seq<Action>) { forall k, l :: 0 <= k < l < |s| ==> CompareActions(s[k], s[l]) < 0 }

  lemma {:induction false} ReducesAre(g: Grammar, states: seq<State>, fws: map<Config, set<nat>>, i: nat, x: nat, n: nat)
    requires n <= |g.rules|
    ensures var s := ReducesOn(g, states, fws, i, x, n);
            && Ordered(s) && (forall k :: 0 <= k < |s| ==> IsReduce(g, states, fws, i, s[k]) && s[k].sp == x && s[k].arg < n)
            && (forall a :: IsReduce(g, states, fws, i, a) && a.sp == x && a.arg < n ==> a in s)
  {
    if n > 0 { ReducesAre(g, states, fws, i, x, n - 1); }
  }

  /** They are in order, and exactly the actions on x. */
  lemma ContendersAre(g: Grammar, states: seq<State>, fws: map<Config, set<nat>>, i: nat, x: nat)
    requires i < |states|
    ensures var s := Contenders(g, states, fws, i, x);
            && Ordered(s) && (forall k :: 0 <= k < |s| ==> IsAction(g, states, fws, i, s[k]) && s[k].sp == x)
            && (forall a :: IsAction(g, states, fws, i, a) && a.sp == x ==> a in s)
  {
    ReducesAre(g, states, fws, i, x, |g.rules|);
  }

  lemma {:induction false} AllContendersAre(g: Grammar, states: seq<State>, fws: map<Config, set<nat>>, i: nat, n: nat)
    requires i < |states|
    ensures var s := AllContenders(g, states, fws, i, n);
            && Ordered(s) && (forall k :: 0 <= k < |s| ==> IsAction(g, states, fws, i, s[k]) && s[k].sp < n)
            && (forall a :: IsAction(g, states, fws, i, a) && a.sp < n ==> a in s)
  {
    if n > 0 {
      var s, t := AllContenders(g, states, fws, i, n - 1), Contenders(g, states, fws, i, n - 1);
      AllContendersAre(g, states, fws, i, n - 1);
      ContendersAre(g, states, fws, i, n - 1);
      OrderedJoin(s, t, n - 1);
      JoinOnlyActions(g, states, fws, i, n, s, t);
      JoinAllActions(g, states, fws, i, n, s, t);
    }
  }

  lemma JoinOnlyActions(g: Grammar, states: seq<State>, fws: map<Config, set<nat>>, i: nat, n: nat, s: seq<Action>, t: seq<Action>)
    requires n > 0 && forall k :: 0 <= k < |s| ==> IsAction(g, states, fws, i, s[k]) && s[k].sp < n - 1
    requires forall k :: 0 <= k < |t| ==> IsAction(g, states, fws, i, t[k]) && t[k].sp == n - 1
    ensures forall k :: 0 <= k < |s + t| ==> IsAction(g, states, fws, i, (s + t)[k]) && (s + t)[k].sp < n
  {
    forall k | 0 <= k < |s + t| ensures IsAction(g, states, fws, i, (s + t)[k]) && (s + t)[k].sp < n {
      if k < |s| { assert (s + t)[k] == s[k]; } else { assert (s + t)[k] == t[k - |s|]; }
    }
  }

  lemma JoinAllActions(g: Grammar, states: seq<State>, fws: map<Config, set<nat>>, i: nat, n: nat, s: seq<Action>, t: seq<Action>)
    requires n > 0 && forall a :: IsAction(g, states, fws, i, a) && a.sp < n - 1 ==> a in s
    requires forall a :: IsAction(g, states, fws, i, a) && a.sp == n - 1 ==> a in t
    ensures forall a :: IsAction(g, states, fws, i, a) && a.sp < n ==> a in s + t
  {
    forall a | IsAction(g, states, fws, i, a) && a.sp < n ensures a in s + t { InJoin(s, t, a); }
  }

  lemma InJoin(s: seq<Action>, t: seq<Action>, a: Action)
    ensures a in s + t <==> a in s || a in t
  {
  }

  lemma OrderedJoin(s: seq<Action>, t: seq<Action>, x: nat)
    requires Ordered(s) && Ordered(t) && (forall k :: 0 <= k < |s| ==> s[k].sp < x) && forall k :: 0 <= k < |t| ==> t[k].sp == x
    ensures Ordered(s + t)
  {
  }

  /** Two ordered lists of the same actions are equal. */
  lemma {:induction false} OrderedUnique(s: seq<Action>, t: seq<Action>)
    requires Ordered(s) && Ordered(t) && forall a :: a in s <==> a in t
    ensures s == t
    decreases |s|
  {
    BothEmpty(s, t);
    if s != [] {
      LastIsGreatest(s, t);
      var m, n := |s| - 1, |t| - 1;
      forall a ensures a in s[..m] <==> a in t[..n] {
        WithoutLast(s, a);
        WithoutLast(t, a);
      }
      OrderedUnique(s[..m], t[..n]);
      assert s == s[..m] + [s[m]] && t == t[..n] + [t[n]];
    }
  }

  lemma BothEmpty(s: seq<Action>, t: seq<Action>)
    requires forall a :: a in s <==> a in t
    ensures s == [] <==> t == []
  {
    if s != [] { assert s[0] in t; }
    if t != [] { assert t[0] in s; }
  }

  lemma LastIsGreatest(s: seq<Action>, t: seq<Action>)
    requires Ordered(s) && Ordered(t) && s != [] && t != [] && forall a :: a in s <==> a in t
    ensures s[|s| - 1] == t[|t| - 1]
  {
    assert s[|s| - 1] in t && t[|t| - 1] in s;
  }

  lemma WithoutLast(s: seq<Action>, a: Action)
    requires Ordered(s) && s != []
    ensures a in s[..|s| - 1] <==> a in s && a != s[|s| - 1]
  {
    if a in s && a != s[|s| - 1] {
      var k :| 0 <= k < |s| && s[k] == a;
      assert s[..|s| - 1][k] == a;
    }
  }

  /** So the sorted list of a state's actions is that of all its contenders. */
  lemma SortedAreContenders(g: Grammar, p: Precedences, states: seq<State>, fws: map<Config, set<nat>>, i: nat, row: seq<Action>)
    requires i < |states| && ScannedFor(g, p, states, fws, i, row)
    requires forall a :: IsAction(g, states, fws, i, a) ==> a.sp < g.nsymbol
    ensures row == Scan(p, AllContenders(g, states, fws, i, g.nsymbol))
  {
    var before :| ScannedFrom(g, p, states, fws, i, before, row);
    SortedIsOrdered(before);
    SortedSame(g, states, fws, i, before, AllContenders(g, states, fws, i, g.nsymbol));
  }

  lemma SortedIsOrdered(s: seq<Action>)
    requires MergeSort.Sorted(CompareActions, s) && MergeSort.NoRepeats(s)
    ensures Ordered(s)
  {
    forall k, l | 0 <= k < l < |s| ensures CompareActions(s[k], s[l]) < 0 {
      assert !MergeSort.Less(CompareActions, s[l], s[k]) && s[k] != s[l];
    }
  }

  lemma SortedSame(g: Grammar, states: seq<State>, fws: map<Config, set<nat>>, i: nat, s: seq<Action>, all: seq<Action>)
    requires i < |states| && Ordered(s) && (forall a :: a in s <==> IsAction(g, states, fws, i, a))
    requires all == AllContenders(g, states, fws, i, g.nsymbol) && forall a :: IsAction(g, states, fws, i, a) ==> a.sp < g.nsymbol
    ensures s == all
  {
    AllContendersAre(g, states, fws, i, g.nsymbol);
    forall a ensures a in s <==> a in all {
      if a in all { var k :| 0 <= k < |all| && all[k] == a; }
    }
    OrderedUnique(s, all);
  }

  // ----- The winner -----

  /** Each contender in turn takes the place of the one before that it beats. */
  function Winner(p: Precedences, s: seq<Action>): Action
    requires s != []
  {
    var n := |s| - 1;
    if n == 0 then s[0]
    else
      var w := Winner(p, s[..n]);
      if Beats(p, s[n], w) then s[n] else w
  }

  /** How many of them neither beat the winner so far nor lose to it. */
  function Undecided(p: Precedences, s: seq<Action>): nat {
    if |s| <= 1 then 0
    else
      var n := |s| - 1;
      var w := Winner(p, s[..n]);
      Undecided(p, s[..n]) + if Beats(p, w, s[n]) || Beats(p, s[n], w) then 0 else 1
  }

  ghost predicate OneSymbol(s: seq<Action>, x: nat) { forall k :: 0 <= k < |s| ==> s[k].sp == x && Live(s[k]) }

  lemma {:induction false} WinnerHolds(p: Precedences, s: seq<Action>, x: nat)
    requires OneSymbol(s, x) && s != []
    ensures s[Holder(p, s)] == Winner(p, s) && |Conflicts(Scan(p, s))| == Undecided(p, s)
    decreases |s|
  {
    var n := |s| - 1;
    if n == 0 {
      assert Scan(p, s[..0]) == [] && Scan(p, s) == [s[0]];
      assert Conflicts(Scan(p, s)) == {};
    } else {
      WinnerHolds(p, s[..n], x);
      ScanCounts(p, s[..n], s[n], x);
      assert s == s[..n] + [s[n]];
    }
  }

  lemma ScanCounts(p: Precedences, s: seq<Action>, y: Action, x: nat)
    requires OneSymbol(s, x) && s != [] && y.sp == x && Live(y)
    ensures var h := Holder(p, s);
            |Conflicts(Scan(p, s + [y]))| == |Conflicts(Scan(p, s))| + if Beats(p, s[h], y) || Beats(p, y, s[h]) then 0 else 1
  {
    var h, r := Holder(p, s), Scan(p, s);
    ScanMore(p, s, y);
    ScanHolder(p, s);
    if Beats(p, s[h], y) {
      ConflictsOfMore(r, Resolved(y));
    } else if Beats(p, y, s[h]) {
      ConflictsAfter(r, h, Resolved(s[h]));
      ConflictsOfMore(r[h := Resolved(s[h])], y);
    } else {
      ConflictsOfMore(r, y.(kind := Conflict));
    }
  }

  lemma ConflictsOfMore(r: seq<Action>, a: Action)
    ensures |Conflicts(r + [a])| == |Conflicts(r)| + if a.kind.Conflict? then 1 else 0
  {
    assert Conflicts(r + [a]) == if a.kind.Conflict? then Conflicts(r) + {|r|} else Conflicts(r);
  }

  // ----- Symbol by symbol -----

  /** Lists on different symbols are scanned apart. */
  lemma {:induction false} ScanApart(p: Precedences, s: seq<Action>, t: seq<Action>, x: nat)
    requires OneSymbol(t, x) && forall k :: 0 <= k < |s| ==> s[k].sp < x
    ensures Scan(p, s + t) == Scan(p, s) + Scan(p, t)
    ensures t != [] ==> Holder(p, s + t) == |s| + Holder(p, t)
    decreases |t|
  {
    if t == [] {
      assert s + t == s;
      assert Scan(p, s) + [] == Scan(p, s);
    } else {
      var n := |t| - 1;
      var t', y := t[..n], t[n];
      assert s + t == (s + t') + [y] && t == t' + [y];
      ScanApart(p, s, t', x);
      if t' == [] { ApartFirst(p, s, t', y); } else { ApartMore(p, s, t', y); }
    }
  }

  lemma ApartFirst(p: Precedences, s: seq<Action>, t: seq<Action>, y: Action)
    requires t == [] && (s != [] ==> s[|s| - 1].sp != y.sp)
    ensures Scan(p, s + t + [y]) == Scan(p, s) + Scan(p, t + [y]) && Holder(p, s + t + [y]) == |s| + Holder(p, t + [y])
  {
    assert s + t == s && t + [y] == [y];
    ScanOther(p, s, y);
    ScanOther(p, [], y);
    assert [] + [y] == [y];
  }

  lemma ApartMore(p: Precedences, s: seq<Action>, t: seq<Action>, y: Action)
    requires t != [] && t[|t| - 1].sp == y.sp && Scan(p, s + t) == Scan(p, s) + Scan(p, t) && Holder(p, s + t) == |s| + Holder(p, t)
    ensures Scan(p, s + t + [y]) == Scan(p, s) + Scan(p, t + [y]) && Holder(p, s + t + [y]) == |s| + Holder(p, t + [y])
  {
    ScanMore(p, s + t, y);
    ScanMore(p, t, y);
    var h := Holder(p, t);
    assert (s + t)[|s| + h] == t[h];
    Inner(Scan(p, s), Scan(p, t), h, Resolved(t[h]), [y]);
  }

  lemma Inner<T>(a: seq<T>, b: seq<T>, h: nat, x: T, c: seq<T>)
    requires h < |b|
    ensures (a + b)[|a| + h := x] + c == a + (b[h := x] + c)
  {
  }

  /** The contenders of the last symbol apart from those of all others. */
  lemma SplitAtSymbol(g: Grammar, states: seq<State>, fws: map<Config, set<nat>>, i: nat, n: nat, all: seq<Action>)
    returns (s: seq<Action>, t: seq<Action>)
    requires i < |states| && n > 0 && all == AllContenders(g, states, fws, i, n)
    ensures s == AllContenders(g, states, fws, i, n - 1) && t == Contenders(g, states, fws, i, n - 1)
    ensures all == s + t && OneSymbol(t, n - 1) && forall k :: 0 <= k < |s| ==> s[k].sp < n - 1
  {
    s, t := AllContenders(g, states, fws, i, n - 1), Contenders(g, states, fws, i, n - 1);
    AllContendersAre(g, states, fws, i, n - 1);
    ContendersAre(g, states, fws, i, n - 1);
  }

  lemma WinnerIsIn(p: Precedences, t: seq<Action>, x: nat) returns (k: nat)
    requires OneSymbol(t, x) && t != []
    ensures k < |t| && Scan(p, t)[k] == Winner(p, t)
  {
    WinnerHolds(p, t, x);
    ScanHolder(p, t);
    k := Holder(p, t);
  }

  lemma ScannedBefore(p: Precedences, s: seq<Action>, t: seq<Action>, all: seq<Action>, x: nat, k: nat, w: Action)
    requires OneSymbol(t, x) && (forall k :: 0 <= k < |s| ==> s[k].sp < x) && all == s + t && k < |s| && Scan(p, s)[k] == w
    ensures Scan(p, all)[k] == w
  {
    ScanApart(p, s, t, x);
  }

  lemma WinnerBehind(p: Precedences, s: seq<Action>, t: seq<Action>, all: seq<Action>, x: nat) returns (k: nat)
    requires OneSymbol(t, x) && t != [] && (forall k :: 0 <= k < |s| ==> s[k].sp < x) && all == s + t
    ensures k < |all| && Scan(p, all)[k] == Winner(p, t)
  {
    ScanApart(p, s, t, x);
    k := WinnerIsIn(p, t, x);
    k := |s| + k;
  }

  /** In a scanned list of contenders the winner of each symbol is as it was. */
  lemma {:induction false} WinnersAreLive(g: Grammar, p: Precedences, states: seq<State>, fws: map<Config, set<nat>>, i: nat, n: nat, x: nat,
                                          all: seq<Action>, c: seq<Action>) returns (k: nat)
    requires i < |states| && x < n && c == Contenders(g, states, fws, i, x) && c != []
    requires all == AllContenders(g, states, fws, i, n)
    ensures k < |all| && Scan(p, all)[k] == Winner(p, c)
    decreases n
  {
    var s, t := SplitAtSymbol(g, states, fws, i, n, all);
    if x < n - 1 {
      k := WinnersAreLive(g, p, states, fws, i, n - 1, x, s, c);
      ScannedBefore(p, s, t, all, n - 1, k, Winner(p, c));
    } else {
      k := WinnerBehind(p, s, c, all, x);
    }
  }

  /** The contenders of the symbols below n that were not decided. */
  ghost function UndecidedBelow(g: Grammar, p: Precedences, states: seq<State>, fws: map<Config, set<nat>>, i: nat, n: nat): nat
    requires i < |states|
  {
    if n == 0 then 0 else UndecidedBelow(g, p, states, fws, i, n - 1) + Undecided(p, Contenders(g, states, fws, i, n - 1))
  }

  lemma {:induction false} ConflictsAreUndecided(g: Grammar, p: Precedences, states: seq<State>, fws: map<Config, set<nat>>, i: nat, n: nat,
                                                 all: seq<Action>)
    requires i < |states| && all == AllContenders(g, states, fws, i, n)
    ensures |Conflicts(Scan(p, all))| == UndecidedBelow(g, p, states, fws, i, n)
    decreases n
  {
    if n == 0 {
      assert Conflicts([]) == {};
    } else {
      var s, t := SplitAtSymbol(g, states, fws, i, n, all);
      ConflictsAreUndecided(g, p, states, fws, i, n - 1, s);
      ScanApart(p, s, t, n - 1);
      ConflictsOfBoth(Scan(p, s), Scan(p, t));
      UndecidedCounts(p, t, n - 1);
    }
  }

  lemma UndecidedCounts(p: Precedences, t: seq<Action>, x: nat)
    requires OneSymbol(t, x)
    ensures |Conflicts(Scan(p, t))| == Undecided(p, t)
  {
    if t == [] { assert Conflicts([]) == {}; } else { WinnerHolds(p, t, x); }
  }

  lemma {:induction false} ConflictsOfBoth(r: seq<Action>, r': seq<Action>)
    ensures |Conflicts(r + r')| == |Conflicts(r)| + |Conflicts(r')|
    decreases |r'|
  {
    if r' == [] {
      assert r + r' == r && Conflicts(r') == {};
    } else {
      var n := |r'| - 1;
      ConflictsOfBoth(r, r'[..n]);
      ConflictsOfMore(r + r'[..n], r'[n]);
      ConflictsOfMore(r'[..n], r'[n]);
      assert r + r' == (r + r'[..n]) + [r'[n]] && r' == r'[..n] + [r'[n]];
    }
  }

  /** The same over the first n states. */
  ghost function AllUndecided(g: Grammar, p: Precedences, states: seq<State>, fws: map<Config, set<nat>>, n: nat): nat
    requires n <= |states|
  {
    if n == 0 then 0 else AllUndecided(g, p, states, fws, n - 1) + UndecidedBelow(g, p, states, fws, n - 1, g.nsymbol)
  }

  // ----- One and two contenders -----

  /** The actions of state i on a symbol are a and b and no other. */
  ghost predicate OnlyThese(g: Grammar, states: seq<State>, fws: map<Config, set<nat>>, i: nat, a: Action, b: Action) {
    && a.sp == b.sp && IsAction(g, states, fws, i, a) && IsAction(g, states, fws, i, b)
    && forall c :: IsAction(g, states, fws, i, c) && c.sp == a.sp ==> c == a || c == b
  }

  ghost predicate ShiftAndReduce(g: Grammar, states: seq<State>, fws: map<Config, set<nat>>, i: nat, x: nat, q: nat, r: nat) {
    OnlyThese(g, states, fws, i, Action(x, Shift, q), Action(x, Reduce, r))
  }

  ghost predicate TwoReduces(g: Grammar, states: seq<State>, fws: map<Config, set<nat>>, i: nat, x: nat, q: nat, r: nat) {
    OnlyThese(g, states, fws, i, Action(x, Reduce, q), Action(x, Reduce, r))
  }

  lemma OneContender(g: Grammar, states: seq<State>, fws: map<Config, set<nat>>, i: nat, a: Action)
    requires i < |states| && OnlyThese(g, states, fws, i, a, a)
    ensures Contenders(g, states, fws, i, a.sp) == [a]
  {
    ContendersAre(g, states, fws, i, a.sp);
    OrderedUnique(Contenders(g, states, fws, i, a.sp), [a]);
  }

  lemma TwoContenders(g: Grammar, states: seq<State>, fws: map<Config, set<nat>>, i: nat, a: Action, b: Action)
    requires i < |states| && OnlyThese(g, states, fws, i, a, b) && CompareActions(a, b) < 0
    ensures Contenders(g, states, fws, i, a.sp) == [a, b]
  {
    ContendersAre(g, states, fws, i, a.sp);
    OrderedUnique(Contenders(g, states, fws, i, a.sp), [a, b]);
  }

  datatype Choice = First | Second | Unclear

  /** Between a shift of x and a reduce by r: the higher precedence wins; on a tie the
      associativity of x decides, left for the reduce and right for the shift. */
  function ShiftOrReduce(p: Precedences, x: nat, r: nat): Choice {
    match p.precsym(r)
    case None => Unclear
    case Some(s) =>
      if p.prec(x) < 0 || p.prec(s) < 0 then Unclear
      else if p.prec(x) > p.prec(s) then First
      else if p.prec(x) < p.prec(s) then Second
      else
        match p.assoc(x)
        case Right => First
        case Left => Second
        case _ => Unclear
  }

  /** Between two reduces: the higher precedence wins. */
  function ReduceOrReduce(p: Precedences, q: nat, r: nat): Choice {
    match (p.precsym(q), p.precsym(r))
    case (Some(s), Some(s')) =>
      if p.prec(s) < 0 || p.prec(s') < 0 || p.prec(s) == p.prec(s') then Unclear
      else if p.prec(s) > p.prec(s') then First else Second
    case _ => Unclear
  }

  lemma WinnerOfTwo(p: Precedences, a: Action, b: Action)
    ensures Winner(p, [a]) == a && Undecided(p, [a]) == 0
    ensures Winner(p, [a, b]) == if Beats(p, b, a) then b else a
    ensures Undecided(p, [a, b]) == if Beats(p, a, b) || Beats(p, b, a) then 0 else 1
  {
    assert [a, b][..1] == [a];
  }

  /** The winner is the second only where it is the choice, and a conflict is counted exactly
      where there is none. */
  lemma ShiftAgainstReduce(p: Precedences, x: nat, q: nat, r: nat)
    ensures var s, choice := [Action(x, Shift, q), Action(x, Reduce, r)], ShiftOrReduce(p, x, r);
            Winner(p, s) == (if choice.Second? then s[1] else s[0]) && Undecided(p, s) == if choice.Unclear? then 1 else 0
  {
    WinnerOfTwo(p, Action(x, Shift, q), Action(x, Reduce, r));
  }

  lemma ReduceAgainstReduce(p: Precedences, x: nat, q: nat, r: nat)
    ensures var s, choice := [Action(x, Reduce, q), Action(x, Reduce, r)], ReduceOrReduce(p, q, r);
            Winner(p, s) == (if choice.Second? then s[1] else s[0]) && Undecided(p, s) == if choice.Unclear? then 1 else 0
  {
    WinnerOfTwo(p, Action(x, Reduce, q), Action(x, Reduce, r));
  }
}
