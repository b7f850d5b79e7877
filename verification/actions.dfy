/** FindActions, resolve_conflict and CompressTables: the action list of each state. */
module Actions {
  import opened Grammars
  import opened Items
  import opened Configlists
  import opened StateTables
  import opened States
  import opened Lookaheads
  import MergeSort
  import opened Options

  datatype Kind = Shift | Accept | Reduce | Error | Conflict | ShResolved | RdResolved | NotUsed

  /** arg is the new state of a shift and the rule of a reduce. */
  datatype Action = Action(sp: nat, kind: Kind, arg: nat)

  function KindNumber(k: Kind): nat {
    match k
    case Shift => 0 case Accept => 1 case Reduce => 2 case Error => 3
    case Conflict => 4 case ShResolved => 5 case RdResolved => 6 case NotUsed => 7
  }

  /** actioncmp. */
  function CompareActions(a: Action, b: Action): int {
    if a.sp != b.sp then a.sp - b.sp
    else if a.kind != b.kind then KindNumber(a.kind) - KindNumber(b.kind)
    else a.arg - b.arg
  }

  lemma ActionsCompare()
    ensures MergeSort.TotalPreorder(CompareActions)
  {
  }

  /** An action that makes it into the tables. */
  predicate Live(a: Action) { a.kind.Shift? || a.kind.Accept? || a.kind.Reduce? }

  // ----- The actions of a state -----

  ghost predicate IsShift(states: seq<State>, i: nat, a: Action) {
    i < |states| && a.kind.Shift? && a.sp in states[i].shifts && a.arg == states[i].shifts[a.sp]
  }

  ghost predicate IsReduce(g: Grammar, states: seq<State>, fws: map<Config, set<nat>>, i: nat, a: Action) {
    && a.kind.Reduce? && a.arg < |g.rules|
    && var c := Config(i, Item(a.arg, |g.rules[a.arg].rhs|));
       IsConfig(states, c) && c in fws && a.sp in fws[c]
  }

  ghost predicate IsAccept(g: Grammar, i: nat, a: Action) {
    i == 0 && a == Action(g.start, Accept, 0)
  }

  ghost predicate IsAction(g: Grammar, states: seq<State>, fws: map<Config, set<nat>>, i: nat, a: Action) {
    IsShift(states, i, a) || IsReduce(g, states, fws, i, a) || IsAccept(g, i, a)
  }

  // ----- Conflicts -----

  datatype Assoc = Left | Right | NoAssoc | Unknown

  /** prec is negative when there is none; precsym is the symbol a rule takes its
      precedence from. */
  datatype Precedences = Precedences(prec: nat -> int, assoc: nat -> Assoc, precsym: nat -> Option<nat>)

  /** The precedence of an action: a shift has its symbol's, a reduce its rule's. */
  function PrecOf(p: Precedences, a: Action): Option<int> {
    var s := if a.kind.Shift? then Some(a.sp) else p.precsym(a.arg);
    if s.None? || p.prec(s.value) < 0 then None else Some(p.prec(s.value))
  }

  /** Both have a precedence and x's is higher; or they tie and the associativity of the
      symbol to be shifted decides for x. */
  predicate Beats(p: Precedences, x: Action, y: Action) {
    && PrecOf(p, x).Some? && PrecOf(p, y).Some?
    && (PrecOf(p, x).value > PrecOf(p, y).value ||
        (PrecOf(p, x).value == PrecOf(p, y).value && x.kind.Shift? && y.kind.Reduce? && p.assoc(x.sp).Right?) ||
        (PrecOf(p, x).value == PrecOf(p, y).value && x.kind.Reduce? && y.kind.Shift? && p.assoc(y.sp).Left?))
  }

  function Resolved(a: Action): Action {
    a.(kind := if a.kind.Shift? then ShResolved else RdResolved)
  }

  /** resolve_conflict: the loser of two live actions is put out of use, the later one
      when precedence does not decide; anything else is left alone. */
  method ResolveConflict(p: Precedences, apx: Action, apy: Action) returns (x: Action, y: Action, errcnt: nat)
    requires apx.sp == apy.sp
    ensures (apx.kind.Shift? || apx.kind.Reduce?) && apy.kind.Reduce? ==>
              if Beats(p, apx, apy) then x == apx && y == Resolved(apy) && errcnt == 0
              else if Beats(p, apy, apx) then x == Resolved(apx) && y == apy && errcnt == 0
              else x == apx && y == apy.(kind := Conflict) && errcnt == 1
    ensures !((apx.kind.Shift? || apx.kind.Reduce?) && apy.kind.Reduce?) ==> x == apx && y == apy && errcnt == 0
  {
    x, y, errcnt := apx, apy, 0;
    if apx.kind.Shift? && apy.kind.Reduce? {
      var spx, spy := apx.sp, p.precsym(apy.arg);
      if spy.None? || p.prec(spx) < 0 || p.prec(spy.value) < 0 {
        y, errcnt := y.(kind := Conflict), 1;
      } else if p.prec(spx) > p.prec(spy.value) {
        y := y.(kind := RdResolved);
      } else if p.prec(spx) < p.prec(spy.value) {
        x := x.(kind := ShResolved);
      } else if p.assoc(spx).Right? {
        y := y.(kind := RdResolved);
      } else if p.assoc(spx).Left? {
        x := x.(kind := ShResolved);
      } else {
        y, errcnt := y.(kind := Conflict), 1;
      }
    } else if apx.kind.Reduce? && apy.kind.Reduce? {
      var spx, spy := p.precsym(apx.arg), p.precsym(apy.arg);
      if spx.None? || spy.None? || p.prec(spx.value) < 0 || p.prec(spy.value) < 0 || p.prec(spx.value) == p.prec(spy.value) {
        y, errcnt := y.(kind := Conflict), 1;
      } else if p.prec(spx.value) > p.prec(spy.value) {
        y := y.(kind := RdResolved);
      } else {
        x := x.(kind := RdResolved);
      }
    }
  }

  predicate Contends(x: Action, y: Action) { (x.kind.Shift? || x.kind.Reduce?) && y.kind.Reduce? }

  /** What resolve_conflict does to numbers i and j of a list. */
  function PairResolved(p: Precedences, list: seq<Action>, i: nat, j: nat): (r: seq<Action>)
    requires i < j < |list|
    ensures |r| == |list|
  {
    if !Contends(list[i], list[j]) then list
    else if Beats(p, list[i], list[j]) then list[j := Resolved(list[j])]
    else if Beats(p, list[j], list[i]) then list[i := Resolved(list[i])]
    else list[j := list[j].(kind := Conflict)]
  }

  // ----- Resolution in one scan -----

  /** The number of the action that holds the last symbol: the first one on it, until a later
      one beats the holder. */
  function Holder(p: Precedences, s: seq<Action>): (h: nat)
    requires s != []
    ensures h < |s|
  {
    var n := |s| - 1;
    if n == 0 || s[n - 1].sp != s[n].sp then n
    else
      var h := Holder(p, s[..n]);
      if Beats(p, s[n], s[h]) then n else h
  }

  /** Every action that comes in loses to the holder of its symbol, beats it, or is marked as a
      conflict. */
  function Scan(p: Precedences, s: seq<Action>): (r: seq<Action>)
    ensures |r| == |s|
  {
    if s == [] then []
    else
      var n := |s| - 1;
      var r := Scan(p, s[..n]);
      if n == 0 || s[n - 1].sp != s[n].sp then r + [s[n]]
      else
        var h := Holder(p, s[..n]);
        if Beats(p, s[h], s[n]) then r + [Resolved(s[n])]
        else if Beats(p, s[n], s[h]) then r[h := Resolved(s[h])] + [s[n]]
        else r + [s[n].(kind := Conflict)]
  }

  ghost predicate SortedSymbols(s: seq<Action>) { forall i, j :: 0 <= i < j < |s| ==> s[i].sp <= s[j].sp }

  /** The holder is as it was, and no other action on the last symbol is live; no symbol changes. */
  lemma {:induction false} ScanHolder(p: Precedences, s: seq<Action>)
    requires SortedSymbols(s) && s != []
    ensures var h := Holder(p, s); Scan(p, s)[h] == s[h] && s[h].sp == s[|s| - 1].sp
    ensures forall k :: 0 <= k < |s| && k != Holder(p, s) && s[k].sp == s[|s| - 1].sp ==> !Live(Scan(p, s)[k])
    ensures forall k :: 0 <= k < |s| ==> Scan(p, s)[k].sp == s[k].sp
    decreases |s|
  {
    if |s| > 1 { ScanHolder(p, s[..|s| - 1]); }
  }

  /** The first c actions are scanned, and action i of the last symbol among them is the holder,
      or out, with the holder the last that was scanned or all actions on the symbol scanned. */
  ghost predicate Scanning(p: Precedences, before: seq<Action>, list: seq<Action>, i: nat, c: nat) {
    && i < c <= |before| && list == Scan(p, before[..c]) + before[c..] && before[i].sp == before[c - 1].sp
    && (i < Holder(p, before[..c]) ==> c == Holder(p, before[..c]) + 1)
    && (i > Holder(p, before[..c]) ==> c == |before| || before[c].sp != before[i].sp)
  }

  /** One action more on the symbol of the holder. */
  lemma ScanMore(p: Precedences, s: seq<Action>, y: Action)
    requires s != [] && s[|s| - 1].sp == y.sp
    ensures var h, r := Holder(p, s), Scan(p, s);
            Scan(p, s + [y]) == if Beats(p, s[h], y) then r + [Resolved(y)]
                                else if Beats(p, y, s[h]) then r[h := Resolved(s[h])] + [y] else r + [y.(kind := Conflict)]
    ensures Holder(p, s + [y]) == if Beats(p, y, s[Holder(p, s)]) then |s| else Holder(p, s)
  {
    assert (s + [y])[..|s|] == s;
  }

  /** And one on another symbol. */
  lemma ScanOther(p: Precedences, s: seq<Action>, y: Action)
    requires s != [] ==> s[|s| - 1].sp != y.sp
    ensures Scan(p, s + [y]) == Scan(p, s) + [y] && Holder(p, s + [y]) == |s|
  {
    assert (s + [y])[..|s|] == s;
  }

  lemma PairIs(p: Precedences, list: seq<Action>, h: nat, c: nat, r: seq<Action>, y: Action, tail: seq<Action>)
    requires h < c == |r| && list == r + ([y] + tail) && Contends(r[h], y)
    ensures PairResolved(p, list, h, c) == (if Beats(p, r[h], y) then r + [Resolved(y)]
                                            else if Beats(p, y, r[h]) then r[h := Resolved(r[h])] + [y] else r + [y.(kind := Conflict)]) + tail
  {
    assert list[h] == r[h] && list[c] == y;
  }

  lemma Split(before: seq<Action>, c: nat)
    requires c < |before|
    ensures before[c..] == [before[c]] + before[c + 1..] && before[..c + 1] == before[..c] + [before[c]]
  {
  }

  lemma PairByHolder(p: Precedences, before: seq<Action>, list: seq<Action>, i: nat, c: nat)
    requires Grouped(before) && Scanning(p, before, list, i, c) && c < |before| && before[c].sp == before[i].sp && i == Holder(p, before[..c])
    ensures Scanning(p, before, PairResolved(p, list, i, c), i, c + 1) && i <= Holder(p, before[..c + 1])
  {
    var s, y := before[..c], before[c];
    Split(before, c);
    ScanHolder(p, s);
    ScanMore(p, s, y);
    PairIs(p, list, i, c, Scan(p, s), y, before[c + 1..]);
  }

  lemma PairByOther(p: Precedences, before: seq<Action>, list: seq<Action>, i: nat, j: nat, c: nat)
    requires Grouped(before) && Scanning(p, before, list, i, c) && i != Holder(p, before[..c]) && i < j < |before|
    ensures PairResolved(p, list, i, j) == list
  {
    ScanHolder(p, before[..c]);
    assert before[..c][i] == before[i] && before[..c][c - 1] == before[c - 1];
    assert !Live(list[i]);
  }

  /** The pair (i, j) changes something only if i is the holder and j the next to be scanned. */
  lemma ScanPair(p: Precedences, before: seq<Action>, list: seq<Action>, i: nat, j: nat, c: nat)
    requires Grouped(before) && Scanning(p, before, list, i, c) && i < j < |before| && before[j].sp == before[i].sp
    requires i == Holder(p, before[..c]) ==> j == c
    ensures var c' := if i == Holder(p, before[..c]) then c + 1 else c;
            && Scanning(p, before, PairResolved(p, list, i, j), i, c')
            && (i == Holder(p, before[..c']) ==> j + 1 == c')
  {
    if i == Holder(p, before[..c]) { PairByHolder(p, before, list, i, c); } else { PairByOther(p, before, list, i, j, c); }
  }

  /** From one i to the next: within the actions scanned, or on to the next symbol. */
  lemma ScanOn(p: Precedences, before: seq<Action>, list: seq<Action>, i: nat, c: nat)
    requires Grouped(before) && Scanning(p, before, list, i, c) && i + 1 < |before|
    requires i >= Holder(p, before[..c]) ==> c == |before| || before[c].sp != before[i].sp
    ensures var c' := if i + 1 == c then c + 1 else c;
            Scanning(p, before, list, i + 1, c') && (i + 1 == Holder(p, before[..c']) ==> c' == i + 2)
  {
    if i + 1 == c {
      Split(before, c);
      ScanOther(p, before[..c], before[c]);
      assert list == Scan(p, before[..c]) + [before[c]] + before[c + 1..];
    } else {
      SameSymbolBetween(before, i, c);
    }
  }

  lemma SameSymbolBetween(before: seq<Action>, i: nat, c: nat)
    requires SortedSymbols(before) && i + 1 < c <= |before| && before[i].sp == before[c - 1].sp
    ensures before[i + 1].sp == before[i].sp
  {
  }

  /** In a sorted list the actions on one symbol stand together: at most one shift, first,
      then reduces; an accept stands alone. */
  ghost predicate Grouped(list: seq<Action>) {
    && (forall i, j :: 0 <= i < j < |list| ==> list[i].sp <= list[j].sp)
    && (forall i, j :: 0 <= i < j < |list| && list[i].sp == list[j].sp ==>
          (list[i].kind.Shift? || list[i].kind.Reduce?) && list[j].kind.Reduce?)
    && (forall i :: 0 <= i < |list| ==> Live(list[i]))
  }

  /** Out of use: what becomes of a shift or a reduce that loses. */
  predicate Lost(before: Action, after: Action) {
    after == Resolved(before) || (before.kind.Reduce? && after == before.(kind := Conflict))
  }

  ghost predicate Weaker(before: seq<Action>, list: seq<Action>) {
    |list| == |before| && forall k :: 0 <= k < |list| ==> list[k] == before[k] || (Lost(before[k], list[k]) && !before[k].kind.Accept?)
  }

  /** Some action on the symbol of number k is live. */
  ghost predicate Served(list: seq<Action>, k: nat)
    requires k < |list|
  {
    exists m :: 0 <= m < |list| && list[m].sp == list[k].sp && Live(list[m])
  }

  ghost predicate AllServed(list: seq<Action>) {
    forall k :: 0 <= k < |list| ==> Served(list, k)
  }

  /** No two live actions on one symbol, the first of them below i, or at i and the second below j. */
  ghost predicate Settled(list: seq<Action>, i: nat, j: nat) {
    forall k, l :: 0 <= k < l < |list| && (k < i || (k == i && l < j)) && list[k].sp == list[l].sp ==>
      !(Live(list[k]) && Live(list[l]))
  }

  ghost function Conflicts(list: seq<Action>): set<int> {
    set k | 0 <= k < |list| && list[k].kind.Conflict?
  }

  ghost predicate Resolving(before: seq<Action>, list: seq<Action>, i: nat, j: nat, n: nat) {
    Weaker(before, list) && AllServed(list) && Settled(list, i, j) && n == |Conflicts(list)|
  }

  /** Putting out one action of a symbol that another live one serves. */
  lemma ServedAfter(list: seq<Action>, w: nat, l: nat, a: Action)
    requires w < |list| && l < |list| && w != l && list[w].sp == list[l].sp == a.sp && Live(list[w]) && AllServed(list)
    ensures AllServed(list[l := a])
  {
    var list' := list[l := a];
    forall k | 0 <= k < |list'|
      ensures Served(list', k)
    {
      assert Served(list, k);
      var m :| 0 <= m < |list| && list[m].sp == list[k].sp && Live(list[m]);
      if m == l { assert list'[w].sp == list'[k].sp; } else { assert list'[m] == list[m]; }
    }
  }

  lemma ConflictsAfter(list: seq<Action>, l: nat, a: Action)
    requires l < |list| && !list[l].kind.Conflict?
    ensures |Conflicts(list[l := a])| == |Conflicts(list)| + if a.kind.Conflict? then 1 else 0
  {
    if a.kind.Conflict? {
      assert Conflicts(list[l := a]) == Conflicts(list) + {l};
    } else {
      assert Conflicts(list[l := a]) == Conflicts(list);
    }
  }

  /** Putting out the loser l of a pair settles the pair and unsettles none. */
  lemma LoserOut(before: seq<Action>, list: seq<Action>, i: nat, j: nat, l: nat, a: Action, n: nat)
    requires Resolving(before, list, i, j, n) && i < j < |list| && list[i].sp == list[j].sp
    requires Live(list[i]) && Live(list[j]) && (l == i || l == j)
    requires Lost(list[l], a) && !list[l].kind.Accept?
    ensures Resolving(before, list[l := a], i, j + 1, n + if a.kind.Conflict? then 1 else 0)
  {
    ServedAfter(list, if l == i then j else i, l, a);
    ConflictsAfter(list, l, a);
    assert list[l] == before[l];
  }

  /** No symbol has a precedence. */
  ghost predicate Unranked(p: Precedences) { forall s :: p.prec(s) < 0 }

  ghost predicate OnlyConflicts(before: seq<Action>, list: seq<Action>) {
    |list| == |before| && forall k :: 0 <= k < |list| ==> list[k] == before[k] || list[k].kind.Conflict?
  }

  /** The pair (i, j) on the same symbol. */
  method ResolvePair(p: Precedences, list: seq<Action>, i: nat, j: nat, ghost before: seq<Action>, n: nat)
    returns (list': seq<Action>, n': nat)
    requires Grouped(before) && Resolving(before, list, i, j, n) && i < j < |list| && list[i].sp == list[j].sp
    ensures Resolving(before, list', i, j + 1, n') && list' == PairResolved(p, list, i, j)
    ensures forall k :: 0 <= k < |list| ==> list'[k].sp == list[k].sp
    ensures Unranked(p) && OnlyConflicts(before, list) ==> OnlyConflicts(before, list')
  {
    var x, y, errcnt := ResolveConflict(p, list[i], list[j]);
    list', n' := list[i := x][j := y], n + errcnt;
    assert list[i] == before[i] || !Live(list[i]);
    assert list[j] == before[j] || !Live(list[j]);
    if Live(list[i]) && Live(list[j]) {
      var l := if x == list[i] then j else i;
      assert list' == list[l := if l == i then x else y];
      LoserOut(before, list, i, j, l, if l == i then x else y, n);
    } else {
      assert list' == list;
    }
  }

  lemma GroupDone(before: seq<Action>, list: seq<Action>, i: nat, j: nat, n: nat)
    requires Resolving(before, list, i, j, n) && (j < |list| ==> i < j && list[j].sp > list[i].sp) && Grouped(before)
    requires forall k :: 0 <= k < |list| ==> list[k].sp == before[k].sp
    ensures Resolving(before, list, i + 1, i + 2, n)
  {
  }

  /** The scan that the loops over pairs amount to has come to action c when they are at i and j. */
  ghost predicate ScannedTo(p: Precedences, before: seq<Action>, list: seq<Action>, i: nat, j: nat, c: nat) {
    if i < |before| then Scanning(p, before, list, i, c) && (i == Holder(p, before[..c]) ==> j == c) else list == Scan(p, before)
  }

  lemma ScanStarts(p: Precedences, before: seq<Action>)
    requires Grouped(before)
    ensures ScannedTo(p, before, before, 0, 1, 1)
  {
    if before != [] {
      var s := before[..1];
      assert s[..0] == [] && Scan(p, s[..0]) == [] && Scan(p, s) == [] + [s[0]];
      assert before == s + before[1..];
    }
  }

  lemma NextScanned(p: Precedences, before: seq<Action>, list: seq<Action>, i: nat, j: nat, c: nat) returns (c': nat)
    requires Grouped(before) && ScannedTo(p, before, list, i, j, c) && i < j < |before| == |list| && before[j].sp == before[i].sp
    ensures ScannedTo(p, before, PairResolved(p, list, i, j), i, j + 1, c')
  {
    c' := if i == Holder(p, before[..c]) then c + 1 else c;
    ScanPair(p, before, list, i, j, c);
  }

  lemma NextHolder(p: Precedences, before: seq<Action>, list: seq<Action>, i: nat, j: nat, c: nat) returns (c': nat)
    requires Grouped(before) && ScannedTo(p, before, list, i, j, c) && i < j && i + 1 < |before|
    requires j < |before| ==> before[j].sp != before[i].sp
    requires j <= |before|
    ensures ScannedTo(p, before, list, i + 1, i + 2, c')
  {
    c' := if i + 1 == c then c + 1 else c;
    ScanOn(p, before, list, i, c);
  }

  lemma AllScanned(p: Precedences, before: seq<Action>, list: seq<Action>, i: nat, c: nat)
    requires ScannedTo(p, before, list, i, i + 1, c) && i + 1 >= |before|
    ensures list == Scan(p, before)
  {
    if i < |before| { assert before[..c] == before; }
  }

  /** How far the loops have come at the pair (i, j). */
  ghost predicate Progress(p: Precedences, before: seq<Action>, list: seq<Action>, i: nat, j: nat, n: nat, c: nat) {
    && Resolving(before, list, i, j, n) && (Unranked(p) ==> OnlyConflicts(before, list))
    && (forall k :: 0 <= k < |list| ==> list[k].sp == before[k].sp)
    && ScannedTo(p, before, list, i, j, c)
  }

  method PairTurn(p: Precedences, list: seq<Action>, i: nat, j: nat, ghost before: seq<Action>, n: nat, ghost c: nat)
    returns (list': seq<Action>, n': nat, ghost c': nat)
    requires Grouped(before) && Progress(p, before, list, i, j, n, c) && i < j < |list| && list[i].sp == list[j].sp
    ensures Progress(p, before, list', i, j + 1, n', c')
  {
    list', n' := ResolvePair(p, list, i, j, before, n);
    c' := NextScanned(p, before, list, i, j, c);
  }

  lemma GroupTurn(p: Precedences, before: seq<Action>, list: seq<Action>, i: nat, j: nat, n: nat, c: nat) returns (c': nat)
    requires Grouped(before) && Progress(p, before, list, i, j, n, c) && i < j <= |list| && i + 1 < |list|
    requires j < |list| ==> list[j].sp != list[i].sp
    ensures Progress(p, before, list, i + 1, i + 2, n, c')
  {
    GroupDone(before, list, i, j, n);
    c' := NextHolder(p, before, list, i, j, c);
  }

  /** The inner loop: action i with those behind it on its symbol. */
  method ResolveWith(p: Precedences, list0: seq<Action>, i: nat, ghost before: seq<Action>, n: nat, ghost c0: nat)
    returns (list: seq<Action>, nconflict: nat, ghost c: nat)
    requires Grouped(before) && |list0| == |before| && Progress(p, before, list0, i, i + 1, n, c0) && i + 1 < |list0|
    ensures |list| == |before| && Progress(p, before, list, i + 1, i + 2, nconflict, c)
  {
    list, nconflict, c := list0, n, c0;
    var j := i + 1;
    while j < |list| && list[j].sp == list[i].sp
      invariant i < j <= |list| == |before| && Progress(p, before, list, i, j, nconflict, c)
      decreases |list| - j
    {
      list, nconflict, c := PairTurn(p, list, i, j, before, nconflict, c);
      j := j + 1;
    }
    c := GroupTurn(p, before, list, i, j, nconflict, c);
  }

  lemma Begins(p: Precedences, before: seq<Action>)
    requires Grouped(before)
    ensures Progress(p, before, before, 0, 1, 0, 1)
  {
    assert Conflicts(before) == {};
    forall k | 0 <= k < |before| ensures Served(before, k) { assert Live(before[k]); }
    ScanStarts(p, before);
  }

  lemma Ends(p: Precedences, before: seq<Action>, list: seq<Action>, i: nat, n: nat, c: nat)
    requires Progress(p, before, list, i, i + 1, n, c) && i + 1 >= |before|
    ensures Weaker(before, list) && AllServed(list) && n == |Conflicts(list)| && list == Scan(p, before)
    ensures forall k, l :: 0 <= k < l < |list| && list[k].sp == list[l].sp ==> !(Live(list[k]) && Live(list[l]))
    ensures Unranked(p) && n == 0 ==> list == before
  {
    NoneConflicting(list);
    AllScanned(p, before, list, i, c);
  }

  /** The loops over the pairs of a state's sorted list. */
  method ResolveConflicts(p: Precedences, before: seq<Action>) returns (list: seq<Action>, nconflict: nat)
    requires Grouped(before)
    ensures Weaker(before, list) && AllServed(list) && nconflict == |Conflicts(list)|
    ensures forall k, l :: 0 <= k < l < |list| && list[k].sp == list[l].sp ==> !(Live(list[k]) && Live(list[l]))
    ensures Unranked(p) && nconflict == 0 ==> list == before
    ensures list == Scan(p, before)
  {
    list, nconflict := before, 0;
    ghost var c := 1;
    Begins(p, before);
    var i := 0;
    while i + 1 < |list|
      invariant |list| == |before| && Progress(p, before, list, i, i + 1, nconflict, c)
    {
      list, nconflict, c := ResolveWith(p, list, i, before, nconflict, c);
      i := i + 1;
    }
    Ends(p, before, list, i, nconflict, c);
  }

  lemma NoneConflicting(list: seq<Action>)
    ensures |Conflicts(list)| == 0 ==> forall k :: 0 <= k < |list| ==> !list[k].kind.Conflict?
  {
    forall k | 0 <= k < |list| && list[k].kind.Conflict?
      ensures Conflicts(list) != {}
    {
      assert k in Conflicts(list);
    }
  }

  // ----- Collecting the actions of a state -----

  /** Action_add: in front. */
  lemma AddedDistinct(list: seq<Action>, a: Action)
    requires MergeSort.NoRepeats(list) && a !in list
    ensures MergeSort.NoRepeats([a] + list) && forall b :: b in [a] + list <==> b == a || b in list
  {
  }

  /** Shifts are on symbols of the grammar. */
  lemma ShiftSymbol(g: Grammar, states: seq<State>, i: nat, a: Action) returns (it: Item)
    requires g.Valid() && ShiftsOk(g, states) && IsShift(states, i, a)
    ensures a.sp < g.nsymbol && a.arg < |states|
    ensures it in states[i].closure.members && HasNext(g, it) && Next(g, it) == a.sp
  {
    assert ShiftOk(g, states, i, a.sp, a.arg);
    var key := states[a.arg].key;
    assert key[0] in ItemSet(key);
    it :| it in states[i].closure.members && HasNext(g, it) && Next(g, it) == a.sp && Advance(it) == key[0];
  }

  method CollectShifts(g: Grammar, states: seq<State>, i: nat) returns (list: seq<Action>)
    requires g.Valid() && ShiftsOk(g, states) && i < |states|
    ensures MergeSort.NoRepeats(list) && forall a :: a in list <==> IsShift(states, i, a)
  {
    list := [];
    for x := 0 to g.nsymbol
      invariant MergeSort.NoRepeats(list) && forall a :: a in list <==> IsShift(states, i, a) && a.sp < x
    {
      if x in states[i].shifts {
        AddedDistinct(list, Action(x, Shift, states[i].shifts[x]));
        list := [Action(x, Shift, states[i].shifts[x])] + list;
      }
    }
    forall a | IsShift(states, i, a)
      ensures a.sp < g.nsymbol
    {
      var it := ShiftSymbol(g, states, i, a);
    }
  }

  /** The reduces of the complete items that come first in a list. */
  ghost predicate ReduceFrom(g: Grammar, fws: map<Config, set<nat>>, i: nat, items: set<Item>, a: Action) {
    && a.kind.Reduce? && a.arg < |g.rules|
    && var c := Config(i, Item(a.arg, |g.rules[a.arg].rhs|));
       c.item in items && c in fws && a.sp in fws[c]
  }

  method CollectReduces(g: Grammar, fws: map<Config, set<nat>>, i: nat, it: Item, before: seq<Action>, ghost items: set<Item>)
    returns (list: seq<Action>)
    requires Complete(g, it) && Config(i, it) in fws && it !in items && TerminalsOnly(g, fws) && MergeSort.NoRepeats(before)
    requires forall a :: a in before && a.kind.Reduce? ==> ReduceFrom(g, fws, i, items, a)
    ensures MergeSort.NoRepeats(list)
    ensures forall a :: a in list <==> a in before || ReduceFrom(g, fws, i, {it}, a)
  {
    list := before;
    for j := 0 to g.nterminal
      invariant MergeSort.NoRepeats(list)
      invariant forall a :: a in list <==> a in before || (ReduceFrom(g, fws, i, {it}, a) && a.sp < j)
    {
      if j in fws[Config(i, it)] {
        AddedDistinct(list, Action(j, Reduce, it.rule));
        list := [Action(j, Reduce, it.rule)] + list;
      }
    }
    forall a | ReduceFrom(g, fws, i, {it}, a)
      ensures a.sp < g.nterminal
    {
      assert g.IsTerminal(a.sp);
    }
  }

  lemma NextConfig(configs: seq<Item>, k: nat)
    requires Strict(configs) && k < |configs|
    ensures configs[k] !in ItemSet(configs[..k]) && configs[k] in ItemSet(configs)
    ensures ItemSet(configs[..k + 1]) == ItemSet(configs[..k]) + {configs[k]}
  {
    forall m | 0 <= m < k
      ensures configs[m] != configs[k]
    {
      assert CompareItems(configs[m], configs[k]) < 0;
    }
    assert configs[..k + 1] == configs[..k] + [configs[k]];
  }

  /** With one configuration more, complete or not. */
  lemma MoreReduces(g: Grammar, fws: map<Config, set<nat>>, i: nat, items: set<Item>, it: Item, a: Action)
    ensures ReduceFrom(g, fws, i, items + {it}, a) <==> ReduceFrom(g, fws, i, items, a) || ReduceFrom(g, fws, i, {it}, a)
    ensures ReduceFrom(g, fws, i, {it}, a) ==> Complete(g, it)
  {
  }

  /** The first part of FindActions, for one state. */
  method CollectActions(g: Grammar, ghost giving: Giving, states: seq<State>, fws: map<Config, set<nat>>, i: nat)
    returns (list: seq<Action>)
    requires g.Valid() && AllOkStates(g, giving, states) && ShiftsOk(g, states) && i < |states|
    requires TerminalsOnly(g, fws) && forall c :: c in fws <==> IsConfig(states, c)
    ensures MergeSort.NoRepeats(list) && forall a :: a in list <==> IsAction(g, states, fws, i, a)
  {
    list := CollectShifts(g, states, i);
    var configs := states[i].configs;
    assert StateOk(g, giving, states[i]);
    for k := 0 to |configs|
      invariant MergeSort.NoRepeats(list)
      invariant forall a :: a in list <==> IsShift(states, i, a) || ReduceFrom(g, fws, i, ItemSet(configs[..k]), a)
    {
      ghost var items := ItemSet(configs[..k]);
      NextConfig(configs, k);
      forall a { MoreReduces(g, fws, i, items, configs[k], a); }
      if Complete(g, configs[k]) {
        list := CollectReduces(g, fws, i, configs[k], list, items);
      }
    }
    assert configs[..|configs|] == configs;
    if i == 0 {
      AddedDistinct(list, Action(g.start, Accept, 0));
      list := [Action(g.start, Accept, 0)] + list;
    }
  }

  // ----- Sorting them -----

  lemma StartNotShifted(g: Grammar, states: seq<State>, i: nat, a: Action)
    requires g.Valid() && g.StartIsolated() && ShiftsOk(g, states) && IsShift(states, i, a)
    ensures a.sp != g.start
  {
    var it := ShiftSymbol(g, states, i, a);
    assert g.rules[it.rule].rhs[it.dot] != g.start;
  }

  /** What two different actions of a state on one symbol can be. */
  lemma SameSymbol(g: Grammar, states: seq<State>, fws: map<Config, set<nat>>, i: nat, a: Action, b: Action)
    requires g.Valid() && g.StartIsolated() && ShiftsOk(g, states) && TerminalsOnly(g, fws)
    requires IsAction(g, states, fws, i, a) && IsAction(g, states, fws, i, b)
    requires a.sp == b.sp && a != b && CompareActions(a, b) <= 0
    ensures (a.kind.Shift? || a.kind.Reduce?) && b.kind.Reduce?
  {
    if IsShift(states, i, a) { StartNotShifted(g, states, i, a); }
    if IsShift(states, i, b) { StartNotShifted(g, states, i, b); }
    if IsReduce(g, states, fws, i, a) { assert g.IsTerminal(a.sp); }
    if IsReduce(g, states, fws, i, b) { assert g.IsTerminal(b.sp); }
  }

  lemma SortedGrouped(g: Grammar, states: seq<State>, fws: map<Config, set<nat>>, i: nat, list: seq<Action>)
    requires g.Valid() && g.StartIsolated() && ShiftsOk(g, states) && TerminalsOnly(g, fws)
    requires MergeSort.NoRepeats(list) && forall a :: a in list <==> IsAction(g, states, fws, i, a)
    ensures var sorted := MergeSort.StableSort(CompareActions, list);
            Grouped(sorted) && MergeSort.NoRepeats(sorted) && forall a :: a in sorted <==> IsAction(g, states, fws, i, a)
    ensures MergeSort.Sorted(CompareActions, MergeSort.StableSort(CompareActions, list))
  {
    var sorted := MergeSort.StableSort(CompareActions, list);
    ActionsCompare();
    MergeSort.StableSortSorted(CompareActions, list);
    MergeSort.StableSortPermutes(CompareActions, list);
    MergeSort.PermutedNoRepeats(list, sorted);
    forall a ensures a in sorted <==> IsAction(g, states, fws, i, a) {
      assert a in multiset(sorted) <==> a in multiset(list);
    }
    forall k, l | 0 <= k < l < |sorted|
      ensures sorted[k].sp <= sorted[l].sp
      ensures sorted[k].sp == sorted[l].sp ==> (sorted[k].kind.Shift? || sorted[k].kind.Reduce?) && sorted[l].kind.Reduce?
    {
      assert !MergeSort.Less(CompareActions, sorted[l], sorted[k]);
      assert sorted[k] in sorted && sorted[l] in sorted;
      if sorted[k].sp == sorted[l].sp { SameSymbol(g, states, fws, i, sorted[k], sorted[l]); }
    }
    forall k | 0 <= k < |sorted| ensures Live(sorted[k]) { assert sorted[k] in sorted; }
  }

  /** The list of a state when FindActions is done with it: what each action has become,
      one live action on every symbol that had any, and the conflicts counted. */
  ghost predicate FoundFor(g: Grammar, states: seq<State>, fws: map<Config, set<nat>>, i: nat, row: seq<Action>, nconflict: nat) {
    exists before :: FoundFrom(g, states, fws, i, before, row) && nconflict == |Conflicts(row)|
  }

  ghost predicate FoundFrom(g: Grammar, states: seq<State>, fws: map<Config, set<nat>>, i: nat, before: seq<Action>, row: seq<Action>) {
    && Grouped(before) && MergeSort.NoRepeats(before) && (forall a :: a in before <==> IsAction(g, states, fws, i, a))
    && Weaker(before, row) && AllServed(row)
    && forall k, l :: 0 <= k < l < |row| && row[k].sp == row[l].sp ==> !(Live(row[k]) && Live(row[l]))
  }

  /** It is what the scan of the state's actions in order makes of them. */
  ghost predicate ScannedFor(g: Grammar, p: Precedences, states: seq<State>, fws: map<Config, set<nat>>, i: nat, row: seq<Action>) {
    exists before :: ScannedFrom(g, p, states, fws, i, before, row)
  }

  ghost predicate ScannedFrom(g: Grammar, p: Precedences, states: seq<State>, fws: map<Config, set<nat>>, i: nat,
                              before: seq<Action>, row: seq<Action>) {
    && MergeSort.Sorted(CompareActions, before) && MergeSort.NoRepeats(before)
    && (forall a :: a in before <==> IsAction(g, states, fws, i, a)) && row == Scan(p, before)
  }

  /** FindActions for one state. */
  method FindStateActions(g: Grammar, ghost giving: Giving, p: Precedences, states: seq<State>, fws: map<Config, set<nat>>, i: nat)
    returns (row: seq<Action>, nconflict: nat)
    requires g.Valid() && g.StartIsolated() && AllOkStates(g, giving, states) && ShiftsOk(g, states) && i < |states|
    requires TerminalsOnly(g, fws) && forall c :: c in fws <==> IsConfig(states, c)
    ensures FoundFor(g, states, fws, i, row, nconflict) && ScannedFor(g, p, states, fws, i, row)
    ensures Unranked(p) && nconflict == 0 ==> forall a :: a in row ==> Live(a)
  {
    var list := CollectActions(g, giving, states, fws, i);
    SortedGrouped(g, states, fws, i, list);
    ghost var before := MergeSort.StableSort(CompareActions, list);
    row, nconflict := ResolveConflicts(p, MergeSort.StableSort(CompareActions, list));
    assert FoundFrom(g, states, fws, i, before, row);
    assert ScannedFrom(g, p, states, fws, i, before, row);
  }
}
