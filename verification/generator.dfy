/** From grammar to tables: the passes of the generator one after the other, and what the
    finished tables tell the parser about the automaton. */
module Generator {
  import opened Grammars
  import opened FirstSets
  import opened Items
  import opened Configlists
  import opened States
  import opened Lookaheads
  import opened Actions
  import opened Compression
  import opened Contention
  import opened Lalr
  import opened Tables
  import Lr0
  import MergeSort

  // ----- What FindActions leaves in a row -----

  ghost predicate RowOk(g: Grammar, states: seq<State>, fws: map<Config, set<nat>>, i: nat, row: seq<Action>) {
    && OneLiveEach(row) && (forall a :: a in row ==> a.sp < g.nsymbol)
    && (forall a :: Explicit(row, a) ==> IsAction(g, states, fws, i, a))
    && (forall a :: IsAction(g, states, fws, i, a) && g.IsNonterminal(a.sp) ==> Explicit(row, a))
  }

  /** Nothing had to be resolved. */
  ghost predicate AllLive(row: seq<Action>) {
    forall a :: a in row ==> Live(a)
  }

  lemma ActionSymbol(g: Grammar, states: seq<State>, fws: map<Config, set<nat>>, i: nat, a: Action)
    requires g.Valid() && ShiftsOk(g, states) && TerminalsOnly(g, fws) && IsAction(g, states, fws, i, a)
    ensures a.sp < g.nsymbol && Live(a) && (a.kind.Reduce? ==> g.IsTerminal(a.sp)) && (a.kind.Accept? ==> a.sp == g.start)
  {
    if IsShift(states, i, a) { var it := ShiftSymbol(g, states, i, a); }
    if IsReduce(g, states, fws, i, a) { assert g.IsTerminal(a.sp); }
  }

  /** A live action in a row is one of the state's. */
  lemma FoundIsAction(g: Grammar, states: seq<State>, fws: map<Config, set<nat>>, i: nat, before: seq<Action>, row: seq<Action>, a: Action)
    requires g.Valid() && ShiftsOk(g, states) && TerminalsOnly(g, fws) && FoundFrom(g, states, fws, i, before, row) && a in row
    ensures a.sp < g.nsymbol && (Live(a) ==> IsAction(g, states, fws, i, a))
  {
    var k :| 0 <= k < |row| && row[k] == a;
    assert before[k] in before;
    ActionSymbol(g, states, fws, i, before[k]);
  }

  /** An action on a nonterminal is alone on its symbol, so it is the one that is live. */
  lemma AloneStaysLive(g: Grammar, states: seq<State>, fws: map<Config, set<nat>>, i: nat, before: seq<Action>, row: seq<Action>, k: nat)
    requires g.Valid() && ShiftsOk(g, states) && TerminalsOnly(g, fws)
    requires FoundFrom(g, states, fws, i, before, row) && k < |before| && g.IsNonterminal(before[k].sp)
    ensures row[k] == before[k]
  {
    assert Served(row, k);
    var m :| 0 <= m < |row| && row[m].sp == row[k].sp && Live(row[m]);
    assert before[m] in before && before[k] in before;
    ActionSymbol(g, states, fws, i, before[m]);
    ActionSymbol(g, states, fws, i, before[k]);
  }

  lemma StillLive(g: Grammar, states: seq<State>, fws: map<Config, set<nat>>, i: nat, before: seq<Action>, row: seq<Action>, a: Action)
    requires g.Valid() && ShiftsOk(g, states) && TerminalsOnly(g, fws) && FoundFrom(g, states, fws, i, before, row)
    requires IsAction(g, states, fws, i, a) && (g.IsNonterminal(a.sp) || AllLive(row))
    ensures Explicit(row, a)
  {
    assert a in before;
    var k :| 0 <= k < |before| && before[k] == a;
    assert row[k] in row;
    ActionSymbol(g, states, fws, i, a);
    if g.IsNonterminal(a.sp) { AloneStaysLive(g, states, fws, i, before, row, k); }
  }

  lemma FoundRowOk(g: Grammar, states: seq<State>, fws: map<Config, set<nat>>, i: nat, row: seq<Action>, n: nat)
    requires g.Valid() && ShiftsOk(g, states) && TerminalsOnly(g, fws) && FoundFor(g, states, fws, i, row, n)
    ensures RowOk(g, states, fws, i, row)
    ensures AllLive(row) ==> forall a :: IsAction(g, states, fws, i, a) ==> Explicit(row, a)
  {
    var before :| FoundFrom(g, states, fws, i, before, row);
    forall a | a in row
      ensures a.sp < g.nsymbol && (Live(a) ==> IsAction(g, states, fws, i, a))
    {
      FoundIsAction(g, states, fws, i, before, row, a);
    }
    forall a | IsAction(g, states, fws, i, a) && (g.IsNonterminal(a.sp) || AllLive(row))
      ensures Explicit(row, a)
    {
      StillLive(g, states, fws, i, before, row, a);
    }
  }

  // ----- After CompressTables -----

  /** What a row, compressed or not, says about a state. */
  ghost predicate FinalRow(g: Grammar, states: seq<State>, fws: map<Config, set<nat>>, i: nat, row: seq<Action>) {
    && OneLiveEach(row) && (forall a :: Explicit(row, a) ==> a.sp <= g.nsymbol)
    && (forall a :: Explicit(row, a) && a.sp < g.nsymbol ==> IsAction(g, states, fws, i, a))
    && (forall a :: Explicit(row, a) && a.sp == g.nsymbol ==> IsDefault(g, states, i, a))
    && (forall a :: IsAction(g, states, fws, i, a) && g.IsNonterminal(a.sp) ==> Explicit(row, a))
  }

  /** A default reduces by a rule that the state has completed, and not by a start rule. */
  ghost predicate IsDefault(g: Grammar, states: seq<State>, i: nat, a: Action) {
    && a.kind.Reduce? && a.arg < |g.rules| && g.rules[a.arg].lhs != g.start
    && IsConfig(states, Config(i, Item(a.arg, |g.rules[a.arg].rhs|)))
  }

  /** Two reduces by one rule are on two lookaheads, so the rule is no start rule. */
  lemma FoldedNotStart(g: Grammar, states: seq<State>, fws: map<Config, set<nat>>, i: nat, row: seq<Action>, r: nat)
    requires RowOk(g, states, fws, i, row) && |ReducesBy(row, 0, r)| >= 2
    requires forall c :: c in fws && OfStartRule(g, c.item) ==> fws[c] <= {0}
    ensures r < |g.rules| && g.rules[r].lhs != g.start && IsConfig(states, Config(i, Item(r, |g.rules[r].rhs|)))
  {
    var k :| k in ReducesBy(row, 0, r);
    assert |ReducesBy(row, 0, r) - {k}| == |ReducesBy(row, 0, r)| - 1;
    var l :| l in ReducesBy(row, 0, r) - {k};
    assert Explicit(row, row[k]) && Explicit(row, row[l]);
    assert IsReduce(g, states, fws, i, row[k]) && IsReduce(g, states, fws, i, row[l]);
    var c := Config(i, Item(r, |g.rules[r].rhs|));
    assert row[k].sp in fws[c] && row[l].sp in fws[c];
    assert row[k].sp != row[l].sp;
  }

  lemma CompressedRow(g: Grammar, states: seq<State>, fws: map<Config, set<nat>>, i: nat, row: seq<Action>, row': seq<Action>)
    requires g.Valid() && ShiftsOk(g, states) && TerminalsOnly(g, fws) && RowOk(g, states, fws, i, row)
    requires forall c :: c in fws && OfStartRule(g, c.item) ==> fws[c] <= {0}
    requires row' == row || exists r :: Folded(row, g.nsymbol, r, row') && IsMostFrequent(row, r) && |ReducesBy(row, 0, r)| >= 2
    ensures FinalRow(g, states, fws, i, row')
    ensures forall x: nat, kind, arg :: x < g.nsymbol && Explicit(row, Action(x, kind, arg)) ==> Does(row', g.nsymbol, x, kind, arg)
  {
    if row' != row {
      var r :| Folded(row, g.nsymbol, r, row') && IsMostFrequent(row, r) && |ReducesBy(row, 0, r)| >= 2;
      FoldedNotStart(g, states, fws, i, row, r);
      FoldedFinal(g, states, fws, i, row, r, row');
      forall x: nat, kind, arg | x < g.nsymbol && Explicit(row, Action(x, kind, arg))
        ensures Does(row', g.nsymbol, x, kind, arg)
      {
        FoldingPreserves(row, g.nsymbol, r, row', x, kind, arg);
      }
    }
  }

  lemma FoldedFinal(g: Grammar, states: seq<State>, fws: map<Config, set<nat>>, i: nat, row: seq<Action>, r: nat, row': seq<Action>)
    requires g.Valid() && ShiftsOk(g, states) && TerminalsOnly(g, fws) && RowOk(g, states, fws, i, row)
    requires Folded(row, g.nsymbol, r, row') && IsDefault(g, states, i, Action(g.nsymbol, Reduce, r))
    ensures FinalRow(g, states, fws, i, row')
  {
    forall a | IsAction(g, states, fws, i, a) && g.IsNonterminal(a.sp)
      ensures Explicit(row', a)
    {
      ActionSymbol(g, states, fws, i, a);
    }
  }

  // ----- What the tables tell the parser -----

  ghost predicate StartRulesAtEnd(g: Grammar, fws: map<Config, set<nat>>) {
    forall c :: c in fws && OfStartRule(g, c.item) ==> fws[c] <= {0}
  }

  /** A lookup result for state i on terminal x is a shift of the automaton, a reduce by a
      rule the state has completed (by a start rule only at the end of input), or an error. */
  ghost predicate CellOk(g: Grammar, states: seq<State>, i: nat, x: nat, code: int)
    requires i < |states|
  {
    || (0 <= code < |states| && x in states[i].shifts && states[i].shifts[x] == code)
    || (|states| <= code < |states| + |g.rules| && ReducesIn(g, states, i, x, code - |states|))
    || code == |states| + |g.rules|
  }

  ghost predicate ReducesIn(g: Grammar, states: seq<State>, i: nat, x: nat, r: nat)
    requires i < |states|
  {
    r < |g.rules| && Item(r, |g.rules[r].rhs|) in states[i].closure.members && (g.rules[r].lhs == g.start ==> x == 0)
  }

  ghost predicate FitsGrammar(g: Grammar, states: seq<State>, t: ParserTables) {
    && t.d == Dims(g.nterminal, g.nsymbol, |states|, |g.rules|)
    && |states| == |t.shiftOfst| == |t.reduceOfst| == |t.dflt| && |t.lookahead| == |t.action|
    && |t.rules| == |g.rules| && forall r :: 0 <= r < |g.rules| ==> t.rules[r] == (g.rules[r].lhs, |g.rules[r].rhs|)
  }

  /** The tables drive the automaton. */
  ghost predicate Drives(g: Grammar, states: seq<State>, t: ParserTables) {
    && FitsGrammar(g, states, t)
    && (forall i, x :: 0 <= i < |states| && 0 <= x < g.nterminal ==> CellOk(g, states, i, x, FindShiftAction(t, i, x)))
    && (forall i, x :: 0 <= i < |states| && x in states[i].shifts && g.IsNonterminal(x) ==>
          FindReduceAction(t, i, x) == states[i].shifts[x])
    && (|states| > 0 ==> FindReduceAction(t, 0, g.start) == t.d.AcceptCode())
  }

  /** The tables take every action of the automaton. */
  ghost predicate TakesAll(g: Grammar, states: seq<State>, fws: map<Config, set<nat>>, t: ParserTables)
    requires FitsGrammar(g, states, t)
  {
    forall i, a :: 0 <= i < |states| && IsAction(g, states, fws, i, a) && g.IsTerminal(a.sp) ==>
      FindShiftAction(t, i, a.sp) == Code(t.d, a)
  }

  /** An explicit action on a terminal. */
  lemma ExplicitCellOk(g: Grammar, states: seq<State>, fws: map<Config, set<nat>>, i: nat, a: Action)
    requires g.Valid() && ShiftsOk(g, states) && TerminalsOnly(g, fws) && i < |states|
    requires StartRulesAtEnd(g, fws) && g.IsTerminal(a.sp) && IsAction(g, states, fws, i, a)
    ensures CellOk(g, states, i, a.sp, Code(Dims(g.nterminal, g.nsymbol, |states|, |g.rules|), a))
  {
    ActionSymbol(g, states, fws, i, a);
    if a.kind.Shift? { var it := ShiftSymbol(g, states, i, a); }
  }

  lemma WantedCellOk(g: Grammar, states: seq<State>, fws: map<Config, set<nat>>, i: nat, row: seq<Action>, x: nat, code: int)
    requires g.Valid() && ShiftsOk(g, states) && TerminalsOnly(g, fws) && i < |states| && FinalRow(g, states, fws, i, row)
    requires StartRulesAtEnd(g, fws) && g.IsTerminal(x)
    requires Wanted(Dims(g.nterminal, g.nsymbol, |states|, |g.rules|), row, x, code)
    ensures CellOk(g, states, i, x, code)
  {
    if exists a :: Explicit(row, a) && a.sp == x {
      var a :| Explicit(row, a) && a.sp == x;
      ExplicitCellOk(g, states, fws, i, a);
    } else {
      DefaultIs(Dims(g.nterminal, g.nsymbol, |states|, |g.rules|), row);
    }
  }

  lemma WantedNonterminal(g: Grammar, states: seq<State>, fws: map<Config, set<nat>>, i: nat, row: seq<Action>, a: Action, code: int)
    requires FinalRow(g, states, fws, i, row) && IsAction(g, states, fws, i, a) && g.IsNonterminal(a.sp)
    requires Wanted(Dims(g.nterminal, g.nsymbol, |states|, |g.rules|), row, a.sp, code)
    ensures code == Code(Dims(g.nterminal, g.nsymbol, |states|, |g.rules|), a)
  {
  }

  ghost predicate AllFinal(g: Grammar, states: seq<State>, fws: map<Config, set<nat>>, rows: seq<seq<Action>>) {
    |rows| == |states| && forall i :: 0 <= i < |rows| ==> FinalRow(g, states, fws, i, rows[i])
  }

  lemma TablesDrive(g: Grammar, states: seq<State>, fws: map<Config, set<nat>>, rows: seq<seq<Action>>, t: ParserTables)
    requires g.Valid() && ShiftsOk(g, states) && TerminalsOnly(g, fws) && AllFinal(g, states, fws, rows) && StartRulesAtEnd(g, fws)
    requires FitsGrammar(g, states, t) && TablesOk(t.d, rows, t)
    ensures Drives(g, states, t)
  {
    forall i, x | 0 <= i < |states| && 0 <= x < g.nterminal
      ensures CellOk(g, states, i, x, FindShiftAction(t, i, x))
    {
      WantedCellOk(g, states, fws, i, rows[i], x, FindShiftAction(t, i, x));
    }
    forall i, x | 0 <= i < |states| && x in states[i].shifts && g.IsNonterminal(x)
      ensures FindReduceAction(t, i, x) == states[i].shifts[x]
    {
      WantedNonterminal(g, states, fws, i, rows[i], Action(x, Shift, states[i].shifts[x]), FindReduceAction(t, i, x));
    }
    if |states| > 0 {
      WantedNonterminal(g, states, fws, 0, rows[0], Action(g.start, Accept, 0), FindReduceAction(t, 0, g.start));
    }
  }

  // ----- FindActions and CompressTables over all states -----

  ghost predicate AllRowsOk(g: Grammar, states: seq<State>, fws: map<Config, set<nat>>, rows: seq<seq<Action>>, clean: bool) {
    forall i :: 0 <= i < |rows| ==> OneRowOk(g, states, fws, i, rows[i], clean)
  }

  ghost predicate OneRowOk(g: Grammar, states: seq<State>, fws: map<Config, set<nat>>, i: nat, row: seq<Action>, clean: bool) {
    RowOk(g, states, fws, i, row) && (clean ==> forall a :: IsAction(g, states, fws, i, a) ==> Explicit(row, a))
  }

  /** How many actions of all rows were marked as conflicts. */
  ghost function TotalConflicts(rows: seq<seq<Action>>): nat {
    if rows == [] then 0 else TotalConflicts(rows[..|rows| - 1]) + |Conflicts(rows[|rows| - 1])|
  }

  /** Every row is what FindActions makes of its state. */
  ghost predicate AllFound(g: Grammar, states: seq<State>, fws: map<Config, set<nat>>, rows: seq<seq<Action>>) {
    forall i :: 0 <= i < |rows| ==> FoundFor(g, states, fws, i, rows[i], |Conflicts(rows[i])|)
  }

  lemma FoundAdded(g: Grammar, states: seq<State>, fws: map<Config, set<nat>>, rows: seq<seq<Action>>, row: seq<Action>, n: nat)
    requires AllFound(g, states, fws, rows) && FoundFor(g, states, fws, |rows|, row, n)
    ensures AllFound(g, states, fws, rows + [row]) && n == |Conflicts(row)|
  {
    FoundConflicts(g, states, fws, |rows|, row, n);
    forall i | 0 <= i <= |rows|
      ensures FoundFor(g, states, fws, i, (rows + [row])[i], |Conflicts((rows + [row])[i])|)
    {
      if i < |rows| { assert FoundFor(g, states, fws, i, rows[i], |Conflicts(rows[i])|); }
    }
  }

  lemma FoundConflicts(g: Grammar, states: seq<State>, fws: map<Config, set<nat>>, i: nat, row: seq<Action>, n: nat)
    requires FoundFor(g, states, fws, i, row, n)
    ensures n == |Conflicts(row)|
  {
  }

  lemma TotalOfMore(rows: seq<seq<Action>>, row: seq<Action>)
    ensures TotalConflicts(rows + [row]) == TotalConflicts(rows) + |Conflicts(row)|
  {
    assert (rows + [row])[..|rows|] == rows;
  }

  /** Every row is the scan of its state's contenders. */
  ghost predicate AllScans(g: Grammar, p: Precedences, states: seq<State>, fws: map<Config, set<nat>>, rows: seq<seq<Action>>) {
    |rows| <= |states| && forall i :: 0 <= i < |rows| ==> rows[i] == Scan(p, AllContenders(g, states, fws, i, g.nsymbol))
  }

  lemma ScansAdded(g: Grammar, p: Precedences, states: seq<State>, fws: map<Config, set<nat>>, rows: seq<seq<Action>>, row: seq<Action>)
    requires AllScans(g, p, states, fws, rows) && |rows| < |states| && row == Scan(p, AllContenders(g, states, fws, |rows|, g.nsymbol))
    ensures AllScans(g, p, states, fws, rows + [row])
  {
  }

  /** The rows so far. */
  ghost predicate RowsFound(g: Grammar, p: Precedences, states: seq<State>, fws: map<Config, set<nat>>, rows: seq<seq<Action>>, n: nat) {
    && AllRowsOk(g, states, fws, rows, Unranked(p) && n == 0) && AllFound(g, states, fws, rows) && n == TotalConflicts(rows)
    && AllScans(g, p, states, fws, rows) && n == AllUndecided(g, p, states, fws, |rows|)
  }

  lemma OneMoreFound(g: Grammar, p: Precedences, states: seq<State>, fws: map<Config, set<nat>>, rows: seq<seq<Action>>, n: nat,
                     row: seq<Action>, m: nat)
    requires RowsFound(g, p, states, fws, rows, n) && |rows| < |states|
    requires OneRowOk(g, states, fws, |rows|, row, Unranked(p) && m == 0) && FoundFor(g, states, fws, |rows|, row, m)
    requires row == Scan(p, AllContenders(g, states, fws, |rows|, g.nsymbol)) && m == UndecidedBelow(g, p, states, fws, |rows|, g.nsymbol)
    ensures RowsFound(g, p, states, fws, rows + [row], n + m)
  {
    RowAdded(g, states, fws, rows, Unranked(p) && n == 0, row, Unranked(p) && m == 0, Unranked(p) && n + m == 0);
    FoundAdded(g, states, fws, rows, row, m);
    TotalOfMore(rows, row);
    ScansAdded(g, p, states, fws, rows, row);
  }

  method FindActions(g: Grammar, ghost giving: Giving, p: Precedences, states: seq<State>, fws: map<Config, set<nat>>)
    returns (rows: seq<seq<Action>>, nconflict: nat)
    requires g.Valid() && g.StartIsolated() && AllOkStates(g, giving, states) && ShiftsOk(g, states)
    requires TerminalsOnly(g, fws) && forall c :: c in fws <==> IsConfig(states, c)
    ensures |rows| == |states| && AllRowsOk(g, states, fws, rows, Unranked(p) && nconflict == 0)
    ensures AllFound(g, states, fws, rows) && nconflict == TotalConflicts(rows)
    ensures AllScans(g, p, states, fws, rows) && nconflict == AllUndecided(g, p, states, fws, |states|)
  {
    rows, nconflict := [], 0;
    for i := 0 to |states|
      invariant |rows| == i && RowsFound(g, p, states, fws, rows, nconflict)
    {
      rows, nconflict := FindNextRow(g, giving, p, states, fws, rows, nconflict);
    }
  }

  method FindNextRow(g: Grammar, ghost giving: Giving, p: Precedences, states: seq<State>, fws: map<Config, set<nat>>,
                     rows: seq<seq<Action>>, nconflict: nat)
    returns (rows': seq<seq<Action>>, nconflict': nat)
    requires g.Valid() && g.StartIsolated() && AllOkStates(g, giving, states) && ShiftsOk(g, states)
    requires TerminalsOnly(g, fws) && forall c :: c in fws <==> IsConfig(states, c)
    requires RowsFound(g, p, states, fws, rows, nconflict) && |rows| < |states|
    ensures |rows'| == |rows| + 1 && RowsFound(g, p, states, fws, rows', nconflict')
  {
    var row, n := FindRow(g, giving, p, states, fws, |rows|);
    OneMoreFound(g, p, states, fws, rows, nconflict, row, n);
    rows', nconflict' := rows + [row], nconflict + n;
  }

  lemma RowAdded(g: Grammar, states: seq<State>, fws: map<Config, set<nat>>, rows: seq<seq<Action>>, clean: bool,
                 row: seq<Action>, cleanRow: bool, cleanAll: bool)
    requires AllRowsOk(g, states, fws, rows, clean) && OneRowOk(g, states, fws, |rows|, row, cleanRow)
    requires cleanAll ==> clean && cleanRow
    ensures AllRowsOk(g, states, fws, rows + [row], cleanAll)
  {
    forall i | 0 <= i < |rows|
      ensures OneRowOk(g, states, fws, i, rows[i], cleanAll)
    {
      assert OneRowOk(g, states, fws, i, rows[i], clean);
    }
  }

  method FindRow(g: Grammar, ghost giving: Giving, p: Precedences, states: seq<State>, fws: map<Config, set<nat>>, i: nat)
    returns (row: seq<Action>, nconflict: nat)
    requires g.Valid() && g.StartIsolated() && AllOkStates(g, giving, states) && ShiftsOk(g, states) && i < |states|
    requires TerminalsOnly(g, fws) && forall c :: c in fws <==> IsConfig(states, c)
    ensures OneRowOk(g, states, fws, i, row, Unranked(p) && nconflict == 0)
    ensures FoundFor(g, states, fws, i, row, nconflict)
    ensures row == Scan(p, AllContenders(g, states, fws, i, g.nsymbol)) && nconflict == UndecidedBelow(g, p, states, fws, i, g.nsymbol)
  {
    row, nconflict := FindStateActions(g, giving, p, states, fws, i);
    FoundRowOk(g, states, fws, i, row, nconflict);
    RowScanned(g, p, states, fws, i, row);
  }

  lemma RowScanned(g: Grammar, p: Precedences, states: seq<State>, fws: map<Config, set<nat>>, i: nat, row: seq<Action>)
    requires g.Valid() && ShiftsOk(g, states) && TerminalsOnly(g, fws) && i < |states| && ScannedFor(g, p, states, fws, i, row)
    ensures row == Scan(p, AllContenders(g, states, fws, i, g.nsymbol)) && |Conflicts(row)| == UndecidedBelow(g, p, states, fws, i, g.nsymbol)
  {
    forall a | IsAction(g, states, fws, i, a) ensures a.sp < g.nsymbol { ActionSymbol(g, states, fws, i, a); }
    SortedAreContenders(g, p, states, fws, i, row);
    ConflictsAreUndecided(g, p, states, fws, i, g.nsymbol, AllContenders(g, states, fws, i, g.nsymbol));
  }

  /** What compression keeps of a row. */
  ghost predicate Kept(g: Grammar, row: seq<Action>, row': seq<Action>) {
    forall x: nat, kind, arg :: x < g.nsymbol && Explicit(row, Action(x, kind, arg)) ==> Does(row', g.nsymbol, x, kind, arg)
  }

  ghost predicate AllCompressed(g: Grammar, rows: seq<seq<Action>>, rows': seq<seq<Action>>) {
    |rows| == |rows'| && forall i :: 0 <= i < |rows| ==> IsCompressed(rows[i], g.nsymbol, rows'[i])
  }

  method CompressTables(g: Grammar, states: seq<State>, fws: map<Config, set<nat>>, rows: seq<seq<Action>>, ghost clean: bool)
    returns (rows': seq<seq<Action>>)
    requires g.Valid() && ShiftsOk(g, states) && TerminalsOnly(g, fws) && StartRulesAtEnd(g, fws)
    requires |rows| == |states| && AllRowsOk(g, states, fws, rows, clean)
    ensures AllFinal(g, states, fws, rows') && forall i :: 0 <= i < |rows| ==> Kept(g, rows[i], rows'[i])
    ensures AllCompressed(g, rows, rows')
  {
    rows' := [];
    for i := 0 to |rows|
      invariant |rows'| == i && forall k :: 0 <= k < i ==> RowDone(g, states, fws, k, rows[k], rows'[k])
    {
      assert OneRowOk(g, states, fws, i, rows[i], clean);
      var row := CompressOne(g, states, fws, i, rows[i], clean);
      rows' := rows' + [row];
    }
    AllRowsDone(g, states, fws, rows, rows');
  }

  ghost predicate RowDone(g: Grammar, states: seq<State>, fws: map<Config, set<nat>>, i: nat, row: seq<Action>, row': seq<Action>) {
    FinalRow(g, states, fws, i, row') && Kept(g, row, row') && IsCompressed(row, g.nsymbol, row')
  }

  method CompressOne(g: Grammar, states: seq<State>, fws: map<Config, set<nat>>, i: nat, row: seq<Action>, ghost clean: bool)
    returns (row': seq<Action>)
    requires g.Valid() && ShiftsOk(g, states) && TerminalsOnly(g, fws) && StartRulesAtEnd(g, fws) && OneRowOk(g, states, fws, i, row, clean)
    ensures RowDone(g, states, fws, i, row, row')
  {
    row' := CompressRow(row, g.nsymbol);
    CompressedRow(g, states, fws, i, row, row');
  }

  lemma AllRowsDone(g: Grammar, states: seq<State>, fws: map<Config, set<nat>>, rows: seq<seq<Action>>, rows': seq<seq<Action>>)
    requires |rows| == |rows'| == |states| && forall k :: 0 <= k < |rows| ==> RowDone(g, states, fws, k, rows[k], rows'[k])
    ensures AllFinal(g, states, fws, rows') && (forall i :: 0 <= i < |rows| ==> Kept(g, rows[i], rows'[i])) && AllCompressed(g, rows, rows')
  {
    forall k | 0 <= k < |rows|
      ensures FinalRow(g, states, fws, k, rows'[k]) && Kept(g, rows[k], rows'[k]) && IsCompressed(rows[k], g.nsymbol, rows'[k])
    {
      assert RowDone(g, states, fws, k, rows[k], rows'[k]);
    }
  }

  /** Whatever is live in the row of a state is taken. */
  lemma TablesTakeLive(g: Grammar, states: seq<State>, fws: map<Config, set<nat>>, rows: seq<seq<Action>>, rows': seq<seq<Action>>,
                       t: ParserTables, i: nat, a: Action)
    requires |rows| == |states| && i < |states| && Explicit(rows[i], a) && g.Valid() && g.IsTerminal(a.sp)
    requires AllFinal(g, states, fws, rows') && Kept(g, rows[i], rows'[i]) && FitsGrammar(g, states, t) && TablesOk(t.d, rows', t)
    ensures FindShiftAction(t, i, a.sp) == Code(t.d, a)
  {
    assert a == Action(a.sp, a.kind, a.arg);
    assert Does(rows'[i], g.nsymbol, a.sp, a.kind, a.arg);
    DoesIsLookedUp(t.d, rows'[i], a.sp, a.kind, a.arg, FindShiftAction(t, i, a.sp));
  }

  lemma TablesTakeAll(g: Grammar, states: seq<State>, fws: map<Config, set<nat>>, rows: seq<seq<Action>>, rows': seq<seq<Action>>,
                      t: ParserTables)
    requires g.Valid() && ShiftsOk(g, states) && TerminalsOnly(g, fws)
    requires |rows| == |states| && AllRowsOk(g, states, fws, rows, true)
    requires AllFinal(g, states, fws, rows') && forall i :: 0 <= i < |rows| ==> Kept(g, rows[i], rows'[i])
    requires FitsGrammar(g, states, t) && TablesOk(t.d, rows', t)
    ensures TakesAll(g, states, fws, t)
  {
    forall i, a | 0 <= i < |states| && IsAction(g, states, fws, i, a) && g.IsTerminal(a.sp)
      ensures FindShiftAction(t, i, a.sp) == Code(t.d, a)
    {
      ActionSymbol(g, states, fws, i, a);
      assert OneRowOk(g, states, fws, i, rows[i], true) && Explicit(rows[i], a);
      TablesTakeLive(g, states, fws, rows, rows', t, i, a);
    }
  }

  // ----- What they take where there is no action -----

  /** The reduce that is folded, and the error action where none is. */
  ghost predicate IsDefaultCode(d: Dims, row: seq<Action>, code: int) {
    if exists r :: |ReducesBy(row, 0, r)| >= 2 then exists r :: IsTheDefault(row, r) && code == d.nstate + r else code == d.ErrorCode()
  }

  lemma DefaultLooksUp(d: Dims, row: seq<Action>, row': seq<Action>, x: nat, code: int)
    requires (forall a :: a in row ==> a.sp < d.nsymbol) && IsCompressed(row, d.nsymbol, row')
    requires (forall a :: Explicit(row', a) ==> a.sp != x) && Wanted(d, row', x, code)
    ensures IsDefaultCode(d, row, code)
  {
    DefaultIs(d, row');
    if exists r :: |ReducesBy(row, 0, r)| >= 2 {
      var r :| Folded(row, d.nsymbol, r, row') && IsTheDefault(row, r);
      FoldedDefault(d, row, row', r);
    }
  }

  lemma FoldedDefault(d: Dims, row: seq<Action>, row': seq<Action>, r: nat)
    requires (forall a :: a in row ==> a.sp < d.nsymbol) && Folded(row, d.nsymbol, r, row')
    ensures DefaultCode(d, row') == d.nstate + r
  {
    DefaultIs(d, row');
    assert Explicit(row', Action(d.nsymbol, Reduce, r));
  }

  /** On a terminal without actions: the default of the state's resolved actions. */
  ghost predicate TakesDefaults(g: Grammar, p: Precedences, states: seq<State>, fws: map<Config, set<nat>>, t: ParserTables)
    requires FitsGrammar(g, states, t)
  {
    forall i, x :: 0 <= i < |states| && 0 <= x < g.nterminal && Contenders(g, states, fws, i, x) == [] ==>
      IsDefaultCode(t.d, Scan(p, AllContenders(g, states, fws, i, g.nsymbol)), FindShiftAction(t, i, x))
  }

  lemma DefaultTaken(g: Grammar, states: seq<State>, fws: map<Config, set<nat>>, rows: seq<seq<Action>>, rows': seq<seq<Action>>,
                     t: ParserTables, clean: bool, i: nat, x: nat)
    requires g.Valid() && |rows| == |states| && i < |states| && g.IsTerminal(x) && Contenders(g, states, fws, i, x) == []
    requires OneRowOk(g, states, fws, i, rows[i], clean) && AllFinal(g, states, fws, rows') && IsCompressed(rows[i], g.nsymbol, rows'[i])
    requires FitsGrammar(g, states, t) && TablesOk(t.d, rows', t)
    ensures IsDefaultCode(t.d, rows[i], FindShiftAction(t, i, x))
  {
    ContendersAre(g, states, fws, i, x);
    assert FinalRow(g, states, fws, i, rows'[i]);
    forall a | Explicit(rows'[i], a) ensures a.sp != x {
      assert a.sp < g.nsymbol ==> IsAction(g, states, fws, i, a);
    }
    DefaultLooksUp(t.d, rows[i], rows'[i], x, FindShiftAction(t, i, x));
  }

  lemma TablesTakeDefaults(g: Grammar, p: Precedences, states: seq<State>, fws: map<Config, set<nat>>, rows: seq<seq<Action>>,
                           rows': seq<seq<Action>>, t: ParserTables, clean: bool)
    requires g.Valid() && |rows| == |states| && AllRowsOk(g, states, fws, rows, clean) && AllScans(g, p, states, fws, rows)
    requires AllFinal(g, states, fws, rows') && AllCompressed(g, rows, rows') && FitsGrammar(g, states, t) && TablesOk(t.d, rows', t)
    ensures TakesDefaults(g, p, states, fws, t)
  {
    forall i, x | 0 <= i < |states| && 0 <= x < g.nterminal && Contenders(g, states, fws, i, x) == []
      ensures IsDefaultCode(t.d, Scan(p, AllContenders(g, states, fws, i, g.nsymbol)), FindShiftAction(t, i, x))
    {
      DefaultTaken(g, states, fws, rows, rows', t, clean, i, x);
    }
  }

  // ----- What they take among several actions -----

  /** On every symbol with an action the tables take the winner of its contenders. */
  ghost predicate TakesWinners(g: Grammar, p: Precedences, states: seq<State>, fws: map<Config, set<nat>>, t: ParserTables)
    requires FitsGrammar(g, states, t)
  {
    forall i, x :: 0 <= i < |states| && 0 <= x < g.nterminal && Contenders(g, states, fws, i, x) != [] ==>
      FindShiftAction(t, i, x) == Code(t.d, Winner(p, Contenders(g, states, fws, i, x)))
  }

  lemma WinnerTaken(g: Grammar, p: Precedences, states: seq<State>, fws: map<Config, set<nat>>, rows: seq<seq<Action>>,
                    rows': seq<seq<Action>>, t: ParserTables, i: nat, x: nat)
    requires g.Valid() && |rows| == |states| && AllScans(g, p, states, fws, rows) && i < |states| && g.IsTerminal(x)
    requires AllFinal(g, states, fws, rows') && Kept(g, rows[i], rows'[i]) && FitsGrammar(g, states, t) && TablesOk(t.d, rows', t)
    requires Contenders(g, states, fws, i, x) != []
    ensures FindShiftAction(t, i, x) == Code(t.d, Winner(p, Contenders(g, states, fws, i, x)))
  {
    var c := Contenders(g, states, fws, i, x);
    var k := WinnersAreLive(g, p, states, fws, i, g.nsymbol, x, AllContenders(g, states, fws, i, g.nsymbol), c);
    WinnerContends(g, p, states, fws, i, x);
    TablesTakeLive(g, states, fws, rows, rows', t, i, Winner(p, c));
  }

  lemma WinnerContends(g: Grammar, p: Precedences, states: seq<State>, fws: map<Config, set<nat>>, i: nat, x: nat)
    requires i < |states| && Contenders(g, states, fws, i, x) != []
    ensures var w := Winner(p, Contenders(g, states, fws, i, x)); IsAction(g, states, fws, i, w) && w.sp == x && Live(w)
  {
    ContendersAre(g, states, fws, i, x);
    WinnerIsOne(p, Contenders(g, states, fws, i, x));
  }

  lemma {:induction false} WinnerIsOne(p: Precedences, s: seq<Action>)
    requires s != []
    ensures exists k :: 0 <= k < |s| && s[k] == Winner(p, s)
    decreases |s|
  {
    var n := |s| - 1;
    if n == 0 {
      assert s[0] == Winner(p, s);
    } else {
      WinnerIsOne(p, s[..n]);
      var k :| 0 <= k < n && s[..n][k] == Winner(p, s[..n]);
      assert s[k] == s[..n][k];
    }
  }

  lemma TablesTakeWinners(g: Grammar, p: Precedences, states: seq<State>, fws: map<Config, set<nat>>, rows: seq<seq<Action>>,
                          rows': seq<seq<Action>>, t: ParserTables)
    requires g.Valid() && |rows| == |states| && AllScans(g, p, states, fws, rows)
    requires AllFinal(g, states, fws, rows') && forall i :: 0 <= i < |rows| ==> Kept(g, rows[i], rows'[i])
    requires FitsGrammar(g, states, t) && TablesOk(t.d, rows', t)
    ensures TakesWinners(g, p, states, fws, t)
  {
    forall i, x | 0 <= i < |states| && 0 <= x < g.nterminal && Contenders(g, states, fws, i, x) != []
      ensures FindShiftAction(t, i, x) == Code(t.d, Winner(p, Contenders(g, states, fws, i, x)))
    {
      WinnerTaken(g, p, states, fws, rows, rows', t, i, x);
    }
  }

  /** The same for one action and for two, told by the precedences themselves: a single action
      is taken whatever they are; a shift and a reduce, and two reduces, are decided by them, and
      without a decision the shift or the earlier rule is taken and a conflict counted. */
  ghost predicate TakesByPrecedence(g: Grammar, p: Precedences, states: seq<State>, fws: map<Config, set<nat>>, t: ParserTables)
    requires FitsGrammar(g, states, t)
  {
    && (forall i, a: Action :: 0 <= i < |states| && g.IsTerminal(a.sp) && OnlyThese(g, states, fws, i, a, a) ==>
          FindShiftAction(t, i, a.sp) == Code(t.d, a))
    && (forall i, x: nat, q: nat, r: nat :: 0 <= i < |states| && g.IsTerminal(x) && ShiftAndReduce(g, states, fws, i, x, q, r) ==>
          FindShiftAction(t, i, x) == if ShiftOrReduce(p, x, r).Second? then |states| + r else q)
    && (forall i, x: nat, q: nat, r: nat :: 0 <= i < |states| && g.IsTerminal(x) && q < r && TwoReduces(g, states, fws, i, x, q, r) ==>
          FindShiftAction(t, i, x) == |states| + if ReduceOrReduce(p, q, r).Second? then r else q)
  }

  lemma WinnersByPrecedence(g: Grammar, p: Precedences, states: seq<State>, fws: map<Config, set<nat>>, t: ParserTables)
    requires FitsGrammar(g, states, t) && TakesWinners(g, p, states, fws, t)
    ensures TakesByPrecedence(g, p, states, fws, t)
  {
    forall i, a: Action | 0 <= i < |states| && g.IsTerminal(a.sp) && OnlyThese(g, states, fws, i, a, a)
      ensures FindShiftAction(t, i, a.sp) == Code(t.d, a)
    {
      OneContender(g, states, fws, i, a);
      WinnerOfTwo(p, a, a);
    }
    forall i, x: nat, q: nat, r: nat | 0 <= i < |states| && g.IsTerminal(x) && ShiftAndReduce(g, states, fws, i, x, q, r)
      ensures FindShiftAction(t, i, x) == if ShiftOrReduce(p, x, r).Second? then |states| + r else q
    {
      TwoContenders(g, states, fws, i, Action(x, Shift, q), Action(x, Reduce, r));
      ShiftAgainstReduce(p, x, q, r);
    }
    forall i, x: nat, q: nat, r: nat | 0 <= i < |states| && g.IsTerminal(x) && q < r && TwoReduces(g, states, fws, i, x, q, r)
      ensures FindShiftAction(t, i, x) == |states| + if ReduceOrReduce(p, q, r).Second? then r else q
    {
      TwoContenders(g, states, fws, i, Action(x, Reduce, q), Action(x, Reduce, r));
      ReduceAgainstReduce(p, x, q, r);
    }
  }

  /** What a shift and a reduce, or two reduces, add to the conflicts reported. */
  lemma ConflictsByPrecedence(g: Grammar, p: Precedences, states: seq<State>, fws: map<Config, set<nat>>, i: nat, x: nat, q: nat, r: nat)
    requires i < |states|
    ensures ShiftAndReduce(g, states, fws, i, x, q, r) ==>
              Undecided(p, Contenders(g, states, fws, i, x)) == if ShiftOrReduce(p, x, r).Unclear? then 1 else 0
    ensures q < r && TwoReduces(g, states, fws, i, x, q, r) ==>
              Undecided(p, Contenders(g, states, fws, i, x)) == if ReduceOrReduce(p, q, r).Unclear? then 1 else 0
  {
    if ShiftAndReduce(g, states, fws, i, x, q, r) {
      TwoContenders(g, states, fws, i, Action(x, Shift, q), Action(x, Reduce, r));
      ShiftAgainstReduce(p, x, q, r);
    }
    if q < r && TwoReduces(g, states, fws, i, x, q, r) {
      TwoContenders(g, states, fws, i, Action(x, Reduce, q), Action(x, Reduce, r));
      ReduceAgainstReduce(p, x, q, r);
    }
  }

  lemma DoesIsLookedUp(d: Dims, row: seq<Action>, x: nat, kind: Kind, arg: nat, code: int)
    requires OneLiveEach(row) && (forall a :: Explicit(row, a) ==> a.sp <= d.nsymbol) && x < d.nsymbol
    requires Does(row, d.nsymbol, x, kind, arg) && Wanted(d, row, x, code)
    ensures code == Code(d, Action(x, kind, arg))
  {
    if !Explicit(row, Action(x, kind, arg)) {
      var b := Action(d.nsymbol, kind, arg);
      DefaultIs(d, row);
      OneLiveByCount(row);
      assert Code(d, b) == Code(d, Action(x, kind, arg));
    }
  }

  // ----- The whole generator -----

  /** Larger sets first. */
  function CompareSets(d: Dims, rows: seq<seq<Action>>): (AxSet, AxSet) -> int {
    (a: AxSet, b: AxSet) => (if b.stp < |rows| then Size(d, rows, b) else 0) - (if a.stp < |rows| then Size(d, rows, a) else 0)
  }

  method SortSets(d: Dims, rows: seq<seq<Action>>) returns (order: seq<AxSet>)
    ensures SortedSets(d, rows, order)
  {
    var list := seq(2 * |rows|, k requires 0 <= k < 2 * |rows| => AxSet(k / 2, k % 2 == 0));
    order := MergeSort.StableSort(CompareSets(d, rows), list);
    SortedSetsOk(d, rows, list, order);
  }

  lemma SortedSetsOk(d: Dims, rows: seq<seq<Action>>, list: seq<AxSet>, order: seq<AxSet>)
    requires |list| == 2 * |rows| && forall k :: 0 <= k < |list| ==> list[k] == AxSet(k / 2, k % 2 == 0)
    requires order == MergeSort.StableSort(CompareSets(d, rows), list)
    ensures SortedSets(d, rows, order)
  {
    MergeSort.StableSortPermutes(CompareSets(d, rows), list);
    MergeSort.PermutedNoRepeats(list, order);
    SameSets(list, order, |rows|);
    forall i, b | 0 <= i < |rows|
      ensures exists k :: 0 <= k < |order| && order[k] == AxSet(i, b)
    {
      assert AxSet(i, b) in order;
    }
    LargerFirst(d, rows, list, order);
  }

  lemma SameSets(list: seq<AxSet>, order: seq<AxSet>, n: nat)
    requires |list| == 2 * n && forall k :: 0 <= k < |list| ==> list[k] == AxSet(k / 2, k % 2 == 0)
    requires multiset(order) == multiset(list)
    ensures forall ax :: ax in order <==> ax.stp < n
    ensures forall k :: 0 <= k < |order| ==> order[k].stp < n
  {
    forall ax ensures ax in order <==> ax.stp < n {
      assert ax in order <==> ax in multiset(order);
      assert ax in multiset(list) <==> ax in list;
      if ax.stp < n { assert list[2 * ax.stp + if ax.isTkn then 0 else 1] == ax; }
    }
    forall k | 0 <= k < |order| ensures order[k].stp < n { assert order[k] in order; }
  }

  lemma LargerFirst(d: Dims, rows: seq<seq<Action>>, list: seq<AxSet>, order: seq<AxSet>)
    requires order == MergeSort.StableSort(CompareSets(d, rows), list) && forall k :: 0 <= k < |order| ==> order[k].stp < |rows|
    ensures forall k, l :: 0 <= k < l < |order| ==> Size(d, rows, order[k]) >= Size(d, rows, order[l])
  {
    MergeSort.StableSortSorted(CompareSets(d, rows), list);
    forall k, l | 0 <= k < l < |order|
      ensures Size(d, rows, order[k]) >= Size(d, rows, order[l])
    {
      assert !MergeSort.Less(CompareSets(d, rows), order[l], order[k]);
    }
  }

  /** yyRuleInfo: the length is kept in one byte. */
  function RuleInfo(g: Grammar): (r: seq<(nat, nat)>)
    ensures |r| == |g.rules| && forall k :: 0 <= k < |r| ==> r[k] == (g.rules[k].lhs, |g.rules[k].rhs| % 256)
  {
    seq(|g.rules|, k requires 0 <= k < |g.rules| => (g.rules[k].lhs, |g.rules[k].rhs| % 256))
  }

  ghost predicate ShortRules(g: Grammar) { forall r :: 0 <= r < |g.rules| ==> |g.rules[r].rhs| <= 255 }

  /** Everything the generator leaves behind. */
  ghost predicate Generated(g: Grammar, giving: Giving, states: seq<State>, edges: set<Edge>, fws: map<Config, set<nat>>, t: ParserTables) {
    && IsAutomaton(g, giving, states, edges) && LookaheadsOk(states, edges, fws) && TerminalsOnly(g, fws) && Drives(g, states, t)
  }

  /** The generator: the tables drive the LR(0) automaton of the grammar; where the lookaheads
      allow several actions they take the winner, as the precedences decide, and what they leave
      undecided is reported; without precedences and conflicts they take every action. */
  method Generate(g: Grammar, p: Precedences)
    returns (a: Analysis, states: seq<State>, edges: set<Edge>, fws: map<Config, set<nat>>, t: ParserTables, nconflict: nat)
    requires g.Valid() && g.StartIsolated() && ShortRules(g)
    ensures a.Valid() && a.g == g && LambdaExact(g, a.lambda) && FirstExact(g, a.first)
    ensures Generated(g, a.Behind(), states, edges, fws, t) && LalrExact(g, states, fws)
    ensures Unranked(p) && nconflict == 0 ==> TakesAll(g, states, fws, t)
    ensures TakesWinners(g, p, states, fws, t) && TakesByPrecedence(g, p, states, fws, t) && TakesDefaults(g, p, states, fws, t)
    ensures nconflict == AllUndecided(g, p, states, fws, |states|)
  {
    var lambda, first := FindFirstSets(g);
    a := Analysis(g, lambda, first);
    TerminalsNotLambda(g, lambda);
    var lemp := new Lr0.Lemon(a);
    lemp.FindStates();
    states, edges := lemp.states, lemp.edges;
    fws := ComputeLookaheads(a, states, edges);
    AllLookaheadsExactly(a, states, edges, fws);
    var rows;
    rows, nconflict := FindActions(g, a.Behind(), p, states, fws);
    EndOnly(g, a.Behind(), states, edges, fws);
    var rows' := CompressTables(g, states, fws, rows, Unranked(p) && nconflict == 0);
    t := WriteTables(g, states, fws, rows');
    if Unranked(p) && nconflict == 0 {
      TablesTakeAll(g, states, fws, rows, rows', t);
    }
    TablesTakeWinners(g, p, states, fws, rows, rows', t);
    WinnersByPrecedence(g, p, states, fws, t);
    TablesTakeDefaults(g, p, states, fws, rows, rows', t, Unranked(p) && nconflict == 0);
  }

  lemma TerminalsNotLambda(g: Grammar, lambda: seq<bool>)
    requires g.Valid() && LambdaExact(g, lambda)
    ensures forall x :: 0 <= x < g.nterminal && x < |lambda| ==> !lambda[x]
  {
    forall x | 0 <= x < g.nterminal && x < |lambda|
      ensures !Nullable(g, x)
    {
      forall t | ValidTree(g, t) && Root(g, t) == x
        ensures Yield(t) == [x]
      {
      }
    }
  }

  lemma EndOnly(g: Grammar, giving: Giving, states: seq<State>, edges: set<Edge>, fws: map<Config, set<nat>>)
    requires g.StartIsolated() && IsAutomaton(g, giving, states, edges) && LookaheadsOk(states, edges, fws)
    ensures StartRulesAtEnd(g, fws)
  {
    forall c | c in fws && OfStartRule(g, c.item)
      ensures fws[c] <= {0}
    {
      StartRuleLookaheads(g, giving, states, edges, fws, c);
    }
  }

  method WriteTables(g: Grammar, ghost states: seq<State>, ghost fws: map<Config, set<nat>>, rows: seq<seq<Action>>)
    returns (t: ParserTables)
    requires g.Valid() && ShortRules(g) && ShiftsOk(g, states) && TerminalsOnly(g, fws) && StartRulesAtEnd(g, fws)
    requires AllFinal(g, states, fws, rows)
    ensures Drives(g, states, t) && TablesOk(t.d, rows, t)
  {
    var d := Dims(g.nterminal, g.nsymbol, |rows|, |g.rules|);
    forall i | 0 <= i < |rows| ensures OneLiveEach(rows[i]) { assert FinalRow(g, states, fws, i, rows[i]); }
    var order := SortSets(d, rows);
    t := ReportTables(d, rows, order, RuleInfo(g));
    TablesDrive(g, states, fws, rows, t);
  }
}
