/** The table part of ReportTable, and the two lookups of the generated parser. */
module Tables {
  import opened Actions
  import opened Compression
  import AT = ActionTable

  /** How many terminals, symbols, states and rules there are. */
  datatype Dims = Dims(nterminal: nat, nsymbol: nat, nstate: nat, nrule: nat) {
    function ErrorCode(): nat { nstate + nrule }
    function AcceptCode(): nat { nstate + nrule + 1 }
  }

  /** compute_action; negative for an action that is out of use. */
  function Code(d: Dims, a: Action): int {
    match a.kind
    case Shift => a.arg
    case Reduce => a.arg + d.nstate
    case Error => d.ErrorCode()
    case Accept => d.AcceptCode()
    case _ => -1
  }

  predicate InRow(d: Dims, isTkn: bool, a: Action) {
    Live(a) && if isTkn then a.sp < d.nterminal else d.nterminal <= a.sp < d.nsymbol
  }

  /** The entries of one of a state's two rows. */
  function Entries(d: Dims, isTkn: bool, row: seq<Action>): (es: seq<AT.Slot>)
    ensures |es| <= |row|
  {
    if row == [] then []
    else
      var es := Entries(d, isTkn, row[..|row| - 1]);
      var a := row[|row| - 1];
      if InRow(d, isTkn, a) then es + [AT.Slot(a.sp, Code(d, a))] else es
  }

  lemma {:induction false} EntriesFrom(d: Dims, isTkn: bool, row: seq<Action>, j: nat) returns (k: nat)
    requires j < |Entries(d, isTkn, row)|
    ensures k < |row| && InRow(d, isTkn, row[k]) && Entries(d, isTkn, row)[j] == AT.Slot(row[k].sp, Code(d, row[k]))
  {
    var last := row[|row| - 1];
    var es := Entries(d, isTkn, row[..|row| - 1]);
    if j < |es| {
      k := EntriesFrom(d, isTkn, row[..|row| - 1], j);
    } else {
      k := |row| - 1;
    }
  }

  lemma {:induction false} EntriesHave(d: Dims, isTkn: bool, row: seq<Action>, k: nat) returns (j: nat)
    requires k < |row| && InRow(d, isTkn, row[k])
    ensures j < |Entries(d, isTkn, row)| && Entries(d, isTkn, row)[j] == AT.Slot(row[k].sp, Code(d, row[k]))
  {
    var es := Entries(d, isTkn, row[..|row| - 1]);
    if k < |row| - 1 {
      j := EntriesHave(d, isTkn, row[..|row| - 1], k);
    } else {
      j := |es|;
    }
  }

  lemma {:induction false} EntriesDistinct(d: Dims, isTkn: bool, row: seq<Action>)
    requires OneLiveEach(row)
    ensures AT.Distinct(Entries(d, isTkn, row))
  {
    if row != [] {
      var front, a := row[..|row| - 1], row[|row| - 1];
      EntriesDistinct(d, isTkn, front);
      if InRow(d, isTkn, a) {
        forall j | 0 <= j < |Entries(d, isTkn, front)|
          ensures Entries(d, isTkn, front)[j].lookahead != a.sp
        {
          var k := EntriesFrom(d, isTkn, front, j);
          assert front[k] == row[k];
        }
      }
    }
  }

  // ----- Packing the rows -----

  /** One round: acttab_action for every entry of the row, then acttab_insert. */
  method PlaceRow(tab: AT.Acttab, d: Dims, isTkn: bool, row: seq<Action>) returns (offset: int)
    requires tab.Valid() && tab.Row() == [] && Entries(d, isTkn, row) != []
    modifies tab, tab.aAction, tab.aLookahead
    ensures tab.Valid() && tab.Row() == []
    ensures tab.aAction == old(tab.aAction) || fresh(tab.aAction)
    ensures tab.aLookahead == old(tab.aLookahead) || fresh(tab.aLookahead)
    ensures tab.rounds == old(tab.rounds) + [AT.Round(Entries(d, isTkn, row), offset)]
  {
    for k := 0 to |row|
      invariant tab.Valid() && tab.Row() == Entries(d, isTkn, row[..k])
      invariant tab.aAction == old(tab.aAction)
      invariant tab.aLookahead == old(tab.aLookahead) || fresh(tab.aLookahead)
      invariant tab.rounds == old(tab.rounds)
    {
      assert row[..k + 1][..k] == row[..k];
      if InRow(d, isTkn, row[k]) { tab.Action(row[k].sp, Code(d, row[k])); }
    }
    assert row[..|row|] == row;
    offset := tab.Insert();
  }

  /** One of the two action sets of a state, with its size. */
  datatype AxSet = AxSet(stp: nat, isTkn: bool)

  function Size(d: Dims, rows: seq<seq<Action>>, ax: AxSet): nat
    requires ax.stp < |rows|
  {
    |Entries(d, ax.isTkn, rows[ax.stp])|
  }

  /** The order the C library's qsort may leave: every set once, larger ones first. */
  ghost predicate SortedSets(d: Dims, rows: seq<seq<Action>>, order: seq<AxSet>) {
    && (forall k :: 0 <= k < |order| ==> order[k].stp < |rows|)
    && (forall i, b :: 0 <= i < |rows| ==> exists k :: 0 <= k < |order| && order[k] == AxSet(i, b))
    && (forall k, l :: 0 <= k < l < |order| ==> order[k] != order[l] && Size(d, rows, order[k]) >= Size(d, rows, order[l]))
  }

  /** Offsets by state and kind of row. */
  type Offsets = map<AxSet, int>

  ghost predicate OffsetsOk(d: Dims, rows: seq<seq<Action>>, order: seq<AxSet>, c: nat, offsets: Offsets, rounds: seq<AT.Round>)
    requires c <= |order| && forall k :: 0 <= k < |order| ==> order[k].stp < |rows|
  {
    && (forall ax :: ax in offsets <==> ax in order[..c])
    && (forall ax :: ax in offsets ==>
          ax.stp < |rows| && AT.Round(Entries(d, ax.isTkn, rows[ax.stp]), offsets[ax]) in rounds)
  }

  /** The rows of all states with their offsets read back; a state without actions of a
      kind has no offset for it. */
  ghost predicate Packed(d: Dims, rows: seq<seq<Action>>, table: seq<AT.Slot>, offsets: Offsets, ax: AxSet)
    requires ax.stp < |rows|
  {
    if ax in offsets then
      Entries(d, ax.isTkn, rows[ax.stp]) != [] && AT.ReadsBack(table, AT.Round(Entries(d, ax.isTkn, rows[ax.stp]), offsets[ax]))
    else
      Entries(d, ax.isTkn, rows[ax.stp]) == []
  }

  /** The placing loop: it stops at the first set without actions. */
  method PackRows(d: Dims, rows: seq<seq<Action>>, order: seq<AxSet>) returns (table: seq<AT.Slot>, offsets: Offsets)
    requires SortedSets(d, rows, order) && forall i :: 0 <= i < |rows| ==> OneLiveEach(rows[i])
    ensures forall ax: AxSet :: ax.stp < |rows| ==> Packed(d, rows, table, offsets, ax)
  {
    var tab := new AT.Acttab();
    offsets := map[];
    var c := 0;
    while c < |order| && Size(d, rows, order[c]) > 0
      invariant c <= |order| && fresh(tab) && fresh(tab.aAction) && fresh(tab.aLookahead)
      invariant tab.Valid() && tab.Row() == []
      invariant Placing(d, rows, order, c, offsets, tab.rounds)
    {
      offsets := PlaceNext(tab, d, rows, order, c, offsets);
      c := c + 1;
    }
    table := tab.aAction[..tab.nAction];
    forall ax: AxSet | ax.stp < |rows|
      ensures Packed(d, rows, table, offsets, ax)
    {
      AllPacked(d, rows, order, c, offsets, table, tab.rounds, ax);
    }
  }

  ghost predicate Placing(d: Dims, rows: seq<seq<Action>>, order: seq<AxSet>, c: nat, offsets: Offsets, rounds: seq<AT.Round>) {
    && c <= |order| && (forall k :: 0 <= k < |order| ==> order[k].stp < |rows|)
    && OffsetsOk(d, rows, order, c, offsets, rounds)
    && forall k :: 0 <= k < c ==> Size(d, rows, order[k]) > 0
  }

  method PlaceNext(tab: AT.Acttab, d: Dims, rows: seq<seq<Action>>, order: seq<AxSet>, c: nat, offsets: Offsets)
    returns (offsets': Offsets)
    requires tab.Valid() && tab.Row() == [] && SortedSets(d, rows, order)
    requires c < |order| && Size(d, rows, order[c]) > 0 && Placing(d, rows, order, c, offsets, tab.rounds)
    modifies tab, tab.aAction, tab.aLookahead
    ensures tab.Valid() && tab.Row() == []
    ensures tab.aAction == old(tab.aAction) || fresh(tab.aAction)
    ensures tab.aLookahead == old(tab.aLookahead) || fresh(tab.aLookahead)
    ensures Placing(d, rows, order, c + 1, offsets', tab.rounds)
  {
    ghost var rounds := tab.rounds;
    var offset := PlaceRow(tab, d, order[c].isTkn, rows[order[c].stp]);
    OffsetsGrow(d, rows, order, c, offsets, rounds, offset);
    offsets' := offsets[order[c] := offset];
  }

  lemma OffsetsGrow(d: Dims, rows: seq<seq<Action>>, order: seq<AxSet>, c: nat, offsets: Offsets, rounds: seq<AT.Round>, offset: int)
    requires c < |order| && SortedSets(d, rows, order) && OffsetsOk(d, rows, order, c, offsets, rounds)
    ensures OffsetsOk(d, rows, order, c + 1, offsets[order[c] := offset],
                      rounds + [AT.Round(Entries(d, order[c].isTkn, rows[order[c].stp]), offset)])
  {
    assert order[..c + 1] == order[..c] + [order[c]];
  }

  lemma AllPacked(d: Dims, rows: seq<seq<Action>>, order: seq<AxSet>, c: nat, offsets: Offsets, table: seq<AT.Slot>,
                  rounds: seq<AT.Round>, ax: AxSet)
    requires SortedSets(d, rows, order) && Placing(d, rows, order, c, offsets, rounds)
    requires c < |order| ==> Size(d, rows, order[c]) == 0
    requires AT.HistoryHolds(table, rounds) && ax.stp < |rows| && OneLiveEach(rows[ax.stp])
    ensures Packed(d, rows, table, offsets, ax)
  {
    EntriesDistinct(d, ax.isTkn, rows[ax.stp]);
    assert exists k :: 0 <= k < |order| && order[k] == AxSet(ax.stp, ax.isTkn);
    var k :| 0 <= k < |order| && order[k] == ax;
    if k < c {
      assert order[..c][k] == ax;
    } else {
      assert Size(d, rows, order[k]) <= Size(d, rows, order[c]);
      forall l | 0 <= l < c
        ensures order[l] != ax
      {
        assert Size(d, rows, order[l]) > 0;
      }
    }
  }

  // ----- The written tables and the lookups -----

  /** The constant tables of the generated parser; rules holds the left-hand side and the
      length of each rule. */
  datatype ParserTables = ParserTables(d: Dims, action: seq<int>, lookahead: seq<int>, shiftOfst: seq<int>, shiftUseDflt: int,
                                       reduceOfst: seq<int>, reduceUseDflt: int, dflt: seq<int>, rules: seq<(nat, nat)>)

  /** Common to both lookups: the slot at the state's offset, if it carries the lookahead. */
  function Look(t: ParserTables, ofst: int, x: nat, dflt: int): int
    requires |t.lookahead| == |t.action|
  {
    if ofst + x < 0 || ofst + x >= |t.action| || t.lookahead[ofst + x] != x then dflt else t.action[ofst + x]
  }

  /** yy_find_shift_action for a token. */
  function FindShiftAction(t: ParserTables, stateno: nat, x: nat): int
    requires stateno < |t.shiftOfst| == |t.dflt| && |t.lookahead| == |t.action|
  {
    if t.shiftOfst[stateno] == t.shiftUseDflt then t.dflt[stateno] else Look(t, t.shiftOfst[stateno], x, t.dflt[stateno])
  }

  /** yy_find_reduce_action for a nonterminal. */
  function FindReduceAction(t: ParserTables, stateno: nat, x: nat): int
    requires stateno < |t.reduceOfst| == |t.dflt| && |t.lookahead| == |t.action|
  {
    if t.reduceOfst[stateno] == t.reduceUseDflt then t.dflt[stateno] else Look(t, t.reduceOfst[stateno], x, t.dflt[stateno])
  }

  /** The default action of a row: the error action unless there is a live one on the
      default symbol. */
  function DefaultCode(d: Dims, row: seq<Action>): int {
    if row == [] then d.ErrorCode()
    else if Live(row[|row| - 1]) && row[|row| - 1].sp >= d.nsymbol then Code(d, row[|row| - 1])
    else DefaultCode(d, row[..|row| - 1])
  }

  lemma {:induction false} DefaultIs(d: Dims, row: seq<Action>)
    ensures (exists a :: Explicit(row, a) && a.sp >= d.nsymbol && DefaultCode(d, row) == Code(d, a)) ||
            ((forall a :: Explicit(row, a) ==> a.sp < d.nsymbol) && DefaultCode(d, row) == d.ErrorCode())
  {
    if row != [] {
      var front, a := row[..|row| - 1], row[|row| - 1];
      assert row == front + [a];
      if Live(a) && a.sp >= d.nsymbol {
        assert Explicit(row, a);
      } else {
        DefaultIs(d, front);
        forall b ensures Explicit(row, b) <==> Explicit(front, b) || (b == a && Live(a)) {}
      }
    }
  }

  /** The lookup result that a row asks for on x. */
  ghost predicate Wanted(d: Dims, row: seq<Action>, x: nat, code: int) {
    && (forall a :: Explicit(row, a) && a.sp == x ==> code == Code(d, a))
    && ((forall a :: Explicit(row, a) ==> a.sp != x) ==> code == DefaultCode(d, row))
  }

  /** Both lookups give what the rows ask for: on terminals and on nonterminals. */
  ghost predicate TablesOk(d: Dims, rows: seq<seq<Action>>, t: ParserTables) {
    && t.d == d && |rows| == d.nstate == |t.shiftOfst| == |t.reduceOfst| == |t.dflt| && |t.lookahead| == |t.action|
    && (forall i, x :: 0 <= i < d.nstate && 0 <= x < d.nterminal ==> Wanted(d, rows[i], x, FindShiftAction(t, i, x)))
    && (forall i, x :: 0 <= i < d.nstate && d.nterminal <= x < d.nsymbol ==> Wanted(d, rows[i], x, FindReduceAction(t, i, x)))
  }

  /** The smallest offset, or zero: one less stands for "use the default". */
  method LeastOffset(n: nat, isTkn: bool, offsets: Offsets) returns (mn: int)
    ensures mn <= 0 && forall i :: 0 <= i < n && AxSet(i, isTkn) in offsets ==> mn <= offsets[AxSet(i, isTkn)]
  {
    mn := 0;
    for k := 0 to n
      invariant mn <= 0 && forall i :: 0 <= i < k && AxSet(i, isTkn) in offsets ==> mn <= offsets[AxSet(i, isTkn)]
    {
      if AxSet(k, isTkn) in offsets && offsets[AxSet(k, isTkn)] < mn { mn := offsets[AxSet(k, isTkn)]; }
    }
  }

  function OffsetList(n: nat, isTkn: bool, offsets: Offsets, none: int): (r: seq<int>)
    ensures |r| == n && forall i :: 0 <= i < n ==> r[i] == if AxSet(i, isTkn) in offsets then offsets[AxSet(i, isTkn)] else none
  {
    seq(n, i requires 0 <= i < n => if AxSet(i, isTkn) in offsets then offsets[AxSet(i, isTkn)] else none)
  }

  /** Unused slots are written as a lookahead and an action that no lookup asks for. */
  function ActionColumn(d: Dims, table: seq<AT.Slot>): (r: seq<int>)
    ensures |r| == |table| && forall k :: 0 <= k < |table| ==>
              r[k] == if table[k].action < 0 then d.nsymbol + d.nrule + 2 else table[k].action
  {
    seq(|table|, k requires 0 <= k < |table| => if table[k].action < 0 then d.nsymbol + d.nrule + 2 else table[k].action)
  }

  function LookaheadColumn(d: Dims, table: seq<AT.Slot>): (r: seq<int>)
    ensures |r| == |table| && forall k :: 0 <= k < |table| ==>
              r[k] == if table[k].lookahead < 0 then d.nsymbol else table[k].lookahead
  {
    seq(|table|, k requires 0 <= k < |table| => if table[k].lookahead < 0 then d.nsymbol else table[k].lookahead)
  }

  /** The written columns answer a lookup as the table itself would. */
  lemma LookIsHit(d: Dims, table: seq<AT.Slot>, t: ParserTables, o: int, x: nat, dflt: int)
    requires t.action == ActionColumn(d, table) && t.lookahead == LookaheadColumn(d, table) && x < d.nsymbol
    ensures AT.Hit(table, o, x) && table[o + x].action >= 0 ==> Look(t, o, x, dflt) == table[o + x].action
    ensures !AT.Hit(table, o, x) ==> Look(t, o, x, dflt) == dflt
  {
  }

  /** A lookup by offset finds the row's live action on x, or nothing if it has none. */
  lemma PackedLooksUp(d: Dims, rows: seq<seq<Action>>, table: seq<AT.Slot>, offsets: Offsets, ax: AxSet, t: ParserTables, x: nat)
    requires ax.stp < |rows| && ax in offsets && Packed(d, rows, table, offsets, ax)
    requires t.action == ActionColumn(d, table) && t.lookahead == LookaheadColumn(d, table) && x < d.nsymbol
    requires if ax.isTkn then x < d.nterminal else d.nterminal <= x
    ensures Wanted(d, rows[ax.stp], x, Look(t, offsets[ax], x, DefaultCode(d, rows[ax.stp])))
  {
    var row, es, o := rows[ax.stp], Entries(d, ax.isTkn, rows[ax.stp]), offsets[ax];
    LookIsHit(d, table, t, o, x, DefaultCode(d, row));
    forall a | Explicit(row, a) && a.sp == x
      ensures Look(t, o, x, DefaultCode(d, row)) == Code(d, a)
    {
      var k :| 0 <= k < |row| && row[k] == a;
      var j := EntriesHave(d, ax.isTkn, row, k);
      assert AT.Hit(table, o, es[j].lookahead) && table[o + es[j].lookahead] == es[j];
    }
    if AT.Hit(table, o, x) {
      var a := HitIsLive(d, ax.isTkn, row, table, o, x);
    }
  }

  lemma HitIsLive(d: Dims, isTkn: bool, row: seq<Action>, table: seq<AT.Slot>, o: int, x: nat) returns (a: Action)
    requires AT.ReadsBack(table, AT.Round(Entries(d, isTkn, row), o)) && AT.Hit(table, o, x)
    ensures Explicit(row, a) && a.sp == x
  {
    var es := Entries(d, isTkn, row);
    assert AT.Mentions(es, x);
    var j :| 0 <= j < |es| && es[j].lookahead == x;
    var k := EntriesFrom(d, isTkn, row, j);
    a := row[k];
  }

  /** A state without actions of a kind wants its default on every symbol of that kind. */
  lemma NothingPacked(d: Dims, isTkn: bool, row: seq<Action>, x: nat)
    requires Entries(d, isTkn, row) == [] && if isTkn then x < d.nterminal else d.nterminal <= x < d.nsymbol
    ensures Wanted(d, row, x, DefaultCode(d, row))
  {
    forall a | Explicit(row, a)
      ensures a.sp != x
    {
      var k :| 0 <= k < |row| && row[k] == a;
      if a.sp == x { var j := EntriesHave(d, isTkn, row, k); }
    }
  }

  lemma LooksUp(d: Dims, rows: seq<seq<Action>>, table: seq<AT.Slot>, offsets: Offsets, ax: AxSet, t: ParserTables, none: int, x: nat)
    requires ax.stp < |rows| && Packed(d, rows, table, offsets, ax)
    requires t.action == ActionColumn(d, table) && t.lookahead == LookaheadColumn(d, table) && x < d.nsymbol
    requires if ax.isTkn then x < d.nterminal else d.nterminal <= x
    requires ax in offsets ==> offsets[ax] != none
    ensures var o := if ax in offsets then offsets[ax] else none;
            var dflt := DefaultCode(d, rows[ax.stp]);
            Wanted(d, rows[ax.stp], x, if o == none then dflt else Look(t, o, x, dflt))
  {
    if ax in offsets {
      PackedLooksUp(d, rows, table, offsets, ax, t, x);
    } else {
      NothingPacked(d, ax.isTkn, rows[ax.stp], x);
    }
  }

  /** The table part of ReportTable. */
  method ReportTables(d: Dims, rows: seq<seq<Action>>, order: seq<AxSet>, rules: seq<(nat, nat)>) returns (t: ParserTables)
    requires d.nterminal <= d.nsymbol && |rows| == d.nstate && SortedSets(d, rows, order)
    requires forall i :: 0 <= i < |rows| ==> OneLiveEach(rows[i])
    ensures TablesOk(d, rows, t) && t.rules == rules
  {
    var table, offsets := PackRows(d, rows, order);
    var mnTkn := LeastOffset(d.nstate, true, offsets);
    var mnNt := LeastOffset(d.nstate, false, offsets);
    t := ParserTables(d, ActionColumn(d, table), LookaheadColumn(d, table),
                      OffsetList(d.nstate, true, offsets, mnTkn - 1), mnTkn - 1,
                      OffsetList(d.nstate, false, offsets, mnNt - 1), mnNt - 1,
                      seq(d.nstate, i requires 0 <= i < d.nstate => DefaultCode(d, rows[i])), rules);
    forall i, x | 0 <= i < d.nstate && 0 <= x < d.nterminal
      ensures Wanted(d, rows[i], x, FindShiftAction(t, i, x))
    {
      LooksUp(d, rows, table, offsets, AxSet(i, true), t, mnTkn - 1, x);
    }
    forall i, x | 0 <= i < d.nstate && d.nterminal <= x < d.nsymbol
      ensures Wanted(d, rows[i], x, FindReduceAction(t, i, x))
    {
      LooksUp(d, rows, table, offsets, AxSet(i, false), t, mnNt - 1, x);
    }
  }
}
