/** The packed action table of the parser generator (the "acttab" part of lemon.c).

    Every state contributes up to two rows, one for terminals and one for
    nonterminals.  A row is a set of (lookahead, action) pairs.  Rows share one
    array: a row is placed at some offset, and its action on x is found at slot
    offset + x, which carries x as a tag.  The claim is that a row reads back
    exactly what went in, whatever is placed before and after it. */
module ActionTable {

  datatype Slot = Slot(lookahead: int, action: int)

  /** A finished round: the row that was handed over and the offset it was given. */
  datatype Round = Round(entries: seq<Slot>, offset: int)

  const UNUSED := Slot(-1, -1)

  /** The driver's test: the slot exists and is tagged x. */
  predicate Hit(table: seq<Slot>, offset: int, x: int) {
    0 <= offset + x < |table| && table[offset + x].lookahead == x
  }

  ghost predicate Distinct(entries: seq<Slot>) {
    forall i, j :: 0 <= i < j < |entries| ==> entries[i].lookahead != entries[j].lookahead
  }

  ghost predicate Mentions(entries: seq<Slot>, x: int) {
    exists j :: 0 <= j < |entries| && entries[j].lookahead == x
  }

  /** Reading the table at r.offset gives exactly the row r.entries. */
  ghost predicate ReadsBack(table: seq<Slot>, r: Round) {
    && (forall j :: 0 <= j < |r.entries| ==>
          && Hit(table, r.offset, r.entries[j].lookahead)
          && table[r.offset + r.entries[j].lookahead] == r.entries[j])
    && (forall x: nat :: Hit(table, r.offset, x) ==> Mentions(r.entries, x))
  }

  /** Only unused slots were written. */
  ghost predicate Extends(before: seq<Slot>, after: seq<Slot>) {
    && |before| <= |after|
    && forall k :: 0 <= k < |before| && before[k].lookahead >= 0 ==> after[k] == before[k]
  }

  /** The slots that a lookup at this offset would hit. */
  ghost function HitSlots(table: seq<Slot>, offset: int): set<int> {
    set k | 0 <= k < |table| && table[k].lookahead >= 0 && table[k].lookahead == k - offset
  }

  lemma HitSlotsNext(table: seq<Slot>, offset: int, j: nat)
    requires j < |table|
    ensures |HitSlots(table[..j + 1], offset)| == |HitSlots(table[..j], offset)| +
              if table[j].lookahead >= 0 && table[j].lookahead == j - offset then 1 else 0
  {
    assert HitSlots(table[..j + 1], offset) ==
           HitSlots(table[..j], offset) + if table[j].lookahead >= 0 && table[j].lookahead == j - offset then {j} else {};
  }

  /** The slots the row occupies at this offset. */
  ghost function RowSlots(entries: seq<Slot>, offset: int): set<int> {
    set j | 0 <= j < |entries| :: entries[j].lookahead + offset
  }

  /** The whole row falls into unused slots, and no lookup at this offset hits anything. */
  ghost predicate FreeAt(table: seq<Slot>, entries: seq<Slot>, offset: int) {
    && (forall j :: 0 <= j < |entries| ==>
          var k := entries[j].lookahead + offset;
          0 <= k && (k < |table| ==> table[k].lookahead < 0))
    && HitSlots(table, offset) == {}
  }

  /** What the scan tests.  It is a little stronger than FreeAt: the tag -1 of an
      unused slot at offset - 1 is compared like any other, so that offset is refused. */
  ghost predicate FitsUnused(table: seq<Slot>, entries: seq<Slot>, offset: int) {
    && FreeAt(table, entries, offset)
    && forall k :: 0 <= k < |table| ==> table[k].lookahead != k - offset
  }

  ghost predicate InPlace(table: seq<Slot>, entries: seq<Slot>, offset: int) {
    forall j :: 0 <= j < |entries| ==>
      var k := entries[j].lookahead + offset;
      0 <= k < |table| && table[k] == entries[j]
  }

  /** The row is there already, and nothing else is reachable at this offset. */
  ghost predicate AlreadyThere(table: seq<Slot>, entries: seq<Slot>, offset: int) {
    && InPlace(table, entries, offset)
    && |HitSlots(table, offset)| == |entries|
  }

  /** The scan stops at i: slot i can take the row's entry on its least lookahead mn. */
  ghost predicate Acceptable(slots: seq<Slot>, used: nat, entries: seq<Slot>, mn: Slot, i: nat)
    requires used <= |slots| && i < |slots|
  {
    var offset := i - mn.lookahead;
    if slots[i].lookahead < 0 then FitsUnused(slots[..used], entries, offset)
    else slots[i] == mn && AlreadyThere(slots[..used], entries, offset)
  }

  /** What an accepted slot means for its offset. */
  lemma AcceptableSuits(slots: seq<Slot>, used: nat, entries: seq<Slot>, mn: Slot, i: nat, offset: int)
    requires used <= |slots| && i < |slots| && offset == i - mn.lookahead && Acceptable(slots, used, entries, mn, i)
    ensures FreeAt(slots[..used], entries, offset) || AlreadyThere(slots[..used], entries, offset)
  {
  }

  /** Behind the table there is always room. */
  lemma EndIsFree(table: seq<Slot>, entries: seq<Slot>)
    requires forall j :: 0 <= j < |entries| ==> entries[j].lookahead >= 0
    ensures FreeAt(table, entries, |table|)
  {
  }

  lemma FoundSuits(slots: seq<Slot>, used: nat, entries: seq<Slot>, mn: Slot, i: nat, offset: int)
    requires used <= |slots| && i <= used + mn.lookahead < |slots| && offset == i - mn.lookahead
    requires forall j :: 0 <= j < |entries| ==> entries[j].lookahead >= 0
    requires i < used + mn.lookahead ==> Acceptable(slots, used, entries, mn, i)
    ensures FreeAt(slots[..used], entries, offset) || AlreadyThere(slots[..used], entries, offset)
  {
    if i < used + mn.lookahead {
      AcceptableSuits(slots, used, entries, mn, i, offset);
    } else {
      EndIsFree(slots[..used], entries);
    }
  }

  lemma {:induction false} RowSlotsCardinality(entries: seq<Slot>, offset: int)
    requires Distinct(entries)
    ensures |RowSlots(entries, offset)| == |entries|
  {
    if entries != [] {
      var last := |entries| - 1;
      var front := entries[..last];
      RowSlotsCardinality(front, offset);
      RowSlotsLast(entries, offset, last);
    }
  }

  lemma RowSlotsLast(entries: seq<Slot>, offset: int, last: nat)
    requires Distinct(entries) && |entries| == last + 1
    ensures RowSlots(entries, offset) == RowSlots(entries[..last], offset) + {entries[last].lookahead + offset}
    ensures entries[last].lookahead + offset !in RowSlots(entries[..last], offset)
  {
  }

  lemma SubsetOfEqualSize<T>(a: set<T>, b: set<T>)
    requires a <= b && |a| == |b|
    ensures a == b
  {
    assert |b - a| == |b| - |a|;
  }

  /** A row that is there already reads back. */
  lemma AlreadyThereReadsBack(table: seq<Slot>, entries: seq<Slot>, offset: int)
    requires AlreadyThere(table, entries, offset) && Distinct(entries)
    requires forall j :: 0 <= j < |entries| ==> entries[j].lookahead >= 0
    ensures ReadsBack(table, Round(entries, offset))
  {
    RowSlotsCardinality(entries, offset);
    assert forall j :: 0 <= j < |entries| ==> table[entries[j].lookahead + offset] == entries[j];
    SubsetOfEqualSize(RowSlots(entries, offset), HitSlots(table, offset));
    forall x: nat | Hit(table, offset, x)
      ensures Mentions(entries, x)
    {
      assert offset + x in HitSlots(table, offset);
      assert offset + x in RowSlots(entries, offset);
    }
  }

  /** Writing a row into unused slots at an offset nobody uses disturbs no other row. */
  lemma OtherRowsSurvive(before: seq<Slot>, after: seq<Slot>, entries: seq<Slot>, offset: int, r: Round)
    requires Extends(before, after)
    requires HitSlots(before, offset) == {}
    requires forall k :: 0 <= k < |after| && after[k].lookahead >= 0 && !(k < |before| && after[k] == before[k]) ==>
               after[k].lookahead == k - offset
    requires RoundShape(r)
    requires ReadsBack(before, r)
    ensures ReadsBack(after, r)
  {
    var first := r.entries[0].lookahead;
    assert Hit(before, r.offset, first);
    assert r.offset != offset by {
      assert first + r.offset in HitSlots(before, r.offset);
    }
    forall x: nat | Hit(after, r.offset, x)
      ensures Mentions(r.entries, x)
    {
      assert Hit(before, r.offset, x);
    }
  }

  /** The row written into the slots, entry by entry. */
  function Written(slots: seq<Slot>, entries: seq<Slot>, offset: int): (r: seq<Slot>)
    requires forall j :: 0 <= j < |entries| ==> 0 <= entries[j].lookahead + offset < |slots|
    ensures |r| == |slots|
  {
    if entries == [] then slots
    else
      var last := entries[|entries| - 1];
      Written(slots, entries[..|entries| - 1], offset)[last.lookahead + offset := last]
  }

  lemma WrittenNext(slots: seq<Slot>, entries: seq<Slot>, offset: int, j: nat)
    requires j < |entries| && forall l :: 0 <= l < |entries| ==> 0 <= entries[l].lookahead + offset < |slots|
    ensures Written(slots, entries[..j + 1], offset) == Written(slots, entries[..j], offset)[entries[j].lookahead + offset := entries[j]]
  {
    assert entries[..j + 1][..j] == entries[..j];
  }

  /** The end of the table is behind the row, and no farther than needed. */
  ghost predicate Reaches(entries: seq<Slot>, offset: int, used: nat, used': nat) {
    && used <= used' && (forall l :: 0 <= l < |entries| ==> entries[l].lookahead + offset < used')
    && (used' == used || exists l :: 0 <= l < |entries| && used' == entries[l].lookahead + offset + 1)
  }

  lemma ReachesNext(entries: seq<Slot>, offset: int, used: nat, used': nat, j: nat)
    requires j < |entries| && Reaches(entries[..j], offset, used, used') && entries[j].lookahead + offset >= 0
    ensures var k := entries[j].lookahead + offset;
            Reaches(entries[..j + 1], offset, used, if k >= used' then k + 1 else used')
  {
    assert entries[..j + 1] == entries[..j] + [entries[j]];
    if used' != used {
      var l :| 0 <= l < j && used' == entries[..j][l].lookahead + offset + 1;
      assert entries[..j + 1][l] == entries[..j][l];
    }
    assert entries[..j + 1][j] == entries[j];
  }

  /** A slot keeps its contents unless an entry of the row belongs there. */
  lemma {:induction false} WrittenSlot(slots: seq<Slot>, entries: seq<Slot>, offset: int, k: nat)
    requires forall j :: 0 <= j < |entries| ==> 0 <= entries[j].lookahead + offset < |slots|
    requires k < |slots|
    ensures var w := Written(slots, entries, offset)[k];
            if Mentions(entries, k - offset) then w.lookahead == k - offset else w == slots[k]
  {
    if entries != [] {
      var front := entries[..|entries| - 1];
      WrittenSlot(slots, front, offset, k);
      assert Mentions(front, k - offset) ==> Mentions(entries, k - offset);
      if entries[|entries| - 1].lookahead == k - offset {
        assert Mentions(entries, k - offset);
      } else if Mentions(entries, k - offset) {
        var j :| 0 <= j < |entries| && entries[j].lookahead == k - offset;
        assert front[j].lookahead == k - offset;
      }
    }
  }

  /** With distinct lookaheads every entry is found where it was put. */
  lemma {:induction false} WrittenDistinct(slots: seq<Slot>, entries: seq<Slot>, offset: int, j: nat)
    requires forall j :: 0 <= j < |entries| ==> 0 <= entries[j].lookahead + offset < |slots|
    requires Distinct(entries) && j < |entries|
    ensures Written(slots, entries, offset)[entries[j].lookahead + offset] == entries[j]
  {
    if j < |entries| - 1 {
      WrittenDistinct(slots, entries[..|entries| - 1], offset, j);
    }
  }

  /** Rewriting what is there changes nothing. */
  lemma {:induction false} WrittenInPlace(slots: seq<Slot>, entries: seq<Slot>, offset: int)
    requires InPlace(slots, entries, offset)
    ensures Written(slots, entries, offset) == slots
  {
    if entries != [] {
      WrittenInPlace(slots, entries[..|entries| - 1], offset);
    }
  }

  /** What acttab_insert does to the slots, with `used` growing to used'. */
  ghost predicate Placed(slots: seq<Slot>, used: nat, entries: seq<Slot>, offset: int, after: seq<Slot>, used': nat) {
    && used <= used' <= |slots|
    && (forall k :: used <= k < |slots| ==> slots[k] == UNUSED)
    && (forall j :: 0 <= j < |entries| ==> entries[j].lookahead >= 0 && 0 <= entries[j].lookahead + offset < used')
    && after == Written(slots, entries, offset)
    && (FreeAt(slots[..used], entries, offset) || AlreadyThere(slots[..used], entries, offset))
  }

  lemma WrittenPlaced(slots: seq<Slot>, used: nat, entries: seq<Slot>, offset: int, after: seq<Slot>, used': nat)
    requires used <= |slots| && used' <= |slots| && (forall k :: used <= k < |slots| ==> slots[k] == UNUSED)
    requires forall j :: 0 <= j < |entries| ==> entries[j].lookahead >= 0 && 0 <= entries[j].lookahead + offset < used'
    requires after == Written(slots, entries, offset) && Reaches(entries, offset, used, used')
    requires FreeAt(slots[..used], entries, offset) || AlreadyThere(slots[..used], entries, offset)
    ensures Placed(slots, used, entries, offset, after, used')
    ensures AlreadyThere(slots[..used], entries, offset) ==> used' == used
  {
  }

  lemma PlacedReadsBack(slots: seq<Slot>, used: nat, entries: seq<Slot>, offset: int, after: seq<Slot>, used': nat)
    requires Placed(slots, used, entries, offset, after, used') && Distinct(entries)
    requires AlreadyThere(slots[..used], entries, offset) ==> used' == used
    ensures ReadsBack(after[..used'], Round(entries, offset))
  {
    if AlreadyThere(slots[..used], entries, offset) {
      assert InPlace(slots, entries, offset);
      WrittenInPlace(slots, entries, offset);
      AlreadyThereReadsBack(slots[..used], entries, offset);
    } else {
      forall j | 0 <= j < |entries|
        ensures after[..used'][offset + entries[j].lookahead] == entries[j]
      {
        WrittenDistinct(slots, entries, offset, j);
      }
      forall x: nat | Hit(after[..used'], offset, x)
        ensures Mentions(entries, x)
      {
        FreshHit(slots, used, entries, offset, after, used', x);
      }
    }
  }

  /** At a free offset, only what was written is hit. */
  lemma FreshHit(slots: seq<Slot>, used: nat, entries: seq<Slot>, offset: int, after: seq<Slot>, used': nat, x: nat)
    requires Placed(slots, used, entries, offset, after, used') && FreeAt(slots[..used], entries, offset)
    requires Hit(after[..used'], offset, x)
    ensures Mentions(entries, x)
  {
    var k := offset + x;
    WrittenSlot(slots, entries, offset, k);
    assert k in HitSlots(slots[..used], offset) || after[k] != slots[k] || k >= used;
  }

  lemma PlacedKeepsOthers(slots: seq<Slot>, used: nat, entries: seq<Slot>, offset: int, after: seq<Slot>, used': nat, r: Round)
    requires Placed(slots, used, entries, offset, after, used')
    requires AlreadyThere(slots[..used], entries, offset) ==> used' == used
    requires RoundShape(r)
    requires ReadsBack(slots[..used], r)
    ensures ReadsBack(after[..used'], r)
  {
    if AlreadyThere(slots[..used], entries, offset) {
      assert InPlace(slots, entries, offset);
      WrittenInPlace(slots, entries, offset);
    } else {
      PlacedExtends(slots, used, entries, offset, after, used');
      OtherRowsSurvive(slots[..used], after[..used'], entries, offset, r);
    }
  }

  lemma PlacedExtends(slots: seq<Slot>, used: nat, entries: seq<Slot>, offset: int, after: seq<Slot>, used': nat)
    requires Placed(slots, used, entries, offset, after, used')
    requires FreeAt(slots[..used], entries, offset)
    ensures Extends(slots[..used], after[..used'])
    ensures HitSlots(slots[..used], offset) == {}
    ensures forall k :: 0 <= k < used' && after[k].lookahead >= 0 && !(k < used && after[k] == slots[k]) ==>
              after[k].lookahead == k - offset
  {
    forall k | 0 <= k < used'
      ensures k < used && slots[k].lookahead >= 0 ==> after[k] == slots[k]
      ensures after[k] == slots[k] || after[k].lookahead == k - offset
    {
      WrittenSlot(slots, entries, offset, k);
      if Mentions(entries, k - offset) {
        assert k < used ==> slots[..used][k].lookahead < 0;
      }
    }
  }

  ghost predicate RoundShape(r: Round) {
    r.entries != [] && forall j :: 0 <= j < |r.entries| ==> r.entries[j].lookahead >= 0
  }

  /** Every round with distinct lookaheads reads back. */
  ghost predicate HistoryHolds(table: seq<Slot>, rounds: seq<Round>) {
    forall r :: r in rounds ==> RoundShape(r) && (Distinct(r.entries) ==> ReadsBack(table, r))
  }

  lemma HistoryReadsBack(slots: seq<Slot>, used: nat, entries: seq<Slot>, offset: int, after: seq<Slot>, used': nat,
                         rounds: seq<Round>)
    requires Placed(slots, used, entries, offset, after, used') && entries != []
    requires AlreadyThere(slots[..used], entries, offset) ==> used' == used
    requires HistoryHolds(slots[..used], rounds)
    ensures HistoryHolds(after[..used'], rounds + [Round(entries, offset)])
    ensures Extends(slots[..used], after[..used'])
  {
    forall r | r in rounds + [Round(entries, offset)]
      ensures RoundShape(r) && (Distinct(r.entries) ==> ReadsBack(after[..used'], r))
    {
      if r in rounds {
        if Distinct(r.entries) {
          PlacedKeepsOthers(slots, used, entries, offset, after, used', r);
        }
      } else if Distinct(entries) {
        PlacedReadsBack(slots, used, entries, offset, after, used');
      }
    }
    if AlreadyThere(slots[..used], entries, offset) {
      assert InPlace(slots, entries, offset);
      WrittenInPlace(slots, entries, offset);
    } else {
      PlacedExtends(slots, used, entries, offset, after, used');
    }
  }

  lemma PlacedLeavesRest(slots: seq<Slot>, used: nat, entries: seq<Slot>, offset: int, after: seq<Slot>, used': nat)
    requires Placed(slots, used, entries, offset, after, used')
    ensures forall k :: used' <= k < |after| ==> after[k] == UNUSED
  {
    forall k | used' <= k < |after|
      ensures after[k] == UNUSED
    {
      WrittenSlot(slots, entries, offset, k);
    }
  }

  /** A placed row reads back, every earlier row still does, and the rest stays unused. */
  lemma PlacedSummary(slots: seq<Slot>, used: nat, entries: seq<Slot>, offset: int, after: seq<Slot>, used': nat,
                      rounds: seq<Round>)
    requires Placed(slots, used, entries, offset, after, used') && entries != []
    requires AlreadyThere(slots[..used], entries, offset) ==> used' == used
    requires HistoryHolds(slots[..used], rounds)
    ensures HistoryHolds(after[..used'], rounds + [Round(entries, offset)])
    ensures Extends(slots[..used], after[..used'])
    ensures forall k :: used' <= k < |after| ==> after[k] == UNUSED
  {
    HistoryReadsBack(slots, used, entries, offset, after, used', rounds);
    PlacedLeavesRest(slots, used, entries, offset, after, used');
  }

  class Acttab {
    var nAction: nat              // used slots in aAction
    var aAction: array<Slot>      // the table under construction
    var mnLookahead: int
    var mnAction: int
    var mxLookahead: int
    var nLookahead: nat           // used slots in aLookahead
    var aLookahead: array<Slot>   // the row under construction
    ghost var rounds: seq<Round>

    ghost predicate Shape()
      reads this, aAction, aLookahead
    {
      && aAction != aLookahead
      && nAction <= aAction.Length
      && nLookahead <= aLookahead.Length
      && (forall k :: nAction <= k < aAction.Length ==> aAction[k] == UNUSED)
      && RowShape(Row(), mnLookahead, mnAction, mxLookahead)
    }

    ghost predicate Valid()
      reads this, aAction, aLookahead
    {
      && Shape()
      && HistoryHolds(Table(), rounds)
    }

    /** mn and mx bound the lookaheads of the row, and mnAction goes with an entry on mn. */
    static ghost predicate RowShape(row: seq<Slot>, mn: int, mnAction: int, mx: int) {
      && (forall j :: 0 <= j < |row| ==> row[j].lookahead >= 0 && mn <= row[j].lookahead <= mx)
      && (row != [] ==> Slot(mn, mnAction) in row && 0 <= mn <= mx)
    }

    /** The row under construction. */
    ghost function Row(): seq<Slot>
      requires nLookahead <= aLookahead.Length
      reads this, aLookahead
    {
      aLookahead[..nLookahead]
    }

    /** The table as it is written out. */
    ghost function Table(): seq<Slot>
      requires nAction <= aAction.Length
      reads this, aAction
    {
      aAction[..nAction]
    }

    constructor ()
      ensures Valid() && fresh(aAction) && fresh(aLookahead)
      ensures Table() == [] && Row() == [] && rounds == []
    {
      nAction, nLookahead := 0, 0;
      mnLookahead, mnAction, mxLookahead := 0, 0, 0;
      aAction := new Slot[0];
      aLookahead := new Slot[0];
      rounds := [];
    }

    static lemma RowShapeExtends(row: seq<Slot>, mn: int, mnAction: int, mx: int, slot: Slot)
      requires RowShape(row, mn, mnAction, mx) && slot.lookahead >= 0
      ensures row == [] ==> RowShape([slot], slot.lookahead, slot.action, slot.lookahead)
      ensures row != [] ==>
                RowShape(row + [slot],
                         if mn > slot.lookahead then slot.lookahead else mn,
                         if mn > slot.lookahead then slot.action else mnAction,
                         if mx < slot.lookahead then slot.lookahead else mx)
    {
      assert forall s :: s in row ==> s in row + [slot];
      assert slot == (row + [slot])[|row|];
    }

    /** The growth step of acttab_action. */
    method GrowRow()
      requires Valid()
      modifies this
      ensures Valid() && nLookahead < aLookahead.Length
      ensures aLookahead == old(aLookahead) || fresh(aLookahead)
      ensures Row() == old(Row())
      ensures unchanged(this`nAction, this`aAction, this`nLookahead, this`rounds,
                        this`mnLookahead, this`mnAction, this`mxLookahead)
    {
      ghost var row := Row();
      if nLookahead >= aLookahead.Length {
        var bigger := new Slot[aLookahead.Length + 25](_ => UNUSED);
        forall i | 0 <= i < nLookahead { bigger[i] := aLookahead[i]; }
        assert bigger[..nLookahead] == row;
        aLookahead := bigger;
      }
    }

    /** The least and the greatest lookahead, and the action of the least, with one entry more. */
    method Track(lookahead: int, action: int)
      requires Shape() && lookahead >= 0
      modifies this`mnLookahead, this`mnAction, this`mxLookahead
      ensures RowShape(Row() + [Slot(lookahead, action)], mnLookahead, mnAction, mxLookahead)
    {
      RowShapeExtends(Row(), mnLookahead, mnAction, mxLookahead, Slot(lookahead, action));
      assert Row() == [] ==> Row() + [Slot(lookahead, action)] == [Slot(lookahead, action)];
      if nLookahead == 0 {
        mxLookahead := lookahead;
        mnLookahead := lookahead;
        mnAction := action;
      } else {
        if mxLookahead < lookahead { mxLookahead := lookahead; }
        if mnLookahead > lookahead {
          mnLookahead := lookahead;
          mnAction := action;
        }
      }
    }

    /** acttab_action: add one entry to the row under construction. */
    method Action(lookahead: int, action: int)
      requires Valid() && lookahead >= 0
      modifies this, aLookahead
      ensures Valid() && (aLookahead == old(aLookahead) || fresh(aLookahead))
      ensures Row() == old(Row()) + [Slot(lookahead, action)]
      ensures aAction == old(aAction) && nAction == old(nAction) && rounds == old(rounds)
      ensures Table() == old(Table())
    {
      GrowRow();
      ghost var row := Row();
      Track(lookahead, action);
      aLookahead[nLookahead] := Slot(lookahead, action);
      nLookahead := nLookahead + 1;
      assert Row() == row + [Slot(lookahead, action)];
      assert Table() == old(Table());
    }

    /** The growth step of acttab_insert. */
    method Grow(n: int)
      requires Shape() && n >= 0
      modifies this
      ensures Shape() && (aAction == old(aAction) || fresh(aAction))
      ensures nAction + n < aAction.Length
      ensures Table() == old(Table()) && Row() == old(Row())
      ensures unchanged(this`nAction, this`nLookahead, this`aLookahead, this`rounds,
                        this`mnLookahead, this`mnAction, this`mxLookahead)
      ensures unchanged(aLookahead)
    {
      ghost var table := Table();
      if nAction + n >= aAction.Length {
        var bigger := new Slot[nAction + n + aAction.Length + 20](_ => UNUSED);
        forall i | 0 <= i < nAction { bigger[i] := aAction[i]; }
        assert bigger[..nAction] == table;
        assert forall k :: nAction <= k < bigger.Length ==> bigger[k] == UNUSED;
        aAction := bigger;
      }
      assert Row() == old(Row());
    }

    /** The first inner test of acttab_insert: unused slots only, offset not in use. */
    method TestFits(i: nat) returns (fits: bool)
      requires Shape() && nLookahead > 0 && i < nAction + mnLookahead && nAction + mxLookahead + 1 < aAction.Length
      ensures fits <==> FitsUnused(Table(), Row(), i - mnLookahead)
    {
      var j := 0;
      while j < nLookahead
        invariant 0 <= j <= nLookahead
        invariant forall l :: 0 <= l < j ==> aAction[Row()[l].lookahead - mnLookahead + i].lookahead < 0
      {
        var k := aLookahead[j].lookahead - mnLookahead + i;
        assert Row()[j] == aLookahead[j];
        if k < 0 || aAction[k].lookahead >= 0 { break; }
        j := j + 1;
      }
      if j < nLookahead {
        assert !FitsUnused(Table(), Row(), i - mnLookahead);
        return false;
      }
      j := 0;
      while j < nAction
        invariant 0 <= j <= nAction
        invariant forall k :: 0 <= k < j ==> Table()[k].lookahead != k - (i - mnLookahead)
      {
        assert Table()[j] == aAction[j];
        if aAction[j].lookahead == j + mnLookahead - i { break; }
        j := j + 1;
      }
      fits := j == nAction;
    }

    /** The second inner test of acttab_insert, first half: every entry is in place. */
    method TestInPlace(i: nat) returns (inPlace: bool)
      requires Shape() && nLookahead > 0
      ensures inPlace <==> InPlace(Table(), Row(), i - mnLookahead)
    {
      ghost var row, table := Row(), Table();
      var j := 0;
      while j < nLookahead
        invariant 0 <= j <= nLookahead
        invariant forall l :: 0 <= l < j ==>
                    var k := row[l].lookahead + (i - mnLookahead); 0 <= k < |table| && table[k] == row[l]
      {
        var k := aLookahead[j].lookahead - mnLookahead + i;
        assert row[j] == aLookahead[j];
        if k < 0 || k >= nAction { break; }
        assert table[k] == aAction[k];
        if aLookahead[j].lookahead != aAction[k].lookahead { break; }
        if aLookahead[j].action != aAction[k].action { break; }
        j := j + 1;
      }
      inPlace := j == nLookahead;
    }

    /** Second half: count the slots a lookup at this offset would hit. */
    method CountHits(i: nat) returns (n: nat)
      requires Shape()
      ensures n == |HitSlots(Table(), i - mnLookahead)|
    {
      ghost var table, offset := Table(), i - mnLookahead;
      n := 0;
      var j := 0;
      while j < nAction
        invariant 0 <= j <= nAction
        invariant n == |HitSlots(table[..j], offset)|
      {
        HitSlotsNext(table, offset, j);
        assert table[j] == aAction[j];
        if aAction[j].lookahead >= 0 && aAction[j].lookahead == j + mnLookahead - i { n := n + 1; }
        j := j + 1;
      }
      assert table[..j] == table;
    }

    /** One round of the scan of acttab_insert. */
    method TestOffset(i: nat) returns (stop: bool)
      requires Shape() && nLookahead > 0 && i < nAction + mnLookahead && nAction + mxLookahead + 1 < aAction.Length
      ensures i < aAction.Length
      ensures stop <==> Acceptable(aAction[..], nAction, Row(), Slot(mnLookahead, mnAction), i)
    {
      assert mnLookahead <= mxLookahead;
      assert aAction[..][..nAction] == Table();
      stop := false;
      if aAction[i].lookahead < 0 {
        stop := TestFits(i);
      } else if aAction[i].lookahead == mnLookahead {
        if aAction[i].action == mnAction {
          stop := TestInPlace(i);
          if stop {
            var n := CountHits(i);
            stop := n == nLookahead;
          }
        }
      }
    }

    /** The loop of the scan. */
    method Scan(ghost slots: seq<Slot>, ghost used: nat, ghost row: seq<Slot>, ghost mn: Slot) returns (i: nat)
      requires Shape() && nLookahead > 0 && nAction + mxLookahead + 1 < aAction.Length
      requires slots == aAction[..] && used == nAction && row == Row() && mn == Slot(mnLookahead, mnAction)
      ensures 0 <= mn.lookahead && i <= used + mn.lookahead < |slots|
      ensures i < used + mn.lookahead ==> Acceptable(slots, used, row, mn, i)
      ensures forall i' :: 0 <= i' < i ==> !Acceptable(slots, used, row, mn, i')
    {
      assert mnLookahead <= mxLookahead;
      i := 0;
      while i < nAction + mnLookahead
        invariant i <= nAction + mnLookahead
        invariant forall i' :: 0 <= i' < i ==> !Acceptable(slots, used, row, mn, i')
      {
        var stop := TestOffset(i);
        if stop { break; }
        i := i + 1;
      }
    }

    /** The scan of acttab_insert. */
    method FindOffset(ghost slots: seq<Slot>, ghost used: nat, ghost row: seq<Slot>, ghost mn: Slot)
      returns (i: nat, offset: int)
      requires Shape() && nLookahead > 0 && nAction + mxLookahead + 1 < aAction.Length
      requires slots == aAction[..] && used == nAction && row == Row() && mn == Slot(mnLookahead, mnAction)
      ensures 0 <= mn.lookahead && i <= used + mn.lookahead < |slots| && offset == i - mn.lookahead
      ensures i < used + mn.lookahead ==> Acceptable(slots, used, row, mn, i)
      ensures FreeAt(slots[..used], row, offset) || AlreadyThere(slots[..used], row, offset)
      ensures forall i' :: 0 <= i' < i ==> !Acceptable(slots, used, row, mn, i')
    {
      i := Scan(slots, used, row, mn);
      offset := i - mnLookahead;
      FoundSuits(slots, used, row, mn, i, offset);
    }

    /** The writing loop of acttab_insert. */
    method WriteRow(i: nat, ghost slots: seq<Slot>, ghost used: nat, ghost row: seq<Slot>, ghost offset: int)
      requires Shape() && i <= nAction + mnLookahead && nAction + mxLookahead + 1 < aAction.Length
      requires slots == aAction[..] && used == nAction && row == Row() && offset == i - mnLookahead
      modifies this`nAction, aAction
      ensures nAction <= aAction.Length == |slots| && unchanged(aLookahead)
      ensures forall j :: 0 <= j < |row| ==> row[j].lookahead >= 0 && 0 <= row[j].lookahead + offset < nAction
      ensures aAction[..] == Written(slots, row, offset) && Reaches(row, offset, used, nAction)
    {
      var j := 0;
      while j < nLookahead
        invariant 0 <= j <= nLookahead
        invariant unchanged(aLookahead)
        invariant forall l :: 0 <= l < |row| ==> 0 <= row[l].lookahead + offset < |slots|
        invariant aAction[..] == Written(slots, row[..j], offset)
        invariant nAction <= aAction.Length && Reaches(row[..j], offset, used, nAction)
      {
        var k := aLookahead[j].lookahead - mnLookahead + i;
        assert row[j] == aLookahead[j];
        WrittenNext(slots, row, offset, j);
        ReachesNext(row, offset, used, nAction, j);
        aAction[k] := aLookahead[j];
        if k >= nAction { nAction := k + 1; }
        j := j + 1;
      }
      assert row[..j] == row;
    }

    /** With room enough: scan, then write. */
    method Fill(ghost slots: seq<Slot>, ghost used: nat, ghost row: seq<Slot>, ghost mn: Slot) returns (offset: int)
      requires Shape() && nLookahead > 0 && nAction + mxLookahead + 1 < aAction.Length
      requires slots == aAction[..] && used == nAction && row == Row() && mn == Slot(mnLookahead, mnAction)
      modifies this`nAction, aAction
      ensures nAction <= aAction.Length && unchanged(aLookahead) && 0 <= offset + mn.lookahead < |slots|
      ensures Placed(slots, used, row, offset, aAction[..], nAction)
      ensures AlreadyThere(slots[..used], row, offset) ==> nAction == used
      ensures forall i :: 0 <= i < offset + mn.lookahead ==> !Acceptable(slots, used, row, mn, i)
    {
      var i;
      i, offset := FindOffset(slots, used, row, mn);
      WriteRow(i, slots, used, row, offset);
      WrittenPlaced(slots, used, row, offset, aAction[..], nAction);
    }

    /** Grow, scan, write.  `slots` and `used` are the table once there is room; the
        offset is the first one the scan accepts. */
    method Place() returns (offset: int, ghost slots: seq<Slot>, ghost used: nat)
      requires Shape() && nLookahead > 0
      modifies this, aAction
      ensures aAction == old(aAction) || fresh(aAction)
      ensures used <= |slots| && nAction <= aAction.Length
      ensures slots[..used] == old(Table()) && (AlreadyThere(slots[..used], old(Row()), offset) ==> nAction == used)
      ensures Placed(slots, used, old(Row()), offset, aAction[..], nAction)
      ensures 0 <= offset + old(mnLookahead) < |slots|
      ensures forall i :: 0 <= i < offset + old(mnLookahead) ==>
                !Acceptable(slots, used, old(Row()), Slot(old(mnLookahead), old(mnAction)), i)
      ensures unchanged(this`nLookahead, this`aLookahead, this`rounds) && unchanged(aLookahead)
    {
      ghost var row, mn := Row(), Slot(mnLookahead, mnAction);
      Grow(mxLookahead + 1);
      slots, used := aAction[..], nAction;
      assert slots[..used] == Table();
      offset := Fill(slots, used, row, mn);
    }

    /** acttab_insert: place the row and forget it.  Every row ever placed still reads back. */
    method Insert() returns (offset: int)
      requires Valid() && nLookahead > 0
      modifies this, aAction
      ensures Valid() && (aAction == old(aAction) || fresh(aAction)) && aLookahead == old(aLookahead)
      ensures Row() == []
      ensures rounds == old(rounds) + [Round(old(Row()), offset)]
      ensures Extends(old(Table()), Table())
    {
      ghost var row, slots, used := Row(), [], 0;
      offset, slots, used := Place();
      PlacedSummary(slots, used, row, offset, aAction[..], nAction, rounds);
      nLookahead := 0;
      rounds := rounds + [Round(row, offset)];
      assert Table() == aAction[..][..nAction];
    }
  }
}
