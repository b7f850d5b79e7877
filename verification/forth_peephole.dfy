/** The jump-to-jump optimisation: a branch to an unconditional branch is made to go where that
    one goes.  No program point leads anywhere else for it. */
module ForthPeephole {
  import opened ForthCode
  import opened ForthMachine

  // ----- Branches -----

  /** Branches the first run of which looks for a jump to a jump. */
  predicate IsCheck(c: Cell) { c.Instr? && (c.op.BranchCheck? || c.op.Branch0Check?) }

  predicate IsGoto(c: Cell) { c.Instr? && (c.op.BranchCheck? || c.op.Branch?) }

  predicate IsJump(c: Cell) { IsGoto(c) || (c.Instr? && (c.op.Branch0Check? || c.op.Branch0?)) }

  function Plain(c: Cell): Cell
    requires IsJump(c)
  {
    if IsGoto(c) then Instr(Branch) else Instr(Branch0)
  }

  /** The branch at i has an operand, and goes to an instruction. */
  predicate JumpOk(code: seq<Cell>, i: int) {
    HasOperand(code, i) && 0 <= Destination(code, i) < |code| && code[Destination(code, i)].Instr?
  }

  predicate WellFormed(code: seq<Cell>) {
    forall i :: 0 <= i < |code| && IsJump(code[i]) ==> JumpOk(code, i)
  }

  predicate GotoAt(code: seq<Cell>, x: int) { 0 <= x < |code| && IsGoto(code[x]) }

  function CheckSet(code: seq<Cell>): set<int> { set i | 0 <= i < |code| && IsCheck(code[i]) }

  // ----- Where a program point leads -----

  function Chase(code: seq<Cell>, x: int, n: nat): int
    requires WellFormed(code)
    decreases n
  {
    if n == 0 || !GotoAt(code, x) then x else Chase(code, Destination(code, x), n - 1)
  }

  /** Following unconditional branches from x ends at q; if it never ends, x settles nowhere. */
  ghost predicate Settles(code: seq<Cell>, x: int, q: int)
    requires WellFormed(code)
  {
    !GotoAt(code, q) && exists n: nat :: Chase(code, x, n) == q
  }

  lemma SettlesHere(code: seq<Cell>, x: int)
    requires WellFormed(code) && !GotoAt(code, x)
    ensures forall q :: Settles(code, x, q) <==> q == x
  {
    assert Chase(code, x, 0) == x;
  }

  lemma SettlesNext(code: seq<Cell>, x: int, q: int)
    requires WellFormed(code) && GotoAt(code, x)
    ensures Settles(code, x, q) <==> Settles(code, Destination(code, x), q)
  {
    if Settles(code, x, q) {
      var n: nat :| Chase(code, x, n) == q;
      assert Chase(code, Destination(code, x), n - 1) == q;
    }
    if Settles(code, Destination(code, x), q) {
      var n: nat :| Chase(code, Destination(code, x), n) == q;
      assert Chase(code, x, n + 1) == q;
    }
  }

  // ----- Two ways to change a branch -----

  function Unchecked(code: seq<Cell>, ip: int): seq<Cell>
    requires 0 <= ip < |code| && IsJump(code[ip])
  {
    code[ip := Plain(code[ip])]
  }

  function Retargeted(code: seq<Cell>, ip: int, t: int): seq<Cell>
    requires 0 <= ip && ip + 1 < |code|
  {
    code[ip + 1 := Num(t - (ip + 1))]
  }

  /** The cell at i after such changes. */
  predicate TunedCell(code: seq<Cell>, i: int, c: Cell)
    requires 0 <= i < |code|
  {
    || c == code[i]
    || (IsJump(code[i]) && c == Plain(code[i]))
    || (i > 0 && IsJump(code[i - 1]) && code[i].Num? && c.Num?)
  }

  predicate Tuned(code': seq<Cell>, code: seq<Cell>) {
    |code'| == |code| && forall i :: 0 <= i < |code| ==> TunedCell(code, i, code'[i])
  }

  lemma TunedTrans(c: seq<Cell>, b: seq<Cell>, a: seq<Cell>)
    requires Tuned(c, b) && Tuned(b, a)
    ensures Tuned(c, a)
  {
    forall i | 0 <= i < |a| ensures TunedCell(a, i, c[i]) {
      assert TunedCell(a, i, b[i]) && TunedCell(b, i, c[i]);
      if i > 0 { assert TunedCell(a, i - 1, b[i - 1]); }
    }
  }

  lemma UncheckedOk(code: seq<Cell>, ip: int)
    requires WellFormed(code) && 0 <= ip < |code| && IsJump(code[ip])
    ensures var c := Unchecked(code, ip);
            WellFormed(c) && Tuned(c, code) && CheckSet(c) == CheckSet(code) - {ip} && !IsCheck(c[ip]) && JumpOk(c, ip)
            && Destination(c, ip) == Destination(code, ip)
  {
    var c := Unchecked(code, ip);
    forall i | 0 <= i < |c| && IsJump(c[i]) ensures JumpOk(c, i) { assert JumpOk(code, i); }
  }

  lemma RetargetedOk(code: seq<Cell>, ip: int, t: int)
    requires WellFormed(code) && 0 <= ip < |code| && IsJump(code[ip]) && 0 <= t < |code| && code[t].Instr?
    ensures ip + 1 < |code|
    ensures var c := Retargeted(code, ip, t);
            WellFormed(c) && Tuned(c, code) && CheckSet(c) == CheckSet(code) && JumpOk(c, ip) && Destination(c, ip) == t
  {
    assert JumpOk(code, ip);
    var c := Retargeted(code, ip, t);
    forall i | 0 <= i < |c| && IsJump(c[i]) ensures JumpOk(c, i) { assert JumpOk(code, i); }
    assert CheckSet(c) == CheckSet(code);
  }

  // ----- What stays the same -----

  ghost predicate SameSettling(code': seq<Cell>, x': int, code: seq<Cell>, x: int)
    requires WellFormed(code') && WellFormed(code)
  {
    forall q :: Settles(code', x', q) <==> Settles(code, x, q)
  }

  /** Every program point, and every branch taken, leads to the same place. */
  ghost predicate Equivalent(code': seq<Cell>, code: seq<Cell>) {
    && WellFormed(code') && WellFormed(code) && Tuned(code', code)
    && (forall x :: SameSettling(code', x, code, x))
    && (forall i :: 0 <= i < |code| && IsJump(code[i]) ==>
        IsJump(code'[i]) && SameSettling(code', Destination(code', i), code, Destination(code, i)))
  }

  lemma EquivalentSame(code: seq<Cell>)
    requires WellFormed(code)
    ensures Equivalent(code, code)
  {
  }

  lemma EquivalentTrans(c: seq<Cell>, b: seq<Cell>, a: seq<Cell>)
    requires Equivalent(c, b) && Equivalent(b, a)
    ensures Equivalent(c, a)
  {
    TunedTrans(c, b, a);
    forall x ensures SameSettling(c, x, a, x) {
      assert SameSettling(c, x, b, x) && SameSettling(b, x, a, x);
    }
    forall i | 0 <= i < |a| && IsJump(a[i]) ensures IsJump(c[i]) && SameSettling(c, Destination(c, i), a, Destination(a, i)) {
      assert IsJump(b[i]) && SameSettling(b, Destination(b, i), a, Destination(a, i));
      assert SameSettling(c, Destination(c, i), b, Destination(b, i));
    }
  }

  lemma {:induction false} ChaseUnchecked(code: seq<Cell>, ip: int, x: int, n: nat)
    requires WellFormed(code) && 0 <= ip < |code| && IsJump(code[ip]) && WellFormed(Unchecked(code, ip))
    ensures Chase(Unchecked(code, ip), x, n) == Chase(code, x, n)
    decreases n
  {
    if n > 0 && GotoAt(code, x) {
      assert JumpOk(code, x);
      ChaseUnchecked(code, ip, Destination(code, x), n - 1);
    }
  }

  lemma SettlesUnchecked(code: seq<Cell>, ip: int, x: int)
    requires WellFormed(code) && 0 <= ip < |code| && IsJump(code[ip]) && WellFormed(Unchecked(code, ip))
    ensures SameSettling(Unchecked(code, ip), x, code, x)
  {
    var c := Unchecked(code, ip);
    forall q ensures Settles(c, x, q) <==> Settles(code, x, q) {
      forall n: nat ensures Chase(c, x, n) == Chase(code, x, n) { ChaseUnchecked(code, ip, x, n); }
      assert GotoAt(c, q) <==> GotoAt(code, q);
    }
  }

  lemma UncheckedEquivalent(code: seq<Cell>, ip: int)
    requires WellFormed(code) && 0 <= ip < |code| && IsJump(code[ip])
    ensures Equivalent(Unchecked(code, ip), code)
  {
    UncheckedOk(code, ip);
    forall x ensures SameSettling(Unchecked(code, ip), x, code, x) { SettlesUnchecked(code, ip, x); }
    forall i | 0 <= i < |code| && IsJump(code[i])
      ensures SameSettling(Unchecked(code, ip), Destination(Unchecked(code, ip), i), code, Destination(code, i))
    {
      assert JumpOk(code, i);
    }
  }

  /** The change of a branch that goes to an unconditional branch. */
  predicate Shortens(code: seq<Cell>, ip: int) {
    && WellFormed(code) && 0 <= ip < |code| && IsJump(code[ip])
    && JumpOk(code, ip) && GotoAt(code, Destination(code, ip)) && JumpOk(code, Destination(code, ip))
  }

  function Shortened(code: seq<Cell>, ip: int): seq<Cell>
    requires Shortens(code, ip)
  {
    Retargeted(code, ip, Destination(code, Destination(code, ip)))
  }

  lemma ShortenedPoint(code: seq<Cell>, ip: int, x: int)
    requires Shortens(code, ip)
    ensures var c := Shortened(code, ip);
            && (GotoAt(c, x) <==> GotoAt(code, x))
            && (GotoAt(code, x) ==>
                HasOperand(code, x) && HasOperand(c, x)
                && Destination(c, x) == if x == ip then Destination(code, Destination(code, ip)) else Destination(code, x))
  {
    if GotoAt(code, x) { assert JumpOk(code, x); }
  }

  lemma {:induction false} ChaseIntoShortened(code: seq<Cell>, ip: int, x: int, n: nat, q: int)
    requires Shortens(code, ip) && WellFormed(Shortened(code, ip)) && Chase(code, x, n) == q && !GotoAt(code, q)
    ensures Settles(Shortened(code, ip), x, q)
    decreases n
  {
    var c := Shortened(code, ip);
    ShortenedPoint(code, ip, x);
    ShortenedPoint(code, ip, q);
    if !GotoAt(code, x) {
      SettlesHere(c, x);
    } else {
      SettlesNext(c, x, q);
      var d := Destination(code, x);
      assert Chase(code, d, n - 1) == q;
      if x == ip {
        assert Chase(code, Destination(code, d), n - 2) == q;
        ChaseIntoShortened(code, ip, Destination(code, d), n - 2, q);
      } else {
        ChaseIntoShortened(code, ip, d, n - 1, q);
      }
    }
  }

  lemma {:induction false} ChaseOutOfShortened(code: seq<Cell>, ip: int, x: int, n: nat, q: int)
    requires Shortens(code, ip) && WellFormed(Shortened(code, ip)) && Chase(Shortened(code, ip), x, n) == q && !GotoAt(code, q)
    ensures Settles(code, x, q)
    decreases n
  {
    var c := Shortened(code, ip);
    ShortenedPoint(code, ip, x);
    if !GotoAt(code, x) {
      SettlesHere(code, x);
    } else {
      ShortenedPoint(code, ip, q);
      assert Chase(c, Destination(c, x), n - 1) == q;
      ChaseOutOfShortened(code, ip, Destination(c, x), n - 1, q);
      if x == ip { SettlesNext(code, Destination(code, ip), q); }
      SettlesNext(code, x, q);
    }
  }

  lemma SettlesShortened(code: seq<Cell>, ip: int, x: int)
    requires Shortens(code, ip) && WellFormed(Shortened(code, ip))
    ensures SameSettling(Shortened(code, ip), x, code, x)
  {
    var c := Shortened(code, ip);
    forall q ensures Settles(c, x, q) <==> Settles(code, x, q) {
      ShortenedPoint(code, ip, q);
      if Settles(code, x, q) {
        var n: nat :| Chase(code, x, n) == q;
        ChaseIntoShortened(code, ip, x, n, q);
      }
      if Settles(c, x, q) {
        var n: nat :| Chase(c, x, n) == q;
        ChaseOutOfShortened(code, ip, x, n, q);
      }
    }
  }

  lemma ShortenedEquivalent(code: seq<Cell>, ip: int)
    requires Shortens(code, ip)
    ensures Equivalent(Shortened(code, ip), code)
  {
    var c, d := Shortened(code, ip), Destination(code, ip);
    RetargetedOk(code, ip, Destination(code, d));
    forall x ensures SameSettling(c, x, code, x) { SettlesShortened(code, ip, x); }
    forall i | 0 <= i < |code| && IsJump(code[i]) ensures SameSettling(c, Destination(c, i), code, Destination(code, i)) {
      assert JumpOk(code, i);
      if i == ip {
        forall q ensures Settles(c, Destination(c, i), q) <==> Settles(code, d, q) {
          SettlesNext(code, d, q);
          assert SameSettling(c, Destination(code, d), code, Destination(code, d));
        }
      } else {
        assert Destination(c, i) == Destination(code, i);
        assert SameSettling(c, Destination(code, i), code, Destination(code, i));
      }
    }
  }

  // ----- The optimisation -----

  /** Branches already looked at are left alone. */
  predicate KeepsPlain(r: seq<Cell>, code: seq<Cell>) {
    forall j :: 0 <= j < |code| && IsJump(code[j]) && !IsCheck(code[j]) ==>
      HasOperand(r, j) && HasOperand(code, j) && Destination(r, j) == Destination(code, j)
  }

  /** Once the branch at d is optimised, the marked one at ip still goes there. */
  lemma StillShortens(r: seq<Cell>, marked: seq<Cell>, ip: int, d: int)
    requires WellFormed(r) && WellFormed(marked) && Tuned(r, marked) && KeepsPlain(r, marked)
    requires 0 <= ip < |marked| && IsJump(marked[ip]) && !IsCheck(marked[ip]) && JumpOk(marked, ip) && d == Destination(marked, ip)
    requires IsGoto(marked[d])
    ensures Shortens(r, ip) && Destination(r, ip) == d
  {
    assert TunedCell(marked, ip, r[ip]) && TunedCell(marked, d, r[d]);
    assert JumpOk(r, ip) && JumpOk(r, d);
  }

  lemma ShortenedKeeps(code: seq<Cell>, r: seq<Cell>, ip: int)
    requires WellFormed(code) && Shortens(r, ip) && 0 <= ip < |code| && IsCheck(code[ip])
    requires |r| == |code| && KeepsPlain(r, Unchecked(code, ip)) && CheckSet(r) <= CheckSet(code)
    ensures KeepsPlain(Shortened(r, ip), code) && CheckSet(Shortened(r, ip)) <= CheckSet(code)
  {
    UncheckedOk(code, ip);
    RetargetedOk(r, ip, Destination(r, Destination(r, ip)));
    forall j | 0 <= j < |code| && IsJump(code[j]) && !IsCheck(code[j])
      ensures HasOperand(Shortened(r, ip), j) && HasOperand(code, j) && Destination(Shortened(r, ip), j) == Destination(code, j)
    {
      assert JumpOk(code, j);
      assert Unchecked(code, ip)[j] == code[j];
    }
  }

  /** ficlVmOptimizeJumpToJump: the branch at ip is marked as looked at; where it goes to an
      unconditional branch that is not yet looked at, that one is optimised first. */
  function Optimized(code: seq<Cell>, ip: int): (r: seq<Cell>)
    requires WellFormed(code)
    ensures WellFormed(r) && Tuned(r, code) && CheckSet(r) <= CheckSet(code) && KeepsPlain(r, code)
    ensures 0 <= ip < |code| && IsJump(code[ip]) ==> !IsCheck(r[ip])
    decreases CheckSet(code)
  {
    if !(0 <= ip < |code|) || !IsCheck(code[ip]) then
      PlainSame(code);
      code
    else
      UncheckedOk(code, ip);
      var marked := Unchecked(code, ip);
      var d := Destination(marked, ip);
      if !IsGoto(marked[d]) then
        MarkedKeeps(code, ip);
        marked
      else
        assert ip in CheckSet(code);
        var r := Optimized(marked, d);
        StillShortens(r, marked, ip, d);
        RetargetedOk(r, ip, Destination(r, d));
        TunedTrans(r, marked, code);
        TunedTrans(Shortened(r, ip), r, code);
        ShortenedKeeps(code, r, ip);
        MarkedStays(code, r, ip);
        Retargeted(r, ip, Destination(r, d))
  }

  /** However many branches are rewritten, cycles included, every program point leads to where
      it led before, or still leads nowhere. */
  lemma {:induction false} OptimizedEquivalent(code: seq<Cell>, ip: int)
    requires WellFormed(code)
    ensures Equivalent(Optimized(code, ip), code)
    decreases CheckSet(code)
  {
    if 0 <= ip < |code| && IsCheck(code[ip]) {
      var marked := Unchecked(code, ip);
      UncheckedOk(code, ip);
      UncheckedEquivalent(code, ip);
      var d := Destination(marked, ip);
      if IsGoto(marked[d]) {
        assert ip in CheckSet(code);
        var r := Optimized(marked, d);
        OptimizedEquivalent(marked, d);
        StillShortens(r, marked, ip, d);
        ShortenedEquivalent(r, ip);
        EquivalentTrans(r, marked, code);
        EquivalentTrans(Shortened(r, ip), r, code);
      }
    } else {
      EquivalentSame(code);
    }
  }

  lemma PlainSame(code: seq<Cell>)
    requires WellFormed(code)
    ensures KeepsPlain(code, code)
  {
    forall j | 0 <= j < |code| && IsJump(code[j]) ensures HasOperand(code, j) { assert JumpOk(code, j); }
  }

  lemma MarkedKeeps(code: seq<Cell>, ip: int)
    requires WellFormed(code) && 0 <= ip < |code| && IsCheck(code[ip])
    ensures KeepsPlain(Unchecked(code, ip), code)
  {
    forall j | 0 <= j < |code| && IsJump(code[j]) ensures HasOperand(code, j) { assert JumpOk(code, j); }
  }

  lemma MarkedStays(code: seq<Cell>, r: seq<Cell>, ip: int)
    requires WellFormed(code) && 0 <= ip < |code| && IsCheck(code[ip]) && Shortens(r, ip) && |r| == |code|
    requires CheckSet(r) <= CheckSet(Unchecked(code, ip))
    ensures !IsCheck(Shortened(r, ip)[ip])
  {
    UncheckedOk(code, ip);
    RetargetedOk(r, ip, Destination(r, Destination(r, ip)));
    assert ip !in CheckSet(Shortened(r, ip));
  }
}
