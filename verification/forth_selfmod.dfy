/** The interpreter that rewrites branches as it runs them ends as the one that does not. */
module ForthSelfMod {
  import opened ForthCode
  import opened ForthMachine
  import opened ForthRuns
  import opened ForthPeephole

  datatype SelfRun = SelfRun(code: seq<Cell>, r: Run)

  /** One turn: a branch run for the first time is optimised before it is taken. */
  function SelfStep(prims: Prims, s: SelfRun): (t: SelfRun)
    requires WellFormed(s.code)
    ensures WellFormed(t.code)
  {
    if !s.r.Running? then s
    else
      var code := Optimized(s.code, s.r.m.ip);
      SelfRun(code, Step(Mach(code, prims), s.r.m))
  }

  function SelfAfter(prims: Prims, s: SelfRun, k: nat): (t: SelfRun)
    requires WellFormed(s.code)
    ensures WellFormed(t.code)
    decreases k
  {
    if k == 0 then s else SelfAfter(prims, SelfStep(prims, s), k - 1)
  }

  /** All along a run the rewritten code stays equivalent to the one it started from. */
  lemma {:induction false} SelfAfterEquivalent(prims: Prims, s: SelfRun, k: nat)
    requires WellFormed(s.code)
    ensures Equivalent(SelfAfter(prims, s, k).code, s.code)
    decreases k
  {
    if k == 0 || !s.r.Running? {
      EquivalentSame(s.code);
      SelfStopped(prims, s, k);
    } else {
      var next := SelfStep(prims, s);
      OptimizedEquivalent(s.code, s.r.m.ip);
      SelfAfterEquivalent(prims, next, k - 1);
      SelfUnfold(prims, s, k);
      EquivalentTrans(SelfAfter(prims, next, k - 1).code, next.code, s.code);
    }
  }

  lemma {:induction false} SelfAfterAdd(prims: Prims, s: SelfRun, j: nat, k: nat)
    requires WellFormed(s.code)
    ensures SelfAfter(prims, s, j + k) == SelfAfter(prims, SelfAfter(prims, s, j), k)
    decreases j
  {
    if j > 0 {
      SelfUnfold(prims, s, j);
      SelfUnfold(prims, s, j + k);
      SelfAfterAdd(prims, SelfStep(prims, s), j - 1, k);
    }
  }

  // ----- Two machines side by side -----

  /** Same stacks, and program points that lead to the same place. */
  ghost predicate Related(code': seq<Cell>, m': Vm, code: seq<Cell>, m: Vm) {
    Equivalent(code', code) && m'.ds == m.ds && m'.rs == m.rs && SameSettling(code', m'.ip, code, m.ip)
  }

  lemma SamePoint(code': seq<Cell>, code: seq<Cell>, m: Vm)
    requires Equivalent(code', code)
    ensures Related(code', m, code, m)
  {
  }

  lemma GotoSame(code': seq<Cell>, code: seq<Cell>, x: int)
    requires Tuned(code', code)
    ensures GotoAt(code', x) <==> GotoAt(code, x)
  {
    if 0 <= x < |code| { assert TunedCell(code, x, code'[x]); }
  }

  lemma InstructionSame(code': seq<Cell>, code: seq<Cell>, q: int)
    requires Tuned(code', code) && 0 <= q < |code| && !IsJump(code[q])
    ensures code'[q].Num? <==> code[q].Num?
    ensures code[q].Instr? ==> code'[q] == code[q]
    ensures code[q].Instr? ==> (HasOperand(code', q) <==> HasOperand(code, q)) && (HasOperand(code, q) ==> code'[q + 1] == code[q + 1])
  {
    assert TunedCell(code, q, code'[q]);
    if q + 1 < |code| { assert TunedCell(code, q + 1, code'[q + 1]); }
  }

  /** What an instruction does depends on its cell and its operand. */
  lemma StepLocal(prims: Prims, code': seq<Cell>, code: seq<Cell>, m: Vm)
    requires |code'| == |code|
    requires 0 <= m.ip < |code| ==> (code'[m.ip].Num? <==> code[m.ip].Num?)
    requires 0 <= m.ip < |code| && code[m.ip].Instr? ==> code'[m.ip] == code[m.ip]
    requires 0 <= m.ip < |code| && code[m.ip].Instr? ==>
             (HasOperand(code', m.ip) <==> HasOperand(code, m.ip)) && (HasOperand(code, m.ip) ==> code'[m.ip + 1] == code[m.ip + 1])
    ensures Step(Mach(code', prims), m) == Step(Mach(code, prims), m)
  {
  }

  ghost predicate SameOutcome(code': seq<Cell>, r': Run, code: seq<Cell>, r: Run) {
    if r'.Running? then r.Running? && Related(code', r'.m, code, r.m) else r' == r
  }

  /** Anything but an unconditional branch does the same in both. */
  lemma StepSame(prims: Prims, code': seq<Cell>, code: seq<Cell>, m: Vm)
    requires Equivalent(code', code) && !GotoAt(code, m.ip)
    ensures SameOutcome(code', Step(Mach(code', prims), m), code, Step(Mach(code, prims), m))
  {
    if 0 <= m.ip < |code| && IsJump(code[m.ip]) {
      Branch0Same(prims, code', code, m);
    } else {
      if 0 <= m.ip < |code| { InstructionSame(code', code, m.ip); }
      StepLocal(prims, code', code, m);
      var r := Step(Mach(code, prims), m);
      if r.Running? { SamePoint(code', code, r.m); }
    }
  }

  lemma Branch0Same(prims: Prims, code': seq<Cell>, code: seq<Cell>, m: Vm)
    requires Equivalent(code', code) && 0 <= m.ip < |code| && IsJump(code[m.ip]) && !IsGoto(code[m.ip])
    ensures SameOutcome(code', Step(Mach(code', prims), m), code, Step(Mach(code, prims), m))
  {
    assert TunedCell(code, m.ip, code'[m.ip]);
    assert JumpOk(code, m.ip) && JumpOk(code', m.ip);
    assert Step(Mach(code', prims), m) == StepBranch0(Mach(code', prims), m);
    assert Step(Mach(code, prims), m) == StepBranch0(Mach(code, prims), m);
    if m.ds != [] && Top(m.ds) != 0 { SamePoint(code', code, Vm(m.ip + 2, Popped(m.ds, 1), m.rs)); }
  }

  lemma GotoStep(mc: Mach, m: Vm)
    requires WellFormed(mc.code) && GotoAt(mc.code, m.ip)
    ensures HasOperand(mc.code, m.ip) && Step(mc, m) == Running(m.(ip := Destination(mc.code, m.ip)))
  {
    assert JumpOk(mc.code, m.ip);
  }

  /** The plain machine follows branches to where they settle. */
  lemma {:induction false} ChaseRuns(mc: Mach, m: Vm, n: nat)
    requires WellFormed(mc.code)
    ensures Reaches(mc, m, Running(m.(ip := Chase(mc.code, m.ip, n))))
    decreases n
  {
    if n == 0 || !GotoAt(mc.code, m.ip) {
      assert After(mc, Running(m), 0) == Running(m);
      assert m.(ip := m.ip) == m;
    } else {
      GotoStep(mc, m);
      var m2 := m.(ip := Destination(mc.code, m.ip));
      ChaseRuns(mc, m2, n - 1);
      assert After(mc, StepRun(mc, Running(m)), 0) == Running(m2);
      assert After(mc, Running(m), 1) == Running(m2);
      ReachesThen(mc, m, m2, Running(m.(ip := Chase(mc.code, m.ip, n))));
    }
  }

  /** A rewritten branch, when taken, still leads to where its program point led. */
  lemma GotoRelated(code': seq<Cell>, m': Vm, code: seq<Cell>, m: Vm)
    requires Related(code', m', code, m) && GotoAt(code', m'.ip)
    ensures var c := Optimized(code', m'.ip);
            HasOperand(c, m'.ip) && Related(c, m'.(ip := Destination(c, m'.ip)), code, m)
  {
    var c := Optimized(code', m'.ip);
    OptimizedEquivalent(code', m'.ip);
    GotoSame(c, code', m'.ip);
    EquivalentTrans(c, code', code);
    assert JumpOk(c, m'.ip);
    forall q ensures Settles(c, Destination(c, m'.ip), q) <==> Settles(code, m.ip, q) {
      SettlesNext(c, m'.ip, q);
      assert SameSettling(c, m'.ip, code', m'.ip);
    }
  }

  // ----- The rewriting run ends as the plain one -----

  ghost predicate SelfReaches(prims: Prims, code: seq<Cell>, m: Vm, r: Run)
    requires WellFormed(code)
  {
    exists k: nat :: SelfAfter(prims, SelfRun(code, Running(m)), k).r == r
  }

  /** The plain run that catches up with a rewriting one about to run an instruction at q. */
  lemma PlainCatchesUp(prims: Prims, code': seq<Cell>, m': Vm, code: seq<Cell>, m: Vm)
    requires Related(code', m', code, m) && !GotoAt(code', m'.ip)
    ensures Reaches(Mach(code, prims), m, Running(m'))
  {
    SettlesHere(code', m'.ip);
    assert Settles(code, m.ip, m'.ip);
    var n: nat :| Chase(code, m.ip, n) == m'.ip;
    ChaseRuns(Mach(code, prims), m, n);
    assert m.(ip := m'.ip) == m';
  }

  lemma StepReaches(mc: Mach, m: Vm)
    ensures Reaches(mc, m, Step(mc, m))
  {
    assert After(mc, StepRun(mc, Running(m)), 0) == Step(mc, m);
    assert After(mc, Running(m), 1) == Step(mc, m);
  }

  /** A turn of the rewriting run at a branch: the plain one need not move. */
  lemma GotoTurn(prims: Prims, code': seq<Cell>, m': Vm, code: seq<Cell>, m: Vm)
    requires Related(code', m', code, m) && GotoAt(code', m'.ip)
    ensures var next := SelfStep(prims, SelfRun(code', Running(m'))); next.r.Running? && Related(next.code, next.r.m, code, m)
  {
    var c := Optimized(code', m'.ip);
    GotoRelated(code', m', code, m);
    GotoSame(c, code', m'.ip);
    GotoStep(Mach(c, prims), m');
  }

  /** At anything else the plain run catches up and does the same. */
  lemma InstructionTurn(prims: Prims, code': seq<Cell>, m': Vm, code: seq<Cell>, m: Vm) returns (plain: Run)
    requires Related(code', m', code, m) && !GotoAt(code', m'.ip)
    ensures var next := SelfStep(prims, SelfRun(code', Running(m'))); SameOutcome(next.code, next.r, code, plain)
    ensures Reaches(Mach(code, prims), m, plain)
  {
    var c, mc := Optimized(code', m'.ip), Mach(code, prims);
    PlainCatchesUp(prims, code', m', code, m);
    GotoSame(code', code, m'.ip);
    OptimizedEquivalent(code', m'.ip);
    EquivalentTrans(c, code', code);
    StepSame(prims, c, code, m');
    plain := Step(mc, m');
    StepReaches(mc, m');
    ReachesThen(mc, m, m', plain);
  }

  lemma SelfUnfold(prims: Prims, s: SelfRun, k: nat)
    requires WellFormed(s.code) && k > 0
    ensures SelfAfter(prims, s, k) == SelfAfter(prims, SelfStep(prims, s), k - 1)
  {
  }

  lemma {:induction false} SelfToPlain(prims: Prims, code': seq<Cell>, m': Vm, code: seq<Cell>, m: Vm, k: nat, r: Run)
    requires Related(code', m', code, m) && !r.Running? && SelfAfter(prims, SelfRun(code', Running(m')), k).r == r
    ensures Reaches(Mach(code, prims), m, r)
    decreases k, 1
  {
    SelfUnfold(prims, SelfRun(code', Running(m')), k);
    if GotoAt(code', m'.ip) {
      GotoTurn(prims, code', m', code, m);
      assert After(Mach(code, prims), Running(m), 0) == Running(m);
      PlainRest(prims, SelfStep(prims, SelfRun(code', Running(m'))), code, Running(m), m, k - 1, r);
    } else {
      var plain := InstructionTurn(prims, code', m', code, m);
      PlainRest(prims, SelfStep(prims, SelfRun(code', Running(m'))), code, plain, m, k - 1, r);
    }
  }

  lemma {:induction false} PlainRest(prims: Prims, next: SelfRun, code: seq<Cell>, plain: Run, m: Vm, k: nat, r: Run)
    requires WellFormed(next.code) && SameOutcome(next.code, next.r, code, plain) && Reaches(Mach(code, prims), m, plain)
    requires !r.Running? && SelfAfter(prims, next, k).r == r
    ensures Reaches(Mach(code, prims), m, r)
    decreases k, 2
  {
    if next.r.Running? {
      assert SelfRun(next.code, Running(next.r.m)) == next;
      SelfToPlain(prims, next.code, next.r.m, code, plain.m, k, r);
      ReachesThen(Mach(code, prims), m, plain.m, r);
    } else {
      SelfStopped(prims, next, k);
    }
  }

  lemma {:induction false} SelfStopped(prims: Prims, s: SelfRun, k: nat)
    requires WellFormed(s.code) && (!s.r.Running? || k == 0)
    ensures SelfAfter(prims, s, k) == s
    decreases k
  {
    if k > 0 { SelfStopped(prims, s, k - 1); }
  }

  /** The rewriting run gets to where its program point settles, however the branches on the
      way are rewritten meanwhile: every turn looks at a branch for the first time, or leaves
      the code alone and has one branch less to go. */
  lemma {:induction false} SelfSettles(prims: Prims, code: seq<Cell>, m: Vm, n: nat) returns (j: nat, code': seq<Cell>)
    requires WellFormed(code) && !GotoAt(code, Chase(code, m.ip, n))
    ensures Equivalent(code', code)
    ensures SelfAfter(prims, SelfRun(code, Running(m)), j) == SelfRun(code', Running(m.(ip := Chase(code, m.ip, n))))
    decreases CheckSet(code), n
  {
    var s, q := SelfRun(code, Running(m)), Chase(code, m.ip, n);
    if !GotoAt(code, m.ip) {
      EquivalentSame(code);
      j, code' := 0, code;
      assert m.(ip := m.ip) == m;
    } else {
      var next := GotoNext(prims, code, m);
      var n' := SettlesOn(code, m.ip, n, next.code);
      OptimizedEquivalent(code, m.ip);
      var i;
      i, code' := SelfSettles(prims, next.code, next.r.m, n');
      EquivalentTrans(code', next.code, code);
      j := i + 1;
      SelfUnfold(prims, s, j);
      assert next.r.m.(ip := q) == m.(ip := q);
    }
  }

  lemma GotoNext(prims: Prims, code: seq<Cell>, m: Vm) returns (next: SelfRun)
    requires WellFormed(code) && GotoAt(code, m.ip)
    ensures next == SelfStep(prims, SelfRun(code, Running(m))) && next.code == Optimized(code, m.ip)
    ensures HasOperand(next.code, m.ip) && next.r == Running(m.(ip := Destination(next.code, m.ip)))
  {
    next := SelfStep(prims, SelfRun(code, Running(m)));
    GotoSame(next.code, code, m.ip);
    GotoStep(Mach(next.code, prims), m);
  }

  /** Behind a branch that has been looked at, n branches less one, or a smaller set to look at. */
  lemma SettlesOn(code: seq<Cell>, x: int, n: nat, next: seq<Cell>) returns (n': nat)
    requires WellFormed(code) && !GotoAt(code, Chase(code, x, n)) && GotoAt(code, x)
    requires next == Optimized(code, x)
    ensures HasOperand(next, x) && Chase(next, Destination(next, x), n') == Chase(code, x, n)
    ensures !GotoAt(next, Chase(code, x, n))
    ensures CheckSet(next) < CheckSet(code) || (next == code && n' < n)
  {
    var q := Chase(code, x, n);
    GotoSame(next, code, q);
    GotoSame(next, code, x);
    assert JumpOk(next, x) && JumpOk(code, x);
    if IsCheck(code[x]) {
      assert x in CheckSet(code) && x !in CheckSet(next);
      OptimizedEquivalent(code, x);
      assert Settles(code, x, q) && SameSettling(next, x, code, x);
      SettlesNext(next, x, q);
      n' :| Chase(next, Destination(next, x), n') == q;
    } else {
      n' := n - 1;
    }
  }

  lemma {:induction false} PlainToSelf(prims: Prims, code': seq<Cell>, m': Vm, code: seq<Cell>, m: Vm, k: nat, r: Run)
    requires Related(code', m', code, m) && !r.Running? && After(Mach(code, prims), Running(m), k) == r
    ensures SelfReaches(prims, code', m', r)
    decreases k, 1
  {
    var mc := Mach(code, prims);
    assert k > 0 && After(mc, Step(mc, m), k - 1) == r;
    if GotoAt(code, m.ip) {
      GotoStep(mc, m);
      GotoBehind(code', m', code, m);
      PlainToSelf(prims, code', m', code, m.(ip := Destination(code, m.ip)), k - 1, r);
    } else {
      SelfTurn(prims, code', m', code, m, k, r);
    }
  }

  lemma GotoBehind(code': seq<Cell>, m': Vm, code: seq<Cell>, m: Vm)
    requires Related(code', m', code, m) && GotoAt(code, m.ip)
    ensures HasOperand(code, m.ip) && Related(code', m', code, m.(ip := Destination(code, m.ip)))
  {
    assert JumpOk(code, m.ip);
    forall q ensures Settles(code', m'.ip, q) <==> Settles(code, Destination(code, m.ip), q) {
      SettlesNext(code, m.ip, q);
    }
  }

  /** The rewriting run comes to the instruction the plain one is about to run, and runs it. */
  lemma {:induction false} SelfTurn(prims: Prims, code': seq<Cell>, m': Vm, code: seq<Cell>, m: Vm, k: nat, r: Run)
    requires Related(code', m', code, m) && !r.Running? && k > 0 && After(Mach(code, prims), Step(Mach(code, prims), m), k - 1) == r
    requires !GotoAt(code, m.ip)
    ensures SelfReaches(prims, code', m', r)
    decreases k, 0
  {
    SettlesHere(code, m.ip);
    assert Settles(code', m'.ip, m.ip);
    var n: nat :| Chase(code', m'.ip, n) == m.ip;
    var j, c := SelfSettles(prims, code', m', n);
    assert m'.(ip := m.ip) == m;
    var at := SelfRun(c, Running(m));
    var next := SelfStep(prims, at);
    EquivalentTrans(c, code', code);
    OptimizedEquivalent(c, m.ip);
    EquivalentTrans(next.code, c, code);
    StepSame(prims, next.code, code, m);
    var i := SelfRest(prims, next, code, Step(Mach(code, prims), m), k - 1, r);
    SelfAfterAdd(prims, SelfRun(code', Running(m')), j, i + 1);
    assert SelfAfter(prims, at, i + 1) == SelfAfter(prims, next, i);
  }

  lemma {:induction false} SelfRest(prims: Prims, next: SelfRun, code: seq<Cell>, plain: Run, k: nat, r: Run) returns (i: nat)
    requires WellFormed(next.code) && SameOutcome(next.code, next.r, code, plain)
    requires !r.Running? && After(Mach(code, prims), plain, k) == r
    ensures SelfAfter(prims, next, i).r == r
    decreases k, 2
  {
    if next.r.Running? {
      PlainToSelf(prims, next.code, next.r.m, code, plain.m, k, r);
      i :| SelfAfter(prims, SelfRun(next.code, Running(next.r.m)), i).r == r;
      assert SelfRun(next.code, Running(next.r.m)) == next;
    } else {
      AfterStopped(Mach(code, prims), plain, k);
      i := 0;
    }
  }

  /** For every well-formed code, cycles of branches included, the interpreter that rewrites
      branches returns, with the same stacks, or faults, exactly when the plain one does. */
  lemma RewritingIsInvisible(prims: Prims, code: seq<Cell>, m: Vm, r: Run)
    requires WellFormed(code) && !r.Running?
    ensures SelfReaches(prims, code, m, r) <==> Reaches(Mach(code, prims), m, r)
  {
    EquivalentSame(code);
    SamePoint(code, code, m);
    if SelfReaches(prims, code, m, r) {
      var k: nat :| SelfAfter(prims, SelfRun(code, Running(m)), k).r == r;
      SelfToPlain(prims, code, m, code, m, k, r);
    }
    if Reaches(Mach(code, prims), m, r) {
      var k: nat :| After(Mach(code, prims), Running(m), k) == r;
      PlainToSelf(prims, code, m, code, m, k, r);
    }
  }
}
