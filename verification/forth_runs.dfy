/** Compiler correctness: running the code of a program does what the direct evaluation of
    its source does. */
module ForthRuns {
  import opened ForthCode
  import opened ForthMachine
  import opened Words

  // ----- Runs -----

  lemma {:induction false} AfterAdd(mc: Mach, r: Run, j: nat, k: nat)
    ensures After(mc, r, j + k) == After(mc, After(mc, r, j), k)
    decreases j
  {
    if j > 0 { AfterAdd(mc, StepRun(mc, r), j - 1, k); }
  }

  lemma {:induction false} AfterStopped(mc: Mach, r: Run, k: nat)
    requires !r.Running?
    ensures After(mc, r, k) == r
    decreases k
  {
    if k > 0 { AfterStopped(mc, r, k - 1); }
  }

  /** A run that goes on for long has gone on for less. */
  lemma StillBefore(mc: Mach, m: Vm, j: nat, k: nat)
    requires StillRunning(mc, m, k) && j <= k
    ensures StillRunning(mc, m, j)
  {
    AfterAdd(mc, Running(m), j, k - j);
    if !After(mc, Running(m), j).Running? { AfterStopped(mc, After(mc, Running(m), j), k - j); }
  }

  // ----- Outcomes -----

  /** From m the machine does what the evaluation says: it gets to `end` with these stacks,
      or to where LEAVE goes, or faults, or goes on for at least `fuel` turns. */
  ghost predicate Does(mc: Mach, m: Vm, out: Out, end: int, rs: seq<int>, fuel: nat) {
    match out
    case Done(ds) => Reaches(mc, m, Running(Vm(end, ds, rs)))
    case Left(ds) => |rs| >= 3 && Reaches(mc, m, Running(Vm(rs[|rs| - 3], ds, rs[..|rs| - 3])))
    case Fault => Reaches(mc, m, Faulted)
    case NoFuel => StillRunning(mc, m, fuel)
  }

  /** The same for every n.  The recursion keeps the runs that Does speaks of, which are
      quantified, out of the solver's sight: with n unknown it sees only the name, until Unseal
      is called.  Lemmas pass n on unchanged. */
  ghost predicate Agrees(n: nat, mc: Mach, m: Vm, out: Out, end: int, rs: seq<int>, fuel: nat)
    decreases n
  {
    if n == 0 then Does(mc, m, out, end, rs, fuel) else Agrees(n - 1, mc, m, out, end, rs, fuel)
  }

  lemma {:induction false} Unseal(n: nat, mc: Mach, m: Vm, out: Out, end: int, rs: seq<int>, fuel: nat)
    ensures Agrees(n, mc, m, out, end, rs, fuel) <==> Does(mc, m, out, end, rs, fuel)
    decreases n
  {
    if n > 0 { Unseal(n - 1, mc, m, out, end, rs, fuel); }
  }

  lemma AlreadyDone(n: nat, mc: Mach, ds: seq<int>, end: int, rs: seq<int>, fuel: nat)
    ensures Agrees(n, mc, Vm(end, ds, rs), Done(ds), end, rs, fuel)
  {
    Unseal(n, mc, Vm(end, ds, rs), Done(ds), end, rs, fuel);
    assert After(mc, Running(Vm(end, ds, rs)), 0) == Running(Vm(end, ds, rs));
  }

  lemma NoTurns(n: nat, mc: Mach, m: Vm, end: int, rs: seq<int>)
    ensures Agrees(n, mc, m, NoFuel, end, rs, 0)
  {
    Unseal(n, mc, m, NoFuel, end, rs, 0);
  }

  lemma ReachesThen(mc: Mach, m: Vm, m2: Vm, r: Run)
    requires Reaches(mc, m, Running(m2)) && Reaches(mc, m2, r)
    ensures Reaches(mc, m, r)
  {
    var j: nat :| After(mc, Running(m), j) == Running(m2);
    var k: nat :| After(mc, Running(m2), k) == r;
    AfterAdd(mc, Running(m), j, k);
  }

  lemma RunningThen(mc: Mach, m: Vm, m2: Vm, k: nat)
    requires Reaches(mc, m, Running(m2)) && StillRunning(mc, m2, k)
    ensures StillRunning(mc, m, k)
  {
    var j: nat :| After(mc, Running(m), j) == Running(m2);
    AfterAdd(mc, Running(m), j, k);
    StillBefore(mc, m, k, j + k);
  }

  lemma DoesThen(mc: Mach, m: Vm, m2: Vm, out: Out, end: int, rs: seq<int>, fuel: nat)
    requires Reaches(mc, m, Running(m2)) && Does(mc, m2, out, end, rs, fuel)
    ensures Does(mc, m, out, end, rs, fuel)
  {
    match out
    case Done(ds) => ReachesThen(mc, m, m2, Running(Vm(end, ds, rs)));
    case Left(ds) => ReachesThen(mc, m, m2, Running(Vm(rs[|rs| - 3], ds, rs[..|rs| - 3])));
    case Fault => ReachesThen(mc, m, m2, Faulted);
    case NoFuel => RunningThen(mc, m, m2, fuel);
  }

  /** One thing after another. */
  lemma AgreesThen(n: nat, mc: Mach, m: Vm, out: Out, mid: int, out': Out, end: int, rs: seq<int>, fuel: nat)
    requires Agrees(n, mc, m, out, mid, rs, fuel)
    requires out.Done? ==> Agrees(n, mc, Vm(mid, out.ds, rs), out', end, rs, fuel)
    ensures Agrees(n, mc, m, if out.Done? then out' else out, end, rs, fuel)
  {
    Unseal(n, mc, m, out, mid, rs, fuel);
    if out.Done? {
      Unseal(n, mc, Vm(mid, out.ds, rs), out', end, rs, fuel);
      DoesThen(mc, m, Vm(mid, out.ds, rs), out', end, rs, fuel);
    }
    Unseal(n, mc, m, if out.Done? then out' else out, end, rs, fuel);
  }

  /** A turn and what follows: it counts as one turn more. */
  lemma TurnThen(n: nat, mc: Mach, m: Vm, m2: Vm, out: Out, end: int, rs: seq<int>, fuel: nat, fuel': nat)
    requires Step(mc, m) == Running(m2) && Agrees(n, mc, m2, out, end, rs, fuel') && fuel <= fuel' + 1
    ensures Agrees(n, mc, m, out, end, rs, fuel)
  {
    Unseal(n, mc, m2, out, end, rs, fuel');
    Unseal(n, mc, m, out, end, rs, fuel);
    assert After(mc, StepRun(mc, Running(m)), 0) == Running(m2);
    assert After(mc, Running(m), 1) == Running(m2);
    if out.NoFuel? {
      assert StepRun(mc, Running(m)) == Running(m2);
      assert StillRunning(mc, m, fuel' + 1);
      StillBefore(mc, m, fuel, fuel' + 1);
    } else {
      DoesThen(mc, m, m2, out, end, rs, fuel');
    }
  }

  lemma FaultsHere(n: nat, mc: Mach, m: Vm, end: int, rs: seq<int>, fuel: nat)
    requires Step(mc, m) == Faulted
    ensures Agrees(n, mc, m, Fault, end, rs, fuel)
  {
    Unseal(n, mc, m, Fault, end, rs, fuel);
    assert After(mc, Running(m), 1) == After(mc, StepRun(mc, Running(m)), 0);
  }

  /** An outcome that does not depend on where the code ends. */
  lemma AgreesAnywhere(n: nat, mc: Mach, m: Vm, out: Out, end: int, rs: seq<int>, fuel: nat, end': int, rs': seq<int>)
    requires Agrees(n, mc, m, out, end, rs, fuel) && (out.Fault? || out.NoFuel?)
    ensures Agrees(n, mc, m, out, end', rs', fuel)
  {
    Unseal(n, mc, m, out, end, rs, fuel);
    Unseal(n, mc, m, out, end', rs', fuel);
  }

  /** LEAVE ends the loop around it. */
  lemma LeftIsDone(n: nat, mc: Mach, m: Vm, ds: seq<int>, end: int, rs: seq<int>, leave: int, limit: int, index: int, fuel: nat)
    requires Agrees(n, mc, m, Left(ds), end, rs + [leave, limit, index], fuel)
    ensures Agrees(n, mc, m, Done(ds), leave, rs, fuel)
  {
    var inner := rs + [leave, limit, index];
    Unseal(n, mc, m, Left(ds), end, inner, fuel);
    Unseal(n, mc, m, Done(ds), leave, rs, fuel);
    assert inner[..|inner| - 3] == rs;
  }

  // ----- Code in place -----

  /** The cells c are in the code at p, for every k.  The recursion keeps the equation between
      sequences out of the solver's sight, which would compare all slices with each other;
      LocatedIs brings it back where it is needed. */
  predicate Located(code: seq<Cell>, p: int, c: seq<Cell>, k: nat)
    requires 0 <= p && p + |c| <= |code|
    decreases k
  {
    if k == 0 then code[p..p + |c|] == c else Located(code, p, c, k - 1)
  }

  /** The same, with bounds. */
  predicate At(code: seq<Cell>, p: int, c: seq<Cell>) {
    0 <= p && p + |c| <= |code| && Located(code, p, c, |code| + 2)
  }

  lemma {:induction false} LocatedIs(code: seq<Cell>, p: int, c: seq<Cell>, k: nat)
    requires 0 <= p && p + |c| <= |code|
    ensures Located(code, p, c, k) <==> code[p..p + |c|] == c
    decreases k
  {
    if k > 0 { LocatedIs(code, p, c, k - 1); }
  }

  lemma AtIs(code: seq<Cell>, p: int, c: seq<Cell>)
    requires 0 <= p && p + |c| <= |code|
    ensures At(code, p, c) <==> code[p..p + |c|] == c
  {
    LocatedIs(code, p, c, |code| + 2);
  }

  lemma AtParts(code: seq<Cell>, p: int, a: seq<Cell>, b: seq<Cell>)
    requires At(code, p, a + b)
    ensures At(code, p, a) && At(code, p + |a|, b)
  {
    var c := code[p..p + |a + b|];
    AtIs(code, p, a + b);
    AtIs(code, p, a);
    AtIs(code, p + |a|, b);
    assert a == c[..|a|] && b == c[|a|..];
  }

  lemma AtPair(code: seq<Cell>, p: int, x: Cell, y: Cell)
    requires At(code, p, [x, y])
    ensures p + 1 < |code| && code[p] == x && code[p + 1] == y
  {
    AtIs(code, p, [x, y]);
    assert code[p..p + 2][0] == x && code[p..p + 2][1] == y;
  }

  lemma AtOne(code: seq<Cell>, p: int, x: Cell)
    requires At(code, p, [x])
    ensures p < |code| && code[p] == x
  {
    AtIs(code, p, [x]);
    assert code[p..p + 1][0] == x;
  }

  // ----- One instruction -----

  /** A branch on zero; `yes` is what follows a flag that is not zero. */
  lemma DoesBranch0(n: nat, mc: Mach, p: int, off: int, ds: seq<int>, rs: seq<int>, yes: Out, no: Out, end: int, fuel: nat, fy: nat, fn: nat)
    requires At(mc.code, p, [Instr(Branch0Check), Num(off)]) && fuel <= fy + 1 && fuel <= fn + 1
    requires ds != [] && Top(ds) != 0 ==> Agrees(n, mc, Vm(p + 2, Popped(ds, 1), rs), yes, end, rs, fy)
    requires ds != [] && Top(ds) == 0 ==> Agrees(n, mc, Vm(p + 1 + off, Popped(ds, 1), rs), no, end, rs, fn)
    ensures Agrees(n, mc, Vm(p, ds, rs), if ds == [] then Fault else if Top(ds) != 0 then yes else no, end, rs, fuel)
  {
    AtPair(mc.code, p, Instr(Branch0Check), Num(off));
    var m := Vm(p, ds, rs);
    assert Step(mc, m) == StepBranch0(mc, m);
    if ds == [] { FaultsHere(n, mc, m, end, rs, fuel); }
    else if Top(ds) != 0 { TurnThen(n, mc, m, Vm(p + 2, Popped(ds, 1), rs), yes, end, rs, fuel, fy); }
    else { TurnThen(n, mc, m, Vm(p + 1 + off, Popped(ds, 1), rs), no, end, rs, fuel, fn); }
  }

  lemma DoesBranch(n: nat, mc: Mach, p: int, off: int, ds: seq<int>, rs: seq<int>, out: Out, end: int, fuel: nat, fuel': nat)
    requires At(mc.code, p, [Instr(BranchCheck), Num(off)]) && fuel <= fuel' + 1
    requires Agrees(n, mc, Vm(p + 1 + off, ds, rs), out, end, rs, fuel')
    ensures Agrees(n, mc, Vm(p, ds, rs), out, end, rs, fuel)
  {
    AtPair(mc.code, p, Instr(BranchCheck), Num(off));
    TurnThen(n, mc, Vm(p, ds, rs), Vm(p + 1 + off, ds, rs), out, end, rs, fuel, fuel');
  }

  /** OF; `yes` is what follows when the two are equal. */
  lemma DoesOf(n: nat, mc: Mach, p: int, off: int, ds: seq<int>, rs: seq<int>, yes: Out, no: Out, end: int, fuel: nat)
    requires At(mc.code, p, [Instr(OfParen), Num(off)])
    requires |ds| >= 2 && Top(ds) == ds[|ds| - 2] ==> Agrees(n, mc, Vm(p + 2, Popped(ds, 2), rs), yes, end, rs, fuel)
    requires |ds| >= 2 && Top(ds) != ds[|ds| - 2] ==> Agrees(n, mc, Vm(p + 1 + off, Popped(ds, 1), rs), no, end, rs, fuel)
    ensures Agrees(n, mc, Vm(p, ds, rs), if |ds| < 2 then Fault else if Top(ds) == ds[|ds| - 2] then yes else no, end, rs, fuel)
  {
    AtPair(mc.code, p, Instr(OfParen), Num(off));
    var m := Vm(p, ds, rs);
    assert Step(mc, m) == StepOf(mc, m);
    if |ds| < 2 { FaultsHere(n, mc, m, end, rs, fuel); }
    else if Top(ds) == ds[|ds| - 2] { TurnThen(n, mc, m, Vm(p + 2, Popped(ds, 2), rs), yes, end, rs, fuel, fuel); }
    else { TurnThen(n, mc, m, Vm(p + 1 + off, Popped(ds, 1), rs), no, end, rs, fuel, fuel); }
  }

  lemma DoesDrop(n: nat, mc: Mach, p: int, ds: seq<int>, rs: seq<int>, fuel: nat)
    requires At(mc.code, p, [Instr(Drop)])
    ensures Agrees(n, mc, Vm(p, ds, rs), if ds == [] then Fault else Done(Popped(ds, 1)), p + 1, rs, fuel)
  {
    AtOne(mc.code, p, Instr(Drop));
    if ds == [] { FaultsHere(n, mc, Vm(p, ds, rs), p + 1, rs, fuel); }
    else {
      AlreadyDone(n, mc, Popped(ds, 1), p + 1, rs, fuel);
      TurnThen(n, mc, Vm(p, ds, rs), Vm(p + 1, Popped(ds, 1), rs), Done(Popped(ds, 1)), p + 1, rs, fuel, fuel);
    }
  }

  /** DO: the loop parameters go to the return stack; ?DO may skip the loop. */
  lemma DoesDo(n: nat, mc: Mach, p: int, maybe: bool, end: int, ds: seq<int>, rs: seq<int>, out: Out, fuel: nat)
    requires At(mc.code, p, [Instr(if maybe then QDoParen else DoParen), Num(end)])
    requires |ds| >= 2 && !(maybe && ds[|ds| - 2] == Top(ds)) ==>
             Agrees(n, mc, Vm(p + 2, Popped(ds, 2), rs + [end, ds[|ds| - 2], Top(ds)]), out, end, rs, fuel)
    ensures Agrees(n, mc, Vm(p, ds, rs), if |ds| < 2 then Fault
                                         else if maybe && ds[|ds| - 2] == Top(ds) then Done(Popped(ds, 2)) else out, end, rs, fuel)
  {
    AtPair(mc.code, p, Instr(if maybe then QDoParen else DoParen), Num(end));
    var m := Vm(p, ds, rs);
    assert Step(mc, m) == StepDo(mc, m, maybe);
    if |ds| < 2 { FaultsHere(n, mc, m, end, rs, fuel); }
    else if maybe && ds[|ds| - 2] == Top(ds) {
      AlreadyDone(n, mc, Popped(ds, 2), end, rs, fuel);
      TurnThen(n, mc, m, Vm(end, Popped(ds, 2), rs), Done(Popped(ds, 2)), end, rs, fuel, fuel);
    } else {
      TurnThen(n, mc, m, Vm(p + 2, Popped(ds, 2), rs + [end, ds[|ds| - 2], Top(ds)]), out, end, rs, fuel, fuel);
    }
  }

  /** What LOOP or +LOOP makes of the data stack, and the next index. */
  function LoopStack(plus: bool, ds: seq<int>): seq<int>
    requires plus ==> ds != []
  {
    if plus then Popped(ds, 1) else ds
  }

  function LoopBy(plus: bool, ds: seq<int>): int
    requires plus ==> ds != []
  {
    if plus then Top(ds) else 1
  }

  lemma DoesLoop(n: nat, mc: Mach, p: int, plus: bool, off: int, ds: seq<int>, rs: seq<int>, leave: int, limit: int, index: int,
                 out: Out, fuel: nat, fuel': nat)
    requires At(mc.code, p, [Instr(if plus then PlusLoopParen else LoopParen), Num(off)]) && fuel <= fuel' + 1 && leave == p + 2
    requires (plus ==> ds != []) && !Crossed(limit, WrapCell(index + LoopBy(plus, ds)), LoopBy(plus, ds) < 0) ==>
             Agrees(n, mc, Vm(p + 1 + off, LoopStack(plus, ds), rs + [leave, limit, WrapCell(index + LoopBy(plus, ds))]), out, leave, rs, fuel')
    ensures Agrees(n, mc, Vm(p, ds, rs + [leave, limit, index]),
                   if plus && ds == [] then Fault
                   else if Crossed(limit, WrapCell(index + LoopBy(plus, ds)), LoopBy(plus, ds) < 0) then Done(LoopStack(plus, ds)) else out,
                   leave, rs, fuel)
  {
    AtPair(mc.code, p, Instr(if plus then PlusLoopParen else LoopParen), Num(off));
    var inner := rs + [leave, limit, index];
    var m := Vm(p, ds, inner);
    assert Step(mc, m) == StepLoop(mc, m, plus);
    assert Popped(inner, 3) == rs && Top(inner) == index && inner[|inner| - 2] == limit;
    if plus && ds == [] { FaultsHere(n, mc, m, leave, rs, fuel); }
    else {
      var next := WrapCell(index + LoopBy(plus, ds));
      assert Popped(inner, 1) + [next] == rs + [leave, limit, next];
      if Crossed(limit, next, LoopBy(plus, ds) < 0) {
        AlreadyDone(n, mc, LoopStack(plus, ds), leave, rs, fuel);
        TurnThen(n, mc, m, Vm(leave, LoopStack(plus, ds), rs), Done(LoopStack(plus, ds)), leave, rs, fuel, fuel);
      } else {
        TurnThen(n, mc, m, Vm(p + 1 + off, LoopStack(plus, ds), rs + [leave, limit, next]), out, leave, rs, fuel, fuel');
      }
    }
  }
}
