/** The induction over programs: every piece of code does what its source evaluates to. */
module ForthCorrect {
  import opened ForthCode
  import opened ForthMachine
  import opened Words
  import opened ForthRuns

  /** The indices of the enclosing loops are on the return stack, three entries a loop. */
  ghost predicate LoopsOn(loops: seq<int>, rs: seq<int>) {
    forall l: nat :: l < |loops| ==> 3 * l + 2 < |rs| && rs[|rs| - 1 - 3 * l] == loops[l]
  }

  lemma LoopsPush(loops: seq<int>, rs: seq<int>, leave: int, limit: int, index: int)
    requires LoopsOn(loops, rs)
    ensures LoopsOn([index] + loops, rs + [leave, limit, index])
  {
    var inner, more := rs + [leave, limit, index], [index] + loops;
    forall l: nat | l < |more| ensures 3 * l + 2 < |inner| && inner[|inner| - 1 - 3 * l] == more[l] {
      if l > 0 { assert more[l] == loops[l - 1]; }
    }
  }

  // ----- Statements -----

  lemma {:induction false} RunsStmt(n: nat, mc: Mach, s: Stmt, p: nat, ds: seq<int>, loops: seq<int>, rs: seq<int>, fuel: nat)
    requires n > 0 && At(mc.code, p, Code(s, p)) && Scoped(s, |loops|) && LoopsOn(loops, rs)
    ensures Agrees(n, mc, Vm(p, ds, rs), Eval(mc.prims, s, ds, loops, fuel), p + Size(s), rs, fuel)
    decreases fuel, s, 2
  {
    match s
    case IfThen(_) => RunsIfThen(n, mc, s, p, ds, loops, rs, fuel);
    case IfElse(_, _) => RunsIfElse(n, mc, s, p, ds, loops, rs, fuel);
    case Until(_) => RunsUntil(n, mc, s, p, ds, loops, rs, fuel);
    case Again(_) => RunsAgain(n, mc, s, p, ds, loops, rs, fuel);
    case While(_, _) => RunsWhile(n, mc, s, p, ds, loops, rs, fuel);
    case Do(_, _, _) => RunsDo(n, mc, s, p, ds, loops, rs, fuel);
    case Case(_, _) => RunsChoice(n, mc, s, p, ds, loops, rs, fuel);
    case _ => RunsSimple(n, mc, s, p, ds, loops, rs, fuel);
  }

  lemma RunsSimple(n: nat, mc: Mach, s: Stmt, p: nat, ds: seq<int>, loops: seq<int>, rs: seq<int>, fuel: nat)
    requires n > 0 && At(mc.code, p, Code(s, p)) && Scoped(s, |loops|) && LoopsOn(loops, rs)
    requires s.Lit? || s.Word? || s.Index? || s.Leave?
    ensures Agrees(n, mc, Vm(p, ds, rs), Eval(mc.prims, s, ds, loops, fuel), p + Size(s), rs, fuel)
  {
    match s
    case Lit(v) => RunsLit(n, mc, v, p, ds, rs, fuel);
    case Word(w) =>
      AtOne(mc.code, p, Instr(Prim(w)));
      match mc.prims(w, ds) {
        case Throws => FaultsHere(n, mc, Vm(p, ds, rs), p + 1, rs, fuel);
        case Effect(d) =>
          AlreadyDone(n, mc, d, p + 1, rs, fuel);
          TurnThen(n, mc, Vm(p, ds, rs), Vm(p + 1, d, rs), Done(d), p + 1, rs, fuel, fuel);
      }
    case Index(l) =>
      AtOne(mc.code, p, Instr(LoopIndex(l)));
      assert rs[|rs| - 1 - 3 * l] == loops[l];
      AlreadyDone(n, mc, ds + [loops[l]], p + 1, rs, fuel);
      TurnThen(n, mc, Vm(p, ds, rs), Vm(p + 1, ds + [loops[l]], rs), Done(ds + [loops[l]]), p + 1, rs, fuel, fuel);
    case Leave => RunsLeave(n, mc, p, ds, loops, rs, fuel);
  }

  lemma RunsLit(n: nat, mc: Mach, v: int, p: nat, ds: seq<int>, rs: seq<int>, fuel: nat)
    requires n > 0 && At(mc.code, p, LitCells(v))
    ensures Agrees(n, mc, Vm(p, ds, rs), Done(ds + [v]), p + LitSize(v), rs, fuel)
  {
    AlreadyDone(n, mc, ds + [v], p + LitSize(v), rs, fuel);
    if -16 <= v <= 16 { AtOne(mc.code, p, Instr(Small(v))); } else { AtPair(mc.code, p, Instr(Literal), Num(v)); }
    TurnThen(n, mc, Vm(p, ds, rs), Vm(p + LitSize(v), ds + [v], rs), Done(ds + [v]), p + LitSize(v), rs, fuel, fuel);
  }

  lemma RunsLeave(n: nat, mc: Mach, p: nat, ds: seq<int>, loops: seq<int>, rs: seq<int>, fuel: nat)
    requires n > 0 && At(mc.code, p, [Instr(LeaveOp)]) && |loops| > 0 && LoopsOn(loops, rs)
    ensures Agrees(n, mc, Vm(p, ds, rs), Left(ds), p + 1, rs, fuel)
  {
    AtOne(mc.code, p, Instr(LeaveOp));
    assert 3 * 0 + 2 < |rs| && rs[|rs| - 1 - 3 * 0] == loops[0];
    var m := Vm(rs[|rs| - 3], ds, rs[..|rs| - 3]);
    Unseal(n, mc, m, Left(ds), p + 1, rs, fuel);
    assert After(mc, Running(m), 0) == Running(m);
    TurnThen(n, mc, Vm(p, ds, rs), m, Left(ds), p + 1, rs, fuel, fuel);
  }

  lemma {:induction false} RunsIfThen(n: nat, mc: Mach, s: Stmt, p: nat, ds: seq<int>, loops: seq<int>, rs: seq<int>, fuel: nat)
    requires n > 0 && At(mc.code, p, Code(s, p)) && Scoped(s, |loops|) && LoopsOn(loops, rs) && s.IfThen?
    ensures Agrees(n, mc, Vm(p, ds, rs), Eval(mc.prims, s, ds, loops, fuel), p + Size(s), rs, fuel)
    decreases fuel, s, 0
  {
    var end, d := p + Size(s), if ds == [] then ds else Popped(ds, 1);
    AtParts(mc.code, p, [Instr(Branch0Check), Num(Sizes(s.yes) + 1)], Codes(s.yes, p + 2));
    RunsBlock(n, mc, s.yes, p + 2, d, loops, rs, fuel);
    AlreadyDone(n, mc, d, end, rs, fuel);
    DoesBranch0(n, mc, p, Sizes(s.yes) + 1, ds, rs, EvalBlock(mc.prims, s.yes, d, loops, fuel), Done(d), end, fuel, fuel, fuel);
  }

  lemma {:induction false} RunsIfElse(n: nat, mc: Mach, s: Stmt, p: nat, ds: seq<int>, loops: seq<int>, rs: seq<int>, fuel: nat)
    requires n > 0 && At(mc.code, p, Code(s, p)) && Scoped(s, |loops|) && LoopsOn(loops, rs) && s.IfElse?
    ensures Agrees(n, mc, Vm(p, ds, rs), Eval(mc.prims, s, ds, loops, fuel), p + Size(s), rs, fuel)
    decreases fuel, s, 1
  {
    var end, d := p + Size(s), if ds == [] then ds else Popped(ds, 1);
    var no := EvalBlock(mc.prims, s.no, d, loops, fuel);
    IfElseParts(mc.code, p, s.yes, s.no);
    var yes := RunsYes(n, mc, s, p, d, loops, rs, fuel);
    RunsBlock(n, mc, s.no, p + 4 + Sizes(s.yes), d, loops, rs, fuel);
    DoesBranch0(n, mc, p, Sizes(s.yes) + 3, ds, rs, yes, no, end, fuel, fuel, fuel);
  }

  /** What follows a flag that is not zero, and the branch past the other part. */
  lemma {:induction false} RunsYes(n: nat, mc: Mach, s: Stmt, p: nat, d: seq<int>, loops: seq<int>, rs: seq<int>, fuel: nat) returns (yes: Out)
    requires n > 0 && At(mc.code, p, Code(s, p)) && Scoped(s, |loops|) && LoopsOn(loops, rs) && s.IfElse?
    ensures yes == EvalBlock(mc.prims, s.yes, d, loops, fuel)
    ensures Agrees(n, mc, Vm(p + 2, d, rs), yes, p + Size(s), rs, fuel)
    decreases fuel, s, 0
  {
    var end := p + Size(s);
    IfElseParts(mc.code, p, s.yes, s.no);
    RunsBlock(n, mc, s.yes, p + 2, d, loops, rs, fuel);
    yes := EvalBlock(mc.prims, s.yes, d, loops, fuel);
    if yes.Done? {
      AlreadyDone(n, mc, yes.ds, end, rs, fuel);
      DoesBranch(n, mc, p + 2 + Sizes(s.yes), Sizes(s.no) + 1, yes.ds, rs, yes, end, fuel, fuel);
    }
    AgreesThen(n, mc, Vm(p + 2, d, rs), yes, p + 2 + Sizes(s.yes), yes, end, rs, fuel);
  }

  lemma IfElseParts(code: seq<Cell>, p: nat, yes: Block, no: Block)
    requires At(code, p, Code(IfElse(yes, no), p))
    ensures At(code, p, [Instr(Branch0Check), Num(Sizes(yes) + 3)]) && At(code, p + 2, Codes(yes, p + 2))
    ensures At(code, p + 2 + Sizes(yes), [Instr(BranchCheck), Num(Sizes(no) + 1)]) && At(code, p + 4 + Sizes(yes), Codes(no, p + 4 + Sizes(yes)))
  {
    FourParts(code, p, [Instr(Branch0Check), Num(Sizes(yes) + 3)], Codes(yes, p + 2), [Instr(BranchCheck), Num(Sizes(no) + 1)],
              Codes(no, p + 4 + Sizes(yes)));
  }

  lemma FourParts(code: seq<Cell>, p: int, a: seq<Cell>, b: seq<Cell>, c: seq<Cell>, d: seq<Cell>)
    requires At(code, p, a + b + c + d)
    ensures At(code, p, a) && At(code, p + |a|, b) && At(code, p + |a| + |b|, c) && At(code, p + |a| + |b| + |c|, d)
  {
    AtParts(code, p, a + b + c, d);
    AtParts(code, p, a + b, c);
    AtParts(code, p, a, b);
  }

  lemma {:induction false} RunsUntil(n: nat, mc: Mach, s: Stmt, p: nat, ds: seq<int>, loops: seq<int>, rs: seq<int>, fuel: nat)
    requires n > 0 && At(mc.code, p, Code(s, p)) && Scoped(s, |loops|) && LoopsOn(loops, rs) && s.Until?
    ensures Agrees(n, mc, Vm(p, ds, rs), Eval(mc.prims, s, ds, loops, fuel), p + Size(s), rs, fuel)
    decreases fuel, s, 1
  {
    if fuel == 0 {
      NoTurns(n, mc, Vm(p, ds, rs), p + Size(s), rs);
    } else {
      AtParts(mc.code, p, Codes(s.body, p), [Instr(Branch0Check), Num(-(Sizes(s.body) + 1))]);
      var o := EvalBlock(mc.prims, s.body, ds, loops, fuel);
      RunsBlock(n, mc, s.body, p, ds, loops, rs, fuel);
      if o.Done? { RunsUntilEnd(n, mc, s, p, o.ds, loops, rs, fuel); }
      AgreesThen(n, mc, Vm(p, ds, rs), o, p + Sizes(s.body), if o.Done? then UntilEnd(mc.prims, s, o.ds, loops, fuel) else o,
                 p + Size(s), rs, fuel);
    }
  }

  /** What UNTIL leads to. */
  function UntilEnd(prims: Prims, s: Stmt, ds: seq<int>, loops: seq<int>, fuel: nat): Out
    requires s.Until? && fuel > 0
  {
    if ds == [] then Fault
    else if Top(ds) != 0 then Done(Popped(ds, 1)) else Eval(prims, s, Popped(ds, 1), loops, fuel - 1)
  }

  lemma {:induction false} RunsUntilEnd(n: nat, mc: Mach, s: Stmt, p: nat, ds: seq<int>, loops: seq<int>, rs: seq<int>, fuel: nat)
    requires n > 0 && At(mc.code, p, Code(s, p)) && Scoped(s, |loops|) && LoopsOn(loops, rs) && s.Until? && fuel > 0
    ensures Agrees(n, mc, Vm(p + Sizes(s.body), ds, rs), UntilEnd(mc.prims, s, ds, loops, fuel), p + Size(s), rs, fuel)
    decreases fuel, s, 0
  {
    var end, q, off := p + Size(s), p + Sizes(s.body), -(Sizes(s.body) + 1);
    AtParts(mc.code, p, Codes(s.body, p), [Instr(Branch0Check), Num(off)]);
    var d := if ds == [] then ds else Popped(ds, 1);
    AlreadyDone(n, mc, d, end, rs, fuel);
    RunsUntil(n, mc, s, p, d, loops, rs, fuel - 1);
    DoesBranch0(n, mc, q, off, ds, rs, Done(d), Eval(mc.prims, s, d, loops, fuel - 1), end, fuel, fuel, fuel - 1);
  }

  lemma {:induction false} RunsAgain(n: nat, mc: Mach, s: Stmt, p: nat, ds: seq<int>, loops: seq<int>, rs: seq<int>, fuel: nat)
    requires n > 0 && At(mc.code, p, Code(s, p)) && Scoped(s, |loops|) && LoopsOn(loops, rs) && s.Again?
    ensures Agrees(n, mc, Vm(p, ds, rs), Eval(mc.prims, s, ds, loops, fuel), p + Size(s), rs, fuel)
    decreases fuel, s, 1
  {
    if fuel == 0 {
      NoTurns(n, mc, Vm(p, ds, rs), p + Size(s), rs);
    } else {
      AtParts(mc.code, p, Codes(s.body, p), [Instr(BranchCheck), Num(-(Sizes(s.body) + 1))]);
      var o := EvalBlock(mc.prims, s.body, ds, loops, fuel);
      RunsBlock(n, mc, s.body, p, ds, loops, rs, fuel);
      if o.Done? { RunsAgainEnd(n, mc, s, p, o.ds, loops, rs, fuel); }
      AgreesThen(n, mc, Vm(p, ds, rs), o, p + Sizes(s.body), if o.Done? then Eval(mc.prims, s, o.ds, loops, fuel - 1) else o,
                 p + Size(s), rs, fuel);
    }
  }

  lemma {:induction false} RunsAgainEnd(n: nat, mc: Mach, s: Stmt, p: nat, ds: seq<int>, loops: seq<int>, rs: seq<int>, fuel: nat)
    requires n > 0 && At(mc.code, p, Code(s, p)) && Scoped(s, |loops|) && LoopsOn(loops, rs) && s.Again? && fuel > 0
    ensures Agrees(n, mc, Vm(p + Sizes(s.body), ds, rs), Eval(mc.prims, s, ds, loops, fuel - 1), p + Size(s), rs, fuel)
    decreases fuel, s, 0
  {
    var q, off := p + Sizes(s.body), -(Sizes(s.body) + 1);
    AtParts(mc.code, p, Codes(s.body, p), [Instr(BranchCheck), Num(off)]);
    RunsAgain(n, mc, s, p, ds, loops, rs, fuel - 1);
    DoesBranch(n, mc, q, off, ds, rs, Eval(mc.prims, s, ds, loops, fuel - 1), p + Size(s), fuel, fuel - 1);
  }

  lemma {:induction false} RunsWhile(n: nat, mc: Mach, s: Stmt, p: nat, ds: seq<int>, loops: seq<int>, rs: seq<int>, fuel: nat)
    requires n > 0 && At(mc.code, p, Code(s, p)) && Scoped(s, |loops|) && LoopsOn(loops, rs) && s.While?
    ensures Agrees(n, mc, Vm(p, ds, rs), Eval(mc.prims, s, ds, loops, fuel), p + Size(s), rs, fuel)
    decreases fuel, s, 0
  {
    var end, q := p + Size(s), p + Sizes(s.test);
    if fuel == 0 {
      NoTurns(n, mc, Vm(p, ds, rs), end, rs);
    } else {
      WhileParts(mc.code, p, s.test, s.body);
      var t := EvalBlock(mc.prims, s.test, ds, loops, fuel);
      RunsBlock(n, mc, s.test, p, ds, loops, rs, fuel);
      if t.Done? {
        var d := if t.ds == [] then ds else Popped(t.ds, 1);
        var turn := RunsWhileBody(n, mc, s, p, d, loops, rs, fuel);
        AlreadyDone(n, mc, d, end, rs, fuel);
        DoesBranch0(n, mc, q, Sizes(s.body) + 3, t.ds, rs, turn, Done(d), end, fuel, fuel, fuel);
        AgreesThen(n, mc, Vm(p, ds, rs), t, q, if t.ds == [] then Fault else if Top(t.ds) != 0 then turn else Done(d), end, rs, fuel);
      } else {
        AgreesThen(n, mc, Vm(p, ds, rs), t, q, t, end, rs, fuel);
      }
    }
  }

  /** The body of a WHILE and what follows it. */
  lemma {:induction false} RunsWhileBody(n: nat, mc: Mach, s: Stmt, p: nat, d: seq<int>, loops: seq<int>, rs: seq<int>, fuel: nat) returns (turn: Out)
    requires n > 0 && At(mc.code, p, Code(s, p)) && Scoped(s, |loops|) && LoopsOn(loops, rs) && s.While? && fuel > 0
    ensures var o := EvalBlock(mc.prims, s.body, d, loops, fuel);
            turn == if !o.Done? then o else Eval(mc.prims, s, o.ds, loops, fuel - 1)
    ensures Agrees(n, mc, Vm(p + Sizes(s.test) + 2, d, rs), turn, p + Size(s), rs, fuel)
    decreases fuel, s.body, 1
  {
    var end, b, q := p + Size(s), p + Sizes(s.test) + 2, p + Sizes(s.test) + 2 + Sizes(s.body);
    WhileParts(mc.code, p, s.test, s.body);
    var o := EvalBlock(mc.prims, s.body, d, loops, fuel);
    RunsBlock(n, mc, s.body, b, d, loops, rs, fuel);
    turn := if !o.Done? then o else Eval(mc.prims, s, o.ds, loops, fuel - 1);
    if o.Done? {
      RunsStmt(n, mc, s, p, o.ds, loops, rs, fuel - 1);
      DoesBranch(n, mc, q, -(Sizes(s.test) + Sizes(s.body) + 3), o.ds, rs, turn, end, fuel, fuel - 1);
    }
    AgreesThen(n, mc, Vm(b, d, rs), o, q, turn, end, rs, fuel);
  }

  lemma WhileParts(code: seq<Cell>, p: nat, test: Block, body: Block)
    requires At(code, p, Code(While(test, body), p))
    ensures At(code, p, Codes(test, p)) && At(code, p + Sizes(test), [Instr(Branch0Check), Num(Sizes(body) + 3)])
    ensures At(code, p + Sizes(test) + 2, Codes(body, p + Sizes(test) + 2))
    ensures At(code, p + Sizes(test) + 2 + Sizes(body), [Instr(BranchCheck), Num(-(Sizes(test) + Sizes(body) + 3))])
  {
    FourParts(code, p, Codes(test, p), [Instr(Branch0Check), Num(Sizes(body) + 3)], Codes(body, p + Sizes(test) + 2),
              [Instr(BranchCheck), Num(-(Sizes(test) + Sizes(body) + 3))]);
  }

  // ----- DO loops -----

  lemma {:induction false} RunsDo(n: nat, mc: Mach, s: Stmt, p: nat, ds: seq<int>, loops: seq<int>, rs: seq<int>, fuel: nat)
    requires n > 0 && At(mc.code, p, Code(s, p)) && Scoped(s, |loops|) && LoopsOn(loops, rs) && s.Do?
    ensures Agrees(n, mc, Vm(p, ds, rs), Eval(mc.prims, s, ds, loops, fuel), p + Size(s), rs, fuel)
    decreases fuel, s, 0
  {
    var end := p + Size(s);
    DoParts(mc.code, p, s.maybe, s.body, s.plus);
    if |ds| < 2 {
      DoesDo(n, mc, p, s.maybe, end, ds, rs, Fault, fuel);
    } else {
      var limit, index, d := ds[|ds| - 2], Top(ds), Popped(ds, 2);
      RunsLoop(n, mc, s.body, s.plus, p + 2, limit, index, d, loops, rs, fuel);
      DoesDo(n, mc, p, s.maybe, end, ds, rs, EvalLoop(mc.prims, s.body, s.plus, limit, index, d, loops, fuel), fuel);
    }
  }

  lemma DoParts(code: seq<Cell>, p: nat, maybe: bool, body: Block, plus: bool)
    requires At(code, p, Code(Do(maybe, body, plus), p))
    ensures At(code, p, [Instr(if maybe then QDoParen else DoParen), Num(p + Sizes(body) + 4)])
    ensures At(code, p + 2, LoopCode(body, plus, p + 2))
  {
    var a, b, c := [Instr(if maybe then QDoParen else DoParen), Num(p + Sizes(body) + 4)], Codes(body, p + 2),
                   [Instr(if plus then PlusLoopParen else LoopParen), Num(-(Sizes(body) + 1))];
    assert a + b + c == a + (b + c);
    AtParts(code, p, a, b + c);
  }

  /** The body of a loop at b, and the word that ends it. */
  function LoopCode(body: Block, plus: bool, b: nat): seq<Cell> {
    Codes(body, b) + [Instr(if plus then PlusLoopParen else LoopParen), Num(-(Sizes(body) + 1))]
  }

  lemma {:induction false} RunsLoop(n: nat, mc: Mach, body: Block, plus: bool, b: nat, limit: int, index: int, ds: seq<int>,
                                    loops: seq<int>, rs: seq<int>, fuel: nat)
    requires n > 0 && At(mc.code, b, LoopCode(body, plus, b)) && ScopedBlock(body, |loops| + 1) && LoopsOn(loops, rs)
    ensures var leave := b + Sizes(body) + 2;
            Agrees(n, mc, Vm(b, ds, rs + [leave, limit, index]), EvalLoop(mc.prims, body, plus, limit, index, ds, loops, fuel), leave, rs, fuel)
    decreases fuel, body, 2
  {
    var q, leave, off := b + Sizes(body), b + Sizes(body) + 2, -(Sizes(body) + 1);
    var inner := rs + [leave, limit, index];
    if fuel == 0 {
      NoTurns(n, mc, Vm(b, ds, inner), leave, rs);
    } else {
      AtParts(mc.code, b, Codes(body, b), [Instr(if plus then PlusLoopParen else LoopParen), Num(off)]);
      LoopsPush(loops, rs, leave, limit, index);
      var o := EvalBlock(mc.prims, body, ds, [index] + loops, fuel);
      RunsBlock(n, mc, body, b, ds, [index] + loops, inner, fuel);
      if o.Left? {
        LeftIsDone(n, mc, Vm(b, ds, inner), o.ds, q, rs, leave, limit, index, fuel);
      } else if !o.Done? {
        AgreesAnywhere(n, mc, Vm(b, ds, inner), o, q, inner, fuel, leave, rs);
      } else {
        RunsLoopEnd(n, mc, body, plus, b, limit, index, o.ds, loops, rs, fuel);
        BodyThen(n, mc, Vm(b, ds, inner), o.ds, q, EvalLoop(mc.prims, body, plus, limit, index, ds, loops, fuel), leave, inner, rs, fuel);
      }
    }
  }

  lemma BodyThen(n: nat, mc: Mach, m: Vm, ds: seq<int>, q: int, out: Out, leave: int, inner: seq<int>, rs: seq<int>, fuel: nat)
    requires Agrees(n, mc, m, Done(ds), q, inner, fuel) && Agrees(n, mc, Vm(q, ds, inner), out, leave, rs, fuel)
    ensures Agrees(n, mc, m, out, leave, rs, fuel)
  {
    Unseal(n, mc, m, Done(ds), q, inner, fuel);
    Unseal(n, mc, Vm(q, ds, inner), out, leave, rs, fuel);
    Unseal(n, mc, m, out, leave, rs, fuel);
    DoesThen(mc, m, Vm(q, ds, inner), out, leave, rs, fuel);
  }

  /** What LOOP or +LOOP leads to. */
  function LoopEnd(prims: Prims, body: Block, plus: bool, limit: int, index: int, ds: seq<int>, loops: seq<int>, fuel: nat): Out
    requires fuel > 0
  {
    if plus && ds == [] then Fault
    else
      var next := WrapCell(index + LoopBy(plus, ds));
      if Crossed(limit, next, LoopBy(plus, ds) < 0) then Done(LoopStack(plus, ds))
      else EvalLoop(prims, body, plus, limit, next, LoopStack(plus, ds), loops, fuel - 1)
  }

  lemma {:induction false} RunsLoopEnd(n: nat, mc: Mach, body: Block, plus: bool, b: nat, limit: int, index: int, ds: seq<int>,
                                       loops: seq<int>, rs: seq<int>, fuel: nat)
    requires n > 0 && At(mc.code, b, LoopCode(body, plus, b)) && ScopedBlock(body, |loops| + 1) && LoopsOn(loops, rs) && fuel > 0
    ensures var leave := b + Sizes(body) + 2;
            Agrees(n, mc, Vm(b + Sizes(body), ds, rs + [leave, limit, index]), LoopEnd(mc.prims, body, plus, limit, index, ds, loops, fuel),
                   leave, rs, fuel)
    decreases fuel, body, 1
  {
    if plus && ds == [] {
      var q, off := b + Sizes(body), -(Sizes(body) + 1);
      AtParts(mc.code, b, Codes(body, b), [Instr(PlusLoopParen), Num(off)]);
      DoesLoop(n, mc, q, plus, off, ds, rs, q + 2, limit, index, Fault, fuel, fuel - 1);
    } else {
      RunsLoopNext(n, mc, body, plus, b, limit, index, ds, loops, rs, fuel);
    }
  }

  lemma {:induction false} RunsLoopNext(n: nat, mc: Mach, body: Block, plus: bool, b: nat, limit: int, index: int, ds: seq<int>,
                                        loops: seq<int>, rs: seq<int>, fuel: nat)
    requires n > 0 && At(mc.code, b, LoopCode(body, plus, b)) && ScopedBlock(body, |loops| + 1) && LoopsOn(loops, rs) && fuel > 0
    requires plus ==> ds != []
    ensures var leave := b + Sizes(body) + 2;
            Agrees(n, mc, Vm(b + Sizes(body), ds, rs + [leave, limit, index]), LoopEnd(mc.prims, body, plus, limit, index, ds, loops, fuel),
                   leave, rs, fuel)
    decreases fuel, body, 0
  {
    var q, leave, off := b + Sizes(body), b + Sizes(body) + 2, -(Sizes(body) + 1);
    var next, d := WrapCell(index + LoopBy(plus, ds)), LoopStack(plus, ds);
    var out := EvalLoop(mc.prims, body, plus, limit, next, d, loops, fuel - 1);
    AtParts(mc.code, b, Codes(body, b), [Instr(if plus then PlusLoopParen else LoopParen), Num(off)]);
    RunsLoop(n, mc, body, plus, b, limit, next, d, loops, rs, fuel - 1);
    DoesLoop(n, mc, q, plus, off, ds, rs, leave, limit, index, out, fuel, fuel - 1);
  }

  // ----- CASE -----

  lemma {:induction false} RunsChoice(n: nat, mc: Mach, s: Stmt, p: nat, ds: seq<int>, loops: seq<int>, rs: seq<int>, fuel: nat)
    requires n > 0 && At(mc.code, p, Code(s, p)) && Scoped(s, |loops|) && LoopsOn(loops, rs) && s.Case?
    ensures Agrees(n, mc, Vm(p, ds, rs), Eval(mc.prims, s, ds, loops, fuel), p + Size(s), rs, fuel)
    decreases fuel, s, 1
  {
    CaseParts(mc.code, p, s.arms, s.dflt);
    RunsCase(n, mc, s, p, p + ArmsSize(s.arms), p + ArmsSize(s.arms) + Sizes(s.dflt), ds, loops, rs, fuel);
  }

  lemma {:induction false} RunsCase(n: nat, mc: Mach, s: Stmt, p: nat, q: nat, e: nat, ds: seq<int>, loops: seq<int>, rs: seq<int>, fuel: nat)
    requires n > 0 && s.Case? && Scoped(s, |loops|) && LoopsOn(loops, rs) && q == p + ArmsSize(s.arms) && e == q + Sizes(s.dflt)
    requires At(mc.code, p, ArmsCode(s.arms, p, Final(e + 1))) && At(mc.code, q, Codes(s.dflt, q)) && At(mc.code, e, [Instr(Drop)])
    ensures Agrees(n, mc, Vm(p, ds, rs), Eval(mc.prims, s, ds, loops, fuel), e + 1, rs, fuel)
    decreases fuel, s, 0
  {
    RunsArms(n, mc, s.arms, p, e + 1, ds, loops, rs, fuel);
    var chosen := EvalArms(mc.prims, s.arms, ds, loops, fuel);
    if chosen.NoneChosen? {
      var o := EvalBlock(mc.prims, s.dflt, chosen.ds, loops, fuel);
      RunsBlock(n, mc, s.dflt, q, chosen.ds, loops, rs, fuel);
      RunsDefault(n, mc, Vm(p, ds, rs), q, chosen.ds, o, e, rs, fuel);
    }
  }

  /** The default of a CASE, and the DROP of the selector. */
  lemma RunsDefault(n: nat, mc: Mach, m: Vm, q: int, d: seq<int>, o: Out, e: int, rs: seq<int>, fuel: nat)
    requires At(mc.code, e, [Instr(Drop)])
    requires Agrees(n, mc, m, Done(d), q, rs, fuel) && Agrees(n, mc, Vm(q, d, rs), o, e, rs, fuel)
    ensures Agrees(n, mc, m, if !o.Done? then o else if o.ds == [] then Fault else Done(Popped(o.ds, 1)), e + 1, rs, fuel)
  {
    var last := if !o.Done? then o else if o.ds == [] then Fault else Done(Popped(o.ds, 1));
    if o.Done? { DoesDrop(n, mc, e, o.ds, rs, fuel); }
    AgreesThen(n, mc, Vm(q, d, rs), o, e, last, e + 1, rs, fuel);
    AgreesThen(n, mc, m, Done(d), q, last, e + 1, rs, fuel);
  }

  lemma CaseParts(code: seq<Cell>, p: nat, arms: Arms, dflt: Block)
    requires At(code, p, Code(Case(arms, dflt), p))
    ensures At(code, p, ArmsCode(arms, p, Final(p + ArmsSize(arms) + Sizes(dflt) + 1)))
    ensures At(code, p + ArmsSize(arms), Codes(dflt, p + ArmsSize(arms))) && At(code, p + ArmsSize(arms) + Sizes(dflt), [Instr(Drop)])
  {
    var a, b := ArmsCode(arms, p, Final(p + ArmsSize(arms) + Sizes(dflt) + 1)), Codes(dflt, p + ArmsSize(arms));
    AtParts(code, p, a + b, [Instr(Drop)]);
    AtParts(code, p, a, b);
  }

  /** The arms from a on: one is chosen, or control comes to the end of them. */
  ghost predicate ArmsAgree(n: nat, mc: Mach, m: Vm, out: ArmsOut, after: int, end: int, rs: seq<int>, fuel: nat) {
    match out
    case Chosen(o) => Agrees(n, mc, m, o, end, rs, fuel)
    case NoneChosen(d) => Agrees(n, mc, m, Done(d), after, rs, fuel)
  }

  lemma {:induction false} RunsArms(n: nat, mc: Mach, arms: Arms, a: nat, end: nat, ds: seq<int>, loops: seq<int>, rs: seq<int>, fuel: nat)
    requires n > 0 && At(mc.code, a, ArmsCode(arms, a, Final(end))) && ScopedArms(arms, |loops|) && LoopsOn(loops, rs)
    ensures ArmsAgree(n, mc, Vm(a, ds, rs), EvalArms(mc.prims, arms, ds, loops, fuel), a + ArmsSize(arms), end, rs, fuel)
    decreases fuel, arms, 3
  {
    if arms.NoArms? {
      AlreadyDone(n, mc, ds, a, rs, fuel);
    } else {
      var t := EvalBlock(mc.prims, arms.test, ds, loops, fuel);
      var o := a + Sizes(arms.test);
      ArmParts(mc.code, a, arms, end, o, o + Sizes(arms.body) + 3);
      RunsBlock(n, mc, arms.test, a, ds, loops, rs, fuel);
      if t.Done? && |t.ds| >= 2 && Top(t.ds) != t.ds[|t.ds| - 2] {
        var next := o + Sizes(arms.body) + 4;
        RunsArms(n, mc, arms.rest, next, end, Popped(t.ds, 1), loops, rs, fuel);
        SkipArm(n, mc, a, o, Sizes(arms.body) + 3, ds, t.ds, rs, EvalArms(mc.prims, arms.rest, Popped(t.ds, 1), loops, fuel),
                next, a + ArmsSize(arms), end, fuel);
      } else {
        var chosen := RunsChosen(n, mc, arms, a, end, ds, t, loops, rs, fuel);
        assert EvalArms(mc.prims, arms, ds, loops, fuel) == Chosen(chosen);
      }
    }
  }

  /** The test of an arm succeeds, or does not come to an end. */
  lemma {:induction false} RunsChosen(n: nat, mc: Mach, arms: Arms, a: nat, end: nat, ds: seq<int>, t: Out, loops: seq<int>, rs: seq<int>, fuel: nat)
    returns (o: Out)
    requires n > 0 && arms.Arm? && At(mc.code, a, ArmsCode(arms, a, Final(end))) && ScopedArms(arms, |loops|) && LoopsOn(loops, rs)
    requires !(t.Done? && |t.ds| >= 2 && Top(t.ds) != t.ds[|t.ds| - 2])
    requires Agrees(n, mc, Vm(a, ds, rs), t, a + Sizes(arms.test), rs, fuel)
    ensures o == if !t.Done? then t else if |t.ds| < 2 then Fault else EvalBodies(mc.prims, arms, Popped(t.ds, 2), loops, fuel)
    ensures Agrees(n, mc, Vm(a, ds, rs), o, end, rs, fuel)
    decreases fuel, arms, 2
  {
    var p := a + Sizes(arms.test);
    if !t.Done? {
      o := t;
    } else {
      ArmParts(mc.code, a, arms, end, p, p + Sizes(arms.body) + 3);
      o := if |t.ds| < 2 then Fault else EvalBodies(mc.prims, arms, Popped(t.ds, 2), loops, fuel);
      if |t.ds| >= 2 { RunsBodies(n, mc, arms, a, end, Popped(t.ds, 2), loops, rs, fuel); }
      DoesOf(n, mc, p, Sizes(arms.body) + 3, t.ds, rs, o, Fault, end, fuel);
    }
    AgreesThen(n, mc, Vm(a, ds, rs), t, p, o, end, rs, fuel);
  }

  /** The test of an arm fails, and the arms behind it are tried. */
  lemma SkipArm(n: nat, mc: Mach, a: nat, p: nat, off: nat, ds: seq<int>, d: seq<int>, rs: seq<int>,
                out: ArmsOut, next: nat, after: nat, end: nat, fuel: nat)
    requires At(mc.code, p, [Instr(OfParen), Num(off)]) && |d| >= 2 && Top(d) != d[|d| - 2] && next == p + 1 + off
    requires Agrees(n, mc, Vm(a, ds, rs), Done(d), p, rs, fuel)
    requires ArmsAgree(n, mc, Vm(next, Popped(d, 1), rs), out, after, end, rs, fuel)
    ensures ArmsAgree(n, mc, Vm(a, ds, rs), out, after, end, rs, fuel)
  {
    var o, stop := if out.Chosen? then out.o else Done(out.ds), if out.Chosen? then end else after;
    DoesOf(n, mc, p, off, d, rs, Fault, o, stop, fuel);
    AgreesThen(n, mc, Vm(a, ds, rs), Done(d), p, o, stop, rs, fuel);
  }

  lemma ArmParts(code: seq<Cell>, a: nat, arms: Arms, end: nat, o: nat, out: nat)
    requires arms.Arm? && At(code, a, ArmsCode(arms, a, Final(end))) && o == a + Sizes(arms.test) && out == o + Sizes(arms.body) + 3
    ensures At(code, a, Codes(arms.test, a)) && At(code, o, [Instr(OfParen), Num(Sizes(arms.body) + 3)])
    ensures At(code, o + 2, Codes(arms.body, o + 2))
    ensures At(code, out - 1, [Instr(BranchCheck), Num(ArmOffset(arms.falls, arms.rest, Final(end), out))])
    ensures At(code, out + 1, ArmsCode(arms.rest, out + 1, Final(end)))
  {
    var x := Num(ArmOffset(arms.falls, arms.rest, Final(end), out));
    var whole, t, b, rest := ArmsCode(arms, a, Final(end)), Codes(arms.test, a), Codes(arms.body, o + 2), ArmsCode(arms.rest, out + 1, Final(end));
    ArmWhole(arms, a, end, o, out, whole, t, b, x, rest);
    ArmPieces(code, a, whole, t, [Instr(OfParen), Num(Sizes(arms.body) + 3)], b, Instr(BranchCheck), x, rest);
  }

  lemma ArmWhole(arms: Arms, a: nat, end: nat, o: nat, out: nat, whole: seq<Cell>, t: seq<Cell>, b: seq<Cell>, x: Cell, rest: seq<Cell>)
    requires arms.Arm? && o == a + Sizes(arms.test) && out == o + Sizes(arms.body) + 3
    requires whole == ArmsCode(arms, a, Final(end)) && t == Codes(arms.test, a) && b == Codes(arms.body, o + 2)
    requires x == Num(ArmOffset(arms.falls, arms.rest, Final(end), out)) && rest == ArmsCode(arms.rest, out + 1, Final(end))
    ensures whole == t + [Instr(OfParen), Num(Sizes(arms.body) + 3)] + b + [Instr(BranchCheck)] + [x] + rest
  {
  }

  lemma ArmPieces(code: seq<Cell>, a: int, whole: seq<Cell>, t: seq<Cell>, f: seq<Cell>, b: seq<Cell>, x: Cell, y: Cell, rest: seq<Cell>)
    requires At(code, a, whole) && whole == t + f + b + [x] + [y] + rest
    ensures At(code, a, t) && At(code, a + |t|, f) && At(code, a + |t| + |f|, b)
    ensures At(code, a + |t| + |f| + |b|, [x, y]) && At(code, a + |t| + |f| + |b| + 2, rest)
  {
    assert whole == t + f + b + [x, y] + rest;
    AtParts(code, a, t + f + b + [x, y], rest);
    FourParts(code, a, t, f, b, [x, y]);
  }

  /** The body of an arm and those it falls into. */
  lemma {:induction false} RunsBodies(n: nat, mc: Mach, arms: Arms, a: nat, end: nat, ds: seq<int>, loops: seq<int>, rs: seq<int>, fuel: nat)
    requires n > 0 && arms.Arm? && At(mc.code, a, ArmsCode(arms, a, Final(end))) && ScopedArms(arms, |loops|) && LoopsOn(loops, rs)
    ensures Agrees(n, mc, Vm(a + Sizes(arms.test) + 2, ds, rs), EvalBodies(mc.prims, arms, ds, loops, fuel), end, rs, fuel)
    decreases fuel, arms, 1
  {
    var b, out := a + Sizes(arms.test) + 2, a + Sizes(arms.test) + Sizes(arms.body) + 3;
    ArmParts(mc.code, a, arms, end, b - 2, out);
    var o := EvalBlock(mc.prims, arms.body, ds, loops, fuel);
    RunsBlock(n, mc, arms.body, b, ds, loops, rs, fuel);
    var all := EvalBodies(mc.prims, arms, ds, loops, fuel);
    if o.Done? {
      if arms.falls && arms.rest.Arm? { RunsBodies(n, mc, arms.rest, out + 1, end, o.ds, loops, rs, fuel); }
      else { AlreadyDone(n, mc, o.ds, end, rs, fuel); }
      DoesBranch(n, mc, out - 1, ArmOffset(arms.falls, arms.rest, Final(end), out), o.ds, rs, all, end, fuel, fuel);
    }
    AgreesThen(n, mc, Vm(b, ds, rs), o, out - 1, all, end, rs, fuel);
  }

  // ----- Blocks -----

  lemma {:induction false} RunsBlock(n: nat, mc: Mach, b: Block, p: nat, ds: seq<int>, loops: seq<int>, rs: seq<int>, fuel: nat)
    requires n > 0 && At(mc.code, p, Codes(b, p)) && ScopedBlock(b, |loops|) && LoopsOn(loops, rs)
    ensures Agrees(n, mc, Vm(p, ds, rs), EvalBlock(mc.prims, b, ds, loops, fuel), p + Sizes(b), rs, fuel)
    decreases fuel, b, 0
  {
    match b
    case Empty => AlreadyDone(n, mc, ds, p, rs, fuel);
    case Seq(s, rest) =>
      var q, o := p + Size(s), Eval(mc.prims, s, ds, loops, fuel);
      AtParts(mc.code, p, Code(s, p), Codes(rest, q));
      RunsStmt(n, mc, s, p, ds, loops, rs, fuel);
      var all := EvalBlock(mc.prims, b, ds, loops, fuel);
      if o.Done? { RunsBlock(n, mc, rest, q, o.ds, loops, rs, fuel); }
      AgreesThen(n, mc, Vm(p, ds, rs), o, q, all, q + Sizes(rest), rs, fuel);
  }
}
