/** Compiled code is well-formed: every branch in it goes to an instruction. */
module ForthWellFormed {
  import opened ForthCode
  import opened ForthMachine
  import opened ForthRuns
  import opened ForthCorrect
  import opened ForthPeephole

  predicate OkAt(code: seq<Cell>, i: int) {
    0 <= i < |code| && IsJump(code[i]) ==> JumpOk(code, i)
  }

  /** Every branch from lo up to hi is well-formed; recursive so that ranges are joined by Join
      rather than by instantiating quantifiers. */
  predicate JumpsOk(code: seq<Cell>, lo: int, hi: int)
    decreases hi - lo
  {
    hi <= lo || (OkAt(code, hi - 1) && JumpsOk(code, lo, hi - 1))
  }

  lemma {:induction false} Join(code: seq<Cell>, lo: int, mid: int, hi: int)
    requires lo <= mid <= hi && JumpsOk(code, lo, mid) && JumpsOk(code, mid, hi)
    ensures JumpsOk(code, lo, hi)
    decreases hi - mid
  {
    if mid < hi { Join(code, lo, mid, hi - 1); }
  }

  lemma Join4(code: seq<Cell>, p: int, q: int, r: int, t: int, e: int)
    requires p <= q <= r <= t <= e && JumpsOk(code, p, q) && JumpsOk(code, q, r) && JumpsOk(code, r, t) && JumpsOk(code, t, e)
    ensures JumpsOk(code, p, e)
  {
    Join(code, p, q, r);
    Join(code, p, r, t);
    Join(code, p, t, e);
  }

  lemma {:induction false} JumpsOkAt(code: seq<Cell>, lo: int, hi: int, i: int)
    requires JumpsOk(code, lo, hi) && lo <= i < hi
    ensures OkAt(code, i)
    decreases hi - lo
  {
    if i < hi - 1 { JumpsOkAt(code, lo, hi - 1, i); }
  }

  predicate InstrAt(code: seq<Cell>, i: int) { 0 <= i < |code| && code[i].Instr? }

  /** A branch and its operand. */
  lemma JumpPair(code: seq<Cell>, p: int, op: Op, off: int)
    requires At(code, p, [Instr(op), Num(off)]) && InstrAt(code, p + 1 + off)
    ensures JumpsOk(code, p, p + 2) && InstrAt(code, p)
  {
    AtPair(code, p, Instr(op), Num(off));
    assert JumpsOk(code, p, p) && JumpsOk(code, p, p + 1);
  }

  /** An instruction and an operand that are no branch. */
  lemma OtherPair(code: seq<Cell>, p: int, op: Op, n: int)
    requires At(code, p, [Instr(op), Num(n)]) && !IsJump(Instr(op))
    ensures JumpsOk(code, p, p + 2) && InstrAt(code, p)
  {
    AtPair(code, p, Instr(op), Num(n));
    assert JumpsOk(code, p, p) && JumpsOk(code, p, p + 1);
  }

  lemma OtherOne(code: seq<Cell>, p: int, op: Op)
    requires At(code, p, [Instr(op)]) && !IsJump(Instr(op))
    ensures JumpsOk(code, p, p + 1) && InstrAt(code, p)
  {
    AtOne(code, p, Instr(op));
    assert JumpsOk(code, p, p);
  }

  // ----- Programs -----

  lemma {:induction false} StmtOk(code: seq<Cell>, s: Stmt, p: nat)
    requires At(code, p, Code(s, p)) && InstrAt(code, p + Size(s))
    ensures JumpsOk(code, p, p + Size(s)) && InstrAt(code, p)
    decreases s, 2
  {
    match s
    case IfThen(_) => ConditionalOk(code, s, p);
    case IfElse(_, _) => ConditionalOk(code, s, p);
    case Until(_) => IndefiniteOk(code, s, p);
    case Again(_) => IndefiniteOk(code, s, p);
    case While(_, _) => IndefiniteOk(code, s, p);
    case Do(_, _, _) => DefiniteOk(code, s, p);
    case Case(_, _) => ChoiceOk(code, s, p);
    case _ => SimpleOk(code, s, p);
  }

  lemma {:induction false} ConditionalOk(code: seq<Cell>, s: Stmt, p: nat)
    requires At(code, p, Code(s, p)) && InstrAt(code, p + Size(s)) && (s.IfThen? || s.IfElse?)
    ensures JumpsOk(code, p, p + Size(s)) && InstrAt(code, p)
    decreases s, 1
  {
    match s
    case IfThen(yes) =>
      AtParts(code, p, [Instr(Branch0Check), Num(Sizes(yes) + 1)], Codes(yes, p + 2));
      IfThenOk(code, yes, p);
    case IfElse(yes, no) =>
      IfElseParts(code, p, yes, no);
      IfElseOk(code, yes, no, p);
  }

  lemma {:induction false} IndefiniteOk(code: seq<Cell>, s: Stmt, p: nat)
    requires At(code, p, Code(s, p)) && InstrAt(code, p + Size(s)) && (s.Until? || s.Again? || s.While?)
    ensures JumpsOk(code, p, p + Size(s)) && InstrAt(code, p)
    decreases s, 1
  {
    match s
    case Until(body) =>
      AtParts(code, p, Codes(body, p), [Instr(Branch0Check), Num(-(Sizes(body) + 1))]);
      LoopOk(code, body, p, Branch0Check);
    case Again(body) =>
      AtParts(code, p, Codes(body, p), [Instr(BranchCheck), Num(-(Sizes(body) + 1))]);
      LoopOk(code, body, p, BranchCheck);
    case While(test, body) =>
      WhileParts(code, p, test, body);
      WhileOk(code, test, body, p);
  }

  lemma {:induction false} DefiniteOk(code: seq<Cell>, s: Stmt, p: nat)
    requires At(code, p, Code(s, p)) && s.Do?
    ensures JumpsOk(code, p, p + Size(s)) && InstrAt(code, p)
    decreases s, 1
  {
    DoParts(code, p, s.maybe, s.body, s.plus);
    DoOk(code, s.maybe, s.body, s.plus, p);
  }

  lemma {:induction false} ChoiceOk(code: seq<Cell>, s: Stmt, p: nat)
    requires At(code, p, Code(s, p)) && InstrAt(code, p + Size(s)) && s.Case?
    ensures JumpsOk(code, p, p + Size(s)) && InstrAt(code, p)
    decreases s, 1
  {
    CaseParts(code, p, s.arms, s.dflt);
    CaseOk(code, s, p, p + ArmsSize(s.arms), p + ArmsSize(s.arms) + Sizes(s.dflt));
  }

  lemma SimpleOk(code: seq<Cell>, s: Stmt, p: nat)
    requires At(code, p, Code(s, p)) && (s.Lit? || s.Word? || s.Index? || s.Leave?)
    ensures JumpsOk(code, p, p + Size(s)) && InstrAt(code, p)
  {
    match s
    case Lit(v) => if -16 <= v <= 16 { OtherOne(code, p, Small(v)); } else { OtherPair(code, p, Literal, v); }
    case Word(w) => OtherOne(code, p, Prim(w));
    case Index(l) => OtherOne(code, p, LoopIndex(l));
    case Leave => OtherOne(code, p, LeaveOp);
  }

  lemma {:induction false} IfThenOk(code: seq<Cell>, yes: Block, p: nat)
    requires At(code, p, [Instr(Branch0Check), Num(Sizes(yes) + 1)]) && At(code, p + 2, Codes(yes, p + 2)) && InstrAt(code, p + 2 + Sizes(yes))
    ensures JumpsOk(code, p, p + 2 + Sizes(yes)) && InstrAt(code, p)
    decreases yes, 1
  {
    BlockOk(code, yes, p + 2);
    JumpPair(code, p, Branch0Check, Sizes(yes) + 1);
    Join(code, p, p + 2, p + 2 + Sizes(yes));
  }

  lemma {:induction false} IfElseOk(code: seq<Cell>, yes: Block, no: Block, p: nat)
    requires At(code, p, [Instr(Branch0Check), Num(Sizes(yes) + 3)]) && At(code, p + 2, Codes(yes, p + 2))
    requires At(code, p + 2 + Sizes(yes), [Instr(BranchCheck), Num(Sizes(no) + 1)])
    requires At(code, p + 4 + Sizes(yes), Codes(no, p + 4 + Sizes(yes))) && InstrAt(code, p + 4 + Sizes(yes) + Sizes(no))
    ensures JumpsOk(code, p, p + 4 + Sizes(yes) + Sizes(no)) && InstrAt(code, p)
    decreases IfElse(yes, no), 0
  {
    var b, n := p + 2 + Sizes(yes), p + 4 + Sizes(yes);
    BlockOk(code, no, n);
    JumpPair(code, b, BranchCheck, Sizes(no) + 1);
    BlockOk(code, yes, p + 2);
    JumpPair(code, p, Branch0Check, Sizes(yes) + 3);
    Join4(code, p, p + 2, b, n, n + Sizes(no));
  }

  /** A body and a branch back to its start. */
  lemma {:induction false} LoopOk(code: seq<Cell>, body: Block, p: nat, op: Op)
    requires At(code, p, Codes(body, p)) && At(code, p + Sizes(body), [Instr(op), Num(-(Sizes(body) + 1))])
    ensures JumpsOk(code, p, p + Sizes(body) + 2) && InstrAt(code, p)
    decreases body, 1
  {
    AtPair(code, p + Sizes(body), Instr(op), Num(-(Sizes(body) + 1)));
    BlockOk(code, body, p);
    JumpPair(code, p + Sizes(body), op, -(Sizes(body) + 1));
    Join(code, p, p + Sizes(body), p + Sizes(body) + 2);
  }

  lemma {:induction false} WhileOk(code: seq<Cell>, test: Block, body: Block, p: nat)
    requires At(code, p, Codes(test, p)) && At(code, p + Sizes(test), [Instr(Branch0Check), Num(Sizes(body) + 3)])
    requires At(code, p + Sizes(test) + 2, Codes(body, p + Sizes(test) + 2))
    requires At(code, p + Sizes(test) + 2 + Sizes(body), [Instr(BranchCheck), Num(-(Sizes(test) + Sizes(body) + 3))])
    requires InstrAt(code, p + Sizes(test) + Sizes(body) + 4)
    ensures JumpsOk(code, p, p + Sizes(test) + Sizes(body) + 4) && InstrAt(code, p)
    decreases While(test, body), 0
  {
    var q, r := p + Sizes(test), p + Sizes(test) + 2 + Sizes(body);
    var back := -(Sizes(test) + Sizes(body) + 3);
    AtPair(code, q, Instr(Branch0Check), Num(Sizes(body) + 3));
    AtPair(code, r, Instr(BranchCheck), Num(back));
    BlockOk(code, test, p);
    BlockOk(code, body, q + 2);
    JumpPair(code, q, Branch0Check, Sizes(body) + 3);
    JumpPair(code, r, BranchCheck, back);
    Join4(code, p, q, q + 2, r, r + 2);
  }

  lemma {:induction false} DoOk(code: seq<Cell>, maybe: bool, body: Block, plus: bool, p: nat)
    requires At(code, p, [Instr(if maybe then QDoParen else DoParen), Num(p + Sizes(body) + 4)])
    requires At(code, p + 2, LoopCode(body, plus, p + 2))
    ensures JumpsOk(code, p, p + Sizes(body) + 4) && InstrAt(code, p)
    decreases body, 1
  {
    var q := p + 2 + Sizes(body);
    AtParts(code, p + 2, Codes(body, p + 2), [Instr(if plus then PlusLoopParen else LoopParen), Num(-(Sizes(body) + 1))]);
    OtherPair(code, q, if plus then PlusLoopParen else LoopParen, -(Sizes(body) + 1));
    BlockOk(code, body, p + 2);
    OtherPair(code, p, if maybe then QDoParen else DoParen, p + Sizes(body) + 4);
    Join(code, p, p + 2, q);
    Join(code, p, q, q + 2);
  }

  lemma {:induction false} CaseOk(code: seq<Cell>, s: Stmt, p: nat, q: nat, e: nat)
    requires s.Case? && q == p + ArmsSize(s.arms) && e == q + Sizes(s.dflt)
    requires At(code, p, ArmsCode(s.arms, p, Final(e + 1))) && At(code, q, Codes(s.dflt, q)) && At(code, e, [Instr(Drop)])
    requires InstrAt(code, e + 1)
    ensures JumpsOk(code, p, e + 1) && InstrAt(code, p)
    decreases s, 0
  {
    DefaultOk(code, s.dflt, q, e);
    ArmsOk(code, s.arms, p, e + 1);
    Join(code, p, q, e + 1);
  }

  lemma {:induction false} DefaultOk(code: seq<Cell>, dflt: Block, q: nat, e: nat)
    requires e == q + Sizes(dflt) && At(code, q, Codes(dflt, q)) && At(code, e, [Instr(Drop)])
    ensures JumpsOk(code, q, e + 1) && InstrAt(code, q)
    decreases dflt, 1
  {
    OtherOne(code, e, Drop);
    BlockOk(code, dflt, q);
    Join(code, q, e, e + 1);
  }

  lemma {:induction false} BlockOk(code: seq<Cell>, b: Block, p: nat)
    requires At(code, p, Codes(b, p)) && InstrAt(code, p + Sizes(b))
    ensures JumpsOk(code, p, p + Sizes(b)) && InstrAt(code, p)
    decreases b, 0
  {
    if b.Seq? {
      var q := p + Size(b.head);
      AtParts(code, p, Code(b.head, p), Codes(b.tail, q));
      BlockOk(code, b.tail, q);
      StmtOk(code, b.head, p);
      Join(code, p, q, q + Sizes(b.tail));
    }
  }

  /** The arms of a CASE; `end` and what follows the arms are instructions. */
  lemma {:induction false} ArmsOk(code: seq<Cell>, arms: Arms, a: nat, end: nat)
    requires At(code, a, ArmsCode(arms, a, Final(end))) && InstrAt(code, end) && InstrAt(code, a + ArmsSize(arms))
    ensures JumpsOk(code, a, a + ArmsSize(arms)) && InstrAt(code, a)
    ensures arms.Arm? ==> InstrAt(code, a + Sizes(arms.test) + 2)
    decreases arms, 1
  {
    if arms.Arm? {
      var o, out := a + Sizes(arms.test), a + Sizes(arms.test) + Sizes(arms.body) + 3;
      ArmParts(code, a, arms, end, o, out);
      ArmsOk(code, arms.rest, out + 1, end);
      ArmTarget(code, arms, out, end);
      ArmOk(code, arms, a, o, out, ArmOffset(arms.falls, arms.rest, Final(end), out));
      Join(code, a, out + 1, a + ArmsSize(arms));
    }
  }

  /** Where the branch that ends an arm goes: the body of the next one, or out of the CASE. */
  lemma ArmTarget(code: seq<Cell>, arms: Arms, out: nat, end: nat)
    requires arms.Arm? && InstrAt(code, end) && (arms.rest.Arm? ==> InstrAt(code, out + 1 + Sizes(arms.rest.test) + 2))
    ensures InstrAt(code, out + ArmOffset(arms.falls, arms.rest, Final(end), out))
  {
  }

  lemma {:induction false} ArmOk(code: seq<Cell>, arms: Arms, a: nat, o: nat, out: nat, off: int)
    requires arms.Arm? && o == a + Sizes(arms.test) && out == o + Sizes(arms.body) + 3
    requires At(code, a, Codes(arms.test, a)) && At(code, o, [Instr(OfParen), Num(Sizes(arms.body) + 3)])
    requires At(code, o + 2, Codes(arms.body, o + 2)) && At(code, out - 1, [Instr(BranchCheck), Num(off)]) && InstrAt(code, out + off)
    ensures JumpsOk(code, a, out + 1) && InstrAt(code, a) && InstrAt(code, o + 2)
    decreases arms, 0
  {
    JumpPair(code, out - 1, BranchCheck, off);
    BlockOk(code, arms.body, o + 2);
    OtherPair(code, o, OfParen, Sizes(arms.body) + 3);
    BlockOk(code, arms.test, a);
    Join4(code, a, o, o + 2, out - 1, out + 1);
  }

  // ----- Definitions -----

  /** A definition behind well-formed code: its cells and the cell of ;. */
  function Definition(front: seq<Cell>, b: Block): seq<Cell> { front + Codes(b, |front|) + [Instr(Semi)] }

  lemma DefinitionAt(front: seq<Cell>, b: Block)
    ensures At(Definition(front, b), |front|, Codes(b, |front|)) && At(Definition(front, b), |front| + Sizes(b), [Instr(Semi)])
  {
    DefinedAt(Definition(front, b), front, Codes(b, |front|));
  }

  lemma DefinedAt(code: seq<Cell>, front: seq<Cell>, c: seq<Cell>)
    requires code == front + c + [Instr(Semi)]
    ensures At(code, |front|, c) && At(code, |front| + |c|, [Instr(Semi)])
  {
    AtMiddle(code, front, c, [Instr(Semi)]);
    AtMiddle(code, front + c, [Instr(Semi)], []);
  }

  lemma AtMiddle(code: seq<Cell>, front: seq<Cell>, c: seq<Cell>, back: seq<Cell>)
    requires code == front + c + back
    ensures At(code, |front|, c)
  {
    AtIs(code, |front|, c);
    assert code[|front|..|front| + |c|] == c;
  }

  lemma DefinitionOk(front: seq<Cell>, b: Block)
    requires WellFormed(front)
    ensures WellFormed(Definition(front, b))
    ensures At(Definition(front, b), |front|, Codes(b, |front|)) && At(Definition(front, b), |front| + Sizes(b), [Instr(Semi)])
  {
    var code, end := Definition(front, b), |front| + Sizes(b);
    DefinitionAt(front, b);
    AtOne(code, end, Instr(Semi));
    BlockOk(code, b, |front|);
    forall i | 0 <= i < |code| && IsJump(code[i]) ensures JumpOk(code, i) { DefinitionJumpOk(front, b, code, i); }
  }

  lemma DefinitionJumpOk(front: seq<Cell>, b: Block, code: seq<Cell>, i: nat)
    requires WellFormed(front) && front <= code && |code| == |front| + Sizes(b) + 1 && code[|code| - 1] == Instr(Semi)
    requires JumpsOk(code, |front|, |front| + Sizes(b)) && i < |code| && IsJump(code[i])
    ensures JumpOk(code, i)
  {
    if i < |front| {
      assert front[i] == code[i] && JumpOk(front, i);
      assert front[i + 1] == code[i + 1] && front[Destination(front, i)] == code[Destination(front, i)];
    } else {
      JumpsOkAt(code, |front|, |front| + Sizes(b), i);
    }
  }
}
