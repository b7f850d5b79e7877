/** Every well-nested text compiles to the code of its program: the control entries on the
    data stack are as they were, and nothing is left unpatched. */
module ForthStructure {
  import opened ForthCode
  import opened ForthCompile

  lemma Assoc3<T>(a: seq<T>, b: seq<T>, c: seq<T>)
    ensures (a + b) + c == a + (b + c)
  {
  }

  // ----- What the closing words do -----

  lemma ThenState(s: State, code: seq<Cell>)
    ensures Apply(State(s.cells + [Instr(Branch0Check)] + [Num(1)] + code, s.stack + [Addr(|s.cells| + 1), Mark(OrigTag)]), TThen) ==
            Ok(State(s.cells + ([Instr(Branch0Check), Num(|code| + 1)] + code), s.stack))
  {
    var u := State(s.cells + [Instr(Branch0Check)] + [Num(1)] + code, s.stack + [Addr(|s.cells| + 1), Mark(OrigTag)]);
    PatchMiddle(s.cells + [Instr(Branch0Check)], Num(1), code, Num(|code| + 1));
    assert Popped(u, 2).stack == s.stack;
  }

  lemma BackState(s: State, code: seq<Cell>, check: bool)
    ensures var op := if check then Branch0Check else BranchCheck;
            Apply(State(s.cells + code, s.stack + [Addr(|s.cells|), Mark(DestTag)]), if check then TUntil else TAgain) ==
            Ok(State(s.cells + (code + [Instr(op), Num(-(|code| + 1))]), s.stack))
  {
    var op := if check then Branch0Check else BranchCheck;
    var u := State(s.cells + code, s.stack + [Addr(|s.cells|), Mark(DestTag)]);
    assert Popped(u.Append(Instr(op)), 2).stack == s.stack;
    assert s.cells + code + [Instr(op)] + [Num(-(|code| + 1))] == s.cells + (code + [Instr(op), Num(-(|code| + 1))]);
  }

  lemma LoopState(s: State, u: State, code: seq<Cell>, op: Op, lop: Op)
    requires u == State(s.cells + [Instr(op)] + [Num(0)] + code,
                        s.stack + [Addr(|s.cells| + 1), Mark(LeaveTag)] + [Addr(|s.cells| + 2), Mark(DoTag)])
    ensures LoopWord(u, lop) ==
            Ok(State(s.cells + ([Instr(op), Num(|s.cells| + |code| + 4)] + code + [Instr(lop), Num(-(|code| + 1))]), s.stack))
  {
    var v := Popped(u.Append(Instr(lop)), 2).Append(Num(-(|code| + 1)));
    assert ResolveBack(u.Append(Instr(lop)), DoTag) == Ok(v);
    assert v.stack == s.stack + [Addr(|s.cells| + 1), Mark(LeaveTag)];
    var tail := code + [Instr(lop), Num(-(|code| + 1))];
    assert v.cells == s.cells + [Instr(op)] + [Num(0)] + tail;
    PatchMiddle(s.cells + [Instr(op)], Num(0), tail, Num(v.Here()));
    assert Popped(v, 2).stack == s.stack;
  }

  lemma ElseState(s: State, u: State, v: State, code: seq<Cell>)
    requires u == State(s.cells + [Instr(Branch0Check)] + [Num(1)] + code, s.stack + [Addr(|s.cells| + 1), Mark(OrigTag)])
    requires v == State(s.cells + [Instr(Branch0Check), Num(|code| + 3)] + code + [Instr(BranchCheck), Num(1)],
                        s.stack + [Addr(|s.cells| + 2 + |code| + 1), Mark(OrigTag)])
    ensures Apply(u, TElse) == Ok(v)
  {
    var t := Popped(u.Append(Instr(BranchCheck)), 2).MarkBranch(OrigTag).Append(Num(1));
    assert Popped(u.Append(Instr(BranchCheck)), 2).stack == s.stack;
    var tail := code + [Instr(BranchCheck), Num(1)];
    assert t.cells == s.cells + [Instr(Branch0Check)] + [Num(1)] + tail;
    PatchMiddle(s.cells + [Instr(Branch0Check)], Num(1), tail, Num(|code| + 3));
    assert s.cells + [Instr(Branch0Check)] + [Num(|code| + 3)] + tail == v.cells;
  }

  lemma ElseThenState(s: State, code: seq<Cell>, code': seq<Cell>)
    ensures var v := State(s.cells + [Instr(Branch0Check), Num(|code| + 3)] + code + [Instr(BranchCheck), Num(1)],
                           s.stack + [Addr(|s.cells| + 2 + |code| + 1), Mark(OrigTag)]);
            Apply(State(v.cells + code', v.stack), TThen) ==
            Ok(State(s.cells + ([Instr(Branch0Check), Num(|code| + 3)] + code + [Instr(BranchCheck), Num(|code'| + 1)] + code'), s.stack))
  {
    var v := State(s.cells + [Instr(Branch0Check), Num(|code| + 3)] + code + [Instr(BranchCheck), Num(1)],
                   s.stack + [Addr(|s.cells| + 2 + |code| + 1), Mark(OrigTag)]);
    var x := State(v.cells + code', v.stack);
    var front := s.cells + [Instr(Branch0Check), Num(|code| + 3)] + code + [Instr(BranchCheck)];
    assert x.cells == front + [Num(1)] + code';
    PatchMiddle(front, Num(1), code', Num(|code'| + 1));
    assert Popped(x, 2).stack == s.stack;
    assert front + [Num(|code'| + 1)] + code' ==
           s.cells + ([Instr(Branch0Check), Num(|code| + 3)] + code + [Instr(BranchCheck), Num(|code'| + 1)] + code');
  }

  /** WHILE puts its own mark below the one of BEGIN. */
  lemma WhileStack(stack: seq<Entry>, a: Entry, b: Entry, c: Entry, d: Entry)
    ensures Rolled(Rolled(stack + [a, b] + [c, d], 3), 3) == stack + [c, d] + [a, b]
  {
    var r := Rolled(stack + [a, b] + [c, d], 3);
    assert r == stack + [b, c, d, a];
  }

  lemma WhileState(s: State, u: State, v: State, code: seq<Cell>)
    requires u == State(s.cells + code, s.stack + [Addr(|s.cells|), Mark(DestTag)])
    requires v == State(s.cells + code + [Instr(Branch0Check), Num(1)],
                        s.stack + [Addr(|s.cells| + |code| + 1), Mark(OrigTag)] + [Addr(|s.cells|), Mark(DestTag)])
    ensures Apply(u, TWhile) == Ok(v)
  {
    var m := u.Append(Instr(Branch0Check)).MarkBranch(OrigTag);
    WhileStack(s.stack, Addr(|s.cells|), Mark(DestTag), Addr(|s.cells| + |code| + 1), Mark(OrigTag));
    assert m.stack == s.stack + [Addr(|s.cells|), Mark(DestTag)] + [Addr(|s.cells| + |code| + 1), Mark(OrigTag)];
    assert m.Append(Num(1)).cells == v.cells;
  }

  lemma RepeatState(s: State, x: State, code: seq<Cell>, code': seq<Cell>)
    requires x == State(s.cells + code + [Instr(Branch0Check), Num(1)] + code',
                        s.stack + [Addr(|s.cells| + |code| + 1), Mark(OrigTag)] + [Addr(|s.cells|), Mark(DestTag)])
    ensures Apply(x, TRepeat) ==
            Ok(State(s.cells + (code + [Instr(Branch0Check), Num(|code'| + 3)] + code'
                                + [Instr(BranchCheck), Num(-(|code| + |code'| + 3))]), s.stack))
  {
    var back := Num(-(|code| + |code'| + 3));
    var y := x.Append(Instr(BranchCheck));
    var z := Popped(y, 2).Append(back);
    assert ResolveBack(y, DestTag) == Ok(z);
    assert z.stack == s.stack + [Addr(|s.cells| + |code| + 1), Mark(OrigTag)];
    var front, tail := s.cells + code + [Instr(Branch0Check)], code' + [Instr(BranchCheck), back];
    assert z.cells == front + [Num(1)] + tail;
    PatchMiddle(front, Num(1), tail, Num(|code'| + 3));
    assert Popped(z, 2).stack == s.stack;
    assert front + [Num(|code'| + 3)] + tail ==
           s.cells + (code + [Instr(Branch0Check), Num(|code'| + 3)] + code' + [Instr(BranchCheck), back]);
  }

  // ----- One lemma for each shape -----

  lemma CompileIfThen(step: Step, n: nat, s: State, text: seq<Text>, code: seq<Cell>)
    requires n > 0 && Obeys(step, n)
    requires Appends(step, State(s.cells + [Instr(Branch0Check)] + [Num(1)], s.stack + [Addr(|s.cells| + 1), Mark(OrigTag)]), text, code)
    ensures Appends(step, s, [TIf] + text + [TThen], [Instr(Branch0Check), Num(|code| + 1)] + code)
  {
    var t := State(s.cells + [Instr(Branch0Check)] + [Num(1)], s.stack + [Addr(|s.cells| + 1), Mark(OrigTag)]);
    StepIs(step, n, s, TIf);
    StepIs(step, n, State(t.cells + code, t.stack), TThen);
    ThenState(s, code);
    Bracket(step, s, TIf, t, text, code, TThen, State(s.cells + ([Instr(Branch0Check), Num(|code| + 1)] + code), s.stack));
  }

  lemma CompileBegin(step: Step, n: nat, s: State, text: seq<Text>, code: seq<Cell>, check: bool)
    requires n > 0 && Obeys(step, n) && Appends(step, State(s.cells, s.stack + [Addr(|s.cells|), Mark(DestTag)]), text, code)
    ensures Appends(step, s, [TBegin] + text + [if check then TUntil else TAgain],
                    code + [Instr(if check then Branch0Check else BranchCheck), Num(-(|code| + 1))])
  {
    var t := State(s.cells, s.stack + [Addr(|s.cells|), Mark(DestTag)]);
    var w, op := if check then TUntil else TAgain, if check then Branch0Check else BranchCheck;
    StepIs(step, n, s, TBegin);
    StepIs(step, n, State(t.cells + code, t.stack), w);
    BackState(s, code, check);
    Bracket(step, s, TBegin, t, text, code, w, State(s.cells + (code + [Instr(op), Num(-(|code| + 1))]), s.stack));
  }

  /** The state that DO leaves. */
  function AfterDo(s: State, op: Op): State {
    State(s.cells + [Instr(op)] + [Num(0)], s.stack + [Addr(|s.cells| + 1), Mark(LeaveTag)] + [Addr(|s.cells| + 2), Mark(DoTag)])
  }

  lemma StepDo(step: Step, n: nat, s: State, maybe: bool)
    requires n > 0 && Obeys(step, n)
    ensures step(s, if maybe then TQDo else TDo) == Ok(AfterDo(s, if maybe then QDoParen else DoParen))
  {
    if maybe { StepIs(step, n, s, TQDo); } else { StepIs(step, n, s, TDo); }
  }

  lemma StepLoop(step: Step, n: nat, s: State, u: State, code: seq<Cell>, op: Op, plus: bool)
    requires n > 0 && Obeys(step, n) && u == State(AfterDo(s, op).cells + code, AfterDo(s, op).stack)
    ensures var lop := if plus then PlusLoopParen else LoopParen;
            step(u, if plus then TPlusLoop else TLoop) ==
            Ok(State(s.cells + ([Instr(op), Num(|s.cells| + |code| + 4)] + code + [Instr(lop), Num(-(|code| + 1))]), s.stack))
  {
    LoopState(s, u, code, op, if plus then PlusLoopParen else LoopParen);
    if plus { StepIs(step, n, u, TPlusLoop); } else { StepIs(step, n, u, TLoop); }
  }

  lemma CompileDo(step: Step, n: nat, s: State, text: seq<Text>, code: seq<Cell>, maybe: bool, plus: bool)
    requires n > 0 && Obeys(step, n) && Appends(step, AfterDo(s, if maybe then QDoParen else DoParen), text, code)
    ensures Appends(step, s, [if maybe then TQDo else TDo] + text + [if plus then TPlusLoop else TLoop],
                    [Instr(if maybe then QDoParen else DoParen), Num(|s.cells| + |code| + 4)] + code
                    + [Instr(if plus then PlusLoopParen else LoopParen), Num(-(|code| + 1))])
  {
    var op := if maybe then QDoParen else DoParen;
    var w0, w, lop := if maybe then TQDo else TDo, if plus then TPlusLoop else TLoop, if plus then PlusLoopParen else LoopParen;
    var t := AfterDo(s, op);
    var u := State(t.cells + code, t.stack);
    StepDo(step, n, s, maybe);
    StepLoop(step, n, s, u, code, op, plus);
    Bracket(step, s, w0, t, text, code, w,
            State(s.cells + ([Instr(op), Num(|s.cells| + |code| + 4)] + code + [Instr(lop), Num(-(|code| + 1))]), s.stack));
  }

  function AfterElse(s: State, code: seq<Cell>): State {
    State(s.cells + [Instr(Branch0Check), Num(|code| + 3)] + code + [Instr(BranchCheck), Num(1)],
          s.stack + [Addr(|s.cells| + 2 + |code| + 1), Mark(OrigTag)])
  }

  lemma CompileIfElse(step: Step, n: nat, s: State, text: seq<Text>, code: seq<Cell>, text': seq<Text>, code': seq<Cell>)
    requires n > 0 && Obeys(step, n) && Appends(step, AfterElse(s, code), text', code')
    requires Appends(step, State(s.cells + [Instr(Branch0Check)] + [Num(1)], s.stack + [Addr(|s.cells| + 1), Mark(OrigTag)]), text, code)
    ensures Appends(step, s, [TIf] + text + [TElse] + text' + [TThen],
                    [Instr(Branch0Check), Num(|code| + 3)] + code + [Instr(BranchCheck), Num(|code'| + 1)] + code')
  {
    var t := State(s.cells + [Instr(Branch0Check)] + [Num(1)], s.stack + [Addr(|s.cells| + 1), Mark(OrigTag)]);
    var u, v := State(t.cells + code, t.stack), AfterElse(s, code);
    StepIs(step, n, s, TIf);
    StepIs(step, n, u, TElse);
    ElseState(s, u, v, code);
    StepIs(step, n, State(v.cells + code', v.stack), TThen);
    ElseThenState(s, code, code');
    Bracket2(step, s, TIf, t, text, code, TElse, v, text', code', TThen,
             State(s.cells + ([Instr(Branch0Check), Num(|code| + 3)] + code + [Instr(BranchCheck), Num(|code'| + 1)] + code'), s.stack));
  }

  function AfterWhile(s: State, code: seq<Cell>): State {
    State(s.cells + code + [Instr(Branch0Check), Num(1)],
          s.stack + [Addr(|s.cells| + |code| + 1), Mark(OrigTag)] + [Addr(|s.cells|), Mark(DestTag)])
  }

  lemma CompileWhile(step: Step, n: nat, s: State, text: seq<Text>, code: seq<Cell>, text': seq<Text>, code': seq<Cell>)
    requires n > 0 && Obeys(step, n) && Appends(step, State(s.cells, s.stack + [Addr(|s.cells|), Mark(DestTag)]), text, code)
    requires Appends(step, AfterWhile(s, code), text', code')
    ensures Appends(step, s, [TBegin] + text + [TWhile] + text' + [TRepeat],
                    code + [Instr(Branch0Check), Num(|code'| + 3)] + code' + [Instr(BranchCheck), Num(-(|code| + |code'| + 3))])
  {
    var t := State(s.cells, s.stack + [Addr(|s.cells|), Mark(DestTag)]);
    var u, v := State(t.cells + code, t.stack), AfterWhile(s, code);
    var x := State(v.cells + code', v.stack);
    StepIs(step, n, s, TBegin);
    StepIs(step, n, u, TWhile);
    WhileState(s, u, v, code);
    StepIs(step, n, x, TRepeat);
    RepeatState(s, x, code, code');
    Bracket2(step, s, TBegin, t, text, code, TWhile, v, text', code', TRepeat,
             State(s.cells + (code + [Instr(Branch0Check), Num(|code'| + 3)] + code' + [Instr(BranchCheck), Num(-(|code| + |code'| + 3))]),
                   s.stack));
  }

  // ----- CASE -----

  lemma StepCaseWord(step: Step, n: nat, s: State)
    requires Obeys(step, n)
    ensures step(s, TOf) == Of(s) && step(s, TEndof) == Endof(s)
    ensures step(s, TFallthrough) == Fallthrough(s) && step(s, TEndcase) == Endcase(s)
  {
    StepIs(step, n, s, TOf);
    StepIs(step, n, s, TEndof);
    StepIs(step, n, s, TFallthrough);
    StepIs(step, n, s, TEndcase);
  }

  function Addrs(at: seq<nat>): (e: seq<Entry>)
    ensures |e| == |at|
  {
    seq(|at|, i requires 0 <= i < |at| => Addr(at[i]))
  }

  /** The control entries between two arms: the branches out of the arms so far, their
      number, and the branch of a last arm that fell through. */
  function ArmStack(base: seq<Entry>, exits: seq<nat>, fall: seq<nat>): seq<Entry> {
    base + Addrs(exits) + [Count(|exits|), Mark(CaseTag)] + if fall == [] then [] else [Addr(fall[0]), Mark(FallthroughTag)]
  }

  /** The falling branch, patched to get past the OF whose operand comes next. */
  function FallTo(cells: seq<Cell>, fall: seq<nat>, target: nat): (c: seq<Cell>)
    requires fall != [] ==> fall[0] < |cells|
    ensures |c| == |cells|
  {
    if fall == [] then cells else cells[fall[0] := Num(target - fall[0])]
  }

  lemma AddrsPush(exits: seq<nat>, at: nat)
    ensures Addrs(exits + [at]) == Addrs(exits) + [Addr(at)]
  {
  }

  /** OF between arms. */
  lemma OfState(cells: seq<Cell>, base: seq<Entry>, exits: seq<nat>, fall: seq<nat>)
    requires |fall| <= 1 && (fall != [] ==> fall[0] < |cells|)
    ensures Of(State(cells, ArmStack(base, exits, fall))) ==
            Ok(State(FallTo(cells, fall, |cells| + 2) + [Instr(OfParen), Num(2)],
                     ArmStack(base, exits, []) + [Addr(|cells| + 1), Mark(OfTag)]))
  {
    var s := State(cells, ArmStack(base, exits, fall));
    var plain := State(cells, ArmStack(base, exits, []));
    var t := plain.Append(Instr(OfParen)).MarkBranch(OfTag).Append(Num(2));
    assert t.cells == cells + [Instr(OfParen), Num(2)];
    assert t.stack == ArmStack(base, exits, []) + [Addr(|cells| + 1), Mark(OfTag)];
    assert PlainOf(plain) == Ok(t);
    if fall != [] {
      assert Popped(s, 2) == plain;
    }
  }

  /** ENDOF: one branch more out of the CASE, and the OF skips the arm. */
  lemma EndofState(front: seq<Cell>, body: seq<Cell>, base: seq<Entry>, exits: seq<nat>)
    ensures var at := |front| + |body| + 2;
            Endof(State(front + [Num(2)] + body, ArmStack(base, exits, []) + [Addr(|front|), Mark(OfTag)])) ==
            Ok(State(front + [Num(|body| + 3)] + body + [Instr(BranchCheck), Num(2)], ArmStack(base, exits + [at], [])))
  {
    var at := |front| + |body| + 2;
    var s := State(front + [Num(2)] + body, ArmStack(base, exits, []) + [Addr(|front|), Mark(OfTag)]);
    var t := Popped(s, 4).Append(Instr(BranchCheck));
    assert t.stack == base + Addrs(exits);
    AddrsPush(exits, at);
    var u := t.Push(Addr(t.Here())).Push(Count(|exits| + 1)).Push(Mark(CaseTag)).Append(Num(2));
    assert u.stack == ArmStack(base, exits + [at], []);
    PatchMiddle(front, Num(2), body + [Instr(BranchCheck), Num(2)], Num(|body| + 3));
    assert u.cells == front + [Num(2)] + (body + [Instr(BranchCheck), Num(2)]);
  }

  /** FALLTHROUGH: the branch waits for the next OF or for ENDCASE. */
  lemma FallthroughState(front: seq<Cell>, body: seq<Cell>, base: seq<Entry>, exits: seq<nat>)
    ensures var at := |front| + |body| + 2;
            Fallthrough(State(front + [Num(2)] + body, ArmStack(base, exits, []) + [Addr(|front|), Mark(OfTag)])) ==
            Ok(State(front + [Num(|body| + 3)] + body + [Instr(BranchCheck), Num(2)], ArmStack(base, exits, [at])))
  {
    var at := |front| + |body| + 2;
    var s := State(front + [Num(2)] + body, ArmStack(base, exits, []) + [Addr(|front|), Mark(OfTag)]);
    var t := Popped(s, 2).Append(Instr(BranchCheck));
    assert t.stack == ArmStack(base, exits, []);
    var u := t.MarkBranch(FallthroughTag).Append(Num(2));
    assert u.stack == ArmStack(base, exits, [at]);
    PatchMiddle(front, Num(2), body + [Instr(BranchCheck), Num(2)], Num(|body| + 3));
    assert u.cells == front + [Num(2)] + (body + [Instr(BranchCheck), Num(2)]);
  }

  /** The cells of one arm, its branch out still a placeholder. */
  function ArmCells(test: seq<Cell>, body: seq<Cell>): seq<Cell> {
    test + [Instr(OfParen), Num(|body| + 3)] + body + [Instr(BranchCheck), Num(2)]
  }

  /** The states that OF and the end of an arm leave. */
  function AfterOf(fixed: seq<Cell>, base: seq<Entry>, exits: seq<nat>, test: seq<Cell>): State {
    State(fixed + test + [Instr(OfParen), Num(2)], ArmStack(base, exits, []) + [Addr(|fixed| + |test| + 1), Mark(OfTag)])
  }

  function AfterArm(fixed: seq<Cell>, base: seq<Entry>, exits: seq<nat>, falls: bool, test: seq<Cell>, body: seq<Cell>): State {
    var at := |fixed| + |test| + |body| + 3;
    State(fixed + ArmCells(test, body), if falls then ArmStack(base, exits, [at]) else ArmStack(base, exits + [at], []))
  }

  /** The word that ends the arm. */
  lemma ArmCellsAssoc(fixed: seq<Cell>, test: seq<Cell>, body: seq<Cell>)
    ensures var front := fixed + test + [Instr(OfParen)];
            && fixed + test + [Instr(OfParen), Num(2)] + body == front + [Num(2)] + body
            && front + [Num(|body| + 3)] + body + [Instr(BranchCheck), Num(2)] == fixed + ArmCells(test, body)
  {
  }

  lemma FallthroughApplied(fixed: seq<Cell>, test: seq<Cell>, body: seq<Cell>, base: seq<Entry>, exits: seq<nat>)
    ensures Fallthrough(State(fixed + test + [Instr(OfParen), Num(2)] + body,
                              ArmStack(base, exits, []) + [Addr(|fixed| + |test| + 1), Mark(OfTag)])) ==
            Ok(State(fixed + ArmCells(test, body), ArmStack(base, exits, [|fixed| + |test| + |body| + 3])))
  {
    ArmCellsAssoc(fixed, test, body);
    FallthroughState(fixed + test + [Instr(OfParen)], body, base, exits);
  }

  lemma EndofApplied(fixed: seq<Cell>, test: seq<Cell>, body: seq<Cell>, base: seq<Entry>, exits: seq<nat>)
    ensures Endof(State(fixed + test + [Instr(OfParen), Num(2)] + body,
                        ArmStack(base, exits, []) + [Addr(|fixed| + |test| + 1), Mark(OfTag)])) ==
            Ok(State(fixed + ArmCells(test, body), ArmStack(base, exits + [|fixed| + |test| + |body| + 3], [])))
  {
    ArmCellsAssoc(fixed, test, body);
    EndofState(fixed + test + [Instr(OfParen)], body, base, exits);
  }

  lemma StepOf(step: Step, n: nat, cells: seq<Cell>, base: seq<Entry>, exits: seq<nat>, fall: seq<nat>, test: seq<Cell>, fixed: seq<Cell>)
    requires n > 0 && Obeys(step, n) && |fall| <= 1 && (fall != [] ==> fall[0] < |cells|)
    requires fixed == FallTo(cells, fall, |cells| + |test| + 2)
    ensures step(State(cells + test, ArmStack(base, exits, fall)), TOf) == Ok(AfterOf(fixed, base, exits, test))
  {
    StepCaseWord(step, n, State(cells + test, ArmStack(base, exits, fall)));
    OfArm(cells, base, exits, fall, test, fixed, |cells| + |test|);
  }

  lemma OfArm(cells: seq<Cell>, base: seq<Entry>, exits: seq<nat>, fall: seq<nat>, test: seq<Cell>, fixed: seq<Cell>, here: nat)
    requires |fall| <= 1 && (fall != [] ==> fall[0] < |cells|) && here == |cells + test| && fixed == FallTo(cells, fall, here + 2)
    ensures Of(State(cells + test, ArmStack(base, exits, fall))) == Ok(AfterOf(fixed, base, exits, test))
  {
    OfState(cells + test, base, exits, fall);
    FallToBefore(cells, test, fall, here + 2);
    assert FallTo(cells + test, fall, here + 2) + [Instr(OfParen), Num(2)] == fixed + test + [Instr(OfParen), Num(2)];
  }

  lemma FallToBefore(cells: seq<Cell>, test: seq<Cell>, fall: seq<nat>, target: nat)
    requires fall != [] ==> fall[0] < |cells|
    ensures FallTo(cells + test, fall, target) == FallTo(cells, fall, target) + test
  {
  }

  lemma StepArmEnd(step: Step, n: nat, fixed: seq<Cell>, base: seq<Entry>, exits: seq<nat>, falls: bool,
                   test: seq<Cell>, body: seq<Cell>)
    requires n > 0 && Obeys(step, n)
    ensures var u := AfterOf(fixed, base, exits, test);
            step(State(u.cells + body, u.stack), if falls then TFallthrough else TEndof) ==
            Ok(AfterArm(fixed, base, exits, falls, test, body))
  {
    var s := State(fixed + test + [Instr(OfParen), Num(2)] + body, ArmStack(base, exits, []) + [Addr(|fixed| + |test| + 1), Mark(OfTag)]);
    StepCaseWord(step, n, s);
    if falls { FallthroughApplied(fixed, test, body, base, exits); } else { EndofApplied(fixed, test, body, base, exits); }
  }

  /** One arm: test OF body ENDOF, or FALLTHROUGH; `fixed` is what the OF makes of the
      cells before the arm. */
  lemma CompileArm(step: Step, n: nat, cells: seq<Cell>, base: seq<Entry>, exits: seq<nat>, fall: seq<nat>, falls: bool,
                   ttext: seq<Text>, test: seq<Cell>, btext: seq<Text>, body: seq<Cell>, rest: seq<Text>, fixed: seq<Cell>)
    requires n > 0 && Obeys(step, n) && |fall| <= 1 && (fall != [] ==> fall[0] < |cells|)
    requires fixed == FallTo(cells, fall, |cells| + |test| + 2)
    requires Appends(step, State(cells, ArmStack(base, exits, fall)), ttext, test)
    requires Appends(step, AfterOf(fixed, base, exits, test), btext, body)
    ensures RunText(step, State(cells, ArmStack(base, exits, fall)), ttext + [TOf] + btext + [if falls then TFallthrough else TEndof] + rest) ==
            RunText(step, AfterArm(fixed, base, exits, falls, test, body), rest)
  {
    var s, u := State(cells, ArmStack(base, exits, fall)), AfterOf(fixed, base, exits, test);
    var w := if falls then TFallthrough else TEndof;
    StepOf(step, n, cells, base, exits, fall, test, fixed);
    StepArmEnd(step, n, fixed, base, exits, falls, test, body);
    ArmText(step, s, ttext, test, TOf, u, btext, body, w, AfterArm(fixed, base, exits, falls, test, body), rest);
  }

  // ----- ENDCASE -----

  /** Branches patched to `end`, the last first. */
  function PatchAll(cells: seq<Cell>, at: seq<nat>, end: nat): (c: seq<Cell>)
    requires forall i :: 0 <= i < |at| ==> at[i] < |cells|
    ensures |c| == |cells|
    decreases |at|
  {
    if at == [] then cells
    else PatchAll(cells[at[|at| - 1] := Num(end - at[|at| - 1])], at[..|at| - 1], end)
  }

  lemma {:induction false} FixupsState(cells: seq<Cell>, base: seq<Entry>, at: seq<nat>)
    requires forall i :: 0 <= i < |at| ==> at[i] < |cells|
    ensures ResolveFixups(State(cells, base + Addrs(at)), |at|) == Ok(State(PatchAll(cells, at, |cells|), base))
    decreases |at|
  {
    var s := State(cells, base + Addrs(at));
    if at == [] {
      assert s.stack == base;
    } else {
      var x, rest := at[|at| - 1], at[..|at| - 1];
      assert Popped(s, 1).stack == base + Addrs(rest);
      FixupsState(cells[x := Num(|cells| - x)], base, rest);
    }
  }

  lemma PlainEndcaseState(cells: seq<Cell>, base: seq<Entry>, exits: seq<nat>)
    requires forall i :: 0 <= i < |exits| ==> exits[i] < |cells|
    ensures PlainEndcase(State(cells, ArmStack(base, exits, []))) ==
            Ok(State(PatchAll(cells + [Instr(Drop)], exits, |cells| + 1), base))
  {
    var s := State(cells, ArmStack(base, exits, []));
    assert Popped(s, 2).stack == base + Addrs(exits);
    FixupsState(cells + [Instr(Drop)], base, exits);
  }

  /** A last falling arm is made one more exit. */
  lemma FallenStack(cells: seq<Cell>, front: seq<Entry>, n: nat, at: nat)
    ensures Endcase(State(cells, front + [Count(n), Mark(CaseTag)] + [Addr(at), Mark(FallthroughTag)])) ==
            PlainEndcase(State(cells, front + [Addr(at)] + [Count(n + 1), Mark(CaseTag)]))
  {
    var s := State(cells, front + [Count(n), Mark(CaseTag)] + [Addr(at), Mark(FallthroughTag)]);
    var t := State(cells, front + [Count(n), Mark(CaseTag)]);
    assert Popped(s, 2) == t;
    assert Popped(t, 2) == State(cells, front);
    assert front + [Addr(at)] + [Count(n + 1)] + [Mark(CaseTag)] == front + [Addr(at)] + [Count(n + 1), Mark(CaseTag)];
  }

  lemma ArmStackFallen(base: seq<Entry>, exits: seq<nat>, at: nat, front: seq<Entry>)
    requires front == base + Addrs(exits)
    ensures ArmStack(base, exits, [at]) == front + [Count(|exits|), Mark(CaseTag)] + [Addr(at), Mark(FallthroughTag)]
    ensures ArmStack(base, exits + [at], []) == front + [Addr(at)] + [Count(|exits| + 1), Mark(CaseTag)]
  {
    AddrsPush(exits, at);
  }

  lemma FallingEndcaseState(cells: seq<Cell>, base: seq<Entry>, exits: seq<nat>, at: nat)
    ensures Endcase(State(cells, ArmStack(base, exits, [at]))) == PlainEndcase(State(cells, ArmStack(base, exits + [at], [])))
  {
    ArmStackFallen(base, exits, at, base + Addrs(exits));
    FallenStack(cells, base + Addrs(exits), |exits|, at);
  }

  lemma NotFallingEndcaseState(cells: seq<Cell>, base: seq<Entry>, exits: seq<nat>)
    ensures Endcase(State(cells, ArmStack(base, exits, []))) == PlainEndcase(State(cells, ArmStack(base, exits, [])))
  {
    assert !Falling(State(cells, ArmStack(base, exits, [])));
  }

  /** ENDCASE patches every branch out of the CASE, that of a last falling arm included. */
  lemma EndcaseState(cells: seq<Cell>, base: seq<Entry>, exits: seq<nat>, fall: seq<nat>, all: seq<nat>)
    requires |fall| <= 1 && all == exits + fall && forall i :: 0 <= i < |all| ==> all[i] < |cells|
    ensures Endcase(State(cells, ArmStack(base, exits, fall))) ==
            Ok(State(PatchAll(cells + [Instr(Drop)], all, |cells| + 1), base))
  {
    PlainEndcaseState(cells, base, all);
    if fall == [] {
      assert all == exits;
      NotFallingEndcaseState(cells, base, exits);
    } else {
      assert fall == [fall[0]];
      FallingEndcaseState(cells, base, exits, fall[0]);
    }
  }

  /** The branches out of a CASE: those of its arms, except for an arm that falls into
      another one.  A last arm that falls comes last. */
  function Exits(arms: Arms, a: nat): (e: seq<nat>)
    ensures forall i :: 0 <= i < |e| ==> a <= e[i] < a + ArmsSize(arms)
  {
    match arms
    case NoArms => []
    case Arm(test, body, falls, rest) =>
      var out := a + Sizes(test) + Sizes(body) + 3;
      if falls && rest.Arm? then Exits(rest, out + 1) else [out] + Exits(rest, out + 1)
  }

  lemma {:induction false} PatchAllConcat(cells: seq<Cell>, f: seq<nat>, g: seq<nat>, end: nat)
    requires forall i :: 0 <= i < |f + g| ==> (f + g)[i] < |cells|
    ensures (forall i :: 0 <= i < |f| ==> f[i] < |cells|) && (forall i :: 0 <= i < |g| ==> g[i] < |cells|)
    ensures PatchAll(cells, f + g, end) == PatchAll(PatchAll(cells, g, end), f, end)
    decreases |g|
  {
    forall i | 0 <= i < |f| ensures f[i] < |cells| { assert (f + g)[i] == f[i]; }
    forall i | 0 <= i < |g| ensures g[i] < |cells| { assert (f + g)[|f| + i] == g[i]; }
    if g == [] {
      assert f + g == f;
    } else {
      var x, rest := g[|g| - 1], g[..|g| - 1];
      assert (f + g)[|f + g| - 1] == x && (f + g)[..|f + g| - 1] == f + rest;
      PatchAllConcat(cells[x := Num(end - x)], f, rest, end);
    }
  }

  lemma ArmsCodeHead(arms: Arms, a: nat, exit: Exit, h: seq<Cell>, x: int, rest: seq<Cell>)
    requires arms.Arm? && h == ArmHead(arms, a) && x == ArmOffset(arms.falls, arms.rest, exit, a + |h|)
    requires rest == ArmsCode(arms.rest, a + |h| + 1, exit)
    ensures ArmsCode(arms, a, exit) == h + [Num(x)] + rest
  {
  }

  lemma ArmsCodeParts(front: seq<Cell>, code: seq<Cell>, back: seq<Cell>, h: seq<Cell>, x: int, rest: seq<Cell>)
    requires code == h + [Num(x)] + rest
    ensures front + code + back == front + h + [Num(x)] + rest + back
  {
    FiveParts(front, h, [Num(x)], rest, back);
  }

  lemma FiveParts<T>(a: seq<T>, b: seq<T>, c: seq<T>, d: seq<T>, e: seq<T>)
    ensures a + (b + c + d) + e == a + b + c + d + e
  {
  }

  /** One exit patched behind all the later ones. */
  lemma PatchFirstExit(head: seq<Cell>, pend: seq<Cell>, fin: seq<Cell>, back: seq<Cell>, later: seq<nat>, end: nat)
    requires |fin| == |pend| && forall i :: 0 <= i < |later| ==> later[i] < |head + [Num(2)] + pend + back|
    requires PatchAll(head + [Num(2)] + pend + back, later, end) == head + [Num(2)] + fin + back
    ensures PatchAll(head + [Num(2)] + pend + back, [|head|] + later, end) == head + [Num(end - |head|)] + fin + back
  {
    PatchAllConcat(head + [Num(2)] + pend + back, [|head|], later, end);
    PatchOne(head + [Num(2)] + fin + back, |head|, end);
    PatchMiddle(head, Num(2), fin + back, Num(end - |head|));
    assert head + [Num(2)] + fin + back == head + [Num(2)] + (fin + back);
  }

  /** The operand of one arm's branch, and the exits behind it. */
  lemma PatchedOperand(head: seq<Cell>, x: int, y: int, pend: seq<Cell>, fin: seq<Cell>, back: seq<Cell>,
                       exits: seq<nat>, later: seq<nat>, end: nat)
    requires |fin| == |pend| && forall i :: 0 <= i < |later| ==> later[i] < |head| + 1 + |pend|
    requires PatchAll(head + [Num(x)] + pend + back, later, end) == head + [Num(x)] + fin + back
    requires if exits == later then x == y else exits == [|head|] + later && x == 2 && y == end - |head|
    ensures forall i :: 0 <= i < |exits| ==> exits[i] < |head| + 1 + |pend|
    ensures PatchAll(head + [Num(x)] + pend + back, exits, end) == head + [Num(y)] + fin + back
  {
    if exits != later { PatchFirstExit(head, pend, fin, back, later, end); }
  }

  /** Patching the exits turns pending code into final code. */
  lemma {:induction false} PatchedArms(front: seq<Cell>, arms: Arms, back: seq<Cell>, end: nat)
    ensures PatchAll(front + ArmsCode(arms, |front|, Pending) + back, Exits(arms, |front|), end) ==
            front + ArmsCode(arms, |front|, Final(end)) + back
    decreases arms
  {
    match arms
    case NoArms =>
    case Arm(_, _, falls, rest) =>
      var h := ArmHead(arms, |front|);
      var out := |front + h|;
      var next := front + h + [Num(ArmOffset(falls, rest, Pending, out))];
      assert |next| == out + 1;
      PatchedArms(next, rest, back, end);
      PatchedStep(front, arms, back, end, h, ArmsCode(rest, |next|, Pending), ArmsCode(rest, |next|, Final(end)), Exits(rest, |next|),
                  ArmsCode(arms, |front|, Pending), ArmsCode(arms, |front|, Final(end)), Exits(arms, |front|));
  }

  lemma PatchedStep(front: seq<Cell>, arms: Arms, back: seq<Cell>, end: nat, h: seq<Cell>, pend: seq<Cell>, fin: seq<Cell>,
                    later: seq<nat>, code: seq<Cell>, code': seq<Cell>, exits: seq<nat>)
    requires arms.Arm? && h == ArmHead(arms, |front|) && later == Exits(arms.rest, |front + h| + 1)
    requires pend == ArmsCode(arms.rest, |front + h| + 1, Pending) && fin == ArmsCode(arms.rest, |front + h| + 1, Final(end))
    requires code == ArmsCode(arms, |front|, Pending) && code' == ArmsCode(arms, |front|, Final(end)) && exits == Exits(arms, |front|)
    requires var x := ArmOffset(arms.falls, arms.rest, Pending, |front + h|);
             PatchAll(front + h + [Num(x)] + pend + back, later, end) == front + h + [Num(x)] + fin + back
    ensures PatchAll(front + code + back, exits, end) == front + code' + back
  {
    var out := |front + h|;
    var x, y := ArmOffset(arms.falls, arms.rest, Pending, out), ArmOffset(arms.falls, arms.rest, Final(end), out);
    ArmsCodeHead(arms, |front|, Pending, h, x, pend);
    ArmsCodeHead(arms, |front|, Final(end), h, y, fin);
    OperandOf(arms, |front|, end, out, exits, later);
    PatchedWhole(front, code, code', back, h, x, y, pend, fin, exits, later, end);
  }

  /** The operand is a placeholder exactly when its branch is among the exits. */
  lemma OperandOf(arms: Arms, a: nat, end: nat, out: nat, exits: seq<nat>, later: seq<nat>)
    requires arms.Arm? && out == a + Sizes(arms.test) + Sizes(arms.body) + 3
    requires exits == Exits(arms, a) && later == Exits(arms.rest, out + 1)
    ensures var x, y := ArmOffset(arms.falls, arms.rest, Pending, out), ArmOffset(arms.falls, arms.rest, Final(end), out);
            if exits == later then x == y else exits == [out] + later && x == 2 && y == end - out
  {
    if !(arms.falls && arms.rest.Arm?) {
      assert |exits| == |later| + 1;
    }
  }

  lemma PatchedWhole(front: seq<Cell>, code: seq<Cell>, code': seq<Cell>, back: seq<Cell>, h: seq<Cell>, x: int, y: int,
                     pend: seq<Cell>, fin: seq<Cell>, exits: seq<nat>, later: seq<nat>, end: nat)
    requires code == h + [Num(x)] + pend && code' == h + [Num(y)] + fin
    requires |fin| == |pend| && forall i :: 0 <= i < |later| ==> later[i] < |front + h| + 1 + |pend|
    requires PatchAll(front + h + [Num(x)] + pend + back, later, end) == front + h + [Num(x)] + fin + back
    requires if exits == later then x == y else exits == [|front + h|] + later && x == 2 && y == end - |front + h|
    ensures forall i :: 0 <= i < |exits| ==> exits[i] < |front + code + back|
    ensures PatchAll(front + code + back, exits, end) == front + code' + back
  {
    PatchedOperand(front + h, x, y, pend, fin, back, exits, later, end);
    ArmsCodeParts(front, code, back, h, x, pend);
    ArmsCodeParts(front, code', back, h, y, fin);
    SamePatch(front + code + back, front + h + [Num(x)] + pend + back, exits, end,
              front + code' + back, front + h + [Num(y)] + fin + back);
  }

  lemma SamePatch(cells: seq<Cell>, cells': seq<Cell>, at: seq<nat>, end: nat, r: seq<Cell>, r': seq<Cell>)
    requires cells == cells' && r == r' && (forall i :: 0 <= i < |at| ==> at[i] < |cells|) && PatchAll(cells', at, end) == r'
    ensures PatchAll(cells, at, end) == r
  {
  }

  lemma PatchOne(cells: seq<Cell>, x: nat, end: nat)
    requires x < |cells|
    ensures PatchAll(cells, [x], end) == cells[x := Num(end - x)]
  {
    assert [x][..0] == [];
  }

  // ----- Arms, one after the other -----

  /** The cells before some arms, once the first OF has patched what fell into it. */
  function ArmsFixed(cells: seq<Cell>, fall: seq<nat>, arms: Arms): (c: seq<Cell>)
    requires fall != [] ==> fall[0] < |cells|
    ensures |c| == |cells|
  {
    if arms.Arm? then FallTo(cells, fall, |cells| + Sizes(arms.test) + 2) else cells
  }

  /** An arm and the patch that the next OF makes. */
  lemma ArmThenFixed(fixed: seq<Cell>, arms: Arms, a: nat, at: nat, next: seq<Cell>)
    requires arms.Arm? && a == |fixed| && at == a + Sizes(arms.test) + Sizes(arms.body) + 3
    requires next == fixed + ArmCells(Codes(arms.test, a), Codes(arms.body, a + Sizes(arms.test) + 2))
    ensures |next| == at + 1
    ensures ArmsFixed(next, if arms.falls then [at] else [], arms.rest) ==
            fixed + ArmHead(arms, a) + [Num(ArmOffset(arms.falls, arms.rest, Pending, at))]
  {
    var front := fixed + ArmHead(arms, a);
    assert next == front + [Num(2)];
    if arms.falls && arms.rest.Arm? {
      PatchMiddle(front, Num(2), [], Num(Sizes(arms.rest.test) + 3));
      assert next + [] == next;
    }
  }

  lemma ExitsSplit(exits: seq<nat>, arms: Arms, a: nat, at: nat, out: seq<nat>)
    requires arms.Arm? && at == a + Sizes(arms.test) + Sizes(arms.body) + 3
    requires out == (if arms.falls then exits else exits + [at])
                    + (if arms.rest.Arm? then Exits(arms.rest, at + 1) else if arms.falls then [at] else [])
    ensures out == exits + Exits(arms, a)
  {
  }

  lemma ArmsCodeSplit(fixed: seq<Cell>, arms: Arms, a: nat, at: nat)
    requires arms.Arm? && at == a + Sizes(arms.test) + Sizes(arms.body) + 3
    ensures fixed + ArmHead(arms, a) + [Num(ArmOffset(arms.falls, arms.rest, Pending, at))] + ArmsCode(arms.rest, at + 1, Pending) ==
            fixed + ArmsCode(arms, a, Pending)
  {
    var x, rest := ArmOffset(arms.falls, arms.rest, Pending, at), ArmsCode(arms.rest, at + 1, Pending);
    ArmsCodeHead(arms, a, Pending, ArmHead(arms, a), x, rest);
    ArmsAssoc(fixed, ArmHead(arms, a), Num(x), rest);
  }

  lemma ArmsAssoc(fixed: seq<Cell>, h: seq<Cell>, x: Cell, rest: seq<Cell>)
    ensures fixed + h + [x] + rest == fixed + (h + [x] + rest)
  {
  }

  // ----- The whole language -----

  /** A statement appends its code. */
  lemma {:induction false} CompileStmt(step: Step, n: nat, s: State, stmt: Stmt)
    requires n > 0 && Obeys(step, n)
    ensures Appends(step, s, Words(stmt), Code(stmt, |s.cells|))
    decreases stmt, 1
  {
    match stmt
    case IfThen(_) => CompileConditional(step, n, s, stmt);
    case IfElse(_, _) => CompileAlternative(step, n, s, stmt);
    case Until(_) => CompileIndefinite(step, n, s, stmt);
    case Again(_) => CompileIndefinite(step, n, s, stmt);
    case While(_, _) => CompileGuarded(step, n, s, stmt);
    case Do(_, _, _) => CompileDefinite(step, n, s, stmt);
    case Case(_, _) => CompileCase(step, n, s, stmt);
    case _ => CompileSimple(step, n, s, stmt);
  }

  lemma CompileSimple(step: Step, n: nat, s: State, stmt: Stmt)
    requires n > 0 && Obeys(step, n) && (stmt.Lit? || stmt.Word? || stmt.Index? || stmt.Leave?)
    ensures Appends(step, s, Words(stmt), Code(stmt, |s.cells|))
  {
    RunOne(step, s, Words(stmt)[0]);
    match stmt
    case Lit(v) => StepIs(step, n, s, TLit(v));
    case Word(w) => StepIs(step, n, s, TWord(w));
    case Index(l) => StepIs(step, n, s, TIndex(l));
    case Leave => StepIs(step, n, s, TLeave);
  }

  lemma {:induction false} CompileConditional(step: Step, n: nat, s: State, stmt: Stmt)
    requires n > 0 && Obeys(step, n) && stmt.IfThen?
    ensures Appends(step, s, Words(stmt), Code(stmt, |s.cells|))
    decreases stmt, 0
  {
    var yes, code := stmt.yes, Codes(stmt.yes, |s.cells| + 2);
    CompileBlock(step, n, State(s.cells + [Instr(Branch0Check)] + [Num(1)], s.stack + [Addr(|s.cells| + 1), Mark(OrigTag)]), yes);
    CompileIfThen(step, n, s, BlockWords(yes), code);
  }

  lemma {:induction false} CompileAlternative(step: Step, n: nat, s: State, stmt: Stmt)
    requires n > 0 && Obeys(step, n) && stmt.IfElse?
    ensures Appends(step, s, Words(stmt), Code(stmt, |s.cells|))
    decreases stmt, 0
  {
    var p := |s.cells|;
    match stmt
    case IfElse(yes, no) =>
      var code, code' := Codes(yes, p + 2), Codes(no, p + 4 + Sizes(yes));
      CompileBlock(step, n, State(s.cells + [Instr(Branch0Check)] + [Num(1)], s.stack + [Addr(p + 1), Mark(OrigTag)]), yes);
      AfterElseSize(s, code);
      CompileBlock(step, n, AfterElse(s, code), no);
      IfElseCode(stmt, yes, no, p, code, code');
      CompileIfElse(step, n, s, BlockWords(yes), code, BlockWords(no), code');
  }

  lemma AfterElseSize(s: State, code: seq<Cell>)
    ensures |AfterElse(s, code).cells| == |s.cells| + 4 + |code|
  {
  }

  lemma IfElseCode(stmt: Stmt, yes: Block, no: Block, p: nat, code: seq<Cell>, code': seq<Cell>)
    requires stmt == IfElse(yes, no) && code == Codes(yes, p + 2) && code' == Codes(no, p + 4 + |code|)
    ensures Code(stmt, p) == [Instr(Branch0Check), Num(|code| + 3)] + code + [Instr(BranchCheck), Num(|code'| + 1)] + code'
  {
    assert |code| == Sizes(yes) && |code'| == Sizes(no);
  }

  lemma {:induction false} CompileIndefinite(step: Step, n: nat, s: State, stmt: Stmt)
    requires n > 0 && Obeys(step, n) && (stmt.Until? || stmt.Again?)
    ensures Appends(step, s, Words(stmt), Code(stmt, |s.cells|))
    decreases stmt, 0
  {
    var p, t := |s.cells|, State(s.cells, s.stack + [Addr(|s.cells|), Mark(DestTag)]);
    match stmt
    case Until(body) =>
      CompileBlock(step, n, t, body);
      CompileBegin(step, n, s, BlockWords(body), Codes(body, p), true);
    case Again(body) =>
      CompileBlock(step, n, t, body);
      CompileBegin(step, n, s, BlockWords(body), Codes(body, p), false);
  }

  lemma {:induction false} CompileGuarded(step: Step, n: nat, s: State, stmt: Stmt)
    requires n > 0 && Obeys(step, n) && stmt.While?
    ensures Appends(step, s, Words(stmt), Code(stmt, |s.cells|))
    decreases stmt, 0
  {
    var test, body, p := stmt.test, stmt.body, |s.cells|;
    CompileBlock(step, n, State(s.cells, s.stack + [Addr(p), Mark(DestTag)]), test);
    CompileBlock(step, n, AfterWhile(s, Codes(test, p)), body);
    CompileWhile(step, n, s, BlockWords(test), Codes(test, p), BlockWords(body), Codes(body, p + Sizes(test) + 2));
  }

  lemma {:induction false} CompileDefinite(step: Step, n: nat, s: State, stmt: Stmt)
    requires n > 0 && Obeys(step, n) && stmt.Do?
    ensures Appends(step, s, Words(stmt), Code(stmt, |s.cells|))
    decreases stmt, 0
  {
    CompileBlock(step, n, AfterDo(s, if stmt.maybe then QDoParen else DoParen), stmt.body);
    CompileDo(step, n, s, BlockWords(stmt.body), Codes(stmt.body, |s.cells| + 2), stmt.maybe, stmt.plus);
  }

  lemma {:induction false} CompileBlock(step: Step, n: nat, s: State, b: Block)
    requires n > 0 && Obeys(step, n)
    ensures Appends(step, s, BlockWords(b), Codes(b, |s.cells|))
    decreases b
  {
    match b
    case Empty =>
      assert s.cells + [] == s.cells;
    case Seq(stmt, rest) =>
      var code := Code(stmt, |s.cells|);
      var t := State(s.cells + code, s.stack);
      CompileStmt(step, n, s, stmt);
      CompileBlock(step, n, t, rest);
      RunConcat(step, s, Words(stmt), BlockWords(rest));
      Assoc3(s.cells, code, Codes(rest, |t.cells|));
  }

  lemma {:induction false} CompileArms(step: Step, n: nat, cells: seq<Cell>, base: seq<Entry>, exits: seq<nat>, fall: seq<nat>, arms: Arms)
    returns (exits': seq<nat>, fall': seq<nat>)
    requires n > 0 && Obeys(step, n) && |fall| <= 1 && (fall != [] ==> fall[0] < |cells|)
    ensures |fall'| <= 1 && exits' + fall' == exits + if arms.Arm? then Exits(arms, |cells|) else fall
    ensures RunText(step, State(cells, ArmStack(base, exits, fall)), ArmsWords(arms)) ==
            Ok(State(ArmsFixed(cells, fall, arms) + ArmsCode(arms, |cells|, Pending), ArmStack(base, exits', fall')))
    decreases arms, 1
  {
    match arms
    case NoArms =>
      exits', fall' := exits, fall;
      assert cells + [] == cells;
    case Arm(test, body, falls, rest) =>
      var fixed, at := ArmsFixed(cells, fall, arms), |cells| + Sizes(test) + Sizes(body) + 3;
      var tcode, bcode := Codes(test, |cells|), Codes(body, |cells| + Sizes(test) + 2);
      var next, exits1, fall1 := fixed + ArmCells(tcode, bcode), if falls then exits else exits + [at], if falls then [at] else [];
      CompileFirstArm(step, n, cells, base, exits, fall, arms, fixed, tcode, bcode);
      AfterArmIs(fixed, base, exits, falls, tcode, bcode, at, next, exits1, fall1);
      exits', fall' := CompileArms(step, n, next, base, exits1, fall1, rest);
      ExitsSplit(exits, arms, |cells|, at, exits' + fall');
      ArmsCellsDone(fixed, arms, |cells|, at, next, fall1);
  }

  lemma ArmsCellsDone(fixed: seq<Cell>, arms: Arms, a: nat, at: nat, next: seq<Cell>, fall: seq<nat>)
    requires arms.Arm? && a == |fixed| && at == a + Sizes(arms.test) + Sizes(arms.body) + 3
    requires next == fixed + ArmCells(Codes(arms.test, a), Codes(arms.body, a + Sizes(arms.test) + 2))
    requires fall == if arms.falls then [at] else []
    ensures |next| == at + 1
    ensures ArmsFixed(next, fall, arms.rest) + ArmsCode(arms.rest, at + 1, Pending) == fixed + ArmsCode(arms, a, Pending)
  {
    ArmThenFixed(fixed, arms, a, at, next);
    ArmsCodeSplit(fixed, arms, a, at);
  }

  lemma AfterArmIs(fixed: seq<Cell>, base: seq<Entry>, exits: seq<nat>, falls: bool, test: seq<Cell>, body: seq<Cell>,
                   at: nat, next: seq<Cell>, exits': seq<nat>, fall': seq<nat>)
    requires at == |fixed| + |test| + |body| + 3 && next == fixed + ArmCells(test, body)
    requires exits' == (if falls then exits else exits + [at]) && fall' == if falls then [at] else []
    ensures AfterArm(fixed, base, exits, falls, test, body) == State(next, ArmStack(base, exits', fall'))
    ensures |next| == at + 1 && |fall'| <= 1 && (fall' != [] ==> fall'[0] < |next|)
  {
  }

  /** The first of some arms. */
  lemma {:induction false} CompileFirstArm(step: Step, n: nat, cells: seq<Cell>, base: seq<Entry>, exits: seq<nat>, fall: seq<nat>, arms: Arms,
                                           fixed: seq<Cell>, tcode: seq<Cell>, bcode: seq<Cell>)
    requires n > 0 && Obeys(step, n) && |fall| <= 1 && (fall != [] ==> fall[0] < |cells|) && arms.Arm?
    requires fixed == ArmsFixed(cells, fall, arms)
    requires tcode == Codes(arms.test, |cells|) && bcode == Codes(arms.body, |cells| + Sizes(arms.test) + 2)
    ensures RunText(step, State(cells, ArmStack(base, exits, fall)), ArmsWords(arms)) ==
            RunText(step, AfterArm(fixed, base, exits, arms.falls, tcode, bcode), ArmsWords(arms.rest))
    decreases arms, 0
  {
    CompileBlock(step, n, State(cells, ArmStack(base, exits, fall)), arms.test);
    CompileBlock(step, n, AfterOf(fixed, base, exits, tcode), arms.body);
    CompileArm(step, n, cells, base, exits, fall, arms.falls, BlockWords(arms.test), tcode, BlockWords(arms.body), bcode,
               ArmsWords(arms.rest), fixed);
  }

  lemma {:induction false} CompileCase(step: Step, n: nat, s: State, stmt: Stmt)
    requires n > 0 && Obeys(step, n) && stmt.Case?
    ensures Appends(step, s, Words(stmt), Code(stmt, |s.cells|))
    decreases stmt, 0
  {
    var arms, dflt, p := stmt.arms, stmt.dflt, |s.cells|;
    var t := State(s.cells, ArmStack(s.stack, [], []));
    var pend, dcode := ArmsCode(arms, p, Pending), Codes(dflt, p + ArmsSize(arms));
    var exits, fall := CompileArms(step, n, s.cells, s.stack, [], [], arms);
    var u := State(s.cells + pend, ArmStack(s.stack, exits, fall));
    CompileBlock(step, n, u, dflt);
    var v := State(s.cells + pend + dcode, u.stack);
    StepCase(step, n, s, t);
    StepEndcase(step, n, s, arms, dflt, stmt, exits, fall, dcode);
    CaseText(step, s, t, ArmsWords(arms), u, BlockWords(dflt), v, State(s.cells + Code(stmt, p), s.stack));
  }

  lemma StepCase(step: Step, n: nat, s: State, t: State)
    requires n > 0 && Obeys(step, n) && t == State(s.cells, ArmStack(s.stack, [], []))
    ensures step(s, TCase) == Ok(t)
  {
    StepIs(step, n, s, TCase);
    assert s.Push(Count(0)).Push(Mark(CaseTag)) == t;
  }

  lemma StepEndcase(step: Step, n: nat, s: State, arms: Arms, dflt: Block, stmt: Stmt, exits: seq<nat>, fall: seq<nat>, dcode: seq<Cell>)
    requires n > 0 && Obeys(step, n) && |fall| <= 1 && stmt == Case(arms, dflt)
    requires exits + fall == [] + if arms.Arm? then Exits(arms, |s.cells|) else []
    requires dcode == Codes(dflt, |s.cells| + ArmsSize(arms))
    ensures step(State(s.cells + ArmsCode(arms, |s.cells|, Pending) + dcode, ArmStack(s.stack, exits, fall)), TEndcase) ==
            Ok(State(s.cells + Code(stmt, |s.cells|), s.stack))
  {
    var before, code := s.cells + ArmsCode(arms, |s.cells|, Pending) + dcode, Code(stmt, |s.cells|);
    var all := Exits(arms, |s.cells|);
    assert exits + fall == all;
    CasePatched(s.cells, arms, dflt, stmt, dcode, before, code, all);
    StepPatched(step, n, before, s.stack, exits, fall, all, s.cells + code);
  }

  lemma StepPatched(step: Step, n: nat, cells: seq<Cell>, base: seq<Entry>, exits: seq<nat>, fall: seq<nat>, all: seq<nat>, code: seq<Cell>)
    requires n > 0 && Obeys(step, n) && |fall| <= 1 && exits + fall == all && forall i :: 0 <= i < |all| ==> all[i] < |cells|
    requires PatchAll(cells + [Instr(Drop)], all, |cells| + 1) == code
    ensures step(State(cells, ArmStack(base, exits, fall)), TEndcase) == Ok(State(code, base))
  {
    var s := State(cells, ArmStack(base, exits, fall));
    EndcaseState(cells, base, exits, fall, all);
    StepCaseWord(step, n, s);
  }

  lemma CasePatched(cells: seq<Cell>, arms: Arms, dflt: Block, stmt: Stmt, dcode: seq<Cell>, before: seq<Cell>, code: seq<Cell>, all: seq<nat>)
    requires stmt == Case(arms, dflt) && code == Code(stmt, |cells|) && all == Exits(arms, |cells|)
    requires dcode == Codes(dflt, |cells| + ArmsSize(arms)) && before == cells + ArmsCode(arms, |cells|, Pending) + dcode
    ensures |before| == |cells| + ArmsSize(arms) + Sizes(dflt)
    ensures PatchAll(before + [Instr(Drop)], all, |before| + 1) == cells + code
  {
    var p, end := |cells|, |before| + 1;
    var final := ArmsCode(arms, p, Final(end));
    CaseCode(arms, dflt, p, stmt, final, dcode, end, p + ArmsSize(arms));
    PatchedArms(cells, arms, dcode + [Instr(Drop)], end);
    Assoc3(cells + ArmsCode(arms, p, Pending), dcode, [Instr(Drop)]);
    FourParts(cells, final, dcode, [Instr(Drop)]);
    SamePatch(before + [Instr(Drop)], cells + ArmsCode(arms, p, Pending) + (dcode + [Instr(Drop)]), all, end,
              cells + code, cells + final + (dcode + [Instr(Drop)]));
  }

  lemma CaseCode(arms: Arms, dflt: Block, p: nat, stmt: Stmt, acode: seq<Cell>, dcode: seq<Cell>, end: nat, q: nat)
    requires stmt == Case(arms, dflt) && end == p + ArmsSize(arms) + Sizes(dflt) + 1 && q == p + ArmsSize(arms)
    requires acode == ArmsCode(arms, p, Final(end)) && dcode == Codes(dflt, q)
    ensures Code(stmt, p) == acode + dcode + [Instr(Drop)]
  {
  }

  lemma FourParts<T>(a: seq<T>, b: seq<T>, c: seq<T>, d: seq<T>)
    ensures a + b + (c + d) == a + (b + c + d)
  {
  }

  lemma CaseText(step: Step, s: State, t: State, atext: seq<Text>, u: State, dtext: seq<Text>, v: State, z: State)
    requires step(s, TCase) == Ok(t) && RunText(step, t, atext) == Ok(u) && RunText(step, u, dtext) == Ok(v)
    requires step(v, TEndcase) == Ok(z)
    ensures RunText(step, s, [TCase] + atext + dtext + [TEndcase]) == Ok(z)
  {
    assert [TCase] + atext + dtext + [TEndcase] == [TCase] + (atext + (dtext + [TEndcase]));
    assert ([TCase] + (atext + (dtext + [TEndcase])))[1..] == atext + (dtext + [TEndcase]);
    RunConcat(step, t, atext, dtext + [TEndcase]);
    RunConcat(step, u, dtext, [TEndcase]);
    RunOne(step, v, TEndcase);
  }
}
