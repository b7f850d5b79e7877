/** The compiling words themselves: each changes the dictionary and the control entries on
    the data stack as Apply says, and a whole text leaves the code of its program. */
module ForthCompiler {
  import opened ForthCode
  import opened ForthCompile
  import opened ForthStructure

  class Compiler {
    var cells: seq<Cell>
    var stack: seq<Entry>

    constructor (cells: seq<Cell>, stack: seq<Entry>)
      ensures Now() == State(cells, stack)
    {
      this.cells, this.stack := cells, stack;
    }

    ghost function Now(): State
      reads this
    {
      State(cells, stack)
    }

    /** A word either completes or throws. */
    ghost function Outcome(ok: bool): Result
      reads this
    {
      if ok then Ok(State(cells, stack)) else Unmatched
    }

    // ----- Control structure builders -----

    method AppendCell(c: Cell)
      modifies this`cells
      ensures Now() == old(Now()).Append(c)
    {
      cells := cells + [c];
    }

    method Push(e: Entry)
      modifies this`stack
      ensures Now() == old(Now()).Push(e)
    {
      stack := stack + [e];
    }

    method MarkBranch(tag: Tag)
      modifies this`stack
      ensures Now() == old(Now()).MarkBranch(tag)
    {
      stack := stack + [Addr(|cells|)];
      stack := stack + [Mark(tag)];
    }

    method MatchControlTag(want: Tag) returns (ok: bool)
      modifies this`stack
      ensures ok <==> |old(stack)| >= 1 && old(stack)[|old(stack)| - 1] == Mark(want)
      ensures ok ==> Now() == Popped(old(Now()), 1)
    {
      ok := |stack| >= 1 && stack[|stack| - 1] == Mark(want);
      if ok { stack := stack[..|stack| - 1]; }
    }

    method PopAddress() returns (ok: bool, a: nat)
      modifies this`stack
      ensures ok <==> |old(stack)| >= 1 && old(stack)[|old(stack)| - 1].Addr?
      ensures ok ==> a == old(stack)[|old(stack)| - 1].a && Now() == Popped(old(Now()), 1)
    {
      a := 0;
      ok := |stack| >= 1 && stack[|stack| - 1].Addr?;
      if ok { a := stack[|stack| - 1].a; stack := stack[..|stack| - 1]; }
    }

    method PopCount() returns (ok: bool, n: nat)
      modifies this`stack
      ensures ok <==> |old(stack)| >= 1 && old(stack)[|old(stack)| - 1].Count?
      ensures ok ==> n == old(stack)[|old(stack)| - 1].n && Now() == Popped(old(Now()), 1)
    {
      n := 0;
      ok := |stack| >= 1 && stack[|stack| - 1].Count?;
      if ok { n := stack[|stack| - 1].n; stack := stack[..|stack| - 1]; }
    }

    /** A tag and the address below it. */
    method PopMarked(tag: Tag) returns (ok: bool, a: nat)
      modifies this`stack
      ensures ok <==> Marked(old(Now()), tag)
      ensures ok ==> a == MarkedAddr(old(Now())) && Now() == Popped(old(Now()), 2)
    {
      a := 0;
      ok := MatchControlTag(tag);
      if ok {
        ok, a := PopAddress();
      }
    }

    method Store(a: nat, n: int) returns (ok: bool)
      modifies this`cells
      ensures Patch(old(Now()), a, n) == Outcome(ok)
    {
      ok := a < |cells|;
      if ok { cells := cells[a := Num(n)]; }
    }

    method ResolveBackBranch(tag: Tag) returns (ok: bool)
      modifies this
      ensures ResolveBack(old(Now()), tag) == Outcome(ok)
    {
      var a: nat;
      ok, a := PopMarked(tag);
      if ok { AppendCell(Num(a - |cells|)); }
    }

    method ResolveForwardBranch(tag: Tag) returns (ok: bool)
      modifies this
      ensures ResolveForward(old(Now()), tag) == Outcome(ok)
    {
      var a: nat;
      ok, a := PopMarked(tag);
      if ok { ok := Store(a, |cells| - a); }
    }

    method ResolveAbsBranch() returns (ok: bool)
      modifies this
      ensures ResolveAbs(old(Now())) == Outcome(ok)
    {
      ok := |stack| >= 2 && stack[|stack| - 1].Mark?;
      if ok {
        stack := stack[..|stack| - 1];
        var a: nat;
        ok, a := PopAddress();
        if ok { ok := Store(a, |cells|); }
      }
    }

    /** ficlStackRoll */
    method Roll(n: int)
      requires -|stack| < n < |stack|
      modifies this`stack
      ensures stack == if n >= 0 then Rolled(old(stack), n) else Sunk(old(stack), -n)
    {
      if n == 0 {
        assert stack == Rolled(stack, 0);
      } else if n > 0 {
        RollUp(n);
      } else {
        RollDown(-n);
      }
    }

    /** For a positive depth: the cells above the n-th move down by one, one by one. */
    method RollUp(n: nat)
      requires n < |stack|
      modifies this`stack
      ensures stack == Rolled(old(stack), n)
    {
      ghost var was := stack;
      var cell, left := |stack| - 1 - n, n;
      ghost var k := cell;
      var c := stack[cell];
      while left > 0
        invariant |stack| == |was| && left >= 0 && cell + left == |was| - 1 && k == |was| - 1 - n <= cell
        invariant stack[..k] == was[..k] && stack[cell + 1..] == was[cell + 1..]
        invariant stack[k..cell] == was[k + 1..cell + 1]
      {
        ghost var s := stack;
        stack := stack[cell := stack[cell + 1]];
        Shifted(was, s, k, cell);
        cell, left := cell + 1, left - 1;
      }
      RolledUp(was, stack, k, c);
      stack := stack[cell := c];
    }

    /** For a negative one: the cells down to the n-th move up by one, one by one. */
    method RollDown(n: nat)
      requires n < |stack|
      modifies this`stack
      ensures stack == Sunk(old(stack), n)
    {
      ghost var was := stack;
      var cell, left := |stack| - 1, n;
      var c := stack[cell];
      while left > 0
        invariant |stack| == |was| && left >= 0 && cell == |was| - 1 - n + left
        invariant stack[..cell + 1] == was[..cell + 1] && stack[cell + 1..] == was[cell..|was| - 1]
      {
        ghost var s := stack;
        stack := stack[cell := stack[cell - 1]];
        ShiftedUp(was, s, cell);
        cell, left := cell - 1, left - 1;
      }
      RolledDown(was, stack, cell, c);
      stack := stack[cell := c];
    }

    // ----- Control words -----

    method If() returns (ok: bool)
      modifies this
      ensures Apply(old(Now()), TIf) == Outcome(ok)
    {
      AppendCell(Instr(Branch0Check));
      MarkBranch(OrigTag);
      AppendCell(Num(1));
      ok := true;
    }

    method ElseWord() returns (ok: bool)
      modifies this
      ensures Else(old(Now())) == Outcome(ok)
    {
      AppendCell(Instr(BranchCheck));
      var a: nat;
      ok, a := PopMarked(OrigTag);
      if ok {
        MarkBranch(OrigTag);
        AppendCell(Num(1));
        ok := Store(a, |cells| - a);
      }
    }

    method While() returns (ok: bool)
      modifies this
      ensures WhileWord(old(Now())) == Outcome(ok)
    {
      ok := |stack| >= 2;
      if ok {
        AppendCell(Instr(Branch0Check));
        MarkBranch(OrigTag);
        Roll(3);
        Roll(3);
        AppendCell(Num(1));
      }
    }

    method RepeatWord() returns (ok: bool)
      modifies this
      ensures Repeat(old(Now())) == Outcome(ok)
    {
      AppendCell(Instr(BranchCheck));
      ok := ResolveBackBranch(DestTag);
      if ok { ok := ResolveForwardBranch(OrigTag); }
    }

    method DoLoop(op: Op)
      modifies this
      ensures Now() == DoWord(old(Now()), op)
    {
      AppendCell(Instr(op));
      MarkBranch(LeaveTag);
      AppendCell(Num(0));
      MarkBranch(DoTag);
    }

    method Loop(op: Op) returns (ok: bool)
      modifies this
      ensures LoopWord(old(Now()), op) == Outcome(ok)
    {
      AppendCell(Instr(op));
      ok := ResolveBackBranch(DoTag);
      if ok { ok := ResolveAbsBranch(); }
    }

    method OfWord() returns (ok: bool)
      modifies this
      ensures Of(old(Now())) == Outcome(ok)
    {
      var falls := |stack| > 0 && stack[|stack| - 1] == Mark(FallthroughTag);
      var a: nat := 0;
      ok := true;
      if falls { ok, a := PopMarked(FallthroughTag); }
      if ok { ok := OpenOf(); }
      if ok && falls { ok := Store(a, |cells| - a); }
    }

    method OpenOf() returns (ok: bool)
      modifies this
      ensures PlainOf(old(Now())) == Outcome(ok)
    {
      ghost var was := Now();
      ok := MatchControlTag(CaseTag);
      if ok {
        Push(Mark(CaseTag));
        assert Now() == was;
        AppendCell(Instr(OfParen));
        MarkBranch(OfTag);
        AppendCell(Num(2));
      }
    }

    /** One more branch out of the CASE. */
    method PushExit(a: nat, n: nat)
      modifies this`stack
      ensures Now() == old(Now()).Push(Addr(a)).Push(Count(n + 1)).Push(Mark(CaseTag))
    {
      Push(Addr(a));
      Push(Count(n + 1));
      Push(Mark(CaseTag));
    }

    /** The open OF, and the number of exits so far. */
    method PopArm() returns (ok: bool, a: nat, n: nat)
      modifies this
      ensures ok <==> InOf(old(Now())) && old(stack)[|old(stack)| - 4].Count?
      ensures ok ==> a == MarkedAddr(old(Now())) && n == old(stack)[|old(stack)| - 4].n && Now() == Popped(old(Now()), 4)
    {
      var deep := |stack| >= 4;
      n := 0;
      ok, a := PopMarked(OfTag);
      if ok && deep { ok := MatchControlTag(CaseTag); }
      if ok && deep { ok, n := PopCount(); }
      ok := ok && deep;
    }

    method EndofWord() returns (ok: bool)
      modifies this
      ensures Endof(old(Now())) == Outcome(ok)
    {
      var a: nat, n: nat;
      ok, a, n := PopArm();
      if ok {
        AppendCell(Instr(BranchCheck));
        PushExit(|cells|, n);
        AppendCell(Num(2));
        ok := Store(a, |cells| - a);
      }
    }

    method FallthroughWord() returns (ok: bool)
      modifies this
      ensures Fallthrough(old(Now())) == Outcome(ok)
    {
      ghost var was := Now();
      var deep := |stack| >= 4;
      var a: nat;
      ok, a := PopMarked(OfTag);
      if ok && deep { ok := MatchControlTag(CaseTag); }
      ok := ok && deep;
      if ok {
        Push(Mark(CaseTag));
        assert Now() == Popped(was, 2);
        AppendCell(Instr(BranchCheck));
        MarkBranch(FallthroughTag);
        AppendCell(Num(2));
        ok := Store(a, |cells| - a);
      }
    }

    /** A last arm that fell through becomes one more exit. */
    method CountFallthrough() returns (ok: bool)
      requires Falling(Now())
      modifies this
      ensures ok <==> Marked(old(Now()), FallthroughTag) && CaseOpen(Popped(old(Now()), 2))
      ensures ok ==> Now() == WithFallthrough(old(Now()))
    {
      var a: nat, n: nat := 0, 0;
      ok, a := PopMarked(FallthroughTag);
      if ok { ok := MatchControlTag(CaseTag); }
      if ok {
        ok, n := PopCount();
        if ok {
          PushExit(a, n);
        }
      }
    }

    method EndcaseWord() returns (ok: bool)
      modifies this
      ensures Endcase(old(Now())) == Outcome(ok)
    {
      ok := true;
      if |stack| > 0 && stack[|stack| - 1] == Mark(FallthroughTag) { ok := CountFallthrough(); }
      if ok { ok := CloseCase(); }
    }

    method CloseCase() returns (ok: bool)
      modifies this
      ensures PlainEndcase(old(Now())) == Outcome(ok)
    {
      ghost var was := Now();
      var count: nat := 0;
      ok := MatchControlTag(CaseTag);
      if ok { ok, count := PopCount(); }
      if ok {
        assert Now() == Popped(was, 2);
        AppendCell(Instr(Drop));
        ok := PatchFixups(count);
      }
    }

    method PatchFixups(count: nat) returns (ok: bool)
      modifies this
      ensures ResolveFixups(old(Now()), count) == Outcome(ok)
    {
      var left := count;
      ok := true;
      while ok && left > 0
        invariant ResolveFixups(old(Now()), count) == if ok then ResolveFixups(Now(), left) else Unmatched
        decreases left
      {
        var a: nat;
        ok, a := PopAddress();
        if ok { ok := Store(a, |cells| - a); }
        left := left - 1;
      }
    }

    method CompileLiteral(v: int)
      modifies this
      ensures Now() == State(old(cells) + LitCells(v), old(stack))
    {
      if -16 <= v <= 16 {
        AppendCell(Instr(Small(v)));
      } else {
        AppendCell(Instr(Op.Literal));
        AppendCell(Num(v));
      }
    }

    // ----- The interpreter while compiling -----

    method CompileConditionals(w: Text) returns (ok: bool)
      requires w.TIf? || w.TElse? || w.TThen?
      modifies this
      ensures Apply(old(Now()), w) == Outcome(ok)
    {
      match w
      case TIf => ok := If();
      case TElse => ok := ElseWord();
      case TThen => ok := ResolveForwardBranch(OrigTag);
    }

    method CompileIndefiniteLoops(w: Text) returns (ok: bool)
      requires w.TBegin? || w.TUntil? || w.TAgain? || w.TWhile? || w.TRepeat?
      modifies this
      ensures Apply(old(Now()), w) == Outcome(ok)
    {
      match w
      case TBegin => MarkBranch(DestTag); ok := true;
      case TUntil => AppendCell(Instr(Branch0Check)); ok := ResolveBackBranch(DestTag);
      case TAgain => AppendCell(Instr(BranchCheck)); ok := ResolveBackBranch(DestTag);
      case TWhile => ok := While();
      case TRepeat => ok := RepeatWord();
    }

    method CompileLoops(w: Text) returns (ok: bool)
      requires w.TDo? || w.TQDo? || w.TLoop? || w.TPlusLoop?
      modifies this
      ensures Apply(old(Now()), w) == Outcome(ok)
    {
      ok := true;
      match w
      case TDo => DoLoop(DoParen);
      case TQDo => DoLoop(QDoParen);
      case TLoop => ok := Loop(LoopParen);
      case TPlusLoop => ok := Loop(PlusLoopParen);
    }

    method CompileCases(w: Text) returns (ok: bool)
      requires w.TCase? || w.TOf? || w.TEndof? || w.TFallthrough? || w.TEndcase?
      modifies this
      ensures Apply(old(Now()), w) == Outcome(ok)
    {
      match w
      case TCase => Push(Count(0)); Push(Mark(CaseTag)); ok := true;
      case TOf => ok := OfWord();
      case TEndof => ok := EndofWord();
      case TFallthrough => ok := FallthroughWord();
      case TEndcase => ok := EndcaseWord();
    }

    method CompileWord(w: Text) returns (ok: bool)
      modifies this
      ensures Apply(old(Now()), w) == Outcome(ok)
    {
      ok := true;
      match w
      case TLit(v) => CompileLiteral(v);
      case TWord(p) => AppendCell(Instr(Prim(p)));
      case TIndex(l) => AppendCell(Instr(LoopIndex(l)));
      case TLeave => AppendCell(Instr(LeaveOp));
      case TIf | TElse | TThen => ok := CompileConditionals(w);
      case TBegin | TUntil | TAgain | TWhile | TRepeat => ok := CompileIndefiniteLoops(w);
      case TDo | TQDo | TLoop | TPlusLoop => ok := CompileLoops(w);
      case TCase | TOf | TEndof | TFallthrough | TEndcase => ok := CompileCases(w);
    }

    /** Word after word, until the end of the text or the first that throws. */
    method CompileText(text: seq<Text>) returns (ok: bool)
      modifies this
      ensures RunText((t: State, w: Text) => Apply(t, w), old(Now()), text) == Outcome(ok)
    {
      ghost var step: Step := (t: State, w: Text) => Apply(t, w);
      var i := 0;
      ok := true;
      while ok && i < |text|
        invariant 0 <= i <= |text|
        invariant RunText(step, old(Now()), text) == if ok then RunText(step, Now(), text[i..]) else Unmatched
      {
        assert text[i..][0] == text[i] && text[i..][1..] == text[i + 1..];
        ok := CompileWord(text[i]);
        i := i + 1;
      }
    }

    /** A program compiles to its code; dictionary and control entries before it stay. */
    method CompileProgram(ghost b: Block, text: seq<Text>) returns (ok: bool)
      requires text == BlockWords(b)
      modifies this
      ensures ok && cells == old(cells) + Codes(b, |old(cells)|) && stack == old(stack)
    {
      CompiledBlock(Now(), b);
      ok := CompileText(text);
    }
  }

  /** A well-nested text of one statement appends its code, patches everything it left open
      and leaves the control entries it found. */
  lemma CompiledStatement(s: State, stmt: Stmt)
    ensures RunText((t: State, w: Text) => Apply(t, w), s, Words(stmt)) == Ok(State(s.cells + Code(stmt, |s.cells|), s.stack))
  {
    var step: Step := (t: State, w: Text) => Apply(t, w);
    assert Obeys(step, 0);
    assert Obeys(step, 1);
    CompileStmt(step, 1, s, stmt);
  }

  lemma CompiledBlock(s: State, b: Block)
    ensures RunText((t: State, w: Text) => Apply(t, w), s, BlockWords(b)) == Ok(State(s.cells + Codes(b, |s.cells|), s.stack))
  {
    var step: Step := (t: State, w: Text) => Apply(t, w);
    assert Obeys(step, 0);
    assert Obeys(step, 1);
    CompileBlock(step, 1, s, b);
  }

  lemma Shifted<T>(was: seq<T>, s: seq<T>, k: nat, cell: nat)
    requires k <= cell < |was| - 1 && |s| == |was|
    requires s[..k] == was[..k] && s[cell + 1..] == was[cell + 1..] && s[k..cell] == was[k + 1..cell + 1]
    ensures var t := s[cell := s[cell + 1]];
            t[..k] == was[..k] && t[cell + 2..] == was[cell + 2..] && t[k..cell + 1] == was[k + 1..cell + 2]
  {
    var t := s[cell := s[cell + 1]];
    assert s[cell + 1] == s[cell + 1..][0] == was[cell + 1..][0] == was[cell + 1];
    assert t[k..cell + 1] == s[k..cell] + [was[cell + 1]];
    assert t[cell + 2..] == s[cell + 1..][1..];
  }

  lemma RolledUp(was: seq<Entry>, s: seq<Entry>, k: nat, c: Entry)
    requires k < |was| == |s| && c == was[k] && s[..k] == was[..k] && s[k..|was| - 1] == was[k + 1..]
    ensures s[|was| - 1 := c] == Rolled(was, |was| - 1 - k)
  {
    var t := s[|was| - 1 := c];
    assert t[..k] == s[..k] && t[k..|was| - 1] == s[k..|was| - 1];
    assert t == t[..k] + t[k..|was| - 1] + [c];
  }

  lemma ShiftedUp<T>(was: seq<T>, s: seq<T>, cell: nat)
    requires 0 < cell < |was| == |s| && s[..cell + 1] == was[..cell + 1] && s[cell + 1..] == was[cell..|was| - 1]
    ensures var t := s[cell := s[cell - 1]]; t[..cell] == was[..cell] && t[cell..] == was[cell - 1..|was| - 1]
  {
    var t := s[cell := s[cell - 1]];
    assert s[cell - 1] == s[..cell + 1][cell - 1] == was[cell - 1];
    assert t[..cell] == s[..cell + 1][..cell];
    assert t[cell..] == [was[cell - 1]] + s[cell + 1..];
  }

  lemma RolledDown(was: seq<Entry>, s: seq<Entry>, cell: nat, c: Entry)
    requires cell < |was| == |s| && c == was[|was| - 1]
    requires s[..cell + 1] == was[..cell + 1] && s[cell + 1..] == was[cell..|was| - 1]
    ensures s[cell := c] == Sunk(was, |was| - 1 - cell)
  {
    var t := s[cell := c];
    assert t[..cell] == s[..cell + 1][..cell] == was[..cell];
    assert t == t[..cell] + [c] + s[cell + 1..];
  }
}
