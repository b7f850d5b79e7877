/** The inner loop itself: it moves the instruction pointer, changes the stacks and rewrites
    branch cells in place. */
module ForthVm {
  import opened ForthCode
  import opened ForthMachine
  import opened Words
  import opened ForthPeephole
  import opened ForthSelfMod

  datatype Status = Going | Ended | Threw

  class Interpreter {
    const cells: array<Cell>
    const prims: Prims
    var ip: int
    var ds: seq<int>
    var rs: seq<int>

    constructor (cells: array<Cell>, prims: Prims, m: Vm)
      ensures this.cells == cells && this.prims == prims && Now() == m
    {
      this.cells, this.prims := cells, prims;
      ip, ds, rs := m.ip, m.ds, m.rs;
    }

    ghost function Now(): Vm
      reads this
    {
      Vm(ip, ds, rs)
    }

    ghost function Code(): Mach
      reads this, cells
    {
      Mach(cells[..], prims)
    }

    ghost function Outcome(s: Status): Run
      reads this
    {
      match s case Going => Running(Vm(ip, ds, rs)) case Ended => Returned(Vm(ip, ds, rs)) case Threw => Faulted
    }

    // ----- Branches -----

    method OptimizeJumpToJump(at: int)
      requires WellFormed(cells[..]) && 0 <= at < cells.Length
      modifies cells
      ensures cells[..] == Optimized(old(cells[..]), at)
      decreases CheckSet(cells[..])
    {
      ghost var code := cells[..];
      if IsCheck(cells[at]) {
        UncheckedOk(code, at);
        ghost var marked := Unchecked(code, at);
        cells[at] := Plain(cells[at]);
        assert cells[..] == marked;
        assert at in CheckSet(code);
        var d := at + 1 + cells[at + 1].n;
        assert d == Destination(marked, at);
        if cells[d] == Instr(BranchCheck) {
          OptimizeJumpToJump(d);
        }
        if IsGoto(cells[d]) {
          ghost var r := Optimized(marked, d);
          assert cells[..] == r;
          GotoSame(r, marked, d);
          StillShortens(r, marked, at, d);
          cells[at + 1] := Num(d + 1 + cells[d + 1].n - (at + 1));
          assert cells[..] == Retargeted(r, at, Destination(r, d));
        }
      }
    }

    method Branch() returns (s: Status)
      modifies this`ip
      ensures Jump(Code(), old(Now())) == Outcome(s)
    {
      if 0 <= ip && ip + 1 < cells.Length && cells[ip + 1].Num? {
        ip := ip + 1 + cells[ip + 1].n;
        s := Going;
      } else {
        s := Threw;
      }
    }

    method BranchIfZero() returns (s: Status)
      modifies this
      ensures StepBranch0(Code(), old(Now())) == Outcome(s)
    {
      if ds == [] { return Threw; }
      var flag := ds[|ds| - 1];
      ds := ds[..|ds| - 1];
      if flag != 0 {
        ip := ip + 2;
        s := Going;
      } else {
        s := Branch();
      }
    }

    method OfBranch() returns (s: Status)
      modifies this
      ensures StepOf(Code(), old(Now())) == Outcome(s)
    {
      if |ds| < 2 { return Threw; }
      ghost var was := ds;
      var a, b := ds[|ds| - 1], ds[|ds| - 2];
      ds := ds[..|ds| - 1];
      if a == b {
        ip := ip + 2;
        ds := ds[..|ds| - 1];
        assert ds == was[..|was| - 2];
        s := Going;
      } else {
        s := Branch();
      }
    }

    // ----- Loops -----

    method StartLoop(maybe: bool) returns (s: Status)
      modifies this
      ensures StepDo(Code(), old(Now()), maybe) == Outcome(s)
    {
      if |ds| < 2 || !(0 <= ip && ip + 1 < cells.Length && cells[ip + 1].Num?) { return Threw; }
      ghost var was := ds;
      var index := ds[|ds| - 1];
      ds := ds[..|ds| - 1];
      var limit := ds[|ds| - 1];
      ds := ds[..|ds| - 1];
      assert ds == was[..|was| - 2];
      var leave := cells[ip + 1].n;
      if maybe && limit == index {
        ip := leave;
      } else {
        ip := ip + 2;
        rs := rs + [leave, limit, index];
      }
      s := Going;
    }

    method EndLoop(plus: bool) returns (s: Status)
      modifies this
      ensures StepLoop(Code(), old(Now()), plus) == Outcome(s)
    {
      if |rs| < 3 || (plus && ds == []) { return Threw; }
      var index, limit, down := rs[|rs| - 1], rs[|rs| - 2], false;
      if plus {
        var increment := ds[|ds| - 1];
        ds := ds[..|ds| - 1];
        index := WrapCell(index + increment);
        down := increment < 0;
      } else {
        index := WrapCell(index + 1);
      }
      if down != (index >= limit) {
        rs := rs[..|rs| - 3];
        ip := ip + 2;
        s := Going;
      } else {
        rs := rs[..|rs| - 1] + [index];
        s := Branch();
      }
    }

    method LeaveLoop() returns (s: Status)
      modifies this
      ensures Outcome(s) == var m := old(Now()); if |m.rs| < 3 then Faulted else Running(Vm(m.rs[|m.rs| - 3], m.ds, Popped(m.rs, 3)))
    {
      if |rs| < 3 { return Threw; }
      ghost var was := rs;
      rs := rs[..|rs| - 2];
      ip := rs[|rs| - 1];
      rs := rs[..|rs| - 1];
      assert rs == was[..|was| - 3];
      s := Going;
    }

    // ----- One turn -----

    predicate IsControl(op: Op) {
      op.BranchCheck? || op.Branch? || op.Branch0Check? || op.Branch0? || op.OfParen? || op.DoParen? || op.QDoParen?
      || op.LoopParen? || op.PlusLoopParen? || op.LeaveOp?
    }

    method Control(op: Op) returns (s: Status)
      requires 0 <= ip < cells.Length && cells[ip] == Instr(op) && IsControl(op)
      modifies this
      ensures Step(Code(), old(Now())) == Outcome(s)
    {
      match op
      case BranchCheck => s := Branch();
      case Branch => s := Branch();
      case Branch0Check => s := BranchIfZero();
      case Branch0 => s := BranchIfZero();
      case OfParen => s := OfBranch();
      case DoParen => s := StartLoop(false);
      case QDoParen => s := StartLoop(true);
      case LoopParen => s := EndLoop(false);
      case PlusLoopParen => s := EndLoop(true);
      case LeaveOp => s := LeaveLoop();
    }

    method Data(op: Op) returns (s: Status)
      requires 0 <= ip < cells.Length && cells[ip] == Instr(op) && !IsControl(op)
      modifies this
      ensures Step(Code(), old(Now())) == Outcome(s)
    {
      s := Going;
      match op
      case Small(v) => ip, ds := ip + 1, ds + [v];
      case Literal =>
        if ip + 1 < cells.Length && cells[ip + 1].Num? {
          ip, ds := ip + 2, ds + [cells[ip + 1].n];
        } else {
          s := Threw;
        }
      case Prim(p) =>
        var effect := prims(p, ds);
        if effect.Throws? { s := Threw; } else { ip, ds := ip + 1, effect.ds; }
      case LoopIndex(l) =>
        if 3 * l < |rs| { ip, ds := ip + 1, ds + [rs[|rs| - 1 - 3 * l]]; } else { s := Threw; }
      case Drop =>
        if ds == [] { s := Threw; } else { ip, ds := ip + 1, ds[..|ds| - 1]; }
      case Semi =>
        if rs == [] { s := Threw; } else { ip, rs, s := rs[|rs| - 1], rs[..|rs| - 1], Ended; }
    }

    /** Fetch, optimise a branch that has not been looked at, and run. */
    method Turn() returns (s: Status)
      requires WellFormed(cells[..])
      modifies this, cells
      ensures SelfRun(cells[..], Outcome(s)) == SelfStep(prims, SelfRun(old(cells[..]), Running(old(Now()))))
    {
      ghost var code := Optimized(cells[..], ip);
      ghost var m := Now();
      if !(0 <= ip < cells.Length) || cells[ip].Num? { return Threw; }
      if IsCheck(cells[ip]) { OptimizeJumpToJump(ip); }
      assert cells[..] == code;
      var op := cells[ip].op;
      if IsControl(op) { s := Control(op); } else { s := Data(op); }
      assert Outcome(s) == Step(Mach(code, prims), m);
    }

    /** So many turns, or until the word returns or throws. */
    method InnerLoop(turns: nat) returns (s: Status)
      requires WellFormed(cells[..])
      modifies this, cells
      ensures SelfRun(cells[..], Outcome(s)) == SelfAfter(prims, SelfRun(old(cells[..]), Running(old(Now()))), turns)
    {
      ghost var start := SelfRun(cells[..], Running(Now()));
      var k := 0;
      s := Going;
      while k < turns && s.Going?
        invariant 0 <= k <= turns && WellFormed(cells[..])
        invariant SelfAfter(prims, SelfRun(cells[..], Outcome(s)), turns - k) == SelfAfter(prims, start, turns)
      {
        ghost var here := SelfRun(cells[..], Outcome(s));
        SelfUnfold(prims, here, turns - k);
        s := Turn();
        k := k + 1;
      }
      SelfStopped(prims, SelfRun(cells[..], Outcome(s)), turns - k);
    }
  }
}
