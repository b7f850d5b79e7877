/** What a compiled definition does: it returns, faults or runs on exactly as its source says. */
module ForthTheorem {
  import opened ForthCode
  import opened ForthMachine
  import opened Words
  import opened ForthRuns
  import opened ForthCorrect

  // ----- No LEAVE gets out of a definition -----

  lemma {:induction false} NeverLeft(prims: Prims, s: Stmt, ds: seq<int>, fuel: nat)
    requires Scoped(s, 0)
    ensures !Eval(prims, s, ds, [], fuel).Left?
    decreases fuel, s
  {
    match s
    case IfThen(yes) => if ds != [] { NeverLeftBlock(prims, yes, Popped(ds, 1), fuel); }
    case IfElse(yes, no) => if ds != [] { NeverLeftBlock(prims, if Top(ds) != 0 then yes else no, Popped(ds, 1), fuel); }
    case Until(body) =>
      var o := EvalBlock(prims, body, ds, [], fuel);
      NeverLeftBlock(prims, body, ds, fuel);
      if fuel > 0 && o.Done? && o.ds != [] { NeverLeft(prims, s, Popped(o.ds, 1), fuel - 1); }
    case Again(body) =>
      var o := EvalBlock(prims, body, ds, [], fuel);
      NeverLeftBlock(prims, body, ds, fuel);
      if fuel > 0 && o.Done? { NeverLeft(prims, s, o.ds, fuel - 1); }
    case While(test, body) => NeverLeftWhile(prims, s, ds, fuel);
    case Do(maybe, body, plus) =>
      if |ds| >= 2 { NeverLeftLoop(prims, body, plus, ds[|ds| - 2], Top(ds), Popped(ds, 2), fuel); }
    case Case(arms, dflt) =>
      NeverLeftArms(prims, arms, ds, fuel);
      var c := EvalArms(prims, arms, ds, [], fuel);
      if c.NoneChosen? { NeverLeftBlock(prims, dflt, c.ds, fuel); }
    case _ =>
  }

  lemma {:induction false} NeverLeftWhile(prims: Prims, s: Stmt, ds: seq<int>, fuel: nat)
    requires Scoped(s, 0) && s.While?
    ensures !Eval(prims, s, ds, [], fuel).Left?
    decreases fuel, s, 0
  {
    if fuel > 0 {
      var t := EvalBlock(prims, s.test, ds, [], fuel);
      NeverLeftBlock(prims, s.test, ds, fuel);
      if t.Done? && t.ds != [] {
        var o := EvalBlock(prims, s.body, Popped(t.ds, 1), [], fuel);
        NeverLeftBlock(prims, s.body, Popped(t.ds, 1), fuel);
        if o.Done? { NeverLeftWhile(prims, s, o.ds, fuel - 1); }
      }
    }
  }

  lemma {:induction false} NeverLeftLoop(prims: Prims, body: Block, plus: bool, limit: int, index: int, ds: seq<int>, fuel: nat)
    ensures !EvalLoop(prims, body, plus, limit, index, ds, [], fuel).Left?
    decreases fuel
  {
    if fuel > 0 {
      var o := EvalBlock(prims, body, ds, [index] + [], fuel);
      if o.Done? && !(plus && o.ds == []) {
        NeverLeftLoop(prims, body, plus, limit, WrapCell(index + LoopBy(plus, o.ds)), LoopStack(plus, o.ds), fuel - 1);
      }
    }
  }

  lemma {:induction false} NeverLeftArms(prims: Prims, arms: Arms, ds: seq<int>, fuel: nat)
    requires ScopedArms(arms, 0)
    ensures var c := EvalArms(prims, arms, ds, [], fuel); c.Chosen? ==> !c.o.Left?
    decreases fuel, arms, 1
  {
    if arms.Arm? {
      var t := EvalBlock(prims, arms.test, ds, [], fuel);
      NeverLeftBlock(prims, arms.test, ds, fuel);
      if t.Done? && |t.ds| >= 2 {
        NeverLeftBodies(prims, arms, Popped(t.ds, 2), fuel);
        NeverLeftArms(prims, arms.rest, Popped(t.ds, 1), fuel);
      }
    }
  }

  lemma {:induction false} NeverLeftBodies(prims: Prims, arms: Arms, ds: seq<int>, fuel: nat)
    requires arms.Arm? && ScopedArms(arms, 0)
    ensures !EvalBodies(prims, arms, ds, [], fuel).Left?
    decreases fuel, arms, 0
  {
    NeverLeftBlock(prims, arms.body, ds, fuel);
    var o := EvalBlock(prims, arms.body, ds, [], fuel);
    if o.Done? && arms.rest.Arm? { NeverLeftBodies(prims, arms.rest, o.ds, fuel); }
  }

  lemma {:induction false} NeverLeftBlock(prims: Prims, b: Block, ds: seq<int>, fuel: nat)
    requires ScopedBlock(b, 0)
    ensures !EvalBlock(prims, b, ds, [], fuel).Left?
    decreases fuel, b
  {
    if b.Seq? {
      NeverLeft(prims, b.head, ds, fuel);
      var o := Eval(prims, b.head, ds, [], fuel);
      if o.Done? { NeverLeftBlock(prims, b.tail, o.ds, fuel); }
    }
  }

  // ----- Definitions -----

  /** A definition at p: its code and the cell of ;. */
  predicate Defined(mc: Mach, p: nat, b: Block) {
    At(mc.code, p, Codes(b, p)) && At(mc.code, p + Sizes(b), [Instr(Semi)]) && ScopedBlock(b, 0)
  }

  /** A call from `ret` starts at p. */
  function Called(p: nat, ds: seq<int>, rs: seq<int>, ret: int): Vm { Vm(p, ds, rs + [ret]) }

  ghost predicate SourceDone(prims: Prims, b: Block, ds: seq<int>, ds': seq<int>) {
    exists fuel: nat :: EvalBlock(prims, b, ds, [], fuel) == Done(ds')
  }

  ghost predicate SourceFaults(prims: Prims, b: Block, ds: seq<int>) {
    exists fuel: nat :: EvalBlock(prims, b, ds, [], fuel) == Fault
  }

  /** With enough fuel the outcome of the source is the outcome of the run. */
  lemma DefinitionDoes(mc: Mach, p: nat, b: Block, ds: seq<int>, rs: seq<int>, ret: int, fuel: nat)
    requires Defined(mc, p, b)
    ensures var (o, m) := (EvalBlock(mc.prims, b, ds, [], fuel), Called(p, ds, rs, ret));
            match o
            case Done(d) => Reaches(mc, m, Returned(Vm(ret, d, rs)))
            case Left(_) => false
            case Fault => Reaches(mc, m, Faulted)
            case NoFuel => StillRunning(mc, m, fuel)
  {
    var m, end, o := Called(p, ds, rs, ret), p + Sizes(b), EvalBlock(mc.prims, b, ds, [], fuel);
    NeverLeftBlock(mc.prims, b, ds, fuel);
    RunsBlock(1, mc, b, p, ds, [], rs + [ret], fuel);
    Unseal(1, mc, m, o, end, rs + [ret], fuel);
    if o.Done? {
      AtOne(mc.code, end, Instr(Semi));
      var last := Vm(end, o.ds, rs + [ret]);
      assert Popped(rs + [ret], 1) == rs;
      assert After(mc, StepRun(mc, Running(last)), 0) == Returned(Vm(ret, o.ds, rs));
      assert After(mc, Running(last), 1) == Returned(Vm(ret, o.ds, rs));
      ReachesThen(mc, m, last, Returned(Vm(ret, o.ds, rs)));
    }
  }

  /** A run has one outcome. */
  lemma OneOutcome(mc: Mach, m: Vm, r: Run, r': Run)
    requires Reaches(mc, m, r) && Reaches(mc, m, r') && !r.Running? && !r'.Running?
    ensures r == r'
  {
    var j: nat :| After(mc, Running(m), j) == r;
    var k: nat :| After(mc, Running(m), k) == r';
    if j <= k {
      AfterAdd(mc, Running(m), j, k - j);
      AfterStopped(mc, r, k - j);
    } else {
      AfterAdd(mc, Running(m), k, j - k);
      AfterStopped(mc, r', j - k);
    }
  }

  /** A run with an outcome does not go on: some fuel is enough. */
  lemma EnoughFuel(mc: Mach, p: nat, b: Block, ds: seq<int>, rs: seq<int>, ret: int, r: Run) returns (fuel: nat)
    requires Defined(mc, p, b) && !r.Running? && Reaches(mc, Called(p, ds, rs, ret), r)
    ensures EvalBlock(mc.prims, b, ds, [], fuel) != NoFuel
  {
    var m := Called(p, ds, rs, ret);
    var k: nat :| After(mc, Running(m), k) == r;
    fuel := k;
    DefinitionDoes(mc, p, b, ds, rs, ret, fuel);
  }

  /** The compiled definition returns with a data stack exactly when the source ends with it,
      and the return stack is as the caller left it. */
  lemma ReturnsExactly(mc: Mach, p: nat, b: Block, ds: seq<int>, rs: seq<int>, ret: int, last: Vm)
    requires Defined(mc, p, b)
    ensures Reaches(mc, Called(p, ds, rs, ret), Returned(last)) <==>
            last.ip == ret && last.rs == rs && SourceDone(mc.prims, b, ds, last.ds)
  {
    var m := Called(p, ds, rs, ret);
    if Reaches(mc, m, Returned(last)) {
      var fuel := EnoughFuel(mc, p, b, ds, rs, ret, Returned(last));
      DefinitionDoes(mc, p, b, ds, rs, ret, fuel);
      var o := EvalBlock(mc.prims, b, ds, [], fuel);
      OneOutcome(mc, m, Returned(last), if o.Done? then Returned(Vm(ret, o.ds, rs)) else Faulted);
    }
    if SourceDone(mc.prims, b, ds, last.ds) {
      var fuel: nat :| EvalBlock(mc.prims, b, ds, [], fuel) == Done(last.ds);
      DefinitionDoes(mc, p, b, ds, rs, ret, fuel);
    }
  }

  /** It faults exactly when the source does. */
  lemma FaultsExactly(mc: Mach, p: nat, b: Block, ds: seq<int>, rs: seq<int>, ret: int)
    requires Defined(mc, p, b)
    ensures Reaches(mc, Called(p, ds, rs, ret), Faulted) <==> SourceFaults(mc.prims, b, ds)
  {
    var m := Called(p, ds, rs, ret);
    if Reaches(mc, m, Faulted) {
      var fuel := EnoughFuel(mc, p, b, ds, rs, ret, Faulted);
      DefinitionDoes(mc, p, b, ds, rs, ret, fuel);
      var o := EvalBlock(mc.prims, b, ds, [], fuel);
      OneOutcome(mc, m, Faulted, if o.Done? then Returned(Vm(ret, o.ds, rs)) else Faulted);
    }
    if SourceFaults(mc.prims, b, ds) {
      var fuel: nat :| EvalBlock(mc.prims, b, ds, [], fuel) == Fault;
      DefinitionDoes(mc, p, b, ds, rs, ret, fuel);
    }
  }

  ghost predicate RunsForever(mc: Mach, m: Vm) { forall k: nat :: StillRunning(mc, m, k) }

  ghost predicate SourceDiverges(prims: Prims, b: Block, ds: seq<int>) {
    forall fuel: nat :: EvalBlock(prims, b, ds, [], fuel) == NoFuel
  }

  /** It runs for ever exactly when no fuel is enough for the source. */
  lemma DivergesExactly(mc: Mach, p: nat, b: Block, ds: seq<int>, rs: seq<int>, ret: int)
    requires Defined(mc, p, b)
    ensures RunsForever(mc, Called(p, ds, rs, ret)) <==> SourceDiverges(mc.prims, b, ds)
  {
    var m := Called(p, ds, rs, ret);
    if SourceDiverges(mc.prims, b, ds) {
      forall k: nat ensures StillRunning(mc, m, k) {
        assert EvalBlock(mc.prims, b, ds, [], k) == NoFuel;
        DefinitionDoes(mc, p, b, ds, rs, ret, k);
      }
    }
    if RunsForever(mc, m) {
      forall fuel: nat ensures EvalBlock(mc.prims, b, ds, [], fuel) == NoFuel {
        var o := EvalBlock(mc.prims, b, ds, [], fuel);
        DefinitionDoes(mc, p, b, ds, rs, ret, fuel);
        RunningNotOver(mc, m, if o.Done? then Returned(Vm(ret, o.ds, rs)) else Faulted);
      }
    }
  }

  lemma RunningNotOver(mc: Mach, m: Vm, r: Run)
    requires !r.Running? && RunsForever(mc, m)
    ensures !Reaches(mc, m, r)
  {
    forall k: nat ensures After(mc, Running(m), k) != r {
      assert StillRunning(mc, m, k);
    }
  }
}
