/** The inner interpreter over fixed cells, and a direct evaluation of the source to hold it to. */
module ForthMachine {
  import opened ForthCode
  import opened Words

  /** What a primitive does to the data stack; it throws where it finds too little there. */
  datatype Effect = Effect(ds: seq<int>) | Throws
  type Prims = (nat, seq<int>) -> Effect

  // ----- The machine -----

  datatype Vm = Vm(ip: int, ds: seq<int>, rs: seq<int>)
  datatype Run = Running(m: Vm) | Returned(m: Vm) | Faulted
  datatype Mach = Mach(code: seq<Cell>, prims: Prims)

  function Top(s: seq<int>): int
    requires s != []
  {
    s[|s| - 1]
  }

  function Popped(s: seq<int>, n: nat): (r: seq<int>)
    requires n <= |s|
    ensures |r| == |s| - n
  {
    s[..|s| - n]
  }

  predicate HasOperand(code: seq<Cell>, i: int) { 0 <= i && i + 1 < |code| && code[i + 1].Num? }

  /** Where the branch at i goes. */
  function Destination(code: seq<Cell>, i: int): int
    requires HasOperand(code, i)
  {
    i + 1 + code[i + 1].n
  }

  function Jump(mc: Mach, m: Vm): Run {
    if HasOperand(mc.code, m.ip) then Running(m.(ip := Destination(mc.code, m.ip))) else Faulted
  }

  /** The loop is over when the index has crossed the limit, `down` or up. */
  predicate Crossed(limit: int, index: int, down: bool) { down != (index >= limit) }

  function StepBranch0(mc: Mach, m: Vm): Run {
    if m.ds == [] then Faulted
    else if Top(m.ds) != 0 then Running(Vm(m.ip + 2, Popped(m.ds, 1), m.rs))
    else Jump(mc, m.(ds := Popped(m.ds, 1)))
  }

  function StepOf(mc: Mach, m: Vm): Run {
    if |m.ds| < 2 then Faulted
    else if Top(m.ds) == m.ds[|m.ds| - 2] then Running(Vm(m.ip + 2, Popped(m.ds, 2), m.rs))
    else Jump(mc, m.(ds := Popped(m.ds, 1)))
  }

  function StepDo(mc: Mach, m: Vm, maybe: bool): Run {
    if |m.ds| < 2 || !HasOperand(mc.code, m.ip) then Faulted
    else
      var leave, limit, index := mc.code[m.ip + 1].n, m.ds[|m.ds| - 2], Top(m.ds);
      if maybe && limit == index then Running(Vm(leave, Popped(m.ds, 2), m.rs))
      else Running(Vm(m.ip + 2, Popped(m.ds, 2), m.rs + [leave, limit, index]))
  }

  function StepLoop(mc: Mach, m: Vm, plus: bool): Run {
    if |m.rs| < 3 || (plus && m.ds == []) then Faulted
    else
      var inc := if plus then Top(m.ds) else 1;
      var ds := if plus then Popped(m.ds, 1) else m.ds;
      var limit, index := m.rs[|m.rs| - 2], WrapCell(Top(m.rs) + inc);
      if Crossed(limit, index, inc < 0) then Running(Vm(m.ip + 2, ds, Popped(m.rs, 3)))
      else Jump(mc, Vm(m.ip, ds, Popped(m.rs, 1) + [index]))
  }

  /** One turn of the inner loop. */
  function Step(mc: Mach, m: Vm): Run {
    if !(0 <= m.ip < |mc.code|) || mc.code[m.ip].Num? then Faulted
    else
      match mc.code[m.ip].op
      case Small(v) => Running(Vm(m.ip + 1, m.ds + [v], m.rs))
      case Literal => if HasOperand(mc.code, m.ip) then Running(Vm(m.ip + 2, m.ds + [mc.code[m.ip + 1].n], m.rs)) else Faulted
      case Prim(p) => (match mc.prims(p, m.ds) case Effect(ds) => Running(Vm(m.ip + 1, ds, m.rs)) case Throws => Faulted)
      case LoopIndex(l) => if 3 * l < |m.rs| then Running(Vm(m.ip + 1, m.ds + [m.rs[|m.rs| - 1 - 3 * l]], m.rs)) else Faulted
      case BranchCheck => Jump(mc, m)
      case Branch => Jump(mc, m)
      case Branch0Check => StepBranch0(mc, m)
      case Branch0 => StepBranch0(mc, m)
      case OfParen => StepOf(mc, m)
      case DoParen => StepDo(mc, m, false)
      case QDoParen => StepDo(mc, m, true)
      case LoopParen => StepLoop(mc, m, false)
      case PlusLoopParen => StepLoop(mc, m, true)
      case LeaveOp => if |m.rs| < 3 then Faulted else Running(Vm(m.rs[|m.rs| - 3], m.ds, Popped(m.rs, 3)))
      case Drop => if m.ds == [] then Faulted else Running(Vm(m.ip + 1, Popped(m.ds, 1), m.rs))
      case Semi => if m.rs == [] then Faulted else Returned(Vm(Top(m.rs), m.ds, Popped(m.rs, 1)))
  }

  function StepRun(mc: Mach, r: Run): Run { if r.Running? then Step(mc, r.m) else r }

  /** The run after k turns; a run that has returned or faulted stays so. */
  function After(mc: Mach, r: Run, k: nat): Run
    decreases k
  {
    if k == 0 then r else After(mc, StepRun(mc, r), k - 1)
  }

  ghost predicate Reaches(mc: Mach, m: Vm, r: Run) { exists k: nat :: After(mc, Running(m), k) == r }

  predicate StillRunning(mc: Mach, m: Vm, k: nat) { After(mc, Running(m), k).Running? }

  // ----- The source -----

  /** Done, or left by LEAVE, or stopped for want of a stack entry. */
  datatype Out = Done(ds: seq<int>) | Left(ds: seq<int>) | Fault | NoFuel
  datatype ArmsOut = Chosen(o: Out) | NoneChosen(ds: seq<int>)

  /** `loops` are the indices of the enclosing loops, the innermost first. */
  function Eval(prims: Prims, s: Stmt, ds: seq<int>, loops: seq<int>, fuel: nat): Out
    decreases fuel, s
  {
    match s
    case Lit(v) => Done(ds + [v])
    case Word(p) => (match prims(p, ds) case Effect(d) => Done(d) case Throws => Fault)
    case Index(l) => if l < |loops| then Done(ds + [loops[l]]) else Fault
    case Leave => Left(ds)
    case IfThen(yes) =>
      if ds == [] then Fault
      else if Top(ds) != 0 then EvalBlock(prims, yes, Popped(ds, 1), loops, fuel) else Done(Popped(ds, 1))
    case IfElse(yes, no) =>
      if ds == [] then Fault else EvalBlock(prims, if Top(ds) != 0 then yes else no, Popped(ds, 1), loops, fuel)
    case Until(body) =>
      if fuel == 0 then NoFuel
      else
        var o := EvalBlock(prims, body, ds, loops, fuel);
        if !o.Done? then o
        else if o.ds == [] then Fault
        else if Top(o.ds) != 0 then Done(Popped(o.ds, 1)) else Eval(prims, s, Popped(o.ds, 1), loops, fuel - 1)
    case Again(body) =>
      if fuel == 0 then NoFuel
      else
        var o := EvalBlock(prims, body, ds, loops, fuel);
        if !o.Done? then o else Eval(prims, s, o.ds, loops, fuel - 1)
    case While(test, body) =>
      if fuel == 0 then NoFuel
      else
        var t := EvalBlock(prims, test, ds, loops, fuel);
        if !t.Done? then t
        else if t.ds == [] then Fault
        else if Top(t.ds) == 0 then Done(Popped(t.ds, 1))
        else
          var o := EvalBlock(prims, body, Popped(t.ds, 1), loops, fuel);
          if !o.Done? then o else Eval(prims, s, o.ds, loops, fuel - 1)
    case Do(maybe, body, plus) =>
      if |ds| < 2 then Fault
      else if maybe && ds[|ds| - 2] == Top(ds) then Done(Popped(ds, 2))
      else EvalLoop(prims, body, plus, ds[|ds| - 2], Top(ds), Popped(ds, 2), loops, fuel)
    case Case(arms, dflt) =>
      match EvalArms(prims, arms, ds, loops, fuel)
      case Chosen(o) => o
      case NoneChosen(d) =>
        var o := EvalBlock(prims, dflt, d, loops, fuel);
        if !o.Done? then o else if o.ds == [] then Fault else Done(Popped(o.ds, 1))
  }

  function EvalBlock(prims: Prims, b: Block, ds: seq<int>, loops: seq<int>, fuel: nat): Out
    decreases fuel, b, 0
  {
    match b
    case Empty => Done(ds)
    case Seq(s, rest) =>
      var o := Eval(prims, s, ds, loops, fuel);
      if !o.Done? then o else EvalBlock(prims, rest, o.ds, loops, fuel)
  }

  /** The turns of a DO loop from this index on. */
  function EvalLoop(prims: Prims, body: Block, plus: bool, limit: int, index: int, ds: seq<int>, loops: seq<int>, fuel: nat): Out
    decreases fuel, body, 1
  {
    if fuel == 0 then NoFuel
    else
      var o := EvalBlock(prims, body, ds, [index] + loops, fuel);
      if o.Left? then Done(o.ds)
      else if !o.Done? then o
      else if plus && o.ds == [] then Fault
      else
        var inc, d := if plus then Top(o.ds) else 1, if plus then Popped(o.ds, 1) else o.ds;
        var next := WrapCell(index + inc);
        if Crossed(limit, next, inc < 0) then Done(d) else EvalLoop(prims, body, plus, limit, next, d, loops, fuel - 1)
  }

  /** The arms of a CASE: the first whose test gives the selector, and those it falls into. */
  function EvalArms(prims: Prims, arms: Arms, ds: seq<int>, loops: seq<int>, fuel: nat): ArmsOut
    decreases fuel, arms
  {
    match arms
    case NoArms => NoneChosen(ds)
    case Arm(test, _, _, rest) =>
      var t := EvalBlock(prims, test, ds, loops, fuel);
      if !t.Done? then Chosen(t)
      else if |t.ds| < 2 then Chosen(Fault)
      else if Top(t.ds) == t.ds[|t.ds| - 2] then Chosen(EvalBodies(prims, arms, Popped(t.ds, 2), loops, fuel))
      else EvalArms(prims, rest, Popped(t.ds, 1), loops, fuel)
  }

  /** The body of the first arm, and the next as long as they fall through. */
  function EvalBodies(prims: Prims, arms: Arms, ds: seq<int>, loops: seq<int>, fuel: nat): Out
    requires arms.Arm?
    decreases fuel, arms, 0
  {
    var o := EvalBlock(prims, arms.body, ds, loops, fuel);
    if o.Done? && arms.falls && arms.rest.Arm? then EvalBodies(prims, arms.rest, o.ds, loops, fuel) else o
  }

  // ----- Scoping -----

  /** LEAVE only inside a loop, I, J and K only inside as many loops as they name. */
  predicate Scoped(s: Stmt, depth: nat)
    decreases s
  {
    match s
    case Lit(_) => true
    case Word(_) => true
    case Index(l) => l < depth
    case Leave => depth > 0
    case IfThen(yes) => ScopedBlock(yes, depth)
    case IfElse(yes, no) => ScopedBlock(yes, depth) && ScopedBlock(no, depth)
    case Until(body) => ScopedBlock(body, depth)
    case Again(body) => ScopedBlock(body, depth)
    case While(test, body) => ScopedBlock(test, depth) && ScopedBlock(body, depth)
    case Do(_, body, _) => ScopedBlock(body, depth + 1)
    case Case(arms, dflt) => ScopedArms(arms, depth) && ScopedBlock(dflt, depth)
  }

  predicate ScopedBlock(b: Block, depth: nat)
    decreases b
  {
    b.Empty? || (Scoped(b.head, depth) && ScopedBlock(b.tail, depth))
  }

  predicate ScopedArms(arms: Arms, depth: nat)
    decreases arms
  {
    arms.NoArms? || (ScopedBlock(arms.test, depth) && ScopedBlock(arms.body, depth) && ScopedArms(arms.rest, depth))
  }
}
