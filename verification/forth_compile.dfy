/** The compiling words (markBranch, resolve..., the control words): what each does to the
    dictionary and to the control entries on the data stack, and that a well-nested text
    compiles to its code. */
module ForthCompile {
  import opened ForthCode

  datatype Tag = DoTag | LeaveTag | DestTag | OrigTag | CaseTag | OfTag | FallthroughTag

  /** An entry of the data stack while compiling. */
  datatype Entry = Addr(a: nat) | Mark(tag: Tag) | Count(n: nat) | Other(x: int)

  /** The dictionary from its start, and the data stack. */
  datatype State = State(cells: seq<Cell>, stack: seq<Entry>) {
    function Here(): nat { |cells| }
    function Append(c: Cell): State { State(cells + [c], stack) }
    function Push(e: Entry): State { State(cells, stack + [e]) }
    function MarkBranch(tag: Tag): State { State(cells, stack + [Addr(|cells|), Mark(tag)]) }
  }

  datatype Result = Ok(s: State) | Unmatched

  /** What matchControlTag and the pop of an address ask for. */
  predicate Marked(s: State, tag: Tag) {
    |s.stack| >= 2 && s.stack[|s.stack| - 1] == Mark(tag) && s.stack[|s.stack| - 2].Addr?
  }

  function MarkedAddr(s: State): nat
    requires |s.stack| >= 2 && s.stack[|s.stack| - 2].Addr?
  {
    s.stack[|s.stack| - 2].a
  }

  /** A number stored into a cell already written. */
  function Patch(s: State, at: nat, n: int): Result {
    if at < |s.cells| then Ok(State(s.cells[at := Num(n)], s.stack)) else Unmatched
  }

  function Popped(s: State, n: nat): State
    requires n <= |s.stack|
  {
    State(s.cells, s.stack[..|s.stack| - n])
  }

  function ResolveBack(s: State, tag: Tag): Result {
    if Marked(s, tag) then Ok(Popped(s, 2).Append(Num(MarkedAddr(s) - s.Here()))) else Unmatched
  }

  function ResolveForward(s: State, tag: Tag): Result {
    if Marked(s, tag) then Patch(Popped(s, 2), MarkedAddr(s), s.Here() - MarkedAddr(s)) else Unmatched
  }

  /** resolveAbsBranch: an unmatched tag is only warned about. */
  function ResolveAbs(s: State): Result {
    if |s.stack| >= 2 && s.stack[|s.stack| - 1].Mark? && s.stack[|s.stack| - 2].Addr?
    then Patch(Popped(s, 2), MarkedAddr(s), s.Here())
    else Unmatched
  }

  /** Patch the fixups that lie below the count and the case tag. */
  function ResolveFixups(s: State, n: nat): Result
    decreases n
  {
    if n == 0 then Ok(s)
    else
      var top := |s.stack| - 1;
      if top < 0 || !s.stack[top].Addr? then Unmatched
      else
        match Patch(Popped(s, 1), s.stack[top].a, s.Here() - s.stack[top].a)
        case Ok(t) => ResolveFixups(t, n - 1)
        case Unmatched => Unmatched
  }

  /** The stack with its n-th entry from the top rolled to the top (ficlStackRoll). */
  function Rolled(stack: seq<Entry>, n: nat): (r: seq<Entry>)
    requires n < |stack|
    ensures |r| == |stack|
  {
    var k := |stack| - 1 - n;
    stack[..k] + stack[k + 1..] + [stack[k]]
  }

  /** The top entry rolled down to depth n, those above it up by one. */
  function Sunk(stack: seq<Entry>, n: nat): (r: seq<Entry>)
    requires n < |stack|
    ensures |r| == |stack|
  {
    var top := |stack| - 1;
    stack[..top - n] + [stack[top]] + stack[top - n..top]
  }

  /** The two directions undo each other. */
  lemma RollUndone(stack: seq<Entry>, n: nat)
    requires n < |stack|
    ensures Sunk(Rolled(stack, n), n) == stack && Rolled(Sunk(stack, n), n) == stack
  {
    RolledThenSunk(stack, n, |stack| - 1 - n);
    SunkThenRolled(stack, n, |stack| - 1 - n);
  }

  lemma RolledThenSunk(stack: seq<Entry>, n: nat, k: nat)
    requires k + n + 1 == |stack|
    ensures Sunk(Rolled(stack, n), n) == stack
  {
    var r := Rolled(stack, n);
    assert r[k + n] == stack[k] && r[..k] == stack[..k] && r[k..k + n] == stack[k + 1..];
    assert stack == stack[..k] + [stack[k]] + stack[k + 1..];
  }

  lemma SunkThenRolled(stack: seq<Entry>, n: nat, k: nat)
    requires k + n + 1 == |stack|
    ensures Rolled(Sunk(stack, n), n) == stack
  {
    var u := Sunk(stack, n);
    assert u[k] == stack[k + n] && u[..k] == stack[..k] && u[k + 1..] == stack[k..k + n];
    assert stack == stack[..k] + stack[k..k + n] + [stack[k + n]];
  }

  function Else(s: State): Result {
    if !Marked(s, OrigTag) then Unmatched
    else
      var at := MarkedAddr(s);
      var t := Popped(s.Append(Instr(BranchCheck)), 2).MarkBranch(OrigTag).Append(Num(1));
      Patch(t, at, t.Here() - at)
  }

  function WhileWord(s: State): Result {
    if |s.stack| < 2 then Unmatched
    else
      var t := s.Append(Instr(Branch0Check)).MarkBranch(OrigTag);
      Ok(State(t.cells, Rolled(Rolled(t.stack, 3), 3)).Append(Num(1)))
  }

  function Repeat(s: State): Result {
    match ResolveBack(s.Append(Instr(BranchCheck)), DestTag)
    case Ok(t) => ResolveForward(t, OrigTag)
    case Unmatched => Unmatched
  }

  function DoWord(s: State, op: Op): State {
    s.Append(Instr(op)).MarkBranch(LeaveTag).Append(Num(0)).MarkBranch(DoTag)
  }

  function LoopWord(s: State, op: Op): Result {
    match ResolveBack(s.Append(Instr(op)), DoTag)
    case Ok(t) => ResolveAbs(t)
    case Unmatched => Unmatched
  }

  /** Whether the last arm fell through. */
  predicate Falling(s: State) {
    |s.stack| > 0 && s.stack[|s.stack| - 1] == Mark(FallthroughTag)
  }

  /** OF, behind an arm that ended with ENDOF or at the start of the CASE. */
  function PlainOf(s: State): Result {
    if |s.stack| == 0 || s.stack[|s.stack| - 1] != Mark(CaseTag) then Unmatched
    else Ok(s.Append(Instr(OfParen)).MarkBranch(OfTag).Append(Num(2)))
  }

  /** Otherwise the falling arm's branch is patched to get past the OF. */
  function Of(s: State): Result {
    if !Falling(s) then PlainOf(s)
    else if !Marked(s, FallthroughTag) then Unmatched
    else
      match PlainOf(Popped(s, 2))
      case Ok(t) => Patch(t, MarkedAddr(s), t.Here() - MarkedAddr(s))
      case Unmatched => Unmatched
  }

  /** An OF is open, within a CASE. */
  predicate InOf(s: State) {
    Marked(s, OfTag) && |s.stack| >= 4 && s.stack[|s.stack| - 3] == Mark(CaseTag)
  }

  function Endof(s: State): Result {
    if !InOf(s) || !s.stack[|s.stack| - 4].Count? then Unmatched
    else
      var at, n := MarkedAddr(s), s.stack[|s.stack| - 4].n;
      var t := Popped(s, 4).Append(Instr(BranchCheck));
      var u := t.Push(Addr(t.Here())).Push(Count(n + 1)).Push(Mark(CaseTag)).Append(Num(2));
      Patch(u, at, u.Here() - at)
  }

  function Fallthrough(s: State): Result {
    if !InOf(s) then Unmatched
    else
      var at := MarkedAddr(s);
      var u := Popped(s, 2).Append(Instr(BranchCheck)).MarkBranch(FallthroughTag).Append(Num(2));
      Patch(u, at, u.Here() - at)
  }

  predicate CaseOpen(s: State) {
    |s.stack| >= 2 && s.stack[|s.stack| - 1] == Mark(CaseTag) && s.stack[|s.stack| - 2].Count?
  }

  function PlainEndcase(s: State): Result {
    if !CaseOpen(s) then Unmatched
    else ResolveFixups(Popped(s, 2).Append(Instr(Drop)), s.stack[|s.stack| - 2].n)
  }

  /** A last arm that falls through counts as one more fixup. */
  function WithFallthrough(s: State): State
    requires Marked(s, FallthroughTag) && CaseOpen(Popped(s, 2))
  {
    var t := Popped(s, 2);
    Popped(t, 2).Push(Addr(MarkedAddr(s))).Push(Count(t.stack[|t.stack| - 2].n + 1)).Push(Mark(CaseTag))
  }

  function Endcase(s: State): Result {
    if !Falling(s) then PlainEndcase(s)
    else if !Marked(s, FallthroughTag) || !CaseOpen(Popped(s, 2)) then Unmatched
    else PlainEndcase(WithFallthrough(s))
  }

  /** What a word of the text does while compiling. */
  function Apply(s: State, w: Text): Result {
    match w
    case TLit(v) => Ok(State(s.cells + LitCells(v), s.stack))
    case TWord(p) => Ok(s.Append(Instr(Prim(p))))
    case TIndex(l) => Ok(s.Append(Instr(LoopIndex(l))))
    case TLeave => Ok(s.Append(Instr(LeaveOp)))
    case TIf => Ok(s.Append(Instr(Branch0Check)).MarkBranch(OrigTag).Append(Num(1)))
    case TElse => Else(s)
    case TThen => ResolveForward(s, OrigTag)
    case TBegin => Ok(s.MarkBranch(DestTag))
    case TUntil => ResolveBack(s.Append(Instr(Branch0Check)), DestTag)
    case TAgain => ResolveBack(s.Append(Instr(BranchCheck)), DestTag)
    case TWhile => WhileWord(s)
    case TRepeat => Repeat(s)
    case TDo => Ok(DoWord(s, DoParen))
    case TQDo => Ok(DoWord(s, QDoParen))
    case TLoop => LoopWord(s, LoopParen)
    case TPlusLoop => LoopWord(s, PlusLoopParen)
    case TCase => Ok(s.Push(Count(0)).Push(Mark(CaseTag)))
    case TOf => Of(s)
    case TEndof => Endof(s)
    case TFallthrough => Fallthrough(s)
    case TEndcase => Endcase(s)
  }

  /** The words of a text, one after the other. */
  type Step = (State, Text) -> Result

  function RunText(step: Step, s: State, text: seq<Text>): Result
    decreases |text|
  {
    if text == [] then Ok(s)
    else
      match step(s, text[0])
      case Ok(t) => RunText(step, t, text[1..])
      case Unmatched => Unmatched
  }

  lemma {:induction false} RunConcat(step: Step, s: State, a: seq<Text>, b: seq<Text>)
    ensures RunText(step, s, a + b) ==
            match RunText(step, s, a)
            case Ok(t) => RunText(step, t, b)
            case Unmatched => Unmatched
    decreases |a|
  {
    if a == [] {
      assert a + b == b;
    } else {
      assert (a + b)[0] == a[0] && (a + b)[1..] == a[1..] + b;
      match step(s, a[0])
      case Ok(t) => RunConcat(step, t, a[1..], b);
      case Unmatched =>
    }
  }

  /** Compiling a text appends these cells and leaves the stack alone. */
  ghost predicate Appends(step: Step, s: State, text: seq<Text>, code: seq<Cell>) {
    RunText(step, s, text) == Ok(State(s.cells + code, s.stack))
  }

  lemma RunOne(step: Step, s: State, w: Text)
    ensures RunText(step, s, [w]) == step(s, w)
  {
    assert [w][1..] == [];
  }

  /** A word, some text that appends cells, and what is left. */
  lemma RunThen(step: Step, s: State, w: Text, t: State, text: seq<Text>, rest: seq<Text>, code: seq<Cell>)
    requires step(s, w) == Ok(t) && Appends(step, t, text, code)
    ensures RunText(step, s, [w] + (text + rest)) == RunText(step, State(t.cells + code, t.stack), rest)
  {
    assert ([w] + (text + rest))[1..] == text + rest;
    RunConcat(step, t, text, rest);
  }

  /** A text between two words. */
  lemma Bracket(step: Step, s: State, w1: Text, t: State, text: seq<Text>, code: seq<Cell>, w2: Text, v: State)
    requires step(s, w1) == Ok(t) && Appends(step, t, text, code) && step(State(t.cells + code, t.stack), w2) == Ok(v)
    ensures RunText(step, s, [w1] + text + [w2]) == Ok(v)
  {
    assert [w1] + text + [w2] == [w1] + (text + [w2]);
    RunThen(step, s, w1, t, text, [w2], code);
    RunOne(step, State(t.cells + code, t.stack), w2);
  }

  /** Two texts between three words. */
  lemma Bracket2(step: Step, s: State, w1: Text, t: State, text: seq<Text>, code: seq<Cell>, w2: Text, u: State,
                 text': seq<Text>, code': seq<Cell>, w3: Text, v: State)
    requires step(s, w1) == Ok(t) && Appends(step, t, text, code)
    requires step(State(t.cells + code, t.stack), w2) == Ok(u) && Appends(step, u, text', code')
    requires step(State(u.cells + code', u.stack), w3) == Ok(v)
    ensures RunText(step, s, [w1] + text + [w2] + text' + [w3]) == Ok(v)
  {
    var rest := [w2] + text' + [w3];
    assert [w1] + text + [w2] + text' + [w3] == [w1] + (text + rest);
    RunThen(step, s, w1, t, text, rest, code);
    Bracket(step, State(t.cells + code, t.stack), w2, u, text', code', w3, v);
  }

  /** A text, a word, a text and a word, before some more. */
  lemma ArmText(step: Step, s: State, ttext: seq<Text>, test: seq<Cell>, w1: Text, u: State, btext: seq<Text>, body: seq<Cell>,
                w2: Text, v: State, rest: seq<Text>)
    requires Appends(step, s, ttext, test) && step(State(s.cells + test, s.stack), w1) == Ok(u)
    requires Appends(step, u, btext, body) && step(State(u.cells + body, u.stack), w2) == Ok(v)
    ensures RunText(step, s, ttext + [w1] + btext + [w2] + rest) == RunText(step, v, rest)
  {
    var rest' := [w2] + rest;
    TextAssoc(ttext, [w1], btext, [w2], rest);
    RunConcat(step, s, ttext, [w1] + (btext + rest'));
    RunThen(step, State(s.cells + test, s.stack), w1, u, btext, rest', body);
    assert rest'[1..] == rest;
  }

  lemma TextAssoc<T>(a: seq<T>, b: seq<T>, c: seq<T>, d: seq<T>, e: seq<T>)
    ensures a + b + c + d + e == a + (b + (c + (d + e)))
  {
  }

  /** The words do what Apply says, for every n.  The recursion keeps the quantifier over all
      states out of the solver's sight, where it would unfold Apply at every one of them; StepIs
      gives the equation for one word in one state. */
  ghost predicate Obeys(step: Step, n: nat) {
    if n == 0 then forall s, w :: step(s, w) == Apply(s, w) else Obeys(step, n - 1)
  }

  lemma {:induction false} StepIs(step: Step, n: nat, s: State, w: Text)
    requires Obeys(step, n)
    ensures step(s, w) == Apply(s, w)
  {
    if n > 0 { StepIs(step, n - 1, s, w); }
  }

  lemma PatchMiddle(a: seq<Cell>, x: Cell, c: seq<Cell>, y: Cell)
    ensures (a + [x] + c)[|a| := y] == a + [y] + c
  {
  }
}
