/** Structured Forth programs and the cells they compile to. */
module ForthCode {

  /** What a cell of a compiled word can hold: an instruction or a number. */
  datatype Op = Small(v: int) | Literal | Prim(p: nat) | LoopIndex(level: nat)
              | BranchCheck | Branch | Branch0Check | Branch0 | OfParen
              | DoParen | QDoParen | LoopParen | PlusLoopParen | LeaveOp | Drop | Semi
  datatype Cell = Instr(op: Op) | Num(n: int)

  /** LoopIndex 0, 1 and 2 are I, J and K. */
  datatype Stmt =
    | Lit(v: int)
    | Word(p: nat)
    | Index(level: nat)
    | Leave
    | IfThen(yes: Block)
    | IfElse(yes: Block, no: Block)
    | Until(body: Block)
    | Again(body: Block)
    | While(test: Block, body: Block)
    | Do(maybe: bool, body: Block, plus: bool)
    | Case(arms: Arms, dflt: Block)
  datatype Block = Empty | Seq(head: Stmt, tail: Block)

  /** test OF body ENDOF, or FALLTHROUGH in place of ENDOF. */
  datatype Arms = NoArms | Arm(test: Block, body: Block, falls: bool, rest: Arms)

  // ----- Sizes -----

  function LitSize(v: int): nat { if -16 <= v <= 16 then 1 else 2 }

  function Size(s: Stmt): nat {
    match s
    case Lit(v) => LitSize(v)
    case Word(_) => 1
    case Index(_) => 1
    case Leave => 1
    case IfThen(yes) => 2 + Sizes(yes)
    case IfElse(yes, no) => 4 + Sizes(yes) + Sizes(no)
    case Until(body) => Sizes(body) + 2
    case Again(body) => Sizes(body) + 2
    case While(test, body) => Sizes(test) + Sizes(body) + 4
    case Do(_, body, _) => Sizes(body) + 4
    case Case(arms, dflt) => ArmsSize(arms) + Sizes(dflt) + 1
  }

  function Sizes(b: Block): nat {
    match b
    case Empty => 0
    case Seq(s, rest) => Size(s) + Sizes(rest)
  }

  function ArmsSize(arms: Arms): nat {
    match arms
    case NoArms => 0
    case Arm(test, body, _, rest) => Sizes(test) + Sizes(body) + 4 + ArmsSize(rest)
  }

  // ----- The cells at position p -----

  function LitCells(v: int): (c: seq<Cell>)
    ensures |c| == LitSize(v)
  {
    if -16 <= v <= 16 then [Instr(Small(v))] else [Instr(Literal), Num(v)]
  }

  /** Offsets count from the operand cell; the leave address of a loop is absolute. */
  function Code(s: Stmt, p: nat): (c: seq<Cell>)
    ensures |c| == Size(s)
  {
    match s
    case Lit(v) => LitCells(v)
    case Word(w) => [Instr(Prim(w))]
    case Index(l) => [Instr(LoopIndex(l))]
    case Leave => [Instr(LeaveOp)]
    case IfThen(yes) => [Instr(Branch0Check), Num(Sizes(yes) + 1)] + Codes(yes, p + 2)
    case IfElse(yes, no) =>
      [Instr(Branch0Check), Num(Sizes(yes) + 3)] + Codes(yes, p + 2)
      + [Instr(BranchCheck), Num(Sizes(no) + 1)] + Codes(no, p + 4 + Sizes(yes))
    case Until(body) => Codes(body, p) + [Instr(Branch0Check), Num(-(Sizes(body) + 1))]
    case Again(body) => Codes(body, p) + [Instr(BranchCheck), Num(-(Sizes(body) + 1))]
    case While(test, body) =>
      Codes(test, p) + [Instr(Branch0Check), Num(Sizes(body) + 3)]
      + Codes(body, p + Sizes(test) + 2) + [Instr(BranchCheck), Num(-(Sizes(test) + Sizes(body) + 3))]
    case Do(maybe, body, plus) =>
      [Instr(if maybe then QDoParen else DoParen), Num(p + Size(s))] + Codes(body, p + 2)
      + [Instr(if plus then PlusLoopParen else LoopParen), Num(-(Sizes(body) + 1))]
    case Case(arms, dflt) =>
      ArmsCode(arms, p, Final(p + ArmsSize(arms) + Sizes(dflt) + 1)) + Codes(dflt, p + ArmsSize(arms)) + [Instr(Drop)]
  }

  function Codes(b: Block, p: nat): (c: seq<Cell>)
    ensures |c| == Sizes(b)
  {
    match b
    case Empty => []
    case Seq(s, rest) => Code(s, p) + Codes(rest, p + Size(s))
  }

  /** The branches out of a CASE: still a placeholder, or to the end of it. */
  datatype Exit = Pending | Final(end: nat) {
    function Offset(at: nat): int { if Pending? then 2 else end - at }
  }

  /** An arm up to the operand of the branch that ends it. */
  function ArmHead(arm: Arms, a: nat): (c: seq<Cell>)
    requires arm.Arm?
    ensures |c| == Sizes(arm.test) + Sizes(arm.body) + 3
    decreases arm, 0
  {
    Codes(arm.test, a) + [Instr(OfParen), Num(Sizes(arm.body) + 3)] + Codes(arm.body, a + Sizes(arm.test) + 2) + [Instr(BranchCheck)]
  }

  /** That operand, at position `out`.  A falling arm branches past the next arm's OF, if
      there is one; otherwise it leaves the CASE like any other. */
  function ArmOffset(falls: bool, rest: Arms, exit: Exit, out: nat): int {
    if falls && rest.Arm? then Sizes(rest.test) + 3 else exit.Offset(out)
  }

  /** The arms at position a. */
  function ArmsCode(arms: Arms, a: nat, exit: Exit): (c: seq<Cell>)
    ensures |c| == ArmsSize(arms)
    decreases arms, 1
  {
    match arms
    case NoArms => []
    case Arm(test, body, falls, rest) =>
      var out := a + Sizes(test) + Sizes(body) + 3;
      ArmHead(arms, a) + [Num(ArmOffset(falls, rest, exit, out))] + ArmsCode(rest, out + 1, exit)
  }

  // ----- The text -----

  datatype Text = TLit(v: int) | TWord(p: nat) | TIndex(level: nat) | TLeave
                | TIf | TElse | TThen | TBegin | TUntil | TAgain | TWhile | TRepeat
                | TDo | TQDo | TLoop | TPlusLoop | TCase | TOf | TEndof | TFallthrough | TEndcase

  /** The words a program is written with. */
  function Words(s: Stmt): seq<Text> {
    match s
    case Lit(v) => [TLit(v)]
    case Word(p) => [TWord(p)]
    case Index(l) => [TIndex(l)]
    case Leave => [TLeave]
    case IfThen(yes) => [TIf] + BlockWords(yes) + [TThen]
    case IfElse(yes, no) => [TIf] + BlockWords(yes) + [TElse] + BlockWords(no) + [TThen]
    case Until(body) => [TBegin] + BlockWords(body) + [TUntil]
    case Again(body) => [TBegin] + BlockWords(body) + [TAgain]
    case While(test, body) => [TBegin] + BlockWords(test) + [TWhile] + BlockWords(body) + [TRepeat]
    case Do(maybe, body, plus) =>
      [if maybe then TQDo else TDo] + BlockWords(body) + [if plus then TPlusLoop else TLoop]
    case Case(arms, dflt) => [TCase] + ArmsWords(arms) + BlockWords(dflt) + [TEndcase]
  }

  function BlockWords(b: Block): seq<Text> {
    match b
    case Empty => []
    case Seq(s, rest) => Words(s) + BlockWords(rest)
  }

  function ArmsWords(arms: Arms): seq<Text> {
    match arms
    case NoArms => []
    case Arm(test, body, falls, rest) =>
      BlockWords(test) + [TOf] + BlockWords(body) + [if falls then TFallthrough else TEndof] + ArmsWords(rest)
  }
}
