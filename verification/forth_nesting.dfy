/** Which texts the compiling words refuse: a structure cannot be closed by the word of another,
    or without having been opened. */
module ForthNesting {
  import opened ForthCode
  import opened ForthCompile
  import FC = ForthCompiler

  /** The words that need an open structure; WHILE, which needs one, does not look at its tag. */
  predicate Closes(w: Text, tag: Tag) {
    match w
    case TElse => tag == OrigTag
    case TThen => tag == OrigTag
    case TUntil => tag == DestTag
    case TAgain => tag == DestTag
    case TRepeat => tag == DestTag
    case TLoop => tag == DoTag
    case TPlusLoop => tag == DoTag
    case TOf => tag == CaseTag || tag == FallthroughTag
    case TEndof => tag == OfTag
    case TFallthrough => tag == OfTag
    case TEndcase => tag == CaseTag || tag == FallthroughTag
    case _ => false
  }

  predicate IsCloser(w: Text) {
    w in {TElse, TThen, TUntil, TAgain, TRepeat, TLoop, TPlusLoop, TOf, TEndof, TFallthrough, TEndcase}
  }

  /** What is on top of the stack for the closing word to find. */
  predicate Closable(stack: seq<Entry>, w: Text) {
    stack != [] && stack[|stack| - 1].Mark? && Closes(w, stack[|stack| - 1].tag)
  }

  lemma RefusesOthers(s: State, w: Text)
    requires IsCloser(w) && !Closable(s.stack, w)
    ensures Apply(s, w) == Unmatched
  {
    match w
    case TElse => assert !Marked(s, OrigTag);
    case TThen => assert !Marked(s, OrigTag);
    case TUntil => assert !Marked(s.Append(Instr(Branch0Check)), DestTag);
    case TAgain => assert !Marked(s.Append(Instr(BranchCheck)), DestTag);
    case TRepeat => assert !Marked(s.Append(Instr(BranchCheck)), DestTag);
    case TLoop => assert !Marked(s.Append(Instr(LoopParen)), DoTag);
    case TPlusLoop => assert !Marked(s.Append(Instr(PlusLoopParen)), DoTag);
    case TOf => assert !Falling(s);
    case TEndof => assert !InOf(s);
    case TFallthrough => assert !InOf(s);
    case TEndcase => assert !Falling(s) && !CaseOpen(s);
  }

  /** The words that open a structure, and the tag it is known by. */
  predicate Opens(w: Text, tag: Tag) {
    match w
    case TIf => tag == OrigTag
    case TBegin => tag == DestTag
    case TDo => tag == DoTag
    case TQDo => tag == DoTag
    case TCase => tag == CaseTag
    case _ => false
  }

  /** A structure opened by one word, with any well-nested text inside, and closed by the word of
      another is refused; so is a closing word with nothing open. */
  lemma MismatchedText(s: State, open: Text, tag: Tag, b: Block, close: Text)
    requires Opens(open, tag) && IsCloser(close) && !Closes(close, tag)
    ensures RunText((t: State, w: Text) => Apply(t, w), s, [open] + BlockWords(b) + [close]) == Unmatched
  {
    var step: Step := (t: State, w: Text) => Apply(t, w);
    var o := Apply(s, open).s;
    assert o.stack[|o.stack| - 1] == Mark(tag);
    ClosedWrongly(step, o, b, close);
    assert [open] + BlockWords(b) + [close] == [open] + (BlockWords(b) + [close]);
    RunConcat(step, s, [open], BlockWords(b) + [close]);
    assert [open][1..] == [];
    assert RunText(step, s, [open]) == Ok(o);
  }

  lemma NothingOpen(s: State, b: Block, close: Text)
    requires IsCloser(close) && s.stack == []
    ensures RunText((t: State, w: Text) => Apply(t, w), s, BlockWords(b) + [close]) == Unmatched
  {
    ClosedWrongly((t: State, w: Text) => Apply(t, w), s, b, close);
  }

  lemma ClosedWrongly(step: Step, s: State, b: Block, close: Text)
    requires step == ((t: State, w: Text) => Apply(t, w)) && IsCloser(close) && !Closable(s.stack, close)
    ensures RunText(step, s, BlockWords(b) + [close]) == Unmatched
  {
    FC.CompiledBlock(s, b);
    RunConcat(step, s, BlockWords(b), [close]);
    RefusesOthers(State(s.cells + Codes(b, |s.cells|), s.stack), close);
  }
}
