/** A text compiled by the compiling words and run by the interpreter that rewrites branches. */
module ForthEndToEnd {
  import opened ForthCode
  import opened ForthCompile
  import FC = ForthCompiler
  import opened ForthMachine
  import opened ForthTheorem
  import opened ForthLoops
  import opened ForthPeephole
  import opened ForthSelfMod
  import opened ForthWellFormed

  /** Compiling the text of a definition behind any well-formed code, and calling it from `ret`
      with these stacks: the run returns with a data stack exactly when the source ends with
      it, the return stack is the caller's, and it faults exactly when the source does. */
  lemma CompiledTextRuns(prims: Prims, s: State, b: Block, ds: seq<int>, rs: seq<int>, ret: int, last: Vm)
    requires WellFormed(s.cells) && ScopedBlock(b, 0)
    ensures var compiled := RunText((t: State, w: Text) => Apply(t, w), s, BlockWords(b));
            && compiled.Ok? && compiled.s.stack == s.stack
            && var code := compiled.s.cells + [Instr(Semi)];
            && s.cells <= code && WellFormed(code)
            && (SelfReaches(prims, code, Called(|s.cells|, ds, rs, ret), Returned(last)) <==>
                last.ip == ret && last.rs == rs && SourceDone(prims, b, ds, last.ds))
            && (SelfReaches(prims, code, Called(|s.cells|, ds, rs, ret), Faulted) <==> SourceFaults(prims, b, ds))
  {
    FC.CompiledBlock(s, b);
    var code, m := Definition(s.cells, b), Called(|s.cells|, ds, rs, ret);
    DefinitionOk(s.cells, b);
    var mc := Mach(code, prims);
    ReturnsExactly(mc, |s.cells|, b, ds, rs, ret, last);
    FaultsExactly(mc, |s.cells|, b, ds, rs, ret);
    RewritingIsInvisible(prims, code, m, Returned(last));
    RewritingIsInvisible(prims, code, m, Faulted);
  }

  // ----- Loops, from their text to their result -----

  /** Compiled behind these cells and called, the text returns with this data stack. */
  ghost predicate TextLeaves(prims: Prims, s: State, words: seq<Text>, ds: seq<int>, rs: seq<int>, ret: int, ds': seq<int>) {
    var compiled := RunText((t: State, w: Text) => Apply(t, w), s, words);
    && compiled.Ok?
    && var code := compiled.s.cells + [Instr(Semi)];
    WellFormed(code) && SelfReaches(prims, code, Called(|s.cells|, ds, rs, ret), Returned(Vm(ret, ds', rs)))
  }

  lemma SourceTextLeaves(prims: Prims, s: State, b: Block, words: seq<Text>, ds: seq<int>, rs: seq<int>, ret: int, ds': seq<int>, fuel: nat)
    requires WellFormed(s.cells) && ScopedBlock(b, 0) && words == BlockWords(b) && EvalBlock(prims, b, ds, [], fuel) == Done(ds')
    ensures TextLeaves(prims, s, words, ds, rs, ret, ds')
  {
    assert SourceDone(prims, b, ds, ds');
    CompiledTextRuns(prims, s, b, ds, rs, ret, Vm(ret, ds', rs));
  }

  function LoopText(maybe: bool, limit: int, first: int, body: seq<Text>, plus: bool): seq<Text> {
    [TLit(limit), TLit(first), if maybe then TQDo else TDo] + body + [if plus then TPlusLoop else TLoop]
  }

  lemma LoopTextIs(maybe: bool, limit: int, first: int, body: Block, plus: bool)
    ensures BlockWords(LoopBlock(maybe, limit, first, body, plus)) == LoopText(maybe, limit, first, BlockWords(body), plus)
  {
    var s := Do(maybe, body, plus);
    var w := ForthCode.Words(s);
    assert BlockWords(Seq(s, Empty)) == w;
    assert BlockWords(Seq(Lit(first), Seq(s, Empty))) == [TLit(first)] + w;
    InFront(TLit(limit), TLit(first), if maybe then TQDo else TDo, BlockWords(body), if plus then TPlusLoop else TLoop);
  }

  lemma InFront(a: Text, b: Text, c: Text, w: seq<Text>, d: Text)
    ensures [a] + ([b] + ([c] + w + [d])) == [a, b, c] + w + [d]
  {
  }

  lemma LitBlockIs(v: int, depth: nat)
    ensures BlockWords(Seq(Lit(v), Empty)) == [TLit(v)] && ScopedBlock(Seq(Lit(v), Empty), depth)
  {
    assert Scoped(Lit(v), depth) && ForthCode.Words(Lit(v)) == [TLit(v)];
    assert ScopedBlock(Empty, depth) && BlockWords(Empty) == [];
  }

  lemma LoopScoped(maybe: bool, limit: int, first: int, body: Block, plus: bool)
    requires ScopedBlock(body, 1)
    ensures ScopedBlock(LoopBlock(maybe, limit, first, body, plus), 0)
  {
    var s := Do(maybe, body, plus);
    assert Scoped(s, 0);
    assert ScopedBlock(Seq(s, Empty), 0);
    assert ScopedBlock(Seq(Lit(first), Seq(s, Empty)), 0);
  }

  lemma LoopTextLeaves(prims: Prims, s: State, maybe: bool, limit: int, first: int, body: Block, plus: bool,
                       ds: seq<int>, rs: seq<int>, ret: int, ds': seq<int>, fuel: nat)
    requires WellFormed(s.cells) && ScopedBlock(body, 1)
    requires if maybe && limit == first then ds' == ds else EvalLoop(prims, body, plus, limit, first, ds, [], fuel) == Done(ds')
    ensures TextLeaves(prims, s, LoopText(maybe, limit, first, BlockWords(body), plus), ds, rs, ret, ds')
  {
    var b := LoopBlock(maybe, limit, first, body, plus);
    BlockIsLoop(prims, maybe, limit, first, body, plus, ds, fuel);
    LoopTextIs(maybe, limit, first, body, plus);
    LoopScoped(maybe, limit, first, body, plus);
    SourceTextLeaves(prims, s, b, LoopText(maybe, limit, first, BlockWords(body), plus), ds, rs, ret, ds', fuel);
  }

  /** limit first DO I LOOP leaves the numbers from the first up to the limit, without it. */
  lemma CountingText(prims: Prims, s: State, maybe: bool, limit: int, first: int, ds: seq<int>, rs: seq<int>, ret: int)
    requires WellFormed(s.cells) && IsCell(limit) && IsCell(first) && first < limit
    ensures TextLeaves(prims, s, LoopText(maybe, limit, first, [TIndex(0)], false), ds, rs, ret, ds + Steps(first, 1, limit - first))
  {
    IndexLoop(prims, limit, first, ds, [], limit - first);
    LoopTextLeaves(prims, s, maybe, limit, first, IndexBody, false, ds, rs, ret, ds + Steps(first, 1, limit - first), limit - first);
    assert BlockWords(IndexBody) == [TIndex(0)];
  }

  /** limit first DO I step +LOOP leaves the numbers from the first on, a step apart, that are
      short of the limit; a step down still takes the limit itself. */
  lemma SteppingText(prims: Prims, s: State, maybe: bool, limit: int, first: int, step: int, n: nat, ds: seq<int>, rs: seq<int>, ret: int)
    requires WellFormed(s.cells) && step != 0 && EndsAfter(limit, first, step, n) && !(maybe && limit == first)
    ensures TextLeaves(prims, s, LoopText(maybe, limit, first, [TIndex(0), TLit(step)], true), ds, rs, ret, ds + Steps(first, step, n))
  {
    IndexSteps(prims, limit, first, step, n, ds, [], n);
    LitBlockIs(step, 1);
    LoopTextLeaves(prims, s, maybe, limit, first, StepBody(step), true, ds, rs, ret, ds + Steps(first, step, n), n);
    assert BlockWords(StepBody(step)) == [TIndex(0), TLit(step)];
  }

  /** From the limit itself DO runs once and ?DO not at all. */
  lemma EmptyRangeText(prims: Prims, s: State, maybe: bool, limit: int, ds: seq<int>, rs: seq<int>, ret: int)
    requires WellFormed(s.cells) && IsCell(limit) && IsCell(limit + 1)
    ensures TextLeaves(prims, s, LoopText(maybe, limit, limit, [TIndex(0)], false), ds, rs, ret, if maybe then ds else ds + [limit])
  {
    var ds' := if maybe then ds else ds + [limit];
    LeavesIndex(prims, limit, ds, []);
    LoopPastLimit(prims, IndexBody, limit, limit, ds, ds + [limit], [], 0, 1);
    LoopTextLeaves(prims, s, maybe, limit, limit, IndexBody, false, ds, rs, ret, ds', 1);
    assert BlockWords(IndexBody) == [TIndex(0)];
  }

  // ----- Choices, from their text to their result -----

  /** flag IF yes ELSE no THEN */
  lemma IfText(prims: Prims, s: State, x: int, yes: int, no: int, ds: seq<int>, rs: seq<int>, ret: int)
    requires WellFormed(s.cells)
    ensures TextLeaves(prims, s, [TLit(x), TIf, TLit(yes), TElse, TLit(no), TThen], ds, rs, ret, ds + [if x != 0 then yes else no])
  {
    var a, b := Seq(Lit(yes), Empty), Seq(Lit(no), Empty);
    IfTakes(prims, x, yes, no, ds);
    LitBlockIs(yes, 0);
    LitBlockIs(no, 0);
    var c := IfElse(a, b);
    assert ForthCode.Words(c) == [TIf, TLit(yes), TElse, TLit(no), TThen];
    assert BlockWords(Seq(c, Empty)) == ForthCode.Words(c) && ScopedBlock(Seq(c, Empty), 0);
    SourceTextLeaves(prims, s, IfBlock(x, yes, no), [TLit(x), TIf, TLit(yes), TElse, TLit(no), TThen], ds, rs, ret,
                     ds + [if x != 0 then yes else no], 0);
  }

  /** key OF value ENDOF, for all pairs from k on. */
  function KeyText(pairs: seq<(int, int)>, k: nat): seq<Text>
    requires k <= |pairs|
    decreases |pairs| - k
  {
    if k == |pairs| then [] else [TLit(pairs[k].0), TOf, TLit(pairs[k].1), TEndof] + KeyText(pairs, k + 1)
  }

  lemma ArmText(a: Text, b: Text, c: Text, d: Text, rest: seq<Text>)
    ensures [a] + [b] + [c] + [d] + rest == [a, b, c, d] + rest
  {
  }

  lemma {:induction false} KeyTextIs(pairs: seq<(int, int)>, k: nat)
    requires k <= |pairs|
    ensures ArmsWords(KeyArms(pairs, k)) == KeyText(pairs, k) && ScopedArms(KeyArms(pairs, k), 0)
    decreases |pairs| - k
  {
    if k < |pairs| {
      KeyTextIs(pairs, k + 1);
      LitBlockIs(pairs[k].0, 0);
      LitBlockIs(pairs[k].1, 0);
      ArmText(TLit(pairs[k].0), TOf, TLit(pairs[k].1), TEndof, KeyText(pairs, k + 1));
    }
  }

  function CaseText(x: int, pairs: seq<(int, int)>): seq<Text> { [TLit(x), TCase] + KeyText(pairs, 0) + [TEndcase] }

  lemma CaseTextIs(x: int, pairs: seq<(int, int)>)
    ensures BlockWords(CaseBlock(x, pairs)) == CaseText(x, pairs) && ScopedBlock(CaseBlock(x, pairs), 0)
  {
    KeyTextIs(pairs, 0);
    var c := Case(KeyArms(pairs, 0), Empty);
    assert ForthCode.Words(c) == [TCase] + KeyText(pairs, 0) + [] + [TEndcase];
    assert BlockWords(Seq(c, Empty)) == ForthCode.Words(c) && ScopedBlock(Seq(c, Empty), 0);
  }

  /** CASE takes the first arm with the key, or none, and the selector is gone. */
  lemma CaseTextLeaves(prims: Prims, s: State, x: int, pairs: seq<(int, int)>, j: nat, ds: seq<int>, rs: seq<int>, ret: int)
    requires WellFormed(s.cells) && j <= |pairs| && (j < |pairs| ==> pairs[j].0 == x) && forall i :: 0 <= i < j ==> pairs[i].0 != x
    ensures TextLeaves(prims, s, CaseText(x, pairs), ds, rs, ret, if j < |pairs| then ds + [pairs[j].1] else ds)
  {
    CaseTakes(prims, x, pairs, ds);
    CaseTextIs(x, pairs);
    SourceTextLeaves(prims, s, CaseBlock(x, pairs), CaseText(x, pairs), ds, rs, ret, if j < |pairs| then ds + [pairs[j].1] else ds, 0);
  }
}
