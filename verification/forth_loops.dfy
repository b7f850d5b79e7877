/** What loops and choices compute: how often a body runs, with which index, where the loop
    ends, which branch and which arm is taken. */
module ForthLoops {
  import opened ForthCode
  import opened ForthMachine

  predicate IsCell(x: int) { -0x8000_0000 <= x < 0x8000_0000 }

  /** From `need` turns of fuel on, the body takes one stack to the other under this index. */
  ghost predicate Takes(prims: Prims, body: Block, ds: seq<int>, ds': seq<int>, index: int, loops: seq<int>, need: nat) {
    forall fuel: nat :: fuel >= need ==> EvalBlock(prims, body, ds, [index] + loops, fuel) == Done(ds')
  }

  // ----- LOOP -----

  /** The body takes each stack of `s` to the next, under the indices from this one on. */
  ghost predicate Counted(prims: Prims, body: Block, index: int, s: seq<seq<int>>, loops: seq<int>, need: nat) {
    s != [] && forall k :: 0 <= k < |s| - 1 ==> Takes(prims, body, s[k], s[k + 1], index + k, loops, need)
  }

  /** Below its limit a loop runs once for every index up to the limit, without it. */
  lemma {:induction false} LoopTurns(prims: Prims, body: Block, limit: int, index: int, s: seq<seq<int>>, loops: seq<int>,
                                     need: nat, fuel: nat)
    requires IsCell(limit) && IsCell(index) && index < limit && fuel >= limit - index + need
    requires |s| == limit - index + 1 && Counted(prims, body, index, s, loops, need)
    ensures EvalLoop(prims, body, false, limit, index, s[0], loops, fuel) == Done(s[limit - index])
    decreases limit - index
  {
    assert Takes(prims, body, s[0], s[1], index + 0, loops, need);
    if index + 1 < limit {
      CountedRest(prims, body, index, s, loops, need);
      LoopTurns(prims, body, limit, index + 1, s[1..], loops, need, fuel - 1);
    }
  }

  lemma CountedRest(prims: Prims, body: Block, index: int, s: seq<seq<int>>, loops: seq<int>, need: nat)
    requires |s| > 1 && Counted(prims, body, index, s, loops, need)
    ensures Counted(prims, body, index + 1, s[1..], loops, need)
  {
    forall k | 0 <= k < |s| - 2
      ensures Takes(prims, body, s[1..][k], s[1..][k + 1], index + 1 + k, loops, need)
    {
      assert Takes(prims, body, s[k + 1], s[k + 2], index + (k + 1), loops, need);
    }
  }

  /** At or past its limit it runs once; the greatest number has none behind it to end at. */
  lemma LoopPastLimit(prims: Prims, body: Block, limit: int, index: int, ds: seq<int>, ds': seq<int>, loops: seq<int>, need: nat, fuel: nat)
    requires IsCell(index) && IsCell(index + 1) && index >= limit && fuel > need && Takes(prims, body, ds, ds', index, loops, need)
    ensures EvalLoop(prims, body, false, limit, index, ds, loops, fuel) == Done(ds')
  {
  }

  /** Behind the greatest number the index goes on from the least. */
  lemma LoopWraps(prims: Prims, body: Block, limit: int, ds: seq<int>, ds': seq<int>, loops: seq<int>, need: nat, fuel: nat)
    requires limit > -0x8000_0000 && fuel > need && Takes(prims, body, ds, ds', 0x7FFF_FFFF, loops, need)
    ensures EvalLoop(prims, body, false, limit, 0x7FFF_FFFF, ds, loops, fuel) ==
            EvalLoop(prims, body, false, limit, -0x8000_0000, ds', loops, fuel - 1)
  {
    assert EvalBlock(prims, body, ds, [0x7FFF_FFFF] + loops, fuel) == Done(ds');
  }

  // ----- +LOOP -----

  /** The body takes each stack of `s` to the next and leaves the way from each index of `at`
      to the next on top. */
  ghost predicate Stepped(prims: Prims, body: Block, at: seq<int>, s: seq<seq<int>>, loops: seq<int>, need: nat) {
    && |at| == |s| > 1 && (forall k :: 0 <= k < |at| ==> IsCell(at[k]))
    && forall k :: 0 <= k < |s| - 1 ==> Takes(prims, body, s[k], s[k + 1] + [at[k + 1] - at[k]], at[k], loops, need)
  }

  lemma SteppedRest(prims: Prims, body: Block, at: seq<int>, s: seq<seq<int>>, loops: seq<int>, need: nat)
    requires Stepped(prims, body, at, s, loops, need) && |s| > 2
    ensures Stepped(prims, body, at[1..], s[1..], loops, need)
  {
    forall k | 0 <= k < |s| - 2
      ensures Takes(prims, body, s[1..][k], s[1..][k + 1] + [at[1..][k + 1] - at[1..][k]], at[1..][k], loops, need)
    {
      assert Takes(prims, body, s[k + 1], s[k + 2] + [at[k + 2] - at[k + 1]], at[k + 1], loops, need);
    }
  }

  /** Upwards it ends at the first index that is not below the limit, downwards at the first
      that is. */
  lemma PlusTurn(prims: Prims, body: Block, limit: int, index: int, next: int, ds: seq<int>, ds': seq<int>, loops: seq<int>,
                 need: nat, fuel: nat)
    requires IsCell(next) && fuel > need && Takes(prims, body, ds, ds' + [next - index], index, loops, need)
    ensures var over := if next < index then next < limit else next >= limit;
            EvalLoop(prims, body, true, limit, index, ds, loops, fuel) ==
            if over then Done(ds') else EvalLoop(prims, body, true, limit, next, ds', loops, fuel - 1)
  {
    var d := ds' + [next - index];
    assert EvalBlock(prims, body, ds, [index] + loops, fuel) == Done(d);
    assert Top(d) == next - index && Popped(d, 1) == ds';
  }

  lemma {:induction false} UpTurns(prims: Prims, body: Block, limit: int, at: seq<int>, s: seq<seq<int>>, loops: seq<int>, need: nat, fuel: nat)
    requires Stepped(prims, body, at, s, loops, need) && fuel >= |s| - 1 + need
    requires forall k :: 0 <= k < |at| - 1 ==> at[k] <= at[k + 1]
    requires (forall k :: 0 < k < |at| - 1 ==> at[k] < limit) && at[|at| - 1] >= limit
    ensures EvalLoop(prims, body, true, limit, at[0], s[0], loops, fuel) == Done(s[|s| - 1])
    decreases |s|
  {
    PlusTurn(prims, body, limit, at[0], at[1], s[0], s[1], loops, need, fuel);
    if |s| > 2 {
      SteppedRest(prims, body, at, s, loops, need);
      UpTurns(prims, body, limit, at[1..], s[1..], loops, need, fuel - 1);
    }
  }

  lemma {:induction false} DownTurns(prims: Prims, body: Block, limit: int, at: seq<int>, s: seq<seq<int>>, loops: seq<int>, need: nat, fuel: nat)
    requires Stepped(prims, body, at, s, loops, need) && fuel >= |s| - 1 + need
    requires forall k :: 0 <= k < |at| - 1 ==> at[k + 1] < at[k]
    requires (forall k :: 0 < k < |at| - 1 ==> at[k] >= limit) && at[|at| - 1] < limit
    ensures EvalLoop(prims, body, true, limit, at[0], s[0], loops, fuel) == Done(s[|s| - 1])
    decreases |s|
  {
    PlusTurn(prims, body, limit, at[0], at[1], s[0], s[1], loops, need, fuel);
    if |s| > 2 {
      SteppedRest(prims, body, at, s, loops, need);
      DownTurns(prims, body, limit, at[1..], s[1..], loops, need, fuel - 1);
    }
  }

  // ----- Loops that leave their index -----

  /** n numbers, each a step from the one before. */
  function Steps(first: int, step: int, n: nat): seq<int> { seq(n, k => first + k * step) }

  const IndexBody := Seq(Index(0), Empty)

  function StepBody(step: int): Block { Seq(Index(0), Seq(Lit(step), Empty)) }

  /** first up to the limit, without it. */
  lemma IndexLoop(prims: Prims, limit: int, first: int, ds: seq<int>, loops: seq<int>, fuel: nat)
    requires IsCell(limit) && IsCell(first) && first < limit && fuel >= limit - first
    ensures EvalLoop(prims, IndexBody, false, limit, first, ds, loops, fuel) == Done(ds + Steps(first, 1, limit - first))
  {
    var s := seq(limit - first + 1, (k: int) requires k >= 0 => ds + Steps(first, 1, k));
    forall k | 0 <= k < limit - first
      ensures Takes(prims, IndexBody, s[k], s[k + 1], first + k, loops, 0)
    {
      LeavesIndex(prims, first + k, s[k], loops);
      assert s[k] + [first + k] == s[k + 1];
    }
    LoopTurns(prims, IndexBody, limit, first, s, loops, 0, fuel);
    assert s[0] == ds;
  }

  lemma LeavesIndex(prims: Prims, index: int, ds: seq<int>, loops: seq<int>)
    ensures Takes(prims, IndexBody, ds, ds + [index], index, loops, 0)
  {
    forall fuel: nat ensures EvalBlock(prims, IndexBody, ds, [index] + loops, fuel) == Done(ds + [index]) {
      assert Eval(prims, Index(0), ds, [index] + loops, fuel) == Done(ds + [index]);
    }
  }

  lemma LeavesStep(prims: Prims, index: int, step: int, ds: seq<int>, loops: seq<int>)
    ensures Takes(prims, StepBody(step), ds, ds + [index] + [step], index, loops, 0)
  {
    forall fuel: nat ensures EvalBlock(prims, StepBody(step), ds, [index] + loops, fuel) == Done(ds + [index] + [step]) {
      assert Eval(prims, Index(0), ds, [index] + loops, fuel) == Done(ds + [index]);
      assert Eval(prims, Lit(step), ds + [index], [index] + loops, fuel) == Done(ds + [index] + [step]);
      assert EvalBlock(prims, Seq(Lit(step), Empty), ds + [index], [index] + loops, fuel) == Done(ds + [index] + [step]);
    }
  }

  /** The indices of n turns by this step: all behind the first are short of the limit, and the
      next is not. */
  predicate EndsAfter(limit: int, first: int, step: int, n: nat) {
    && n > 0 && IsCell(first) && IsCell(first + n * step)
    && if step < 0 then (n > 1 ==> first + (n - 1) * step >= limit) && first + n * step < limit
       else (n > 1 ==> first + (n - 1) * step < limit) && first + n * step >= limit
  }

  lemma {:induction false} IndexSteps(prims: Prims, limit: int, first: int, step: int, n: nat, ds: seq<int>, loops: seq<int>, fuel: nat)
    requires step != 0 && EndsAfter(limit, first, step, n) && fuel >= n
    ensures EvalLoop(prims, StepBody(step), true, limit, first, ds, loops, fuel) == Done(ds + Steps(first, step, n))
    decreases n
  {
    var next := first + step;
    LeavesStep(prims, first, step, ds, loops);
    NextStep(limit, first, step, n);
    assert next - first == step;
    PlusTurn(prims, StepBody(step), limit, first, next, ds, ds + [first], loops, 0, fuel);
    StepsRest(first, step, n);
    if n > 1 {
      IndexSteps(prims, limit, next, step, n - 1, ds + [first], loops, fuel - 1);
      assert ds + [first] + Steps(next, step, n - 1) == ds + Steps(first, step, n);
    } else {
      assert Steps(first, step, 1) == [first];
    }
  }

  lemma NextStep(limit: int, first: int, step: int, n: nat)
    requires step != 0 && EndsAfter(limit, first, step, n)
    ensures IsCell(first + step) && (n > 1 ==> EndsAfter(limit, first + step, step, n - 1))
    ensures (if step < 0 then first + step < limit else first + step >= limit) <==> n == 1
  {
    var m := n - 1;
    assert first + n * step == first + step + m * step;
    if n == 1 {
    } else if n == 2 {
    } else {
      var l := n - 2;
      assert first + m * step == first + step + l * step;
      if step < 0 { assert l * step < 0 && m * step < 0; } else { assert l * step > 0 && m * step > 0; }
    }
  }

  lemma StepsRest(first: int, step: int, n: nat)
    requires n > 0
    ensures Steps(first, step, n) == [first] + Steps(first + step, step, n - 1)
  {
    var a, b := Steps(first, step, n), [first] + Steps(first + step, step, n - 1);
    forall k | 0 <= k < n ensures a[k] == b[k] {
      if k > 0 { assert first + k * step == first + step + (k - 1) * step; }
    }
  }

  // ----- UNTIL, IF and CASE -----

  /** The body takes each stack of `s` to the next and leaves a flag on top. */
  ghost predicate Flagged(prims: Prims, body: Block, flags: seq<int>, s: seq<seq<int>>, loops: seq<int>, need: nat) {
    |s| == |flags| + 1 && forall k, fuel: nat :: 0 <= k < |flags| && fuel >= need ==>
      EvalBlock(prims, body, s[k], loops, fuel) == Done(s[k + 1] + [flags[k]])
  }

  /** It runs up to the first flag that is not zero. */
  lemma {:induction false} UntilTurns(prims: Prims, body: Block, flags: seq<int>, s: seq<seq<int>>, loops: seq<int>, need: nat, fuel: nat)
    requires Flagged(prims, body, flags, s, loops, need) && flags != [] && fuel >= |flags| + need
    requires (forall k :: 0 <= k < |flags| - 1 ==> flags[k] == 0) && flags[|flags| - 1] != 0
    ensures Eval(prims, Until(body), s[0], loops, fuel) == Done(s[|flags|])
    decreases |flags|
  {
    var d := s[1] + [flags[0]];
    assert EvalBlock(prims, body, s[0], loops, fuel) == Done(d);
    assert Top(d) == flags[0] && Popped(d, 1) == s[1];
    if |flags| > 1 {
      var flags', s' := flags[1..], s[1..];
      forall k, f: nat | 0 <= k < |flags'| && f >= need
        ensures EvalBlock(prims, body, s'[k], loops, f) == Done(s'[k + 1] + [flags'[k]])
      {
        assert EvalBlock(prims, body, s[k + 1], loops, f) == Done(s[k + 1 + 1] + [flags[k + 1]]);
      }
      UntilTurns(prims, body, flags', s', loops, need, fuel - 1);
    }
  }

  function IfBlock(x: int, yes: int, no: int): Block {
    Seq(Lit(x), Seq(IfElse(Seq(Lit(yes), Empty), Seq(Lit(no), Empty)), Empty))
  }

  /** Any flag but zero takes the first branch. */
  lemma IfTakes(prims: Prims, x: int, yes: int, no: int, ds: seq<int>)
    ensures EvalBlock(prims, IfBlock(x, yes, no), ds, [], 0) == Done(ds + [if x != 0 then yes else no])
  {
    var d, s, v := ds + [x], IfElse(Seq(Lit(yes), Empty), Seq(Lit(no), Empty)), if x != 0 then yes else no;
    assert Popped(d, 1) == ds && Top(d) == x;
    assert Eval(prims, Lit(v), ds, [], 0) == Done(ds + [v]);
    assert EvalBlock(prims, Seq(Lit(v), Empty), ds, [], 0) == Done(ds + [v]);
    assert EvalBlock(prims, Seq(s, Empty), d, [], 0) == Done(ds + [v]);
  }

  /** key OF value ENDOF, for all pairs from k on. */
  function KeyArms(pairs: seq<(int, int)>, k: nat): Arms
    requires k <= |pairs|
    decreases |pairs| - k
  {
    if k == |pairs| then NoArms
    else Arm(Seq(Lit(pairs[k].0), Empty), Seq(Lit(pairs[k].1), Empty), false, KeyArms(pairs, k + 1))
  }

  /** The arm taken is the first with the key; without one the selector is left to be dropped. */
  lemma {:induction false} ArmsTake(prims: Prims, pairs: seq<(int, int)>, k: nat, x: int, ds: seq<int>)
    requires k <= |pairs|
    ensures var o := EvalArms(prims, KeyArms(pairs, k), ds + [x], [], 0);
            && (forall j :: k <= j < |pairs| && pairs[j].0 == x && (forall i :: k <= i < j ==> pairs[i].0 != x) ==>
                  o == Chosen(Done(ds + [pairs[j].1])))
            && ((forall i :: k <= i < |pairs| ==> pairs[i].0 != x) ==> o == NoneChosen(ds + [x]))
    decreases |pairs| - k
  {
    if k < |pairs| {
      var (key, value) := pairs[k];
      var d := ds + [x] + [key];
      var arms := KeyArms(pairs, k);
      assert Eval(prims, Lit(key), ds + [x], [], 0) == Done(d);
      assert EvalBlock(prims, arms.test, ds + [x], [], 0) == Done(d);
      assert Top(d) == key && d[|d| - 2] == x && Popped(d, 2) == ds && Popped(d, 1) == ds + [x];
      if key == x {
        assert Eval(prims, Lit(value), ds, [], 0) == Done(ds + [value]);
        assert EvalBlock(prims, arms.body, ds, [], 0) == Done(ds + [value]);
        assert EvalBodies(prims, arms, ds, [], 0) == Done(ds + [value]);
      } else {
        ArmsTake(prims, pairs, k + 1, x, ds);
      }
    }
  }

  function CaseBlock(x: int, pairs: seq<(int, int)>): Block { Seq(Lit(x), Seq(Case(KeyArms(pairs, 0), Empty), Empty)) }

  /** With the selector dropped in either case. */
  lemma CaseTakes(prims: Prims, x: int, pairs: seq<(int, int)>, ds: seq<int>)
    ensures var o := EvalBlock(prims, CaseBlock(x, pairs), ds, [], 0);
            && (forall j :: 0 <= j < |pairs| && pairs[j].0 == x && (forall i :: 0 <= i < j ==> pairs[i].0 != x) ==> o == Done(ds + [pairs[j].1]))
            && ((forall i :: 0 <= i < |pairs| ==> pairs[i].0 != x) ==> o == Done(ds))
  {
    var s, d := Case(KeyArms(pairs, 0), Empty), ds + [x];
    ArmsTake(prims, pairs, 0, x, ds);
    assert Eval(prims, Lit(x), ds, [], 0) == Done(d);
    assert EvalBlock(prims, Seq(s, Empty), d, [], 0) == Eval(prims, s, d, [], 0);
    assert Popped(d, 1) == ds && EvalBlock(prims, Empty, d, [], 0) == Done(d);
  }

  // ----- Whole loops -----

  /** limit first DO body LOOP, or with ?DO and +LOOP. */
  function LoopBlock(maybe: bool, limit: int, first: int, body: Block, plus: bool): Block {
    Seq(Lit(limit), Seq(Lit(first), Seq(Do(maybe, body, plus), Empty)))
  }

  /** ?DO leaves an empty loop alone; otherwise both run it from its first index. */
  lemma BlockIsLoop(prims: Prims, maybe: bool, limit: int, first: int, body: Block, plus: bool, ds: seq<int>, fuel: nat)
    ensures var o := EvalLoop(prims, body, plus, limit, first, ds, [], fuel);
            EvalBlock(prims, LoopBlock(maybe, limit, first, body, plus), ds, [], fuel) ==
            if maybe && limit == first then Done(ds) else o
  {
    var d := ds + [limit] + [first];
    assert Top(d) == first && d[|d| - 2] == limit && Popped(d, 2) == ds;
    var s := Do(maybe, body, plus);
    var o := Eval(prims, s, d, [], fuel);
    assert o == if maybe && limit == first then Done(ds) else EvalLoop(prims, body, plus, limit, first, ds, [], fuel);
    assert EvalBlock(prims, Seq(s, Empty), d, [], fuel) == o;
    assert EvalBlock(prims, Seq(Lit(first), Seq(s, Empty)), ds + [limit], [], fuel) == o;
  }
}
