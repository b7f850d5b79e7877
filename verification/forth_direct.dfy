/** What the jump-to-jump optimisation is for: a branch that has been looked at goes where it
    settles at once, unless it settles nowhere. */
module ForthDirect {
  import opened ForthCode
  import opened ForthMachine
  import opened ForthPeephole
  import opened ForthSelfMod

  /** From x on branches are followed for ever. */
  ghost predicate Nowhere(code: seq<Cell>, x: int)
    requires WellFormed(code)
  {
    forall q :: !Settles(code, x, q)
  }

  ghost predicate Final(code: seq<Cell>, x: int)
    requires WellFormed(code)
  {
    !GotoAt(code, x) || Nowhere(code, x)
  }

  predicate LookedAt(code: seq<Cell>, j: int) { 0 <= j < |code| && IsJump(code[j]) && !IsCheck(code[j]) }

  ghost predicate DirectAt(code: seq<Cell>, j: int)
    requires WellFormed(code)
  {
    HasOperand(code, j) && Final(code, Destination(code, j))
  }

  /** Every branch looked at, but these, goes where it settles or settles nowhere. */
  ghost predicate DirectBut(code: seq<Cell>, ex: set<int>)
    requires WellFormed(code)
  {
    forall j :: LookedAt(code, j) && j !in ex ==> DirectAt(code, j)
  }

  ghost predicate Direct(code: seq<Cell>)
    requires WellFormed(code)
  {
    DirectBut(code, {})
  }

  // ----- Cycles -----

  lemma {:induction false} ChaseAdd(code: seq<Cell>, x: int, a: nat, b: nat)
    requires WellFormed(code)
    ensures Chase(code, x, a + b) == Chase(code, Chase(code, x, a), b)
    decreases a
  {
    if a > 0 && GotoAt(code, x) { ChaseAdd(code, Destination(code, x), a - 1, b); }
  }

  lemma {:induction false} CycleGoto(code: seq<Cell>, d: int, m: nat, ip: int, n: nat)
    requires WellFormed(code) && Chase(code, d, m) == ip && GotoAt(code, ip) && HasOperand(code, ip) && Destination(code, ip) == d
    ensures GotoAt(code, Chase(code, d, n))
    decreases n
  {
    if n <= m {
      ChaseAdd(code, d, n, m - n);
    } else {
      ChaseAdd(code, d, m, 1);
      assert Chase(code, ip, 1) == Chase(code, d, 0);
      ChaseAdd(code, d, m + 1, n - m - 1);
      CycleGoto(code, d, m, ip, n - m - 1);
    }
  }

  lemma CycleNowhere(code: seq<Cell>, d: int, m: nat, ip: int)
    requires WellFormed(code) && Chase(code, d, m) == ip && GotoAt(code, ip) && HasOperand(code, ip) && Destination(code, ip) == d
    ensures Nowhere(code, d)
  {
    forall q ensures !Settles(code, d, q) {
      if Settles(code, d, q) {
        var n: nat :| Chase(code, d, n) == q;
        CycleGoto(code, d, m, ip, n);
      }
    }
  }

  // ----- What equivalent code keeps -----

  lemma FinalSame(code': seq<Cell>, code: seq<Cell>, x: int)
    requires Equivalent(code', code)
    ensures Final(code', x) <==> Final(code, x)
    ensures Nowhere(code', x) <==> Nowhere(code, x)
  {
    GotoSame(code', code, x);
    assert SameSettling(code', x, code, x);
    if Nowhere(code, x) {
      forall q ensures !Settles(code', x, q) { assert !Settles(code, x, q); }
    }
    if Nowhere(code', x) {
      forall q ensures !Settles(code, x, q) { assert !Settles(code', x, q); }
    }
  }

  lemma NowhereNext(code: seq<Cell>, x: int)
    requires WellFormed(code) && GotoAt(code, x) && HasOperand(code, x) && Nowhere(code, x)
    ensures Nowhere(code, Destination(code, x))
  {
    forall q ensures !Settles(code, Destination(code, x), q) { SettlesNext(code, x, q); }
  }

  lemma MarkedBut(code: seq<Cell>, ip: int, ex: set<int>)
    requires WellFormed(code) && DirectBut(code, ex) && 0 <= ip < |code| && IsCheck(code[ip])
    ensures WellFormed(Unchecked(code, ip)) && DirectBut(Unchecked(code, ip), ex + {ip})
  {
    var c := Unchecked(code, ip);
    UncheckedOk(code, ip);
    UncheckedEquivalent(code, ip);
    forall j | LookedAt(c, j) && j !in ex + {ip} ensures DirectAt(c, j) {
      assert LookedAt(code, j) && DirectAt(code, j) && JumpOk(code, j);
      FinalSame(c, code, Destination(code, j));
    }
  }

  lemma ShortenedDirect(r: seq<Cell>, ip: int, ex: set<int>)
    requires Shortens(r, ip) && DirectBut(r, ex + {ip}) && Final(r, Destination(r, Destination(r, ip)))
    ensures WellFormed(Shortened(r, ip)) && DirectBut(Shortened(r, ip), ex)
  {
    var c, t := Shortened(r, ip), Destination(r, Destination(r, ip));
    RetargetedOk(r, ip, t);
    ShortenedEquivalent(r, ip);
    forall j | LookedAt(c, j) && j !in ex ensures DirectAt(c, j) {
      if j == ip {
        FinalSame(c, r, t);
      } else {
        assert LookedAt(r, j) && DirectAt(r, j) && JumpOk(r, j);
        FinalSame(c, r, Destination(r, j));
      }
    }
  }

  // ----- Along the recursion -----

  ghost predicate LeadsTo(code: seq<Cell>, x: int, y: int)
    requires WellFormed(code)
  {
    exists n: nat :: Chase(code, x, n) == y
  }

  /** The branches the recursion has marked on its way to ip: their targets are not final yet. */
  ghost predicate OnWay(code: seq<Cell>, ip: int, ex: set<int>)
    requires WellFormed(code)
  {
    && (forall e :: e in ex && GotoAt(code, e) ==> LeadsTo(code, e, ip))
    && (ex != {} ==> GotoAt(code, ip))
  }

  lemma NextOnWay(code: seq<Cell>, ip: int, ex: set<int>, marked: seq<Cell>, d: int)
    requires WellFormed(code) && OnWay(code, ip, ex) && 0 <= ip < |code| && IsCheck(code[ip]) && marked == Unchecked(code, ip)
    requires WellFormed(marked) && HasOperand(marked, ip) && d == Destination(marked, ip) && GotoAt(marked, d)
    ensures OnWay(marked, d, ex + {ip})
  {
    forall e | e in ex + {ip} && GotoAt(marked, e) ensures LeadsTo(marked, e, d) {
      var n: nat := 0;
      if e != ip {
        assert GotoAt(code, e) && LeadsTo(code, e, ip);
        n :| Chase(code, e, n) == ip;
      }
      ChaseUnchecked(code, ip, e, n);
      ChaseAdd(marked, e, n, 1);
      assert Chase(marked, ip, 1) == Chase(marked, d, 0);
      assert Chase(marked, e, n + 1) == d;
    }
  }

  /** A target that is itself on the way closes a cycle. */
  lemma BackOnWay(code: seq<Cell>, ip: int, ex: set<int>, d: int)
    requires WellFormed(code) && OnWay(code, ip, ex) && 0 <= ip < |code| && IsJump(code[ip]) && HasOperand(code, ip)
    requires d == Destination(code, ip) && GotoAt(code, d) && d in ex + {ip}
    ensures Nowhere(code, d)
  {
    var m: nat := 0;
    if d != ip {
      assert LeadsTo(code, d, ip);
      m :| Chase(code, d, m) == ip;
    }
    CycleNowhere(code, d, m, ip);
  }

  lemma TargetFinal(code: seq<Cell>, ip: int, ex: set<int>, marked: seq<Cell>, d: int, r: seq<Cell>)
    requires WellFormed(code) && OnWay(code, ip, ex) && 0 <= ip < |code| && IsCheck(code[ip]) && marked == Unchecked(code, ip)
    requires WellFormed(marked) && HasOperand(marked, ip) && d == Destination(marked, ip) && GotoAt(marked, d)
    requires Equivalent(r, marked) && DirectBut(r, ex + {ip}) && LookedAt(r, d)
    ensures HasOperand(r, d) && Final(r, Destination(r, d))
  {
    assert JumpOk(r, d);
    if d in ex + {ip} {
      UncheckedOk(code, ip);
      UncheckedEquivalent(code, ip);
      GotoSame(marked, code, d);
      BackOnWay(code, ip, ex, d);
      FinalSame(marked, code, d);
      FinalSame(r, marked, d);
      GotoSame(r, marked, d);
      NowhereNext(r, d);
    } else {
      assert DirectAt(r, d);
    }
  }

  lemma {:induction false} OptimizedDirectBut(code: seq<Cell>, ip: int, ex: set<int>)
    requires WellFormed(code) && DirectBut(code, ex) && OnWay(code, ip, ex)
    ensures DirectBut(Optimized(code, ip), ex)
    decreases CheckSet(code)
  {
    if 0 <= ip < |code| && IsCheck(code[ip]) {
      UncheckedOk(code, ip);
      MarkedBut(code, ip, ex);
      var marked := Unchecked(code, ip);
      var d := Destination(marked, ip);
      if IsGoto(marked[d]) {
        assert ip in CheckSet(code);
        var r := Optimized(marked, d);
        NextOnWay(code, ip, ex, marked, d);
        OptimizedDirectBut(marked, d, ex + {ip});
        OptimizedEquivalent(marked, d);
        GotoSame(r, marked, d);
        TargetFinal(code, ip, ex, marked, d, r);
        StillShortens(r, marked, ip, d);
        ShortenedDirect(r, ip, ex);
      } else {
        assert DirectAt(marked, ip);
      }
    }
  }

  /** One call keeps it so, and the branch it is called for is one of them. */
  lemma OptimizedDirect(code: seq<Cell>, ip: int)
    requires WellFormed(code) && Direct(code)
    ensures Direct(Optimized(code, ip))
    ensures 0 <= ip < |code| && IsJump(code[ip]) ==> DirectAt(Optimized(code, ip), ip)
  {
    OptimizedDirectBut(code, ip, {});
    if 0 <= ip < |code| && IsJump(code[ip]) {
      assert TunedCell(code, ip, Optimized(code, ip)[ip]);
      assert LookedAt(Optimized(code, ip), ip);
    }
  }

  /** And all along a run: a branch that has been taken goes where it settles. */
  lemma {:induction false} SelfAfterDirect(prims: Prims, s: SelfRun, k: nat)
    requires WellFormed(s.code) && Direct(s.code)
    ensures Direct(SelfAfter(prims, s, k).code)
    decreases k
  {
    if k > 0 {
      if s.r.Running? { OptimizedDirect(s.code, s.r.m.ip); }
      SelfAfterDirect(prims, SelfStep(prims, s), k - 1);
    }
  }
}
