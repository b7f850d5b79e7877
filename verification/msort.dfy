/** The generic list sort of the generator (msort and merge), which relinks a singly
    linked list in place.  Thirty bins work as a binary counter: bin i is empty or holds
    a sorted list of 2^i nodes. */
module MergeSort {
  import opened Words

  // ----- What sorting means -----

  predicate Less<T>(cmp: (T, T) -> int, a: T, b: T) { cmp(a, b) < 0 }

  /** "Not greater" is total and transitive. */
  ghost predicate TotalPreorder<T(!new)>(cmp: (T, T) -> int) {
    && (forall a, b :: !(Less(cmp, a, b) && Less(cmp, b, a)))
    && (forall a, b, c :: !Less(cmp, b, a) && !Less(cmp, c, b) ==> !Less(cmp, c, a))
  }

  ghost predicate Sorted<T>(cmp: (T, T) -> int, s: seq<T>) {
    forall i, j :: 0 <= i < j < |s| ==> !Less(cmp, s[j], s[i])
  }

  /** The elements that compare equal to x, in order. */
  ghost function Class<T>(cmp: (T, T) -> int, s: seq<T>, x: T): seq<T> {
    if s == [] then []
    else (if Less(cmp, s[0], x) || Less(cmp, x, s[0]) then [] else [s[0]]) + Class(cmp, s[1..], x)
  }

  /** Put x in front of everything that is not smaller. */
  function Insert<T>(cmp: (T, T) -> int, x: T, s: seq<T>): seq<T> {
    if s != [] && Less(cmp, s[0], x) then [s[0]] + Insert(cmp, x, s[1..]) else [x] + s
  }

  /** The stable sort, by insertion. */
  function StableSort<T>(cmp: (T, T) -> int, s: seq<T>): seq<T> {
    if s == [] then [] else Insert(cmp, s[0], StableSort(cmp, s[1..]))
  }

  lemma {:induction false} InsertPermutes<T>(cmp: (T, T) -> int, x: T, s: seq<T>)
    ensures multiset(Insert(cmp, x, s)) == multiset([x] + s)
  {
    if s != [] && Less(cmp, s[0], x) {
      InsertPermutes(cmp, x, s[1..]);
      assert s == [s[0]] + s[1..];
    }
  }

  lemma {:induction false} InsertSorted<T(!new)>(cmp: (T, T) -> int, x: T, s: seq<T>)
    requires TotalPreorder(cmp) && Sorted(cmp, s)
    ensures Sorted(cmp, Insert(cmp, x, s))
  {
    if s != [] && Less(cmp, s[0], x) {
      var rest := Insert(cmp, x, s[1..]);
      InsertSorted(cmp, x, s[1..]);
      InsertPermutes(cmp, x, s[1..]);
      forall j | 0 <= j < |rest|
        ensures !Less(cmp, rest[j], s[0])
      {
        assert rest[j] in multiset(rest);
        assert rest[j] in multiset([x] + s[1..]);
      }
    } else if s != [] {
      assert forall j :: 0 < j < |s| ==> !Less(cmp, s[j], s[0]);
    }
  }

  lemma {:induction false} InsertKeepsClass<T(!new)>(cmp: (T, T) -> int, x: T, s: seq<T>, y: T)
    requires TotalPreorder(cmp)
    ensures Class(cmp, Insert(cmp, x, s), y) == Class(cmp, [x] + s, y)
  {
    assert ([x] + s)[1..] == s;
    if s != [] && Less(cmp, s[0], x) {
      var rest := Insert(cmp, x, s[1..]);
      InsertKeepsClass(cmp, x, s[1..], y);
      assert ([s[0]] + rest)[1..] == rest && ([x] + s[1..])[1..] == s[1..];
    }
  }

  lemma {:induction false} StableSortSorted<T(!new)>(cmp: (T, T) -> int, s: seq<T>)
    requires TotalPreorder(cmp)
    ensures Sorted(cmp, StableSort(cmp, s))
  {
    if s != [] {
      StableSortSorted(cmp, s[1..]);
      InsertSorted(cmp, s[0], StableSort(cmp, s[1..]));
    }
  }

  lemma {:induction false} StableSortPermutes<T>(cmp: (T, T) -> int, s: seq<T>)
    ensures multiset(StableSort(cmp, s)) == multiset(s) && |StableSort(cmp, s)| == |s|
  {
    if s != [] {
      var rest := StableSort(cmp, s[1..]);
      StableSortPermutes(cmp, s[1..]);
      InsertPermutes(cmp, s[0], rest);
      assert s == [s[0]] + s[1..];
      assert |StableSort(cmp, s)| == |multiset(StableSort(cmp, s))| == |multiset(s)| == |s|;
    }
  }

  /** Elements that compare equal keep their order. */
  lemma {:induction false} StableSortIsStable<T(!new)>(cmp: (T, T) -> int, s: seq<T>, y: T)
    requires TotalPreorder(cmp)
    ensures Class(cmp, StableSort(cmp, s), y) == Class(cmp, s, y)
  {
    if s != [] {
      var rest := StableSort(cmp, s[1..]);
      StableSortIsStable(cmp, s[1..], y);
      InsertKeepsClass(cmp, s[0], rest, y);
      assert ([s[0]] + rest)[1..] == rest;
    }
  }

  ghost predicate NoRepeats<T>(s: seq<T>) {
    forall i, j :: 0 <= i < j < |s| ==> s[i] != s[j]
  }

  lemma {:induction false} CountedOnce<T>(s: seq<T>, x: T)
    ensures (forall i, j :: 0 <= i < j < |s| && s[i] == x ==> s[j] != x) <==> multiset(s)[x] <= 1
  {
    if s != [] {
      var rest := s[1..];
      CountedOnce(rest, x);
      assert s == [s[0]] + rest;
      assert multiset(s) == multiset([s[0]]) + multiset(rest);
      if s[0] == x {
        assert x in rest <==> multiset(rest)[x] > 0;
        if x in rest { var j :| 0 <= j < |rest| && rest[j] == x; assert s[j + 1] == x; }
      } else {
        forall i, j | 0 <= i < j < |s| && s[i] == x ensures rest[i - 1] == x && rest[j - 1] == s[j] {}
        forall i, j | 0 <= i < j < |rest| && rest[i] == x ensures s[i + 1] == x && rest[j] == s[j + 1] {}
      }
    }
  }

  /** A permutation of a list without repetitions has none. */
  lemma PermutedNoRepeats<T>(s: seq<T>, t: seq<T>)
    requires NoRepeats(s) && multiset(t) == multiset(s)
    ensures NoRepeats(t)
  {
    forall i, j | 0 <= i < j < |t|
      ensures t[i] != t[j]
    {
      CountedOnce(s, t[i]);
      CountedOnce(t, t[i]);
    }
  }

  // ----- Merging -----

  /** merge as coded: a goes first only when strictly smaller, so b's elements count as
      the earlier ones. */
  function Merged<T>(cmp: (T, T) -> int, a: seq<T>, b: seq<T>): seq<T> {
    if a == [] then b
    else if b == [] then a
    else if Less(cmp, a[0], b[0]) then [a[0]] + Merged(cmp, a[1..], b)
    else [b[0]] + Merged(cmp, a, b[1..])
  }

  lemma {:induction false} MergedInsert<T(!new)>(cmp: (T, T) -> int, a: seq<T>, x: T, b: seq<T>)
    requires TotalPreorder(cmp) && Sorted(cmp, a) && Sorted(cmp, b)
    ensures Merged(cmp, a, Insert(cmp, x, b)) == Insert(cmp, x, Merged(cmp, a, b))
    decreases |a| + |b|
  {
    var ins := Insert(cmp, x, b);
    if a == [] {
    } else if b == [] {
      assert ins == [x] && ins[1..] == [];
      if Less(cmp, a[0], x) {
        MergedInsert(cmp, a[1..], x, b);
        assert Merged(cmp, a[1..], b) == a[1..];
      }
    } else if Less(cmp, b[0], x) {
      assert ins[0] == b[0] && ins[1..] == Insert(cmp, x, b[1..]);
      var m := Merged(cmp, a, b);
      if Less(cmp, a[0], b[0]) {
        MergedInsert(cmp, a[1..], x, b);
        assert m[1..] == Merged(cmp, a[1..], b);
        assert Less(cmp, a[0], x);
      } else {
        MergedInsert(cmp, a, x, b[1..]);
        assert m[1..] == Merged(cmp, a, b[1..]);
      }
    } else {
      assert ins[0] == x && ins[1..] == b;
      var m := Merged(cmp, a, b);
      if Less(cmp, a[0], x) {
        MergedInsert(cmp, a[1..], x, b);
        assert Less(cmp, a[0], b[0]);
        assert m[1..] == Merged(cmp, a[1..], b);
      }
    }
  }

  /** Merging the sorted newer part into the sorted older part sorts the whole, stably. */
  lemma {:induction false} MergeOfSorted<T(!new)>(cmp: (T, T) -> int, newer: seq<T>, older: seq<T>)
    requires TotalPreorder(cmp)
    ensures Merged(cmp, StableSort(cmp, newer), StableSort(cmp, older)) == StableSort(cmp, older + newer)
  {
    if older == [] {
      assert older + newer == newer;
    } else {
      MergeOfSorted(cmp, newer, older[1..]);
      StableSortSorted(cmp, newer);
      StableSortSorted(cmp, older[1..]);
      MergedInsert(cmp, StableSort(cmp, newer), older[0], StableSort(cmp, older[1..]));
      assert (older + newer)[1..] == older[1..] + newer;
    }
  }

  // ----- The linked lists -----

  class Node<T> {
    const data: T
    var next: Node?<T>

    constructor (data: T) {
      this.data := data;
      next := null;
    }
  }

  /** The nodes s, linked in this order, form the null-terminated list at head. */
  ghost predicate IsList<T>(head: Node?<T>, s: seq<Node<T>>)
    reads s
  {
    && (s == [] <==> head == null)
    && (s != [] ==> head == s[0] && s[|s| - 1].next == null)
    && (forall i :: 0 <= i < |s| - 1 ==> s[i].next == s[i + 1])
  }

  ghost predicate Apart<T>(a: seq<T>, b: seq<T>) {
    forall i, j :: 0 <= i < |a| && 0 <= j < |b| ==> a[i] != b[j]
  }

  /** All of these lists are free of repeats and of common nodes. */
  ghost predicate Separate<T>(a: seq<T>, b: seq<T>, c: seq<T>) {
    && NoRepeats(a) && NoRepeats(b) && NoRepeats(c)
    && Apart(a, b) && Apart(a, c) && Apart(b, c)
  }

  ghost function Data<T>(s: seq<Node<T>>): seq<T> {
    seq(|s|, i requires 0 <= i < |s| => s[i].data)
  }

  lemma DataConcat<T>(a: seq<Node<T>>, b: seq<Node<T>>)
    ensures Data(a + b) == Data(a) + Data(b)
  {
  }

  /** The nodes of a merge under way: `done` is behind ptr, the rests are in front. */
  ghost predicate Merging<T>(cmp: (T, T) -> int, all: multiset<Node<T>>, goal: seq<T>,
                             done: seq<Node<T>>, ra: seq<Node<T>>, rb: seq<Node<T>>) {
    && done != [] && Separate(done, ra, rb)
    && multiset(done) + multiset(ra) + multiset(rb) == all
    && Data(done) + Merged(cmp, Data(ra), Data(rb)) == goal
  }

  /** The head of one rest goes to what is done. */
  lemma StepApart<T>(done: seq<T>, rx: seq<T>, ry: seq<T>, both: multiset<T>)
    requires Separate(done, rx, ry) && rx != [] && multiset(done) + multiset(rx) == both
    ensures Separate(done + [rx[0]], rx[1..], ry)
    ensures multiset(done + [rx[0]]) + multiset(rx[1..]) == both
  {
    assert rx == [rx[0]] + rx[1..];
  }

  lemma StepData<T>(done: seq<Node<T>>, rx: seq<Node<T>>, merged: seq<T>, rest: seq<T>)
    requires rx != [] && (Data(rx)[0] == rx[0].data && Data(rx)[1..] == Data(rx[1..]) ==> merged == [rx[0].data] + rest)
    ensures Data(done + [rx[0]]) + rest == Data(done) + merged
  {
    DataConcat(done, [rx[0]]);
    assert Data([rx[0]]) == [rx[0].data];
  }

  lemma MergingLeft<T>(cmp: (T, T) -> int, all: multiset<Node<T>>, goal: seq<T>,
                       done: seq<Node<T>>, ra: seq<Node<T>>, rb: seq<Node<T>>)
    requires Merging(cmp, all, goal, done, ra, rb)
    requires ra != [] && (rb == [] || Less(cmp, ra[0].data, rb[0].data))
    ensures Merging(cmp, all, goal, done + [ra[0]], ra[1..], rb)
  {
    StepApart(done, ra, rb, all - multiset(rb));
    StepData(done, ra, Merged(cmp, Data(ra), Data(rb)), Merged(cmp, Data(ra[1..]), Data(rb)));
  }

  lemma MergingRight<T>(cmp: (T, T) -> int, all: multiset<Node<T>>, goal: seq<T>,
                        done: seq<Node<T>>, ra: seq<Node<T>>, rb: seq<Node<T>>)
    requires Merging(cmp, all, goal, done, ra, rb)
    requires ra != [] && rb != [] && !Less(cmp, ra[0].data, rb[0].data)
    ensures Merging(cmp, all, goal, done + [rb[0]], ra, rb[1..])
  {
    StepApart(done, rb, ra, all - multiset(ra));
    StepData(done, rb, Merged(cmp, Data(ra), Data(rb)), Merged(cmp, Data(ra), Data(rb[1..])));
  }

  lemma MergingEnds<T>(cmp: (T, T) -> int, all: multiset<Node<T>>, goal: seq<T>,
                       done: seq<Node<T>>, ra: seq<Node<T>>, rb: seq<Node<T>>)
    requires Merging(cmp, all, goal, done, ra, rb) && (ra == [] || rb == [])
    ensures multiset(done + ra + rb) == all && Data(done + ra + rb) == goal && NoRepeats(done + ra + rb)
  {
    DataConcat(done + ra, rb);
    DataConcat(done, ra);
    assert ra == [] ==> Data(ra) == [];
    assert rb == [] ==> Data(rb) == [];
  }

  /** `done` is linked up to its last node; what that node points to is left open. */
  ghost predicate Chain<T>(done: seq<Node<T>>)
    reads done
  {
    forall i :: 0 <= i < |done| - 1 ==> done[i].next == done[i + 1]
  }

  /** Link ptr to the head of the list x and step onto it. */
  method Take<T>(ptr: Node<T>, x: Node<T>, ghost done: seq<Node<T>>, ghost rx: seq<Node<T>>, ghost ry: seq<Node<T>>)
    returns (rest: Node?<T>)
    requires done != [] && ptr == done[|done| - 1] && Chain(done) && rx != [] && IsList(x, rx)
    requires Separate(done, rx, ry)
    modifies ptr
    ensures Chain(done + [rx[0]]) && IsList(rest, rx[1..])
    ensures forall n :: n in ry ==> unchanged(n)
  {
    assert x == rx[0] && done[|done| - 1] != rx[0];
    assert |rx| > 1 ==> rx[0].next == rx[1];
    ptr.next := x;
    rest := x.next;
  }

  /** One turn of merge's loop. */
  method Turn<T>(cmp: (T, T) -> int, ghost all: multiset<Node<T>>, ghost goal: seq<T>, a: Node<T>, b: Node<T>, ptr: Node<T>,
                 ghost done: seq<Node<T>>, ghost ra: seq<Node<T>>, ghost rb: seq<Node<T>>)
    returns (a': Node?<T>, b': Node?<T>, ptr': Node<T>,
             ghost done': seq<Node<T>>, ghost ra': seq<Node<T>>, ghost rb': seq<Node<T>>)
    requires Merging(cmp, all, goal, done, ra, rb)
    requires Chain(done) && IsList(a, ra) && IsList(b, rb) && ptr == done[|done| - 1]
    modifies ptr
    ensures Merging(cmp, all, goal, done', ra', rb')
    ensures Chain(done') && IsList(a', ra') && IsList(b', rb') && ptr' == done'[|done'| - 1]
    ensures done'[0] == done[0] && |ra'| + |rb'| < |ra| + |rb|
  {
    if cmp(a.data, b.data) < 0 {
      MergingLeft(cmp, all, goal, done, ra, rb);
      a' := Take(ptr, a, done, ra, rb);
      b', ptr', done', ra', rb' := b, a, done + [ra[0]], ra[1..], rb;
    } else {
      MergingRight(cmp, all, goal, done, ra, rb);
      b' := Take(ptr, b, done, rb, ra);
      a', ptr', done', ra', rb' := a, b, done + [rb[0]], ra, rb[1..];
    }
  }

  /** The end of merge: one list is used up, the other goes behind ptr as it is. */
  method LinkRest<T>(ptr: Node<T>, a: Node?<T>, b: Node?<T>,
                     ghost done: seq<Node<T>>, ghost ra: seq<Node<T>>, ghost rb: seq<Node<T>>)
    requires done != [] && ptr == done[|done| - 1] && Chain(done) && IsList(a, ra) && IsList(b, rb)
    requires Separate(done, ra, rb) && (a == null || b == null)
    modifies ptr
    ensures IsList(done[0], done + ra + rb)
  {
    if a != null {
      ptr.next := a;
    } else {
      ptr.next := b;
    }
  }

  /** The part of merge after its first step: everything goes behind ptr0. */
  method MergeRest<T>(cmp: (T, T) -> int, a0: Node?<T>, b0: Node?<T>, ptr0: Node<T>,
                      ghost sa: seq<Node<T>>, ghost sb: seq<Node<T>>) returns (ghost s: seq<Node<T>>)
    requires IsList(a0, sa) && IsList(b0, sb) && Separate([ptr0], sa, sb)
    modifies ptr0, sa, sb
    ensures IsList(ptr0, s) && NoRepeats(s)
    ensures multiset(s) == multiset([ptr0]) + multiset(sa) + multiset(sb)
    ensures Data(s) == [ptr0.data] + Merged(cmp, Data(sa), Data(sb))
  {
    var a, b, ptr := a0, b0, ptr0;
    ghost var ra, rb, done := sa, sb, [ptr0];
    ghost var all, goal := multiset([ptr0]) + multiset(sa) + multiset(sb), [ptr0.data] + Merged(cmp, Data(sa), Data(sb));
    assert Data(done) == [ptr0.data];
    while a != null && b != null
      invariant Merging(cmp, all, goal, done, ra, rb)
      invariant Chain(done) && IsList(a, ra) && IsList(b, rb)
      invariant done[0] == ptr0 && ptr == done[|done| - 1]
      decreases |ra| + |rb|
    {
      assert ptr in all;
      a, b, ptr, done, ra, rb := Turn(cmp, all, goal, a, b, ptr, done, ra, rb);
    }
    assert ptr in all;
    MergingEnds(cmp, all, goal, done, ra, rb);
    LinkRest(ptr, a, b, done, ra, rb);
    s := done + ra + rb;
  }

  lemma HeadApart<T>(head: Node<T>, s: seq<Node<T>>, other: seq<Node<T>>)
    requires IsList(head, s) && Separate([], s, other)
    ensures s != [] && Separate([s[0]], s[1..], other) && IsList(head.next, s[1..])
    ensures Data(s) == [head.data] + Data(s[1..])
    ensures multiset([s[0]]) + multiset(s[1..]) == multiset(s)
  {
    assert s == [s[0]] + s[1..];
    assert |s| > 1 ==> s[0].next == s[1];
  }

  /** merge: relink two sorted lists into one.  The elements of b count as the earlier ones. */
  method Merge<T>(cmp: (T, T) -> int, a: Node?<T>, b: Node?<T>, ghost sa: seq<Node<T>>, ghost sb: seq<Node<T>>)
    returns (head: Node?<T>, ghost s: seq<Node<T>>)
    requires IsList(a, sa) && IsList(b, sb) && Separate([], sa, sb)
    modifies sa, sb
    ensures IsList(head, s) && NoRepeats(s)
    ensures multiset(s) == multiset(sa) + multiset(sb)
    ensures Data(s) == Merged(cmp, Data(sa), Data(sb))
  {
    if a == null {
      assert Data(sa) == [];
      return b, sb;
    }
    if b == null {
      assert Data(sb) == [];
      return a, sa;
    }
    if cmp(a.data, b.data) < 0 {
      head := a;
      HeadApart(a, sa, sb);
      s := MergeRest(cmp, a.next, b, head, sa[1..], sb);
    } else {
      head := b;
      HeadApart(b, sb, sa);
      s := MergeRest(cmp, a, b.next, head, sa, sb[1..]);
    }
  }

  // ----- The bins -----

  const LISTSIZE: nat := 30

  /** The elements of bins i and up, in the order of the original list: the higher the
      bin, the older its elements. */
  ghost function Older<T>(segs: seq<seq<T>>, i: nat): seq<T>
    requires i <= |segs|
    decreases |segs| - i
  {
    if i == |segs| then [] else Older(segs, i + 1) + segs[i]
  }

  /** Bin i holds segs[i], sorted: nothing or 2^i elements, and no node twice. */
  ghost predicate BinsOk<T>(cmp: (T, T) -> int, bins: seq<seq<Node<T>>>, segs: seq<seq<T>>) {
    && |bins| == |segs| == LISTSIZE
    && (forall i :: 0 <= i < LISTSIZE ==> BinOk(cmp, i, bins[i], segs[i]))
    && (forall i, j :: 0 <= i < j < LISTSIZE ==> Apart(bins[i], bins[j]))
  }

  ghost predicate BinOk<T>(cmp: (T, T) -> int, i: nat, bin: seq<Node<T>>, seg: seq<T>) {
    && NoRepeats(bin) && Data(bin) == StableSort(cmp, seg) && |bin| == |seg|
    && (bin == [] || |bin| == Pow2(i))
  }

  ghost predicate Full<T>(segs: seq<seq<T>>, i: nat) {
    forall j :: i <= j < |segs| ==> segs[j] != []
  }

  lemma FullStep<T>(segs: seq<seq<T>>, i: nat)
    requires i < |segs|
    ensures Full(segs, i) <==> segs[i] != [] && Full(segs, i + 1)
  {
  }

  /** Bins i and up hold at most 2^30 - 2^i elements, and that many only when all are full. */
  lemma {:induction false} Capacity<T>(cmp: (T, T) -> int, bins: seq<seq<Node<T>>>, segs: seq<seq<T>>, i: nat)
    requires BinsOk(cmp, bins, segs) && i <= LISTSIZE
    ensures |Older(segs, i)| <= Pow2(LISTSIZE) - Pow2(i)
    ensures |Older(segs, i)| == Pow2(LISTSIZE) - Pow2(i) <==> Full(segs, i)
    decreases LISTSIZE - i
  {
    if i < LISTSIZE {
      Capacity(cmp, bins, segs, i + 1);
      assert BinOk(cmp, i, bins[i], segs[i]);
      assert |Older(segs, i)| == |Older(segs, i + 1)| + |segs[i]| && Pow2(i + 1) == 2 * Pow2(i);
      FullStep(segs, i);
    }
  }

  lemma {:induction false} OlderUpdate<T>(segs: seq<seq<T>>, i: nat, k: nat, seg: seq<T>)
    requires k < i <= |segs|
    ensures Older(segs[k := seg], i) == Older(segs, i)
    decreases |segs| - i
  {
    if i < |segs| { OlderUpdate(segs, i + 1, k, seg); }
  }

  lemma {:induction false} OlderEmpty<T>(segs: seq<seq<T>>, i: nat, k: nat)
    requires i <= k <= |segs| && forall j :: i <= j < k ==> segs[j] == []
    ensures Older(segs, i) == Older(segs, k)
    decreases k - i
  {
    if i < k { OlderEmpty(segs, i + 1, k); }
  }

  ghost function Nodes<T>(bins: seq<seq<Node<T>>>): set<Node<T>> {
    set i, j | 0 <= i < |bins| && 0 <= j < |bins[i]| :: bins[i][j]
  }

  lemma NodesHold<T>(bins: seq<seq<Node<T>>>, i: nat)
    requires i < |bins|
    ensures forall n :: n in bins[i] ==> n in Nodes(bins)
  {
  }

  ghost predicate Held<T>(heads: array<Node?<T>>, bins: seq<seq<Node<T>>>)
    reads heads, Nodes(bins)
  {
    && heads.Length == |bins|
    && forall i :: 0 <= i < |bins| ==> (assert forall n :: n in bins[i] ==> n in Nodes(bins); IsList(heads[i], bins[i]))
  }

  lemma EmptySort<T>(cmp: (T, T) -> int)
    ensures StableSort(cmp, []) == [] && Data<T>([]) == []
  {
  }

  /** A carried list e of 2^i nodes, with the bins below i empty. */
  ghost predicate CarryOk<T>(cmp: (T, T) -> int, bins: seq<seq<Node<T>>>, segs: seq<seq<T>>,
                             e: seq<Node<T>>, seg: seq<T>, i: nat) {
    && BinsOk(cmp, bins, segs) && i < LISTSIZE
    && (forall j :: 0 <= j < i ==> segs[j] == [])
    && e != [] && BinOk(cmp, i, e, seg)
    && (forall j :: 0 <= j < LISTSIZE ==> Apart(e, bins[j]))
  }

  /** What the bins and the carried list hold together, in the original order. */
  ghost function Carried<T>(segs: seq<seq<T>>, seg: seq<T>): seq<T> {
    Older(segs, 0) + seg
  }

  lemma ApartUnion<T>(e: seq<T>, b: seq<T>, e': seq<T>, other: seq<T>)
    requires multiset(e') == multiset(e) + multiset(b) && Apart(e, other) && Apart(b, other)
    ensures Apart(e', other)
  {
    forall p, q | 0 <= p < |e'| && 0 <= q < |other|
      ensures e'[p] != other[q]
    {
      assert e'[p] in multiset(e');
      assert e'[p] in e || e'[p] in b;
    }
  }

  lemma CarryOrder<T>(segs: seq<seq<T>>, seg: seq<T>, i: nat)
    requires i < |segs| && forall j :: 0 <= j < i ==> segs[j] == []
    ensures Carried(segs[i := []], segs[i] + seg) == Carried(segs, seg)
  {
    var emptied := segs[i := []];
    OlderEmpty(segs, 0, i);
    OlderEmpty(emptied, 0, i + 1);
    OlderUpdate(segs, i + 1, i, []);
  }

  lemma CarrySorted<T(!new)>(cmp: (T, T) -> int, e: seq<Node<T>>, seg: seq<T>, b: seq<Node<T>>, older: seq<T>, i: nat,
                             e': seq<Node<T>>)
    requires TotalPreorder(cmp) && BinOk(cmp, i, e, seg) && BinOk(cmp, i, b, older) && e != [] && b != []
    requires NoRepeats(e') && multiset(e') == multiset(e) + multiset(b)
    requires Data(e') == Merged(cmp, Data(e), Data(b))
    ensures BinOk(cmp, i + 1, e', older + seg)
  {
    MergeOfSorted(cmp, seg, older);
    assert |e'| == |multiset(e')|;
  }

  /** Merging bin i into the carried list. */
  lemma CarryStep<T(!new)>(cmp: (T, T) -> int, bins: seq<seq<Node<T>>>, segs: seq<seq<T>>,
                           e: seq<Node<T>>, seg: seq<T>, i: nat, e': seq<Node<T>>)
    requires TotalPreorder(cmp) && CarryOk(cmp, bins, segs, e, seg, i) && i < LISTSIZE - 1 && bins[i] != []
    requires NoRepeats(e') && multiset(e') == multiset(e) + multiset(bins[i])
    requires Data(e') == Merged(cmp, Data(e), Data(bins[i]))
    ensures CarryOk(cmp, bins[i := []], segs[i := []], e', segs[i] + seg, i + 1)
  {
    assert BinOk(cmp, i, bins[i], segs[i]);
    CarrySorted(cmp, e, seg, bins[i], segs[i], i, e');
    EmptySort(cmp);
    var bins' := bins[i := []];
    forall j | 0 <= j < LISTSIZE
      ensures Apart(e', bins'[j])
    {
      if j != i {
        assert if i < j then Apart(bins[i], bins[j]) else Apart(bins[j], bins[i]);
        ApartUnion(e, bins[i], e', bins[j]);
      }
    }
  }

  /** Storing the carried list in bin i, which loses what a full last bin held. */
  lemma CarryStore<T(!new)>(cmp: (T, T) -> int, bins: seq<seq<Node<T>>>, segs: seq<seq<T>>,
                            e: seq<Node<T>>, seg: seq<T>, i: nat)
    requires CarryOk(cmp, bins, segs, e, seg, i) && (i == LISTSIZE - 1 || bins[i] == [])
    ensures BinsOk(cmp, bins[i := e], segs[i := seg])
    ensures bins[i] == [] ==> Older(segs[i := seg], 0) == Carried(segs, seg)
  {
    OlderEmpty(segs, 0, i);
    OlderEmpty(segs[i := seg], 0, i);
    OlderUpdate(segs, i + 1, i, seg);
    assert BinOk(cmp, i, bins[i], segs[i]);
    if bins[i] == [] {
      calc {
        Older(segs[i := seg], 0);
        Older(segs[i := seg], i + 1) + seg;
        Older(segs, i + 1) + seg;
        { assert Older(segs, i) == Older(segs, i + 1); }
        Older(segs, i) + seg;
      }
    }
  }

  /** The inner loop of msort: add one node to the counter. */
  method AddNode<T(!new)>(cmp: (T, T) -> int, heads: array<Node?<T>>, ep0: Node<T>,
                          ghost bins0: seq<seq<Node<T>>>, ghost segs0: seq<seq<T>>)
    returns (ghost bins: seq<seq<Node<T>>>, ghost segs: seq<seq<T>>)
    requires TotalPreorder(cmp) && BinsOk(cmp, bins0, segs0) && Held(heads, bins0)
    requires ep0.next == null && ep0 !in Nodes(bins0)
    modifies heads, ep0, Nodes(bins0)
    ensures BinsOk(cmp, bins, segs) && Held(heads, bins)
    ensures Nodes(bins) <= Nodes(bins0) + {ep0}
    ensures !Full(segs0, 0) ==> Older(segs, 0) == Older(segs0, 0) + [ep0.data]
  {
    var ep, i := ep0, 0;
    bins, segs := bins0, segs0;
    ghost var e, seg := [ep0], [ep0.data];
    StartCarry(cmp, bins, segs, ep);
    while i < LISTSIZE - 1 && heads[i] != null
      invariant CarryOk(cmp, bins, segs, e, seg, i) && Held(heads, bins) && IsList(ep, e)
      invariant CarryFrom(bins0, segs0, ep0, bins, segs, e, seg, i)
    {
      ep, bins, segs, e, seg := CarryTurn(cmp, heads, i, ep, bins, segs, e, seg, bins0, segs0, ep0);
      i := i + 1;
    }
    bins, segs := StoreCarry(cmp, heads, i, ep, bins, segs, e, seg, bins0, segs0, ep0);
  }

  /** After the loop: the carried list goes into the bin where it stopped. */
  method StoreCarry<T(!new)>(cmp: (T, T) -> int, heads: array<Node?<T>>, i: nat, ep: Node<T>,
                             ghost bins: seq<seq<Node<T>>>, ghost segs: seq<seq<T>>, ghost e: seq<Node<T>>, ghost seg: seq<T>,
                             ghost bins0: seq<seq<Node<T>>>, ghost segs0: seq<seq<T>>, ghost ep0: Node<T>)
    returns (ghost bins': seq<seq<Node<T>>>, ghost segs': seq<seq<T>>)
    requires CarryOk(cmp, bins, segs, e, seg, i) && Held(heads, bins) && IsList(ep, e)
    requires CarryFrom(bins0, segs0, ep0, bins, segs, e, seg, i) && (i == LISTSIZE - 1 || bins[i] == [])
    modifies heads
    ensures BinsOk(cmp, bins', segs') && Held(heads, bins')
    ensures Nodes(bins') <= Nodes(bins0) + {ep0}
    ensures !Full(segs0, 0) ==> Older(segs', 0) == Older(segs0, 0) + [ep0.data]
  {
    assert BinOk(cmp, i, bins[i], segs[i]);
    CarryStore(cmp, bins, segs, e, seg, i);
    StoreFrom(bins0, segs0, ep0, bins, segs, e, seg, i);
    heads[i] := ep;
    bins', segs' := bins[i := e], segs[i := seg];
  }

  /** How far a carry that started with node ep0 has come at bin i. */
  ghost predicate CarryFrom<T>(bins0: seq<seq<Node<T>>>, segs0: seq<seq<T>>, ep0: Node<T>,
                               bins: seq<seq<Node<T>>>, segs: seq<seq<T>>, e: seq<Node<T>>, seg: seq<T>, i: nat) {
    && Carried(segs, seg) == Carried(segs0, [ep0.data])
    && Nodes(bins) + Nodes([e]) <= Nodes(bins0) + {ep0}
    && |segs| == |segs0| && i <= |segs| && segs[i..] == segs0[i..]
    && (forall j :: 0 <= j < i ==> segs0[j] != [])
  }

  lemma CarryNodes<T>(bins0: seq<seq<Node<T>>>, segs0: seq<seq<T>>, ep0: Node<T>,
                      bins: seq<seq<Node<T>>>, segs: seq<seq<T>>, e: seq<Node<T>>, seg: seq<T>, i: nat)
    requires CarryFrom(bins0, segs0, ep0, bins, segs, e, seg, i) && i < |bins|
    ensures forall n :: n in e ==> n in Nodes(bins0) || n == ep0
    ensures forall n :: n in bins[i] ==> n in Nodes(bins0) || n == ep0
  {
    NodesHold([e], 0);
    NodesHold(bins, i);
  }

  lemma StoreFrom<T>(bins0: seq<seq<Node<T>>>, segs0: seq<seq<T>>, ep0: Node<T>,
                     bins: seq<seq<Node<T>>>, segs: seq<seq<T>>, e: seq<Node<T>>, seg: seq<T>, i: nat)
    requires CarryFrom(bins0, segs0, ep0, bins, segs, e, seg, i) && |bins| == |segs| == LISTSIZE && i < LISTSIZE
    requires i < LISTSIZE - 1 ==> segs[i] == []
    ensures Nodes(bins[i := e]) <= Nodes(bins0) + {ep0}
    ensures segs[i] != [] ==> Full(segs0, 0)
  {
    assert segs[i..][0] == segs0[i..][0];
    forall n | n in Nodes(bins[i := e])
      ensures n in Nodes(bins) + Nodes([e])
    {
      NodesHold([e], 0);
    }
  }

  /** One turn of the inner loop. */
  method CarryTurn<T(!new)>(cmp: (T, T) -> int, heads: array<Node?<T>>, i: nat, ep: Node<T>,
                            ghost bins: seq<seq<Node<T>>>, ghost segs: seq<seq<T>>, ghost e: seq<Node<T>>, ghost seg: seq<T>,
                            ghost bins0: seq<seq<Node<T>>>, ghost segs0: seq<seq<T>>, ghost ep0: Node<T>)
    returns (head: Node<T>, ghost bins': seq<seq<Node<T>>>, ghost segs': seq<seq<T>>, ghost e': seq<Node<T>>, ghost seg': seq<T>)
    requires TotalPreorder(cmp) && i < LISTSIZE - 1
    requires CarryOk(cmp, bins, segs, e, seg, i) && Held(heads, bins) && IsList(ep, e) && bins[i] != []
    requires CarryFrom(bins0, segs0, ep0, bins, segs, e, seg, i)
    modifies heads, ep0, Nodes(bins0)
    ensures CarryOk(cmp, bins', segs', e', seg', i + 1) && Held(heads, bins') && IsList(head, e')
    ensures CarryFrom(bins0, segs0, ep0, bins', segs', e', seg', i + 1)
  {
    assert BinOk(cmp, i, bins[i], segs[i]);
    CarryNodes(bins0, segs0, ep0, bins, segs, e, seg, i);
    head, e' := MergeBin(cmp, heads, i, ep, bins, e);
    CarryStep(cmp, bins, segs, e, seg, i, e');
    CarryOrder(segs, seg, i);
    bins', segs', seg' := bins[i := []], segs[i := []], segs[i] + seg;
    NextFrom(bins0, segs0, ep0, bins, segs, e, seg, i, e');
  }

  lemma NextFrom<T>(bins0: seq<seq<Node<T>>>, segs0: seq<seq<T>>, ep0: Node<T>,
                    bins: seq<seq<Node<T>>>, segs: seq<seq<T>>, e: seq<Node<T>>, seg: seq<T>, i: nat, e': seq<Node<T>>)
    requires CarryFrom(bins0, segs0, ep0, bins, segs, e, seg, i) && i < |bins| == |segs| && segs[i] != []
    requires multiset(e') == multiset(e) + multiset(bins[i])
    requires Carried(segs[i := []], segs[i] + seg) == Carried(segs, seg)
    ensures CarryFrom(bins0, segs0, ep0, bins[i := []], segs[i := []], e', segs[i] + seg, i + 1)
  {
    assert segs[i..][0] == segs0[i..][0];
    assert segs[i := []][i + 1..] == segs[i..][1..] == segs0[i..][1..] == segs0[i + 1..];
    forall n | n in Nodes(bins[i := []]) + Nodes([e'])
      ensures n in Nodes(bins0) + {ep0}
    {
      if n in Nodes([e']) {
        assert n in multiset(e');
        assert n in e || n in bins[i];
      }
      assert [e][0] == e;
      assert n in Nodes(bins) + Nodes([e]);
    }
  }

  lemma StartCarry<T(!new)>(cmp: (T, T) -> int, bins: seq<seq<Node<T>>>, segs: seq<seq<T>>, ep: Node<T>)
    requires BinsOk(cmp, bins, segs) && ep !in Nodes(bins)
    ensures CarryOk(cmp, bins, segs, [ep], [ep.data], 0)
  {
    EmptySort(cmp);
    assert [ep.data][1..] == [];
    assert Data([ep]) == [ep.data];
  }

  /** Merge bin i into the carried list and clear it; the other bins are not touched. */
  method MergeBin<T(!new)>(cmp: (T, T) -> int, heads: array<Node?<T>>, i: nat, ep: Node<T>,
                           ghost bins: seq<seq<Node<T>>>, ghost e: seq<Node<T>>)
    returns (head: Node<T>, ghost e': seq<Node<T>>)
    requires i < |bins| && Held(heads, bins) && IsList(ep, e) && bins[i] != []
    requires NoRepeats(e) && forall j :: 0 <= j < |bins| ==> NoRepeats(bins[j]) && Apart(e, bins[j])
    requires forall j, k :: 0 <= j < k < |bins| ==> Apart(bins[j], bins[k])
    modifies heads, e, bins[i]
    ensures Held(heads, bins[i := []]) && IsList(head, e')
    ensures NoRepeats(e') && multiset(e') == multiset(e) + multiset(bins[i])
    ensures Data(e') == Merged(cmp, Data(e), Data(bins[i]))
  {
    var h;
    h, e' := Merge(cmp, ep, heads[i], e, bins[i]);
    assert |e'| == |multiset(e')|;
    head := h;
    heads[i] := null;
  }

  /** e holds bins 0 .. i-1, sorted, and shares no node with the others. */
  ghost predicate MergedBelow<T>(cmp: (T, T) -> int, heads: array<Node?<T>>, bins: seq<seq<Node<T>>>, segs: seq<seq<T>>,
                                 ep: Node?<T>, e: seq<Node<T>>, acc: seq<T>, i: nat)
    reads heads, Nodes(bins), e
  {
    && heads.Length == |bins| == |segs| && i <= |segs|
    && IsList(ep, e) && NoRepeats(e) && Nodes([e]) <= Nodes(bins)
    && (forall j :: i <= j < |bins| ==> (NodesHold(bins, j); IsList(heads[j], bins[j])))
    && (forall j :: i <= j < |bins| ==> Apart(e, bins[j]))
    && Data(e) == StableSort(cmp, acc) && Older(segs, i) + acc == Older(segs, 0)
  }

  lemma OlderStep<T>(segs: seq<seq<T>>, i: nat, acc: seq<T>)
    requires i < |segs|
    ensures Older(segs, i + 1) + (segs[i] + acc) == Older(segs, i) + acc
    ensures segs[i] == [] ==> Older(segs, i + 1) + acc == Older(segs, i) + acc
  {
  }

  /** One turn of the last loop. */
  method MergeLast<T(!new)>(cmp: (T, T) -> int, heads: array<Node?<T>>, i: nat, ep: Node?<T>,
                            ghost bins: seq<seq<Node<T>>>, ghost segs: seq<seq<T>>, ghost e: seq<Node<T>>, ghost acc: seq<T>)
    returns (ep': Node?<T>, ghost e': seq<Node<T>>, ghost acc': seq<T>)
    requires TotalPreorder(cmp) && i < |bins| && MergedBelow(cmp, heads, bins, segs, ep, e, acc, i)
    requires forall j :: i < j < |bins| ==> Apart(bins[i], bins[j])
    requires BinOk(cmp, i, bins[i], segs[i])
    modifies Nodes(bins)
    ensures MergedBelow(cmp, heads, bins, segs, ep', e', acc', i + 1)
  {
    NodesHold([e], 0);
    NodesHold(bins, i);
    OlderStep(segs, i, acc);
    if heads[i] != null {
      ep', e' := Merge(cmp, ep, heads[i], e, bins[i]);
      MergeOfSorted(cmp, acc, segs[i]);
      UnionNodes(e, bins[i], e');
      ApartFromRest(bins, e, i, e');
      acc' := segs[i] + acc;
    } else {
      ep', e', acc' := ep, e, acc;
    }
  }

  /** The last loop of msort: merge all bins. */
  method MergeAll<T(!new)>(cmp: (T, T) -> int, heads: array<Node?<T>>, ghost bins: seq<seq<Node<T>>>, ghost segs: seq<seq<T>>)
    returns (ep: Node?<T>, ghost e: seq<Node<T>>)
    requires TotalPreorder(cmp) && BinsOk(cmp, bins, segs) && Held(heads, bins)
    modifies Nodes(bins)
    ensures IsList(ep, e) && NoRepeats(e) && Nodes([e]) <= Nodes(bins)
    ensures Data(e) == StableSort(cmp, Older(segs, 0))
  {
    ep, e := null, [];
    ghost var acc: seq<T> := [];
    EmptySort(cmp);
    for i := 0 to LISTSIZE
      invariant MergedBelow(cmp, heads, bins, segs, ep, e, acc, i)
    {
      ep, e, acc := MergeLast(cmp, heads, i, ep, bins, segs, e, acc);
    }
    assert Older(segs, LISTSIZE) + acc == acc;
  }

  lemma ApartFromRest<T>(bins: seq<seq<Node<T>>>, e: seq<Node<T>>, i: nat, e': seq<Node<T>>)
    requires i < |bins| && forall j :: i < j < |bins| ==> Apart(e, bins[j]) && Apart(bins[i], bins[j])
    requires multiset(e') == multiset(e) + multiset(bins[i])
    ensures forall j :: i < j < |bins| ==> Apart(e', bins[j])
  {
    forall j | i < j < |bins|
      ensures Apart(e', bins[j])
    {
      ApartUnion(e, bins[i], e', bins[j]);
    }
  }

  lemma UnionNodes<T>(e: seq<Node<T>>, b: seq<Node<T>>, e': seq<Node<T>>)
    requires multiset(e') == multiset(e) + multiset(b)
    ensures Nodes([e']) <= Nodes([e]) + Nodes([b])
  {
    NodesHold([e], 0);
    NodesHold([b], 0);
    forall n | n in Nodes([e'])
      ensures n in Nodes([e]) + Nodes([b])
    {
      assert n in multiset(e');
      assert n in e || n in b;
    }
  }

  lemma StartBins<T>(cmp: (T, T) -> int, bins: seq<seq<Node<T>>>, segs: seq<seq<T>>)
    requires |bins| == |segs| == LISTSIZE && forall i :: 0 <= i < LISTSIZE ==> bins[i] == [] && segs[i] == []
    ensures BinsOk(cmp, bins, segs) && Older(segs, 0) == [] && Nodes(bins) == {}
  {
    EmptySort(cmp);
    OlderEmpty(segs, 0, LISTSIZE);
  }

  lemma BelowLimit<T>(cmp: (T, T) -> int, bins: seq<seq<Node<T>>>, segs: seq<seq<T>>)
    requires BinsOk(cmp, bins, segs)
    ensures |Older(segs, 0)| < Pow2(LISTSIZE)
  {
    Capacity(cmp, bins, segs, 0);
  }

  /** The bins after k nodes of the list s: below 2^30 nodes, all of them in order. */
  ghost predicate Counted<T>(bins: seq<seq<Node<T>>>, segs: seq<seq<T>>, s: seq<Node<T>>, k: nat) {
    && k <= |s| && |bins| == |segs| == LISTSIZE && Nodes(bins) <= Nodes([s[..k]])
    && (k < Pow2(LISTSIZE) ==> Older(segs, 0) == Data(s[..k]))
  }

  /** One turn of msort's first loop. */
  method SortTurn<T(!new)>(cmp: (T, T) -> int, heads: array<Node?<T>>, list: Node<T>,
                           ghost bins: seq<seq<Node<T>>>, ghost segs: seq<seq<T>>, ghost s: seq<Node<T>>, ghost k: nat)
    returns (rest: Node?<T>, ghost bins': seq<seq<Node<T>>>, ghost segs': seq<seq<T>>)
    requires TotalPreorder(cmp) && NoRepeats(s) && BinsOk(cmp, bins, segs) && Counted(bins, segs, s, k)
    requires IsList(list, s[k..]) && Held(heads, bins)
    modifies heads, s
    ensures k < |s| && BinsOk(cmp, bins', segs') && Counted(bins', segs', s, k + 1) && IsList(rest, s[k + 1..]) && Held(heads, bins')
  {
    PopFacts(cmp, bins, segs, s, k);
    PopFresh(bins, s, k);
    rest := Pop(list, s[k..]);
    bins', segs' := AddNode(cmp, heads, list, bins, segs);
    CountedNext(bins, segs, s, k, bins', segs');
  }

  lemma CountedNext<T>(bins: seq<seq<Node<T>>>, segs: seq<seq<T>>, s: seq<Node<T>>, k: nat,
                       bins': seq<seq<Node<T>>>, segs': seq<seq<T>>)
    requires k < |s| && Counted(bins, segs, s, k) && |bins'| == |segs'| == LISTSIZE
    requires Nodes(bins') <= Nodes(bins) + {s[k]} && Nodes([s[..k]]) + {s[k]} <= Nodes([s[..k + 1]])
    requires k + 1 < Pow2(LISTSIZE) ==> Older(segs', 0) == Older(segs, 0) + [s[k].data]
    ensures Counted(bins', segs', s, k + 1)
  {
    NextData(s, k);
  }

  lemma NextData<T>(s: seq<Node<T>>, k: nat)
    requires k < |s|
    ensures Data(s[..k + 1]) == Data(s[..k]) + [s[k].data]
  {
    assert s[..k + 1] == s[..k] + [s[k]];
    DataConcat(s[..k], [s[k]]);
    assert Data([s[k]]) == [s[k].data];
  }

  method Pop<T>(node: Node<T>, ghost s: seq<Node<T>>) returns (rest: Node?<T>)
    requires IsList(node, s) && NoRepeats(s)
    modifies node
    ensures node.next == null && IsList(rest, s[1..])
  {
    assert |s| > 1 ==> s[0].next == s[1];
    rest := node.next;
    node.next := null;
  }

  /** The next node is new to the bins. */
  lemma PopFresh<T>(bins: seq<seq<Node<T>>>, s: seq<Node<T>>, k: nat)
    requires k < |s| && NoRepeats(s) && Nodes(bins) <= Nodes([s[..k]])
    ensures forall i :: k <= i < |s| ==> s[i] !in Nodes(bins)
    ensures Nodes([s[..k]]) + {s[k]} <= Nodes([s[..k + 1]]) <= Nodes([s])
  {
    assert s[..k + 1] == s[..k] + [s[k]];
    NodesHold([s], 0);
    NodesHold([s[..k + 1]], 0);
    assert [s[..k + 1]][0][k] == s[k];
  }

  lemma PopFacts<T>(cmp: (T, T) -> int, bins: seq<seq<Node<T>>>, segs: seq<seq<T>>, s: seq<Node<T>>, k: nat)
    requires k < |s| && BinsOk(cmp, bins, segs) && Counted(bins, segs, s, k)
    ensures s[k..][1..] == s[k + 1..] && s[k..][0] == s[k]
    ensures k + 1 < Pow2(LISTSIZE) ==> !Full(segs, 0)
  {
    Capacity(cmp, bins, segs, 0);
    assert |Data(s[..k])| == k;
  }

  /** The first loop of msort. */
  method FillBins<T(!new)>(cmp: (T, T) -> int, heads: array<Node?<T>>, list0: Node?<T>, ghost s: seq<Node<T>>)
    returns (ghost bins: seq<seq<Node<T>>>, ghost segs: seq<seq<T>>)
    requires TotalPreorder(cmp) && IsList(list0, s) && NoRepeats(s)
    requires heads.Length == LISTSIZE && forall i :: 0 <= i < LISTSIZE ==> heads[i] == null
    modifies heads, s
    ensures BinsOk(cmp, bins, segs) && Held(heads, bins) && Nodes(bins) <= Nodes([s])
    ensures |s| < Pow2(LISTSIZE) ==> Older(segs, 0) == Data(s)
  {
    var list := list0;
    ghost var k := 0;
    bins, segs := seq(LISTSIZE, _ => []), seq(LISTSIZE, _ => []);
    StartBins(cmp, bins, segs);
    while list != null
      invariant BinsOk(cmp, bins, segs) && Counted(bins, segs, s, k) && IsList(list, s[k..]) && Held(heads, bins)
      decreases |s| - k
    {
      list, bins, segs := SortTurn(cmp, heads, list, bins, segs, s, k);
      k := k + 1;
    }
    assert s[..k] == s;
  }

  /** msort.  Below 2^30 nodes the list comes back stably sorted; from there on nodes are
      lost, because the last bin is overwritten. */
  method Msort<T(!new)>(cmp: (T, T) -> int, list0: Node?<T>, ghost s: seq<Node<T>>)
    returns (ep: Node?<T>, ghost out: seq<Node<T>>)
    requires TotalPreorder(cmp) && IsList(list0, s) && NoRepeats(s)
    modifies s
    ensures IsList(ep, out) && NoRepeats(out) && Nodes([out]) <= Nodes([s])
    ensures |s| < Pow2(LISTSIZE) ==> Data(out) == StableSort(cmp, Data(s))
    ensures |s| < Pow2(LISTSIZE) <==> |out| == |s|
  {
    var heads := new Node?<T>[LISTSIZE](_ => null);
    ghost var bins, segs := FillBins(cmp, heads, list0, s);
    BelowLimit(cmp, bins, segs);
    ep, out := MergeAll(cmp, heads, bins, segs);
    StableSortPermutes(cmp, Older(segs, 0));
    assert |out| == |Data(out)|;
  }
}
