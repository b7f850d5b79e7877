/** What lookup gives over a whole run, told by the history of the definitions, without chains,
    buckets or headers. */
module History {
  import opened Options
  import opened Dictionaries
  import opened Forgetting

  datatype Draft = Draft(name: string, at: nat)

  /** A definition that has ended: the list it went to, its name, and its address. */
  datatype Definition = Definition(list: nat, name: string, at: nat)

  /** What has been defined and not been forgotten, the oldest first. */
  datatype Log = Log(here: nat, current: nat, order: seq<nat>, open: Option<Draft>, defs: seq<Definition>)

  /** The definitions but those of a list from `where` on. */
  function Kept(defs: seq<Definition>, l: nat, where: nat): seq<Definition> {
    if defs == [] then []
    else
      var d, before := defs[|defs| - 1], Kept(defs[..|defs| - 1], l, where);
      if d.list == l && d.at >= where then before else before + [d]
  }

  function Noted(g: Log, op: Op): Log {
    match op
    case Begin(name) =>
      var at := AfterName(g.here, |Taken(name)|);
      g.(here := at + HEADER, open := Some(Draft(name, at)))
    case End =>
      if g.open.None? then g
      else
        var d := g.open.value;
        g.(open := None,
           defs := if |d.name| % 256 == 0 then g.defs else g.defs + [Definition(g.current, d.name, d.at)])
    case Reserve(n) => g.(here := g.here + n)
    case Use(l) => g.(current := l)
    case Search(order) => g.(order := order)
    case Back(where) => g.(here := where, defs := Kept(g.defs, g.current, where))
  }

  function NotedAll(g: Log, ops: seq<Op>): Log
    decreases |ops|
  {
    if ops == [] then g else NotedAll(Noted(g, ops[0]), ops[1..])
  }

  // ----- Which definition a name means -----

  /** The last definition of the name in a list; zero if there is none. */
  function LastOf(defs: seq<Definition>, l: nat, name: string): nat {
    if defs == [] then 0
    else
      var d := defs[|defs| - 1];
      if d.list == l && SameText(d.name, name) then d.at else LastOf(defs[..|defs| - 1], l, name)
  }

  /** The same in the topmost of the lists order[..n] that has one. */
  function LastInOrder(defs: seq<Definition>, order: seq<nat>, name: string, n: nat): nat
    requires n <= |order|
  {
    if n == 0 then 0
    else
      var d := LastOf(defs, order[n - 1], name);
      if d != 0 then d else LastInOrder(defs, order, name, n - 1)
  }

  /** Of names beyond 31 characters the first 31 are compared; the whole of them only leads to
      the bucket. */
  predicate Answers(a: string, name: string, size: nat)
    requires size > 0
  {
    && |a| % 256 == |name| && |Taken(a)| >= |Taken(name)| && Folded(Taken(a)[..|Taken(name)|]) == Folded(Taken(name))
    && Index(Hash(a), size) == Index(Hash(name), size)
  }

  lemma SameTextHash(a: string, name: string)
    requires SameText(a, name)
    ensures Hash(a) == Hash(name)
  {
    FoldedExactly(a, name);
    if a != "" { HashFolded(|a| % 0x1_0000, a, name); }
  }

  /** So to a name of up to 31 characters exactly the definitions of that name answer. */
  lemma AnswersShort(a: string, name: string, size: nat)
    requires size > 0 && |a| < 256 && |name| <= NAME_LENGTH
    ensures Answers(a, name, size) <==> SameText(a, name)
  {
    if |a| == |name| {
      AnswersFolded(a, name, size);
      FoldedExactly(a, name);
      SameTextIndex(a, name, size);
    }
  }

  lemma AnswersFolded(a: string, name: string, size: nat)
    requires size > 0 && |a| == |name| <= NAME_LENGTH
    ensures Answers(a, name, size) <==> Folded(a) == Folded(name) && Index(Hash(a), size) == Index(Hash(name), size)
  {
    assert Taken(a) == a && Taken(name) == name && a[..|name|] == a;
  }

  lemma SameTextIndex(a: string, name: string, size: nat)
    requires size > 0
    ensures SameText(a, name) ==> Index(Hash(a), size) == Index(Hash(name), size)
  {
    if SameText(a, name) { SameTextHash(a, name); }
  }

  /** To a longer one, all of its length with the same first 31 and in the same bucket. */
  lemma AnswersLong(a: string, name: string, size: nat)
    requires size > 0 && NAME_LENGTH < |name| < 256 && |a| < 256
    ensures Answers(a, name, size) <==>
      |a| == |name| && SameText(a[..NAME_LENGTH], name[..NAME_LENGTH]) && Index(Hash(a), size) == Index(Hash(name), size)
  {
    if |a| == |name| {
      assert Taken(a)[..NAME_LENGTH] == a[..NAME_LENGTH];
      FoldedExactly(a[..NAME_LENGTH], name[..NAME_LENGTH]);
    }
  }

  // ----- The dictionary refines its history -----

  /** The header of a word with this name. */
  predicate Headed(w: Word, name: string) { w.name == Taken(name) && w.length == |name| % 256 && w.hash == Hash(name) }

  ghost predicate Defined(s: State, d: Definition) {
    d.list < |s.tables| && Linked(s.words, s.tables[d.list], d.at) && Headed(s.words[d.at], d.name)
  }

  predicate Ordered(defs: seq<Definition>) { forall j, k :: 0 <= j < k < |defs| ==> defs[j].at < defs[k].at }

  ghost predicate Recorded(defs: seq<Definition>, l: nat, a: nat) {
    exists k :: 0 <= k < |defs| && defs[k].list == l && defs[k].at == a
  }

  /** The linked words are exactly those of the history. */
  ghost predicate Told(s: State, defs: seq<Definition>) {
    && (forall k :: 0 <= k < |defs| ==> Defined(s, defs[k]))
    && (forall l, a: nat :: 0 <= l < |s.tables| && Linked(s.words, s.tables[l], a) ==> Recorded(defs, l, a))
  }

  ghost predicate Refines(s: State, g: Log) {
    && Sound(s) && s.here == g.here && s.current == g.current && s.order == g.order
    && (Open(s) <==> g.open.Some?)
    && (Open(s) ==> s.smudge == g.open.value.at && Headed(s.words[s.smudge], g.open.value.name))
    && Ordered(g.defs) && Told(s, g.defs)
  }

  /** Words stay where they are and as they are. */
  lemma BeginRefines(s: State, g: Log, name: string)
    requires Refines(s, g)
    ensures Refines(Begun(s, name), Noted(g, Begin(name)))
  {
    var b := Begun(s, name);
    BegunSound(s, name);
    forall k | 0 <= k < |g.defs| ensures Defined(b, g.defs[k]) {
      assert Defined(s, g.defs[k]);
      BegunLinks(s, name, g.defs[k].list, g.defs[k].at);
    }
    forall l, a: nat | 0 <= l < |b.tables| && Linked(b.words, b.tables[l], a) ensures Recorded(g.defs, l, a) {
      BegunLinks(s, name, l, a);
    }
  }

  lemma LinkedBeforeOpen(s: State, l: nat, a: nat)
    requires Sound(s) && Open(s) && l < |s.tables| && Linked(s.words, s.tables[l], a)
    ensures a < s.smudge && a in Ended(s).words && Ended(s).words[a] == s.words[a]
  {
    var t := s.tables[l];
    var i := Index(s.words[a].hash, |t|);
    assert TableOk(s.words, t, s.here) && t[i] < s.smudge;
    ChainMember(s.words, t[i], i, |t|, s.here, a);
    EndedSound(s);
  }

  lemma EndedKeeps(s: State, d: Definition)
    requires Sound(s) && Open(s) && Defined(s, d)
    ensures Defined(Ended(s), d) && d.at < s.smudge
  {
    LinkedBeforeOpen(s, d.list, d.at);
    EndedLinks(s, d.list, d.at);
  }

  lemma StillRecorded(defs: seq<Definition>, more: seq<Definition>, l: nat, a: nat)
    requires Recorded(defs, l, a) && defs <= more
    ensures Recorded(more, l, a)
  {
    var k :| 0 <= k < |defs| && defs[k].list == l && defs[k].at == a;
    assert more[k] == defs[k];
  }

  lemma EndRecords(s: State, g: Log, defs: seq<Definition>, l: nat, a: nat)
    requires Refines(s, g) && Open(s) && defs == Noted(g, End).defs
    requires l < |s.tables| && Linked(Ended(s).words, Ended(s).tables[l], a)
    ensures Recorded(defs, l, a)
  {
    EndedLinks(s, l, a);
    if Linked(s.words, s.tables[l], a) { StillRecorded(g.defs, defs, l, a); } else { assert defs[|g.defs|].at == a; }
  }

  lemma EndDefines(s: State, g: Log, name: string)
    requires Refines(s, g) && Open(s) && name == g.open.value.name && |name| % 256 > 0
    ensures Defined(Ended(s), Definition(s.current, name, s.smudge))
  {
    EndedLinks(s, s.current, s.smudge);
  }

  lemma EndDefinesEach(s: State, g: Log, defs: seq<Definition>, k: nat)
    requires Refines(s, g) && Open(s) && defs == Noted(g, End).defs && k < |defs|
    ensures Defined(Ended(s), defs[k]) && g.defs <= defs && |defs| <= |g.defs| + 1
    ensures defs[k].at <= s.smudge && (k < |g.defs| ==> defs[k].at < s.smudge)
  {
    if k < |g.defs| { EndedKeeps(s, g.defs[k]); } else { EndDefines(s, g, g.open.value.name); }
  }

  lemma EndOrdered(s: State, g: Log, defs: seq<Definition>)
    requires Refines(s, g) && Open(s) && defs == Noted(g, End).defs
    ensures Ordered(defs)
  {
    forall j, k | 0 <= j < k < |defs| ensures defs[j].at < defs[k].at {
      EndDefinesEach(s, g, defs, j);
      if k < |g.defs| { assert defs[j] == g.defs[j] && defs[k] == g.defs[k]; }
    }
  }

  lemma EndTold(s: State, g: Log, defs: seq<Definition>, e: State)
    requires Refines(s, g) && Open(s) && defs == Noted(g, End).defs && e == Ended(s)
    ensures Told(e, defs)
  {
    forall k | 0 <= k < |defs| ensures Defined(e, defs[k]) { EndDefinesEach(s, g, defs, k); }
    forall l, a: nat | 0 <= l < |e.tables| && Linked(e.words, e.tables[l], a) ensures Recorded(defs, l, a) {
      EndRecords(s, g, defs, l, a);
    }
  }

  /** The definition that ended is the last one from now on. */
  lemma EndRefines(s: State, g: Log)
    requires Refines(s, g) && Open(s)
    ensures Refines(Ended(s), Noted(g, End))
  {
    EndedSound(s);
    EndOrdered(s, g, Noted(g, End).defs);
    EndTold(s, g, Noted(g, End).defs, Ended(s));
  }

  /** Exactly the definitions that are not of the list, or older, are kept, in order. */
  lemma {:induction false} KeptAre(defs: seq<Definition>, l: nat, where: nat, d: Definition)
    ensures d in Kept(defs, l, where) <==> d in defs && (d.list != l || d.at < where)
  {
    if defs != [] { KeptAre(defs[..|defs| - 1], l, where, d); }
  }

  lemma {:induction false} KeptOrdered(defs: seq<Definition>, l: nat, where: nat)
    requires Ordered(defs)
    ensures Ordered(Kept(defs, l, where))
  {
    if defs != [] {
      var before, last := defs[..|defs| - 1], defs[|defs| - 1];
      KeptOrdered(before, l, where);
      forall d | d in Kept(before, l, where) ensures d.at < last.at { KeptAre(before, l, where, d); }
    }
  }

  lemma KeptRecorded(defs: seq<Definition>, l: nat, where: nat, m: nat, a: nat)
    requires Recorded(defs, m, a) && (m != l || a < where)
    ensures Recorded(Kept(defs, l, where), m, a)
  {
    var k :| 0 <= k < |defs| && defs[k].list == m && defs[k].at == a;
    KeptAre(defs, l, where, defs[k]);
  }

  lemma BackLinks(s: State, where: nat, l: nat, a: nat)
    requires Sound(s) && where > 0 && l < |s.tables|
    ensures Linked(s.words, Forgotten(s, where).tables[l], a) <==> Linked(s.words, s.tables[l], a) && (l != s.current || a < where)
  {
    if l == s.current { ForgottenLinks(s, where, a); }
  }

  lemma BackRefines(s: State, g: Log, where: nat)
    requires Refines(s, g) && Allowed(s, Back(where))
    ensures Refines(Forgotten(s, where), Noted(g, Back(where)))
  {
    var u, defs := Forgotten(s, where), Kept(g.defs, s.current, where);
    ForgottenSoundExactly(s, where);
    KeptOrdered(g.defs, s.current, where);
    forall k | 0 <= k < |defs| ensures Defined(u, defs[k]) {
      KeptAre(g.defs, s.current, where, defs[k]);
      assert Defined(s, defs[k]);
      BackLinks(s, where, defs[k].list, defs[k].at);
    }
    forall l, a: nat | 0 <= l < |u.tables| && Linked(u.words, u.tables[l], a) ensures Recorded(defs, l, a) {
      BackLinks(s, where, l, a);
      KeptRecorded(g.defs, s.current, where, l, a);
    }
  }

  lemma StepRefines(s: State, g: Log, op: Op)
    requires Refines(s, g) && Allowed(s, op) && Sound(After(s, op))
    ensures Refines(After(s, op), Noted(g, op))
  {
    match op
    case Begin(name) => BeginRefines(s, g, name);
    case End => EndRefines(s, g);
    case Reserve(n) => ToldSame(s, After(s, op), g.defs);
    case Use(l) => ToldSame(s, After(s, op), g.defs);
    case Search(order) => ToldSame(s, After(s, op), g.defs);
    case Back(where) => BackRefines(s, g, where);
  }

  lemma ToldSame(s: State, u: State, defs: seq<Definition>)
    requires Told(s, defs) && u.words == s.words && u.tables == s.tables
    ensures Told(u, defs)
  {
    forall k | 0 <= k < |defs| ensures Defined(u, defs[k]) { assert Defined(s, defs[k]); }
  }

  /** The sizes of the tables do not change. */
  ghost predicate SameSizes(s: State, u: State) {
    |u.tables| == |s.tables| && forall l :: 0 <= l < |s.tables| ==> |u.tables[l]| == |s.tables[l]|
  }

  lemma StepSizes(s: State, op: Op)
    requires Sound(s) && Allowed(s, op)
    ensures SameSizes(s, After(s, op))
  {
  }

  /** Over every run the dictionary is told by its history. */
  lemma {:induction false} RunRefines(s: State, g: Log, ops: seq<Op>, u: State)
    requires Refines(s, g) && Leads(s, ops, u)
    ensures Refines(u, NotedAll(g, ops)) && SameSizes(s, u)
    decreases |ops|
  {
    if ops != [] {
      var t := After(s, ops[0]);
      assert Leads(t, ops[1..], u) && Sound(t);
      StepSizes(s, ops[0]);
      StepRefines(s, g, ops[0]);
      RunRefines(t, Noted(g, ops[0]), ops[1..], u);
    }
  }

  // ----- What lookup gives -----

  /** As LastOf, with the comparison as coded, in a list of so many buckets. */
  function LastAnswer(defs: seq<Definition>, l: nat, size: nat, name: string): nat
    requires size > 0
  {
    if defs == [] then 0
    else
      var d := defs[|defs| - 1];
      if d.list == l && Answers(d.name, name, size) then d.at else LastAnswer(defs[..|defs| - 1], l, size, name)
  }

  predicate AnswersIn(d: Definition, l: nat, size: nat, name: string)
    requires size > 0
  {
    d.list == l && Answers(d.name, name, size)
  }

  /** Zero, and nothing answers; or the address of the k-th definition, the last that answers. */
  lemma {:induction false} LastAnswerIs(defs: seq<Definition>, l: nat, size: nat, name: string) returns (k: int)
    requires size > 0
    ensures -1 <= k < |defs| && LastAnswer(defs, l, size, name) == if k < 0 then 0 else defs[k].at
    ensures k >= 0 ==> AnswersIn(defs[k], l, size, name)
    ensures forall j :: k < j < |defs| ==> !AnswersIn(defs[j], l, size, name)
  {
    if defs == [] {
      k := -1;
    } else if AnswersIn(defs[|defs| - 1], l, size, name) {
      k := |defs| - 1;
    } else {
      k := LastAnswerIs(defs[..|defs| - 1], l, size, name);
      forall j | k < j < |defs| ensures !AnswersIn(defs[j], l, size, name) {
        if j < |defs| - 1 { assert defs[..|defs| - 1][j] == defs[j]; }
      }
    }
  }

  lemma AnswersMatches(w: Word, a: string, name: string, size: nat)
    requires size > 0 && Headed(w, a)
    ensures Answers(a, name, size) <==> Matches(w, name) && Index(w.hash, size) == Index(Hash(name), size)
  {
    assert name[..|Taken(name)|] == Taken(name);
  }

  /** A definition answers exactly if its word is a match in the bucket of the name. */
  lemma AnswerInBucket(s: State, d: Definition, name: string, t: Table, i: nat)
    requires Sound(s) && Defined(s, d) && t == s.tables[d.list] && i == Index(Hash(name), |t|)
    ensures d.at > 0 && d.at in s.words
    ensures Answers(d.name, name, |t|) <==> d.at in Chain(s.words, t[i]) && Matches(s.words[d.at], name)
  {
    var w := s.words[d.at];
    assert TableOk(s.words, t, s.here);
    LinkedBelow(s.words, t, s.here, d.at);
    AnswersMatches(w, d.name, name, |t|);
    if d.at in Chain(s.words, t[i]) { ChainMember(s.words, t[i], i, |t|, s.here, d.at); }
  }

  /** And every word of that bucket belongs to a definition. */
  lemma BucketRecorded(s: State, defs: seq<Definition>, l: nat, i: nat, a: nat) returns (k: nat)
    requires Sound(s) && Told(s, defs) && l < |s.tables| && i < |s.tables[l]| && a in Chain(s.words, s.tables[l][i])
    ensures k < |defs| && defs[k].list == l && defs[k].at == a && Defined(s, defs[k])
  {
    var t := s.tables[l];
    assert TableOk(s.words, t, s.here);
    ChainMember(s.words, t[i], i, |t|, s.here, a);
    assert Linked(s.words, t, a);
    assert Recorded(defs, l, a);
    k :| 0 <= k < |defs| && defs[k].list == l && defs[k].at == a;
  }

  lemma FoundAnswers(s: State, defs: seq<Definition>, l: nat, i: nat, a: nat, name: string) returns (k: nat)
    requires Sound(s) && Told(s, defs) && l < |s.tables| && |s.tables[l]| > 0 && i == Index(Hash(name), |s.tables[l]|)
    requires a in Chain(s.words, s.tables[l][i]) && a in s.words && Matches(s.words[a], name)
    ensures k < |defs| && defs[k].at == a && AnswersIn(defs[k], l, |s.tables[l]|, name)
  {
    k := BucketRecorded(s, defs, l, i, a);
    AnswerInBucket(s, defs[k], name, s.tables[l], i);
  }

  lemma InListIsLast(s: State, g: Log, l: nat, name: string)
    requires Refines(s, g) && l < |s.tables|
    ensures |s.tables[l]| > 0 && InList(s, l, name) == LastAnswer(g.defs, l, |s.tables[l]|, name)
  {
    var t := s.tables[l];
    assert TableOk(s.words, t, s.here);
    var i := Index(Hash(name), |t|);
    var r := InList(s, l, name);
    FindNewest(s.words, t[i], i, |t|, s.here, name);
    var k := LastAnswerIs(g.defs, l, |t|, name);
    if k >= 0 {
      assert Defined(s, g.defs[k]);
      AnswerInBucket(s, g.defs[k], name, t, i);
    }
    if r != 0 {
      var j := FoundAnswers(s, g.defs, l, i, r, name);
      assert j <= k;
    }
  }

  function Sizes(s: State): seq<nat> { seq(|s.tables|, l requires 0 <= l < |s.tables| => |s.tables[l]|) }

  /** Every list of the order has a size other than zero. */
  predicate Sized(sizes: seq<nat>, order: seq<nat>) { forall k :: 0 <= k < |order| ==> order[k] < |sizes| && sizes[order[k]] > 0 }

  function LastAnswerInOrder(defs: seq<Definition>, sizes: seq<nat>, order: seq<nat>, name: string, n: nat): nat
    requires Sized(sizes, order) && n <= |order|
  {
    if n == 0 then 0
    else
      var d := LastAnswer(defs, order[n - 1], sizes[order[n - 1]], name);
      if d != 0 then d else LastAnswerInOrder(defs, sizes, order, name, n - 1)
  }

  lemma SoundSized(s: State)
    requires Sound(s)
    ensures Sized(Sizes(s), s.order)
  {
    forall k | 0 <= k < |s.order| ensures Sizes(s)[s.order[k]] > 0 { assert TableOk(s.words, s.tables[s.order[k]], s.here); }
  }

  lemma {:induction false} LookupIsLastAnswer(s: State, g: Log, sizes: seq<nat>, name: string, n: nat)
    requires Refines(s, g) && sizes == Sizes(s) && Sized(sizes, s.order) && n <= |s.order|
    ensures Lookup(s, name, n) == LastAnswerInOrder(g.defs, sizes, g.order, name, n)
    decreases n
  {
    if n > 0 {
      InListIsLast(s, g, s.order[n - 1], name);
      LookupIsLastAnswer(s, g, sizes, name, n - 1);
    }
  }

  // ----- Runs from the empty dictionary -----

  ghost predicate Empty(s: State) {
    Sound(s) && !Open(s) && forall l, a: nat :: 0 <= l < |s.tables| ==> !Linked(s.words, s.tables[l], a)
  }

  /** Nothing is defined yet. */
  function Start(s: State): Log { Log(s.here, s.current, s.order, None, []) }

  /** Over every run, with names of any length: lookup gives the last of the definitions that are
      left in the topmost list of the search order and answer to the name as coded. */
  lemma LookupAsCoded(s: State, ops: seq<Op>, u: State, name: string, h: Log)
    requires Empty(s) && Leads(s, ops, u) && h == NotedAll(Start(s), ops)
    ensures Sound(u) && h.order == u.order && Sized(Sizes(s), h.order)
    ensures Lookup(u, name, |u.order|) == LastAnswerInOrder(h.defs, Sizes(s), h.order, name, |h.order|)
  {
    RunRefines(s, Start(s), ops, u);
    assert Sizes(u) == Sizes(s);
    SoundSized(u);
    LookupIsLastAnswer(u, h, Sizes(s), name, |u.order|);
  }

  /** Names whose length a byte holds. */
  predicate ByteNames(ops: seq<Op>) { forall k :: 0 <= k < |ops| && ops[k].Begin? ==> |ops[k].name| < 256 }

  predicate ByteLog(g: Log) {
    (g.open.Some? ==> |g.open.value.name| < 256) && forall k :: 0 <= k < |g.defs| ==> |g.defs[k].name| < 256
  }

  lemma ByteStep(g: Log, op: Op)
    requires ByteLog(g) && (op.Begin? ==> |op.name| < 256)
    ensures ByteLog(Noted(g, op))
  {
    if op.Back? {
      var defs := Kept(g.defs, g.current, op.where);
      forall k | 0 <= k < |defs| ensures |defs[k].name| < 256 { KeptAre(g.defs, g.current, op.where, defs[k]); }
    }
  }

  lemma {:induction false} ByteRun(g: Log, ops: seq<Op>)
    requires ByteLog(g) && ByteNames(ops)
    ensures ByteLog(NotedAll(g, ops))
    decreases |ops|
  {
    if ops != [] {
      ByteStep(g, ops[0]);
      ByteRun(Noted(g, ops[0]), ops[1..]);
    }
  }

  lemma {:induction false} LastAnswerShort(defs: seq<Definition>, l: nat, size: nat, name: string)
    requires size > 0 && |name| <= NAME_LENGTH && forall k :: 0 <= k < |defs| ==> |defs[k].name| < 256
    ensures LastAnswer(defs, l, size, name) == LastOf(defs, l, name)
  {
    if defs != [] {
      AnswersShort(defs[|defs| - 1].name, name, size);
      LastAnswerShort(defs[..|defs| - 1], l, size, name);
    }
  }

  lemma {:induction false} OrderShort(g: Log, sizes: seq<nat>, name: string, n: nat)
    requires ByteLog(g) && Sized(sizes, g.order) && |name| <= NAME_LENGTH && n <= |g.order|
    ensures LastAnswerInOrder(g.defs, sizes, g.order, name, n) == LastInOrder(g.defs, g.order, name, n)
    decreases n
  {
    if n > 0 {
      LastAnswerShort(g.defs, g.order[n - 1], sizes[g.order[n - 1]], name);
      OrderShort(g, sizes, name, n - 1);
    }
  }

  /** Over every run from the empty dictionary, with lists of any sizes: a name of at most 31
      characters means its last definition that has not been forgotten, in the topmost list of
      the search order that has one, and nothing when none has. */
  lemma LookupIsLastDefinition(s: State, ops: seq<Op>, u: State, name: string, h: Log)
    requires Empty(s) && Leads(s, ops, u) && ByteNames(ops) && |name| <= NAME_LENGTH && h == NotedAll(Start(s), ops)
    ensures Sound(u) && h.order == u.order && Lookup(u, name, |u.order|) == LastInOrder(h.defs, h.order, name, |h.order|)
  {
    LookupAsCoded(s, ops, u, name, h);
    ByteRun(Start(s), ops);
    OrderShort(h, Sizes(s), name, |h.order|);
  }

  lemma {:induction false} LastOfEither(defs: seq<Definition>, l: nat, name: string, name': string)
    requires SameText(name, name')
    ensures LastOf(defs, l, name) == LastOf(defs, l, name')
  {
    if defs != [] {
      var a := defs[|defs| - 1].name;
      FoldedExactly(name, name');
      if |a| == |name| {
        FoldedExactly(a, name);
        FoldedExactly(a, name');
      }
      LastOfEither(defs[..|defs| - 1], l, name, name');
    }
  }

  lemma {:induction false} LastInOrderEither(defs: seq<Definition>, order: seq<nat>, name: string, name': string, n: nat)
    requires n <= |order| && SameText(name, name')
    ensures LastInOrder(defs, order, name, n) == LastInOrder(defs, order, name', n)
    decreases n
  {
    if n > 0 {
      LastOfEither(defs, order[n - 1], name, name');
      LastInOrderEither(defs, order, name, name', n - 1);
    }
  }

  /** A name written in upper or in lower case, or in both, finds the same word. */
  lemma CaseDoesNotMatter(s: State, ops: seq<Op>, u: State, name: string, name': string, h: Log)
    requires Empty(s) && Leads(s, ops, u) && ByteNames(ops) && |name| <= NAME_LENGTH && h == NotedAll(Start(s), ops)
    requires SameText(name, name')
    ensures Sound(u) && Lookup(u, name, |u.order|) == Lookup(u, name', |u.order|)
  {
    LookupIsLastDefinition(s, ops, u, name, h);
    LookupIsLastDefinition(s, ops, u, name', h);
    LastInOrderEither(h.defs, h.order, name, name', |h.order|);
  }

  /** Runs that come to one history find the same words, whatever the sizes of the lists. */
  lemma SizesDoNotMatter(s: State, s': State, ops: seq<Op>, ops': seq<Op>, u: State, u': State, name: string, h: Log)
    requires Empty(s) && Leads(s, ops, u) && ByteNames(ops) && h == NotedAll(Start(s), ops)
    requires Empty(s') && Leads(s', ops', u') && ByteNames(ops') && h == NotedAll(Start(s'), ops')
    requires |name| <= NAME_LENGTH
    ensures Sound(u) && Sound(u') && Lookup(u, name, |u.order|) == Lookup(u', name, |u'.order|)
  {
    LookupIsLastDefinition(s, ops, u, name, h);
    LookupIsLastDefinition(s', ops', u', name, h);
  }

  /** With longer names that is not so: in a list of one bucket a word is also found under any
      other name of its length with the same first 31 characters. */
  lemma LongNameFound(a: string, name: string)
    requires NAME_LENGTH < |a| == |name| < 256 && a[..NAME_LENGTH] == name[..NAME_LENGTH]
    ensures var u := Ended(Begun(TWO_LISTS, a));
            Leads(TWO_LISTS, [Begin(a), End], u) && Sound(u) && Lookup(u, name, |u.order|) == 36
  {
    assert Sound(TWO_LISTS);
    BegunSound(TWO_LISTS, a);
    EndedSound(Begun(TWO_LISTS, a));
    var u := Ended(Begun(TWO_LISTS, a));
    LeadsDefinition(TWO_LISTS, a, [], u);
    assert [Begin(a), End] + [] == [Begin(a), End];
    AnswersLong(a, name, 1);
    AnswersMatches(u.words[36], a, name, 1);
    assert u.tables[0] == [36];
    assert InList(u, 0, name) == 36;
  }
}
