/** The dictionary as it is changed word by word, and that FORGET takes it back. */
module Forgetting {
  import opened Dictionaries

  /** Headers, the end of the dictionary, the latest word, the buckets of every list, the list
      that definitions go to, and the search order (its last list is searched first). */
  datatype State = State(words: Memory, here: nat, smudge: nat, tables: seq<Table>, current: nat, order: seq<nat>)

  /** Where the cells go on: the first aligned address behind n characters of name and their NUL. */
  function AfterName(here: nat, n: nat): (r: nat)
    ensures r % ALIGNMENT == 0 && var end := if n == 0 then here else here + n + 1; end <= r < end + ALIGNMENT
  {
    var p := if n == 0 then here else here + n + 1;
    (p + ALIGNMENT - 1) / ALIGNMENT * ALIGNMENT
  }

  /** The header that ficlDictionaryAppendWord makes. */
  function Header(s: State, name: string): Word {
    var n := |Taken(name)|;
    Word(if n == 0 then AfterName(s.here, 0) else s.here, Taken(name), |name| % 256, Hash(name), 0, true)
  }

  function Begun(s: State, name: string): State {
    var w := AfterName(s.here, |Taken(name)|);
    s.(words := s.words[w := Header(s, name)], here := w + HEADER, smudge := w)
  }

  predicate Open(s: State) { s.smudge in s.words && s.words[s.smudge].smudged }

  /** Nothing linked is as new as the open word. */
  predicate OpenIsNewest(s: State) {
    forall l, i :: 0 <= l < |s.tables| && 0 <= i < |s.tables[l]| ==> s.tables[l][i] < s.smudge
  }

  predicate Sound(s: State) {
    && s.current < |s.tables|
    && (forall l :: 0 <= l < |s.tables| ==> TableOk(s.words, s.tables[l], s.here))
    && (forall k :: 0 <= k < |s.order| ==> s.order[k] < |s.tables|)
    && s.here > 0
    && (Open(s) ==> 0 < s.smudge < s.here && 0 < s.words[s.smudge].begin <= s.smudge && OpenIsNewest(s))
  }

  /** Ended: linked into its bucket of the current list, unless it has no name. */
  function Ended(s: State): State
    requires Sound(s) && Open(s)
  {
    var w := s.words[s.smudge];
    var t := s.tables[s.current];
    var i := Index(w.hash, |t|);
    var linked: Table := t[..i] + [s.smudge] + t[i + 1..];
    if w.length > 0 then
      s.(words := s.words[s.smudge := w.(link := t[i], smudged := false)], tables := s.tables[s.current := linked])
    else s.(words := s.words[s.smudge := w.(smudged := false)])
  }

  function CutTable(m: Memory, t: Table, where: nat): Table {
    seq(|t|, i requires 0 <= i < |t| => Cut(m, t[i], where))
  }

  function Forgotten(s: State, where: nat): State
    requires s.current < |s.tables|
  {
    s.(tables := s.tables[s.current := CutTable(s.words, s.tables[s.current], where)], here := where)
  }

  // ----- Each step keeps the chains -----

  lemma TablesGrow(m: Memory, m': Memory, tables: seq<Table>, limit: nat, limit': nat)
    requires forall l :: 0 <= l < |tables| ==> TableOk(m, tables[l], limit)
    requires Agree(m, m', limit) && limit <= limit'
    ensures forall l :: 0 <= l < |tables| ==> TableOk(m', tables[l], limit')
  {
    forall l, i | 0 <= l < |tables| && 0 <= i < |tables[l]| ensures ChainOk(m', tables[l][i], i, |tables[l]|, limit') {
      assert TableOk(m, tables[l], limit);
      ChainOkAgree(m, m', tables[l][i], i, |tables[l]|, limit, limit');
    }
  }

  lemma BegunSound(s: State, name: string)
    requires Sound(s)
    ensures Sound(Begun(s, name)) && Open(Begun(s, name)) && Agree(s.words, Begun(s, name).words, s.here)
  {
    var t := Begun(s, name);
    TablesGrow(s.words, t.words, s.tables, s.here, t.here);
    forall l, i | 0 <= l < |s.tables| && 0 <= i < |s.tables[l]| ensures s.tables[l][i] < t.smudge {
      assert TableOk(s.words, s.tables[l], s.here);
      assert ChainOk(s.words, s.tables[l][i], i, |s.tables[l]|, s.here);
    }
  }

  lemma BegunLinks(s: State, name: string, l: nat, d: nat)
    requires Sound(s) && l < |s.tables|
    ensures Linked(Begun(s, name).words, s.tables[l], d) <==> Linked(s.words, s.tables[l], d)
    ensures Linked(s.words, s.tables[l], d) ==> d in s.words && Begun(s, name).words[d] == s.words[d]
  {
    BegunSound(s, name);
    LinkedAgree(s.words, Begun(s, name).words, s.tables[l], s.here, d);
    if Linked(s.words, s.tables[l], d) { LinkedBelow(s.words, s.tables[l], s.here, d); }
  }

  /** The words below the open one are as they were; its own bucket has it in front. */
  lemma EndedSound(s: State)
    requires Sound(s) && Open(s)
    ensures Sound(Ended(s)) && !Open(Ended(s)) && Agree(s.words, Ended(s).words, s.smudge)
  {
    var e := Ended(s);
    forall l | 0 <= l < |s.tables| ensures TableOk(e.words, e.tables[l], e.here) {
      forall i | 0 <= i < |e.tables[l]| ensures ChainOk(e.words, e.tables[l][i], i, |e.tables[l]|, e.here) {
        EndedChain(s, e.words, l, i);
      }
    }
  }

  lemma EndedChain(s: State, m: Memory, l: nat, i: nat)
    requires Sound(s) && Open(s) && l < |s.tables| && i < |s.tables[l]| && m == Ended(s).words
    ensures ChainOk(m, Ended(s).tables[l][i], i, |s.tables[l]|, s.here)
  {
    var t := s.tables[l];
    assert TableOk(s.words, t, s.here);
    assert t[i] < s.smudge;
    ChainBelow(s.words, t[i], i, |t|, s.here, s.smudge);
    ChainOkAgree(s.words, m, t[i], i, |t|, s.smudge, s.smudge);
    ChainOkAgree(s.words, m, t[i], i, |t|, s.smudge, s.here);
  }

  /** Exactly the open word, if it has a name, joins exactly the current list. */
  lemma EndedLinks(s: State, l: nat, d: nat)
    requires Sound(s) && Open(s) && l < |s.tables|
    ensures var e := Ended(s);
            Linked(e.words, e.tables[l], d) <==>
            Linked(s.words, s.tables[l], d) || (d == s.smudge && l == s.current && s.words[d].length > 0)
  {
    var e, t := Ended(s), s.tables[l];
    assert TableOk(s.words, t, s.here);
    if d in s.words {
      var i := Index(s.words[d].hash, |t|);
      assert t[i] < s.smudge;
      ChainAgree(s.words, e.words, t[i], s.smudge);
      ChainBelow(s.words, t[i], i, |t|, s.here, s.smudge);
      if d in Chain(s.words, t[i]) { ChainMember(s.words, t[i], i, |t|, s.smudge, d); }
      if l == s.current && s.words[s.smudge].length > 0 && Index(s.words[s.smudge].hash, |t|) == i {
        assert Chain(e.words, s.smudge) == [s.smudge] + Chain(e.words, t[i]);
      }
    }
  }

  // ----- Going on from a state -----

  /** Later: nothing below the old end has changed, and cutting every chain there gives it back. */
  ghost predicate Extends(s: State, t: State) {
    && Sound(s) && Agree(s.words, t.words, s.here) && s.here <= t.here && |t.tables| == |s.tables|
    && (forall l :: 0 <= l < |s.tables| ==> CutTable(t.words, t.tables[l], s.here) == s.tables[l])
  }

  lemma ExtendsSame(s: State)
    requires Sound(s)
    ensures Extends(s, s)
  {
    forall l | 0 <= l < |s.tables| ensures CutTable(s.words, s.tables[l], s.here) == s.tables[l] {
      assert TableOk(s.words, s.tables[l], s.here);
      forall i | 0 <= i < |s.tables[l]| ensures Cut(s.words, s.tables[l][i], s.here) == s.tables[l][i] {
        assert ChainOk(s.words, s.tables[l][i], i, |s.tables[l]|, s.here);
      }
    }
  }

  lemma ExtendsBegun(s: State, t: State, name: string)
    requires Extends(s, t) && Sound(t)
    ensures Extends(s, Begun(t, name))
  {
    var u := Begun(t, name);
    BegunSound(t, name);
    forall l | 0 <= l < |s.tables| ensures CutTable(u.words, u.tables[l], s.here) == s.tables[l] {
      CutTableAgree(t.words, u.words, t.tables[l], t.here, s.here);
    }
  }

  lemma CutTableAgree(m: Memory, m': Memory, t: Table, limit: nat, where: nat)
    requires TableOk(m, t, limit) && Agree(m, m', limit)
    ensures CutTable(m', t, where) == CutTable(m, t, where)
  {
    forall i | 0 <= i < |t| ensures Cut(m', t[i], where) == Cut(m, t[i], where) {
      CutAgree(m, m', t[i], i, |t|, limit, where);
    }
  }

  /** A word begun since then, ended. */
  lemma ExtendsEnded(s: State, t: State)
    requires Extends(s, t) && Sound(t) && Open(t) && t.smudge >= s.here
    ensures Extends(s, Ended(t))
  {
    var u := Ended(t);
    forall l | 0 <= l < |s.tables| ensures CutTable(u.words, u.tables[l], s.here) == s.tables[l] {
      forall i | 0 <= i < |t.tables[l]| ensures Cut(u.words, u.tables[l][i], s.here) == s.tables[l][i] {
        assert CutTable(t.words, t.tables[l], s.here)[i] == s.tables[l][i];
        EndedCut(t, l, i, s.here);
      }
    }
  }

  lemma EndedCut(t: State, l: nat, i: nat, where: nat)
    requires Sound(t) && Open(t) && l < |t.tables| && i < |t.tables[l]| && t.smudge >= where
    ensures Cut(Ended(t).words, Ended(t).tables[l][i], where) == Cut(t.words, t.tables[l][i], where)
  {
    var u, p := Ended(t), t.tables[l][i];
    assert TableOk(t.words, t.tables[l], t.here);
    assert p < t.smudge;
    ChainBelow(t.words, p, i, |t.tables[l]|, t.here, t.smudge);
    CutAgree(t.words, u.words, p, i, |t.tables[l]|, t.smudge, where);
  }

  lemma ExtendsForgotten(s: State, t: State, where: nat)
    requires Extends(s, t) && Sound(t) && s.here <= where <= t.here
    ensures Extends(s, Forgotten(t, where))
  {
    var u := Forgotten(t, where);
    forall l | 0 <= l < |s.tables| ensures CutTable(u.words, u.tables[l], s.here) == s.tables[l] {
      assert TableOk(t.words, t.tables[l], t.here);
      forall i | 0 <= i < |t.tables[l]| ensures Cut(u.words, u.tables[l][i], s.here) == s.tables[l][i] {
        assert CutTable(t.words, t.tables[l], s.here)[i] == s.tables[l][i];
        CutTwice(t.words, t.tables[l][i], i, |t.tables[l]|, t.here, where, s.here);
      }
    }
  }

  // ----- FORGET -----

  /** No list but the current one has a word at or above `where`. */
  predicate OthersOlder(s: State, where: nat) {
    forall l, i :: 0 <= l < |s.tables| && l != s.current && 0 <= i < |s.tables[l]| ==> s.tables[l][i] < where
  }

  /** Forgetting keeps of the current list exactly the words below `where`. */
  lemma ForgottenLinks(s: State, where: nat, d: nat)
    requires Sound(s) && where > 0
    ensures Linked(s.words, Forgotten(s, where).tables[s.current], d) <==> Linked(s.words, s.tables[s.current], d) && d < where
  {
    var t := s.tables[s.current];
    assert TableOk(s.words, t, s.here);
    if d in s.words {
      var i := Index(s.words[d].hash, |t|);
      CutChain(s.words, t[i], i, |t|, s.here, where, d);
    }
  }

  /** FORGET of the word that was begun at the end of the old dictionary brings back the old end
      and every bucket of the current list, and leaves the other lists as they are now. */
  lemma ForgetBringsBack(s: State, t: State)
    requires Extends(s, t) && Sound(t)
    ensures var u := Forgotten(t, s.here);
            && u.here == s.here && u.tables[t.current] == s.tables[t.current]
            && (forall l :: 0 <= l < |t.tables| && l != t.current ==> u.tables[l] == t.tables[l])
  {
  }

  /** So the old dictionary is back exactly when no other list was given a word meanwhile. */
  lemma ForgetRestoresExactly(s: State, t: State)
    requires Extends(s, t) && Sound(t)
    ensures Forgotten(t, s.here).tables == s.tables <==> OthersOlder(t, s.here)
  {
    var u := Forgotten(t, s.here);
    ForgetBringsBack(s, t);
    if OthersOlder(t, s.here) {
      forall l | 0 <= l < |t.tables| ensures u.tables[l] == s.tables[l] {
        if l != t.current {
          assert CutTable(t.words, t.tables[l], s.here) == s.tables[l];
          assert forall i :: 0 <= i < |t.tables[l]| ==> CutTable(t.words, t.tables[l], s.here)[i] == t.tables[l][i];
        }
      }
    }
    if u.tables == s.tables {
      forall l, i | 0 <= l < |t.tables| && l != t.current && 0 <= i < |t.tables[l]| ensures t.tables[l][i] < s.here {
        assert t.tables[l] == s.tables[l] && TableOk(s.words, s.tables[l], s.here);
        assert ChainOk(s.words, s.tables[l][i], i, |s.tables[l]|, s.here);
      }
    }
  }

  /** And only then, and unless the open word is itself taken away, is what is left a dictionary:
      otherwise a list holds words beyond its end, or the open word is beyond it. */
  lemma ForgottenSoundExactly(s: State, where: nat)
    requires Sound(s) && 0 < where <= s.here
    ensures Sound(Forgotten(s, where)) <==> OthersOlder(s, where) && (Open(s) ==> s.smudge < where)
  {
    ForgottenTables(s, where);
    if Open(s) {
      forall i | 0 <= i < |s.tables[s.current]| ensures Cut(s.words, s.tables[s.current][i], where) < s.smudge {
        assert TableOk(s.words, s.tables[s.current], s.here);
        CutNoNewer(s.words, s.tables[s.current][i], where);
      }
    }
  }

  lemma {:induction false} CutNoNewer(m: Memory, p: nat, where: nat)
    ensures Cut(m, p, where) <= p
    decreases p
  {
    if p >= where && p in m && m[p].link < p { CutNoNewer(m, m[p].link, where); }
  }

  lemma ForgottenTables(s: State, where: nat)
    requires Sound(s) && 0 < where <= s.here
    ensures (forall l :: 0 <= l < |s.tables| ==> TableOk(s.words, Forgotten(s, where).tables[l], where)) <==> OthersOlder(s, where)
  {
    var u := Forgotten(s, where);
    forall l | 0 <= l < |s.tables| ensures TableOk(s.words, u.tables[l], where) <==>
      l == s.current || forall i :: 0 <= i < |s.tables[l]| ==> s.tables[l][i] < where
    {
      assert TableOk(s.words, s.tables[l], s.here);
      forall i | 0 <= i < |s.tables[l]| ensures ChainOk(s.words, u.tables[l][i], i, |s.tables[l]|, where) <==>
        l == s.current || s.tables[l][i] < where
      {
        CutChain(s.words, s.tables[l][i], i, |s.tables[l]|, s.here, where, 0);
        if s.tables[l][i] < where { ChainBelow(s.words, s.tables[l][i], i, |s.tables[l]|, s.here, where); }
      }
    }
  }

  // ----- Runs -----

  /** The longest search order. */
  const MAX_WORDLISTS := 16

  datatype Op =
    Begin(name: string) | End | Reserve(n: nat) | Use(list: nat) | Search(order: seq<nat>) | Back(where: nat)

  /** What a run may do: a definition ends once it is open, lists are named that there are, and
      nothing is forgotten when that would leave words beyond the end. */
  predicate Allowed(t: State, op: Op) {
    match op
    case Begin(_) => true
    case End => Open(t)
    case Reserve(_) => true
    case Use(l) => l < |t.tables|
    case Search(order) => |order| <= MAX_WORDLISTS && forall k :: 0 <= k < |order| ==> order[k] < |t.tables|
    case Back(where) => 0 < where <= t.here && OthersOlder(t, where) && (Open(t) ==> t.smudge < where)
  }

  function After(t: State, op: Op): State
    requires Sound(t) && Allowed(t, op)
  {
    match op
    case Begin(name) => Begun(t, name)
    case End => Ended(t)
    case Reserve(n) => t.(here := t.here + n)
    case Use(l) => t.(current := l)
    case Search(order) => t.(order := order)
    case Back(where) => Forgotten(t, where)
  }

  ghost predicate Leads(t: State, ops: seq<Op>, u: State)
    decreases |ops|
  {
    Sound(t) && if ops == [] then t == u else Allowed(t, ops[0]) && Leads(After(t, ops[0]), ops[1..], u)
  }

  /** Nothing older than s is forgotten. */
  predicate NotBefore(s: State, ops: seq<Op>) { forall k :: 0 <= k < |ops| && ops[k].Back? ==> ops[k].where >= s.here }

  /** Later than s, with no definition of before it still open. */
  ghost predicate Since(s: State, t: State) { Extends(s, t) && (Open(t) ==> t.smudge >= s.here) }

  lemma StepSince(s: State, t: State, op: Op)
    requires Since(s, t) && Sound(t) && Allowed(t, op) && (op.Back? ==> op.where >= s.here)
    ensures Since(s, After(t, op))
  {
    match op
    case Begin(name) => ExtendsBegun(s, t, name);
    case End => ExtendsEnded(s, t); EndedSound(t);
    case Reserve(n) =>
    case Use(l) =>
    case Search(order) =>
    case Back(where) => ExtendsForgotten(s, t, where);
  }

  lemma {:induction false} RunSince(s: State, t: State, ops: seq<Op>, u: State)
    requires Since(s, t) && Leads(t, ops, u) && NotBefore(s, ops)
    ensures Since(s, u) && Sound(u)
    decreases |ops|
  {
    if ops != [] {
      StepSince(s, t, ops[0]);
      RunSince(s, After(t, ops[0]), ops[1..], u);
    }
  }

  /** Over every run: begin a word, define whatever else, switch lists, forget later words; then
      forgetting from where that word was begun brings back the old end and the buckets of the
      current list, and all of the old dictionary exactly when no other list has a word from
      there on. */
  lemma ForgetAfterRun(s: State, name: string, ops: seq<Op>, u: State)
    requires Sound(s) && !Open(s) && name != "" && Leads(Begun(s, name), ops, u) && NotBefore(s, ops)
    ensures Sound(u) && |u.tables| == |s.tables|
    ensures var v := Forgotten(u, s.here);
            && Begun(s, name).words[Begun(s, name).smudge].begin == s.here
            && v.here == s.here && v.tables[u.current] == s.tables[u.current] && Agree(s.words, v.words, s.here)
            && (v.tables == s.tables <==> OthersOlder(u, s.here))
  {
    ExtendsSame(s);
    StepSince(s, s, Begin(name));
    RunSince(s, Begun(s, name), ops, u);
    ForgetBringsBack(s, u);
    ForgetRestoresExactly(s, u);
  }

  // ----- Lookup in the search order -----

  /** What a list gives for a name. */
  function InList(s: State, l: nat, name: string): nat
    requires l < |s.tables| && |s.tables[l]| > 0
  {
    Find(s.words, s.tables[l][Index(Hash(name), |s.tables[l]|)], name)
  }

  /** The first word found in the lists order[..n], the last of them first. */
  function Lookup(s: State, name: string, n: nat): nat
    requires Sound(s) && n <= |s.order|
  {
    if n == 0 then 0
    else
      assert TableOk(s.words, s.tables[s.order[n - 1]], s.here);
      var w := InList(s, s.order[n - 1], name);
      if w != 0 then w else Lookup(s, name, n - 1)
  }

  ghost predicate PlainList(m: Memory, t: Table) { forall d: nat :: Linked(m, t, d) ==> Plain(m[d]) }

  /** Every linked word was defined with a name of at most 31 characters. */
  ghost predicate PlainLists(s: State) { forall l :: 0 <= l < |s.tables| ==> PlainList(s.words, s.tables[l]) }

  /** So it stays while names are no longer than that. */
  lemma EndedPlain(s: State)
    requires Sound(s) && Open(s) && PlainLists(s) && Plain(s.words[s.smudge])
    ensures PlainLists(Ended(s))
  {
    var e := Ended(s);
    forall l, d: nat | 0 <= l < |e.tables| && Linked(e.words, e.tables[l], d) ensures Plain(e.words[d]) {
      EndedLinks(s, l, d);
      assert PlainList(s.words, s.tables[l]);
    }
  }

  /** The open word too. */
  ghost predicate PlainState(s: State) { PlainLists(s) && (Open(s) ==> Plain(s.words[s.smudge])) }

  lemma BegunPlain(s: State, name: string)
    requires Sound(s) && PlainLists(s) && |name| <= NAME_LENGTH
    ensures PlainState(Begun(s, name))
  {
    var b := Begun(s, name);
    HeaderPlain(s, name);
    assert b.words[b.smudge] == Header(s, name) && b.tables == s.tables;
    forall l | 0 <= l < |s.tables| ensures PlainList(b.words, s.tables[l]) {
      forall d: nat | Linked(b.words, s.tables[l], d) ensures Plain(b.words[d]) {
        BegunLinkedPlain(s, name, l, d);
      }
    }
  }

  lemma HeaderPlain(s: State, name: string)
    requires |name| <= NAME_LENGTH
    ensures Plain(Header(s, name))
  {
  }

  lemma BegunLinkedPlain(s: State, name: string, l: nat, d: nat)
    requires Sound(s) && PlainLists(s) && l < |s.tables| && Linked(Begun(s, name).words, s.tables[l], d)
    ensures Plain(Begun(s, name).words[d])
  {
    BegunLinks(s, name, l, d);
    assert PlainList(s.words, s.tables[l]);
  }

  lemma ForgottenPlain(s: State, where: nat)
    requires Sound(s) && PlainState(s) && where > 0
    ensures PlainState(Forgotten(s, where))
  {
    var u := Forgotten(s, where);
    forall l, d: nat | 0 <= l < |s.tables| && Linked(s.words, u.tables[l], d) ensures Plain(s.words[d]) {
      if l == s.current { ForgottenLinks(s, where, d); }
      assert PlainList(s.words, s.tables[l]);
    }
  }

  lemma StepPlain(t: State, op: Op)
    requires Sound(t) && Allowed(t, op) && PlainState(t) && (op.Begin? ==> |op.name| <= NAME_LENGTH)
    ensures PlainState(After(t, op))
  {
    match op
    case Begin(name) => BegunPlain(t, name);
    case End => EndedPlain(t); EndedSound(t);
    case Reserve(n) =>
    case Use(l) =>
    case Search(order) =>
    case Back(where) => ForgottenPlain(t, where);
  }

  predicate ShortNames(ops: seq<Op>) { forall k :: 0 <= k < |ops| && ops[k].Begin? ==> |ops[k].name| <= NAME_LENGTH }

  /** Over every run whose names have at most 31 characters. */
  lemma {:induction false} RunPlain(t: State, ops: seq<Op>, u: State)
    requires Leads(t, ops, u) && PlainState(t) && ShortNames(ops)
    ensures Sound(u) && PlainState(u)
    decreases |ops|
  {
    if ops != [] {
      StepPlain(t, ops[0]);
      RunPlain(After(t, ops[0]), ops[1..], u);
    }
  }

  lemma InListIsNewest(s: State, l: nat, name: string)
    requires Sound(s) && l < |s.tables| && |name| <= NAME_LENGTH && PlainLists(s)
    ensures |s.tables[l]| > 0 && Newest(s.words, s.tables[l], name, InList(s, l, name))
  {
    assert TableOk(s.words, s.tables[l], s.here) && PlainList(s.words, s.tables[l]);
    BucketIsEnough(s.words, s.tables[l], s.here, name);
  }

  /** d is the newest definition of the name in the topmost of the lists order[..n] that has
      one; zero if none has. */
  ghost predicate NewestInOrder(s: State, name: string, n: nat, d: nat)
    requires Sound(s) && n <= |s.order|
  {
    if n == 0 then d == 0
    else
      var t := s.tables[s.order[n - 1]];
      if d != 0 && Newest(s.words, t, name, d) then true
      else Newest(s.words, t, name, 0) && NewestInOrder(s, name, n - 1, d)
  }

  lemma {:induction false} LookupIsNewest(s: State, name: string, n: nat)
    requires Sound(s) && n <= |s.order| && |name| <= NAME_LENGTH && PlainLists(s)
    ensures NewestInOrder(s, name, n, Lookup(s, name, n))
    decreases n
  {
    if n > 0 {
      InListIsNewest(s, s.order[n - 1], name);
      if InList(s, s.order[n - 1], name) == 0 { LookupIsNewest(s, name, n - 1); }
    }
  }

  /** A word that is found is a header of the dictionary. */
  lemma {:induction false} LookupFound(s: State, name: string, n: nat)
    requires Sound(s) && n <= |s.order| && Lookup(s, name, n) != 0
    ensures var w := Lookup(s, name, n); w in s.words && 0 < s.words[w].begin <= w < s.here
    ensures Open(s) ==> Lookup(s, name, n) < s.smudge
    decreases n
  {
    var l := s.order[n - 1];
    var t := s.tables[l];
    assert TableOk(s.words, t, s.here);
    var i := Index(Hash(name), |t|);
    FindNewest(s.words, t[i], i, |t|, s.here, name);
    if InList(s, l, name) != 0 { ChainMember(s.words, t[i], i, |t|, s.here, InList(s, l, name)); }
    if InList(s, l, name) == 0 { LookupFound(s, name, n - 1); }
  }

  // ----- A run that FORGET does not survive -----

  /** Two empty lists of one bucket; a word in the first, then one in the second. */
  const TWO_LISTS := State(map[], 4, 0, [[0], [0]], 0, [0])
  const CROSSING: seq<Op> := [Begin("a"), End, Use(1), Begin("b"), End, Use(0)]

  lemma LeadsStep(t: State, op: Op, rest: seq<Op>, u: State)
    requires Sound(t) && Allowed(t, op) && Leads(After(t, op), rest, u)
    ensures Leads(t, [op] + rest, u)
  {
    assert ([op] + rest)[1..] == rest;
  }

  /** A definition from its first character to its end. */
  lemma LeadsDefinition(t: State, name: string, rest: seq<Op>, u: State)
    requires Sound(t) && Open(Begun(t, name)) && Sound(Begun(t, name)) && Leads(Ended(Begun(t, name)), rest, u)
    ensures Leads(t, [Begin(name), End] + rest, u)
  {
    LeadsStep(Begun(t, name), End, rest, u);
    LeadsStep(t, Begin(name), [End] + rest, u);
    assert [Begin(name)] + ([End] + rest) == [Begin(name), End] + rest;
  }

  /** Where a one-letter definition comes to lie, and in a list of one bucket. */
  function OneWord(t: State, name: string): State
    requires t.current < |t.tables|
  {
    var w := t.here + 4;
    State(t.words[w := Word(t.here, name, 1, Hash(name), 0, false)], t.here + 24, w, t.tables[t.current := [w]], t.current, t.order)
  }

  lemma OneLetter(t: State, name: string)
    requires Sound(t) && |name| == 1 && t.here % ALIGNMENT == 0 && t.tables[t.current] == [0]
    ensures Sound(Begun(t, name)) && Open(Begun(t, name)) && Ended(Begun(t, name)) == OneWord(t, name)
    ensures Sound(OneWord(t, name)) && !Open(OneWord(t, name))
  {
    var b := Begun(t, name);
    BegunSound(t, name);
    EndedSound(b);
    OneLetterBegun(t, name, b);
    EndedOneBucket(b);
  }

  lemma OneLetterBegun(t: State, name: string, b: State)
    requires |name| == 1 && t.here % ALIGNMENT == 0 && b == Begun(t, name)
    ensures b.smudge == t.here + 4 && b.here == t.here + 24
    ensures b.words == t.words[t.here + 4 := Word(t.here, name, 1, Hash(name), 0, true)]
  {
    assert AfterName(t.here, 1) == t.here + 4;
  }

  lemma EndedOneBucket(b: State)
    requires Sound(b) && Open(b) && b.words[b.smudge].length > 0 && b.tables[b.current] == [0]
    ensures Ended(b) == b.(words := b.words[b.smudge := b.words[b.smudge].(link := 0, smudged := false)],
                           tables := b.tables[b.current := [b.smudge]])
  {
    assert [0][..0] + [b.smudge] + [0][1..] == [b.smudge];
  }

  lemma DefineAndUse(t: State, name: string, l: nat, rest: seq<Op>, v: State, u: State)
    requires Sound(t) && |name| == 1 && t.here % ALIGNMENT == 0 && t.tables[t.current] == [0] && l < |t.tables|
    requires v == OneWord(t, name).(current := l) && Leads(v, rest, u)
    ensures Leads(t, [Begin(name), End] + ([Use(l)] + rest), u)
  {
    OneLetter(t, name);
    LeadsStep(OneWord(t, name), Use(l), rest, u);
    LeadsDefinition(t, name, [Use(l)] + rest, u);
  }

  const WORD_A := Word(4, "a", 1, Hash("a"), 0, false)
  const WORD_B := Word(28, "b", 1, Hash("b"), 0, false)
  const ONE_DEFINED := State(map[8 := WORD_A], 28, 8, [[8], [0]], 1, [0])
  const CROSSED := State(map[8 := WORD_A, 32 := WORD_B], 52, 32, [[8], [32]], 0, [0])

  lemma FirstDefined()
    ensures OneWord(TWO_LISTS, "a").(current := 1) == ONE_DEFINED && Sound(ONE_DEFINED)
  {
    OneLetter(TWO_LISTS, "a");
  }

  lemma BothDefined()
    ensures OneWord(ONE_DEFINED, "b").(current := 0) == CROSSED && Sound(CROSSED) && !Open(CROSSED)
  {
    FirstDefined();
    OneLetter(ONE_DEFINED, "b");
  }

  lemma CrossingLeads()
    ensures Leads(TWO_LISTS, CROSSING, CROSSED)
  {
    FirstDefined();
    BothDefined();
    DefineAndUse(ONE_DEFINED, "b", 0, [], CROSSED, CROSSED);
    DefineAndUse(TWO_LISTS, "a", 1, [Begin("b"), End] + ([Use(0)] + []), ONE_DEFINED, CROSSED);
    assert [Begin("a"), End] + ([Use(1)] + ([Begin("b"), End] + ([Use(0)] + []))) == CROSSING;
  }

  /** FORGET of the first word then finds it, and leaves the second list with a word beyond the
      end of the dictionary. */
  lemma ForgetAcrossLists()
    ensures Leads(TWO_LISTS, CROSSING, CROSSED) && Sound(CROSSED) && !Open(CROSSED)
    ensures Lookup(CROSSED, "a", 1) == 8 && CROSSED.words[8].begin == 4
    ensures !OthersOlder(CROSSED, 4) && !Sound(Forgotten(CROSSED, 4))
  {
    CrossingLeads();
    BothDefined();
    assert InList(CROSSED, 0, "a") == 8;
    assert CROSSED.tables[1][0] >= 4;
    ForgottenSoundExactly(CROSSED, 4);
  }

  // ----- The dictionary itself -----

  class Dictionary {
    var words: Memory
    var here: nat
    var smudge: nat
    var tables: seq<Table>
    var current: nat
    var order: seq<nat>

    /** Lists of these sizes, all empty. */
    constructor (start: nat, sizes: seq<nat>, current: nat, order: seq<nat>)
      requires start > 0 && current < |sizes| && forall l :: 0 <= l < |sizes| ==> sizes[l] > 0
      requires forall k :: 0 <= k < |order| ==> order[k] < |sizes|
      ensures Sound(Now()) && !Open(Now()) && here == start && this.current == current && this.order == order
      ensures |tables| == |sizes| && forall l, d: nat :: 0 <= l < |tables| ==> !Linked(words, tables[l], d)
    {
      words, here, smudge := map[], start, 0;
      tables := seq(|sizes|, l requires 0 <= l < |sizes| => seq(sizes[l], i => 0));
      this.current, this.order := current, order;
    }

    ghost function Now(): State
      reads this
    {
      State(words, here, smudge, tables, current, order)
    }

    /** ficlDictionaryAppendString: at most 31 characters, copied to the end of the dictionary. */
    method AppendString(name: string) returns (begin: nat, copy: string)
      modifies this`here
      ensures copy == Taken(name) && here == AfterName(old(here), |copy|)
      ensures begin == if |copy| == 0 then AfterName(old(here), 0) else old(here)
    {
      copy := if |name| > NAME_LENGTH then name[..NAME_LENGTH] else name;
      begin := if |copy| == 0 then AfterName(here, 0) else here;
      here := AfterName(here, |copy|);
    }

    /** The header at the end of the dictionary, behind its name. */
    method AppendHeader(name: string)
      modifies this
      ensures Now() == Begun(old(Now()), name)
    {
      var begin, copy := AppendString(name);
      var code := HashCode(name);
      smudge := here;
      words := words[here := Word(begin, copy, |name| % 256, code, 0, true)];
      here := here + HEADER;
    }

    /** ficlDictionaryAppendWord: a word that is open, or linked at once. */
    method AppendWord(name: string, open: bool)
      requires Sound(Now())
      modifies this
      ensures Now() == if open then Begun(old(Now()), name) else EndedNow(Begun(old(Now()), name))
      ensures Sound(Now()) && (Open(Now()) <==> open)
    {
      BegunSound(Now(), name);
      AppendHeader(name);
      if !open { Unsmudge(); }
    }

    ghost function EndedNow(s: State): State { if Sound(s) && Open(s) then Ended(s) else s }

    /** ficlDictionaryUnsmudge and ficlHashInsertWord */
    method Unsmudge()
      requires Sound(Now()) && Open(Now())
      modifies this
      ensures Now() == Ended(old(Now())) && Sound(Now()) && !Open(Now())
    {
      EndedSound(Now());
      var word := words[smudge];
      if word.length > 0 {
        var table := tables[current];
        assert TableOk(words, table, here);
        var i := if |table| == 1 then 0 else word.hash % |table|;
        word := word.(link := table[i]);
        var linked: Table := table[..i] + [smudge] + table[i + 1..];
        tables := tables[current := linked];
      }
      words := words[smudge := word.(smudged := false)];
    }

    method Allot(n: nat)
      requires Sound(Now())
      modifies this`here
      ensures Now() == old(Now()).(here := old(here) + n) && Sound(Now())
    {
      TablesGrow(words, words, tables, here, here + n);
      here := here + n;
    }

    method SetCurrent(l: nat)
      requires Sound(Now()) && l < |tables|
      modifies this`current
      ensures Now() == old(Now()).(current := l) && Sound(Now())
    {
      current := l;
    }

    /** ficlPrimitiveSetOrder: it throws when there are too many lists. */
    method SetOrder(order: seq<nat>) returns (ok: bool)
      requires Sound(Now()) && forall k :: 0 <= k < |order| ==> order[k] < |tables|
      modifies this`order
      ensures ok <==> |order| <= MAX_WORDLISTS
      ensures Now() == (if ok then old(Now()).(order := order) else old(Now())) && Sound(Now())
    {
      ok := |order| <= MAX_WORDLISTS;
      if ok { this.order := order; }
    }

    /** ficlHashLookup */
    method HashLookup(l: nat, name: string, code: Code) returns (w: nat)
      requires Sound(Now()) && l < |tables| && code == Hash(name)
      ensures |tables[l]| > 0 && w == InList(Now(), l, name)
    {
      var table := tables[l];
      assert TableOk(words, table, here);
      ghost var i := Index(code, |table|);
      w := table[if |table| > 1 then code % |table| else 0];
      ghost var p := w;
      while w != 0
        invariant ChainOk(words, w, i, |table|, here)
        invariant Find(words, w, name) == Find(words, p, name)
        decreases w
      {
        var same := Compare(words[w], name);
        if same { return; }
        w := words[w].link;
      }
    }

    method Compare(word: Word, name: string) returns (same: bool)
      ensures same == Matches(word, name)
    {
      var n := if |name| > NAME_LENGTH then NAME_LENGTH else |name|;
      same := false;
      if word.length == |name| && |word.name| >= n {
        var order := Strincmp(name, word.name, n);
        same := order == 0;
      }
    }

    method LookupName(name: string) returns (w: nat)
      requires Sound(Now())
      ensures w == Lookup(Now(), name, |order|)
    {
      var code := HashCode(name);
      var i: int := |order| - 1;
      w := 0;
      while i >= 0 && w == 0
        invariant -1 <= i < |order|
        invariant Lookup(Now(), name, |order|) == if w != 0 then w else Lookup(Now(), name, i + 1)
        decreases i + 1
      {
        w := HashLookup(order[i], name, code);
        i := i - 1;
      }
    }

    /** ficlPrimitiveForget: it looks the name up in the search order, but unlinks words from the
        current list alone.  It throws when the name is not found. */
    method Forget(name: string) returns (found: bool)
      requires Sound(Now())
      modifies this
      ensures found <==> Lookup(old(Now()), name, |old(Now()).order|) != 0
      ensures !found ==> Now() == old(Now())
      ensures found ==>
        var s := old(Now());
        var w := Lookup(s, name, |s.order|);
        && w in s.words && Now() == Forgotten(s, s.words[w].begin)
        && (Sound(Now()) <==> !Open(s) && OthersOlder(s, s.words[w].begin))
    {
      ghost var s := Now();
      var w := LookupName(name);
      found := w != 0;
      if found {
        LookupFound(s, name, |order|);
        var where := words[w].begin;
        HashForget(where);
        here := where;
        ForgottenSoundExactly(s, where);
      }
    }

    /** ficlHashForget, on the current list */
    method HashForget(where: nat)
      requires Sound(Now()) && where > 0
      modifies this`tables
      ensures tables == old(tables)[current := CutTable(words, old(tables)[current], where)]
    {
      ghost var s := Now();
      var table: Table := tables[current];
      assert TableOk(words, table, here);
      var i: nat := 0;
      while i < |table|
        invariant i <= |table| == |s.tables[current]|
        invariant forall k :: 0 <= k < i ==> table[k] == Cut(words, s.tables[current][k], where)
        invariant forall k :: i <= k < |table| ==> table[k] == s.tables[current][k]
      {
        var p: nat := table[i];
        ghost var size := |table|;
        while p >= where
          invariant ChainOk(words, p, i, size, here)
          invariant Cut(words, p, where) == Cut(words, s.tables[current][i], where)
          decreases p
        {
          p := words[p].link;
        }
        table := table[..i] + [p] + table[i + 1..];
        i := i + 1;
      }
      assert table == CutTable(words, s.tables[current], where);
      tables := tables[current := table];
    }
  }
}
