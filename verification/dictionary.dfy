/** The dictionary: words chained in hash buckets by name, and FORGET, which takes back every
    word from some address on. */
module Dictionaries {

  const NAME_LENGTH := 31

  /** The size of a word's header before its parameters, and the alignment of cells. */
  const HEADER := 20
  const ALIGNMENT := 4

  // ----- Names -----

  /** tolower on ASCII */
  function Lower(c: char): char {
    if 'A' <= c <= 'Z' then (c as int + 32) as char else c
  }

  /** The text up to a NUL, in lower case. */
  function Folded(s: string): string {
    if s == "" || s[0] == '\0' then "" else [Lower(s[0])] + Folded(s[1..])
  }

  function Taken(s: string): string { if |s| > NAME_LENGTH then s[..NAME_LENGTH] else s }

  type Code = x: int | 0 <= x < 0x1_0000

  function XorBit(a: nat, b: nat, bit: nat): (x: nat)
    requires bit > 0
    ensures x <= bit
  {
    if (a / bit) % 2 != (b / bit) % 2 then bit else 0
  }

  /** Exclusive or of four bits. */
  function Xor4(a: nat, b: nat): (x: nat)
    ensures x < 16
  {
    XorBit(a, b, 1) + XorBit(a, b, 2) + XorBit(a, b, 4) + XorBit(a, b, 8)
  }

  /** One character shifted into the code: the four bits that come out at the top are taken
      away and folded in again below. */
  function HashTurn(code: Code, c: char): (next: Code)
    ensures next < 0x1000
  {
    var shifted := (code * 16 + c as int) % 0x1_0000;
    var top, rest := shifted / 4096, shifted % 4096;
    var bits := rest / 16 % 16;
    rest - bits * 16 + Xor4(bits, top) * 16
  }

  function HashFrom(code: Code, s: string): Code
    decreases |s|
  {
    if s == "" || s[0] == '\0' then code else HashFrom(HashTurn(code, Lower(s[0])), s[1..])
  }

  /** ficlHashCode; the code starts from the length. */
  function Hash(name: string): Code {
    if name == "" then 0 else HashFrom(|name| % 0x1_0000, name)
  }

  /** Names of one length that differ in case alone have one code. */
  lemma {:induction false} HashFolded(code: Code, a: string, b: string)
    requires Folded(a) == Folded(b)
    ensures HashFrom(code, a) == HashFrom(code, b)
    decreases |a|
  {
    var endA, endB := a == "" || a[0] == '\0', b == "" || b[0] == '\0';
    if endA {
      assert Folded(b) == "";
    } else {
      assert !endB;
      assert Folded(a)[0] == Lower(a[0]) && Folded(b)[0] == Lower(b[0]);
      assert Folded(a)[1..] == Folded(a[1..]) && Folded(b)[1..] == Folded(b[1..]);
      HashFolded(HashTurn(code, Lower(a[0])), a[1..], b[1..]);
    }
  }

  method HashCode(name: string) returns (code: Code)
    ensures code == Hash(name)
  {
    if |name| == 0 { return 0; }
    code := |name| % 0x1_0000;
    var i := 0;
    while i < |name| && name[i] != '\0'
      invariant 0 <= i <= |name| && HashFrom(code, name[i..]) == Hash(name)
    {
      assert name[i..][0] == name[i] && name[i..][1..] == name[i + 1..];
      code := HashTurn(code, Lower(name[i]));
      i := i + 1;
    }
  }

  lemma FoldedStep(s: string)
    requires s != "" && s[0] != '\0'
    ensures Folded(s) != "" && Folded(s)[0] == Lower(s[0]) && Folded(s)[1..] == Folded(s[1..])
  {
  }

  /** Character by character: the folded texts agree on their first i characters. */
  lemma FoldedAgree(a: string, b: string)
    requires |a| == |b| && a != ""
    ensures Lower(a[0]) != Lower(b[0]) ==> Folded(a) != Folded(b)
    ensures Lower(a[0]) == Lower(b[0]) && a[0] == '\0' ==> Folded(a) == Folded(b)
    ensures Lower(a[0]) == Lower(b[0]) && a[0] != '\0' ==> (Folded(a) == Folded(b) <==> Folded(a[1..]) == Folded(b[1..]))
  {
    if a[0] != '\0' { FoldedStep(a); }
    if b[0] != '\0' { FoldedStep(b); }
    if a[0] != '\0' && b[0] != '\0' && Folded(a[1..]) == Folded(b[1..]) && Lower(a[0]) == Lower(b[0]) {
      assert Folded(a) == [Lower(a[0])] + Folded(a[1..]);
      assert Folded(b) == [Lower(b[0])] + Folded(b[1..]);
    }
  }

  /** One character, or the upper and the lower case of one ASCII letter. */
  predicate SameLetter(x: char, y: char) {
    x == y || ('A' <= x <= 'Z' && y as int == x as int + 32) || ('A' <= y <= 'Z' && x as int == y as int + 32)
  }

  predicate SameAt(a: string, b: string, k: nat)
    requires k < |a| == |b|
  {
    '\0' in a[..k] || SameLetter(a[k], b[k])
  }

  /** Up to a NUL in the first, the two differ in the case of letters alone. */
  predicate SameText(a: string, b: string) { |a| == |b| && forall k :: 0 <= k < |a| ==> SameAt(a, b, k) }

  /** Texts of one length fold to one exactly when they differ in case alone. */
  lemma {:induction false} FoldedExactly(a: string, b: string)
    requires |a| == |b|
    ensures Folded(a) == Folded(b) <==> SameText(a, b)
    decreases |a|
  {
    if a != "" {
      FoldedAgree(a, b);
      assert Lower(a[0]) == Lower(b[0]) <==> SameLetter(a[0], b[0]);
      SameTextStep(a, b);
      FoldedExactly(a[1..], b[1..]);
    }
  }

  lemma SameTextStep(a: string, b: string)
    requires |a| == |b| && a != ""
    ensures SameText(a, b) <==> SameLetter(a[0], b[0]) && (a[0] == '\0' || SameText(a[1..], b[1..]))
  {
    var a', b' := a[1..], b[1..];
    forall k | 0 <= k < |a'| ensures SameAt(a, b, k + 1) <==> a[0] == '\0' || SameAt(a', b', k) {
      assert a[..k + 1] == [a[0]] + a'[..k] && a[k + 1] == a'[k] && b[k + 1] == b'[k];
    }
    assert SameAt(a, b, 0) <==> SameLetter(a[0], b[0]);
    if SameText(a, b) && a[0] != '\0' {
      forall k | 0 <= k < |a'| ensures SameAt(a', b', k) { assert SameAt(a, b, k + 1); }
    }
    if SameLetter(a[0], b[0]) && (a[0] == '\0' || SameText(a', b')) {
      forall k | 0 <= k < |a| ensures SameAt(a, b, k) {
        if k > 0 { assert SameAt(a, b, (k - 1) + 1) <==> a[0] == '\0' || SameAt(a', b', k - 1); }
      }
    }
  }

  /** ficlStrincmp */
  method Strincmp(a: string, b: string, count: nat) returns (order: int)
    requires count <= |a| && count <= |b|
    ensures order == 0 <==> Folded(a[..count]) == Folded(b[..count])
    ensures order == 0 <==> SameText(a[..count], b[..count])
  {
    FoldedExactly(a[..count], b[..count]);
    var i := 0;
    while i < count
      invariant 0 <= i <= count
      invariant Folded(a[..count]) == Folded(b[..count]) <==> Folded(a[i..count]) == Folded(b[i..count])
    {
      FoldedAgree(a[i..count], b[i..count]);
      assert a[i..count][1..] == a[i + 1..count] && b[i..count][1..] == b[i + 1..count];
      order := Lower(a[i]) as int - Lower(b[i]) as int;
      if order != 0 { return; }
      if a[i] == '\0' { return 0; }
      i := i + 1;
    }
    order := 0;
  }

  // ----- Words -----

  /** A header: where the copy of its name begins, the copy, the length kept in one byte, the
      code of the whole name, the word before it in its bucket, and whether it is still open. */
  datatype Word = Word(begin: nat, name: string, length: nat, hash: Code, link: nat, smudged: bool)

  /** Words by address; zero is no word. */
  type Memory = map<nat, Word>
  type Table = seq<nat>

  /** The comparison made in a bucket. */
  predicate Matches(w: Word, name: string) {
    var n := |Taken(name)|;
    w.length == |name| && |w.name| >= n && Folded(w.name[..n]) == Folded(name[..n])
  }

  function Index(hash: Code, size: nat): (i: nat)
    requires size > 0
    ensures i < size
  {
    if size == 1 then 0 else hash % size
  }

  /** The chain that starts at p, the newest word first. */
  function Chain(m: Memory, p: nat): seq<nat>
    decreases p
  {
    if p == 0 || p !in m then [] else if m[p].link < p then [p] + Chain(m, m[p].link) else [p]
  }

  /** Linked words of bucket i, each older than the one before and below `limit`. */
  predicate ChainOk(m: Memory, p: nat, i: nat, size: nat, limit: nat)
    requires size > 0
    decreases p
  {
    p == 0 || (p in m && p < limit && m[p].link < p && !m[p].smudged && Index(m[p].hash, size) == i
               && 0 < m[p].begin <= p && ChainOk(m, m[p].link, i, size, limit))
  }

  predicate TableOk(m: Memory, t: Table, limit: nat) {
    |t| > 0 && forall i :: 0 <= i < |t| ==> ChainOk(m, t[i], i, |t|, limit)
  }

  /** d is in the list. */
  predicate Linked(m: Memory, t: Table, d: nat) {
    |t| > 0 && d in m && d in Chain(m, t[Index(m[d].hash, |t|)])
  }

  /** Below `limit` the memories are the same. */
  ghost predicate Agree(m: Memory, m': Memory, limit: nat) {
    forall a: nat :: a < limit ==> (a in m <==> a in m') && (a in m ==> m[a] == m'[a])
  }

  lemma {:induction false} ChainAgree(m: Memory, m': Memory, p: nat, limit: nat)
    requires Agree(m, m', limit) && (p == 0 || p < limit)
    ensures Chain(m, p) == Chain(m', p)
    decreases p
  {
    if p != 0 && p in m && m[p].link < p { ChainAgree(m, m', m[p].link, limit); }
  }

  lemma {:induction false} ChainOkAgree(m: Memory, m': Memory, p: nat, i: nat, size: nat, limit: nat, limit': nat)
    requires size > 0 && Agree(m, m', limit) && ChainOk(m, p, i, size, limit) && limit <= limit'
    ensures ChainOk(m', p, i, size, limit')
    decreases p
  {
    if p != 0 { ChainOkAgree(m, m', m[p].link, i, size, limit, limit'); }
  }

  lemma {:induction false} ChainMember(m: Memory, p: nat, i: nat, size: nat, limit: nat, d: nat)
    requires size > 0 && ChainOk(m, p, i, size, limit) && d in Chain(m, p)
    ensures d in m && 0 < d <= p && d < limit && Index(m[d].hash, size) == i && 0 < m[d].begin <= d
    decreases p
  {
    if d != p { ChainMember(m, m[p].link, i, size, limit, d); }
  }

  lemma LinkedBelow(m: Memory, t: Table, limit: nat, d: nat)
    requires TableOk(m, t, limit) && Linked(m, t, d)
    ensures 0 < d < limit
  {
    var i := Index(m[d].hash, |t|);
    ChainMember(m, t[i], i, |t|, limit, d);
  }

  /** Words above `limit` make no difference to a list that is below it. */
  lemma LinkedAgree(m: Memory, m': Memory, t: Table, limit: nat, d: nat)
    requires TableOk(m, t, limit) && Agree(m, m', limit)
    ensures Linked(m', t, d) <==> Linked(m, t, d)
  {
    forall i | 0 <= i < |t| ensures ChainOk(m', t[i], i, |t|, limit) && Chain(m, t[i]) == Chain(m', t[i]) {
      ChainOkAgree(m, m', t[i], i, |t|, limit, limit);
      ChainAgree(m, m', t[i], limit);
    }
    if Linked(m, t, d) { LinkedBelow(m, t, limit, d); }
    if Linked(m', t, d) { LinkedBelow(m', t, limit, d); }
  }

  // ----- Lookup -----

  function Find(m: Memory, p: nat, name: string): nat
    decreases p
  {
    if p == 0 || p !in m then 0
    else if Matches(m[p], name) then p
    else if m[p].link < p then Find(m, m[p].link, name) else 0
  }

  /** The search of a chain finds its newest match. */
  lemma {:induction false} FindNewest(m: Memory, p: nat, i: nat, size: nat, limit: nat, name: string)
    requires size > 0 && ChainOk(m, p, i, size, limit)
    ensures var r := Find(m, p, name);
            && (r == 0 ==> forall d: nat :: d in m && d in Chain(m, p) ==> !Matches(m[d], name))
            && (r != 0 ==> r in Chain(m, p) && r in m && 0 < m[r].begin <= r < limit && Matches(m[r], name))
            && (r != 0 ==> forall d: nat :: d in m && d in Chain(m, p) && Matches(m[d], name) ==> d <= r)
    decreases p
  {
    if p != 0 {
      if Matches(m[p], name) {
        forall d: nat | d in Chain(m, p) ensures d <= p { ChainMember(m, p, i, size, limit, d); }
      } else {
        FindNewest(m, m[p].link, i, size, limit, name);
      }
    }
  }

  /** The word's code is that of its copied name: so it is for every name of at most 31 characters. */
  predicate Plain(w: Word) { |w.name| <= NAME_LENGTH && w.length == |w.name| && w.hash == Hash(w.name) }

  /** Then a match has the code that is looked for. */
  lemma MatchHash(w: Word, name: string)
    requires Plain(w) && Matches(w, name) && |name| <= NAME_LENGTH
    ensures w.hash == Hash(name)
  {
    assert w.name[..|name|] == w.name && name[..|name|] == name;
    if name != "" { HashFolded(|name| % 0x1_0000, w.name, name); }
  }

  /** d is the newest definition of this name in the list, or there is none and d is zero. */
  ghost predicate Newest(m: Memory, t: Table, name: string, d: nat) {
    if d == 0 then forall e: nat :: Linked(m, t, e) ==> !Matches(m[e], name)
    else Linked(m, t, d) && Matches(m[d], name) && forall e: nat :: Linked(m, t, e) && Matches(m[e], name) ==> e <= d
  }

  /** Looking in one bucket is looking in the whole list. */
  lemma BucketIsEnough(m: Memory, t: Table, limit: nat, name: string)
    requires TableOk(m, t, limit) && |name| <= NAME_LENGTH
    requires forall d: nat :: Linked(m, t, d) ==> Plain(m[d])
    ensures Newest(m, t, name, Find(m, t[Index(Hash(name), |t|)], name))
  {
    var i := Index(Hash(name), |t|);
    var r := Find(m, t[i], name);
    FindNewest(m, t[i], i, |t|, limit, name);
    forall e: nat | Linked(m, t, e) && Matches(m[e], name) ensures e in Chain(m, t[i]) { MatchHash(m[e], name); }
    if r != 0 { ChainMember(m, t[i], i, |t|, limit, r); }
  }

  lemma NewestUnique(m: Memory, t: Table, t': Table, name: string, d: nat, d': nat)
    requires Newest(m, t, name, d) && Newest(m, t', name, d')
    requires forall e: nat :: Linked(m, t, e) <==> Linked(m, t', e)
    ensures d == d'
  {
  }

  /** The number of buckets makes no difference to what is found. */
  lemma BucketsDoNotMatter(m: Memory, t: Table, t': Table, limit: nat, name: string)
    requires TableOk(m, t, limit) && TableOk(m, t', limit) && |name| <= NAME_LENGTH
    requires forall d: nat :: Linked(m, t, d) <==> Linked(m, t', d)
    requires forall d: nat :: Linked(m, t, d) ==> Plain(m[d])
    ensures Find(m, t[Index(Hash(name), |t|)], name) == Find(m, t'[Index(Hash(name), |t'|)], name)
  {
    BucketIsEnough(m, t, limit, name);
    BucketIsEnough(m, t', limit, name);
    NewestUnique(m, t, t', name, Find(m, t[Index(Hash(name), |t|)], name), Find(m, t'[Index(Hash(name), |t'|)], name));
  }

  // ----- Unlinking -----

  /** The first word of a chain below `where`. */
  function Cut(m: Memory, p: nat, where: nat): nat
    decreases p
  {
    if p < where || p !in m || m[p].link >= p then p else Cut(m, m[p].link, where)
  }

  /** What is left of a chain are its words below `where`. */
  lemma {:induction false} CutChain(m: Memory, p: nat, i: nat, size: nat, limit: nat, where: nat, d: nat)
    requires size > 0 && ChainOk(m, p, i, size, limit) && where > 0
    ensures ChainOk(m, Cut(m, p, where), i, size, where)
    ensures d in Chain(m, Cut(m, p, where)) <==> d in Chain(m, p) && d < where
    decreases p
  {
    if p < where {
      ChainBelow(m, p, i, size, limit, where);
      if d in Chain(m, p) { ChainMember(m, p, i, size, limit, d); }
    } else {
      CutChain(m, m[p].link, i, size, limit, where, d);
    }
  }

  lemma {:induction false} ChainBelow(m: Memory, p: nat, i: nat, size: nat, limit: nat, where: nat)
    requires size > 0 && ChainOk(m, p, i, size, limit) && p < where
    ensures ChainOk(m, p, i, size, where)
    decreases p
  {
    if p != 0 { ChainBelow(m, m[p].link, i, size, limit, where); }
  }

  lemma {:induction false} CutTwice(m: Memory, p: nat, i: nat, size: nat, limit: nat, where: nat, below: nat)
    requires size > 0 && ChainOk(m, p, i, size, limit) && 0 < below <= where
    ensures Cut(m, Cut(m, p, where), below) == Cut(m, p, below)
    decreases p
  {
    if p >= where { CutTwice(m, m[p].link, i, size, limit, where, below); }
  }

  lemma {:induction false} CutAgree(m: Memory, m': Memory, p: nat, i: nat, size: nat, limit: nat, where: nat)
    requires size > 0 && ChainOk(m, p, i, size, limit) && Agree(m, m', limit)
    ensures Cut(m', p, where) == Cut(m, p, where)
    decreases p
  {
    if p != 0 && p >= where { CutAgree(m, m', m[p].link, i, size, limit, where); }
  }
}
