/** The hash table of parser states (State_find, State_insert): chains of state numbers,
    grown by doubling, and keyed by the sorted basis. */
module StateTables {
  import opened Items
  import opened Options

  /** statehash, without the wrap-around: only the value modulo a power of two is used. */
  function Hash(key: seq<Item>): nat {
    if key == [] then 0 else Hash(key[..|key| - 1]) * 571 + key[|key| - 1].rule * 37 + key[|key| - 1].dot
  }

  method StateHash(key: seq<Item>) returns (h: nat)
    ensures h == Hash(key)
  {
    h := 0;
    for i := 0 to |key|
      invariant h == Hash(key[..i])
    {
      h := h * 571 + key[i].rule * 37 + key[i].dot;
      assert key[..i + 1][..i] == key[..i];
    }
    assert key[..|key|] == key;
  }

  function CompareItems(a: Item, b: Item): int {
    if a.rule != b.rule then a.rule - b.rule else a.dot - b.dot
  }

  /** The order on keys: by the first item that differs, a key before its continuations. */
  predicate KeyBefore(a: seq<Item>, b: seq<Item>) {
    if b == [] then false
    else if a == [] then true
    else if a[0] != b[0] then CompareItems(a[0], b[0]) < 0
    else KeyBefore(a[1..], b[1..])
  }

  /** It is total: exactly one of three. */
  lemma {:induction false} KeysCompare(a: seq<Item>, b: seq<Item>)
    ensures !KeyBefore(a, a) && !(KeyBefore(a, b) && KeyBefore(b, a))
    ensures KeyBefore(a, b) || a == b || KeyBefore(b, a)
    decreases |a| + |b|
  {
    if a != [] { KeysCompare(a[1..], if b == [] then [] else b[1..]); }
    if a != [] && b != [] && a[0] == b[0] && a[1..] == b[1..] { assert a == [a[0]] + a[1..] == b; }
  }

  lemma {:induction false} KeyBeforeTransitive(a: seq<Item>, b: seq<Item>, c: seq<Item>)
    requires KeyBefore(a, b) && KeyBefore(b, c)
    ensures KeyBefore(a, c)
  {
    if a != [] && a[0] == b[0] && b[0] == c[0] { KeyBeforeTransitive(a[1..], b[1..], c[1..]); }
  }

  lemma KeyBeforeStep(a: seq<Item>, b: seq<Item>, i: nat)
    requires i < |a| && i < |b|
    ensures KeyBefore(a[i..], b[i..]) <==>
      if a[i] != b[i] then CompareItems(a[i], b[i]) < 0 else KeyBefore(a[i + 1..], b[i + 1..])
  {
    assert a[i..][1..] == a[i + 1..] && b[i..][1..] == b[i + 1..];
  }

  /** statecmp: the sign is that of the order on keys. */
  method StateCmp(a: seq<Item>, b: seq<Item>) returns (rc: int)
    ensures rc == 0 <==> a == b
    ensures rc < 0 <==> KeyBefore(a, b)
    ensures rc > 0 <==> KeyBefore(b, a)
  {
    rc := 0;
    var i := 0;
    KeysCompare(a, b);
    while rc == 0 && i < |a| && i < |b|
      invariant i <= |a| && i <= |b|
      invariant rc == 0 ==> a[..i] == b[..i] && (KeyBefore(a, b) <==> KeyBefore(a[i..], b[i..]))
      invariant rc != 0 ==> a != b && (rc < 0 <==> KeyBefore(a, b))
    {
      KeyBeforeStep(a, b, i);
      rc := CompareItems(a[i], b[i]);
      i := i + 1;
    }
    if rc == 0 {
      if i < |a| { rc := 1; }
      if i < |b| { rc := -1; }
    }
  }

  predicate PowerOfTwo(n: nat) {
    n == 1 || (n > 0 && n % 2 == 0 && PowerOfTwo(n / 2))
  }

  /** Number i is on the chain of its key. */
  ghost predicate OnChain(ht: seq<seq<nat>>, key: seq<Item>, i: nat)
    requires |ht| > 0
  {
    exists c :: 0 <= c < |ht[Hash(key) % |ht|]| && ht[Hash(key) % |ht|][c] == i
  }

  ghost predicate ChainsWithin(ht: seq<seq<nat>>, n: nat) {
    forall h, c :: 0 <= h < |ht| && 0 <= c < |ht[h]| ==> ht[h][c] < n
  }

  /** The first n keys are all on their chains, and nothing else is. */
  ghost predicate TableOk(ht: seq<seq<nat>>, keys: seq<seq<Item>>, n: nat) {
    && PowerOfTwo(|ht|) && |ht| > 0 && n <= |keys|
    && ChainsWithin(ht, n) && forall i :: 0 <= i < n ==> OnChain(ht, keys[i], i)
  }

  /** Put number i in front of its chain. */
  function Pushed(ht: seq<seq<nat>>, h: nat, i: nat): seq<seq<nat>>
    requires h < |ht|
  {
    ht[h := [i] + ht[h]]
  }

  lemma PushedOk(ht: seq<seq<nat>>, keys: seq<seq<Item>>, n: nat)
    requires TableOk(ht, keys, n) && n < |keys|
    ensures TableOk(Pushed(ht, Hash(keys[n]) % |ht|, n), keys, n + 1)
  {
    var h := Hash(keys[n]) % |ht|;
    var ht' := Pushed(ht, h, n);
    forall i | 0 <= i < n + 1
      ensures OnChain(ht', keys[i], i)
    {
      if i == n {
        assert ht'[h][0] == n;
      } else {
        assert OnChain(ht, keys[i], i);
        var g := Hash(keys[i]) % |ht|;
        var c :| 0 <= c < |ht[g]| && ht[g][c] == i;
        if g == h { assert ht'[g][c + 1] == i; } else { assert ht'[g][c] == i; }
      }
    }
  }

  /** State_find. */
  method StateFind(ht: seq<seq<nat>>, keys: seq<seq<Item>>, key: seq<Item>) returns (r: Option<nat>)
    requires TableOk(ht, keys, |keys|)
    ensures r.Some? ==> r.value < |keys| && keys[r.value] == key
    ensures r.None? ==> forall i :: 0 <= i < |keys| ==> keys[i] != key
  {
    var h := StateHash(key);
    var chain := ht[h % |ht|];
    for c := 0 to |chain|
      invariant forall d :: 0 <= d < c ==> keys[chain[d]] != key
    {
      var rc := StateCmp(keys[chain[c]], key);
      if rc == 0 { return Some(chain[c]); }
    }
    r := None;
    forall i | 0 <= i < |keys|
      ensures keys[i] != key
    {
      assert OnChain(ht, keys[i], i);
    }
  }

  /** The loop that moves every state to a table of another size. */
  method Rehash(keys: seq<seq<Item>>, n: nat, size: nat) returns (ht: seq<seq<nat>>)
    requires size > 0 && PowerOfTwo(size) && n <= |keys|
    ensures TableOk(ht, keys, n) && |ht| == size
  {
    ht := seq(size, _ => []);
    for i := 0 to n
      invariant TableOk(ht, keys, i) && |ht| == size
    {
      var h := StateHash(keys[i]);
      PushedOk(ht, keys, i);
      ht := Pushed(ht, h % size, i);
    }
  }

  lemma MoreKeys(ht: seq<seq<nat>>, keys: seq<seq<Item>>, key: seq<Item>)
    requires TableOk(ht, keys, |keys|)
    ensures TableOk(ht, keys + [key], |keys|)
  {
    forall i | 0 <= i < |keys|
      ensures OnChain(ht, (keys + [key])[i], i)
    {
      assert OnChain(ht, keys[i], i);
    }
  }

  /** State_insert of a key that is not there, doubling a full table first. */
  method StateInsert(ht: seq<seq<nat>>, keys: seq<seq<Item>>, key: seq<Item>) returns (ht': seq<seq<nat>>)
    requires TableOk(ht, keys, |keys|)
    ensures TableOk(ht', keys + [key], |keys| + 1)
    ensures |ht'| == if |keys| >= |ht| then 2 * |ht| else |ht|
  {
    ht' := ht;
    MoreKeys(ht, keys, key);
    if |keys| >= |ht| {
      assert 2 * |ht| / 2 == |ht|;
      ht' := Rehash(keys + [key], |keys|, 2 * |ht|);
    }
    var h := StateHash(key);
    PushedOk(ht', keys + [key], |keys|);
    ht' := Pushed(ht', h % |ht'|, |keys|);
  }
}
