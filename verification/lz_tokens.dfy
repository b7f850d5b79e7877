/** The LZ77 token stream: what the compressor emits for an input and what the
    uncompressor makes of a stream, as functions. */
module LzTokens {
  import opened Bits
  import opened Words
  import opened Options

  const WINDOW_SIZE: nat := 4096
  const BUFFER_SIZE: nat := 34
  const MINIMUM_USEFUL_MATCH: nat := 2
  const LENGTH_BITS: nat := 5
  const OFFSET_BITS: nat := 12
  const NEXT_BITS: nat := 8

  function Min(a: nat, b: nat): nat { if a < b then a else b }

  // ----- Properties of a range of numbers -----

  /** A property of the numbers from p up to n.  It is recursive rather than a quantifier so that
      the solver meets it only where ThroughoutAt names the number: as a quantifier over function
      values it would be instantiated at every number in sight. */
  ghost predicate Throughout(holds: nat -> bool, p: nat, n: nat)
    decreases n - p
  {
    p >= n || (holds(p) && Throughout(holds, p + 1, n))
  }

  lemma {:induction false} ThroughoutAt(holds: nat -> bool, p: nat, n: nat, q: nat)
    requires Throughout(holds, p, n) && p <= q < n
    ensures holds(q)
    decreases q - p
  {
    if p < q { ThroughoutAt(holds, p + 1, n, q); }
  }

  lemma {:induction false} ThroughoutFrom(holds: nat -> bool, p: nat, n: nat)
    requires forall q: nat :: q < n ==> holds(q)
    ensures Throughout(holds, p, n)
    decreases n - p
  {
    if p < n { ThroughoutFrom(holds, p + 1, n); }
  }

  // ----- Finding a match -----

  /** How many bytes agree from i (up to iEnd) and from j (up to jEnd). */
  function MatchLength(s: seq<Byte>, i: nat, iEnd: nat, j: nat, jEnd: nat): (r: nat)
    requires i <= iEnd <= |s| && j <= jEnd <= |s|
    ensures i + r <= iEnd && j + r <= jEnd
    decreases iEnd - i
  {
    if i < iEnd && j < jEnd && s[i] == s[j] then 1 + MatchLength(s, i + 1, iEnd, j + 1, jEnd) else 0
  }

  lemma {:induction false} MatchAgrees(s: seq<Byte>, i: nat, iEnd: nat, j: nat, jEnd: nat)
    requires i <= iEnd <= |s| && j <= jEnd <= |s|
    ensures var r := MatchLength(s, i, iEnd, j, jEnd);
            && Same(s, i, j, r)
            && (i + r == iEnd || j + r == jEnd || s[i + r] != s[j + r])
    decreases iEnd - i
  {
    if i < iEnd && j < jEnd && s[i] == s[j] {
      MatchAgrees(s, i + 1, iEnd, j + 1, jEnd);
    }
  }

  /** A window of `size` bytes at w, and `avail` bytes at p that may be matched. */
  datatype Search = Search(w: nat, size: nat, p: nat, avail: nat) {
    ghost predicate Fits(s: seq<Byte>) { w + size <= |s| && p + avail < |s| }
  }

  function LengthAt(s: seq<Byte>, q: Search, offset: nat): (r: nat)
    requires q.Fits(s) && offset <= q.size
    ensures offset + r <= q.size && r <= q.avail
  {
    MatchLength(s, q.w + offset, q.w + q.size, q.p, q.p + q.avail)
  }

  datatype Match = Match(length: nat, offset: nat)

  /** The best match among the first k window positions. */
  function BestMatch(s: seq<Byte>, q: Search, k: nat): (m: Match)
    requires q.Fits(s) && k <= q.size
    ensures m == Match(0, 0) || (m.length >= MINIMUM_USEFUL_MATCH && m.offset < k && LengthAt(s, q, m.offset) == m.length)
  {
    if k == 0 then Match(0, 0)
    else
      var m, r := BestMatch(s, q, k - 1), LengthAt(s, q, k - 1);
      if r > m.length && r >= MINIMUM_USEFUL_MATCH then Match(r, k - 1) else m
  }

  /** It is the longest useful one, and the first of that length. */
  lemma {:induction false} BestMatchIsLongest(s: seq<Byte>, q: Search, k: nat, o: nat)
    requires q.Fits(s) && o < k <= q.size
    ensures LengthAt(s, q, o) >= MINIMUM_USEFUL_MATCH ==> LengthAt(s, q, o) <= BestMatch(s, q, k).length
    ensures o < BestMatch(s, q, k).offset ==> LengthAt(s, q, o) < BestMatch(s, q, k).length
  {
    if o < k - 1 {
      BestMatchIsLongest(s, q, k - 1, o);
    }
  }

  // ----- Tokens -----

  datatype Token = Symbol(next: Byte) | Phrase(offset: nat, length: nat, next: Byte) {

    /** Input bytes the token stands for. */
    function Consumed(): nat { if Symbol? then 1 else length + 1 }

    ghost predicate InRange() {
      Phrase? ==> offset < WINDOW_SIZE && MINIMUM_USEFUL_MATCH <= length < BUFFER_SIZE
    }

    /** The token on the wire; InRange says that no field loses bits. */
    ghost function Bits(): (bs: seq<bool>)
      ensures |bs| == if Symbol? then 9 else 26
    {
      if Symbol? then [false] + NatBits(next, NEXT_BITS)
      else
        var extra := if length < MINIMUM_USEFUL_MATCH then 0 else length - MINIMUM_USEFUL_MATCH;
        [true] + NatBits(offset, OFFSET_BITS) + NatBits(extra, LENGTH_BITS) + NatBits(next, NEXT_BITS)
    }
  }

  /** Both sides keep the last 4096 bytes before p, or all of them, as their window. */
  function WindowAt(p: nat): nat { if p > WINDOW_SIZE then p - WINDOW_SIZE else 0 }

  function SearchAt(s: seq<Byte>, p: nat): (q: Search)
    requires p < |s|
    ensures q.Fits(s) && q.w + q.size <= p
  {
    var remaining := |s| - p;
    Search(WindowAt(p), Min(remaining, p - WindowAt(p)), p, Min(remaining, BUFFER_SIZE) - 1)
  }

  function TokenAt(s: seq<Byte>, p: nat): (t: Token)
    requires p < |s|
    ensures t.InRange() && p + t.Consumed() <= |s|
  {
    var q := SearchAt(s, p);
    var m := BestMatch(s, q, q.size);
    if m.length > 1 then Phrase(m.offset, m.length, s[p + m.length]) else Symbol(s[p])
  }

  /** The token says what the input has at p: a phrase's match lies in the window and
      ends before p, and the literal byte follows it. */
  ghost predicate Describes(s: seq<Byte>, p: nat, t: Token) {
    && t.InRange() && p + t.Consumed() <= |s| && t.next == s[p + t.Consumed() - 1]
    && (t.Phrase? ==> Repeats(s, WindowAt(p) + t.offset, p, t.length))
  }

  /** The n bytes at w, all before p, come again at p. */
  ghost predicate Repeats(s: seq<Byte>, w: nat, p: nat, n: nat) {
    w + n <= p && p + n <= |s| && Same(s, w, p, n)
  }

  ghost predicate Same(s: seq<Byte>, i: nat, j: nat, n: nat)
    requires i + n <= |s| && j + n <= |s|
    decreases n
  {
    n == 0 || (s[i] == s[j] && Same(s, i + 1, j + 1, n - 1))
  }

  lemma {:induction false} SameSlices(s: seq<Byte>, i: nat, j: nat, n: nat)
    requires i + n <= |s| && j + n <= |s| && Same(s, i, j, n)
    ensures s[i..i + n] == s[j..j + n]
    decreases n
  {
    if n > 0 {
      SameSlices(s, i + 1, j + 1, n - 1);
      assert s[i..i + n] == [s[i]] + s[i + 1..i + n];
      assert s[j..j + n] == [s[j]] + s[j + 1..j + n];
    }
  }

  lemma TokenDescribes(s: seq<Byte>, p: nat)
    requires p < |s|
    ensures Describes(s, p, TokenAt(s, p))
  {
    var q := SearchAt(s, p);
    var m := BestMatch(s, q, q.size);
    if m.length > 1 {
      MatchAgrees(s, q.w + m.offset, q.w + q.size, q.p, q.p + q.avail);
    }
  }

  lemma {:induction false} MatchReaches(s: seq<Byte>, i: nat, iEnd: nat, j: nat, jEnd: nat, n: nat)
    requires i + n <= iEnd <= |s| && j + n <= jEnd <= |s| && s[i..i + n] == s[j..j + n]
    ensures MatchLength(s, i, iEnd, j, jEnd) >= n
    decreases n
  {
    if n > 0 {
      assert s[i..i + n][0] == s[i] && s[j..j + n][0] == s[j];
      assert s[i..i + n][1..] == s[i + 1..i + n] && s[j..j + n][1..] == s[j + 1..j + n];
      MatchReaches(s, i + 1, iEnd, j + 1, jEnd, n - 1);
    }
  }

  /** Any n bytes in the window that come again at p and leave a byte for the literal: the token
      is a phrase at least as long, and no later in the window if it is as long.  Towards the end
      of the input only as much of the window counts as there is input left. */
  lemma TokenIsLongest(s: seq<Byte>, p: nat, from: nat, w: nat, n: nat)
    requires from == (if p > WINDOW_SIZE then p - WINDOW_SIZE else 0)
    requires from <= w && w + n <= p && w + n <= from + (|s| - p) && p + n < |s|
    requires MINIMUM_USEFUL_MATCH <= n < BUFFER_SIZE && s[w..w + n] == s[p..p + n]
    ensures var t := TokenAt(s, p);
            t.Phrase? && n <= t.length && (n == t.length ==> from + t.offset <= w)
  {
    var q, o := SearchAt(s, p), w - from;
    MatchReaches(s, w, q.w + q.size, p, q.p + q.avail, n);
    assert LengthAt(s, q, o) >= n;
    BestMatchIsLongest(s, q, q.size, o);
  }

  datatype TokenList = Nil | Cons(head: Token, tail: TokenList)

  /** The tokens the compressor emits from p on. */
  function Tokens(s: seq<Byte>, p: nat): TokenList
    requires p <= |s|
    decreases |s| - p
  {
    if p == |s| then Nil else
      var t := TokenAt(s, p);
      Cons(t, Tokens(s, p + t.Consumed()))
  }

  ghost function Stream(ts: TokenList): seq<bool> {
    Wire((t: Token) => t.Bits(), ts)
  }

  /** Tokens written one after the other, each with the given code. */
  ghost function Wire(code: Token -> seq<bool>, ts: TokenList): seq<bool>
    decreases ts
  {
    match ts
    case Nil => []
    case Cons(t, rest) => code(t) + Wire(code, rest)
  }

  /** The tokens spell out the input from p on. */
  ghost predicate Spell(s: seq<Byte>, p: nat, ts: TokenList)
    decreases ts
  {
    match ts
    case Nil => p == |s|
    case Cons(t, rest) => p < |s| && Describes(s, p, t) && Spell(s, p + t.Consumed(), rest)
  }

  lemma SpellCons(s: seq<Byte>, p: nat, t: Token, rest: TokenList)
    requires p < |s| && Describes(s, p, t) && Spell(s, p + t.Consumed(), rest)
    ensures Spell(s, p, Cons(t, rest))
  {
  }

  lemma {:induction false} TokensSpell(s: seq<Byte>, p: nat)
    requires p <= |s|
    ensures Spell(s, p, Tokens(s, p))
    decreases |s| - p
  {
    if p < |s| {
      var t := TokenAt(s, p);
      TokenDescribes(s, p);
      TokensSpell(s, p + t.Consumed());
      SpellCons(s, p, t, Tokens(s, p + t.Consumed()));
    }
  }

  ghost function StreamAt(s: seq<Byte>, p: nat): seq<bool>
    requires p <= |s|
  {
    Stream(Tokens(s, p))
  }

  /** At most nine bits a byte, and at least 26 bits for every 34 bytes. */
  lemma {:induction false} StreamSize(s: seq<Byte>, p: nat)
    requires p <= |s|
    ensures |StreamAt(s, p)| <= 9 * (|s| - p)
    ensures 26 * (|s| - p) <= 34 * |StreamAt(s, p)|
    decreases |s| - p
  {
    if p < |s| {
      StreamSize(s, p + TokenAt(s, p).Consumed());
    }
  }

  // ----- Reading tokens back -----

  /** One turn of the uncompressor's loop: the token the bits begin with, if they are long
      enough for one.  It has the length of its Bits(). */
  ghost function ReadToken(bits: seq<bool>): (r: Option<Token>)
    ensures r.Some? ==> r.value.InRange() && |r.value.Bits()| <= |bits|
  {
    if |bits| < 9 then None
    else if !bits[0] then Some(Symbol(NextByte(bits[1..9])))
    else if |bits| < 26 then None
    else
      var v := BitsNat(bits[1..18]);
      PhraseBound(v);
      Some(Phrase(v / 32, v % 32 + MINIMUM_USEFUL_MATCH, NextByte(bits[18..26])))
  }

  ghost function NextByte(bits: seq<bool>): Byte
    requires |bits| == 8
  {
    FieldSizes();
    BitsNat(bits)
  }

  lemma PhraseBound(v: nat)
    requires v < Pow2(17)
    ensures v / 32 < 4096
  {
    FieldSizes();
    Pow2Add(12, 5);
  }

  lemma FieldSizes()
    ensures Pow2(5) == 32 && Pow2(8) == 256 && Pow2(12) == 4096
  {
    assert Pow2(4) == 16;
    Pow2Add(4, 4);
    Pow2Add(8, 4);
  }

  lemma PhraseValue(o: nat, l: nat)
    requires o < 4096 && l < 32
    ensures var v := BitsNat(NatBits(o, 12) + NatBits(l, 5)); v / 32 == o && v % 32 == l
  {
    FieldSizes();
    ValueOfBits(o, 12);
    ValueOfBits(l, 5);
    BitsNatConcat(NatBits(o, 12), NatBits(l, 5));
    assert (o * 32 + l) / 32 == o && (o * 32 + l) % 32 == l;
  }

  lemma ByteValue(b: Byte)
    ensures NextByte(NatBits(b, 8)) == b
  {
    FieldSizes();
    ValueOfBits(b, 8);
  }

  lemma FourParts<T>(a: seq<T>, b: seq<T>, c: seq<T>, d: seq<T>, e: seq<T>)
    requires |a| == 1 && |b| == 12 && |c| == 5 && |d| == 8
    ensures var s := a + b + c + d + e; s[0] == a[0] && s[1..18] == b + c && s[18..26] == d
  {
  }

  /** Reading undoes writing, whatever follows. */
  lemma ReadsBack(t: Token, rest: seq<bool>)
    requires t.InRange()
    ensures ReadToken(t.Bits() + rest) == Some(t)
  {
    ByteValue(t.next);
    if t.Symbol? {
      assert (t.Bits() + rest)[1..9] == NatBits(t.next, 8);
    } else {
      var o, l := t.offset, t.length - MINIMUM_USEFUL_MATCH;
      PhraseValue(o, l);
      FourParts([true], NatBits(o, 12), NatBits(l, 5), NatBits(t.next, 8), rest);
    }
  }

  // ----- Unpacking -----

  /** The output buffer after a token: the phrase's source bytes are read before any byte
      is written.  Nothing when a byte would fall outside the buffer. */
  function Emit(mem: seq<Byte>, b: nat, t: Token): (r: Option<seq<Byte>>)
    ensures r.Some? ==> |r.value| == |mem| && b + t.Consumed() <= |mem|
  {
    if b + t.Consumed() > |mem| then None
    else if t.Symbol? then Some(Overlay(mem, b, [t.next]))
    else
      var w := WindowAt(b) + t.offset;
      if w + t.length > |mem| then None
      else Some(Overlay(mem, b, mem[w..w + t.length] + [t.next]))
  }

  /** The loop of the uncompressor: read and emit until exactly `count` bits are used. */
  ghost function Unpack(bits: seq<bool>, count: int, mem: seq<Byte>, b: nat): (r: Option<seq<Byte>>)
    ensures r.Some? ==> |r.value| == |mem| && 0 <= count <= |bits|
  {
    UnpackWith(Reader(), bits, count, mem, b)
  }

  ghost function Reader(): seq<bool> -> Option<(Token, seq<bool>)> {
    (bits: seq<bool>) => ReadRest(bits)
  }

  /** A token and the bits behind it. */
  ghost function ReadRest(bits: seq<bool>): Option<(Token, seq<bool>)> {
    match ReadToken(bits)
    case None => None
    case Some(t) => Some((t, bits[|t.Bits()|..]))
  }

  /** The loop, with the reader as a parameter. */
  ghost function UnpackWith(read: seq<bool> -> Option<(Token, seq<bool>)>, bits: seq<bool>, count: int, mem: seq<Byte>, b: nat):
    (r: Option<seq<Byte>>)
    ensures r.Some? ==> |r.value| == |mem| && 0 <= count <= |bits|
    decreases |bits|
  {
    if count == 0 then Some(mem)
    else
      match read(bits)
      case None => None
      case Some((t, rest)) =>
        if |rest| >= |bits| then None
        else
          match Emit(mem, b, t)
          case None => None
          case Some(mem') => UnpackWith(read, rest, count - (|bits| - |rest|), mem', b + t.Consumed())
  }

  /** The first p bytes are the same. */
  ghost predicate Agree(a: seq<Byte>, b: seq<Byte>, p: nat) {
    p <= |a| && p <= |b| && a[..p] == b[..p]
  }

  /** A match copied from a correct prefix is the input's own bytes at p. */
  lemma CopiedBytes(mem: seq<Byte>, s: seq<Byte>, p: nat, w: nat, n: nat)
    requires Agree(mem, s, p) && Repeats(s, w, p, n)
    ensures mem[w..w + n] == s[p..p + n]
  {
    SameSlices(s, w, p, n);
    assert mem[w..w + n] == mem[..p][w..w + n] && s[w..w + n] == s[..p][w..w + n];
  }

  lemma OverlayPrefix<T>(s: seq<T>, i: nat, t: seq<T>)
    requires i + |t| <= |s|
    ensures Overlay(s, i, t)[..i + |t|] == s[..i] + t
  {
  }

  lemma PrefixGrows<T>(s: seq<T>, p: nat, n: nat)
    requires p + n < |s|
    ensures s[..p + n + 1] == s[..p] + (s[p..p + n] + [s[p + n]])
  {
  }

  /** Emitting a token that describes the input at p extends a correct prefix. */
  lemma EmitExtends(s: seq<Byte>, p: nat, mem: seq<Byte>, t: Token) returns (mem': seq<Byte>)
    requires p < |s| && |mem| > |s| && Agree(mem, s, p) && Describes(s, p, t)
    ensures Emit(mem, p, t) == Some(mem') && |mem'| == |mem| && Agree(mem', s, p + t.Consumed())
  {
    mem' := Emit(mem, p, t).value;
    if t.Phrase? {
      var w := WindowAt(p) + t.offset;
      CopiedBytes(mem, s, p, w, t.length);
      OverlayPrefix(mem, p, mem[w..w + t.length] + [t.next]);
      PrefixGrows(s, p, t.length);
    } else {
      OverlayPrefix(mem, p, [t.next]);
      PrefixGrows(s, p, 0);
      assert s[p..p + 0] + [s[p]] == [t.next];
    }
  }

  /** Emitting a list of tokens. */
  function EmitAll(ts: TokenList, mem: seq<Byte>, b: nat): Option<seq<Byte>>
    decreases ts
  {
    match ts
    case Nil => Some(mem)
    case Cons(t, rest) =>
      match Emit(mem, b, t)
      case None => None
      case Some(mem') => EmitAll(rest, mem', b + t.Consumed())
  }

  ghost predicate AllInRange(ts: TokenList) {
    match ts
    case Nil => true
    case Cons(t, rest) => t.InRange() && AllInRange(rest)
  }

  lemma Assoc<T>(a: seq<T>, b: seq<T>, c: seq<T>)
    ensures (a + b) + c == a + (b + c)
  {
  }

  lemma DropFront<T>(a: seq<T>, b: seq<T>)
    ensures (a + b)[|a|..] == b
  {
  }

  /** The reader finds the token at the front and returns the bits behind it. */
  ghost predicate Undoes(read: seq<bool> -> Option<(Token, seq<bool>)>, code: Token -> seq<bool>) {
    forall t: Token, x: seq<bool> :: t.InRange() ==> code(t) != [] && read(code(t) + x) == Some((t, x))
  }

  /** A reader that undoes a code makes the loop emit exactly the tokens on the wire,
      whatever bits come after. */
  lemma {:induction false} UnpackWithEmits(code: Token -> seq<bool>, read: seq<bool> -> Option<(Token, seq<bool>)>,
                                           ts: TokenList, tail: seq<bool>, mem: seq<Byte>, b: nat)
    requires Undoes(read, code) && AllInRange(ts)
    ensures UnpackWith(read, Wire(code, ts) + tail, |Wire(code, ts)|, mem, b) == EmitAll(ts, mem, b)
    decreases ts
  {
    match ts
    case Nil =>
    case Cons(t, rest) =>
      var bits := Wire(code, rest) + tail;
      assert read(code(t) + bits) == Some((t, bits));
      Assoc(code(t), Wire(code, rest), tail);
      match Emit(mem, b, t) {
        case None =>
        case Some(mem') => UnpackWithEmits(code, read, rest, tail, mem', b + t.Consumed());
      }
  }

  lemma UnpackEmits(ts: TokenList, tail: seq<bool>, mem: seq<Byte>, b: nat)
    requires AllInRange(ts)
    ensures Unpack(Stream(ts) + tail, |Stream(ts)|, mem, b) == EmitAll(ts, mem, b)
  {
    var code := (t: Token) => t.Bits();
    var read := Reader();
    forall t: Token, x: seq<bool> | t.InRange()
      ensures code(t) != [] && read(code(t) + x) == Some((t, x))
    {
      ReadsBack(t, x);
      DropFront(t.Bits(), x);
    }
    UnpackWithEmits(code, read, ts, tail, mem, b);
  }

  /** Emitting tokens that spell the rest of the input completes a correct prefix. */
  lemma {:induction false} EmitAllInverts(s: seq<Byte>, p: nat, ts: TokenList, mem: seq<Byte>) returns (out: seq<Byte>)
    requires |mem| == |s| + 1 && Agree(mem, s, p) && Spell(s, p, ts)
    ensures EmitAll(ts, mem, p) == Some(out) && |out| == |s| + 1 && Agree(out, s, |s|)
    ensures AllInRange(ts)
    decreases ts
  {
    match ts
    case Nil =>
      out := mem;
    case Cons(t, rest) =>
      var mem' := EmitExtends(s, p, mem, t);
      out := EmitAllInverts(s, p + t.Consumed(), rest, mem');
  }
}
