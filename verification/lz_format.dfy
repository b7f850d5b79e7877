/** The compressed file: two header fields, then the packed token bits; and the theorem
    that says for which inputs uncompressing undoes compressing. */
module LzFormat {
  import opened Bits
  import opened Words
  import opened LzTokens
  import opened Options

  // ----- Header fields -----

  /** The low bytes of n, highest first. */
  function LowBytes(n: nat, k: nat): (b: seq<Byte>)
    ensures |b| == k
  {
    if k == 0 then [] else LowBytes(n / 256, k - 1) + [n % 256]
  }

  lemma {:induction false} LowBytesBits(n: nat, k: nat)
    ensures BitsOf(LowBytes(n, k)) == NatBits(n, 8 * k)
  {
    if k > 0 {
      LowBytesBits(n / 256, k - 1);
      BitsOfConcat(LowBytes(n / 256, k - 1), [n % 256]);
      BitsOfOne(n % 256);
      NatBitsSplit(n, 8 * (k - 1));
    }
  }

  /** The low j + 8 bits: those of the quotient by 256, then those of the last byte. */
  lemma NatBitsSplit(n: nat, j: nat)
    ensures NatBits(n, j + 8) == NatBits(n / 256, j) + NatBits(n % 256, 8)
  {
    ShiftBits(n, j, 8);
    HalvedEight(n);
    LowByte(n, n / 256, n % 256);
  }

  lemma LowByte(n: nat, q: nat, r: nat)
    requires n == q * 256 + r
    ensures NatBits(n, 8) == NatBits(r, 8)
  {
    FieldSizes();
    LowBitsOfSum(q, r, 8);
  }

  function Halved(n: nat, k: nat): nat { if k == 0 then n else Halved(n / 2, k - 1) }

  lemma HalvedFour(n: nat)
    ensures Halved(n, 4) == n / 16
  {
    var a := n / 2;
    var b := a / 2;
    var c := b / 2;
    assert b == n / 4 && c == n / 8 && c / 2 == n / 16;
    assert Halved(n, 4) == Halved(a, 3) == Halved(b, 2) == Halved(c, 1) == Halved(c / 2, 0);
  }

  lemma {:induction false} HalvedTwice(n: nat, k: nat, l: nat)
    ensures Halved(n, k + l) == Halved(Halved(n, k), l)
  {
    if k > 0 { HalvedTwice(n / 2, k - 1, l); }
  }

  lemma HalvedEight(n: nat)
    ensures Halved(n, 8) == n / 256
  {
    HalvedFour(n);
    HalvedFour(n / 16);
    HalvedTwice(n, 4, 4);
    assert n / 16 / 16 == n / 256;
  }

  lemma {:induction false} ShiftBits(n: nat, j: nat, k: nat)
    ensures NatBits(n, j + k) == NatBits(Halved(n, k), j) + NatBits(n, k)
  {
    if k > 0 {
      ShiftBits(n / 2, j, k - 1);
      Assoc(NatBits(Halved(n, k), j), NatBits(n / 2, k - 1), [n % 2 == 1]);
    }
  }

  lemma {:induction false} LowBitsOfSum(q: nat, r: nat, k: nat)
    ensures NatBits(q * Pow2(k) + r, k) == NatBits(r, k)
  {
    if k > 0 {
      var m := q * Pow2(k - 1);
      MulDouble(q, Pow2(k - 1));
      assert q * Pow2(k) + r == 2 * m + r;
      LowBitsOfSum(q, r / 2, k - 1);
    }
  }

  /** ficlLzEncodeHeaderField. */
  function HeaderField(n: nat): (b: seq<Byte>)
    ensures 1 <= |b| <= 5
  {
    if n <= 252 then [n]
    else if n <= 65536 then [253] + LowBytes(n, 2)
    else [254] + LowBytes(n, 4)
  }

  /** A 32-bit pattern taken as a C int. */
  function AsInt(n: nat): int { if n >= 0x8000_0000 then n - 0x1_0000_0000 else n }

  /** ficlLzDecodeHeaderField: the value and the position after it, or nothing when it
      reads past the data.  Note that 252 is not taken as a value. */
  ghost function ReadField(data: seq<Byte>, at: nat): (r: Option<(int, nat)>)
    ensures r.Some? ==> at < r.value.1 <= |data|
  {
    if at >= |data| then None
    else if data[at] < 252 then Some((data[at], at + 1))
    else
      var length := if data[at] == 253 then 2 else 4;
      if at + 1 + length > |data| then None
      else Some((AsInt(BitsNat(BitsOf(data[at + 1..at + 1 + length]))), at + 1 + length))
  }

  /** The field values that both sides read alike. */
  predicate Plain(n: nat) { n != 252 && n != 65536 }

  lemma FieldReads(n: nat, before: seq<Byte>, after: seq<Byte>)
    requires Plain(n) && n < 0x8000_0000
    ensures ReadField(before + HeaderField(n) + after, |before|) == Some((n as int, |before| + |HeaderField(n)|))
  {
    var f := HeaderField(n);
    var data, at := before + f + after, |before|;
    assert data[at] == f[0];
    if n > 252 {
      var k := |f| - 1;
      assert data[at + 1..at + 1 + k] == f[1..] == LowBytes(n, k);
      LowBytesBits(n, k);
      Pow2Values();
      ValueOfBits(n, 8 * k);
    }
  }

  // ----- Packing bits into bytes -----

  /** Enough bytes for the bits, at least one: (n - 1) / 8 + 1 with C's division. */
  function ByteCount(n: nat): (c: nat)
    ensures c > 0 && n <= 8 * c && (n > 0 ==> 8 * c < n + 8)
  {
    if n == 0 then 1 else (n - 1) / 8 + 1
  }

  /** The bits, zero-filled to whole bytes. */
  ghost function Padded(bits: seq<bool>): (p: seq<bool>)
    ensures |p| == 8 * ByteCount(|bits|) && bits <= p
  {
    bits + seq(8 * ByteCount(|bits|) - |bits|, _ => false)
  }

  ghost function PackBytes(bits: seq<bool>, count: nat): (data: seq<Byte>)
    requires |bits| == 8 * count
    ensures |data| == count
    decreases count
  {
    if count == 0 then [] else [NextByte(bits[..8])] + PackBytes(bits[8..], count - 1)
  }

  lemma {:induction false} PackedBits(bits: seq<bool>, count: nat)
    requires |bits| == 8 * count
    ensures BitsOf(PackBytes(bits, count)) == bits
    decreases count
  {
    if count > 0 {
      var b, rest := NextByte(bits[..8]), PackBytes(bits[8..], count - 1);
      PackedBits(bits[8..], count - 1);
      BitsOfConcat([b], rest);
      BitsOfOne(b);
      BitsOfValue(bits[..8]);
      assert bits == bits[..8] + bits[8..];
    }
  }

  /** Bytes whose bits these are can only be the packed ones. */
  lemma PackedUnique(bits: seq<bool>, data: seq<Byte>)
    requires BitsOf(data) == Padded(bits)
    ensures data == PackBytes(Padded(bits), ByteCount(|bits|))
  {
    PackedBits(Padded(bits), ByteCount(|bits|));
    BitsOfInjective(data, PackBytes(Padded(bits), ByteCount(|bits|)));
  }

  // ----- Clear memory -----

  function False(n: nat): (f: seq<bool>)
    ensures |f| == n
  {
    seq(n, _ => false)
  }

  lemma {:induction false} ClearBits(data: seq<Byte>)
    requires forall i :: 0 <= i < |data| ==> data[i] == 0
    ensures BitsOf(data) == False(8 * |data|)
  {
    if data != [] {
      ClearBits(data[1..]);
      ZeroBits(8);
    }
  }

  lemma {:induction false} ZeroBits(k: nat)
    ensures NatBits(0, k) == False(k)
  {
    if k > 0 { ZeroBits(k - 1); }
  }

  // ----- The two programs, as functions -----

  /** ficlLzCompress. */
  ghost function Compressed(s: seq<Byte>): seq<Byte> {
    var bits := StreamAt(s, 0);
    HeaderField(|bits|) + HeaderField(|s|) + PackBytes(Padded(bits), ByteCount(|bits|))
  }

  function Zeros(n: nat): (z: seq<Byte>)
    ensures |z| == n
  {
    seq(n, _ => 0)
  }

  /** ficlLzUncompress; nothing when it would read or write out of bounds. */
  ghost function Uncompressed(data: seq<Byte>): Option<seq<Byte>> {
    match ReadField(data, 0)
    case None => None
    case Some((count, at)) =>
      match ReadField(data, at)
      case None => None
      case Some((size, at')) =>
        if size < 0 then None
        else
          match Unpack(BitsOf(data)[8 * at'..], count, Zeros(size + 1), 0)
          case None => None
          case Some(mem) => Some(mem[..size])
  }

  /** The compressor's tokens unpack to the input. */
  lemma StreamUnpacks(s: seq<Byte>, tail: seq<bool>) returns (out: seq<Byte>)
    ensures Unpack(StreamAt(s, 0) + tail, |StreamAt(s, 0)|, Zeros(|s| + 1), 0) == Some(out)
    ensures |out| == |s| + 1 && out[..|s|] == s
  {
    var ts, mem := Tokens(s, 0), Zeros(|s| + 1);
    TokensSpell(s, 0);
    out := EmitAllInverts(s, 0, ts, mem);
    UnpackEmits(ts, tail, mem, 0);
  }

  /** The bits of a compressed file behind its header: the stream and some padding. */
  lemma BodyBits(s: seq<Byte>, head: nat) returns (tail: seq<bool>)
    requires head == |HeaderField(|StreamAt(s, 0)|)| + |HeaderField(|s|)|
    ensures BitsOf(Compressed(s))[8 * head..] == StreamAt(s, 0) + tail && |tail| <= 8
    ensures |Compressed(s)| == head + ByteCount(|StreamAt(s, 0)|)
    ensures StreamAt(s, 0) != [] ==> |tail| < 8
  {
    var bits := StreamAt(s, 0);
    var header, body := HeaderField(|bits|) + HeaderField(|s|), PackBytes(Padded(bits), ByteCount(|bits|));
    BitsOfConcat(header, body);
    PackedBits(Padded(bits), ByteCount(|bits|));
    DropFront(BitsOf(header), BitsOf(body));
    tail := seq(8 * ByteCount(|bits|) - |bits|, _ => false);
  }

  /** Uncompressing undoes compressing when both header values are plain. */
  lemma RoundTrip(s: seq<Byte>)
    requires |s| < 0x8000_0000 && |StreamAt(s, 0)| < 0x8000_0000
    requires Plain(|s|) && Plain(|StreamAt(s, 0)|)
    ensures Uncompressed(Compressed(s)) == Some(s)
  {
    var count, at, size, at' := ReadsHeader(s);
    var tail := BodyBits(s, at');
    var out := StreamUnpacks(s, tail);
    UncompressedFrom(Compressed(s), count, at, size, at', StreamAt(s, 0) + tail, out);
  }

  lemma ReadsHeader(s: seq<Byte>) returns (count: nat, at: nat, size: nat, at': nat)
    requires |s| < 0x8000_0000 && |StreamAt(s, 0)| < 0x8000_0000
    requires Plain(|s|) && Plain(|StreamAt(s, 0)|)
    ensures count == |StreamAt(s, 0)| && size == |s|
    ensures at' == |HeaderField(count)| + |HeaderField(size)|
    ensures ReadField(Compressed(s), 0) == Some((count as int, at))
    ensures ReadField(Compressed(s), at) == Some((size as int, at'))
  {
    var bits := StreamAt(s, 0);
    count, size := |bits|, |s|;
    at, at' := |HeaderField(count)|, |HeaderField(count)| + |HeaderField(size)|;
    HeaderReads(count, size, PackBytes(Padded(bits), ByteCount(|bits|)));
  }

  lemma HeaderReads(m: nat, n: nat, body: seq<Byte>)
    requires Plain(m) && Plain(n) && m < 0x8000_0000 && n < 0x8000_0000
    ensures var data, at := HeaderField(m) + HeaderField(n) + body, |HeaderField(m)|;
            && ReadField(data, 0) == Some((m as int, at))
            && ReadField(data, at) == Some((n as int, at + |HeaderField(n)|))
  {
    var f1, f2 := HeaderField(m), HeaderField(n);
    FieldReads(m, [], f2 + body);
    FieldReads(n, f1, body);
    assert [] + f1 + (f2 + body) == f1 + f2 + body;
  }

  lemma UncompressedFrom(data: seq<Byte>, count: int, at: nat, size: nat, at': nat, bits: seq<bool>, out: seq<Byte>)
    requires ReadField(data, 0) == Some((count, at)) && ReadField(data, at) == Some((size as int, at'))
    requires BitsOf(data)[8 * at'..] == bits && Unpack(bits, count, Zeros(size + 1), 0) == Some(out) && size <= |out|
    ensures Uncompressed(data) == Some(out[..size])
  {
  }

  // ----- Where it fails -----

  /** A stream of 252 bits: the decoder takes the next four bytes as the bit count. */
  lemma CountOf252Fails(s: seq<Byte>)
    requires |StreamAt(s, 0)| == 252
    ensures Uncompressed(Compressed(s)) == None
  {
    var data, n := Compressed(s), |s|;
    StreamSize(s, 0);
    assert 28 <= n <= 329;
    assert |HeaderField(n)| <= 3 && |data| <= 36;
    assert data[0] == 252 && data[1] == HeaderField(n)[0] >= 28;
    LargeCountFails(data);
  }

  lemma LargeCountFails(data: seq<Byte>)
    requires 5 <= |data| <= 36 && data[0] == 252 && data[1] >= 28
    ensures Uncompressed(data) == None
  {
    var b := data[1..5];
    BigEndianBits(b);
    ValueOfBits(BigEndian(b), 32);
    var count := AsInt(BigEndian(b));
    LargeAsInt(b, count);
    assert ReadField(data, 0) == Some((count, 5));
  }

  lemma LargeAsInt(b: seq<Byte>, count: int)
    requires |b| == 4 && b[0] >= 28 && count == AsInt(BigEndian(b))
    ensures count < 0 || count > 288
  {
    assert BigEndian(b) >= 28 * 16777216;
  }

  /** An input of 252 bytes: the decoder takes the next four bytes as the size, and then
      wants more token bits than are left. */
  lemma SizeOf252Fails(s: seq<Byte>)
    requires |s| == 252 && Plain(|StreamAt(s, 0)|)
    ensures Uncompressed(Compressed(s)) == None
  {
    var data, c := Compressed(s), |StreamAt(s, 0)|;
    StreamSize(s, 0);
    var body := PackBytes(Padded(StreamAt(s, 0)), ByteCount(c));
    FieldReads(c, [], HeaderField(252) + body);
    HeaderOf252(HeaderField(c), body, data);
    SecondTakenLong(data, c, |HeaderField(c)|);
  }

  lemma HeaderOf252(count: seq<Byte>, body: seq<Byte>, data: seq<Byte>)
    requires data == count + HeaderField(252) + body
    ensures [] + count + (HeaderField(252) + body) == data && |data| == |count| + 1 + |body| && data[|count|] == 252
  {
  }

  /** With 252 taken as a mark the token bits are four bytes short. */
  lemma SecondTakenLong(data: seq<Byte>, c: nat, at: nat)
    requires at < |data| && data[at] == 252 && |data| == at + 1 + ByteCount(c) && c > 0
    requires ReadField(data, 0) == Some((c as int, at))
    ensures Uncompressed(data) == None
  {
    var second := ReadField(data, at);
    assert second.Some? ==> second.value.1 == at + 5;
    assert 8 * (|data| - (at + 5)) < c;
  }

  lemma FieldOf65536(before: seq<Byte>, after: seq<Byte>)
    ensures ReadField(before + HeaderField(65536) + after, |before|) == Some((0 as int, |before| + 3))
  {
    var data, at := before + HeaderField(65536) + after, |before|;
    assert LowBytes(65536, 2) == [0, 0] by {
      assert LowBytes(65536, 2) == LowBytes(256, 1) + [0] && LowBytes(256, 1) == LowBytes(1, 0) + [0];
    }
    assert data[at] == 253 && data[at + 1..at + 3] == [0, 0];
    LowBytesBits(0, 2);
    assert LowBytes(0, 2) == LowBytes(0, 1) + [0] && LowBytes(0, 1) == LowBytes(0, 0) + [0];
    ValueOfBits(0, 16);
  }

  /** An input of 65536 bytes: the size is written as zero. */
  lemma SizeOf65536Fails(s: seq<Byte>)
    requires |s| == 65536 && Plain(|StreamAt(s, 0)|) && |StreamAt(s, 0)| < 0x8000_0000
    ensures Uncompressed(Compressed(s)) != Some(s)
  {
    var data, c := Compressed(s), |StreamAt(s, 0)|;
    var body := PackBytes(Padded(StreamAt(s, 0)), ByteCount(c));
    FieldReads(c, [], HeaderField(65536) + body);
    assert [] + HeaderField(c) + (HeaderField(65536) + body) == data;
    FieldOf65536(HeaderField(c), body);
    SizeReadsZero(data, c, |HeaderField(c)|);
  }

  lemma SizeReadsZero(data: seq<Byte>, c: nat, at: nat)
    requires ReadField(data, 0) == Some((c as int, at)) && ReadField(data, at) == Some((0 as int, at + 3))
    ensures Uncompressed(data).Some? ==> |Uncompressed(data).value| == 0
  {
  }

  /** A stream of 65536 bits: its length is written as zero, so only zeros come back. */
  lemma CountOf65536Fails(s: seq<Byte>)
    requires |StreamAt(s, 0)| == 65536
    ensures Uncompressed(Compressed(s)) != Some(s)
  {
    if Uncompressed(Compressed(s)) == Some(s) {
      CountReadsZero(HeaderField(|s|), PackBytes(Padded(StreamAt(s, 0)), ByteCount(65536)));
      ZerosComeBack(Compressed(s), s);
      ZeroStream(s);
    }
  }

  lemma CountReadsZero(size: seq<Byte>, body: seq<Byte>)
    ensures ReadField(HeaderField(65536) + size + body, 0) == Some((0 as int, 3))
  {
    FieldOf65536([], size + body);
    assert [] + HeaderField(65536) + (size + body) == HeaderField(65536) + size + body;
  }

  lemma ZerosComeBack(data: seq<Byte>, s: seq<Byte>)
    requires ReadField(data, 0) == Some((0 as int, 3)) && Uncompressed(data) == Some(s)
    ensures AllZero(s)
  {
    var size, at := ReadField(data, 3).value.0, ReadField(data, 3).value.1;
    assert Unpack(BitsOf(data)[8 * at..], 0, Zeros(size + 1), 0) == Some(Zeros(size + 1));
  }

  ghost predicate AllZero(s: seq<Byte>) { forall i :: 0 <= i < |s| ==> s[i] == 0 }

  /** Where fewer than two bytes can match, a symbol is emitted. */
  lemma ShortSearch(s: seq<Byte>, p: nat)
    requires p < |s| && (p < 2 || |s| - p < 3)
    ensures TokenAt(s, p).Symbol?
  {
  }

  /** Elsewhere in a run of zeros, a phrase. */
  lemma ZeroPhrase(s: seq<Byte>, p: nat)
    requires AllZero(s) && 2 <= p && p + 3 <= |s|
    ensures TokenAt(s, p).Phrase?
  {
    var q := SearchAt(s, p);
    var w := WindowAt(p);
    assert s[w] == s[p] == 0 && s[w + 1] == s[p + 1] == 0;
    assert MatchLength(s, w, w + q.size, p, p + q.avail) ==
           1 + MatchLength(s, w + 1, w + q.size, p + 1, p + q.avail);
    assert LengthAt(s, q, 0) >= 2;
    BestMatchIsLongest(s, q, q.size, 0);
  }

  /** Symbols in the first two and the last two places, phrases elsewhere. */
  ghost predicate ZeroShape(n: nat, p: nat, ts: TokenList)
    decreases ts
  {
    match ts
    case Nil => p == n
    case Cons(t, rest) =>
      p < n && (if p < 2 || n - p < 3 then t.Symbol? else t.Phrase?) && ZeroShape(n, p + t.Consumed(), rest)
  }

  lemma {:induction false} ZeroTokens(s: seq<Byte>, p: nat)
    requires AllZero(s) && p <= |s|
    ensures ZeroShape(|s|, p, Tokens(s, p))
    decreases |s| - p
  {
    if p < |s| {
      if p < 2 || |s| - p < 3 { ShortSearch(s, p); } else { ZeroPhrase(s, p); }
      ZeroTokens(s, p + TokenAt(s, p).Consumed());
    }
  }

  ghost function Size(ts: TokenList): nat {
    match ts
    case Nil => 0
    case Cons(t, rest) => (if t.Symbol? then 9 else 26) + Size(rest)
  }

  lemma {:induction false} StreamLength(ts: TokenList)
    ensures |Stream(ts)| == Size(ts)
  {
    match ts
    case Nil =>
    case Cons(t, rest) => StreamLength(rest);
  }

  /** From the third byte on: some phrases, then the symbols that are left over. */
  lemma {:induction false} ZeroSize(n: nat, p: nat, ts: TokenList) returns (phrases: nat, symbols: nat)
    requires 2 <= p && ZeroShape(n, p, ts)
    ensures Size(ts) == 26 * phrases + 9 * symbols && symbols <= 2
    ensures p <= n && (n - p < 3 ==> phrases == 0 && symbols == n - p)
    decreases ts
  {
    match ts
    case Nil =>
      phrases, symbols := 0, 0;
    case Cons(t, rest) =>
      phrases, symbols := ZeroSize(n, p + t.Consumed(), rest);
      if t.Symbol? { symbols := symbols + 1; } else { phrases := phrases + 1; }
  }

  /** No run of zeros has 65536 token bits. */
  lemma ZeroStream(s: seq<Byte>)
    requires AllZero(s)
    ensures |StreamAt(s, 0)| != 65536
  {
    ZeroTokens(s, 0);
    StreamLength(Tokens(s, 0));
    ZeroSizeNot65536(|s|, Tokens(s, 0));
  }

  lemma ZeroSizeNot65536(n: nat, ts: TokenList)
    requires ZeroShape(n, 0, ts)
    ensures Size(ts) != 65536
  {
    if n >= 2 {
      var k, e := ZeroSize(n, 2, ts.tail.tail);
      assert Size(ts) == 26 * k + 9 * (e + 2);
    }
  }

  // ----- The allocation -----

  /** What calloc gets: the product is one of 32-bit numbers. */
  function AllocationSize(n: nat): nat { n * 5 % 0x1_0000_0000 / 4 + 10 }

  /** There is room for nine bits a byte exactly as long as the product does not wrap. */
  lemma AllocationSuffices(n: nat)
    requires n < 0x8000_0000
    ensures 9 * n <= 8 * AllocationSize(n) <==> 5 * n < 0x1_0000_0000
  {
    if 5 * n >= 0x1_0000_0000 { AllocationWrapped(n, if 5 * n < 0x2_0000_0000 then 1 else 2); }
  }

  lemma AllocationWrapped(n: nat, turns: nat)
    requires turns * 0x1_0000_0000 <= 5 * n < (turns + 1) * 0x1_0000_0000
    ensures 8 * AllocationSize(n) <= 10 * n - turns * 0x2_0000_0000 + 80
  {
    assert n * 5 % 0x1_0000_0000 == 5 * n - turns * 0x1_0000_0000;
  }

  /** The stream stays inside the allocation, and the number of its bits inside an int. */
  ghost predicate Fits(s: seq<Byte>) {
    |StreamAt(s, 0)| <= 8 * AllocationSize(|s|) && |StreamAt(s, 0)| < 0x8000_0000
  }

  /** Up to this length every input does. */
  lemma ShortFits(s: seq<Byte>)
    requires 9 * |s| < 0x8000_0000
    ensures Fits(s)
  {
    StreamSize(s, 0);
    AllocationSuffices(|s|);
  }

  /** From where the product has wrapped, however well the input compresses, the stream runs
      past the allocation: once for each turn of the product. */
  lemma AllocationOverrun(s: seq<Byte>)
    requires 858993460 <= |s| <= 930000000 || 1717986919 <= |s| <= 1860000000
    ensures |StreamAt(s, 0)| > 8 * AllocationSize(|s|) && !Fits(s)
  {
    StreamSize(s, 0);
    AllocationWrapped(|s|, if |s| <= 930000000 then 1 else 2);
  }

  /** What the compressor gives: no file when it writes out of bounds. */
  ghost function CompressedFile(s: seq<Byte>): Option<seq<Byte>> { if Fits(s) then Some(Compressed(s)) else None }

  /** There is a file, and it uncompresses to the input. */
  ghost predicate ComesBack(s: seq<Byte>) {
    CompressedFile(s).Some? && Uncompressed(CompressedFile(s).value) == Some(s)
  }

  /** The exact domain of the round trip. */
  lemma RoundTripExactly(s: seq<Byte>)
    requires |s| < 0x8000_0000
    ensures ComesBack(s) <==> Fits(s) && Plain(|s|) && Plain(|StreamAt(s, 0)|)
  {
    if Fits(s) { FitRoundTrip(s); }
  }

  lemma FitRoundTrip(s: seq<Byte>)
    requires |s| < 0x8000_0000 && |StreamAt(s, 0)| < 0x8000_0000
    ensures Uncompressed(Compressed(s)) == Some(s) <==> Plain(|s|) && Plain(|StreamAt(s, 0)|)
  {
    var c := |StreamAt(s, 0)|;
    if c == 252 {
      CountOf252Fails(s);
    } else if c == 65536 {
      CountOf65536Fails(s);
    } else if |s| == 252 {
      SizeOf252Fails(s);
    } else if |s| == 65536 {
      SizeOf65536Fails(s);
    } else {
      RoundTrip(s);
    }
  }
}
