/** Bits of byte strings (bit.c): bit 0 of a byte is its most significant one. */
module Bits {
  import opened Words

  type Byte = x: int | 0 <= x < 256

  // ----- Numbers as bit strings, most significant bit first -----

  /** The low k bits of n. */
  function NatBits(n: nat, k: nat): (bs: seq<bool>)
    ensures |bs| == k
  {
    if k == 0 then [] else NatBits(n / 2, k - 1) + [n % 2 == 1]
  }

  function BitsNat(bs: seq<bool>): (n: nat)
    ensures n < Pow2(|bs|)
  {
    if bs == [] then 0
    else 2 * BitsNat(bs[..|bs| - 1]) + if bs[|bs| - 1] then 1 else 0
  }

  lemma {:induction false} BitsOfValue(bs: seq<bool>)
    ensures NatBits(BitsNat(bs), |bs|) == bs
  {
    if bs != [] {
      BitsOfValue(bs[..|bs| - 1]);
      assert bs == bs[..|bs| - 1] + [bs[|bs| - 1]];
    }
  }

  lemma {:induction false} ValueOfBits(n: nat, k: nat)
    requires n < Pow2(k)
    ensures BitsNat(NatBits(n, k)) == n
  {
    if k > 0 {
      ValueOfBits(n / 2, k - 1);
      assert NatBits(n, k)[..k - 1] == NatBits(n / 2, k - 1);
    }
  }

  lemma {:induction false} BitsNatConcat(a: seq<bool>, b: seq<bool>)
    ensures BitsNat(a + b) == BitsNat(a) * Pow2(|b|) + BitsNat(b)
  {
    if b == [] {
      assert a + b == a;
    } else {
      var b' := b[..|b| - 1];
      BitsNatConcat(a, b');
      assert (a + b)[..|a + b| - 1] == a + b';
      var p := Pow2(|b'|);
      assert Pow2(|b|) == 2 * p;
      assert BitsNat(a + b) == 2 * BitsNat(a + b') + if b[|b| - 1] then 1 else 0;
      MulDouble(BitsNat(a), p);
    }
  }

  lemma MulDouble(x: int, p: int)
    ensures 2 * (x * p) == x * (2 * p)
  {
  }

  /** A number made of a high part and a low part has the bits of both. */
  lemma NatBitsJoin(hi: nat, h: nat, lo: nat, l: nat)
    requires hi < Pow2(h) && lo < Pow2(l)
    ensures NatBits(hi * Pow2(l) + lo, h + l) == NatBits(hi, h) + NatBits(lo, l)
  {
    var a, b := NatBits(hi, h), NatBits(lo, l);
    ValueOfBits(hi, h);
    ValueOfBits(lo, l);
    BitsNatConcat(a, b);
    BitsOfValue(a + b);
    assert BitsNat(a + b) == hi * Pow2(l) + lo && |a + b| == h + l;
  }

  /** The low k bits of the low k + j bits. */
  lemma {:induction false} NatBitsLow(n: nat, j: nat, k: nat)
    ensures NatBits(n, j + k)[j..] == NatBits(n, k)
  {
    if k > 0 {
      NatBitsLow(n / 2, j, k - 1);
    }
  }

  lemma {:induction false} FlipValue(bs: seq<bool>, i: nat, v: bool)
    requires i < |bs|
    ensures BitsNat(bs[i := v]) ==
            BitsNat(bs) as int + if bs[i] == v then 0 else if v then Pow2(|bs| - 1 - i) else -(Pow2(|bs| - 1 - i) as int)
  {
    var last := |bs| - 1;
    if i < last {
      FlipValue(bs[..last], i, v);
      assert bs[i := v][..last] == bs[..last][i := v];
    } else {
      assert bs[i := v][..last] == bs[..last];
    }
  }

  lemma DivDiv(n: nat, p: nat)
    requires p > 0
    ensures n / 2 / p == n / (2 * p)
  {
    var q, r := n / (2 * p), n % (2 * p);
    assert n == 2 * p * q + r;
    var h := n / 2;
    assert h == p * q + r / 2 by {
      assert n == 2 * (p * q) + r;
    }
    assert r / 2 < p;
    DivUnique(h, p, q, r / 2);
  }

  lemma DivUnique(n: nat, d: nat, q: nat, r: nat)
    requires d > 0 && n == d * q + r && r < d
    ensures n / d == q
  {
    var e := n / d;
    assert d * e <= n < d * (e + 1);
    if e < q {
      MulMono(d, e + 1, q);
      assert false;
    } else if e > q {
      MulMono(d, q + 1, e);
      assert false;
    }
  }

  lemma MulMono(d: nat, x: nat, y: nat)
    requires x <= y
    ensures d * x <= d * y
  {
  }

  lemma {:induction false} NatBitsAt(n: nat, k: nat, i: nat)
    requires i < k
    ensures NatBits(n, k)[i] <==> n / Pow2(k - 1 - i) % 2 == 1
  {
    if i < k - 1 {
      NatBitsAt(n / 2, k - 1, i);
      DivDiv(n, Pow2(k - 2 - i));
    }
  }

  // ----- Bytes -----

  /** 128 >> i. */
  function Mask(i: nat): (m: nat)
    requires i < 8
    ensures m == Pow2(7 - i)
  {
    assert Pow2(3) == 8 && Pow2(5) == 32 && Pow2(7) == 128;
    match i
    case 0 => 128 case 1 => 64 case 2 => 32 case 3 => 16
    case 4 => 8 case 5 => 4 case 6 => 2 case _ => 1
  }

  /** `mask & b`, as a truth value. */
  predicate MaskHit(b: Byte, i: nat)
    requires i < 8
  {
    b / Mask(i) % 2 == 1
  }

  lemma MaskHitIsBit(b: Byte, i: nat)
    requires i < 8
    ensures MaskHit(b, i) <==> NatBits(b, 8)[i]
  {
    NatBitsAt(b, 8, i);
  }

  /** `b |= mask` for v, `b &= ~mask` otherwise. */
  function WithBit(b: Byte, i: nat, v: bool): (r: Byte)
    requires i < 8
    ensures NatBits(r, 8) == NatBits(b, 8)[i := v]
  {
    WithBitValue(b, i, v);
    if MaskHit(b, i) == v then b else if v then b + Mask(i) else b - Mask(i)
  }

  lemma WithBitValue(b: Byte, i: nat, v: bool)
    requires i < 8
    ensures var n := b as int + if MaskHit(b, i) == v then 0 else if v then Mask(i) else -(Mask(i) as int);
            0 <= n < 256 && NatBits(n, 8) == NatBits(b, 8)[i := v]
  {
    var bs := NatBits(b, 8);
    assert Pow2(8) == 256;
    ValueOfBits(b, 8);
    FlipValue(bs, i, v);
    MaskHitIsBit(b, i);
    BitsOfValue(bs[i := v]);
    assert BitsNat(bs[i := v]) < Pow2(8);
  }

  /** All bits of a byte string. */
  ghost function BitsOf(data: seq<Byte>): (bs: seq<bool>)
    ensures |bs| == 8 * |data|
  {
    if data == [] then [] else NatBits(data[0], 8) + BitsOf(data[1..])
  }

  lemma {:induction false} BitsOfConcat(a: seq<Byte>, b: seq<Byte>)
    ensures BitsOf(a + b) == BitsOf(a) + BitsOf(b)
  {
    if a == [] {
      assert a + b == b;
    } else {
      BitsOfConcat(a[1..], b);
      assert (a + b)[0] == a[0] && (a + b)[1..] == a[1..] + b;
    }
  }

  lemma BitsOfThree(a: seq<Byte>, b: seq<Byte>, c: seq<Byte>)
    ensures BitsOf(a + b + c) == BitsOf(a) + BitsOf(b) + BitsOf(c)
  {
    BitsOfConcat(a + b, c);
    BitsOfConcat(a, b);
  }

  lemma SplitThree<T>(s: seq<T>, i: nat, j: nat)
    requires i <= j <= |s|
    ensures s[..i] + s[i..j] + s[j..] == s
  {
  }

  lemma UpdateSplit<T>(s: seq<T>, k: nat, v: T)
    requires k < |s|
    ensures s[..k] + [v] + s[k + 1..] == s[k := v]
  {
  }

  lemma Middle<T>(a: seq<T>, b: seq<T>, c: seq<T>)
    ensures (a + b + c)[|a|..|a| + |b|] == b
  {
  }

  lemma BitsOfSlice(data: seq<Byte>, i: nat, j: nat)
    requires i <= j <= |data|
    ensures BitsOf(data[i..j]) == BitsOf(data)[8 * i..8 * j]
  {
    var a, b, c := data[..i], data[i..j], data[j..];
    SplitThree(data, i, j);
    BitsOfThree(a, b, c);
    Middle(BitsOf(a), BitsOf(b), BitsOf(c));
  }

  lemma BitsOfOne(b: Byte)
    ensures BitsOf([b]) == NatBits(b, 8)
  {
    assert [b][1..] == [];
  }

  lemma BitsOfByteAt(data: seq<Byte>, k: nat)
    requires k < |data|
    ensures BitsOf(data)[8 * k..8 * k + 8] == NatBits(data[k], 8)
  {
    BitsOfSlice(data, k, k + 1);
    BitsOfOne(data[k]);
    assert data[k..k + 1] == [data[k]];
  }

  /** Equal bits, equal bytes. */
  lemma {:induction false} BitsOfInjective(a: seq<Byte>, b: seq<Byte>)
    requires BitsOf(a) == BitsOf(b)
    ensures a == b
  {
    if a != [] {
      assert NatBits(a[0], 8) == BitsOf(a)[..8] == BitsOf(b)[..8] == NatBits(b[0], 8);
      assert BitsOf(a[1..]) == BitsOf(a)[8..] == BitsOf(b)[8..] == BitsOf(b[1..]);
      assert Pow2(4) == 16 && Pow2(8) == 256;
      ValueOfBits(a[0], 8);
      ValueOfBits(b[0], 8);
      BitsOfInjective(a[1..], b[1..]);
    }
  }

  /** ficlBitGet. */
  method BitGet(bits: array<Byte>, index: nat) returns (v: bool)
    requires index < 8 * bits.Length
    ensures v == BitsOf(bits[..])[index]
  {
    MaskHitIsBit(bits[index / 8], index % 8);
    BitsOfByteAt(bits[..], index / 8);
    assert BitsOf(bits[..])[index] == BitsOf(bits[..])[8 * (index / 8)..8 * (index / 8) + 8][index % 8];
    v := MaskHit(bits[index / 8], index % 8);
  }

  /** ficlBitSet. */
  method BitSet(bits: array<Byte>, index: nat, value: bool)
    requires index < 8 * bits.Length
    modifies bits
    ensures BitsOf(bits[..]) == BitsOf(old(bits[..]))[index := value]
  {
    ghost var before := bits[..];
    bits[index / 8] := WithBit(bits[index / 8], index % 8, value);
    assert bits[..] == before[index / 8 := WithBit(before[index / 8], index % 8, value)];
    SetInBits(before, index, value);
  }

  lemma SetInBits(data: seq<Byte>, index: nat, value: bool)
    requires index < 8 * |data|
    ensures BitsOf(data[index / 8 := WithBit(data[index / 8], index % 8, value)]) == BitsOf(data)[index := value]
  {
    var k, i := index / 8, index % 8;
    var b := WithBit(data[k], i, value);
    BitsOfSplit(data, k, data[k]);
    BitsOfSplit(data, k, b);
    assert data[k := data[k]] == data;
    SetInMiddle(BitsOf(data[..k]), NatBits(data[k], 8), BitsOf(data[k + 1..]), i, value);
  }

  lemma SetInMiddle<T>(a: seq<T>, b: seq<T>, c: seq<T>, i: nat, v: T)
    requires i < |b|
    ensures (a + b + c)[|a| + i := v] == a + b[i := v] + c
  {
  }

  lemma BitsOfSplit(data: seq<Byte>, k: nat, b: Byte)
    requires k < |data|
    ensures BitsOf(data[k := b]) == BitsOf(data[..k]) + NatBits(b, 8) + BitsOf(data[k + 1..])
  {
    UpdateSplit(data, k, b);
    BitsOfThree(data[..k], [b], data[k + 1..]);
    BitsOfOne(b);
  }

  /** s with the bits t put in at position i. */
  function Overlay<T>(s: seq<T>, i: nat, t: seq<T>): seq<T>
    requires i + |t| <= |s|
  {
    s[..i] + t + s[i + |t|..]
  }

  lemma OverlayNext<T>(s: seq<T>, at: nat, t: seq<T>, i: nat)
    requires at + i < |s| && i < |t|
    ensures Overlay(s, at, t[..i])[at + i := t[i]] == Overlay(s, at, t[..i + 1])
  {
  }

  /** Copy count bits, one by one: the loop of ficlBitGetString, and of the compressor's
      two writers. */
  method CopyBits(destination: array<Byte>, at: nat, source: array<Byte>, from: nat, count: nat)
    requires destination != source
    requires at + count <= 8 * destination.Length && from + count <= 8 * source.Length
    modifies destination
    ensures BitsOf(destination[..]) == Overlay(BitsOf(old(destination[..])), at, BitsOf(source[..])[from..from + count])
  {
    ghost var before, all := BitsOf(destination[..]), BitsOf(source[..]);
    ghost var bits := all[from..from + count];
    for i := 0 to count
      invariant source[..] == old(source[..])
      invariant BitsOf(destination[..]) == Overlay(before, at, bits[..i])
    {
      assert bits[i] == all[from + i];
      OverlayNext(before, at, bits, i);
      CopyBit(destination, at + i, source, from + i);
    }
    assert bits[..count] == bits;
  }

  method CopyBit(destination: array<Byte>, at: nat, source: array<Byte>, from: nat)
    requires destination != source && at < 8 * destination.Length && from < 8 * source.Length
    modifies destination
    ensures BitsOf(destination[..]) == BitsOf(old(destination[..]))[at := BitsOf(source[..])[from]]
  {
    var v := BitGet(source, from);
    BitSet(destination, at, v);
  }

  /** ficlBitGetString: copy count bits to the end of the first destAlignment bits. */
  method BitGetString(destination: array<Byte>, source: array<Byte>, offset: nat, count: nat, destAlignment: nat)
    requires destination != source && count <= destAlignment <= 8 * destination.Length
    requires offset + count <= 8 * source.Length
    modifies destination
    ensures BitsOf(destination[..]) ==
            Overlay(BitsOf(old(destination[..])), destAlignment - count, BitsOf(source[..])[offset..offset + count])
  {
    CopyBits(destination, destAlignment - count, source, offset, count);
  }

  lemma OverlayMiddle<T>(a: seq<T>, b: seq<T>, c: seq<T>, t: seq<T>)
    requires |b| == |t|
    ensures Overlay(a + b + c, |a|, t) == a + t + c
  {
  }

  /** Overwriting bytes overwrites their bits. */
  lemma OverlayBits(data: seq<Byte>, at: nat, field: seq<Byte>)
    requires at + |field| <= |data|
    ensures BitsOf(Overlay(data, at, field)) == Overlay(BitsOf(data), 8 * at, BitsOf(field))
  {
    var a, b, c := data[..at], data[at..at + |field|], data[at + |field|..];
    SplitThree(data, at, at + |field|);
    BitsOfThree(a, b, c);
    BitsOfThree(a, field, c);
    OverlayMiddle(BitsOf(a), BitsOf(b), BitsOf(c), BitsOf(field));
  }

  // ----- Integers in memory -----

  /** The memory image of a 32-bit unsigned integer on a little- or big-endian machine. */
  function Stored(n: nat, little: bool): (bytes: seq<Byte>)
    requires n < Pow2(32)
    ensures |bytes| == 4
  {
    Pow2Values();
    var b := [n % 256, n / 256 % 256, n / 65536 % 256, n / 16777216];
    if little then b else [b[3], b[2], b[1], b[0]]
  }

  function Loaded(bytes: seq<Byte>, little: bool): nat
    requires |bytes| == 4
  {
    var b := if little then bytes else [bytes[3], bytes[2], bytes[1], bytes[0]];
    b[0] as int + 256 * (b[1] as int) + 65536 * (b[2] as int) + 16777216 * (b[3] as int)
  }

  /** ficlNetworkUnsigned16 on the two bytes it is given, wherever they came from. */
  function Network16(bytes: seq<Byte>): nat
    requires |bytes| == 2
  {
    256 * (bytes[0] as int) + bytes[1]
  }

  /** ficlNetworkUnsigned32: read the number's own memory as two big-endian halves. */
  function Network32(n: nat, little: bool): (r: nat)
    requires n < Pow2(32)
  {
    var bytes := Stored(n, little);
    Network16(bytes[..2]) * 65536 + Network16(bytes[2..])
  }

  /** The value of four bytes, the first one highest. */
  function BigEndian(b: seq<Byte>): nat
    requires |b| == 4
  {
    16777216 * (b[0] as int) + 65536 * (b[1] as int) + 256 * (b[2] as int) + b[3]
  }

  /** Shifting x left over a field of l bits and adding y to it. */
  lemma JoinField(x: nat, h: nat, y: nat, l: nat, size: nat)
    requires x < Pow2(h) && y < size && size == Pow2(l)
    ensures x * size + y < Pow2(h + l)
    ensures NatBits(x * size + y, h + l) == NatBits(x, h) + NatBits(y, l)
  {
    JoinBound(x, h, y, l);
    NatBitsJoin(x, h, y, l);
  }

  lemma JoinBound(x: nat, h: nat, y: nat, l: nat)
    requires x < Pow2(h) && y < Pow2(l)
    ensures x * Pow2(l) + y < Pow2(h + l)
  {
    var a, b := NatBits(x, h), NatBits(y, l);
    BitsNatConcat(a, b);
    ValueOfBits(x, h);
    ValueOfBits(y, l);
    assert BitsNat(a + b) < Pow2(|a + b|);
  }

  lemma JoinBytes(v: nat, x: nat, y: nat)
    requires v == x * 256 + y && x < 256 && y < 256
    ensures v < Pow2(16) && NatBits(v, 16) == NatBits(x, 8) + NatBits(y, 8)
  {
    assert Pow2(8) == 256 by { Pow2Values(); }
    JoinField(x, 8, y, 8, 256);
  }

  lemma JoinHalves(n: nat, x: nat, y: nat)
    requires x < Pow2(16) && y < Pow2(16) && n == x * 65536 + y
    ensures n < Pow2(32) && NatBits(n, 32) == NatBits(x, 16) + NatBits(y, 16)
  {
    Pow2Values();
    JoinField(x, 16, y, 16, 65536);
  }

  lemma BitsOfPair(x: Byte, y: Byte)
    ensures BitsOf([x, y]) == NatBits(x, 8) + NatBits(y, 8)
  {
    BitsOfConcat([x], [y]);
    BitsOfOne(x);
    BitsOfOne(y);
    assert [x] + [y] == [x, y];
  }

  lemma JoinFour(n: nat, x: nat, y: nat, b0: Byte, b1: Byte, b2: Byte, b3: Byte)
    requires n == x * 65536 + y && x == 256 * (b0 as int) + b1 && y == 256 * (b2 as int) + b3
    ensures n < Pow2(32)
    ensures NatBits(n, 32) == (NatBits(b0, 8) + NatBits(b1, 8)) + (NatBits(b2, 8) + NatBits(b3, 8))
  {
    JoinBytes(x, b0, b1);
    JoinBytes(y, b2, b3);
    JoinHalves(n, x, y);
  }

  lemma BitsOfFour(b: seq<Byte>)
    requires |b| == 4
    ensures BitsOf(b) == (NatBits(b[0], 8) + NatBits(b[1], 8)) + (NatBits(b[2], 8) + NatBits(b[3], 8))
  {
    BitsOfPair(b[0], b[1]);
    BitsOfPair(b[2], b[3]);
    BitsOfConcat([b[0], b[1]], [b[2], b[3]]);
    assert [b[0], b[1]] + [b[2], b[3]] == b;
  }

  lemma BigEndianBits(b: seq<Byte>)
    requires |b| == 4
    ensures BigEndian(b) < Pow2(32) && BitsOf(b) == NatBits(BigEndian(b), 32)
  {
    var x, y := 256 * (b[0] as int) + b[1], 256 * (b[2] as int) + b[3];
    var n := BigEndian(b);
    TwoHalves(b, x, y);
    JoinFour(n, x, y, b[0], b[1], b[2], b[3]);
    BitsOfFour(b);
  }

  lemma TwoHalves(b: seq<Byte>, x: nat, y: nat)
    requires |b| == 4 && x == 256 * (b[0] as int) + b[1] && y == 256 * (b[2] as int) + b[3]
    ensures BigEndian(b) == x * 65536 + y
  {
  }

  lemma StoredLoaded(b: seq<Byte>, little: bool)
    requires |b| == 4
    ensures Loaded(b, little) < Pow2(32) && Stored(Loaded(b, little), little) == b
  {
    Pow2Values();
    if little {
      Digits(b[0], b[1], b[2], b[3]);
    } else {
      Digits(b[3], b[2], b[1], b[0]);
    }
  }

  lemma Digits(b0: Byte, b1: Byte, b2: Byte, b3: Byte)
    ensures var n := b0 as int + 256 * (b1 as int) + 65536 * (b2 as int) + 16777216 * (b3 as int);
            n % 256 == b0 && n / 256 % 256 == b1 && n / 65536 % 256 == b2 && n / 16777216 == b3
  {
    var n := b0 as int + 256 * (b1 as int) + 65536 * (b2 as int) + 16777216 * (b3 as int);
    var n1, n2 := b1 as int + 256 * (b2 as int) + 65536 * (b3 as int), b2 as int + 256 * (b3 as int);
    DivUnique(n, 256, n1, b0);
    DivUnique(n, 65536, n2, b0 as int + 256 * (b1 as int));
    DivUnique(n, 16777216, b3, b0 as int + 256 * (b1 as int) + 65536 * (b2 as int));
    DivUnique(n1, 256, n2, b1);
    DivUnique(n2, 256, b3, b2);
  }

  lemma StoredBytes(n: nat)
    requires n < Pow2(32)
    ensures var b := Stored(n, false); BigEndian(b) == n && Stored(n, true) == [b[3], b[2], b[1], b[0]]
  {
    Pow2Values();
    assert n / 256 / 256 == n / 65536 && n / 65536 / 256 == n / 16777216;
  }

  /** On either kind of machine the memory of a converted number is its big-endian
      image, so bit p of that memory is bit p of the number from the top. */
  lemma NetworkIsBigEndian(n: nat, little: bool)
    requires n < Pow2(32)
    ensures Network32(n, little) < Pow2(32)
    ensures BitsOf(Stored(Network32(n, little), little)) == NatBits(n, 32)
  {
    var b := Stored(n, false);
    StoredBytes(n);
    BigEndianBits(b);
    StoredLoaded(b, little);
    assert Network32(n, little) == Loaded(b, little);
  }

  /** Reading back: four bytes taken as an int and converted give their big-endian value. */
  lemma NetworkReads(bytes: seq<Byte>, little: bool)
    requires |bytes| == 4
    ensures Loaded(bytes, little) < Pow2(32)
    ensures Network32(Loaded(bytes, little), little) == BitsNat(BitsOf(bytes))
  {
    StoredLoaded(bytes, little);
    BigEndianBits(bytes);
    ValueOfBits(BigEndian(bytes), 32);
  }
}
