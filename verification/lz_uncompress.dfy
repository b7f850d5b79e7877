/** ficlLzUncompress and its helper, working on byte arrays. */
module LzUncompress {
  import opened Bits
  import opened LzTokens
  import opened LzFormat
  import opened Options

  /** A zero prefix does not change the value of a bit string. */
  lemma LeadingZeros(n: nat, bits: seq<bool>)
    ensures BitsNat(False(n) + bits) == BitsNat(bits)
  {
    BitsNatConcat(False(n), bits);
    ZeroBits(n);
    ValueOfBits(0, n);
  }

  lemma LowOverlay(n: nat, bits: seq<bool>)
    requires |bits| <= n
    ensures BitsNat(Overlay(False(n), n - |bits|, bits)) == BitsNat(bits)
  {
    assert Overlay(False(n), n - |bits|, bits) == False(n - |bits|) + bits;
    LeadingZeros(n - |bits|, bits);
  }

  /** ficlBitGetString into a clear int, then ficlNetworkUnsigned32: the number that k
      bits spell. */
  method ReadNumber(data: array<Byte>, at: nat, k: nat, little: bool) returns (n: nat)
    requires k <= 32 && at + k <= 8 * data.Length
    ensures n == BitsNat(BitsOf(data[..])[at..at + k])
  {
    ghost var bits := BitsOf(data[..])[at..at + k];
    var memory := new Byte[4](_ => 0);
    ClearBits(memory[..]);
    BitGetString(memory, data, at, k, 32);
    LowOverlay(32, bits);
    n := NetworkNumber(memory, little);
  }

  method NetworkNumber(memory: array<Byte>, little: bool) returns (n: nat)
    requires memory.Length == 4
    ensures n == BitsNat(BitsOf(memory[..]))
  {
    NetworkReads(memory[..], little);
    n := Network32(Loaded(memory[..], little), little);
  }

  /** ficlLzDecodeHeaderField; nothing when it would read past the data. */
  method DecodeHeaderField(data: array<Byte>, byteOffset: nat, little: bool) returns (r: Option<(int, nat)>)
    ensures r == ReadField(data[..], byteOffset)
  {
    if byteOffset >= data.Length { return None; }
    var id := data[byteOffset];
    if id < 252 { return Some((id, byteOffset + 1)); }
    var length := if id == 253 then 2 else 4;
    var at := byteOffset + 1;
    if at + length > data.Length { return None; }
    var networkOrder := ReadNumber(data, 8 * at, 8 * length, little);
    BitsOfSlice(data[..], at, at + length);
    assert data[..][at..at + length] == data[at..at + length];
    r := Some((AsInt(networkOrder), at + length));
  }

  /** memmove within the output buffer. */
  method MoveMemory(mem: array<Byte>, to: nat, from: nat, n: nat)
    requires to + n <= mem.Length && from + n <= mem.Length
    modifies mem
    ensures mem[..] == Overlay(old(mem[..]), to, old(mem[from..from + n]))
  {
    var bytes := mem[from..from + n];
    forall i | 0 <= i < n { mem[to + i] := bytes[i]; }
  }

  lemma PutByteBits(mem: seq<Byte>, mem': seq<Byte>, b: nat, bits: seq<bool>)
    requires b < |mem| && |bits| == 8 && BitsOf(mem') == Overlay(BitsOf(mem), 8 * b, bits)
    ensures mem' == Overlay(mem, b, [NextByte(bits)])
  {
    var v := NextByte(bits);
    BitsOfValue(bits);
    BitsOfOne(v);
    OverlayBits(mem, b, [v]);
    BitsOfInjective(mem', Overlay(mem, b, [v]));
  }

  /** The literal byte: clear it and read eight bits into it. */
  method ReadByte(mem: array<Byte>, buffer: nat, data: array<Byte>, at: nat)
    requires mem != data && buffer < mem.Length && at + 8 <= 8 * data.Length
    modifies mem
    ensures mem[..] == Overlay(old(mem[..]), buffer, [NextByte(BitsOf(data[..])[at..at + 8])])
  {
    ghost var before, bits := mem[..], BitsOf(data[..])[at..at + 8];
    mem[buffer] := 0;
    ghost var cleared := mem[..];
    BitGetString(mem, data, at, NEXT_BITS, 8 * buffer + 8);
    PutByteBits(cleared, mem[..], buffer, bits);
    assert Overlay(before[buffer := 0], buffer, [NextByte(bits)]) == Overlay(before, buffer, [NextByte(bits)]);
  }

  lemma OverlayTwice<T>(s: seq<T>, i: nat, t: seq<T>, u: seq<T>)
    requires i + |t| + |u| <= |s|
    ensures Overlay(Overlay(s, i, t), i + |t|, u) == Overlay(s, i, t + u)
  {
  }

  /** The token that a length, an offset and a byte stand for; a symbol has length 0. */
  function TokenOf(offset: nat, length: nat, next: Byte): Token {
    if length == 0 then Symbol(next) else Phrase(offset, length, next)
  }

  /** The memory after the phrase's bytes are moved, and after the literal behind them is
      put in as well. */
  function Moved(mem: seq<Byte>, b: nat, w: nat, length: nat): (m: seq<Byte>)
    requires b + length <= |mem| && (length > 0 ==> w + length <= |mem|)
    ensures |m| == |mem|
  {
    if length == 0 then mem else Overlay(mem, b, mem[w..w + length])
  }

  function Expanded(mem: seq<Byte>, b: nat, w: nat, length: nat, next: Byte): seq<Byte>
    requires b + length < |mem| && (length > 0 ==> w + length <= |mem|)
  {
    Overlay(Moved(mem, b, w, length), b + length, [next])
  }

  lemma EmitIsExpanded(mem: seq<Byte>, b: nat, w: nat, offset: nat, length: nat, next: Byte)
    requires w == WindowAt(b) + offset
    ensures Emit(mem, b, TokenOf(offset, length, next)) ==
            if b + length >= |mem| || (length > 0 && w + length > |mem|) then None
            else Some(Expanded(mem, b, w, length, next))
  {
    if length > 0 && b + length < |mem| && w + length <= |mem| {
      OverlayTwice(mem, b, mem[w..w + length], [next]);
    }
  }

  method WriteBytes(mem: array<Byte>, buffer: nat, w: nat, length: nat, data: array<Byte>, at: nat,
                    ghost next: Byte)
    requires mem != data && at + 8 <= 8 * data.Length
    requires buffer + length < mem.Length && (length > 0 ==> w + length <= mem.Length)
    requires next == NextByte(BitsOf(data[..])[at..at + 8])
    modifies mem
    ensures mem[..] == Expanded(old(mem[..]), buffer, w, length, next)
  {
    if length > 0 { MoveMemory(mem, buffer, w, length); }
    ReadByte(mem, buffer + length, data, at);
  }

  /** Expanding a token into the output buffer, if it fits; `result` is what emitting the
      token gives. */
  method Expand(mem: array<Byte>, window: nat, buffer: nat, offset: nat, length: nat, data: array<Byte>, at: nat,
                ghost next: Byte, ghost result: Option<seq<Byte>>)
    returns (ok: bool)
    requires mem != data && at + 8 <= 8 * data.Length && window == WindowAt(buffer)
    requires next == NextByte(BitsOf(data[..])[at..at + 8]) && result == Emit(mem[..], buffer, TokenOf(offset, length, next))
    modifies mem
    ensures result == if ok then Some(mem[..]) else None
  {
    ghost var before := mem[..];
    ok := buffer + length < mem.Length && (length == 0 || window + offset + length <= mem.Length);
    var w := window + offset;
    if ok { WriteBytes(mem, buffer, w, length, data, at, next); }
    ghost var after := mem[..];
    ExpandedIs(before, buffer, w, offset, length, next, ok, after, result);
  }

  lemma ExpandedIs(before: seq<Byte>, b: nat, w: nat, offset: nat, length: nat, next: Byte, ok: bool, after: seq<Byte>,
                   result: Option<seq<Byte>>)
    requires w == WindowAt(b) + offset && ok == (b + length < |before| && (length == 0 || w + length <= |before|))
    requires ok ==> after == Expanded(before, b, w, length, next)
    requires result == Emit(before, b, TokenOf(offset, length, next))
    ensures result == if ok then Some(after) else None
  {
    EmitIsExpanded(before, b, w, offset, length, next);
  }

  // ----- Reading a token -----

  lemma PartBits<T>(s: seq<T>, at: nat, i: nat, j: nat)
    requires at <= |s| && i <= j && at + j <= |s|
    ensures s[at..][i..j] == s[at + i..at + j] && s[at..][i..] == s[at + i..]
  {
  }

  lemma SymbolRead(all: seq<bool>, at: nat)
    requires at + 9 <= |all| && !all[at]
    ensures ReadRest(all[at..]) == Some((Symbol(NextByte(all[at + 1..at + 9])), all[at + 9..]))
  {
    PartBits(all, at, 1, 9);
    PartBits(all, at, 9, 9);
  }

  lemma PhraseRead(all: seq<bool>, at: nat, v: nat)
    requires at + 26 <= |all| && all[at] && v == BitsNat(all[at + 1..at + 18])
    ensures v / 32 < 4096
    ensures ReadRest(all[at..]) == Some((Phrase(v / 32, v % 32 + 2, NextByte(all[at + 18..at + 26])), all[at + 26..]))
  {
    PhraseBound(v);
    PartBits(all, at, 1, 18);
    PartBits(all, at, 18, 26);
    PartBits(all, at, 26, 26);
  }

  lemma NothingRead(all: seq<bool>, at: nat)
    requires at <= |all| && (|all| < at + 9 || (all[at] && |all| < at + 26))
    ensures ReadRest(all[at..]) == None
  {
  }

  /** A reader and the positions where it reads a string as ReadRest does. */
  ghost function ReadsWell(read: seq<bool> -> Option<(Token, seq<bool>)>, all: seq<bool>): nat -> bool {
    (at: nat) => at <= |all| && read(all[at..]) == ReadRest(all[at..])
  }

  ghost predicate ReadsAll(read: seq<bool> -> Option<(Token, seq<bool>)>, all: seq<bool>) {
    Throughout(ReadsWell(read, all), 0, |all| + 1)
  }

  lemma ReaderReadsAll(all: seq<bool>)
    ensures ReadsAll(Reader(), all)
  {
    ThroughoutFrom(ReadsWell(Reader(), all), 0, |all| + 1);
  }

  lemma ReadsAllAt(read: seq<bool> -> Option<(Token, seq<bool>)>, all: seq<bool>, at: nat)
    requires ReadsAll(read, all) && at <= |all|
    ensures read(all[at..]) == ReadRest(all[at..])
  {
    ThroughoutAt(ReadsWell(read, all), 0, |all| + 1, at);
    assert ReadsWell(read, all)(at);
  }

  /** Reading a token up to its literal, which is the eight bits at `at`. */
  method TakeToken(data: array<Byte>, inputPosition: nat, little: bool) returns (ok: bool, offset: nat, length: nat, at: nat)
    requires inputPosition <= 8 * data.Length
    ensures ok ==> inputPosition < at && at + 8 <= 8 * data.Length
    ensures ReadRest(BitsOf(data[..])[inputPosition..]) ==
            if ok then Some((TokenOf(offset, length, NextByte(BitsOf(data[..])[at..at + 8])), BitsOf(data[..])[at + 8..]))
            else None
  {
    ghost var all := BitsOf(data[..]);
    ok, offset, length, at := false, 0, 0, inputPosition;
    if 8 * data.Length < inputPosition + 9 {
      NothingRead(all, inputPosition);
      return;
    }
    var token := BitGet(data, inputPosition);
    at := at + 1;
    if token {
      if 8 * data.Length < inputPosition + 26 {
        NothingRead(all, inputPosition);
        return;
      }
      var both := ReadNumber(data, at, 17, little);
      at := at + 17;
      offset, length := both / 32, both % 32 + MINIMUM_USEFUL_MATCH;
      PhraseRead(all, inputPosition, both);
    } else {
      SymbolRead(all, inputPosition);
    }
    ok := true;
  }

  /** The same, on a reader that is known to read this string well. */
  method NextToken(data: array<Byte>, inputPosition: nat, little: bool,
                   ghost read: seq<bool> -> Option<(Token, seq<bool>)>, ghost all: seq<bool>)
    returns (ok: bool, offset: nat, length: nat, at: nat)
    requires inputPosition <= 8 * data.Length && all == BitsOf(data[..]) && ReadsAll(read, all)
    ensures ok ==> inputPosition < at && at + 8 <= 8 * data.Length
    ensures read(all[inputPosition..]) ==
            if ok then Some((TokenOf(offset, length, NextByte(all[at..at + 8])), all[at + 8..])) else None
  {
    ok, offset, length, at := TakeToken(data, inputPosition, little);
    ReadsAllAt(read, all, inputPosition);
  }

  // ----- The loop -----

  /** One turn: the memory it leaves behind is what unpacking goes on with. */
  method UncompressTurn(data: array<Byte>, inputPosition: nat, bitstreamLength: int, mem: array<Byte>, window: nat, buffer: nat,
                        little: bool, ghost read: seq<bool> -> Option<(Token, seq<bool>)>, ghost all: seq<bool>)
    returns (ok: bool, inputPosition': nat, window': nat, buffer': nat)
    requires mem != data && inputPosition <= 8 * data.Length && window == WindowAt(buffer)
    requires all == BitsOf(data[..]) && ReadsAll(read, all) && inputPosition != bitstreamLength
    modifies mem
    ensures ok ==> inputPosition < inputPosition' <= 8 * data.Length && window' == WindowAt(buffer')
    ensures UnpackWith(read, all[inputPosition..], bitstreamLength - inputPosition, old(mem[..]), buffer) ==
            if ok then UnpackWith(read, all[inputPosition'..], bitstreamLength - inputPosition', mem[..], buffer') else None
  {
    ghost var before := mem[..];
    var offset, length, at;
    ok, offset, length, at := NextToken(data, inputPosition, little, read, all);
    inputPosition', window', buffer' := at + NEXT_BITS, window, buffer + length + 1;
    if !ok { return; }
    ghost var next := NextByte(all[at..at + 8]);
    ghost var t := TokenOf(offset, length, next);
    ok := Expand(mem, window, buffer, offset, length, data, at, next, Emit(before, buffer, t));
    UnpackGoesOn(read, all, inputPosition, inputPosition', bitstreamLength, before, buffer, t, ok, mem[..], buffer');
    if buffer' > WINDOW_SIZE { window' := buffer' - WINDOW_SIZE; }
  }

  lemma UnpackGoesOn(read: seq<bool> -> Option<(Token, seq<bool>)>, all: seq<bool>, at: nat, at': nat, end: int,
                     mem: seq<Byte>, b: nat, t: Token, ok: bool, mem': seq<Byte>, b': nat)
    requires at < at' <= |all| && at != end && read(all[at..]) == Some((t, all[at'..]))
    requires b' == b + t.Consumed() && Emit(mem, b, t) == if ok then Some(mem') else None
    ensures UnpackWith(read, all[at..], end - at, mem, b) ==
            if ok then UnpackWith(read, all[at'..], end - at', mem', b') else None
  {
    assert |all[at..]| - |all[at'..]| == at' - at;
  }

  /** The token loop; nothing when it reads or writes out of bounds. */
  method TokenLoop(data: array<Byte>, start: nat, bitstreamLength: int, mem: array<Byte>, little: bool,
                   ghost read: seq<bool> -> Option<(Token, seq<bool>)>, ghost all: seq<bool>, ghost r: Option<seq<Byte>>)
    returns (ok: bool)
    requires mem != data && start <= 8 * data.Length && all == BitsOf(data[..]) && ReadsAll(read, all)
    requires r == UnpackWith(read, all[start..], bitstreamLength - start, mem[..], 0)
    modifies mem
    ensures r == if ok then Some(mem[..]) else None
  {
    var inputPosition, window, buffer := start, 0, 0;
    ok := true;
    while inputPosition != bitstreamLength
      invariant data[..] == old(data[..]) && inputPosition <= 8 * data.Length && window == WindowAt(buffer) && ok
      invariant r == UnpackWith(read, all[inputPosition..], bitstreamLength - inputPosition, mem[..], buffer)
      decreases 8 * data.Length - inputPosition
    {
      ok, inputPosition, window, buffer :=
        UncompressTurn(data, inputPosition, bitstreamLength, mem, window, buffer, little, read, all);
      if !ok { return; }
    }
  }

  method UnpackTokens(data: array<Byte>, start: nat, count: int, mem: array<Byte>, little: bool) returns (ok: bool)
    requires mem != data && start <= 8 * data.Length
    modifies mem
    ensures Unpack(BitsOf(data[..])[start..], count, old(mem[..]), 0) == if ok then Some(mem[..]) else None
  {
    ghost var all := BitsOf(data[..]);
    ghost var result := Unpack(all[start..], count, mem[..], 0);
    ReaderReadsAll(all);
    ok := TokenLoop(data, start, count + start, mem, little, Reader(), all, result);
  }

  lemma UncompressedIs(data: seq<Byte>, count: int, at: nat, size: nat, at': nat)
    requires ReadField(data, 0) == Some((count, at)) && ReadField(data, at) == Some((size, at'))
    ensures at' <= |data|
    ensures Uncompressed(data) ==
            match Unpack(BitsOf(data)[8 * at'..], count, Zeros(size + 1), 0)
            case None => None
            case Some(mem) => Some(mem[..size])
  {
  }

  method ClearBuffer(n: nat) returns (mem: array<Byte>)
    ensures fresh(mem) && mem[..] == Zeros(n)
  {
    mem := new Byte[n](_ => 0);
  }

  /** The body of the file into a buffer of the size that the header gives. */
  method UnpackBody(compressed: array<Byte>, count: int, uncompressedSize: nat, at: nat, little: bool) returns (r: Option<seq<Byte>>)
    requires at <= compressed.Length
    ensures r == match Unpack(BitsOf(compressed[..])[8 * at..], count, Zeros(uncompressedSize + 1), 0)
                 case None => None
                 case Some(mem) => Some(mem[..uncompressedSize])
  {
    var mem := ClearBuffer(uncompressedSize + 1);
    var ok := UnpackTokens(compressed, 8 * at, count, mem, little);
    r := if ok then Some(mem[..uncompressedSize]) else None;
  }

  /** ficlLzUncompress; nothing when it reads or writes out of bounds. */
  method Uncompress(compressed: array<Byte>, little: bool) returns (r: Option<seq<Byte>>)
    ensures r == Uncompressed(compressed[..])
  {
    var first := DecodeHeaderField(compressed, 0, little);
    if first.None? { return None; }
    var second := DecodeHeaderField(compressed, first.value.1, little);
    if second.None? || second.value.0 < 0 { return None; }
    UncompressedIs(compressed[..], first.value.0, first.value.1, second.value.0, second.value.1);
    r := UnpackBody(compressed, first.value.0, second.value.0, second.value.1, little);
  }
}
