/** ficlLzCompress and its helpers, working on byte arrays. */
module LzCompress {
  import opened Bits
  import opened Words
  import opened LzTokens
  import opened LzFormat
  import opened Options

  /** The inner loops of ficlLzCompareWindow: how far the window at i and the buffer at j agree. */
  method TraceMatch(s: array<Byte>, i: nat, iEnd: nat, j: nat, jEnd: nat) returns (length: nat)
    requires i <= iEnd <= s.Length && j <= jEnd <= s.Length
    ensures length == MatchLength(s[..], i, iEnd, j, jEnd)
  {
    length := 0;
    while i + length < iEnd && j + length < jEnd && s[i + length] == s[j + length]
      invariant i + length <= iEnd && j + length <= jEnd
      invariant MatchLength(s[..], i, iEnd, j, jEnd) == length + MatchLength(s[..], i + length, iEnd, j + length, jEnd)
    {
      length := length + 1;
    }
  }

  /** ficlLzCompareWindow: the longest useful match, the first of that length, and the
      byte that follows it in the buffer. */
  method CompareWindow(s: array<Byte>, window: nat, buffer: nat, windowSize: nat, bufferSize: nat)
    returns (longest: nat, offset: nat, next: Byte)
    requires 0 < bufferSize && buffer + bufferSize <= s.Length && window + windowSize <= s.Length
    ensures Match(longest, offset) == BestMatch(s[..], Search(window, windowSize, buffer, bufferSize - 1), windowSize)
    ensures buffer + longest < s.Length && next == s[buffer + longest]
  {
    ghost var data, q := s[..], Search(window, windowSize, buffer, bufferSize - 1);
    longest, offset := 0, 0;
    var bufferFirst := s[buffer];
    next := bufferFirst;
    for trace := 0 to windowSize
      invariant longest < bufferSize && next == s[buffer + longest]
      invariant Match(longest, offset) == BestMatch(data, q, trace)
    {
      if s[window + trace] == bufferFirst {
        var length := TraceMatch(s, window + trace, window + windowSize, buffer, buffer + bufferSize - 1);
        assert length == LengthAt(data, q, trace);
        if length > longest && length >= MINIMUM_USEFUL_MATCH {
          offset := trace;
          longest := length;
          next := s[buffer + length];
        }
      }
    }
  }

  /** The token as the integer that is shifted and or-ed together; no two fields overlap. */
  function TokenNumber(t: Token): nat
    requires t.InRange()
  {
    if t.Symbol? then t.next
    else 0x200_0000 + t.offset * 0x2000 + (t.length - MINIMUM_USEFUL_MATCH) * 0x100 + t.next
  }

  function TokenLength(t: Token): nat { if t.Symbol? then 9 else 26 }

  /** Its low bits are the token's bits. */
  lemma TokenNumberBits(t: Token)
    requires t.InRange()
    ensures TokenNumber(t) < Pow2(32)
    ensures NatBits(TokenNumber(t), TokenLength(t)) == t.Bits()
  {
    Pow2Values();
    if t.Symbol? {
      SymbolNumberBits(t.next);
    } else {
      PhraseNumberBits(t.offset, t.length - MINIMUM_USEFUL_MATCH, t.next);
    }
  }

  lemma SymbolNumberBits(b: Byte)
    ensures NatBits(b, 9) == [false] + NatBits(b, 8)
  {
    FieldSizes();
    OneBit();
    NatBitsJoin(0, 1, b, 8);
  }

  lemma OneBit()
    ensures NatBits(0, 1) == [false] && NatBits(1, 1) == [true] && Pow2(1) == 2
  {
    assert NatBits(0, 1) == NatBits(0, 0) + [false];
    assert NatBits(1, 1) == NatBits(0, 0) + [true];
  }

  lemma ThreeFields(o: nat, wo: nat, so: nat, l: nat, wl: nat, sl: nat, b: nat, wb: nat, sb: nat)
    requires o < so == Pow2(wo) && l < sl == Pow2(wl) && b < sb == Pow2(wb)
    ensures NatBits(((so + o) * sl + l) * sb + b, 1 + wo + wl + wb) == [true] + NatBits(o, wo) + NatBits(l, wl) + NatBits(b, wb)
  {
    OneBit();
    JoinField(1, 1, o, wo, so);
    TwoFurther(so + o, 1 + wo, l, wl, sl, b, wb, sb, [true] + NatBits(o, wo));
  }

  lemma TwoFurther(x: nat, w: nat, l: nat, wl: nat, sl: nat, b: nat, wb: nat, sb: nat, bits: seq<bool>)
    requires x < Pow2(w) && l < sl == Pow2(wl) && b < sb == Pow2(wb) && NatBits(x, w) == bits
    ensures NatBits((x * sl + l) * sb + b, w + wl + wb) == bits + NatBits(l, wl) + NatBits(b, wb)
  {
    JoinField(x, w, l, wl, sl);
    JoinField(x * sl + l, w + wl, b, wb, sb);
  }

  lemma PhraseNumberBits(o: nat, l: nat, b: Byte)
    requires o < 4096 && l < 32
    ensures NatBits(0x200_0000 + o * 0x2000 + l * 0x100 + b, 26) == [true] + NatBits(o, 12) + NatBits(l, 5) + NatBits(b, 8)
  {
    FieldSizes();
    ThreeFields(o, 12, 4096, l, 5, 32, b, 8, 256);
  }

  /** The bit loop: the low k bits of a number, highest first, through its network-order
      memory image. */
  method PutBits(data: array<Byte>, at: nat, number: nat, k: nat, little: bool)
    requires number < Pow2(32) && k <= 32 && at + k <= 8 * data.Length
    modifies data
    ensures BitsOf(data[..]) == Overlay(BitsOf(old(data[..])), at, NatBits(number, k))
  {
    var memory := MemoryOf(number, little);
    LowSlice(number, 32 - k, k, NatBits(number, 32));
    CopyBits(data, at, memory, 32 - k, k);
  }

  lemma LowSlice(number: nat, j: nat, k: nat, bits: seq<bool>)
    requires bits == NatBits(number, j + k)
    ensures bits[j..j + k] == NatBits(number, k)
  {
    NatBitsLow(number, j, k);
    assert bits[j..] == bits[j..j + k];
  }

  /** ficlNetworkUnsigned32, and the bytes of its result in memory. */
  method NetworkImage(number: nat, little: bool) returns (image: seq<Byte>)
    requires number < Pow2(32)
    ensures |image| == 4 && BitsOf(image) == NatBits(number, 32)
  {
    NetworkIsBigEndian(number, little);
    image := Stored(Network32(number, little), little);
  }

  /** The four bytes a converted number occupies. */
  method MemoryOf(number: nat, little: bool) returns (memory: array<Byte>)
    requires number < Pow2(32)
    ensures fresh(memory) && memory.Length == 4 && BitsOf(memory[..]) == NatBits(number, 32)
  {
    var image := NetworkImage(number, little);
    memory := new Byte[4];
    memory[0], memory[1], memory[2], memory[3] := image[0], image[1], image[2], image[3];
    assert memory[..] == image;
  }

  /** The bit loop of a header field: the low bytes of a number, highest first. */
  method PutLowBytes(data: array<Byte>, at: nat, input: nat, length: nat, little: bool)
    requires input < Pow2(32) && length <= 4 && at + length <= data.Length
    modifies data
    ensures data[..] == Overlay(old(data[..]), at, LowBytes(input, length))
  {
    ghost var before := data[..];
    PutBits(data, 8 * at, input, 8 * length, little);
    LowBytesBits(input, length);
    OverlayBits(before, at, LowBytes(input, length));
    BitsOfInjective(data[..], Overlay(before, at, LowBytes(input, length)));
  }

  lemma OverlayCons<T>(s: seq<T>, at: nat, x: T, t: seq<T>)
    requires at + 1 + |t| <= |s|
    ensures Overlay(s[at := x], at + 1, t) == Overlay(s, at, [x] + t)
  {
  }

  /** ficlLzEncodeHeaderField. */
  method EncodeHeaderField(data: array<Byte>, input: nat, byteOffset: nat, little: bool) returns (byteOffset': nat)
    requires input < Pow2(32) && byteOffset + 5 <= data.Length
    modifies data
    ensures byteOffset' == byteOffset + |HeaderField(input)|
    ensures data[..] == Overlay(old(data[..]), byteOffset, HeaderField(input))
  {
    ghost var before := data[..];
    if input <= 252 {
      data[byteOffset] := input;
      byteOffset' := byteOffset + 1;
    } else {
      var id, length := 254, 4;
      if input <= 65536 { id, length := 253, 2; }
      data[byteOffset] := id;
      assert data[..] == before[byteOffset := id];
      PutLowBytes(data, byteOffset + 1, input, length, little);
      OverlayCons(before, byteOffset, id, LowBytes(input, length));
      byteOffset' := byteOffset + 1 + length;
    }
  }

  // ----- The token loop -----

  /** At p the token to be chosen leads the bits that are still to come. */
  ghost predicate FeedsAt(code: Token -> seq<bool>, stream: nat -> seq<bool>, s: seq<Byte>, p: nat)
    requires p < |s|
  {
    stream(p) == code(TokenAt(s, p)) + stream(p + TokenAt(s, p).Consumed())
  }

  ghost function FeedsEverywhere(code: Token -> seq<bool>, stream: nat -> seq<bool>, s: seq<Byte>): nat -> bool {
    (p: nat) => p < |s| && FeedsAt(code, stream, s, p)
  }

  ghost predicate Feeds(code: Token -> seq<bool>, stream: nat -> seq<bool>, s: seq<Byte>) {
    Throughout(FeedsEverywhere(code, stream, s), 0, |s|)
  }

  lemma TokenLeads(code: Token -> seq<bool>, stream: nat -> seq<bool>, s: seq<Byte>, p: nat, t: Token)
    requires Feeds(code, stream, s) && p < |s| && t == TokenAt(s, p)
    ensures stream(p) == code(t) + stream(p + t.Consumed())
  {
    var holds := FeedsEverywhere(code, stream, s);
    ThroughoutAt(holds, 0, |s|, p);
    assert holds(p);
  }

  lemma StreamStep(code: Token -> seq<bool>, s: seq<Byte>, p: nat, t: Token)
    requires p < |s| && t == TokenAt(s, p)
    ensures Wire(code, Tokens(s, p)) == code(t) + Wire(code, Tokens(s, p + t.Consumed()))
  {
  }

  /** The bits that are still to come at each position. */
  ghost predicate Streams(code: Token -> seq<bool>, stream: nat -> seq<bool>, s: seq<Byte>) {
    forall q: nat :: q <= |s| ==> stream(q) == Wire(code, Tokens(s, q))
  }

  lemma StreamIsFed(code: Token -> seq<bool>, stream: nat -> seq<bool>, s: seq<Byte>, p: nat)
    requires Streams(code, stream, s) && p < |s|
    ensures FeedsAt(code, stream, s, p)
  {
    StreamStep(code, s, p, TokenAt(s, p));
  }

  lemma StreamFeeds(code: Token -> seq<bool>, stream: nat -> seq<bool>, s: seq<Byte>)
    requires Streams(code, stream, s)
    ensures Feeds(code, stream, s)
  {
    var holds := FeedsEverywhere(code, stream, s);
    forall p: nat | p < |s|
      ensures holds(p)
    {
      StreamIsFed(code, stream, s, p);
    }
    ThroughoutFrom(holds, 0, |s|);
  }

  lemma TheStream(code: Token -> seq<bool>, s: seq<Byte>) returns (stream: nat -> seq<bool>)
    ensures stream(0) == Wire(code, Tokens(s, 0)) && stream(|s|) == [] && Feeds(code, stream, s)
  {
    stream := (q: nat) => if q <= |s| then Wire(code, Tokens(s, q)) else [];
    StreamFeeds(code, stream, s);
  }

  /** The output buffer holds the bits written so far and is clear behind them; with the
      bits to come they make up the stream. */
  ghost predicate Written(stream: nat -> seq<bool>, p: nat, bits: seq<bool>, done: seq<bool>) {
    && done + stream(p) == stream(0) && |done| <= |bits|
    && bits == done + False(|bits| - |done|)
  }

  lemma WrittenStep(stream: nat -> seq<bool>, p: nat, bits: seq<bool>, done: seq<bool>, t: seq<bool>, p': nat)
    requires Written(stream, p, bits, done) && stream(p) == t + stream(p') && |done| + |t| <= |bits|
    ensures Written(stream, p', Overlay(bits, |done|, t), done + t)
  {
    Assoc(done, t, stream(p'));
    OverlayFalse(done, t, |bits| - |done|);
  }

  lemma OverlayFalse(done: seq<bool>, t: seq<bool>, n: nat)
    requires |t| <= n
    ensures Overlay(done + False(n), |done|, t) == (done + t) + False(n - |t|)
  {
  }

  /** The first half of the loop body: choose the token. */
  method ChooseToken(s: array<Byte>, p: nat, window: nat, windowSize: nat) returns (t: Token)
    requires p < s.Length && window == WindowAt(p) && windowSize == p - window
    ensures t == TokenAt(s[..], p)
  {
    var remaining := s.Length - p;
    var bufferSize := Min(remaining, BUFFER_SIZE);
    var useWindowSize := Min(remaining, windowSize);
    var length, offset, next := CompareWindow(s, window, p, useWindowSize, bufferSize);
    t := if length > 1 then Phrase(offset, length, next) else Symbol(next);
  }

  method FindToken(s: array<Byte>, p: nat, window: nat, windowSize: nat,
                   ghost code: Token -> seq<bool>, ghost stream: nat -> seq<bool>)
    returns (t: Token)
    requires p < s.Length && window == WindowAt(p) && windowSize == p - window && Feeds(code, stream, s[..])
    ensures t.InRange() && p + t.Consumed() <= s.Length
    ensures stream(p) == code(t) + stream(p + t.Consumed())
  {
    ghost var data := s[..];
    t := ChooseToken(s, p, window, windowSize);
    TokenLeads(code, stream, data, p, t);
  }

  /** A token that does not fit shows that the stream does not. */
  lemma TokenOverruns(stream: nat -> seq<bool>, p: nat, bits: seq<bool>, done: seq<bool>, t: seq<bool>, p': nat)
    requires Written(stream, p, bits, done) && stream(p) == t + stream(p')
    ensures |done| + |t| <= |stream(0)|
  {
  }

  /** The second half: write its bits. */
  method PutToken(t: Token, compressed: array<Byte>, outputPosition: nat, little: bool,
                  ghost stream: nat -> seq<bool>, ghost p: nat, ghost done: seq<bool>)
    requires t.InRange() && stream(p) == t.Bits() + stream(p + t.Consumed())
    requires Written(stream, p, BitsOf(compressed[..]), done) && outputPosition == |done|
    requires outputPosition + |t.Bits()| <= 8 * compressed.Length
    modifies compressed
    ensures Written(stream, p + t.Consumed(), BitsOf(compressed[..]), done + t.Bits())
  {
    WrittenStep(stream, p, BitsOf(compressed[..]), done, t.Bits(), p + t.Consumed());
    PutNumber(t, compressed, outputPosition, little);
  }

  /** The token's bits, out of its number. */
  method PutNumber(t: Token, compressed: array<Byte>, outputPosition: nat, little: bool)
    requires t.InRange() && outputPosition + |t.Bits()| <= 8 * compressed.Length
    modifies compressed
    ensures BitsOf(compressed[..]) == Overlay(BitsOf(old(compressed[..])), outputPosition, t.Bits())
  {
    TokenNumberBits(t);
    PutBits(compressed, outputPosition, TokenNumber(t), TokenLength(t), little);
  }

  /** Sliding the window over the bytes of a token. */
  method SlideWindow(window: nat, windowSize: nat, length: nat, ghost p: nat) returns (window': nat, windowSize': nat)
    requires window == WindowAt(p) && windowSize == p - window
    ensures window' == WindowAt(p + length) && windowSize' == p + length - window'
  {
    window', windowSize' := window, windowSize;
    if windowSize == WINDOW_SIZE {
      window' := window + length;
    } else if windowSize + length < WINDOW_SIZE {
      windowSize' := windowSize + length;
    } else {
      window' := window + windowSize + length - WINDOW_SIZE;
      windowSize' := WINDOW_SIZE;
    }
  }

  lemma NothingWritten(stream: nat -> seq<bool>, bits: seq<bool>)
    requires bits == False(|bits|)
    ensures Written(stream, 0, bits, [])
  {
    assert [] + stream(0) == stream(0);
    assert [] + False(|bits|) == False(|bits|);
  }

  lemma AllWritten(stream: nat -> seq<bool>, p: nat, bits: seq<bool>, done: seq<bool>)
    requires Written(stream, p, bits, done) && stream(p) == []
    ensures done == stream(0) && bits == done + False(|bits| - |done|)
  {
    assert done + [] == done;
  }

  /** One turn of the token loop; fits is false when the bits would go beyond the limit. */
  method CompressTurn(s: array<Byte>, compressed: array<Byte>, limit: nat, little: bool, buffer: nat, window: nat, windowSize: nat,
                      outputPosition: nat, ghost code: Token -> seq<bool>, ghost stream: nat -> seq<bool>, ghost done: seq<bool>)
    returns (fits: bool, buffer': nat, window': nat, windowSize': nat, written: nat, ghost done': seq<bool>)
    requires s != compressed && buffer < s.Length && window == WindowAt(buffer) && windowSize == buffer - window
    requires (forall t: Token :: code(t) == t.Bits()) && Feeds(code, stream, s[..])
    requires Written(stream, buffer, BitsOf(compressed[..]), done) && outputPosition == |done| && limit <= 8 * compressed.Length
    modifies compressed
    ensures buffer < buffer' <= s.Length && window' == WindowAt(buffer') && windowSize' == buffer' - window'
    ensures if fits then Written(stream, buffer', BitsOf(compressed[..]), done') && written == |done'| <= limit else limit < |stream(0)|
  {
    var t := FindToken(s, buffer, window, windowSize, code, stream);
    var length := t.Consumed();
    written, done' := outputPosition + TokenLength(t), done + t.Bits();
    fits := written <= limit;
    if fits {
      PutToken(t, compressed, outputPosition, little, stream, buffer, done);
    } else {
      TokenOverruns(stream, buffer, BitsOf(compressed[..]), done, t.Bits(), buffer + length);
    }
    window', windowSize' := SlideWindow(window, windowSize, length, buffer);
    buffer' := buffer + length;
  }

  /** The token loop. */
  method TokenLoop(s: array<Byte>, compressed: array<Byte>, limit: nat, little: bool,
                   ghost code: Token -> seq<bool>, ghost stream: nat -> seq<bool>)
    returns (fits: bool, outputPosition: nat)
    requires forall t: Token :: code(t) == t.Bits()
    requires s != compressed && limit <= 8 * compressed.Length && stream(s.Length) == [] && Feeds(code, stream, s[..])
    requires BitsOf(compressed[..]) == False(8 * compressed.Length)
    modifies compressed
    ensures fits <==> |stream(0)| <= limit
    ensures fits ==> outputPosition == |stream(0)|
    ensures fits ==> BitsOf(compressed[..]) == stream(0) + False(8 * compressed.Length - outputPosition)
  {
    ghost var data, done := s[..], [];
    var window, buffer, windowSize := 0, 0, 0;
    outputPosition := 0;
    NothingWritten(stream, BitsOf(compressed[..]));
    fits := true;
    while buffer < s.Length
      invariant s[..] == data && buffer <= s.Length && window == WindowAt(buffer) && windowSize == buffer - window && fits
      invariant Written(stream, buffer, BitsOf(compressed[..]), done) && outputPosition == |done| <= limit
    {
      fits, buffer, window, windowSize, outputPosition, done :=
        CompressTurn(s, compressed, limit, little, buffer, window, windowSize, outputPosition, code, stream, done);
      if !fits { return; }
    }
    AllWritten(stream, buffer, BitsOf(compressed[..]), done);
  }

  method CompressTokens(s: array<Byte>, compressed: array<Byte>, limit: nat, little: bool)
    returns (fits: bool, outputPosition: nat)
    requires s != compressed && limit <= 8 * compressed.Length && BitsOf(compressed[..]) == False(8 * compressed.Length)
    modifies compressed
    ensures fits <==> |StreamAt(s[..], 0)| <= limit
    ensures fits ==> outputPosition == |StreamAt(s[..], 0)|
    ensures fits ==> BitsOf(compressed[..]) == StreamAt(s[..], 0) + False(8 * compressed.Length - outputPosition)
  {
    ghost var code := (t: Token) => t.Bits();
    ghost var stream := TheStream(code, s[..]);
    assert stream(0) == StreamAt(s[..], 0);
    fits, outputPosition := TokenLoop(s, compressed, limit, little, code, stream);
  }

  // ----- The whole compressor -----

  /** The bytes that hold the stream are its packed form. */
  lemma PackedPrefix(compressed: seq<Byte>, bits: seq<bool>)
    requires |bits| <= 8 * |compressed| && 0 < |compressed|
    requires BitsOf(compressed) == bits + False(8 * |compressed| - |bits|)
    ensures ByteCount(|bits|) <= |compressed|
    ensures compressed[..ByteCount(|bits|)] == PackBytes(Padded(bits), ByteCount(|bits|))
  {
    var c := ByteCount(|bits|);
    BitsOfSlice(compressed, 0, c);
    PaddedPrefix(bits, 8 * |compressed| - |bits|, c);
    PackedUnique(bits, compressed[0..c]);
  }

  lemma PaddedPrefix(bits: seq<bool>, n: nat, c: nat)
    requires c == ByteCount(|bits|) && 8 * c <= |bits| + n
    ensures (bits + False(n))[8 * 0..8 * c] == Padded(bits)
  {
  }

  lemma TwoFields(header: seq<Byte>, f: seq<Byte>, g: seq<Byte>)
    requires |f| + |g| <= |header|
    ensures Overlay(Overlay(header, 0, f), |f|, g)[..|f| + |g|] == f + g
  {
  }

  /** Both header fields. */
  method EncodeHeader(outputPosition: nat, size: nat, little: bool) returns (header: array<Byte>, headerLength: nat)
    requires outputPosition < Pow2(32) && size < Pow2(32)
    ensures fresh(header) && headerLength <= header.Length
    ensures header[..headerLength] == HeaderField(outputPosition) + HeaderField(size)
  {
    header := new Byte[10](_ => 0);
    ghost var before := header[..];
    headerLength := EncodeHeaderField(header, outputPosition, 0, little);
    headerLength := EncodeHeaderField(header, size, headerLength, little);
    TwoFields(before, HeaderField(outputPosition), HeaderField(size));
  }

  /** realloc, memmove and memcpy: the header, then the body. */
  method PlugInHeader(header: array<Byte>, headerLength: nat, body: array<Byte>, size: nat) returns (file: array<Byte>)
    requires headerLength <= header.Length && size <= body.Length
    ensures fresh(file) && file[..] == header[..headerLength] + body[..size]
  {
    file := new Byte[headerLength + size](_ => 0);
    forall i | 0 <= i < size { file[headerLength + i] := body[i]; }
    forall i | 0 <= i < headerLength { file[i] := header[i]; }
  }

  /** ficlLzCompress.  It gives no file where the original writes behind its allocation or counts
      the bits beyond an int. */
  method Compress(uncompressed: array<Byte>, little: bool) returns (file: Option<array<Byte>>)
    requires uncompressed.Length < 0x8000_0000
    ensures file.Some? <==> CompressedFile(uncompressed[..]).Some?
    ensures file.Some? ==> fresh(file.value) && file.value[..] == CompressedFile(uncompressed[..]).value
  {
    var n := uncompressed.Length;
    ghost var s := uncompressed[..];
    Pow2Values();
    var compressed := new Byte[AllocationSize(n)](_ => 0);
    ClearBits(compressed[..]);
    var fits, outputPosition := CompressTokens(uncompressed, compressed, Min(8 * compressed.Length, 0x7FFF_FFFF), little);
    if !fits { return None; }
    var header, headerLength := EncodeHeader(outputPosition, n, little);
    PackedPrefix(compressed[..], StreamAt(s, 0));
    var data := PlugInHeader(header, headerLength, compressed, ByteCount(outputPosition));
    file := Some(data);
  }
}
