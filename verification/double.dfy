/** Double-cell arithmetic on 32-bit cells, the portable way: carries by hand, multiplication
    and division by shifting.  Each operation is exact, or exact but for a stated case. */
module DoubleCells {
  import opened Words

  const CELL: int := 0x1_0000_0000
  const HALF: int := 0x8000_0000

  /** The bits of a cell, read as an unsigned number. */
  type Cell = x: int | 0 <= x < 0x1_0000_0000

  datatype Double = Double(high: Cell, low: Cell)

  // ----- What the bits stand for -----

  function Unsigned(d: Double): (r: int)
    ensures 0 <= r
  {
    d.high * CELL + d.low
  }

  function Signed(c: Cell): int { if c < HALF then c else c - CELL }

  function SignedDouble(d: Double): int { Signed(d.high) * CELL + d.low }

  function Wrap(x: int): Cell { x % CELL }

  function Increment(c: Cell): Cell { if c == CELL - 1 then 0 else c + 1 }

  function Decrement(c: Cell): Cell { if c == 0 then CELL - 1 else c - 1 }

  /** The bits of -c. */
  function Minus(c: Cell): Cell { if c == 0 then 0 else CELL - c }

  /** A number in the range of a double cell, the rest of it lost. */
  function WrapDouble(x: int): (r: int)
    ensures -HALF * CELL <= r < HALF * CELL
  {
    (x + HALF * CELL) % (CELL * CELL) - HALF * CELL
  }

  predicate HighBit(c: Cell) { c >= HALF }

  // ----- Arithmetic modulo the double cell -----

  lemma SmallMultiple(a: int, m: int)
    requires 0 < m && -m < a * m < m
    ensures a == 0
  {
    if a > 0 {
      ProductGrows(1, a, m);
    } else if a < 0 {
      ProductGrows(a, -1, m);
    }
  }

  lemma ProductGrows(a: int, b: int, m: nat)
    requires a <= b
    ensures a * m <= b * m
  {
    assert 0 <= (b - a) * m;
  }

  lemma ModUnique(x: int, m: int, r: int, k: int)
    requires 0 < m && 0 <= r < m && x == k * m + r
    ensures x % m == r
  {
    var q := x / m;
    assert x == q * m + x % m;
    assert (q - k) * m == r - x % m;
    SmallMultiple(q - k, m);
  }

  lemma UnsignedIs(d: Double, x: int, k: int)
    requires x == k * (CELL * CELL) + Unsigned(d)
    ensures Unsigned(d) == x % (CELL * CELL)
  {
    ModUnique(x, CELL * CELL, Unsigned(d), k);
  }

  lemma SignedIs(d: Double, x: int, k: int)
    requires x == k * (CELL * CELL) + SignedDouble(d)
    ensures SignedDouble(d) == WrapDouble(x)
  {
    ModUnique(x + HALF * CELL, CELL * CELL, SignedDouble(d) + HALF * CELL, k);
  }

  lemma SignedCellIs(c: Cell, x: int, k: int)
    requires x == k * CELL + Signed(c)
    ensures Signed(c) == WrapCell(x)
  {
    ModUnique(x + HALF, CELL, Signed(c) + HALF, k);
  }

  lemma SumIs(x: Double, y: Double, r: Double)
    requires r.low == Wrap(x.low + y.low)
    requires r.high == if x.low + y.low >= CELL then Increment(Wrap(x.high + y.high)) else Wrap(x.high + y.high)
    ensures Unsigned(r) == (Unsigned(x) + Unsigned(y)) % (CELL * CELL)
  {
    var top := x.high + y.high + if x.low + y.low >= CELL then 1 else 0;
    assert r.high == top || r.high == top - CELL;
    UnsignedIs(r, Unsigned(x) + Unsigned(y), if r.high == top then 0 else 1);
  }

  /** The carry out of the low cells, as it is told from their high bits. */
  lemma CarryIs(a: Cell, b: Cell, low: Cell)
    requires low == Wrap(a + b)
    ensures (((HighBit(a) || HighBit(b)) && !HighBit(low)) || (HighBit(a) && HighBit(b))) <==> a + b >= CELL
  {
  }

  function Add(x: Double, y: Double): (r: Double)
    ensures Unsigned(r) == (Unsigned(x) + Unsigned(y)) % (CELL * CELL)
  {
    var high, low := Wrap(x.high + y.high), Wrap(x.low + y.low);
    var carry := ((HighBit(x.low) || HighBit(y.low)) && !HighBit(low)) || (HighBit(x.low) && HighBit(y.low));
    var r := Double(if carry then Increment(high) else high, low);
    CarryIs(x.low, y.low, low);
    SumIs(x, y, r);
    r
  }

  function Subtract(x: Double, y: Double): (r: Double)
    ensures Unsigned(r) == (Unsigned(x) - Unsigned(y)) % (CELL * CELL)
  {
    var high, low := Wrap(x.high - y.high), Wrap(x.low - y.low);
    var r := Double(if x.low < y.low then Decrement(high) else high, low);
    var top := x.high - y.high - if x.low < y.low then 1 else 0;
    assert r.high == top || r.high == top + CELL;
    UnsignedIs(r, Unsigned(x) - Unsigned(y), if r.high == top then 0 else -1);
    r
  }

  function Negate(x: Double): (r: Double)
    ensures SignedDouble(r) == WrapDouble(-SignedDouble(x))
  {
    var high, low: Cell := CELL - 1 - x.high, Wrap(CELL - 1 - x.low + 1);
    var r := Double(if low == 0 then Increment(high) else high, low);
    SignedIs(r, -SignedDouble(x), if x.high == HALF && x.low == 0 then 1 else 0);
    r
  }

  function ShiftLeft(x: Double): (r: Double)
    ensures Unsigned(r) == 2 * Unsigned(x) % (CELL * CELL)
  {
    var high := Wrap(2 * x.high);
    var r := Double(if HighBit(x.low) then Increment(high) else high, Wrap(2 * x.low));
    UnsignedIs(r, 2 * Unsigned(x), if HighBit(x.high) then 1 else 0);
    r
  }

  function ShiftRight(x: Double): (r: Double)
    ensures Unsigned(r) == Unsigned(x) / 2
  {
    Double(x.high / 2, x.low / 2 + if x.high % 2 == 1 then HALF else 0)
  }

  function Compare(x: Double, y: Double): (c: int)
    ensures c < 0 <==> Unsigned(x) < Unsigned(y)
    ensures c > 0 <==> Unsigned(x) > Unsigned(y)
  {
    if x.high > y.high then 1
    else if x.high < y.high then -1
    else if x.low > y.low then 1
    else if x.low < y.low then -1
    else 0
  }

  /** The bits set in either. */
  function BitOr(x: nat, y: nat): nat
    decreases x + y
  {
    if x == 0 && y == 0 then 0
    else (if x % 2 == 1 || y % 2 == 1 then 1 else 0) + 2 * BitOr(x / 2, y / 2)
  }

  lemma {:induction false} BitOrBound(x: nat, y: nat, bound: nat, half: nat)
    requires x < bound && y < bound && Pow2(half) == bound
    ensures BitOr(x, y) < bound
    decreases half
  {
    if half > 0 && (x > 0 || y > 0) { BitOrBound(x / 2, y / 2, bound / 2, half - 1); }
  }

  function Or(x: Double, y: Double): Double {
    Pow2Of32();
    BitOrBound(x.high, y.high, CELL, 32);
    BitOrBound(x.low, y.low, CELL, 32);
    Double(BitOr(x.high, y.high), BitOr(x.low, y.low))
  }

  // ----- Powers of two -----

  lemma Pow2Of32()
    ensures Pow2(32) == CELL
  {
    Pow2Values();
  }

  /** Or of a bit and of bits above it is their sum. */
  lemma {:induction false} BitOrAbove(x: nat, k: nat)
    requires x % (2 * Pow2(k)) == 0
    ensures BitOr(x, Pow2(k)) == x + Pow2(k)
    decreases k
  {
    var p := Pow2(k);
    if k == 0 {
      BitOrZero(x / 2);
      assert BitOr(x, 1) == 1 + 2 * BitOr(x / 2, 0);
    } else {
      HalfMultiple(x, Pow2(k - 1));
      BitOrAbove(x / 2, k - 1);
      assert p / 2 == Pow2(k - 1) && p % 2 == 0;
      assert BitOr(x, p) == 2 * BitOr(x / 2, p / 2);
    }
  }

  lemma {:induction false} BitOrZero(x: nat)
    ensures BitOr(x, 0) == x
    decreases x
  {
    if x > 0 { BitOrZero(x / 2); }
  }

  lemma HalfMultiple(x: nat, p: nat)
    requires p > 0 && x % (2 * (2 * p)) == 0
    ensures x % 2 == 0 && (x / 2) % (2 * p) == 0
  {
    var k := x / (4 * p);
    assert x == 4 * p * k;
    assert x == 2 * (2 * p * k);
    assert x / 2 == 2 * p * k;
    ModUnique(x / 2, 2 * p, 0, k);
  }

  // ----- Multiplication -----

  lemma AddExact(x: Double, y: Double)
    requires Unsigned(x) + Unsigned(y) < CELL * CELL
    ensures Unsigned(Add(x, y)) == Unsigned(x) + Unsigned(y)
  {
    ModUnique(Unsigned(x) + Unsigned(y), CELL * CELL, Unsigned(x) + Unsigned(y), 0);
  }

  lemma ShiftExact(x: Double)
    requires 2 * Unsigned(x) < CELL * CELL
    ensures Unsigned(ShiftLeft(x)) == 2 * Unsigned(x)
  {
    ModUnique(2 * Unsigned(x), CELL * CELL, 2 * Unsigned(x), 0);
  }

  /** Shift and add: the whole product, always. */
  method Multiply(x: Cell, y: Cell) returns (result: Double)
    ensures Unsigned(result) == x * y
  {
    Pow2Of32();
    result := Double(0, 0);
    var left, addend := x, Double(0, y);
    ghost var k := 0;
    while left != 0
      invariant Multiplying(x, y, left, k, Unsigned(result), Unsigned(addend))
      decreases left
    {
      MultiplyingNext(x, y, left, k, Unsigned(result), Unsigned(addend));
      if left % 2 == 1 {
        AddExact(result, addend);
        result := Add(result, addend);
      }
      ShiftExact(addend);
      addend := ShiftLeft(addend);
      left := left / 2;
      k := k + 1;
    }
  }

  /** After k turns: the addend is y shifted k times, and the bits left make up the product. */
  ghost predicate Multiplying(x: Cell, y: Cell, left: nat, k: nat, r: nat, a: nat) {
    k <= 32 && left < Pow2(32 - k) && a == y * Pow2(k) && r + left * a == x * y
  }

  lemma MultiplyingNext(x: Cell, y: Cell, left: Cell, k: nat, r: nat, a: nat)
    requires left > 0 && Multiplying(x, y, left, k, r, a)
    ensures r + a < CELL * CELL && 2 * a < CELL * CELL
    ensures Multiplying(x, y, left / 2, k + 1, if left % 2 == 1 then r + a else r, 2 * a)
  {
    ProductFits(x, y, left, a, r);
    ShiftFits(left, y, k);
    HalfProduct(left, a);
  }

  lemma ProductFits(x: Cell, y: Cell, left: Cell, a: nat, r: nat)
    requires left > 0 && r + left * a == x * y
    ensures r + a < CELL * CELL
  {
    ProductGrows(1, left, a);
    ProductGrows(x, CELL - 1, y);
  }

  lemma ShiftFits(left: nat, y: Cell, k: nat)
    requires k <= 32 && 0 < left < Pow2(32 - k)
    ensures k < 32 && left / 2 < Pow2(32 - (k + 1)) && 2 * (y * Pow2(k)) == y * Pow2(k + 1) < CELL * CELL
  {
    assert Pow2(0) == 1;
    Pow2Of32();
    Pow2Grows(k + 1, 32);
    assert y * Pow2(k + 1) <= y * CELL;
  }

  lemma {:induction false} Pow2Grows(j: nat, k: nat)
    requires j <= k
    ensures Pow2(j) <= Pow2(k)
    decreases k
  {
    if j < k { Pow2Grows(j, k - 1); }
  }

  lemma HalfProduct(left: nat, a: nat)
    ensures left * a == (left / 2) * (2 * a) + if left % 2 == 1 then a else 0
  {
    var h := left / 2;
    assert left == 2 * h + left % 2;
    assert (2 * h) * a == h * (2 * a);
  }

  /** Number building: the accumulator times a base, plus a digit. */
  method MultiplyAccumulate(u: Double, mul: Cell, add: Cell) returns (r: Double)
    ensures Unsigned(r) == (Unsigned(u) * mul + add) % (CELL * CELL)
  {
    var lo := Multiply(u.low, mul);
    var hi := Multiply(u.high, mul);
    r := Accumulated(lo, hi, add);
    AccumulateIs(u, mul, add, lo, hi, r);
  }

  /** The two partial products and the digit. */
  function Accumulated(lo: Double, hi: Double, add: Cell): (r: Double)
    ensures r.low == (lo.low + add) % CELL
    ensures r.high == (lo.high + hi.low + if lo.low + add >= CELL then 1 else 0) % CELL
  {
    var high, low := Wrap(lo.high + hi.low), Wrap(lo.low + add);
    Double(if low < lo.low then Increment(high) else high, low)
  }

  lemma AccumulateIs(u: Double, mul: Cell, add: Cell, lo: Double, hi: Double, r: Double)
    requires Unsigned(lo) == u.low * mul && Unsigned(hi) == u.high * mul
    requires r.low == (lo.low + add) % CELL
    requires r.high == (lo.high + hi.low + if lo.low + add >= CELL then 1 else 0) % CELL
    ensures Unsigned(r) == (Unsigned(u) * mul + add) % (CELL * CELL)
  {
    var c := if lo.low + add >= CELL then 1 else 0;
    var top := lo.high + hi.low + c;
    assert Unsigned(u) * mul == u.high * mul * CELL + u.low * mul;
    assert lo.low + add == c * CELL + r.low;
    assert top == (top / CELL) * CELL + r.high;
    UnsignedIs(r, Unsigned(u) * mul + add, hi.high + top / CELL);
  }

  /** The bits of the absolute value; that of the least number is out of the signed range. */
  function Magnitude(c: Cell): (m: Cell)
    ensures m <= HALF && m == if Signed(c) < 0 then -Signed(c) else Signed(c)
  {
    if HighBit(c) then Minus(c) else c
  }

  /** The signed product of two cells, always. */
  method MultiplySigned(x: Cell, y: Cell) returns (r: Double)
    ensures SignedDouble(r) == Signed(x) * Signed(y)
  {
    var a, b := Magnitude(x), Magnitude(y);
    var prod := Multiply(a, b);
    SignedProduct(x, y, a, b);
    r := if HighBit(x) == HighBit(y) then prod else Negate(prod);
    if HighBit(x) != HighBit(y) { SignedIs(r, -SignedDouble(prod), 0); }
  }

  lemma SignedProduct(x: Cell, y: Cell, a: Cell, b: Cell)
    requires a == Magnitude(x) && b == Magnitude(y)
    ensures a <= HALF && b <= HALF && 0 <= a * b <= HALF * HALF
    ensures Signed(x) * Signed(y) == if HighBit(x) == HighBit(y) then a * b else -(a * b)
  {
    ProductGrows(a, HALF, b);
    SignsMultiply(Signed(x), Signed(y), a, b);
  }

  lemma SignsMultiply(x: int, y: int, a: nat, b: nat)
    requires a == (if x < 0 then -x else x) && b == (if y < 0 then -y else y)
    ensures x * y == if (x < 0) == (y < 0) then a * b else -(a * b)
  {
  }

  // ----- Unsigned division -----

  lemma Parts(high: nat, low: Cell, n: nat)
    requires high * CELL + low == n
    ensures high == n / CELL && low == n % CELL
  {
  }

  /** x is a multiple of m when m divides the base and the low part. */
  lemma LowMultiple(high: nat, low: nat, m: nat, c: nat)
    requires m > 0 && CELL == c * m && (high * CELL + low) % m == 0
    ensures low % m == 0
  {
    var k := (high * CELL + low) / m;
    assert high * CELL == high * c * m;
    assert low == (k - high * c) * m;
    ModUnique(low, m, 0, k - high * c);
  }

  lemma HighMultiple(high: nat, low: Cell, m: nat)
    requires m > 0 && (high * CELL + low) % (m * CELL) == 0
    ensures low == 0 && high % m == 0
  {
    var k := (high * CELL + low) / (m * CELL);
    assert high * CELL + low == k * (m * CELL) == (k * m) * CELL;
    Parts(k * m, 0, high * CELL + low);
    Parts(high, low, high * CELL + low);
    ModUnique(high, m, 0, k);
  }

  /** A bit below those of the quotient so far is added to it. */
  lemma OrBit(quotient: Double, mask: Double, m: nat)
    requires Unsigned(mask) == Pow2(m) && Unsigned(quotient) % (2 * Pow2(m)) == 0
    ensures Unsigned(Or(quotient, mask)) == Unsigned(quotient) + Pow2(m)
  {
    Pow2Of32();
    if m >= 32 {
      Pow2Add(m - 32, 32);
      Parts(Pow2(m - 32), 0, Pow2(m));
      Parts(mask.high, mask.low, Pow2(m));
      assert 2 * Pow2(m) == (2 * Pow2(m - 32)) * CELL;
      HighMultiple(quotient.high, quotient.low, 2 * Pow2(m - 32));
      BitOrAbove(quotient.high, m - 32);
      BitOrZero(0);
    } else {
      Pow2Grows(m + 1, 32);
      Parts(0, Pow2(m), Pow2(m));
      Parts(mask.high, mask.low, Pow2(m));
      Pow2Add(31 - m, m + 1);
      LowMultiple(quotient.high, quotient.low, 2 * Pow2(m), Pow2(31 - m));
      BitOrAbove(quotient.low, m);
      BitOrZero(quotient.high);
    }
  }

  lemma SubtractExact(x: Double, y: Double)
    requires Unsigned(y) <= Unsigned(x)
    ensures Unsigned(Subtract(x, y)) == Unsigned(x) - Unsigned(y)
  {
    ModUnique(Unsigned(x) - Unsigned(y), CELL * CELL, Unsigned(x) - Unsigned(y), 0);
  }

  /** Mask and subtrahend, shifted together. */
  ghost predicate Scaled(y: Cell, m: nat, mask: nat, subtrahend: nat) {
    mask == Pow2(m) && subtrahend == y * Pow2(m)
  }

  lemma ScaledUp(y: Cell, m: nat, mask: nat, subtrahend: nat)
    requires y > 0 && Scaled(y, m, mask, subtrahend)
    ensures 0 < mask <= subtrahend && Scaled(y, m + 1, 2 * mask, 2 * subtrahend)
  {
    ProductGrows(1, y, Pow2(m));
    assert 2 * (y * Pow2(m)) == y * (2 * Pow2(m));
  }

  lemma ScaledDown(y: Cell, m: nat, mask: nat, subtrahend: nat)
    requires m > 0 && Scaled(y, m, mask, subtrahend)
    ensures Scaled(y, m - 1, mask / 2, subtrahend / 2) && mask == 2 * (mask / 2) && subtrahend == 2 * (subtrahend / 2)
  {
    assert y * (2 * Pow2(m - 1)) == 2 * (y * Pow2(m - 1));
  }

  /** With j bits of the quotient to go. */
  ghost predicate Dividing(q0: nat, y: Cell, j: nat, quotient: nat, q: nat, mask: nat, subtrahend: nat) {
    && q0 == quotient * y + q
    && if j == 0 then mask == 0 && q < y
       else Scaled(y, j - 1, mask, subtrahend) && q < 2 * subtrahend && quotient % (2 * mask) == 0
  }

  lemma DividingNext(q0: nat, y: Cell, j: nat, quotient: nat, q: nat, mask: nat, subtrahend: nat)
    requires j > 0 && y > 0 && Dividing(q0, y, j, quotient, q, mask, subtrahend)
    ensures mask > 0
    ensures var fits := subtrahend <= q;
            Dividing(q0, y, j - 1, if fits then quotient + mask else quotient, if fits then q - subtrahend else q, mask / 2, subtrahend / 2)
  {
    ScaledUp(y, j - 1, mask, subtrahend);
    assert (quotient + mask) * y + (q - y * mask) == quotient * y + q;
    if j > 1 {
      ScaledDown(y, j - 1, mask, subtrahend);
      var k := quotient / (2 * mask);
      assert quotient == (2 * k) * mask;
      ModUnique(quotient, mask, 0, 2 * k);
      ModUnique(quotient + mask, mask, 0, 2 * k + 1);
    }
  }

  /** The divisor shifted left until twice it is beyond the dividend, and the bit that counts it. */
  method Align(q: Double, y: Cell) returns (subtrahend: Double, mask: Double, ghost m: nat)
    requires y != 0
    ensures Scaled(y, m, Unsigned(mask), Unsigned(subtrahend)) && Unsigned(q) < 2 * Unsigned(subtrahend)
  {
    subtrahend, mask, m := Double(0, y), Double(0, 1), 0;
    while Compare(subtrahend, q) < 0 && !HighBit(subtrahend.high)
      invariant Scaled(y, m, Unsigned(mask), Unsigned(subtrahend)) && Unsigned(subtrahend) > 0
      decreases CELL * CELL - Unsigned(subtrahend)
    {
      ScaledUp(y, m, Unsigned(mask), Unsigned(subtrahend));
      ShiftExact(mask);
      ShiftExact(subtrahend);
      mask, subtrahend := ShiftLeft(mask), ShiftLeft(subtrahend);
      m := m + 1;
    }
  }

  /** One bit of the quotient. */
  method DivideTurn(ghost q0: nat, ghost y: Cell, ghost j: nat, quotient: Double, q: Double, mask: Double, subtrahend: Double)
    returns (quotient': Double, q': Double)
    requires y > 0 && j > 0 && Dividing(q0, y, j, Unsigned(quotient), Unsigned(q), Unsigned(mask), Unsigned(subtrahend))
    ensures Dividing(q0, y, j - 1, Unsigned(quotient'), Unsigned(q'), Unsigned(mask) / 2, Unsigned(subtrahend) / 2)
  {
    DividingNext(q0, y, j, Unsigned(quotient), Unsigned(q), Unsigned(mask), Unsigned(subtrahend));
    quotient', q' := TakeBit(quotient, q, mask, subtrahend, j - 1);
  }

  method TakeBit(quotient: Double, q: Double, mask: Double, subtrahend: Double, ghost m: nat) returns (quotient': Double, q': Double)
    requires Unsigned(mask) == Pow2(m) && Unsigned(quotient) % (2 * Pow2(m)) == 0
    ensures var fits := Unsigned(subtrahend) <= Unsigned(q);
            && Unsigned(quotient') == (if fits then Unsigned(quotient) + Unsigned(mask) else Unsigned(quotient))
            && Unsigned(q') == if fits then Unsigned(q) - Unsigned(subtrahend) else Unsigned(q)
  {
    quotient', q' := quotient, q;
    if Compare(subtrahend, q) <= 0 {
      SubtractExact(q, subtrahend);
      OrBit(quotient, mask, m);
      q', quotient' := Subtract(q, subtrahend), Or(quotient, mask);
    }
  }

  lemma DivisionEnds(q0: nat, y: Cell, j: nat, quotient: nat, q: nat, mask: nat, subtrahend: nat)
    requires Dividing(q0, y, j, quotient, q, mask, subtrahend) && mask == 0
    ensures q0 == quotient * y + q && q < y
  {
  }

  /** Shift and subtract.  The remainder is the low cell of what is left. */
  method Divide(q0: Double, y: Cell) returns (quotient: Double, remainder: Cell)
    requires y != 0
    ensures Unsigned(q0) == Unsigned(quotient) * y + remainder && remainder < y
  {
    var subtrahend, mask;
    ghost var m: nat;
    subtrahend, mask, m := Align(q0, y);
    DivisionStarts(Unsigned(q0), y, m, Unsigned(mask), Unsigned(subtrahend));
    var q;
    quotient, q := DivideBits(q0, y, mask, subtrahend, m + 1);
    remainder := q.low;
  }

  lemma DivisionStarts(q0: nat, y: Cell, m: nat, mask: nat, subtrahend: nat)
    requires Scaled(y, m, mask, subtrahend) && q0 < 2 * subtrahend
    ensures Dividing(q0, y, m + 1, 0, q0, mask, subtrahend)
  {
  }

  method DivideBits(q0: Double, y: Cell, mask0: Double, subtrahend0: Double, ghost bits: nat) returns (quotient: Double, q: Double)
    requires y > 0 && Dividing(Unsigned(q0), y, bits, 0, Unsigned(q0), Unsigned(mask0), Unsigned(subtrahend0))
    ensures Unsigned(q0) == Unsigned(quotient) * y + Unsigned(q) && Unsigned(q) < y
  {
    var mask, subtrahend := mask0, subtrahend0;
    quotient, q := Double(0, 0), q0;
    ghost var j: nat := bits;
    while mask.low != 0 || mask.high != 0
      invariant Dividing(Unsigned(q0), y, j, Unsigned(quotient), Unsigned(q), Unsigned(mask), Unsigned(subtrahend))
      decreases j
    {
      quotient, q := DivideTurn(Unsigned(q0), y, j, quotient, q, mask, subtrahend);
      mask, subtrahend := ShiftRight(mask), ShiftRight(subtrahend);
      j := j - 1;
    }
    DivisionEnds(Unsigned(q0), y, j, Unsigned(quotient), Unsigned(q), Unsigned(mask), Unsigned(subtrahend));
  }
}
