/** Signed double-cell division: symmetric and floored, and the words built on them. */
module DoubleDivide {
  import opened DoubleCells
  import opened Words

  function Abs(x: int): (a: int)
    ensures a >= 0 && (a == 0 <==> x == 0)
  {
    if x < 0 then -x else x
  }

  // ----- The two quotients -----

  /** Rounded towards zero. */
  function Trunc(n: int, d: int): int
    requires d != 0
  {
    if (n < 0) == (d < 0) then Abs(n) / Abs(d) else -(Abs(n) / Abs(d))
  }

  /** Rounded down. */
  function Floor(n: int, d: int): int
    requires d != 0
  {
    if d > 0 then n / d else (-n) / (-d)
  }

  /** Its remainder has the sign of the dividend. */
  lemma TruncIs(n: int, d: int)
    requires d != 0
    ensures var r := n - Trunc(n, d) * d; Abs(r) < Abs(d) && (r == 0 || (r < 0) == (n < 0))
  {
    var a, b := Abs(n), Abs(d);
    QuotientRemainder(a, b);
    SymmetricIs(n, d, a / b, a % b);
  }

  /** Its remainder has the sign of the divisor. */
  lemma FloorIs(n: int, d: int)
    requires d != 0
    ensures var r := n - Floor(n, d) * d; Abs(r) < Abs(d) && (r == 0 || (r < 0) == (d < 0))
  {
    var a, b := Abs(n), Abs(d);
    QuotientRemainder(a, b);
    FlooredRemainder(n, d, a / b, a % b);
  }

  lemma QuotientRemainder(a: int, b: int)
    requires b > 0
    ensures a == (a / b) * b + a % b && 0 <= a % b < b
  {
  }

  lemma QuotientUnique(a: int, b: int, q: int, r: int)
    requires b > 0 && a == q * b + r && 0 <= r < b
    ensures q == a / b && r == a % b
  {
    ModUnique(a, b, r, q);
    assert (a / b - q) * b == 0;
    SmallMultiple(a / b - q, b);
  }

  /** The floor is one below the truncation when they differ. */
  lemma FloorBelow(n: int, d: int)
    requires d != 0
    ensures Floor(n, d) == if Abs(n) % Abs(d) == 0 || (n < 0) == (d < 0) then Trunc(n, d) else Trunc(n, d) - 1
  {
    var a, b := Abs(n), Abs(d);
    var q, r := a / b, a % b;
    assert a == q * b + r;
    if (n < 0) != (d < 0) { NegatedQuotient(a, b, q, r); }
  }

  /** The quotient of -a, rounded down. */
  lemma NegatedQuotient(a: int, b: int, q: int, r: int)
    requires b > 0 && a == q * b + r && 0 <= r < b
    ensures -a / b == if r == 0 then -q else -q - 1
  {
    var k := if r == 0 then -q else -q - 1;
    NegatedTimes(q, b, k);
    QuotientUnique(-a, b, k, if r == 0 then 0 else b - r);
  }

  lemma NegatedTimes(q: int, b: int, k: int)
    requires k == -q || k == -q - 1
    ensures k * b == if k == -q then -(q * b) else -(q * b) - b
  {
    if k == -q { assert k * b == -(q * b); } else { assert (k + 1) * b == k * b + b; assert (-q) * b == -(q * b); }
  }

  // ----- Bits and numbers -----

  /** The bits of the absolute value of a double. */
  function AbsoluteValue(x: Double): (r: Double)
    ensures Unsigned(r) == Abs(SignedDouble(x))
  {
    if HighBit(x.high) then NegateUnsigned(x); Negate(x) else x
  }

  lemma NegateUnsigned(x: Double)
    requires HighBit(x.high)
    ensures Unsigned(Negate(x)) == -SignedDouble(x)
  {
  }

  lemma SignedOfUnsigned(x: Double)
    ensures SignedDouble(x) == WrapDouble(Unsigned(x)) && SignedDouble(Negate(x)) == WrapDouble(-Unsigned(x))
  {
    var k := if HighBit(x.high) then 1 else 0;
    SignedIs(x, Unsigned(x), k);
    var n := Negate(x);
    assert Unsigned(n) == if Unsigned(x) == 0 then 0 else CELL * CELL - Unsigned(x);
    SignedIs(n, -Unsigned(x), (if HighBit(n.high) then 1 else 0) - (if Unsigned(x) == 0 then 0 else 1));
  }

  /** The low cell alone. */
  lemma LowCell(x: Double, n: int)
    requires SignedDouble(x) == WrapDouble(n)
    ensures x.low == n % CELL && Signed(x.low) == WrapCell(n)
  {
    var k := (n + HALF * CELL) / (CELL * CELL);
    assert n + HALF * CELL == k * (CELL * CELL) + (n + HALF * CELL) % (CELL * CELL);
    assert n == k * (CELL * CELL) + Signed(x.high) * CELL + x.low;
    var c := k * CELL + Signed(x.high);
    assert n == c * CELL + x.low;
    ModUnique(n, CELL, x.low, c);
    SignedCellIs(x.low, n, if HighBit(x.low) then c + 1 else c);
  }

  // ----- Symmetric division -----

  method DivideSymmetric(num: Double, den: Cell) returns (quotient: Double, remainder: Cell)
    requires den != 0
    ensures var (n, d) := (SignedDouble(num), Signed(den));
            SignedDouble(quotient) == WrapDouble(Trunc(n, d)) && Signed(remainder) == n - Trunc(n, d) * d
  {
    var u, r := Divide(AbsoluteValue(num), Magnitude(den));
    var negative := HighBit(num.high);
    quotient := if negative != HighBit(den) then Negate(u) else u;
    remainder := if negative then Minus(r) else r;
    SymmetricIs(SignedDouble(num), Signed(den), Unsigned(u), r);
    SignedOfUnsigned(u);
  }

  lemma SymmetricIs(n: int, d: int, u: int, r: int)
    requires d != 0 && u >= 0 && r >= 0 && Abs(n) == u * Abs(d) + r && r < Abs(d)
    ensures Trunc(n, d) == if (n < 0) == (d < 0) then u else -u
    ensures n - Trunc(n, d) * d == if n < 0 then -r else r
  {
    QuotientUnique(Abs(n), Abs(d), u, r);
    SignsMultiply(Trunc(n, d), d, u, Abs(d));
  }

  // ----- Floored division -----

  /** The borrow is taken when the low cell is the least integer, not when it is zero. */
  function DecrementDouble(x: Double): Double {
    Double(if x.low == HALF then Decrement(x.high) else x.high, Decrement(x.low))
  }

  /** So the low cell is always right, and the high cell exactly when the low one is neither. */
  lemma DecrementExactly(x: Double)
    ensures DecrementDouble(x).low == (x.low - 1) % CELL
    ensures SignedDouble(DecrementDouble(x)) == WrapDouble(SignedDouble(x) - 1) <==> x.low != 0 && x.low != HALF
  {
    var borrowed := Double(if x.low == 0 then Decrement(x.high) else x.high, Decrement(x.low));
    SignedIs(borrowed, SignedDouble(x) - 1, if x.low == 0 && x.high == HALF then -1 else 0);
    SameSigned(borrowed, DecrementDouble(x));
  }

  lemma SameSigned(x: Double, y: Double)
    ensures SignedDouble(x) == SignedDouble(y) <==> x == y
  {
  }

  /** No decrement, or one of a low cell that borrows as it should. */
  predicate BorrowsRight(n: int, d: int)
    requires d != 0
  {
    Abs(n) % Abs(d) == 0 || (n < 0) == (d < 0) || (Trunc(n, d) % CELL != 0 && Trunc(n, d) % CELL != HALF)
  }

  /** Minus one by two: the quotient rounded down is minus one; the one towards zero has a low
      cell of zero, and what the decrement makes of it has a high cell of zero. */
  lemma FlooredHighCellIsWrong()
    ensures !BorrowsRight(-1, 2) && Trunc(-1, 2) == 0
    ensures DecrementDouble(Double(0, 0)) == Double(0, CELL - 1)
    ensures SignedDouble(DecrementDouble(Double(0, 0))) != -1 == Floor(-1, 2)
  {
  }

  method DivideFloored(num: Double, den: Cell) returns (quotient: Double, remainder: Cell)
    requires den != 0
    ensures var (n, d) := (SignedDouble(num), Signed(den));
            && Signed(quotient.low) == WrapCell(Floor(n, d))
            && Signed(remainder) == n - Floor(n, d) * d
            && (SignedDouble(quotient) == WrapDouble(Floor(n, d)) <==> BorrowsRight(n, d))
  {
    var b := Magnitude(den);
    var u, r := Divide(AbsoluteValue(num), b);
    ghost var n, d := SignedDouble(num), Signed(den);
    quotient, remainder := u, r;
    if HighBit(num.high) != HighBit(den) {
      quotient := Negate(quotient);
      if remainder != 0 {
        quotient := DecrementDouble(quotient);
        remainder := b - remainder;
      }
    }
    FlooredQuotient(n, d, u, r, quotient);
    FlooredRemainder(n, d, Unsigned(u), r);
    if HighBit(den) {
      remainder := Minus(remainder);
    }
  }

  lemma FlooredRemainder(n: int, d: int, u: int, r: int)
    requires d != 0 && u >= 0 && r >= 0 && Abs(n) == u * Abs(d) + r && r < Abs(d)
    ensures var m := if (n < 0) != (d < 0) && r != 0 then Abs(d) - r else r;
            n - Floor(n, d) * d == if d < 0 then -m else m
  {
    SymmetricIs(n, d, u, r);
    QuotientUnique(Abs(n), Abs(d), u, r);
    FloorBelow(n, d);
    assert (Trunc(n, d) - 1) * d == Trunc(n, d) * d - d;
  }

  lemma FlooredQuotient(n: int, d: int, u: Double, r: int, quotient: Double)
    requires d != 0 && r >= 0 && Abs(n) == Unsigned(u) * Abs(d) + r && r < Abs(d)
    requires quotient == if (n < 0) == (d < 0) then u else if r == 0 then Negate(u) else DecrementDouble(Negate(u))
    ensures Signed(quotient.low) == WrapCell(Floor(n, d))
    ensures SignedDouble(quotient) == WrapDouble(Floor(n, d)) <==> BorrowsRight(n, d)
  {
    SymmetricIs(n, d, Unsigned(u), r);
    QuotientUnique(Abs(n), Abs(d), Unsigned(u), r);
    FloorBelow(n, d);
    SignedOfUnsigned(u);
    var t := Trunc(n, d);
    if (n < 0) == (d < 0) || r == 0 {
      LowCell(quotient, t);
    } else {
      LowCell(Negate(u), t);
      DecrementedQuotient(Negate(u), t);
    }
  }

  lemma DecrementedQuotient(x: Double, t: int)
    requires SignedDouble(x) == WrapDouble(t) && x.low == t % CELL
    ensures Signed(DecrementDouble(x).low) == WrapCell(t - 1)
    ensures SignedDouble(DecrementDouble(x)) == WrapDouble(t - 1) <==> t % CELL != 0 && t % CELL != HALF
  {
    DecrementExactly(x);
    DecrementedLow(x, t);
    WrapOnce(t);
  }

  lemma DecrementedLow(x: Double, t: int)
    requires x.low == t % CELL
    ensures Signed(DecrementDouble(x).low) == WrapCell(t - 1)
  {
    DecrementExactly(x);
    var c := t / CELL;
    assert t == c * CELL + x.low;
    var low := DecrementDouble(x).low;
    var k := (if x.low == 0 then c - 1 else c) + if HighBit(low) then 1 else 0;
    SignedCellIs(low, t - 1, k);
  }

  lemma WrapOnce(t: int)
    ensures WrapDouble(WrapDouble(t) - 1) == WrapDouble(t - 1)
  {
    var k := (t + HALF * CELL) / (CELL * CELL);
    var w := WrapDouble(t);
    assert t + HALF * CELL == k * (CELL * CELL) + (w + HALF * CELL);
    var k' := (w - 1 + HALF * CELL) / (CELL * CELL);
    var r := WrapDouble(w - 1);
    assert w - 1 + HALF * CELL == k' * (CELL * CELL) + (r + HALF * CELL);
    assert t - 1 + HALF * CELL == (k + k') * (CELL * CELL) + (r + HALF * CELL);
    ModUnique(t - 1 + HALF * CELL, CELL * CELL, r + HALF * CELL, k + k');
  }

  // ----- Words -----

  predicate FitsCell(x: int) { -HALF <= x < HALF }

  lemma WrapFits(x: int)
    requires FitsCell(x)
    ensures WrapCell(x) == x
  {
    ModUnique(x + HALF, CELL, x + HALF, 0);
  }

  /** SM/REM: ( d n -- remainder quotient ) */
  method SmSlashRem(d1: Double, n1: Cell) returns (n2: Cell, n3: Cell)
    requires n1 != 0
    ensures var (n, d) := (SignedDouble(d1), Signed(n1));
            Signed(n2) == n - Trunc(n, d) * d && (Signed(n3) == Trunc(n, d) <==> FitsCell(Trunc(n, d)))
  {
    var q, r := DivideSymmetric(d1, n1);
    n2, n3 := r, q.low;
    ghost var t := Trunc(SignedDouble(d1), Signed(n1));
    LowCell(q, t);
    if FitsCell(t) { WrapFits(t); }
  }

  /** FM/MOD: ( d n -- remainder quotient ); the high cell of the quotient is not used. */
  method FmSlashMod(d1: Double, n1: Cell) returns (n2: Cell, n3: Cell)
    requires n1 != 0
    ensures var (n, d) := (SignedDouble(d1), Signed(n1));
            Signed(n2) == n - Floor(n, d) * d && (Signed(n3) == Floor(n, d) <==> FitsCell(Floor(n, d)))
  {
    var q, r := DivideFloored(d1, n1);
    n2, n3 := r, q.low;
    ghost var f := Floor(SignedDouble(d1), Signed(n1));
    if FitsCell(f) { WrapFits(f); }
  }

  /** the words for x * y / z, with the product a double cell: ( x y z -- remainder quotient ) */
  method StarSlashMod(x: Cell, y: Cell, z: Cell) returns (remainder: Cell, quotient: Cell)
    requires z != 0
    ensures var (p, d) := (Signed(x) * Signed(y), Signed(z));
            Signed(remainder) == p - Trunc(p, d) * d && (Signed(quotient) == Trunc(p, d) <==> FitsCell(Trunc(p, d)))
  {
    var prod := MultiplySigned(x, y);
    remainder, quotient := SmSlashRem(prod, z);
  }
}
