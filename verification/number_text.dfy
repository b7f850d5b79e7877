/** Printing a cell in a base and reading it back. */
module NumberText {
  import opened DoubleCells
  import opened Words

  const DIGITS: string := "0123456789ABCDEFGHIJKLMNOPQRSTUVWXYZ"

  // ----- Positional notation -----

  /** The numeral of v, most significant digit first. */
  function Numeral(v: nat, radix: nat): (s: string)
    requires 2 <= radix <= 36
    ensures s != []
  {
    if v < radix then [DIGITS[v]]
    else
      Shrinks(v, radix);
      Numeral(v / radix, radix) + [DIGITS[v % radix]]
  }

  /** What is printed for a cell: a sign only in base ten, the unsigned value in any other. */
  function Printed(c: Cell, radix: nat): string
    requires 2 <= radix <= 36
  {
    if radix == 10 && Signed(c) < 0 then "-" + Numeral(-Signed(c), 10) else Numeral(c, radix)
  }

  // ----- Printing -----

  /** The digits in the order they are written, the least significant first. */
  function Written(v: nat, radix: nat): string
    requires 2 <= radix <= 36
  {
    if v == 0 then ""
    else
      Shrinks(v, radix);
      [DIGITS[v % radix]] + Written(v / radix, radix)
  }

  function Reversed<T>(s: seq<T>): (r: seq<T>)
    ensures |r| == |s|
  {
    if s == [] then [] else Reversed(s[1..]) + [s[0]]
  }

  lemma {:induction false} ReversedAt<T>(s: seq<T>, k: nat)
    requires k < |s|
    ensures Reversed(s)[k] == s[|s| - 1 - k]
    decreases |s|
  {
    if k < |s| - 1 { ReversedAt(s[1..], k); }
  }

  lemma {:induction false} ReversedLast<T>(s: seq<T>, x: T)
    ensures Reversed(s + [x]) == [x] + Reversed(s)
    decreases |s|
  {
    if s == [] {
      assert [] + [x] == [x];
    } else {
      assert (s + [x])[0] == s[0] && (s + [x])[1..] == s[1..] + [x];
      ReversedLast(s[1..], x);
    }
  }

  lemma Shrinks(v: nat, radix: nat)
    requires radix >= 2
    ensures 0 <= v / radix <= v / 2 && (v / radix == 0 <==> v < radix)
  {
    var q := v / radix;
    assert v == q * radix + v % radix;
    if q < 0 { ProductGrows(q, -1, radix); }
    assert 2 * q <= q * radix by { assert q >= 0 ==> 0 <= q * (radix - 2); }
    if q >= 1 { ProductGrows(1, q, radix); }
  }

  /** Read backwards, the digits written are the numeral. */
  lemma {:induction false} WrittenIsNumeral(v: nat, radix: nat)
    requires 2 <= radix <= 36 && v > 0
    ensures Reversed(Written(v, radix)) == Numeral(v, radix)
    decreases v
  {
    Shrinks(v, radix);
    ReversedHead(DIGITS[v % radix], Written(v / radix, radix));
    if v >= radix { WrittenIsNumeral(v / radix, radix); } else { NotDivided(v, radix); }
  }

  lemma NotDivided(v: nat, radix: nat)
    requires 0 < v < radix
    ensures v / radix == 0 && v % radix == v
  {
    ModUnique(v, radix, v, 0);
  }

  lemma ReversedHead<T>(x: T, s: seq<T>)
    ensures Reversed([x] + s) == Reversed(s) + [x]
  {
    assert ([x] + s)[1..] == s;
  }

  lemma {:induction false} WrittenShort(v: nat, radix: nat, k: nat)
    requires 2 <= radix <= 36 && v < Pow2(k)
    ensures |Written(v, radix)| <= k
    decreases v
  {
    if v > 0 {
      Shrinks(v, radix);
      WrittenShort(v / radix, radix, k - 1);
    }
  }

  lemma {:induction false} WrittenChars(v: nat, radix: nat, k: nat)
    requires 2 <= radix <= 36 && k < |Written(v, radix)|
    ensures Written(v, radix)[k] in DIGITS
    decreases v
  {
    Shrinks(v, radix);
    if k > 0 { WrittenChars(v / radix, radix, k - 1); }
  }

  lemma Pow2Below(i: nat)
    requires i < 32
    ensures Pow2(i) < CELL && Wrap(Pow2(i)) == Pow2(i) && Wrap(2 * Pow2(i)) == Wrap(Pow2(i + 1))
    ensures Wrap(Pow2(i + 1)) == 0 <==> i + 1 == 32
  {
    Pow2Of32();
    Pow2Grows(i + 1, 32);
    if i + 1 < 32 { Pow2Grows(i + 2, 32); }
  }

  /** n with u == 2^n, for n of at least one; zero when there is none. */
  method IsPowerOfTwo(u: Cell) returns (n: nat)
    ensures n > 0 ==> u == Pow2(n)
    ensures n == 0 ==> forall k: nat :: k >= 1 ==> u != Pow2(k)
  {
    Pow2Of32();
    var i: nat, t: Cell := 1, 2;
    while t <= u && t != 0
      invariant 1 <= i <= 32 && t == Wrap(Pow2(i)) && (t == 0 <==> i == 32)
      invariant forall k: nat :: 1 <= k < i ==> u != Pow2(k)
      decreases 32 - i
    {
      Pow2Below(i);
      if u == t { return i; }
      i, t := i + 1, Wrap(2 * t);
    }
    forall k: nat | k >= i ensures u != Pow2(k) { Pow2Grows(i, k); }
    n := 0;
  }

  /** The buffer holds a text and the NUL that ends it. */
  ghost predicate Holds(buffer: array<char>, text: string)
    reads buffer
  {
    |text| < buffer.Length && buffer[..|text|] == text && buffer[|text|] == '\0' && '\0' !in text
  }

  /** ficlStringReverse, on the text up to the NUL. */
  method StringReverse(buffer: array<char>, ghost text: string)
    requires Holds(buffer, text)
    modifies buffer
    ensures Holds(buffer, Reversed(text))
  {
    var n := StringLength(buffer, text);
    var i: int, j: int := 0, n - 1;
    assert forall k :: 0 <= k < n ==> buffer[..n][k] == buffer[k];
    while i < j
      invariant 0 <= i <= n && i + j == n - 1 && buffer[n] == '\0'
      invariant forall k :: 0 <= k < i || j < k < n ==> buffer[k] == text[n - 1 - k]
      invariant forall k :: i <= k <= j ==> buffer[k] == text[k]
      decreases j - i
    {
      buffer[i], buffer[j] := buffer[j], buffer[i];
      i, j := i + 1, j - 1;
    }
    forall k | 0 <= k < n ensures buffer[..n][k] == Reversed(text)[k] { ReversedAt(text, k); }
    assert buffer[..n] == Reversed(text);
    forall k | 0 <= k < n ensures Reversed(text)[k] != '\0' { ReversedAt(text, k); }
  }

  method StringLength(buffer: array<char>, ghost text: string) returns (n: nat)
    requires Holds(buffer, text)
    ensures n == |text|
  {
    forall k | 0 <= k < |text| ensures buffer[k] != '\0' { assert buffer[..|text|][k] == text[k]; }
    n := 0;
    while buffer[n] != '\0'
      invariant n <= |text|
      decreases |text| - n
    {
      n := n + 1;
    }
  }

  lemma WrittenPrintable(v: nat, radix: nat)
    requires 2 <= radix <= 36
    ensures '\0' !in Written(v, radix)
  {
    forall k | 0 <= k < |Written(v, radix)| ensures Written(v, radix)[k] != '\0' { WrittenChars(v, radix, k); }
  }

  /** The digits of v from the start of the buffer; a radix that is a power of two masks and shifts. */
  method WriteDigits(value: Cell, buffer: array<char>, radix: nat, power: nat) returns (n: nat)
    requires 2 <= radix <= 36 && buffer.Length >= 34 && (power > 0 ==> radix == Pow2(power))
    modifies buffer
    ensures n <= 32 && buffer[..n] == Written(value, radix)
  {
    Pow2Of32();
    WrittenShort(value, radix, 32);
    var v := value;
    n := 0;
    while v != 0
      invariant n + |Written(v, radix)| <= 32
      invariant buffer[..n] + Written(v, radix) == Written(value, radix)
      decreases v
    {
      var quotient, digit := NextDigit(v, radix, power);
      WriteStep(buffer[..n], v, quotient, digit, radix);
      ghost var before := buffer[..n];
      buffer[n] := DIGITS[digit];
      assert buffer[..n + 1] == before + [DIGITS[digit]];
      v, n := quotient, n + 1;
    }
    assert buffer[..n] + [] == buffer[..n];
  }

  lemma WriteStep(before: string, v: nat, quotient: nat, digit: nat, radix: nat)
    requires 2 <= radix <= 36 && v > 0 && quotient == v / radix && digit == v % radix
    ensures quotient < v && |Written(v, radix)| == 1 + |Written(quotient, radix)|
    ensures before + Written(v, radix) == before + [DIGITS[digit]] + Written(quotient, radix)
  {
    Shrinks(v, radix);
  }

  method NextDigit(v: Cell, radix: nat, power: nat) returns (quotient: Cell, digit: nat)
    requires 2 <= radix <= 36 && (power > 0 ==> radix == Pow2(power))
    ensures quotient == v / radix && digit == v % radix
  {
    Shrinks(v, radix);
    if power > 0 {
      quotient, digit := v / Pow2(power), v % Pow2(power);
    } else {
      quotient, digit := DivideCell(v, radix);
    }
  }

  /** Through the double-cell division, as for any other radix. */
  method DivideCell(v: Cell, radix: nat) returns (quotient: Cell, digit: nat)
    requires 2 <= radix <= 36
    ensures quotient == v / radix && digit == v % radix
  {
    var q, r := Divide(Double(0, v), radix);
    QuotientCell(v, radix, q, r);
    quotient, digit := q.low, r;
  }

  lemma QuotientCell(v: Cell, radix: nat, q: Double, r: Cell)
    requires radix >= 2 && v == Unsigned(q) * radix + r && r < radix
    ensures r == v % radix && q.low == v / radix
  {
    var u, w := Unsigned(q), v / radix;
    ModUnique(v, radix, r, u);
    assert v == w * radix + v % radix;
    assert (w - u) * radix == 0;
    SmallMultiple(w - u, radix);
    Shrinks(v, radix);
  }

  /** The digits of a value, or the digit zero, as they are written. */
  function Body(v: nat, radix: nat): string
    requires 2 <= radix <= 36
  {
    if v == 0 then "0" else Written(v, radix)
  }

  method WriteBody(v: Cell, buffer: array<char>, radix: nat, power: nat) returns (n: nat)
    requires 2 <= radix <= 36 && buffer.Length >= 34 && (power > 0 ==> radix == Pow2(power))
    modifies buffer
    ensures n <= 32 && buffer[..n] == Body(v, radix)
  {
    if v == 0 {
      buffer[0] := '0';
      n := 1;
    } else {
      n := WriteDigits(v, buffer, radix, power);
    }
  }

  /** The NUL, and the text turned round. */
  method Finish(buffer: array<char>, n: nat, ghost written: string)
    requires n < buffer.Length && buffer[..n] == written && '\0' !in written
    modifies buffer
    ensures Holds(buffer, Reversed(written))
  {
    buffer[n] := '\0';
    assert buffer[..n] == written;
    StringReverse(buffer, written);
  }

  /** ficlLtoa */
  method Ltoa(value: Cell, buffer: array<char>, radix: nat)
    requires 2 <= radix <= 36 && buffer.Length >= 34
    modifies buffer
    ensures Holds(buffer, Printed(value, radix))
  {
    var sign := radix == 10 && Signed(value) < 0;
    var power := IsPowerOfTwo(radix);
    var v := if sign then Minus(value) else value;
    var n := WriteBody(v, buffer, radix, power);
    ghost var body := buffer[..n];
    PrintedIs(value, v, radix, sign, body);
    if sign {
      buffer[n] := '-';
      assert buffer[..n + 1] == body + ['-'];
      Finish(buffer, n + 1, body + ['-']);
    } else {
      Finish(buffer, n, body);
    }
  }

  lemma PrintedIs(value: Cell, v: Cell, radix: nat, sign: bool, body: string)
    requires 2 <= radix <= 36 && sign == (radix == 10 && Signed(value) < 0)
    requires v == (if sign then Minus(value) else value) && body == Body(v, radix)
    ensures '\0' !in body && Printed(value, radix) == if sign then Reversed(body + ['-']) else Reversed(body)
  {
    BodyRead(v, radix);
    if sign {
      ReversedLast(body, '-');
      SignIs(value, Numeral(v, radix));
    }
  }

  lemma SignIs(value: Cell, numeral: string)
    requires Signed(value) < 0 && numeral == Numeral(Minus(value), 10)
    ensures Printed(value, 10) == ['-'] + numeral
  {
    assert Minus(value) == -Signed(value);
  }

  lemma BodyRead(v: nat, radix: nat)
    requires 2 <= radix <= 36
    ensures Reversed(Body(v, radix)) == Numeral(v, radix) && '\0' !in Body(v, radix)
  {
    if v == 0 { assert Reversed("0") == "0"; } else { WrittenIsNumeral(v, radix); WrittenPrintable(v, radix); }
  }

  /** ficlUltoa */
  method Ultoa(value: Cell, buffer: array<char>, radix: nat)
    requires 2 <= radix <= 36 && buffer.Length >= 34
    modifies buffer
    ensures Holds(buffer, Numeral(value, radix))
  {
    var n := WriteBody(value, buffer, radix, 0);
    BodyRead(value, radix);
    Finish(buffer, n, buffer[..n]);
  }

  // ----- Reading -----

  predicate IsDigit(c: char) { '0' <= c <= '9' }
  predicate IsLetter(c: char) { 'A' <= c <= 'Z' || 'a' <= c <= 'z' }

  /** The value of a letter or digit, from 0 to 35; 36 for any other character. */
  function DigitValue(c: char): (d: nat)
    ensures d <= 36
  {
    if IsDigit(c) then c as int - '0' as int
    else if 'A' <= c <= 'Z' then c as int - 'A' as int + 10
    else if 'a' <= c <= 'z' then c as int - 'a' as int + 10
    else 36
  }

  datatype Digits = Digits(acc: Cell) | BadDigit

  /** Digit after digit, modulo the cell; a NUL ends the text. */
  function Accumulated(s: string, base: Cell, acc: Cell): Digits {
    if s == "" || s[0] == '\0' then Digits(acc)
    else if DigitValue(s[0]) >= 36 || DigitValue(s[0]) >= base then BadDigit
    else Accumulated(s[1..], base, Wrap(acc * base + DigitValue(s[0])))
  }

  /** The cells pushed for a number; a trailing point pushes a zero first. */
  datatype Parsed = Number(pushed: seq<Cell>) | NotANumber

  /** The text as the parser sees it: its length is kept in one byte. */
  function Seen(text: string): (s: string)
    ensures |s| == |text| % 256
  {
    text[..|text| % 256]
  }

  predicate HasSign(s: string) { |s| > 1 && (s[0] == '-' || s[0] == '+') }

  function Bare(s: string): string { if HasSign(s) then s[1..] else s }

  predicate HasPoint(s: string) { |s| > 0 && s[|s| - 1] == '.' }

  function WithoutPoint(s: string): string { if HasPoint(s) then s[..|s| - 1] else s }

  function Parse(text: string, base: Cell): Parsed {
    var s := Seen(text);
    var body := WithoutPoint(Bare(s));
    if body == "" then NotANumber
    else
      match Accumulated(body, base, 0)
      case BadDigit => NotANumber
      case Digits(acc) =>
        var value := if HasSign(s) && s[0] == '-' then Minus(acc) else acc;
        Number(if HasPoint(Bare(s)) then [0, value] else [value])
  }

  method AccumulateDigits(s: string, base: Cell) returns (r: Digits)
    ensures r == Accumulated(s, base, 0)
  {
    var acc: Cell := 0;
    var i := 0;
    while i < |s| && s[i] != '\0'
      invariant i <= |s| && Accumulated(s, base, 0) == Accumulated(s[i..], base, acc)
    {
      var c := s[i];
      if !IsDigit(c) && !IsLetter(c) { return BadDigit; }
      var digit := DigitValue(c);
      if digit >= base { return BadDigit; }
      assert s[i..][0] == c && s[i..][1..] == s[i + 1..];
      acc := Wrap(acc * base + digit);
      i := i + 1;
    }
    r := Digits(acc);
  }

  /** ficlVmParseNumber, up to what it pushes. */
  method ParseNumber(text: string, base: Cell) returns (r: Parsed)
    ensures r == Parse(text, base)
  {
    var start, length, negative, double := 0, |text| % 256, false, false;
    if length > 1 {
      if text[0] == '-' {
        start, length, negative := 1, length - 1, true;
      } else if text[0] == '+' {
        start, length := 1, length - 1;
      }
    }
    assert text[start..start + length] == Bare(Seen(text));
    if length > 0 && text[start + length - 1] == '.' {
      double, length := true, length - 1;
    }
    assert text[start..start + length] == WithoutPoint(Bare(Seen(text)));
    if length == 0 { return NotANumber; }
    var digits := AccumulateDigits(text[start..start + length], base);
    if digits.BadDigit? { return NotANumber; }
    var value := if negative then Minus(digits.acc) else digits.acc;
    r := Number(if double then [0, value] else [value]);
  }

  // ----- Reading back what was printed -----

  lemma {:induction false} AccumulateAfter(a: string, b: string, base: Cell, acc: Cell)
    requires forall k :: 0 <= k < |a| ==> a[k] != '\0'
    ensures Accumulated(a + b, base, acc) ==
            match Accumulated(a, base, acc)
            case Digits(x) => Accumulated(b, base, x)
            case BadDigit => BadDigit
    decreases |a|
  {
    if a == "" {
      assert a + b == b;
    } else {
      assert (a + b)[0] == a[0] && (a + b)[1..] == a[1..] + b;
      if DigitValue(a[0]) < 36 && DigitValue(a[0]) < base { AccumulateAfter(a[1..], b, base, Wrap(acc * base + DigitValue(a[0]))); }
    }
  }

  lemma DigitsValue(d: nat)
    requires d < 36
    ensures DigitValue(DIGITS[d]) == d && DIGITS[d] != '\0' && (IsDigit(DIGITS[d]) || IsLetter(DIGITS[d]))
  {
    assert DIGITS[..10] == "0123456789";
    assert d < 10 ==> DIGITS[d] == DIGITS[..10][d];
  }

  /** The digits of a numeral are letters and digits. */
  lemma {:induction false} NumeralChars(v: nat, radix: nat, k: nat)
    requires 2 <= radix <= 36 && k < |Numeral(v, radix)|
    ensures IsDigit(Numeral(v, radix)[k]) || IsLetter(Numeral(v, radix)[k])
    decreases v
  {
    if v < radix {
      DigitsValue(v);
    } else {
      Shrinks(v, radix);
      DigitsValue(v % radix);
      if k < |Numeral(v / radix, radix)| { NumeralChars(v / radix, radix, k); }
    }
  }

  lemma {:induction false} NumeralShort(v: nat, radix: nat, k: nat)
    requires 2 <= radix <= 36 && k > 0 && v < Pow2(k)
    ensures |Numeral(v, radix)| <= k
    decreases v
  {
    if v >= radix {
      Shrinks(v, radix);
      NumeralShort(v / radix, radix, k - 1);
    }
  }

  /** Reading a numeral in its base gives its value back, modulo the cell. */
  lemma {:induction false} NumeralRead(v: nat, radix: nat)
    requires 2 <= radix <= 36
    ensures Accumulated(Numeral(v, radix), radix, 0) == Digits(v % CELL)
    decreases v
  {
    if v < radix {
      SmallNumeralRead(v, radix);
    } else {
      Shrinks(v, radix);
      NumeralRead(v / radix, radix);
      LongNumeralRead(v, radix);
    }
  }

  lemma SmallNumeralRead(v: nat, radix: nat)
    requires 2 <= radix <= 36 && v < radix
    ensures Accumulated(Numeral(v, radix), radix, 0) == Digits(v % CELL)
  {
    DigitsValue(v);
    OneDigit(DIGITS[v], radix, 0);
    ModUnique(v, CELL, v, 0);
  }

  lemma LongNumeralRead(v: nat, radix: nat)
    requires 2 <= radix <= 36 && v >= radix
    requires v / radix >= 0 && Accumulated(Numeral(v / radix, radix), radix, 0) == Digits((v / radix) % CELL)
    ensures Accumulated(Numeral(v, radix), radix, 0) == Digits(v % CELL)
  {
    var w, d := v / radix, v % radix;
    var s := Numeral(w, radix);
    assert Numeral(v, radix) == s + [DIGITS[d]];
    Recombined(v, radix, w, d);
    ReadDigit(s, w, radix, d);
  }

  lemma Recombined(v: nat, radix: nat, w: nat, d: nat)
    requires radix > 0 && w == v / radix && d == v % radix
    ensures w * radix + d == v
  {
  }

  lemma ReadDigit(s: string, w: nat, radix: nat, d: nat)
    requires 2 <= radix <= 36 && d < radix && s == Numeral(w, radix) && Accumulated(s, radix, 0) == Digits(w % CELL)
    ensures Accumulated(s + [DIGITS[d]], radix, 0) == Digits((w * radix + d) % CELL)
  {
    DigitsValue(d);
    forall k | 0 <= k < |s| ensures s[k] != '\0' { NumeralChars(w, radix, k); }
    AccumulateAfter(s, [DIGITS[d]], radix, 0);
    DigitRead(w, radix, d);
  }

  lemma DigitRead(w: nat, radix: nat, d: nat)
    requires 2 <= radix <= 36 && d < radix
    ensures Accumulated([DIGITS[d]], radix, w % CELL) == Digits((w * radix + d) % CELL)
  {
    DigitsValue(d);
    OneDigit(DIGITS[d], radix, w % CELL);
    WrapDigit(w, radix, d);
  }

  lemma OneDigit(c: char, base: Cell, acc: Cell)
    requires c != '\0' && DigitValue(c) < 36 && DigitValue(c) < base
    ensures Accumulated([c], base, acc) == Digits(Wrap(acc * base + DigitValue(c)))
  {
    assert [c][1..] == "";
  }

  lemma WrapDigit(w: nat, radix: nat, d: nat)
    requires d < radix
    ensures Wrap((w % CELL) * radix + d) == (w * radix + d) % CELL
  {
    var k, m := w / CELL, w % CELL;
    assert w == k * CELL + m;
    var x := m * radix + d;
    assert w * radix + d == (k * radix) * CELL + x;
    assert x == (x / CELL) * CELL + x % CELL;
    assert w * radix + d == (k * radix + x / CELL) * CELL + x % CELL;
    ModUnique(w * radix + d, CELL, x % CELL, k * radix + x / CELL);
  }

  /** A numeral as the parser sees it. */
  lemma NumeralSeen(v: nat, radix: nat)
    requires 2 <= radix <= 36 && v < CELL
    ensures var s := Numeral(v, radix); 0 < |s| <= 32 && Seen(s) == s && !HasSign(s) && !HasPoint(s)
  {
    var s := Numeral(v, radix);
    Pow2Of32();
    NumeralShort(v, radix, 32);
    assert s[..|s|] == s;
    NumeralChars(v, radix, 0);
    NumeralChars(v, radix, |s| - 1);
  }

  lemma ParsePlain(text: string, base: Cell, acc: Cell)
    requires 0 < |text| < 256 && !HasSign(text) && !HasPoint(text) && Accumulated(text, base, 0) == Digits(acc)
    ensures Parse(text, base) == Number([acc])
  {
    assert text[..|text|] == text;
  }

  lemma ParseMinus(text: string, body: string, base: Cell, acc: Cell)
    requires 0 < |body| < 255 && text == ['-'] + body && !HasPoint(body) && Accumulated(body, base, 0) == Digits(acc)
    ensures Parse(text, base) == Number([Minus(acc)])
  {
    assert text[..|text|] == text && text[1..] == body;
  }

  /** Unsigned printing reads back in every base. */
  lemma UnsignedRoundTrip(c: Cell, radix: nat)
    requires 2 <= radix <= 36
    ensures Parse(Numeral(c, radix), radix) == Number([c])
  {
    var s := Numeral(c, radix);
    NumeralSeen(c, radix);
    NumeralRead(c, radix);
    ModUnique(c, CELL, c, 0);
    ParsePlain(s, radix, c);
  }

  /** So does signed printing, the least number included. */
  lemma RoundTrip(c: Cell, radix: nat)
    requires 2 <= radix <= 36
    ensures Parse(Printed(c, radix), radix) == Number([c])
  {
    if radix == 10 && Signed(c) < 0 {
      var v := Minus(c);
      var body := Numeral(v, 10);
      NumeralSeen(v, 10);
      NumeralRead(v, 10);
      SignIs(c, body);
      ParseMinus(['-'] + body, body, 10, v);
    } else {
      UnsignedRoundTrip(c, radix);
    }
  }
}
