/** What the parser makes of a text, told by other texts: signs, the trailing point, the case of
    digits, one digit more, and which texts are numbers at all. */
module NumberLaws {
  import opened DoubleCells
  import opened NumberText
  import Dictionaries

  // ----- Signs -----

  /** A plus sign changes nothing. */
  lemma PlusSign(t: string, base: Cell)
    requires |t| < 255 && !HasSign(t)
    ensures Parse("+" + t, base) == Parse(t, base)
  {
    var s := "+" + t;
    SeenWhole(s);
    SeenWhole(t);
    assert s[1..] == t;
    if t == "" { assert s == "+" && NumberText.Accumulated(s, base, 0) == BadDigit; }
  }

  lemma SeenWhole(s: string)
    requires |s| < 256
    ensures Seen(s) == s
  {
    assert s[..|s|] == s;
  }

  /** The same cells, but for the sign of the number. */
  ghost predicate Opposite(r: Parsed, r': Parsed) {
    match r
    case NotANumber => r' == NotANumber
    case Number(p) =>
      && r'.Number? && |r'.pushed| == |p| > 0 && p[..|p| - 1] == r'.pushed[..|p| - 1]
      && (p[|p| - 1] + r'.pushed[|p| - 1]) % CELL == 0
  }

  /** A minus sign pushes the negative. */
  lemma MinusSign(t: string, base: Cell)
    requires |t| < 255 && !HasSign(t)
    ensures Opposite(Parse(t, base), Parse("-" + t, base))
  {
    var s := "-" + t;
    SeenWhole(s);
    SeenWhole(t);
    assert s[1..] == t;
    if t == "" { assert s == "-" && NumberText.Accumulated(s, base, 0) == BadDigit; }
  }

  // ----- The trailing point -----

  /** A trailing point pushes a zero first. */
  lemma TrailingPoint(t: string, base: Cell)
    requires |t| < 255 && !HasPoint(t)
    ensures Parse(t + ".", base) == match Parse(t, base) case NotANumber => NotANumber case Number(p) => Number([0] + p)
  {
    var s := t + ".";
    SeenWhole(s);
    SeenWhole(t);
    PointBehind(t);
    if |t| == 1 && (t[0] == '+' || t[0] == '-') {
      assert NumberText.Accumulated(t, base, 0) == BadDigit;
    } else {
      assert WithoutPoint(Bare(s)) == WithoutPoint(Bare(t));
    }
  }

  lemma PointBehind(t: string)
    requires !HasPoint(t)
    ensures var s := t + ".";
            && HasPoint(Bare(s)) && !HasPoint(Bare(t))
            && WithoutPoint(Bare(s)) == if |t| == 1 && (t[0] == '+' || t[0] == '-') then "" else Bare(t)
  {
    var s := t + ".";
    if HasSign(t) {
      assert s[1..] == t[1..] + "." && s[1..][..|t| - 1] == t[1..];
    } else if |t| != 1 || (t[0] != '+' && t[0] != '-') {
      assert Bare(s) == s && s[..|t|] == t;
    }
  }

  // ----- Letters -----

  /** Texts that differ in the case of letters alone are the same number. */
  lemma CaseOfDigits(a: string, b: string, base: Cell)
    requires |a| == |b| && forall k :: 0 <= k < |a| ==> Dictionaries.SameLetter(a[k], b[k])
    ensures Parse(a, base) == Parse(b, base)
  {
    var s, t := Seen(a), Seen(b);
    var bs, bt := Bare(s), Bare(t);
    var ws, wt := WithoutPoint(bs), WithoutPoint(bt);
    assert forall k :: 0 <= k < |s| ==> s[k] == a[k] && t[k] == b[k];
    assert HasSign(s) == HasSign(t);
    assert |bs| == |bt| && forall k :: 0 <= k < |bs| ==> Dictionaries.SameLetter(bs[k], bt[k]);
    assert HasPoint(bs) == HasPoint(bt);
    assert |ws| == |wt| && forall k :: 0 <= k < |ws| ==> Dictionaries.SameLetter(ws[k], wt[k]);
    AccumulatedCase(ws, wt, base, 0);
  }

  lemma {:induction false} AccumulatedCase(a: string, b: string, base: Cell, acc: Cell)
    requires |a| == |b| && forall k :: 0 <= k < |a| ==> Dictionaries.SameLetter(a[k], b[k])
    ensures NumberText.Accumulated(a, base, acc) == NumberText.Accumulated(b, base, acc)
    decreases |a|
  {
    if a != "" {
      assert Dictionaries.SameLetter(a[0], b[0]);
      assert (a[0] == '\0' <==> b[0] == '\0') && DigitValue(a[0]) == DigitValue(b[0]);
      var a', b' := a[1..], b[1..];
      forall k | 0 <= k < |a'| ensures Dictionaries.SameLetter(a'[k], b'[k]) { assert Dictionaries.SameLetter(a[k + 1], b[k + 1]); }
      AccumulatedCase(a', b', base, Wrap(acc * base + DigitValue(a[0])));
    }
  }

  // ----- Which texts are numbers -----

  /** The digits of a base, whatever their case. */
  predicate DigitOf(c: char, base: Cell) {
    || ('0' <= c <= '9' && c as int - '0' as int < base)
    || ('A' <= c <= 'Z' && c as int - 'A' as int + 10 < base)
    || ('a' <= c <= 'z' && c as int - 'a' as int + 10 < base)
  }

  predicate BadAt(t: string, base: Cell, k: nat)
    requires k < |t|
  {
    '\0' !in t[..k + 1] && !DigitOf(t[k], base)
  }

  /** A text without sign or point is no number exactly when it is empty or has a character
      before any NUL that is no digit of the base. */
  lemma NotANumberExactly(t: string, base: Cell)
    requires |t| < 256 && !HasSign(t) && !HasPoint(t)
    ensures Parse(t, base) == NotANumber <==> t == "" || exists k :: 0 <= k < |t| && BadAt(t, base, k)
  {
    SeenWhole(t);
    BadExactly(t, base, 0);
  }

  lemma {:induction false} BadExactly(t: string, base: Cell, acc: Cell)
    ensures NumberText.Accumulated(t, base, acc) == BadDigit <==> exists k :: 0 <= k < |t| && BadAt(t, base, k)
    decreases |t|
  {
    if t != "" {
      BadStep(t, base);
      if t[0] != '\0' && DigitOf(t[0], base) { BadExactly(t[1..], base, Wrap(acc * base + DigitValue(t[0]))); }
    }
  }

  lemma BadStep(t: string, base: Cell)
    requires t != ""
    ensures (exists k :: 0 <= k < |t| && BadAt(t, base, k)) <==>
            t[0] != '\0' && (!DigitOf(t[0], base) || exists k :: 0 <= k < |t[1..]| && BadAt(t[1..], base, k))
  {
    var r := t[1..];
    assert t[..1] == [t[0]];
    assert BadAt(t, base, 0) <==> t[0] != '\0' && !DigitOf(t[0], base);
    forall k | 0 <= k < |r| ensures BadAt(t, base, k + 1) <==> t[0] != '\0' && BadAt(r, base, k) {
      assert t[..k + 2] == [t[0]] + r[..k + 1];
    }
    if j :| 0 <= j < |t| && BadAt(t, base, j) {
      if j > 0 { assert BadAt(t, base, (j - 1) + 1) && BadAt(r, base, j - 1); }
    }
    if j :| 0 <= j < |r| && BadAt(r, base, j) { assert BadAt(t, base, j + 1) <==> t[0] != '\0' && BadAt(r, base, j); }
  }

  /** The length is kept in one byte: of a longer text only so much of its beginning is seen. */
  lemma LengthByte(text: string, base: Cell)
    ensures Parse(text, base) == Parse(text[..|text| % 256], base)
  {
    SeenWhole(text[..|text| % 256]);
  }

  // ----- One digit more -----

  /** The digit's place in the order 0 to 9, A to Z. */
  predicate Stands(c: char, d: nat) {
    || ('0' <= c <= '9' && d == c as int - '0' as int)
    || ('A' <= c <= 'Z' && d == c as int - 'A' as int + 10)
    || ('a' <= c <= 'z' && d == c as int - 'a' as int + 10)
  }

  lemma OneDigitText(c: char, d: nat, base: Cell)
    requires Stands(c, d) && d < base
    ensures Parse([c], base) == Number([d])
  {
    SeenWhole([c]);
    OneDigit(c, base, 0);
  }

  /** Behind a number a digit multiplies by the base and adds itself, modulo the cell. */
  lemma DigitBehind(t: string, c: char, d: nat, base: Cell, v: Cell)
    requires |t| < 255 && !HasSign(t) && !HasPoint(t) && '\0' !in t && Stands(c, d) && d < base
    requires Parse(t, base) == Number([v])
    ensures Parse(t + [c], base) == Number([(v * base + d) % CELL])
  {
    var s := t + [c];
    SeenWhole(s);
    SeenWhole(t);
    assert !HasSign(s);
    AccumulateAfter(t, [c], base, 0);
    OneDigit(c, base, v);
  }

  // ----- Printing -----

  /** Letters are printed in upper case. */
  lemma {:induction false} NumeralUpper(v: nat, radix: nat, k: nat)
    requires 2 <= radix <= 36 && k < |Numeral(v, radix)|
    ensures '0' <= Numeral(v, radix)[k] <= '9' || 'A' <= Numeral(v, radix)[k] <= 'Z'
    decreases v
  {
    if v < radix {
      DigitUpper(v);
    } else {
      Shrinks(v, radix);
      DigitUpper(v % radix);
      if k < |Numeral(v / radix, radix)| { NumeralUpper(v / radix, radix, k); }
    }
  }

  /** A sign is printed exactly for the cells from 2^31 on, in base ten; every other text is digits alone. */
  lemma SignExactly(c: Cell, radix: nat, k: nat)
    requires 2 <= radix <= 36 && k < |Printed(c, radix)|
    ensures Printed(c, radix)[k] == '-' <==> k == 0 && radix == 10 && c >= 0x8000_0000
  {
    if radix == 10 && c >= 0x8000_0000 {
      if k > 0 { NumeralUpper(-Signed(c), 10, k - 1); }
    } else {
      NumeralUpper(c, radix, k);
    }
  }

  lemma DigitUpper(d: nat)
    requires d < 36
    ensures DIGITS[d] as int == if d < 10 then '0' as int + d else 'A' as int + d - 10
  {
    assert DIGITS[..10] == "0123456789";
    assert d < 10 ==> DIGITS[d] == DIGITS[..10][d];
  }
}
