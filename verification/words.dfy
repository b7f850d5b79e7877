/** Powers of two, and integers as 32-bit two's-complement words. */
module Words {

  function Pow2(n: nat): (p: nat)
    ensures p > 0
  {
    if n == 0 then 1 else 2 * Pow2(n - 1)
  }

  lemma {:induction false} Pow2Add(a: nat, b: nat)
    ensures Pow2(a + b) == Pow2(a) * Pow2(b)
  {
    if b > 0 { Pow2Add(a, b - 1); }
  }

  lemma Pow2Values()
    ensures Pow2(8) == 256 && Pow2(16) == 65536 && Pow2(24) == 16777216 && Pow2(32) == 0x1_0000_0000
  {
    assert Pow2(4) == 16;
    Pow2Add(4, 4);
    Pow2Add(8, 8);
    Pow2Add(8, 16);
    Pow2Add(16, 16);
  }

  /** What is left of a number in a signed word. */
  function WrapCell(x: int): (r: int)
    ensures -0x8000_0000 <= r < 0x8000_0000 && (-0x8000_0000 <= x < 0x8000_0000 ==> r == x)
  {
    (x + 0x8000_0000) % 0x1_0000_0000 - 0x8000_0000
  }

  /** It differs from the number by a multiple of the word's range. */
  lemma WrapCellCongruent(x: int)
    ensures (x - WrapCell(x)) % 0x1_0000_0000 == 0
  {
    var y := x + 0x8000_0000;
    assert x - WrapCell(x) == y - y % 0x1_0000_0000;
    assert y - y % 0x1_0000_0000 == y / 0x1_0000_0000 * 0x1_0000_0000;
  }
}
