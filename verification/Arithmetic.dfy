/** Division with a variable divisor, and the width of a 32-bit word. */
module Arithmetic {
  const TWO_TO_32: nat := 0x1_0000_0000

  lemma DivMod(x: int, d: int)
    requires d > 0
    ensures x == d * (x / d) + x % d && 0 <= x % d < d
  {
  }

  lemma Distribute(w: int, q: int, k: int)
    ensures w * (q - k) == w * q - w * k && w * (q + k) == w * q + w * k
  {
  }

  lemma {:induction false} Multiple(w: int, d: int)
    requires w > 0
    ensures d >= 1 ==> w * d >= w
    ensures d <= -1 ==> w * d <= -w
  {
    if d >= 1 {
      assert w * d >= w * 1;
    } else if d <= -1 {
      assert w * d <= w * -1;
    }
  }

  lemma {:induction false} NoMultiple(w: int, d: int)
    requires w > 0 && -w < w * d < w
    ensures d == 0
  {
    Multiple(w, d);
  }

  lemma {:induction false} ModUnique(w: int, q: int, x: int, y: int)
    requires w > 0 && x == w * q + y && 0 <= y < w
    ensures x % w == y && x / w == q
  {
    DivMod(x, w);
    Distribute(w, q, x / w);
    NoMultiple(w, q - x / w);
  }

  lemma {:induction false} SameResidue(w: int, x: int, y: int)
    requires w > 0 && x % w == y % w && -w < y - x < w
    ensures x == y
  {
    DivMod(x, w);
    DivMod(y, w);
    Distribute(w, y / w, x / w);
    NoMultiple(w, y / w - x / w);
  }
}
