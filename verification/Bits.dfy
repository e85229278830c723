/** The bits of a number. */
module Bits {
  function Pow2(n: nat): nat {
    if n == 0 then 1 else 2 * Pow2(n - 1)
  }

  predicate Bit(x: nat, k: nat) {
    if k == 0 then x % 2 == 1 else Bit(x / 2, k - 1)
  }

  /** The low `n` bits of `q * 2^n + r` are those of `r`, the others those of `q`. */
  lemma {:induction false} BitJoined(q: nat, r: nat, n: nat, k: nat)
    requires r < Pow2(n)
    ensures Bit(q * Pow2(n) + r, k) <==> if k < n then Bit(r, k) else Bit(q, k - n)
    decreases n
  {
    if n > 0 {
      var h := q * Pow2(n - 1);
      assert q * Pow2(n) == 2 * h;
      assert (2 * h + r) / 2 == h + r / 2 && (2 * h + r) % 2 == r % 2;
      if k > 0 { BitJoined(q, r / 2, n - 1, k - 1); }
    }
  }
}
