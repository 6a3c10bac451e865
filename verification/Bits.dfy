/** Fixed-width masks as numbers: which bits they hold, and the operations on them. */
module Bits {
  import opened Basics

  /** Rust's `u32`. */
  type u32 = x: int | 0 <= x < 0x1_0000_0000

  /** Rust's `u16`. */
  type u16 = x: int | 0 <= x < 0x1_0000

  /** `1 << n` */
  function Pow2(n: nat): (p: nat)
    ensures 1 <= p
  {
    if n == 0 then 1 else 2 * Pow2(n - 1)
  }

  lemma {:induction false} Pow2Grows(a: nat, b: nat)
    requires a <= b
    ensures Pow2(a) <= Pow2(b)
  {
    if a < b { Pow2Grows(a, b - 1); }
  }

  /** `mask & (1 << k) != 0` */
  predicate Bit(mask: nat, k: int)
    decreases k
  {
    0 <= k && if k == 0 then mask % 2 == 1 else Bit(mask / 2, k - 1)
  }

  /** `a | b` */
  function Or(a: nat, b: nat): (c: nat)
    decreases a + b
  {
    if a + b == 0 then 0 else 2 * Or(a / 2, b / 2) + Max(a % 2, b % 2)
  }

  lemma {:induction false} BitOfZero(k: int)
    ensures !Bit(0, k)
    decreases k
  {
    if 0 < k { BitOfZero(k - 1); }
  }

  lemma {:induction false} BitOfOr(a: nat, b: nat, k: int)
    ensures Bit(Or(a, b), k) <==> Bit(a, k) || Bit(b, k)
    decreases k
  {
    if a + b == 0 {
      BitOfZero(k);
    } else if 0 < k {
      BitOfOr(a / 2, b / 2, k - 1);
      assert Or(a, b) / 2 == Or(a / 2, b / 2);
    }
  }

  lemma {:induction false} OrFits(a: nat, b: nat, n: nat)
    requires a < Pow2(n) && b < Pow2(n)
    ensures Or(a, b) < Pow2(n)
  {
    if 0 < n && 0 < a + b { OrFits(a / 2, b / 2, n - 1); }
  }

  lemma {:induction false} Pow2Sum(a: nat, b: nat)
    ensures Pow2(a + b) == Pow2(a) * Pow2(b)
    decreases a
  {
    if a > 0 { Pow2Sum(a - 1, b); }
  }

  lemma Pow2Of64()
    ensures Pow2(64) == 0x1_0000_0000_0000_0000
  {
    assert Pow2(4) == 16;
    Pow2Sum(4, 4);
    Pow2Sum(8, 8);
    Pow2Sum(16, 16);
    Pow2Sum(32, 32);
  }

  lemma OrIsU64(a: u64, b: u64)
    ensures Or(a, b) < 0x1_0000_0000_0000_0000
  {
    Pow2Of64();
    OrFits(a, b, 64);
  }

  lemma Pow2IsU64(v: nat)
    requires v < 64
    ensures Pow2(v) < 0x1_0000_0000_0000_0000
  {
    Pow2Of64();
    Pow2Grows(v + 1, 64);
  }

  lemma {:induction false} BitOfPow2(v: nat, k: int)
    ensures Bit(Pow2(v), k) <==> k == v
    decreases v
  {
    if v == 0 {
      if 0 < k { BitOfZero(k - 1); }
    } else if 0 < k {
      BitOfPow2(v - 1, k - 1);
    }
  }

  /** `mask` truncated to its low `n` bits. */
  lemma {:induction false} BitOfMod(mask: nat, n: nat, k: int)
    ensures Bit(mask % Pow2(n), k) <==> k < n && Bit(mask, k)
    decreases n
  {
    if n == 0 {
      assert mask % 1 == 0;
      BitOfZero(k);
    } else {
      HalfOfMod(mask, Pow2(n - 1));
      if 0 < k { BitOfMod(mask / 2, n - 1, k - 1); }
    }
  }

  lemma HalfOfMod(m: nat, p: nat)
    requires 0 < p
    ensures (m % (2 * p)) / 2 == (m / 2) % p && (m % (2 * p)) % 2 == m % 2
  {
    var q, r := (m / 2) / p, (m / 2) % p;
    QuotientIs(m, 2 * p, q, 2 * r + m % 2);
  }

  /** `mask >> n` */
  function Shr(mask: nat, n: nat): nat { if n == 0 then mask else Shr(mask / 2, n - 1) }

  lemma {:induction false} BitOfShr(mask: nat, n: nat, k: int)
    requires 0 <= k
    ensures Bit(Shr(mask, n), k) <==> Bit(mask, k + n)
    decreases n
  {
    if 0 < n { BitOfShr(mask / 2, n - 1, k); }
  }

  /** `(1 << n) - 1` holds the bits below n. */
  lemma {:induction false} BitOfLow(n: nat, k: int)
    ensures Bit(Pow2(n) - 1, k) <==> 0 <= k < n
    decreases n
  {
    if n == 0 {
      BitOfZero(k);
    } else if 0 < k {
      assert (Pow2(n) - 1) / 2 == Pow2(n - 1) - 1;
      BitOfLow(n - 1, k - 1);
    }
  }

  /** A mask is determined by its bits. */
  lemma {:induction false} SameBits(a: nat, b: nat)
    requires forall k :: Bit(a, k) <==> Bit(b, k)
    ensures a == b
    decreases a + b
  {
    assert Bit(a, 0) <==> Bit(b, 0);
    if 0 < a + b {
      forall k ensures Bit(a / 2, k) <==> Bit(b / 2, k) {
        assert 0 <= k ==> (Bit(a, k + 1) <==> Bit(b, k + 1));
      }
      SameBits(a / 2, b / 2);
    }
  }
}
