/**
 * Bit arithmetic on basis-state indices. Bit k (0-based) of an index stands for
 * qubit k + 1. The engine tests bits with the expression `n % 2^q >= 2^(q-1)`
 * and extracts them with `(n >> k) & 1`; both are related here to `Bit`.
 */
module Bits {

  function Pow2(k: nat): (p: nat)
    ensures p >= 1
  {
    if k == 0 then 1 else 2 * Pow2(k - 1)
  }

  /** Bit k of n, i.e. `(n >> k) & 1 == 1`. */
  predicate Bit(n: nat, k: nat)
  {
    if k == 0 then n % 2 == 1 else Bit(n / 2, k - 1)
  }

  /** The qubit test written in the engine: `n % 2^q >= 2^(q-1)` for a 1-based qubit q. */
  predicate QubitSet(n: nat, q: nat)
    requires q >= 1
  {
    n % Pow2(q) >= Pow2(q - 1)
  }

  /** n with bit k inverted, computed as the engine does: `n - 2^k` when the bit is set, `n + 2^k` otherwise. */
  function Flip(n: nat, k: nat): (m: nat)
  {
    if Bit(n, k) then BitSetAtLeast(n, k); n - Pow2(k) else n + Pow2(k)
  }

  /** n with bits i and j exchanged, which is `n ^ ((x << i) | (x << j))` with `x = bit i ^ bit j`. */
  function SwapBits(n: nat, i: nat, j: nat): nat
  {
    if Bit(n, i) != Bit(n, j) then Flip(Flip(n, i), j) else n
  }

  lemma {:induction false} BitSetAtLeast(n: nat, k: nat)
    requires Bit(n, k)
    ensures n >= Pow2(k)
  {
    if k > 0 {
      BitSetAtLeast(n / 2, k - 1);
    }
  }

  lemma {:induction false} BitsBelow(n: nat, m: nat, k: nat)
    requires n < Pow2(m) && m <= k
    ensures !Bit(n, k)
  {
    if k > 0 && m > 0 {
      BitsBelow(n / 2, m - 1, k - 1);
    } else if k > 0 {
      assert n == 0;
      BitsBelow(0, 0, k - 1);
    }
  }

  /** Adding 2^k to an index whose bit k is clear sets that bit and leaves every other bit alone. */
  lemma {:induction false} BitOfAdd(n: nat, k: nat, j: nat)
    requires !Bit(n, k)
    ensures Bit(n + Pow2(k), j) == (j == k || Bit(n, j))
  {
    if k == 0 {
      if j > 0 {
        assert (n + 1) / 2 == n / 2;
      }
    } else {
      assert (n + Pow2(k)) / 2 == n / 2 + Pow2(k - 1);
      if j > 0 {
        BitOfAdd(n / 2, k - 1, j - 1);
      }
    }
  }

  /** Subtracting 2^k from an index whose bit k is set clears that bit and leaves every other bit alone. */
  lemma {:induction false} BitOfSub(n: nat, k: nat, j: nat)
    requires Bit(n, k)
    ensures n >= Pow2(k)
    ensures Bit(n - Pow2(k), j) == (j != k && Bit(n, j))
  {
    BitSetAtLeast(n, k);
    if k == 0 {
      if j > 0 {
        assert (n - 1) / 2 == n / 2;
      }
    } else {
      BitSetAtLeast(n / 2, k - 1);
      assert (n - Pow2(k)) / 2 == n / 2 - Pow2(k - 1);
      if j > 0 {
        BitOfSub(n / 2, k - 1, j - 1);
      }
    }
  }

  lemma FlipBit(n: nat, k: nat, j: nat)
    ensures Bit(Flip(n, k), j) == (if j == k then !Bit(n, k) else Bit(n, j))
  {
    if Bit(n, k) {
      BitOfSub(n, k, j);
    } else {
      BitOfAdd(n, k, j);
    }
  }

  lemma FlipFlip(n: nat, k: nat)
    ensures Flip(Flip(n, k), k) == n
  {
    FlipBit(n, k, k);
  }

  lemma FlipNotSame(n: nat, k: nat)
    ensures Flip(n, k) != n
  {
    FlipBit(n, k, k);
  }

  /** A flipped index stays inside a register of 2^m amplitudes when k < m. */
  lemma {:induction false} FlipBound(n: nat, k: nat, m: nat)
    requires n < Pow2(m) && k < m
    ensures Flip(n, k) < Pow2(m)
  {
    if !Bit(n, k) {
      AddBound(n, k, m);
    }
  }

  lemma {:induction false} AddBound(n: nat, k: nat, m: nat)
    requires n < Pow2(m) && k < m && !Bit(n, k)
    ensures n + Pow2(k) < Pow2(m)
  {
    var h := Pow2(m - 1);
    assert Pow2(m) == 2 * h;
    assert n == 2 * (n / 2) + n % 2;
    assert n / 2 < h;
    if k > 0 {
      AddBound(n / 2, k - 1, m - 1);
      assert Pow2(k) == 2 * Pow2(k - 1);
    } else {
      assert n % 2 == 0;
    }
  }

  /** The engine's test `n % 2^q >= 2^(q-1)` is exactly bit q - 1 of n. */
  lemma {:induction false} QubitSetIsBit(n: nat, q: nat)
    requires q >= 1
    ensures QubitSet(n, q) == Bit(n, q - 1)
  {
    if q > 1 {
      QubitSetIsBit(n / 2, q - 1);
      HalveDiv(n, Pow2(q - 1));
    }
  }

  /** `(n >> k) & 1` is bit k: the shift is a division by 2^k. */
  lemma {:induction false} ShiftBit(n: nat, k: nat)
    ensures Bit(n, k) == ((n / Pow2(k)) % 2 == 1)
  {
    if k > 0 {
      ShiftBit(n / 2, k - 1);
      HalveDiv(n, Pow2(k - 1));
    }
  }

  /** Dividing by 2p is halving and then dividing by p; the remainder is rebuilt from both remainders. */
  lemma HalveDiv(n: nat, p: nat)
    requires p >= 1
    ensures n / (2 * p) == (n / 2) / p
    ensures n % (2 * p) == n % 2 + 2 * ((n / 2) % p)
  {
    var q, r := (n / 2) / p, (n / 2) % p;
    assert n / 2 == p * q + r;
    assert n == 2 * (n / 2) + n % 2;
    assert n == (2 * p) * q + (n % 2 + 2 * r);
    DivModUnique(n, 2 * p, q, n % 2 + 2 * r);
  }

  lemma DivModUnique(n: int, d: int, x: int, y: int)
    requires d > 0 && 0 <= y < d && n == d * x + y
    ensures n / d == x && n % d == y
  {
    var q, r := n / d, n % d;
    assert d * q + r == d * x + y;
    assert d * (q - x) == y - r;
    if q - x >= 1 {
      MulAtLeast(d, q - x);
    } else if x - q >= 1 {
      MulAtLeast(d, x - q);
    }
  }

  lemma MulAtLeast(d: int, a: int)
    requires d > 0 && a >= 1
    ensures d * a >= d
  {
    assert d * a == d * (a - 1) + d;
  }

  lemma SwapBitsBit(n: nat, i: nat, j: nat, k: nat)
    ensures Bit(SwapBits(n, i, j), k) == (if k == i then Bit(n, j) else if k == j then Bit(n, i) else Bit(n, k))
  {
    if Bit(n, i) != Bit(n, j) {
      FlipBit(n, i, k);
      FlipBit(Flip(n, i), j, k);
      FlipBit(n, i, j);
    }
  }

  /** Two indices with the same bits are equal. */
  lemma {:induction false} SameBits(n: nat, m: nat)
    requires forall k: nat :: Bit(n, k) == Bit(m, k)
    ensures n == m
  {
    assert Bit(n, 0) == Bit(m, 0);
    if n != 0 || m != 0 {
      forall k: nat ensures Bit(n / 2, k) == Bit(m / 2, k) {
        assert Bit(n, k + 1) == Bit(m, k + 1);
      }
      SameBits(n / 2, m / 2);
    }
  }

  lemma SwapBitsTwice(n: nat, i: nat, j: nat)
    ensures SwapBits(SwapBits(n, i, j), i, j) == n
  {
    var s := SwapBits(n, i, j);
    forall k: nat ensures Bit(SwapBits(s, i, j), k) == Bit(n, k) {
      SwapBitsBit(s, i, j, k);
      SwapBitsBit(n, i, j, k);
      SwapBitsBit(n, i, j, i);
      SwapBitsBit(n, i, j, j);
    }
    SameBits(SwapBits(s, i, j), n);
  }

  lemma SwapBitsBound(n: nat, i: nat, j: nat, m: nat)
    requires n < Pow2(m) && i < m && j < m
    ensures SwapBits(n, i, j) < Pow2(m)
  {
    if Bit(n, i) != Bit(n, j) {
      FlipBound(n, i, m);
      FlipBound(Flip(n, i), j, m);
    }
  }
}
