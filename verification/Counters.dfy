/** Counters that wrap around, used modulo the size of a ring. */
module Counters {
  lemma {:induction false} AtLeast(k: nat, m: nat)
    requires 0 < k
    ensures m <= k * m
  {
    if k > 1 {
      AtLeast(k - 1, m);
      assert k * m == (k - 1) * m + m;
    }
  }

  lemma Multiple(k: int, m: nat)
    requires -(m as int) < k * m < m
    ensures k == 0
  {
    assert -k * m == -(k * m);
    if k > 0 {
      AtLeast(k, m);
    } else if k < 0 {
      AtLeast(-k, m);
    }
  }

  lemma ModIs(x: nat, q: nat, r: nat, m: nat)
    requires x == q * m + r && r < m
    ensures x % m == r
  {
    assert x == x / m * m + x % m;
    assert (q - x / m) * m == x % m - r;
    Multiple(q - x / m, m);
  }

  lemma ModPlus(x: nat, k: nat, m: nat)
    requires 0 < m
    ensures (x + k * m) % m == x % m
  {
    assert x == x / m * m + x % m;
    assert x + k * m == (x / m + k) * m + x % m;
    ModIs(x + k * m, x / m + k, x % m, m);
  }

  /** The place of a wrapped counter is that of the counter. */
  lemma WrapSlot(n: nat, wrap: nat, size: nat)
    requires 0 < size && 0 < wrap && wrap % size == 0
    ensures n % wrap % size == n % size
  {
    var q := wrap / size;
    assert wrap == q * size;
    assert n == n % wrap + n / wrap * wrap;
    assert n / wrap * wrap == (n / wrap * q) * size;
    ModPlus(n % wrap, n / wrap * q, size);
  }

  lemma WrapNext(n: nat, wrap: nat)
    requires 0 < wrap
    ensures (n % wrap + 1) % wrap == (n + 1) % wrap
  {
    assert n + 1 == n % wrap + 1 + n / wrap * wrap;
    ModPlus(n % wrap + 1, n / wrap, wrap);
  }

  /** Fewer than `size` apart, two counters have different places. */
  lemma SlotApart(k: nat, j: nat, size: nat)
    requires k < j < k + size
    ensures k % size != j % size
  {
    var d := j / size - k / size;
    assert j - k == d * size + (j % size - k % size);
    if k % size == j % size {
      Multiple(d, size);
    }
  }
}
