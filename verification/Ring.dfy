/** Slot indices of the power-of-two rings. */
module RingIndex {
  import opened Bits

  /** The capacity of a ring: a power of two. */
  ghost predicate IsCapacity(n: nat) {
    exists k: nat :: n == Pow2(k) && k < 64
  }

  /** `position & (N - 1)`. */
  function Index(pos: nat, n: nat): (i: nat)
    requires n > 0
    ensures i < n
  {
    AndBound(pos, n - 1);
    And(pos, n - 1)
  }

  lemma IndexIsMod(pos: nat, n: nat)
    requires n > 0 && IsCapacity(n)
    ensures Index(pos, n) == pos % n
  {
    var k: nat :| n == Pow2(k) && k < 64;
    AndLowMask(pos, k);
  }

  /** Positions less than `n` apart have different slots. */
  lemma IndexApart(p: nat, q: nat, n: nat)
    requires n > 0 && IsCapacity(n) && p < q < p + n
    ensures Index(p, n) != Index(q, n)
  {
    IndexIsMod(p, n);
    IndexIsMod(q, n);
    ModApart(p, q, n);
  }

  lemma ModApart(p: nat, q: nat, n: nat)
    requires n > 0 && p < q < p + n
    ensures p % n != q % n
  {
    assert p == n * (p / n) + p % n && q == n * (q / n) + q % n;
    MulCompare(n, p / n, q / n);
  }

  lemma CapacityFits(n: nat)
    requires IsCapacity(n)
    ensures 0 < n <= TWO_64 / 2
  {
    var k: nat :| n == Pow2(k) && k < 64;
    Pow2Monotone(k, 63);
    Pow2Values();
  }

  /** The index does not depend on how often the position has wrapped. */
  lemma IndexOfWrapped(pos: nat, n: nat)
    requires n > 0 && IsCapacity(n)
    ensures Index(pos % TWO_64, n) == Index(pos, n)
  {
    var k: nat :| n == Pow2(k) && k < 64;
    IndexIsMod(pos, n);
    IndexIsMod(pos % TWO_64, n);
    Pow2Add(k, 64 - k);
    Pow2Values();
    ModOfMultiple(pos, n, Pow2(64 - k));
  }

  lemma ModOfMultiple(x: nat, n: nat, c: nat)
    requires n > 0 && c > 0
    ensures n * c > 0 && (x % (n * c)) % n == x % n
  {
    MulStep(n, 0, c);
    var q := x / (n * c);
    assert x == (n * c) * q + x % (n * c);
    MulAssociates(n, c, q);
    ModPlusMultiple(x % (n * c), n, c * q);
  }
}
