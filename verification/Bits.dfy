/**
 Bitwise operators on unbounded naturals, and the arithmetic facts that the
 kernel relies on when it masks, shifts and packs machine words.

 A shift by `k` is written as a multiplication or division by `Pow2(k)`; `And`
 and `Or` are defined bit by bit, and the lemmas below relate them to `%`, `/`
 and `+`.
 */
module Bits {
  const TWO_16: nat := 0x1_0000
  const TWO_32: nat := 0x1_0000_0000
  const TWO_44: nat := 0x1000_0000_0000
  const TWO_48: nat := 0x1_0000_0000_0000
  const TWO_64: nat := 0x1_0000_0000_0000_0000

  function Pow2(k: nat): (r: nat)
    ensures r > 0
  {
    if k == 0 then 1 else 2 * Pow2(k - 1)
  }

  function And(a: nat, b: nat): nat {
    if a == 0 || b == 0 then 0
    else 2 * And(a / 2, b / 2) + (if a % 2 == 1 && b % 2 == 1 then 1 else 0)
  }

  function Or(a: nat, b: nat): nat
    decreases a + b
  {
    if a == 0 then b
    else if b == 0 then a
    else 2 * Or(a / 2, b / 2) + (if a % 2 == 1 || b % 2 == 1 then 1 else 0)
  }

  function Xor(a: nat, b: nat): nat
    decreases a + b
  {
    if a == 0 then b
    else if b == 0 then a
    else 2 * Xor(a / 2, b / 2) + (if a % 2 != b % 2 then 1 else 0)
  }

  /** Bit `i` of `a`. */
  predicate Bit(a: nat, i: nat)
    decreases i
  {
    if i == 0 then a % 2 == 1 else Bit(a / 2, i - 1)
  }

  /** The `u64` wrapping operators. */
  function WrapAdd64(a: nat, b: nat): nat { (a + b) % TWO_64 }

  function WrapSub64(a: nat, b: nat): nat { (a - b) % TWO_64 }

  lemma {:induction false} Pow2Add(j: nat, k: nat)
    ensures Pow2(j + k) == Pow2(j) * Pow2(k)
  {
    if j > 0 {
      Pow2Add(j - 1, k);
      Doubled(Pow2(j - 1), Pow2(k));
    }
  }

  lemma {:induction false} Doubled(a: nat, b: nat)
    ensures (2 * a) * b == 2 * (a * b)
  {
  }

  lemma {:induction false} Pow2Monotone(j: nat, k: nat)
    requires j <= k
    ensures Pow2(j) <= Pow2(k)
    decreases k
  {
    if j < k { Pow2Monotone(j, k - 1); }
  }

  /** The powers that the word sizes and page sizes are. */
  lemma {:induction false} Pow2Values()
    ensures Pow2(9) == 512 && Pow2(12) == 4096 && Pow2(16) == TWO_16
    ensures Pow2(32) == TWO_32 && Pow2(48) == TWO_48 && Pow2(63) == TWO_64 / 2 && Pow2(64) == TWO_64
  {
    assert Pow2(4) == 16;
    Pow2Add(4, 4);
    Pow2Add(8, 4);
    Pow2Add(8, 8);
    Pow2Add(16, 16);
    Pow2Add(32, 16);
    Pow2Add(32, 32);
  }

  /** Masking with `2^k - 1` is the remainder modulo `2^k`. */
  lemma {:induction false} AndLowMask(a: nat, k: nat)
    ensures And(a, Pow2(k) - 1) == a % Pow2(k)
    decreases k
  {
    if k > 0 {
      AndLowMask(a / 2, k - 1);
      AndLowMaskStep(a, Pow2(k - 1));
    }
  }

  lemma {:induction false} AndLowMaskStep(a: nat, m: nat)
    requires m > 0
    requires And(a / 2, m - 1) == (a / 2) % m
    ensures And(a, 2 * m - 1) == a % (2 * m)
  {
    AndHalves(a, 2 * m - 1);
    HalfMod(a, m);
  }

  lemma {:induction false} AndHalves(a: nat, b: nat)
    ensures And(a, b) == 2 * And(a / 2, b / 2) + (if a % 2 == 1 && b % 2 == 1 then 1 else 0)
  {
  }

  lemma {:induction false} XorHalves(a: nat, b: nat)
    ensures Xor(a, b) / 2 == Xor(a / 2, b / 2) && Xor(a, b) % 2 == if a % 2 != b % 2 then 1 else 0
  {
  }

  lemma {:induction false} XorCancels(a: nat, b: nat)
    ensures Xor(Xor(a, b), b) == a
    decreases a + b
  {
    if a + b > 0 {
      XorCancels(a / 2, b / 2);
      XorHalves(a, b);
      XorHalves(Xor(a, b), b);
    }
  }

  lemma {:induction false} AndBound(a: nat, b: nat)
    ensures And(a, b) <= a && And(a, b) <= b
  {
    if a > 0 && b > 0 { AndBound(a / 2, b / 2); }
  }

  /** Taking the remainder bit by bit. */
  lemma {:induction false} HalfMod(a: nat, m: nat)
    requires m > 0
    ensures a % (2 * m) == 2 * ((a / 2) % m) + a % 2
  {
    var h := a / 2;
    var q := h / m;
    assert h == m * q + h % m;
    assert a == (2 * m) * q + (2 * (h % m) + a % 2) by {
      assert (2 * m) * q == 2 * (m * q);
    }
    DivModUnique(a, 2 * m, q, 2 * (h % m) + a % 2);
  }

  /** Quotient and remainder are unique. */
  lemma {:induction false} DivModUnique(a: nat, d: nat, q: nat, r: nat)
    requires d > 0 && r < d && a == d * q + r
    ensures a / d == q && a % d == r
  {
    var q' := a / d;
    assert a == d * q' + a % d;
    if q < q' {
      MulStep(d, q, q');
    } else if q' < q {
      MulStep(d, q', q);
    }
  }

  lemma {:induction false} MulStep(d: nat, x: nat, y: nat)
    requires x < y
    ensures d * x + d <= d * y
    decreases y
  {
    if x + 1 < y { MulStep(d, x, y - 1); }
  }

  lemma {:induction false} MulDistributes(d: nat, x: nat, y: nat)
    ensures d * (x + y) == d * x + d * y
  {
  }

  lemma {:induction false} MulAssociates(x: nat, y: nat, z: nat)
    ensures (x * y) * z == x * (y * z)
  {
  }

  /** Adding a multiple of the divisor keeps the remainder. */
  lemma {:induction false} ModPlusMultiple(y: nat, d: nat, m: nat)
    requires d > 0
    ensures (y + d * m) % d == y % d && (y + d * m) / d == y / d + m
  {
    assert y == d * (y / d) + y % d;
    MulDistributes(d, y / d, m);
    DivModUnique(y + d * m, d, y / d + m, y % d);
  }

  lemma {:induction false} MulCompare(d: nat, x: nat, y: nat)
    ensures x < y ==> d * x + d <= d * y
    ensures y < x ==> d * y + d <= d * x
  {
    if x < y { MulStep(d, x, y); }
    if y < x { MulStep(d, y, x); }
  }

  lemma {:induction false} DivDiv(x: nat, a: nat, b: nat, m: nat)
    requires a > 0 && b > 0 && m > 0 && m == a * b
    ensures x / m == x / a / b
  {
    var q, r := Euclid(x, a);
    var q', r' := Euclid(q, b);
    TwoDigits(x, a, b, q', r', r);
    DivModUnique(x, m, q', a * r' + r);
  }

  lemma {:induction false} Euclid(x: nat, d: nat) returns (q: nat, r: nat)
    requires d > 0
    ensures q == x / d && r < d && x == d * q + r
  {
    q, r := x / d, x % d;
  }

  lemma {:induction false} TwoDigits(x: nat, a: nat, b: nat, q: nat, r': nat, r: nat)
    requires x == a * (b * q + r') + r && r < a && r' < b
    ensures x == (a * b) * q + (a * r' + r) && a * r' + r < a * b
  {
    MulDistributes(a, b * q, r');
    MulAssociates(a, b, q);
    MulStep(a, r', b);
  }

  /** Packing a value shifted by `k` with one below `2^k` is their sum. */
  lemma {:induction false} OrDisjoint(a: nat, b: nat, k: nat)
    requires b < Pow2(k)
    ensures Or(a * Pow2(k), b) == a * Pow2(k) + b
    decreases k
  {
    if k > 0 {
      OrDisjoint(a, b / 2, k - 1);
      OrDisjointStep(a * Pow2(k - 1), b);
      MulTwo(a, Pow2(k - 1));
    }
  }

  lemma {:induction false} OrDisjointStep(x: nat, b: nat)
    requires Or(x, b / 2) == x + b / 2
    ensures Or(2 * x, b) == 2 * x + b
  {
  }

  lemma {:induction false} MulTwo(x: nat, m: nat)
    ensures x * (2 * m) == 2 * (x * m)
  {
  }

  lemma {:induction false} OrCommutes(a: nat, b: nat)
    ensures Or(a, b) == Or(b, a)
    decreases a + b
  {
    if a > 0 && b > 0 { OrCommutes(a / 2, b / 2); }
  }

  lemma {:induction false} OrHalves(a: nat, b: nat)
    ensures Or(a, b) / 2 == Or(a / 2, b / 2)
    ensures Or(a, b) % 2 == 1 <==> a % 2 == 1 || b % 2 == 1
  {
  }

  lemma {:induction false} OrAssociates(a: nat, b: nat, c: nat)
    ensures Or(a, Or(b, c)) == Or(Or(a, b), c)
    decreases a + b + c
  {
    if a > 0 && b > 0 && c > 0 {
      OrAssociates(a / 2, b / 2, c / 2);
      OrHalves(a, b);
      OrHalves(b, c);
      OrHalves(a, Or(b, c));
      OrHalves(Or(a, b), c);
    }
  }

  // Single bits

  lemma {:induction false} BitOfOr(a: nat, b: nat, i: nat)
    ensures Bit(Or(a, b), i) <==> Bit(a, i) || Bit(b, i)
    decreases i
  {
    OrHalves(a, b);
    if i > 0 { BitOfOr(a / 2, b / 2, i - 1); }
  }

  lemma {:induction false} BitOfAnd(a: nat, b: nat, i: nat)
    ensures Bit(And(a, b), i) <==> Bit(a, i) && Bit(b, i)
    decreases i
  {
    AndHalves(a, b);
    if i > 0 { BitOfAnd(a / 2, b / 2, i - 1); }
  }

  lemma {:induction false} BitOfPow2(k: nat, i: nat)
    ensures Bit(Pow2(k), i) <==> i == k
    decreases i
  {
    if k == 0 {
      if i > 0 { BitOfZero(i - 1); }
    } else if i > 0 {
      BitOfPow2(k - 1, i - 1);
    }
  }

  lemma {:induction false} BitOfZero(i: nat)
    ensures !Bit(0, i)
  {
    if i > 0 { BitOfZero(i - 1); }
  }

  /** Testing a bit with a mask. */
  lemma {:induction false} AndPow2(a: nat, k: nat)
    ensures And(a, Pow2(k)) == if Bit(a, k) then Pow2(k) else 0
    decreases k
  {
    AndHalves(a, Pow2(k));
    if k > 0 { AndPow2(a / 2, k - 1); }
  }

  lemma {:induction false} OrBound(a: nat, b: nat, k: nat)
    requires a < Pow2(k) && b < Pow2(k)
    ensures Or(a, b) < Pow2(k)
    decreases k
  {
    if k > 0 {
      OrHalves(a, b);
      OrBound(a / 2, b / 2, k - 1);
    }
  }

  /** Bits below `k` do not see what is added above them. */
  lemma {:induction false} BitOfSum(hi: nat, lo: nat, k: nat, i: nat)
    requires i < k
    ensures Bit(hi * Pow2(k) + lo, i) == Bit(lo, i)
    decreases i
  {
    var m := Pow2(k - 1);
    BitOfSumStep(hi, lo, m);
    if i > 0 { BitOfSum(hi, lo / 2, k - 1, i - 1); }
  }

  /** Bit `k` of a sum is the lowest bit of what was added above. */
  lemma {:induction false} TopBitOfSum(hi: nat, lo: nat, k: nat)
    requires lo < Pow2(k)
    ensures Bit(hi * Pow2(k) + lo, k) <==> hi % 2 == 1
    decreases k
  {
    if k > 0 {
      BitOfSumStep(hi, lo, Pow2(k - 1));
      TopBitOfSum(hi, lo / 2, k - 1);
    }
  }

  lemma {:induction false} BitOfSumStep(hi: nat, lo: nat, m: nat)
    ensures (hi * (2 * m) + lo) % 2 == lo % 2
    ensures (hi * (2 * m) + lo) / 2 == hi * m + lo / 2
  {
    MulTwo(hi, m);
    var x := hi * m;
    assert hi * (2 * m) == 2 * x;
  }

  /** The complement within `n` bits. */
  function NotBits(a: nat, n: nat): nat
    requires a < Pow2(n)
  {
    Pow2(n) - 1 - a
  }

  lemma {:induction false} BitOfNot(a: nat, n: nat, i: nat)
    requires a < Pow2(n) && i < n
    ensures Bit(NotBits(a, n), i) <==> !Bit(a, i)
    decreases i
  {
    if i > 0 { BitOfNot(a / 2, n - 1, i - 1); }
  }

  /** The number of set bits. */
  function CountOnes(a: nat): nat {
    if a == 0 then 0 else a % 2 + CountOnes(a / 2)
  }

  lemma {:induction false} CountOnesOfPow2(k: nat)
    ensures CountOnes(Pow2(k)) == 1
  {
    if k > 0 { CountOnesOfPow2(k - 1); }
  }

  function BitSet(a: nat, n: nat): (r: set<nat>)
    ensures forall i :: i in r <==> 0 <= i < n && Bit(a, i)
  {
    set i: nat | 0 <= i < n && Bit(a, i)
  }

  lemma {:induction false} CountOnesIsSize(a: nat, n: nat)
    requires a < Pow2(n)
    ensures CountOnes(a) == |BitSet(a, n)|
    decreases n
  {
    if n == 0 {
      assert BitSet(a, n) == {};
    } else {
      CountOnesIsSize(a / 2, n - 1);
      ShiftedSize(BitSet(a / 2, n - 1));
      assert BitSet(a, n) - {0} == Shifted(BitSet(a / 2, n - 1));
      assert a % 2 == 1 ==> 0 in BitSet(a, n);
      assert a % 2 == 0 ==> BitSet(a, n) - {0} == BitSet(a, n);
    }
  }

  /** The numbers that follow those of `a`. */
  function Shifted(a: set<nat>): (b: set<nat>)
    ensures forall j: nat :: j in b <==> j > 0 && j - 1 in a
  {
    set i | i in a :: i + 1
  }

  lemma {:induction false} ShiftedSize(a: set<nat>)
    ensures |Shifted(a)| == |a|
    decreases a
  {
    if a == {} {
      assert Shifted(a) == {};
    } else {
      var x :| x in a;
      ShiftedSize(a - {x});
      assert Shifted(a) == Shifted(a - {x}) + {x + 1};
    }
  }
}
