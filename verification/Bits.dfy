/** Bitwise arithmetic on natural numbers: the shifts, masks and flag words that the
    codec, the allocator bitmap and the page tables are written with. */
module Bits {
  type byte = x: int | 0 <= x < 256
  type u64 = x: int | 0 <= x < 0x1_0000_0000_0000_0000

  /** 32-bit register arithmetic. */
  function Wrap32(x: nat): (r: nat)
    ensures r < 0x1_0000_0000 && (x < 0x1_0000_0000 ==> r == x)
  {
    if x < 0x1_0000_0000 then x else x % 0x1_0000_0000
  }

  function Pow2(n: nat): (r: nat)
    ensures r >= 1
  {
    if n == 0 then 1 else 2 * Pow2(n - 1)
  }

  /** Bit i of x is one. */
  predicate Bit(x: nat, i: nat) {
    if i == 0 then x % 2 == 1 else Bit(x / 2, i - 1)
  }

  function Or(x: nat, y: nat): nat {
    if x == 0 then y
    else if y == 0 then x
    else 2 * Or(x / 2, y / 2) + (if x % 2 == 1 || y % 2 == 1 then 1 else 0)
  }

  function And(x: nat, y: nat): nat {
    if x == 0 || y == 0 then 0
    else 2 * And(x / 2, y / 2) + (if x % 2 == 1 && y % 2 == 1 then 1 else 0)
  }

  lemma {:induction false} ZeroHasNoBits(i: nat)
    ensures !Bit(0, i)
  {
    if i > 0 { ZeroHasNoBits(i - 1); }
  }

  lemma {:induction false} BitOr(x: nat, y: nat, i: nat)
    ensures Bit(Or(x, y), i) == (Bit(x, i) || Bit(y, i))
  {
    ZeroHasNoBits(i);
    if x != 0 && y != 0 && i > 0 { BitOr(x / 2, y / 2, i - 1); }
  }

  lemma {:induction false} BitAnd(x: nat, y: nat, i: nat)
    ensures Bit(And(x, y), i) == (Bit(x, i) && Bit(y, i))
  {
    ZeroHasNoBits(i);
    if x != 0 && y != 0 && i > 0 { BitAnd(x / 2, y / 2, i - 1); }
  }

  lemma {:induction false} BitPow2(k: nat, i: nat)
    ensures Bit(Pow2(k), i) == (k == i)
  {
    if k == 0 {
      if i > 0 { assert Pow2(k) / 2 == 0; ZeroHasNoBits(i - 1); }
    } else if i > 0 {
      BitPow2(k - 1, i - 1);
    }
  }

  /** The C test `x & (1 << k)` reads bit k. */
  lemma {:induction false} TestBit(x: nat, k: nat)
    ensures (And(x, Pow2(k)) != 0) == Bit(x, k)
  {
    if k > 0 {
      assert Pow2(k) / 2 == Pow2(k - 1);
      TestBit(x / 2, k - 1);
      if x == 0 { ZeroHasNoBits(k); }
    }
  }

  lemma {:induction false} HalfComplement(p: nat, m: nat)
    requires m < 2 * p
    ensures (2 * p - 1 - m) / 2 == p - 1 - m / 2
  {
  }

  /** Complement of an n-bit word. */
  lemma {:induction false} BitComplement(n: nat, m: nat, i: nat)
    requires m < Pow2(n) && i < n
    ensures Pow2(n) - 1 - m >= 0 && Bit(Pow2(n) - 1 - m, i) == !Bit(m, i)
  {
    if i > 0 {
      HalfComplement(Pow2(n - 1), m);
      BitComplement(n - 1, m / 2, i - 1);
    }
  }

  lemma {:induction false} OrBound(x: nat, y: nat, n: nat)
    requires x < Pow2(n) && y < Pow2(n)
    ensures Or(x, y) < Pow2(n)
  {
    if n > 0 && x != 0 && y != 0 { OrBound(x / 2, y / 2, n - 1); }
  }

  lemma {:induction false} AndBound(x: nat, y: nat)
    ensures And(x, y) <= x
  {
    if x != 0 && y != 0 { AndBound(x / 2, y / 2); }
  }

  lemma {:induction false} TimesDouble(x: nat, p: nat)
    ensures x * p >= 0 && x * (2 * p) == 2 * (x * p)
  {
  }

  lemma {:induction false} OrDoubled(n: nat, y: nat)
    ensures Or(2 * n, y) == 2 * Or(n, y / 2) + y % 2
  {
  }

  lemma {:induction false} AndEven(x: nat, m: nat)
    ensures And(x, 2 * m) == 2 * And(x / 2, m)
  {
  }

  lemma {:induction false} AndQuad(x: nat, m: nat)
    ensures And(x, 4 * m) == 4 * And(x / 4, m)
  {
    AndEven(x, 2 * m);
    AndEven(x / 2, m);
  }

  lemma {:induction false} AndSixteen(x: nat, m: nat)
    ensures And(x, 16 * m) == 16 * And(x / 16, m)
  {
    AndQuad(x, 4 * m);
    AndQuad(x / 4, m);
    assert x / 4 / 4 == x / 16;
  }

  /** A mask shifted left by six tests the bits from the sixth on. */
  lemma {:induction false} AndShiftedSix(x: nat, m: nat)
    ensures And(x, 64 * m) == 64 * And(x / 64, m)
  {
    AndQuad(x, 16 * m);
    AndSixteen(x / 4, m);
    assert x / 4 / 16 == x / 64;
  }

  lemma {:induction false} AndDoubled(x: nat, m: nat)
    ensures And(x, 2 * m + 1) == 2 * And(x / 2, m) + x % 2
  {
  }

  /** Or-ing a value into the zeros left by a shift is addition. */
  lemma {:induction false} OrShifted(x: nat, k: nat, y: nat)
    requires y < Pow2(k)
    ensures x * Pow2(k) >= 0 && Or(x * Pow2(k), y) == x * Pow2(k) + y
  {
    if k > 0 {
      OrShifted(x, k - 1, y / 2);
      TimesDouble(x, Pow2(k - 1));
      OrDoubled(x * Pow2(k - 1), y);
    }
  }

  lemma {:induction false} AndMask(x: nat, k: nat)
    ensures And(x, Pow2(k) - 1) == x % Pow2(k)
  {
    if k > 0 {
      AndMask(x / 2, k - 1);
      MaskStep(x, Pow2(k - 1));
    }
  }

  lemma {:induction false} MaskStep(x: nat, p: nat)
    requires p >= 1 && And(x / 2, p - 1) == x / 2 % p
    ensures And(x, 2 * p - 1) == x % (2 * p)
  {
    AndDoubled(x, p - 1);
    HalfMod(x, p);
  }

  lemma {:induction false} HalfMod(x: nat, p: nat)
    requires p >= 1
    ensures x % (2 * p) == 2 * (x / 2 % p) + x % 2 && x / (2 * p) == x / 2 / p
  {
    var q, r := x / 2 / p, x / 2 % p;
    assert x / 2 == q * p + r;
    assert x == q * (2 * p) + (2 * r + x % 2) by {
      assert 2 * (q * p) == q * (2 * p);
    }
    ModUnique(x, 2 * p, q, 2 * r + x % 2);
  }

  /** Bit i is the parity of x divided by the i-th power of two. */
  lemma {:induction false} BitAt(x: nat, i: nat)
    ensures Bit(x, i) <==> x / Pow2(i) % 2 == 1
  {
    if i > 0 {
      BitAt(x / 2, i - 1);
      HalfMod(x, Pow2(i - 1));
    }
  }

  lemma {:induction false} ModUnique(x: int, d: int, q: int, r: int)
    requires d > 0 && 0 <= r < d && x == q * d + r
    ensures x / d == q && x % d == r
  {
    var q', r' := x / d, x % d;
    assert x == q' * d + r';
    assert (q - q') * d == r' - r;
    MultipleGap(q - q', d);
  }

  lemma {:induction false} MultipleGap(k: int, d: int)
    requires d > 0
    ensures k == 0 || k * d >= d || k * d <= -d
  {
    if k > 0 { assert k * d >= 1 * d; }
    if k < 0 { assert k * d <= -1 * d; }
  }

  lemma {:induction false} Powers()
    ensures Pow2(1) == 2 && Pow2(2) == 4 && Pow2(3) == 8 && Pow2(4) == 16 && Pow2(5) == 32
    ensures Pow2(6) == 64 && Pow2(7) == 128 && Pow2(8) == 256 && Pow2(16) == 0x1_0000
    ensures Pow2(12) == 0x1000 && Pow2(21) == 0x20_0000 && Pow2(32) == 0x1_0000_0000
    ensures Pow2(64) == 0x1_0000_0000_0000_0000
  {
    PowerSum(8, 4);
    PowerSum(8, 8);
    PowerSum(16, 5);
    PowerSum(16, 16);
    PowerSum(32, 32);
  }

  lemma {:induction false} PowerSum(a: nat, b: nat)
    ensures Pow2(a + b) == Pow2(a) * Pow2(b)
  {
    if b > 0 { PowerSum(a, b - 1); }
  }

  lemma {:induction false} PowMonotone(a: nat, b: nat)
    requires a < b
    ensures Pow2(a) < Pow2(b)
  {
    if a < b - 1 { PowMonotone(a, b - 1); }
  }
}
