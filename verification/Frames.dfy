/** The allocator's bitmap: 64-bit words on one side, the set of free frames on the other. */
module Frames {
  import opened Bits

  const PAGE: nat := 4096
  const MAX_FRAMES: nat := 512 * 512
  const WORDS: nat := MAX_FRAMES / 64 + 2
  const MODULUS: nat := 0x1_0000_0000_0000_0000

  /** Unsigned 64-bit arithmetic. */
  function Wrap64(x: int): (r: u64)
    ensures 0 <= x < MODULUS ==> r == x
  {
    if 0 <= x < MODULUS then x else x % MODULUS
  }

  predicate IsSet(words: seq<u64>, f: nat)
    requires f / 64 < |words|
  {
    Bit(words[f / 64], f % 64)
  }

  /** Frames below `total` whose bit is set. */
  function FreeSet(words: seq<u64>, total: nat): set<nat>
    requires total <= 64 * |words|
  {
    set f: nat | f < total && IsSet(words, f)
  }

  /** A word with bit k set or cleared, as the C code computes it. */
  function MarkWord(w: u64, k: nat, good: bool): nat
    requires k < 64
  {
    MaskFits(k);
    if good then Or(w, Pow2(k)) else And(w, MODULUS - 1 - Pow2(k))
  }

  lemma {:induction false} MaskFits(k: nat)
    requires k < 64
    ensures Pow2(k) < MODULUS
  {
    Powers();
    PowMonotone(k, 64);
  }

  lemma {:induction false} MarkWordBits(w: u64, k: nat, good: bool, i: nat)
    requires k < 64 && i < 64
    ensures MarkWord(w, k, good) < MODULUS
    ensures Bit(MarkWord(w, k, good), i) == if i == k then good else Bit(w, i)
  {
    MaskFits(k);
    Powers();
    BitPow2(k, i);
    if good {
      OrBound(w, Pow2(k), 64);
      BitOr(w, Pow2(k), i);
    } else {
      AndBound(w, MODULUS - 1 - Pow2(k));
      BitComplement(64, Pow2(k), i);
      BitAnd(w, MODULUS - 1 - Pow2(k), i);
    }
  }

  function Marked(words: seq<u64>, f: nat, good: bool): seq<u64>
    requires f / 64 < |words|
  {
    MarkWordBits(words[f / 64], f % 64, good, 0);
    words[f / 64 := MarkWord(words[f / 64], f % 64, good)]
  }

  lemma {:induction false} MarkedBit(words: seq<u64>, f: nat, good: bool, g: nat)
    requires f / 64 < |words| && g / 64 < |words|
    ensures IsSet(Marked(words, f, good), g) == if g == f then good else IsSet(words, g)
  {
    MarkWordBits(words[f / 64], f % 64, good, g % 64);
  }

  /** Marking one frame adds it to the set or takes it out, and touches no other. */
  lemma {:induction false} FreeMarked(words: seq<u64>, f: nat, good: bool, total: nat)
    requires f < total <= 64 * |words|
    ensures FreeSet(Marked(words, f, good), total) ==
            if good then FreeSet(words, total) + {f} else FreeSet(words, total) - {f}
  {
    forall g: nat | g < total
      ensures IsSet(Marked(words, f, good), g) == if g == f then good else IsSet(words, g)
    {
      MarkedBit(words, f, good, g);
    }
  }

  lemma {:induction false} NoneSet(words: seq<u64>, total: nat)
    requires total <= 64 * |words| && forall i :: 0 <= i < |words| ==> words[i] == 0
    ensures FreeSet(words, total) == {}
  {
    forall f: nat | f < total
      ensures !IsSet(words, f)
    {
      ZeroHasNoBits(f % 64);
    }
  }

  /** Counting set bits one by one gives the size of the set. */
  lemma {:induction false} CountStep(words: seq<u64>, n: nat)
    requires n < 64 * |words|
    ensures |FreeSet(words, n + 1)| == |FreeSet(words, n)| + (if IsSet(words, n) then 1 else 0)
  {
    assert FreeSet(words, n + 1) == FreeSet(words, n) + (if IsSet(words, n) then {n} else {});
  }

  // ---------------------------------------------------------------- runs of frames

  predicate InRun(first: nat, n: nat, f: nat) { first <= f < first + n }

  predicate Between(lo: nat, f: nat, hi: nat) { lo <= f < hi }

  /** The frames first, ..., first + n - 1. */
  function Run(first: nat, n: nat): set<nat> {
    set f: nat | f < first + n && InRun(first, n, f)
  }

  /** The frames below total that a loop over n 64-bit frame numbers from `first` reaches, those
      after the wrap to zero included. */
  function Touched(first: nat, n: nat, total: nat): set<nat> {
    set f: nat | f < total && (InRun(first, n, f) || Between(0, f, Past(first, n)))
  }

  /** How far the loop runs past the largest frame number. */
  function Past(first: nat, n: nat): nat { if first + n <= MODULUS then 0 else first + n - MODULUS }

  lemma {:induction false} TouchedStep(first: u64, n: nat, total: nat)
    requires total <= MODULUS && n < MODULUS
    ensures var f := Wrap64(first + n);
      Touched(first, n + 1, total) == Touched(first, n, total) + (if f < total then {f} else {})
  {
  }

  lemma {:induction false} TouchedRun(first: nat, n: nat, total: nat)
    requires first + n <= total <= MODULUS
    ensures Touched(first, n, total) == Run(first, n)
  {
  }

  lemma {:induction false} RunSize(first: nat, n: nat)
    ensures |Run(first, n)| == n
  {
    if n == 0 {
      assert Run(first, 0) == {};
    } else {
      RunSize(first, n - 1);
      assert Run(first, n) == Run(first, n - 1) + {first + n - 1};
    }
  }

  /** The frames a byte range touches, rounded outward to pages, below total. */
  function RangeFrames(base: u64, len: u64, total: nat): set<nat> {
    var last := Wrap64(base + len + PAGE - 1) / PAGE;
    set f: nat | f < total && Between(base / PAGE, f, last)
  }
}
