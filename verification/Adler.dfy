/** Adler-32: the definition of RFC 1950 and the stage2 loop that reduces each sum at most once
    per byte, adding A to B before A is reduced (boot/stage2.S). */
module Adler {
  import opened Bits
  import opened Bytes

  const BASE: nat := 65521

  // ---------------------------------------------------------------- RFC 1950, sections 2.2 and 8.2

  /** One plus the sum of the bytes. */
  function Sum1(data: bytes): nat {
    if |data| == 0 then 1 else Sum1(data[..|data| - 1]) + data[|data| - 1]
  }

  /** The sum of Sum1 over all nonempty prefixes. */
  function Sum2(data: bytes): nat {
    if |data| == 0 then 0 else Sum2(data[..|data| - 1]) + Sum1(data)
  }

  function RfcA(data: bytes): nat { Sum1(data) % BASE }
  function RfcB(data: bytes): nat { Sum2(data) % BASE }

  function Adler32(data: bytes): (r: nat)
    ensures r < 0x1_0000_0000 && r % 0x1_0000 == Sum1(data) % 65521 && r / 0x1_0000 == Sum2(data) % 65521
  {
    RfcB(data) * 0x1_0000 + RfcA(data)
  }

  // ---------------------------------------------------------------- the stage2 loop

  function Reduce(x: nat): nat { if x < BASE then x else x - BASE }

  /** A and B after the loop has consumed `data`. */
  function Loop(data: bytes): (nat, nat) {
    if |data| == 0 then (1, 0)
    else
      var (a, b) := Loop(data[..|data| - 1]);
      var a1 := a + data[|data| - 1];
      (Reduce(a1), Reduce(b + a1))
  }

  /** The last byte pushes A past the modulus while B is already close to it. */
  predicate LastByteOverflows(data: bytes) {
    && |data| > 0
    && var init, last := data[..|data| - 1], data[|data| - 1] as int;
       RfcA(init) + last >= BASE && RfcB(init) + RfcA(init) + last >= 2 * BASE
  }

  lemma {:induction false} AddMod(x: nat, y: nat, z: nat)
    requires x % BASE == y % BASE
    ensures (x + z) % BASE == (y + z) % BASE
  {
  }

  lemma {:induction false} ReduceMod(x: nat)
    ensures Reduce(x) % BASE == x % BASE
    ensures x < 2 * BASE ==> Reduce(x) == x % BASE
  {
  }

  /** A is exact and B is congruent. */
  lemma {:induction false} LoopCongruent(data: bytes)
    ensures Loop(data).0 == RfcA(data)
    ensures Loop(data).1 % BASE == RfcB(data)
  {
    if |data| > 0 {
      var init, last := data[..|data| - 1], data[|data| - 1] as int;
      LoopCongruent(init);
      var (a, b) := Loop(init);
      AddMod(Sum1(init), a, last);
      ReduceMod(a + last);
      AddMod(Sum2(init), b, Sum1(data));
      AddMod(Sum1(data), a + last, b);
      ReduceMod(b + (a + last));
    }
  }

  /** The bounds one iteration keeps: B passes the modulus only just after A has wrapped. */
  lemma {:induction false} StepBounds(a: nat, b: nat, d: byte)
    requires a < BASE && b <= 65774 && (b >= BASE ==> a <= 254)
    ensures var a1 := a + d; var b1 := Reduce(b + a1);
      && b1 <= 65774 && (b1 >= BASE ==> Reduce(a1) <= 254)
      && (b1 >= BASE <==> a1 >= BASE && b < BASE && b + a1 >= 2 * BASE)
      && (b >= BASE ==> a1 < BASE)
  {
  }

  /** A is exact; B is congruent, at most 65774, and unreduced exactly when the last byte overflows. */
  lemma {:induction false} LoopInvariant(data: bytes)
    ensures Loop(data).0 == RfcA(data)
    ensures Loop(data).1 % BASE == RfcB(data) && Loop(data).1 <= 65774
    ensures Loop(data).1 >= BASE <==> LastByteOverflows(data)
    ensures Loop(data).1 >= BASE ==> Loop(data).0 <= 254
  {
    LoopCongruent(data);
    if |data| > 0 {
      var init, last := data[..|data| - 1], data[|data| - 1];
      LoopInvariant(init);
      StepBounds(Loop(init).0, Loop(init).1, last);
      LoopCongruent(init);
      ReduceMod(Loop(init).1);
    }
  }

  function Packed(data: bytes): nat {
    var (a, b) := Loop(data);
    if |data| == 0 then a else Or(Wrap32(b * 0x1_0000), a)
  }

  lemma {:induction false} PackWords(hi: nat, lo: nat)
    requires lo < 0x1_0000
    ensures Or(hi * 0x1_0000, lo) == hi * 0x1_0000 + lo
    ensures hi < 0x1_0000 ==> hi * 0x1_0000 + lo < 0x1_0000_0000
  {
    Powers();
    OrShifted(hi, 16, lo);
  }

  lemma {:induction false} PackedValue(data: bytes)
    ensures Packed(data) == Loop(data).1 % 0x1_0000 * 0x1_0000 + Loop(data).0
  {
    LoopInvariant(data);
    if |data| > 0 {
      var (a, b) := Loop(data);
      ShiftDrops(b);
      PackWords(b % 0x1_0000, a);
    }
  }

  lemma {:induction false} ShiftDrops(b: nat)
    ensures Wrap32(b * 0x1_0000) == b % 0x1_0000 * 0x1_0000
  {
  }

  /** The register value equals the RFC checksum if and only if the last byte does not overflow. */
  lemma {:induction false} PackedIsAdler32(data: bytes)
    ensures Packed(data) == Adler32(data) <==> !LastByteOverflows(data)
  {
    PackedValue(data);
    LoopInvariant(data);
    var b := Loop(data).1;
    if b < BASE {
      assert b % BASE == b && b % 0x1_0000 == b;
    } else {
      assert b % BASE == b - BASE && b % 0x1_0000 != b - BASE;
    }
  }

  /** A trailing zero byte is enough. */
  lemma {:induction false} ZeroEndIsSafe(data: bytes)
    requires |data| > 0 && data[|data| - 1] == 0
    ensures !LastByteOverflows(data)
  {
  }

  lemma {:induction false} PaddedIsAdler32(data: bytes)
    requires |data| > 0 && data[|data| - 1] == 0
    ensures Packed(data) == Adler32(data)
  {
    PackedIsAdler32(data);
  }

  function Run(v: byte, n: nat): bytes { seq(n, _ => v) }

  function Triangle(n: nat): nat { if n == 0 then 0 else Triangle(n - 1) + n }

  lemma {:induction false} TriangleClosed(n: nat)
    ensures 2 * Triangle(n) == n * (n + 1)
  {
    if n > 0 {
      TriangleClosed(n - 1);
      assert n * (n + 1) == (n - 1) * n + 2 * n;
    }
  }

  lemma {:induction false} MulStep(v: nat, n: nat)
    requires n > 0
    ensures v * n == v * (n - 1) + v
  {
  }

  lemma {:induction false} Distribute(v: nat, x: nat, y: nat)
    ensures v * (x + y) == v * x + v * y
  {
  }

  lemma {:induction false} Sum1AfterRun(x: bytes, v: byte, n: nat)
    ensures Sum1(x + Run(v, n)) == Sum1(x) + v * n
  {
    if n == 0 {
      assert x + Run(v, 0) == x;
    } else {
      assert (x + Run(v, n))[..|x| + n - 1] == x + Run(v, n - 1);
      Sum1AfterRun(x, v, n - 1);
      MulStep(v, n);
    }
  }

  lemma {:induction false} Sum2AfterRun(x: bytes, v: byte, n: nat)
    ensures Sum2(x + Run(v, n)) == Sum2(x) + Sum1(x) * n + v * Triangle(n)
  {
    if n == 0 {
      assert x + Run(v, 0) == x;
    } else {
      assert (x + Run(v, n))[..|x| + n - 1] == x + Run(v, n - 1);
      Sum1AfterRun(x, v, n);
      Sum2AfterRun(x, v, n - 1);
      MulStep(Sum1(x), n);
      Distribute(v, Triangle(n - 1), n);
    }
  }

  /** A sector on which the stage2 register value is not the RFC checksum. */
  lemma {:induction false} OverflowHappens()
    ensures var data := Run(0, 254) + Run(255, 208) + Run(253, 49) + [255];
            |data| == 512 && LastByteOverflows(data) && Packed(data) != Adler32(data)
  {
    var x := Run(0, 254) + Run(255, 208);
    var init := x + Run(253, 49);
    assert [] + Run(0, 254) == Run(0, 254);
    TriangleClosed(208);
    TriangleClosed(49);
    Sum1AfterRun([], 0, 254);
    Sum2AfterRun([], 0, 254);
    Sum1AfterRun(Run(0, 254), 255, 208);
    Sum2AfterRun(Run(0, 254), 255, 208);
    Sum1AfterRun(x, 253, 49);
    Sum2AfterRun(x, 253, 49);
    assert (init + [255])[..511] == init;
    PackedIsAdler32(init + [255]);
  }

  lemma {:induction false} LoopStep(data: bytes, k: nat)
    requires k < |data|
    ensures var (a, b) := Loop(data[..k]); var a1 := a + data[k];
      && Loop(data[..k + 1]) == (Reduce(a1), Reduce(b + a1)) && a < BASE && b <= 65774
  {
    assert data[..k + 1][..k] == data[..k];
    LoopInvariant(data[..k]);
  }

  lemma {:induction false} RfcStep(data: bytes, k: nat, a: nat, b: nat)
    requires k < |data| && a == RfcA(data[..k]) && b == RfcB(data[..k])
    ensures RfcA(data[..k + 1]) == (a + data[k]) % BASE
    ensures RfcB(data[..k + 1]) == (b + (a + data[k]) % BASE) % BASE
  {
    var init, more := data[..k], data[..k + 1];
    assert more[..k] == init;
    AddMod(Sum1(init), a, data[k]);
    AddMod(Sum2(init), b, Sum1(more));
    AddMod(Sum1(more), RfcA(more), b);
  }

  /** One pass of `adler_loop`. */
  method AdlerByte(a: nat, b: nat, edx: nat) returns (eax: nat, edi: nat)
    requires a < BASE && b <= 65774 && edx < 256
    ensures eax == Reduce(a + edx) && edi == Reduce(b + (a + edx))
  {
    eax := Wrap32(a + edx);
    edi := Wrap32(b + eax);
    if eax >= BASE {
      eax := eax - BASE;
    }
    if edi >= BASE {
      edi := edi - BASE;
    }
  }

  /** `qizo_adler`: eax holds A, edi holds B, both 32 bits wide; the shift drops bit 16 of B. */
  method QizoAdler(mem: bytes, esi0: nat, ecx0: nat) returns (eax: nat)
    requires esi0 + ecx0 <= |mem| <= 0x1_0000_0000
    ensures eax == Packed(mem[esi0..esi0 + ecx0])
  {
    eax := 1;
    var edi: nat := 0;
    var esi, ecx := esi0, ecx0;
    ghost var data := mem[esi0..esi0 + ecx0];
    if ecx == 0 {
      return;
    }
    while ecx != 0
      invariant 0 <= ecx <= ecx0 && esi == esi0 + (ecx0 - ecx)
      invariant (eax, edi) == Loop(data[..ecx0 - ecx])
    {
      LoopStep(data, ecx0 - ecx);
      var edx: nat := mem[esi];
      assert edx == data[ecx0 - ecx];
      eax, edi := AdlerByte(eax, edi, edx);
      esi := esi + 1;
      ecx := ecx - 1;
    }
    assert data[..ecx0] == data;
    edi := Wrap32(edi * 0x1_0000);
    eax := Or(edi, eax);
  }

  /** The simple loop the checks compare against: both sums reduced after every byte. */
  method HandAdler(data: bytes) returns (r: nat)
    ensures r == Adler32(data)
  {
    var a: nat, b: nat := 1, 0;
    for i := 0 to |data|
      invariant a == RfcA(data[..i]) && b == RfcB(data[..i])
    {
      RfcStep(data, i, a, b);
      a := (a + data[i]) % BASE;
      b := (b + a) % BASE;
    }
    assert data[..|data|] == data;
    PackWords(b, a);
    return Wrap32(Or(b * 0x1_0000, a));
  }
}
