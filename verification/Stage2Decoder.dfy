/** `qizo_decompress` of boot/stage2.S in LZSS mode: a flat loop that tests one flag bit per pass,
    with the mask in ebx, the flag byte in ebp, the source in esi and the output in edi. */
module Stage2Decoder {
  import opened Bits
  import opened Bytes
  import opened LzssFormat
  import opened Memory

  /** Appending one byte at the end of the output region. */
  lemma {:induction false} WriteExtends(mem: bytes, base: nat, edi: nat, al: byte)
    requires base <= edi < |mem|
    ensures mem[edi := al][base..edi + 1] == mem[base..edi] + [al]
  {
  }

  lemma {:induction false} GrowOutput(mem: bytes, was: bytes, base: nat, edi: nat, al: byte)
    requires ChangedOnly(mem, was, base, edi) && edi < |mem|
    ensures ChangedOnly(mem[edi := al], was, base, edi + 1)
  {
    assert mem[edi..][1..] == mem[edi + 1..];
  }

  /** The input region is apart from the output region, so it still holds the stream. */
  lemma {:induction false} InputKept(mem: bytes, was: bytes, base: nat, edi: nat, a: nat, b: nat)
    requires ChangedOnly(mem, was, base, edi) && a <= b <= |mem| && (b <= base || edi <= a)
    ensures mem[a..b] == was[a..b]
  {
    StillHas(mem, was, base, edi, a, was[a..b]);
  }

  /** `decomp_copy`: copy `count` bytes from `off` bytes back, one at a time. */
  method CopyLoop(m: Mem, base: nat, edi0: nat, off: nat, count: nat) returns (edi: nat)
    requires base + off <= edi0 && 1 <= off && 1 <= count && edi0 + count <= |m.buf|
    modifies m
    ensures edi == edi0 + count && |m.buf| == |old(m.buf)|
    ensures m.buf[base..edi] == CopyBack(old(m.buf[base..edi0]), off, count)
    ensures ChangedOnly(m.buf, old(m.buf), edi0, edi)
  {
    edi := edi0;
    var left := count;
    while left != 0
      invariant 0 <= left <= count && edi == edi0 + count - left
      invariant ChangedOnly(m.buf, old(m.buf), edi0, edi)
      invariant CopyBack(m.buf[base..edi], off, left) == CopyBack(old(m.buf[base..edi0]), off, count)
    {
      var al := m.buf[edi - off];
      assert m.buf[base..edi][|m.buf[base..edi]| - off] == al;
      WriteExtends(m.buf, base, edi, al);
      GrowOutput(m.buf, old(m.buf), edi0, edi, al);
      m.buf := m.buf[edi := al];
      edi := edi + 1;
      left := left - 1;
    }
  }

  /** What one step of the reference decoder promises in a well-formed stream. */
  lemma {:induction false} StepInside(src: bytes, total: nat, d: Dec)
    requires WellFormedFrom(src, total, d) && |d.out| < total && d.bit < 8
    ensures d.pos < |src|
    ensures And(d.flags, Pow2(d.bit)) == 0 ==>
              Step(src, d) == Ok(Dec(d.pos + 1, d.flags, d.bit + 1, d.out + [src[d.pos]]))
    ensures And(d.flags, Pow2(d.bit)) != 0 ==>
              && d.pos + 2 <= |src| && var tok := U16(src, d.pos);
              && 1 <= TokenOff(tok) <= |d.out| && 3 <= TokenLen(tok) <= 18
              && Step(src, d) == Ok(Dec(d.pos + 2, d.flags, d.bit + 1,
                                        CopyBack(d.out, TokenOff(tok), TokenLen(tok))))
  {
    if And(d.flags, Pow2(d.bit)) != 0 {
      var tok := U16(src, d.pos);
      TokenComplete(tok);
      PyCopyIsCopyBack(d.out, TokenOff(tok), TokenLen(tok));
    }
  }

  /** The machine state mirrors the reference decoder state d. */
  ghost predicate Mirrors(mem: bytes, was: bytes, src: bytes, total: nat, d: Dec,
                          esi0: nat, base: nat, esi: nat, edi: nat, ebp: nat)
  {
    && ChangedOnly(mem, was, base, edi) && base + total + 17 <= |mem| && edi <= base + total + 17
    && d.pos <= |src| && esi == esi0 + d.pos && ebp == d.flags && d.bit <= 8
    && mem[base..edi] == d.out
    && WellFormedFrom(src, total, d) && Run(src, total, d) == Decompressed(src)
  }

  /** The stream lies in memory, apart from anything the decoder may write. */
  ghost predicate Placed(was: bytes, src: bytes, total: nat, esi0: nat, base: nat) {
    && esi0 + |src| <= |was| && was[esi0..esi0 + |src|] == src && base + total + 17 <= |was|
    && (esi0 + |src| <= base || base + total + 17 <= esi0)
  }

  lemma {:induction false} StreamReads(mem: bytes, was: bytes, src: bytes, total: nat, esi0: nat, base: nat, edi: nat, pos: nat)
    requires Placed(was, src, total, esi0, base) && ChangedOnly(mem, was, base, edi)
    requires edi <= base + total + 17 && pos < |src|
    ensures mem[esi0 + pos] == src[pos]
    ensures pos + 2 <= |src| ==> U16(mem, esi0 + pos) == U16(src, pos)
  {
    InputKept(mem, was, base, edi, esi0, esi0 + |src|);
    var view := mem[esi0..esi0 + |src|];
    assert view[pos] == mem[esi0 + pos];
    if pos + 2 <= |src| { assert view[pos + 1] == mem[esi0 + pos + 1]; }
  }

  lemma {:induction false} CopyMirrors(mem: bytes, mem': bytes, was: bytes, base: nat, edi: nat, edi': nat)
    requires ChangedOnly(mem, was, base, edi) && ChangedOnly(mem', mem, edi, edi')
    ensures ChangedOnly(mem', was, base, edi')
  {
    InputKept(mem', mem, edi, edi', 0, base);
    assert mem[..base] == mem[0..base] && mem'[..base] == mem'[0..base];
    assert mem[edi'..] == mem[edi..][edi' - edi..] == was[edi..][edi' - edi..] == was[edi'..];
  }

  lemma {:induction false} MirrorsNext(mem: bytes, was: bytes, src: bytes, total: nat, d: Dec, d': Dec, esi0: nat, base: nat,
                                       esi: nat, edi: nat, ebp: nat, mem': bytes, edi': nat)
    requires Mirrors(mem, was, src, total, d, esi0, base, esi, edi, ebp)
    requires |d.out| < total && d.bit < 8 && Step(src, d) == Ok(d') && |d'.out| <= |d.out| + 18
    requires ChangedOnly(mem', was, base, edi') && mem'[base..edi'] == d'.out
    ensures Mirrors(mem', was, src, total, d', esi0, base, esi0 + d'.pos, edi', ebp)
  {
  }

  /** The state in which `decomp_item` is reached. */
  ghost predicate AtItem(mem: bytes, was: bytes, src: bytes, total: nat, d: Dec,
                         esi0: nat, base: nat, esi: nat, edi: nat, ebp: nat)
  {
    && Placed(was, src, total, esi0, base) && d.bit < 8 && edi < base + total
    && Mirrors(mem, was, src, total, d, esi0, base, esi, edi, ebp)
  }

  lemma {:induction false} LiteralMirrors(mem: bytes, was: bytes, src: bytes, total: nat, d: Dec,
                                          esi0: nat, base: nat, esi: nat, edi: nat, ebp: nat)
    requires AtItem(mem, was, src, total, d, esi0, base, esi, edi, ebp) && And(d.flags, Pow2(d.bit)) == 0
    ensures esi < |mem| && edi < |mem| && Step(src, d).Ok?
    ensures Mirrors(mem[edi := mem[esi]], was, src, total, Step(src, d).value, esi0, base, esi + 1, edi + 1, ebp)
  {
    StepInside(src, total, d);
    StreamReads(mem, was, src, total, esi0, base, edi, d.pos);
    WriteExtends(mem, base, edi, mem[esi]);
    GrowOutput(mem, was, base, edi, mem[esi]);
    MirrorsNext(mem, was, src, total, d, Step(src, d).value, esi0, base, esi, edi, ebp, mem[edi := mem[esi]], edi + 1);
  }

  lemma {:induction false} MatchReady(mem: bytes, was: bytes, src: bytes, total: nat, d: Dec,
                                      esi0: nat, base: nat, esi: nat, edi: nat, ebp: nat)
    requires AtItem(mem, was, src, total, d, esi0, base, esi, edi, ebp) && And(d.flags, Pow2(d.bit)) != 0
    ensures d.pos + 2 <= |src| && esi + 2 <= |mem| && U16(mem, esi) == U16(src, d.pos)
    ensures var tok := U16(mem, esi);
      && 1 <= TokenOff(tok) && base + TokenOff(tok) <= edi
      && 1 <= TokenLen(tok) <= 18 && edi + TokenLen(tok) <= |mem|
      && Step(src, d) == Ok(Dec(d.pos + 2, d.flags, d.bit + 1, CopyBack(mem[base..edi], TokenOff(tok), TokenLen(tok))))
  {
    StepInside(src, total, d);
    StreamReads(mem, was, src, total, esi0, base, edi, d.pos);
  }

  lemma {:induction false} MatchMirrors(mem: bytes, was: bytes, src: bytes, total: nat, d: Dec, esi0: nat, base: nat,
                                        esi: nat, edi: nat, ebp: nat, mem': bytes, edi': nat, out: bytes)
    requires AtItem(mem, was, src, total, d, esi0, base, esi, edi, ebp)
    requires ChangedOnly(mem', mem, edi, edi') && edi' <= edi + 18
    requires mem'[base..edi'] == out && Step(src, d) == Ok(Dec(d.pos + 2, d.flags, d.bit + 1, out))
    ensures Mirrors(mem', was, src, total, Step(src, d).value, esi0, base, esi + 2, edi', ebp)
  {
    CopyMirrors(mem, mem', was, base, edi, edi');
    MirrorsNext(mem, was, src, total, d, Step(src, d).value, esi0, base, esi, edi, ebp, mem', edi');
  }

  /** `decomp_match`: read the token, copy. */
  method DecompMatch(m: Mem, base: nat, esi0: nat, edi0: nat) returns (esi: nat, edi: nat)
    requires base <= edi0 && esi0 + 2 <= |m.buf|
    requires var tok := U16(m.buf, esi0);
      base + TokenOff(tok) <= edi0 && 1 <= TokenOff(tok) && 1 <= TokenLen(tok) && edi0 + TokenLen(tok) <= |m.buf|
    modifies m
    ensures esi == esi0 + 2 && edi == edi0 + TokenLen(old(U16(m.buf, esi0)))
    ensures ChangedOnly(m.buf, old(m.buf), edi0, edi)
    ensures var tok := old(U16(m.buf, esi0));
      m.buf[base..edi] == CopyBack(old(m.buf[base..edi0]), TokenOff(tok), TokenLen(tok))
  {
    var eax := U16(m.buf, esi0);
    esi := esi0 + 2;
    edi := CopyLoop(m, base, edi0, eax / 16 + 1, And(eax, 15) + 3);
  }

  /** `decomp_item`: one literal or one match. */
  method DecompItem(m: Mem, ghost was: bytes, ghost src: bytes, ghost total: nat, ghost d: Dec,
                    ghost start: nat, base: nat, esi0: nat, edi0: nat, ebx: nat, ebp: nat)
    returns (esi: nat, edi: nat)
    requires AtItem(m.buf, was, src, total, d, start, base, esi0, edi0, ebp) && ebx == Pow2(d.bit)
    modifies m
    ensures Step(src, d).Ok? && Step(src, d).value.bit == d.bit + 1 && Step(src, d).value.pos > d.pos
    ensures Mirrors(m.buf, was, src, total, Step(src, d).value, start, base, esi, edi, ebp)
  {
    StepInside(src, total, d);
    if And(ebp, ebx) != 0 {
      MatchReady(m.buf, was, src, total, d, start, base, esi0, edi0, ebp);
      ghost var tok := U16(m.buf, esi0);
      ghost var out := CopyBack(m.buf[base..edi0], TokenOff(tok), TokenLen(tok));
      esi, edi := DecompMatch(m, base, esi0, edi0);
      MatchMirrors(old(m.buf), was, src, total, d, start, base, esi0, edi0, ebp, m.buf, edi, out);
    } else {
      LiteralMirrors(m.buf, was, src, total, d, start, base, esi0, edi0, ebp);
      var al := m.buf[esi0];
      esi := esi0 + 1;
      m.buf := m.buf[edi0 := al];
      edi := edi0 + 1;
    }
  }

  /** `decomp_refill`. */
  lemma {:induction false} RefillMirrors(mem: bytes, was: bytes, src: bytes, total: nat, d: Dec, esi0: nat, base: nat,
                                         esi: nat, edi: nat, ebp: nat)
    requires Placed(was, src, total, esi0, base)
    requires Mirrors(mem, was, src, total, d, esi0, base, esi, edi, ebp) && d.bit == 8 && edi < base + total
    ensures esi < |mem| && d.pos < |src|
    ensures Mirrors(mem, was, src, total, Dec(d.pos + 1, src[d.pos], 0, d.out),
                    esi0, base, esi + 1, edi, mem[esi])
  {
    StreamReads(mem, was, src, total, esi0, base, edi, d.pos);
  }

  lemma {:induction false} StartMirrors(was: bytes, src: bytes, esi0: nat, base: nat)
    requires WellFormed(src) && Placed(was, src, U32(src, 4), esi0, base)
    ensures U32(was, esi0 + 4) == U32(src, 4)
    ensures Mirrors(was, was, src, U32(src, 4), Dec(8, 0, 8, []), esi0, base, esi0 + 8, base, 0)
  {
    assert was[esi0..esi0 + |src|][4..8] == was[esi0 + 4..esi0 + 8] == src[4..8];
  }

  lemma {:induction false} EndMirrors(mem: bytes, was: bytes, src: bytes, total: nat, d: Dec, esi0: nat, base: nat,
                                      esi: nat, edi: nat, ebp: nat)
    requires Mirrors(mem, was, src, total, d, esi0, base, esi, edi, ebp) && edi >= base + total
    ensures Decompressed(src) == Ok(mem[base..edi]) && total <= edi - base <= total + 17
  {
  }

  /** The state in which `decomp_top` is reached: the mask holds the flag bit used last. */
  ghost predicate AtTop(mem: bytes, was: bytes, src: bytes, total: nat, d: Dec,
                        esi0: nat, base: nat, esi: nat, edi: nat, ebx: nat, ebp: nat)
  {
    && Placed(was, src, total, esi0, base) && 1 <= d.bit && ebx == Pow2(d.bit - 1)
    && Mirrors(mem, was, src, total, d, esi0, base, esi, edi, ebp)
  }

  /** One pass of `decomp_top`: move the mask, refill the flags after eight items, do one item. */
  method DecompPass(m: Mem, ghost was: bytes, ghost src: bytes, ghost total: nat, ghost d0: Dec,
                    ghost start: nat, base: nat, esi0: nat, edi0: nat, ebx0: nat, ebp0: nat)
    returns (esi: nat, edi: nat, ebx: nat, ebp: nat, ghost d: Dec)
    requires AtTop(m.buf, was, src, total, d0, start, base, esi0, edi0, ebx0, ebp0) && edi0 < base + total
    modifies m
    ensures AtTop(m.buf, was, src, total, d, start, base, esi, edi, ebx, ebp) && d0.pos < d.pos
  {
    esi, edi, ebp, d := esi0, edi0, ebp0, d0;
    ebx := ebx0 + ebx0;
    MaskIsBit(d.bit);
    if ebx == 0x100 {
      RefillMirrors(m.buf, was, src, total, d, start, base, esi, edi, ebp);
      ebx := 1;
      ebp := m.buf[esi];
      esi := esi + 1;
      d := Dec(d.pos + 1, src[d.pos], 0, d.out);
    }
    esi, edi := DecompItem(m, was, src, total, d, start, base, esi, edi, ebx, ebp);
    d := Step(src, d).value;
  }

  /** The LZSS branch, from `decomp_top` on: the bytes the Python decoder returns, and nothing else. */
  method DecompStream(m: Mem, esi0: nat, edi0: nat, total: nat, ghost src: bytes)
    requires WellFormed(src) && |m.buf| <= 0x1_0000_0000 && total == U32(src, 4)
    requires Placed(m.buf, src, total, esi0, edi0)
    modifies m
    ensures Decompressed(src).Ok? && total <= |Decompressed(src).value| <= total + 17
    ensures ChangedOnly(m.buf, old(m.buf), edi0, edi0 + |Decompressed(src).value|)
    ensures m.buf[edi0..edi0 + |Decompressed(src).value|] == Decompressed(src).value
  {
    ghost var was := m.buf;
    StartMirrors(was, src, esi0, edi0);
    var esi: nat, edi: nat := esi0 + 8, edi0;
    var edx := Wrap32(total + edi);
    var ebx: nat, ebp: nat := 0x80, 0;
    ghost var d := Dec(8, 0, 8, []);
    MaskStarts();
    while edi < edx
      invariant AtTop(m.buf, was, src, total, d, esi0, edi0, esi, edi, ebx, ebp)
      decreases |src| - d.pos
    {
      esi, edi, ebx, ebp, d := DecompPass(m, was, src, total, d, esi0, edi0, esi, edi, ebx, ebp);
    }
    EndMirrors(m.buf, was, src, total, d, esi0, edi0, esi, edi, ebp);
  }

  lemma {:induction false} CopiedByte(mem: bytes, was: bytes, src: bytes, esi0: nat, base: nat, k: nat)
    requires Placed(was, src, |src|, esi0, base) && k < |src|
    requires ChangedOnly(mem, was, base, base + k) && mem[base..base + k] == src[..k]
    ensures var next := mem[base + k := mem[esi0 + k]];
      ChangedOnly(next, was, base, base + k + 1) && next[base..base + k + 1] == src[..k + 1]
  {
    StreamReads(mem, was, src, |src|, esi0, base, base + k, k);
    WriteExtends(mem, base, base + k, mem[esi0 + k]);
    GrowOutput(mem, was, base, base + k, mem[esi0 + k]);
    assert src[..k + 1] == src[..k] + [src[k]];
  }

  /** `decomp_raw` and `decomp_copy_byte`: the input is copied whole, its first eight bytes included. */
  method DecompRaw(m: Mem, esi0: nat, ecx0: nat, edi0: nat, ghost src: bytes)
    requires |m.buf| <= 0x1_0000_0000 && ecx0 == |src| && Placed(m.buf, src, |src|, esi0, edi0)
    modifies m
    ensures ChangedOnly(m.buf, old(m.buf), edi0, edi0 + |src|) && m.buf[edi0..edi0 + |src|] == src
  {
    ghost var was := m.buf;
    var esi, edi, ecx := esi0, edi0, ecx0;
    var edx := Wrap32(ecx + edi);
    while edi < edx
      invariant 0 <= ecx <= ecx0 && esi == esi0 + (ecx0 - ecx) && edi == edi0 + (ecx0 - ecx)
      invariant ChangedOnly(m.buf, was, edi0, edi) && m.buf[edi0..edi] == src[..ecx0 - ecx]
    {
      CopiedByte(m.buf, was, src, esi0, edi0, ecx0 - ecx);
      var al := m.buf[esi];
      esi := esi + 1;
      m.buf := m.buf[edi := al];
      edi := edi + 1;
      ecx := ecx - 1;
    }
    assert src[..|src|] == src;
  }

  /** What the routine makes of its input: the decoded stream, or the input itself without the magic. */
  ghost function Unpacked(src: bytes): bytes
    requires |src| >= 8
  {
    if U32(src, 0) == MAGIC && Decompressed(src).Ok? then Decompressed(src).value else src
  }

  /** The most it may write. */
  ghost function Room(src: bytes): nat
    requires |src| >= 8
  {
    if U32(src, 0) == MAGIC then U32(src, 4) else |src|
  }

  lemma {:induction false} HeaderInMemory(mem: bytes, src: bytes, esi0: nat)
    requires |src| >= 8 && Has(mem, esi0, src)
    ensures U32(mem, esi0) == U32(src, 0) && U32(mem, esi0 + 4) == U32(src, 4)
  {
    HasU32(mem, esi0, src, 0);
    HasU32(mem, esi0, src, 4);
  }

  /** The routine returns 1 and leaves in memory, and changes, exactly its output: for every well-formed
      stream the bytes the Python decoder returns, at most 17 past the declared length, and for an
      input without the magic the input as it is. */
  method QizoDecompress(m: Mem, esi0: nat, ecx0: nat, edi0: nat, ghost src: bytes) returns (eax: nat)
    requires |src| == ecx0 >= 8 && |m.buf| <= 0x1_0000_0000 && Placed(m.buf, src, Room(src), esi0, edi0)
    requires U32(src, 0) == MAGIC ==> WellFormed(src)
    modifies m
    ensures eax == 1
    ensures U32(src, 0) == MAGIC ==> Decompressed(src).Ok?
    ensures Room(src) <= |Unpacked(src)| <= Room(src) + 17
    ensures ChangedOnly(m.buf, old(m.buf), edi0, edi0 + |Unpacked(src)|)
    ensures m.buf[edi0..edi0 + |Unpacked(src)|] == Unpacked(src)
  {
    HeaderInMemory(m.buf, src, esi0);
    eax := U32(m.buf, esi0);
    var edx := U32(m.buf, esi0 + 4);
    if eax == MAGIC {
      DecompStream(m, esi0, edi0, edx, src);
    } else {
      DecompRaw(m, esi0, ecx0, edi0, src);
    }
    eax := 1;
  }

  lemma {:induction false} MaskStarts()
    ensures Pow2(7) == 0x80
  {
  }

  lemma {:induction false} MaskIsBit(bit: nat)
    requires bit <= 8
    ensures Pow2(bit) == 0x100 <==> bit == 8
  {
    Powers();
  }
}
