/** The LZSS stream format shared by tools/common/qizolzss.py and boot/stage2.S: items and
    what they mean, their byte encoding in groups of eight, and the decoder as a step function. */
module LzssFormat {
  import opened Bits
  import opened Bytes

  const MAGIC: nat := 0x51495A4C
  const WINDOW: nat := 4096
  const MIN_MATCH: nat := 3
  const MAX_MATCH: nat := 18

  // ---------------------------------------------------------------- items and their meaning

  /** A literal byte, or "repeat `len` bytes starting `off` bytes back". */
  datatype Item = Lit(b: byte) | Match(off: nat, len: nat)

  predicate ValidItem(it: Item) {
    it.Match? ==> 1 <= it.off <= WINDOW && MIN_MATCH <= it.len <= MAX_MATCH
  }

  /** Byte-by-byte copy: the source may run into bytes the copy itself has produced. */
  function CopyBack(out: bytes, off: nat, len: nat): (r: bytes)
    requires 1 <= off <= |out|
    ensures |r| == |out| + len
    decreases len
  {
    if len == 0 then out else CopyBack(out + [out[|out| - off]], off, len - 1)
  }

  predicate CanApply(out: bytes, it: Item) {
    it.Match? ==> 1 <= it.off <= |out|
  }

  function Apply(out: bytes, it: Item): bytes
    requires CanApply(out, it)
  {
    match it
    case Lit(b) => out + [b]
    case Match(off, len) => CopyBack(out, off, len)
  }

  predicate CanReplay(items: seq<Item>, out: bytes)
    decreases items
  {
    |items| == 0 ||
    (ValidItem(items[0]) && CanApply(out, items[0]) && CanReplay(items[1..], Apply(out, items[0])))
  }

  /** The bytes an item list stands for, appended to `out`. */
  function Replay(items: seq<Item>, out: bytes): bytes
    requires CanReplay(items, out)
    decreases items
  {
    if |items| == 0 then out else Replay(items[1..], Apply(out, items[0]))
  }

  lemma {:induction false} ReplayGrows(items: seq<Item>, out: bytes)
    requires CanReplay(items, out)
    ensures |Replay(items, out)| >= |out| + |items|
    decreases items
  {
    if |items| > 0 { ReplayGrows(items[1..], Apply(out, items[0])); }
  }

  // ---------------------------------------------------------------- byte encoding

  /** The 16-bit token of a match. */
  function Token(off: nat, len: nat): nat
    requires ValidItem(Match(off, len))
  {
    Or((off - 1) * 16, len - MIN_MATCH)
  }

  function TokenOff(tok: nat): nat { tok / 16 + 1 }
  function TokenLen(tok: nat): nat { And(tok, 15) + MIN_MATCH }

  /** Every token fits 16 bits and unpacks to the offset and length it was made from. */
  lemma {:induction false} TokenRoundTrip(off: nat, len: nat)
    requires ValidItem(Match(off, len))
    ensures Token(off, len) < 0x1_0000
    ensures TokenOff(Token(off, len)) == off && TokenLen(Token(off, len)) == len
  {
    Powers();
    OrShifted(off - 1, 4, len - MIN_MATCH);
    AndMask(Token(off, len), 4);
  }

  /** Conversely every 16-bit word is the token of the match it unpacks to. */
  lemma {:induction false} TokenComplete(tok: nat)
    requires tok < 0x1_0000
    ensures ValidItem(Match(TokenOff(tok), TokenLen(tok)))
    ensures Token(TokenOff(tok), TokenLen(tok)) == tok
  {
    Powers();
    AndMask(tok, 4);
    OrShifted(tok / 16, 4, tok % 16);
  }

  function EncodeItem(it: Item): bytes
    requires ValidItem(it)
  {
    match it
    case Lit(b) => [b]
    case Match(off, len) => TokenRoundTrip(off, len); Le16(Token(off, len))
  }

  predicate ValidItems(items: seq<Item>) {
    forall k :: 0 <= k < |items| ==> ValidItem(items[k])
  }

  function Body(items: seq<Item>): bytes
    requires ValidItems(items)
  {
    if |items| == 0 then [] else EncodeItem(items[0]) + Body(items[1..])
  }

  /** The flag byte of a group: bit k is set when item k is a match. */
  function Flags(items: seq<Item>): nat {
    if |items| == 0 then 0
    else
      var f, last := Flags(items[..|items| - 1]), |items| - 1;
      if items[last].Match? then Or(f, Pow2(last)) else f
  }

  lemma {:induction false} FlagsBound(items: seq<Item>)
    ensures Flags(items) < Pow2(|items|)
  {
    if |items| > 0 {
      var last := |items| - 1;
      FlagsBound(items[..last]);
      OrBound(Flags(items[..last]), Pow2(last), |items|);
    }
  }

  lemma {:induction false} FlagsBit(items: seq<Item>, k: nat)
    ensures Bit(Flags(items), k) == (k < |items| && items[k].Match?)
  {
    if |items| == 0 {
      ZeroHasNoBits(k);
    } else {
      var last := |items| - 1;
      FlagsBit(items[..last], k);
      BitOr(Flags(items[..last]), Pow2(last), k);
      BitPow2(last, k);
    }
  }

  lemma {:induction false} BodyAppend(items: seq<Item>, it: Item)
    requires ValidItems(items) && ValidItem(it)
    ensures Body(items + [it]) == Body(items) + EncodeItem(it)
  {
    if |items| == 0 {
      assert items + [it] == [it];
    } else {
      assert (items + [it])[1..] == items[1..] + [it];
      BodyAppend(items[1..], it);
    }
  }

  /** Number of items in the first group. */
  function Head(items: seq<Item>): nat { Min(8, |items|) }

  function Group(g: seq<Item>): bytes
    requires ValidItems(g) && |g| <= 8
  {
    FlagsBound(g);
    GroupFlagsFit(|g|);
    var f: byte := Flags(g);
    [f] + Body(g)
  }

  lemma {:induction false} GroupFlagsFit(n: nat)
    requires n <= 8
    ensures Pow2(n) <= 256
  {
    Powers();
    if n < 8 { PowMonotone(n, 8); }
  }

  function Stream(items: seq<Item>): bytes
    requires ValidItems(items)
  {
    if |items| == 0 then []
    else Group(items[..Head(items)]) + Stream(items[Head(items)..])
  }

  function Header(total: nat): (r: bytes)
    requires total < 0x1_0000_0000
    ensures |r| == 8
  {
    Le32(MAGIC) + Le32(total)
  }

  // ---------------------------------------------------------------- decoding, one step at a time

  datatype Error = StructError | BadMagic | TruncatedStream | IndexError

  /** Decoder state: read position, current flag byte, next flag bit (8: fetch a new byte), output. */
  datatype Dec = Dec(pos: nat, flags: nat, bit: nat, out: bytes)

  /** The inner loop `out.append(out[start + k])`, with Python's negative indices. */
  function PyCopy(out: bytes, start: int, len: nat): Result<bytes, Error>
    decreases len
  {
    if len == 0 then Ok(out)
    else
      var j := if start < 0 then start + |out| else start;
      if 0 <= j < |out| then PyCopy(out + [out[j]], start + 1, len - 1) else Err(IndexError)
  }

  lemma {:induction false} PyCopyIsCopyBack(out: bytes, off: nat, len: nat)
    requires 1 <= off <= |out|
    ensures PyCopy(out, |out| - off, len) == Ok(CopyBack(out, off, len))
    decreases len
  {
    if len > 0 { PyCopyIsCopyBack(out + [out[|out| - off]], off, len - 1); }
  }

  function Step(src: bytes, d: Dec): Result<Dec, Error> {
    if d.bit >= 8 then
      if d.pos >= |src| then Err(TruncatedStream) else Ok(Dec(d.pos + 1, src[d.pos], 0, d.out))
    else if And(d.flags, Pow2(d.bit)) != 0 then
      if d.pos + 2 > |src| then Err(StructError)
      else
        var tok := U16(src, d.pos);
        match PyCopy(d.out, |d.out| - TokenOff(tok), TokenLen(tok))
        case Err(e) => Err(e)
        case Ok(o) => Ok(Dec(d.pos + 2, d.flags, d.bit + 1, o))
    else if d.pos >= |src| then Err(IndexError)
    else Ok(Dec(d.pos + 1, d.flags, d.bit + 1, d.out + [src[d.pos]]))
  }

  function Run(src: bytes, total: nat, d: Dec): Result<bytes, Error>
    decreases |src| - d.pos
  {
    if |d.out| >= total then Ok(d.out)
    else
      match Step(src, d)
      case Err(e) => Err(e)
      case Ok(d') => Run(src, total, d')
  }

  function Decompressed(src: bytes): Result<bytes, Error> {
    if |src| < 8 then Err(StructError)
    else if U32(src, 0) != MAGIC then Err(BadMagic)
    else Run(src, U32(src, 4), Dec(8, 0, 8, []))
  }

  lemma {:induction false} StepExtends(src: bytes, suffix: bytes, d: Dec)
    requires Step(src, d).Ok?
    ensures Step(src + suffix, d) == Step(src, d)
  {
    if d.bit < 8 && And(d.flags, Pow2(d.bit)) != 0 {
      assert U16(src + suffix, d.pos) == U16(src, d.pos);
    }
  }

  lemma {:induction false} RunExtends(src: bytes, suffix: bytes, total: nat, d: Dec)
    requires Run(src, total, d).Ok?
    ensures Run(src + suffix, total, d) == Run(src, total, d)
    decreases |src| - d.pos
  {
    if |d.out| < total {
      StepExtends(src, suffix, d);
      RunExtends(src, suffix, total, Step(src, d).value);
    }
  }

  /** Whatever decodes, well formed or not, decodes to the same bytes with anything behind it; what is
      too short for a header or has another magic does not decode. */
  lemma {:induction false} SuffixIgnored(src: bytes, suffix: bytes)
    ensures Decompressed(src).Ok? ==> Decompressed(src + suffix) == Decompressed(src)
    ensures |src| < 8 ==> Decompressed(src) == Err(StructError)
    ensures |src| >= 8 && U32(src, 0) != MAGIC ==> Decompressed(src) == Err(BadMagic)
  {
    if Decompressed(src).Ok? {
      var all := src + suffix;
      assert U32(all, 0) == U32(src, 0) && U32(all, 4) == U32(src, 4);
      RunExtends(src, suffix, U32(src, 4), Dec(8, 0, 8, []));
    }
  }

  /** The stream has the input each step needs, and no match reaches before the first byte produced. */
  predicate WellFormedFrom(src: bytes, total: nat, d: Dec)
    decreases |src| - d.pos
  {
    |d.out| >= total ||
    (Step(src, d).Ok? && OffsetInside(src, d) && WellFormedFrom(src, total, Step(src, d).value))
  }

  predicate OffsetInside(src: bytes, d: Dec)
    requires Step(src, d).Ok?
  {
    d.bit < 8 && And(d.flags, Pow2(d.bit)) != 0 ==> TokenOff(U16(src, d.pos)) <= |d.out|
  }

  predicate WellFormed(src: bytes) {
    |src| >= 8 && U32(src, 0) == MAGIC && WellFormedFrom(src, U32(src, 4), Dec(8, 0, 8, []))
  }

  /** A well-formed stream decodes, and overshoots its declared length by at most 17 bytes. */
  lemma {:induction false} WellFormedRuns(src: bytes, total: nat, d: Dec)
    requires WellFormedFrom(src, total, d) && |d.out| <= total + 17
    ensures Run(src, total, d).Ok? && total <= |Run(src, total, d).value| <= total + 17
    decreases |src| - d.pos
  {
    if |d.out| < total {
      var d' := Step(src, d).value;
      if d.bit < 8 && And(d.flags, Pow2(d.bit)) != 0 {
        var tok := U16(src, d.pos);
        TokenComplete(tok);
        PyCopyIsCopyBack(d.out, TokenOff(tok), TokenLen(tok));
      }
      WellFormedRuns(src, total, d');
    }
  }

  // ---------------------------------------------------------------- the decoder inverts the encoder

  /** The rest of the current group, the later groups and the suffix are still to be read. */
  ghost predicate BytesAhead(src: bytes, pos: nat, items: seq<Item>, k: nat, suffix: bytes)
    requires ValidItems(items) && k <= |items|
  {
    pos <= |src| && src[pos..] == Body(items[..k]) + (Stream(items[k..]) + suffix)
  }

  /** The unread flag bits describe the next k items. */
  ghost predicate FlagsAhead(flags: nat, bit: nat, items: seq<Item>, k: nat)
    requires k <= |items|
  {
    forall j :: 0 <= j < k ==> Bit(flags, bit + j) == items[j].Match?
  }

  /** How many of the items belong to the current group. */
  function InGroup(bit: nat, items: seq<Item>): nat
    requires bit <= 8
  {
    Min(8 - bit, |items|)
  }

  ghost predicate Ahead(src: bytes, d: Dec, items: seq<Item>, suffix: bytes) {
    && d.bit <= 8 && ValidItems(items)
    && BytesAhead(src, d.pos, items, InGroup(d.bit, items), suffix)
    && FlagsAhead(d.flags, d.bit, items, InGroup(d.bit, items))
  }

  lemma {:induction false} TakePrefix(src: bytes, pos: nat, items: seq<Item>, tail: bytes)
    requires pos <= |src| && |items| > 0 && ValidItems(items) && src[pos..] == Body(items) + tail
    ensures pos + |EncodeItem(items[0])| <= |src|
    ensures src[pos..pos + |EncodeItem(items[0])|] == EncodeItem(items[0])
  {
    var code := EncodeItem(items[0]);
    assert src[pos..] == code + (Body(items[1..]) + tail);
    assert src[pos..pos + |code|] == src[pos..][..|code|];
  }

  lemma {:induction false} ItemStep(src: bytes, d: Dec, items: seq<Item>, suffix: bytes)
    requires Ahead(src, d, items, suffix) && d.bit < 8 && |items| > 0
    requires CanApply(d.out, items[0])
    ensures Step(src, d).Ok? && OffsetInside(src, d)
    ensures Step(src, d).value.out == Apply(d.out, items[0])
    ensures Step(src, d).value.pos == d.pos + |EncodeItem(items[0])|
    ensures Step(src, d).value.flags == d.flags && Step(src, d).value.bit == d.bit + 1
  {
    var it, k := items[0], InGroup(d.bit, items);
    TestBit(d.flags, d.bit);
    assert Bit(d.flags, d.bit + 0) == items[0].Match?;
    var code := EncodeItem(it);
    TakePrefix(src, d.pos, items[..k], Stream(items[k..]) + suffix);
    match it {
      case Lit(b) =>
        assert src[d.pos] == src[d.pos..][0];
      case Match(off, len) =>
        TokenRoundTrip(off, len);
        ReadLe16(src, d.pos, Token(off, len));
        PyCopyIsCopyBack(d.out, off, len);
    }
  }

  lemma {:induction false} DropPrefix(s: bytes, pos: nat, code: bytes, tail: bytes)
    requires pos <= |s| && s[pos..] == code + tail
    ensures pos + |code| <= |s| && s[pos + |code|..] == tail
  {
    assert s[pos + |code|..] == s[pos..][|code|..];
  }

  lemma {:induction false} BodyHead(items: seq<Item>, k: nat)
    requires 0 < k <= |items| && ValidItems(items)
    ensures Body(items[..k]) == EncodeItem(items[0]) + Body(items[1..][..k - 1])
  {
    assert items[..k][0] == items[0] && items[..k][1..] == items[1..][..k - 1];
  }

  lemma {:induction false} DropHead(s: bytes, pos: nat, code: bytes, body: bytes, tail: bytes)
    requires pos <= |s| && s[pos..] == (code + body) + tail
    ensures pos + |code| <= |s| && s[pos + |code|..] == body + tail
  {
    assert s[pos..] == code + (body + tail);
    DropPrefix(s, pos, code, body + tail);
  }

  lemma {:induction false} ItemBytesAhead(src: bytes, pos: nat, items: seq<Item>, k: nat, suffix: bytes)
    requires 0 < k <= |items| && ValidItems(items) && BytesAhead(src, pos, items, k, suffix)
    ensures ValidItems(items[1..])
    ensures BytesAhead(src, pos + |EncodeItem(items[0])|, items[1..], k - 1, suffix)
  {
    BodyHead(items, k);
    assert items[k..] == items[1..][k - 1..];
    DropHead(src, pos, EncodeItem(items[0]), Body(items[1..][..k - 1]), Stream(items[k..]) + suffix);
  }

  lemma {:induction false} ItemFlagsAhead(flags: nat, bit: nat, items: seq<Item>, k: nat)
    requires 0 < k <= |items| && FlagsAhead(flags, bit, items, k)
    ensures FlagsAhead(flags, bit + 1, items[1..], k - 1)
  {
    forall j | 0 <= j < k - 1
      ensures Bit(flags, bit + 1 + j) == items[1..][j].Match?
    {
      assert Bit(flags, bit + (j + 1)) == items[j + 1].Match?;
    }
  }

  lemma {:induction false} ItemAhead(src: bytes, d: Dec, items: seq<Item>, suffix: bytes, d': Dec)
    requires Ahead(src, d, items, suffix) && d.bit < 8 && |items| > 0
    requires d'.bit == d.bit + 1 && d'.flags == d.flags
    requires d'.pos == d.pos + |EncodeItem(items[0])|
    ensures Ahead(src, d', items[1..], suffix)
  {
    var k := InGroup(d.bit, items);
    ItemBytesAhead(src, d.pos, items, k, suffix);
    ItemFlagsAhead(d.flags, d.bit, items, k);
    assert InGroup(d'.bit, items[1..]) == k - 1;
  }

  lemma {:induction false} RefillBytes(src: bytes, pos: nat, items: seq<Item>, suffix: bytes)
    requires |items| > 0 && ValidItems(items) && BytesAhead(src, pos, items, 0, suffix)
    ensures pos < |src| && src[pos] == Flags(items[..Head(items)])
    ensures BytesAhead(src, pos + 1, items, Head(items), suffix)
  {
    var g, rest := items[..Head(items)], items[Head(items)..];
    assert items[..0] == [] && items[0..] == items;
    var more := Body(g) + (Stream(rest) + suffix);
    assert src[pos..] == [Flags(g)] + more;
    assert src[pos] == src[pos..][0];
    DropPrefix(src, pos, [src[pos]], more);
  }

  lemma {:induction false} RefillAhead(src: bytes, d: Dec, items: seq<Item>, suffix: bytes)
    requires Ahead(src, d, items, suffix) && d.bit == 8 && |items| > 0
    ensures d.pos < |src| && Ahead(src, Dec(d.pos + 1, src[d.pos], 0, d.out), items, suffix)
  {
    RefillBytes(src, d.pos, items, suffix);
    forall j | 0 <= j < Head(items)
      ensures Bit(src[d.pos], 0 + j) == items[j].Match?
    {
      FlagsBit(items[..Head(items)], j);
    }
  }

  /** From any point of an encoded item list, the decoder produces exactly what the remaining
      items mean, never leaves the output, and ignores what follows the stream. */
  lemma {:induction false} DecodesItems(src: bytes, total: nat, d: Dec, items: seq<Item>, suffix: bytes)
    requires Ahead(src, d, items, suffix)
    requires CanReplay(items, d.out) && |Replay(items, d.out)| == total
    ensures Run(src, total, d) == Ok(Replay(items, d.out))
    ensures WellFormedFrom(src, total, d)
    decreases |items|, d.bit
  {
    ReplayGrows(items, d.out);
    if |items| > 0 {
      if d.bit == 8 {
        RefillAhead(src, d, items, suffix);
        DecodesItems(src, total, Dec(d.pos + 1, src[d.pos], 0, d.out), items, suffix);
      } else {
        ItemStep(src, d, items, suffix);
        var d' := Step(src, d).value;
        ItemAhead(src, d, items, suffix, d');
        DecodesItems(src, total, d', items[1..], suffix);
      }
    }
  }

  lemma {:induction false} ReplayableIsValid(items: seq<Item>, out: bytes)
    requires CanReplay(items, out)
    ensures ValidItems(items)
    decreases items
  {
    if |items| > 0 {
      ReplayableIsValid(items[1..], Apply(out, items[0]));
      assert forall k :: 1 <= k < |items| ==> items[k] == items[1..][k - 1];
    }
  }

  lemma {:induction false} HeaderReads(total: nat, rest: bytes)
    requires total < 0x1_0000_0000
    ensures var src := Header(total) + rest;
            U32(src, 0) == MAGIC && U32(src, 4) == total && src[8..] == rest
  {
    var src := Header(total) + rest;
    assert src[0..4] == Le32(MAGIC) && src[4..8] == Le32(total);
    ReadLe32(src, 0, MAGIC);
    ReadLe32(src, 4, total);
  }

  /** Decoding inverts encoding for every replayable item list, whatever trails the stream. */
  lemma {:induction false} EncodedDecodes(items: seq<Item>, suffix: bytes)
    requires CanReplay(items, []) && |Replay(items, [])| < 0x1_0000_0000
    ensures ValidItems(items)
    ensures var src := Header(|Replay(items, [])|) + Stream(items) + suffix;
            Decompressed(src) == Ok(Replay(items, [])) && WellFormed(src)
  {
    ReplayableIsValid(items, []);
    var total := |Replay(items, [])|;
    var src := Header(total) + Stream(items) + suffix;
    HeaderReads(total, Stream(items) + suffix);
    assert src == Header(total) + (Stream(items) + suffix);
    assert items[..0] == [] && items[0..] == items;
    assert BytesAhead(src, 8, items, 0, suffix);
    DecodesItems(src, total, Dec(8, 0, 8, []), items, suffix);
  }

  // ---------------------------------------------------------------- size accounting

  lemma {:induction false} BodySize(items: seq<Item>, out: bytes)
    requires CanReplay(items, out) && ValidItems(items)
    ensures |out| + |Body(items)| <= |Replay(items, out)|
    decreases items
  {
    if |items| > 0 { BodySize(items[1..], Apply(out, items[0])); }
  }

  lemma {:induction false} BodySplit(a: seq<Item>, b: seq<Item>)
    requires ValidItems(a) && ValidItems(b)
    ensures ValidItems(a + b) && Body(a + b) == Body(a) + Body(b)
  {
    if |a| == 0 {
      assert a + b == b;
    } else {
      assert (a + b)[1..] == a[1..] + b;
      BodySplit(a[1..], b);
    }
  }

  /** One flag byte per group of eight items, and nothing else beside the item bytes. */
  lemma {:induction false} StreamSize(items: seq<Item>)
    requires ValidItems(items)
    ensures |Stream(items)| == |Body(items)| + (|items| + 7) / 8
  {
    if |items| > 0 {
      var h := Head(items);
      StreamSize(items[h..]);
      BodySplit(items[..h], items[h..]);
      assert items[..h] + items[h..] == items;
    }
  }
}
