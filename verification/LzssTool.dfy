/** tools/common/qizolzss.py: the greedy compressor, its match search and the decompressor,
    as the loops they are, proved against the format and against an optimal-match reference. */
module LzssTool {
  import opened Bits
  import opened Bytes
  import opened LzssFormat

  // ---------------------------------------------------------------- match search

  function Limit(src: bytes, i: nat): nat
    requires i <= |src|
  {
    Min(MAX_MATCH, |src| - i)
  }

  /** The byte at p equals the one `off` before it. */
  predicate Echo(src: bytes, p: int, off: nat)
    requires off <= p < |src|
  {
    src[p] == src[p - off]
  }

  /** What a match is: `len` bytes, each equal to the one `off` before it, inside the window. */
  ghost predicate IsMatch(src: bytes, i: nat, off: nat, len: nat)
    requires i <= |src|
  {
    && 1 <= off <= Min(i, WINDOW) && MIN_MATCH <= len <= Limit(src, i)
    && forall p :: i <= p < i + len ==> Echo(src, p, off)
  }

  /** How many bytes from i on, counting from l and up to limit, repeat those `off` before. */
  function Common(src: bytes, i: nat, off: nat, l: nat, limit: nat): (r: nat)
    requires 1 <= off <= i && l <= limit && i + limit <= |src|
    ensures l <= r <= limit
    decreases limit - l
  {
    if l < limit && Echo(src, i + l, off) then Common(src, i, off, l + 1, limit) else l
  }

  /** It counts echoes up to the first byte that is none. */
  lemma {:induction false} CommonEchoes(src: bytes, i: nat, off: nat, l: nat, limit: nat)
    requires 1 <= off <= i && l <= limit && i + limit <= |src|
    ensures var r := Common(src, i, off, l, limit);
      (forall p :: i + l <= p < i + r ==> Echo(src, p, off)) && (r < limit ==> !Echo(src, i + r, off))
    decreases limit - l
  {
    if l < limit && Echo(src, i + l, off) { CommonEchoes(src, i, off, l + 1, limit); }
  }

  /** Best candidate among offsets 1..d: longest, then nearest. */
  function Best(src: bytes, i: nat, d: nat, limit: nat): (r: (nat, nat))
    requires d <= i && i + limit <= |src|
    ensures r.1 <= limit && r.0 <= d
  {
    if d == 0 then (0, 0)
    else
      var p, l := Best(src, i, d - 1, limit), Common(src, i, d, 0, limit);
      if l > p.1 then (d, l) else p
  }

  function FindMatch(src: bytes, i: nat): (r: (nat, nat))
    requires i <= |src|
  {
    var limit := Limit(src, i);
    if limit < MIN_MATCH then (0, 0)
    else
      var p := Best(src, i, Min(i, WINDOW), limit);
      if p.1 < MIN_MATCH then (0, 0) else p
  }

  lemma {:induction false} BestIsBest(src: bytes, i: nat, d: nat, limit: nat)
    requires d <= i && i + limit <= |src|
    ensures var (off, len) := Best(src, i, d, limit);
      && (len > 0 ==> 1 <= off && len == Common(src, i, off, 0, limit))
      && forall o :: 1 <= o <= d ==>
           Common(src, i, o, 0, limit) <= len
           && (Common(src, i, o, 0, limit) == len > 0 ==> off <= o)
  {
    if d > 0 { BestIsBest(src, i, d - 1, limit); }
  }

  /** The search returns the longest match in the window, the nearest among equals,
      and nothing exactly when there is none. */
  lemma {:induction false} FindMatchIsOptimal(src: bytes, i: nat)
    requires i <= |src|
    ensures var (off, len) := FindMatch(src, i);
      && (len == 0 || IsMatch(src, i, off, len))
      && (forall o: nat, l: nat :: IsMatch(src, i, o, l) ==> l <= len && (l == len ==> off <= o))
  {
    var limit := Limit(src, i);
    var (off, len) := FindMatch(src, i);
    if limit >= MIN_MATCH {
      var w := Min(i, WINDOW);
      BestIsBest(src, i, w, limit);
      if len > 0 { CommonEchoes(src, i, off, 0, limit); }
      forall o: nat, l: nat | IsMatch(src, i, o, l)
        ensures l <= len && (l == len ==> off <= o)
      {
        CommonEchoes(src, i, o, 0, limit);
        assert l <= Common(src, i, o, 0, limit);
      }
    }
  }

  /** What is found is a match. */
  lemma {:induction false} FoundMatch(src: bytes, i: nat)
    requires i <= |src|
    ensures var (off, len) := FindMatch(src, i); len > 0 ==> IsMatch(src, i, off, len)
  {
    FindMatchIsOptimal(src, i);
  }

  lemma {:induction false} MatchBounds(src: bytes, i: nat)
    requires i <= |src|
    ensures var (off, len) := FindMatch(src, i);
      len > 0 ==> ValidItem(Match(off, len)) && off <= i && i + len <= |src|
  {
    FoundMatch(src, i);
  }

  /** Once the length limit is reached, no further offset can do better. */
  lemma {:induction false} BestSaturates(src: bytes, i: nat, d: nat, e: nat, limit: nat)
    requires d <= e <= i && i + limit <= |src| && Best(src, i, d, limit).1 == limit
    ensures Best(src, i, e, limit) == Best(src, i, d, limit)
  {
    if d < e { BestSaturates(src, i, d, e - 1, limit); }
  }

  /** The inner loop of `_find_match`. */
  method CommonLoop(src: bytes, j: nat, i: nat, limit: nat) returns (l: nat)
    requires j < i && i + limit <= |src|
    ensures l == Common(src, i, i - j, 0, limit)
  {
    l := 0;
    while l < limit && src[j + l] == src[i + l]
      invariant l <= limit
      invariant Common(src, i, i - j, l, limit) == Common(src, i, i - j, 0, limit)
    {
      l := l + 1;
    }
  }

  /** `_find_match`: scan backwards from i - 1, stop early at a full-length match. */
  method FindMatchLoop(src: bytes, i: nat) returns (off: nat, len: nat)
    requires i <= |src|
    ensures (off, len) == FindMatch(src, i)
  {
    var limit := if MAX_MATCH < |src| - i then MAX_MATCH else |src| - i;
    if limit < MIN_MATCH {
      return 0, 0;
    }
    off, len := ScanWindow(src, i, limit);
    if len < MIN_MATCH {
      return 0, 0;
    }
  }

  /** The scanning loop of `_find_match`. */
  method ScanWindow(src: bytes, i: nat, limit: nat) returns (bestOff: nat, bestLen: nat)
    requires 0 < limit && i + limit <= |src|
    ensures (bestOff, bestLen) == Best(src, i, Min(i, WINDOW), limit)
  {
    var start: int := i - WINDOW;
    if start < 0 {
      start := 0;
    }
    bestLen, bestOff := 0, 0;
    var j: int := i - 1;
    while j >= start
      invariant start - 1 <= j <= i - 1
      invariant (bestOff, bestLen) == Best(src, i, i - 1 - j, limit)
      invariant bestLen < limit
    {
      var l := CommonLoop(src, j, i, limit);
      if l > bestLen {
        bestLen, bestOff := l, i - j;
        if bestLen == limit {
          BestSaturates(src, i, i - j, Min(i, WINDOW), limit);
          break;
        }
      }
      j := j - 1;
    }
  }

  // ---------------------------------------------------------------- compression

  /** The greedy item list of src from position i. */
  function Parse(src: bytes, i: nat): (items: seq<Item>)
    requires i <= |src|
    ensures ValidItems(items)
    decreases |src| - i
  {
    if i >= |src| then []
    else
      MatchBounds(src, i);
      var (off, len) := FindMatch(src, i);
      if len > 0 then [Match(off, len)] + Parse(src, i + len) else [Lit(src[i])] + Parse(src, i + 1)
  }

  function Compressed(src: bytes): bytes
    requires |src| < 0x1_0000_0000
  {
    Header(|src|) + Stream(Parse(src, 0))
  }

  /** A match of src against itself rebuilds src, overlapping or not. */
  lemma {:induction false} CopyRebuilds(src: bytes, i: nat, off: nat, len: nat)
    requires 1 <= off <= i && i + len <= |src|
    requires forall p :: i <= p < i + len ==> Echo(src, p, off)
    ensures CopyBack(src[..i], off, len) == src[..i + len]
    decreases len
  {
    if len > 0 {
      assert Echo(src, i, off);
      assert src[..i] + [src[..i][i - off]] == src[..i + 1];
      CopyRebuilds(src, i + 1, off, len - 1);
    }
  }

  /** The next greedy item and where it leads. */
  lemma {:induction false} ParseStep(src: bytes, i: nat, off: nat, len: nat)
    requires i < |src| && (off, len) == FindMatch(src, i)
    ensures len > 0 ==> ValidItem(Match(off, len)) && off <= i && i + len <= |src|
                        && Parse(src, i) == [Match(off, len)] + Parse(src, i + len)
    ensures len == 0 ==> Parse(src, i) == [Lit(src[i])] + Parse(src, i + 1)
  {
    MatchBounds(src, i);
    if len > 0 {
      assert Parse(src, i) == [Match(off, len)] + Parse(src, i + len);
    }
  }

  lemma {:induction false} NextPrefix(src: bytes, i: nat, off: nat, len: nat)
    requires i < |src| && (off, len) == FindMatch(src, i)
    ensures len > 0 ==> 1 <= off <= i && i + len <= |src| && CopyBack(src[..i], off, len) == src[..i + len]
    ensures src[..i] + [src[i]] == src[..i + 1]
  {
    FoundMatch(src, i);
    if len > 0 { CopyRebuilds(src, i, off, len); }
  }

  lemma {:induction false} ReplayStep(it: Item, rest: seq<Item>, out: bytes, next: bytes)
    requires ValidItem(it) && CanApply(out, it) && Apply(out, it) == next && CanReplay(rest, next)
    ensures CanReplay([it] + rest, out) && Replay([it] + rest, out) == Replay(rest, next)
  {
    assert ([it] + rest)[1..] == rest;
  }

  lemma {:induction false} ParseReplays(src: bytes, i: nat)
    requires i <= |src|
    ensures CanReplay(Parse(src, i), src[..i]) && Replay(Parse(src, i), src[..i]) == src
    decreases |src| - i
  {
    if i < |src| {
      var (off, len) := FindMatch(src, i);
      ParseStep(src, i, off, len);
      NextPrefix(src, i, off, len);
      var it, next := Lit(src[i]), i + 1;
      if len > 0 {
        it, next := Match(off, len), i + len;
      }
      ParseReplays(src, next);
      ReplayStep(it, Parse(src, next), src[..i], src[..next]);
    } else {
      assert src[..i] == src;
    }
  }

  /** Compress, append anything, decompress: the input comes back, and the stream is well formed. */
  lemma {:induction false} RoundTrip(src: bytes, suffix: bytes)
    requires |src| < 0x1_0000_0000
    ensures Decompressed(Compressed(src) + suffix) == Ok(src)
    ensures WellFormed(Compressed(src) + suffix)
  {
    ParseReplays(src, 0);
    assert src[..0] == [];
    EncodedDecodes(Parse(src, 0), suffix);
  }

  /** Output size: header, at most one byte per input byte, one flag byte per eight input bytes. */
  lemma {:induction false} CompressionBound(src: bytes)
    requires |src| < 0x1_0000_0000
    ensures |Compressed(src)| <= 8 + |src| + (|src| + 7) / 8
  {
    var items := Parse(src, 0);
    ParseReplays(src, 0);
    assert src[..0] == [];
    StreamSize(items);
    BodySize(items, []);
    ReplayGrows(items, []);
  }

  /** Appending the next item to a partly filled group. */
  lemma {:induction false} FlagsAppend(g: seq<Item>, it: Item)
    ensures Flags(g + [it]) == if it.Match? then Or(Flags(g), Pow2(|g|)) else Flags(g)
  {
    var h := g + [it];
    assert h[..|g|] == g && h[|g|] == it;
  }

  lemma {:induction false} ItemsAppend(g: seq<Item>, it: Item, rest: seq<Item>)
    ensures g + ([it] + rest) == (g + [it]) + rest
  {
  }

  lemma {:induction false} ValidAppend(g: seq<Item>, it: Item)
    requires ValidItems(g) && ValidItem(it)
    ensures ValidItems(g + [it]) && Body(g + [it]) == Body(g) + EncodeItem(it)
  {
    BodyAppend(g, it);
  }

  lemma {:induction false} GroupExtends(g: seq<Item>, it: Item, rest: seq<Item>)
    requires ValidItems(g) && ValidItem(it)
    ensures g + ([it] + rest) == (g + [it]) + rest
    ensures ValidItems(g + [it]) && Body(g + [it]) == Body(g) + EncodeItem(it)
    ensures Flags(g + [it]) == if it.Match? then Or(Flags(g), Pow2(|g|)) else Flags(g)
  {
    FlagsAppend(g, it);
    ItemsAppend(g, it, rest);
    ValidAppend(g, it);
  }

  /** Encoding is under way in a group: `g` is done, the greedy parse from i is still to do,
      and the flag byte at the end of `before` is not patched yet. */
  ghost predicate Filling(src: bytes, i: nat, items: seq<Item>, g: seq<Item>,
                          before: bytes, out: bytes, flags: nat)
  {
    && i <= |src| && |g| <= 8 && ValidItems(g) && items == g + Parse(src, i)
    && out == before + [0] + Body(g) && flags == Flags(g)
  }

  lemma {:induction false} FillStep(src: bytes, i: nat, items: seq<Item>, g: seq<Item>,
                                    before: bytes, out: bytes, flags: nat, it: Item, next: nat, code: bytes, flags': nat)
    requires Filling(src, i, items, g, before, out, flags) && |g| < 8 && next <= |src|
    requires ValidItem(it) && Parse(src, i) == [it] + Parse(src, next)
    requires code == EncodeItem(it) && flags' == if it.Match? then Or(flags, Pow2(|g|)) else flags
    ensures Filling(src, next, items, g + [it], before, out + code, flags')
  {
    GroupExtends(g, it, Parse(src, next));
  }

  /** Patching the flag byte of a finished group completes its encoding. */
  lemma {:induction false} FillCloses(src: bytes, i: nat, items: seq<Item>, g: seq<Item>,
                                      before: bytes, out: bytes, flags: nat)
    requires Filling(src, i, items, g, before, out, flags) && ValidItems(items)
    requires 0 < |g| && (|g| < 8 ==> i == |src|)
    ensures flags < 256 && |before| < |out|
    ensures out[|before| := flags] + Stream(Parse(src, i)) == before + Stream(items)
  {
    StreamHead(items, g, Parse(src, i));
    PatchFlag(before, g);
    JoinParts(before, Group(g), Stream(Parse(src, i)));
  }

  lemma {:induction false} StreamHead(items: seq<Item>, g: seq<Item>, rest: seq<Item>)
    requires items == g + rest && ValidItems(items) && ValidItems(g) && ValidItems(rest)
    requires 0 < |g| <= 8 && (|g| < 8 ==> rest == [])
    ensures Stream(items) == Group(g) + Stream(rest)
  {
    assert items[..Head(items)] == g && items[Head(items)..] == rest;
  }

  lemma {:induction false} PatchFlag(before: bytes, g: seq<Item>)
    requires ValidItems(g) && |g| <= 8
    ensures Flags(g) < 256 && (before + [0] + Body(g))[|before| := Flags(g)] == before + Group(g)
  {
    FlagsBound(g);
    GroupFlagsFit(|g|);
    PatchAt(before, Flags(g), Body(g));
  }

  lemma {:induction false} PatchAt(before: bytes, x: byte, body: bytes)
    ensures (before + [0] + body)[|before| := x] == before + ([x] + body)
  {
  }

  lemma {:induction false} JoinParts(a: bytes, b: bytes, c: bytes)
    ensures (a + b) + c == a + (b + c)
  {
  }

  /** The loop of `compress` over the eight flag bits of one group. */
  method FillGroup(src: bytes, start: nat, before: bytes)
    returns (out: bytes, flags: nat, i: nat, ghost g: seq<Item>)
    requires start < |src|
    ensures start < i && 0 < |g| && (|g| < 8 ==> i == |src|)
    ensures Filling(src, i, Parse(src, start), g, before, out, flags)
  {
    ghost var items := Parse(src, start);
    out, flags, i, g := before + [0], 0, start, [];
    var bit: nat := 0;
    while bit < 8 && i < |src|
      invariant start <= i && |g| == bit && (bit > 0 ==> start < i)
      invariant Filling(src, i, items, g, before, out, flags)
      decreases |src| - i
    {
      var code, flags', next, it := NextItem(src, i, bit, flags);
      FillStep(src, i, items, g, before, out, flags, it, next, code, flags');
      out, flags, i, g := out + code, flags', next, g + [it];
      bit := bit + 1;
    }
  }

  /** The body of that loop: a match token with its flag bit, or a literal. */
  method NextItem(src: bytes, i: nat, bit: nat, flags0: nat)
    returns (code: bytes, flags: nat, next: nat, ghost it: Item)
    requires i < |src|
    ensures ValidItem(it) && code == EncodeItem(it) && i < next <= |src|
    ensures Parse(src, i) == [it] + Parse(src, next)
    ensures flags == if it.Match? then Or(flags0, Pow2(bit)) else flags0
  {
    var off, ln := FindMatchLoop(src, i);
    ParseStep(src, i, off, ln);
    if ln > 0 {
      TokenRoundTrip(off, ln);
      it := Match(off, ln);
      return Le16(Token(off, ln)), Or(flags0, Pow2(bit)), i + ln, it;
    }
    it := Lit(src[i]);
    return [src[i]], flags0, i + 1, it;
  }

  /** `compress`: groups of eight, the flag byte patched in after its group. */
  method Compress(src: bytes) returns (r: Result<bytes, Error>)
    ensures |src| >= 0x1_0000_0000 ==> r == Err(StructError)
    ensures |src| < 0x1_0000_0000 ==> r == Ok(Compressed(src))
  {
    if |src| >= 0x1_0000_0000 {
      return Err(StructError);
    }
    var out: bytes := Le32(MAGIC) + Le32(|src|);
    var i := 0;
    while i < |src|
      invariant i <= |src|
      invariant out + Stream(Parse(src, i)) == Compressed(src)
    {
      var fpos := |out|;
      var filled, flags, next, g := FillGroup(src, i, out);
      FillCloses(src, next, Parse(src, i), g, out, filled, flags);
      out, i := filled[fpos := flags], next;
    }
    assert out + [] == out;
    return Ok(out);
  }

  // ---------------------------------------------------------------- decompression

  /** `decompress`: nested loops over flag bytes and flag bits. */
  method Decompress(src: bytes) returns (r: Result<bytes, Error>)
    ensures r == Decompressed(src)
  {
    if |src| < 8 {
      return Err(StructError);
    }
    var magic, total := U32(src, 0), U32(src, 4);
    if magic != MAGIC {
      return Err(BadMagic);
    }
    var out: bytes := [];
    var i, n := 8, |src|;
    ghost var flags' := 0;
    while |out| < total
      invariant 8 <= i
      invariant Decompressed(src) == Run(src, total, Dec(i, flags', 8, out))
      decreases |src| - i
    {
      if i >= n {
        return Err(TruncatedStream);
      }
      var flags := src[i];
      i := i + 1;
      flags' := flags;
      ghost var i0 := i;
      var bit: nat := 0;
      while bit < 8 && |out| < total
        invariant bit <= 8 && i0 <= i
        invariant Decompressed(src) == Run(src, total, Dec(i, flags, bit, out))
      {
        if And(flags, Pow2(bit)) != 0 {
          if i + 2 > n {
            return Err(StructError);
          }
          var tok := U16(src, i);
          i := i + 2;
          var off, ln := tok / 16 + 1, And(tok, 15) + MIN_MATCH;
          var copied := AppendCopy(out, |out| - off, ln);
          if copied.Err? {
            return Err(copied.error);
          }
          out := copied.value;
        } else {
          if i >= n {
            return Err(IndexError);
          }
          out := out + [src[i]];
          i := i + 1;
        }
        bit := bit + 1;
      }
    }
    return Ok(out);
  }

  /** The innermost loop of `decompress`. */
  method AppendCopy(out0: bytes, start: int, ln: nat) returns (r: Result<bytes, Error>)
    ensures r == PyCopy(out0, start, ln)
  {
    var out, k := out0, 0;
    while k < ln
      invariant 0 <= k <= ln
      invariant PyCopy(out, start + k, ln - k) == PyCopy(out0, start, ln)
    {
      var j := if start + k < 0 then start + k + |out| else start + k;
      if !(0 <= j < |out|) {
        return Err(IndexError);
      }
      out := out + [out[j]];
      k := k + 1;
    }
    return Ok(out);
  }
}
