/** Byte strings: little-endian words, Python slice assignment, and the outcome type
    that stands for the exceptions of the Python tools. */
module Bytes {
  import opened Bits

  datatype Option<+T> = None | Some(value: T)
  datatype Result<+T, +E> = Ok(value: T) | Err(error: E)

  type bytes = seq<byte>

  function Min(a: int, b: int): int { if a < b then a else b }

  function Zeros(n: nat): (r: bytes)
    ensures |r| == n && forall i :: 0 <= i < n ==> r[i] == 0
  {
    seq(n, _ => 0)
  }

  function Le16(v: nat): (r: bytes)
    requires v < 0x1_0000
    ensures |r| == 2
  {
    [v % 256, v / 256]
  }

  function Le32(v: nat): (r: bytes)
    requires v < 0x1_0000_0000
    ensures |r| == 4
  {
    Le16(v % 0x1_0000) + Le16(v / 0x1_0000)
  }

  function U16(s: bytes, i: nat): (v: nat)
    requires i + 2 <= |s|
    ensures v < 0x1_0000
  {
    var hi: int := s[i + 1];
    s[i] + 256 * hi
  }

  function U32(s: bytes, i: nat): (v: nat)
    requires i + 4 <= |s|
    ensures v < 0x1_0000_0000
  {
    U16(s, i) + 0x1_0000 * U16(s, i + 2)
  }

  /** Words are little-endian. */
  lemma {:induction false} LittleEndian(a: int, b: int, c: int, d: int)
    requires 0 <= a < 256 && 0 <= b < 256 && 0 <= c < 256 && 0 <= d < 256
    ensures U16([a, b], 0) == a + 0x100 * b && Le16(a + 0x100 * b) == [a, b]
    ensures U32([a, b, c, d], 0) == a + 0x100 * b + 0x1_0000 * c + 0x100_0000 * d
    ensures Le32(a + 0x100 * b + 0x1_0000 * c + 0x100_0000 * d) == [a, b, c, d]
  {
    var lo, hi := a + 0x100 * b, c + 0x100 * d;
    var v := lo + 0x1_0000 * hi;
    assert v % 0x1_0000 == lo && v / 0x1_0000 == hi;
    assert lo % 256 == a && lo / 256 == b && hi % 256 == c && hi / 256 == d;
  }

  lemma {:induction false} ReadLe16(s: bytes, i: nat, v: nat)
    requires v < 0x1_0000 && i + 2 <= |s| && s[i..i + 2] == Le16(v)
    ensures U16(s, i) == v
  {
    assert s[i] == s[i..i + 2][0] && s[i + 1] == s[i..i + 2][1];
  }

  lemma {:induction false} ReadLe32(s: bytes, i: nat, v: nat)
    requires v < 0x1_0000_0000 && i + 4 <= |s| && s[i..i + 4] == Le32(v)
    ensures U32(s, i) == v
  {
    assert s[i..i + 2] == s[i..i + 4][..2] == Le16(v % 0x1_0000);
    assert s[i + 2..i + 4] == s[i..i + 4][2..] == Le16(v / 0x1_0000);
    ReadLe16(s, i, v % 0x1_0000);
    ReadLe16(s, i + 2, v / 0x1_0000);
  }

  /** Python's `s[lo:hi] = d` on a bytearray, growth and clamping included. */
  function SetSlice(s: bytes, lo: nat, hi: nat, d: bytes): bytes
    requires lo <= hi
  {
    s[..Min(lo, |s|)] + d + s[Min(hi, |s|)..]
  }

  /** Python's `s[a:b]`. */
  function Slice(s: bytes, a: nat, b: nat): bytes
    requires a <= b
  {
    s[Min(a, |s|)..Min(b, |s|)]
  }

  lemma {:induction false} SliceHas(s: bytes, at: nat, d: bytes)
    requires Has(s, at, d)
    ensures Slice(s, at, at + |d|) == d
  {
  }

  /** The usual store `s[off:off+len(d)] = d`. */
  function Store(s: bytes, off: nat, d: bytes): bytes {
    SetSlice(s, off, off + |d|, d)
  }

  /** Data d lies at offset off. */
  ghost predicate Has(s: bytes, off: nat, d: bytes) {
    off + |d| <= |s| && s[off..off + |d|] == d
  }

  /** A store inside the buffer replaces exactly its range. */
  lemma {:induction false} StoreInside(s: bytes, off: nat, d: bytes)
    requires off + |d| <= |s|
    ensures |Store(s, off, d)| == |s| && Has(Store(s, off, d), off, d)
    ensures forall k :: 0 <= k < |s| ==>
              Store(s, off, d)[k] == if off <= k < off + |d| then d[k - off] else s[k]
  {
  }

  /** A store leaves what lies apart from its range as it was. */
  lemma {:induction false} StoreApart(s: bytes, off: nat, d: bytes, at: nat, e: bytes)
    requires off + |d| <= |s| && Has(s, at, e)
    requires at + |e| <= off || off + |d| <= at
    ensures Has(Store(s, off, d), at, e)
  {
    var t := Store(s, off, d);
    StoreInside(s, off, d);
    assert forall k :: at <= k < at + |e| ==> t[k] == s[k];
    assert t[at..at + |e|] == s[at..at + |e|];
  }

  lemma {:induction false} HasPart(s: bytes, off: nat, d: bytes, a: nat, b: nat)
    requires Has(s, off, d) && a <= b <= |d|
    ensures Has(s, off + a, d[a..b])
  {
    var lo, hi, part := off + a, off + b, d[a..b];
    assert |s[lo..hi]| == |part|;
    forall k | 0 <= k < |part|
      ensures s[lo..hi][k] == part[k]
    {
      assert s[off..off + |d|][a + k] == s[lo + k];
    }
  }

  lemma {:induction false} HasAt(s: bytes, off: nat, d: bytes, k: nat)
    requires Has(s, off, d) && k < |d|
    ensures s[off + k] == d[k]
  {
    assert s[off..off + |d|][k] == s[off + k];
  }

  lemma {:induction false} HasU16(s: bytes, off: nat, d: bytes, k: nat)
    requires Has(s, off, d) && k + 2 <= |d|
    ensures U16(s, off + k) == U16(d, k)
  {
    HasAt(s, off, d, k);
    HasAt(s, off, d, k + 1);
  }

  lemma {:induction false} HasU32(s: bytes, off: nat, d: bytes, k: nat)
    requires Has(s, off, d) && k + 4 <= |d|
    ensures U32(s, off + k) == U32(d, k)
  {
    HasU16(s, off, d, k);
    HasU16(s, off, d, k + 2);
  }
}
