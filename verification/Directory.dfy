/** Root directory entries: `dir_entry` of the image tool and the name decoding of `check_fs`. */
module Directory {
  import opened Bits
  import opened Bytes

  const MODTIME: nat := 0x4000
  const MODDATE: nat := 0x5C61

  // ---------------------------------------------------------------- names

  /** Position of the last dot, or -1. */
  function LastDot(s: string): (r: int)
    ensures -1 <= r < |s|
    ensures r >= 0 ==> s[r] == '.'
    ensures forall i :: r < i < |s| ==> s[i] != '.'
  {
    if |s| == 0 then -1
    else if s[|s| - 1] == '.' then |s| - 1
    else LastDot(s[..|s| - 1])
  }

  function BaseOf(name: string): string {
    if LastDot(name) >= 0 then name[..LastDot(name)] else name
  }

  function ExtOf(name: string): string {
    if LastDot(name) >= 0 then name[LastDot(name) + 1..] else ""
  }

  /** `s.upper()[:width].ljust(width)` as bytes, for ASCII text. */
  function Field(s: string, width: nat): (r: bytes)
    requires Ascii(s)
    ensures |r| == width
  {
    seq(width, i requires 0 <= i < width =>
      if i < |s| then UpperByte(s[i]) else 32)
  }

  function UpperByte(c: char): byte
    requires c as int < 128
  {
    if 'a' <= c <= 'z' then c as int - 32 else c as int
  }

  predicate Ascii(s: string) { forall i :: 0 <= i < |s| ==> s[i] as int < 128 }

  predicate Plain(c: char) { 32 < c as int < 127 && c != '.' && !('a' <= c <= 'z') }

  /** An 8.3 name in the form the volume stores: upper case, no blanks, at most one dot. */
  predicate Name83(name: string) {
    var b, e := BaseOf(name), ExtOf(name);
    && 1 <= |b| <= 8 && |e| <= 3 && (LastDot(name) >= 0 ==> |e| >= 1)
    && (forall i :: 0 <= i < |b| ==> Plain(b[i])) && (forall i :: 0 <= i < |e| ==> Plain(e[i]))
  }

  // ---------------------------------------------------------------- entries

  function DirEntry(name: string, size: nat, cluster: nat, attrs: byte): (r: bytes)
    requires Ascii(name) && size < 0x1_0000_0000
    ensures |r| == 32
  {
    PartsAscii(name);
    Field(BaseOf(name), 8) + Field(ExtOf(name), 3) + [attrs, 0, 0]
    + Le16(MODTIME) + Le16(MODDATE) + Le16(MODDATE) + Le16(0) + Le16(MODTIME) + Le16(MODDATE)
    + Le16(cluster % 0x1_0000) + Le32(size)
  }

  lemma {:induction false} PartsAscii(name: string)
    requires Ascii(name)
    ensures Ascii(BaseOf(name)) && Ascii(ExtOf(name))
  {
  }

  lemma {:induction false} NameAscii(name: string)
    requires Name83(name)
    ensures Ascii(name)
  {
    var d := LastDot(name);
    forall i | 0 <= i < |name|
      ensures name[i] as int < 128
    {
      if d >= 0 && i > d { assert ExtOf(name)[i - d - 1] == name[i]; }
      else if d < 0 || i < d { assert BaseOf(name)[i] == name[i]; }
    }
  }

  // ---------------------------------------------------------------- reading them back

  /** `b.decode().strip()` on a space-padded field: drop blanks at both ends. */
  function Strip(b: bytes): string {
    if |b| > 0 && b[|b| - 1] == 32 then Strip(b[..|b| - 1])
    else if |b| > 0 && b[0] == 32 then Strip(b[1..])
    else seq(|b|, i requires 0 <= i < |b| => b[i] as char)
  }

  function StripDots(s: string): string {
    if |s| > 0 && s[|s| - 1] == '.' then StripDots(s[..|s| - 1])
    else if |s| > 0 && s[0] == '.' then StripDots(s[1..])
    else s
  }

  function NameOf(e: bytes): string
    requires |e| == 32
  {
    StripDots(Strip(e[0..8]) + "." + Strip(e[8..11]))
  }

  lemma {:induction false} StripField(s: string, width: nat)
    requires |s| <= width && (forall i :: 0 <= i < |s| ==> Plain(s[i]))
    ensures Ascii(s) && Strip(Field(s, width)) == s
    decreases width
  {
    var f := Field(s, width);
    if |s| < width {
      assert f[..width - 1] == Field(s, width - 1);
      StripField(s, width - 1);
    } else if |s| > 0 {
      assert f[|s| - 1] == s[|s| - 1] as int && f[0] == s[0] as int;
    }
  }

  /** A stored 8.3 name reads back as itself. */
  lemma {:induction false} NameRoundTrip(name: string, size: nat, cluster: nat, attrs: byte)
    requires Name83(name) && size < 0x1_0000_0000
    ensures Ascii(name) && NameOf(DirEntry(name, size, cluster, attrs)) == name
  {
    NameAscii(name);
    PartsAscii(name);
    var e := DirEntry(name, size, cluster, attrs);
    var b, x := BaseOf(name), ExtOf(name);
    assert e[0..8] == Field(b, 8) && e[8..11] == Field(x, 3);
    StripField(b, 8);
    StripField(x, 3);
    var d := LastDot(name);
    var joined := b + "." + x;
    assert joined[0] == b[0] != '.';
    if d >= 0 {
      assert name == joined;
      assert joined[|joined| - 1] == x[|x| - 1] != '.';
    } else {
      assert joined[..|joined| - 1] == b && joined[|joined| - 1] == '.';
      assert Plain(b[0]) && Plain(b[|b| - 1]);
      assert StripDots(b) == b;
    }
  }

  function UpperChar(c: char): char {
    if 'a' <= c <= 'z' then (c as int - 32) as char else c
  }

  function Upper(s: string): (r: string) {
    seq(|s|, i requires 0 <= i < |s| => UpperChar(s[i]))
  }

  lemma {:induction false} LastDotUnique(s: string, d: int)
    requires -1 <= d < |s| && (d >= 0 ==> s[d] == '.') && forall i :: d < i < |s| ==> s[i] != '.'
    ensures LastDot(s) == d
  {
  }

  lemma {:induction false} UpperParts(name: string)
    ensures BaseOf(Upper(name)) == Upper(BaseOf(name)) && ExtOf(Upper(name)) == Upper(ExtOf(name))
    ensures Ascii(name) ==> Ascii(Upper(name))
  {
    LastDotUnique(Upper(name), LastDot(name));
  }

  lemma {:induction false} UpperField(s: string, width: nat)
    requires Ascii(s) && Ascii(Upper(s))
    ensures Field(Upper(s), width) == Field(s, width)
  {
  }

  /** A name in any case is stored in upper case: as an 8.3 name it reads back as its upper-case form. */
  lemma {:induction false} NameReadsUpper(name: string, size: nat, cluster: nat, attrs: byte)
    requires Ascii(name) && Name83(Upper(name)) && size < 0x1_0000_0000
    ensures NameOf(DirEntry(name, size, cluster, attrs)) == Upper(name)
  {
    UpperParts(name);
    PartsAscii(name);
    PartsAscii(Upper(name));
    UpperField(BaseOf(name), 8);
    UpperField(ExtOf(name), 3);
    assert DirEntry(Upper(name), size, cluster, attrs) == DirEntry(name, size, cluster, attrs);
    NameRoundTrip(Upper(name), size, cluster, attrs);
  }

  /** The other fields of an entry read back too. */
  lemma {:induction false} EntryFields(name: string, size: nat, cluster: nat, attrs: byte)
    requires Ascii(name) && size < 0x1_0000_0000 && cluster < 0x1_0000
    ensures var e := DirEntry(name, size, cluster, attrs);
      && e[11] == attrs && U16(e, 26) == cluster && U32(e, 28) == size
      && U16(e, 14) == U16(e, 22) == MODTIME && U16(e, 16) == U16(e, 18) == U16(e, 24) == MODDATE
  {
    var e := DirEntry(name, size, cluster, attrs);
    assert e[26..28] == Le16(cluster) && e[28..32] == Le32(size);
    ReadLe16(e, 26, cluster);
    ReadLe32(e, 28, size);
  }

  /** The first byte of an entry is never zero, so the reader does not stop at it. */
  lemma {:induction false} EntryNotEnd(name: string, size: nat, cluster: nat, attrs: byte)
    requires Ascii(name) && size < 0x1_0000_0000 && (forall i :: 0 <= i < |name| ==> name[i] as int != 0)
    ensures DirEntry(name, size, cluster, attrs)[0] != 0
  {
    PartsAscii(name);
    var f := Field(BaseOf(name), 8);
    assert DirEntry(name, size, cluster, attrs)[0] == f[0];
  }
}
