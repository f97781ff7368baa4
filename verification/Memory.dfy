/** The byte-addressed memory of the boot replay (class Mem in tools/qizocheck/qizobootmodel.py),
    which the stage2 routines run on as well. */
module Memory {
  import opened Bits
  import opened Bytes

  class Mem {
    var buf: bytes

    constructor (size: nat)
      ensures buf == Zeros(size)
    {
      buf := Zeros(size);
    }

    /** Inside the buffer the write is read back and nothing else changes; a write across the end
        makes the buffer longer. */
    method Write(addr: nat, data: bytes)
      modifies this
      ensures buf == Store(old(buf), addr, data)
      ensures addr + |data| <= |old(buf)| ==> Has(buf, addr, data) && ChangedOnly(buf, old(buf), addr, addr + |data|)
      ensures addr <= |old(buf)| < addr + |data| ==> Has(buf, addr, data) && |buf| == addr + |data|
    {
      buf := Store(buf, addr, data);
    }

    method PutU8(addr: nat, v: nat)
      requires addr < |buf|
      modifies this
      ensures buf == Store(old(buf), addr, [v % 256])
    {
      buf := Store(buf, addr, [v % 256]);
    }

    method PutU16(addr: nat, v: nat)
      requires addr + 2 <= |buf| && v < 0x1_0000
      modifies this
      ensures buf == Store(old(buf), addr, Le16(v))
    {
      buf := Store(buf, addr, Le16(v));
    }

    method PutU32(addr: nat, v: nat)
      requires addr + 4 <= |buf| && v < 0x1_0000_0000
      modifies this
      ensures buf == Store(old(buf), addr, Le32(v))
    {
      buf := Store(buf, addr, Le32(v));
    }
  }

  /** Memory differs from `was` only inside [lo, hi). */
  ghost predicate ChangedOnly(mem: bytes, was: bytes, lo: nat, hi: nat) {
    |mem| == |was| && lo <= hi <= |mem| && mem[..lo] == was[..lo] && mem[hi..] == was[hi..]
  }

  lemma {:induction false} ChangedByStore(mem: bytes, was: bytes, lo: nat, hi: nat, at: nat, d: bytes)
    requires ChangedOnly(mem, was, lo, hi) && lo <= at && at + |d| <= hi
    ensures ChangedOnly(Store(mem, at, d), was, lo, hi)
  {
    StoreInside(mem, at, d);
    var next := Store(mem, at, d);
    assert next[..lo] == mem[..lo] && next[hi..] == mem[hi..];
  }

  lemma {:induction false} ChangedThen(mem: bytes, mid: bytes, was: bytes, lo: nat, hi: nat)
    requires ChangedOnly(mem, mid, lo, hi) && ChangedOnly(mid, was, lo, hi)
    ensures ChangedOnly(mem, was, lo, hi)
  {
  }

  /** A changed range that reads as d is a store of d. */
  lemma {:induction false} ChangedIsStore(mem: bytes, was: bytes, at: nat, d: bytes)
    requires ChangedOnly(mem, was, at, at + |d|) && mem[at..at + |d|] == d
    ensures mem == Store(was, at, d)
  {
    assert mem == mem[..at] + mem[at..at + |d|] + mem[at + |d|..];
  }

  /** What lies apart from the changed range is still there. */
  lemma {:induction false} StillHas(mem: bytes, was: bytes, lo: nat, hi: nat, at: nat, e: bytes)
    requires ChangedOnly(mem, was, lo, hi) && Has(was, at, e) && (at + |e| <= lo || hi <= at)
    ensures Has(mem, at, e)
  {
    if at + |e| <= lo {
      assert mem[at..at + |e|] == mem[..lo][at..at + |e|] == was[..lo][at..at + |e|];
    } else {
      assert mem[at..at + |e|] == mem[hi..][at - hi..at - hi + |e|] == was[hi..][at - hi..at - hi + |e|];
    }
  }

  lemma {:induction false} HasLe16(mem: bytes, at: nat, v: nat)
    requires v < 0x1_0000 && Has(mem, at, Le16(v))
    ensures U16(mem, at) == v
  {
    ReadLe16(mem, at, v);
  }

  lemma {:induction false} HasLe32(mem: bytes, at: nat, v: nat)
    requires v < 0x1_0000_0000 && Has(mem, at, Le32(v))
    ensures U32(mem, at) == v
  {
    ReadLe32(mem, at, v);
  }
}
