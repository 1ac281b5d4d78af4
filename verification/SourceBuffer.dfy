/** The cursor buffer of the deserializer: reads that never run past the end, with an overflow-checked advance. */
module SourceBuffers {
  import opened GoTypes

  /** The number a big-endian byte string stands for. */
  function BigEndian(b: Bytes): nat {
    if b == [] then 0 else BigEndian(b[..|b| - 1]) * 256 + b[|b| - 1]
  }

  /** x + y modulo 2^64, and whether it overflowed. */
  function SafeAdd(x: uint64, y: uint64): (uint64, bool) {
    (WrapUint64(x as int + y), y > MAX_UINT64 as int - x)
  }

  /** Where a read of n bytes at offset off ends in a buffer of length len, and whether it ran into the end. */
  function Advance(off: nat, n: nat, len: nat): (nat, bool) {
    if off + n > len then (len, true) else (off + n, false)
  }

  lemma SafeAddIsAdvance(off: uint64, n: uint64, len: uint64)
    requires off <= len
    ensures var (end, overflow) := SafeAdd(off, n);
      (if overflow || end > len then (len as nat, true) else (end as nat, false)) == Advance(off, n, len)
  {
  }

  lemma {:induction false} BigEndianBound(b: Bytes)
    ensures |b| == 1 ==> BigEndian(b) < 0x100
    ensures |b| == 2 ==> BigEndian(b) < 0x1_0000
    ensures |b| == 4 ==> BigEndian(b) < 0x1_0000_0000
    ensures |b| == 8 ==> BigEndian(b) < TWO_64
    ensures BigEndian(b) < Pow256(|b|)
  {
    if b != [] {
      BigEndianBound(b[..|b| - 1]);
    }
    PowValues();
  }

  function Pow256(w: nat): (p: nat)
    ensures p > 0
  {
    if w == 0 then 1 else 256 * Pow256(w - 1)
  }

  lemma PowValues()
    ensures Pow256(1) == 0x100 && Pow256(2) == 0x1_0000 && Pow256(4) == 0x1_0000_0000 && Pow256(8) == TWO_64
  {
    assert Pow256(3) == 256 * Pow256(2) && Pow256(5) == 256 * Pow256(4) && Pow256(6) == 256 * Pow256(5);
    assert Pow256(7) == 256 * Pow256(6);
  }

  class SourceBuffer {
    const s: Bytes
    var off: uint64

    /** A Go slice is shorter than 2^63, and the cursor never leaves it. */
    ghost predicate Valid()
      reads this
    {
      |s| < TWO_63 && off <= |s|
    }

    constructor (b: Bytes)
      requires |b| < TWO_63
      ensures s == b && off == 0 && Valid()
    {
      s := b;
      off := 0;
    }

    function OffBytes(): Bytes
      requires Valid()
      reads this
    {
      s[off..]
    }

    method NextBytes(n: uint32) returns (data: Bytes, eof: bool)
      requires Valid()
      modifies this
      ensures Valid() && (off as nat, eof) == Advance(old(off), n, |s|) && data == s[old(off)..off]
    {
      var m := |s|;
      var (end, overflow) := SafeAdd(off, n);
      SafeAddIsAdvance(off, n, m);
      eof := false;
      if overflow || end > m {
        end, eof := m, true;
      }
      data := s[off..end];
      off := end;
    }

    method Skip(n: uint64) returns (eof: bool)
      requires Valid()
      modifies this
      ensures Valid() && (off as nat, eof) == Advance(old(off), n, |s|)
    {
      var m := |s|;
      var (end, overflow) := SafeAdd(off, n);
      SafeAddIsAdvance(off, n, m);
      eof := false;
      if overflow || end > m {
        end, eof := m, true;
      }
      off := end;
    }

    method NextByte() returns (data: byte, eof: bool)
      requires Valid()
      modifies this
      ensures Valid() && (off as nat, eof) == Advance(old(off), 1, |s|)
      ensures data == if eof then 0 else s[old(off)]
    {
      if off >= |s| {
        return 0, true;
      }
      data, eof := s[off], false;
      off := off + 1;
    }

    /** A byte other than 0 and 1 is reported as the end of the buffer, after it was consumed. */
    method NextBool() returns (data: bool, eof: bool)
      requires Valid()
      modifies this
      ensures Valid() && off as nat == Advance(old(off), 1, |s|).0
      ensures eof <==> old(off) == |s| || s[old(off)] > 1
      ensures !eof ==> data == (s[old(off)] == 1)
    {
      var val: byte;
      val, eof := NextByte();
      data := false;
      if val == 0 {
        data := false;
      } else if val == 1 {
        data := true;
      } else {
        eof := true;
      }
    }

    /** NextUint16, NextUint32 and NextUint64 for n = 2, 4 and 8. */
    method NextUint(n: uint32) returns (val: nat, eof: bool)
      requires Valid() && (n == 2 || n == 4 || n == 8)
      modifies this
      ensures Valid() && (off as nat, eof) == Advance(old(off), n, |s|)
      ensures val == if eof then 0 else BigEndian(s[old(off)..off])
    {
      var buf;
      buf, eof := NextBytes(n);
      val := if eof then 0 else BigEndian(buf);
    }

    /** A four-byte length, then that many bytes. */
    method NextVarBytes() returns (data: Bytes, eof: bool)
      requires Valid()
      modifies this
      ensures Valid()
      ensures old(off) + 4 > |s| ==> eof && off == |s|
      ensures old(off) + 4 <= |s| ==>
        var start := old(off) + 4;
        && (off as nat, eof) == Advance(start, BigEndian(s[old(off)..start]), |s|)
        && data == s[start..off]
    {
      var count;
      count, eof := NextUint(4);
      if eof {
        return [], eof;
      }
      BigEndianBound(s[old(off)..off]);
      data, eof := NextBytes(count);
    }
  }
}
