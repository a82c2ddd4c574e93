/** Buffers as byte strings, with the big-endian reads and writes the codec is made of. */
module Bytes {
  import opened Radix

  type Byte = b: int | 0 <= b < 256

  /** The unsigned big-endian integer held by a whole byte string. */
  function ReadUint(s: seq<Byte>): nat { Value(256, s) }

  /** `length` bytes holding `v`; a value too wide is refused by the writer, see `WriteUint`. */
  function Uint(v: nat, length: nat): (s: seq<Byte>)
    ensures |s| == length
  {
    var ds := Digits(256, v, length);
    seq(length, i requires 0 <= i < length => ds[i] as Byte)
  }

  function Zeros(n: nat): (s: seq<Byte>)
    ensures |s| == n
  {
    seq(n, _ => 0)
  }

  function Concat(parts: seq<seq<Byte>>): seq<Byte>
  {
    if parts == [] then [] else parts[0] + Concat(parts[1..])
  }

  lemma {:induction false} ConcatSnoc(parts: seq<seq<Byte>>, last: seq<Byte>)
    ensures Concat(parts + [last]) == Concat(parts) + last
  {
    if parts == [] {
      assert [last][1..] == [];
    } else {
      assert (parts + [last])[1..] == parts[1..] + [last];
      ConcatSnoc(parts[1..], last);
    }
  }

  lemma ReadUintOfUint(v: nat, length: nat)
    requires v < Pow(256, length)
    ensures ReadUint(Uint(v, length)) == v
  {
    ValueOfDigits(256, v, length);
    assert Uint(v, length) == Digits(256, v, length);
  }

  /** Fixed-width reads decide the bytes: two buffers of one length never collide. */
  lemma ReadUintInjective(s: seq<Byte>, t: seq<Byte>)
    requires |s| == |t| && ReadUint(s) == ReadUint(t)
    ensures s == t
  {
    ValueInjective(256, s, t);
  }

  lemma Widths()
    ensures Pow(256, 1) == 0x100 && Pow(256, 2) == 0x1_0000 && Pow(256, 4) == 0x1_0000_0000
    ensures Pow(256, 6) == 0x1_0000_0000_0000 && Pow(256, 8) == 0x1_0000_0000_0000_0000
  {
    assert Pow(256, 0) == 1;
    assert Pow(256, 3) == 0x100_0000;
    assert Pow(256, 5) == 0x100_0000_0000;
    assert Pow(256, 7) == 0x100_0000_0000_0000;
  }

  /** The field of `length` bytes at `offset`, as a number. */
  function ReadAt(s: seq<Byte>, offset: nat, length: nat): nat
    requires offset + length <= |s|
  {
    ReadUint(s[offset..offset + length])
  }

  // ---------- the fixed-width reads ----------

  function ReadU16(s: seq<Byte>, offset: nat): (v: nat)
    requires offset + 2 <= |s|
    ensures v < 0x1_0000
  {
    (s[offset] as int) * 256 + s[offset + 1] as int
  }

  function ReadU32(s: seq<Byte>, offset: nat): (v: nat)
    requires offset + 4 <= |s|
    ensures v < 0x1_0000_0000
  {
    ReadU16(s, offset) * 0x1_0000 + ReadU16(s, offset + 2)
  }

  /** Two and four bytes, big-endian; what `Uint` gives at those widths. */
  function U16(v: nat): (s: seq<Byte>)
    ensures |s| == 2
  {
    [(v / 0x100) % 0x100, v % 0x100]
  }

  function U32(v: nat): (s: seq<Byte>)
    ensures |s| == 4
  {
    U16(v / 0x1_0000) + U16(v % 0x1_0000)
  }

  lemma UintIsU16(v: nat)
    ensures Uint(v, 2) == U16(v)
  {
    assert Digits(256, v / 256 / 256, 0) == [];
    assert Digits(256, v / 256, 1) == [v / 256 % 256];
  }

  lemma UintIsU32(v: nat)
    ensures Uint(v, 4) == U32(v)
  {
    assert Digits(256, v, 4) == Digits(256, v / 256 / 256, 2) + [v / 256 % 256, v % 256];
    UintIsU16(v / 0x1_0000);
    assert v / 256 / 256 == v / 0x1_0000;
    assert (v % 0x1_0000) / 256 % 256 == v / 256 % 256 && (v % 0x1_0000) % 256 == v % 256;
  }

  /** Two bytes are read most significant first. */
  lemma ReadU16IsReadAt(s: seq<Byte>, offset: nat)
    requires offset + 2 <= |s|
    ensures ReadU16(s, offset) == ReadAt(s, offset, 2)
  {
    var t := s[offset..offset + 2];
    assert Value(256, t[..1]) == Value(256, t[..1][..0]) * 256 + t[0];
    assert Value(256, t) == Value(256, t[..1]) * 256 + t[1];
  }

  /** So are four. */
  lemma ReadU32IsReadAt(s: seq<Byte>, offset: nat)
    requires offset + 4 <= |s|
    ensures ReadU32(s, offset) == ReadAt(s, offset, 4)
  {
    ReadU16IsReadAt(s, offset);
    ReadU16IsReadAt(s, offset + 2);
    var hi: seq<nat>, lo: seq<nat> := s[offset..offset + 2], s[offset + 2..offset + 4];
    ValueConcat(256, hi, lo);
    Widths();
    assert hi + lo == s[offset..offset + 4];
  }

  lemma U16OfRead(s: seq<Byte>, offset: nat)
    requires offset + 2 <= |s|
    ensures U16(ReadU16(s, offset)) == s[offset..offset + 2]
  {
  }

  lemma U16Shift(s: seq<Byte>, o: nat, k: nat)
    requires o + k + 2 <= |s|
    ensures ReadU16(s, o + k) == ReadU16(s[o..], k)
  {
  }

  lemma U32Shift(s: seq<Byte>, o: nat, k: nat)
    requires o + k + 4 <= |s|
    ensures ReadU32(s, o + k) == ReadU32(s[o..], k)
  {
  }

  /** A number written between two byte strings is read back from where it was written. */
  lemma ReadU16Written(before: seq<Byte>, v: nat, after: seq<Byte>)
    requires v < 0x1_0000
    ensures ReadU16(before + U16(v) + after, |before|) == v
  {
  }

  lemma ReadU32Written(before: seq<Byte>, v: nat, after: seq<Byte>)
    requires v < 0x1_0000_0000
    ensures ReadU32(before + U32(v) + after, |before|) == v
  {
    var s := before + U32(v) + after;
    assert s == before + U16(v / 0x1_0000) + (U16(v % 0x1_0000) + after);
    ReadU16Written(before, v / 0x1_0000, U16(v % 0x1_0000) + after);
    assert s == (before + U16(v / 0x1_0000)) + U16(v % 0x1_0000) + after;
    ReadU16Written(before + U16(v / 0x1_0000), v % 0x1_0000, after);
  }

  /** Writes in place; the writer's range check is its precondition. */
  method WriteUint(buffer: array<Byte>, v: nat, offset: nat, length: nat)
    requires offset + length <= buffer.Length && v < Pow(256, length)
    modifies buffer
    ensures buffer[..] == old(buffer[..offset]) + Uint(v, length) + old(buffer[offset + length..])
  {
    var bytes := Uint(v, length);
    for i := 0 to length
      invariant forall j :: 0 <= j < buffer.Length ==>
                  buffer[j] == if offset <= j < offset + i then bytes[j - offset] else old(buffer[j])
    {
      buffer[offset + i] := bytes[i];
    }
  }
}
