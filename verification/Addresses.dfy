/** Printing link and network addresses out of a buffer. */
module Addresses {
  import opened Radix
  import opened Text
  import opened Bytes

  /** A read past the end of the buffer yields zero. */
  function ByteAt(buffer: seq<Byte>, i: nat): Byte
  {
    if i < |buffer| then buffer[i] else 0
  }

  function ReadMac(buffer: seq<Byte>, offset: nat): string
  {
    Join(seq(6, i requires 0 <= i < 6 => Render(Digits(16, ByteAt(buffer, offset + i), 2))), ":")
  }

  function ReadIpv4(buffer: seq<Byte>, offset: nat): string
  {
    Join(seq(4, i requires 0 <= i < 4 => Dec(ByteAt(buffer, offset + i))), ".")
  }

  /** The eight 16-bit groups of an IPv6 address. */
  function Groups(buffer: seq<Byte>, offset: nat): (groups: seq<nat>)
    ensures |groups| == 8 && AreDigits(0x1_0000, groups)
  {
    seq(8, i requires 0 <= i < 8 => ByteAt(buffer, offset + 2 * i) * 256 + ByteAt(buffer, offset + 2 * i + 1))
  }

  function HexGroups(groups: seq<nat>): (r: seq<string>)
    ensures |r| == |groups|
  {
    seq(|groups|, i requires 0 <= i < |groups| => Hex(groups[i]))
  }

  // ---------- the run that "::" replaces ----------

  predicate ZeroRun(groups: seq<nat>, start: int, length: int)
  {
    0 <= start && 0 <= length && start + length <= |groups| &&
    forall i :: start <= i < start + length ==> groups[i] == 0
  }

  /** Section 4.2.3 of RFC 5952: the longest run of zero groups, the first one on a tie. */
  ghost predicate LeftmostLongest(groups: seq<nat>, start: int, length: int)
  {
    if length == 0 then start == -1 && forall i :: 0 <= i < |groups| ==> groups[i] != 0
    else
      ZeroRun(groups, start, length) &&
      forall s, n :: ZeroRun(groups, s, n) ==> n < length || (n == length && start <= s)
  }

  function RunLength(groups: seq<nat>, i: nat): (n: nat)
    requires i <= |groups|
    ensures i + n <= |groups|
    decreases |groups| - i
  {
    if i == |groups| || groups[i] != 0 then 0 else 1 + RunLength(groups, i + 1)
  }

  /** Reference search: measure the run at every position, keep the first longest one. */
  function BestRunFrom(groups: seq<nat>, i: nat): (best: (int, nat))
    requires i <= |groups|
    ensures best.1 > 0 ==> i <= best.0 && best.0 + best.1 <= |groups|
    decreases |groups| - i
  {
    if i == |groups| then (-1, 0) else
    var rest := BestRunFrom(groups, i + 1);
    var n := RunLength(groups, i);
    if n > 0 && n >= rest.1 then (i, n) else rest
  }

  lemma {:induction false} RunLengthIsLongest(groups: seq<nat>, i: nat)
    requires i <= |groups|
    ensures ZeroRun(groups, i, RunLength(groups, i))
    ensures forall n :: ZeroRun(groups, i, n) ==> n <= RunLength(groups, i)
    decreases |groups| - i
  {
    if i < |groups| && groups[i] == 0 {
      RunLengthIsLongest(groups, i + 1);
      forall n | ZeroRun(groups, i, n) ensures n <= RunLength(groups, i) {
        if n > 0 { assert ZeroRun(groups, i + 1, n - 1); }
      }
    } else {
      forall n | ZeroRun(groups, i, n) ensures n <= 0 {
        if n > 0 { ZeroRunHead(groups, i, n); }
      }
    }
  }

  ghost predicate BestAfter(groups: seq<nat>, i: nat, start: int, length: int)
  {
    (length == 0 ==> start == -1 && forall k :: i <= k < |groups| ==> groups[k] != 0) &&
    (length > 0 ==> start >= i && ZeroRun(groups, start, length)) &&
    forall s, n :: s >= i && ZeroRun(groups, s, n) ==> n < length || (n == length && (n == 0 || start <= s))
  }

  lemma {:induction false} BestRunFromIsBest(groups: seq<nat>, i: nat)
    requires i <= |groups|
    ensures BestAfter(groups, i, BestRunFrom(groups, i).0, BestRunFrom(groups, i).1)
    decreases |groups| - i
  {
    if i < |groups| {
      BestRunFromIsBest(groups, i + 1);
      RunLengthIsLongest(groups, i);
    }
  }

  function BestRun(groups: seq<nat>): (int, nat) { BestRunFrom(groups, 0) }

  lemma ZeroRunHead(groups: seq<nat>, start: int, length: int)
    requires length > 0 && ZeroRun(groups, start, length)
    ensures 0 <= start < |groups| && groups[start] == 0
  {
  }

  /** The reference search finds the run the RFC asks for, and that run is unique. */
  lemma BestRunIsLeftmostLongest(groups: seq<nat>, start: int, length: nat)
    ensures LeftmostLongest(groups, start, length) <==> BestRun(groups) == (start, length)
  {
    BestRunFromIsBest(groups, 0);
    var (s, n) := BestRun(groups);
    assert LeftmostLongest(groups, s, n);
    if LeftmostLongest(groups, start, length) {
      if length == 0 {
        if n > 0 { ZeroRunHead(groups, s, n); }
      } else {
        assert ZeroRun(groups, start, length);
        if n > 0 { assert ZeroRun(groups, s, n); }
      }
    }
  }

  /** The single scan of the source, with its open run. */
  method FindBestRun(groups: seq<nat>) returns (bestStart: int, bestLength: nat)
    ensures LeftmostLongest(groups, bestStart, bestLength)
    ensures (bestStart, bestLength) == BestRun(groups)
  {
    bestStart, bestLength := -1, 0;
    var runStart := -1;
    for i := 0 to |groups| + 1
      invariant i == |groups| + 1 ==> runStart == -1
      invariant runStart != -1 ==> i <= |groups| && ZeroRun(groups, runStart, i - runStart) && runStart < i
      invariant runStart != -1 && runStart > 0 ==> groups[runStart - 1] != 0
      invariant runStart == -1 && 0 < i <= |groups| ==> groups[i - 1] != 0
      invariant bestLength == 0 ==> bestStart == -1
      invariant bestLength > 0 ==> ZeroRun(groups, bestStart, bestLength) && bestStart + bestLength <= i
      invariant forall s, n :: 0 < n && ZeroRun(groups, s, n) && s + n <= i ==>
                  (runStart != -1 && s >= runStart) || n < bestLength || (n == bestLength && bestStart <= s)
    {
      if i < |groups| && groups[i] == 0 {
        if runStart == -1 { runStart := i; }
      } else if runStart != -1 {
        var runLength := i - runStart;
        if runLength > bestLength {
          bestStart, bestLength := runStart, runLength;
        }
        runStart := -1;
      }
    }
    if bestLength == 0 {
      forall i | 0 <= i < |groups| ensures groups[i] != 0 {
        if groups[i] == 0 { assert ZeroRun(groups, i, 1); }
      }
    }
    BestRunIsLeftmostLongest(groups, bestStart, bestLength);
  }

  // ---------- IPv6 text ----------

  function CompressedText(groups: seq<nat>): string
  {
    var (start, length) := BestRun(groups);
    var hex := HexGroups(groups);
    if length < 2 then Join(hex, ":")
    else Join(hex[..start], ":") + "::" + Join(hex[start + length..], ":")
  }

  function ReadIpv6(buffer: seq<Byte>, offset: nat): string
  {
    CompressedText(Groups(buffer, offset))
  }

  method PrintIpv6(buffer: seq<Byte>, offset: nat) returns (text: string)
    ensures text == ReadIpv6(buffer, offset)
  {
    var groups: seq<nat> := [];
    for i := 0 to 8
      invariant groups == Groups(buffer, offset)[..i]
    {
      groups := groups + [ByteAt(buffer, offset + i * 2) * 256 + ByteAt(buffer, offset + i * 2 + 1)];
    }
    assert groups == Groups(buffer, offset);
    var bestStart, bestLength := FindBestRun(groups);
    var hexGroups := HexGroups(groups);
    if bestLength < 2 {
      return Join(hexGroups, ":");
    }
    var head := Join(hexGroups[..bestStart], ":");
    var tail := Join(hexGroups[bestStart + bestLength..], ":");
    return head + "::" + tail;
  }

  /** Printing looks at the sixteen bytes of the address and nothing else in the buffer. */
  lemma GroupsAreLocal(buffer: seq<Byte>, offset: nat, other: seq<Byte>, at: nat)
    requires offset + 16 <= |buffer| && at + 16 <= |other|
    requires buffer[offset..offset + 16] == other[at..at + 16]
    ensures Groups(buffer, offset) == Groups(other, at)
  {
    forall i | 0 <= i < 8 ensures Groups(buffer, offset)[i] == Groups(other, at)[i] {
      assert buffer[offset..offset + 16][2 * i] == other[at..at + 16][2 * i];
      assert buffer[offset..offset + 16][2 * i + 1] == other[at..at + 16][2 * i + 1];
    }
  }

  /** The groups are the base-65536 digits of the address. */
  lemma {:induction false} GroupsValue(bytes: seq<Byte>)
    requires |bytes| == 16
    ensures Value(0x1_0000, Groups(bytes, 0)) == ReadUint(bytes)
  {
    PairsValue(bytes, 8);
    assert Groups(bytes, 0)[..8] == Groups(bytes, 0) && bytes[..16] == bytes;
  }

  lemma {:induction false} PairsValue(bytes: seq<Byte>, n: nat)
    requires |bytes| == 16 && n <= 8
    ensures Value(0x1_0000, Groups(bytes, 0)[..n]) == ReadUint(bytes[..2 * n])
  {
    if n > 0 {
      var gs, bs := Groups(bytes, 0)[..n], bytes[..2 * n];
      PairsValue(bytes, n - 1);
      assert gs[..n - 1] == Groups(bytes, 0)[..n - 1];
      var init := bs[..|bs| - 1];
      assert init[..|init| - 1] == bytes[..2 * (n - 1)];
      assert ReadUint(bs) == Value(256, init) * 256 + bytes[2 * n - 1];
      assert Value(256, init) == Value(256, init[..|init| - 1]) * 256 + bytes[2 * n - 2];
      assert Value(0x1_0000, gs) == Value(0x1_0000, gs[..n - 1]) * 0x1_0000 + gs[n - 1];
    }
  }
}
