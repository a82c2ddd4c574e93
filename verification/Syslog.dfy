/** UTF-8, and cutting a line to a number of bytes at a character boundary. */
module Syslog {
  import opened Options
  import opened Bytes
  import opened Sequences

  /** A Unicode scalar value: any code point but a surrogate. */
  type Scalar = c: int | 0 <= c < 0xd800 || 0xe000 <= c < 0x11_0000

  /** " [truncated]" */
  const TRUNCATION_MARKER: seq<Scalar> :=
    [0x20, 0x5b, 0x74, 0x72, 0x75, 0x6e, 0x63, 0x61, 0x74, 0x65, 0x64, 0x5d]

  // ---------- UTF-8 (section 3 of RFC 3629) ----------

  function Encode(c: Scalar): (bytes: seq<Byte>)
    ensures 1 <= |bytes| <= 4
  {
    if c < 0x80 then [c]
    else if c < 0x800 then [0xc0 + c / 64, 0x80 + c % 64]
    else if c < 0x1_0000 then [0xe0 + c / 64 / 64, 0x80 + c / 64 % 64, 0x80 + c % 64]
    else [0xf0 + c / 64 / 64 / 64, 0x80 + c / 64 / 64 % 64, 0x80 + c / 64 % 64, 0x80 + c % 64]
  }

  function EncodeAll(line: seq<Scalar>): seq<Byte> { FlatMap(line, Encode) }

  predicate IsContinuation(b: Byte) { 0x80 <= b < 0xc0 }

  /** Two, three and four bytes that spell one character, refusing longer spellings than needed. */
  function FromTwo(a: int, b: int): Option<Scalar>
  {
    var v := (a - 0xc0) * 64 + (b - 0x80);
    if 0x80 <= v < 0x800 then Some(v) else None
  }

  function FromThree(a: int, b: int, c: int): Option<Scalar>
  {
    var v := ((a - 0xe0) * 64 + (b - 0x80)) * 64 + (c - 0x80);
    if 0x800 <= v < 0xd800 || 0xe000 <= v < 0x1_0000 then Some(v) else None
  }

  function FromFour(a: int, b: int, c: int, d: int): Option<Scalar>
  {
    var v := (((a - 0xf0) * 64 + (b - 0x80)) * 64 + (c - 0x80)) * 64 + (d - 0x80);
    if 0x1_0000 <= v < 0x11_0000 then Some(v) else None
  }

  /** How many bytes a first byte announces. */
  function Announced(a: Byte): Option<nat>
  {
    if a < 0x80 then Some(1)
    else if a < 0xc0 then None
    else if a < 0xe0 then Some(2)
    else if a < 0xf0 then Some(3)
    else if a < 0xf8 then Some(4)
    else None
  }

  /** The character that `s`, all of it, spells. */
  function DecodeOne(s: seq<Byte>): Option<Scalar>
  {
    if |s| == 1 then (if s[0] < 0x80 then Some(s[0]) else None)
    else if |s| == 2 then (if IsContinuation(s[1]) then FromTwo(s[0], s[1]) else None)
    else if |s| == 3 then
      if IsContinuation(s[1]) && IsContinuation(s[2]) then FromThree(s[0], s[1], s[2]) else None
    else if |s| == 4 then
      if IsContinuation(s[1]) && IsContinuation(s[2]) && IsContinuation(s[3])
      then FromFour(s[0], s[1], s[2], s[3]) else None
    else None
  }

  /** The character at the front and how many bytes it takes; None when the bytes are not UTF-8. */
  function DecodeFront(s: seq<Byte>): Option<(Scalar, nat)>
  {
    if s == [] then None
    else match Announced(s[0])
         case None => None
         case Some(n) =>
           if n > |s| then None
           else match DecodeOne(s[..n])
                case None => None
                case Some(c) => Some((c, n))
  }

  function DecodeAll(s: seq<Byte>): Option<seq<Scalar>>
  {
    if s == [] then Some([])
    else match DecodeFront(s)
         case None => None
         case Some(front) =>
           if !(1 <= front.1 <= |s|) then None else
           match DecodeAll(s[front.1..])
           case None => None
           case Some(rest) => Some([front.0] + rest)
  }

  /** Six bits taken off a number and put back. */
  lemma SixBits(x: nat, y: nat)
    requires y < 64
    ensures (x * 64 + y) / 64 == x && (x * 64 + y) % 64 == y
  {
  }

  lemma SixBitsOff(v: nat)
    ensures v / 64 * 64 + v % 64 == v
  {
  }

  lemma FromEncodedTwo(c: Scalar)
    requires 0x80 <= c < 0x800
    ensures FromTwo(0xc0 + c / 64, 0x80 + c % 64) == Some(c)
  {
    SixBitsOff(c);
  }

  lemma FromEncodedThree(c: Scalar)
    requires 0x800 <= c < 0x1_0000
    ensures FromThree(0xe0 + c / 64 / 64, 0x80 + c / 64 % 64, 0x80 + c % 64) == Some(c)
  {
    SixBitsOff(c);
    SixBitsOff(c / 64);
  }

  lemma FromEncodedFour(c: Scalar)
    requires 0x1_0000 <= c
    ensures FromFour(0xf0 + c / 64 / 64 / 64, 0x80 + c / 64 / 64 % 64, 0x80 + c / 64 % 64, 0x80 + c % 64) == Some(c)
  {
    SixBitsOff(c);
    SixBitsOff(c / 64);
    SixBitsOff(c / 64 / 64);
  }

  lemma OneOfEncoded(c: Scalar)
    ensures Announced(Encode(c)[0]) == Some(|Encode(c)|) && DecodeOne(Encode(c)) == Some(c)
  {
    if c < 0x80 {
    } else if c < 0x800 {
      FromEncodedTwo(c);
    } else if c < 0x1_0000 {
      FromEncodedThree(c);
    } else {
      FromEncodedFour(c);
    }
  }

  lemma FrontOfEncoded(c: Scalar, rest: seq<Byte>)
    ensures DecodeFront(Encode(c) + rest) == Some((c, |Encode(c)|))
  {
    OneOfEncoded(c);
    var s := Encode(c) + rest;
    assert s[0] == Encode(c)[0] && s[..|Encode(c)|] == Encode(c);
  }

  lemma EncodeCons(c: Scalar, line: seq<Scalar>)
    ensures EncodeAll([c] + line) == Encode(c) + EncodeAll(line)
  {
    FlatMapConcat([c], line, Encode);
    FlatMapSnoc([], c, Encode);
    assert [] + [c] == [c] && [] + Encode(c) == Encode(c);
  }

  /** Decoding undoes encoding. */
  lemma {:induction false} DecodeOfEncode(line: seq<Scalar>)
    ensures DecodeAll(EncodeAll(line)) == Some(line)
  {
    if line != [] {
      var c, rest := line[0], line[1..];
      assert line == [c] + rest;
      EncodeCons(c, rest);
      FrontOfEncoded(c, EncodeAll(rest));
      assert (Encode(c) + EncodeAll(rest))[|Encode(c)|..] == EncodeAll(rest);
      DecodeOfEncode(rest);
    }
  }

  lemma TwoSpells(a: int, b: int)
    requires 0xc0 <= a < 0xe0 && 0x80 <= b < 0xc0 && FromTwo(a, b).Some?
    ensures Encode(FromTwo(a, b).value) == [a, b]
  {
    SixBits(a - 0xc0, b - 0x80);
  }

  lemma ThreeSpells(a: int, b: int, c: int)
    requires 0xe0 <= a < 0xf0 && 0x80 <= b < 0xc0 && 0x80 <= c < 0xc0 && FromThree(a, b, c).Some?
    ensures Encode(FromThree(a, b, c).value) == [a, b, c]
  {
    var x := (a - 0xe0) * 64 + (b - 0x80);
    SixBits(x, c - 0x80);
    SixBits(a - 0xe0, b - 0x80);
  }

  lemma FourSpells(a: int, b: int, c: int, d: int)
    requires 0xf0 <= a < 0xf8 && 0x80 <= b < 0xc0 && 0x80 <= c < 0xc0 && 0x80 <= d < 0xc0
    requires FromFour(a, b, c, d).Some?
    ensures Encode(FromFour(a, b, c, d).value) == [a, b, c, d]
  {
    var x := (a - 0xf0) * 64 + (b - 0x80);
    var y := x * 64 + (c - 0x80);
    SixBits(y, d - 0x80);
    SixBits(x, c - 0x80);
    SixBits(a - 0xf0, b - 0x80);
  }

  lemma OneIsEncoded(s: seq<Byte>)
    requires s != [] && Announced(s[0]) == Some(|s|) && DecodeOne(s).Some?
    ensures Encode(DecodeOne(s).value) == s
  {
    if |s| == 2 {
      assert IsContinuation(s[1]);
      TwoSpells(s[0], s[1]);
    } else if |s| == 3 {
      assert IsContinuation(s[1]) && IsContinuation(s[2]);
      ThreeSpells(s[0], s[1], s[2]);
    } else if |s| == 4 {
      assert IsContinuation(s[1]) && IsContinuation(s[2]) && IsContinuation(s[3]);
      FourSpells(s[0], s[1], s[2], s[3]);
    }
  }

  lemma FrontIsEncoded(s: seq<Byte>)
    requires DecodeFront(s).Some?
    ensures DecodeFront(s).value.1 <= |s| && Encode(DecodeFront(s).value.0) == s[..DecodeFront(s).value.1]
  {
    OneIsEncoded(s[..DecodeFront(s).value.1]);
  }

  lemma DecodeStep(s: seq<Byte>) returns (c: Scalar, n: nat)
    requires s != [] && DecodeAll(s).Some?
    ensures 1 <= n <= |s| && Encode(c) == s[..n] && DecodeAll(s[n..]).Some?
    ensures DecodeAll(s).value == [c] + DecodeAll(s[n..]).value
  {
    c, n := DecodeFront(s).value.0, DecodeFront(s).value.1;
    FrontIsEncoded(s);
  }

  lemma EncodeFrontAndRest(line: seq<Scalar>, c: Scalar, rest: seq<Scalar>, s: seq<Byte>, n: nat)
    requires n <= |s| && line == [c] + rest && Encode(c) == s[..n] && EncodeAll(rest) == s[n..]
    ensures EncodeAll(line) == s
  {
    EncodeCons(c, rest);
    assert s == s[..n] + s[n..];
  }

  /** Whatever decodes is the encoding of what it decodes to: no second spelling is accepted. */
  lemma {:induction false} EncodeOfDecode(s: seq<Byte>)
    requires DecodeAll(s).Some?
    ensures EncodeAll(DecodeAll(s).value) == s
    decreases |s|
  {
    if s != [] {
      var c, n := DecodeStep(s);
      EncodeOfDecode(s[n..]);
      EncodeFrontAndRest(DecodeAll(s).value, c, DecodeAll(s[n..]).value, s, n);
    }
  }

  // ---------- character boundaries ----------

  /** Only the first byte of a character is not a continuation byte. */
  lemma ContinuationBytes(c: Scalar, j: nat)
    requires j < |Encode(c)|
    ensures IsContinuation(Encode(c)[j]) <==> j > 0
  {
  }

  /** The byte offset at which character `n` begins. */
  function Offset(line: seq<Scalar>, n: nat): nat
    requires n <= |line|
  {
    |EncodeAll(line[..n])|
  }

  lemma OffsetStep(line: seq<Scalar>, n: nat)
    requires n < |line|
    ensures Offset(line, n + 1) == Offset(line, n) + |Encode(line[n])|
  {
    FlatMapSnoc(line[..n], line[n], Encode);
    assert line[..n + 1] == line[..n] + [line[n]];
  }

  lemma {:induction false} OffsetMonotone(line: seq<Scalar>, m: nat, n: nat)
    requires m <= n <= |line|
    ensures Offset(line, m) <= Offset(line, n) && (m < n ==> Offset(line, m) < Offset(line, n))
    decreases n
  {
    if m < n {
      OffsetMonotone(line, m, n - 1);
      OffsetStep(line, n - 1);
    }
  }

  /** Which character a byte belongs to. */
  lemma {:induction false} CharacterAt(line: seq<Scalar>, e: nat, n: nat) returns (k: nat)
    requires n <= |line| && e < Offset(line, n)
    ensures k < n && Offset(line, k) <= e < Offset(line, k + 1)
    decreases n
  {
    if n > 0 && e >= Offset(line, n - 1) {
      k := n - 1;
    } else {
      k := CharacterAt(line, e, n - 1);
    }
  }

  lemma ByteOf(line: seq<Scalar>, e: nat, k: nat)
    requires k < |line| && Offset(line, k) <= e < Offset(line, k + 1)
    ensures e < |EncodeAll(line)| && e - Offset(line, k) < |Encode(line[k])|
    ensures EncodeAll(line)[e] == Encode(line[k])[e - Offset(line, k)]
  {
    OffsetStep(line, k);
    AroundCharacter(line, k);
  }

  lemma EncodeTail(tail: seq<Scalar>, c: Scalar, rest: seq<Scalar>)
    requires tail == [c] + rest
    ensures EncodeAll(tail) == Encode(c) + EncodeAll(rest)
  {
    EncodeCons(c, rest);
  }

  lemma SplitAround(line: seq<Scalar>, k: nat)
    requires k < |line|
    ensures line == line[..k] + line[k..] && line[k..] == [line[k]] + line[k + 1..]
  {
  }

  lemma AroundCharacter(line: seq<Scalar>, k: nat)
    requires k < |line|
    ensures EncodeAll(line) == EncodeAll(line[..k]) + (Encode(line[k]) + EncodeAll(line[k + 1..]))
  {
    SplitAround(line, k);
    FlatMapConcat(line[..k], line[k..], Encode);
    EncodeTail(line[k..], line[k], line[k + 1..]);
  }

  /** A byte is a continuation byte exactly when no character begins there. */
  lemma BoundaryBytes(line: seq<Scalar>, e: nat) returns (k: nat)
    requires e < |EncodeAll(line)|
    ensures k < |line| && Offset(line, k) <= e < Offset(line, k + 1)
    ensures IsContinuation(EncodeAll(line)[e]) <==> e != Offset(line, k)
    ensures e - Offset(line, k) <= 3
  {
    assert line[..|line|] == line;
    k := CharacterAt(line, e, |line|);
    ByteOf(line, e, k);
    ContinuationBytes(line[k], e - Offset(line, k));
  }

  lemma PrefixBytes(line: seq<Scalar>, k: nat)
    requires k <= |line|
    ensures Offset(line, k) <= |EncodeAll(line)| && EncodeAll(line)[..Offset(line, k)] == EncodeAll(line[..k])
  {
    FlatMapConcat(line[..k], line[k..], Encode);
    assert line == line[..k] + line[k..];
  }

  // ---------- truncation ----------

  function Fits(line: seq<Scalar>, maxBytes: int): bool { |EncodeAll(line)| <= maxBytes }

  /** What the budget leaves for the line once the marker has been paid for. */
  function Room(maxBytes: int): nat
  {
    if maxBytes < |TRUNCATION_MARKER| then 0 else maxBytes - |TRUNCATION_MARKER|
  }

  /** `k` characters is the longest whole-character prefix within the room left. */
  ghost predicate LongestPrefix(line: seq<Scalar>, k: nat, room: nat)
  {
    k <= |line| && Offset(line, k) <= room && forall n :: k < n <= |line| ==> Offset(line, n) > room
  }

  method FindCut(line: seq<Scalar>, buffer: seq<Byte>, room: nat) returns (end: nat)
    requires buffer == EncodeAll(line) && room < |buffer|
    ensures end <= room && (end == 0 || !IsContinuation(buffer[end]))
    ensures forall e :: end < e <= room ==> IsContinuation(buffer[e])
  {
    end := room;
    while end > 0 && IsContinuation(buffer[end])
      invariant 0 <= end <= room
      invariant forall e :: end < e <= room ==> IsContinuation(buffer[e])
    {
      end := end - 1;
    }
  }

  /** The cut lies on a character boundary, the last one within the room, at most three bytes short. */
  lemma CutIsBoundary(line: seq<Scalar>, room: nat, end: nat) returns (k: nat)
    requires end <= room < |EncodeAll(line)| && (end == 0 || !IsContinuation(EncodeAll(line)[end]))
    requires forall e :: end < e <= room ==> IsContinuation(EncodeAll(line)[e])
    ensures k <= |line| && Offset(line, k) == end && LongestPrefix(line, k, room) && room - end <= 3
  {
    k := BoundaryBytes(line, end);
    var j := BoundaryBytes(line, room);
    if end == 0 { OffsetMonotone(line, 0, k); }
    assert Offset(line, j) <= end by {
      if Offset(line, j) > end { StartsNoCharacter(line, j); }
    }
    forall n | k < n <= |line| ensures Offset(line, n) > room {
      if n < |line| && Offset(line, n) <= room { StartsNoCharacter(line, n); OffsetMonotone(line, k, n); }
      assert line[..|line|] == line;
    }
  }

  lemma StartsNoCharacter(line: seq<Scalar>, n: nat)
    requires n < |line|
    ensures Offset(line, n) < |EncodeAll(line)| && !IsContinuation(EncodeAll(line)[Offset(line, n)])
  {
    OffsetStep(line, n);
    ByteOf(line, Offset(line, n), n);
    ContinuationBytes(line[n], 0);
  }

  /** The whole line when it fits; otherwise the longest whole-character prefix that leaves room
      for the marker, then the marker. */
  ghost predicate Truncated(line: seq<Scalar>, maxBytes: int, result: seq<Scalar>)
  {
    if Fits(line, maxBytes) then result == line
    else exists k: nat :: LongestPrefix(line, k, Room(maxBytes)) && result == line[..k] + TRUNCATION_MARKER
  }

  method TruncateToBytes(line: seq<Scalar>, maxBytes: int) returns (result: seq<Scalar>)
    ensures Truncated(line, maxBytes, result)
  {
    var buffer := EncodeAll(line);
    if |buffer| <= maxBytes { return line; }
    var room := if maxBytes < |EncodeAll(TRUNCATION_MARKER)| then 0 else maxBytes - |EncodeAll(TRUNCATION_MARKER)|;
    MarkerIsTwelve();
    if |buffer| == 0 {
      // A negative budget: there is nothing to cut, and the marker alone is returned.
      assert LongestPrefix(line, 0, 0) by { EmptyEncoding(line); }
      return TRUNCATION_MARKER;
    }
    var end := FindCut(line, buffer, room);
    ghost var k := CutIsBoundary(line, room, end);
    PrefixBytes(line, k);
    DecodeOfEncode(line[..k]);
    var kept := DecodeAll(buffer[..end]);
    result := kept.value + TRUNCATION_MARKER;
  }

  lemma MarkerIsTwelve()
    ensures |EncodeAll(TRUNCATION_MARKER)| == |TRUNCATION_MARKER| == 12
    ensures forall i :: 0 <= i < 12 ==> TRUNCATION_MARKER[i] == " [truncated]"[i] as int
  {
    AsciiLength(TRUNCATION_MARKER);
  }

  lemma {:induction false} AsciiLength(line: seq<Scalar>)
    requires forall i :: 0 <= i < |line| ==> line[i] < 0x80
    ensures |EncodeAll(line)| == |line|
  {
    if line != [] { AsciiLength(line[..|line| - 1]); }
  }

  lemma EmptyEncoding(line: seq<Scalar>)
    requires EncodeAll(line) == []
    ensures line == []
  {
  }

  // ---------- main results ----------

  /** The result is within the budget exactly when the line was, or the budget covers the marker. */
  lemma FitsExactly(line: seq<Scalar>, maxBytes: int, result: seq<Scalar>)
    requires Truncated(line, maxBytes, result)
    ensures Fits(result, maxBytes) <==> Fits(line, maxBytes) || maxBytes >= 12
  {
    MarkerIsTwelve();
    if !Fits(line, maxBytes) {
      var k: nat :| LongestPrefix(line, k, Room(maxBytes)) && result == line[..k] + TRUNCATION_MARKER;
      FlatMapConcat(line[..k], TRUNCATION_MARKER, Encode);
    }
  }

  /** A cut line spends the budget but for three bytes at most, keeps a prefix of whole characters,
      and cannot keep one character more. */
  lemma LosesAtMostThree(line: seq<Scalar>, maxBytes: int, result: seq<Scalar>) returns (k: nat)
    requires Truncated(line, maxBytes, result) && !Fits(line, maxBytes) && maxBytes >= 12
    ensures k < |line| && result == line[..k] + TRUNCATION_MARKER
    ensures maxBytes - 3 <= |EncodeAll(result)| <= maxBytes
    ensures |EncodeAll(line[..k + 1] + TRUNCATION_MARKER)| > maxBytes
  {
    MarkerIsTwelve();
    k :| LongestPrefix(line, k, Room(maxBytes)) && result == line[..k] + TRUNCATION_MARKER;
    assert line[..|line|] == line;
    FlatMapConcat(line[..k], TRUNCATION_MARKER, Encode);
    FlatMapConcat(line[..k + 1], TRUNCATION_MARKER, Encode);
    OffsetStep(line, k);
  }
}
