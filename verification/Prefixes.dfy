/** Address prefixes written by an operator: parsing, their one printed form, and what they contain. */
module Prefixes {
  import opened Options
  import opened Radix
  import opened Text
  import opened Addresses
  import opened AddressText
  import opened Cidr

  datatype Family = V4 | V6

  datatype Prefix = Prefix(family: Family, bits: nat, start: nat, end: nat, text: string)

  function Width(f: Family): nat { if f.V4? then 32 else 128 }

  function Limit(f: Family): nat
  {
    if f.V4? then WORD else 0x1_0000_0000_0000_0000_0000_0000_0000_0000
  }

  function PrintAddress(f: Family, v: nat): string { if f.V4? then IntToIpv4(v) else BigIntToIpv6(v) }

  /** A written address as a number; the text decides the family. */
  function ReadAddress(f: Family, address: string): Option<nat>
  {
    if f.V4? then (if ':' in address then None else Ipv4ToInt(address))
    else if ':' !in address then None
    else match CanonicalIpv6(address)
         case None => None
         case Some(canonical) => Some(Ipv6ToBigInt(canonical))
  }

  /** The prefix of `bits` bits that an address falls in. */
  function PrefixOf(f: Family, bits: nat, base: nat): Prefix
    requires bits <= Width(f)
  {
    var start := BlockStart(base, BlockSize(Width(f), bits));
    Prefix(f, bits, start, start + BlockSize(Width(f), bits) - 1, PrintAddress(f, start) + "/" + Dec(bits))
  }

  function ParseBits(text: string, max: nat): Option<nat>
  {
    if text == "" || !AllDigits(10, text) then None
    else if Parse(10, text) < 1 || Parse(10, text) > max then None
    else Some(Parse(10, text))
  }

  /** The text before the first slash, and what follows it. */
  function Cut(s: string): (string, Option<string>)
  {
    if s == "" then ("", None)
    else if s[0] == '/' then ("", Some(s[1..]))
    else ([s[0]] + Cut(s[1..]).0, Cut(s[1..]).1)
  }

  function BitsOf(bitsText: Option<string>, max: nat): Option<nat>
  {
    match bitsText
    case None => Some(max)
    case Some(t) => ParseBits(t, max)
  }

  function ParseV6(address: string, bitsText: Option<string>): Option<Prefix>
  {
    match CanonicalIpv6(address)
    case None => None
    case Some(canonical) =>
      match BitsOf(bitsText, 128)
      case None => None
      case Some(bits) =>
        if bits > 128 then None else Some(PrefixOf(V6, bits, Ipv6ToBigInt(canonical)))
  }

  function ParseV4(address: string, bitsText: Option<string>): Option<Prefix>
  {
    match BitsOf(bitsText, 32)
    case None => None
    case Some(bits) =>
      match ParseCidr(address + "/" + Dec(bits))
      case None => None
      case Some(range) => Some(Prefix(V4, bits, range.0, range.1, IntToIpv4(range.0) + "/" + Dec(bits)))
  }

  function ParsePrefix(value: string): Option<Prefix>
  {
    var text := Trim(value);
    if text == "" then None else
    var (address, bitsText) := Cut(text);
    if ':' in address then ParseV6(address, bitsText) else ParseV4(address, bitsText)
  }

  predicate PrefixContains(prefix: Prefix, address: string)
  {
    var trimmed := Trim(address);
    if trimmed == "" then false
    else if prefix.family.V4? then
      ':' !in trimmed &&
      match Ipv4ToInt(trimmed)
      case None => false
      case Some(value) => prefix.start <= value <= prefix.end
    else
      ':' in trimmed &&
      match CanonicalIpv6(trimmed)
      case None => false
      case Some(canonical) => prefix.start <= Ipv6ToBigInt(canonical) <= prefix.end
  }

  // ---------- text ----------

  lemma {:induction false} CutAt(a: string, b: string)
    requires '/' !in a
    ensures Cut(a + "/" + b) == (a, Some(b))
  {
    var s := a + "/" + b;
    if a == "" {
      assert s[1..] == b;
    } else {
      assert s[1..] == a[1..] + "/" + b;
      CutAt(a[1..], b);
      assert [a[0]] + a[1..] == a;
    }
  }

  lemma {:induction false} CutParts(s: string)
    ensures '/' !in Cut(s).0 && Cut(s).0 <= s
  {
    if s != "" && s[0] != '/' {
      CutParts(s[1..]);
      assert s == [s[0]] + s[1..];
    }
  }

  lemma DecChars(v: nat)
    ensures Dec(v) != "" && AllDigits(10, Dec(v)) && Parse(10, Dec(v)) == v
    ensures '/' !in Dec(v) && '.' !in Dec(v) && ':' !in Dec(v)
    ensures !IsSpace(Dec(v)[0]) && !IsSpace(Dec(v)[|Dec(v)| - 1])
  {
    ParsePrint(10, v);
  }

  lemma Ipv4Chars(v: nat)
    ensures forall c :: c in IntToIpv4(v) ==> IsDigit(10, c) || c == '.'
  {
    var parts := seq(4, i requires 0 <= i < 4 => Dec(Digits(256, v, 4)[i]));
    forall c | c in IntToIpv4(v) ensures IsDigit(10, c) || c == '.' {
      JoinChars(parts, ".", c);
      if i :| 0 <= i < |parts| && c in parts[i] { DecChars(Digits(256, v, 4)[i]); }
    }
  }

  lemma Ipv6Chars(v: nat)
    ensures forall c :: c in BigIntToIpv6(v) ==> IsDigit(16, c) || c == ':'
    ensures ':' in BigIntToIpv6(v)
  {
    var groups := Digits(0x1_0000, v, 8);
    HexGroupsAreHex(groups);
    JoinTidy(HexGroups(groups));
    JoinConcat(HexGroups(groups)[..1], HexGroups(groups)[1..], ":");
    assert HexGroups(groups)[..1] + HexGroups(groups)[1..] == HexGroups(groups);
  }

  lemma CidrText(address: string, bits: nat)
    requires '/' !in address
    ensures Split(address + "/" + Dec(bits), "/") == [address, Dec(bits)]
  {
    DecChars(bits);
    StartsNowhereChar(Dec(bits), '/');
    StartsNowhereChar(address, '/');
    SplitAt(address, '/', Dec(bits));
    SplitWhole(address, "/");
    SplitWhole(Dec(bits), "/");
  }

  /** The masked block of an IPv4 address, through the feed parser. */
  lemma CidrOfParts(address: string, bits: nat)
    requires '/' !in address && bits <= 32 && (address != "" ==> !IsSpace(address[0]))
    ensures ParseCidr(address + "/" + Dec(bits)) ==
            match Ipv4ToInt(address)
            case None => None
            case Some(base) =>
              var start := BlockStart(base, BlockSize(32, bits));
              Some((start, start + BlockSize(32, bits) - 1))
  {
    var t := address + "/" + Dec(bits);
    DecChars(bits);
    CidrText(address, bits);
    assert t[|t| - 1] == Dec(bits)[|Dec(bits)| - 1];
    assert Trim(t) == t;
    PowPositive(2, 32 - bits);
    if Ipv4ToInt(address).Some? {
      Ipv4Bound(address);
      MaskedBlock(Ipv4ToInt(address).value, bits);
    }
  }

  // ---------- the shape of a parsed prefix ----------

  lemma Pow128()
    ensures Pow(2, 128) == Limit(V6) && Pow(2, 32) == Limit(V4)
  {
    Powers();
    PowAdd(2, 32, 32);
    PowAdd(2, 64, 64);
  }

  /** An address text is what the parser reads once it has been trimmed and cut. */
  lemma AddressPart(value: string)
    ensures var address := Cut(Trim(value)).0;
            '/' !in address && (address != "" ==> !IsSpace(address[0]))
  {
    CutParts(Trim(value));
  }

  lemma AddressBound(f: Family, address: string)
    requires ReadAddress(f, address).Some?
    ensures ReadAddress(f, address).value < Limit(f)
  {
    if f.V4? {
      Ipv4Bound(address);
    } else {
      SpellingsMeet(address, address);
    }
  }

  lemma ShapeV4(address: string, bitsText: Option<string>)
    requires '/' !in address && (address != "" ==> !IsSpace(address[0])) && ':' !in address
    ensures match ParseV4(address, bitsText)
            case None => true
            case Some(p) => IsShape(V4, address, bitsText, p)
  {
    if BitsOf(bitsText, 32).Some? {
      CidrOfParts(address, BitsOf(bitsText, 32).value);
    }
  }

  lemma ShapeV6(address: string, bitsText: Option<string>)
    requires ':' in address
    ensures match ParseV6(address, bitsText)
            case None => true
            case Some(p) => IsShape(V6, address, bitsText, p)
  {
  }

  /** The block of the written length around the written address. */
  ghost predicate IsShape(f: Family, address: string, bitsText: Option<string>, p: Prefix)
  {
    BitsOf(bitsText, Width(f)).Some? && 1 <= BitsOf(bitsText, Width(f)).value <= Width(f) &&
    ReadAddress(f, address).Some? &&
    p == PrefixOf(f, BitsOf(bitsText, Width(f)).value, ReadAddress(f, address).value)
  }

  /** The family, length and written address that a prefix comes from. */
  ghost predicate ComesFrom(value: string, p: Prefix, f: Family, bits: nat, base: nat)
  {
    1 <= bits <= Width(f) && base < Limit(f) && p == PrefixOf(f, bits, base) &&
    ReadAddress(f, Cut(Trim(value)).0) == Some(base)
  }

  /** Every successful parse is the block of `bits` bits around the written address. */
  lemma ParsedShape(value: string) returns (f: Family, bits: nat, base: nat)
    ensures match ParsePrefix(value)
            case None => true
            case Some(p) => ComesFrom(value, p, f, bits, base)
  {
    f, bits, base := V4, 0, 0;
    var (address, bitsText) := Cut(Trim(value));
    AddressPart(value);
    if ParsePrefix(value).Some? {
      if ':' in address {
        ShapeV6(address, bitsText);
        f, bits, base := V6, BitsOf(bitsText, 128).value, ReadAddress(V6, address).value;
      } else {
        ShapeV4(address, bitsText);
        f, bits, base := V4, BitsOf(bitsText, 32).value, ReadAddress(V4, address).value;
      }
      AddressBound(f, address);
    }
  }

  lemma BlockStartAgain(base: nat, size: nat)
    requires size >= 1
    ensures BlockStart(BlockStart(base, size), size) == BlockStart(base, size) <= base
  {
    BlockFloor(base, size);
    DivModUnique(base / size, size, 0);
  }

  /** How a printed address reads back, without the details of either family. */
  ghost predicate IsAddressText(f: Family, a: string, v: nat)
  {
    a != "" && '/' !in a && !IsSpace(a[0]) && (':' in a <==> f.V6?) && ReadAddress(f, a) == Some(v)
  }

  predicate IsAddressChar(c: char) { IsDigit(16, c) || c == ':' || c == '.' }

  lemma AddressTextIs(f: Family, a: string, v: nat)
    requires a != "" && forall c :: c in a ==> IsAddressChar(c)
    requires (':' in a <==> f.V6?) && ReadAddress(f, a) == Some(v)
    ensures IsAddressText(f, a, v)
  {
    assert IsAddressChar(a[0]);
  }

  lemma PrintedV4(v: nat)
    requires v < Limit(V4)
    ensures IsAddressText(V4, IntToIpv4(v), v)
  {
    Ipv4Chars(v);
    Ipv4PrintRead(v);
    assert Split("", ".") == [""];
    AddressTextIs(V4, IntToIpv4(v), v);
  }

  lemma PrintedV6(v: nat)
    requires v < Limit(V6)
    ensures IsAddressText(V6, BigIntToIpv6(v), v)
  {
    Ipv6Chars(v);
    BigIntPrintRead(v);
    AddressTextIs(V6, BigIntToIpv6(v), v);
  }

  lemma ReadsV4(a: string, v: nat, bits: nat, bitsText: Option<string>)
    requires IsAddressText(V4, a, v) && bits <= 32 && BitsOf(bitsText, 32) == Some(bits)
    ensures ParseV4(a, bitsText).Some?
  {
    CidrOfParts(a, bits);
  }

  lemma PartsV4(a: string, v: nat, bits: nat, bitsText: Option<string>)
    requires IsAddressText(V4, a, v) && bits <= 32 && BitsOf(bitsText, 32) == Some(bits)
    ensures ParseV4(a, bitsText) == Some(PrefixOf(V4, bits, v))
  {
    ReadsV4(a, v, bits, bitsText);
    ShapeV4(a, bitsText);
  }

  lemma PartsV6(a: string, v: nat, bits: nat, bitsText: Option<string>)
    requires IsAddressText(V6, a, v) && bits <= 128 && BitsOf(bitsText, 128) == Some(bits)
    ensures ParseV6(a, bitsText) == Some(PrefixOf(V6, bits, v))
  {
  }

  lemma TextParts(f: Family, a: string, v: nat, bits: nat)
    requires IsAddressText(f, a, v)
    ensures Trim(a + "/" + Dec(bits)) == a + "/" + Dec(bits) != ""
    ensures Cut(a + "/" + Dec(bits)) == (a, Some(Dec(bits)))
  {
    var t := a + "/" + Dec(bits);
    DecChars(bits);
    assert t[0] == a[0] && t[|t| - 1] == Dec(bits)[|Dec(bits)| - 1];
    CutAt(a, Dec(bits));
  }

  lemma BitsText(bits: nat, max: nat)
    requires 1 <= bits <= max
    ensures BitsOf(Some(Dec(bits)), max) == Some(bits)
  {
    DecChars(bits);
  }

  lemma ParsePrinted(f: Family, bits: nat, a: string, v: nat)
    requires 1 <= bits <= Width(f) && IsAddressText(f, a, v)
    ensures ParsePrefix(a + "/" + Dec(bits)) == Some(PrefixOf(f, bits, v))
  {
    TextParts(f, a, v, bits);
    BitsText(bits, Width(f));
    if f.V4? {
      PartsV4(a, v, bits, Some(Dec(bits)));
    } else {
      PartsV6(a, v, bits, Some(Dec(bits)));
    }
  }

  lemma PrefixOfStart(f: Family, bits: nat, base: nat, start: nat)
    requires bits <= Width(f) && start == BlockStart(base, BlockSize(Width(f), bits))
    ensures PrefixOf(f, bits, start) == PrefixOf(f, bits, base) && start <= base
  {
    BlockStartAgain(base, BlockSize(Width(f), bits));
  }

  lemma PrintedAddress(f: Family, v: nat)
    requires v < Limit(f)
    ensures IsAddressText(f, PrintAddress(f, v), v)
  {
    if f.V4? { PrintedV4(v); } else { PrintedV6(v); }
  }

  lemma PrefixReparses(f: Family, bits: nat, base: nat)
    requires 1 <= bits <= Width(f) && base < Limit(f)
    ensures ParsePrefix(PrefixOf(f, bits, base).text) == Some(PrefixOf(f, bits, base))
  {
    var start := BlockStart(base, BlockSize(Width(f), bits));
    PrefixOfStart(f, bits, base, start);
    PrintedAddress(f, start);
    ParsePrinted(f, bits, PrintAddress(f, start), start);
  }

  /** Normal form: the text of a parsed prefix parses to that very prefix. */
  lemma ReparseIsIdentical(value: string)
    ensures match ParsePrefix(value)
            case None => true
            case Some(p) => ParsePrefix(p.text) == Some(p)
  {
    var f, bits, base := ParsedShape(value);
    if ParsePrefix(value).Some? {
      PrefixReparses(f, bits, base);
    }
  }

  // ---------- what a prefix contains ----------

  /** The first `bits` bits of a `width`-bit number. */
  function Top(v: nat, width: nat, bits: nat): nat
    requires bits <= width
  {
    v / BlockSize(width, bits)
  }

  /** Bit `i`, counted from the top. */
  function Bit(v: nat, width: nat, i: nat): nat
    requires i < width
  {
    Top(v, width, i + 1) % 2
  }

  ghost predicate SameBits(a: nat, b: nat, width: nat, bits: nat)
    requires bits <= width
  {
    forall i :: 0 <= i < bits ==> Bit(a, width, i) == Bit(b, width, i)
  }

  lemma Regroup(a: nat, m: nat, r: nat, b: nat, s: nat)
    requires r < m && s < b
    ensures (a * m + r) * b + s == a * (b * m) + (r * b + s) && r * b + s < b * m
  {
    assert (a * m + r) * b == a * m * b + r * b;
    assert a * m * b == a * (b * m);
    MulMono(r + 1, m, b);
    assert (r + 1) * b == r * b + b;
    assert m * b == b * m;
  }

  lemma QuotientIs(v: nat, a: nat, d: nat, rest: nat)
    requires v == a * d + rest && rest < d
    ensures v / d == a
  {
    DivModUnique(a, d, rest);
  }

  lemma QuotientOfQuotient(v: nat, b: nat, m: nat, q: nat, s: nat, a: nat, r: nat)
    requires v == q * b + s && s < b && q == a * m + r && r < m && b * m >= 1
    ensures v / (b * m) == a
  {
    Regroup(a, m, r, b, s);
    QuotientIs(v, a, b * m, r * b + s);
  }

  lemma DivBy(v: nat, b: nat, m: nat)
    requires b >= 1 && m >= 1 && b * m >= 1
    ensures v / b / m == v / (b * m)
  {
    DivModSplit(b, v);
    DivModSplit(m, v / b);
    QuotientOfQuotient(v, b, m, v / b, v % b, v / b / m, v / b % m);
  }

  lemma TopBits(v: nat, width: nat, bits: nat)
    requires bits < width
    ensures Top(v, width, bits) == Top(v, width, bits + 1) / 2
  {
    var m := BlockSize(width, bits + 1);
    assert BlockSize(width, bits) == m * 2;
    DivBy(v, m, 2);
  }

  lemma NoTopBits(v: nat, width: nat)
    requires v < Pow(2, width)
    ensures Top(v, width, 0) == 0
  {
    DivModUnique(0, Pow(2, width), v);
  }

  lemma LastBit(x: nat, y: nat)
    ensures x == y <==> x / 2 == y / 2 && x % 2 == y % 2
  {
  }

  /** Dividing by the block size keeps the first `bits` bits and nothing else. */
  lemma {:induction false} TopIsBits(a: nat, b: nat, width: nat, bits: nat)
    requires bits <= width && a < Pow(2, width) && b < Pow(2, width)
    ensures Top(a, width, bits) == Top(b, width, bits) <==> SameBits(a, b, width, bits)
    decreases bits
  {
    if bits == 0 {
      NoTopBits(a, width);
      NoTopBits(b, width);
    } else {
      TopIsBits(a, b, width, bits - 1);
      TopBits(a, width, bits - 1);
      TopBits(b, width, bits - 1);
      LastBit(Top(a, width, bits), Top(b, width, bits));
      SameBitsSnoc(a, b, width, bits - 1);
    }
  }

  lemma SameBitsSnoc(a: nat, b: nat, width: nat, bits: nat)
    requires bits < width
    ensures SameBits(a, b, width, bits + 1) <==>
            SameBits(a, b, width, bits) && Bit(a, width, bits) == Bit(b, width, bits)
  {
  }

  lemma InBlockIffQuotient(x: nat, base: nat, size: nat)
    requires size >= 1
    ensures BlockStart(base, size) <= x <= BlockStart(base, size) + size - 1 <==> x / size == base / size
  {
    var q := base / size;
    DivModSplit(size, x);
    if q * size <= x <= q * size + size - 1 {
      DivModUnique(q, size, x - q * size);
    }
  }

  lemma ContainsReads(p: Prefix, address: string)
    ensures PrefixContains(p, address) <==>
            ReadAddress(p.family, Trim(address)).Some? &&
            p.start <= ReadAddress(p.family, Trim(address)).value <= p.end
  {
    assert Split("", ".") == [""];
  }

  lemma ContainsIsTop(f: Family, bits: nat, base: nat, address: string)
    requires 1 <= bits <= Width(f) && base < Limit(f)
    ensures PrefixContains(PrefixOf(f, bits, base), address) <==>
            ReadAddress(f, Trim(address)).Some? &&
            SameBits(ReadAddress(f, Trim(address)).value, base, Width(f), bits)
  {
    ContainsReads(PrefixOf(f, bits, base), address);
    if ReadAddress(f, Trim(address)).Some? {
      var x := ReadAddress(f, Trim(address)).value;
      AddressBound(f, Trim(address));
      Pow128();
      InBlockIffQuotient(x, base, BlockSize(Width(f), bits));
      TopIsBits(x, base, Width(f), bits);
    }
  }

  /** A parsed prefix contains an address exactly when the address is of its family and agrees
      with the address it was written with on the first `bits` bits. */
  lemma ContainsIsSameBits(value: string, address: string) returns (f: Family, bits: nat, base: nat)
    ensures match ParsePrefix(value)
            case None => true
            case Some(p) =>
              f == p.family && 1 <= bits == p.bits <= Width(f) &&
              ReadAddress(f, Cut(Trim(value)).0) == Some(base) &&
              (PrefixContains(p, address) <==>
                 ReadAddress(f, Trim(address)).Some? &&
                 SameBits(ReadAddress(f, Trim(address)).value, base, Width(f), bits))
  {
    f, bits, base := ParsedShape(value);
    if ParsePrefix(value).Some? {
      ContainsIsTop(f, bits, base, address);
    }
  }

  // ---------- two prefixes ----------

  /** Two aligned blocks, one `m` times the other: the smaller lies inside, or they are apart. */
  lemma AlignedNest(p: nat, q: nat, size: nat, m: nat)
    requires size >= 1 && m >= 1
    ensures (p * size <= q * size && q * size + size <= p * size + m * size) ||
            q * size + size <= p * size || p * size + m * size <= q * size
  {
    assert (q + 1) * size == q * size + size && (p + m) * size == p * size + m * size;
    if q < p {
      MulMono(q + 1, p, size);
    } else if q >= p + m {
      MulMono(p + m, q, size);
    } else {
      MulMono(p, q, size);
      MulMono(q + 1, p + m, size);
    }
  }

  /** Blocks of one address space: the finer lies inside the coarser, or they are apart. */
  lemma BlocksNest(x: nat, y: nat, size: nat, m: nat)
    requires size >= 1 && m >= 1 && m * size >= 1
    ensures var a, b := BlockStart(x, m * size), BlockStart(y, size);
            (a <= b && b + size <= a + m * size) || b + size <= a || a + m * size <= b
  {
    var p := x / (m * size);
    assert p * (m * size) == p * m * size;
    AlignedNest(p * m, y / size, size, m);
  }

  ghost predicate Inside(p: Prefix, q: Prefix) { q.start <= p.start && p.end <= q.end }

  ghost predicate Apart(p: Prefix, q: Prefix) { p.end < q.start || q.end < p.start }

  lemma NestedShapes(width: nat, b1: nat, x: nat, b2: nat, y: nat)
    requires b1 <= b2 <= width
    ensures var s1, s2 := BlockSize(width, b1), BlockSize(width, b2);
            var a, b := BlockStart(x, s1), BlockStart(y, s2);
            (a <= b && b + s2 <= a + s1) || b + s2 <= a || a + s1 <= b
  {
    PowPositive(2, b2 - b1);
    PowAdd(2, b2 - b1, width - b2);
    BlocksNest(x, y, BlockSize(width, b2), Pow(2, b2 - b1));
  }

  lemma ShapesNest(p: Prefix, q: Prefix, f: Family, b1: nat, x: nat, b2: nat, y: nat)
    requires b1 <= b2 <= Width(f) && p == PrefixOf(f, b1, x) && q == PrefixOf(f, b2, y)
    ensures Inside(q, p) || Apart(p, q)
  {
    NestedShapes(Width(f), b1, x, b2, y);
  }

  /** Any two prefixes of one family are nested or disjoint; the longer one is the inner one. */
  lemma NestedOrDisjoint(v: string, w: string)
    ensures match (ParsePrefix(v), ParsePrefix(w))
            case (Some(p), Some(q)) =>
              p.family == q.family && p.bits <= q.bits ==> Inside(q, p) || Apart(p, q)
            case _ => true
  {
    var f, b1, x := ParsedShape(v);
    var g, b2, y := ParsedShape(w);
    if ParsePrefix(v).Some? && ParsePrefix(w).Some? && f == g && b1 <= b2 {
      ShapesNest(ParsePrefix(v).value, ParsePrefix(w).value, f, b1, x, b2, y);
    }
  }

  // ---------- printing the 128-bit value ----------

  lemma {:induction false} DigitAt(b: nat, v: nat, n: nat, i: nat)
    requires b >= 2 && i < n && Pow(b, n - 1 - i) >= 1
    ensures Digits(b, v, n)[i] == v / Pow(b, n - 1 - i) % b
    decreases n
  {
    if i < n - 1 {
      PowPositive(b, n - 2 - i);
      DigitAt(b, v / b, n - 1, i);
      DivBy(v, b, Pow(b, n - 2 - i));
    }
  }

  lemma {:induction false} ShiftIsDivision(j: nat)
    ensures Pow(2, 16 * j) == Pow(0x1_0000, j) && Pow(2, 16 * j) >= 1
  {
    if j > 0 {
      ShiftIsDivision(j - 1);
      PowAdd(2, 16, 16 * (j - 1));
      Powers();
    }
  }

  /** The printing loop: the shift falls from 112 to 0 in steps of sixteen. */
  method PrintIpv6Value(value: nat) returns (text: string)
    ensures text == BigIntToIpv6(value)
  {
    var groups: seq<string> := [];
    for i := 0 to 8
      invariant groups == HexGroups(Digits(0x1_0000, value, 8))[..i]
    {
      var shift := 112 - 16 * i;
      ShiftIsDivision(7 - i);
      DigitAt(0x1_0000, value, 8, i);
      groups := groups + [Hex(value / Pow(2, shift) % 0x1_0000)];
    }
    var all := HexGroups(Digits(0x1_0000, value, 8));
    assert all[..8] == all;
    text := Join(groups, ":");
  }
}
