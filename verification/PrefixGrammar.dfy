/** What a written prefix means: a bare address is that address alone, and a length is the one written. */
module PrefixGrammar {
  import opened Options
  import opened Radix
  import opened Text
  import opened Addresses
  import opened AddressText
  import opened Cidr
  import opened Prefixes
  import Sequences

  lemma {:induction false} NothingToCut(s: string)
    requires '/' !in s
    ensures Cut(s) == (s, None)
  {
    if s != "" {
      NothingToCut(s[1..]);
      assert [s[0]] + s[1..] == s;
    }
  }

  function Around(f: Family, bits: Option<nat>, base: Option<nat>): Option<Prefix>
    requires bits.Some? ==> bits.value <= Width(f)
  {
    if bits.Some? && base.Some? then Some(PrefixOf(f, bits.value, base.value)) else None
  }

  /** The block a feed parser is asked for, and the prefix made of it. */
  function RangeAround(bits: nat, base: Option<nat>): Option<(nat, nat)>
    requires bits <= 32
  {
    match base
    case None => None
    case Some(b) =>
      var start := BlockStart(b, BlockSize(32, bits));
      Some((start, start + BlockSize(32, bits) - 1))
  }

  function PrefixFrom(bits: nat, range: Option<(nat, nat)>): Option<Prefix>
  {
    match range
    case None => None
    case Some(r) => Some(Prefix(V4, bits, r.0, r.1, IntToIpv4(r.0) + "/" + Dec(bits)))
  }

  lemma BlockOfV4(bits: nat, base: Option<nat>)
    requires bits <= 32
    ensures Around(V4, Some(bits), base) == PrefixFrom(bits, RangeAround(bits, base))
  {
  }

  lemma CidrIs(address: string, bits: nat)
    requires '/' !in address && (address != "" ==> !IsSpace(address[0])) && bits <= 32
    ensures ParseCidr(address + "/" + Dec(bits)) == RangeAround(bits, Ipv4ToInt(address))
  {
    CidrOfParts(address, bits);
  }

  lemma V4Parses(address: string, bitsText: Option<string>, bits: nat, range: Option<(nat, nat)>)
    requires BitsOf(bitsText, 32) == Some(bits) && range == ParseCidr(address + "/" + Dec(bits))
    ensures ParseV4(address, bitsText) == PrefixFrom(bits, range)
  {
  }

  lemma RangeOfV4(address: string, bitsText: Option<string>, bits: nat, range: Option<(nat, nat)>)
    requires '/' !in address && (address != "" ==> !IsSpace(address[0])) && BitsOf(bitsText, 32) == Some(bits)
    requires range == RangeAround(bits, Ipv4ToInt(address))
    ensures ParseV4(address, bitsText) == PrefixFrom(bits, range)
  {
    CidrIs(address, bits);
    V4Parses(address, bitsText, bits, range);
  }

  lemma PrefixOfV4(address: string, bitsText: Option<string>, bits: nat)
    requires '/' !in address && (address != "" ==> !IsSpace(address[0])) && BitsOf(bitsText, 32) == Some(bits)
    ensures ParseV4(address, bitsText) == Around(V4, Some(bits), Ipv4ToInt(address))
  {
    RangeOfV4(address, bitsText, bits, RangeAround(bits, Ipv4ToInt(address)));
    BlockOfV4(bits, Ipv4ToInt(address));
  }

  lemma PartsOfV4(address: string, bitsText: Option<string>)
    requires '/' !in address && (address != "" ==> !IsSpace(address[0])) && ':' !in address
    ensures ParseV4(address, bitsText) == Around(V4, BitsOf(bitsText, 32), Ipv4ToInt(address))
  {
    if BitsOf(bitsText, 32).Some? { PrefixOfV4(address, bitsText, BitsOf(bitsText, 32).value); }
  }

  lemma PartsOfV6(address: string, bitsText: Option<string>)
    requires ':' in address
    ensures ParseV6(address, bitsText) == Around(V6, BitsOf(bitsText, 128), ReadAddress(V6, address))
  {
  }

  /** The parser, once the text has been cut, without either family's details. */
  lemma ParsedParts(value: string, address: string, bitsText: Option<string>)
    requires Cut(Trim(value)) == (address, bitsText) && Trim(value) != ""
    ensures ParsePrefix(value) ==
            if ':' in address then Around(V6, BitsOf(bitsText, 128), ReadAddress(V6, address))
            else Around(V4, BitsOf(bitsText, 32), ReadAddress(V4, address))
  {
    AddressPart(value);
    if ':' in address { PartsOfV6(address, bitsText); } else { PartsOfV4(address, bitsText); }
  }

  /** Texts that are no address of either family are refused, with a length and without. */
  lemma NoAddress(value: string)
    requires var a := Cut(Trim(value)).0; ReadAddress(V4, a) == None && ReadAddress(V6, a) == None
    ensures ParsePrefix(value) == None
  {
    var (address, bitsText) := Cut(Trim(value));
    if Trim(value) != "" { ParsedParts(value, address, bitsText); }
  }

  /** A readable address is of the family its colons say, and not empty. */
  lemma FamilyOf(f: Family, address: string)
    requires ReadAddress(f, address).Some?
    ensures address != "" && (':' in address <==> f.V6?)
  {
    assert Split("", ".") == [""];
  }

  lemma LengthsPrinted()
    ensures Dec(32) == "32" && Dec(128) == "128"
  {
    assert MinDigits(10, 1) == [1] && MinDigits(10, 3) == [3];
    assert MinDigits(10, 12) == [1, 2];
    assert MinDigits(10, 128) == [1, 2, 8] && MinDigits(10, 32) == [3, 2];
  }

  lemma WholeBlock(f: Family, v: nat)
    ensures PrefixOf(f, Width(f), v) ==
            Prefix(f, Width(f), v, v, PrintAddress(f, v) + if f.V4? then "/32" else "/128")
  {
    LengthsPrinted();
    assert BlockSize(Width(f), Width(f)) == 1 && BlockStart(v, 1) == v;
    assert f.V4? ==> "/" + Dec(32) == "/32";
    assert f.V6? ==> "/" + Dec(128) == "/128";
    Sequences.Regroup(PrintAddress(f, v), "/", Dec(Width(f)));
  }

  /** A bare address is a prefix of all its bits, which holds that address and no other. */
  lemma BareAddress(value: string, f: Family, v: nat)
    requires '/' !in Trim(value) && ReadAddress(f, Trim(value)) == Some(v)
    ensures ParsePrefix(value) ==
            Some(Prefix(f, if f.V4? then 32 else 128, v, v, PrintAddress(f, v) + if f.V4? then "/32" else "/128"))
  {
    NothingToCut(Trim(value));
    FamilyOf(f, Trim(value));
    ParsedParts(value, Trim(value), None);
    WholeBlock(f, v);
  }

  lemma HoldsOnly(p: Prefix, v: nat, other: string)
    requires p.start == v == p.end
    ensures PrefixContains(p, other) <==> ReadAddress(p.family, Trim(other)) == Some(v)
  {
    ContainsReads(p, other);
  }

  lemma HoldsItself(value: string, f: Family, v: nat, other: string, p: Prefix)
    requires '/' !in Trim(value) && ReadAddress(f, Trim(value)) == Some(v) && ParsePrefix(value) == Some(p)
    ensures PrefixContains(p, other) <==> ReadAddress(f, Trim(other)) == Some(v)
  {
    BareAddress(value, f, v);
    HoldsOnly(p, v, other);
  }

  /** A length in decimal digits that is at least one and at most the address's own number of bits. */
  ghost predicate IsLength(t: string, f: Family)
  {
    t != "" && (forall i :: 0 <= i < |t| ==> '0' <= t[i] <= '9') && 1 <= Parse(10, t) <= if f.V4? then 32 else 128
  }

  lemma LengthRead(t: string, f: Family)
    ensures BitsOf(Some(t), Width(f)) == if IsLength(t, f) then Some(Parse(10, t)) else None
  {
  }

  /** The aligned block of `bits` bits that holds `v`. */
  ghost predicate IsBlock(p: Prefix, f: Family, bits: nat, size: nat, v: nat)
  {
    size >= 1 && p.family == f && p.bits == bits && p.start % size == 0 && p.start <= v <= p.end &&
    p.end == p.start + size - 1 && p.text == PrintAddress(f, p.start) + "/" + Dec(bits)
  }

  lemma BlockAround(f: Family, bits: nat, size: nat, v: nat)
    requires bits <= Width(f) && size == Pow(2, (if f.V4? then 32 else 128) - bits)
    ensures IsBlock(PrefixOf(f, bits, v), f, bits, size, v)
  {
    PowPositive(2, Width(f) - bits);
    BlockFloor(v, size);
  }

  lemma LengthParsed(value: string, a: string, t: string, f: Family, v: nat)
    requires Trim(value) == a + "/" + t && '/' !in a && ReadAddress(f, a) == Some(v)
    ensures ParsePrefix(value) == Around(f, BitsOf(Some(t), Width(f)), Some(v))
  {
    CutAt(a, t);
    FamilyOf(f, a);
    ParsedParts(value, a, Some(t));
  }

  /** An address with a length is the aligned block of that length around the address; with anything
      else behind the slash it is refused. */
  lemma WrittenLength(value: string, a: string, t: string, f: Family, v: nat, parsed: Option<Prefix>)
    requires Trim(value) == a + "/" + t && '/' !in a && ReadAddress(f, a) == Some(v) && parsed == ParsePrefix(value)
    ensures match parsed
            case None => !IsLength(t, f)
            case Some(p) =>
              IsLength(t, f) && IsBlock(p, f, Parse(10, t), Pow(2, (if f.V4? then 32 else 128) - Parse(10, t)), v)
  {
    LengthParsed(value, a, t, f, v);
    LengthRead(t, f);
    if IsLength(t, f) {
      BlockAround(f, Parse(10, t), Pow(2, (if f.V4? then 32 else 128) - Parse(10, t)), v);
    }
  }

  // ---------- a feed's blocks ----------

  /** The address, the length, and whatever stands behind a second slash. */
  lemma FeedParts(s: string, a: string, t: string, rest: string) returns (parts: seq<string>)
    requires s == a + "/" + t + rest && '/' !in a && '/' !in t && (rest == "" || rest[0] == '/')
    ensures parts == Split(s, "/") && |parts| >= 2 && parts[0] == a && parts[1] == t
  {
    parts := Split(s, "/");
    StartsNowhereChar(a, '/');
    StartsNowhereChar(t, '/');
    assert s == a + "/" + (t + rest);
    SplitFirst(a, "/", t + rest);
    if rest == "" {
      assert t + rest == t;
      SplitWhole(t, "/");
    } else {
      assert t + rest == t + "/" + rest[1..];
      SplitFirst(t, "/", rest[1..]);
    }
  }

  /** A length a feed may write: decimal, at most 32. */
  ghost predicate IsFeedLength(t: string)
  {
    t != "" && (forall i :: 0 <= i < |t| ==> '0' <= t[i] <= '9') && Parse(10, t) <= 32
  }

  /** The aligned block of `size` addresses that holds `base`. */
  ghost predicate Holds(range: (nat, nat), size: nat, base: nat)
  {
    size >= 1 && range.0 % size == 0 && range.0 <= base <= range.1 && range.1 == range.0 + size - 1
  }

  lemma FeedBlockFound(text: string, a: string, t: string, range: (nat, nat))
    requires ParseCidr(text) == Some(range) && Split(Trim(text), "/")[0] == a
    requires |Split(Trim(text), "/")| >= 2 && Split(Trim(text), "/")[1] == t
    ensures IsFeedLength(t) && Ipv4ToInt(a).Some? && Holds(range, Pow(2, 32 - Parse(10, t)), Ipv4ToInt(a).value)
  {
    var base, bits := ParsedBlock(text);
    BlockFloor(base, BlockSize(32, bits));
  }

  lemma FeedBlockRefused(text: string, parts: seq<string>)
    requires ParseCidr(text) == None && parts == Split(Trim(text), "/") && |parts| >= 2
    ensures !IsFeedLength(parts[1]) || Ipv4ToInt(parts[0]) == None
  {
    assert Split("", ".") == [""];
  }

  /** A feed's block is an IPv4 address, a slash and a length of at most 32 in decimal; it is the aligned block
      of that length around the address. What stands behind a second slash is ignored. */
  lemma FeedBlock(text: string, a: string, t: string, rest: string, parsed: Option<(nat, nat)>)
    requires Trim(text) == a + "/" + t + rest && '/' !in a && '/' !in t && (rest == "" || rest[0] == '/')
    requires parsed == ParseCidr(text)
    ensures match parsed
            case None => !IsFeedLength(t) || Ipv4ToInt(a) == None
            case Some(range) =>
              IsFeedLength(t) && Ipv4ToInt(a).Some? && Holds(range, Pow(2, 32 - Parse(10, t)), Ipv4ToInt(a).value)
  {
    var parts := FeedParts(Trim(text), a, t, rest);
    match parsed {
      case None => FeedBlockRefused(text, parts);
      case Some(range) => FeedBlockFound(text, a, t, range);
    }
  }

  /** Without a slash it is no block. */
  lemma NoFeedBlock(text: string)
    requires '/' !in Trim(text)
    ensures ParseCidr(text) == None
  {
    StartsNowhereChar(Trim(text), '/');
    SplitWhole(Trim(text), "/");
  }
}
