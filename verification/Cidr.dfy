/** IPv4 blocks: the 32-bit mask arithmetic, and which addresses an indicator may never name. */
module Cidr {
  import opened Options
  import opened Radix
  import opened Text
  import opened AddressText

  const WORD: nat := 0x1_0000_0000

  // ---------- bitwise operations ----------

  function And(a: nat, b: nat): nat
  {
    if a == 0 || b == 0 then 0
    else 2 * And(a / 2, b / 2) + if a % 2 == 1 && b % 2 == 1 then 1 else 0
  }

  function Or(a: nat, b: nat): nat
    decreases a + b
  {
    if a == 0 then b
    else if b == 0 then a
    else 2 * Or(a / 2, b / 2) + if a % 2 == 1 || b % 2 == 1 then 1 else 0
  }

  function Not32(a: nat): nat
    requires a < WORD
  {
    WORD - 1 - a
  }

  /** The top `bits` bits of a word; a shift by 32 is undefined in the source, so zero is apart. */
  function Mask(bits: nat): (m: nat)
    requires bits <= 32
    ensures m < WORD
  {
    if bits == 0 then 0 else (WORD - 1) * Pow(2, 32 - bits) % WORD
  }

  function BlockSize(width: nat, bits: nat): (size: nat)
    requires bits <= width
    ensures size >= 1
  {
    PowPositive(2, width - bits);
    Pow(2, width - bits)
  }

  lemma Powers()
    ensures Pow(2, 16) == 0x1_0000
    ensures Pow(2, 17) == 0x2_0000
    ensures Pow(2, 31) == 0x8000_0000
    ensures Pow(2, 32) == WORD
  {
    assert Pow(2, 8) == 256 by {
      assert Pow(2, 4) == 16;
      PowAdd(2, 4, 4);
    }
    PowAdd(2, 8, 8);
    PowAdd(2, 16, 1);
    PowAdd(2, 16, 16);
    assert Pow(2, 32) == 2 * Pow(2, 31);
  }

  /** A word splits into equal blocks: 2^k blocks of 2^(32 - k) addresses. */
  lemma SplitWord(k: nat)
    requires k <= 32
    ensures 1 <= Pow(2, k) && 1 <= Pow(2, 32 - k) <= WORD
    ensures Pow(2, k) * Pow(2, 32 - k) == WORD
  {
    PowPositive(2, k);
    PowPositive(2, 32 - k);
    PowAdd(2, k, 32 - k);
    Powers();
    MulGrows(Pow(2, k), Pow(2, 32 - k));
  }

  lemma MaskIsHighOnes(bits: nat)
    requires bits <= 32
    ensures Mask(bits) == WORD - Pow(2, 32 - bits)
  {
    SplitWord(bits);
    if bits > 0 {
      PowMonotone(2, 32 - bits, 31);
      Powers();
      ShiftedOnes(Pow(2, 32 - bits));
    } else {
      Powers();
    }
  }

  lemma ShiftedOnes(size: nat)
    requires 1 <= size < WORD
    ensures (WORD - 1) * size % WORD == WORD - size
  {
    assert (WORD - 1) * size == (size - 1) * WORD + (WORD - size);
    DivModUnique(size - 1, WORD, WORD - size);
  }

  lemma {:induction false} AndOnes(a: nat, n: nat)
    requires a < Pow(2, n)
    ensures And(a, Pow(2, n) - 1) == a
    decreases n
  {
    if n > 0 && a > 0 {
      PowPositive(2, n - 1);
      AndOnes(a / 2, n - 1);
    }
  }

  lemma ModHalf(a: nat, m: nat)
    requires m >= 1
    ensures a % (2 * m) == a % 2 + 2 * (a / 2 % m)
  {
    var q, r := a / 2 / m, a / 2 % m;
    DivModSplit(m, a / 2);
    assert a == (q * m + r) * 2 + a % 2;
    assert (q * m + r) * 2 == q * (2 * m) + 2 * r;
    DivModUnique(q, 2 * m, 2 * r + a % 2);
  }

  lemma AndEven(a: nat, b: nat, h: nat, g: nat)
    requires a / 2 == h && b / 2 == g && b % 2 == 0
    ensures And(a, b) == 2 * And(h, g)
  {
  }

  lemma OrOdd(a: nat, b: nat, h: nat, g: nat)
    requires a / 2 == h && b / 2 == g && a % 2 == 0 && b % 2 == 1
    ensures Or(a, b) == 2 * Or(h, g) + 1
  {
    if h == 0 {
      assert a == 0 && Or(h, g) == g;
    }
  }

  /** One bit of the masking argument; `p` and `q` are half the two powers. */
  lemma AndStep(a: nat, p: nat, q: nat, h: nat, low: nat)
    requires 1 <= p <= q && a / 2 == h && low <= h
    requires And(h, q - p) == h - low
    ensures And(a, 2 * q - 2 * p) == a - (a % 2 + 2 * low)
  {
    AndEven(a, 2 * q - 2 * p, h, q - p);
  }

  lemma ModAtMost(a: nat, m: nat)
    requires m >= 1
    ensures a % m <= a
  {
    DivModSplit(m, a);
  }

  /** The same for the powers themselves. */
  lemma AndHighStep(a: nat, big: nat, small: nat, q: nat, p: nat)
    requires big == 2 * q && small == 2 * p && 1 <= p <= q
    requires And(a / 2, q - p) == a / 2 - a / 2 % p
    ensures And(a, big - small) == a - a % small
  {
    ModHalf(a, p);
    ModAtMost(a / 2, p);
    AndStep(a, p, q, a / 2, a / 2 % p);
  }

  /** Masking keeps the high bits and clears the low ones. */
  lemma {:induction false} AndHighOnes(a: nat, n: nat, k: nat)
    requires k <= n && a < Pow(2, n)
    ensures 1 <= Pow(2, k) <= Pow(2, n)
    ensures And(a, Pow(2, n) - Pow(2, k)) == a - a % Pow(2, k)
    decreases k
  {
    PowPositive(2, k);
    PowMonotone(2, k, n);
    if k == 0 {
      AndOnes(a, n);
    } else {
      assert Pow(2, n) == 2 * Pow(2, n - 1) && Pow(2, k) == 2 * Pow(2, k - 1);
      AndHighOnes(a / 2, n - 1, k - 1);
      AndHighStep(a, Pow(2, n), Pow(2, k), Pow(2, n - 1), Pow(2, k - 1));
    }
  }

  lemma OrStep(a: nat, p: nat, h: nat)
    requires p >= 1 && a % 2 == 0 && a / 2 == h
    requires Or(h, p - 1) == h + p - 1
    ensures Or(a, 2 * p - 1) == a + 2 * p - 1
  {
    OrOdd(a, 2 * p - 1, h, p - 1);
  }

  /** Setting low bits of a block's first address adds them. */
  lemma {:induction false} OrLowOnes(a: nat, k: nat)
    requires Pow(2, k) >= 1 && a % Pow(2, k) == 0
    ensures Or(a, Pow(2, k) - 1) == a + Pow(2, k) - 1
    decreases k
  {
    if k > 0 {
      PowPositive(2, k - 1);
      ModHalf(a, Pow(2, k - 1));
      OrLowOnes(a / 2, k - 1);
      OrStep(a, Pow(2, k - 1), a / 2);
    }
  }

  // ---------- parsing a CIDR ----------

  /** First and last address of a written block. Text after a second slash is ignored, as in the source. */
  function ParseCidr(cidr: string): Option<(nat, nat)>
  {
    var parts := Split(Trim(cidr), "/");
    if parts[0] == "" || |parts| < 2 || parts[1] == "" || !AllDigits(10, parts[1]) then None
    else
      var bits := Parse(10, parts[1]);
      if bits > 32 then None
      else match Ipv4ToInt(parts[0])
           case None => None
           case Some(base) =>
             var start := And(base, Mask(bits));
             Some((start, Or(start, Not32(Mask(bits)))))
  }

  /** The block of `size` consecutive addresses an address falls in. */
  function BlockStart(address: nat, size: nat): nat
    requires size >= 1
  {
    address / size * size
  }

  lemma BlockFloor(base: nat, size: nat)
    requires size >= 1
    ensures BlockStart(base, size) == base - base % size
    ensures BlockStart(base, size) % size == 0
  {
    DivModSplit(size, base);
    DivModUnique(base / size, size, 0);
  }

  /** The masked address is where its block starts. */
  lemma MaskedStart(base: nat, bits: nat)
    requires base < WORD && bits <= 32
    ensures And(base, Mask(bits)) == BlockStart(base, BlockSize(32, bits))
  {
    Powers();
    MaskIsHighOnes(bits);
    AndHighOnes(base, 32, 32 - bits);
    BlockFloor(base, Pow(2, 32 - bits));
  }

  /** Setting the bits the mask leaves out leads from the start of a block to its end. */
  lemma MaskedEnd(start: nat, bits: nat)
    requires bits <= 32 && start % BlockSize(32, bits) == 0
    ensures Or(start, Not32(Mask(bits))) == start + BlockSize(32, bits) - 1
  {
    MaskIsHighOnes(bits);
    SplitWord(bits);
    OrLowOnes(start, 32 - bits);
  }

  /** Mask arithmetic computes exactly the aligned block of 2^(32 - bits) addresses. */
  lemma MaskedBlock(base: nat, bits: nat)
    requires base < WORD && bits <= 32
    ensures And(base, Mask(bits)) == BlockStart(base, BlockSize(32, bits))
    ensures Or(And(base, Mask(bits)), Not32(Mask(bits))) ==
            BlockStart(base, BlockSize(32, bits)) + BlockSize(32, bits) - 1
  {
    MaskedStart(base, bits);
    BlockFloor(base, BlockSize(32, bits));
    MaskedEnd(BlockStart(base, BlockSize(32, bits)), bits);
  }

  lemma ParsedBlock(cidr: string) returns (base: nat, bits: nat)
    requires ParseCidr(cidr).Some?
    ensures |Split(Trim(cidr), "/")| >= 2 && bits == Parse(10, Split(Trim(cidr), "/")[1])
    ensures Ipv4ToInt(Split(Trim(cidr), "/")[0]) == Some(base)
    ensures base < WORD && bits <= 32
    ensures ParseCidr(cidr).value ==
            (BlockStart(base, BlockSize(32, bits)), BlockStart(base, BlockSize(32, bits)) + BlockSize(32, bits) - 1)
  {
    var parts := Split(Trim(cidr), "/");
    base, bits := Ipv4ToInt(parts[0]).value, Parse(10, parts[1]);
    Ipv4Bound(parts[0]);
    MaskedBlock(base, bits);
  }

  // ---------- routability ----------

  /** Decided by the top two octets alone. */
  predicate NonRoutableOctets(a: nat, b: nat)
  {
    a == 0 || a == 10 || a == 127 || (a == 172 && 16 <= b <= 31) || (a == 192 && b == 168) ||
    (a == 169 && b == 254) || (a == 100 && 64 <= b <= 127) || a >= 224
  }

  predicate IsNonRoutableV4(ip: nat)
  {
    NonRoutableOctets(ip / 0x100_0000 % 0x100, ip / 0x1_0000 % 0x100)
  }

  /** The space no indicator may name: 0/8, 10/8, 100.64.0.0/10, 127/8, 169.254.0.0/16, 172.16.0.0/12,
      192.168.0.0/16, and 224.0.0.0 and above. */
  predicate Reserved(ip: nat)
  {
    ip <= 0x00ff_ffff || 0x0a00_0000 <= ip <= 0x0aff_ffff || 0x6440_0000 <= ip <= 0x647f_ffff ||
    0x7f00_0000 <= ip <= 0x7fff_ffff || 0xa9fe_0000 <= ip <= 0xa9fe_ffff || 0xac10_0000 <= ip <= 0xac1f_ffff ||
    0xc0a8_0000 <= ip <= 0xc0a8_ffff || 0xe000_0000 <= ip
  }

  lemma OctetsOf(ip: nat)
    requires ip < WORD
    ensures var a, b := ip / 0x100_0000 % 0x100, ip / 0x1_0000 % 0x100;
            a < 0x100 && b < 0x100 && (a * 0x100 + b) * 0x1_0000 <= ip < (a * 0x100 + b + 1) * 0x1_0000
  {
    assert ip / 0x100_0000 == ip / 0x1_0000 / 0x100;
  }

  lemma ReservedOctets(a: nat, b: nat, ip: nat)
    requires a < 0x100 && b < 0x100 && (a * 0x100 + b) * 0x1_0000 <= ip < (a * 0x100 + b + 1) * 0x1_0000
    ensures NonRoutableOctets(a, b) <==> Reserved(ip)
  {
  }

  /** The test on the two leading octets, by value. */
  lemma NonRoutableV4Exactly(ip: nat)
    requires ip < WORD
    ensures IsNonRoutableV4(ip) <==> Reserved(ip)
  {
    OctetsOf(ip);
    ReservedOctets(ip / 0x100_0000 % 0x100, ip / 0x1_0000 % 0x100, ip);
  }

  /** What `add` asks of a block: that its two ends be routable. */
  predicate EndsRoutable(start: nat, end: nat)
  {
    !IsNonRoutableV4(start) && !IsNonRoutableV4(end)
  }

  ghost predicate AllRoutable(start: nat, end: nat)
  {
    forall ip :: start <= ip <= end ==> !IsNonRoutableV4(ip)
  }

  /** Every block of this prefix length that passes the test at its ends is routable throughout. */
  ghost predicate EndsSuffice(bits: nat)
    requires bits <= 32
  {
    forall base :: 0 <= base < WORD ==>
      var start := BlockStart(base, BlockSize(32, bits));
      var end := start + BlockSize(32, bits) - 1;
      EndsRoutable(start, end) ==> AllRoutable(start, end)
  }

  /** Within an aligned pair of /16 blocks, the even one is non-routable if either is. */
  lemma EvenBlockDecides(h: nat)
    requires h < 0x1_0000 && h % 2 == 0
    requires NonRoutableOctets((h + 1) / 0x100 % 0x100, (h + 1) % 0x100)
    ensures NonRoutableOctets(h / 0x100 % 0x100, h % 0x100)
  {
  }

  lemma TopHalf(ip: nat)
    requires ip < WORD
    ensures var h := ip / 0x1_0000;
            h < 0x1_0000 && (IsNonRoutableV4(ip) <==> NonRoutableOctets(h / 0x100 % 0x100, h % 0x100))
  {
    assert ip / 0x100_0000 == ip / 0x1_0000 / 0x100;
  }

  lemma BlockFits(base: nat, bits: nat)
    requires bits <= 32 && base < WORD
    ensures BlockStart(base, BlockSize(32, bits)) <= base < BlockStart(base, BlockSize(32, bits)) + BlockSize(32, bits)
    ensures BlockStart(base, BlockSize(32, bits)) + BlockSize(32, bits) <= WORD
  {
    SplitWord(bits);
    LastBlockFits(base, BlockSize(32, bits), Pow(2, bits), WORD);
  }

  lemma LastBlockFits(base: nat, size: nat, blocks: nat, total: nat)
    requires size >= 1 && blocks * size == total && base < total
    ensures BlockStart(base, size) <= base < BlockStart(base, size) + size <= total
  {
    var q := base / size;
    DivModSplit(size, base);
    if q >= blocks {
      MulMono(blocks, q, size);
    } else {
      MulMono(q + 1, blocks, size);
    }
    assert (q + 1) * size == q * size + size;
  }

  /** A small block does not straddle a boundary between larger ones. */
  lemma SmallBlockInside(q: nat, size: nat, m: nat)
    requires size >= 1 && m >= 1 && m * size == 0x1_0000
    ensures q * size / 0x1_0000 == (q * size + size - 1) / 0x1_0000
  {
    var a, b := q / m, q % m;
    DivModSplit(m, q);
    assert (a * m + b) * size == a * (m * size) + b * size;
    MulMono(b + 1, m, size);
    assert (b + 1) * size == b * size + size;
    DivModUnique(a, 0x1_0000, b * size);
    DivModUnique(a, 0x1_0000, b * size + (size - 1));
  }

  lemma SmallBlocks(bits: nat)
    requires 16 <= bits <= 32
    ensures 1 <= Pow(2, bits - 16) && Pow(2, bits - 16) * BlockSize(32, bits) == 0x1_0000
  {
    PowAdd(2, bits - 16, 32 - bits);
    PowPositive(2, bits - 16);
    Powers();
  }

  lemma LongBlockInside(base: nat, size: nat, m: nat)
    requires size >= 1 && m >= 1 && m * size == 0x1_0000
    ensures BlockStart(base, size) / 0x1_0000 == (BlockStart(base, size) + size - 1) / 0x1_0000
  {
    SmallBlockInside(base / size, size, m);
  }

  lemma PairSize()
    ensures BlockSize(32, 15) == 0x2_0000
  {
    Powers();
  }

  /** A block of /15 or longer lies in one /16, or is an aligned pair of them. */
  lemma BlockInPair(base: nat, bits: nat)
    requires 15 <= bits <= 32 && base < WORD
    ensures var size := BlockSize(32, bits);
            var start := BlockStart(base, size);
            start / 0x1_0000 == (start + size - 1) / 0x1_0000 || (start % 0x2_0000 == 0 && size == 0x2_0000)
  {
    if bits == 15 {
      PairSize();
      BlockFloor(base, 0x2_0000);
    } else {
      SmallBlocks(bits);
      LongBlockInside(base, BlockSize(32, bits), Pow(2, bits - 16));
    }
  }

  /** The same for two /16 blocks given by their top halves. */
  lemma HalfRoutable(h: nat, g: nat)
    requires h < 0x1_0000 && g < 0x1_0000 && (h == g || (g % 2 == 0 && h == g + 1))
    requires !NonRoutableOctets(g / 0x100 % 0x100, g % 0x100)
    ensures !NonRoutableOctets(h / 0x100 % 0x100, h % 0x100)
  {
    if h != g && NonRoutableOctets(h / 0x100 % 0x100, h % 0x100) {
      EvenBlockDecides(g);
    }
  }

  lemma HalvesOfPair(start: nat, size: nat, ip: nat)
    requires start <= ip < start + size
    requires start / 0x1_0000 == (start + size - 1) / 0x1_0000 || (start % 0x2_0000 == 0 && size == 0x2_0000)
    ensures ip / 0x1_0000 == start / 0x1_0000 ||
            (start / 0x1_0000 % 2 == 0 && ip / 0x1_0000 == start / 0x1_0000 + 1)
  {
    if start % 0x2_0000 == 0 && size == 0x2_0000 {
      var q := start / 0x2_0000;
      assert start == 0x2_0000 * q;
      assert start / 0x1_0000 == 2 * q;
    } else {
      assert start / 0x1_0000 <= ip / 0x1_0000 <= (start + size - 1) / 0x1_0000;
    }
  }

  lemma PairRoutable(start: nat, size: nat, ip: nat)
    requires start + size <= WORD && start <= ip < start + size && !IsNonRoutableV4(start)
    requires start / 0x1_0000 == (start + size - 1) / 0x1_0000 || (start % 0x2_0000 == 0 && size == 0x2_0000)
    ensures !IsNonRoutableV4(ip)
  {
    TopHalf(ip);
    TopHalf(start);
    HalvesOfPair(start, size, ip);
    HalfRoutable(ip / 0x1_0000, start / 0x1_0000);
  }

  lemma LongPrefixSuffices(bits: nat, base: nat, start: nat, end: nat)
    requires 15 <= bits <= 32 && base < WORD
    requires start == BlockStart(base, BlockSize(32, bits)) && end == start + BlockSize(32, bits) - 1
    requires EndsRoutable(start, end)
    ensures AllRoutable(start, end)
  {
    BlockInPair(base, bits);
    BlockFits(base, bits);
    forall ip | start <= ip <= end ensures !IsNonRoutableV4(ip) {
      PairRoutable(start, BlockSize(32, bits), ip);
    }
  }

  lemma Routable(h: nat)
    requires 0x8000 <= h < 0xA9FE || h in {0xA9FF, 0xABFF, 0xAFFF, 0xBFFF}
    ensures !NonRoutableOctets(h / 0x100 % 0x100, h % 0x100)
  {
  }

  /** 169.254.0.0/16 sits strictly inside each of its /2 to /14 blocks, whose own ends are routable. */
  lemma LinkLocalHides(t: nat)
    requires t in {4, 8, 16, 32, 64, 128, 256, 512, 1024, 2048, 4096, 8192, 16384}
    ensures var h := 0xA9FE / t * t;
            0x8000 <= h < 0xA9FE && h + t - 1 in {0xA9FF, 0xABFF, 0xAFFF, 0xBFFF}
  {
  }

  lemma ShortPrefixSizes(bits: nat) returns (t: nat)
    requires 2 <= bits <= 14
    ensures t in {4, 8, 16, 32, 64, 128, 256, 512, 1024, 2048, 4096, 8192, 16384}
    ensures BlockSize(32, bits) == t * 0x1_0000
  {
    t := Pow(2, 16 - bits);
    PowAdd(2, 16 - bits, 16);
    Powers();
    ShortPowers(16 - bits);
  }

  lemma ShortPowers(k: nat)
    requires 2 <= k <= 14
    ensures Pow(2, k) in {4, 8, 16, 32, 64, 128, 256, 512, 1024, 2048, 4096, 8192, 16384}
  {
    PowAdd(2, k, 14 - k);
    PowPositive(2, k);
    PowPositive(2, 14 - k);
    Powers();
    assert Pow(2, 16) == 4 * Pow(2, 14);
    MulGrows(Pow(2, k), Pow(2, 14 - k));
    if k > 2 {
      ShortPowers(k - 1);
    }
  }

  lemma ShortPrefixHides(bits: nat)
    requires 2 <= bits <= 14
    ensures !EndsSuffice(bits)
  {
    var t := ShortPrefixSizes(bits);
    var base, size := 0xA9FE_0000, BlockSize(32, bits);
    BlockFits(base, bits);
    ScaledBlock(t);
    HiddenReserved(t, BlockStart(base, size), BlockStart(base, size) + size - 1);
    assert !AllRoutable(BlockStart(base, size), BlockStart(base, size) + size - 1);
  }

  lemma HiddenReserved(t: nat, start: nat, end: nat)
    requires t in {4, 8, 16, 32, 64, 128, 256, 512, 1024, 2048, 4096, 8192, 16384}
    requires start == 0xA9FE / t * t * 0x1_0000 && end == start + t * 0x1_0000 - 1
    requires start <= 0xA9FE_0000 <= end < WORD
    ensures EndsRoutable(start, end) && IsNonRoutableV4(0xA9FE_0000)
  {
    var h := 0xA9FE / t * t;
    LinkLocalHides(t);
    Routable(h);
    Routable(h + t - 1);
    TopHalf(start);
    TopHalf(end);
    assert start / 0x1_0000 == h && end / 0x1_0000 == h + t - 1;
  }

  lemma ScaledBlock(t: nat)
    requires t >= 1
    ensures BlockStart(0xA9FE_0000, t * 0x1_0000) == 0xA9FE / t * t * 0x1_0000
  {
    var q, r := 0xA9FE / t, 0xA9FE % t;
    DivModSplit(t, 0xA9FE);
    var s := t * 0x1_0000;
    assert q * s == q * t * 0x1_0000;
    assert 0xA9FE_0000 == q * s + r * 0x1_0000;
    DivModUnique(q, s, r * 0x1_0000);
  }

  /** The two coarsest lengths: every such block starts or ends in reserved space. */
  lemma HalvesAreReserved(bits: nat, base: nat, start: nat, end: nat)
    requires bits <= 1 && base < WORD
    requires start == BlockStart(base, BlockSize(32, bits)) && end == start + BlockSize(32, bits) - 1
    ensures !EndsRoutable(start, end)
  {
    Powers();
    BlockFits(base, bits);
    if bits == 0 {
      assert BlockStart(base, WORD) == 0 by { assert base / WORD == 0; }
      assert IsNonRoutableV4(0);
    } else {
      HalfBlocks(base);
    }
  }

  lemma HalfBlocks(base: nat)
    requires base < WORD
    ensures var start := BlockStart(base, 0x8000_0000);
            IsNonRoutableV4(start) || IsNonRoutableV4(start + 0x8000_0000 - 1)
  {
    assert base / 0x8000_0000 == 0 || base / 0x8000_0000 == 1;
    assert IsNonRoutableV4(0) && IsNonRoutableV4(WORD - 1);
  }

  /**
   Testing only the two ends keeps every reserved address out of a block for exactly these
   prefix lengths: /15 and longer, and the two lengths so short that no block passes at all.
   */
  lemma EndsSufficeExactly(bits: nat)
    requires bits <= 32
    ensures EndsSuffice(bits) <==> bits <= 1 || bits >= 15
  {
    if 2 <= bits <= 14 {
      ShortPrefixHides(bits);
    } else {
      forall base | 0 <= base < WORD
        ensures var start := BlockStart(base, BlockSize(32, bits));
                var end := start + BlockSize(32, bits) - 1;
                EndsRoutable(start, end) ==> AllRoutable(start, end)
      {
        var start := BlockStart(base, BlockSize(32, bits));
        var end := start + BlockSize(32, bits) - 1;
        if bits <= 1 {
          HalvesAreReserved(bits, base, start, end);
        } else if EndsRoutable(start, end) {
          LongPrefixSuffices(bits, base, start, end);
        }
      }
    }
  }
}
