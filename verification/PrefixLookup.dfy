/** internal/geofeed/lookup.go: a lookup built from prefixes is longest-prefix match, because a prefix's
    range, got by or-ing a host mask into its base, holds exactly the addresses it matches; save for
    IPv6 prefixes that end at the top of the IPv4-mapped block, which are dropped. */
module PrefixLookup {
  import Bits
  import opened RangeIndex
  import opened GeofeedLookup

  const TWO48 := 0x1_0000_0000_0000

  /** A netip.Prefix: an address and how many of its leading bits matter. */
  datatype Prefix = Prefix(addr: Addr, bits: nat)

  datatype Entry = Entry(prefix: Prefix, country: CountryCode)

  predicate ValidPrefix(p: Prefix)
  {
    match p.addr
    case Invalid => false
    case V4(w) => w < TWO32 && p.bits <= 32
    case V6(w) => Words(w) && p.bits <= 128
  }

  ghost predicate ValidEntries(entries: seq<Entry>)
  {
    forall i :: 0 <= i < |entries| ==> ValidPrefix(entries[i].prefix)
  }

  /** An address with everything below its leading bits cleared. */
  function Clear(x: nat, h: nat): nat
  {
    ModAtMost(x, Bits.Pow2(h));
    x - x % Bits.Pow2(h)
  }

  lemma ModAtMost(x: nat, d: nat)
    requires d > 0
    ensures 0 <= x % d <= x
  {
    if x < d {
      Bits.QuotientUnique(x, d, 0, x);
    }
  }

  function OfValue(v: nat): Uint128
  {
    Uint128(v / TWO64, v % TWO64)
  }

  /** netip.Prefix.Masked's address. */
  function Masked(p: Prefix): Addr
    requires ValidPrefix(p)
  {
    match p.addr
    case V4(w) => V4(Clear(w, 32 - p.bits))
    case V6(w) => V6(OfValue(Clear(Value(w), 128 - p.bits)))
  }

  // ----- the masks -----

  /** The host-part mask of an IPv6 prefix length, in its four cases. */
  function HostMask128(prefixBits: nat): Uint128
    requires prefixBits <= 128
  {
    var host := 128 - prefixBits;
    if host >= 128 then Uint128(Bits.Ones(64), Bits.Ones(64))
    else if host > 64 then Uint128(Bits.Shr(Bits.Ones(64), 128 - host), Bits.Ones(64))
    else if host == 64 then Uint128(0, Bits.Ones(64))
    else
      ShlOneBit(host);
      Uint128(0, Bits.Shl(64, 1, host) - 1)
  }

  lemma ShlOneBit(n: nat)
    requires n < 64
    ensures Bits.Shl(64, 1, n) == Bits.Pow2(n)
  {
    Bits.PowMonotone(n, 64);
    Bits.QuotientUnique(Bits.Pow2(n), Bits.Pow2(64), 0, Bits.Pow2(n));
  }

  function OrWords(a: Uint128, b: Uint128): Uint128
  {
    Uint128(Bits.Or(a.hi, b.hi), Bits.Or(a.lo, b.lo))
  }

  function Ipv4PrefixRange(word: nat, bits: nat): (nat, nat)
    requires word < Bits.Pow2(32) && bits <= 32
  {
    MaskFits(bits);
    var mask := Bits.Shl(32, Bits.Ones(32), 32 - bits);
    var start := Bits.And(word, mask);
    (start, Bits.Or(start, Bits.Not(32, mask)))
  }

  lemma Powers()
    ensures Bits.Pow2(32) == TWO32 && Bits.Pow2(64) == TWO64 && Bits.Pow2(48) == TWO48
    ensures Bits.Pow2(128) == TWO64 * TWO64 && Bits.Pow2(33) == 2 * TWO32
  {
    Bits.PowersOfBytes();
    Bits.PowAdd(64, 64);
  }

  lemma MaskFits(bits: nat)
    requires bits <= 32
    ensures Bits.Shl(32, Bits.Ones(32), 32 - bits) < Bits.Pow2(32)
  {
    Bits.ShlOnes(32, 32 - bits);
  }

  /** The IPv4 range is the prefix's block: from its masked address through all host bits set. */
  lemma Ipv4RangeIsBlock(word: nat, bits: nat)
    requires word < TWO32 && bits <= 32
    ensures word < Bits.Pow2(32)
    ensures Ipv4PrefixRange(word, bits) == (Clear(word, 32 - bits), Clear(word, 32 - bits) + Bits.Ones(32 - bits))
    ensures Clear(word, 32 - bits) + Bits.Ones(32 - bits) < TWO32
  {
    hide Bits.Pow2, Bits.Shl, Bits.And, Bits.Or;
    var h := 32 - bits;
    Powers();
    Bits.ShlOnes(32, h);
    Bits.AndHighOnes(word, 32, h);
    ClearIsAligned(word, h);
    Bits.OrLowOnes(Clear(word, h), h);
    BlockFits(word, h, 32);
  }

  lemma ClearIsAligned(x: nat, h: nat)
    ensures Clear(x, h) <= x && Clear(x, h) % Bits.Pow2(h) == 0
  {
    Bits.ClearingTwice(x, h, h);
  }

  /** The block of an address stays inside the address space. */
  lemma BlockFits(x: nat, h: nat, w: nat)
    requires x < Bits.Pow2(w) && h <= w
    ensures Clear(x, h) + Bits.Ones(h) < Bits.Pow2(w)
  {
    Bits.PowAdd(w - h, h);
    Bits.BlockBelow(x, Bits.Pow2(h), Bits.Pow2(w - h));
  }

  lemma WordsOfValue(v: nat)
    requires v < Bits.Pow2(128)
    ensures Words(OfValue(v)) && Value(OfValue(v)) == v
  {
    Powers();
  }

  /** An aligned value splits into aligned words. */
  lemma WordsAreAligned(v: nat, h: nat)
    requires v % Bits.Pow2(h) == 0 && h <= 128
    ensures h <= 64 ==> OfValue(v).lo % Bits.Pow2(h) == 0
    ensures h >= 64 ==> OfValue(v).lo == 0 && OfValue(v).hi % Bits.Pow2(h - 64) == 0
  {
    Powers();
    if h <= 64 {
      MultipleSplits(v, h, 64);
    }
    if h >= 64 {
      Bits.PowAdd(h - 64, 64);
      var d, e := Bits.Pow2(h), Bits.Pow2(h - 64);
      Bits.DivMod(v, d);
      Bits.Associate(v / d, e, TWO64);
      Bits.QuotientUnique(v, TWO64, (v / d) * e, 0);
      Bits.QuotientUnique((v / d) * e, e, v / d, 0);
    }
  }

  /** A multiple of 2^a leaves a multiple of 2^a when divided by 2^b, for a <= b. */
  lemma MultipleSplits(v: nat, a: nat, b: nat)
    requires v % Bits.Pow2(a) == 0 && a <= b
    ensures (v % Bits.Pow2(b)) % Bits.Pow2(a) == 0
  {
    Bits.PowAdd(b - a, a);
    var d, e := Bits.Pow2(a), Bits.Pow2(b - a);
    Bits.DivMod(v, d);
    var q := v / d;
    Bits.DivMod(q, e);
    Bits.SplitTwice(d, e, q, q / e, q % e, 0);
    Bits.QuotientUnique(v, e * d, q / e, (q % e) * d);
    Bits.QuotientUnique((q % e) * d, d, q % e, 0);
  }

  /** Or-ing the host mask into an aligned start adds all the host ones, in each of the four cases. */
  lemma HostMaskFillsBlock(v: nat, bits: nat)
    requires bits <= 128 && v < Bits.Pow2(128) && v % Bits.Pow2(128 - bits) == 0
    requires v + Bits.Ones(128 - bits) < Bits.Pow2(128)
    ensures OrWords(OfValue(v), HostMask128(bits)) == OfValue(v + Bits.Ones(128 - bits))
  {
    var h := 128 - bits;
    WordsOfValue(v);
    WordsAreAligned(v, h);
    if h >= 64 {
      HighWordFills(v, h);
    } else {
      LowWordFills(v, h);
    }
  }

  lemma HighWordFills(v: nat, h: nat)
    requires 64 <= h <= 128 && OfValue(v).lo == 0 && OfValue(v).hi % Bits.Pow2(h - 64) == 0
    ensures OrWords(OfValue(v), HostMask128(128 - h)) == OfValue(v + Bits.Ones(h))
  {
    var hi := OfValue(v).hi;
    Powers();
    Bits.DivMod(v, TWO64);
    Bits.ShrOnes(64, 128 - h);
    assert HostMask128(128 - h) == Uint128(Bits.Ones(h - 64), Bits.Ones(64));
    Bits.OrLowOnes(hi, h - 64);
    assert OrWords(OfValue(v), HostMask128(128 - h)) == Uint128(hi + Bits.Ones(h - 64), Bits.Ones(64));
    HighWordSum(v, hi, h);
  }

  lemma HighWordSum(v: nat, hi: nat, h: nat)
    requires 64 <= h <= 128 && v == hi * TWO64
    ensures OfValue(v + Bits.Ones(h)) == Uint128(hi + Bits.Ones(h - 64), Bits.Ones(64))
  {
    Bits.PowersOfBytes();
    Bits.PowAdd(h - 64, 64);
    assert Bits.Pow2(h) == Bits.Pow2(h - 64) * TWO64;
    Bits.QuotientUnique(v + Bits.Ones(h), TWO64, hi + Bits.Ones(h - 64), Bits.Ones(64));
  }

  lemma LowWordFills(v: nat, h: nat)
    requires h < 64 && OfValue(v).lo < TWO64 && OfValue(v).lo % Bits.Pow2(h) == 0
    ensures OrWords(OfValue(v), HostMask128(128 - h)) == OfValue(v + Bits.Ones(h))
  {
    var hi, lo := OfValue(v).hi, OfValue(v).lo;
    Bits.DivMod(v, TWO64);
    ShlOneBit(h);
    assert HostMask128(128 - h) == Uint128(0, Bits.Ones(h));
    Bits.OrLowOnes(lo, h);
    WordBlockFits(lo, h);
    Bits.QuotientUnique(v + Bits.Ones(h), TWO64, hi, lo + Bits.Ones(h));
  }

  lemma WordBlockFits(lo: nat, h: nat)
    requires lo < TWO64 && lo % Bits.Pow2(h) == 0 && h <= 64
    ensures lo + Bits.Ones(h) < TWO64
  {
    Powers();
    BlockFits(lo, h, 64);
  }

  // ----- prefixes as ranges -----

  function PrefixRange(p: Prefix, country: CountryCode): Range
    requires ValidPrefix(p)
  {
    match p.addr
    case V4(w) =>
      ClearIsAligned(w, 32 - p.bits);
      Ipv4Range(Clear(w, 32 - p.bits), p.bits, country)
    case V6(w) =>
      Ipv6Range(Clear(Value(w), 128 - p.bits), p.bits, country)
  }

  function Ipv4Range(masked: nat, bits: nat, country: CountryCode): Range
    requires masked < TWO32 && bits <= 32
  {
    Ipv4RangeIsBlock(masked, bits);
    var r := Ipv4PrefixRange(masked, bits);
    Range(V4(r.0), V4(r.1), country)
  }

  function Ipv6Range(masked: nat, bits: nat, country: CountryCode): Range
    requires bits <= 128
  {
    Range(V6(OfValue(masked)), V6(OrWords(OfValue(masked), HostMask128(bits))), country)
  }

  /** The block of addresses a prefix names: its first address and how many bits are free. */
  datatype Block = Block(v4: bool, base: nat, host: nat)

  /** The block the lookup can match: a prefix inside ::ffff:0:0/96 is an IPv4 prefix. */
  function BlockOf(p: Prefix): Block
    requires ValidPrefix(p)
  {
    match p.addr
    case V4(w) => Block(true, Clear(w, 32 - p.bits), 32 - p.bits)
    case V6(w) =>
      Ipv6Block(Clear(Value(w), 128 - p.bits), 128 - p.bits)
  }

  function Ipv6Block(base: nat, host: nat): Block
  {
    if IsMapped(OfValue(base)) then Block(true, base % TWO32, host) else Block(false, base, host)
  }

  /** An address belongs to a prefix when its network bits are the prefix's. */
  predicate Contains(p: Prefix, ip: Addr)
    requires ValidPrefix(p)
  {
    var b := BlockOf(p);
    b.v4 == Probe(ip).V4? && Clear(Number(Probe(ip)), b.host) == b.base
  }

  /** An IPv6 prefix wider than a /96 whose last address is ::ffff:255.255.255.255. */
  predicate Straddles(p: Prefix)
    requires ValidPrefix(p)
  {
    p.addr.V6? && StraddlesAt(Clear(Value(p.addr.words), 128 - p.bits), 128 - p.bits)
  }

  predicate StraddlesAt(base: nat, host: nat)
  {
    33 <= host <= 48 && base + Bits.Pow2(host) == TWO48
  }

  lemma ValueBound(w: Uint128)
    requires Words(w)
    ensures Value(w) < Bits.Pow2(128)
  {
    Powers();
  }

  lemma MappedIsInterval(v: nat)
    requires v < Bits.Pow2(128)
    ensures IsMapped(OfValue(v)) <==> TWO48 - TWO32 <= v < TWO48
    ensures IsMapped(OfValue(v)) ==> OfValue(v).lo == v
  {
    WordsOfValue(v);
  }

  /** A block's first address is aligned and its last is inside the address space. */
  ghost predicate IsBase(base: nat, host: nat)
  {
    host <= 128 && base % Bits.Pow2(host) == 0 && base + Bits.Ones(host) < Bits.Pow2(128)
  }

  lemma Ipv6BaseIsBase(w: Uint128, bits: nat)
    requires Words(w) && bits <= 128
    ensures IsBase(Clear(Value(w), 128 - bits), 128 - bits)
  {
    ValueBound(w);
    ClearIsAligned(Value(w), 128 - bits);
    BlockFits(Value(w), 128 - bits, 128);
  }

  /** The range of an IPv6 prefix is its block. */
  lemma Ipv6RangeIsBlock(base: nat, bits: nat, country: CountryCode)
    requires bits <= 128 && IsBase(base, 128 - bits)
    ensures Ipv6Range(base, bits, country) == Range(V6(OfValue(base)), V6(OfValue(base + Bits.Ones(128 - bits))), country)
  {
    HostMaskFillsBlock(base, bits);
  }

  lemma {:induction false} MultipleOfHigher(x: nat, a: nat, b: nat)
    requires a <= b && x % Bits.Pow2(b) == 0
    ensures x % Bits.Pow2(a) == 0
  {
    Bits.PowAdd(b - a, a);
    var d, e := Bits.Pow2(a), Bits.Pow2(b - a);
    var q := x / (e * d);
    Bits.DivMod(x, e * d);
    Bits.Associate(q, e, d);
    Bits.QuotientUnique(x, d, q * e, 0);
  }

  /** Two different multiples of d are at least d apart. */
  lemma MultiplesApart(x: nat, y: nat, d: nat)
    requires d > 0 && x % d == 0 && y % d == 0 && x < y
    ensures x + d <= y
  {
    Bits.DivMod(x, d);
    Bits.DivMod(y, d);
    Bits.MulDistributes(y / d, x / d, d);
    if y / d > x / d {
      Bits.MulGrows(y / d - x / d, d);
    }
  }

  /** A block starting inside the mapped block stays inside it. */
  lemma MappedStartStaysMapped(base: nat, h: nat)
    requires base % Bits.Pow2(h) == 0 && TWO48 - TWO32 <= base < TWO48
    ensures h <= 32 && base + Bits.Ones(h) < TWO48
  {
    if h >= 33 {
      var q := EvenMultiple(base, h);
    } else {
      PowerDivides(32, h, 0x1_0000);
      Bits.PowersOfBytes();
      MultiplesApart(base, TWO48, Bits.Pow2(h));
    }
  }

  lemma EvenMultiple(x: nat, h: nat) returns (q: nat)
    requires x % Bits.Pow2(h) == 0 && h >= 33
    ensures x == q * 0x2_0000_0000
  {
    MultipleOfHigher(x, 33, h);
    Bits.PowersOfBytes();
    Bits.DivMod(x, Bits.Pow2(33));
    q := x / Bits.Pow2(33);
  }

  lemma PowerDivides(b: nat, a: nat, k: nat)
    requires a <= b
    ensures (k * Bits.Pow2(b)) % Bits.Pow2(a) == 0
  {
    Bits.QuotientUnique(k * Bits.Pow2(b), Bits.Pow2(b), k, 0);
    MultipleOfHigher(k * Bits.Pow2(b), a, b);
  }

  /** A block starting outside the mapped block ends inside it only when it ends with it. */
  lemma MappedEndMeansStraddle(base: nat, h: nat)
    requires base % Bits.Pow2(h) == 0
    requires !(TWO48 - TWO32 <= base < TWO48) && TWO48 - TWO32 <= base + Bits.Ones(h) < TWO48
    ensures 33 <= h <= 48 && base + Bits.Pow2(h) == TWO48
  {
    if h <= 32 {
      SmallBlockEndsOutside(base, h);
    } else {
      NextMultiple(base, Bits.Pow2(h));
      var q := EvenMultiple(base + Bits.Pow2(h), h);
      OnlyEvenMultiple(base + Bits.Pow2(h), q);
      if h > 48 {
        Bits.PowersOfBytes();
        Bits.PowMonotone(48, h);
      }
    }
  }

  lemma OnlyEvenMultiple(top: nat, q: nat)
    requires top == q * 0x2_0000_0000 && TWO48 - TWO32 < top <= TWO48
    ensures top == TWO48
  {
  }

  lemma SmallBlockEndsOutside(base: nat, h: nat)
    requires base % Bits.Pow2(h) == 0 && h <= 32 && base < TWO48 - TWO32
    ensures base + Bits.Ones(h) < TWO48 - TWO32
  {
    PowerDivides(32, h, 0xFFFF);
    Bits.PowersOfBytes();
    MultiplesApart(base, TWO48 - TWO32, Bits.Pow2(h));
  }

  lemma NextMultiple(x: nat, d: nat)
    requires d > 0 && x % d == 0
    ensures (x + d) % d == 0
  {
    Bits.DivMod(x, d);
    Bits.MulDistributes(x / d, 1, d);
    Bits.QuotientUnique(x + d, d, x / d + 1, 0);
  }

  /** The index keeps a prefix's range exactly when the prefix does not straddle; kept, the range is its block. */
  lemma KeptUnlessStraddling(p: Prefix, country: CountryCode)
    requires ValidPrefix(p)
    ensures Usable(PrefixRange(p, country)) <==> !Straddles(p)
    ensures !Straddles(p) ==> RangeIsBlock(PrefixRange(p, country), BlockOf(p))
  {
    hide Usable, RangeIsBlock, Bits.Pow2, Ipv4Range, Ipv6Range, Clear, Value, IsBase, StraddlesAt, Ipv6Block;
    match p.addr
    case V4(w) =>
      ClearIsAligned(w, 32 - p.bits);
      Ipv4Kept(Clear(w, 32 - p.bits), p.bits, country);
    case V6(w) =>
      Ipv6BaseIsBase(w, p.bits);
      Ipv6PrefixKept(Clear(Value(w), 128 - p.bits), p.bits, country);
  }

  lemma Ipv6PrefixKept(base: nat, bits: nat, country: CountryCode)
    requires bits <= 128 && IsBase(base, 128 - bits)
    ensures Usable(Ipv6Range(base, bits, country)) <==> !StraddlesAt(base, 128 - bits)
    ensures !StraddlesAt(base, 128 - bits) ==>
              RangeIsBlock(Ipv6Range(base, bits, country), Ipv6Block(base, 128 - bits))
  {
    Ipv6RangeIsBlock(base, bits, country);
    Ipv6Kept(base, 128 - bits, Ipv6Range(base, bits, country));
  }

  lemma Ipv6RangeIsValid(base: nat, bits: nat, country: CountryCode)
    requires bits <= 128 && IsBase(base, 128 - bits)
    ensures ValidAddr(Ipv6Range(base, bits, country).start) && ValidAddr(Ipv6Range(base, bits, country).end)
  {
    Ipv6RangeIsBlock(base, bits, country);
    WordsOfValue(base);
    WordsOfValue(base + Bits.Ones(128 - bits));
  }

  ghost predicate RangeIsBlock(r: Range, b: Block)
  {
    && Unmap(r.start).V4? == b.v4
    && View(r) == Span(b.base, b.base + Bits.Ones(b.host), r.country)
    && b.base % Bits.Pow2(b.host) == 0
  }

  lemma Ipv4Kept(base: nat, bits: nat, country: CountryCode)
    requires base < TWO32 && bits <= 32 && base % Bits.Pow2(32 - bits) == 0
    ensures Ipv4Range(base, bits, country) == Range(V4(base), V4(base + Bits.Ones(32 - bits)), country)
    ensures Usable(Ipv4Range(base, bits, country))
    ensures RangeIsBlock(Ipv4Range(base, bits, country), Block(true, base, 32 - bits))
    ensures base + Bits.Ones(32 - bits) < TWO32
  {
    hide Bits.Pow2, Ipv4PrefixRange, Bits.And, Bits.Or, Bits.Shl;
    Ipv4RangeIsBlock(base, bits);
    assert Clear(base, 32 - bits) == base;
  }

  lemma Ipv6Kept(base: nat, h: nat, r: Range)
    requires IsBase(base, h) && r.start == V6(OfValue(base)) && r.end == V6(OfValue(base + Bits.Ones(h)))
    ensures Usable(r) <==> !StraddlesAt(base, h)
    ensures !StraddlesAt(base, h) ==> RangeIsBlock(r, Ipv6Block(base, h))
  {
    hide Bits.Pow2;
    var end := base + Bits.Ones(h);
    WordsOfValue(base);
    WordsOfValue(end);
    MappedIsInterval(base);
    MappedIsInterval(end);
    if IsMapped(OfValue(base)) {
      MappedStartStaysMapped(base, h);
      MappedBlock(base, h);
    } else if IsMapped(OfValue(end)) {
      MappedEndMeansStraddle(base, h);
    }
  }

  /** Inside the mapped block, dropping the ::ffff: part keeps alignment and distance. */
  lemma MappedBlock(base: nat, h: nat)
    requires base % Bits.Pow2(h) == 0 && TWO48 - TWO32 <= base && base + Bits.Ones(h) < TWO48 && h <= 32
    ensures base % TWO32 == base - (TWO48 - TWO32)
    ensures (base + Bits.Ones(h)) % TWO32 == base % TWO32 + Bits.Ones(h)
    ensures (base % TWO32) % Bits.Pow2(h) == 0
  {
    var offset := base - (TWO48 - TWO32);
    Bits.QuotientUnique(base, TWO32, MAPPED_HIGH, offset);
    Bits.QuotientUnique(base + Bits.Ones(h), TWO32, MAPPED_HIGH, offset + Bits.Ones(h));
    Bits.PowersOfBytes();
    MultipleSplits(base, h, 32);
  }

  // ----- longest-prefix match -----

  function RangesOf(entries: seq<Entry>): (r: seq<Range>)
    requires ValidEntries(entries)
    ensures |r| == |entries|
    ensures forall i :: 0 <= i < |r| ==> r[i] == PrefixRange(entries[i].prefix, entries[i].country)
  {
    seq(|entries|, i requires 0 <= i < |entries| => PrefixRange(entries[i].prefix, entries[i].country))
  }

  ghost predicate Matches(entries: seq<Entry>, ip: Addr, i: nat)
    requires ValidEntries(entries)
  {
    i < |entries| && !Straddles(entries[i].prefix) && Contains(entries[i].prefix, ip)
  }

  /** Entry `i` is the longest match, the first among equally long ones. */
  ghost predicate IsLongestMatch(entries: seq<Entry>, ip: Addr, i: nat)
    requires ValidEntries(entries)
  {
    && Matches(entries, ip, i)
    && forall j: nat :: j != i && Matches(entries, ip, j) ==>
         var a, b := BlockOf(entries[i].prefix).host, BlockOf(entries[j].prefix).host;
         a < b || (a == b && i < j)
  }

  ghost predicate LongestPrefixAnswers(entries: seq<Entry>, ip: Addr, country: CountryCode)
    requires ValidEntries(entries)
  {
    if exists j: nat :: Matches(entries, ip, j)
    then exists i: nat :: IsLongestMatch(entries, ip, i) && country == entries[i].country
    else country == ZERO_CODE
  }

  lemma CoversIsMatch(entries: seq<Entry>, ip: Addr, i: nat)
    requires ValidEntries(entries) && i < |entries| && ValidAddr(ip)
    ensures Covers(RangesOf(entries)[i], ip) <==> Matches(entries, ip, i)
  {
    var p := entries[i].prefix;
    KeptUnlessStraddling(p, entries[i].country);
    if !Straddles(p) {
      Bits.InBlock(Number(Probe(ip)), BlockOf(p).base, BlockOf(p).host);
    }
  }

  /** The narrowest covering range is the longest matching prefix. */
  lemma BestIsLongest(entries: seq<Entry>, ip: Addr, i: nat)
    requires ValidEntries(entries) && ValidAddr(ip) && IsBestRange(RangesOf(entries), ip, i)
    ensures IsLongestMatch(entries, ip, i)
  {
    CoversIsMatch(entries, ip, i);
    forall j: nat | j != i && Matches(entries, ip, j)
      ensures var a, b := BlockOf(entries[i].prefix).host, BlockOf(entries[j].prefix).host;
              a < b || (a == b && i < j)
    {
      CoversIsMatch(entries, ip, j);
      var a, b := BlockOf(entries[i].prefix), BlockOf(entries[j].prefix);
      KeptUnlessStraddling(entries[i].prefix, entries[i].country);
      KeptUnlessStraddling(entries[j].prefix, entries[j].country);
      assert Precedes(View(RangesOf(entries)[i]), i, View(RangesOf(entries)[j]), j);
      if b.host < a.host {
        Bits.PowMonotone(b.host, a.host);
      }
    }
  }

  // ----- the same, by the bits an address and a prefix share -----

  /** All but the low `free` bits are the same. */
  ghost predicate Share(x: nat, y: nat, free: nat)
  {
    x / Bits.Pow2(free) == y / Bits.Pow2(free)
  }

  /** The address is the IPv4 address `n`, plain or in its IPv6 spelling ::ffff:n. */
  ghost predicate IsIpv4(ip: Addr, n: nat)
  {
    n < TWO32 && (ip == V4(n) || ip == V6(Uint128(0, 0xFFFF * TWO32 + n)))
  }

  /** The leading bits of the address are the prefix's. An IPv4 address is in a mapped prefix that is no
      wider than the mapped block; an Addr without an address is read as ::. */
  ghost predicate InPrefix(p: Prefix, ip: Addr)
    requires ValidPrefix(p)
  {
    match p.addr
    case V4(w) => exists n: nat :: IsIpv4(ip, n) && Share(n, w, 32 - p.bits)
    case V6(w) =>
      if exists n: nat :: IsIpv4(ip, n) then
        exists n: nat :: IsIpv4(ip, n) && p.bits >= 96 && Share(0xFFFF * TWO32 + n, Value(w), 128 - p.bits)
      else Share(Number(ip), Value(w), 128 - p.bits)
  }

  /** A prefix wider than the mapped block, ending with it. */
  ghost predicate IsLost(p: Prefix)
    requires ValidPrefix(p)
  {
    p.addr.V6? && 80 <= p.bits < 96 && Share(TWO48 - 1, Value(p.addr.words), 128 - p.bits)
  }

  /** The bits a prefix leaves open. */
  function FreeBits(p: Prefix): nat
    requires ValidPrefix(p)
  {
    (if p.addr.V4? then 32 else 128) - p.bits
  }

  ghost predicate Found(entries: seq<Entry>, ip: Addr, i: nat)
    requires ValidEntries(entries)
  {
    i < |entries| && InPrefix(entries[i].prefix, ip) && !IsLost(entries[i].prefix)
  }

  /** The country of the prefix around the address that leaves fewest bits open, the first of equals;
      none is known when no prefix is around it. */
  ghost predicate LongestIsAnswered(entries: seq<Entry>, ip: Addr, country: CountryCode)
    requires ValidEntries(entries)
  {
    if forall j: nat :: !Found(entries, ip, j) then country == ZERO_CODE
    else exists i: nat :: Found(entries, ip, i) && country == entries[i].country
           && forall j: nat :: Found(entries, ip, j) && j != i ==>
                FreeBits(entries[i].prefix) < FreeBits(entries[j].prefix)
                || (FreeBits(entries[i].prefix) == FreeBits(entries[j].prefix) && i < j)
  }

  lemma SharingIsClearing(x: nat, y: nat, h: nat)
    ensures Share(x, y, h) <==> Clear(x, h) == Clear(y, h)
  {
    hide Bits.Pow2;
    var d := Bits.Pow2(h);
    Bits.DivMod(x, d);
    Bits.DivMod(y, d);
    if x / d != y / d {
      Bits.MulDistributes(x / d, y / d, d);
      Bits.MulDistributes(y / d, x / d, d);
      if x / d > y / d {
        Bits.MulGrows(x / d - y / d, d);
      } else {
        Bits.MulGrows(y / d - x / d, d);
      }
    }
  }

  lemma Ipv4OfProbe(ip: Addr, n: nat)
    requires ValidAddr(ip)
    ensures IsIpv4(ip, n) <==> Probe(ip) == V4(n)
  {
    if ip.V6? && ip.words.lo / TWO32 == MAPPED_HIGH {
      Bits.DivMod(ip.words.lo, TWO32);
    }
    if n < TWO32 {
      Bits.QuotientUnique(0xFFFF * TWO32 + n, TWO32, MAPPED_HIGH, n);
    }
  }

  /** Clearing low bits commutes with the mapped prefix. */
  lemma ClearMapped(n: nat, h: nat)
    requires n < TWO32 && h <= 32
    ensures Clear(0xFFFF * TWO32 + n, h) == 0xFFFF * TWO32 + Clear(n, h)
    ensures Clear(n, h) < TWO32
  {
    hide Bits.Pow2;
    var d := Bits.Pow2(h);
    PowerDivides(32, h, 0xFFFF);
    Bits.PowersOfBytes();
    var m := 0xFFFF * TWO32;
    Bits.DivMod(m, d);
    Bits.DivMod(n, d);
    Bits.MulDistributes(m / d, n / d, d);
    Bits.QuotientUnique(m + n, d, m / d + n / d, n % d);
    ModAtMost(n, d);
  }

  lemma InIpv6Block(base: nat, h: nat, ip: Addr)
    requires ValidAddr(ip) && IsBase(base, h)
    ensures var b := Ipv6Block(base, h);
            b.v4 == Probe(ip).V4? && Clear(Number(Probe(ip)), b.host) == b.base <==>
            if Probe(ip).V4? then h <= 32 && Clear(0xFFFF * TWO32 + Probe(ip).word, h) == base
            else Clear(Number(Probe(ip)), h) == base
  {
    hide Bits.Pow2, Clear, IsBase;
    BaseFacts(base, h);
    MappedIsInterval(base);
    if Probe(ip).V4? {
      if h <= 32 {
        ClearMapped(Probe(ip).word, h);
      }
      if IsMapped(OfValue(base)) {
        MappedStartStaysMapped(base, h);
        MappedBlock(base, h);
      }
    } else if Clear(Number(Probe(ip)), h) == base && IsMapped(OfValue(base)) {
      MappedStartStaysMapped(base, h);
      UnmappedIsOutside(ip);
      ClearedIn(Number(Probe(ip)), base, h);
    }
  }

  lemma BaseFacts(base: nat, h: nat)
    requires IsBase(base, h)
    ensures h <= 128 && base % Bits.Pow2(h) == 0 && base < Bits.Pow2(128)
  {
  }

  lemma ClearedIn(x: nat, base: nat, h: nat)
    requires base % Bits.Pow2(h) == 0 && Clear(x, h) == base
    ensures base <= x <= base + Bits.Ones(h)
  {
    Bits.InBlock(x, base, h);
  }

  lemma UnmappedIsOutside(ip: Addr)
    requires ValidAddr(ip) && !Probe(ip).V4?
    ensures Probe(ip).V6? && !(TWO48 - TWO32 <= Number(Probe(ip)) < TWO48)
  {
    var w := Probe(ip).words;
    if w.hi == 0 && TWO48 - TWO32 <= w.lo < TWO48 {
      Bits.QuotientUnique(w.lo, TWO32, MAPPED_HIGH, w.lo - (TWO48 - TWO32));
    }
  }

  /** The lookup's containment, straddling and block are the bits shared. */
  lemma ContainsIsSharing(p: Prefix, ip: Addr)
    requires ValidPrefix(p) && ValidAddr(ip)
    ensures Contains(p, ip) <==> InPrefix(p, ip)
  {
    hide Bits.Pow2, Clear, Share, IsIpv4, Probe, Ipv6Block, IsBase, Value;
    forall n: nat ensures IsIpv4(ip, n) <==> Probe(ip) == V4(n) { Ipv4OfProbe(ip, n); }
    ProbeFacts(ip);
    assert (exists n: nat :: IsIpv4(ip, n)) <==> Probe(ip).V4? by {
      if Probe(ip).V4? { assert IsIpv4(ip, Probe(ip).word); }
    }
    match p.addr
    case V4(w) =>
      if Probe(ip).V4? {
        assert IsIpv4(ip, Probe(ip).word);
        SharingIsClearing(Probe(ip).word, w, 32 - p.bits);
      }
    case V6(w) =>
      var h := 128 - p.bits;
      Ipv6BaseIsBase(w, p.bits);
      InIpv6Block(Clear(Value(w), h), h, ip);
      if Probe(ip).V4? {
        assert IsIpv4(ip, Probe(ip).word);
        SharingIsClearing(0xFFFF * TWO32 + Probe(ip).word, Value(w), h);
      } else {
        SharingIsClearing(Number(ip), Value(w), h);
      }
  }

  lemma ProbeFacts(ip: Addr)
    requires ValidAddr(ip)
    ensures !Probe(ip).V4? ==> Number(Probe(ip)) == Number(ip)
  {
  }

  lemma StraddlingIsLost(p: Prefix)
    requires ValidPrefix(p)
    ensures Straddles(p) <==> IsLost(p)
    ensures BlockOf(p).host == FreeBits(p)
  {
    hide Bits.Pow2, Value;
    if p.addr.V6? && 80 <= p.bits < 96 {
      var v, h := Value(p.addr.words), 128 - p.bits;
      var d, k := Bits.Pow2(h), Bits.Pow2(48 - h);
      Bits.PowersOfBytes();
      Bits.PowAdd(48 - h, h);
      Bits.MulDistributes(k, 1, d);
      Bits.QuotientUnique(TWO48 - 1, d, k - 1, d - 1);
      Bits.DivMod(v, d);
      Bits.MulDistributes(v / d, 1, d);
      if (v / d + 1) * d == k * d {
        Bits.DivisionUnique(d, v / d + 1, 0, k, 0);
      }
    }
  }

  lemma LongestInPlainTerms(entries: seq<Entry>, ip: Addr, country: CountryCode)
    requires ValidEntries(entries) && ValidAddr(ip) && LongestPrefixAnswers(entries, ip, country)
    ensures LongestIsAnswered(entries, ip, country)
  {
    hide Contains, Straddles, InPrefix, IsLost, BlockOf, FreeBits;
    forall j: nat ensures Matches(entries, ip, j) <==> Found(entries, ip, j) {
      if j < |entries| {
        ContainsIsSharing(entries[j].prefix, ip);
        StraddlingIsLost(entries[j].prefix);
      }
    }
    if i: nat :| IsLongestMatch(entries, ip, i) && country == entries[i].country {
      forall j: nat | Found(entries, ip, j) && j != i
        ensures FreeBits(entries[i].prefix) < FreeBits(entries[j].prefix)
                || (FreeBits(entries[i].prefix) == FreeBits(entries[j].prefix) && i < j)
      {
        StraddlingIsLost(entries[i].prefix);
        StraddlingIsLost(entries[j].prefix);
      }
    }
  }

  /** For every entry list and address, building from prefixes and looking up is longest-prefix match
      over the entries that do not straddle. */
  method NewLookupAndFind(entries: seq<Entry>, ip: Addr) returns (country: CountryCode)
    requires ValidEntries(entries) && ValidAddr(ip)
    ensures LongestPrefixAnswers(entries, ip, country) && LongestIsAnswered(entries, ip, country)
  {
    hide LongestPrefixAnswers, LongestIsAnswered;
    var ranges := RangesOf(entries);
    forall i | 0 <= i < |ranges| ensures ValidAddr(ranges[i].start) && ValidAddr(ranges[i].end) {
      RangeIsValid(entries[i].prefix, entries[i].country);
    }
    country := BuildAndLookup(ranges, ip);
    ScanIsLongestPrefix(entries, ip, country);
    LongestInPlainTerms(entries, ip, country);
  }

  lemma RangeIsValid(p: Prefix, country: CountryCode)
    requires ValidPrefix(p)
    ensures ValidAddr(PrefixRange(p, country).start) && ValidAddr(PrefixRange(p, country).end)
  {
    hide Usable, RangeIsBlock, Bits.Pow2, Bits.And, Bits.Or, Bits.Shl, Ipv4Range, Ipv6Range, Clear, Value, IsBase;
    match p.addr
    case V4(w) =>
      ClearIsAligned(w, 32 - p.bits);
      Ipv4Kept(Clear(w, 32 - p.bits), p.bits, country);
    case V6(w) =>
      Ipv6BaseIsBase(w, p.bits);
      Ipv6RangeIsValid(Clear(Value(w), 128 - p.bits), p.bits, country);
  }

  lemma MatchIsIndex(entries: seq<Entry>, ip: Addr, i: nat)
    requires ValidEntries(entries) && Matches(entries, ip, i)
    ensures i < |entries|
  {
  }

  lemma ScanIsLongestPrefix(entries: seq<Entry>, ip: Addr, country: CountryCode)
    requires ValidEntries(entries) && ValidAddr(ip) && ScanAnswers(RangesOf(entries), ip, country)
    ensures LongestPrefixAnswers(entries, ip, country)
  {
    hide Matches, Covers, IsLongestMatch, IsBestRange, ValidEntries, ValidAddr, ScanAnswers;
    var ranges := RangesOf(entries);
    if exists j: nat :: Matches(entries, ip, j) {
      var j: nat :| Matches(entries, ip, j);
      MatchIsIndex(entries, ip, j);
      CoversIsMatch(entries, ip, j);
      var i := ScanBest(ranges, ip, country, j);
      BestIsLongest(entries, ip, i);
    } else {
      forall j | 0 <= j < |ranges| ensures !Covers(ranges[j], ip) {
        CoversIsMatch(entries, ip, j);
      }
      ScanNothing(ranges, ip, country);
    }
  }

  lemma ScanBest(ranges: seq<Range>, ip: Addr, country: CountryCode, j: nat) returns (i: nat)
    requires ScanAnswers(ranges, ip, country) && j < |ranges| && Covers(ranges[j], ip)
    ensures i < |ranges| && IsBestRange(ranges, ip, i) && country == ranges[i].country
  {
    hide Covers;
    i :| IsBestRange(ranges, ip, i) && country == ranges[i].country;
  }

  lemma ScanNothing(ranges: seq<Range>, ip: Addr, country: CountryCode)
    requires ScanAnswers(ranges, ip, country) && forall j :: 0 <= j < |ranges| ==> !Covers(ranges[j], ip)
    ensures country == ZERO_CODE
  {
  }

  /** Every straddling prefix is lost: it contains its own first address, yet a lookup built from it
      alone knows no country there. */
  lemma StraddlingPrefixIsLost(p: Prefix, country: CountryCode)
    requires ValidPrefix(p) && Straddles(p) && country != ZERO_CODE
    ensures Contains(p, Masked(p))
    ensures LongestPrefixAnswers([Entry(p, country)], Masked(p), ZERO_CODE)
    ensures !LongestPrefixAnswers([Entry(p, country)], Masked(p), country)
  {
    var entries := [Entry(p, country)];
    forall j: nat ensures !Matches(entries, Masked(p), j) {
      assert j < |entries| ==> entries[j] == Entry(p, country);
    }
    Ipv6BaseIsBase(p.addr.words, p.bits);
    StraddlerHoldsItsBase(Clear(Value(p.addr.words), 128 - p.bits), 128 - p.bits);
  }

  lemma StraddlerHoldsItsBase(base: nat, h: nat)
    requires IsBase(base, h) && StraddlesAt(base, h)
    ensures Ipv6Block(base, h) == Block(false, base, h)
    ensures Probe(V6(OfValue(base))) == V6(OfValue(base)) && Clear(Value(OfValue(base)), h) == base
  {
    WordsOfValue(base);
    MappedIsInterval(base);
    Bits.PowersOfBytes();
    Bits.PowMonotone(33, h);
  }

  const SLASH_EIGHTY := Prefix(V6(Uint128(0, 0)), 80)

  /** There are such prefixes: ::/80 is one, */
  lemma SlashEightyStraddles()
    ensures ValidPrefix(SLASH_EIGHTY) && Straddles(SLASH_EIGHTY) && Masked(SLASH_EIGHTY) == V6(Uint128(0, 0))
  {
    hide Bits.Pow2;
    Bits.PowersOfBytes();
    ModAtMost(0, Bits.Pow2(48));
    assert Clear(0, 48) == 0;
  }

  /** and a lookup built from it knows no country at ::. */
  lemma SlashEightyIsLost(country: CountryCode)
    requires country != ZERO_CODE
    ensures ValidPrefix(SLASH_EIGHTY) && Contains(SLASH_EIGHTY, V6(Uint128(0, 0)))
    ensures LongestPrefixAnswers([Entry(SLASH_EIGHTY, country)], V6(Uint128(0, 0)), ZERO_CODE)
    ensures !LongestPrefixAnswers([Entry(SLASH_EIGHTY, country)], V6(Uint128(0, 0)), country)
  {
    hide *;
    SlashEightyStraddles();
    StraddlingPrefixIsLost(SLASH_EIGHTY, country);
  }
}
