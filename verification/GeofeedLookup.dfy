/** internal/geofeed/lookup.go: building the lookup from address ranges and from prefixes. */
module GeofeedLookup {
  import Sorting
  import opened RangeIndex

  /** A netip.Addr; Invalid is its zero value. */
  datatype Addr = Invalid | V4(word: nat) | V6(words: Uint128)

  datatype Range = Range(start: Addr, end: Addr, country: CountryCode)

  predicate ValidAddr(a: Addr)
  {
    match a
    case Invalid => true
    case V4(w) => w < TWO32
    case V6(w) => Words(w)
  }

  ghost predicate ValidRanges(ranges: seq<Range>)
  {
    forall i :: 0 <= i < |ranges| ==> ValidAddr(ranges[i].start) && ValidAddr(ranges[i].end)
  }

  /** The ::ffff:0:0/96 block, where an IPv4 address has an IPv6 spelling. */
  predicate IsMapped(w: Uint128)
  {
    w.hi == 0 && w.lo / TWO32 == MAPPED_HIGH
  }

  function Unmap(a: Addr): Addr
  {
    if a.V6? && IsMapped(a.words) then V4(a.words.lo % TWO32) else a
  }

  function BitLen(a: Addr): nat
  {
    match a
    case Invalid => 0
    case V4(_) => 32
    case V6(_) => 128
  }

  function Number(a: Addr): nat
  {
    match a
    case Invalid => 0
    case V4(w) => w
    case V6(w) => Value(w)
  }

  /** netip's order: by family first, then by value. */
  predicate LessAddr(a: Addr, b: Addr)
  {
    BitLen(a) < BitLen(b) || (BitLen(a) == BitLen(b) && Number(a) < Number(b))
  }

  /** One family, inclusive, ordered: the ranges the index keeps. */
  predicate Usable(r: Range)
  {
    var start, end := Unmap(r.start), Unmap(r.end);
    !start.Invalid? && start.V4? == end.V4? && !LessAddr(end, start)
  }

  lemma UsableIsOneFamily(r: Range)
    requires Usable(r)
    ensures Unmap(r.start).V4? ==> Unmap(r.end).V4?
    ensures Unmap(r.start).V6? ==> Unmap(r.end).V6?
    ensures Number(Unmap(r.start)) <= Number(Unmap(r.end))
  {
  }

  function View(r: Range): Span
  {
    Span(Number(Unmap(r.start)), Number(Unmap(r.end)), r.country)
  }

  /** An address as the lookup reads it; the zero Addr reads as ::. */
  function Probe(ip: Addr): Addr
  {
    if ip.Invalid? then V6(Uint128(0, 0)) else Unmap(ip)
  }

  predicate Covers(r: Range, ip: Addr)
  {
    && Usable(r)
    && Unmap(r.start).V4? == Probe(ip).V4?
    && CoveredBy(View(r), Number(Probe(ip)))
  }

  ghost predicate IsBestRange(ranges: seq<Range>, ip: Addr, i: nat)
  {
    && i < |ranges| && Covers(ranges[i], ip)
    && forall j :: 0 <= j < |ranges| && j != i && Covers(ranges[j], ip) ==>
         Precedes(View(ranges[i]), i, View(ranges[j]), j)
  }

  /** What scanning the input ranges in order would answer. */
  ghost predicate ScanAnswers(ranges: seq<Range>, ip: Addr, country: CountryCode)
  {
    if exists j :: 0 <= j < |ranges| && Covers(ranges[j], ip)
    then exists i: nat :: IsBestRange(ranges, ip, i) && country == ranges[i].country
    else country == ZERO_CODE
  }

  // ----- splitting by family -----

  predicate InFamily(r: Range, v4: bool)
  {
    Usable(r) && Unmap(r.start).V4? == v4
  }

  /** The input positions of one family's usable ranges, in order. */
  ghost function Positions(ranges: seq<Range>, v4: bool): (p: seq<nat>)
    ensures forall k :: 0 <= k < |p| ==> p[k] < |ranges| && InFamily(ranges[p[k]], v4)
    ensures forall k, m :: 0 <= k < m < |p| ==> p[k] < p[m]
    ensures forall i: nat :: i < |ranges| && InFamily(ranges[i], v4) ==> i in p
  {
    if ranges == [] then []
    else
      var n := |ranges| - 1;
      var front := Positions(ranges[..n], v4);
      if InFamily(ranges[n], v4) then front + [n] else front
  }

  ghost predicate ViewsOf(ranges: seq<Range>, v4: bool, spans: seq<Span>)
  {
    var p := Positions(ranges, v4);
    |spans| == |p| && forall k :: 0 <= k < |p| ==> spans[k] == View(ranges[p[k]])
  }

  lemma ViewsExtend(ranges: seq<Range>, i: nat, v4: bool, spans: seq<Span>)
    requires i < |ranges| && ViewsOf(ranges[..i], v4, spans)
    ensures if InFamily(ranges[i], v4) then ViewsOf(ranges[..i + 1], v4, spans + [View(ranges[i])])
            else ViewsOf(ranges[..i + 1], v4, spans)
  {
    hide View, InFamily;
    assert ranges[..i + 1][..i] == ranges[..i];
    var p, q := Positions(ranges[..i], v4), Positions(ranges[..i + 1], v4);
    assert q == if InFamily(ranges[i], v4) then p + [i] else p;
    forall k | 0 <= k < |p| ensures ranges[..i + 1][p[k]] == ranges[..i][p[k]] {
    }
  }

  /** An answer over one family's spans is the scan's answer. */
  lemma FamilyAnswers(ranges: seq<Range>, ip: Addr, spans: seq<Span>, country: CountryCode)
    requires ViewsOf(ranges, Probe(ip).V4?, spans)
    requires Answers(spans, Number(Probe(ip)), country)
    ensures ScanAnswers(ranges, ip, country)
  {
    var v4, x := Probe(ip).V4?, Number(Probe(ip));
    var p := Positions(ranges, v4);
    if exists j :: 0 <= j < |ranges| && Covers(ranges[j], ip) {
      var j: nat :| j < |ranges| && Covers(ranges[j], ip);
      assert j in p;
      var k :| 0 <= k < |p| && p[k] == j;
      assert CoveredBy(spans[k], x);
      var i: nat :| IsBest(spans, x, i) && country == spans[i].country;
      BestInFamily(ranges, ip, spans, i);
    } else {
      forall k | 0 <= k < |spans| ensures !CoveredBy(spans[k], x) {
        assert InFamily(ranges[p[k]], v4);
      }
    }
  }

  lemma BestInFamily(ranges: seq<Range>, ip: Addr, spans: seq<Span>, i: nat)
    requires ViewsOf(ranges, Probe(ip).V4?, spans) && IsBest(spans, Number(Probe(ip)), i)
    ensures IsBestRange(ranges, ip, Positions(ranges, Probe(ip).V4?)[i])
  {
    var p := Positions(ranges, Probe(ip).V4?);
    forall j: nat | j < |ranges| && j != p[i] && Covers(ranges[j], ip)
      ensures Precedes(View(ranges[p[i]]), p[i], View(ranges[j]), j)
    {
      assert j in p;
      var k :| 0 <= k < |p| && p[k] == j;
      assert Precedes(spans[i], i, spans[k], k);
    }
  }

  // ----- building -----

  function ByStart6(a: Range6, b: Range6): bool
  {
    !Less(b.start, a.start)
  }

  lemma ByStart6IsOrder()
    ensures Sorting.TotalPreorder(ByStart6)
  {
  }

  method NewIndexedLookup(ranges: seq<Range>) returns (l: Index, ghost v4: seq<Span>, ghost v6: seq<Span>)
    requires ValidRanges(ranges)
    ensures ValidIndex(l)
    ensures ViewsOf(ranges, true, v4) && ViewsOf(ranges, false, v6)
    ensures forall x, c :: Answers(l.v4, x, c) ==> Answers(v4, x, c)
    ensures forall x, c :: Answers(Numbers(l.v6), x, c) ==> Answers(v6, x, c)
    ensures |l.v4| == |v4| && |l.v6| == |v6|
  {
    var four, six := SplitFamilies(ranges);
    v4, v6 := four, Numbers(six);
    var sorted4 := Sorting.Sort(four, ByStart);
    Sorted4(four);
    var sorted6 := Sorting.Sort(six, ByStart6);
    Sorted6(six);
    var max4 := RunningMaxOf4(sorted4);
    var max6 := RunningMaxOf6(sorted6);
    l := Index(sorted4, max4, sorted6, max6);
  }

  ghost predicate Split(ranges: seq<Range>, four: seq<Span>, six: seq<Range6>)
  {
    && ViewsOf(ranges, true, four) && ViewsOf(ranges, false, Numbers(six))
    && Words4(four) && Words6(six)
  }

  method SplitFamilies(ranges: seq<Range>) returns (four: seq<Span>, six: seq<Range6>)
    requires ValidRanges(ranges)
    ensures Split(ranges, four, six)
  {
    four, six := [], [];
    for i := 0 to |ranges|
      invariant Split(ranges[..i], four, six)
    {
      assert ValidAddr(ranges[i].start) && ValidAddr(ranges[i].end);
      var r4, r6 := Classify(ranges[i]);
      SplitStep(ranges, i, four, six, r4, r6);
      four, six := four + r4, six + r6;
    }
    assert ranges[..|ranges|] == ranges;
  }

  lemma SplitStep(ranges: seq<Range>, i: nat, four: seq<Span>, six: seq<Range6>, r4: seq<Span>, r6: seq<Range6>)
    requires i < |ranges| && Split(ranges[..i], four, six)
    requires r4 == if InFamily(ranges[i], true) then [View(ranges[i])] else []
    requires Numbers(r6) == if InFamily(ranges[i], false) then [View(ranges[i])] else []
    requires Words4(r4) && Words6(r6) && (r6 == [] <==> !InFamily(ranges[i], false))
    ensures Split(ranges[..i + 1], four + r4, six + r6)
  {
    NumbersAppend(six, r6);
    ViewsExtend(ranges, i, true, four);
    ViewsExtend(ranges, i, false, Numbers(six));
    assert four + [] == four;
  }

  lemma NumbersAppend(a: seq<Range6>, b: seq<Range6>)
    ensures Numbers(a + b) == Numbers(a) + Numbers(b)
    ensures b == [] ==> a + b == a
  {
  }

  /** One range joins its family's list, or neither when it is unusable. */
  method Classify(r: Range) returns (four: seq<Span>, six: seq<Range6>)
    requires ValidAddr(r.start) && ValidAddr(r.end)
    ensures four == if InFamily(r, true) then [View(r)] else []
    ensures Numbers(six) == if InFamily(r, false) then [View(r)] else []
    ensures Words4(four) && Words6(six) && (six == [] <==> !InFamily(r, false))
  {
    four, six := [], [];
    var start, end := Unmap(r.start), Unmap(r.end);
    if start.Invalid? || start.V4? != end.V4? || LessAddr(end, start) {
      return;
    }
    UsableIsOneFamily(r);
    if start.V4? {
      four := [Span(start.word, end.word, r.country)];
    } else {
      LessIsNumeric(end.words, start.words);
      six := [Range6(start.words, end.words, r.country)];
    }
  }

  lemma Sorted4(four: seq<Span>)
    requires Words4(four)
    ensures Words4(Sorting.Sort(four, ByStart)) && StartsSorted(Sorting.Sort(four, ByStart))
    ensures |Sorting.Sort(four, ByStart)| == |four|
    ensures forall x, c :: Answers(Sorting.Sort(four, ByStart), x, c) ==> Answers(four, x, c)
  {
    ByStartIsOrder();
    var r := Sorting.Sort(four, ByStart);
    var p := Sorting.StablePermutation(four, ByStart);
    forall i, j | 0 <= i < j < |r| ensures r[i].start <= r[j].start {
      assert Sorting.Before(four, ByStart, p[i], p[j]);
    }
    forall x, c | Answers(r, x, c) ensures Answers(four, x, c) {
      SortKeepsAnswers(four, r, p, x, c);
    }
  }

  lemma Sorted6(six: seq<Range6>)
    requires Words6(six)
    ensures Words6(Sorting.Sort(six, ByStart6)) && StartsSorted(Numbers(Sorting.Sort(six, ByStart6)))
    ensures |Sorting.Sort(six, ByStart6)| == |six|
    ensures forall x, c :: Answers(Numbers(Sorting.Sort(six, ByStart6)), x, c) ==> Answers(Numbers(six), x, c)
  {
    ByStart6IsOrder();
    var r := Sorting.Sort(six, ByStart6);
    var p := Sorting.StablePermutation(six, ByStart6);
    SameOrderInNumbers(six, p);
    var s, t := Numbers(six), Numbers(r);
    forall i, j | 0 <= i < j < |t| ensures t[i].start <= t[j].start {
      assert Sorting.Before(s, ByStart, p[i], p[j]);
    }
    forall x, c | Answers(t, x, c) ensures Answers(s, x, c) {
      SortKeepsAnswers(s, t, p, x, c);
    }
  }

  lemma SameOrderInNumbers(six: seq<Range6>, p: seq<nat>)
    requires Words6(six) && Sorting.StableOrder(six, ByStart6, p)
    ensures Sorting.StableOrder(Numbers(six), ByStart, p)
  {
    forall i, j | 0 <= i < j < |p| ensures Sorting.Before(Numbers(six), ByStart, p[i], p[j]) {
      assert Sorting.Before(six, ByStart6, p[i], p[j]);
      LessIsNumeric(six[p[j]].start, six[p[i]].start);
      LessIsNumeric(six[p[i]].start, six[p[j]].start);
    }
  }

  method LookupCountry(l: Index, ip: Addr) returns (country: CountryCode)
    requires ValidIndex(l) && ValidAddr(ip)
    ensures Probe(ip).V4? ==> Answers(l.v4, Number(Probe(ip)), country)
    ensures !Probe(ip).V4? ==> Answers(Numbers(l.v6), Number(Probe(ip)), country)
  {
    var addr := Unmap(ip);
    if addr.V4? {
      country := LookupV4(l, addr.word);
    } else {
      country := LookupV6(l, if addr.V6? then addr.words else Uint128(0, 0));
    }
  }

  /** Building the index and asking it gives the scan's answer, for every range list and address. */
  method BuildAndLookup(ranges: seq<Range>, ip: Addr) returns (country: CountryCode)
    requires ValidRanges(ranges) && ValidAddr(ip)
    ensures ScanAnswers(ranges, ip, country)
  {
    var l, v4, v6 := NewIndexedLookup(ranges);
    country := LookupCountry(l, ip);
    FamilyAnswers(ranges, ip, if Probe(ip).V4? then v4 else v6, country);
  }
}
