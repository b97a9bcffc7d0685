/** internal/cidrset/cidrset.go: an IPv4 allow-list as merged, sorted, disjoint ranges. */
module CidrSet {
  import Bits
  import Sorting

  const MAX_UINT32 := 0xFFFF_FFFF

  /** uint32 addition of one: the top address wraps to zero. */
  function Succ32(x: nat): nat
  {
    (x + 1) % (MAX_UINT32 + 1)
  }

  /** An inclusive range of 32-bit addresses. */
  datatype IpRange = IpRange(lo: nat, hi: nat)

  datatype Set = Set(ranges: seq<IpRange>, covered: nat)

  /** An address as the caller hands it over. */
  datatype HostAddr = V4(word: nat) | V4In6(word: nat) | V6

  predicate WordRange(r: IpRange)
  {
    r.lo <= r.hi <= MAX_UINT32
  }

  ghost predicate WordRanges(s: seq<IpRange>)
  {
    forall i :: 0 <= i < |s| ==> WordRange(s[i])
  }

  predicate Within(r: IpRange, x: int)
  {
    r.lo <= x <= r.hi
  }

  /** The scan the merged set replaces: some range holds `x`. */
  predicate Covers(s: seq<IpRange>, x: int)
  {
    exists i :: 0 <= i < |s| && Within(s[i], x)
  }

  ghost predicate SameUnion(a: seq<IpRange>, b: seq<IpRange>)
  {
    forall x :: Covers(a, x) <==> Covers(b, x)
  }

  // ----- one line -----

  /** The host mask of a prefix length: all ones shifted right, nothing left for a /32. */
  function HostMask(bits: nat): nat
  {
    Bits.Shr(Bits.Ones(32), bits)
  }

  /** The range of a CIDR line: the masked address, and the same with its host bits set. */
  function PrefixRange(addr: nat, bits: nat): IpRange
    requires addr < Bits.Pow2(32) && bits <= 32
  {
    var lo := Bits.And(addr, Bits.Shl(32, Bits.Ones(32), 32 - bits));
    IpRange(lo, Bits.Or(lo, HostMask(bits)))
  }

  lemma Pow32()
    ensures Bits.Pow2(32) == MAX_UINT32 + 1
  {
    Bits.PowersOfBytes();
  }

  /** The range of a prefix holds exactly the addresses whose network bits are the prefix's. */
  lemma PrefixRangeIsBlock(addr: nat, bits: nat, x: nat)
    requires addr <= MAX_UINT32 && bits <= 32 && x <= MAX_UINT32
    ensures addr < Bits.Pow2(32)
    ensures WordRange(PrefixRange(addr, bits))
    ensures Within(PrefixRange(addr, bits), x) <==>
            x - x % Bits.Pow2(32 - bits) == addr - addr % Bits.Pow2(32 - bits)
  {
    Pow32();
    var h := 32 - bits;
    Bits.ShlOnes(32, h);
    Bits.AndHighOnes(addr, 32, h);
    Bits.ShrOnes(32, bits);
    var lo := PrefixRange(addr, bits).lo;
    Bits.ClearingTwice(addr, h, h);
    assert lo == addr - addr % Bits.Pow2(h) && lo % Bits.Pow2(h) == 0;
    Bits.OrLowOnes(lo, h);
    Bits.InBlock(x, lo, h);
    Bits.PowMonotone(h, 32);
    BlockEnd(lo, h);
  }

  lemma BlockEnd(lo: nat, h: nat)
    requires lo <= MAX_UINT32 && lo % Bits.Pow2(h) == 0 && h <= 32
    ensures lo + Bits.Ones(h) <= MAX_UINT32
  {
    Pow32();
    Bits.PowAdd(32 - h, h);
    Bits.BlockBelow(lo, Bits.Pow2(h), Bits.Pow2(32 - h));
  }

  // ----- merging -----

  function ByLo(a: IpRange, b: IpRange): bool
  {
    a.lo <= b.lo
  }

  lemma ByLoIsOrder()
    ensures Sorting.TotalPreorder(ByLo)
  {
  }

  /** Sorted, and with a gap between each range and the next. */
  ghost predicate Merged(m: seq<IpRange>)
  {
    WordRanges(m) && forall i :: 0 < i < |m| ==> m[i - 1].hi + 1 < m[i].lo
  }

  /** Folds one more range, starting no earlier than any before it, into a merged list. */
  function Step(m: seq<IpRange>, next: IpRange): (r: seq<IpRange>)
    requires m != []
    ensures r != []
  {
    var last := m[|m| - 1];
    if last.hi == MAX_UINT32 then m
    else if next.lo <= Succ32(last.hi) then m[..|m| - 1] + [IpRange(last.lo, if last.hi < next.hi then next.hi else last.hi)]
    else m + [next]
  }

  function Merge(s: seq<IpRange>): (r: seq<IpRange>)
    requires s != []
    ensures r != []
  {
    if |s| == 1 then s else Step(Merge(s[..|s| - 1]), s[|s| - 1])
  }

  function Build(s: seq<IpRange>): seq<IpRange>
  {
    if s == [] || Sorting.Sort(s, ByLo) == [] then [] else Merge(Sorting.Sort(s, ByLo))
  }

  lemma StepIsCorrect(m: seq<IpRange>, next: IpRange)
    requires m != [] && Merged(m) && WordRange(next) && m[|m| - 1].lo <= next.lo
    ensures Merged(Step(m, next)) && Step(m, next)[|Step(m, next)| - 1].lo <= next.lo
    ensures forall x :: Covers(Step(m, next), x) <==> Covers(m, x) || Within(next, x)
  {
    var n := |m| - 1;
    var last, r := m[n], Step(m, next);
    forall x ensures Covers(r, x) <==> Covers(m, x) || Within(next, x) {
      SplitLast(m, x);
      SplitLast(r, x);
      if last.hi != MAX_UINT32 {
        if next.lo <= Succ32(last.hi) {
          assert r[..n] == m[..n];
        } else {
          assert r[..n + 1] == m;
        }
      }
    }
  }

  lemma SplitLast(s: seq<IpRange>, x: int)
    requires s != []
    ensures Covers(s, x) <==> Covers(s[..|s| - 1], x) || Within(s[|s| - 1], x)
  {
    if Covers(s, x) {
      var i :| 0 <= i < |s| && Within(s[i], x);
      assert i < |s| - 1 ==> s[..|s| - 1][i] == s[i];
    }
    if Covers(s[..|s| - 1], x) {
      var i :| 0 <= i < |s| - 1 && Within(s[..|s| - 1][i], x);
      assert Within(s[i], x);
    }
  }

  lemma {:induction false} MergeIsCorrect(s: seq<IpRange>)
    requires s != [] && WordRanges(s) && Sorting.SortedBy(s, ByLo)
    ensures Merged(Merge(s)) && SameUnion(Merge(s), s)
    ensures Merge(s)[|Merge(s)| - 1].lo <= s[|s| - 1].lo
  {
    if |s| > 1 {
      var n := |s| - 1;
      MergeIsCorrect(s[..n]);
      assert ByLo(s[n - 1], s[n]);
      StepIsCorrect(Merge(s[..n]), s[n]);
      forall x ensures Covers(Merge(s), x) <==> Covers(s, x) {
        SplitLast(s, x);
      }
    }
  }

  /** Once the last range reaches the top of the address space nothing later changes the list. */
  lemma {:induction false} MergeSaturates(s: seq<IpRange>, i: nat)
    requires 0 < i <= |s| && Merge(s[..i])[|Merge(s[..i])| - 1].hi == MAX_UINT32
    ensures Merge(s) == Merge(s[..i])
  {
    if i < |s| {
      var n := |s| - 1;
      assert s[..n][..i] == s[..i];
      MergeSaturates(s[..n], i);
    } else {
      assert s[..i] == s;
    }
  }

  lemma MergeOneMore(s: seq<IpRange>, i: nat)
    requires 0 < i < |s|
    ensures var m, next := Merge(s[..i]), s[i];
            var n := |m| - 1;
            Merge(s[..i + 1]) ==
              if m[n].hi == MAX_UINT32 then m
              else if next.lo <= Succ32(m[n].hi) then m[n := IpRange(m[n].lo, if m[n].hi < next.hi then next.hi else m[n].hi)]
              else m + [next]
  {
    assert s[..i + 1][..i] == s[..i];
  }

  /** Building keeps the union and leaves a gap between ranges, whatever the input order. */
  lemma BuildIsCorrect(s: seq<IpRange>)
    requires WordRanges(s)
    ensures Merged(Build(s)) && SameUnion(Build(s), s)
  {
    ByLoIsOrder();
    var r := Sorting.Sort(s, ByLo);
    Sorting.SortKeepsValues(s, ByLo);
    Sorting.SortIsSortedPermutation(s, ByLo);
    forall i | 0 <= i < |r| ensures WordRange(r[i]) {
      assert r[i] in s;
    }
    if s != [] {
      MergeIsCorrect(r);
      forall x ensures Covers(r, x) <==> Covers(s, x) {
        SameValuesCover(r, s, x);
        SameValuesCover(s, r, x);
      }
    }
  }

  lemma SameValuesCover(a: seq<IpRange>, b: seq<IpRange>, x: int)
    requires forall r :: r in a ==> r in b
    ensures Covers(a, x) ==> Covers(b, x)
  {
    if Covers(a, x) {
      var i :| 0 <= i < |a| && Within(a[i], x);
      assert a[i] in b;
      var j :| 0 <= j < |b| && b[j] == a[i];
      assert Within(b[j], x);
    }
  }

  // ----- the merged list is canonical -----

  lemma {:induction false} GapsAddUp(m: seq<IpRange>, i: nat, j: nat)
    requires Merged(m) && i < j < |m|
    ensures m[i].hi + 1 < m[j].lo
  {
    assert m[j - 1].hi + 1 < m[j].lo;
    if i < j - 1 {
      GapsAddUp(m, i, j - 1);
      assert WordRange(m[j - 1]);
    }
  }

  lemma LastIsTop(m: seq<IpRange>, x: int)
    requires Merged(m) && m != [] && Covers(m, x)
    ensures x <= m[|m| - 1].hi
    ensures x >= m[|m| - 1].lo || (Covers(m[..|m| - 1], x) && x + 1 < m[|m| - 1].lo)
  {
    var n := |m| - 1;
    var i :| 0 <= i < |m| && Within(m[i], x);
    if i < n {
      GapsAddUp(m, i, n);
      assert m[..n][i] == m[i];
      assert WordRange(m[n]);
    }
  }

  /** Two merged lists with the same union are the same list. */
  lemma {:induction false} MergedIsCanonical(a: seq<IpRange>, b: seq<IpRange>)
    requires Merged(a) && Merged(b) && SameUnion(a, b)
    ensures a == b
  {
    if a == [] {
      if b != [] {
        assert WordRange(b[0]) && Within(b[0], b[0].lo) && Covers(b, b[0].lo);
      }
    } else {
      var m, n := |a| - 1, |b| - 1;
      assert WordRange(a[m]) && Within(a[m], a[m].hi) && Covers(a, a[m].hi) && Covers(b, a[m].hi);
      LastReaches(a, b);
      LastReaches(b, a);
      forall x ensures Covers(a[..m], x) <==> Covers(b[..n], x) {
        FrontBelow(a, x);
        FrontBelow(b, x);
      }
      MergedIsCanonical(a[..m], b[..n]);
      assert a == a[..m] + [a[m]] && b == b[..n] + [b[n]];
    }
  }

  /** The last range of `b` ends no earlier and starts no earlier than the last of `a`. */
  lemma LastReaches(a: seq<IpRange>, b: seq<IpRange>)
    requires Merged(a) && Merged(b) && SameUnion(a, b) && a != [] && b != []
    ensures a[|a| - 1].hi <= b[|b| - 1].hi
    ensures a[|a| - 1].lo <= b[|b| - 1].lo
  {
    var r, t := a[|a| - 1], b[|b| - 1];
    assert WordRange(r) && WordRange(t);
    assert Within(r, r.hi) && Covers(a, r.hi);
    LastIsTop(b, r.hi);
    assert Within(t, t.hi) && Covers(b, t.hi);
    LastIsTop(a, t.hi);
    if t.lo < r.lo {
      assert Within(t, r.lo - 1) && Covers(b, r.lo - 1);
      LastIsTop(a, r.lo - 1);
    }
  }

  lemma FrontBelow(m: seq<IpRange>, x: int)
    requires Merged(m) && m != []
    ensures Covers(m[..|m| - 1], x) <==> Covers(m, x) && x < m[|m| - 1].lo
  {
    var n := |m| - 1;
    SplitLast(m, x);
    if Covers(m[..n], x) {
      var i :| 0 <= i < n && Within(m[..n][i], x);
      GapsAddUp(m, i, n);
    }
  }

  /** Inputs with the same union, in any order, build the same set. */
  lemma BuildIsCanonical(s: seq<IpRange>, t: seq<IpRange>)
    requires WordRanges(s) && WordRanges(t) && SameUnion(s, t)
    ensures Build(s) == Build(t)
  {
    BuildIsCorrect(s);
    BuildIsCorrect(t);
    MergedIsCanonical(Build(s), Build(t));
  }

  // ----- coverage -----

  ghost function Interval(lo: nat, hi: int): (s: set<int>)
    ensures forall x :: x in s <==> lo <= x <= hi
    decreases hi - lo + 1
  {
    if hi < lo then {} else Interval(lo, hi - 1) + {hi}
  }

  ghost function Addresses(s: seq<IpRange>): set<int>
  {
    set x | 0 <= x <= MAX_UINT32 && Covers(s, x)
  }

  lemma {:induction false} IntervalSize(lo: nat, hi: int)
    requires hi >= lo - 1
    ensures |Interval(lo, hi)| == hi - lo + 1
    decreases hi - lo + 1
  {
    if hi >= lo {
      IntervalSize(lo, hi - 1);
    }
  }

  function Total(m: seq<IpRange>): int
  {
    if m == [] then 0 else Total(m[..|m| - 1]) + (m[|m| - 1].hi - m[|m| - 1].lo) + 1
  }

  lemma {:induction false} TotalIsCardinality(m: seq<IpRange>)
    requires Merged(m)
    ensures Total(m) == |Addresses(m)|
  {
    if m == [] {
      assert Addresses(m) == {};
    } else {
      var n := |m| - 1;
      var front, r := m[..n], m[n];
      TotalIsCardinality(front);
      assert WordRange(r);
      IntervalSize(r.lo, r.hi);
      forall x ensures x in Addresses(m) <==> x in Addresses(front) || x in Interval(r.lo, r.hi) {
        SplitLast(m, x);
      }
      assert Addresses(m) == Addresses(front) + Interval(r.lo, r.hi);
      forall x | x in Addresses(front) ensures x !in Interval(r.lo, r.hi) {
        FrontBelow(m, x);
      }
      assert Addresses(front) !! Interval(r.lo, r.hi);
    }
  }

  // ----- the code -----

  /** Sorts and coalesces in place. */
  method NewSet(ranges: array<IpRange>) returns (s: Set)
    requires WordRanges(ranges[..])
    modifies ranges
    ensures s.ranges == Build(old(ranges[..]))
    ensures Merged(s.ranges) && SameUnion(s.ranges, old(ranges[..]))
    ensures s.covered == |Addresses(old(ranges[..]))|
  {
    ghost var input := ranges[..];
    BuildIsCorrect(input);
    if ranges.Length == 0 {
      assert Addresses(input) == {};
      return Set([], 0);
    }
    ByLoIsOrder();
    Sorting.SortKeepsValues(input, ByLo);
    SortInPlace(ranges);
    var last := Coalesce(ranges);
    var merged := ranges[..last + 1];
    var covered := Sum(merged);
    TotalIsCardinality(merged);
    s := Set(merged, covered);
    assert Addresses(merged) == Addresses(input);
  }

  method SortInPlace(ranges: array<IpRange>)
    modifies ranges
    ensures ranges[..] == Sorting.Sort(old(ranges[..]), ByLo)
  {
    ByLoIsOrder();
    Sorting.SortKeepsValues(ranges[..], ByLo);
    var sorted := Sorting.Sort(ranges[..], ByLo);
    for i := 0 to ranges.Length
      invariant forall k :: 0 <= k < i ==> ranges[k] == sorted[k]
    {
      ranges[i] := sorted[i];
    }
    assert ranges[..] == sorted;
  }

  method Coalesce(ranges: array<IpRange>) returns (last: nat)
    requires ranges.Length > 0
    modifies ranges
    ensures last < ranges.Length && ranges[..last + 1] == Merge(old(ranges[..]))
  {
    ghost var sorted := ranges[..];
    last := 0;
    assert ranges[..1] == sorted[..1] == Merge(sorted[..1]);
    hide Merge, Succ32;
    for i := 1 to ranges.Length
      invariant last < i
      invariant forall k :: i <= k < ranges.Length ==> ranges[k] == sorted[k]
      invariant ranges[..last + 1] == Merge(sorted[..i])
    {
      MergeOneMore(sorted, i);
      var next := ranges[i];
      if ranges[last].hi == MAX_UINT32 {
        MergeSaturates(sorted, i);
        return;
      }
      if next.lo <= Succ32(ranges[last].hi) {
        ranges[last] := IpRange(ranges[last].lo, if ranges[last].hi < next.hi then next.hi else ranges[last].hi);
        continue;
      }
      last := last + 1;
      ranges[last] := next;
    }
    assert sorted[..ranges.Length] == sorted;
  }

  method Sum(merged: seq<IpRange>) returns (covered: int)
    ensures covered == Total(merged)
  {
    covered := 0;
    for i := 0 to |merged|
      invariant covered == Total(merged[..i])
    {
      assert merged[..i + 1][..i] == merged[..i];
      covered := covered + (merged[i].hi - merged[i].lo) + 1;
    }
    assert merged[..|merged|] == merged;
  }

  /** sort.Search: the first range that starts above `value`. */
  method FirstAbove(ranges: seq<IpRange>, value: int) returns (idx: nat)
    requires Merged(ranges)
    ensures idx <= |ranges|
    ensures forall k :: 0 <= k < idx ==> ranges[k].lo <= value
    ensures forall k :: idx <= k < |ranges| ==> ranges[k].lo > value
  {
    idx := 0;
    var j := |ranges|;
    while idx < j
      invariant 0 <= idx <= j <= |ranges|
      invariant forall k :: 0 <= k < idx ==> ranges[k].lo <= value
      invariant forall k :: j <= k < |ranges| ==> ranges[k].lo > value
    {
      var h := (idx + j) / 2;
      forall k | 0 <= k < |ranges| && k != h
        ensures if k < h then ranges[k].lo < ranges[h].lo else ranges[k].lo > ranges[h].lo
      {
        assert WordRange(ranges[k]) && WordRange(ranges[h]);
        if k < h { GapsAddUp(ranges, k, h); } else { GapsAddUp(ranges, h, k); }
      }
      if ranges[h].lo > value {
        j := h;
      } else {
        idx := h + 1;
      }
    }
  }

  /** One binary search answers exactly what the scan of the merged ranges would. */
  method Contains(s: Set, ip: HostAddr) returns (found: bool)
    requires Merged(s.ranges)
    ensures found <==> !ip.V6? && Covers(s.ranges, ip.word)
  {
    if |s.ranges| == 0 || ip.V6? {
      return false;
    }
    var value := ip.word;
    var idx := FirstAbove(s.ranges, value);
    if idx == 0 {
      return false;
    }
    found := value <= s.ranges[idx - 1].hi;
    if found {
      assert Within(s.ranges[idx - 1], value);
    } else if Covers(s.ranges, value) {
      var i :| 0 <= i < |s.ranges| && Within(s.ranges[i], value);
      assert i < idx - 1;
      GapsAddUp(s.ranges, i, idx - 1);
    }
  }
}
