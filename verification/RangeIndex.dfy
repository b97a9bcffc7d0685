/** internal/geofeed/lookup.go: country lookup over a sorted range array. */
module RangeIndex {
  // A backward walk, stopped early by a running maximum of range ends.
  import Sorting

  const TWO32 := 0x1_0000_0000
  const TWO64 := 0x1_0000_0000_0000_0000
  const MAPPED_HIGH := 0xFFFF

  /** The zero code is what an address no range covers gets. */
  datatype CountryCode = CountryCode(c1: nat, c2: nat)

  const ZERO_CODE := CountryCode(0, 0)

  // ----- 128-bit addresses as two words -----

  datatype Uint128 = Uint128(hi: nat, lo: nat)

  predicate Words(a: Uint128)
  {
    a.hi < TWO64 && a.lo < TWO64
  }

  function Value(a: Uint128): nat
  {
    a.hi * TWO64 + a.lo
  }

  predicate Less(a: Uint128, b: Uint128)
  {
    a.hi < b.hi || (a.hi == b.hi && a.lo < b.lo)
  }

  /** Word-wise subtraction with a borrow, each word wrapping. */
  function Sub(a: Uint128, b: Uint128): Uint128
  {
    var borrow := if a.lo < b.lo then 1 else 0;
    Uint128((a.hi - b.hi - borrow) % TWO64, (a.lo - b.lo) % TWO64)
  }

  lemma LessIsNumeric(a: Uint128, b: Uint128)
    requires Words(a) && Words(b)
    ensures Less(a, b) <==> Value(a) < Value(b)
  {
  }

  lemma SubIsNumeric(a: Uint128, b: Uint128)
    requires Words(a) && Words(b) && !Less(a, b)
    ensures Words(Sub(a, b)) && Value(Sub(a, b)) == Value(a) - Value(b)
  {
  }

  // ----- what is asked of an index -----

  /** One range in numbers, whatever its family. */
  datatype Span = Span(start: int, end: int, country: CountryCode)

  predicate CoveredBy(r: Span, x: int)
  {
    r.start <= x <= r.end
  }

  /** Narrower first, then the lower start, then the earlier position. */
  predicate Precedes(a: Span, i: int, b: Span, j: int)
  {
    var p, q := a.end - a.start, b.end - b.start;
    p < q || (p == q && (a.start < b.start || (a.start == b.start && i < j)))
  }

  ghost predicate IsBest(s: seq<Span>, x: int, i: nat)
  {
    && i < |s| && CoveredBy(s[i], x)
    && forall j :: 0 <= j < |s| && j != i && CoveredBy(s[j], x) ==> Precedes(s[i], i, s[j], j)
  }

  /** The answer a full scan gives: the best covering range's country, or the zero code. */
  ghost predicate Answers(s: seq<Span>, x: int, country: CountryCode)
  {
    if exists j :: 0 <= j < |s| && CoveredBy(s[j], x)
    then exists i: nat :: IsBest(s, x, i) && country == s[i].country
    else country == ZERO_CODE
  }

  lemma AnswerIsUnique(s: seq<Span>, x: int, a: CountryCode, b: CountryCode)
    requires Answers(s, x, a) && Answers(s, x, b)
    ensures a == b
  {
    if exists j :: 0 <= j < |s| && CoveredBy(s[j], x) {
      var i: nat :| IsBest(s, x, i) && a == s[i].country;
      var k: nat :| IsBest(s, x, k) && b == s[k].country;
      if i != k {
        assert Precedes(s[i], i, s[k], k) && Precedes(s[k], k, s[i], i);
      }
    }
  }

  // ----- the walk over the sorted spans -----

  ghost predicate StartsSorted(s: seq<Span>)
  {
    forall i, j :: 0 <= i < j < |s| ==> s[i].start <= s[j].start
  }

  /** maxEnd[i] is the largest end among the first i + 1 spans. */
  ghost predicate RunningMax(s: seq<Span>, maxEnd: seq<int>)
  {
    && |maxEnd| == |s|
    && forall i, j :: 0 <= i <= j < |s| ==> s[i].end <= maxEnd[j]
  }

  /** Position order breaks ties in a sorted array, since lower positions start no later. */
  predicate NarrowerOrEarlier(s: seq<Span>, i: nat, j: nat)
    requires i < |s| && j < |s|
  {
    var p, q := s[i].end - s[i].start, s[j].end - s[j].start;
    p < q || (p == q && i < j)
  }

  /** What the walk knows after visiting positions `idx` to `top`. */
  ghost predicate Walked(s: seq<Span>, x: int, idx: nat, top: nat, found: bool, best: nat, bestSpan: int, country: CountryCode)
  {
    && idx <= top <= |s|
    && (!found ==> country == ZERO_CODE && forall j :: idx <= j < top ==> !CoveredBy(s[j], x))
    && (found ==>
          && idx <= best < top && CoveredBy(s[best], x)
          && bestSpan == s[best].end - s[best].start && country == s[best].country
          && forall j :: idx <= j < top && j != best && CoveredBy(s[j], x) ==> NarrowerOrEarlier(s, best, j))
  }

  lemma WalkSkips(s: seq<Span>, x: int, idx: nat, top: nat, found: bool, best: nat, bestSpan: int, country: CountryCode)
    requires Walked(s, x, idx + 1, top, found, best, bestSpan, country)
    requires !CoveredBy(s[idx], x) || (found && bestSpan < s[idx].end - s[idx].start)
    ensures Walked(s, x, idx, top, found, best, bestSpan, country)
  {
  }

  lemma WalkTakes(s: seq<Span>, x: int, idx: nat, top: nat, found: bool, best: nat, bestSpan: int, country: CountryCode)
    requires Walked(s, x, idx + 1, top, found, best, bestSpan, country)
    requires CoveredBy(s[idx], x) && (!found || s[idx].end - s[idx].start <= bestSpan)
    ensures Walked(s, x, idx, top, true, idx, s[idx].end - s[idx].start, s[idx].country)
  {
  }

  /** Stopping where the running maximum falls short of `x` skips nothing that covers it. */
  lemma StopIsSafe(s: seq<Span>, maxEnd: seq<int>, x: int, idx: nat, top: nat,
                   found: bool, best: nat, bestSpan: int, country: CountryCode)
    requires RunningMax(s, maxEnd) && idx < |s| && maxEnd[idx] < x
    requires Walked(s, x, idx + 1, top, found, best, bestSpan, country)
    ensures Walked(s, x, 0, top, found, best, bestSpan, country)
  {
    forall j | 0 <= j <= idx ensures !CoveredBy(s[j], x) {
      assert s[j].end <= maxEnd[idx];
    }
  }

  lemma WalkAnswers(s: seq<Span>, x: int, top: nat, found: bool, best: nat, bestSpan: int, country: CountryCode)
    requires StartsSorted(s) && Walked(s, x, 0, top, found, best, bestSpan, country)
    requires forall j :: top <= j < |s| ==> s[j].start > x
    ensures Answers(s, x, country)
  {
    if found {
      forall j | 0 <= j < |s| && j != best && CoveredBy(s[j], x)
        ensures Precedes(s[best], best, s[j], j)
      {
        assert NarrowerOrEarlier(s, best, j);
      }
      assert IsBest(s, x, best);
    }
  }

  function ByStart(a: Span, b: Span): bool
  {
    a.start <= b.start
  }

  lemma ByStartIsOrder()
    ensures Sorting.TotalPreorder(ByStart)
  {
  }

  /** The stable sort by start changes no answer. */
  lemma SortKeepsAnswers(s: seq<Span>, r: seq<Span>, p: seq<nat>, x: int, country: CountryCode)
    requires Sorting.StableOrder(s, ByStart, p)
    requires |r| == |s| && forall i :: 0 <= i < |s| ==> r[i] == s[p[i]]
    requires Answers(r, x, country)
    ensures Answers(s, x, country)
  {
    if exists j :: 0 <= j < |s| && CoveredBy(s[j], x) {
      var j: nat :| j < |s| && CoveredBy(s[j], x);
      SomeCovers(s, r, p, x, j);
      var i: nat :| IsBest(r, x, i) && country == r[i].country;
      BestMovesBack(s, r, p, x, i);
    } else {
      forall k | 0 <= k < |r| ensures !CoveredBy(r[k], x) {
        assert r[k] == s[p[k]];
      }
    }
  }

  lemma SomeCovers(s: seq<Span>, r: seq<Span>, p: seq<nat>, x: int, j: nat)
    requires Sorting.StableOrder(s, ByStart, p)
    requires |r| == |s| && forall i :: 0 <= i < |s| ==> r[i] == s[p[i]]
    requires j < |s| && CoveredBy(s[j], x)
    ensures exists k :: 0 <= k < |r| && CoveredBy(r[k], x)
  {
    assert j in p;
    var k :| 0 <= k < |p| && p[k] == j;
    assert CoveredBy(r[k], x);
  }

  lemma BestMovesBack(s: seq<Span>, r: seq<Span>, p: seq<nat>, x: int, i: nat)
    requires Sorting.StableOrder(s, ByStart, p)
    requires |r| == |s| && forall k :: 0 <= k < |s| ==> r[k] == s[p[k]]
    requires IsBest(r, x, i)
    ensures IsBest(s, x, p[i])
  {
    forall j: nat | j < |s| && j != p[i] && CoveredBy(s[j], x)
      ensures Precedes(s[p[i]], p[i], s[j], j)
    {
      assert j in p;
      var k :| 0 <= k < |p| && p[k] == j;
      assert Precedes(r[i], i, r[k], k);
      if i < k {
        assert Sorting.Before(s, ByStart, p[i], p[k]);
      } else {
        assert Sorting.Before(s, ByStart, p[k], p[i]);
      }
    }
  }

  // ----- the two families -----

  /** An IPv6 range in words. */
  datatype Range6 = Range6(start: Uint128, end: Uint128, country: CountryCode)

  ghost predicate Words6(v6: seq<Range6>)
  {
    forall i :: 0 <= i < |v6| ==> Words(v6[i].start) && Words(v6[i].end) && !Less(v6[i].end, v6[i].start)
  }

  ghost predicate Words4(v4: seq<Span>)
  {
    forall i :: 0 <= i < |v4| ==> 0 <= v4[i].start <= v4[i].end < TWO32
  }

  function Numbers(v6: seq<Range6>): (s: seq<Span>)
    ensures |s| == |v6|
    ensures forall i :: 0 <= i < |v6| ==> s[i] == Span(Value(v6[i].start), Value(v6[i].end), v6[i].country)
  {
    seq(|v6|, i requires 0 <= i < |v6| => Span(Value(v6[i].start), Value(v6[i].end), v6[i].country))
  }

  /** The built lookup: each family sorted by start, with its running maxima. */
  datatype Index = Index(v4: seq<Span>, v4MaxEnd: seq<int>, v6: seq<Range6>, v6MaxEnd: seq<Uint128>)

  ghost predicate ValidIndex(l: Index)
  {
    && Words4(l.v4) && StartsSorted(l.v4) && RunningMax(l.v4, l.v4MaxEnd)
    && Words6(l.v6) && StartsSorted(Numbers(l.v6)) && RunningMax6(l.v6, l.v6MaxEnd)
  }

  ghost predicate RunningMax6(v6: seq<Range6>, maxEnd: seq<Uint128>)
  {
    && |maxEnd| == |v6|
    && (forall j :: 0 <= j < |v6| ==> Words(maxEnd[j]))
    && forall i, j :: 0 <= i <= j < |v6| ==> !Less(maxEnd[j], v6[i].end)
  }

  ghost predicate IsSomeEnd4(v4: seq<Span>, i: nat, end: int)
  {
    exists k :: 0 <= k <= i && k < |v4| && end == v4[k].end
  }

  ghost predicate IsSomeEnd6(v6: seq<Range6>, i: nat, end: Uint128)
  {
    exists k :: 0 <= k <= i && k < |v6| && end == v6[k].end
  }

  method RunningMaxOf4(v4: seq<Span>) returns (maxEnd: seq<int>)
    requires Words4(v4)
    ensures RunningMax(v4, maxEnd)
    ensures forall i :: 0 <= i < |maxEnd| ==> IsSomeEnd4(v4, i, maxEnd[i])
  {
    maxEnd := [];
    var top := 0;
    ghost var at: seq<nat> := [];
    for i := 0 to |v4|
      invariant |maxEnd| == |at| == i
      invariant if i == 0 then top == 0 else top == maxEnd[i - 1]
      invariant forall k, j :: 0 <= k <= j < i ==> v4[k].end <= maxEnd[j]
      invariant forall j :: 0 <= j < i ==> at[j] <= j && maxEnd[j] == v4[at[j]].end
    {
      at := at + [if v4[i].end > top || i == 0 then i else at[i - 1]];
      if v4[i].end > top {
        top := v4[i].end;
      }
      maxEnd := maxEnd + [top];
    }
    forall i | 0 <= i < |maxEnd| ensures IsSomeEnd4(v4, i, maxEnd[i]) {
      assert maxEnd[i] == v4[at[i]].end;
    }
  }

  method RunningMaxOf6(v6: seq<Range6>) returns (maxEnd: seq<Uint128>)
    requires Words6(v6)
    ensures RunningMax6(v6, maxEnd)
    ensures forall i :: 0 <= i < |maxEnd| ==> IsSomeEnd6(v6, i, maxEnd[i])
  {
    maxEnd := [];
    var top := Uint128(0, 0);
    ghost var at: seq<nat> := [];
    for i := 0 to |v6|
      invariant |maxEnd| == |at| == i && Words(top)
      invariant if i == 0 then top == Uint128(0, 0) else top == maxEnd[i - 1]
      invariant forall j :: 0 <= j < i ==> Words(maxEnd[j])
      invariant forall k, j :: 0 <= k <= j < i ==> !Less(maxEnd[j], v6[k].end)
      invariant forall j :: 0 <= j < i ==> at[j] <= j && maxEnd[j] == v6[at[j]].end
    {
      at := at + [if Less(top, v6[i].end) || i == 0 then i else at[i - 1]];
      if Less(top, v6[i].end) {
        top := v6[i].end;
      }
      maxEnd := maxEnd + [top];
    }
    forall i | 0 <= i < |maxEnd| ensures IsSomeEnd6(v6, i, maxEnd[i]) {
      assert maxEnd[i] == v6[at[i]].end;
    }
  }

  /** sort.Search: the first IPv4 range starting above `ip`. */
  method FirstAbove4(v4: seq<Span>, ip: nat) returns (idx: nat)
    requires StartsSorted(v4)
    ensures idx <= |v4| && forall k :: idx <= k < |v4| ==> v4[k].start > ip
    ensures forall k :: 0 <= k < idx ==> v4[k].start <= ip
  {
    idx := 0;
    var j := |v4|;
    while idx < j
      invariant 0 <= idx <= j <= |v4|
      invariant forall k :: 0 <= k < idx ==> v4[k].start <= ip
      invariant forall k :: j <= k < |v4| ==> v4[k].start > ip
    {
      var h := (idx + j) / 2;
      if v4[h].start > ip {
        j := h;
      } else {
        idx := h + 1;
      }
    }
  }

  method FirstAbove6(v6: seq<Range6>, ip: Uint128) returns (idx: nat)
    requires Words6(v6) && Words(ip) && StartsSorted(Numbers(v6))
    ensures idx <= |v6| && forall k :: idx <= k < |v6| ==> Numbers(v6)[k].start > Value(ip)
    ensures forall k :: 0 <= k < idx ==> Numbers(v6)[k].start <= Value(ip)
  {
    idx := 0;
    var j := |v6|;
    ghost var s := Numbers(v6);
    while idx < j
      invariant 0 <= idx <= j <= |v6|
      invariant forall k :: 0 <= k < idx ==> s[k].start <= Value(ip)
      invariant forall k :: j <= k < |v6| ==> s[k].start > Value(ip)
    {
      var h := (idx + j) / 2;
      LessIsNumeric(ip, v6[h].start);
      assert s[h].start == Value(v6[h].start);
      if Less(ip, v6[h].start) {
        j := h;
      } else {
        idx := h + 1;
      }
    }
  }

  /** The backward walk from the first later start, stopped where the running maximum falls short. */
  method LookupV4(l: Index, ip: nat) returns (country: CountryCode)
    requires ValidIndex(l)
    ensures Answers(l.v4, ip, country)
  {
    var idx: nat := FirstAbove4(l.v4, ip);
    ghost var top := idx;
    var found, bestSpan := false, 0;
    ghost var best := 0;
    country := ZERO_CODE;
    while idx > 0
      invariant idx <= |l.v4| && Walked(l.v4, ip, idx, top, found, best, bestSpan, country)
    {
      idx := idx - 1;
      if l.v4MaxEnd[idx] < ip {
        StopIsSafe(l.v4, l.v4MaxEnd, ip, idx, top, found, best, bestSpan, country);
        idx := 0;
        break;
      }
      var r := l.v4[idx];
      assert r.start <= ip;
      if ip > r.end {
        WalkSkips(l.v4, ip, idx, top, found, best, bestSpan, country);
        continue;
      }
      var span := r.end - r.start;
      if !found || span <= bestSpan {
        WalkTakes(l.v4, ip, idx, top, found, best, bestSpan, country);
        found, bestSpan, country := true, span, r.country;
        best := idx;
      } else {
        WalkSkips(l.v4, ip, idx, top, found, best, bestSpan, country);
      }
    }
    WalkAnswers(l.v4, ip, top, found, best, bestSpan, country);
  }

  lemma NumericMax(v6: seq<Range6>, maxEnd: seq<Uint128>)
    requires Words6(v6) && RunningMax6(v6, maxEnd)
    ensures RunningMax(Numbers(v6), Values(maxEnd))
  {
    forall i, j | 0 <= i <= j < |v6| ensures Numbers(v6)[i].end <= Values(maxEnd)[j] {
      LessIsNumeric(maxEnd[j], v6[i].end);
    }
  }

  function Values(words: seq<Uint128>): (v: seq<int>)
    ensures |v| == |words| && forall i :: 0 <= i < |words| ==> v[i] == Value(words[i])
  {
    seq(|words|, i requires 0 <= i < |words| => Value(words[i]))
  }

  /** The same walk over two-word addresses. */
  method LookupV6(l: Index, ip: Uint128) returns (country: CountryCode)
    requires ValidIndex(l) && Words(ip)
    ensures Answers(Numbers(l.v6), Value(ip), country)
  {
    ghost var s, x := Numbers(l.v6), Value(ip);
    NumericMax(l.v6, l.v6MaxEnd);
    var idx: nat := FirstAbove6(l.v6, ip);
    ghost var top := idx;
    var found, bestSpan := false, Uint128(0, 0);
    ghost var best := 0;
    country := ZERO_CODE;
    while idx > 0
      invariant idx <= |s| && Words(bestSpan)
      invariant Walked(s, x, idx, top, found, best, Value(bestSpan), country)
    {
      idx := idx - 1;
      LessIsNumeric(l.v6MaxEnd[idx], ip);
      if Less(l.v6MaxEnd[idx], ip) {
        StopIsSafe(s, Values(l.v6MaxEnd), x, idx, top, found, best, Value(bestSpan), country);
        idx := 0;
        break;
      }
      var r := l.v6[idx];
      assert s[idx].start <= x;
      LessIsNumeric(r.end, ip);
      if Less(r.end, ip) {
        WalkSkips(s, x, idx, top, found, best, Value(bestSpan), country);
        continue;
      }
      var span := Sub(r.end, r.start);
      SubIsNumeric(r.end, r.start);
      LessIsNumeric(bestSpan, span);
      if !found || !Less(bestSpan, span) {
        WalkTakes(s, x, idx, top, found, best, Value(bestSpan), country);
        found, bestSpan, country := true, span, r.country;
        best := idx;
      } else {
        WalkSkips(s, x, idx, top, found, best, Value(bestSpan), country);
      }
    }
    WalkAnswers(s, x, top, found, best, Value(bestSpan), country);
  }
}
