/** internal/ghfind/filter.go: the bounded, heap-backed selection of a tree's best files. */
module Candidates {
  import opened Basics
  import Sorting
  import Strings
  import TreePaths

  datatype TreeEntry = TreeEntry(path: string, blob: bool, size: int)

  datatype Scored = Scored(path: string, size: int, score: int)

  const MAX_SUBSCRIPTION_SIZE := 10 * 1024 * 1024
  const SIZE_FLOOR := 2 * 1024
  const SIZE_20KB := 20 * 1024
  const SIZE_200KB := 200 * 1024
  const SCORE_WAIVE := 7

  function SizeBucket(size: int): int
  {
    if size >= SIZE_200KB then 3 else if size >= SIZE_20KB then 2 else if size >= SIZE_FLOOR then 1 else 0
  }

  /** The score of an entry worth fetching: its path's points and its size's, and a small file only at
      the score that waives the floor. */
  ghost function Admit(e: TreeEntry): Option<Scored>
  {
    if !e.blob || e.size <= 0 || e.size > MAX_SUBSCRIPTION_SIZE then None
    else
      match TreePaths.PathPoints(e.path)
      case None => None
      case Some(points) =>
        var score := points + SizeBucket(e.size);
        if e.size < SIZE_FLOOR && score < SCORE_WAIVE then None else Some(Scored(e.path, e.size, score))
  }

  method AdmitEntry(e: TreeEntry) returns (c: Option<Scored>)
    ensures c == Admit(e)
  {
    hide TreePaths.PathPoints;
    if !e.blob || e.size <= 0 || e.size > MAX_SUBSCRIPTION_SIZE {
      return None;
    }
    var points := TreePaths.JudgePath(e.path);
    if points.None? {
      return None;
    }
    var score := points.value + SizeBucket(e.size);
    if e.size < SIZE_FLOOR && score < SCORE_WAIVE {
      return None;
    }
    c := Some(Scored(e.path, e.size, score));
  }

  ghost function Admitted(tree: seq<TreeEntry>): seq<Scored>
  {
    if tree == [] then []
    else
      var front := Admitted(tree[..|tree| - 1]);
      match Admit(tree[|tree| - 1])
      case None => front
      case Some(c) => front + [c]
  }

  function Compare(a: int, b: int): int
  {
    if a < b then -1 else if a > b then 1 else 0
  }

  /** Below zero when `a` is the better candidate: by score, at equal scores by size, then by path. */
  function CandidateOrder(a: Scored, b: Scored): int
  {
    if Compare(b.score, a.score) != 0 then Compare(b.score, a.score)
    else if Compare(b.size, a.size) != 0 then Compare(b.size, a.size)
    else if a.path == b.path then 0
    else if Strings.Leq(a.path, b.path) then -1 else 1
  }

  predicate Leq(a: Scored, b: Scored)
  {
    CandidateOrder(a, b) <= 0
  }

  /** Candidates are totally ordered, and only equal ones tie. */
  lemma OrderIsTotal()
    ensures Sorting.TotalPreorder(Leq) && Sorting.Antisymmetric(Leq)
    ensures forall a, b :: CandidateOrder(a, b) < 0 <==> !Leq(b, a)
  {
    Strings.IsTotalOrder();
  }

  // ----- the heap -----

  /** Index `p` is no better than its children: the heap keeps the worst candidate on top. */
  predicate Dominates(h: seq<Scored>, p: nat)
    requires p < |h|
  {
    && (2 * p + 1 < |h| ==> Leq(h[2 * p + 1], h[p]))
    && (2 * p + 2 < |h| ==> Leq(h[2 * p + 2], h[p]))
  }

  ghost predicate HeapFrom(h: seq<Scored>, lo: nat)
  {
    forall p :: lo <= p < |h| ==> Dominates(h, p)
  }

  function Worst(h: seq<Scored>, i: nat): (w: nat)
    requires i < |h|
    ensures w < |h| && (w == i || w == 2 * i + 1 || w == 2 * i + 2)
  {
    var l := 2 * i + 1;
    var w := if l < |h| && CandidateOrder(h[l], h[i]) > 0 then l else i;
    if l + 1 < |h| && CandidateOrder(h[l + 1], h[w]) > 0 then l + 1 else w
  }

  function Swap(h: seq<Scored>, i: nat, j: nat): seq<Scored>
    requires i < |h| && j < |h|
  {
    h[i := h[j]][j := h[i]]
  }

  /** The heap after sifting position `i` down; what the in-place loop computes. */
  function Sifted(h: seq<Scored>, i: nat): (r: seq<Scored>)
    requires i < |h|
    ensures |r| == |h|
    decreases |h| - i
  {
    var w := Worst(h, i);
    if w == i then h else Sifted(Swap(h, i, w), w)
  }

  method Sift(h: array<Scored>, start: nat)
    requires start < h.Length
    modifies h
    ensures h[..] == Sifted(old(h[..]), start)
  {
    var i := start;
    while true
      invariant i < h.Length
      invariant Sifted(h[..], i) == Sifted(old(h[..]), start)
      decreases h.Length - i
    {
      ghost var now := h[..];
      var worst := i;
      var l := 2 * i + 1;
      if l < h.Length && CandidateOrder(h[l], h[worst]) > 0 {
        worst := l;
      }
      if l + 1 < h.Length && CandidateOrder(h[l + 1], h[worst]) > 0 {
        worst := l + 1;
      }
      assert worst == Worst(now, i);
      if worst == i {
        return;
      }
      h[i], h[worst] := h[worst], h[i];
      assert h[..] == Swap(now, i, worst);
      i := worst;
    }
  }

  function Heapified(h: seq<Scored>, i: nat): (r: seq<Scored>)
    requires i <= |h|
    ensures |r| == |h|
    decreases i
  {
    if i == 0 then h else Heapified(Sifted(h, i - 1), i - 1)
  }

  method Heapify(h: array<Scored>)
    modifies h
    ensures h[..] == Heapified(old(h[..]), h.Length / 2)
  {
    var i := h.Length / 2 - 1;
    while i >= 0
      invariant -1 <= i < h.Length
      invariant Heapified(h[..], i + 1) == Heapified(old(h[..]), h.Length / 2)
      decreases i + 1
    {
      Sift(h, i);
      i := i - 1;
    }
  }

  lemma {:induction false} SiftKeepsElements(h: seq<Scored>, i: nat)
    requires i < |h|
    ensures multiset(Sifted(h, i)) == multiset(h)
    decreases |h| - i
  {
    var w := Worst(h, i);
    if w != i {
      SwapKeepsElements(h, i, w);
      SiftKeepsElements(Swap(h, i, w), w);
    }
  }

  lemma SwapKeepsElements(h: seq<Scored>, i: nat, j: nat)
    requires i < |h| && j < |h| && i != j
    ensures multiset(Swap(h, i, j)) == multiset(h)
  {
  }

  /** `i` is the only place the heap from `lo` may be broken; its parent still covers its children. */
  ghost predicate BrokenOnlyAt(h: seq<Scored>, lo: nat, i: nat)
  {
    && lo <= i < |h|
    && (forall p :: lo <= p < |h| && p != i ==> Dominates(h, p))
    && (forall p :: lo <= p < i && (i == 2 * p + 1 || i == 2 * p + 2) ==> CoversChildren(h, p, i))
  }

  ghost predicate CoversChildren(h: seq<Scored>, p: nat, i: nat)
    requires p < |h| && i < |h|
  {
    && (2 * i + 1 < |h| ==> Leq(h[2 * i + 1], h[p]))
    && (2 * i + 2 < |h| ==> Leq(h[2 * i + 2], h[p]))
  }

  lemma SwapMovesBreak(h: seq<Scored>, lo: nat, i: nat)
    requires BrokenOnlyAt(h, lo, i) && Worst(h, i) != i
    ensures BrokenOnlyAt(Swap(h, i, Worst(h, i)), lo, Worst(h, i))
  {
    OrderIsTotal();
    var w := Worst(h, i);
    var r := Swap(h, i, w);
    WorstCoversBoth(h, i);
    forall p | lo <= p < |r| && p != w ensures Dominates(r, p) {
      assert p != i ==> Dominates(h, p);
      if i == 2 * p + 1 || i == 2 * p + 2 {
        assert CoversChildren(h, p, i);
      }
    }
    forall p | lo <= p < w && (w == 2 * p + 1 || w == 2 * p + 2) ensures CoversChildren(r, p, w) {
      assert p == i;
      assert Dominates(h, w);
    }
  }

  lemma WorstCoversBoth(h: seq<Scored>, i: nat)
    requires i < |h|
    ensures Leq(h[i], h[Worst(h, i)])
    ensures 2 * i + 1 < |h| ==> Leq(h[2 * i + 1], h[Worst(h, i)])
    ensures 2 * i + 2 < |h| ==> Leq(h[2 * i + 2], h[Worst(h, i)])
  {
    OrderIsTotal();
    var l := 2 * i + 1;
    var w := if l < |h| && CandidateOrder(h[l], h[i]) > 0 then l else i;
    LeqBasics(h[i], h[i], h[w]);
    if l + 1 < |h| {
      LeqBasics(h[i], h[w], h[l + 1]);
      LeqBasics(h[l], h[w], h[l + 1]);
      LeqBasics(h[l + 1], h[l + 1], h[w]);
    }
    if l < |h| {
      LeqBasics(h[l], h[i], h[l]);
    }
  }

  lemma LeqBasics(a: Scored, b: Scored, c: Scored)
    ensures Leq(a, b) || Leq(b, a)
    ensures Leq(a, a)
    ensures Leq(a, b) && Leq(b, c) ==> Leq(a, c)
    ensures CandidateOrder(a, b) > 0 <==> !Leq(a, b)
    ensures CandidateOrder(a, b) < 0 <==> !Leq(b, a)
  {
    OrderIsTotal();
    assert Sorting.Comparable(Leq, a, b) && Sorting.Comparable(Leq, a, a);
    assert Sorting.Chained(Leq, a, b, c);
  }

  lemma {:induction false} SiftRestoresHeap(h: seq<Scored>, lo: nat, i: nat)
    requires BrokenOnlyAt(h, lo, i)
    ensures HeapFrom(Sifted(h, i), lo)
    decreases |h| - i
  {
    var w := Worst(h, i);
    WorstCoversBoth(h, i);
    if w != i {
      SwapMovesBreak(h, lo, i);
      SiftRestoresHeap(Swap(h, i, w), lo, w);
    }
  }

  /** Sifting every parent, last to first, makes a heap of the same elements. */
  lemma {:induction false} HeapifyMakesHeap(h: seq<Scored>, i: nat)
    requires i <= |h| && HeapFrom(h, i)
    ensures HeapFrom(Heapified(h, i), 0) && multiset(Heapified(h, i)) == multiset(h)
    decreases i
  {
    if i > 0 {
      SiftRestoresHeap(h, i - 1, i - 1);
      SiftKeepsElements(h, i - 1);
      HeapifyMakesHeap(Sifted(h, i - 1), i - 1);
    }
  }

  lemma {:induction false} RootIsWorst(h: seq<Scored>, k: nat)
    requires HeapFrom(h, 0) && k < |h|
    ensures Leq(h[k], h[0])
  {
    LeqBasics(h[k], h[k], h[k]);
    if k > 0 {
      var p := (k - 1) / 2;
      RootIsWorst(h, p);
      assert Dominates(h, p);
      LeqBasics(h[k], h[p], h[0]);
    }
  }

  // ----- the bounded set -----

  /** The first `limit` of everything accepted so far, in final order. */
  ghost function Best(accepted: seq<Scored>, limit: nat): seq<Scored>
  {
    var s := Sorting.Sort(accepted, Leq);
    if |s| <= limit then s else s[..limit]
  }

  ghost predicate KeepsBest(accepted: seq<Scored>, kept: seq<Scored>, limit: nat)
  {
    && multiset(kept) == multiset(Best(accepted, limit))
    && |kept| == (if |accepted| <= limit then |accepted| else limit)
    && (|kept| == limit ==> HeapFrom(kept, 0))
  }

  lemma {:induction false} SortedAccepted(accepted: seq<Scored>)
    ensures Sorting.SortedBy(Sorting.Sort(accepted, Leq), Leq)
    ensures multiset(Sorting.Sort(accepted, Leq)) == multiset(accepted)
    ensures |Sorting.Sort(accepted, Leq)| == |accepted|
  {
    OrderIsTotal();
    Sorting.SortIsSortedPermutation(accepted, Leq);
    assert |Sorting.Sort(accepted, Leq)| == |multiset(accepted)|;
  }

  /** While there is room every accepted candidate is among the best. */
  lemma GrowsBest(accepted: seq<Scored>, kept: seq<Scored>, c: Scored, limit: nat)
    requires KeepsBest(accepted, kept, limit) && |kept| < limit
    ensures multiset(kept + [c]) == multiset(Best(accepted + [c], limit))
    ensures |kept| + 1 == |accepted + [c]| <= limit
  {
    SortedAccepted(accepted);
    SortedAccepted(accepted + [c]);
  }

  /** The worst of the kept candidates stands last in their final order. */
  lemma RootIsLast(accepted: seq<Scored>, kept: seq<Scored>, limit: nat)
    requires KeepsBest(accepted, kept, limit) && |kept| == limit > 0
    ensures |Sorting.Sort(accepted, Leq)| == |accepted| >= limit
    ensures kept[0] == Sorting.Sort(accepted, Leq)[limit - 1]
  {
    SortedAccepted(accepted);
    OrderIsTotal();
    var best := Best(accepted, limit);
    var last := Sorting.Sort(accepted, Leq)[limit - 1];
    assert best[limit - 1] == last;
    hide CandidateOrder;
    var k := PlaceIn(best, kept, limit - 1);
    RootIsWorst(kept, k);
    var j := PlaceIn(kept, best, 0);
    LeqBasics(last, last, last);
    if j < limit - 1 {
      assert Leq(best[j], best[limit - 1]);
    }
  }

  lemma PlaceIn(a: seq<Scored>, b: seq<Scored>, i: nat) returns (j: nat)
    requires multiset(a) == multiset(b) && i < |a|
    ensures j < |b| && b[j] == a[i]
  {
    assert a[i] in multiset(a) && a[i] in multiset(b);
    j :| 0 <= j < |b| && b[j] == a[i];
  }

  /** Where sorting puts one more accepted candidate. */
  lemma InsertSlot(accepted: seq<Scored>, c: Scored) returns (k: nat)
    ensures k <= |Sorting.Sort(accepted, Leq)|
    ensures var s := Sorting.Sort(accepted, Leq);
            && Sorting.Sort(accepted + [c], Leq) == s[..k] + [c] + s[k..]
            && (forall i :: 0 <= i < k ==> Leq(s[i], c))
            && (forall i :: k <= i < |s| ==> !Leq(s[i], c))
  {
    SortedAccepted(accepted);
    OrderIsTotal();
    k := Sorting.InsertPosition(Sorting.Sort(accepted, Leq), c, Leq);
    assert (accepted + [c])[..|accepted|] == accepted;
  }

  /** A full set changes only for a candidate that sorts before its root, which it replaces. */
  lemma BestReplacesRoot(accepted: seq<Scored>, kept: seq<Scored>, c: Scored, limit: nat)
    requires KeepsBest(accepted, kept, limit) && |kept| == limit > 0
    ensures multiset(if CandidateOrder(c, kept[0]) < 0 then kept[0 := c] else kept)
         == multiset(Best(accepted + [c], limit))
    ensures |accepted| >= limit
  {
    RootIsLast(accepted, kept, limit);
    var k := InsertSlot(accepted, c);
    var s, s' := Sorting.Sort(accepted, Leq), Sorting.Sort(accepted + [c], Leq);
    LeqBasics(c, kept[0], c);
    assert Best(accepted + [c], limit) == s'[..limit] && Best(accepted, limit) == s[..limit];
    if CandidateOrder(c, kept[0]) < 0 {
      InsertPushesOut(s, k, c, limit);
      assert multiset(kept[0 := c]) == multiset(kept) - multiset{kept[0]} + multiset{c};
      assert multiset(s'[..limit]) == multiset(s[..limit]) - multiset{kept[0]} + multiset{c};
    } else {
      InsertBeyond(s, k, c, limit);
      assert s'[..limit] == s[..limit];
    }
  }

  lemma InsertPushesOut(s: seq<Scored>, k: nat, c: Scored, limit: nat)
    requires k < limit <= |s|
    ensures multiset((s[..k] + [c] + s[k..])[..limit]) == multiset(s[..limit]) - multiset{s[limit - 1]} + multiset{c}
  {
    var mid, last := s[k..limit - 1], s[limit - 1];
    assert (s[..k] + [c] + s[k..])[..limit] == s[..k] + [c] + mid;
    assert s[..limit] == s[..k] + mid + [last];
    assert multiset(s[..k] + [c] + mid) == multiset(s[..k]) + multiset{c} + multiset(mid);
    assert multiset(s[..k] + mid + [last]) == multiset(s[..k]) + multiset(mid) + multiset{last};
  }

  lemma InsertBeyond(s: seq<Scored>, k: nat, c: Scored, limit: nat)
    requires limit <= k <= |s|
    ensures (s[..k] + [c] + s[k..])[..limit] == s[..limit]
  {
  }

  /** Offers `c` to the set held in `out[..n]`. */
  method KeepCandidate(out: array<Scored>, n: nat, c: Scored, limit: nat, ghost accepted: seq<Scored>) returns (m: nat)
    requires limit > 0 && n <= out.Length <= limit && (n < limit ==> n < out.Length)
    requires KeepsBest(accepted, out[..n], limit)
    modifies out
    ensures m <= out.Length && m <= n + 1
    ensures KeepsBest(accepted + [c], out[..m], limit)
  {
    ghost var kept := out[..n];
    if n < limit {
      GrowsBest(accepted, kept, c, limit);
      out[n] := c;
      m := n + 1;
      assert out[..m] == kept + [c];
      if m == limit {
        FillHeap(out);
      }
    } else {
      m := n;
      ReplaceRoot(out, c, limit, accepted);
    }
  }

  method FillHeap(out: array<Scored>)
    modifies out
    ensures HeapFrom(out[..], 0) && multiset(out[..]) == multiset(old(out[..]))
    ensures out[..out.Length] == out[..] && old(out[..out.Length]) == old(out[..])
  {
    HeapifyMakesHeap(out[..], out.Length / 2);
    Heapify(out);
  }

  /** The full set: `c` takes the root's place when it sorts before it. */
  method ReplaceRoot(out: array<Scored>, c: Scored, limit: nat, ghost accepted: seq<Scored>)
    requires out.Length == limit > 0
    requires KeepsBest(accepted, out[..limit], limit)
    modifies out
    ensures KeepsBest(accepted + [c], out[..limit], limit)
  {
    ghost var kept := out[..limit];
    assert kept == out[..];
    BestReplacesRoot(accepted, kept, c, limit);
    if CandidateOrder(c, out[0]) < 0 {
      NewRootSifts(kept, c);
      out[0] := c;
      assert out[..] == kept[0 := c];
      Sift(out, 0);
      assert out[..limit] == out[..];
    }
  }

  lemma NewRootSifts(kept: seq<Scored>, c: Scored)
    requires HeapFrom(kept, 0) && kept != []
    ensures HeapFrom(Sifted(kept[0 := c], 0), 0)
    ensures multiset(Sifted(kept[0 := c], 0)) == multiset(kept[0 := c])
  {
    var replaced := kept[0 := c];
    forall p | 0 <= p < |replaced| && p != 0 ensures Dominates(replaced, p) {
      assert Dominates(kept, p);
    }
    SiftRestoresHeap(replaced, 0, 0);
    SiftKeepsElements(replaced, 0);
  }

  // ----- what a selection is -----

  /** The entry is worth fetching, and `c` is what it scores: its path's points, and up to three for its
      size. Below 2 KiB it takes seven points in all. */
  ghost predicate Scores(e: TreeEntry, c: Scored)
  {
    && e.blob && 0 < e.size <= 10485760 && TreePaths.PathPoints(e.path).Some?
    && c.path == e.path && c.size == e.size
    && c.score == TreePaths.PathPoints(e.path).value
                  + (if e.size >= 204800 then 3 else if e.size >= 20480 then 2 else if e.size >= 2048 then 1 else 0)
    && (e.size >= 2048 || c.score >= 7)
  }

  /** `a` is the better of two: the higher score, then the larger size, then the smaller path. */
  ghost predicate Better(a: Scored, b: Scored)
  {
    || a.score > b.score
    || (a.score == b.score && a.size > b.size)
    || (a.score == b.score && a.size == b.size && Strings.Less(a.path, b.path))
  }

  /** `out` is made of the entries of the tree at the places `p`. */
  ghost predicate FromTree(tree: seq<TreeEntry>, out: seq<Scored>, p: seq<nat>)
  {
    && |p| == |out| && (forall i, j :: 0 <= i < j < |p| ==> p[i] != p[j])
    && (forall k :: 0 <= k < |p| ==> p[k] < |tree| && Scores(tree[p[k]], out[k]))
  }

  ghost predicate BestFirst(out: seq<Scored>)
  {
    forall i, j :: 0 <= i < j < |out| ==> !Better(out[j], out[i])
  }

  /** An entry left out is no better than any taken, and is left out only when `limit` are taken. */
  ghost predicate NoneBetter(tree: seq<TreeEntry>, limit: int, out: seq<Scored>, p: seq<nat>)
  {
    forall i: nat, c: Scored :: i < |tree| && i !in p && Scores(tree[i], c) ==>
      |out| >= limit && forall k :: 0 <= k < |out| ==> !Better(c, out[k])
  }

  /** The best `limit` scoring entries of the tree, best first. */
  ghost predicate Selects(tree: seq<TreeEntry>, limit: int, out: seq<Scored>, p: seq<nat>)
  {
    && FromTree(tree, out, p) && BestFirst(out) && NoneBetter(tree, limit, out, p)
    && |out| <= (if limit < 0 then 0 else limit)
  }

  lemma AdmitIsScores(e: TreeEntry, c: Scored)
    ensures Admit(e) == Some(c) <==> Scores(e, c)
  {
    hide TreePaths.PathPoints;
  }

  lemma LeqIsNotBetter(a: Scored, b: Scored)
    ensures Leq(a, b) <==> !Better(b, a)
  {
    Strings.Total(a.path, b.path);
    if Strings.Leq(a.path, b.path) && Strings.Leq(b.path, a.path) {
      Strings.Antisymmetry(a.path, b.path);
    }
  }

  /** Where in the tree the admitted entries stand. */
  lemma {:induction false} AdmittedPlaces(tree: seq<TreeEntry>) returns (q: seq<nat>)
    ensures |q| == |Admitted(tree)| && forall i, j :: 0 <= i < j < |q| ==> q[i] < q[j]
    ensures forall k :: 0 <= k < |q| ==> q[k] < |tree| && Scores(tree[q[k]], Admitted(tree)[k])
    ensures forall i: nat, c: Scored :: i < |tree| && Scores(tree[i], c) ==> i in q
  {
    hide Admit, Scores;
    if tree == [] {
      q := [];
    } else {
      hide Admitted;
      var n := |tree| - 1;
      q := AdmittedPlaces(tree[..n]);
      LastAdmitted(tree);
      AdmitMeans(tree[n]);
      q := PlaceLast(tree, Admitted(tree[..n]), q, Admit(tree[n]));
    }
  }

  lemma AdmitMeans(e: TreeEntry)
    ensures Admit(e).Some? ==> Scores(e, Admit(e).value)
    ensures forall c: Scored :: Scores(e, c) ==> Admit(e).Some?
  {
    hide Admit, Scores;
    forall c: Scored ensures Admit(e) == Some(c) <==> Scores(e, c) { AdmitIsScores(e, c); }
  }

  lemma LastAdmitted(tree: seq<TreeEntry>)
    requires tree != []
    ensures var n := |tree| - 1;
            Admitted(tree) == Admitted(tree[..n]) + if Admit(tree[n]).Some? then [Admit(tree[n]).value] else []
  {
    hide Admit;
  }

  lemma PlaceLast(tree: seq<TreeEntry>, front: seq<Scored>, q: seq<nat>, last: Option<Scored>) returns (r: seq<nat>)
    requires tree != [] && (last.Some? ==> Scores(tree[|tree| - 1], last.value))
    requires forall e: TreeEntry, c: Scored :: e == tree[|tree| - 1] && Scores(e, c) ==> last.Some?
    requires |q| == |front| && forall i, j :: 0 <= i < j < |q| ==> q[i] < q[j]
    requires forall k :: 0 <= k < |q| ==> q[k] < |tree| - 1 && Scores(tree[q[k]], front[k])
    requires forall i: nat, c: Scored :: i < |tree| - 1 && Scores(tree[i], c) ==> i in q
    ensures var all := front + if last.Some? then [last.value] else [];
            |r| == |all| && forall k :: 0 <= k < |r| ==> r[k] < |tree| && Scores(tree[r[k]], all[k])
    ensures forall i, j :: 0 <= i < j < |r| ==> r[i] < r[j]
    ensures forall i: nat, c: Scored :: i < |tree| && Scores(tree[i], c) ==> i in r
  {
    hide Admit, Scores;
    if last.None? {
      r := q;
    } else {
      r := q + [|tree| - 1];
      assert r[|q|] == |tree| - 1;
    }
  }

  lemma PickedPlace(p: seq<nat>, q: seq<nat>, perm: seq<nat>, s: nat)
    requires s < |perm| && |p| <= |perm| && forall k :: 0 <= k < |perm| ==> perm[k] < |q|
    requires forall k :: 0 <= k < |p| ==> p[k] == q[perm[k]]
    ensures s < |p| ==> q[perm[s]] in p
  {
  }

  lemma DistinctPicks(p: seq<nat>, q: seq<nat>, perm: seq<nat>)
    requires |p| <= |perm| && (forall k :: 0 <= k < |perm| ==> perm[k] < |q|) && forall k :: 0 <= k < |p| ==> p[k] == q[perm[k]]
    requires forall i, j :: 0 <= i < j < |q| ==> q[i] < q[j]
    requires forall i, j :: 0 <= i < j < |perm| ==> perm[i] != perm[j]
    ensures forall i, j :: 0 <= i < j < |p| ==> p[i] != p[j]
  {
    forall i, j | 0 <= i < j < |p| ensures p[i] != p[j] {
      assert perm[i] != perm[j];
      assert perm[i] < perm[j] ==> q[perm[i]] < q[perm[j]];
      assert perm[j] < perm[i] ==> q[perm[j]] < q[perm[i]];
    }
  }

  lemma BestSelects(tree: seq<TreeEntry>, limit: nat) returns (p: seq<nat>)
    ensures Selects(tree, limit, Best(Admitted(tree), limit), p)
  {
    hide *;
    var all := Admitted(tree);
    var q := AdmittedPlaces(tree);
    var perm := PermOf(all);
    var sorted, out := Sorting.Sort(all, Leq), Best(all, limit);
    BestIsPrefix(all, limit);
    p := PicksOf(|out|, q, perm);
    DistinctPicks(p, q, perm);
    PicksComeFromTree(tree, all, sorted, out, q, perm, p);
    SortedIsBestFirst(all);
    PrefixIsBestFirst(sorted, out);
    RestIsNoBetter(tree, limit, all, sorted, out, q, perm, p);
    Assemble(tree, limit, out, p);
  }

  lemma BestIsPrefix(all: seq<Scored>, limit: nat)
    ensures |Sorting.Sort(all, Leq)| == |all|
    ensures var sorted, out := Sorting.Sort(all, Leq), Best(all, limit);
            out <= sorted && |out| == if |all| <= limit then |all| else limit
  {
    SortedAccepted(all);
  }

  lemma PermOf(all: seq<Scored>) returns (perm: seq<nat>)
    ensures |perm| == |all| == |Sorting.Sort(all, Leq)| && (forall k: nat :: k < |all| ==> k in perm)
    ensures forall i, j :: 0 <= i < j < |perm| ==> perm[i] != perm[j]
    ensures forall k :: 0 <= k < |perm| ==> perm[k] < |all| && Sorting.Sort(all, Leq)[k] == all[perm[k]]
  {
    OrderIsTotal();
    SortedAccepted(all);
    perm := Sorting.StablePermutation(all, Leq);
    forall i, j | 0 <= i < j < |perm| ensures perm[i] != perm[j] {
      assert Sorting.Before(all, Leq, perm[i], perm[j]);
    }
  }

  lemma PicksOf(n: nat, q: seq<nat>, perm: seq<nat>) returns (p: seq<nat>)
    requires n <= |perm| && forall k :: 0 <= k < |perm| ==> perm[k] < |q|
    ensures |p| == n && forall k :: 0 <= k < n ==> p[k] == q[perm[k]]
  {
    p := seq(n, k requires 0 <= k < n => q[perm[k]]);
  }

  lemma PicksComeFromTree(tree: seq<TreeEntry>, all: seq<Scored>, sorted: seq<Scored>, out: seq<Scored>, q: seq<nat>,
                          perm: seq<nat>, p: seq<nat>)
    requires |q| == |perm| == |sorted| == |all| && out <= sorted && |p| == |out|
    requires forall k :: 0 <= k < |perm| ==> perm[k] < |all| && sorted[k] == all[perm[k]]
    requires forall k :: 0 <= k < |q| ==> q[k] < |tree| && Scores(tree[q[k]], all[k])
    requires (forall k :: 0 <= k < |p| ==> p[k] == q[perm[k]]) && forall i, j :: 0 <= i < j < |p| ==> p[i] != p[j]
    ensures FromTree(tree, out, p)
  {
    hide Scores;
  }

  lemma SortedIsBestFirst(all: seq<Scored>)
    ensures BestFirst(Sorting.Sort(all, Leq))
  {
    hide Better, CandidateOrder;
    SortedAccepted(all);
    var sorted := Sorting.Sort(all, Leq);
    forall i, j | 0 <= i < j < |sorted| ensures !Better(sorted[j], sorted[i]) {
      LeqIsNotBetter(sorted[i], sorted[j]);
    }
  }

  lemma PrefixIsBestFirst(sorted: seq<Scored>, out: seq<Scored>)
    requires BestFirst(sorted) && out <= sorted
    ensures BestFirst(out)
  {
    hide Better;
  }

  lemma RestIsNoBetter(tree: seq<TreeEntry>, limit: nat, all: seq<Scored>, sorted: seq<Scored>, out: seq<Scored>, q: seq<nat>,
                       perm: seq<nat>, p: seq<nat>)
    requires |q| == |perm| == |sorted| == |all| && out <= sorted && |p| == |out| == (if |all| <= limit then |all| else limit)
    requires (forall k: nat :: k < |all| ==> k in perm) && BestFirst(sorted)
    requires forall k :: 0 <= k < |perm| ==> perm[k] < |all| && sorted[k] == all[perm[k]]
    requires forall k :: 0 <= k < |q| ==> q[k] < |tree| && Scores(tree[q[k]], all[k])
    requires forall i: nat, c: Scored :: i < |tree| && Scores(tree[i], c) ==> i in q
    requires forall k :: 0 <= k < |p| ==> p[k] == q[perm[k]]
    ensures NoneBetter(tree, limit, out, p)
  {
    hide Scores, Better;
    forall i: nat, c: Scored | i < |tree| && i !in p && Scores(tree[i], c)
      ensures |out| >= limit && forall k :: 0 <= k < |out| ==> !Better(c, out[k])
    {
      var m :| 0 <= m < |q| && q[m] == i;
      ScoresOnce(tree[i], c, all[m]);
      var s := LeftOutIsLater(all, sorted, q, perm, p, m);
      assert sorted[s] == c;
    }
  }

  lemma Assemble(tree: seq<TreeEntry>, limit: nat, out: seq<Scored>, p: seq<nat>)
    requires FromTree(tree, out, p) && BestFirst(out) && NoneBetter(tree, limit, out, p) && |out| <= limit
    ensures Selects(tree, limit, out, p)
  {
  }

  /** What is not picked stands further down the sorted list. */
  lemma LeftOutIsLater(all: seq<Scored>, sorted: seq<Scored>, q: seq<nat>, perm: seq<nat>, p: seq<nat>, m: nat) returns (s: nat)
    requires |q| == |perm| == |sorted| == |all| >= |p| && m < |q| && (forall k: nat :: k < |all| ==> k in perm)
    requires forall k :: 0 <= k < |perm| ==> perm[k] < |all| && sorted[k] == all[perm[k]]
    requires (forall k :: 0 <= k < |p| ==> p[k] == q[perm[k]]) && q[m] !in p
    ensures |p| <= s < |sorted| && sorted[s] == all[m]
  {
    assert m in perm;
    s :| 0 <= s < |perm| && perm[s] == m;
    PickedPlace(p, q, perm, s);
  }

  lemma ScoresOnce(e: TreeEntry, a: Scored, b: Scored)
    requires Scores(e, a) && Scores(e, b)
    ensures a == b
  {
    hide TreePaths.PathPoints;
  }

  /** The whole selection, for every tree: exactly the first `limit` accepted entries of the final order. */
  method Candidates(tree: seq<TreeEntry>, limit: int) returns (out: seq<Scored>, ghost p: seq<nat>)
    ensures out == if limit <= 0 then [] else Best(Admitted(tree), limit)
    ensures Selects(tree, limit, out, p)
  {
    if limit <= 0 {
      return [], [];
    }
    p := BestSelects(tree, limit);
    hide Selects;
    var slots := new Scored[if limit < |tree| then limit else |tree|](_ => Scored("", 0, 0));
    var n := Fill(slots, tree, limit);
    FinalOrder(Admitted(tree), slots[..n], limit);
    out := Sorting.Sort(slots[..n], Leq);
  }

  lemma NothingKept(slots: array<Scored>, limit: nat)
    requires limit > 0
    ensures Admitted([]) == [] && KeepsBest([], slots[..0], limit)
  {
    assert Sorting.Sort<Scored>([], Leq) == [];
  }

  method Fill(slots: array<Scored>, tree: seq<TreeEntry>, limit: nat) returns (n: nat)
    requires limit > 0 && slots.Length == if limit < |tree| then limit else |tree|
    modifies slots
    ensures n <= slots.Length && KeepsBest(Admitted(tree), slots[..n], limit)
  {
    hide Admit, KeepsBest;
    NothingKept(slots, limit);
    n := 0;
    ghost var accepted: seq<Scored> := [];
    for i := 0 to |tree|
      invariant 0 <= n <= slots.Length && n <= i
      invariant accepted == Admitted(tree[..i])
      invariant KeepsBest(accepted, slots[..n], limit)
    {
      AdmittedStep(tree, i);
      n := Offer(slots, n, tree[i], limit, accepted);
      accepted := accepted + match Admit(tree[i]) { case None => [] case Some(c) => [c] };
    }
    assert tree[..|tree|] == tree;
  }

  /** One tree entry: refused, or scored and offered to the bounded set. */
  method Offer(slots: array<Scored>, n: nat, e: TreeEntry, limit: nat, ghost accepted: seq<Scored>)
    returns (m: nat)
    requires limit > 0 && n <= slots.Length <= limit && (n < limit ==> n < slots.Length)
    requires KeepsBest(accepted, slots[..n], limit)
    modifies slots
    ensures m <= slots.Length && m <= n + 1
    ensures KeepsBest(accepted + match Admit(e) { case None => [] case Some(c) => [c] }, slots[..m], limit)
  {
    var admitted := AdmitEntry(e);
    match admitted
    case None =>
      m := n;
      assert accepted + [] == accepted;
    case Some(c) =>
      m := KeepCandidate(slots, n, c, limit, accepted);
  }

  lemma AdmittedStep(tree: seq<TreeEntry>, i: nat)
    requires i < |tree|
    ensures Admitted(tree[..i + 1]) ==
            Admitted(tree[..i]) + match Admit(tree[i]) { case None => [] case Some(c) => [c] }
  {
    assert tree[..i + 1][..i] == tree[..i];
  }

  lemma FinalOrder(accepted: seq<Scored>, kept: seq<Scored>, limit: nat)
    requires KeepsBest(accepted, kept, limit)
    ensures Sorting.Sort(kept, Leq) == Best(accepted, limit)
  {
    SortedAccepted(kept);
    SortedAccepted(accepted);
    OrderIsTotal();
    Sorting.SortedPermutationsAgree(Sorting.Sort(kept, Leq), Best(accepted, limit), Leq);
  }
}
