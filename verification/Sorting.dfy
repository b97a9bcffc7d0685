/** The library sorts the program calls (slices.SortFunc, sort.SliceStable, sort.Strings),
    as one stable insertion sort with the facts the models use about it. */
module Sorting {

  ghost predicate Comparable<T>(leq: (T, T) -> bool, a: T, b: T)
  {
    leq(a, b) || leq(b, a)
  }

  ghost predicate Chained<T>(leq: (T, T) -> bool, a: T, b: T, c: T)
  {
    leq(a, b) && leq(b, c) ==> leq(a, c)
  }

  ghost predicate TotalPreorder<T(!new)>(leq: (T, T) -> bool)
  {
    && (forall a, b :: Comparable(leq, a, b))
    && (forall a, b, c :: Chained(leq, a, b, c))
  }

  ghost predicate Antisymmetric<T(!new)>(leq: (T, T) -> bool)
  {
    forall a, b :: leq(a, b) && leq(b, a) ==> a == b
  }

  ghost predicate SortedBy<T>(s: seq<T>, leq: (T, T) -> bool)
  {
    forall i, j :: 0 <= i < j < |s| ==> leq(s[i], s[j])
  }

  /** Position `i` of `s` belongs before position `j`: by value, or by input order on a tie. */
  ghost predicate Before<T>(s: seq<T>, leq: (T, T) -> bool, i: nat, j: nat)
    requires i < |s| && j < |s|
  {
    leq(s[i], s[j]) && (leq(s[j], s[i]) ==> i < j)
  }

  /** `p` lists every index of `s` once, in ascending order of value, ties in input order. */
  ghost predicate StableOrder<T>(s: seq<T>, leq: (T, T) -> bool, p: seq<nat>)
  {
    && |p| == |s|
    && (forall i :: 0 <= i < |p| ==> p[i] < |s|)
    && (forall k: nat :: k < |s| ==> k in p)
    && (forall i, j :: 0 <= i < j < |p| ==> Before(s, leq, p[i], p[j]))
  }

  /** Places `x` after the last element of the sorted `r` that does not exceed it. */
  function Insert<T>(r: seq<T>, x: T, leq: (T, T) -> bool): seq<T>
  {
    if r == [] || leq(r[|r| - 1], x) then r + [x]
    else Insert(r[..|r| - 1], x, leq) + [r[|r| - 1]]
  }

  function Sort<T>(s: seq<T>, leq: (T, T) -> bool): seq<T>
  {
    if s == [] then [] else Insert(Sort(s[..|s| - 1], leq), s[|s| - 1], leq)
  }

  lemma {:induction false} InsertPosition<T(!new)>(r: seq<T>, x: T, leq: (T, T) -> bool) returns (k: nat)
    requires TotalPreorder(leq) && SortedBy(r, leq)
    ensures k <= |r| && Insert(r, x, leq) == r[..k] + [x] + r[k..]
    ensures forall i :: 0 <= i < k ==> leq(r[i], x)
    ensures forall i :: k <= i < |r| ==> leq(x, r[i]) && !leq(r[i], x)
  {
    if r == [] {
      k := 0;
    } else {
      var last := r[|r| - 1];
      if leq(last, x) {
        k := |r|;
        forall i | 0 <= i < |r| ensures leq(r[i], x) {
          assert Chained(leq, r[i], last, x);
        }
      } else {
        var front := r[..|r| - 1];
        k := InsertPosition(front, x, leq);
        assert front[k..] + [last] == r[k..];
        assert Comparable(leq, last, x);
        forall i | k <= i < |r| - 1 ensures leq(x, r[i]) && !leq(r[i], x) {
          assert front[i] == r[i];
        }
      }
    }
  }

  lemma SpliceOrder<T>(s: seq<T>, leq: (T, T) -> bool, q: seq<nat>, k: nat)
    requires s != [] && StableOrder(s[..|s| - 1], leq, q) && k <= |q|
    requires forall i :: 0 <= i < k ==> leq(s[q[i]], s[|s| - 1])
    requires forall i :: k <= i < |q| ==> leq(s[|s| - 1], s[q[i]]) && !leq(s[q[i]], s[|s| - 1])
    ensures StableOrder(s, leq, q[..k] + [|s| - 1] + q[k..])
  {
    var n := |s| - 1;
    var front := s[..n];
    var p := q[..k] + [n] + q[k..];
    forall j: nat | j < |s| ensures j in p {
      if j == n {
        assert p[k] == n;
      } else {
        assert j in q;
        var i :| 0 <= i < |q| && q[i] == j;
        assert p[if i < k then i else i + 1] == j;
      }
    }
    forall i, j | 0 <= i < j < |p|
      ensures Before(s, leq, p[i], p[j])
    {
      if i != k && j != k {
        var i', j' := if i < k then i else i - 1, if j < k then j else j - 1;
        assert Before(front, leq, q[i'], q[j']);
      }
    }
  }

  lemma OrderIsSorted<T>(s: seq<T>, leq: (T, T) -> bool, p: seq<nat>, r: seq<T>)
    requires StableOrder(s, leq, p)
    requires |r| == |s| && forall i :: 0 <= i < |s| ==> r[i] == s[p[i]]
    ensures SortedBy(r, leq)
  {
    forall i, j | 0 <= i < j < |r| ensures leq(r[i], r[j]) {
      assert Before(s, leq, p[i], p[j]);
    }
  }

  /** Inserting the next input element extends the order it was found in. */
  lemma InsertExtendsOrder<T(!new)>(s: seq<T>, leq: (T, T) -> bool, q: seq<nat>, r: seq<T>) returns (p: seq<nat>)
    requires TotalPreorder(leq) && s != [] && StableOrder(s[..|s| - 1], leq, q)
    requires |r| == |q| && forall i :: 0 <= i < |r| ==> r[i] == s[q[i]]
    ensures StableOrder(s, leq, p)
    ensures |Insert(r, s[|s| - 1], leq)| == |s|
    ensures forall i :: 0 <= i < |s| ==> Insert(r, s[|s| - 1], leq)[i] == s[p[i]]
  {
    OrderIsSorted(s[..|s| - 1], leq, q, r);
    var k := InsertPosition(r, s[|s| - 1], leq);
    SpliceOrder(s, leq, q, k);
    p := q[..k] + [|s| - 1] + q[k..];
  }

  lemma {:induction false} StablePermutation<T(!new)>(s: seq<T>, leq: (T, T) -> bool) returns (p: seq<nat>)
    requires TotalPreorder(leq)
    ensures StableOrder(s, leq, p)
    ensures |Sort(s, leq)| == |s|
    ensures forall i :: 0 <= i < |s| ==> Sort(s, leq)[i] == s[p[i]]
  {
    if s == [] {
      p := [];
    } else {
      var front := s[..|s| - 1];
      var q := StablePermutation(front, leq);
      p := InsertExtendsOrder(s, leq, q, Sort(front, leq));
    }
  }

  lemma SpliceStaysSorted<T>(r: seq<T>, x: T, k: nat, leq: (T, T) -> bool)
    requires SortedBy(r, leq) && k <= |r|
    requires forall i :: 0 <= i < k ==> leq(r[i], x)
    requires forall i :: k <= i < |r| ==> leq(x, r[i])
    ensures SortedBy(r[..k] + [x] + r[k..], leq)
  {
    var t := r[..k] + [x] + r[k..];
    forall i, j | 0 <= i < j < |t| ensures leq(t[i], t[j]) {
      assert i != k ==> t[i] == r[if i < k then i else i - 1];
      assert j != k ==> t[j] == r[if j < k then j else j - 1];
    }
  }

  lemma SpliceKeepsElements<T>(r: seq<T>, x: T, k: nat)
    requires k <= |r|
    ensures multiset(r[..k] + [x] + r[k..]) == multiset(r) + multiset{x}
  {
    assert r == r[..k] + r[k..];
  }

  lemma NothingSorts<T>(leq: (T, T) -> bool)
    ensures Sort([], leq) == [] && SortedBy([], leq)
  {
  }

  /** Sorting returns the same elements, in order. */
  lemma {:induction false} SortIsSortedPermutation<T(!new)>(s: seq<T>, leq: (T, T) -> bool)
    requires TotalPreorder(leq)
    ensures SortedBy(Sort(s, leq), leq)
    ensures multiset(Sort(s, leq)) == multiset(s)
  {
    hide TotalPreorder, SortedBy, Insert;
    if s == [] {
      NothingSorts(leq);
    } else {
      var front, x := s[..|s| - 1], s[|s| - 1];
      SortIsSortedPermutation(front, leq);
      var r := Sort(front, leq);
      var k := InsertPosition(r, x, leq);
      SpliceStaysSorted(r, x, k, leq);
      SpliceKeepsElements(r, x, k);
      SpliceKeepsElements(front, x, |front|);
      assert s == front[..|front|] + [x] + front[|front|..];
    }
  }

  /** Two sorted arrangements of the same elements are equal when ties are equal. */
  lemma {:induction false} SortedPermutationsAgree<T(!new)>(a: seq<T>, b: seq<T>, leq: (T, T) -> bool)
    requires TotalPreorder(leq) && Antisymmetric(leq)
    requires SortedBy(a, leq) && SortedBy(b, leq) && multiset(a) == multiset(b)
    ensures a == b
  {
    hide TotalPreorder, Antisymmetric;
    assert |a| == |multiset(a)| == |multiset(b)| == |b|;
    if a != [] {
      SameHead(a, b, leq);
      assert a == [a[0]] + a[1..] && b == [b[0]] + b[1..];
      assert multiset(a[1..]) == multiset(a) - multiset{a[0]} == multiset(b[1..]);
      SortedPermutationsAgree(a[1..], b[1..], leq);
      assert a[1..] == b[1..];
    }
  }

  lemma SameHead<T(!new)>(a: seq<T>, b: seq<T>, leq: (T, T) -> bool)
    requires TotalPreorder(leq) && Antisymmetric(leq)
    requires SortedBy(a, leq) && SortedBy(b, leq) && multiset(a) == multiset(b) && a != [] && b != []
    ensures a[0] == b[0]
  {
    assert a[0] in multiset(b) && b[0] in multiset(a);
    var i :| 0 <= i < |b| && b[i] == a[0];
    var j :| 0 <= j < |a| && a[j] == b[0];
    assert Comparable(leq, a[0], a[0]) && Comparable(leq, b[0], b[0]);
    assert leq(b[0], b[i]) && leq(a[0], a[j]);
  }

  /** Sorting keeps exactly the values it was given. */
  lemma SortKeepsValues<T(!new)>(s: seq<T>, leq: (T, T) -> bool)
    requires TotalPreorder(leq)
    ensures |Sort(s, leq)| == |s|
    ensures forall x :: x in Sort(s, leq) <==> x in s
  {
    SortIsSortedPermutation(s, leq);
    var r := Sort(s, leq);
    assert |r| == |multiset(r)| == |multiset(s)| == |s|;
    forall x ensures x in r <==> x in s {
      assert x in r <==> x in multiset(r);
      assert x in s <==> x in multiset(s);
    }
  }
}
