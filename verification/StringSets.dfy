/** A set of strings in Go's sort.Strings order. */
module StringSets {
  import Sorting
  import Strings

  function Leq(a: string, b: string): bool { Strings.Leq(a, b) }

  lemma LeqIsOrder()
    ensures Sorting.TotalPreorder(Leq)
  {
    Strings.IsTotalOrder();
  }

  ghost predicate Ascending(sorted: seq<string>)
  {
    forall i, j :: 0 <= i < j < |sorted| ==> Strings.Less(sorted[i], sorted[j])
  }

  /** sort.Strings over a set gathered in any order. */
  method SortedStrings(all: set<string>) returns (sorted: seq<string>)
    ensures Ascending(sorted) && forall u :: u in sorted <==> u in all
  {
    var gathered: seq<string> := [];
    var todo := all;
    while todo != {}
      invariant todo <= all
      invariant forall u :: u in gathered <==> u in all - todo
      invariant forall i, j :: 0 <= i < j < |gathered| ==> gathered[i] != gathered[j]
      decreases todo
    {
      var u :| u in todo;
      assert u !in gathered;
      GatherOne(gathered, u);
      gathered := gathered + [u];
      todo := todo - {u};
    }
    LeqIsOrder();
    sorted := Sorting.Sort(gathered, Leq);
    Sorting.SortKeepsValues(gathered, Leq);
    DistinctSortAscends(gathered);
  }

  lemma GatherOne(gathered: seq<string>, u: string)
    requires u !in gathered && forall i, j :: 0 <= i < j < |gathered| ==> gathered[i] != gathered[j]
    ensures forall i, j :: 0 <= i < j < |gathered + [u]| ==> (gathered + [u])[i] != (gathered + [u])[j]
    ensures forall w :: w in gathered + [u] <==> w in gathered || w == u
  {
  }

  lemma DistinctSortAscends(gathered: seq<string>)
    requires forall i, j :: 0 <= i < j < |gathered| ==> gathered[i] != gathered[j]
    ensures Ascending(Sorting.Sort(gathered, Leq))
  {
    LeqIsOrder();
    var p := Sorting.StablePermutation(gathered, Leq);
    var r := Sorting.Sort(gathered, Leq);
    forall i, j | 0 <= i < j < |r| ensures Strings.Less(r[i], r[j]) {
      assert Sorting.Before(gathered, Leq, p[i], p[j]);
      Strings.Total(r[j], r[j]);
    }
  }

  lemma AheadIsLater(sorted: seq<string>, i: nat)
    requires Ascending(sorted) && i < |sorted|
    ensures sorted[i] !in sorted[..i]
    ensures forall u :: u in sorted[..i] ==> Strings.Less(u, sorted[i])
  {
  }

  /** A set of strings has one ascending list. */
  lemma {:induction false} AscendingAgree(a: seq<string>, b: seq<string>)
    requires Ascending(a) && Ascending(b) && forall u :: u in a <==> u in b
    ensures a == b
  {
    hide Ascending;
    MembersOf(a);
    MembersOf(b);
    if a != [] && b != [] {
      var m, n := |a| - 1, |b| - 1;
      LastIsGreatest(a, b[n]);
      LastIsGreatest(b, a[m]);
      Strings.Antisymmetry(a[m], b[n]);
      FrontOf(a);
      FrontOf(b);
      AscendingAgree(a[..m], b[..n]);
      assert a == a[..m] + [a[m]] && b == b[..n] + [b[n]];
    }
  }

  lemma MembersOf(s: seq<string>)
    ensures s == [] || exists u :: u in s
  {
    if s != [] {
      assert s[0] in s;
    }
  }

  lemma FrontOf(s: seq<string>)
    requires Ascending(s) && s != []
    ensures var n := |s| - 1;
            Ascending(s[..n]) && forall u :: u in s[..n] <==> u in s && u != s[n]
  {
    var n := |s| - 1;
    AheadIsLater(s, n);
    assert s == s[..n] + [s[n]];
  }

  lemma LastIsGreatest(s: seq<string>, u: string)
    requires Ascending(s) && u in s
    ensures Strings.Leq(u, s[|s| - 1])
  {
    Strings.Total(u, u);
  }
}
