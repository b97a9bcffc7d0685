/** Go's ordering of strings, byte by byte, and the fact that it is a total order. */
module Strings {

  function Leq(a: string, b: string): bool
  {
    if a == [] then true
    else if b == [] then false
    else if a[0] == b[0] then Leq(a[1..], b[1..])
    else a[0] < b[0]
  }

  predicate Less(a: string, b: string)
  {
    Leq(a, b) && a != b
  }

  lemma {:induction false} Total(a: string, b: string)
    ensures Leq(a, b) || Leq(b, a)
    decreases |a|
  {
    if a != [] && b != [] {
      Total(a[1..], b[1..]);
    }
  }

  lemma {:induction false} Antisymmetry(a: string, b: string)
    requires Leq(a, b) && Leq(b, a)
    ensures a == b
    decreases |a|
  {
    if a != [] && b != [] {
      Antisymmetry(a[1..], b[1..]);
      assert a == [a[0]] + a[1..] && b == [b[0]] + b[1..];
    }
  }

  lemma {:induction false} Transitivity(a: string, b: string, c: string)
    requires Leq(a, b) && Leq(b, c)
    ensures Leq(a, c)
    decreases |a|
  {
    if a != [] && b != [] && c != [] && a[0] == b[0] == c[0] {
      Transitivity(a[1..], b[1..], c[1..]);
    }
  }

  /** The three laws at once, for the sorts over strings. */
  lemma IsTotalOrder()
    ensures forall a, b :: Leq(a, b) || Leq(b, a)
    ensures forall a, b :: Leq(a, b) && Leq(b, a) ==> a == b
    ensures forall a, b, c :: Leq(a, b) && Leq(b, c) ==> Leq(a, c)
  {
    forall a, b ensures Leq(a, b) || Leq(b, a) { Total(a, b); }
    forall a, b | Leq(a, b) && Leq(b, a) ensures a == b { Antisymmetry(a, b); }
    forall a, b, c | Leq(a, b) && Leq(b, c) ensures Leq(a, c) { Transitivity(a, b, c); }
  }

  /** The order is the lexicographic one: a proper beginning comes first, and otherwise the first
      character that differs decides. */
  lemma {:induction false} LeqIsLexicographic(a: string, b: string)
    ensures Leq(a, b) <==> a <= b || exists k :: 0 <= k < |a| && FirstDifference(a, b, k) && a[k] < b[k]
    decreases |a|
  {
    if a != [] && b != [] {
      if a[0] == b[0] {
        LeqIsLexicographic(a[1..], b[1..]);
        TailsDiffer(a, b);
      } else {
        assert a[..0] == b[..0] && FirstDifference(a, b, 0);
        forall k | 0 <= k < |a| && FirstDifference(a, b, k) ensures k == 0 {
          if k > 0 {
            AgreesAtFirst(a, b, k);
          }
        }
      }
    }
  }

  /** Strings that begin alike compare as what follows. */
  lemma TailsDiffer(a: string, b: string)
    requires a != [] && b != [] && a[0] == b[0]
    ensures a <= b <==> a[1..] <= b[1..]
    ensures forall k: nat :: FirstDifference(a[1..], b[1..], k) <==> FirstDifference(a, b, k + 1)
    ensures !FirstDifference(a, b, 0)
    ensures (exists k :: 0 <= k < |a| && FirstDifference(a, b, k) && a[k] < b[k]) <==>
            exists k :: 0 <= k < |a[1..]| && FirstDifference(a[1..], b[1..], k) && a[1..][k] < b[1..][k]
  {
    assert a == [a[0]] + a[1..] && b == [b[0]] + b[1..];
    forall k: nat ensures FirstDifference(a[1..], b[1..], k) <==> FirstDifference(a, b, k + 1) {
      if k < |a| - 1 && k < |b| - 1 {
        assert a[..k + 1] == [a[0]] + a[1..][..k] && b[..k + 1] == [b[0]] + b[1..][..k];
      }
    }
    hide FirstDifference;
    if k :| 0 <= k < |a[1..]| && FirstDifference(a[1..], b[1..], k) && a[1..][k] < b[1..][k] {
      assert FirstDifference(a, b, k + 1);
    }
    if k :| 0 <= k < |a| && FirstDifference(a, b, k) && a[k] < b[k] {
      assert FirstDifference(a[1..], b[1..], k - 1);
    }
  }

  lemma AgreesAtFirst(a: string, b: string, k: nat)
    requires FirstDifference(a, b, k) && k > 0
    ensures a[0] == b[0]
  {
    assert a[..k][0] == b[..k][0];
  }

  /** `a` and `b` agree before position `k` and differ there. */
  ghost predicate FirstDifference(a: string, b: string, k: nat)
  {
    k < |a| && k < |b| && a[..k] == b[..k] && a[k] != b[k]
  }
}
