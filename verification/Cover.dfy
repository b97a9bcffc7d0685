/** internal/ghfind/cover.go: greedy maximum coverage with a floor and a pick limit. */
module Cover {
  import opened Basics

  /** A 64-bit endpoint hash; only equality matters. */
  type Hash = nat

  ghost predicate Distinct(s: seq<Hash>)
  {
    forall i, j :: 0 <= i < j < |s| ==> s[i] != s[j]
  }

  ghost predicate AllDistinct(sets: seq<seq<Hash>>)
  {
    forall i :: 0 <= i < |sets| ==> Distinct(sets[i])
  }

  function Elements(s: seq<Hash>): set<Hash>
  {
    set h | h in s
  }

  ghost predicate Indices(sets: seq<seq<Hash>>, picks: seq<nat>)
  {
    forall r :: 0 <= r < |picks| ==> picks[r] < |sets|
  }

  /** What the picked sets cover together. */
  ghost function Covered(sets: seq<seq<Hash>>, picks: seq<nat>): set<Hash>
    requires Indices(sets, picks)
  {
    if picks == [] then {}
    else Covered(sets, picks[..|picks| - 1]) + Elements(sets[picks[|picks| - 1]])
  }

  ghost function Gain(sets: seq<seq<Hash>>, i: nat, union: set<Hash>): nat
    requires i < |sets|
  {
    |Elements(sets[i]) - union|
  }

  /** The gain a pick must reach: at least the floor, and never nothing. */
  function Bar(floor: int): nat
  {
    if floor < 1 then 1 else floor
  }

  /** No set outside `picks` gains more than `g` over `union`. */
  ghost predicate NoneOver(sets: seq<seq<Hash>>, picks: seq<nat>, union: set<Hash>, g: nat)
  {
    forall i: nat {:trigger Gain(sets, i, union)} :: i < |sets| && i !in picks ==> Gain(sets, i, union) <= g
  }

  ghost predicate NoneEarlierTies(sets: seq<seq<Hash>>, picks: seq<nat>, union: set<Hash>, best: nat)
    requires best < |sets|
  {
    forall i: nat {:trigger Gain(sets, i, union)} :: i < best && i !in picks ==>
      Gain(sets, i, union) < Gain(sets, best, union)
  }

  /** `best` gains the most over the sets outside `picks`, and is the first to do so. */
  ghost predicate IsBest(sets: seq<seq<Hash>>, picks: seq<nat>, union: set<Hash>, best: nat)
  {
    && best < |sets| && best !in picks
    && NoneOver(sets, picks, union, Gain(sets, best, union))
    && NoneEarlierTies(sets, picks, union, best)
  }

  /** Every pick was the best of its round and reached the bar. */
  ghost predicate GreedyRun(sets: seq<seq<Hash>>, floor: int, picks: seq<nat>)
    requires Indices(sets, picks)
  {
    picks == [] ||
    var before, last := picks[..|picks| - 1], picks[|picks| - 1];
    && GreedyRun(sets, floor, before)
    && IsBest(sets, before, Covered(sets, before), last)
    && Gain(sets, last, Covered(sets, before)) >= floor && Gain(sets, last, Covered(sets, before)) >= 1
  }

  /** No set outside `picks` reaches the bar any more. */
  ghost predicate Exhausted(sets: seq<seq<Hash>>, floor: int, picks: seq<nat>)
    requires Indices(sets, picks)
  {
    NoneOver(sets, picks, Covered(sets, picks), if floor < 1 then 0 else floor - 1)
  }

  /** Everything Cover promises about its picks. */
  ghost predicate IsCover(sets: seq<seq<Hash>>, floor: int, accept: int, picks: seq<nat>)
  {
    && Indices(sets, picks)
    && GreedyRun(sets, floor, picks)
    && |picks| <= (if accept < 0 then 0 else accept)
    && (|picks| < accept ==> Exhausted(sets, floor, picks))
  }

  /** Reading one more element of a duplicate-free set adds it unless it is excluded. */
  lemma OneMoreElement(s: seq<Hash>, i: nat, excluded: set<Hash>)
    requires Distinct(s) && i < |s|
    ensures |Elements(s[..i + 1]) - excluded| == |Elements(s[..i]) - excluded| + if s[i] in excluded then 0 else 1
  {
    assert Elements(s[..i + 1]) == Elements(s[..i]) + {s[i]};
    if s[i] in excluded {
      assert Elements(s[..i + 1]) - excluded == Elements(s[..i]) - excluded;
    } else {
      assert Elements(s[..i + 1]) - excluded == (Elements(s[..i]) - excluded) + {s[i]};
    }
  }

  method Missing(s: seq<Hash>, union: set<Hash>) returns (n: nat)
    requires Distinct(s)
    ensures n == |Elements(s) - union|
  {
    n := 0;
    for i := 0 to |s|
      invariant n == |Elements(s[..i]) - union|
    {
      OneMoreElement(s, i, union);
      if s[i] !in union {
        n := n + 1;
      }
    }
    assert s[..|s|] == s;
  }

  /** Whether a round's best set is not worth picking. */
  predicate Hopeless(best: int, bestGain: nat, floor: int)
  {
    best < 0 || bestGain == 0 || bestGain < floor
  }

  /** One round: the first of the unchosen sets with the largest gain, or -1 when none gains. */
  method BestOfRound(sets: seq<seq<Hash>>, union: set<Hash>, chosen: array<bool>, ghost picks: seq<nat>, ghost floor: int)
    returns (best: int, bestGain: nat)
    requires AllDistinct(sets) && chosen.Length == |sets|
    requires forall i: nat :: i < |sets| ==> (chosen[i] <==> i in picks)
    ensures -1 <= best < |sets|
    ensures Hopeless(best, bestGain, floor) ==> NoneOver(sets, picks, union, Bar(floor) - 1)
    ensures !Hopeless(best, bestGain, floor) ==>
              IsBest(sets, picks, union, best) && Gain(sets, best, union) >= Bar(floor)
  {
    best, bestGain := -1, 0;
    for i := 0 to |sets|
      invariant -1 <= best < i
      invariant if best < 0 then bestGain == 0
                else best !in picks && bestGain == Gain(sets, best, union) > 0
      invariant forall j: nat {:trigger Gain(sets, j, union)} :: j < i && j !in picks ==> Gain(sets, j, union) <= bestGain
      invariant forall j: nat {:trigger Gain(sets, j, union)} :: j < best && j !in picks ==> Gain(sets, j, union) < bestGain
    {
      if chosen[i] {
        continue;
      }
      var gain := Missing(sets[i], union);
      if gain > bestGain {
        best, bestGain := i, gain;
      }
    }
  }

  method Cover(sets: seq<seq<Hash>>, floor: int, accept: int) returns (picks: seq<nat>)
    requires AllDistinct(sets)
    ensures IsCover(sets, floor, accept, picks)
  {
    hide GreedyRun, Covered, IsBest, Gain, NoneOver, AllDistinct, Elements;
    EmptyRun(sets, floor);
    picks := [];
    if accept <= 0 || |sets| == 0 {
      return;
    }
    var union: set<Hash> := {};
    var chosen := new bool[|sets|](_ => false);
    while |picks| < accept
      invariant |picks| <= accept
      invariant Indices(sets, picks) && GreedyRun(sets, floor, picks)
      invariant union == Covered(sets, picks)
      invariant forall i: nat :: i < |sets| ==> (chosen[i] <==> i in picks)
      decreases accept - |picks|
    {
      var best, bestGain := BestOfRound(sets, union, chosen, picks, floor);
      if best < 0 || bestGain == 0 || bestGain < floor {
        break;
      }
      RunGrows(sets, floor, picks, best);
      chosen[best] := true;
      picks := picks + [best];
      union := AddAll(union, sets[best]);
    }
  }

  lemma EmptyRun(sets: seq<seq<Hash>>, floor: int)
    ensures GreedyRun(sets, floor, []) && Covered(sets, []) == {}
    ensures sets == [] ==> Exhausted(sets, floor, [])
  {
  }

  lemma RunGrows(sets: seq<seq<Hash>>, floor: int, picks: seq<nat>, best: nat)
    requires Indices(sets, picks) && GreedyRun(sets, floor, picks)
    requires IsBest(sets, picks, Covered(sets, picks), best)
    requires Gain(sets, best, Covered(sets, picks)) >= Bar(floor)
    ensures Indices(sets, picks + [best]) && GreedyRun(sets, floor, picks + [best])
    ensures Covered(sets, picks + [best]) == Covered(sets, picks) + Elements(sets[best])
  {
    assert (picks + [best])[..|picks|] == picks;
  }

  method AddAll(union: set<Hash>, s: seq<Hash>) returns (bigger: set<Hash>)
    ensures bigger == union + Elements(s)
  {
    bigger := union;
    for i := 0 to |s|
      invariant bigger == union + Elements(s[..i])
    {
      bigger := bigger + {s[i]};
    }
    assert s[..|s|] == s;
  }

  /** The contract fixes the picks: a run is reproducible. */
  lemma CoverIsDeterministic(sets: seq<seq<Hash>>, floor: int, accept: int, a: seq<nat>, b: seq<nat>)
    requires IsCover(sets, floor, accept, a) && IsCover(sets, floor, accept, b)
    ensures a == b
  {
    if |a| <= |b| {
      ShorterIsSame(sets, floor, accept, a, b);
    } else {
      ShorterIsSame(sets, floor, accept, b, a);
    }
  }

  lemma ShorterIsSame(sets: seq<seq<Hash>>, floor: int, accept: int, a: seq<nat>, b: seq<nat>)
    requires IsCover(sets, floor, accept, a) && IsCover(sets, floor, accept, b) && |a| <= |b|
    ensures a == b
  {
    hide GreedyRun, Exhausted;
    PrefixIsRun(sets, floor, b, |a|);
    SameLengthSameRun(sets, floor, a, b[..|a|]);
    if |a| < |b| {
      assert b[..|a| + 1] == a + [b[|a|]];
      NoRunContinues(sets, floor, a, b[|a|]);
      PrefixIsRun(sets, floor, b, |a| + 1);
    }
  }

  lemma NoRunContinues(sets: seq<seq<Hash>>, floor: int, picks: seq<nat>, next: nat)
    requires Indices(sets, picks) && next < |sets| && Exhausted(sets, floor, picks)
    ensures !GreedyRun(sets, floor, picks + [next])
  {
    assert (picks + [next])[..|picks|] == picks;
  }

  lemma {:induction false} PrefixIsRun(sets: seq<seq<Hash>>, floor: int, picks: seq<nat>, n: nat)
    requires Indices(sets, picks) && GreedyRun(sets, floor, picks) && n <= |picks|
    ensures Indices(sets, picks[..n]) && GreedyRun(sets, floor, picks[..n])
  {
    if n < |picks| {
      var before := picks[..|picks| - 1];
      PrefixIsRun(sets, floor, before, n);
      assert before[..n] == picks[..n];
    } else {
      assert picks[..n] == picks;
    }
  }

  lemma {:induction false} SameLengthSameRun(sets: seq<seq<Hash>>, floor: int, a: seq<nat>, b: seq<nat>)
    requires Indices(sets, a) && Indices(sets, b) && |a| == |b|
    requires GreedyRun(sets, floor, a) && GreedyRun(sets, floor, b)
    ensures a == b
  {
    if a != [] {
      var n := |a| - 1;
      var x, y := a[..n], b[..n];
      LastPick(sets, floor, a);
      LastPick(sets, floor, b);
      SameLengthSameRun(sets, floor, x, y);
      BestIsUnique(sets, x, Covered(sets, x), a[n], b[n]);
      SameParts(a, b);
    }
  }

  lemma SameParts(a: seq<nat>, b: seq<nat>)
    requires a != [] && |a| == |b| && a[..|a| - 1] == b[..|b| - 1] && a[|a| - 1] == b[|b| - 1]
    ensures a == b
  {
    assert a == a[..|a| - 1] + [a[|a| - 1]];
  }

  lemma LastPick(sets: seq<seq<Hash>>, floor: int, picks: seq<nat>)
    requires Indices(sets, picks) && GreedyRun(sets, floor, picks) && picks != []
    ensures Indices(sets, picks[..|picks| - 1]) && GreedyRun(sets, floor, picks[..|picks| - 1])
    ensures IsBest(sets, picks[..|picks| - 1], Covered(sets, picks[..|picks| - 1]), picks[|picks| - 1])
  {
  }

  lemma BestIsUnique(sets: seq<seq<Hash>>, picks: seq<nat>, union: set<Hash>, x: nat, y: nat)
    requires IsBest(sets, picks, union, x) && IsBest(sets, picks, union, y)
    ensures x == y
  {
  }

  // ----- how good the greedy picks are -----

  lemma PickedGainsNothing(sets: seq<seq<Hash>>, picks: seq<nat>, i: nat)
    requires Indices(sets, picks) && i < |sets| && i in picks
    ensures Gain(sets, i, Covered(sets, picks)) == 0
  {
    PickIsCovered(sets, picks, i);
    assert Elements(sets[i]) - Covered(sets, picks) == {};
  }

  lemma {:induction false} PickIsCovered(sets: seq<seq<Hash>>, picks: seq<nat>, i: nat)
    requires Indices(sets, picks) && i < |sets| && i in picks
    ensures Elements(sets[i]) <= Covered(sets, picks)
  {
    var last := |picks| - 1;
    if picks[last] != i {
      PickIsCovered(sets, picks[..last], i);
    }
  }

  /** Sets that each gain at most `g` over `union` gain at most `g` apiece together. */
  lemma {:induction false} GainsAddUp(sets: seq<seq<Hash>>, others: seq<nat>, union: set<Hash>, g: nat)
    requires Indices(sets, others)
    requires forall r :: 0 <= r < |others| ==> Gain(sets, others[r], union) <= g
    ensures |Covered(sets, others) - union| <= |others| * g
  {
    if others != [] {
      var last := |others| - 1;
      var front := others[..last];
      GainsAddUp(sets, front, union, g);
      assert Gain(sets, others[last], union) <= g;
      JoinedSize(Covered(sets, front), Elements(sets[others[last]]), union);
      Distribute(last, g);
    }
  }

  lemma JoinedSize(a: set<Hash>, b: set<Hash>, union: set<Hash>)
    ensures |(a + b) - union| <= |a - union| + |b - union|
  {
    assert (a + b) - union == (a - union) + (b - union);
  }

  lemma Distribute(n: nat, g: nat)
    ensures (n + 1) * g == n * g + g
  {
  }

  lemma Shortfall(goal: set<Hash>, union: set<Hash>)
    ensures |goal| - |union| <= |goal - union|
  {
    assert goal - (goal - union) <= union;
    SubsetSize(goal * union, union);
    assert goal == (goal - union) + (goal * union);
  }

  ghost function Pow(b: nat, e: nat): nat
  {
    if e == 0 then 1 else b * Pow(b, e - 1)
  }

  /** The last greedy pick closes at least 1/k of the gap to any k sets. */
  lemma PickClosesGap(sets: seq<seq<Hash>>, floor: int, picks: seq<nat>, rivals: seq<nat>, k: nat)
    requires Indices(sets, picks) && GreedyRun(sets, floor, picks) && picks != []
    requires Indices(sets, rivals) && |rivals| <= k && k > 0
    ensures ClosesShare(k, |Covered(sets, rivals)| - |Covered(sets, picks[..|picks| - 1])|,
                        |Covered(sets, rivals)| - |Covered(sets, picks)|)
  {
    hide *;
    LastPickFacts(sets, floor, picks);
    var before, last := picks[..|picks| - 1], picks[|picks| - 1];
    var union := Covered(sets, before);
    RivalsGain(sets, before, rivals, Gain(sets, last, union));
    GapAfter(Covered(sets, rivals), union, Elements(sets[last]), Covered(sets, picks),
             |rivals|, k, Gain(sets, last, union));
  }

  lemma LastPickFacts(sets: seq<seq<Hash>>, floor: int, picks: seq<nat>)
    requires Indices(sets, picks) && GreedyRun(sets, floor, picks) && picks != []
    ensures Indices(sets, picks[..|picks| - 1]) && picks[|picks| - 1] < |sets|
    ensures var union := Covered(sets, picks[..|picks| - 1]);
            var last := picks[|picks| - 1];
            && Covered(sets, picks) == union + Elements(sets[last])
            && NoneOver(sets, picks[..|picks| - 1], union, Gain(sets, last, union))
            && |Elements(sets[last]) - union| == Gain(sets, last, union)
  {
    hide NoneOver;
    LastPick(sets, floor, picks);
  }

  lemma GapAfter(goal: set<Hash>, union: set<Hash>, picked: set<Hash>, now: set<Hash>, n: nat, k: nat, gain: nat)
    requires n <= k && k > 0 && AtMostTimes(|goal - union|, n, gain) && now == union + picked && |picked - union| == gain
    ensures ClosesShare(k, |goal| - |union|, |goal| - |now|)
  {
    Shortfall(goal, union);
    assert now == union + (picked - union);
    ShareOfGap(n, k, |goal| - |union|, gain);
  }

  /** Over the picks' own union no rival gains more than the best unpicked set. */
  lemma RivalsGain(sets: seq<seq<Hash>>, picks: seq<nat>, rivals: seq<nat>, g: nat)
    requires Indices(sets, picks) && Indices(sets, rivals)
    requires NoneOver(sets, picks, Covered(sets, picks), g)
    ensures AtMostTimes(|Covered(sets, rivals) - Covered(sets, picks)|, |rivals|, g)
  {
    forall r | 0 <= r < |rivals| ensures Gain(sets, rivals[r], Covered(sets, picks)) <= g {
      if rivals[r] in picks { PickedGainsNothing(sets, picks, rivals[r]); }
    }
    GainsAddUp(sets, rivals, Covered(sets, picks), g);
  }

  ghost predicate AtMostTimes(x: nat, n: nat, g: nat)
  {
    x <= n * g
  }

  /** The gap shrinks from `was` to `now` by at least a k-th of itself. */
  ghost predicate ClosesShare(k: nat, was: int, now: int)
  {
    k * now <= (k - 1) * was
  }

  lemma ShareOfGap(n: nat, k: nat, gap: int, gain: nat)
    requires n <= k && k > 0 && gap <= n * gain
    ensures ClosesShare(k, gap, gap - gain)
  {
    ScaleBound(n, k, gain);
    assert k * (gap - gain) == k * gap - k * gain;
    assert (k - 1) * gap == k * gap - gap;
  }

  lemma ScaleBound(a: int, b: int, c: nat)
    requires a <= b
    ensures c * a <= c * b
  {
  }

  /** The bound survives one more round. */
  lemma OneMoreRound(k: nat, was: int, now: int, p: nat, q: nat, goal: nat)
    requires k > 0 && ClosesShare(k, was, now) && p * was <= q * goal
    ensures (k * p) * now <= ((k - 1) * q) * goal
  {
    ScaleBound(k * now, (k - 1) * was, p);
    ScaleBound(p * was, q * goal, k - 1);
    assert (k * p) * now == p * (k * now);
    assert p * ((k - 1) * was) == (k - 1) * (p * was);
    assert (k - 1) * (q * goal) == ((k - 1) * q) * goal;
  }

  lemma NothingCovered(sets: seq<seq<Hash>>)
    ensures Covered(sets, []) == {} && Pow(0, 0) == 1
  {
  }

  lemma {:induction false} GapShrinks(sets: seq<seq<Hash>>, floor: int, picks: seq<nat>, rivals: seq<nat>, k: nat)
    requires Indices(sets, picks) && GreedyRun(sets, floor, picks)
    requires Indices(sets, rivals) && |rivals| <= k && k > 0
    ensures Pow(k, |picks|) * (|Covered(sets, rivals)| - |Covered(sets, picks)|)
         <= Pow(k - 1, |picks|) * |Covered(sets, rivals)|
  {
    hide ClosesShare, Covered;
    if picks == [] {
      NothingCovered(sets);
    } else {
      var n := |picks| - 1;
      var before := picks[..n];
      GapShrinks(sets, floor, before, rivals, k);
      PickClosesGap(sets, floor, picks, rivals, k);
      var goal := |Covered(sets, rivals)|;
      OneMoreRound(k, goal - |Covered(sets, before)|, goal - |Covered(sets, picks)|, Pow(k, n), Pow(k - 1, n), goal);
    }
  }

  /** A full run of k picks misses at most (1 - 1/k)^k of what any k sets could cover. */
  lemma FullRunApproximates(sets: seq<seq<Hash>>, floor: int, k: nat, picks: seq<nat>, rivals: seq<nat>)
    requires IsCover(sets, floor, k, picks) && |picks| == k > 0
    requires Indices(sets, rivals) && |rivals| <= k
    ensures Pow(k, k) * (|Covered(sets, rivals)| - |Covered(sets, picks)|)
         <= Pow(k - 1, k) * |Covered(sets, rivals)|
  {
    GapShrinks(sets, floor, picks, rivals, k);
  }

  /** A run that stops early leaves any k sets less than the bar apiece to add. */
  lemma EarlyStopApproximates(sets: seq<seq<Hash>>, floor: int, k: nat, picks: seq<nat>, rivals: seq<nat>)
    requires IsCover(sets, floor, k, picks) && |picks| < k
    requires Indices(sets, rivals) && |rivals| <= k
    ensures |Covered(sets, rivals)| - |Covered(sets, picks)| <= k * (if floor < 1 then 0 else floor - 1)
  {
    hide AtMostTimes;
    RivalsGain(sets, picks, rivals, Bar(floor) - 1);
    GapBelow(Covered(sets, rivals), Covered(sets, picks), |rivals|, k, Bar(floor) - 1);
  }

  lemma GapBelow(goal: set<Hash>, union: set<Hash>, n: nat, k: nat, g: nat)
    requires n <= k && AtMostTimes(|goal - union|, n, g)
    ensures |goal| - |union| <= k * g
  {
    Shortfall(goal, union);
    ScaleBound(n, k, g);
  }
}
