/** internal/crawl/state.go and crawl.go: the two-step confirmation of a bulk deletion. */
module BulkPrune {
  import opened Basics
  import Strings
  import opened StringSets

  const CONFIRM_AFTER: Time := 6 * 3600
  const RECORD_TTL: Time := 24 * 3600
  const OVERLAP := 80
  const MIN_DROP := 10
  const PRUNE_PERCENT := 30
  const PERCENT_SCALE := 100

  function Urls(s: seq<string>): set<string>
  {
    set u | u in s
  }

  function Max(a: nat, b: nat): nat
  {
    if a < b then b else a
  }

  /** The two proposals share at least OVERLAP percent of the larger one. */
  predicate Matches(recorded: seq<string>, proposed: seq<string>)
  {
    && recorded != [] && proposed != []
    && |Urls(recorded) * Urls(proposed)| * PERCENT_SCALE >= Max(|recorded|, |proposed|) * OVERLAP
  }

  // ----- one cycle, on values -----

  datatype Pending = Nothing | Refusal(at: Time, urls: seq<string>)

  /** Nothing pending answers for this proposal: it counts as a first one. */
  predicate IsFirst(p: Pending, now: Time, condemned: seq<string>)
  {
    p.Nothing? || now > p.at + RECORD_TTL || !Matches(p.urls, condemned)
  }

  /** Whether a cycle may delete `condemned`, and what it leaves pending. */
  function Confirm(p: Pending, now: Time, condemned: seq<string>): (Pending, bool)
  {
    if IsFirst(p, now, condemned) then (Refusal(now, condemned), false)
    else if now < p.at + CONFIRM_AFTER then (p, false)
    else (Nothing, true)
  }

  predicate IsBulk(before: nat, deleted: seq<string>)
  {
    |deleted| > MIN_DROP && |deleted| * PERCENT_SCALE > before * PRUNE_PERCENT
  }

  /** A cycle as the prune floor sees it: stopped before the merge, a merge that changes nothing,
      or a merge that would delete `deleted` from a corpus of `before`. */
  datatype Cycle =
    | Stopped(at: Time)
    | Unchanged(at: Time)
    | Proposes(at: Time, before: nat, deleted: seq<string>)

  predicate Bulk(c: Cycle)
  {
    c.Proposes? && IsBulk(c.before, c.deleted)
  }

  function After(p: Pending, c: Cycle): Pending
  {
    match c
    case Stopped(_) => p
    case Unchanged(_) => Nothing
    case Proposes(now, _, deleted) => if Bulk(c) then Confirm(p, now, deleted).0 else Nothing
  }

  /** Whether the cycle carries its deletion out. */
  predicate Allowed(p: Pending, c: Cycle)
  {
    c.Proposes? && (Bulk(c) ==> Confirm(p, c.at, c.deleted).1)
  }

  // ----- the code -----

  lemma SortedSetSize(s: seq<string>)
    requires Ascending(s)
    ensures |Urls(s)| == |s|
  {
    if s != [] {
      var n := |s| - 1;
      SortedSetSize(s[..n]);
      assert Urls(s) == Urls(s[..n]) + {s[n]};
    }
  }

  /** How far the merge walk has got: everything behind is below everything ahead. */
  ghost predicate WalkedTo(r: seq<string>, p: seq<string>, i: nat, j: nat)
  {
    && i <= |r| && j <= |p|
    && (forall k, m :: 0 <= k < i && j <= m < |p| ==> Strings.Less(r[k], p[m]))
    && (forall k, m :: i <= k < |r| && 0 <= m < j ==> Strings.Less(p[m], r[k]))
  }

  lemma LessChain(a: string, b: string, c: string)
    requires Strings.Less(a, b) && Strings.Leq(b, c)
    ensures Strings.Less(a, c)
  {
    Strings.Transitivity(a, b, c);
    if a == c {
      Strings.Antisymmetry(a, b);
    }
  }

  /** Advancing past r[i], which is below p[j] and everything after it. */
  lemma WalkPastLeft(r: seq<string>, p: seq<string>, i: nat, j: nat)
    requires Ascending(r) && Ascending(p) && WalkedTo(r, p, i, j)
    requires i < |r| && j < |p| && Strings.Less(r[i], p[j])
    ensures WalkedTo(r, p, i + 1, j)
    ensures Urls(r[..i + 1]) * Urls(p[..j]) == Urls(r[..i]) * Urls(p[..j])
  {
    forall m | j <= m < |p| ensures Strings.Less(r[i], p[m]) {
      if m > j { LessChain(r[i], p[j], p[m]); }
    }
    assert Urls(r[..i + 1]) == Urls(r[..i]) + {r[i]};
  }

  lemma WalkPastRight(r: seq<string>, p: seq<string>, i: nat, j: nat)
    requires Ascending(r) && Ascending(p) && WalkedTo(r, p, i, j)
    requires i < |r| && j < |p| && Strings.Less(p[j], r[i])
    ensures WalkedTo(r, p, i, j + 1)
    ensures Urls(r[..i]) * Urls(p[..j + 1]) == Urls(r[..i]) * Urls(p[..j])
  {
    forall k | i <= k < |r| ensures Strings.Less(p[j], r[k]) {
      if k > i { LessChain(p[j], r[i], r[k]); }
    }
    assert Urls(p[..j + 1]) == Urls(p[..j]) + {p[j]};
  }

  lemma WalkPastBoth(r: seq<string>, p: seq<string>, i: nat, j: nat)
    requires Ascending(r) && Ascending(p) && WalkedTo(r, p, i, j)
    requires i < |r| && j < |p| && r[i] == p[j]
    ensures WalkedTo(r, p, i + 1, j + 1)
    ensures |Urls(r[..i + 1]) * Urls(p[..j + 1])| == |Urls(r[..i]) * Urls(p[..j])| + 1
  {
    assert Urls(r[..i + 1]) == Urls(r[..i]) + {r[i]};
    assert Urls(p[..j + 1]) == Urls(p[..j]) + {p[j]};
    assert Urls(r[..i + 1]) * Urls(p[..j + 1]) == Urls(r[..i]) * Urls(p[..j]) + {r[i]};
  }

  lemma OtherIsLess(a: string, b: string)
    requires a != b && !Strings.Less(a, b)
    ensures Strings.Less(b, a)
  {
    Strings.Total(a, b);
  }

  lemma WalkBegins(r: seq<string>, p: seq<string>)
    ensures WalkedTo(r, p, 0, 0) && Urls(r[..0]) * Urls(p[..0]) == {}
  {
  }

  lemma WalkEnds(r: seq<string>, p: seq<string>, i: nat, j: nat)
    requires WalkedTo(r, p, i, j) && (i == |r| || j == |p|)
    ensures Urls(r[..i]) * Urls(p[..j]) == Urls(r) * Urls(p)
  {
    forall u | u in Urls(r) * Urls(p) ensures u in Urls(r[..i]) * Urls(p[..j]) {
      var k :| 0 <= k < |r| && r[k] == u;
      var m :| 0 <= m < |p| && p[m] == u;
      assert k < i && m < j;
      assert r[..i][k] == u && p[..j][m] == u;
    }
  }

  /** The merge walk over two sorted proposals counts exactly what they share. */
  method CountShared(recorded: seq<string>, proposed: seq<string>) returns (common: nat)
    requires Ascending(recorded) && Ascending(proposed)
    ensures common == |Urls(recorded) * Urls(proposed)|
  {
    hide *;
    common := 0;
    var i, j := 0, 0;
    WalkBegins(recorded, proposed);
    while i < |recorded| && j < |proposed|
      invariant WalkedTo(recorded, proposed, i, j) && i <= |recorded| && j <= |proposed|
      invariant common == |Urls(recorded[..i]) * Urls(proposed[..j])|
      decreases |recorded| - i + |proposed| - j
    {
      if recorded[i] == proposed[j] {
        WalkPastBoth(recorded, proposed, i, j);
        common, i, j := common + 1, i + 1, j + 1;
      } else if Strings.Less(recorded[i], proposed[j]) {
        WalkPastLeft(recorded, proposed, i, j);
        i := i + 1;
      } else {
        OtherIsLess(recorded[i], proposed[j]);
        WalkPastRight(recorded, proposed, i, j);
        j := j + 1;
      }
    }
    WalkEnds(recorded, proposed, i, j);
  }

  method SameProposal(recorded: seq<string>, proposed: seq<string>) returns (same: bool)
    requires Ascending(recorded) && Ascending(proposed)
    ensures same <==> Matches(recorded, proposed)
  {
    if |recorded| == 0 || |proposed| == 0 {
      return false;
    }
    hide Ascending, Urls;
    var common := CountShared(recorded, proposed);
    same := common * PERCENT_SCALE >= Max(|recorded|, |proposed|) * OVERLAP;
  }

  class State {
    var bulkPruneAt: Time
    var bulkPruneURLs: seq<string>
    var dirty: bool

    constructor ()
      ensures Valid() && PendingNow() == Nothing
    {
      bulkPruneAt, bulkPruneURLs, dirty := 0, [], false;
    }

    ghost predicate Valid()
      reads this
    {
      Ascending(bulkPruneURLs)
    }

    ghost function PendingNow(): Pending
      reads this
    {
      if bulkPruneAt == 0 then Nothing else Refusal(bulkPruneAt, bulkPruneURLs)
    }

    method ConfirmBulkPrune(now: Time, condemned: seq<string>) returns (allow: bool, changed: bool)
      requires Valid() && Ascending(condemned) && now > 0
      modifies this
      ensures Valid()
      ensures (PendingNow(), allow) == Confirm(old(PendingNow()), now, condemned)
      ensures !changed ==> PendingNow() == old(PendingNow()) && dirty == old(dirty)
      ensures changed ==> dirty
    {
      var same := SameProposal(bulkPruneURLs, condemned);
      if bulkPruneAt == 0 || now > bulkPruneAt + RECORD_TTL || !same {
        bulkPruneAt, bulkPruneURLs, dirty := now, condemned, true;
        return false, true;
      }
      if now < bulkPruneAt + CONFIRM_AFTER {
        return false, false;
      }
      bulkPruneAt, bulkPruneURLs, dirty := 0, [], true;
      return true, true;
    }

    method ClearBulkPrune() returns (changed: bool)
      requires Valid()
      modifies this
      ensures Valid() && PendingNow() == Nothing
      ensures changed <==> old(bulkPruneAt) != 0 || old(bulkPruneURLs) != []
      ensures if changed then dirty else dirty == old(dirty)
    {
      if bulkPruneAt == 0 && bulkPruneURLs == [] {
        return false;
      }
      bulkPruneAt, bulkPruneURLs, dirty := 0, [], true;
      return true;
    }

    /** The prune floor: small drops pass and withdraw any refusal, bulk ones need a confirmation. */
    method AllowShrink(now: Time, before: nat, deleted: seq<string>) returns (allow: bool)
      requires Valid() && Ascending(deleted) && now > 0
      modifies this
      ensures Valid()
      ensures var c := Proposes(now, before, deleted);
              PendingNow() == After(old(PendingNow()), c) && (allow <==> Allowed(old(PendingNow()), c))
    {
      var drop := |deleted|;
      if drop <= MIN_DROP || drop * PERCENT_SCALE <= before * PRUNE_PERCENT {
        var _ := ClearBulkPrune();
        return true;
      }
      var changed;
      allow, changed := ConfirmBulkPrune(now, deleted);
    }

    /** The tail of one cycle, from the point where it either stops or reaches the merge. */
    method FinishCycle(c: Cycle) returns (written: bool)
      requires Valid() && c.at > 0 && (c.Proposes? ==> Ascending(c.deleted))
      modifies this
      ensures Valid()
      ensures PendingNow() == After(old(PendingNow()), c) && (written <==> Allowed(old(PendingNow()), c))
    {
      match c
      case Stopped(_) => return false;
      case Unchanged(_) =>
        var _ := ClearBulkPrune();
        return false;
      case Proposes(now, before, deleted) =>
        written := AllowShrink(now, before, deleted);
    }
  }

  // ----- whole runs -----

  /** What is pending after the first `n` cycles of a run that starts with nothing. */
  ghost function PendingAfter(run: seq<Cycle>, n: nat): Pending
    requires n <= |run|
  {
    if n == 0 then Nothing else After(PendingAfter(run, n - 1), run[n - 1])
  }

  ghost predicate Carried(run: seq<Cycle>, i: nat)
    requires i < |run|
  {
    Allowed(PendingAfter(run, i), run[i])
  }

  ghost predicate TimeOrdered(run: seq<Cycle>)
  {
    forall i, j :: 0 <= i <= j < |run| ==> run[i].at <= run[j].at
  }

  /** More than 10 URLs, and more than 30 percent of the corpus. */
  ghost predicate LargeDrop(c: Cycle)
  {
    c.Proposes? && |c.deleted| > 10 && |c.deleted| * 100 > c.before * 30
  }

  /** At least 80 percent of the larger of the two lists is in both. */
  ghost predicate Overlap(a: seq<string>, b: seq<string>)
  {
    && a != [] && b != []
    && |(set u | u in a) * (set u | u in b)| * 100 >= (if |a| < |b| then |b| else |a|) * 80
  }

  /** Cycle `j` itself was refused as a first proposal, and its own set was recorded: nothing younger than
      a day that its proposal overlaps was pending. */
  ghost predicate Recorded(run: seq<Cycle>, j: nat)
    requires j < |run|
  {
    && LargeDrop(run[j])
    && var p := PendingAfter(run, j);
       p.Nothing? || run[j].at > p.at + 24 * 3600 || !Overlap(p.urls, run[j].deleted)
  }

  /** Between `j` and `i` every cycle that reached the merge re-proposed a large drop overlapping that of
      `j`, and was refused. */
  ghost predicate Standing(run: seq<Cycle>, j: nat, i: nat)
    requires j < i <= |run|
  {
    forall k :: j < k < i && !run[k].Stopped? ==>
      LargeDrop(run[k]) && run[j].Proposes? && Overlap(run[j].deleted, run[k].deleted) && !Carried(run, k)
  }

  /** The refusal of cycle `j`, six to twenty-four hours old, authorises the deletion of cycle `i`. */
  ghost predicate Authorises(run: seq<Cycle>, j: nat, i: nat)
    requires j < i < |run|
  {
    && Recorded(run, j) && Standing(run, j, i)
    && LargeDrop(run[i]) && Overlap(run[j].deleted, run[i].deleted)
    && run[j].at + 6 * 3600 <= run[i].at <= run[j].at + 24 * 3600
  }

  /** What the code calls bulk and what it calls matching. */
  lemma BulkIsLarge(c: Cycle)
    ensures Bulk(c) <==> LargeDrop(c)
  {
  }

  lemma MatchingIsOverlap(a: seq<string>, b: seq<string>)
    ensures Matches(a, b) <==> Overlap(a, b)
  {
    assert Urls(a) == (set u | u in a) && Urls(b) == (set u | u in b);
  }

  /** A drop that is not large is always carried out, and withdraws whatever was pending. */
  lemma SmallDropPasses(run: seq<Cycle>, i: nat)
    requires i < |run| && run[i].Proposes? && (|run[i].deleted| <= 10 || |run[i].deleted| * 100 <= run[i].before * 30)
    ensures Carried(run, i) && PendingAfter(run, i + 1) == Nothing
  {
  }

  /** Recording is refusing: such a cycle deletes nothing and leaves its own set pending. */
  lemma RecordedIsRefused(run: seq<Cycle>, j: nat)
    requires j < |run| && Recorded(run, j)
    ensures !Carried(run, j) && PendingAfter(run, j + 1) == Refusal(run[j].at, run[j].deleted)
  {
    BulkIsLarge(run[j]);
    if PendingAfter(run, j).Refusal? {
      MatchingIsOverlap(PendingAfter(run, j).urls, run[j].deleted);
    }
  }

  /** Whatever is pending is the recorded refusal of some earlier cycle that still stands. */
  lemma {:induction false} PendingHasOrigin(run: seq<Cycle>, n: nat) returns (j: nat)
    requires n <= |run| && PendingAfter(run, n).Refusal?
    ensures j < n && Recorded(run, j) && Standing(run, j, n)
    ensures PendingAfter(run, n) == Refusal(run[j].at, run[j].deleted)
  {
    var c, p := run[n - 1], PendingAfter(run, n - 1);
    BulkIsLarge(c);
    if p.Refusal? && c.Proposes? {
      MatchingIsOverlap(p.urls, c.deleted);
    }
    if c.Proposes? && IsFirst(p, c.at, c.deleted) {
      j := n - 1;
    } else {
      j := PendingHasOrigin(run, n - 1);
    }
  }

  /** A refusal keeps standing unchanged while only matching proposals follow it. */
  lemma {:induction false} StandingKeepsRecord(run: seq<Cycle>, j: nat, n: nat)
    requires TimeOrdered(run) && j < n <= |run| && Recorded(run, j) && Standing(run, j, n)
    requires n < |run| && run[n].at <= run[j].at + RECORD_TTL
    ensures PendingAfter(run, n) == Refusal(run[j].at, run[j].deleted)
    decreases n - j
  {
    if n > j + 1 {
      assert run[n - 1].at <= run[n].at;
      StandingKeepsRecord(run, j, n - 1);
      var c := run[n - 1];
      if !c.Stopped? {
        assert LargeDrop(c) && Overlap(run[j].deleted, c.deleted) && !Carried(run, n - 1);
        BulkIsLarge(c);
        MatchingIsOverlap(run[j].deleted, c.deleted);
      }
    } else {
      RecordedIsRefused(run, j);
    }
  }

  /** Over a whole run a bulk deletion is carried out exactly when an earlier refusal, six to twenty-four
      hours old and re-proposed ever since, authorises it. */
  lemma BulkDeletionNeedsConfirmation(run: seq<Cycle>, i: nat)
    requires TimeOrdered(run) && i < |run| && LargeDrop(run[i])
    ensures Carried(run, i) <==> exists j :: 0 <= j < i && Authorises(run, j, i)
  {
    BulkIsLarge(run[i]);
    if Carried(run, i) {
      var j := PendingHasOrigin(run, i);
      MatchingIsOverlap(run[j].deleted, run[i].deleted);
      assert Authorises(run, j, i);
    }
    if exists j :: 0 <= j < i && Authorises(run, j, i) {
      var j :| 0 <= j < i && Authorises(run, j, i);
      StandingKeepsRecord(run, j, i);
      MatchingIsOverlap(run[j].deleted, run[i].deleted);
    }
  }

  /** No refusal authorises two deletions. */
  lemma RefusalAuthorisesOnce(run: seq<Cycle>, j: nat, a: nat, b: nat)
    requires TimeOrdered(run) && j < a < |run| && j < b < |run|
    requires Authorises(run, j, a) && Authorises(run, j, b)
    ensures a == b
  {
    BulkDeletionNeedsConfirmation(run, a);
    BulkDeletionNeedsConfirmation(run, b);
  }

  /** Running the code over a whole run carries out exactly the deletions the run semantics does. */
  method RunCycles(run: seq<Cycle>) returns (written: seq<bool>)
    requires forall i :: 0 <= i < |run| ==> run[i].at > 0 && (run[i].Proposes? ==> Ascending(run[i].deleted))
    ensures |written| == |run| && forall i :: 0 <= i < |run| ==> (written[i] <==> Carried(run, i))
  {
    var st := new State();
    written := [];
    for i := 0 to |run|
      invariant st.Valid() && st.PendingNow() == PendingAfter(run, i)
      invariant |written| == i && forall k :: 0 <= k < i ==> (written[k] <==> Carried(run, k))
    {
      var w := st.FinishCycle(run[i]);
      written := written + [w];
    }
  }

  /** A deletion has one authorising refusal: between two of them the earlier one still answers for the
      later proposal, which is then no first one. */
  lemma OneOrigin(run: seq<Cycle>, j: nat, k: nat, i: nat)
    requires TimeOrdered(run) && j < i < |run| && k < i
    requires Authorises(run, j, i) && Authorises(run, k, i)
    ensures j == k
  {
    if j < k {
      LaterIsNoFirst(run, j, k, i);
    } else if k < j {
      LaterIsNoFirst(run, k, j, i);
    }
  }

  lemma LaterIsNoFirst(run: seq<Cycle>, j: nat, k: nat, i: nat)
    requires TimeOrdered(run) && j < k < i < |run| && Authorises(run, j, i)
    ensures !Recorded(run, k)
  {
    assert run[k].at <= run[i].at;
    StandingKeepsRecord(run, j, k);
  }
}
