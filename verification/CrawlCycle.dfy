/** internal/crawl/crawl.go: a whole crawl cycle, and what a run of cycles may delete. */
module CrawlCycle {
  import opened Basics
  import BulkPrune
  import opened CorpusMerge
  import opened NameMint
  import opened Retirement
  import opened StringSets
  import Strings

  /** Everything a cycle takes from outside: two reads of the file, the second of which may fail, what discovery found, how each
      recheck answered, the operator's settings and the clock. */
  datatype Input = Input(
    aborted: bool,
    snapshot: seq<Source>,
    discovered: map<Url, Origin>,
    answer: Url -> Answer,
    agedAt: Time,
    prune: bool,
    unreadable: bool,
    reread: seq<Source>,
    adopted: bool,
    curated: set<string>,
    denied: set<Url>,
    valid: Url -> bool,
    hash: Url -> string,
    inline: Option<Source>,
    mergedAt: Time)

  datatype Outcome =
    | Stopped
    | Unchanged
    | HeldBack(deleted: seq<Url>)
    | Written(next: seq<Source>, deleted: seq<Url>)

  // ----- what one cycle learns -----

  function ManagedCount(sources: seq<Source>): nat
  {
    if sources == [] then 0
    else ManagedCount(sources[..|sources| - 1]) + if Owned(sources[|sources| - 1]) then 1 else 0
  }

  /** Every managed URL of the file, in file order. */
  method ManagedUrls(sources: seq<Source>) returns (urls: seq<Url>)
    ensures (set u | u in urls) == Existing(sources).Keys && |urls| == ManagedCount(sources)
  {
    urls := [];
    for i := 0 to |sources|
      invariant (set u | u in urls) == Existing(sources[..i]).Keys && |urls| == ManagedCount(sources[..i])
    {
      assert sources[..i + 1][..i] == sources[..i];
      if sources[i].managed && sources[i].body == "" {
        ghost var before := urls;
        urls := urls + [sources[i].url];
        assert (set u | u in urls) == (set u | u in before) + {sources[i].url};
      }
    }
    assert sources[..|sources|] == sources;
  }

  function RevivedBy(i: Input): set<Url>
  {
    set u | u in Existing(i.snapshot) && u !in i.discovered && Judge(i.answer(u)) == Live
  }

  function LiveIn(i: Input): set<Url>
  {
    i.discovered.Keys + RevivedBy(i)
  }

  function LiveMap(i: Input): (live: map<Url, Origin>)
    ensures live.Keys == LiveIn(i)
  {
    map u | u in LiveIn(i) :: if u in i.discovered then i.discovered[u] else UNKNOWN_ORIGIN
  }

  function UnknownIn(i: Input): set<Url>
  {
    set u | u in Existing(i.snapshot).Keys && u !in i.discovered.Keys && Judge(i.answer(u)) == Undetermined
  }

  /** Nothing discovered, nothing revived, and something was asked. */
  predicate DarkCycle(i: Input)
  {
    LiveIn(i) == {} && Existing(i.snapshot) != map[]
  }

  /** What a cycle saw, as far as the streaks are concerned. */
  datatype Sight = Sight(aborted: bool, dark: bool, seen: Observation)

  function SightOf(i: Input): Sight
  {
    Sight(i.aborted, DarkCycle(i), Observation(i.agedAt, Existing(i.snapshot).Keys, LiveIn(i)))
  }

  /** The file holds no managed source while the state remembers some. */
  predicate LostCorpus(h: History, managed: set<Url>)
  {
    managed == {} && h != map[]
  }

  /** The cycle gets as far as judging the managed set. */
  predicate Rechecks(h: History, s: Sight)
  {
    !s.aborted && !LostCorpus(h, s.seen.managed)
  }

  function HistoryOut(h: History, s: Sight): History
  {
    if Rechecks(h, s) && !s.dark then Aged(h, s.seen.managed, s.seen.live, s.seen.at) else h
  }

  function StaleIn(h: History, s: Sight): set<Url>
  {
    if s.dark then {} else StaleAfter(h, s.seen.managed, s.seen.live, s.seen.at)
  }

  predicate Merges(h: History, i: Input)
  {
    Rechecks(h, SightOf(i)) && !i.unreadable && !LostCorpus(HistoryOut(h, SightOf(i)), Existing(i.reread).Keys)
  }

  /** Why this cycle may delete `u`: a recheck condemned it, or the file's validator refuses its URL. */
  ghost predicate MayDelete(h: History, i: Input, u: Url)
  {
    && u in Existing(i.reread) && u !in i.denied
    && (Condemned(u, Existing(i.snapshot).Keys, i.discovered.Keys, i.answer, StaleIn(h, SightOf(i)), i.prune && !DarkCycle(i))
        || !i.valid(u))
  }

  /** The cycle as the prune floor sees it. */
  function FloorView(i: Input, out: Outcome): BulkPrune.Cycle
  {
    match out
    case Stopped => BulkPrune.Stopped(i.mergedAt)
    case Unchanged => BulkPrune.Unchanged(i.mergedAt)
    case HeldBack(deleted) => BulkPrune.Proposes(i.mergedAt, ManagedCount(i.reread), deleted)
    case Written(_, deleted) => BulkPrune.Proposes(i.mergedAt, ManagedCount(i.reread), deleted)
  }

  predicate Proposing(out: Outcome) { out.HeldBack? || out.Written? }

  // ----- the pieces of the tail -----

  /** Same entries, whatever their order. */
  method SameSources(a: seq<Source>, b: seq<Source>) returns (same: bool)
    ensures same <==> multiset(a) == multiset(b)
  {
    if |a| != |b| {
      assert |multiset(a)| != |multiset(b)|;
      return false;
    }
    var seen: map<Source, int> := map[];
    for i := 0 to |a|
      invariant forall s :: Count(seen, s) == multiset(a[..i])[s]
    {
      assert a[..i + 1] == a[..i] + [a[i]];
      seen := seen[a[i] := Count(seen, a[i]) + 1];
    }
    assert a[..|a|] == a;
    for j := 0 to |b|
      invariant forall s :: Count(seen, s) == multiset(a)[s] as int - multiset(b[..j])[s] as int
    {
      assert b[..j + 1] == b[..j] + [b[j]];
      seen := seen[b[j] := Count(seen, b[j]) - 1];
    }
    assert b[..|b|] == b;
    var todo := seen.Keys;
    while todo != {}
      invariant todo <= seen.Keys
      invariant forall s :: s in seen && s !in todo ==> seen[s] == 0
      decreases todo
    {
      var s :| s in todo;
      if seen[s] != 0 {
        assert Count(seen, s) == multiset(a)[s] as int - multiset(b)[s] as int;
        return false;
      }
      todo := todo - {s};
    }
    same := true;
    forall s ensures multiset(a)[s] == multiset(b)[s] {
      assert Count(seen, s) == 0;
    }
  }

  function Count(seen: map<Source, int>, s: Source): int
  {
    if s in seen then seen[s] else 0
  }

  /** The inline aggregate joins the list unless a hand-added entry holds its name. */
  function WithInline(next: seq<Source>, inline: Option<Source>): seq<Source>
  {
    if inline.Some? && inline.value.name !in Names(next) then next + [inline.value] else next
  }

  lemma InlineKeepsNamesDistinct(next: seq<Source>, inline: Option<Source>)
    ensures DistinctNames(WithInline(next, inline)) <==> DistinctNames(next)
  {
    var all := WithInline(next, inline);
    forall k | 0 <= k < |next| ensures next[k] in next && all[k] == next[k] {
    }
  }

  /** What a cycle writes has distinct names exactly when no bare hash clashes. */
  ghost predicate NamedApart(next: seq<Source>, plan: Plan, sources: seq<Source>, v: Verdicts)
  {
    OriginsValid(v) && DistinctNames(sources) ==>
      (DistinctNames(next) <==> HashesClear(v, Existing(sources), Kept(sources), UrlsOf(plan.managed)))
  }

  lemma WrittenNamedApart(plan: Plan, sources: seq<Source>, curated: set<string>, v: Verdicts, inline: Option<Source>)
    requires IsPlan(plan, sources, curated, v)
    ensures NamedApart(WithInline(plan.next, inline), plan, sources, v)
  {
    hide HashesClear, OriginsValid;
    InlineKeepsNamesDistinct(plan.next, inline);
  }

  /** A written file is settled: merged again on the same verdicts it comes out the same, aggregate and
      all, so an idle cycle writes nothing and a reload is never owed to the merge itself. */
  lemma WrittenFileIsSettled(p: Plan, q: Plan, sources: seq<Source>, curated: set<string>, later: set<string>, v: Verdicts,
                             inline: Option<Source>)
    requires OriginsValid(v) && IsPlan(p, sources, curated, v)
    requires IsPlan(q, WithInline(p.next, inline), later, v)
    requires inline.Some? ==> inline.value.managed && inline.value.body != ""
    ensures WithInline(q.next, inline) == WithInline(p.next, inline) && q.deleted == []
  {
    hide IsPlan, OriginsValid, Kept, Existing;
    if inline.Some? {
      AggregateIsInvisible(p.next, inline.value);
    }
    MergeIsIdempotent(p, q, sources, WithInline(p.next, inline), curated, later, v);
  }

  lemma UnchangedRetains(plan: Plan, sources: seq<Source>, curated: set<string>, v: Verdicts, inline: Option<Source>, u: Url)
    requires IsPlan(plan, sources, curated, v) && multiset(WithInline(plan.next, inline)) == multiset(sources)
    requires (inline.Some? ==> inline.value.body != "") && u in Existing(sources)
    ensures Retained(v, u)
  {
    PartsOf(sources);
    var s := Existing(sources)[u];
    assert s in multiset(sources) && s in WithInline(plan.next, inline);
    assert s in plan.managed && s.url in UrlsOf(plan.managed);
  }

  /** When the merged list is the file again, whatever its order, nothing was deleted on the way. */
  lemma UnchangedDeletesNothing(plan: Plan, sources: seq<Source>, curated: set<string>, v: Verdicts, inline: Option<Source>)
    requires IsPlan(plan, sources, curated, v) && multiset(WithInline(plan.next, inline)) == multiset(sources)
    requires inline.Some? ==> inline.value.body != ""
    ensures plan.deleted == []
  {
    if plan.deleted != [] {
      var u := plan.deleted[0];
      assert u in plan.deleted;
      UnchangedRetains(plan, sources, curated, v, inline, u);
    }
  }

  // ----- one cycle -----

  /** What the merge works from: the live URLs with their origins, and the recheck's verdicts. */
  ghost predicate Informed(v: Verdicts, h: History, i: Input)
  {
    && v.live == LiveMap(i)
    && v.rr.managedURL == Existing(i.snapshot).Keys && v.rr.unknown == UnknownIn(i)
    && v.rr.stale == StaleIn(h, SightOf(i))
    && v.prune == (i.prune && !DarkCycle(i))
    && v.denied == i.denied && v.valid == i.valid && v.hash == i.hash
  }

  lemma Inform(live: map<Url, Origin>, rr: Recheck, h: History, i: Input)
    requires live == LiveMap(i) && rr.managedURL == Existing(i.snapshot).Keys && rr.unknown == UnknownIn(i)
    requires rr.stale == StaleIn(h, SightOf(i))
    ensures Informed(Verdicts(live, rr, i.prune && !DarkCycle(i), i.denied, i.valid, i.hash), h, i)
  {
  }

  lemma DeletedIffMayDelete(v: Verdicts, h: History, i: Input, u: Url)
    requires Informed(v, h, i)
    ensures Deleted(v, Existing(i.reread), u) <==> MayDelete(h, i, u)
  {
    var managed := Existing(i.snapshot).Keys;
    assert LiveIn(i) == i.discovered.Keys + set w | w in managed && w !in i.discovered.Keys && Judge(i.answer(w)) == Live;
    NotRetainedIffCondemned(u, v.rr, v.live.Keys, managed, i.discovered.Keys, i.answer, v.prune);
  }

  lemma NoManagedMeansEmpty(sources: seq<Source>)
    ensures ManagedCount(sources) == 0 <==> Existing(sources) == map[]
  {
    if sources != [] {
      NoManagedMeansEmpty(sources[..|sources| - 1]);
      var s := sources[|sources| - 1];
      if Owned(s) {
        assert s.url in Existing(sources);
      }
    }
  }

  lemma DeletedIsSorted(plan: Plan, i: Input, v: Verdicts)
    requires IsPlan(plan, i.reread, i.curated, v)
    ensures Ascending(plan.deleted)
  {
  }

  class Crawler {
    const liveness: Retirement.State
    const floor: BulkPrune.State

    constructor ()
      ensures fresh(liveness) && fresh(floor)
      ensures liveness.managed == map[] && floor.Valid() && floor.PendingNow() == BulkPrune.Nothing
    {
      liveness := new Retirement.State();
      floor := new BulkPrune.State();
    }

    /** Recheck, darkness test and streaks: everything before the file is read again. */
    method Learn(i: Input) returns (live: map<Url, Origin>, rr: Recheck, dark: bool)
      modifies liveness
      requires Rechecks(liveness.managed, SightOf(i))
      ensures dark == DarkCycle(i) && liveness.managed == HistoryOut(old(liveness.managed), SightOf(i))
      ensures Informed(Verdicts(live, rr, i.prune && !dark, i.denied, i.valid, i.hash), old(liveness.managed), i)
    {
      hide Informed, Existing, RevivedBy, UnknownIn;
      var urls := ManagedUrls(i.snapshot);
      var liveSet;
      rr, liveSet := RecheckManaged(urls, i.discovered.Keys, i.answer);
      assert forall u :: u in urls <==> u in Existing(i.snapshot).Keys;
      LiveSetIsLiveIn(urls, liveSet, rr.unknown, i);
      live := i.discovered + map u | u in liveSet - i.discovered.Keys :: UNKNOWN_ORIGIN;
      assert live == LiveMap(i) && live.Keys == LiveIn(i);
      dark := Dark(rr, |i.discovered|);
      DarkIffNothingLearnt(rr, i);
      ghost var h := liveness.managed;
      if !dark {
        var stale := liveness.AgeManaged(rr.managedURL, live.Keys, i.agedAt);
        assert stale == StaleIn(h, SightOf(i));
        rr := rr.(stale := stale);
      }
      Inform(live, rr, h, i);
    }

    /** A whole cycle, from loading the file to writing it. */
    method RunOnce(i: Input) returns (out: Outcome, ghost plan: Plan, ghost v: Verdicts)
      requires floor.Valid() && i.mergedAt > 0
      modifies liveness, floor
      ensures floor.Valid() && liveness.managed == HistoryOut(old(liveness.managed), SightOf(i))
      ensures out.Stopped? <==> !Merges(old(liveness.managed), i)
      ensures floor.PendingNow() == BulkPrune.After(old(floor.PendingNow()), FloorView(i, out))
      ensures Proposing(out) ==> (out.Written? <==> BulkPrune.Allowed(old(floor.PendingNow()), FloorView(i, out)))
      ensures !out.Stopped? ==> Informed(v, old(liveness.managed), i) && IsPlan(plan, i.reread, i.curated, v)
      ensures out.Unchanged? <==> (Merges(old(liveness.managed), i) && !i.adopted
                                   && multiset(WithInline(plan.next, i.inline)) == multiset(i.reread))
      ensures Proposing(out) ==> out.deleted == plan.deleted
      ensures out.Written? ==> out.next == WithInline(plan.next, i.inline) && NamedApart(out.next, plan, i.reread, v)
    {
      hide IsPlan, Informed, DarkCycle, BulkPrune.Allowed, WithInline, Ascending, NamedApart;
      plan, v := Plan([], [], []), Verdicts(map[], Recheck({}, {}, {}, 0, 0, []), false, {}, i.valid, i.hash);
      var count := ManagedCount(i.snapshot);
      NoManagedMeansEmpty(i.snapshot);
      NoManagedMeansEmpty(i.reread);
      if i.aborted || (count == 0 && liveness.managed != map[]) {
        return Stopped, plan, v;
      }
      ghost var h := liveness.managed;
      var live, rr, dark := Learn(i);
      if i.unreadable {
        return Stopped, plan, v;
      }
      var before := ManagedCount(i.reread);
      if before == 0 && liveness.managed != map[] {
        return Stopped, plan, v;
      }
      var verdicts := Verdicts(live, rr, i.prune && !dark, i.denied, i.valid, i.hash);
      v := verdicts;
      var merged := MergeManaged(i.reread, i.curated, verdicts);
      plan := merged;
      DeletedIsSorted(plan, i, v);
      WrittenNamedApart(plan, i.reread, i.curated, v, i.inline);
      var next := WithInline(merged.next, i.inline);
      var same := SameSources(i.reread, next);
      if !i.adopted && same {
        var _ := floor.ClearBulkPrune();
        return Unchanged, plan, v;
      }
      var allow := floor.AllowShrink(i.mergedAt, before, merged.deleted);
      out := if allow then Written(next, merged.deleted) else HeldBack(merged.deleted);
    }
  }

  lemma LiveSetIsLiveIn(urls: seq<Url>, liveSet: set<Url>, unknown: set<Url>, i: Input)
    requires forall u :: u in urls <==> u in Existing(i.snapshot).Keys
    requires liveSet == i.discovered.Keys + set u | u in urls && u !in i.discovered.Keys && Judge(i.answer(u)) == Live
    requires unknown == set u | u in urls && u !in i.discovered.Keys && Judge(i.answer(u)) == Undetermined
    ensures liveSet == LiveIn(i) && liveSet - i.discovered.Keys == RevivedBy(i)
    ensures unknown == UnknownIn(i)
    ensures (i.discovered + map u | u in liveSet - i.discovered.Keys :: UNKNOWN_ORIGIN) == LiveMap(i)
  {
  }

  lemma DarkIffNothingLearnt(rr: Recheck, i: Input)
    requires rr.checked == 0 <==> Existing(i.snapshot).Keys <= i.discovered.Keys
    requires rr.revived == |RevivedBy(i)|
    ensures Dark(rr, |i.discovered|) <==> DarkCycle(i)
  {
    if |i.discovered| == 0 {
      assert i.discovered == map[];
      if Existing(i.snapshot) != map[] {
        var u :| u in Existing(i.snapshot);
        assert u !in i.discovered.Keys;
      }
    }
  }

  // ----- whole runs -----

  /** What the first `n` cycles left in the streaks. */
  ghost function HistoryAt(run: seq<Sight>, n: nat): History
    requires n <= |run|
  {
    if n == 0 then map[] else HistoryOut(HistoryAt(run, n - 1), run[n - 1])
  }

  /** The cycles among the first `n` that observed anything: those that rechecked and were not dark. */
  ghost function Observed(run: seq<Sight>, n: nat): seq<Observation>
    requires n <= |run|
  {
    if n == 0 then []
    else
      var s, before := run[n - 1], Observed(run, n - 1);
      if Rechecks(HistoryAt(run, n - 1), s) && !s.dark then before + [s.seen] else before
  }

  lemma {:induction false} HistoryIsObserved(run: seq<Sight>, n: nat)
    requires n <= |run|
    ensures HistoryAt(run, n) == HistoryAfter(Observed(run, n))
  {
    if n > 0 {
      HistoryIsObserved(run, n - 1);
      var before, obs := Observed(run, n - 1), Observed(run, n);
      if obs != before {
        assert obs[..|obs| - 1] == before;
      }
    }
  }

  ghost predicate SightsClocked(run: seq<Sight>)
  {
    && (forall k :: 0 <= k < |run| ==> 0 < run[k].seen.at)
    && (forall j, k :: 0 <= j < k < |run| ==> run[j].seen.at <= run[k].seen.at)
  }

  lemma ClockedOneMore(run: seq<Observation>, o: Observation)
    requires Clocked(run) && 0 < o.at && forall p :: p in run ==> p.at <= o.at
    ensures Clocked(run + [o])
  {
    assert forall i :: 0 <= i < |run| ==> run[i] in run;
  }

  lemma NothingClocked()
    ensures Clocked([])
  {
  }

  lemma {:induction false} ObservedIsClocked(run: seq<Sight>, n: nat)
    requires SightsClocked(run) && n <= |run|
    ensures Clocked(Observed(run, n))
    ensures forall o :: o in Observed(run, n) ==> exists k :: 0 <= k < n && o == run[k].seen
  {
    if n > 0 {
      hide Rechecks, HistoryAt, Clocked;
      ObservedIsClocked(run, n - 1);
      forall o | o in Observed(run, n - 1) ensures o.at <= run[n - 1].seen.at {
        var k :| 0 <= k < n - 1 && o == run[k].seen;
      }
      ClockedOneMore(Observed(run, n - 1), run[n - 1].seen);
    } else {
      NothingClocked();
    }
  }

  function Sights(run: seq<Input>): (sights: seq<Sight>)
    ensures |sights| == |run| && forall k :: 0 <= k < |run| ==> sights[k] == SightOf(run[k])
  {
    seq(|run|, k requires 0 <= k < |run| => SightOf(run[k]))
  }

  ghost predicate ClockRuns(run: seq<Input>)
  {
    && (forall k :: 0 <= k < |run| ==> 0 < run[k].agedAt <= run[k].mergedAt)
    && (forall j, k :: 0 <= j < k < |run| ==> run[j].mergedAt <= run[k].agedAt)
  }

  /** Every one of the last six or more observing cycles, over a day or longer and up to this one, missed `u`. */
  ghost predicate WindowRunOut(run: seq<Sight>, k: nat, u: Url)
    requires k < |run|
  {
    var obs := Observed(run, k + 1);
    var n := Trailing(obs, u);
    n >= 6 && run[k].seen.at >= obs[|obs| - n].at + 24 * 3600
  }

  /** Proof enough that `u` is gone: asked and dead, or asked, undetermined and out of time. */
  predicate Proven(i: Input, u: Url, ranOut: bool)
  {
    u in Existing(i.snapshot) && u !in i.discovered
    && (Judge(i.answer(u)) == Dead || (Judge(i.answer(u)) == Undetermined && ranOut))
  }

  predicate JustifiedBy(i: Input, u: Url, ranOut: bool)
  {
    u in Existing(i.reread) && u !in i.denied
    && ((i.prune && !DarkCycle(i) && Proven(i, u, ranOut)) || !i.valid(u))
  }

  /** What justifies deleting `u` in cycle `k`. */
  ghost predicate Justified(run: seq<Input>, k: nat, u: Url)
    requires k < |run|
  {
    JustifiedBy(run[k], u, WindowRunOut(Sights(run), k, u))
  }

  lemma MayDeleteIsJustifiedBy(h: History, i: Input, u: Url)
    ensures MayDelete(h, i, u) <==> JustifiedBy(i, u, u in StaleIn(h, SightOf(i)))
  {
  }

  /** The window of one observing cycle, in terms of the run. */
  lemma StaleIffLong(run: seq<Sight>, k: nat, u: Url)
    requires k < |run| && Clocked(Observed(run, k + 1)) && Rechecks(HistoryAt(run, k), run[k]) && !run[k].dark
    ensures u in StaleIn(HistoryAt(run, k), run[k]) <==> WindowRunOut(run, k, u)
  {
    var obs := Observed(run, k + 1);
    assert obs[..|obs| - 1] == Observed(run, k);
    HistoryIsObserved(run, k);
    RetiredExactlyAfterWindow(obs, u);
  }

  lemma SightsAreClocked(run: seq<Input>)
    requires ClockRuns(run)
    ensures SightsClocked(Sights(run))
  {
  }

  lemma MayDeleteIffJustified(run: seq<Input>, k: nat, u: Url)
    requires ClockRuns(run) && k < |run| && Rechecks(HistoryAt(Sights(run), k), SightOf(run[k]))
    ensures MayDelete(HistoryAt(Sights(run), k), run[k], u) <==> Justified(run, k, u)
  {
    hide MayDelete, Existing, LiveIn, ClockRuns, SightsClocked, Clocked, HistoryAt, WindowRunOut;
    MayDeleteIsJustifiedBy(HistoryAt(Sights(run), k), run[k], u);
    if !DarkCycle(run[k]) {
      SightsAreClocked(run);
      ObservedIsClocked(Sights(run), k + 1);
      StaleIffLong(Sights(run), k, u);
    }
  }

  ghost predicate DeletesJustified(run: seq<Input>, k: nat, out: Outcome)
    requires k < |run|
  {
    Proposing(out) ==> Ascending(out.deleted) && forall u :: u in out.deleted <==> Justified(run, k, u)
  }

  /** A large drop is written exactly when an earlier refusal authorises it, any other always. */
  ghost predicate Confirmed(views: seq<BulkPrune.Cycle>, k: nat, out: Outcome)
    requires k < |views|
  {
    Proposing(out) ==>
      (out.Written? <==> !BulkPrune.LargeDrop(views[k]) || exists j :: 0 <= j < k && BulkPrune.Authorises(views, j, k))
  }

  /** The outcomes so far agree with the prune floor's own account of the run. */
  ghost predicate Agrees(run: seq<Input>, outs: seq<Outcome>, views: seq<BulkPrune.Cycle>)
    requires |views| == |outs| <= |run|
  {
    && (forall m :: 0 <= m < |outs| ==> DeletesJustified(run, m, outs[m]))
    && (forall m :: 0 <= m < |outs| ==> views[m] == FloorView(run[m], outs[m]))
    && (forall m :: 0 <= m < |outs| && Proposing(outs[m]) ==> (outs[m].Written? <==> BulkPrune.Carried(views, m)))
  }

  // ----- the same in terms of what the run was given -----

  /** `u` is a managed entry of the file: marked, and no inline body. */
  ghost predicate InFile(sources: seq<Source>, u: Url)
  {
    exists s :: s in sources && s.managed && s.body == "" && s.url == u
  }

  /** Nothing was discovered, and of the managed URLs, of which there are some, none serves a node. */
  ghost predicate SawNothing(i: Input)
  {
    && i.discovered == map[] && (exists u :: InFile(i.snapshot, u))
    && forall u :: InFile(i.snapshot, u) ==> !SaysLive(i.answer(u))
  }

  /** The cycle's answers are evidence: it ran through, over a managed corpus, and saw something live. */
  ghost predicate Observes(i: Input)
  {
    !i.aborted && (exists u :: InFile(i.snapshot, u)) && !SawNothing(i)
  }

  /** `u` was managed, and neither discovered nor serving a node when asked. */
  ghost predicate Misses(i: Input, u: Url)
  {
    InFile(i.snapshot, u) && u !in i.discovered && !SaysLive(i.answer(u))
  }

  /** Every observing cycle from `first` to `k` missed `u`: six of them at least, and over a day. */
  ghost predicate MissedSince(run: seq<Input>, first: nat, k: nat, u: Url)
    requires first <= k < |run|
  {
    && Observes(run[first]) && run[k].agedAt >= run[first].agedAt + 24 * 3600
    && (forall j :: first <= j <= k && Observes(run[j]) ==> Misses(run[j], u))
    && |set j: nat | first <= j <= k && Observes(run[j])| >= 6
  }

  ghost predicate LongMissed(run: seq<Input>, k: nat, u: Url)
    requires k < |run|
  {
    exists first: nat :: first <= k && MissedSince(run, first, k, u)
  }

  /** What cycle `k` may delete: a managed URL of the file that is not denied, and either the validator
      refuses it, or pruning is on, the cycle saw something live, and `u` is proven gone or long missed. */
  ghost predicate MayGo(run: seq<Input>, k: nat, u: Url)
    requires k < |run|
  {
    && InFile(run[k].reread, u) && u !in run[k].denied
    && (!run[k].valid(u)
        || (run[k].prune && !SawNothing(run[k]) && InFile(run[k].snapshot, u) && u !in run[k].discovered
            && (SaysGone(run[k].answer(u)) || (!SaysLive(run[k].answer(u)) && LongMissed(run, k, u)))))
  }

  /** Some earlier cycle left a managed corpus in the state. */
  ghost predicate Remembers(run: seq<Input>, n: nat)
    requires n <= |run|
  {
    exists j :: 0 <= j < n && Observes(run[j])
  }

  /** Why a cycle stops without merging. */
  ghost predicate MustStop(run: seq<Input>, k: nat)
    requires k < |run|
  {
    || run[k].aborted || run[k].unreadable
    || (Remembers(run, k) && forall u :: !InFile(run[k].snapshot, u))
    || (Remembers(run, k + 1) && forall u :: !InFile(run[k].reread, u))
  }

  lemma {:induction false} InFileIsExisting(sources: seq<Source>, u: Url)
    ensures u in Existing(sources) <==> InFile(sources, u)
  {
    if sources != [] {
      var front, s := sources[..|sources| - 1], sources[|sources| - 1];
      InFileIsExisting(front, u);
      assert forall t :: t in sources <==> t in front || t == s;
    }
  }

  lemma NoneInFile(sources: seq<Source>)
    ensures Existing(sources) == map[] <==> forall u :: !InFile(sources, u)
  {
    forall u ensures u in Existing(sources) <==> InFile(sources, u) { InFileIsExisting(sources, u); }
    if Existing(sources) != map[] {
      var u :| u in Existing(sources);
    }
  }

  lemma DarkSawNothing(i: Input)
    ensures DarkCycle(i) <==> SawNothing(i)
  {
    hide Existing;
    NoneInFile(i.snapshot);
    forall u ensures u in Existing(i.snapshot) <==> InFile(i.snapshot, u)
             ensures Judge(i.answer(u)) == Live <==> SaysLive(i.answer(u))
    {
      InFileIsExisting(i.snapshot, u);
      JudgeIsProof(i.answer(u));
    }
    if LiveIn(i) == {} {
      assert i.discovered.Keys == {};
      assert RevivedBy(i) == {};
      forall u | InFile(i.snapshot, u) ensures !SaysLive(i.answer(u)) {
        assert u !in RevivedBy(i);
      }
    }
    if SawNothing(i) {
      assert RevivedBy(i) == {} && LiveIn(i) == {};
    }
  }

  lemma MissedIsMisses(i: Input, u: Url)
    ensures MissedAt(SightOf(i).seen, u) <==> Misses(i, u)
  {
    InFileIsExisting(i.snapshot, u);
    JudgeIsProof(i.answer(u));
  }

  /** An observing cycle, in the terms of the streaks. */
  lemma ObservesIsRecheck(i: Input, h: History)
    ensures h != map[] || Existing(i.snapshot) != map[] ==> (Observes(i) <==> Rechecks(h, SightOf(i)) && !SightOf(i).dark)
    ensures Observes(i) ==> Rechecks(h, SightOf(i)) && !SightOf(i).dark && HistoryOut(h, SightOf(i)) != map[]
    ensures !Observes(i) ==> HistoryOut(h, SightOf(i)) == h || (h == map[] && HistoryOut(h, SightOf(i)) == map[])
  {
    hide Existing, LiveIn;
    NoneInFile(i.snapshot);
    DarkSawNothing(i);
    if Existing(i.snapshot) != map[] {
      var u :| u in Existing(i.snapshot);
      assert u in Aged(h, Existing(i.snapshot).Keys, LiveIn(i), i.agedAt);
    } else {
      assert Aged(h, {}, LiveIn(i), i.agedAt) == map[];
    }
  }

  lemma {:induction false} HistoryRemembers(run: seq<Input>, n: nat)
    requires n <= |run|
    ensures HistoryAt(Sights(run), n) != map[] <==> Remembers(run, n)
  {
    hide *;
    if n > 0 {
      HistoryRemembers(run, n - 1);
      ObservesIsRecheck(run[n - 1], HistoryAt(Sights(run), n - 1));
      HistoryStep(run, n - 1);
      RemembersStep(run, n - 1);
    } else {
      NothingRemembered(run);
    }
  }

  lemma RemembersStep(run: seq<Input>, k: nat)
    requires k < |run|
    ensures Remembers(run, k + 1) <==> Remembers(run, k) || Observes(run[k])
  {
    hide Observes;
  }

  lemma NothingRemembered(run: seq<Input>)
    ensures HistoryAt(Sights(run), 0) == map[] && !Remembers(run, 0)
  {
  }

  /** The observing cycles among `first`..`n - 1`, in order. */
  ghost function Since(run: seq<Input>, first: nat, n: nat): (idx: seq<nat>)
    requires first <= n <= |run|
    ensures forall p :: 0 <= p < |idx| ==> first <= idx[p] < n && Observes(run[idx[p]])
    ensures forall p, q :: 0 <= p < q < |idx| ==> idx[p] < idx[q]
    ensures forall j :: first <= j < n && Observes(run[j]) ==> j in idx
    decreases n
  {
    if n == first then []
    else Since(run, first, n - 1) + if Observes(run[n - 1]) then [n - 1] else []
  }

  lemma {:induction false} SinceIsSet(idx: seq<nat>, all: set<nat>)
    requires forall p, q :: 0 <= p < q < |idx| ==> idx[p] < idx[q]
    requires forall j :: j in idx <==> j in all
    ensures |idx| == |all|
  {
    if idx == [] {
      assert all == {};
    } else {
      var n := |idx| - 1;
      assert idx == idx[..n] + [idx[n]];
      forall j ensures j in idx[..n] <==> j in all - {idx[n]} {
        if j in idx[..n] {
          var p :| 0 <= p < n && idx[p] == j;
        }
      }
      SinceIsSet(idx[..n], all - {idx[n]});
    }
  }

  ghost function SeenOf(run: seq<Input>, idx: seq<nat>): (seen: seq<Observation>)
    requires forall p :: 0 <= p < |idx| ==> idx[p] < |run|
    ensures |seen| == |idx| && forall p :: 0 <= p < |idx| ==> seen[p] == SightOf(run[idx[p]]).seen
  {
    seq(|idx|, p requires 0 <= p < |idx| => SightOf(run[idx[p]]).seen)
  }

  lemma ObservedStep(run: seq<Input>, k: nat)
    requires k < |run|
    ensures Observed(Sights(run), k + 1) == Observed(Sights(run), k) +
            if Rechecks(HistoryAt(Sights(run), k), SightOf(run[k])) && !SightOf(run[k]).dark then [SightOf(run[k]).seen] else []
  {
    hide Rechecks, SightOf, HistoryAt;
  }

  lemma SinceStep(run: seq<Input>, first: nat, k: nat)
    requires first <= k < |run|
    ensures Since(run, first, first) == []
    ensures Since(run, first, k + 1) == Since(run, first, k) + if Observes(run[k]) then [k] else []
  {
    hide Observes;
  }

  lemma SeenAppend(run: seq<Input>, idx: seq<nat>, k: nat)
    requires (forall p :: 0 <= p < |idx| ==> idx[p] < |run|) && k < |run|
    ensures SeenOf(run, idx + [k]) == SeenOf(run, idx) + [SightOf(run[k]).seen]
    ensures SeenOf(run, []) == [] && idx + [] == idx
  {
    hide SightOf;
  }

  lemma Regroup(a: seq<Observation>, b: seq<Observation>, c: seq<Observation>)
    ensures (a + b) + c == a + (b + c) && a + [] == a && [] + c == c
  {
  }

  /** From an observing cycle on, exactly the observing cycles are observed. */
  lemma {:induction false} ObservedSince(run: seq<Input>, first: nat, n: nat)
    requires first < n <= |run| && Observes(run[first])
    ensures Observed(Sights(run), n) == Observed(Sights(run), first) + SeenOf(run, Since(run, first, n))
    ensures HistoryAt(Sights(run), n) != map[]
    decreases n
  {
    hide *;
    var k, h := n - 1, HistoryAt(Sights(run), n - 1);
    var before, idx := Observed(Sights(run), first), Since(run, first, k);
    if k > first {
      ObservedSince(run, first, k);
    }
    ObservesIsRecheck(run[k], h);
    HistoryStep(run, k);
    ObservedStep(run, k);
    SinceStep(run, first, k);
    SeenAppend(run, idx, k);
    Regroup(before, SeenOf(run, idx), [SightOf(run[k]).seen]);
  }

  /** Every observation was made by an observing cycle, on top of those before it. */
  lemma {:induction false} ObservedAt(run: seq<Input>, n: nat, p: nat) returns (j: nat)
    requires n <= |run| && p < |Observed(Sights(run), n)|
    ensures j < n && Observed(Sights(run), j) == Observed(Sights(run), n)[..p]
    ensures Observed(Sights(run), n)[p] == SightOf(run[j]).seen && Rechecks(HistoryAt(Sights(run), j), SightOf(run[j]))
    ensures !SightOf(run[j]).dark
  {
    hide Rechecks, SightOf, HistoryAt;
    var sights := Sights(run);
    if p < |Observed(sights, n - 1)| {
      j := ObservedAt(run, n - 1, p);
      assert Observed(sights, n)[..p] == Observed(sights, n - 1)[..p];
    } else {
      j := n - 1;
      assert Observed(sights, n)[..p] == Observed(sights, n - 1);
    }
  }

  /** A tail of misses is part of the trailing run, which started no later. */
  lemma TailIsTrailing(before: seq<Observation>, tail: seq<Observation>, u: Url)
    requires tail != [] && Clocked(before + tail) && forall p :: 0 <= p < |tail| ==> MissedAt(tail[p], u)
    ensures var obs := before + tail;
            var n := Trailing(obs, u);
            n >= |tail| && obs[|obs| - n].at <= tail[0].at
  {
    var obs := before + tail;
    var n := Trailing(obs, u);
    forall p | |before| <= p < |obs| ensures MissedAt(obs[p], u) {
      assert obs[p] == tail[p - |before|];
    }
    assert obs[|before|] == tail[0];
  }

  lemma AllMissed(run: seq<Input>, idx: seq<nat>, u: Url)
    requires forall p :: 0 <= p < |idx| ==> idx[p] < |run| && Misses(run[idx[p]], u)
    ensures forall p :: 0 <= p < |idx| ==> MissedAt(SeenOf(run, idx)[p], u)
  {
    hide SightOf, Misses;
    forall p | 0 <= p < |idx| ensures MissedAt(SeenOf(run, idx)[p], u) {
      MissedIsMisses(run[idx[p]], u);
    }
  }

  /** The observing cycles from an observing one on: it comes first, and they are counted. */
  lemma SinceFacts(run: seq<Input>, first: nat, k: nat)
    requires first <= k < |run| && Observes(run[first])
    ensures var idx := Since(run, first, k + 1);
            |idx| == |set j: nat | first <= j <= k && Observes(run[j])| > 0 && idx[0] == first
  {
    hide Observes;
    var idx := Since(run, first, k + 1);
    SinceIsSet(idx, set j: nat | first <= j <= k && Observes(run[j]));
    assert first in idx;
  }

  lemma ClockedRun(run: seq<Input>, n: nat)
    requires ClockRuns(run) && n <= |run|
    ensures Clocked(Observed(Sights(run), n))
  {
    SightsAreClocked(run);
    ObservedIsClocked(Sights(run), n);
  }

  lemma RanOutMeans(run: seq<Input>, k: nat, u: Url)
    requires k < |run|
    ensures var obs := Observed(Sights(run), k + 1);
            var n := Trailing(obs, u);
            WindowRunOut(Sights(run), k, u) <==> n >= 6 && run[k].agedAt >= obs[|obs| - n].at + 24 * 3600
  {
    hide Trailing, Observed;
  }

  /** The misses of a window, by the list of its observing cycles. */
  ghost predicate MissedThrough(run: seq<Input>, idx: seq<nat>, u: Url)
  {
    forall p :: 0 <= p < |idx| ==> idx[p] < |run| && Misses(run[idx[p]], u)
  }

  lemma MissedSinceIs(run: seq<Input>, first: nat, k: nat, u: Url)
    requires first <= k < |run| && Observes(run[first])
    ensures var idx := Since(run, first, k + 1);
            MissedSince(run, first, k, u) <==>
              run[k].agedAt >= run[first].agedAt + 24 * 3600 && MissedThrough(run, idx, u) && |idx| >= 6
  {
    hide Observes, Misses;
    SinceFacts(run, first, k);
    var idx := Since(run, first, k + 1);
    assert forall j :: first <= j <= k && Observes(run[j]) <==> j in idx;
  }

  lemma MissedSinceObserves(run: seq<Input>, first: nat, k: nat, u: Url)
    requires first <= k < |run| && MissedSince(run, first, k, u)
    ensures Observes(run[first])
  {
  }

  lemma LongMissedRanOut(run: seq<Input>, first: nat, k: nat, u: Url)
    requires ClockRuns(run) && first <= k < |run| && MissedSince(run, first, k, u)
    ensures WindowRunOut(Sights(run), k, u)
  {
    hide *;
    MissedSinceObserves(run, first, k, u);
    MissedSinceIs(run, first, k, u);
    var idx := Since(run, first, k + 1);
    SinceFacts(run, first, k);
    ObservedSince(run, first, k + 1);
    ThroughIsAll(run, idx, u);
    ClockedRun(run, k + 1);
    TailIsTrailing(Observed(Sights(run), first), SeenOf(run, idx), u);
    SightTimes(run[first], run[k]);
    RanOutMeans(run, k, u);
  }

  lemma ThroughIsAll(run: seq<Input>, idx: seq<nat>, u: Url)
    requires MissedThrough(run, idx, u)
    ensures (forall p :: 0 <= p < |idx| ==> idx[p] < |run|) && forall p :: 0 <= p < |idx| ==> MissedAt(SeenOf(run, idx)[p], u)
  {
    AllMissed(run, idx, u);
  }

  lemma SightTimes(a: Input, b: Input)
    ensures SightOf(a).seen.at == a.agedAt && SightOf(b).seen.at == b.agedAt
  {
  }

  lemma RanOutIsLongMissed(run: seq<Input>, k: nat, u: Url) returns (first: nat)
    requires ClockRuns(run) && k < |run| && WindowRunOut(Sights(run), k, u)
    ensures first <= k && MissedSince(run, first, k, u)
  {
    hide *;
    RanOutMeans(run, k, u);
    var obs := Observed(Sights(run), k + 1);
    var n := Trailing(obs, u);
    first := ObservedAt(run, k + 1, |obs| - n);
    MissedIsMisses(run[first], u);
    MissedObserves(run[first], HistoryAt(Sights(run), first), u);
    ObservedSince(run, first, k + 1);
    SinceFacts(run, first, k);
    SightTimes(run[first], run[k]);
    var idx := Since(run, first, k + 1);
    TailIsMissed(run, obs, |obs| - n, idx, u);
    MissedSinceIs(run, first, k, u);
  }

  lemma TailIsMissed(run: seq<Input>, obs: seq<Observation>, m: nat, idx: seq<nat>, u: Url)
    requires m <= |obs| && (forall p :: 0 <= p < |idx| ==> idx[p] < |run|) && obs == obs[..m] + SeenOf(run, idx)
    requires forall p :: m <= p < |obs| ==> MissedAt(obs[p], u)
    ensures |idx| == |obs| - m && MissedThrough(run, idx, u)
  {
    hide SightOf, MissedAt, Misses;
    forall p | 0 <= p < |idx| ensures Misses(run[idx[p]], u) {
      assert obs[m + p] == SeenOf(run, idx)[p];
      MissedIsMisses(run[idx[p]], u);
    }
  }

  lemma MissedObserves(i: Input, h: History, u: Url)
    requires Misses(i, u) && Rechecks(h, SightOf(i)) && !SightOf(i).dark
    ensures Observes(i)
  {
    hide Misses;
    InFileIsExisting(i.snapshot, u);
    assert InFile(i.snapshot, u) by { MissesMeans(i, u); }
    ObservesIsRecheck(i, h);
  }

  lemma MissesMeans(i: Input, u: Url)
    requires Misses(i, u)
    ensures InFile(i.snapshot, u)
  {
  }

  /** What justifies a deletion is exactly what may go. */
  lemma JustifiedMayGo(run: seq<Input>, k: nat, u: Url)
    requires ClockRuns(run) && k < |run|
    ensures Justified(run, k, u) <==> MayGo(run, k, u)
  {
    hide WindowRunOut, SightOf, Existing, LiveIn, DarkCycle, SawNothing, ClockRuns, LongMissed;
    InFileIsExisting(run[k].reread, u);
    InFileIsExisting(run[k].snapshot, u);
    JudgeIsProof(run[k].answer(u));
    DarkSawNothing(run[k]);
    if WindowRunOut(Sights(run), k, u) {
      var first := RanOutIsLongMissed(run, k, u);
      LongMissedFrom(run, first, k, u);
    }
    if LongMissed(run, k, u) {
      var first := FirstMissed(run, k, u);
      LongMissedRanOut(run, first, k, u);
    }
  }

  lemma LongMissedFrom(run: seq<Input>, first: nat, k: nat, u: Url)
    requires first <= k < |run| && MissedSince(run, first, k, u)
    ensures LongMissed(run, k, u)
  {
  }

  lemma FirstMissed(run: seq<Input>, k: nat, u: Url) returns (first: nat)
    requires k < |run| && LongMissed(run, k, u)
    ensures first <= k && MissedSince(run, first, k, u)
  {
    hide MissedSince;
    first :| first <= k && MissedSince(run, first, k, u);
  }

  /** A cycle merges exactly when nothing makes it stop. */
  lemma MergesUnlessMustStop(run: seq<Input>, k: nat)
    requires k < |run|
    ensures Merges(HistoryAt(Sights(run), k), run[k]) <==> !MustStop(run, k)
  {
    hide Existing, SightOf, HistoryOut, HistoryAt;
    HistoryRemembers(run, k);
    HistoryRemembers(run, k + 1);
    HistoryStep(run, k);
    NoneInFile(run[k].snapshot);
    NoneInFile(run[k].reread);
    RechecksMeans(HistoryAt(Sights(run), k), run[k]);
    assert Existing(run[k].reread).Keys == {} <==> Existing(run[k].reread) == map[];
  }

  lemma RechecksMeans(h: History, i: Input)
    ensures Rechecks(h, SightOf(i)) <==> !i.aborted && !(Existing(i.snapshot) == map[] && h != map[])
  {
  }

  /** Discovered, or managed and serving a node when asked. */
  ghost predicate SeenLive(i: Input, u: Url)
  {
    u in i.discovered || (InFile(i.snapshot, u) && SaysLive(i.answer(u)))
  }

  /** Which managed entries the written file has: those of the file that may not go, and what was seen
      live and is nobody's hand-added entry; nothing denied, nothing the validator refuses. */
  ghost predicate Stays(run: seq<Input>, k: nat, u: Url)
    requires k < |run|
  {
    && u !in run[k].denied && run[k].valid(u)
    && if InFile(run[k].reread, u) then !MayGo(run, k, u)
       else SeenLive(run[k], u) && (u == "" || forall s :: s in run[k].reread && !s.managed ==> s.url != u)
  }

  /** The written file: every hand-added entry, the managed entries that stay, each as the file has it,
      and the inline aggregate unless its name is taken. */
  ghost predicate NextIsRight(run: seq<Input>, k: nat, next: seq<Source>)
    requires k < |run|
  {
    var i := run[k];
    && (forall s :: s in i.reread && !s.managed ==> s in next)
    && (forall s :: s in next ==>
          (s in i.reread && !s.managed) || i.inline == Some(s) || OwesToFile(i.reread, i.discovered, s))
    && ((i.inline.Some? ==> i.inline.value.body != "") ==> forall u :: InFile(next, u) <==> Stays(run, k, u))
    && (i.inline.Some? ==> exists s :: s in next && s.name == i.inline.value.name)
  }

  /** Nobody among `s` is called `name`. */
  ghost predicate NameIsFree(s: seq<Source>, name: string)
  {
    forall e :: e in s ==> e.name != name
  }

  /** How the written file is laid out: the hand-added entries as they stood, then the managed ones by
      name and each URL once, then the inline aggregate. */
  ghost predicate IsLaidOut(i: Input, managed: seq<Source>, next: seq<Source>)
  {
    && next == Kept(i.reread) + managed
               + (if i.inline.Some? && NameIsFree(Kept(i.reread) + managed, i.inline.value.name) then [i.inline.value] else [])
    && UrlsDistinct(managed)
    && forall a, b :: 0 <= a < b < |managed| ==> Strings.Leq(managed[a].name, managed[b].name)
  }

  /** The file cycle `k` should leave. */
  ghost predicate Correct(run: seq<Input>, k: nat, next: seq<Source>)
    requires k < |run|
  {
    NextIsRight(run, k, next) && exists managed :: IsLaidOut(run[k], managed, next)
  }

  /** A written file is the correct one and differs from what was there, or the names were adopted; an
      unchanged one already holds the entries of the correct one. */
  ghost predicate LeavesCorrect(run: seq<Input>, k: nat, out: Outcome)
    requires k < |run|
  {
    match out
    case Written(next, _) =>
      Correct(run, k, next) && (run[k].adopted || multiset(next) != multiset(run[k].reread))
    case Unchanged =>
      !run[k].adopted && exists next :: Correct(run, k, next) && multiset(next) == multiset(run[k].reread)
    case _ => true
  }

  /** The managed entries of a file, by position. */
  ghost function ManagedEntries(sources: seq<Source>): set<nat>
  {
    set m: nat | m < |sources| && sources[m].managed && sources[m].body == ""
  }

  lemma {:induction false} CountIsManaged(sources: seq<Source>)
    ensures ManagedCount(sources) == |ManagedEntries(sources)|
  {
    if sources != [] {
      var n := |sources| - 1;
      CountIsManaged(sources[..n]);
      assert ManagedEntries(sources) == ManagedEntries(sources[..n]) + if Owned(sources[n]) then {n} else {};
    }
  }

  /** What the prune floor sees of a cycle: what would be deleted, of how many managed entries. */
  ghost predicate SeenAs(i: Input, out: Outcome, view: BulkPrune.Cycle)
  {
    match out
    case Stopped => view == BulkPrune.Stopped(i.mergedAt)
    case Unchanged => view == BulkPrune.Unchanged(i.mergedAt)
    case HeldBack(deleted) => view == BulkPrune.Proposes(i.mergedAt, |ManagedEntries(i.reread)|, deleted)
    case Written(_, deleted) => view == BulkPrune.Proposes(i.mergedAt, |ManagedEntries(i.reread)|, deleted)
  }

  lemma {:induction false} KeptAreHandAdded(sources: seq<Source>)
    ensures forall s :: s in Kept(sources) <==> s in sources && !s.managed
  {
    ShelteredAreKept(sources);
  }

  lemma PlanUrls(plan: Plan, i: Input, v: Verdicts, u: Url)
    requires IsPlan(plan, i.reread, i.curated, v)
    ensures u in UrlsOf(plan.managed) <==> u in Candidates(i.reread, v) && Retained(v, u)
    ensures plan.next == Kept(i.reread) + plan.managed
  {
    hide Candidates, Retained, Kept, IsSortedMint, HashesClear, OriginsValid;
  }

  lemma StaysIffRetained(run: seq<Input>, k: nat, v: Verdicts, u: Url)
    requires ClockRuns(run) && k < |run| && Merges(HistoryAt(Sights(run), k), run[k])
    requires Informed(v, HistoryAt(Sights(run), k), run[k])
    ensures u in Candidates(run[k].reread, v) && Retained(v, u) <==> Stays(run, k, u)
  {
    hide MayGo, MayDelete, HistoryAt, ClockRuns, Justified, Existing, Merges, RevivedBy, SightOf;
    var i := run[k];
    InFileIsExisting(i.reread, u);
    if u in Existing(i.reread) {
      DeletedIffMayDelete(v, HistoryAt(Sights(run), k), i, u);
      RechecksWhenMerges(HistoryAt(Sights(run), k), i);
      MayDeleteIffJustified(run, k, u);
      JustifiedMayGo(run, k, u);
    } else {
      SeenLiveIsLive(i, u);
      LiveOrNotRetained(v, i, u);
      ShelteredMeans(i.reread, u);
    }
  }

  lemma RechecksWhenMerges(h: History, i: Input)
    requires Merges(h, i)
    ensures Rechecks(h, SightOf(i))
  {
  }

  lemma SeenLiveIsLive(i: Input, u: Url)
    ensures u in LiveIn(i) <==> SeenLive(i, u)
  {
    InFileIsExisting(i.snapshot, u);
    JudgeIsProof(i.answer(u));
  }

  lemma LiveOrNotRetained(v: Verdicts, i: Input, u: Url)
    requires v.live == LiveMap(i)
    ensures u in v.live <==> u in LiveIn(i)
    ensures u in v.live ==> RetainManaged(u, v.live.Keys, v.rr, v.prune)
  {
  }

  lemma ShelteredMeans(sources: seq<Source>, u: Url)
    ensures u in ShelteredUrls(sources) <==> u != "" && exists s :: s in sources && !s.managed && s.url == u
  {
  }

  lemma OwesAlike(sources: seq<Source>, few: map<Url, Origin>, many: map<Url, Origin>, s: Source)
    requires OwesToFile(sources, many, s) && forall u :: u in few ==> u in many && many[u] == few[u]
    ensures OwesToFile(sources, few, s)
  {
    hide Current;
  }

  lemma OwesIsOwned(sources: seq<Source>, live: map<Url, Origin>, s: Source)
    requires OwesToFile(sources, live, s)
    ensures s.managed && s.body == ""
  {
  }

  lemma WrittenIsRight(run: seq<Input>, k: nat, plan: Plan, v: Verdicts)
    requires ClockRuns(run) && k < |run| && Merges(HistoryAt(Sights(run), k), run[k])
    requires Informed(v, HistoryAt(Sights(run), k), run[k]) && IsPlan(plan, run[k].reread, run[k].curated, v)
    ensures NextIsRight(run, k, WithInline(plan.next, run[k].inline))
  {
    hide MayGo, HistoryAt, ClockRuns, Merges, Informed, IsPlan, Candidates, Retained, OwesToFile, Stays, InFile, Kept;
    var i, next := run[k], WithInline(plan.next, run[k].inline);
    PlanUrls(plan, i, v, "");
    KeptAreHandAdded(i.reread);
    PlanOwesToFile(plan, i.reread, i.curated, v);
    LiveIsDiscovered(v, HistoryAt(Sights(run), k), i);
    forall s | s in plan.managed ensures OwesToFile(i.reread, i.discovered, s) && s.managed && s.body == "" {
      OwesAlike(i.reread, i.discovered, v.live, s);
      OwesIsOwned(i.reread, v.live, s);
    }
    if i.inline.Some? ==> i.inline.value.body != "" {
      forall u ensures InFile(next, u) <==> Stays(run, k, u) {
        PlanUrls(plan, i, v, u);
        StaysIffRetained(run, k, v, u);
        InFileIsManaged(plan, Kept(i.reread), i.inline, u);
      }
    }
    InlineIsNamed(plan.next, i.inline);
  }

  lemma PlanIsCorrect(run: seq<Input>, k: nat, plan: Plan, v: Verdicts)
    requires ClockRuns(run) && k < |run| && Merges(HistoryAt(Sights(run), k), run[k])
    requires Informed(v, HistoryAt(Sights(run), k), run[k]) && IsPlan(plan, run[k].reread, run[k].curated, v)
    ensures Correct(run, k, WithInline(plan.next, run[k].inline))
  {
    hide NextIsRight, HistoryAt, ClockRuns, Merges, Informed, IsPlan;
    var i, next := run[k], WithInline(plan.next, run[k].inline);
    WrittenIsRight(run, k, plan, v);
    PlanIsOrdered(plan, i.reread, i.curated, v);
    if i.inline.Some? {
      assert i.inline.value.name in Names(plan.next) <==> !NameIsFree(plan.next, i.inline.value.name);
    }
    assert IsLaidOut(i, plan.managed, next);
  }

  /** A cycle that merges leaves the correct file, or leaves one alone that is as good. */
  lemma OutcomeIsCorrect(run: seq<Input>, k: nat, out: Outcome, plan: Plan, v: Verdicts)
    requires ClockRuns(run) && k < |run| && Merges(HistoryAt(Sights(run), k), run[k])
    requires Informed(v, HistoryAt(Sights(run), k), run[k]) && IsPlan(plan, run[k].reread, run[k].curated, v)
    requires var same := multiset(WithInline(plan.next, run[k].inline)) == multiset(run[k].reread);
             out.Unchanged? <==> !run[k].adopted && same
    requires out.Written? ==> out.next == WithInline(plan.next, run[k].inline)
    ensures LeavesCorrect(run, k, out)
  {
    hide Correct, HistoryAt, ClockRuns, Merges, Informed, IsPlan, WithInline;
    PlanIsCorrect(run, k, plan, v);
  }

  lemma LiveIsDiscovered(v: Verdicts, h: History, i: Input)
    requires Informed(v, h, i)
    ensures forall u :: u in i.discovered ==> u in v.live && v.live[u] == i.discovered[u]
  {
  }

  lemma InFileIsManaged(plan: Plan, kept: seq<Source>, inline: Option<Source>, u: Url)
    requires plan.next == kept + plan.managed && forall s :: s in kept ==> !s.managed
    requires forall s :: s in plan.managed ==> s.managed && s.body == ""
    requires inline.Some? ==> inline.value.body != ""
    ensures InFile(WithInline(plan.next, inline), u) <==> u in UrlsOf(plan.managed)
  {
    var next := WithInline(plan.next, inline);
    forall s | s in plan.managed ensures s in next {
      assert s in plan.next;
    }
    if u in UrlsOf(plan.managed) {
      var s :| s in plan.managed && s.url == u;
    }
  }

  lemma InlineIsNamed(next: seq<Source>, inline: Option<Source>)
    ensures inline.Some? ==> exists s :: s in WithInline(next, inline) && s.name == inline.value.name
  {
    if inline.Some? && inline.value.name in Names(next) {
      var s :| s in next && s.name == inline.value.name;
    } else if inline.Some? {
      assert inline.value in WithInline(next, inline);
    }
  }

  /** A crawler run from an empty state: every deletion any cycle proposes is justified and nothing
      justified is spared, and a bulk deletion is written exactly when an earlier refusal authorises it. */
  method RunCrawler(run: seq<Input>) returns (outs: seq<Outcome>, ghost views: seq<BulkPrune.Cycle>)
    requires ClockRuns(run)
    ensures |outs| == |views| == |run|
    ensures forall k :: 0 <= k < |run| ==> SeenAs(run[k], outs[k], views[k])
    ensures forall k :: 0 <= k < |run| ==> (outs[k].Stopped? <==> MustStop(run, k))
    ensures forall k :: 0 <= k < |run| && Proposing(outs[k]) ==>
              Ascending(outs[k].deleted) && forall u :: u in outs[k].deleted <==> MayGo(run, k, u)
    ensures forall k :: 0 <= k < |run| ==> Confirmed(views, k, outs[k])
    ensures forall k :: 0 <= k < |run| ==> LeavesCorrect(run, k, outs[k])
  {
    hide MustStop, MayGo, Ascending, LeavesCorrect, SeenAs;
    hide IsPlan, Informed, Merges, HistoryOut, DeletesJustified, WithInline, FloorView, ClockRuns, Agrees, Confirmed;
    hide BulkPrune.Allowed, BulkPrune.After, BulkPrune.Carried, BulkPrune.PendingAfter, HistoryAt, SightOf, Justified;
    outs, views := [], [];
    NothingYet(run);
    var crawler := new Crawler();
    for k := 0 to |run|
      invariant fresh(crawler.liveness) && fresh(crawler.floor) && crawler.floor.Valid()
      invariant |outs| == |views| == k && crawler.liveness.managed == HistoryAt(Sights(run), k)
      invariant crawler.floor.PendingNow() == BulkPrune.PendingAfter(views, k)
      invariant Agrees(run, outs, views)
      invariant forall m :: 0 <= m < k ==> (outs[m].Stopped? <==> MustStop(run, m))
      invariant forall m :: 0 <= m < k ==> LeavesCorrect(run, m, outs[m])
    {
      TimeRuns(run, k);
      MergesUnlessMustStop(run, k);
      HistoryStep(run, k);
      var out, plan, v := crawler.RunOnce(run[k]);
      if Proposing(out) {
        PlanIsJustified(run, k, out, plan, v);
      } else {
        QuietIsJustified(run, k, out);
      }
      if out.Stopped? {
        StoppedLeaves(run, k, out);
      } else {
        OutcomeIsCorrect(run, k, out, plan, v);
      }
      AgreesStep(run, outs, out, views);
      outs, views := outs + [out], views + [FloorView(run[k], out)];
    }
    AgreementConfirms(run, outs, views);
    forall k | 0 <= k < |run| && Proposing(outs[k])
      ensures Ascending(outs[k].deleted) && forall u :: u in outs[k].deleted <==> MayGo(run, k, u)
    {
      DeletesWhatMayGo(run, k, outs[k]);
    }
    forall k | 0 <= k < |run| ensures SeenAs(run[k], outs[k], views[k]) {
      ViewIsSeen(run[k], outs[k]);
    }
  }

  lemma StoppedLeaves(run: seq<Input>, k: nat, out: Outcome)
    requires k < |run| && out.Stopped?
    ensures LeavesCorrect(run, k, out)
  {
  }

  lemma ViewIsSeen(i: Input, out: Outcome)
    ensures SeenAs(i, out, FloorView(i, out))
  {
    CountIsManaged(i.reread);
  }

  lemma DeletesWhatMayGo(run: seq<Input>, k: nat, out: Outcome)
    requires ClockRuns(run) && k < |run| && DeletesJustified(run, k, out) && Proposing(out)
    ensures Ascending(out.deleted) && forall u :: u in out.deleted <==> MayGo(run, k, u)
  {
    hide Justified, MayGo, Ascending;
    forall u ensures u in out.deleted <==> MayGo(run, k, u) {
      JustifiedMayGo(run, k, u);
    }
  }

  lemma NothingYet(run: seq<Input>)
    ensures Agrees(run, [], []) && HistoryAt(Sights(run), 0) == map[]
    ensures BulkPrune.PendingAfter([], 0) == BulkPrune.Nothing
  {
  }

  lemma HistoryStep(run: seq<Input>, k: nat)
    requires k < |run|
    ensures HistoryAt(Sights(run), k + 1) == HistoryOut(HistoryAt(Sights(run), k), SightOf(run[k]))
  {
  }

  lemma QuietIsJustified(run: seq<Input>, k: nat, out: Outcome)
    requires k < |run| && !Proposing(out)
    ensures DeletesJustified(run, k, out)
  {
  }

  lemma AgreesStep(run: seq<Input>, outs: seq<Outcome>, out: Outcome, views: seq<BulkPrune.Cycle>)
    requires |views| == |outs| < |run| && Agrees(run, outs, views) && DeletesJustified(run, |outs|, out)
    requires var p := BulkPrune.PendingAfter(views, |outs|);
             Proposing(out) ==> (out.Written? <==> BulkPrune.Allowed(p, FloorView(run[|outs|], out)))
    ensures Agrees(run, outs + [out], views + [FloorView(run[|outs|], out)])
    ensures BulkPrune.PendingAfter(views + [FloorView(run[|outs|], out)], |outs| + 1)
         == BulkPrune.After(BulkPrune.PendingAfter(views, |outs|), FloorView(run[|outs|], out))
  {
    hide DeletesJustified, BulkPrune.Carried, BulkPrune.Allowed, BulkPrune.After, BulkPrune.PendingAfter, FloorView;
    ViewsExtend(views, FloorView(run[|outs|], out));
  }

  lemma AgreementConfirms(run: seq<Input>, outs: seq<Outcome>, views: seq<BulkPrune.Cycle>)
    requires ClockRuns(run) && |views| == |outs| == |run| && Agrees(run, outs, views)
    ensures forall k :: 0 <= k < |run| ==> views[k] == FloorView(run[k], outs[k])
    ensures forall k :: 0 <= k < |run| ==> DeletesJustified(run, k, outs[k])
    ensures forall k :: 0 <= k < |run| ==> Confirmed(views, k, outs[k])
  {
    hide DeletesJustified, BulkPrune.Carried, BulkPrune.Authorises, BulkPrune.LargeDrop, BulkPrune.TimeOrdered;
    TimesOrdered(run, outs, views);
    forall k | 0 <= k < |run| ensures Confirmed(views, k, outs[k]) {
      if Proposing(outs[k]) {
        if BulkPrune.LargeDrop(views[k]) {
          BulkPrune.BulkDeletionNeedsConfirmation(views, k);
        } else {
          NotLargePasses(views, k);
        }
      }
    }
  }

  lemma NotLargePasses(views: seq<BulkPrune.Cycle>, k: nat)
    requires k < |views| && views[k].Proposes? && !BulkPrune.LargeDrop(views[k])
    ensures BulkPrune.Carried(views, k)
  {
    BulkPrune.SmallDropPasses(views, k);
  }

  lemma TimesOrdered(run: seq<Input>, outs: seq<Outcome>, views: seq<BulkPrune.Cycle>)
    requires ClockRuns(run) && |views| == |outs| == |run|
    requires forall k :: 0 <= k < |run| ==> views[k] == FloorView(run[k], outs[k])
    ensures BulkPrune.TimeOrdered(views)
  {
    assert forall m :: 0 <= m < |views| ==> views[m].at == run[m].mergedAt;
  }

  lemma TimeRuns(run: seq<Input>, k: nat)
    requires ClockRuns(run) && k < |run|
    ensures run[k].mergedAt > 0
  {
  }

  lemma PlanIsJustified(run: seq<Input>, k: nat, out: Outcome, plan: Plan, v: Verdicts)
    requires ClockRuns(run) && k < |run| && Merges(HistoryAt(Sights(run), k), run[k])
    requires Informed(v, HistoryAt(Sights(run), k), run[k]) && IsPlan(plan, run[k].reread, run[k].curated, v)
    requires Proposing(out) && out.deleted == plan.deleted
    ensures DeletesJustified(run, k, out)
  {
    hide Informed, Justified, MayDelete, SightOf, HistoryAt, ClockRuns;
    forall u ensures u in out.deleted <==> Justified(run, k, u) {
      DeletedIffMayDelete(v, HistoryAt(Sights(run), k), run[k], u);
      MayDeleteIffJustified(run, k, u);
    }
  }

  lemma ViewsExtend(was: seq<BulkPrune.Cycle>, c: BulkPrune.Cycle)
    ensures var now, p := was + [c], BulkPrune.PendingAfter(was, |was|);
            && BulkPrune.PendingAfter(now, |now|) == BulkPrune.After(p, c)
            && (BulkPrune.Carried(now, |was|) <==> BulkPrune.Allowed(p, c))
            && forall n :: 0 <= n < |was| ==> (BulkPrune.Carried(now, n) <==> BulkPrune.Carried(was, n))
  {
    var now := was + [c];
    forall n: nat | n <= |was| ensures BulkPrune.PendingAfter(now, n) == BulkPrune.PendingAfter(was, n) {
      SamePending(was, now, n);
    }
    assert forall n :: 0 <= n < |was| ==> now[n] == was[n];
  }

  lemma {:induction false} SamePending(was: seq<BulkPrune.Cycle>, now: seq<BulkPrune.Cycle>, n: nat)
    requires n <= |was| <= |now| && now[..|was|] == was
    ensures BulkPrune.PendingAfter(now, n) == BulkPrune.PendingAfter(was, n)
  {
    if n > 0 {
      SamePending(was, now, n - 1);
      assert now[n - 1] == was[n - 1];
    }
  }
}
