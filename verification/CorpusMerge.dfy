/** internal/crawl/crawl.go: the merge that decides the next managed corpus, its deletions and its names. */
module CorpusMerge {
  import opened Basics
  import Sorting
  import Strings
  import opened NameMint
  import opened Retirement
  import opened StringSets

  datatype Source = Source(name: string, url: Url, body: string, feed: string, managed: bool, hwid: string)

  /** Go's zero value: what looking up a missing URL yields. */
  const NO_SOURCE := Source("", "", "", "", false, "")

  /** A hand-added entry, or one whose own mark says the crawler may delete it. */
  predicate Sheltered(s: Source) { !s.managed }

  predicate Owned(s: Source) { s.managed && s.body == "" }

  function Kept(sources: seq<Source>): seq<Source>
  {
    if sources == [] then []
    else
      var s := sources[|sources| - 1];
      Kept(sources[..|sources| - 1]) + if Sheltered(s) then [s] else []
  }

  /** The managed entries by URL; a later entry of the same URL supersedes an earlier one. */
  function Existing(sources: seq<Source>): map<Url, Source>
  {
    if sources == [] then map[]
    else
      var s := sources[|sources| - 1];
      Existing(sources[..|sources| - 1]) + if Owned(s) then map[s.url := s] else map[]
  }

  function Names(sources: seq<Source>): set<string>
  {
    set s | s in sources :: s.name
  }

  ghost predicate DistinctNames(sources: seq<Source>)
  {
    forall i, j :: 0 <= i < j < |sources| ==> sources[i].name != sources[j].name
  }

  /** The names spoken for: those of hand-added and managed entries, superseded ones included; only
      the crawler's own aggregate gives its name up. */
  ghost function HeldNames(sources: seq<Source>): set<string>
  {
    if sources == [] then {}
    else
      var s := sources[|sources| - 1];
      HeldNames(sources[..|sources| - 1]) + if Sheltered(s) || Owned(s) then {s.name} else {}
  }

  function OriginOf(live: map<Url, Origin>, u: Url): Origin
  {
    if u in live then live[u] else UNKNOWN_ORIGIN
  }

  function Previous(existing: map<Url, Source>, u: Url): Source
  {
    if u in existing then existing[u] else NO_SOURCE
  }

  function ExistingName(existing: map<Url, Source>, u: Url): string
  {
    Previous(existing, u).name
  }

  // ----- which URLs stay -----

  /** The inputs of one merge that do not change while it runs. */
  datatype Verdicts = Verdicts(live: map<Url, Origin>, rr: Recheck, prune: bool, denied: set<Url>, valid: Url -> bool, hash: Url -> string)

  predicate Retained(v: Verdicts, u: Url)
  {
    u !in v.denied && RetainManaged(u, v.live.Keys, v.rr, v.prune) && v.valid(u)
  }

  predicate Deleted(v: Verdicts, existing: map<Url, Source>, u: Url)
  {
    u in existing && u !in v.denied && (!RetainManaged(u, v.live.Keys, v.rr, v.prune) || !v.valid(u))
  }

  /** The entry minted for `u` under a name: the feed changes exactly when the name does, and the
      superseded entry's hwid survives. */
  function Minted(v: Verdicts, existing: map<Url, Source>, u: Url, name: string): Source
  {
    var prev := Previous(existing, u);
    Source(name, u, "", if name == prev.name then prev.feed else FeedOf(OriginOf(v.live, u)), true, prev.hwid)
  }

  /** What each minted entry is, its name found against the names taken so far. `used[k]` is that set
      before the k-th mint. */
  ghost predicate MintedFrom(v: Verdicts, existing: map<Url, Source>, managed: seq<Source>, used: seq<set<string>>)
  {
    && |used| == |managed| + 1
    && forall k :: 0 <= k < |managed| ==> MintStep(v, existing, managed[k], used[k], used[k + 1])
  }

  ghost predicate MintStep(v: Verdicts, existing: map<Url, Source>, s: Source, before: set<string>, after: set<string>)
  {
    && Retained(v, s.url) && s == Minted(v, existing, s.url, s.name)
    && IsSourceName(s.name, v.hash(s.url), ExistingName(existing, s.url), OriginOf(v.live, s.url), before)
    && after == before + {s.name}
  }

  ghost predicate UrlsAscend(managed: seq<Source>)
  {
    forall i, j :: 0 <= i < j < |managed| ==> Strings.Less(managed[i].url, managed[j].url)
  }

  /** A whole mint: every retained URL of `all` once, in URL order, against the names `taken` and then
      each other. */
  ghost predicate IsMint(v: Verdicts, existing: map<Url, Source>, all: set<Url>, taken: set<string>,
                         managed: seq<Source>, used: seq<set<string>>)
  {
    && MintedFrom(v, existing, managed, used) && used[0] == taken && UrlsAscend(managed)
    && forall u :: u in UrlsOf(managed) <==> u in all && Retained(v, u)
  }

  /** Every candidate URL, in sorted order: withheld, deleted, skipped or minted. */
  method MintRetained(all: set<Url>, existing: map<Url, Source>, v: Verdicts, taken: set<string>)
    returns (managed: seq<Source>, deleted: seq<Url>, deniedDropped: nat, ghost used: seq<set<string>>)
    requires existing.Keys <= all
    ensures IsMint(v, existing, all, taken, managed, used)
    ensures Ascending(deleted) && forall u :: u in deleted <==> Deleted(v, existing, u)
  {
    hide RetainManaged, IsSourceName, Strings.Less, Minted;
    var urls := SortedStrings(all);
    managed, deleted, deniedDropped := [], [], 0;
    var names := taken;
    used := [taken];
    for i := 0 to |urls|
      invariant MintedFrom(v, existing, managed, used) && used[0] == taken && used[|managed|] == names
      invariant forall k :: 0 <= k < |managed| ==> managed[k].url in urls[..i]
      invariant UrlsAscend(managed)
      invariant forall u :: u in urls[..i] && Retained(v, u) ==> exists k :: 0 <= k < |managed| && managed[k].url == u
      invariant Ascending(deleted)
      invariant forall u :: u in deleted <==> u in urls[..i] && Deleted(v, existing, u)
    {
      var u := urls[i];
      assert urls[..i + 1] == urls[..i] + [u];
      AheadIsLater(urls, i);
      if u in v.denied {
        deniedDropped := deniedDropped + 1;
        continue;
      }
      if !RetainManaged(u, v.live.Keys, v.rr, v.prune) || !v.valid(u) {
        if u in existing {
          deleted := deleted + [u];
        }
        continue;
      }
      var s := MintSource(u, existing, v, names);
      names := names + {s.name};
      ghost var before := managed;
      managed := managed + [s];
      used := used + [names];
      assert forall k :: 0 <= k < |before| ==> managed[k] == before[k];
      assert managed[|before|].url == u;
    }
    assert urls[..|urls|] == urls;
    forall u ensures u in UrlsOf(managed) <==> u in all && Retained(v, u) {
      if u in UrlsOf(managed) {
        var s :| s in managed && s.url == u;
        var k :| 0 <= k < |managed| && managed[k] == s;
        assert MintStep(v, existing, managed[k], used[k], used[k + 1]);
      }
    }
  }

  function UrlsOf(sources: seq<Source>): set<Url>
  {
    set s | s in sources :: s.url
  }

  method MintSource(u: Url, existing: map<Url, Source>, v: Verdicts, names: set<string>) returns (s: Source)
    requires Retained(v, u)
    ensures s.url == u && MintStep(v, existing, s, names, names + {s.name})
  {
    var o := OriginOf(v.live, u);
    var prev := Previous(existing, u);
    var name := SourceName(v.hash(u), prev.name, o, names);
    var feed := prev.feed;
    if name != prev.name {
      feed := OriginLabel(o);
    }
    s := Source(name, u, "", feed, true, prev.hwid);
  }

  method OriginLabel(o: Origin) returns (feed: string)
    ensures feed == FeedOf(o)
  {
    if o.feed != "" {
      return o.feed;
    }
    feed := ChannelSlug(o.slug);
  }

  // ----- names -----

  /** What the file promises: its entries' names are distinct. */
  ghost predicate FileNamesDistinct(kept: seq<Source>, existing: map<Url, Source>)
  {
    && DistinctNames(kept)
    && (forall u, w :: u in existing && w in existing && u != w ==> existing[u].name != existing[w].name)
    && (forall u, i :: u in existing && 0 <= i < |kept| ==> existing[u].name != kept[i].name)
  }

  predicate KeepsItsName(v: Verdicts, existing: map<Url, Source>, u: Url)
  {
    KeepsName(ExistingName(existing, u), OriginOf(v.live, u))
  }

  predicate HasOnlyHash(v: Verdicts, existing: map<Url, Source>, u: Url)
  {
    Unattributed(ExistingName(existing, u), OriginOf(v.live, u))
  }

  /** A name that is created from an origin, rather than kept or hashed. */
  predicate CreatesName(v: Verdicts, existing: map<Url, Source>, u: Url)
  {
    !KeepsItsName(v, existing, u) && !HasOnlyHash(v, existing, u)
  }

  ghost predicate OriginsValid(v: Verdicts)
  {
    && (forall u :: u in v.live ==> ValidOrigin(v.live[u]))
    && (forall u :: IsHashName(v.hash(u)))
  }

  /** The hashes of the retained URLs that have nothing else to be named by collide with no name that
      stays and with no other such hash. */
  ghost predicate HashesClear(v: Verdicts, existing: map<Url, Source>, kept: seq<Source>, retained: set<Url>)
  {
    forall u :: u in retained && HasOnlyHash(v, existing, u) ==>
      && (forall i :: 0 <= i < |kept| ==> kept[i].name != v.hash(u))
      && (forall w :: w in retained && w != u && KeepsItsName(v, existing, w) ==> existing[w].name != v.hash(u))
      && (forall w :: w in retained && w != u && HasOnlyHash(v, existing, w) ==> v.hash(w) != v.hash(u))
  }

  ghost predicate TakenHolds(taken: set<string>, existing: map<Url, Source>, kept: seq<Source>)
  {
    && (forall u :: u in existing ==> existing[u].name in taken)
    && (forall i :: 0 <= i < |kept| ==> kept[i].name in taken)
  }

  /** The set of taken names only grows, by the names minted so far. */
  lemma {:induction false} UsedGrows(v: Verdicts, existing: map<Url, Source>, managed: seq<Source>, used: seq<set<string>>, i: nat, k: nat)
    requires MintedFrom(v, existing, managed, used) && i <= k <= |managed|
    ensures used[i] <= used[k]
    ensures forall m :: i <= m < k ==> managed[m].name in used[k]
  {
    if i < k {
      UsedGrows(v, existing, managed, used, i, k - 1);
      assert MintStep(v, existing, managed[k - 1], used[k - 1], used[k]);
    }
  }

  /** A created name is new: nobody in the file, in the curated sets or minted before holds it. */
  lemma CreatedIsNew(v: Verdicts, existing: map<Url, Source>, managed: seq<Source>, used: seq<set<string>>, k: nat)
    requires MintedFrom(v, existing, managed, used) && k < |managed| && OriginsValid(v)
    requires CreatesName(v, existing, managed[k].url)
    ensures managed[k].name !in used[0] && !IsHashName(managed[k].name)
    ensures forall m :: 0 <= m < k ==> managed[m].name != managed[k].name
  {
    UsedGrows(v, existing, managed, used, 0, k);
    var s := managed[k];
    assert MintStep(v, existing, s, used[k], used[k + 1]);
    var o := OriginOf(v.live, s.url);
    CreatedNameIsFree(s.name, v.hash(s.url), ExistingName(existing, s.url), o, used[k]);
    CreatedNameIsNoHash(s.name, v.hash(s.url), ExistingName(existing, s.url), o, used[k]);
  }

  lemma KeptOrHashedName(v: Verdicts, existing: map<Url, Source>, managed: seq<Source>, used: seq<set<string>>, k: nat)
    requires MintedFrom(v, existing, managed, used) && k < |managed|
    ensures var u := managed[k].url;
            && Retained(v, u)
            && (KeepsItsName(v, existing, u) ==> u in existing && managed[k].name == existing[u].name)
            && (HasOnlyHash(v, existing, u) ==> managed[k].name == v.hash(u))
  {
    assert MintStep(v, existing, managed[k], used[k], used[k + 1]);
  }

  /** Two entries of the merged list clash only through a hash. */
  lemma PairDistinct(v: Verdicts, existing: map<Url, Source>, kept: seq<Source>, managed: seq<Source>,
                     used: seq<set<string>>, i: nat, k: nat)
    requires MintedFrom(v, existing, managed, used) && i < k < |managed| && OriginsValid(v)
    requires FileNamesDistinct(kept, existing) && TakenHolds(used[0], existing, kept)
    requires HashesClear(v, existing, kept, UrlsOf(managed))
    requires managed[i].url != managed[k].url
    ensures managed[i].name != managed[k].name
  {
    KeptOrHashedName(v, existing, managed, used, i);
    KeptOrHashedName(v, existing, managed, used, k);
    assert managed[i] in managed && managed[k] in managed;
    assert managed[i].url in UrlsOf(managed) && managed[k].url in UrlsOf(managed);
    if CreatesName(v, existing, managed[k].url) {
      CreatedIsNew(v, existing, managed, used, k);
    } else if CreatesName(v, existing, managed[i].url) {
      CreatedIsNew(v, existing, managed, used, i);
    }
  }

  lemma KeptDistinct(v: Verdicts, existing: map<Url, Source>, kept: seq<Source>, managed: seq<Source>,
                     used: seq<set<string>>, i: nat, k: nat)
    requires MintedFrom(v, existing, managed, used) && i < |kept| && k < |managed| && OriginsValid(v)
    requires FileNamesDistinct(kept, existing) && TakenHolds(used[0], existing, kept)
    requires HashesClear(v, existing, kept, UrlsOf(managed))
    ensures kept[i].name != managed[k].name
  {
    KeptOrHashedName(v, existing, managed, used, k);
    assert managed[k] in managed && managed[k].url in UrlsOf(managed);
    if CreatesName(v, existing, managed[k].url) {
      CreatedIsNew(v, existing, managed, used, k);
    }
  }

  /** The merged list's names are distinct exactly when no bare hash clashes. */
  lemma MergedNamesDistinct(v: Verdicts, existing: map<Url, Source>, kept: seq<Source>, managed: seq<Source>, used: seq<set<string>>)
    requires MintedFrom(v, existing, managed, used) && OriginsValid(v)
    requires FileNamesDistinct(kept, existing) && TakenHolds(used[0], existing, kept)
    requires forall i, j :: 0 <= i < j < |managed| ==> managed[i].url != managed[j].url
    ensures DistinctNames(kept + managed) <==> HashesClear(v, existing, kept, UrlsOf(managed))
  {
    if HashesClear(v, existing, kept, UrlsOf(managed)) {
      var all := kept + managed;
      forall i, j | 0 <= i < j < |all| ensures all[i].name != all[j].name {
        if i >= |kept| {
          PairDistinct(v, existing, kept, managed, used, i - |kept|, j - |kept|);
        } else if j >= |kept| {
          KeptDistinct(v, existing, kept, managed, used, i, j - |kept|);
        }
      }
    }
    if DistinctNames(kept + managed) {
      DistinctMeansClear(v, existing, kept, managed, used);
    }
  }

  lemma DistinctMeansClear(v: Verdicts, existing: map<Url, Source>, kept: seq<Source>, managed: seq<Source>, used: seq<set<string>>)
    requires MintedFrom(v, existing, managed, used) && DistinctNames(kept + managed)
    ensures HashesClear(v, existing, kept, UrlsOf(managed))
  {
    var all := kept + managed;
    forall u | u in UrlsOf(managed) && HasOnlyHash(v, existing, u)
      ensures forall i :: 0 <= i < |kept| ==> kept[i].name != v.hash(u)
      ensures forall w :: w in UrlsOf(managed) && w != u && KeepsItsName(v, existing, w) ==> existing[w].name != v.hash(u)
      ensures forall w :: w in UrlsOf(managed) && w != u && HasOnlyHash(v, existing, w) ==> v.hash(w) != v.hash(u)
    {
      var k := PlaceOf(managed, u);
      KeptOrHashedName(v, existing, managed, used, k);
      forall i | 0 <= i < |kept| ensures kept[i].name != v.hash(u) {
        assert all[i].name != all[|kept| + k].name;
      }
      forall w | w in UrlsOf(managed) && w != u && (KeepsItsName(v, existing, w) || HasOnlyHash(v, existing, w))
        ensures (if KeepsItsName(v, existing, w) then existing[w].name else v.hash(w)) != v.hash(u)
      {
        var m := PlaceOf(managed, w);
        KeptOrHashedName(v, existing, managed, used, m);
        if m < k {
          assert all[|kept| + m].name != all[|kept| + k].name;
        } else {
          assert all[|kept| + k].name != all[|kept| + m].name;
        }
      }
    }
  }

  lemma PlaceOf(managed: seq<Source>, u: Url) returns (k: nat)
    requires u in UrlsOf(managed)
    ensures k < |managed| && managed[k].url == u
  {
    var s :| s in managed && s.url == u;
    k :| 0 <= k < |managed| && managed[k] == s;
  }

  // ----- the whole merge -----

  function ShelteredUrls(sources: seq<Source>): set<Url>
  {
    set s | s in sources && Sheltered(s) && s.url != "" :: s.url
  }

  /** Every URL the merge considers: the managed corpus, and what is live and not already hand-added. */
  function Candidates(sources: seq<Source>, v: Verdicts): set<Url>
  {
    Existing(sources).Keys + (v.live.Keys - ShelteredUrls(sources))
  }

  function ByName(a: Source, b: Source): bool
  {
    Strings.Leq(a.name, b.name)
  }

  lemma ByNameIsOrder()
    ensures Sorting.TotalPreorder(ByName)
  {
    Strings.IsTotalOrder();
  }

  lemma {:induction false} PartsOf(sources: seq<Source>)
    ensures forall s :: s in Kept(sources) ==> s in sources && Sheltered(s)
    ensures forall u :: u in Existing(sources) ==>
              (var s := Existing(sources)[u]; s in sources && Owned(s) && s.url == u)
  {
    if sources != [] {
      PartsOf(sources[..|sources| - 1]);
    }
  }

  lemma {:induction false} KeptDistinctNames(sources: seq<Source>)
    requires DistinctNames(sources)
    ensures DistinctNames(Kept(sources))
  {
    if sources != [] {
      var n := |sources| - 1;
      KeptDistinctNames(sources[..n]);
      PartsOf(sources[..n]);
      forall s | s in Kept(sources[..n]) ensures s.name != sources[n].name {
        var k :| 0 <= k < n && sources[..n][k] == s;
      }
    }
  }

  /** A file whose names are distinct gives the merge what it needs. */
  lemma FileIsDistinct(sources: seq<Source>)
    requires DistinctNames(sources)
    ensures FileNamesDistinct(Kept(sources), Existing(sources))
  {
    PartsOf(sources);
    KeptDistinctNames(sources);
    forall a, b | a in sources && b in sources && a != b ensures a.name != b.name {
      var i :| 0 <= i < |sources| && sources[i] == a;
      var j :| 0 <= j < |sources| && sources[j] == b;
      if i < j {
        assert sources[i].name != sources[j].name;
      } else {
        assert sources[j].name != sources[i].name;
      }
    }
  }

  /** Sorting the minted entries by name changes neither which there are nor whether names clash. */
  lemma SortKeepsDistinctNames(kept: seq<Source>, managed: seq<Source>)
    ensures var sorted := Sorting.Sort(managed, ByName);
            && UrlsOf(sorted) == UrlsOf(managed) && |sorted| == |managed|
            && (forall s :: s in sorted <==> s in managed)
            && (DistinctNames(kept + sorted) <==> DistinctNames(kept + managed))
  {
    ByNameIsOrder();
    Sorting.SortKeepsValues(managed, ByName);
    var sorted := Sorting.Sort(managed, ByName);
    var p := Sorting.StablePermutation(managed, ByName);
    if DistinctNames(kept + managed) {
      PermutedNames(kept, managed, sorted, p);
    }
    if DistinctNames(kept + sorted) {
      var q := Inverse(managed, p);
      PermutedNames(kept, sorted, managed, q);
    }
  }

  lemma PermutedNames(kept: seq<Source>, a: seq<Source>, b: seq<Source>, p: seq<nat>)
    requires DistinctNames(kept + a) && |p| == |a| == |b|
    requires forall i :: 0 <= i < |p| ==> p[i] < |a| && b[i] == a[p[i]]
    requires forall i, j :: 0 <= i < j < |p| ==> p[i] != p[j]
    ensures DistinctNames(kept + b)
  {
    var was, now := kept + a, kept + b;
    forall i, j | 0 <= i < j < |now| ensures now[i].name != now[j].name {
      var i', j' := if i < |kept| then i else |kept| + p[i - |kept|], if j < |kept| then j else |kept| + p[j - |kept|];
      assert was[i'] == now[i] && was[j'] == now[j] && i' != j';
      if i' < j' {
        assert was[i'].name != was[j'].name;
      } else {
        assert was[j'].name != was[i'].name;
      }
    }
  }

  /** Where each element of the input went. */
  lemma Inverse(managed: seq<Source>, p: seq<nat>) returns (q: seq<nat>)
    requires Sorting.StableOrder(managed, ByName, p)
    ensures |q| == |managed| && forall i :: 0 <= i < |q| ==> q[i] < |p| && p[q[i]] == i
    ensures forall i, j :: 0 <= i < j < |q| ==> q[i] != q[j]
    ensures forall i, j :: 0 <= i < j < |p| ==> p[i] != p[j]
  {
    forall i, j | 0 <= i < j < |p| ensures p[i] != p[j] {
      assert Sorting.Before(managed, ByName, p[i], p[j]);
    }
    q := [];
    for k := 0 to |managed|
      invariant |q| == k && forall i :: 0 <= i < k ==> q[i] < |p| && p[q[i]] == i
    {
      assert k in p;
      var j :| 0 <= j < |p| && p[j] == k;
      q := q + [j];
    }
  }

  /** The merge's plan, before anything is written. */
  datatype Plan = Plan(next: seq<Source>, managed: seq<Source>, deleted: seq<Url>)

  /** The mint in URL order, sorted by name. */
  ghost predicate IsSortedMint(managed: seq<Source>, sources: seq<Source>, curated: set<string>, v: Verdicts)
  {
    exists minted, used ::
      IsMint(v, Existing(sources), Candidates(sources, v), curated + HeldNames(sources), minted, used)
      && managed == Sorting.Sort(minted, ByName)
  }

  ghost predicate IsPlan(plan: Plan, sources: seq<Source>, curated: set<string>, v: Verdicts)
  {
    && plan.next == Kept(sources) + plan.managed && IsSortedMint(plan.managed, sources, curated, v)
    && (forall u :: u in UrlsOf(plan.managed) <==> u in Candidates(sources, v) && Retained(v, u))
    && Ascending(plan.deleted) && (forall u :: u in plan.deleted <==> Deleted(v, Existing(sources), u))
    && Sorting.SortedBy(plan.managed, ByName)
    && (OriginsValid(v) ==>
          forall s :: s in plan.managed && CreatesName(v, Existing(sources), s.url) ==>
            s.name !in curated && s.name !in HeldNames(sources))
    && (OriginsValid(v) && DistinctNames(sources) ==>
          (DistinctNames(plan.next) <==> HashesClear(v, Existing(sources), Kept(sources), UrlsOf(plan.managed))))
  }

  ghost predicate UrlsDistinct(managed: seq<Source>)
  {
    forall i, j :: 0 <= i < j < |managed| ==> managed[i].url != managed[j].url
  }

  /** A plan holds each URL once, in the order of its names. */
  lemma PlanIsOrdered(plan: Plan, sources: seq<Source>, curated: set<string>, v: Verdicts)
    requires IsPlan(plan, sources, curated, v)
    ensures plan.next == Kept(sources) + plan.managed && UrlsDistinct(plan.managed)
    ensures forall i, j :: 0 <= i < j < |plan.managed| ==> Strings.Leq(plan.managed[i].name, plan.managed[j].name)
  {
    hide HashesClear, OriginsValid, Deleted, Retained, CreatesName, Candidates;
    var minted, used :|
      IsMint(v, Existing(sources), Candidates(sources, v), curated + HeldNames(sources), minted, used)
      && plan.managed == Sorting.Sort(minted, ByName);
    SortedUrlsDistinct(minted);
  }

  lemma SortedUrlsDistinct(minted: seq<Source>)
    requires UrlsAscend(minted)
    ensures UrlsDistinct(Sorting.Sort(minted, ByName))
  {
    ByNameIsOrder();
    var sorted := Sorting.Sort(minted, ByName);
    var p := Sorting.StablePermutation(minted, ByName);
    var q := Inverse(minted, p);
    forall i, j | 0 <= i < j < |sorted| ensures sorted[i].url != sorted[j].url {
      var a, b := if p[i] < p[j] then p[i] else p[j], if p[i] < p[j] then p[j] else p[i];
      assert Strings.Less(minted[a].url, minted[b].url);
    }
  }

  method MergeManaged(sources: seq<Source>, curated: set<string>, v: Verdicts) returns (plan: Plan)
    ensures IsPlan(plan, sources, curated, v)
    ensures forall s :: s in plan.managed ==> OwesToFile(sources, v.live, s)
  {
    hide OwesToFile;
    hide IsMint, Candidates, HashesClear, OriginsValid, CreatesName, Deleted, Retained, ByName, Ascending;
    var kept, existing, used := Survey(sources, curated);
    var all := CandidateUrls(sources, existing, v);
    var managed, deleted, dropped, taken := MintRetained(all, existing, v, used);
    MintFacts(sources, v, existing, kept, all, used, managed, taken);
    SortKeepsDistinctNames(kept, managed);
    ByNameIsOrder();
    Sorting.SortIsSortedPermutation(managed, ByName);
    var sorted := Sorting.Sort(managed, ByName);
    plan := Plan(kept + sorted, sorted, deleted);
    PlanOwesToFile(plan, sources, curated, v);
  }

  method CandidateUrls(sources: seq<Source>, existing: map<Url, Source>, v: Verdicts) returns (all: set<Url>)
    requires existing == Existing(sources)
    ensures all == Candidates(sources, v) && existing.Keys <= all
  {
    all := existing.Keys + (v.live.Keys - ShelteredUrls(sources));
  }

  /** What a mint means for the file it was made from. */
  lemma MintFacts(sources: seq<Source>, v: Verdicts, existing: map<Url, Source>, kept: seq<Source>, all: set<Url>,
                  taken: set<string>, managed: seq<Source>, used: seq<set<string>>)
    requires existing == Existing(sources) && kept == Kept(sources) && HeldNames(sources) <= taken
    requires IsMint(v, existing, all, taken, managed, used)
    ensures forall u :: u in UrlsOf(managed) <==> u in all && Retained(v, u)
    ensures OriginsValid(v) ==> forall s :: s in managed && CreatesName(v, existing, s.url) ==> s.name !in taken
    ensures OriginsValid(v) && DistinctNames(sources) ==>
              (DistinctNames(kept + managed) <==> HashesClear(v, existing, kept, UrlsOf(managed)))
  {
    if OriginsValid(v) {
      CreatedAvoidTaken(v, existing, managed, used);
      if DistinctNames(sources) {
        FileIsDistinct(sources);
        HeldIsTaken(sources, taken);
        AscendingUrlsDiffer(managed);
        MergedNamesDistinct(v, existing, kept, managed, used);
      }
    }
  }

  lemma AscendingUrlsDiffer(managed: seq<Source>)
    requires UrlsAscend(managed)
    ensures forall i, j :: 0 <= i < j < |managed| ==> managed[i].url != managed[j].url
  {
    assert forall i, j :: 0 <= i < j < |managed| ==> Strings.Less(managed[i].url, managed[j].url);
  }

  lemma {:induction false} HeldIsTaken(sources: seq<Source>, taken: set<string>)
    requires HeldNames(sources) <= taken
    ensures TakenHolds(taken, Existing(sources), Kept(sources))
  {
    if sources != [] {
      HeldIsTaken(sources[..|sources| - 1], taken);
    }
  }

  // ----- the inputs fix the plan -----

  /** Neither map iteration nor anything else left open decides any part of the merge: two plans for
      one file, one curated set and one set of verdicts are the same. */
  lemma PlanIsDetermined(a: Plan, b: Plan, sources: seq<Source>, curated: set<string>, v: Verdicts)
    requires IsPlan(a, sources, curated, v) && IsPlan(b, sources, curated, v)
    ensures a == b
  {
    hide IsMint, Candidates, Ascending;
    var existing, all, taken := Existing(sources), Candidates(sources, v), curated + HeldNames(sources);
    var x, used :| IsMint(v, existing, all, taken, x, used) && a.managed == Sorting.Sort(x, ByName);
    var y, used' :| IsMint(v, existing, all, taken, y, used') && b.managed == Sorting.Sort(y, ByName);
    MintsAgree(v, existing, all, taken, x, used, y, used');
    AscendingAgree(a.deleted, b.deleted);
  }

  function UrlList(managed: seq<Source>): seq<Url>
  {
    seq(|managed|, i requires 0 <= i < |managed| => managed[i].url)
  }

  lemma UrlListHolds(managed: seq<Source>)
    ensures forall u :: u in UrlList(managed) <==> u in UrlsOf(managed)
  {
    forall u ensures u in UrlList(managed) <==> u in UrlsOf(managed) {
      if u in UrlsOf(managed) {
        var k := PlaceOf(managed, u);
        assert UrlList(managed)[k] == u;
      }
    }
  }

  lemma MintsAgree(v: Verdicts, existing: map<Url, Source>, all: set<Url>, taken: set<string>,
                   x: seq<Source>, used: seq<set<string>>, y: seq<Source>, used': seq<set<string>>)
    requires IsMint(v, existing, all, taken, x, used) && IsMint(v, existing, all, taken, y, used')
    ensures x == y
  {
    UrlListHolds(x);
    UrlListHolds(y);
    AscendingAgree(UrlList(x), UrlList(y));
    assert |x| == |UrlList(x)| == |UrlList(y)| == |y|;
    forall k | 0 <= k < |x| ensures x[k].url == y[k].url {
      assert UrlList(x)[k] == UrlList(y)[k];
    }
    MintedAlike(v, existing, x, used, y, used', |x|);
    assert x[..|x|] == x && y[..|y|] == y;
  }

  lemma {:induction false} MintedAlike(v: Verdicts, existing: map<Url, Source>, x: seq<Source>, used: seq<set<string>>,
                                       y: seq<Source>, used': seq<set<string>>, n: nat)
    requires MintedFrom(v, existing, x, used) && MintedFrom(v, existing, y, used') && used[0] == used'[0]
    requires n <= |x| == |y| && forall k :: 0 <= k < |x| ==> x[k].url == y[k].url
    ensures x[..n] == y[..n] && used[n] == used'[n]
  {
    if n > 0 {
      hide IsSourceName, Minted;
      var k := n - 1;
      MintedAlike(v, existing, x, used, y, used', k);
      assert MintStep(v, existing, x[k], used[k], used[n]) && MintStep(v, existing, y[k], used'[k], used'[n]);
      NameIsUnique(x[k].name, y[k].name, v.hash(x[k].url), ExistingName(existing, x[k].url), OriginOf(v.live, x[k].url), used[k]);
      assert x[..n] == x[..k] + [x[k]] && y[..n] == y[..k] + [y[k]];
    }
  }

  // ----- a settled file stays as it is -----

  /** Merging a file that holds the merged list once more, on the same verdicts and whatever is curated
      by then, changes nothing and deletes nothing: names, feeds and hwids all stay. */
  lemma MergeIsIdempotent(p: Plan, q: Plan, sources: seq<Source>, file: seq<Source>, curated: set<string>, later: set<string>, v: Verdicts)
    requires OriginsValid(v) && IsPlan(p, sources, curated, v) && IsPlan(q, file, later, v)
    requires Kept(file) == Kept(p.next) && Existing(file) == Existing(p.next)
    ensures q.next == p.next && q.managed == p.managed && q.deleted == []
  {
    hide IsMint, Candidates, Ascending, HashesClear, CreatesName, Retained, Deleted, OriginsValid, Existing, Kept;
    var existing, all, taken := Existing(sources), Candidates(sources, v), curated + HeldNames(sources);
    var x, used :| IsMint(v, existing, all, taken, x, used) && p.managed == Sorting.Sort(x, ByName);
    var existing', all', taken' := Existing(file), Candidates(file, v), later + HeldNames(file);
    var y, used' :| IsMint(v, existing', all', taken', y, used') && q.managed == Sorting.Sort(y, ByName);
    SettledFile(sources, p.managed, x, v, existing, all, taken, used);
    ShelteredAlike(p.next, file);
    SettledUrls(sources, file, x, v, existing, taken, used);
    forall u ensures u in UrlsOf(y) <==> u in UrlsOf(x) {
      MintUrls(v, existing', all', taken', y, used', u);
    }
    RemintIsSame(v, existing, all, taken, x, used, existing', all', taken', y, used');
    if q.deleted != [] {
      assert q.deleted[0] in q.deleted;
      SettledKeepsAll(v, existing, all, taken, x, used, existing', q.deleted[0]);
    }
  }

  lemma MintUrls(v: Verdicts, existing: map<Url, Source>, all: set<Url>, taken: set<string>,
                 x: seq<Source>, used: seq<set<string>>, u: Url)
    requires IsMint(v, existing, all, taken, x, used)
    ensures u in UrlsOf(x) <==> u in all && Retained(v, u)
  {
  }

  lemma SettledKeepsAll(v: Verdicts, existing: map<Url, Source>, all: set<Url>, taken: set<string>, x: seq<Source>,
                        used: seq<set<string>>, existing': map<Url, Source>, u: Url)
    requires IsMint(v, existing, all, taken, x, used) && existing'.Keys == UrlsOf(x)
    ensures !Deleted(v, existing', u)
  {
    MintUrls(v, existing, all, taken, x, used, u);
  }

  /** The merged list read back: the same hand-added entries, and the minted ones by URL. */
  lemma SettledFile(sources: seq<Source>, managed: seq<Source>, x: seq<Source>, v: Verdicts, existing: map<Url, Source>,
                    all: set<Url>, taken: set<string>, used: seq<set<string>>)
    requires IsMint(v, existing, all, taken, x, used) && managed == Sorting.Sort(x, ByName)
    ensures Kept(Kept(sources) + managed) == Kept(sources)
    ensures var again := Existing(Kept(sources) + managed);
            again.Keys == UrlsOf(x) && forall k :: 0 <= k < |x| ==> x[k].url in again && again[x[k].url] == x[k]
    ensures ShelteredUrls(Kept(sources) + managed) == ShelteredUrls(sources)
  {
    hide *;
    MintIsOwned(v, existing, all, taken, x, used);
    SortedMembers(managed, x);
    ShelteredAreKept(sources);
    ReadBack(Kept(sources), managed);
    SameEntries(Existing(Kept(sources) + managed), managed, x);
    ShelteredAlike(sources, Kept(sources) + managed);
  }

  lemma MintIsOwned(v: Verdicts, existing: map<Url, Source>, all: set<Url>, taken: set<string>,
                    x: seq<Source>, used: seq<set<string>>)
    requires IsMint(v, existing, all, taken, x, used)
    ensures forall s :: s in x ==> Owned(s)
    ensures forall i, j :: 0 <= i < j < |x| ==> x[i].url != x[j].url
  {
    AscendingUrlsDiffer(x);
    forall s | s in x ensures Owned(s) {
      var k :| 0 <= k < |x| && x[k] == s;
      StepIsOwned(v, existing, x[k], used[k], used[k + 1]);
    }
  }

  lemma SortedMembers(managed: seq<Source>, x: seq<Source>)
    requires managed == Sorting.Sort(x, ByName)
    ensures (forall s :: s in managed <==> s in x) && UrlsOf(managed) == UrlsOf(x)
  {
    ByNameIsOrder();
    Sorting.SortKeepsValues(x, ByName);
  }

  lemma SameEntries(again: map<Url, Source>, managed: seq<Source>, x: seq<Source>)
    requires again.Keys == UrlsOf(managed) && forall u :: u in again ==> again[u] in managed && again[u].url == u
    requires (forall s :: s in managed <==> s in x) && forall i, j :: 0 <= i < j < |x| ==> x[i].url != x[j].url
    ensures forall k :: 0 <= k < |x| ==> x[k].url in again && again[x[k].url] == x[k]
  {
    forall k | 0 <= k < |x| ensures x[k].url in again && again[x[k].url] == x[k] {
      assert x[k] in managed;
      var m :| 0 <= m < |x| && x[m] == again[x[k].url];
      assert m == k;
    }
  }

  lemma ShelteredAlike(sources: seq<Source>, again: seq<Source>)
    requires Kept(again) == Kept(sources)
    ensures ShelteredUrls(again) == ShelteredUrls(sources)
  {
    ShelteredAreKept(sources);
    ShelteredAreKept(again);
    assert forall s :: s in Kept(again) <==> s in Kept(sources);
    assert forall u :: u in ShelteredUrls(again) ==> u in ShelteredUrls(sources);
    assert forall u :: u in ShelteredUrls(sources) ==> u in ShelteredUrls(again);
  }

  lemma StepIsOwned(v: Verdicts, existing: map<Url, Source>, s: Source, before: set<string>, after: set<string>)
    requires MintStep(v, existing, s, before, after)
    ensures Owned(s)
  {
  }

  lemma {:induction false} ShelteredAreKept(sources: seq<Source>)
    ensures forall s :: s in Kept(sources) <==> s in sources && Sheltered(s)
  {
    if sources != [] {
      ShelteredAreKept(sources[..|sources| - 1]);
      assert sources == sources[..|sources| - 1] + [sources[|sources| - 1]];
    }
  }

  lemma {:induction false} AllSheltered(kept: seq<Source>)
    requires forall s :: s in kept ==> Sheltered(s)
    ensures Kept(kept) == kept && Existing(kept) == map[]
  {
    if kept != [] {
      var n := |kept| - 1;
      AllSheltered(kept[..n]);
      assert kept[n] in kept;
      assert kept == kept[..n] + [kept[n]];
    }
  }

  lemma OneMoreOwned(sources: seq<Source>, s: Source)
    requires Owned(s)
    ensures Kept(sources + [s]) == Kept(sources) && Existing(sources + [s]) == Existing(sources) + map[s.url := s]
  {
    assert (sources + [s])[..|sources|] == sources;
  }

  /** A file of hand-added entries followed by managed ones gives both back. */
  lemma {:induction false} ReadBack(kept: seq<Source>, managed: seq<Source>)
    requires (forall s :: s in kept ==> Sheltered(s)) && forall s :: s in managed ==> Owned(s)
    ensures Kept(kept + managed) == kept
    ensures Existing(kept + managed).Keys == UrlsOf(managed)
    ensures forall u :: u in Existing(kept + managed) ==>
              Existing(kept + managed)[u] in managed && Existing(kept + managed)[u].url == u
  {
    hide Existing, Kept;
    if managed == [] {
      AllSheltered(kept);
      assert kept + managed == kept;
    } else {
      var n := |managed| - 1;
      ReadBack(kept, managed[..n]);
      OneMoreOwned(kept + managed[..n], managed[n]);
      assert kept + managed[..n] + [managed[n]] == kept + managed;
      assert managed == managed[..n] + [managed[n]];
    }
  }

  lemma SettledUrls(sources: seq<Source>, file: seq<Source>, x: seq<Source>, v: Verdicts, existing: map<Url, Source>,
                    taken: set<string>, used: seq<set<string>>)
    requires IsMint(v, existing, Candidates(sources, v), taken, x, used)
    requires Existing(file).Keys == UrlsOf(x) && ShelteredUrls(file) == ShelteredUrls(sources)
    ensures forall u :: u in Candidates(file, v) && Retained(v, u) <==> u in UrlsOf(x)
  {
  }

  /** Every entry the mint made is kept as it is by the next one. */
  lemma RemintIsSame(v: Verdicts, existing: map<Url, Source>, all: set<Url>, taken: set<string>,
                     x: seq<Source>, used: seq<set<string>>, existing': map<Url, Source>, all': set<Url>,
                     taken': set<string>, y: seq<Source>, used': seq<set<string>>)
    requires IsMint(v, existing, all, taken, x, used) && IsMint(v, existing', all', taken', y, used') && OriginsValid(v)
    requires forall k :: 0 <= k < |x| ==> x[k].url in existing' && existing'[x[k].url] == x[k]
    requires forall u :: u in UrlsOf(y) <==> u in UrlsOf(x)
    ensures x == y
  {
    hide OriginsValid;
    UrlListHolds(x);
    UrlListHolds(y);
    AscendingAgree(UrlList(x), UrlList(y));
    assert |x| == |UrlList(x)| == |UrlList(y)| == |y|;
    forall k | 0 <= k < |x| ensures x[k] == y[k] {
      assert UrlList(x)[k] == UrlList(y)[k];
      assert MintStep(v, existing, x[k], used[k], used[k + 1]);
      assert MintStep(v, existing', y[k], used'[k], used'[k + 1]);
      MintedNameStays(v, existing, x[k], used[k], used[k + 1]);
    }
  }

  lemma MintedNameStays(v: Verdicts, existing: map<Url, Source>, s: Source, before: set<string>, after: set<string>)
    requires MintStep(v, existing, s, before, after) && OriginsValid(v)
    ensures KeepsName(s.name, OriginOf(v.live, s.url))
  {
    var prev, o := ExistingName(existing, s.url), OriginOf(v.live, s.url);
    if !KeepsName(prev, o) && !Unattributed(prev, o) {
      CreatedNameIsNoHash(s.name, v.hash(s.url), prev, o, before);
      CreatedNameIsNotEmpty(s.name, v.hash(s.url), prev, o, before);
    }
  }

  /** The crawler's own aggregate means nothing to the merge. */
  lemma AggregateIsInvisible(sources: seq<Source>, s: Source)
    requires s.managed && s.body != ""
    ensures Kept(sources + [s]) == Kept(sources) && Existing(sources + [s]) == Existing(sources)
  {
    assert (sources + [s])[..|sources|] == sources;
  }

  // ----- the plan in terms of the file -----

  /** Entry `i` is the managed one of its URL: no later one supersedes it. */
  ghost predicate Current(sources: seq<Source>, i: nat)
  {
    && i < |sources| && sources[i].managed && sources[i].body == ""
    && forall j :: i < j < |sources| && sources[j].managed && sources[j].body == "" ==> sources[j].url != sources[i].url
  }

  /** A name that is nothing but a URL's hash. */
  ghost predicate TenHexDigits(name: string)
  {
    |name| == 10 && forall i :: 0 <= i < 10 ==> '0' <= name[i] <= '9' || 'a' <= name[i] <= 'f'
  }

  lemma {:induction false} CurrentOf(sources: seq<Source>, u: Url) returns (i: nat)
    requires u in Existing(sources)
    ensures Current(sources, i) && sources[i].url == u && Existing(sources)[u] == sources[i]
  {
    var n := |sources| - 1;
    if Owned(sources[n]) && sources[n].url == u {
      i := n;
    } else {
      i := CurrentOf(sources[..n], u);
    }
  }

  lemma {:induction false} CurrentIsExisting(sources: seq<Source>, i: nat)
    requires Current(sources, i)
    ensures sources[i].url in Existing(sources) && Existing(sources)[sources[i].url] == sources[i]
  {
    var n := |sources| - 1;
    if i < n {
      assert sources[..n][i] == sources[i];
      CurrentIsExisting(sources[..n], i);
    }
  }

  /** What the plan's entry of a URL owes to the file: one that has a name of its own stays exactly as it
      is; one named by its hash keeps its hwid, and changes at most its name and feed; a new one has no
      hwid, and its feed is its origin's. */
  ghost predicate OwesToFile(sources: seq<Source>, live: map<Url, Origin>, s: Source)
  {
    && s.managed && s.body == ""
    && (forall i :: 0 <= i < |sources| && Current(sources, i) && sources[i].url == s.url ==>
          && s.hwid == sources[i].hwid && (s.name == sources[i].name ==> s == sources[i])
          && (sources[i].name != "" && !TenHexDigits(sources[i].name) ==> s == sources[i]))
    && ((forall i :: 0 <= i < |sources| && Current(sources, i) ==> sources[i].url != s.url) ==>
          && s.hwid == ""
          && (s.url in live && live[s.url].feed != "" && s.name != "" ==> s.feed == live[s.url].feed))
  }

  lemma PlanOwesToFile(plan: Plan, sources: seq<Source>, curated: set<string>, v: Verdicts)
    requires IsPlan(plan, sources, curated, v)
    ensures forall s :: s in plan.managed ==> OwesToFile(sources, v.live, s)
  {
    hide IsMint, Candidates, Ascending, HashesClear, CreatesName, Retained, Deleted, OriginsValid, Existing, Kept, OwesToFile;
    var existing, all, taken := Existing(sources), Candidates(sources, v), curated + HeldNames(sources);
    var x, used :| IsMint(v, existing, all, taken, x, used) && plan.managed == Sorting.Sort(x, ByName);
    SortedMembers(plan.managed, x);
    forall s | s in plan.managed ensures OwesToFile(sources, v.live, s) {
      var k :| 0 <= k < |x| && x[k] == s;
      MintSteps(v, existing, all, taken, x, used, k);
      StepOwes(sources, v, s, used[k], used[k + 1]);
    }
  }

  lemma MintSteps(v: Verdicts, existing: map<Url, Source>, all: set<Url>, taken: set<string>, x: seq<Source>,
                  used: seq<set<string>>, k: nat)
    requires IsMint(v, existing, all, taken, x, used) && k < |x|
    ensures |used| == |x| + 1 && MintStep(v, existing, x[k], used[k], used[k + 1])
  {
  }

  lemma StepOwes(sources: seq<Source>, v: Verdicts, s: Source, before: set<string>, after: set<string>)
    requires MintStep(v, Existing(sources), s, before, after)
    ensures OwesToFile(sources, v.live, s)
  {
    hide Retained, Current, Existing;
    forall i | 0 <= i < |sources| && Current(sources, i) && sources[i].url == s.url
      ensures s.hwid == sources[i].hwid && (s.name == sources[i].name ==> s == sources[i])
      ensures sources[i].name != "" && !TenHexDigits(sources[i].name) ==> s == sources[i]
    {
      CurrentIsExisting(sources, i);
      CurrentMeans(sources, i);
      HashMeans(sources[i].name);
    }
    if forall i :: 0 <= i < |sources| && Current(sources, i) ==> sources[i].url != s.url {
      if s.url in Existing(sources) {
        var i := CurrentOf(sources, s.url);
        CurrentMeans(sources, i);
      }
    }
  }

  lemma CurrentMeans(sources: seq<Source>, i: nat)
    requires Current(sources, i)
    ensures i < |sources| && sources[i].managed && sources[i].body == ""
  {
  }

  lemma HashMeans(name: string)
    ensures IsHashName(name) <==> TenHexDigits(name)
  {
  }

  /** `kept` are the hand-added entries, all of them as they are, at the places `p` in the file's order. */
  ghost predicate ArePlaces(sources: seq<Source>, kept: seq<Source>, p: seq<nat>)
  {
    && |p| == |kept|
    && (forall k :: 0 <= k < |p| ==> p[k] < |sources| && !sources[p[k]].managed && kept[k] == sources[p[k]])
    && (forall k, m :: 0 <= k < m < |p| ==> p[k] < p[m])
    && (forall i: nat :: i < |sources| && !sources[i].managed ==> i in p)
  }

  /** The hand-added entries stand first in every plan, all of them, as they are and in the file's order. */
  lemma {:induction false} HandAddedStay(sources: seq<Source>) returns (p: seq<nat>)
    ensures ArePlaces(sources, Kept(sources), p)
  {
    hide Kept, ArePlaces;
    if sources == [] {
      p := [];
      NothingPlaced(sources);
    } else {
      var n := |sources| - 1;
      var q := HandAddedStay(sources[..n]);
      p := if sources[n].managed then q else q + [n];
      KeptOneMore(sources);
      if sources[n].managed {
        ManagedHasNoPlace(sources[..n], sources[n], Kept(sources[..n]), q);
      } else {
        HandAddedIsLast(sources[..n], sources[n], Kept(sources[..n]), q);
      }
    }
  }

  lemma NothingPlaced(sources: seq<Source>)
    requires sources == []
    ensures ArePlaces(sources, Kept(sources), [])
  {
  }

  /** A managed entry at the end changes no place, */
  lemma ManagedHasNoPlace(front: seq<Source>, s: Source, kept: seq<Source>, q: seq<nat>)
    requires ArePlaces(front, kept, q) && s.managed
    ensures ArePlaces(front + [s], kept, q)
  {
    var all := front + [s];
    forall k | 0 <= k < |q| ensures q[k] < |all| && !all[q[k]].managed && kept[k] == all[q[k]] {
      assert all[q[k]] == front[q[k]];
    }
    forall i: nat | i < |all| && !all[i].managed ensures i in q {
      assert all[i] == front[i];
    }
  }

  /** and a hand-added one takes the last. */
  lemma HandAddedIsLast(front: seq<Source>, s: Source, kept: seq<Source>, q: seq<nat>)
    requires ArePlaces(front, kept, q) && !s.managed
    ensures ArePlaces(front + [s], kept + [s], q + [|front|])
  {
    var all, p, more := front + [s], q + [|front|], kept + [s];
    forall k | 0 <= k < |p| ensures p[k] < |all| && !all[p[k]].managed && more[k] == all[p[k]] {
      if k < |q| {
        assert p[k] == q[k] && more[k] == kept[k] && all[q[k]] == front[q[k]];
      }
    }
    forall i: nat | i < |all| && !all[i].managed ensures i in p {
      if i < |front| {
        assert all[i] == front[i] && i in q;
      } else {
        assert p[|q|] == i;
      }
    }
  }

  lemma KeptOneMore(sources: seq<Source>)
    requires sources != []
    ensures var front, s := sources[..|sources| - 1], sources[|sources| - 1];
            sources == front + [s] && Kept(sources) == if s.managed then Kept(front) else Kept(front) + [s]
  {
  }

  // ----- where names can clash -----

  /** A URL that has only its hash for a name clashes with a hand-added entry already so named: every
      plan for such a file has two entries of one name. */
  lemma BareHashClashes(plan: Plan, sources: seq<Source>, curated: set<string>, v: Verdicts, u: Url, k: nat)
    requires IsPlan(plan, sources, curated, v) && OriginsValid(v) && DistinctNames(sources)
    requires u in Candidates(sources, v) && Retained(v, u) && HasOnlyHash(v, Existing(sources), u)
    requires k < |Kept(sources)| && Kept(sources)[k].name == v.hash(u)
    ensures !DistinctNames(plan.next)
  {
    hide IsSortedMint, OriginsValid, Deleted, Retained, HasOnlyHash;
    assert u in UrlsOf(plan.managed);
    assert !HashesClear(v, Existing(sources), Kept(sources), UrlsOf(plan.managed));
  }

  const CLASH_NAME := "0123456789"
  const CLASH_URL: Url := "https://a.example/sub"

  /** Such an input exists: the operator takes over an entry named by its URL's hash, pointing it
      elsewhere, while the recheck of the file's older snapshot revives the URL itself. */
  lemma ClashingInput() returns (sources: seq<Source>, v: Verdicts)
    ensures DistinctNames(sources) && OriginsValid(v) && v.live == map[CLASH_URL := UNKNOWN_ORIGIN]
    ensures forall plan, curated :: IsPlan(plan, sources, curated, v) ==> !DistinctNames(plan.next)
  {
    hide IsPlan;
    var byHand := Source(CLASH_NAME, "https://b.example/sub", "", "", false, "");
    sources := [byHand];
    v := Verdicts(map[CLASH_URL := UNKNOWN_ORIGIN], Recheck({CLASH_URL}, {}, {}, 1, 1, []), true, {}, u => true, u => CLASH_NAME);
    OneHandAdded(byHand);
    assert CLASH_URL in Candidates(sources, v) && Retained(v, CLASH_URL);
    assert HasOnlyHash(v, Existing(sources), CLASH_URL);
    forall plan, curated | IsPlan(plan, sources, curated, v) ensures !DistinctNames(plan.next) {
      BareHashClashes(plan, sources, curated, v, CLASH_URL, 0);
    }
  }

  lemma OneHandAdded(s: Source)
    requires Sheltered(s)
    ensures Kept([s]) == [s] && Existing([s]) == map[] && DistinctNames([s])
    ensures ShelteredUrls([s]) == if s.url == "" then {} else {s.url}
  {
    assert [s][..0] == [];
  }

  lemma CreatedAvoidTaken(v: Verdicts, existing: map<Url, Source>, managed: seq<Source>, used: seq<set<string>>)
    requires MintedFrom(v, existing, managed, used) && OriginsValid(v)
    ensures forall s :: s in managed && CreatesName(v, existing, s.url) ==> s.name !in used[0]
  {
    forall s | s in managed && CreatesName(v, existing, s.url) ensures s.name !in used[0] {
      var k :| 0 <= k < |managed| && managed[k] == s;
      CreatedIsNew(v, existing, managed, used, k);
    }
  }

  /** One pass over the file: what is sheltered, what is managed, and every name already spoken for. */
  method Survey(sources: seq<Source>, curated: set<string>)
    returns (kept: seq<Source>, existing: map<Url, Source>, used: set<string>)
    ensures kept == Kept(sources) && existing == Existing(sources)
    ensures used == curated + HeldNames(sources)
  {
    kept, existing, used := [], map[], curated;
    for i := 0 to |sources|
      invariant kept == Kept(sources[..i]) && existing == Existing(sources[..i])
      invariant used == curated + HeldNames(sources[..i])
    {
      assert sources[..i + 1][..i] == sources[..i];
      var s := sources[i];
      if s.body != "" && s.managed {
        continue;
      }
      if s.managed {
        existing := existing[s.url := s];
        assert existing == Existing(sources[..i]) + map[s.url := s];
      } else {
        kept := kept + [s];
      }
      used := used + {s.name};
    }
    assert sources[..|sources|] == sources;
  }
}
