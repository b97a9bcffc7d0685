/** internal/crawl/state.go and github.go: probation of GitHub-minted sources. */
module Probation {
  import opened Basics
  import Sorting
  import Strings
  import opened StringSets
  import CorpusMerge
  import Outcomes

  const WITHDRAW_PERCENT := 25
  const MIN_WITHDRAW_FLOOR := 2
  const PERCENT_SCALE := 100

  datatype Record = Record(barren: nat, published: nat, firstSeen: Time, lastLive: Time)

  type Records = map<string, Record>

  type Reading = Outcomes.Reading

  type Source = CorpusMerge.Source

  datatype Verdict = Verdict(name: string, barren: nat, valid: int)

  // ----- one reading, on values -----

  /** The reading's publish time moves the record's clock, or opens a record. */
  predicate Advances(m: Records, name: string, published: nat)
  {
    if name in m then published > m[name].published else published != 0
  }

  function Fold(m: Records, name: string, survivors: int, published: nat, now: Time): Record
  {
    var e := if name in m then m[name] else Record(0, 0, now, 0);
    if survivors > 0 then Record(0, published, e.firstSeen, now)
    else Record(e.barren + 1, published, e.firstSeen, e.lastLive)
  }

  predicate Folds(m: Records, names: set<string>, r: Reading, name: string)
  {
    name in names && name in r.sources && Advances(m, name, r.published)
  }

  function FoldAll(m: Records, names: set<string>, r: Reading, now: Time): (out: Records)
    ensures forall n :: n in out <==> n in m || Folds(m, names, r, n)
    ensures forall n :: n in out ==>
              out[n] == if Folds(m, names, r, n) then Fold(m, n, r.sources[n].survivors, r.published, now) else m[n]
  {
    map n | n in m.Keys + (names * r.sources.Keys) && (n in m || Folds(m, names, r, n)) ::
      if Folds(m, names, r, n) then Fold(m, n, r.sources[n].survivors, r.published, now) else m[n]
  }

  /** The verdict on a source whose window has run out, from a reading that moved its clock. */
  predicate IsDue(m: Records, names: set<string>, r: Reading, window: nat, now: Time, v: Verdict)
  {
    && Folds(m, names, r, v.name) && v.valid == r.sources[v.name].valid
    && v.barren == Fold(m, v.name, r.sources[v.name].survivors, r.published, now).barren >= window
  }

  /** Longest-barren first, ties by name. */
  function Order(a: Verdict, b: Verdict): bool
  {
    if a.barren != b.barren then a.barren > b.barren else Strings.Leq(a.name, b.name)
  }

  lemma OrderIsTotal()
    ensures Sorting.TotalPreorder(Order)
  {
    Strings.IsTotalOrder();
  }

  /** The first `room` of the due verdicts, in order: this says which they are. */
  ghost predicate IsTop(top: seq<Verdict>, due: set<Verdict>, room: nat)
  {
    && |top| == (if |due| < room then |due| else room)
    && (forall v :: v in top ==> v in due)
    && (forall i, j :: 0 <= i < j < |top| ==> top[i] != top[j] && Order(top[i], top[j]))
    && (forall v, w :: v in due && v !in top && w in top ==> Order(w, v))
  }

  /** The cap on one pass: a quarter of the population, but never below two. */
  function WithdrawRoom(population: nat): nat
  {
    var share := population * WITHDRAW_PERCENT / PERCENT_SCALE;
    if share < MIN_WITHDRAW_FLOOR then MIN_WITHDRAW_FLOOR else share
  }

  // ----- one cycle, on values -----

  const GH_FEED_PREFIX := "gh:"

  /** An entry the GitHub phase minted, as its feed says. */
  predicate FromGithub(s: Source)
  {
    s.managed && s.url != "" && GH_FEED_PREFIX <= s.feed
  }

  /** The GitHub entries' URLs by name, the last entry of a name winning. */
  function GithubUrls(sources: seq<Source>): map<string, Url>
  {
    if sources == [] then map[]
    else
      var front, s := sources[..|sources| - 1], sources[|sources| - 1];
      GithubUrls(front) + if FromGithub(s) then map[s.name := s.url] else map[]
  }

  /** Only the phase's own entries are on probation, each under its name and with its URL. */
  lemma {:induction false} OnlyGithubOnProbation(sources: seq<Source>, name: string) returns (i: int)
    ensures if name in GithubUrls(sources)
            then 0 <= i < |sources| && sources[i].managed && sources[i].url != "" && "gh:" <= sources[i].feed
                 && sources[i].name == name && sources[i].url == GithubUrls(sources)[name]
            else i == |sources|
    ensures forall j :: 0 <= j < |sources| && (j > i || i == |sources|) ==>
              !(sources[j].managed && sources[j].url != "" && "gh:" <= sources[j].feed && sources[j].name == name)
  {
    if sources == [] {
      i := 0;
    } else {
      var n := |sources| - 1;
      if FromGithub(sources[n]) && sources[n].name == name {
        i := n;
      } else {
        i := OnlyGithubOnProbation(sources[..n], name);
        if name !in GithubUrls(sources) {
          i := n + 1;
        }
      }
    }
  }

  /** What one probation pass is given: the file's entries, and what fetching the outcomes came to. */
  datatype Cycle = Cycle(sources: seq<Source>, reading: Outcomes.Fetched, now: Time)
  {
    function ByName(): map<string, Url> { GithubUrls(sources) }
  }

  predicate Usable(c: Cycle)
  {
    c.ByName() != map[] && c.reading.Ok? && c.reading.reading.sources != map[]
  }

  function DueIn(m: Records, c: Cycle, window: nat): (due: set<Verdict>)
    requires Usable(c)
    ensures forall v :: v in due <==> IsDue(m, c.ByName().Keys, c.reading.reading, window, c.now, v)
  {
    var r := c.reading.reading;
    var names := set n | n in c.ByName().Keys && Folds(m, c.ByName().Keys, r, n);
    set n | n in names && Fold(m, n, r.sources[n].survivors, r.published, c.now).barren >= window ::
      Verdict(n, Fold(m, n, r.sources[n].survivors, r.published, c.now).barren, r.sources[n].valid)
  }

  function NamesOf(vs: seq<Verdict>): set<string>
  {
    set v | v in vs :: v.name
  }

  /** One pass takes the records from `m` to `after` and withdraws `condemned`. */
  ghost predicate Step(m: Records, c: Cycle, window: nat, condemned: seq<Verdict>, after: Records)
  {
    if !Usable(c) then condemned == [] && after == m
    else
      && IsTop(condemned, DueIn(m, c, window), WithdrawRoom(|c.ByName()|))
      && after == Kept(FoldAll(m, c.ByName().Keys, c.reading.reading, c.now), c.ByName().Keys - NamesOf(condemned))
  }

  function Kept(m: Records, names: set<string>): Records
  {
    map n | n in m && n in names :: m[n]
  }

  /** Reading one snapshot again changes nothing and condemns nobody. */
  lemma RereadIsNoOp(m: Records, names: set<string>, r: Reading, window: nat, first: Time, again: Time)
    ensures var once := FoldAll(m, names, r, first);
            FoldAll(once, names, r, again) == once && forall v :: !IsDue(once, names, r, window, again, v)
  {
    var once := FoldAll(m, names, r, first);
    forall n ensures !Folds(once, names, r, n) {
      if n in names && n in r.sources && n in once && Folds(m, names, r, n) {
        assert once[n].published == r.published;
      }
    }
  }

  // ----- the code -----

  function Members(names: seq<string>): set<string>
  {
    set n | n in names
  }

  class State {
    var probation: Records
    var dirty: bool

    constructor ()
      ensures probation == map[] && !dirty
    {
      probation, dirty := map[], false;
    }

    method FoldOutcome(name: string, survivors: int, published: nat, now: Time) returns (barren: nat)
      modifies this
      ensures probation == if Advances(old(probation), name, published)
                           then old(probation)[name := Fold(old(probation), name, survivors, published, now)]
                           else old(probation)
      ensures barren == if name in probation then probation[name].barren else 0
      ensures dirty == (old(dirty) || Advances(old(probation), name, published))
    {
      var e := Record(0, 0, 0, 0);
      if name !in probation {
        if published == 0 {
          return 0;
        }
        e := e.(firstSeen := now);
      } else {
        e := probation[name];
        if published <= e.published {
          return e.barren;
        }
      }
      e := e.(published := published);
      if survivors > 0 {
        e := e.(barren := 0, lastLive := now);
      } else {
        e := e.(barren := e.barren + 1);
      }
      probation := probation[name := e];
      dirty := true;
      barren := e.barren;
    }

    method FoldReading(names: seq<string>, r: Reading, window: nat, now: Time) returns (due: seq<Verdict>)
      requires Ascending(names) && window > 0
      modifies this
      ensures probation == FoldAll(old(probation), Members(names), r, now)
      ensures forall v :: v in due <==> IsDue(old(probation), Members(names), r, window, now, v)
      ensures Sorting.SortedBy(due, Order) && forall i, j :: 0 <= i < j < |due| ==> due[i].name != due[j].name
    {
      hide FoldAll, Fold, Folds, IsDue, Order, Ascending, Strings.Less;
      ghost var m := probation;
      NothingFolded(m, r, window, now);
      due := [];
      for i := 0 to |names|
        invariant probation == FoldAll(m, Members(names[..i]), r, now)
        invariant forall v :: v in due <==> IsDue(m, Members(names[..i]), r, window, now, v)
        invariant forall a, b :: 0 <= a < b < |due| ==> due[a].name != due[b].name
      {
        var name := names[i];
        AheadIsLater(names, i);
        ghost var done, more := Members(names[..i]), Members(names[..i + 1]);
        assert names[..i + 1] == names[..i] + [name];
        assert more == done + {name};
        FoldOneMore(m, done, name, r, now);
        DueOneMore(m, done, name, r, window, now);
        if name !in r.sources {
          continue;
        }
        var outcome := r.sources[name];
        var had := name in probation;
        var prev := if had then probation[name].published else 0;
        var barren := FoldOutcome(name, outcome.survivors, r.published, now);
        if had && r.published <= prev {
          continue;
        }
        if barren >= window {
          due := due + [Verdict(name, barren, outcome.valid)];
        }
      }
      assert names[..|names|] == names;
      due := SortDue(due);
    }

    method ForgetProbation(names: set<string>)
      modifies this
      ensures probation == Kept(old(probation), old(probation).Keys - names)
      ensures dirty == (old(dirty) || !(names !! old(probation).Keys))
    {
      var changed := false;
      var todo := names;
      while todo != {}
        invariant todo <= names && probation == Kept(old(probation), old(probation).Keys - (names - todo))
        invariant dirty == old(dirty) && (changed <==> !((names - todo) !! old(probation).Keys))
        decreases todo
      {
        var n :| n in todo;
        if n in probation {
          probation := map k | k in probation && k != n :: probation[k];
          changed := true;
        }
        todo := todo - {n};
      }
      if changed {
        dirty := true;
      }
    }

    method PruneProbation(known: set<string>)
      modifies this
      ensures probation == Kept(old(probation), known)
      ensures dirty == (old(dirty) || !(old(probation).Keys <= known))
    {
      var gone := set n | n in probation && n !in known;
      ForgetProbation(gone);
    }

    /** One pass: fold the reading, withdraw what the cap lets through, drop what is no longer probed. */
    method GithubWithdrawals(c: Cycle, window: nat) returns (condemned: seq<Verdict>, withdrawn: set<Url>)
      requires window > 0
      modifies this
      ensures Step(old(probation), c, window, condemned, probation)
      ensures withdrawn == set v | v in condemned && v.name in c.ByName() :: c.ByName()[v.name]
    {
      hide GithubUrls, FoldAll, IsDue, IsTop, Order, Advances, Fold, Folds, Kept;
      var byName := GithubEntries(c.sources);
      if byName == map[] || !c.reading.Ok? || c.reading.reading.sources == map[] {
        return [], {};
      }
      var r := c.reading.reading;
      var names := SortedStrings(byName.Keys);
      assert Members(names) == byName.Keys;
      var due := FoldReading(names, r, window, c.now);
      var room := WithdrawRoom(|byName|);
      condemned := if |due| > room then due[..room] else due;
      PrefixIsTop(due, DueIn(old(probation), c, window), room);
      withdrawn := set v | v in condemned && v.name in byName :: byName[v.name];
      ghost var folded := probation;
      PruneProbation(byName.Keys);
      ForgetProbation(NamesOf(condemned));
      KeptTwice(folded, byName.Keys, NamesOf(condemned));
    }
  }

  lemma KeptTwice(m: Records, known: set<string>, gone: set<string>)
    ensures Kept(Kept(m, known), Kept(m, known).Keys - gone) == Kept(m, known - gone)
  {
  }

  method GithubEntries(sources: seq<Source>) returns (byName: map<string, Url>)
    ensures byName == GithubUrls(sources)
  {
    byName := map[];
    for i := 0 to |sources|
      invariant byName == GithubUrls(sources[..i])
    {
      assert sources[..i + 1][..i] == sources[..i];
      var s := sources[i];
      if s.managed && s.url != "" && GH_FEED_PREFIX <= s.feed {
        byName := byName[s.name := s.url];
      }
    }
    assert sources[..|sources|] == sources;
  }

  method SortDue(gathered: seq<Verdict>) returns (due: seq<Verdict>)
    requires forall i, j :: 0 <= i < j < |gathered| ==> gathered[i].name != gathered[j].name
    ensures Sorting.SortedBy(due, Order) && forall v :: v in due <==> v in gathered
    ensures forall i, j :: 0 <= i < j < |due| ==> due[i].name != due[j].name
  {
    OrderIsTotal();
    due := Sorting.Sort(gathered, Order);
    Sorting.SortIsSortedPermutation(gathered, Order);
    Sorting.SortKeepsValues(gathered, Order);
    var p := Sorting.StablePermutation(gathered, Order);
    forall i, j | 0 <= i < j < |due| ensures due[i].name != due[j].name {
      assert Sorting.Before(gathered, Order, p[i], p[j]);
      assert p[i] != p[j];
    }
  }

  lemma NothingFolded(m: Records, r: Reading, window: nat, now: Time)
    ensures FoldAll(m, Members([]), r, now) == m && forall v :: !IsDue(m, Members([]), r, window, now, v)
  {
  }

  lemma FoldOneMore(m: Records, done: set<string>, name: string, r: Reading, now: Time)
    requires name !in done
    ensures FoldAll(m, done + {name}, r, now) ==
            if name in r.sources && Advances(m, name, r.published)
            then FoldAll(m, done, r, now)[name := Fold(m, name, r.sources[name].survivors, r.published, now)]
            else FoldAll(m, done, r, now)
    ensures name in FoldAll(m, done, r, now) <==> name in m
    ensures name in m ==> FoldAll(m, done, r, now)[name] == m[name]
    ensures name in r.sources ==>
              var s := r.sources[name].survivors;
              Fold(FoldAll(m, done, r, now), name, s, r.published, now) == Fold(m, name, s, r.published, now)
  {
  }

  /** One more name adds at most its own verdict. */
  lemma DueOneMore(m: Records, done: set<string>, name: string, r: Reading, window: nat, now: Time)
    requires name !in done
    ensures forall v :: IsDue(m, done, r, window, now, v) ==> v.name in done
    ensures if name !in r.sources || !Advances(m, name, r.published)
            then forall v :: IsDue(m, done + {name}, r, window, now, v) <==> IsDue(m, done, r, window, now, v)
            else var e := Fold(m, name, r.sources[name].survivors, r.published, now);
                 forall v :: IsDue(m, done + {name}, r, window, now, v) <==>
                   IsDue(m, done, r, window, now, v) || (e.barren >= window && v == Verdict(name, e.barren, r.sources[name].valid))
  {
  }

  lemma PrefixIsTop(due: seq<Verdict>, all: set<Verdict>, room: nat)
    requires Sorting.SortedBy(due, Order) && forall v :: v in due <==> v in all
    requires forall i, j :: 0 <= i < j < |due| ==> due[i].name != due[j].name
    ensures IsTop(if |due| > room then due[..room] else due, all, room)
  {
    SizeOfDistinct(due, all);
    var top := if |due| > room then due[..room] else due;
    forall v, w | v in all && v !in top && w in top ensures Order(w, v) {
      var i :| 0 <= i < |top| && top[i] == w;
      var j :| 0 <= j < |due| && due[j] == v;
      assert j >= |top| > i;
    }
  }

  lemma {:induction false} SizeOfDistinct(due: seq<Verdict>, all: set<Verdict>)
    requires forall v :: v in due <==> v in all
    requires forall i, j :: 0 <= i < j < |due| ==> due[i] != due[j]
    ensures |all| == |due|
  {
    if due != [] {
      var n := |due| - 1;
      var last := due[n];
      forall v ensures v in due[..n] <==> v in all - {last} {
        if v in all - {last} {
          var k :| 0 <= k < |due| && due[k] == v;
        }
      }
      SizeOfDistinct(due[..n], all - {last});
    } else {
      assert all == {};
    }
  }

  // ----- whole runs -----

  /** One reading of one source: when it was published, the survivors it reports, when it was read. */
  datatype Sample = Sample(published: nat, survivors: int, at: Time)

  /** Whether the `i`-th sample is newer than everything before it. */
  ghost predicate Newest(log: seq<Sample>, i: nat)
    requires i < |log|
  {
    log[i].published > 0 && forall j :: 0 <= j < i ==> log[j].published < log[i].published
  }

  /** The newest-yet samples with no survivor since the last newest-yet sample that had one. */
  ghost function Barren(log: seq<Sample>): set<nat>
  {
    set i: nat | i < |log| && Newest(log, i) && forall k :: i <= k < |log| && Newest(log, k) ==> log[k].survivors <= 0
  }

  /** The record a log of readings leaves, one fold at a time. */
  ghost function RecordOf(log: seq<Sample>): Option<Record>
  {
    if log == [] then None
    else
      var before, s := RecordOf(log[..|log| - 1]), log[|log| - 1];
      var m: Records := if before.Some? then map["" := before.value] else map[];
      if Advances(m, "", s.published) then Some(Fold(m, "", s.survivors, s.published, s.at)) else before
  }

  lemma NewestOfPrefix(log: seq<Sample>, n: nat, i: nat)
    requires i < n <= |log|
    ensures Newest(log[..n], i) <==> Newest(log, i)
  {
    assert forall j :: 0 <= j < n ==> log[..n][j] == log[j];
  }

  /** How the barren set changes with one more sample. */
  lemma BarrenStep(log: seq<Sample>)
    requires log != []
    ensures var n := |log| - 1;
            Barren(log) == if !Newest(log, n) then Barren(log[..n])
                           else if log[n].survivors > 0 then {}
                           else Barren(log[..n]) + {n}
  {
    hide Newest;
    var n := |log| - 1;
    forall i: nat | i < n ensures Newest(log[..n], i) <==> Newest(log, i) {
      NewestOfPrefix(log, n, i);
    }
    assert forall i :: 0 <= i < n ==> log[..n][i] == log[i];
    forall i: nat ensures i in Barren(log) <==>
      if !Newest(log, n) then i in Barren(log[..n])
      else log[n].survivors <= 0 && (i in Barren(log[..n]) || i == n)
    {
    }
  }

  ghost predicate FirstNewest(log: seq<Sample>, i: nat)
  {
    i < |log| && Newest(log, i) && forall j :: 0 <= j < i ==> !Newest(log, j)
  }

  ghost predicate LastSurviving(log: seq<Sample>, i: nat)
  {
    i < |log| && Newest(log, i) && log[i].survivors > 0
    && forall j :: i < j < |log| && Newest(log, j) ==> log[j].survivors <= 0
  }

  /** Something was published. */
  ghost predicate Published(log: seq<Sample>)
  {
    exists i :: 0 <= i < |log| && log[i].published > 0
  }

  /** `clock` is the newest publish time. */
  ghost predicate NewestTime(log: seq<Sample>, clock: nat)
  {
    && (forall i :: 0 <= i < |log| ==> log[i].published <= clock)
    && (exists i :: 0 <= i < |log| && log[i].published == clock)
  }

  /** The record is the log's: it exists once something was published, its clock is the newest publish
      time, its count is the number of newest-yet publishes since the last survivor. */
  lemma {:induction false} RecordIsLog(log: seq<Sample>)
    ensures RecordOf(log).Some? <==> Published(log)
    ensures RecordOf(log).Some? ==>
              var e := RecordOf(log).value;
              e.published > 0 && e.barren == |Barren(log)| && NewestTime(log, e.published)
    ensures RecordOf(log).None? ==> Barren(log) == {}
  {
    if log != [] {
      var n := |log| - 1;
      hide Newest, Barren, Published, NewestTime;
      RecordIsLog(log[..n]);
      BarrenStep(log);
      assert log == log[..n] + [log[n]];
      if RecordOf(log[..n]).Some? {
        LaterPublish(log[..n], log[n], RecordOf(log[..n]).value.published);
      } else {
        FirstPublish(log[..n], log[n]);
      }
    } else {
      NothingPublished(log);
    }
  }

  lemma NothingPublished(log: seq<Sample>)
    requires log == []
    ensures !Published(log) && Barren(log) == {}
  {
  }

  /** On top of what was published, a sample is newest-yet when it is newer than the clock. */
  lemma LaterPublish(front: seq<Sample>, s: Sample, clock: nat)
    requires NewestTime(front, clock) && clock > 0
    ensures var log := front + [s];
            && Published(log) && (Newest(log, |front|) <==> s.published > clock)
            && NewestTime(log, if s.published > clock then s.published else clock)
  {
    var log := front + [s];
    var i :| 0 <= i < |front| && front[i].published == clock;
    assert log[i] == front[i] && log[|front|] == s;
    forall j | 0 <= j < |front| ensures log[j].published <= clock {
      assert log[j] == front[j];
    }
  }

  lemma FirstPublish(front: seq<Sample>, s: Sample)
    requires !Published(front)
    ensures var log := front + [s];
            && (Published(log) <==> s.published > 0) && (Newest(log, |front|) <==> s.published > 0)
            && (s.published > 0 ==> NewestTime(log, s.published))
  {
    var log := front + [s];
    assert log[|front|] == s;
    forall j | 0 <= j < |front| ensures log[j].published == 0 {
      assert log[j] == front[j];
    }
  }

  lemma SomeNewest(log: seq<Sample>) returns (i: nat)
    requires exists j :: 0 <= j < |log| && log[j].published > 0
    ensures i < |log| && Newest(log, i)
  {
    i := 0;
    while log[i].published == 0
      invariant i < |log| && forall j :: 0 <= j < i ==> log[j].published == 0
      decreases |log| - i
    {
      i := i + 1;
    }
  }

  /** The record's times: it was opened at the first newest-yet sample, and last saw a survivor at the
      last one that had one. */
  lemma {:induction false} RecordTimes(log: seq<Sample>, i: nat)
    ensures FirstNewest(log, i) ==> RecordOf(log).Some? && RecordOf(log).value.firstSeen == log[i].at
    ensures LastSurviving(log, i) ==> RecordOf(log).Some? && RecordOf(log).value.lastLive == log[i].at
  {
    if log != [] {
      var n := |log| - 1;
      var front := log[..n];
      hide Newest, FirstNewest, LastSurviving;
      RecordTimes(front, i);
      AdvancesIsNewest(log);
      if FirstNewest(log, i) {
        if i < n {
          FirstOfFront(log, i);
        } else {
          FirstOpens(log, i);
        }
      }
      if LastSurviving(log, i) {
        if i < n {
          LastOfFront(log, i);
        } else {
          LastSurvives(log, i);
        }
      }
    }
  }

  lemma AdvancesIsNewest(log: seq<Sample>)
    requires log != []
    ensures var n := |log| - 1;
            var before := RecordOf(log[..n]);
            Newest(log, n) <==> Advances(if before.Some? then map["" := before.value] else map[], "", log[n].published)
  {
    hide Newest, Barren, Published, NewestTime;
    var front, s := log[..|log| - 1], log[|log| - 1];
    RecordIsLog(front);
    assert log == front + [s];
    if RecordOf(front).Some? {
      LaterPublish(front, s, RecordOf(front).value.published);
    } else {
      FirstPublish(front, s);
    }
  }

  /** The first newest-yet sample finds no record. */
  lemma FirstOpens(log: seq<Sample>, i: nat)
    requires log != [] && FirstNewest(log, i) && i >= |log| - 1
    ensures i == |log| - 1 && Newest(log, i) && RecordOf(log[..i]).None?
  {
    var front := log[..i];
    RecordIsLog(front);
    if RecordOf(front).Some? {
      var j := SomeNewest(front);
      NewestOfPrefix(log, i, j);
    }
  }

  lemma LastSurvives(log: seq<Sample>, i: nat)
    requires log != [] && LastSurviving(log, i) && i >= |log| - 1
    ensures i == |log| - 1 && Newest(log, i) && log[i].survivors > 0
  {
  }

  lemma FirstOfFront(log: seq<Sample>, i: nat)
    requires FirstNewest(log, i) && i < |log| - 1
    ensures FirstNewest(log[..|log| - 1], i) && log[..|log| - 1][i] == log[i]
  {
    var n := |log| - 1;
    forall j: nat | j <= i ensures Newest(log[..n], j) <==> Newest(log, j) { NewestOfPrefix(log, n, j); }
  }

  lemma LastOfFront(log: seq<Sample>, i: nat)
    requires LastSurviving(log, i) && i < |log| - 1
    ensures LastSurviving(log[..|log| - 1], i) && log[..|log| - 1][i] == log[i]
    ensures Newest(log, |log| - 1) ==> log[|log| - 1].survivors <= 0
  {
    var n := |log| - 1;
    forall j: nat | j < n ensures Newest(log[..n], j) <==> Newest(log, j) { NewestOfPrefix(log, n, j); }
    assert forall j :: 0 <= j < n ==> log[..n][j] == log[j];
  }

  /** The readings of `name` since its record was last dropped, after the first `n` passes. */
  ghost function Evidence(run: seq<Cycle>, condemned: seq<seq<Verdict>>, name: string, n: nat): seq<Sample>
    requires n <= |run| == |condemned|
  {
    if n == 0 then []
    else
      var before, c := Evidence(run, condemned, name, n - 1), run[n - 1];
      if !Usable(c) then before
      else if name !in c.ByName() || name in NamesOf(condemned[n - 1]) then []
      else if name in c.reading.reading.sources then before + [SampleOf(c, name)]
      else before
  }

  function SampleOf(c: Cycle, name: string): Sample
    requires Usable(c) && name in c.reading.reading.sources
  {
    Sample(c.reading.reading.published, c.reading.reading.sources[name].survivors, c.now)
  }

  ghost predicate IsRun(run: seq<Cycle>, window: nat, condemned: seq<seq<Verdict>>, states: seq<Records>)
  {
    && |condemned| == |run| && |states| == |run| + 1 && states[0] == map[]
    && forall k :: 0 <= k < |run| ==> Step(states[k], run[k], window, condemned[k], states[k + 1])
  }

  function Lookup(m: Records, name: string): Option<Record>
  {
    if name in m then Some(m[name]) else None
  }

  /** Over a whole run every stored record is the one its own evidence leaves. */
  lemma {:induction false} RecordsAreEvidence(run: seq<Cycle>, window: nat, condemned: seq<seq<Verdict>>, states: seq<Records>, n: nat, name: string)
    requires IsRun(run, window, condemned, states) && n <= |run|
    ensures Lookup(states[n], name) == RecordOf(Evidence(run, condemned, name, n))
  {
    hide GithubUrls;
    if n > 0 {
      RecordsAreEvidence(run, window, condemned, states, n - 1, name);
      assert Step(states[n - 1], run[n - 1], window, condemned[n - 1], states[n]);
      var c, before := run[n - 1], Evidence(run, condemned, name, n - 1);
      if Usable(c) && name in c.ByName() && name in c.reading.reading.sources {
        OneMoreSample(states[n - 1], c, name, before);
      }
    }
  }

  lemma OneMoreSample(m: Records, c: Cycle, name: string, log: seq<Sample>)
    requires Usable(c) && name in c.ByName() && name in c.reading.reading.sources
    requires Lookup(m, name) == RecordOf(log)
    ensures Lookup(FoldAll(m, c.ByName().Keys, c.reading.reading, c.now), name) == RecordOf(log + [SampleOf(c, name)])
  {
    hide GithubUrls;
    assert (log + [SampleOf(c, name)])[..|log|] == log;
  }

  /** A source is withdrawn only on a reading newer than all its evidence, with at least `window`
      published cycles in a row without a survivor; at most a quarter of the population (or two) go in
      one pass, and nobody due who stays had been barren for longer than anyone who goes. */
  lemma WithdrawnOnlyWhenBarren(run: seq<Cycle>, window: nat, condemned: seq<seq<Verdict>>, states: seq<Records>, n: nat, v: Verdict)
    requires IsRun(run, window, condemned, states) && n < |run| && v in condemned[n] && window > 0
    ensures Usable(run[n]) && v.name in run[n].ByName() && v.name in run[n].reading.reading.sources
    ensures var log := Evidence(run, condemned, v.name, n) + [SampleOf(run[n], v.name)];
            Newest(log, |log| - 1) && |Barren(log)| == v.barren >= window
    ensures |condemned[n]| <= 2 || 4 * |condemned[n]| <= |run[n].ByName()|
    ensures forall w :: IsDue(states[n], run[n].ByName().Keys, run[n].reading.reading, window, run[n].now, w) && w !in condemned[n] ==>
              w.barren <= v.barren && |condemned[n]| >= 2 && 4 * (|condemned[n]| + 1) > |run[n].ByName()|
  {
    hide IsDue, RecordOf, Newest, Barren, FoldAll, GithubUrls;
    var c, m := run[n], states[n];
    assert Step(m, c, window, condemned[n], states[n + 1]);
    RoomInNumbers(|c.ByName()|);
    RecordsAreEvidence(run, window, condemned, states, n, v.name);
    DueIsBarren(m, c, window, v, Evidence(run, condemned, v.name, n));
    forall w | w in DueIn(m, c, window) && w !in condemned[n] ensures |condemned[n]| == WithdrawRoom(|c.ByName()|) {
      NotAllTaken(condemned[n], DueIn(m, c, window), w);
    }
  }

  /** What a due verdict says about the evidence it was reached on. */
  lemma DueIsBarren(m: Records, c: Cycle, window: nat, v: Verdict, before: seq<Sample>)
    requires Usable(c) && IsDue(m, c.ByName().Keys, c.reading.reading, window, c.now, v)
    requires Lookup(m, v.name) == RecordOf(before)
    ensures v.name in c.ByName() && v.name in c.reading.reading.sources
    ensures var log := before + [SampleOf(c, v.name)];
            Newest(log, |log| - 1) && |Barren(log)| == v.barren >= window
  {
    hide Barren, GithubUrls;
    var log := before + [SampleOf(c, v.name)];
    OneMoreSample(m, c, v.name, before);
    RecordIsLog(log);
    RecordIsLog(before);
    assert forall j :: 0 <= j < |before| ==> log[j] == before[j];
  }

  lemma NotAllTaken(top: seq<Verdict>, due: set<Verdict>, w: Verdict)
    requires (forall v :: v in top ==> v in due) && w in due && w !in top
    requires forall i, j :: 0 <= i < j < |top| ==> top[i] != top[j]
    ensures |top| < |due|
  {
    var taken := set v | v in top;
    SizeOfDistinct(top, taken);
    SubsetSize(taken, due - {w});
  }

  /** What a withdrawal in pass `n` rests on: a reading newer than all the evidence since the record was
      last dropped, and at least `window` published cycles in a row without a survivor. */
  ghost predicate Earned(run: seq<Cycle>, window: nat, condemned: seq<seq<Verdict>>, n: nat, v: Verdict)
    requires n < |run| == |condemned|
  {
    && Usable(run[n]) && v.name in run[n].ByName() && v.name in run[n].reading.reading.sources
    && var log := Evidence(run, condemned, v.name, n) + [SampleOf(run[n], v.name)];
       Newest(log, |log| - 1) && |Barren(log)| == v.barren >= window
  }

  /** Pass `n` read a publish of `name` newer than all its evidence, and with it at least `window`
      published cycles in a row without a survivor. */
  ghost predicate FallsDue(run: seq<Cycle>, window: nat, condemned: seq<seq<Verdict>>, n: nat, name: string)
    requires n < |run| == |condemned|
  {
    && run[n].reading.Ok? && name in run[n].ByName() && name in run[n].reading.reading.sources
    && Usable(run[n])
    && var log := Evidence(run, condemned, name, n) + [SampleOf(run[n], name)];
       Newest(log, |log| - 1) && |Barren(log)| >= window
  }

  /** How many barren cycles in a row pass `n` has seen of `name`. */
  ghost function BarrenBy(run: seq<Cycle>, condemned: seq<seq<Verdict>>, n: nat, name: string): nat
    requires n < |run| == |condemned|
  {
    if Usable(run[n]) && name in run[n].reading.reading.sources
    then |Barren(Evidence(run, condemned, name, n) + [SampleOf(run[n], name)])| else 0
  }

  /** The cap in numbers: two, or a quarter of the population, and no less when somebody due stays, who
      had then not been barren for longer than anyone who goes. */
  ghost predicate WithinCap(run: seq<Cycle>, window: nat, condemned: seq<seq<Verdict>>, n: nat)
    requires n < |run| == |condemned|
  {
    var population, gone := |run[n].ByName()|, condemned[n];
    && (|gone| <= 2 || 4 * |gone| <= population)
    && forall name :: FallsDue(run, window, condemned, n, name) && name !in NamesOf(gone) ==>
         && |gone| >= 2 && 4 * (|gone| + 1) > population
         && forall v :: v in gone ==>
              var barren := BarrenBy(run, condemned, n, name);
              v.barren > barren || (v.barren == barren && Strings.Leq(v.name, name))
  }

  /** Who falls due gets a due verdict. */
  lemma DueVerdict(run: seq<Cycle>, window: nat, condemned: seq<seq<Verdict>>, states: seq<Records>, n: nat, name: string)
    returns (v: Verdict)
    requires IsRun(run, window, condemned, states) && n < |run| && FallsDue(run, window, condemned, n, name)
    ensures v.name == name && v in DueIn(states[n], run[n], window)
    ensures v.barren == BarrenBy(run, condemned, n, name)
  {
    hide Barren, GithubUrls;
    var c, m, before := run[n], states[n], Evidence(run, condemned, name, n);
    RecordsAreEvidence(run, window, condemned, states, n, name);
    hide IsRun, Evidence;
    var log := before + [SampleOf(c, name)];
    OneMoreSample(m, c, name, before);
    RecordIsLog(log);
    RecordIsLog(before);
    assert forall j :: 0 <= j < |before| ==> log[j] == before[j];
    v := Verdict(name, |Barren(log)|, c.reading.reading.sources[name].valid);
    assert IsDue(m, c.ByName().Keys, c.reading.reading, window, c.now, v);
  }

  lemma PassIsWithinCap(run: seq<Cycle>, window: nat, condemned: seq<seq<Verdict>>, states: seq<Records>, n: nat)
    requires IsRun(run, window, condemned, states) && n < |run|
    ensures WithinCap(run, window, condemned, n)
  {
    hide FallsDue, Barren, GithubUrls, Evidence, IsDue, Usable, BarrenBy;
    var c, gone := run[n], condemned[n];
    assert Step(states[n], c, window, gone, states[n + 1]);
    RoomInNumbers(|c.ByName()|);
    StepFits(states[n], c, window, gone, states[n + 1]);
    forall name | FallsDue(run, window, condemned, n, name) && name !in NamesOf(gone)
      ensures |gone| >= 2 && 4 * (|gone| + 1) > |c.ByName()|
      ensures forall v :: v in gone ==>
                var barren := BarrenBy(run, condemned, n, name);
                v.barren > barren || (v.barren == barren && Strings.Leq(v.name, name))
    {
      FallsDueIsUsable(run, window, condemned, n, name);
      var v := DueVerdict(run, window, condemned, states, n, name);
      assert v !in gone;
      StaysOnlyWhenFull(states[n], c, window, gone, states[n + 1], v);
    }
  }

  lemma FallsDueIsUsable(run: seq<Cycle>, window: nat, condemned: seq<seq<Verdict>>, n: nat, name: string)
    requires n < |run| == |condemned| && FallsDue(run, window, condemned, n, name)
    ensures Usable(run[n]) && name in run[n].reading.reading.sources
  {
  }

  lemma RoomInNumbers(population: nat)
    ensures var room := WithdrawRoom(population);
            room >= 2 && (room == 2 || 4 * room <= population) && 4 * (room + 1) > population
  {
  }

  lemma StepFits(m: Records, c: Cycle, window: nat, gone: seq<Verdict>, after: Records)
    requires Step(m, c, window, gone, after)
    ensures |gone| <= WithdrawRoom(|c.ByName()|)
  {
    hide GithubUrls, FoldAll, Usable, WithdrawRoom;
  }

  lemma StaysOnlyWhenFull(m: Records, c: Cycle, window: nat, gone: seq<Verdict>, after: Records, v: Verdict)
    requires Step(m, c, window, gone, after) && Usable(c) && v in DueIn(m, c, window) && v !in gone
    ensures |gone| == WithdrawRoom(|c.ByName()|)
    ensures forall w :: w in gone ==> w.barren > v.barren || (w.barren == v.barren && Strings.Leq(w.name, v.name))
  {
    hide GithubUrls, FoldAll, Usable, WithdrawRoom, IsDue;
    NotAllTaken(gone, DueIn(m, c, window), v);
  }

  /** Running the code over a whole run takes exactly the run's steps, and every withdrawal is earned. */
  method Probate(run: seq<Cycle>, window: nat) returns (condemned: seq<seq<Verdict>>, ghost states: seq<Records>)
    requires window > 0
    ensures IsRun(run, window, condemned, states) && |condemned| == |run|
    ensures forall n, v :: 0 <= n < |run| && v in condemned[n] ==> Earned(run, window, condemned, n, v)
    ensures forall n :: 0 <= n < |run| ==> WithinCap(run, window, condemned, n)
    ensures forall n :: 0 <= n < |run| && LearnsNothing(run[n]) ==> condemned[n] == [] && states[n + 1] == states[n]
  {
    hide LearnsNothing;
    hide Step, GithubUrls, IsRun, Earned, WithinCap;
    var st := new State();
    condemned, states := [], [st.probation];
    for k := 0 to |run|
      invariant fresh(st) && |condemned| == k && |states| == k + 1 && states[0] == map[] && states[k] == st.probation
      invariant forall i :: 0 <= i < k ==> Step(states[i], run[i], window, condemned[i], states[i + 1])
    {
      var gone, urls := st.GithubWithdrawals(run[k], window);
      condemned, states := condemned + [gone], states + [st.probation];
    }
    StepsMakeRun(run, window, condemned, states);
    forall n, v | 0 <= n < |run| && v in condemned[n] ensures Earned(run, window, condemned, n, v) {
      WithdrawalIsEarned(run, window, condemned, states, n, v);
    }
    forall n | 0 <= n < |run| ensures WithinCap(run, window, condemned, n) {
      PassIsWithinCap(run, window, condemned, states, n);
    }
    forall n | 0 <= n < |run| && LearnsNothing(run[n]) ensures condemned[n] == [] && states[n + 1] == states[n] {
      NothingLearnt(states[n], run[n], window, condemned[n], states[n + 1]);
    }
  }

  /** No usable reading, one that names no source, or no entry of the phase's own. */
  ghost predicate LearnsNothing(c: Cycle)
  {
    !c.reading.Ok? || c.reading.reading.sources == map[] || forall s :: s in c.sources ==> !(s.managed && s.url != "" && "gh:" <= s.feed)
  }

  lemma {:induction false} NoGithub(sources: seq<Source>)
    requires forall s :: s in sources ==> !(s.managed && s.url != "" && "gh:" <= s.feed)
    ensures GithubUrls(sources) == map[]
  {
    if sources != [] {
      var n := |sources| - 1;
      assert sources[n] in sources;
      NoGithub(sources[..n]);
    }
  }

  lemma NothingLearnt(m: Records, c: Cycle, window: nat, gone: seq<Verdict>, after: Records)
    requires Step(m, c, window, gone, after) && LearnsNothing(c)
    ensures gone == [] && after == m
  {
    hide GithubUrls, FoldAll, IsTop;
    if forall s :: s in c.sources ==> !(s.managed && s.url != "" && "gh:" <= s.feed) {
      NoGithub(c.sources);
    }
  }

  lemma StepsMakeRun(run: seq<Cycle>, window: nat, condemned: seq<seq<Verdict>>, states: seq<Records>)
    requires |condemned| == |run| && |states| == |run| + 1 && states[0] == map[]
    requires forall k :: 0 <= k < |run| ==> Step(states[k], run[k], window, condemned[k], states[k + 1])
    ensures IsRun(run, window, condemned, states)
  {
  }

  lemma WithdrawalIsEarned(run: seq<Cycle>, window: nat, condemned: seq<seq<Verdict>>, states: seq<Records>, n: nat, v: Verdict)
    requires IsRun(run, window, condemned, states) && n < |run| && v in condemned[n] && window > 0
    ensures Earned(run, window, condemned, n, v)
  {
    hide GithubUrls;
    WithdrawnOnlyWhenBarren(run, window, condemned, states, n, v);
  }
}
