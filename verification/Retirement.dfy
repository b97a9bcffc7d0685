/** internal/crawl/state.go and crawl.go: liveness streaks, and which managed URLs they let go. */
module Retirement {
  import opened Basics

  const STALE_RETIRE_AFTER: Time := 24 * 3600
  const STALE_RETIRE_CYCLES := 6

  // ----- one cycle's verdicts -----

  /** How a URL answered the classification fetch. */
  datatype Answer =
    | TransportFailure
    | BadStatus(code: int)
    | Body(expired: bool, nodes: int)

  datatype Verdict = Live | Undetermined | Dead

  /** The statuses that say a subscription is gone for good. */
  predicate Gone(code: int)
  {
    code == 404 || code == 410 || code == 451
  }

  /** What an answer proves: only a gone status or an advertised expiry is death. */
  function Judge(a: Answer): Verdict
  {
    match a
    case TransportFailure => Undetermined
    case BadStatus(code) => if Gone(code) then Dead else Undetermined
    case Body(expired, nodes) => if expired then Dead else if nodes <= 0 then Undetermined else Live
  }

  /** Proof of death: a gone status, or a body that advertises its own expiry. */
  ghost predicate SaysGone(a: Answer)
  {
    match a
    case TransportFailure => false
    case BadStatus(code) => code == 404 || code == 410 || code == 451
    case Body(expired, _) => expired
  }

  /** Proof of life: an unexpired body with a node in it. */
  ghost predicate SaysLive(a: Answer)
  {
    a.Body? && !a.expired && a.nodes > 0
  }

  /** The verdict is exactly what the answer proves. */
  lemma JudgeIsProof(a: Answer)
    ensures Judge(a) == Dead <==> SaysGone(a)
    ensures Judge(a) == Live <==> SaysLive(a)
    ensures Judge(a) == Undetermined <==> !SaysGone(a) && !SaysLive(a)
  {
  }

  /** The URLs of one classification call, sorted by verdict; a remembered-dead URL is not asked. Only a
      gone status or an expired body is death, and only nodes are life: a failed transport, any other
      status and a body without a node prove nothing. */
  method ClassifyAll(urls: seq<Url>, dead: set<Url>, answer: Url -> Answer)
    returns (live: set<Url>, unknown: set<Url>, deadOut: seq<Url>)
    ensures live == set u | u in urls && u !in dead && Judge(answer(u)) == Live
    ensures unknown == set u | u in urls && u !in dead && Judge(answer(u)) == Undetermined
    ensures forall u :: u in deadOut <==> u in urls && u !in dead && Judge(answer(u)) == Dead
    ensures forall u :: u in deadOut <==> u in urls && u !in dead && SaysGone(answer(u))
    ensures forall u :: u in live <==> u in urls && u !in dead && SaysLive(answer(u))
    ensures forall u :: u in unknown <==> u in urls && u !in dead && !SaysGone(answer(u)) && !SaysLive(answer(u))
  {
    live, unknown, deadOut := {}, {}, [];
    for i := 0 to |urls|
      invariant live == set u | u in urls[..i] && u !in dead && Judge(answer(u)) == Live
      invariant unknown == set u | u in urls[..i] && u !in dead && Judge(answer(u)) == Undetermined
      invariant forall u :: u in deadOut <==> u in urls[..i] && u !in dead && Judge(answer(u)) == Dead
    {
      var u := urls[i];
      assert urls[..i + 1] == urls[..i] + [u];
      if u in dead {
        continue;
      }
      match answer(u)
      case TransportFailure =>
        unknown := unknown + {u};
      case BadStatus(code) =>
        if Gone(code) {
          deadOut := deadOut + [u];
        } else {
          unknown := unknown + {u};
        }
      case Body(expired, nodes) =>
        if expired {
          deadOut := deadOut + [u];
        } else if nodes <= 0 {
          unknown := unknown + {u};
        } else {
          live := live + {u};
        }
    }
    assert urls[..|urls|] == urls;
    forall u ensures Judge(answer(u)) == Dead <==> SaysGone(answer(u))
             ensures Judge(answer(u)) == Live <==> SaysLive(answer(u))
    {
      JudgeIsProof(answer(u));
    }
  }

  // ----- the streaks, on values -----

  datatype ManagedState = ManagedState(lastLiveAt: Time, notLiveSince: Time, notLiveCycles: nat)

  const NO_HISTORY := ManagedState(0, 0, 0)

  type History = map<Url, ManagedState>

  /** One more not-live observation: the first of a streak anchors it. */
  function Missed(m: ManagedState, now: Time): ManagedState
  {
    ManagedState(m.lastLiveAt, if m.notLiveSince == 0 then now else m.notLiveSince, m.notLiveCycles + 1)
  }

  function Get(h: History, u: Url): ManagedState
  {
    if u in h then h[u] else NO_HISTORY
  }

  function AgedOne(h: History, live: set<Url>, now: Time, u: Url): ManagedState
  {
    if u in live then ManagedState(now, 0, 0) else Missed(Get(h, u), now)
  }

  /** A cycle's verdicts folded into the histories: one record per managed URL, none besides. */
  function Aged(h: History, managed: set<Url>, live: set<Url>, now: Time): History
  {
    map u | u in managed :: AgedOne(h, live, now, u)
  }

  predicate PastWindow(m: ManagedState, now: Time)
  {
    m.notLiveCycles >= STALE_RETIRE_CYCLES && now >= m.notLiveSince + STALE_RETIRE_AFTER
  }

  function StaleAfter(h: History, managed: set<Url>, live: set<Url>, now: Time): set<Url>
  {
    set u | u in managed && u !in live && PastWindow(Missed(Get(h, u), now), now)
  }

  /** Whether folding the verdict on `u` marks the state for saving: every miss does, and a live answer
      unless the record already bears this instant. */
  predicate Marks(h: History, live: set<Url>, now: Time, u: Url)
  {
    u !in live || u !in h || h[u].lastLiveAt != now
  }

  predicate Dirties(h: History, managed: set<Url>, live: set<Url>, now: Time)
  {
    !(h.Keys <= managed) || exists u :: u in managed && Marks(h, live, now, u)
  }

  /** What changed is marked for saving, and nothing else is, unless one instant holds both a live answer
      and a later miss. */
  lemma DirtyIffChanged(h: History, managed: set<Url>, live: set<Url>, now: Time)
    requires forall u :: u in h && h[u].lastLiveAt == now ==> h[u] == ManagedState(now, 0, 0)
    ensures Dirties(h, managed, live, now) <==> Aged(h, managed, live, now) != h
  {
    var aged := Aged(h, managed, live, now);
    if Dirties(h, managed, live, now) {
      if h.Keys <= managed {
        var u :| u in managed && Marks(h, live, now, u);
        assert u in aged && (u in h ==> aged[u] != h[u]);
      } else {
        assert aged.Keys == managed;
      }
    } else {
      assert forall u :: u in managed ==> !Marks(h, live, now, u);
      assert aged.Keys == h.Keys;
    }
  }

  class State {
    var managed: History
    var dirty: bool

    constructor ()
      ensures managed == map[] && !dirty
    {
      managed, dirty := map[], false;
    }

    method AgeManaged(urls: set<Url>, live: set<Url>, now: Time) returns (stale: set<Url>)
      modifies this
      ensures managed == Aged(old(managed), urls, live, now)
      ensures stale == StaleAfter(old(managed), urls, live, now)
      ensures dirty == (old(dirty) || Dirties(old(managed), urls, live, now))
    {
      if !(managed.Keys <= urls) {
        managed := map u | u in managed && u in urls :: managed[u];
        dirty := true;
      }
      ghost var h, removed := old(managed), dirty;
      hide Dirties, Marks, AgedOne, PastWindow;
      stale := {};
      var todo := urls;
      while todo != {}
        invariant todo <= urls
        invariant managed.Keys == (h.Keys * urls) + (urls - todo)
        invariant forall u :: u in managed ==> managed[u] == if u in todo then h[u] else AgedOne(h, live, now, u)
        invariant stale == set u | u in urls - todo && u in StaleAfter(h, urls, live, now)
        invariant dirty <==> removed || exists u :: u in urls - todo && Marks(h, live, now, u)
        decreases todo
      {
        var u :| u in todo;
        OneAlike(h, managed, live, now, u);
        assert urls - (todo - {u}) == (urls - todo) + {u};
        var past := AgeOne(u, live, now);
        if past {
          stale := stale + {u};
        }
        todo := todo - {u};
      }
      DirtiesMeans(h, urls, live, now);
    }

    /** One URL's verdict, and whether its streak has run past the window. */
    method AgeOne(u: Url, live: set<Url>, now: Time) returns (past: bool)
      modifies this
      ensures managed == old(managed)[u := AgedOne(old(managed), live, now, u)]
      ensures past <==> u !in live && PastWindow(Missed(Get(old(managed), u), now), now)
      ensures dirty == (old(dirty) || Marks(old(managed), live, now, u))
    {
      if u in live {
        if u !in managed || managed[u].lastLiveAt != now {
          dirty := true;
        }
        managed := managed[u := ManagedState(now, 0, 0)];
        return false;
      }
      var m := Missed(Get(managed, u), now);
      managed := managed[u := m];
      dirty := true;
      past := PastWindow(m, now);
    }
  }

  /** What a verdict does depends on no record but the URL's own. */
  lemma OneAlike(h: History, later: History, live: set<Url>, now: Time, u: Url)
    requires Get(h, u) == Get(later, u) && (u in h <==> u in later)
    ensures AgedOne(h, live, now, u) == AgedOne(later, live, now, u)
    ensures Marks(h, live, now, u) <==> Marks(later, live, now, u)
  {
  }

  lemma DirtiesMeans(h: History, managed: set<Url>, live: set<Url>, now: Time)
    ensures Dirties(h, managed, live, now) <==>
            !(h.Keys <= managed) || exists u :: u in managed && Marks(h, live, now, u)
  {
  }

  // ----- runs -----

  /** One non-dark cycle: the managed snapshot and everything seen serving nodes. */
  datatype Observation = Observation(at: Time, managed: set<Url>, live: set<Url>)

  ghost predicate Clocked(run: seq<Observation>)
  {
    && (forall i :: 0 <= i < |run| ==> run[i].at > 0)
    && (forall i, j :: 0 <= i <= j < |run| ==> run[i].at <= run[j].at)
  }

  ghost function HistoryAfter(run: seq<Observation>): History
  {
    if run == [] then map[]
    else
      var o := run[|run| - 1];
      Aged(HistoryAfter(run[..|run| - 1]), o.managed, o.live, o.at)
  }

  predicate MissedAt(o: Observation, u: Url)
  {
    u in o.managed && u !in o.live
  }

  /** How many cycles at the end of the run saw `u` managed and not live. */
  ghost function Trailing(run: seq<Observation>, u: Url): (n: nat)
    ensures n <= |run|
    ensures forall i :: |run| - n <= i < |run| ==> MissedAt(run[i], u)
    ensures n < |run| ==> !MissedAt(run[|run| - n - 1], u)
  {
    if run == [] || !MissedAt(run[|run| - 1], u) then 0 else 1 + Trailing(run[..|run| - 1], u)
  }

  /** The stored record is the trailing run of not-live observations: its length, the time of its
      first, and the time of the live answer it followed, if it followed one. */
  lemma {:induction false} StreakIsTrailingRun(run: seq<Observation>, u: Url)
    requires Clocked(run) && run != [] && u in run[|run| - 1].managed
    ensures u in HistoryAfter(run)
    ensures var m, n := HistoryAfter(run)[u], Trailing(run, u);
            && m.notLiveCycles == n
            && m.notLiveSince == (if n == 0 then 0 else run[|run| - n].at)
            && m.lastLiveAt == (if n < |run| && u in run[|run| - n - 1].managed then run[|run| - n - 1].at else 0)
  {
    var before, o := run[..|run| - 1], run[|run| - 1];
    if u !in o.live {
      if before != [] && u in before[|before| - 1].managed {
        StreakIsTrailingRun(before, u);
      } else {
        NoRecordUnlessManaged(before, u);
      }
    }
  }

  lemma NoRecordUnlessManaged(run: seq<Observation>, u: Url)
    requires run == [] || u !in run[|run| - 1].managed
    ensures u !in HistoryAfter(run) && Trailing(run, u) == 0
  {
  }

  /** A URL is retired exactly when its trailing run holds six cycles and spans a day. */
  lemma RetiredExactlyAfterWindow(run: seq<Observation>, u: Url)
    requires Clocked(run) && run != []
    ensures var o, n := run[|run| - 1], Trailing(run, u);
            u in StaleAfter(HistoryAfter(run[..|run| - 1]), o.managed, o.live, o.at) <==>
            n >= 6 && o.at >= run[|run| - n].at + 24 * 3600
  {
    var o := run[|run| - 1];
    if u in o.managed {
      StreakIsTrailingRun(run, u);
    }
  }

  /** Running the code over a whole run stores exactly the run's histories. */
  method AgeOver(run: seq<Observation>) returns (st: State, stale: seq<set<Url>>)
    ensures st.managed == HistoryAfter(run) && |stale| == |run|
    ensures forall i :: 0 <= i < |run| ==>
              stale[i] == StaleAfter(HistoryAfter(run[..i]), run[i].managed, run[i].live, run[i].at)
  {
    st := new State();
    stale := [];
    for i := 0 to |run|
      invariant st.managed == HistoryAfter(run[..i]) && |stale| == i && fresh(st)
      invariant forall k :: 0 <= k < i ==>
                  stale[k] == StaleAfter(HistoryAfter(run[..k]), run[k].managed, run[k].live, run[k].at)
    {
      assert run[..i + 1][..i] == run[..i];
      var s := st.AgeManaged(run[i].managed, run[i].live, run[i].at);
      stale := stale + [s];
    }
    assert run[..|run|] == run;
  }

  // ----- who survives -----

  /** The outcome of asking the managed URLs again. */
  datatype Recheck = Recheck(managedURL: set<Url>, unknown: set<Url>, stale: set<Url>, checked: nat, revived: nat, dead: seq<Url>)

  /** A cycle that learned nothing anywhere proves nothing about anyone. */
  predicate Dark(rr: Recheck, discovered: nat)
  {
    discovered == 0 && rr.checked > 0 && rr.revived == 0
  }

  predicate RetainManaged(u: Url, live: set<Url>, rr: Recheck, prune: bool)
  {
    if u in live then true
    else if u !in rr.managedURL then true
    else if !prune then true
    else if u in rr.unknown then u !in rr.stale
    else false
  }

  /** The recheck asks every managed URL not rediscovered this cycle, and adds the revived ones to live. */
  method RecheckManaged(managed: seq<Url>, discovered: set<Url>, answer: Url -> Answer) returns (rr: Recheck, live: set<Url>)
    ensures rr.managedURL == (set u | u in managed) && rr.stale == {}
    ensures rr.unknown == set u | u in managed && u !in discovered && Judge(answer(u)) == Undetermined
    ensures live == discovered + set u | u in managed && u !in discovered && Judge(answer(u)) == Live
    ensures rr.checked == 0 <==> rr.managedURL <= discovered
    ensures rr.revived == |live - discovered|
  {
    var managedURL: set<Url>, pending: seq<Url> := {}, [];
    for i := 0 to |managed|
      invariant managedURL == set u | u in managed[..i]
      invariant forall u :: u in pending <==> u in managed[..i] && u !in discovered
    {
      assert managed[..i + 1] == managed[..i] + [managed[i]];
      managedURL := managedURL + {managed[i]};
      if managed[i] !in discovered {
        pending := pending + [managed[i]];
      }
    }
    assert managed[..|managed|] == managed;
    var relive, unknown, dead := ClassifyAll(pending, {}, answer);
    assert forall u :: u in pending <==> u in managed && u !in discovered;
    live := discovered + relive;
    assert live - discovered == relive;
    rr := Recheck(managedURL, unknown, {}, |pending|, |relive|, dead);
    if pending != [] {
      assert pending[0] in pending;
    }
  }

  /** Why a managed URL that is let go was let go. */
  ghost predicate Condemned(u: Url, managed: set<Url>, discovered: set<Url>, answer: Url -> Answer, stale: set<Url>, prune: bool)
  {
    && prune && u in managed && u !in discovered
    && (Judge(answer(u)) == Dead || (Judge(answer(u)) == Undetermined && u in stale))
  }

  /** The retention rule lets go exactly of what a recheck proved dead or the window ran out on. */
  lemma NotRetainedIffCondemned(u: Url, rr: Recheck, live: set<Url>, managed: set<Url>, discovered: set<Url>,
                                answer: Url -> Answer, prune: bool)
    requires rr.managedURL == managed
    requires rr.unknown == set w | w in managed && w !in discovered && Judge(answer(w)) == Undetermined
    requires live == discovered + set w | w in managed && w !in discovered && Judge(answer(w)) == Live
    ensures !RetainManaged(u, live, rr, prune) <==> Condemned(u, managed, discovered, answer, rr.stale, prune)
  {
    if u in managed && u !in discovered {
      assert Judge(answer(u)) == Live ==> u in live;
    }
  }
}
