/** internal/asn/resolver.go: every interleaving of one layer's callers and workers. */
module FlightProtocol {
  // Each critical section is one atomic step; between its steps a caller or worker can be overtaken
  // by any other. What holds of a flight, a caller and the cache is proved of every step, and so of
  // every run; a step is shown to touch one flight and one caller, and everything else is framed.
  import opened Basics
  import opened Flights

  /** Who finishes a flight, and how far the finish has got. */
  datatype Stage = Opening(c: nat) | Running | Ending | Closing | Done

  /** Where a caller stands: it registered the flight and is about to look in the cache again, found an
      answer there, waits, left last and is about to cancel, is about to return what it found; or it is back. */
  datatype Caller =
    | Opener(f: nat)
    | Holding(f: nat, answer: Answer)
    | Waiting(f: nat)
    | Quitting(f: nat)
    | Serving(f: nat, answer: Answer)
    | Answered(f: nat, answer: Answer)
    | FromCache(answer: Answer)
    | GaveUp

  datatype System = System(shared: Shared, stages: seq<Stage>, callers: map<nat, Caller>, now: Time)

  datatype Label =
    | Hit(c: nat, key: Key)
    | Refused(c: nat)
    | Arrive(c: nat, key: Key)
    | RecheckHit(c: nat)
    | RecheckMiss(c: nat)
    | FinishFound(c: nat)
    | FinishWork(flight: nat, answer: Answer, expiry: Option<Time>)
    | CancelDone(flight: nat)
    | Close(flight: nat)
    | Return(c: nat)
    | Wake(c: nat)
    | Leave(c: nat)
    | CancelDropped(c: nat)
    | Tick

  ghost predicate WellFormed(s: System)
  {
    && |s.stages| == |s.shared.pool|
    && (forall k :: k in s.shared.flights ==> s.shared.flights[k] < |s.shared.pool|)
    && (forall c :: c in s.callers ==> PointsInside(s.callers[c], |s.shared.pool|))
  }

  predicate PointsInside(c: Caller, n: nat)
  {
    match c
    case FromCache(_) => true
    case GaveUp => true
    case _ => c.f < n
  }

  function WithFlight(s: System, f: nat, fl: Flight, stage: Stage, callers: map<nat, Caller>): System
    requires f < |s.shared.pool| == |s.stages|
  {
    System(s.shared.(pool := s.shared.pool[f := fl]), s.stages[f := stage], callers, s.now)
  }

  ghost predicate Step(s: System, l: Label, t: System)
    requires WellFormed(s)
  {
    match l
    case Hit(c, key) =>
      && c !in s.callers && Cached(s.shared.cache, key, s.now).Some?
      && t == s.(callers := s.callers[c := FromCache(Cached(s.shared.cache, key, s.now).value.answer)])
    case Refused(c) =>
      c !in s.callers && t == s.(callers := s.callers[c := GaveUp])
    case Arrive(c, key) =>
      && c !in s.callers && var (shared, f) := Entered(s.shared, key);
      t == System(shared,
                  if key in s.shared.flights then s.stages else s.stages + [Opening(c)],
                  s.callers[c := if key in s.shared.flights then Waiting(f) else Opener(f)],
                  s.now)
    case RecheckHit(c) =>
      && c in s.callers && s.callers[c].Opener?
      && var f := s.callers[c].f;
      var found := Cached(s.shared.cache, s.shared.pool[f].key, s.now);
      found.Some? && t == s.(callers := s.callers[c := Holding(f, found.value.answer)])
    case RecheckMiss(c) =>
      && c in s.callers && s.callers[c].Opener?
      && var f := s.callers[c].f;
      && Cached(s.shared.cache, s.shared.pool[f].key, s.now).None?
      && t == s.(stages := s.stages[f := Running], callers := s.callers[c := Waiting(f)])
    case FinishFound(c) =>
      && c in s.callers && s.callers[c].Holding?
      && var f, a := s.callers[c].f, s.callers[c].answer;
      && Finishes(s.shared, s.shared.pool[f].key, f, a, None, s.now, t.shared)
      && t == System(t.shared, s.stages[f := Ending], s.callers[c := Serving(f, a)], s.now)
    case FinishWork(f, a, expiry) =>
      && f < |s.stages| && s.stages[f] == Running
      && Finishes(s.shared, s.shared.pool[f].key, f, a, expiry, s.now, t.shared)
      && t == System(t.shared, s.stages[f := Ending], s.callers, s.now)
    case CancelDone(f) =>
      f < |s.stages| && s.stages[f] == Ending && t == WithFlight(s, f, s.shared.pool[f].(cancelled := true), Closing, s.callers)
    case Close(f) =>
      f < |s.stages| && s.stages[f] == Closing && t == WithFlight(s, f, s.shared.pool[f].(closed := true), Done, s.callers)
    case Return(c) =>
      && c in s.callers && s.callers[c].Serving? && s.stages[s.callers[c].f] == Done
      && t == s.(callers := s.callers[c := FromCache(s.callers[c].answer)])
    case Wake(c) =>
      && c in s.callers && s.callers[c].Waiting?
      && var f := s.callers[c].f;
      && s.shared.pool[f].closed && s.shared.pool[f].answer.Some?
      && t == s.(callers := s.callers[c := Answered(f, s.shared.pool[f].answer.value)])
    case Leave(c) =>
      && c in s.callers && s.callers[c].Waiting?
      && var f := s.callers[c].f;
      var (shared, last) := Dropped(s.shared, s.shared.pool[f].key, f);
      t == s.(shared := shared, callers := s.callers[c := if last then Quitting(f) else GaveUp])
    case CancelDropped(c) =>
      && c in s.callers && s.callers[c].Quitting?
      && var f := s.callers[c].f;
      t == WithFlight(s, f, s.shared.pool[f].(cancelled := true), s.stages[f], s.callers[c := GaveUp])
    case Tick =>
      s.now <= t.now && t == s.(now := t.now)
  }

  // ----- the invariant -----

  predicate Attached(c: Caller, f: nat)
  {
    (c.Opener? || c.Holding? || c.Waiting?) && c.f == f
  }

  /** The callers a flight counts. */
  function Waiters(callers: map<nat, Caller>, f: nat): set<nat>
  {
    set c | c in callers && Attached(callers[c], f)
  }

  ghost predicate FlightOk(s: Shared, fl: Flight, f: nat, stage: Stage, callers: map<nat, Caller>)
  {
    && (fl.finished <==> stage.Ending? || stage.Closing? || stage.Done?)
    && (fl.finished <==> fl.answer.Some?)
    && (fl.closed <==> stage.Done?)
    && (fl.cancelled ==> fl.abandoned || fl.finished)
    && (fl.committed ==> fl.finished && !fl.abandoned)
    && (fl.abandoned ==> Waiters(callers, f) == {})
    && (!fl.finished && !fl.abandoned ==> Owns(s, fl.key, f) && fl.waiters == |Waiters(callers, f)| > 0)
    && (stage.Opening? ==> stage.c in callers && (callers[stage.c].Opener? || callers[stage.c].Holding?) && callers[stage.c].f == f)
  }

  ghost predicate CallerOk(pool: seq<Flight>, stages: seq<Stage>, c: nat, caller: Caller)
    requires |pool| == |stages|
  {
    && PointsInside(caller, |pool|)
    && match caller
       case Opener(f) => stages[f] == Opening(c)
       case Holding(f, _) => stages[f] == Opening(c)
       case Quitting(f) => pool[f].abandoned
       case Serving(f, a) => pool[f].finished && pool[f].answer == Some(a)
       case Answered(f, a) => pool[f].closed && pool[f].answer == Some(a)
       case _ => true
  }

  ghost predicate CacheOk(s: Shared)
  {
    && |s.cache| <= MAX_CACHE_ENTRIES
    && forall k :: k in s.cache ==>
         var f := s.cache[k].flight;
         f < |s.pool| && s.pool[f].key == k && s.pool[f].committed && s.pool[f].answer == Some(s.cache[k].answer)
  }

  ghost predicate KeysOk(s: Shared)
  {
    forall k :: k in s.flights ==>
      var f := s.flights[k];
      f < |s.pool| && s.pool[f].key == k && !s.pool[f].finished && !s.pool[f].abandoned
  }

  ghost predicate FlightsOk(s: System)
    requires |s.stages| == |s.shared.pool|
  {
    forall f :: 0 <= f < |s.stages| ==> FlightOk(s.shared, s.shared.pool[f], f, s.stages[f], s.callers)
  }

  ghost predicate CallersOk(s: System)
    requires |s.stages| == |s.shared.pool|
  {
    forall c :: c in s.callers ==> CallerOk(s.shared.pool, s.stages, c, s.callers[c])
  }

  ghost predicate Inv(s: System)
  {
    && WellFormed(s)
    && FlightsOk(s) && CallersOk(s) && KeysOk(s.shared) && CacheOk(s.shared)
  }

  function Start(): System
  {
    System(Shared(map[], [], map[]), [], map[], 0)
  }

  /** Moving one caller changes only the counts of the flights it leaves and joins. */
  lemma MoveCaller(before: map<nat, Caller>, c: nat, to: Caller, f: nat)
    ensures var after := before[c := to];
            Waiters(after, f) == if Attached(to, f) then Waiters(before, f) + {c} else Waiters(before, f) - {c}
  {
  }

  // ----- framing: a step touches one flight and one caller -----

  /** What a step never takes back from a flight. */
  ghost predicate Grows(before: Flight, after: Flight)
  {
    && after.key == before.key
    && (before.finished ==> after.finished && after.answer == before.answer && after.committed == before.committed
                            && after.abandoned == before.abandoned)
    && (before.closed ==> after.closed)
    && (before.abandoned ==> after.abandoned)
    && (before.cancelled ==> after.cancelled)
  }

  predicate Touches(callers: map<nat, Caller>, c: nat, f: nat)
  {
    c in callers ==> (match callers[c] case FromCache(_) => true case GaveUp => true case _ => callers[c].f == f)
  }

  /** Nothing but flight `f` and caller `c` changed, and those only as the protocol allows. */
  ghost predicate Untouched(s: System, t: System, f: nat, c: nat)
    requires |s.stages| == |s.shared.pool|
  {
    && |t.stages| == |t.shared.pool|
    && (|t.stages| == |s.stages| || (|t.stages| == |s.stages| + 1 && f == |s.stages|))
    && (forall g :: 0 <= g < |s.stages| && g != f ==> t.shared.pool[g] == s.shared.pool[g] && t.stages[g] == s.stages[g])
    && (f < |s.stages| ==> Grows(s.shared.pool[f], t.shared.pool[f])
                           && (s.stages[f].Opening? && s.stages[f].c != c ==> t.stages[f] == s.stages[f]))
    && (forall d :: d != c ==> (d in t.callers <==> d in s.callers) && (d in s.callers ==> t.callers[d] == s.callers[d]))
    && Touches(s.callers, c, f) && Touches(t.callers, c, f)
  }

  /** The registrations changed at most for `f`. */
  ghost predicate Registers(s: Shared, t: Shared, f: nat)
  {
    && (forall k :: k in t.flights && t.flights[k] != f ==> k in s.flights && s.flights[k] == t.flights[k])
    && (forall k :: k in s.flights && s.flights[k] != f ==> k in t.flights && t.flights[k] == s.flights[k])
    && (forall k :: k in t.flights && t.flights[k] == f ==>
          f < |t.pool| && t.pool[f].key == k && !t.pool[f].finished && !t.pool[f].abandoned)
  }

  ghost predicate CacheGrows(s: Shared, t: Shared, f: nat)
  {
    && |t.cache| <= MAX_CACHE_ENTRIES
    && forall k :: k in t.cache ==>
         || (k in s.cache && t.cache[k] == s.cache[k])
         || (t.cache[k].flight == f < |t.pool| && t.pool[f].key == k && t.pool[f].committed && t.pool[f].answer == Some(t.cache[k].answer))
  }

  lemma FlightsFramed(s: System, t: System, f: nat, c: nat)
    requires |s.stages| == |s.shared.pool| && FlightsOk(s)
    requires Untouched(s, t, f, c) && Registers(s.shared, t.shared, f)
    requires f < |t.stages| ==> FlightOk(t.shared, t.shared.pool[f], f, t.stages[f], t.callers)
    ensures FlightsOk(t)
  {
    forall g | 0 <= g < |t.stages| && g != f ensures FlightOk(t.shared, t.shared.pool[g], g, t.stages[g], t.callers) {
      assert Waiters(t.callers, g) == Waiters(s.callers, g);
      assert FlightOk(s.shared, s.shared.pool[g], g, s.stages[g], s.callers);
    }
  }

  lemma CallersFramed(s: System, t: System, f: nat, c: nat)
    requires |s.stages| == |s.shared.pool| && CallersOk(s)
    requires Untouched(s, t, f, c)
    requires c in t.callers ==> CallerOk(t.shared.pool, t.stages, c, t.callers[c])
    requires f < |s.stages| ==> FlightOk(s.shared, s.shared.pool[f], f, s.stages[f], s.callers)
    requires f < |t.stages| ==> FlightOk(t.shared, t.shared.pool[f], f, t.stages[f], t.callers)
    ensures CallersOk(t)
  {
    forall d | d in t.callers && d != c ensures CallerOk(t.shared.pool, t.stages, d, t.callers[d]) {
      assert CallerOk(s.shared.pool, s.stages, d, s.callers[d]);
      if !s.callers[d].FromCache? && !s.callers[d].GaveUp? {
        var g := s.callers[d].f;
        if g != f {
          assert t.shared.pool[g] == s.shared.pool[g] && t.stages[g] == s.stages[g];
        }
      }
    }
  }

  lemma SharedFramed(s: System, t: System, f: nat, c: nat)
    requires |s.stages| == |s.shared.pool| && KeysOk(s.shared) && CacheOk(s.shared)
    requires Untouched(s, t, f, c) && Registers(s.shared, t.shared, f) && CacheGrows(s.shared, t.shared, f)
    requires f < |s.stages| ==> FlightOk(s.shared, s.shared.pool[f], f, s.stages[f], s.callers)
    ensures KeysOk(t.shared) && CacheOk(t.shared)
  {
    forall k | k in t.shared.cache
      ensures var g := t.shared.cache[k].flight;
              g < |t.shared.pool| && t.shared.pool[g].key == k && t.shared.pool[g].committed && t.shared.pool[g].answer == Some(t.shared.cache[k].answer)
    {
      if k in s.shared.cache && t.shared.cache[k] == s.shared.cache[k] {
        var g := s.shared.cache[k].flight;
        assert s.shared.pool[g].committed;
        if g == f {
          assert s.shared.pool[f].finished;
        } else {
          assert t.shared.pool[g] == s.shared.pool[g];
        }
      }
    }
  }

  ghost predicate AllGrow(before: seq<Flight>, after: seq<Flight>)
  {
    |before| <= |after| && forall f :: 0 <= f < |before| ==> Grows(before[f], after[f])
  }

  lemma PoolGrows(s: System, t: System, f: nat, c: nat)
    requires |s.stages| == |s.shared.pool| && Untouched(s, t, f, c)
    ensures AllGrow(s.shared.pool, t.shared.pool)
  {
    forall g | 0 <= g < |s.shared.pool| ensures Grows(s.shared.pool[g], t.shared.pool[g]) {
      assert s.stages[g] == s.stages[g];
    }
  }

  /** A step that touches only `f` and `c` keeps the invariant if those two stay right. */
  lemma Framed(s: System, t: System, f: nat, c: nat)
    requires Inv(s) && Untouched(s, t, f, c) && Registers(s.shared, t.shared, f) && CacheGrows(s.shared, t.shared, f)
    requires f < |t.stages| ==> FlightOk(t.shared, t.shared.pool[f], f, t.stages[f], t.callers)
    requires c in t.callers ==> CallerOk(t.shared.pool, t.stages, c, t.callers[c])
    ensures Inv(t) && AllGrow(s.shared.pool, t.shared.pool)
  {
    PoolGrows(s, t, f, c);
    hide Registers, CacheGrows, FlightOk, CallerOk, CacheOk, Grows, Touches, AllGrow;
    if f < |s.stages| {
      FlightAt(s, f);
    }
    FlightsFramed(s, t, f, c);
    CallersFramed(s, t, f, c);
    SharedFramed(s, t, f, c);
    PartsFormWell(t);
  }

  lemma FlightAt(s: System, f: nat)
    requires |s.stages| == |s.shared.pool| && FlightsOk(s) && f < |s.stages|
    ensures FlightOk(s.shared, s.shared.pool[f], f, s.stages[f], s.callers)
  {
  }

  lemma CallerAt(s: System, c: nat)
    requires |s.stages| == |s.shared.pool| && CallersOk(s) && c in s.callers
    ensures CallerOk(s.shared.pool, s.stages, c, s.callers[c])
  {
  }

  lemma PartsFormWell(s: System)
    requires |s.stages| == |s.shared.pool| && CallersOk(s) && KeysOk(s.shared)
    ensures WellFormed(s)
  {
    forall c | c in s.callers ensures PointsInside(s.callers[c], |s.shared.pool|) {
      CallerAt(s, c);
    }
  }

  // ----- every step keeps the invariant -----

  lemma TickKeepsInv(s: System, l: Label, t: System)
    requires Inv(s) && l.Tick? && Step(s, l, t)
    ensures Inv(t) && AllGrow(s.shared.pool, t.shared.pool)
  {
    hide FlightOk, CallerOk, KeysOk, CacheOk;
  }

  lemma HitKeepsInv(s: System, l: Label, t: System)
    requires Inv(s) && (l.Hit? || l.Refused?) && Step(s, l, t)
    ensures Inv(t) && AllGrow(s.shared.pool, t.shared.pool)
  {
    hide FlightsOk, CallersOk, CacheOk, KeysOk, Registers, CacheGrows, FlightOk;
    SharedSame(s.shared, t.shared, |s.stages|);
    Framed(s, t, |s.stages|, l.c);
  }

  /** Registrations and cache stand while `f` does not end. */
  lemma SharedSame(s: Shared, t: Shared, f: nat)
    requires KeysOk(s) && CacheOk(s) && t.flights == s.flights && t.cache == s.cache
    requires f < |s.pool| ==> f < |t.pool| && t.pool[f].key == s.pool[f].key
                              && (!s.pool[f].finished && !s.pool[f].abandoned ==> !t.pool[f].finished && !t.pool[f].abandoned)
    ensures Registers(s, t, f) && CacheGrows(s, t, f)
  {
  }

  lemma DropShared(s: Shared, t: Shared, f: nat)
    requires KeysOk(s) && CacheOk(s) && f < |s.pool| && t == Dropped(s, s.pool[f].key, f).0
    ensures Registers(s, t, f) && CacheGrows(s, t, f)
  {
  }

  lemma OpenShared(s: Shared, t: Shared, key: Key)
    requires KeysOk(s) && CacheOk(s) && key !in s.flights && t == Entered(s, key).0
    ensures Registers(s, t, |s.pool|) && CacheGrows(s, t, |s.pool|)
  {
  }

  lemma JoinKeepsInv(s: System, l: Label, t: System)
    requires Inv(s) && l.Arrive? && Step(s, l, t) && l.key in s.shared.flights
    ensures Inv(t) && AllGrow(s.shared.pool, t.shared.pool)
  {
    hide FlightsOk, CallersOk, CacheOk, KeysOk, Registers, CacheGrows, Waiters;
    var c, f := l.c, s.shared.flights[l.key];
    MoveCaller(s.callers, c, t.callers[c], f);
    NotCounted(s.callers, c, f);
    FlightAt(s, f);
    RegisteredIsLive(s.shared, l.key);
    SharedSame(s.shared, t.shared, f);
    Framed(s, t, f, c);
  }

  lemma OpenKeepsInv(s: System, l: Label, t: System)
    requires Inv(s) && l.Arrive? && Step(s, l, t) && l.key !in s.shared.flights
    ensures Inv(t) && AllGrow(s.shared.pool, t.shared.pool)
  {
    hide *;
    OpenParts(s, l, t);
    Framed(s, t, |s.stages|, l.c);
  }

  /** What opening a flight touches, and that it leaves the flight and the caller in order. */
  lemma OpenParts(s: System, l: Label, t: System)
    requires Inv(s) && l.Arrive? && Step(s, l, t) && l.key !in s.shared.flights
    ensures var c, f := l.c, |s.stages|;
            && |s.stages| == |s.shared.pool|
            && Untouched(s, t, f, c) && Registers(s.shared, t.shared, f) && CacheGrows(s.shared, t.shared, f)
            && (f < |t.stages| ==> FlightOk(t.shared, t.shared.pool[f], f, t.stages[f], t.callers))
            && (c in t.callers ==> CallerOk(t.shared.pool, t.stages, c, t.callers[c]))
  {
    hide FlightsOk, CallersOk, CacheOk, KeysOk, Registers, CacheGrows, Waiters;
    var c, f := l.c, |s.stages|;
    MoveCaller(s.callers, c, t.callers[c], f);
    NobodyWaits(s, f);
    OpenShared(s.shared, t.shared, l.key);
  }

  lemma RegisteredIsLive(s: Shared, key: Key)
    requires KeysOk(s) && key in s.flights
    ensures var f := s.flights[key]; f < |s.pool| && s.pool[f].key == key && !s.pool[f].finished && !s.pool[f].abandoned
  {
  }

  lemma Counted(callers: map<nat, Caller>, c: nat, f: nat)
    requires c in callers && Attached(callers[c], f)
    ensures c in Waiters(callers, f)
  {
  }

  lemma NotCounted(callers: map<nat, Caller>, c: nat, f: nat)
    requires c in callers ==> !Attached(callers[c], f)
    ensures c !in Waiters(callers, f)
  {
  }

  lemma NobodyWaits(s: System, f: nat)
    requires WellFormed(s) && f >= |s.stages|
    ensures Waiters(s.callers, f) == {}
  {
  }

  lemma RecheckKeepsInv(s: System, l: Label, t: System)
    requires Inv(s) && (l.RecheckHit? || l.RecheckMiss?) && Step(s, l, t)
    ensures Inv(t) && AllGrow(s.shared.pool, t.shared.pool)
  {
    hide FlightsOk, CallersOk, CacheOk, KeysOk, Registers, CacheGrows, Waiters;
    var c, f := l.c, s.callers[l.c].f;
    MoveCaller(s.callers, c, t.callers[c], f);
    Counted(s.callers, c, f);
    FlightAt(s, f);
    CallerAt(s, c);
    SharedSame(s.shared, t.shared, f);
    assert Waiters(t.callers, f) == Waiters(s.callers, f);
    Framed(s, t, f, c);
  }

  lemma FoundKeepsInv(s: System, l: Label, t: System)
    requires Inv(s) && l.FinishFound? && Step(s, l, t)
    ensures Inv(t) && AllGrow(s.shared.pool, t.shared.pool)
  {
    hide FlightsOk, CallersOk, CacheOk, KeysOk, Registers, CacheGrows, Waiters;
    hide Stores;
    var c := l.c;
    var f, a := s.callers[c].f, s.callers[c].answer;
    FlightAt(s, f);
    CallerAt(s, c);
    MoveCaller(s.callers, c, t.callers[c], f);
    FinishShared(s.shared, s.shared.pool[f].key, f, a, None, s.now, t.shared);
    AbandonedHasNoWaiters(s, f, c);
    FinishedFlight(s.shared, f, a, None, s.now, t.shared);
    hide Finishes;
    Framed(s, t, f, c);
  }

  lemma WorkKeepsInv(s: System, l: Label, t: System, c: nat)
    requires Inv(s) && l.FinishWork? && Step(s, l, t) && c !in s.callers
    ensures Inv(t) && AllGrow(s.shared.pool, t.shared.pool)
  {
    hide FlightsOk, CallersOk, CacheOk, KeysOk, Registers, CacheGrows, Waiters;
    hide Stores;
    var f := l.flight;
    FlightAt(s, f);
    FinishShared(s.shared, s.shared.pool[f].key, f, l.answer, l.expiry, s.now, t.shared);
    FinishedFlight(s.shared, f, l.answer, l.expiry, s.now, t.shared);
    hide Finishes;
    Framed(s, t, f, c);
  }

  lemma AbandonedHasNoWaiters(s: System, f: nat, c: nat)
    requires Inv(s) && f < |s.stages| && c in s.callers && Attached(s.callers[c], f)
    ensures !s.shared.pool[f].abandoned
  {
    FlightAt(s, f);
    assert c in Waiters(s.callers, f);
  }

  /** What finishing does to the pool. */
  lemma FinishedFlight(s: Shared, f: nat, a: Answer, expiry: Option<Time>, now: Time, t: Shared)
    requires f < |s.pool| && Finishes(s, s.pool[f].key, f, a, expiry, now, t)
    ensures |t.pool| == |s.pool| && (forall g :: 0 <= g < |s.pool| && g != f ==> t.pool[g] == s.pool[g])
    ensures var b, e := s.pool[f], t.pool[f];
            e == b.(answer := Some(a), finished := true, committed := e.committed)
            && (e.committed ==> b.committed || !b.abandoned)
  {
  }

  lemma FinishShared(s: Shared, key: Key, f: nat, a: Answer, expiry: Option<Time>, now: Time, t: Shared)
    requires f < |s.pool| && key == s.pool[f].key && KeysOk(s) && CacheOk(s) && Finishes(s, key, f, a, expiry, now, t)
    ensures Registers(s, t, f) && CacheGrows(s, t, f)
  {
    if Commits(s, key, f, expiry) {
      StoreIsBounded(s.cache, key, Entry(a, expiry.value, f), now, t.cache);
    }
  }

  lemma CloseKeepsInv(s: System, l: Label, t: System, c: nat)
    requires Inv(s) && (l.CancelDone? || l.Close?) && Step(s, l, t) && c !in s.callers
    ensures Inv(t) && AllGrow(s.shared.pool, t.shared.pool)
  {
    hide FlightsOk, CallersOk, CacheOk, KeysOk, Registers, CacheGrows, Waiters;
    var f := l.flight;
    FlightAt(s, f);
    SharedSame(s.shared, t.shared, f);
    Framed(s, t, f, c);
  }

  lemma ReturnKeepsInv(s: System, l: Label, t: System)
    requires Inv(s) && l.Return? && Step(s, l, t)
    ensures Inv(t) && AllGrow(s.shared.pool, t.shared.pool)
  {
    hide FlightsOk, CallersOk, CacheOk, KeysOk, Registers, CacheGrows, Waiters;
    var c, f := l.c, s.callers[l.c].f;
    MoveCaller(s.callers, c, t.callers[c], f);
    FlightAt(s, f);
    CallerAt(s, c);
    SharedSame(s.shared, t.shared, f);
    NotCounted(s.callers, c, f);
    assert Waiters(t.callers, f) == Waiters(s.callers, f);
    Framed(s, t, f, c);
  }

  lemma QuitKeepsInv(s: System, l: Label, t: System)
    requires Inv(s) && l.CancelDropped? && Step(s, l, t)
    ensures Inv(t) && AllGrow(s.shared.pool, t.shared.pool)
  {
    hide *;
    QuitParts(s, l, t);
    Framed(s, t, s.callers[l.c].f, l.c);
  }

  /** What quitting touches, and that it leaves the flight and the caller in order. */
  lemma QuitParts(s: System, l: Label, t: System)
    requires Inv(s) && l.CancelDropped? && Step(s, l, t)
    ensures l.c in s.callers && s.callers[l.c].Quitting?
    ensures var c, f := l.c, s.callers[l.c].f;
            && Untouched(s, t, f, c) && Registers(s.shared, t.shared, f) && CacheGrows(s.shared, t.shared, f)
            && (f < |t.stages| ==> FlightOk(t.shared, t.shared.pool[f], f, t.stages[f], t.callers))
            && (c in t.callers ==> CallerOk(t.shared.pool, t.stages, c, t.callers[c]))
  {
    hide FlightsOk, CallersOk, CacheOk, KeysOk, Registers, CacheGrows, Waiters;
    var c, f := l.c, s.callers[l.c].f;
    MoveCaller(s.callers, c, t.callers[c], f);
    FlightAt(s, f);
    CallerAt(s, c);
    SharedSame(s.shared, t.shared, f);
    NotCounted(s.callers, c, f);
    assert Waiters(t.callers, f) == Waiters(s.callers, f);
  }

  lemma LeaveKeepsInv(s: System, l: Label, t: System)
    requires Inv(s) && (l.Wake? || l.Leave?) && Step(s, l, t)
    ensures Inv(t) && AllGrow(s.shared.pool, t.shared.pool)
  {
    hide FlightsOk, CallersOk, CacheOk, KeysOk, Registers, CacheGrows, Waiters;
    var c, f := l.c, s.callers[l.c].f;
    MoveCaller(s.callers, c, t.callers[c], f);
    FlightAt(s, f);
    Counted(s.callers, c, f);
    if l.Wake? {
      SharedSame(s.shared, t.shared, f);
    } else {
      DropShared(s.shared, t.shared, f);
    }
    Framed(s, t, f, c);
  }

  lemma {:induction false} Unused(ids: set<nat>) returns (c: nat)
    ensures forall i :: i in ids ==> i < c
  {
    if ids == {} {
      c := 0;
    } else {
      var i :| i in ids;
      var d := Unused(ids - {i});
      c := if d > i then d else i + 1;
      assert forall k :: k in ids ==> k == i || k in ids - {i};
    }
  }

  /** Every step, of whoever gets to run, keeps the invariant and takes nothing back from any flight. */
  lemma StepKeepsInv(s: System, l: Label, t: System)
    requires Inv(s) && Step(s, l, t)
    ensures Inv(t) && AllGrow(s.shared.pool, t.shared.pool)
  {
    hide Step, Inv;
    var c := Unused(s.callers.Keys);
    match l
    case Tick => TickKeepsInv(s, l, t);
    case Hit(_, _) => HitKeepsInv(s, l, t);
    case Refused(_) => HitKeepsInv(s, l, t);
    case Arrive(_, key) =>
      if key in s.shared.flights { JoinKeepsInv(s, l, t); } else { OpenKeepsInv(s, l, t); }
    case RecheckHit(_) => RecheckKeepsInv(s, l, t);
    case RecheckMiss(_) => RecheckKeepsInv(s, l, t);
    case FinishFound(_) => FoundKeepsInv(s, l, t);
    case FinishWork(_, _, _) => WorkKeepsInv(s, l, t, c);
    case CancelDone(_) => CloseKeepsInv(s, l, t, c);
    case Close(_) => CloseKeepsInv(s, l, t, c);
    case Return(_) => ReturnKeepsInv(s, l, t);
    case CancelDropped(_) => QuitKeepsInv(s, l, t);
    case Wake(_) => LeaveKeepsInv(s, l, t);
    case Leave(_) => LeaveKeepsInv(s, l, t);
  }

  // ----- what holds over every run -----

  ghost predicate IsRun(run: seq<System>, labels: seq<Label>)
  {
    && |run| == |labels| + 1 && run[0] == Start()
    && forall i :: 0 <= i < |labels| ==> WellFormed(run[i]) && Step(run[i], labels[i], run[i + 1])
  }

  lemma {:induction false} RunKeepsInv(run: seq<System>, labels: seq<Label>, i: nat)
    requires IsRun(run, labels) && i < |run|
    ensures Inv(run[i])
  {
    hide Step, Inv, IsRun, WellFormed;
    if i == 0 {
      StartsRight(run, labels);
    } else {
      StepOf(run, labels, i - 1);
      RunKeepsInv(run, labels, i - 1);
      StepKeepsInv(run[i - 1], labels[i - 1], run[i]);
    }
  }

  lemma StartsRight(run: seq<System>, labels: seq<Label>)
    requires IsRun(run, labels)
    ensures |run| > 0 && Inv(run[0])
  {
  }

  lemma PoolStands(a: seq<Flight>)
    ensures AllGrow(a, a)
  {
  }

  lemma GrowthAddsUp(a: seq<Flight>, b: seq<Flight>, c: seq<Flight>)
    requires AllGrow(a, b) && AllGrow(b, c)
    ensures AllGrow(a, c)
  {
    forall f | 0 <= f < |a| ensures Grows(a[f], c[f]) {
      assert Grows(a[f], b[f]) && Grows(b[f], c[f]);
    }
  }

  lemma {:induction false} RunGrows(run: seq<System>, labels: seq<Label>, i: nat, j: nat)
    requires IsRun(run, labels) && i <= j < |run|
    ensures AllGrow(run[i].shared.pool, run[j].shared.pool)
  {
    hide Step, Inv, IsRun, AllGrow, WellFormed;
    if i == j {
      PoolStands(run[i].shared.pool);
    } else {
      RunGrows(run, labels, i, j - 1);
      RunKeepsInv(run, labels, j - 1);
      StepOf(run, labels, j - 1);
      StepKeepsInv(run[j - 1], labels[j - 1], run[j]);
      GrowthAddsUp(run[i].shared.pool, run[j - 1].shared.pool, run[j].shared.pool);
    }
  }

  lemma StepOf(run: seq<System>, labels: seq<Label>, i: nat)
    requires IsRun(run, labels) && i + 1 < |run|
    ensures |run| == |labels| + 1 && WellFormed(run[i]) && Step(run[i], labels[i], run[i + 1])
  {
  }

  /** A registered flight is unfinished, not abandoned, not cancelled, and counts exactly the callers attached to it. */
  lemma RegisteredIsCounted(run: seq<System>, labels: seq<Label>, i: nat, key: Key)
    requires IsRun(run, labels) && i < |run| && key in run[i].shared.flights
    ensures var s, f := run[i].shared, run[i].shared.flights[key];
            && f < |s.pool| && s.pool[f].key == key
            && !s.pool[f].finished && !s.pool[f].abandoned && !s.pool[f].cancelled && !s.pool[f].closed
            && s.pool[f].waiters == |Waiters(run[i].callers, f)| >= 1
  {
    RunKeepsInv(run, labels, i);
    RegisteredIsLive(run[i].shared, key);
    FlightAt(run[i], run[i].shared.flights[key]);
  }

  /** Conversely, every flight that is neither finished nor abandoned is the registered one of its key. */
  lemma LiveIsRegistered(run: seq<System>, labels: seq<Label>, i: nat, f: nat)
    requires IsRun(run, labels) && i < |run| && f < |run[i].shared.pool|
    requires !run[i].shared.pool[f].finished && !run[i].shared.pool[f].abandoned
    ensures Owns(run[i].shared, run[i].shared.pool[f].key, f)
  {
    RunKeepsInv(run, labels, i);
    FlightAt(run[i], f);
  }

  /** Nobody else leaving cancels the flight a caller still waits on. */
  lemma WaitingIsSafe(run: seq<System>, labels: seq<Label>, i: nat, c: nat)
    requires IsRun(run, labels) && i < |run| && c in run[i].callers && run[i].callers[c].Waiting?
    ensures var s, f := run[i].shared, run[i].callers[c].f;
            f < |s.pool| && !s.pool[f].abandoned
            && (!s.pool[f].finished ==> !s.pool[f].cancelled && Owns(s, s.pool[f].key, f))
  {
    RunKeepsInv(run, labels, i);
    FlightAt(run[i], run[i].callers[c].f);
    Counted(run[i].callers, c, run[i].callers[c].f);
  }

  /** All callers a flight answers, at whatever time, get the one answer its finish wrote. */
  lemma OneAnswer(run: seq<System>, labels: seq<Label>, i: nat, j: nat, c: nat, d: nat)
    requires IsRun(run, labels) && i <= j < |run|
    requires c in run[i].callers && run[i].callers[c].Answered?
    requires d in run[j].callers && run[j].callers[d].Answered? && run[j].callers[d].f == run[i].callers[c].f
    ensures run[j].callers[d].answer == run[i].callers[c].answer
  {
    var f := run[i].callers[c].f;
    RunKeepsInv(run, labels, i);
    RunKeepsInv(run, labels, j);
    RunGrows(run, labels, i, j);
    CallerAt(run[i], c);
    CallerAt(run[j], d);
    FlightAt(run[i], f);
    assert Grows(run[i].shared.pool[f], run[j].shared.pool[f]);
  }

  ghost predicate Finishing(s: System, l: Label, f: nat)
  {
    (l.FinishWork? && l.flight == f) || (l.FinishFound? && l.c in s.callers && s.callers[l.c].Holding? && s.callers[l.c].f == f)
  }

  lemma FinishingEnds(run: seq<System>, labels: seq<Label>, i: nat, f: nat)
    requires IsRun(run, labels) && i < |labels| && Finishing(run[i], labels[i], f)
    ensures f < |run[i].shared.pool| && !run[i].shared.pool[f].finished
    ensures f < |run[i + 1].shared.pool| && run[i + 1].shared.pool[f].finished
  {
    RunKeepsInv(run, labels, i);
    StepOf(run, labels, i);
    hide IsRun, Stores;
    if labels[i].FinishFound? {
      CallerAt(run[i], labels[i].c);
    }
    FlightAt(run[i], f);
  }

  lemma EndsForGood(run: seq<System>, labels: seq<Label>, i: nat, j: nat, f: nat)
    requires IsRun(run, labels) && i <= j < |run| && f < |run[i].shared.pool|
    ensures f < |run[j].shared.pool|
    ensures run[i].shared.pool[f].finished ==> run[j].shared.pool[f].finished
    ensures run[i].shared.pool[f].closed ==> run[j].shared.pool[f].closed
  {
    RunGrows(run, labels, i, j);
    assert Grows(run[i].shared.pool[f], run[j].shared.pool[f]);
  }

  /** A flight is finished at most once, so its answer is written once. */
  lemma FinishesOnce(run: seq<System>, labels: seq<Label>, i: nat, j: nat, f: nat)
    requires IsRun(run, labels) && i < |labels| && j < |labels|
    requires Finishing(run[i], labels[i], f) && Finishing(run[j], labels[j], f)
    ensures i == j
  {
    FinishingEnds(run, labels, i, f);
    FinishingEnds(run, labels, j, f);
    hide Finishing;
    if i < j {
      EndsForGood(run, labels, i + 1, j, f);
    } else if j < i {
      EndsForGood(run, labels, j + 1, i, f);
    }
  }

  lemma CloseCloses(run: seq<System>, labels: seq<Label>, i: nat, f: nat)
    requires IsRun(run, labels) && i < |labels| && labels[i] == Close(f)
    ensures f < |run[i].shared.pool| && run[i].shared.pool[f].finished && !run[i].shared.pool[f].closed
    ensures f < |run[i + 1].shared.pool| && run[i + 1].shared.pool[f].closed
  {
    RunKeepsInv(run, labels, i);
    StepOf(run, labels, i);
    hide IsRun;
    FlightAt(run[i], f);
  }

  /** A flight's `done` is closed at most once, and only after the flight finished. */
  lemma ClosesOnce(run: seq<System>, labels: seq<Label>, i: nat, j: nat, f: nat)
    requires IsRun(run, labels) && i < |labels| && j < |labels| && labels[i] == labels[j] == Close(f)
    ensures i == j && f < |run[i].shared.pool| && run[i].shared.pool[f].finished
  {
    CloseCloses(run, labels, i, f);
    CloseCloses(run, labels, j, f);
    if i < j {
      EndsForGood(run, labels, i + 1, j, f);
    } else if j < i {
      EndsForGood(run, labels, j + 1, i, f);
    }
  }

  /** The cache stays within bounds, and what it holds for a key is the answer of a finished flight of
      that key which is never abandoned, before or after. */
  lemma CacheHoldsOwnedWork(run: seq<System>, labels: seq<Label>, i: nat, j: nat, key: Key)
    requires IsRun(run, labels) && i < |run| && j < |run|
    ensures |run[i].shared.cache| <= MAX_CACHE_ENTRIES
    ensures key in run[i].shared.cache ==>
              var e := run[i].shared.cache[key];
              && e.flight < |run[i].shared.pool| && run[i].shared.pool[e.flight].key == key
              && run[i].shared.pool[e.flight].answer == Some(e.answer)
              && (e.flight < |run[j].shared.pool| ==> !run[j].shared.pool[e.flight].abandoned)
  {
    RunKeepsInv(run, labels, i);
    if key in run[i].shared.cache && run[i].shared.cache[key].flight < |run[j].shared.pool| {
      var f := run[i].shared.cache[key].flight;
      FlightAt(run[i], f);
      if i <= j {
        RunGrows(run, labels, i, j);
        assert Grows(run[i].shared.pool[f], run[j].shared.pool[f]);
      } else {
        RunGrows(run, labels, j, i);
        assert Grows(run[j].shared.pool[f], run[i].shared.pool[f]);
      }
    }
  }

  /** An entry appears only through the finish of the flight registered for its key at that moment. */
  lemma OnlyOwnersCommit(run: seq<System>, labels: seq<Label>, i: nat, key: Key)
    requires IsRun(run, labels) && i < |labels| && key in run[i + 1].shared.cache
    requires key !in run[i].shared.cache || run[i].shared.cache[key] != run[i + 1].shared.cache[key]
    ensures labels[i].FinishWork? && Owns(run[i].shared, key, labels[i].flight)
    ensures run[i + 1].shared.cache[key].flight == labels[i].flight
  {
    RunKeepsInv(run, labels, i);
    StepOf(run, labels, i);
    hide IsRun;
    var s, l, t := run[i], labels[i], run[i + 1];
    if l.FinishWork? {
      var k := s.shared.pool[l.flight].key;
      assert Commits(s.shared, k, l.flight, l.expiry);
      StoreIsBounded(s.shared.cache, k, Entry(l.answer, l.expiry.value, l.flight), s.now, t.shared.cache);
    }
  }

  // ----- who is answered with what -----

  /** Whether `e` is the entry of `key` and has not expired. */
  ghost predicate FreshEntry(s: System, key: Key, e: Entry)
  {
    key in s.shared.cache && s.shared.cache[key] == e && s.now < e.expiresAt
  }

  /** The cache answers a caller only from an entry of its own key that has not expired. */
  lemma ServedFresh(run: seq<System>, labels: seq<Label>, i: nat)
    requires IsRun(run, labels) && i < |labels|
    ensures labels[i].Hit? ==>
              var c, key := labels[i].c, labels[i].key;
              && key in run[i].shared.cache && run[i].now < run[i].shared.cache[key].expiresAt
              && c in run[i + 1].callers && run[i + 1].callers[c] == FromCache(run[i].shared.cache[key].answer)
    ensures labels[i].RecheckHit? ==>
              var c := labels[i].c;
              && c in run[i].callers && run[i].callers[c].Opener? && run[i].callers[c].f < |run[i].shared.pool|
              && var f := run[i].callers[c].f;
                 var key := run[i].shared.pool[f].key;
                 && key in run[i].shared.cache && run[i].now < run[i].shared.cache[key].expiresAt
                 && c in run[i + 1].callers && run[i + 1].callers[c] == Holding(f, run[i].shared.cache[key].answer)
  {
    StepOf(run, labels, i);
  }

  /** A query starts only when the cache holds no entry of the flight's key or holds an expired one. */
  lemma QueriesOnlyOnMiss(run: seq<System>, labels: seq<Label>, i: nat, f: nat)
    requires IsRun(run, labels) && i < |labels| && f < |run[i + 1].stages| && run[i + 1].stages[f] == Running
    requires f < |run[i].stages| ==> run[i].stages[f] != Running
    ensures labels[i].RecheckMiss? && f < |run[i].shared.pool|
    ensures var key := run[i].shared.pool[f].key;
            key in run[i].shared.cache ==> run[i].shared.cache[key].expiresAt <= run[i].now
  {
    StepOf(run, labels, i);
    hide IsRun, Stores;
  }

  /** The opener of a flight always can go on: to the cache while its key has a fresh entry, and only
      then, and to a query of its own otherwise, and only then. */
  lemma RecheckIsEnabled(run: seq<System>, labels: seq<Label>, i: nat, c: nat)
    requires IsRun(run, labels) && i < |run| && c in run[i].callers && run[i].callers[c].Opener?
    ensures WellFormed(run[i]) && run[i].callers[c].f < |run[i].shared.pool|
    ensures var key := run[i].shared.pool[run[i].callers[c].f].key;
            var fresh' := key in run[i].shared.cache && run[i].now < run[i].shared.cache[key].expiresAt;
            && ((exists t :: Step(run[i], RecheckHit(c), t)) <==> fresh')
            && ((exists t :: Step(run[i], RecheckMiss(c), t)) <==> !fresh')
  {
    RunKeepsInv(run, labels, i);
    hide IsRun;
    var s := run[i];
    var f := s.callers[c].f;
    var key := s.shared.pool[f].key;
    if key in s.shared.cache && s.now < s.shared.cache[key].expiresAt {
      assert Step(s, RecheckHit(c), s.(callers := s.callers[c := Holding(f, s.shared.cache[key].answer)]));
    } else {
      assert Step(s, RecheckMiss(c), s.(stages := s.stages[f := Running], callers := s.callers[c := Waiting(f)]));
    }
  }

  /** A caller is attached to a flight of the key it came for. */
  lemma ArrivesAtItsKey(run: seq<System>, labels: seq<Label>, i: nat)
    requires IsRun(run, labels) && i < |labels| && labels[i].Arrive?
    ensures var c, t := labels[i].c, run[i + 1];
            && c in t.callers && (t.callers[c].Opener? || t.callers[c].Waiting?)
            && t.callers[c].f < |t.shared.pool| && t.shared.pool[t.callers[c].f].key == labels[i].key
  {
    RunKeepsInv(run, labels, i);
    StepOf(run, labels, i);
    hide IsRun;
    if labels[i].key in run[i].shared.flights {
      RegisteredIsLive(run[i].shared, labels[i].key);
    }
  }

  /** The other half of OnlyOwnersCommit: a query's answer that has an expiry is cached, under the key
      and until that expiry, whenever its flight was not abandoned. */
  lemma OwnersCommit(run: seq<System>, labels: seq<Label>, i: nat)
    requires IsRun(run, labels) && i < |labels| && labels[i].FinishWork? && labels[i].expiry.Some?
    ensures var f := labels[i].flight;
            && f < |run[i].shared.pool|
            && var key := run[i].shared.pool[f].key;
               !run[i].shared.pool[f].abandoned ==>
                 && key in run[i + 1].shared.cache
                 && run[i + 1].shared.cache[key] == Entry(labels[i].answer, labels[i].expiry.value, f)
  {
    RunKeepsInv(run, labels, i);
    StepOf(run, labels, i);
    hide IsRun;
    var s, l, t := run[i], labels[i], run[i + 1];
    FlightAt(s, l.flight);
    if !s.shared.pool[l.flight].abandoned {
      var k := s.shared.pool[l.flight].key;
      StoreIsBounded(s.shared.cache, k, Entry(l.answer, l.expiry.value, l.flight), s.now, t.shared.cache);
    }
  }

  /** The step that writes flight `f`'s answer, and the answer it writes. */
  ghost predicate Writes(s: System, l: Label, f: nat, a: Answer)
  {
    || (l.FinishWork? && l.flight == f && l.answer == a)
    || (l.FinishFound? && l.c in s.callers && s.callers[l.c] == Holding(f, a))
  }

  lemma StepWrites(s: System, l: Label, t: System, f: nat)
    requires Inv(s) && Step(s, l, t) && f < |t.shared.pool| && t.shared.pool[f].answer.Some?
    ensures (f < |s.shared.pool| && s.shared.pool[f].answer == t.shared.pool[f].answer)
            || Writes(s, l, f, t.shared.pool[f].answer.value)
  {
    hide Stores, FlightOk, CacheOk, KeysOk;
  }

  /** Whatever a flight answers was written by a finish of it. */
  lemma {:induction false} AnswerIsWritten(run: seq<System>, labels: seq<Label>, j: nat, f: nat) returns (i: nat)
    requires IsRun(run, labels) && j < |run| && f < |run[j].shared.pool| && run[j].shared.pool[f].answer.Some?
    ensures i < j && Writes(run[i], labels[i], f, run[j].shared.pool[f].answer.value)
  {
    hide Step, Inv, IsRun, WellFormed, Writes;
    NotAtStart(run, labels, j, f);
    StepOf(run, labels, j - 1);
    RunKeepsInv(run, labels, j - 1);
    StepWrites(run[j - 1], labels[j - 1], run[j], f);
    if Writes(run[j - 1], labels[j - 1], f, run[j].shared.pool[f].answer.value) {
      i := j - 1;
    } else {
      i := AnswerIsWritten(run, labels, j - 1, f);
    }
  }

  /** Step `i` read `a` for `c` out of a fresh cache entry. */
  ghost predicate ReadFresh(run: seq<System>, labels: seq<Label>, i: nat, c: nat, a: Answer)
    requires |run| == |labels| + 1 && i < |labels|
  {
    (labels[i].Hit? || labels[i].RecheckHit?) && labels[i].c == c
    && exists key, e :: FreshEntry(run[i], key, e) && e.answer == a
  }

  /** Step `i` finished a flight with `a`. */
  ghost predicate Finished(run: seq<System>, labels: seq<Label>, i: nat, f: nat, a: Answer)
    requires |run| == |labels| + 1 && i < |labels|
  {
    Writes(run[i], labels[i], f, a)
  }

  /** The answer a waiting caller goes away with: what a finish of its own flight wrote, once that is closed. */
  lemma WaitersGetWhatWasWritten(run: seq<System>, labels: seq<Label>, j: nat, c: nat)
    requires IsRun(run, labels) && j < |run| && c in run[j].callers && run[j].callers[c].Answered?
    ensures |run| == |labels| + 1
    ensures var f, a := run[j].callers[c].f, run[j].callers[c].answer;
            && f < |run[j].shared.pool| && run[j].shared.pool[f].closed
            && exists i :: 0 <= i < j && Finished(run, labels, i, f, a)
  {
    RunKeepsInv(run, labels, j);
    var f, a := run[j].callers[c].f, run[j].callers[c].answer;
    CallerAt(run[j], c);
    FlightAt(run[j], f);
    var i := AnswerIsWritten(run, labels, j, f);
    hide IsRun, Inv, Writes;
    assert Finished(run, labels, i, f, a);
  }

  /** Every other answer a caller goes away with it read from the cache, while that was fresh. */
  lemma {:induction false} OthersReadFresh(run: seq<System>, labels: seq<Label>, j: nat, c: nat)
    requires IsRun(run, labels) && j < |run| && c in run[j].callers
    requires run[j].callers[c].FromCache? || run[j].callers[c].Holding? || run[j].callers[c].Serving?
    ensures |run| == |labels| + 1
    ensures exists i :: 0 <= i < j && ReadFresh(run, labels, i, c, run[j].callers[c].answer)
  {
    var who := run[j].callers[c];
    assert j > 0;
    RunKeepsInv(run, labels, j - 1);
    StepOf(run, labels, j - 1);
    hide Inv, Step, WellFormed, FreshEntry;
    CarriedFrom(run[j - 1], labels[j - 1], run[j], c);
    if c in run[j - 1].callers && CarriesOn(run[j - 1].callers[c], who.answer) {
      OthersReadFresh(run, labels, j - 1, c);
      var i :| 0 <= i < j - 1 && ReadFresh(run, labels, i, c, who.answer);
    } else {
      assert ReadFresh(run, labels, j - 1, c, who.answer);
    }
  }

  predicate CarriesOn(c: Caller, a: Answer)
  {
    (c.FromCache? || c.Holding? || c.Serving?) && c.answer == a
  }

  lemma CarriedFrom(s: System, l: Label, t: System, c: nat)
    requires Inv(s) && Step(s, l, t) && c in t.callers && (t.callers[c].FromCache? || t.callers[c].Holding? || t.callers[c].Serving?)
    ensures (c in s.callers && CarriesOn(s.callers[c], t.callers[c].answer))
            || ((l.Hit? || l.RecheckHit?) && l.c == c
                && exists key, e :: FreshEntry(s, key, e) && e.answer == t.callers[c].answer)
  {
    hide Stores, FlightOk, CacheOk, KeysOk;
    if l.Hit? && l.c == c {
      assert FreshEntry(s, l.key, s.shared.cache[l.key]);
    } else if l.RecheckHit? && l.c == c {
      var key := s.shared.pool[s.callers[c].f].key;
      assert FreshEntry(s, key, s.shared.cache[key]);
    }
  }

  // ----- nothing is left running, and nobody is left waiting -----

  /** A caller that left flight `f` last is about to cancel it. */
  ghost predicate QuitsFor(callers: map<nat, Caller>, f: nat)
  {
    exists c :: c in callers && callers[c] == Quitting(f)
  }

  lemma QuitterCancels(s: System, l: Label, t: System, f: nat, c: nat)
    requires Inv(s) && Step(s, l, t) && c in s.callers && s.callers[c] == Quitting(f)
    ensures f < |t.shared.pool| && c in t.callers && (t.callers[c] == Quitting(f) || t.shared.pool[f].cancelled)
  {
    hide Stores, FlightOk, CacheOk, KeysOk;
  }

  lemma AbandonedByQuitter(s: System, l: Label, t: System, f: nat)
    requires Inv(s) && Step(s, l, t) && f < |t.shared.pool| && t.shared.pool[f].abandoned
    requires f < |s.shared.pool| ==> !s.shared.pool[f].abandoned
    ensures l.Leave? && l.c in t.callers && t.callers[l.c] == Quitting(f)
  {
    hide Stores, FlightOk, CacheOk, KeysOk;
  }

  lemma NotAtStart(run: seq<System>, labels: seq<Label>, i: nat, f: nat)
    requires IsRun(run, labels) && i < |run| && (f < |run[i].shared.pool| || f < |run[i].stages|)
    ensures i > 0
  {
  }

  /** Abandoned work is cancelled: already, or by the caller that has just left it last. */
  lemma {:induction false} AbandonedIsCancelled(run: seq<System>, labels: seq<Label>, i: nat, f: nat)
    requires IsRun(run, labels) && i < |run| && f < |run[i].shared.pool| && run[i].shared.pool[f].abandoned
    ensures run[i].shared.pool[f].cancelled || QuitsFor(run[i].callers, f)
  {
    hide Step, Inv, IsRun, WellFormed;
    NotAtStart(run, labels, i, f);
    StepOf(run, labels, i - 1);
    RunKeepsInv(run, labels, i - 1);
    RunGrows(run, labels, i - 1, i);
    var s, l, t := run[i - 1], labels[i - 1], run[i];
    if f < |s.shared.pool| && s.shared.pool[f].abandoned {
      AbandonedIsCancelled(run, labels, i - 1, f);
      assert Grows(s.shared.pool[f], t.shared.pool[f]);
      if !s.shared.pool[f].cancelled {
        var c :| c in s.callers && s.callers[c] == Quitting(f);
        QuitterCancels(s, l, t, f, c);
      }
    } else {
      AbandonedByQuitter(s, l, t, f);
    }
  }

  lemma StagePasses(s: System, l: Label, t: System, f: nat)
    requires Inv(s) && Step(s, l, t) && f < |t.stages| && (t.stages[f].Closing? || t.stages[f].Done?)
    ensures f < |s.stages| && f < |s.shared.pool| <= |t.shared.pool|
    ensures t.shared.pool[f].cancelled || (s.stages[f].Closing? || s.stages[f].Done?)
  {
    hide Stores, FlightOk, CacheOk, KeysOk;
  }

  /** A flight's timer is released before its callers wake. */
  lemma {:induction false} ClosedIsCancelled(run: seq<System>, labels: seq<Label>, i: nat, f: nat)
    requires IsRun(run, labels) && i < |run| && f < |run[i].stages| && (run[i].stages[f].Closing? || run[i].stages[f].Done?)
    ensures f < |run[i].shared.pool| && run[i].shared.pool[f].cancelled
  {
    hide Step, Inv, IsRun, WellFormed;
    NotAtStart(run, labels, i, f);
    StepOf(run, labels, i - 1);
    RunKeepsInv(run, labels, i - 1);
    RunGrows(run, labels, i - 1, i);
    StagePasses(run[i - 1], labels[i - 1], run[i], f);
    if run[i - 1].stages[f].Closing? || run[i - 1].stages[f].Done? {
      ClosedIsCancelled(run, labels, i - 1, f);
      assert Grows(run[i - 1].shared.pool[f], run[i].shared.pool[f]);
    }
  }

  /** How many steps flight `f` is away from waking its callers. */
  function StepsLeft(s: System, f: nat): nat
    requires f < |s.stages|
  {
    match s.stages[f]
    case Opening(c) => if c in s.callers && s.callers[c].Holding? then 4 else 5
    case Running => 3
    case Ending => 2
    case Closing => 1
    case Done => 0
  }

  ghost predicate Advances(s: System, l: Label, t: System, f: nat)
    requires f < |s.stages|
  {
    WellFormed(s) && Step(s, l, t) && f < |t.stages| && StepsLeft(t, f) < StepsLeft(s, f)
  }

  /** There is always an eviction to be had. */
  lemma {:induction false} Smaller(live: map<Key, Entry>, n: nat) returns (kept: map<Key, Entry>)
    requires n <= |live|
    ensures |kept| == n && forall k :: k in kept ==> k in live && kept[k] == live[k]
  {
    if n == |live| {
      kept := live;
    } else {
      assert live.Keys != {};
      var k :| k in live;
      RemovingOne(live, k);
      kept := Smaller(Without(live, k), n);
    }
  }

  lemma SomeStore(cache: map<Key, Entry>, key: Key, e: Entry, now: Time) returns (after: map<Key, Entry>)
    ensures Stores(cache, key, e, now, after)
  {
    var live := Unexpired(cache, now);
    var kept := Smaller(live, if |live| < MAX_CACHE_ENTRIES then |live| else |live| - MAX_CACHE_ENTRIES / EVICT_FRACTION);
    assert Evicts(cache, now, kept);
    after := if |cache| < MAX_CACHE_ENTRIES then cache[key := e] else kept[key := e];
  }

  lemma SomeFinish(s: Shared, key: Key, f: nat, answer: Answer, expiry: Option<Time>, now: Time) returns (after: Shared)
    requires f < |s.pool|
    ensures Finishes(s, key, f, answer, expiry, now, after)
  {
    hide Stores;
    var cache := s.cache;
    if Commits(s, key, f, expiry) {
      cache := SomeStore(s.cache, key, Entry(answer, expiry.value, f), now);
    }
    after := Shared(if Owns(s, key, f) then Without(s.flights, key) else s.flights,
                    s.pool[f := s.pool[f].(answer := Some(answer), finished := true,
                                           committed := s.pool[f].committed || Commits(s, key, f, expiry))],
                    cache);
  }

  /** Whatever the answer and its lifetime, a running flight can finish with them. */
  lemma WorkCanFinish(run: seq<System>, labels: seq<Label>, i: nat, f: nat, a: Answer, expiry: Option<Time>) returns (t: System)
    requires IsRun(run, labels) && i < |run| && f < |run[i].stages| && run[i].stages[f] == Running
    ensures Advances(run[i], FinishWork(f, a, expiry), t, f)
  {
    RunKeepsInv(run, labels, i);
    hide IsRun, FlightsOk, CallersOk, CacheOk, KeysOk;
    var s := run[i];
    hide Finishes;
    var shared := SomeFinish(s.shared, s.shared.pool[f].key, f, a, expiry, s.now);
    t := System(shared, s.stages[f := Ending], s.callers, s.now);
  }

  /** No flight is ever stuck: until its callers wake, somebody can take a step that brings that nearer. */
  lemma FlightsGoOn(run: seq<System>, labels: seq<Label>, i: nat, f: nat) returns (l: Label, t: System)
    requires IsRun(run, labels) && i < |run| && f < |run[i].stages| && run[i].stages[f] != Done
    ensures Advances(run[i], l, t, f)
  {
    RunKeepsInv(run, labels, i);
    var s := run[i];
    match s.stages[f]
    case Opening(c) =>
      FlightAt(s, f);
      CallerAt(s, c);
      l, t := OpeningGoesOn(s, f, c);
    case Running =>
      var why := Answer("", "", Canceled, 0);
      t := WorkCanFinish(run, labels, i, f, why, None);
      l := FinishWork(f, why, None);
    case Ending =>
      l := CancelDone(f);
      t := WithFlight(s, f, s.shared.pool[f].(cancelled := true), Closing, s.callers);
    case Closing =>
      l := Close(f);
      t := WithFlight(s, f, s.shared.pool[f].(closed := true), Done, s.callers);
  }

  lemma OpeningGoesOn(s: System, f: nat, c: nat) returns (l: Label, t: System)
    requires WellFormed(s) && f < |s.stages| && s.stages[f] == Opening(c) && c in s.callers
    requires (s.callers[c].Opener? || s.callers[c].Holding?) && s.callers[c].f == f
    ensures Advances(s, l, t, f)
  {
    hide Finishes;
    var key := s.shared.pool[f].key;
    if s.callers[c].Holding? {
      var a := s.callers[c].answer;
      var shared := SomeFinish(s.shared, key, f, a, None, s.now);
      l, t := FinishFound(c), System(shared, s.stages[f := Ending], s.callers[c := Serving(f, a)], s.now);
    } else if Cached(s.shared.cache, key, s.now).Some? {
      l, t := RecheckHit(c), s.(callers := s.callers[c := Holding(f, Cached(s.shared.cache, key, s.now).value.answer)]);
    } else {
      l, t := RecheckMiss(c), s.(stages := s.stages[f := Running], callers := s.callers[c := Waiting(f)]);
    }
  }

  /** Every caller waiting on a closed flight can leave with its answer, as can the one that answered it itself. */
  lemma ClosedWakes(run: seq<System>, labels: seq<Label>, i: nat, c: nat) returns (l: Label, t: System)
    requires IsRun(run, labels) && i < |run| && c in run[i].callers
    requires run[i].callers[c].Waiting? || run[i].callers[c].Serving?
    requires run[i].callers[c].f < |run[i].stages| && run[i].stages[run[i].callers[c].f] == Done
    ensures WellFormed(run[i]) && Step(run[i], l, t) && c in t.callers
    ensures t.callers[c].Answered? || t.callers[c].FromCache?
    ensures run[i].callers[c].f < |run[i].shared.pool| && run[i].shared.pool[run[i].callers[c].f].answer == Some(t.callers[c].answer)
  {
    RunKeepsInv(run, labels, i);
    var s, f := run[i], run[i].callers[c].f;
    FlightAt(s, f);
    CallerAt(s, c);
    if s.callers[c].Waiting? {
      l, t := Wake(c), s.(callers := s.callers[c := Answered(f, s.shared.pool[f].answer.value)]);
    } else {
      l, t := Return(c), s.(callers := s.callers[c := FromCache(s.callers[c].answer)]);
    }
  }
}
