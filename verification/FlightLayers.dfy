/** internal/asn/resolver.go: the two layers together. The worker of an IP flight is a caller of the
    name layer, so a name-layer caller is known by the IP flight it works for. A joint step is a step of
    one layer while the other stands still, or time passing for both; an IP flight finishes only on what
    its own name caller got. Each layer keeps its own invariant, and the cap on IP answers is what the
    two together add. */
module FlightLayers {
  import opened Basics
  import opened Flights
  import opened FlightProtocol

  const NEGATIVE_TTL: Time := 5 * 60

  // ----- how long an answer is kept -----

  /** The lifetime of an answer under a positive lifetime `ttl`; a cancellation is not kept at all. */
  function Lifetime(failure: Failure, ttl: Time): Option<Time>
  {
    match failure
    case NoFailure => Some(ttl)
    case Canceled => None
    case Failed(_) => Some(NEGATIVE_TTL)
  }

  /** When an IP entry expires: its own lifetime, cut short by the AS-name answer it was built from. */
  function IpExpiry(a: Answer, now: Time, ttl: Time): (expiry: Option<Time>)
    ensures expiry.Some? && a.cap != 0 ==> expiry.value <= a.cap
    ensures expiry.None? <==> a.failure.Canceled?
  {
    match Lifetime(a.failure, ttl)
    case None => None
    case Some(life) => Some(if a.cap != 0 && a.cap < now + life then a.cap else now + life)
  }

  function NameExpiry(failure: Failure, now: Time, ttl: Time): Option<Time>
  {
    match Lifetime(failure, ttl)
    case None => None
    case Some(life) => Some(now + life)
  }

  /** The IP answer built from the origin's country and the name layer's answer. */
  function FromName(country: string, n: Answer): Answer
  {
    if n.failure.NoFailure? then Answer(country, n.name, NoFailure, n.cap) else Answer("", "", n.failure, n.cap)
  }

  // ----- joint steps -----

  datatype Joint = Joint(ip: System, name: System)

  datatype JointLabel = Ip(l: Label) | Name(l: Label) | Clock

  /** What the name layer gave a worker back: an answer, if it did not give up. */
  predicate Back(c: Caller) { c.Answered? || c.FromCache? || c.GaveUp? }

  predicate Carries(c: Caller) { c.Holding? || c.Serving? || c.Answered? || c.FromCache? }

  /** What an IP flight's worker may finish with: an origin failure, a cancelled or timed-out wait for
      the name, or an answer built from the name it was given. */
  ghost predicate IpWork(s: Joint, f: nat, a: Answer, expiry: Option<Time>, ttl: Time)
  {
    && expiry == IpExpiry(a, s.ip.now, ttl)
    && (if f !in s.name.callers || s.name.callers[f].GaveUp? then !a.failure.NoFailure? && a.cap == 0
        else Back(s.name.callers[f]) && exists country :: a == FromName(country, s.name.callers[f].answer))
  }

  ghost predicate NameWork(n: Answer, expiry: Option<Time>, now: Time, ttl: Time)
  {
    expiry == NameExpiry(n.failure, now, ttl) && n.cap == if expiry.Some? then expiry.value else 0
  }

  predicate Begins(l: Label) { l.Hit? || l.Refused? || l.Arrive? }

  ghost predicate JointStep(s: Joint, l: JointLabel, t: Joint, ttl: Time)
    requires WellFormed(s.ip) && WellFormed(s.name)
  {
    match l
    case Ip(m) =>
      && t.name == s.name && !m.Tick? && Step(s.ip, m, t.ip)
      && (m.FinishWork? ==> IpWork(s, m.flight, m.answer, m.expiry, ttl))
    case Name(m) =>
      && t.ip == s.ip && !m.Tick? && Step(s.name, m, t.name)
      && (Begins(m) ==> m.c < |s.ip.stages| && s.ip.stages[m.c] == Running)
      && (m.FinishWork? ==> NameWork(m.answer, m.expiry, s.name.now, ttl))
    case Clock =>
      Step(s.ip, Tick, t.ip) && Step(s.name, Tick, t.name) && t.ip.now == t.name.now
  }

  // ----- the joint invariant -----

  /** Only a cancelled name query answers without an expiry. */
  predicate CapOk(n: Answer)
  {
    n.cap == 0 ==> n.failure.Canceled?
  }

  ghost predicate NamesCapped(name: System)
  {
    && (forall g :: 0 <= g < |name.shared.pool| && name.shared.pool[g].answer.Some? ==> CapOk(name.shared.pool[g].answer.value))
    && (forall c :: c in name.callers && Carries(name.callers[c]) ==> CapOk(name.callers[c].answer))
    && (forall k :: k in name.shared.cache ==>
          CapOk(name.shared.cache[k].answer) && name.shared.cache[k].expiresAt == name.shared.cache[k].answer.cap)
  }

  predicate Over(stage: Stage) { stage.Ending? || stage.Closing? || stage.Done? }

  /** Workers ask for a name only while they run, and are back before they finish. */
  ghost predicate WorkersBack(s: Joint)
  {
    forall c :: c in s.name.callers ==>
      && c < |s.ip.stages| && !s.ip.stages[c].Opening?
      && (Over(s.ip.stages[c]) ==> Back(s.name.callers[c]))
  }

  ghost predicate EntryCapped(s: Joint, e: Entry)
  {
    && e.flight < |s.ip.stages| && Over(s.ip.stages[e.flight])
    && (e.answer.cap != 0 ==> e.expiresAt <= e.answer.cap)
    && (e.flight in s.name.callers && !s.name.callers[e.flight].GaveUp? ==>
          Carries(s.name.callers[e.flight]) && e.answer.cap == s.name.callers[e.flight].answer.cap != 0)
  }

  ghost predicate IpsCapped(s: Joint)
  {
    forall k :: k in s.ip.shared.cache ==> EntryCapped(s, s.ip.shared.cache[k])
  }

  ghost predicate JointInv(s: Joint)
  {
    Inv(s.ip) && Inv(s.name) && NamesCapped(s.name) && WorkersBack(s) && IpsCapped(s)
  }

  // ----- what single steps do -----

  /** A cache entry is an old one or the one this step's finish stored. */
  ghost predicate EntryFrom(s: System, l: Label, e: Entry, k: Key)
  {
    || (k in s.shared.cache && e == s.shared.cache[k])
    || (l.FinishWork? && l.expiry.Some? && l.flight < |s.stages| && e == Entry(l.answer, l.expiry.value, l.flight))
  }

  lemma StepCache(s: System, l: Label, t: System)
    requires Inv(s) && Step(s, l, t)
    ensures forall k :: k in t.shared.cache ==> EntryFrom(s, l, t.shared.cache[k], k)
  {
    if l.FinishWork? {
      var k := s.shared.pool[l.flight].key;
      if Commits(s.shared, k, l.flight, l.expiry) {
        StoreIsBounded(s.shared.cache, k, Entry(l.answer, l.expiry.value, l.flight), s.now, t.shared.cache);
      }
    }
  }

  /** Callers come only by beginning, and those that are back stay as they are. */
  lemma StepCallers(s: System, l: Label, t: System)
    requires Inv(s) && Step(s, l, t)
    ensures forall c :: c in s.callers ==> c in t.callers && (Back(s.callers[c]) ==> t.callers[c] == s.callers[c])
    ensures forall c :: c in t.callers && c !in s.callers ==> Begins(l) && c == l.c
    ensures forall c :: c in t.callers && Carries(t.callers[c]) ==> AnswerFrom(s, c, t.callers[c].answer)
  {
    hide Stores, FlightOk, CacheOk, KeysOk;
  }

  /** Where an answer a caller carries comes from. */
  ghost predicate AnswerFrom(s: System, c: nat, a: Answer)
  {
    || (exists k :: k in s.shared.cache && s.shared.cache[k].answer == a)
    || (exists g :: 0 <= g < |s.shared.pool| && s.shared.pool[g].answer == Some(a))
    || (c in s.callers && Carries(s.callers[c]) && s.callers[c].answer == a)
  }

  lemma StepStages(s: System, l: Label, t: System)
    requires Inv(s) && Step(s, l, t)
    ensures |s.stages| <= |t.stages|
    ensures forall f :: 0 <= f < |s.stages| && Over(s.stages[f]) ==> Over(t.stages[f])
    ensures forall f :: 0 <= f < |s.stages| && !s.stages[f].Opening? ==> !t.stages[f].Opening?
    ensures forall f :: 0 <= f < |s.stages| && !Over(s.stages[f]) && Over(t.stages[f]) ==>
              (l.FinishWork? && l.flight == f) || s.stages[f].Opening?
    ensures l.FinishWork? ==> l.flight < |t.stages| && Over(t.stages[l.flight])
  {
    hide Stores, FlightOk, CacheOk, KeysOk;
  }

  /** Every answer in a pool is an old one, a worker's, or one read from the cache. */
  lemma StepAnswers(s: System, l: Label, t: System)
    requires Inv(s) && Step(s, l, t)
    ensures forall g :: 0 <= g < |t.shared.pool| && t.shared.pool[g].answer.Some? ==>
              var a := t.shared.pool[g].answer.value;
              (g < |s.shared.pool| && s.shared.pool[g].answer == Some(a)) || (l.FinishWork? && a == l.answer)
              || (l.FinishFound? && l.c in s.callers && Carries(s.callers[l.c]) && a == s.callers[l.c].answer)
  {
    hide Stores, FlightOk, CacheOk, KeysOk;
  }

  // ----- the invariant is kept -----

  lemma NamesStayCapped(s: Joint, m: Label, t: Joint, ttl: Time)
    requires JointInv(s) && JointStep(s, Name(m), t, ttl) && ttl > 0
    ensures NamesCapped(t.name)
  {
    hide Step, Inv, WorkersBack, IpsCapped;
    StepCache(s.name, m, t.name);
    StepCallers(s.name, m, t.name);
    StepAnswers(s.name, m, t.name);
    if m.FinishWork? {
      assert CapOk(m.answer);
    }
  }

  lemma NameStepKeeps(s: Joint, m: Label, t: Joint, ttl: Time)
    requires JointInv(s) && JointStep(s, Name(m), t, ttl) && ttl > 0
    ensures JointInv(t)
  {
    hide Step, Inv, NamesCapped;
    NamesStayCapped(s, m, t, ttl);
    StepKeepsInv(s.name, m, t.name);
    StepCallers(s.name, m, t.name);
    forall k | k in t.ip.shared.cache ensures EntryCapped(t, t.ip.shared.cache[k]) {
      var e := t.ip.shared.cache[k];
      assert EntryCapped(s, e);
    }
  }

  lemma IpStepKeeps(s: Joint, m: Label, t: Joint, ttl: Time)
    requires JointInv(s) && JointStep(s, Ip(m), t, ttl)
    ensures JointInv(t)
  {
    hide Step, Inv;
    StepKeepsInv(s.ip, m, t.ip);
    StepStages(s.ip, m, t.ip);
    StepCache(s.ip, m, t.ip);
    forall k | k in t.ip.shared.cache ensures EntryCapped(t, t.ip.shared.cache[k]) {
      var e := t.ip.shared.cache[k];
      if k in s.ip.shared.cache && e == s.ip.shared.cache[k] {
        assert EntryCapped(s, e);
      }
    }
  }

  lemma OnlyTimePasses(s: System, t: System)
    requires Inv(s) && Step(s, Tick, t)
    ensures t == s.(now := t.now)
  {
  }

  lemma ClockKeeps(s: Joint, t: Joint, ttl: Time)
    requires JointInv(s) && JointStep(s, Clock, t, ttl)
    ensures JointInv(t)
  {
    hide Step, Inv;
    StepKeepsInv(s.ip, Tick, t.ip);
    StepKeepsInv(s.name, Tick, t.name);
    OnlyTimePasses(s.ip, t.ip);
    OnlyTimePasses(s.name, t.name);
    forall k | k in t.ip.shared.cache ensures EntryCapped(t, t.ip.shared.cache[k]) {
      assert EntryCapped(s, s.ip.shared.cache[k]);
    }
  }

  ghost predicate IsJointRun(run: seq<Joint>, labels: seq<JointLabel>, ttl: Time)
  {
    && |run| == |labels| + 1 && run[0] == Joint(Start(), Start())
    && forall i :: 0 <= i < |labels| ==>
         WellFormed(run[i].ip) && WellFormed(run[i].name) && JointStep(run[i], labels[i], run[i + 1], ttl)
  }

  lemma {:induction false} JointRunKeepsInv(run: seq<Joint>, labels: seq<JointLabel>, ttl: Time, i: nat)
    requires IsJointRun(run, labels, ttl) && i < |run| && ttl > 0
    ensures JointInv(run[i])
  {
    hide JointInv, JointStep, IsJointRun;
    if i == 0 {
      JointStartsRight(run, labels, ttl);
    } else {
      JointStepOf(run, labels, ttl, i - 1);
      JointRunKeepsInv(run, labels, ttl, i - 1);
      match labels[i - 1]
      case Ip(m) => IpStepKeeps(run[i - 1], m, run[i], ttl);
      case Name(m) => NameStepKeeps(run[i - 1], m, run[i], ttl);
      case Clock => ClockKeeps(run[i - 1], run[i], ttl);
    }
  }

  lemma JointStartsRight(run: seq<Joint>, labels: seq<JointLabel>, ttl: Time)
    requires IsJointRun(run, labels, ttl)
    ensures |run| > 0 && JointInv(run[0])
  {
  }

  lemma JointStepOf(run: seq<Joint>, labels: seq<JointLabel>, ttl: Time, i: nat)
    requires IsJointRun(run, labels, ttl) && i + 1 < |run|
    ensures |run| == |labels| + 1 && WellFormed(run[i].ip) && WellFormed(run[i].name)
    ensures JointStep(run[i], labels[i], run[i + 1], ttl)
  {
  }

  /** In every interleaving of both layers: an IP entry whose worker got an AS-name answer expires no
      later than that answer, nor than any name entry that holds it. */
  lemma IpNeverOutlivesName(run: seq<Joint>, labels: seq<JointLabel>, ttl: Time, i: nat, ip: Key)
    requires IsJointRun(run, labels, ttl) && i < |run| && ttl > 0 && ip in run[i].ip.shared.cache
    ensures var e, callers := run[i].ip.shared.cache[ip], run[i].name.callers;
            e.flight in callers && !callers[e.flight].GaveUp? ==>
              && Carries(callers[e.flight]) && e.expiresAt <= callers[e.flight].answer.cap
              && forall asn :: asn in run[i].name.shared.cache && run[i].name.shared.cache[asn].answer == callers[e.flight].answer ==>
                   e.expiresAt <= run[i].name.shared.cache[asn].expiresAt
  {
    JointRunKeepsInv(run, labels, ttl, i);
    assert EntryCapped(run[i], run[i].ip.shared.cache[ip]);
  }

  // ----- what an IP query's answer is and how long it is kept -----

  ghost predicate Worked(run: seq<Joint>, labels: seq<JointLabel>, i: nat)
    requires |run| == |labels| + 1 && i < |labels|
  {
    labels[i].Ip? && labels[i].l.FinishWork?
  }

  /** An IP query is kept for the positive lifetime, or five minutes when it failed, or as long as the
      AS-name answer behind it if that is shorter; not at all when it was cancelled. */
  lemma IpLifetime(run: seq<Joint>, labels: seq<JointLabel>, ttl: Time, i: nat)
    requires IsJointRun(run, labels, ttl) && i < |labels| && Worked(run, labels, i)
    ensures var a, expiry, now := labels[i].l.answer, labels[i].l.expiry, run[i].ip.now;
            match a.failure
            case Canceled => expiry == None
            case NoFailure => expiry == Some(if a.cap != 0 && a.cap < now + ttl then a.cap else now + ttl)
            case Failed(_) => expiry == Some(if a.cap != 0 && a.cap < now + 300 then a.cap else now + 300)
  {
    assert JointStep(run[i], labels[i], run[i + 1], ttl);
    hide Step;
  }

  /** A name query is kept for the same lifetimes, and its answer carries the expiry. */
  lemma NameLifetime(run: seq<Joint>, labels: seq<JointLabel>, ttl: Time, i: nat)
    requires IsJointRun(run, labels, ttl) && i < |labels| && labels[i].Name? && labels[i].l.FinishWork?
    ensures var n, expiry, now := labels[i].l.answer, labels[i].l.expiry, run[i].name.now;
            match n.failure
            case Canceled => expiry == None && n.cap == 0
            case NoFailure => expiry == Some(now + ttl) && n.cap == now + ttl
            case Failed(_) => expiry == Some(now + 300) && n.cap == now + 300
  {
    assert JointStep(run[i], labels[i], run[i + 1], ttl);
    hide Step;
  }

  /** What an IP query answers is built from what its own name caller was given: the name of a good
      answer, the failure of a bad one, and its expiry either way. Without one it is a failure. */
  lemma IpAnswersCarryNames(run: seq<Joint>, labels: seq<JointLabel>, ttl: Time, i: nat)
    requires IsJointRun(run, labels, ttl) && i < |labels| && Worked(run, labels, i)
    ensures var a, f, callers := labels[i].l.answer, labels[i].l.flight, run[i].name.callers;
            if f in callers && (callers[f].Answered? || callers[f].FromCache?) then
              var n := callers[f].answer;
              a.failure == n.failure && a.cap == n.cap && (n.failure.NoFailure? ==> a.name == n.name)
            else !a.failure.NoFailure? && a.cap == 0
  {
    assert JointStep(run[i], labels[i], run[i + 1], ttl);
    hide Step;
  }
}
