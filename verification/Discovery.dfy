/** internal/ghfind/find.go: the selection half of one discovery pass. */
module Discovery {
  import opened Basics
  import opened Cover
  import Sorting

  const COVER_FLOOR_MIN := 20
  const COVER_FLOOR_PERCENT := 2
  const PERCENT_DIVISOR := 100

  /** What one candidate fetch produced; `url` is the candidate's raw URL. */
  datatype Outcome = Outcome(url: string, attempted: bool, err: bool, nodes: nat, eps: seq<Hash>)

  datatype File = File(url: string, nodes: nat, novel: nat)

  datatype Repo = Repo(accepted: seq<File>, probed: nat, live: nat)

  /** One fold into the running union: of a file already managed, or of one being accepted. */
  datatype FoldEvent =
    | KnownFile(eps: seq<Hash>)
    | AcceptedFile(eps: seq<Hash>, file: File)

  // ----- the pass as the list of its folds -----

  ghost function Folded(log: seq<FoldEvent>): set<Hash>
  {
    if log == [] then {} else Folded(log[..|log| - 1]) + Elements(log[|log| - 1].eps)
  }

  /** What a fold adds that neither the census nor an earlier fold holds. */
  ghost function Added(log: seq<FoldEvent>, census: set<Hash>, eps: seq<Hash>): set<Hash>
  {
    Elements(eps) - census - Folded(log)
  }

  /** The endpoints outside the census whose first fold was an acceptance. */
  ghost function CountedEndpoints(log: seq<FoldEvent>, census: set<Hash>): set<Hash>
  {
    if log == [] then {}
    else
      var before, e := log[..|log| - 1], log[|log| - 1];
      CountedEndpoints(before, census) + (if e.AcceptedFile? then Added(before, census, e.eps) else {})
  }

  ghost function AcceptedFiles(log: seq<FoldEvent>): seq<File>
  {
    if log == [] then []
    else
      var e := log[|log| - 1];
      AcceptedFiles(log[..|log| - 1]) + (if e.AcceptedFile? then [e.file] else [])
  }

  ghost function TotalNovel(files: seq<File>): nat
  {
    if files == [] then 0 else TotalNovel(files[..|files| - 1]) + files[|files| - 1].novel
  }

  ghost function FilesOf(repos: seq<Repo>): seq<File>
  {
    if repos == [] then [] else FilesOf(repos[..|repos| - 1]) + repos[|repos| - 1].accepted
  }

  /** Every acceptance reports what it added, added enough, and names no managed URL. */
  ghost predicate Honest(log: seq<FoldEvent>, census: set<Hash>, known: set<string>, minNovel: int)
  {
    log == [] ||
    var before, e := log[..|log| - 1], log[|log| - 1];
    && Honest(before, census, known, minNovel)
    && (e.AcceptedFile? ==>
          && e.file.novel == |Added(before, census, e.eps)|
          && e.file.novel >= minNovel
          && e.file.url !in known)
  }

  lemma {:induction false} CountedAreFolded(log: seq<FoldEvent>, census: set<Hash>)
    ensures CountedEndpoints(log, census) <= Folded(log) - census
  {
    if log != [] {
      CountedAreFolded(log[..|log| - 1], census);
    }
  }

  /** The per-file novelty counts sum to the number of distinct endpoints the pass newly accepted. */
  lemma {:induction false} NovelCountsAreDistinct(log: seq<FoldEvent>, census: set<Hash>, known: set<string>, minNovel: int)
    requires Honest(log, census, known, minNovel)
    ensures TotalNovel(AcceptedFiles(log)) == |CountedEndpoints(log, census)|
  {
    if log != [] {
      var before, e := log[..|log| - 1], log[|log| - 1];
      NovelCountsAreDistinct(before, census, known, minNovel);
      CountedAreFolded(before, census);
      var files := AcceptedFiles(before);
      if e.AcceptedFile? {
        assert (files + [e.file])[..|files|] == files;
        assert CountedEndpoints(before, census) !! Added(before, census, e.eps);
      } else {
        assert files + [] == files;
        assert CountedEndpoints(before, census) + {} == CountedEndpoints(before, census);
      }
    }
  }

  /** An endpoint is counted exactly when the first fold that carried it was an acceptance. */
  lemma {:induction false} CountedByFirstFold(log: seq<FoldEvent>, census: set<Hash>, h: Hash)
    ensures h in CountedEndpoints(log, census) <==>
            h !in census && exists i :: 0 <= i < |log| && FirstAcceptedAt(log, i, h)
  {
    if log != [] {
      var n := |log| - 1;
      var before := log[..n];
      CountedByFirstFold(before, census, h);
      FoldedMeansSome(before, h);
      if exists i :: 0 <= i < n && FirstAcceptedAt(before, i, h) {
        var i :| 0 <= i < n && FirstAcceptedAt(before, i, h);
        assert FirstAcceptedAt(log, i, h);
      }
      if exists i :: 0 <= i < |log| && FirstAcceptedAt(log, i, h) {
        var i :| 0 <= i < |log| && FirstAcceptedAt(log, i, h);
        if i < n {
          assert FirstAcceptedAt(before, i, h);
        }
      }
      if h in CountedEndpoints(log, census) && h !in CountedEndpoints(before, census) {
        assert FirstAcceptedAt(log, n, h);
      }
    }
  }

  ghost predicate FirstAcceptedAt(log: seq<FoldEvent>, i: nat, h: Hash)
    requires i < |log|
  {
    && log[i].AcceptedFile? && h in log[i].eps
    && forall j :: 0 <= j < i ==> h !in log[j].eps
  }

  lemma {:induction false} FoldedMeansSome(log: seq<FoldEvent>, h: Hash)
    ensures h in Folded(log) <==> exists j :: 0 <= j < |log| && h in log[j].eps
  {
    if log != [] {
      var n := |log| - 1;
      FoldedMeansSome(log[..n], h);
      if exists j :: 0 <= j < |log| && h in log[j].eps {
        var j :| 0 <= j < |log| && h in log[j].eps;
        assert j < n ==> log[..n][j] == log[j];
      }
      if h in Folded(log[..n]) {
        var j :| 0 <= j < n && h in log[..n][j].eps;
        assert h in log[j].eps;
      }
    }
  }

  // ----- the pass itself -----

  function NatLeq(a: nat, b: nat): bool { a <= b }

  lemma NatLeqIsOrder()
    ensures Sorting.TotalPreorder(NatLeq)
  {
  }

  datatype LiveCand = LiveCand(url: string, nodes: nat, eps: seq<Hash>, known: bool)

  function SetsOf(live: seq<LiveCand>): (sets: seq<seq<Hash>>)
    ensures |sets| == |live| && forall i :: 0 <= i < |sets| ==> sets[i] == live[i].eps
  {
    seq(|live|, i requires 0 <= i < |live| => live[i].eps)
  }

  function AllElements(sets: seq<seq<Hash>>): set<Hash>
  {
    if sets == [] then {} else AllElements(sets[..|sets| - 1]) + Elements(sets[|sets| - 1])
  }

  ghost predicate OutcomesDistinct(outs: seq<Outcome>)
  {
    forall i :: 0 <= i < |outs| ==> Distinct(outs[i].eps)
  }

  /** The candidates that were fetched, did not fail, and carry a node. */
  ghost function LiveOf(outs: seq<Outcome>): seq<LiveCand>
  {
    if outs == [] then []
    else
      var o := outs[|outs| - 1];
      LiveOf(outs[..|outs| - 1]) +
      (if o.attempted && !o.err && o.nodes > 0 then [LiveCand(o.url, o.nodes, o.eps, false)] else [])
  }

  function Attempts(outs: seq<Outcome>): nat
  {
    if outs == [] then 0
    else Attempts(outs[..|outs| - 1]) + if outs[|outs| - 1].attempted then 1 else 0
  }

  function Failures(outs: seq<Outcome>): nat
  {
    if outs == [] then 0
    else Failures(outs[..|outs| - 1]) + if outs[|outs| - 1].attempted && outs[|outs| - 1].err then 1 else 0
  }

  ghost function Marked(live: seq<LiveCand>, known: set<string>): (marked: seq<LiveCand>)
    ensures |marked| == |live|
    ensures forall i :: 0 <= i < |live| ==> marked[i] == live[i].(known := live[i].url in known)
  {
    seq(|live|, i requires 0 <= i < |live| => live[i].(known := live[i].url in known))
  }

  /** The folds of the managed files of a repository: all of them, before any pick. */
  ghost function KnownLog(log: seq<FoldEvent>, live: seq<LiveCand>): seq<FoldEvent>
  {
    if live == [] then log
    else
      var c := live[|live| - 1];
      KnownLog(log, live[..|live| - 1]) + if c.known then [KnownFile(c.eps)] else []
  }

  lemma KnownLogStarts(log: seq<FoldEvent>, live: seq<LiveCand>)
    ensures KnownLog(log, live[..0]) == log && Extends(log, log)
  {
  }

  lemma KnownLogStep(log: seq<FoldEvent>, live: seq<LiveCand>, i: nat)
    requires i < |live|
    ensures KnownLog(log, live[..i + 1]) == KnownLog(log, live[..i]) + if live[i].known then [KnownFile(live[i].eps)] else []
  {
    assert live[..i + 1][..i] == live[..i];
  }

  ghost predicate Picks(live: seq<LiveCand>, order: seq<nat>)
  {
    forall r :: 0 <= r < |order| ==> order[r] < |live|
  }

  /** The fold one cover pick makes: none when it is managed or adds too little. */
  ghost function JudgeOne(log: seq<FoldEvent>, census: set<Hash>, minNovel: int, c: LiveCand): seq<FoldEvent>
  {
    var novel := |Added(log, census, c.eps)|;
    if c.known || novel < minNovel then [] else [AcceptedFile(c.eps, File(c.url, c.nodes, novel))]
  }

  /** The folds of a repository's cover picks, best first, each judged against all folds before it. */
  ghost function PickLog(log: seq<FoldEvent>, census: set<Hash>, minNovel: int, live: seq<LiveCand>, order: seq<nat>): seq<FoldEvent>
    requires Picks(live, order)
  {
    if order == [] then log
    else
      var before := PickLog(log, census, minNovel, live, order[..|order| - 1]);
      before + JudgeOne(before, census, minNovel, live[order[|order| - 1]])
  }

  ghost function FloorOf(live: seq<LiveCand>): nat
  {
    var pct := |AllElements(SetsOf(live))| * COVER_FLOOR_PERCENT / PERCENT_DIVISOR;
    if pct > COVER_FLOOR_MIN then pct else COVER_FLOOR_MIN
  }

  ghost predicate CoverOrder(live: seq<LiveCand>, accept: int, order: seq<nat>)
  {
    IsCover(SetsOf(live), FloorOf(live), accept, order)
  }

  lemma CoverIsIndexed(sets: seq<seq<Hash>>, floor: int, accept: int, order: seq<nat>)
    requires IsCover(sets, floor, accept, order)
    ensures forall r :: 0 <= r < |order| ==> order[r] < |sets|
  {
  }

  /** One repository: managed files first, then the picks of its greedy cover; nothing when none is live. */
  ghost predicate RepoLog(was: seq<FoldEvent>, now: seq<FoldEvent>, census: set<Hash>, known: set<string>,
                          minNovel: int, accept: int, outs: seq<Outcome>)
  {
    var live := Marked(LiveOf(outs), known);
    if live == [] then now == was
    else exists order :: CoverOrder(live, accept, order)
                      && now == PickLog(KnownLog(was, live), census, minNovel, live, order)
  }

  /** The folds of a whole pass, repository by repository in admission order. */
  ghost predicate PassLog(log: seq<FoldEvent>, census: set<Hash>, known: set<string>, minNovel: int, accept: int,
                          admitted: seq<seq<Outcome>>)
    decreases |admitted|
  {
    if admitted == [] then log == []
    else exists n: nat :: n <= |log|
                       && PassLog(log[..n], census, known, minNovel, accept, admitted[..|admitted| - 1])
                       && RepoLog(log[..n], log, census, known, minNovel, accept, admitted[|admitted| - 1])
  }

  lemma PickLogStep(log: seq<FoldEvent>, census: set<Hash>, minNovel: int, live: seq<LiveCand>, order: seq<nat>, r: nat)
    requires Picks(live, order) && r < |order|
    ensures var before := PickLog(log, census, minNovel, live, order[..r]);
            PickLog(log, census, minNovel, live, order[..r + 1]) == before + JudgeOne(before, census, minNovel, live[order[r]])
  {
    assert order[..r + 1][..r] == order[..r];
  }

  lemma JoinFiles(a: seq<File>, b: seq<File>, c: seq<File>)
    ensures (a + b) + c == a + (b + c)
  {
  }

  lemma ExtendsFurther(a: seq<FoldEvent>, b: seq<FoldEvent>, c: seq<FoldEvent>)
    requires Extends(a, b) && Extends(b, c)
    ensures Extends(a, c)
  {
    assert c[..|a|] == c[..|b|][..|a|];
  }

  lemma {:induction false} LiveAreDistinct(outs: seq<Outcome>)
    requires OutcomesDistinct(outs)
    ensures forall i :: 0 <= i < |LiveOf(outs)| ==> Distinct(LiveOf(outs)[i].eps)
    ensures |LiveOf(outs)| <= Attempts(outs) <= |outs|
  {
    if outs != [] {
      LiveAreDistinct(outs[..|outs| - 1]);
    }
  }

  // ----- one repository in terms of its fetches -----

  /** Fetched without failing, and with a node in it. */
  predicate LiveOne(o: Outcome)
  {
    o.attempted && !o.err && o.nodes > 0
  }

  /** What the live files that are managed already hold. */
  ghost function KnownEndpoints(outs: seq<Outcome>, known: set<string>): set<Hash>
  {
    set i, h | 0 <= i < |outs| && LiveOne(outs[i]) && outs[i].url in known && h in Elements(outs[i].eps) :: h
  }

  /** What a pick came to: nothing for a managed file, accepted, or too little new by the end. */
  ghost predicate Settled(c: LiveCand, census: set<Hash>, known: set<string>, minNovel: int, now: set<Hash>, accepted: seq<File>)
  {
    || c.url in known
    || (exists f :: f in accepted && f.url == c.url && f.nodes == c.nodes)
    || |Elements(c.eps) - census - now| < minNovel
  }

  /** An accepted file is a pick that is not managed: it adds what it reports, at least the demand, and
      nothing that the union held before or that a managed file of the repository holds. */
  ghost predicate FairlyAccepted(f: File, c: LiveCand, census: set<Hash>, known: set<string>, minNovel: int, was: set<Hash>,
                                 now: set<Hash>, managed: set<Hash>)
  {
    && c.url !in known && f.url == c.url && f.nodes == c.nodes && Elements(c.eps) - census <= now
    && minNovel <= f.novel <= |Elements(c.eps) - census - was - managed|
  }

  ghost predicate FromAccepted(live: seq<LiveCand>, accepted: seq<File>, h: Hash)
  {
    exists c, f :: c in live && h in c.eps && f in accepted && f.url == c.url
  }

  ghost predicate PicksAreRight(live: seq<LiveCand>, order: seq<nat>, census: set<Hash>, known: set<string>, minNovel: int,
                                was: set<Hash>, now: set<Hash>, managed: set<Hash>, accepted: seq<File>)
  {
    && Picks(live, order)
    && (forall q :: 0 <= q < |order| ==> Settled(live[order[q]], census, known, minNovel, now, accepted))
    && (forall f :: f in accepted ==>
          exists q :: 0 <= q < |order| && FairlyAccepted(f, live[order[q]], census, known, minNovel, was, now, managed))
  }

  /** One repository, from the union before it to the union after: its counts, its managed files, and its
      picks, which are the greedy cover of its live files at a floor of 20 or two percent of them. */
  ghost predicate RepoIsRight(outs: seq<Outcome>, census: set<Hash>, known: set<string>, minNovel: int, accept: int,
                              was: set<Hash>, now: set<Hash>, rep: Repo)
  {
    var live, managed := LiveOf(outs), KnownEndpoints(outs, known);
    && rep.probed == |set i: nat | i < |outs| && outs[i].attempted|
    && rep.live == |set i: nat | i < |outs| && LiveOne(outs[i])|
    && managed - census <= now && was <= now
    && (forall h :: h in now && h !in was ==> h in managed || FromAccepted(live, rep.accepted, h))
    && (if live == [] then rep.accepted == []
        else exists order ::
          IsCover(SetsOf(live), FloorInNumbers(live), accept, order)
          && PicksAreRight(live, order, census, known, minNovel, was, now, managed, rep.accepted))
  }

  ghost function FloorInNumbers(live: seq<LiveCand>): nat
  {
    var pct := |AllElements(SetsOf(live))| * 2 / 100;
    if pct > 20 then pct else 20
  }

  lemma {:induction false} AttemptsArePlain(outs: seq<Outcome>)
    ensures Attempts(outs) == |set i: nat | i < |outs| && outs[i].attempted|
  {
    if outs != [] {
      var n := |outs| - 1;
      var front := outs[..n];
      AttemptsArePlain(front);
      assert forall i :: 0 <= i < n ==> front[i] == outs[i];
      var some := set i: nat | i < n && front[i].attempted;
      assert (set i: nat | i < |outs| && outs[i].attempted) == some + if outs[n].attempted then {n} else {};
    }
  }

  lemma {:induction false} LiveArePlain(outs: seq<Outcome>)
    ensures |LiveOf(outs)| == |set i: nat | i < |outs| && LiveOne(outs[i])|
  {
    if outs != [] {
      var n := |outs| - 1;
      var front := outs[..n];
      LiveArePlain(front);
      assert forall i :: 0 <= i < n ==> front[i] == outs[i];
      var some := set i: nat | i < n && LiveOne(front[i]);
      assert (set i: nat | i < |outs| && LiveOne(outs[i])) == some + if LiveOne(outs[n]) then {n} else {};
    }
  }

  lemma {:induction false} FailuresArePlain(outs: seq<Outcome>)
    ensures Failures(outs) == |set i: nat | i < |outs| && outs[i].attempted && outs[i].err|
  {
    if outs != [] {
      var n := |outs| - 1;
      FailuresArePlain(outs[..n]);
      FailuresStep(outs);
    }
  }

  lemma FailuresStep(outs: seq<Outcome>)
    requires outs != []
    ensures var n := |outs| - 1;
            |set i: nat | i < |outs| && outs[i].attempted && outs[i].err| ==
            |set i: nat | i < n && outs[..n][i].attempted && outs[..n][i].err| + if outs[n].attempted && outs[n].err then 1 else 0
  {
    var n := |outs| - 1;
    var some := set i: nat | i < n && outs[..n][i].attempted && outs[..n][i].err;
    var all := set i: nat | i < |outs| && outs[i].attempted && outs[i].err;
    if outs[n].attempted && outs[n].err {
      assert all == some + {n};
    } else {
      assert all == some;
    }
  }

  lemma {:induction false} LiveMembers(outs: seq<Outcome>, c: LiveCand)
    ensures c in LiveOf(outs) <==>
            exists i :: 0 <= i < |outs| && LiveOne(outs[i]) && c == LiveCand(outs[i].url, outs[i].nodes, outs[i].eps, false)
  {
    if outs != [] {
      var n := |outs| - 1;
      LiveMembers(outs[..n], c);
      if i :| 0 <= i < |outs| && LiveOne(outs[i]) && c == LiveCand(outs[i].url, outs[i].nodes, outs[i].eps, false) {
        assert i < n ==> outs[..n][i] == outs[i];
      }
      if i :| 0 <= i < n && LiveOne(outs[..n][i]) && c == LiveCand(outs[..n][i].url, outs[..n][i].nodes, outs[..n][i].eps, false) {
        assert outs[i] == outs[..n][i];
      }
    }
  }

  /** What the folds of the managed files add. */
  ghost function MarkedEnds(live: seq<LiveCand>): set<Hash>
  {
    if live == [] then {}
    else MarkedEnds(live[..|live| - 1]) + if live[|live| - 1].known then Elements(live[|live| - 1].eps) else {}
  }

  lemma {:induction false} KnownLogFolds(log: seq<FoldEvent>, live: seq<LiveCand>)
    ensures Folded(KnownLog(log, live)) == Folded(log) + MarkedEnds(live)
  {
    if live != [] {
      var n := |live| - 1;
      KnownLogFolds(log, live[..n]);
      var before := KnownLog(log, live[..n]);
      if live[n].known {
        assert (before + [KnownFile(live[n].eps)])[..|before|] == before;
      } else {
        assert before + [] == before;
      }
    }
  }

  lemma {:induction false} MarkedMembers(live: seq<LiveCand>, h: Hash)
    ensures h in MarkedEnds(live) <==> exists k :: 0 <= k < |live| && live[k].known && h in live[k].eps
  {
    if live != [] {
      var n := |live| - 1;
      MarkedMembers(live[..n], h);
      if k :| 0 <= k < |live| && live[k].known && h in live[k].eps {
        assert k < n ==> live[..n][k] == live[k];
      }
      if k :| 0 <= k < n && live[..n][k].known && h in live[..n][k].eps {
        assert live[k] == live[..n][k];
      }
    }
  }

  lemma MarkedIsKnown(outs: seq<Outcome>, known: set<string>)
    ensures MarkedEnds(Marked(LiveOf(outs), known)) == KnownEndpoints(outs, known)
  {
    var live := LiveOf(outs);
    forall h ensures h in MarkedEnds(Marked(live, known)) <==> h in KnownEndpoints(outs, known) {
      MarkedMembers(Marked(live, known), h);
      if k :| 0 <= k < |live| && Marked(live, known)[k].known && h in Marked(live, known)[k].eps {
        LiveMembers(outs, live[k]);
        var i :| 0 <= i < |outs| && LiveOne(outs[i]) && live[k] == LiveCand(outs[i].url, outs[i].nodes, outs[i].eps, false);
        assert h in Elements(outs[i].eps);
      }
      if h in KnownEndpoints(outs, known) {
        var i :| 0 <= i < |outs| && LiveOne(outs[i]) && outs[i].url in known && h in Elements(outs[i].eps);
        var c := LiveCand(outs[i].url, outs[i].nodes, outs[i].eps, false);
        LiveMembers(outs, c);
        var k :| 0 <= k < |live| && live[k] == c;
        assert Marked(live, known)[k].known;
      }
    }
  }

  lemma {:induction false} AcceptedJoin(a: seq<FoldEvent>, b: seq<FoldEvent>)
    ensures AcceptedFiles(a + b) == AcceptedFiles(a) + AcceptedFiles(b)
    ensures Folded(a + b) == Folded(a) + Folded(b)
  {
    if b == [] {
      assert a + b == a && AcceptedFiles(a) + [] == AcceptedFiles(a);
    } else {
      var n := |b| - 1;
      AcceptedJoin(a, b[..n]);
      assert (a + b)[..|a + b| - 1] == a + b[..n];
      var last := if b[n].AcceptedFile? then [b[n].file] else [];
      assert (AcceptedFiles(a) + AcceptedFiles(b[..n])) + last == AcceptedFiles(a) + (AcceptedFiles(b[..n]) + last);
    }
  }

  /** The picks so far, the files they came to and the endpoints they folded, over what was folded before. */
  ghost predicate SettledBy(live: seq<LiveCand>, order: seq<nat>, census: set<Hash>, known: set<string>, minNovel: int,
                            folded: set<Hash>, more: set<Hash>, accepted: seq<File>)
  {
    && PicksAreRight(live, order, census, known, minNovel, folded - census, folded + more - census, {}, accepted)
    && forall h :: h in more ==> FromAccepted(live, accepted, h)
  }

  /** The picks, one after another: each is settled by the folds up to and including its own. */
  lemma {:induction false} PicksSettle(log: seq<FoldEvent>, census: set<Hash>, known: set<string>, minNovel: int, live: seq<LiveCand>,
                                       order: seq<nat>) returns (more: seq<FoldEvent>)
    requires Picks(live, order) && forall k :: 0 <= k < |live| ==> (live[k].known <==> live[k].url in known)
    ensures PickLog(log, census, minNovel, live, order) == log + more
    ensures SettledBy(live, order, census, known, minNovel, Folded(log), Folded(more), AcceptedFiles(more))
  {
    hide *;
    if order == [] {
      more := [];
      NothingPicked(log, census, known, minNovel, live);
    } else {
      PickLogLast(log, census, minNovel, live, order);
      var n := |order| - 1;
      var before := PicksSettle(log, census, known, minNovel, live, order[..n]);
      var c := live[order[n]];
      var step := JudgeOne(log + before, census, minNovel, c);
      more := before + step;
      assert log + more == (log + before) + step;
      AcceptedJoin(before, step);
      AcceptedJoin(log, before);
      OneStep(log + before, census, minNovel, c);
      SettleOneMore(live, order, census, known, minNovel, Folded(log), Folded(before), Folded(step),
                    AcceptedFiles(before), AcceptedFiles(step));
    }
  }

  lemma NothingPicked(log: seq<FoldEvent>, census: set<Hash>, known: set<string>, minNovel: int, live: seq<LiveCand>)
    ensures Picks(live, []) && PickLog(log, census, minNovel, live, []) == log + []
    ensures SettledBy(live, [], census, known, minNovel, Folded(log), Folded([]), AcceptedFiles([]))
  {
    assert log + [] == log;
  }

  lemma PickLogLast(log: seq<FoldEvent>, census: set<Hash>, minNovel: int, live: seq<LiveCand>, order: seq<nat>)
    requires Picks(live, order) && order != []
    ensures var n := |order| - 1;
            && Picks(live, order[..n]) && order[n] < |live|
            && var before := PickLog(log, census, minNovel, live, order[..n]);
               PickLog(log, census, minNovel, live, order) == before + JudgeOne(before, census, minNovel, live[order[n]])
  {
  }

  lemma OneStep(log: seq<FoldEvent>, census: set<Hash>, minNovel: int, c: LiveCand)
    ensures var step := JudgeOne(log, census, minNovel, c);
            Judged(c, census, minNovel, Folded(log), Folded(step), AcceptedFiles(step))
  {
    var e := AcceptedFile(c.eps, File(c.url, c.nodes, |Elements(c.eps) - census - Folded(log)|));
    assert [e][..0] == [];
  }

  lemma SettleOneMore(live: seq<LiveCand>, order: seq<nat>, census: set<Hash>, known: set<string>, minNovel: int, folded: set<Hash>,
                      before: set<Hash>, ends: set<Hash>, few: seq<File>, step: seq<File>)
    requires order != [] && Picks(live, order) && forall k :: 0 <= k < |live| ==> (live[k].known <==> live[k].url in known)
    requires SettledBy(live, order[..|order| - 1], census, known, minNovel, folded, before, few)
    requires Judged(live[order[|order| - 1]], census, minNovel, folded + before, ends, step)
    ensures SettledBy(live, order, census, known, minNovel, folded, before + ends, few + step)
  {
    hide Settled, FairlyAccepted, Judged, FromAccepted;
    var n := |order| - 1;
    var c, mid, now, many := live[order[n]], folded + before - census, folded + (before + ends) - census, few + step;
    forall q | 0 <= q < |order| ensures Settled(live[order[q]], census, known, minNovel, now, many) {
      if q < n {
        assert Settled(live[order[..n][q]], census, known, minNovel, mid, few);
        StaysSettled(live[order[q]], census, known, minNovel, mid, now, few, many);
      } else {
        LastSettled(c, census, known, minNovel, folded + before, now, ends, step, many);
      }
    }
    forall f | f in many
      ensures exists q :: 0 <= q < |order| && FairlyAccepted(f, live[order[q]], census, known, minNovel, folded - census, now, {})
    {
      if f in few {
        var q :| 0 <= q < n && FairlyAccepted(f, live[order[..n][q]], census, known, minNovel, folded - census, mid, {});
        StaysFair(f, live[order[q]], census, known, minNovel, folded - census, mid, now);
      } else {
        FairLast(f, c, census, known, minNovel, folded, folded + before, now, ends, step);
        assert FairlyAccepted(f, live[order[n]], census, known, minNovel, folded - census, now, {});
      }
    }
    forall h | h in before + ends ensures FromAccepted(live, many, h) {
      if h in before {
        StaysFrom(live, few, many, h);
      } else {
        FromLast(live, order[n], census, minNovel, folded + before, ends, step, many, h);
      }
    }
  }

  /** What one judgement folds and accepts. */
  ghost predicate Judged(c: LiveCand, census: set<Hash>, minNovel: int, folded: set<Hash>, ends: set<Hash>, step: seq<File>)
  {
    var novel := |Elements(c.eps) - census - folded|;
    if c.known || novel < minNovel then step == [] && ends == {}
    else step == [File(c.url, c.nodes, novel)] && ends == Elements(c.eps)
  }

  lemma StaysFair(f: File, c: LiveCand, census: set<Hash>, known: set<string>, minNovel: int,
                  was: set<Hash>, mid: set<Hash>, now: set<Hash>)
    requires FairlyAccepted(f, c, census, known, minNovel, was, mid, {}) && mid <= now
    ensures FairlyAccepted(f, c, census, known, minNovel, was, now, {})
  {
  }

  lemma StaysFrom(live: seq<LiveCand>, few: seq<File>, many: seq<File>, h: Hash)
    requires FromAccepted(live, few, h) && few <= many
    ensures FromAccepted(live, many, h)
  {
    var c, f :| c in live && h in c.eps && f in few && f.url == c.url;
    assert f in many;
  }

  lemma FromLast(live: seq<LiveCand>, k: nat, census: set<Hash>, minNovel: int, folded: set<Hash>, ends: set<Hash>, step: seq<File>,
                 many: seq<File>, h: Hash)
    requires k < |live| && Judged(live[k], census, minNovel, folded, ends, step) && h in ends && forall f :: f in step ==> f in many
    ensures FromAccepted(live, many, h)
  {
    var f := step[0];
    assert live[k] in live && h in live[k].eps && f in many && f.url == live[k].url;
  }

  lemma StaysSettled(c: LiveCand, census: set<Hash>, known: set<string>, minNovel: int, mid: set<Hash>, now: set<Hash>,
                     few: seq<File>, many: seq<File>)
    requires Settled(c, census, known, minNovel, mid, few) && mid <= now && few <= many
    ensures Settled(c, census, known, minNovel, now, many)
  {
    SubsetSize(Elements(c.eps) - census - now, Elements(c.eps) - census - mid);
    if f :| f in few && f.url == c.url && f.nodes == c.nodes {
      assert f in many;
    }
  }

  lemma LastSettled(c: LiveCand, census: set<Hash>, known: set<string>, minNovel: int, folded: set<Hash>, now: set<Hash>,
                    ends: set<Hash>, step: seq<File>, many: seq<File>)
    requires folded - census <= now && (forall f :: f in step ==> f in many) && (c.known <==> c.url in known)
    requires Judged(c, census, minNovel, folded, ends, step)
    ensures Settled(c, census, known, minNovel, now, many)
  {
    SubsetSize(Elements(c.eps) - census - now, Elements(c.eps) - census - folded);
    if step != [] {
      assert step[0] in many;
    }
  }

  lemma FairLast(f: File, c: LiveCand, census: set<Hash>, known: set<string>, minNovel: int, start: set<Hash>, folded: set<Hash>,
                 now: set<Hash>, ends: set<Hash>, step: seq<File>)
    requires start <= folded && now == (folded + ends) - census && (c.known <==> c.url in known)
    requires Judged(c, census, minNovel, folded, ends, step) && f in step
    ensures FairlyAccepted(f, c, census, known, minNovel, start - census, now, {})
  {
    SubsetSize(Elements(c.eps) - census - folded, Elements(c.eps) - census - (start - census) - {});
  }

  /** The folds of a repository make it right. */
  lemma RepoLogIsRight(was: seq<FoldEvent>, now: seq<FoldEvent>, census: set<Hash>, known: set<string>, minNovel: int, accept: int,
                       outs: seq<Outcome>, rep: Repo)
    requires RepoLog(was, now, census, known, minNovel, accept, outs)
    requires rep.probed == Attempts(outs) && rep.live == |LiveOf(outs)| && AcceptedFiles(now) == AcceptedFiles(was) + rep.accepted
    ensures RepoIsRight(outs, census, known, minNovel, accept, Folded(was) - census, Folded(now) - census, rep)
  {
    AttemptsArePlain(outs);
    LiveArePlain(outs);
    var live := LiveOf(outs);
    hide Folded, AcceptedFiles, LiveOf, Attempts, KnownEndpoints, PicksAreRight, FromAccepted;
    if live == [] {
      NoAccepted(AcceptedFiles(was), rep.accepted);
      NothingManaged(outs, known);
    } else {
      var order := PickedOrder(was, now, census, known, minNovel, accept, outs, rep.accepted);
    }
  }

  lemma NoAccepted(a: seq<File>, b: seq<File>)
    requires a == a + b
    ensures b == []
  {
    assert |a + b| == |a| + |b|;
  }

  lemma NothingManaged(outs: seq<Outcome>, known: set<string>)
    requires LiveOf(outs) == []
    ensures KnownEndpoints(outs, known) == {}
  {
    MarkedIsKnown(outs, known);
  }

  lemma PickedOrder(was: seq<FoldEvent>, now: seq<FoldEvent>, census: set<Hash>, known: set<string>, minNovel: int, accept: int,
                    outs: seq<Outcome>, accepted: seq<File>) returns (order: seq<nat>)
    requires RepoLog(was, now, census, known, minNovel, accept, outs) && LiveOf(outs) != []
    requires AcceptedFiles(now) == AcceptedFiles(was) + accepted
    ensures IsCover(SetsOf(LiveOf(outs)), FloorInNumbers(LiveOf(outs)), accept, order)
    ensures PicksAreRight(LiveOf(outs), order, census, known, minNovel, Folded(was) - census, Folded(now) - census,
                          KnownEndpoints(outs, known), accepted)
    ensures KnownEndpoints(outs, known) - census <= Folded(now) - census && Folded(was) <= Folded(now)
    ensures forall h :: h in Folded(now) - census && h !in Folded(was) - census ==>
              h in KnownEndpoints(outs, known) || FromAccepted(LiveOf(outs), accepted, h)
  {
    hide Folded, AcceptedFiles, KnownLog, PickLog, MarkedEnds, LiveOf, KnownEndpoints, PicksAreRight, FromAccepted;
    hide IsCover, FloorOf, FloorInNumbers;
    var live := LiveOf(outs);
    var marked, managed := Marked(live, known), KnownEndpoints(outs, known);
    MarkedIsKnown(outs, known);
    order := RepoOrder(was, now, census, known, minNovel, accept, outs);
    KnownLogFolds(was, marked);
    KnownAccepts(was, marked);
    var more := PicksSettle(KnownLog(was, marked), census, known, minNovel, marked, order);
    AcceptedJoin(KnownLog(was, marked), more);
    SamePrefix(AcceptedFiles(was), AcceptedFiles(more), accepted);
    SameSets(live, known);
    UnmarkPicks(live, known, order, census, minNovel, Folded(was), Folded(more), managed, accepted);
  }

  lemma RepoOrder(was: seq<FoldEvent>, now: seq<FoldEvent>, census: set<Hash>, known: set<string>, minNovel: int, accept: int,
                  outs: seq<Outcome>) returns (order: seq<nat>)
    requires RepoLog(was, now, census, known, minNovel, accept, outs) && LiveOf(outs) != []
    ensures var marked := Marked(LiveOf(outs), known);
            && Picks(marked, order) && IsCover(SetsOf(marked), FloorOf(marked), accept, order)
            && now == PickLog(KnownLog(was, marked), census, minNovel, marked, order)
  {
    hide GreedyRun, Exhausted, FloorOf, KnownLog, PickLog, LiveOf;
    var marked := Marked(LiveOf(outs), known);
    order :| CoverOrder(marked, accept, order) && now == PickLog(KnownLog(was, marked), census, minNovel, marked, order);
  }

  lemma SamePrefix(a: seq<File>, b: seq<File>, c: seq<File>)
    requires a + b == a + c
    ensures b == c
  {
    assert (a + b)[|a|..] == b && (a + c)[|a|..] == c;
  }

  lemma {:induction false} KnownAccepts(log: seq<FoldEvent>, live: seq<LiveCand>)
    ensures AcceptedFiles(KnownLog(log, live)) == AcceptedFiles(log)
  {
    if live != [] {
      var n := |live| - 1;
      KnownAccepts(log, live[..n]);
      AcceptedJoin(KnownLog(log, live[..n]), if live[n].known then [KnownFile(live[n].eps)] else []);
      assert AcceptedFiles(if live[n].known then [KnownFile(live[n].eps)] else []) == [];
    }
  }

  lemma SameSets(live: seq<LiveCand>, known: set<string>)
    ensures SetsOf(Marked(live, known)) == SetsOf(live) && FloorOf(Marked(live, known)) == FloorInNumbers(live)
  {
    assert SetsOf(Marked(live, known)) == SetsOf(live);
  }

  lemma UnmarkedOne(live: seq<LiveCand>, known: set<string>, c: LiveCand) returns (d: LiveCand)
    requires c in Marked(live, known)
    ensures d in live && d.eps == c.eps && d.url == c.url
  {
    var k :| 0 <= k < |live| && Marked(live, known)[k] == c;
    d := live[k];
  }

  lemma UnmarkPicks(live: seq<LiveCand>, known: set<string>, order: seq<nat>, census: set<Hash>, minNovel: int, was: set<Hash>,
                    more: set<Hash>, managed: set<Hash>, accepted: seq<File>)
    requires SettledBy(Marked(live, known), order, census, known, minNovel, was + managed, more, accepted)
    ensures PicksAreRight(live, order, census, known, minNovel, was - census, was + managed + more - census, managed, accepted)
    ensures forall h :: h in more ==> FromAccepted(live, accepted, h)
  {
    hide Settled, FairlyAccepted, FromAccepted;
    var marked, now := Marked(live, known), was + managed + more - census;
    forall q | 0 <= q < |order| ensures Settled(live[order[q]], census, known, minNovel, now, accepted) {
      assert Settled(marked[order[q]], census, known, minNovel, now, accepted);
      SettledAlike(marked[order[q]], live[order[q]], census, known, minNovel, now, accepted);
    }
    forall f | f in accepted
      ensures exists q :: 0 <= q < |order| && FairlyAccepted(f, live[order[q]], census, known, minNovel, was - census, now, managed)
    {
      var q :| 0 <= q < |order| && FairlyAccepted(f, marked[order[q]], census, known, minNovel, was + managed - census, now, {});
      FairAlike(f, marked[order[q]], live[order[q]], census, known, minNovel, was, managed, now);
    }
    forall h | h in more ensures FromAccepted(live, accepted, h) {
      FromAlike(live, known, accepted, h);
    }
  }

  lemma SettledAlike(c: LiveCand, d: LiveCand, census: set<Hash>, known: set<string>, minNovel: int,
                     now: set<Hash>, accepted: seq<File>)
    requires Settled(c, census, known, minNovel, now, accepted) && c.url == d.url && c.nodes == d.nodes && c.eps == d.eps
    ensures Settled(d, census, known, minNovel, now, accepted)
  {
  }

  lemma FairAlike(f: File, c: LiveCand, d: LiveCand, census: set<Hash>, known: set<string>, minNovel: int, was: set<Hash>,
                  managed: set<Hash>, now: set<Hash>)
    requires FairlyAccepted(f, c, census, known, minNovel, was + managed - census, now, {})
    requires c.url == d.url && c.nodes == d.nodes && c.eps == d.eps
    ensures FairlyAccepted(f, d, census, known, minNovel, was - census, now, managed)
  {
    var e := Elements(c.eps);
    assert e - census - (was + managed - census) - {} == e - census - (was - census) - managed;
  }

  lemma FromAlike(live: seq<LiveCand>, known: set<string>, accepted: seq<File>, h: Hash)
    requires FromAccepted(Marked(live, known), accepted, h)
    ensures FromAccepted(live, accepted, h)
  {
    var c, f :| c in Marked(live, known) && h in c.eps && f in accepted && f.url == c.url;
    var d := UnmarkedOne(live, known, c);
    assert f.url == d.url;
  }

  class Pass {
    const census: set<Hash>
    const known: set<string>
    const minNovel: int
    const acceptPerRepo: int
    var union: set<Hash>
    var novelEndpoints: nat
    var accepted: nat
    var probed: nat
    var liveFiles: nat
    var errors: nat
    var repos: seq<Repo>
    var countScratch: seq<Hash>
    ghost var log: seq<FoldEvent>

    constructor (census: set<Hash>, known: set<string>, minNovel: int, acceptPerRepo: int)
      ensures this.census == census && this.known == known
      ensures this.minNovel == minNovel && this.acceptPerRepo == acceptPerRepo
      ensures Valid() && repos == [] && log == [] && accepted == 0
    {
      this.census, this.known := census, known;
      this.minNovel, this.acceptPerRepo := minNovel, acceptPerRepo;
      union, novelEndpoints, accepted, probed, liveFiles, errors := {}, 0, 0, 0, 0, 0;
      repos, countScratch, log := [], [], [];
    }

    /** The fields agree with the folds made so far. */
    ghost predicate Valid()
      reads this
    {
      && union == Folded(log) - census
      && Honest(log, census, known, minNovel)
      && novelEndpoints == TotalNovel(AcceptedFiles(log))
    }

    method Novel(eps: seq<Hash>) returns (n: nat)
      requires Valid() && Distinct(eps)
      ensures n == |Added(log, census, eps)|
    {
      n := 0;
      ghost var excluded := census + union;
      for i := 0 to |eps|
        invariant n == |Elements(eps[..i]) - excluded|
      {
        OneMoreElement(eps, i, excluded);
        if eps[i] in census {
          continue;
        }
        if eps[i] !in union {
          n := n + 1;
        }
      }
      assert eps[..|eps|] == eps;
      assert Elements(eps) - excluded == Added(log, census, eps);
    }

    method Fold(eps: seq<Hash>, count: bool)
      modifies this`union, this`novelEndpoints
      ensures union == old(union) + (Elements(eps) - census)
      ensures novelEndpoints == old(novelEndpoints) + if count then |Elements(eps) - census - old(union)| else 0
    {
      for i := 0 to |eps|
        invariant union == old(union) + (Elements(eps[..i]) - census)
        invariant novelEndpoints == old(novelEndpoints) + if count then |Elements(eps[..i]) - census - old(union)| else 0
      {
        ghost var done := Elements(eps[..i]) - census - old(union);
        assert Elements(eps[..i + 1]) == Elements(eps[..i]) + {eps[i]};
        if eps[i] in census || eps[i] in union {
          assert Elements(eps[..i + 1]) - census - old(union) == done;
          continue;
        }
        assert Elements(eps[..i + 1]) - census - old(union) == done + {eps[i]};
        union := union + {eps[i]};
        if count {
          novelEndpoints := novelEndpoints + 1;
        }
      }
      assert eps[..|eps|] == eps;
    }

    /** Twenty endpoints, or two percent of the repository's own union if that is more. */
    method CoverFloor(sets: seq<seq<Hash>>) returns (floor: nat)
      modifies this`countScratch
      ensures floor == if |AllElements(sets)| >= 1000 then |AllElements(sets)| / 50 else 20
    {
      floor := COVER_FLOOR_MIN;
      countScratch := [];
      for i := 0 to |sets|
        invariant Elements(countScratch) == AllElements(sets[..i])
      {
        assert sets[..i + 1][..i] == sets[..i];
        countScratch := countScratch + sets[i];
      }
      assert sets[..|sets|] == sets;
      NatLeqIsOrder();
      Sorting.SortKeepsValues(countScratch, NatLeq);
      Sorting.SortIsSortedPermutation(countScratch, NatLeq);
      countScratch := Sorting.Sort(countScratch, NatLeq);
      ghost var sorted := countScratch;
      var distinct := CompactScratch();
      assert Elements(sorted) == AllElements(sets);
      var pct := distinct * COVER_FLOOR_PERCENT / PERCENT_DIVISOR;
      if pct > floor {
        floor := pct;
      }
    }

    /** Moves the distinct values of the sorted scratch to its front and counts them. */
    method CompactScratch() returns (distinct: nat)
      requires Sorting.SortedBy(countScratch, NatLeq)
      modifies this`countScratch
      ensures distinct == |Elements(old(countScratch))|
    {
      ghost var sorted := countScratch;
      distinct := 0;
      for i := 0 to |countScratch|
        invariant distinct <= i && |countScratch| == |sorted|
        invariant forall k :: i <= k < |sorted| ==> countScratch[k] == sorted[k]
        invariant distinct == |Elements(sorted[..i])|
        invariant i > 0 ==> distinct > 0 && countScratch[distinct - 1] == sorted[i - 1]
      {
        var h := countScratch[i];
        NewOrRepeated(sorted, i);
        if distinct == 0 || h != countScratch[distinct - 1] {
          countScratch := countScratch[distinct := h];
          distinct := distinct + 1;
        }
      }
      assert sorted[..|sorted|] == sorted;
    }

    /** The greedy cover over the live files, then the novelty gate over its picks, best first. */
    method Pick(live: seq<LiveCand>) returns (files: seq<File>, ghost order: seq<nat>)
      requires Valid() && forall i :: 0 <= i < |live| ==> Distinct(live[i].eps)
      requires forall i :: 0 <= i < |live| ==> (live[i].known <==> live[i].url in known)
      modifies this`union, this`novelEndpoints, this`countScratch, this`log
      ensures Valid()
      ensures CoverOrder(live, acceptPerRepo, order) && Picks(live, order)
      ensures log == PickLog(old(log), census, minNovel, live, order)
      ensures AcceptedFiles(log) == AcceptedFiles(old(log)) + files && Extends(old(log), log)
    {
      var picked := CoverPicks(live);
      order := picked;
      files := JudgeAll(live, picked);
    }

    method CoverPicks(live: seq<LiveCand>) returns (order: seq<nat>)
      requires forall i :: 0 <= i < |live| ==> Distinct(live[i].eps)
      modifies this`countScratch
      ensures CoverOrder(live, acceptPerRepo, order) && Picks(live, order)
    {
      hide IsCover, Elements, AllElements;
      var sets := SetsOf(live);
      var floor := CoverFloor(sets);
      order := Cover.Cover(sets, floor, acceptPerRepo);
      CoverIsIndexed(sets, floor, acceptPerRepo, order);
    }

    method JudgeAll(live: seq<LiveCand>, order: seq<nat>) returns (files: seq<File>)
      requires Valid() && Picks(live, order)
      requires forall i :: 0 <= i < |live| ==> Distinct(live[i].eps)
      requires forall i :: 0 <= i < |live| ==> (live[i].known <==> live[i].url in known)
      modifies this`union, this`novelEndpoints, this`log
      ensures Valid()
      ensures log == PickLog(old(log), census, minNovel, live, order)
      ensures AcceptedFiles(log) == AcceptedFiles(old(log)) + files && Extends(old(log), log)
    {
      files := [];
      for r := 0 to |order|
        invariant Valid() && Extends(old(log), log)
        invariant log == PickLog(old(log), census, minNovel, live, order[..r])
        invariant AcceptedFiles(log) == AcceptedFiles(old(log)) + files
      {
        ghost var was := old(log);
        ghost var before := log;
        var taken := Judge(live[order[r]]);
        PickLogStep(was, census, minNovel, live, order, r);
        ExtendsFurther(was, before, log);
        JoinFiles(AcceptedFiles(was), files, taken);
        files := files + taken;
      }
      assert order[..|order|] == order;
    }

    /** One cover pick: skipped when it is managed or adds too little, accepted and folded otherwise. */
    method Judge(c: LiveCand) returns (taken: seq<File>)
      requires Valid() && Distinct(c.eps) && (c.known <==> c.url in known)
      modifies this`union, this`novelEndpoints, this`log
      ensures Valid() && Extends(old(log), log)
      ensures log == old(log) + JudgeOne(old(log), census, minNovel, c)
      ensures AcceptedFiles(log) == AcceptedFiles(old(log)) + taken
    {
      taken := [];
      if c.known {
        return;
      }
      var novel := Novel(c.eps);
      if novel < minNovel {
        return;
      }
      taken := [File(c.url, c.nodes, novel)];
      assert Elements(c.eps) - census - union == Added(log, census, c.eps);
      Fold(c.eps, true);
      LogAccepted(c.eps, taken[0]);
    }

    /** Records an acceptance whose fold has just been made. */
    ghost method LogAccepted(eps: seq<Hash>, f: File)
      requires Honest(log, census, known, minNovel)
      requires f.novel == |Added(log, census, eps)| && f.novel >= minNovel && f.url !in known
      requires union == (Folded(log) - census) + (Elements(eps) - census)
      requires novelEndpoints == TotalNovel(AcceptedFiles(log)) + f.novel
      modifies this`log
      ensures Valid() && log == old(log) + [AcceptedFile(eps, f)]
      ensures AcceptedFiles(log) == AcceptedFiles(old(log)) + [f]
    {
      var before := log;
      log := log + [AcceptedFile(eps, f)];
      assert log[..|before|] == before;
      var kept := AcceptedFiles(before);
      assert (kept + [f])[..|kept|] == kept;
    }

    /** Records the fold of a managed file that has just been made. */
    ghost method LogKnown(eps: seq<Hash>)
      requires Honest(log, census, known, minNovel)
      requires union == (Folded(log) - census) + (Elements(eps) - census)
      requires novelEndpoints == TotalNovel(AcceptedFiles(log))
      modifies this`log
      ensures Valid() && log == old(log) + [KnownFile(eps)]
      ensures AcceptedFiles(log) == AcceptedFiles(old(log))
    {
      var before := log;
      log := log + [KnownFile(eps)];
      assert log[..|before|] == before;
      assert AcceptedFiles(before) + [] == AcceptedFiles(before);
    }

    method LiveCandidates(outs: seq<Outcome>) returns (tried: nat, live: seq<LiveCand>)
      modifies this`errors
      ensures live == LiveOf(outs) && tried == Attempts(outs)
      ensures errors == old(errors) + Failures(outs)
    {
      live, tried := [], 0;
      for i := 0 to |outs|
        invariant live == LiveOf(outs[..i]) && tried == Attempts(outs[..i])
        invariant errors == old(errors) + Failures(outs[..i])
      {
        assert outs[..i + 1][..i] == outs[..i];
        var o := outs[i];
        if !o.attempted {
          continue;
        }
        tried := tried + 1;
        if o.err {
          errors := errors + 1;
          continue;
        }
        if o.nodes > 0 {
          live := live + [LiveCand(o.url, o.nodes, o.eps, false)];
        }
      }
      assert outs[..|outs|] == outs;
    }

    /** Folds the managed files of a repository without counting them, and marks them. */
    method FoldKnown(live: seq<LiveCand>) returns (marked: seq<LiveCand>)
      requires Valid() && forall k :: 0 <= k < |live| ==> !live[k].known
      modifies this`union, this`novelEndpoints, this`log
      ensures Valid() && marked == Marked(live, known)
      ensures log == KnownLog(old(log), marked)
      ensures AcceptedFiles(log) == AcceptedFiles(old(log)) && Extends(old(log), log)
    {
      hide Elements, TotalNovel, Folded, AcceptedFiles, KnownLog, Honest;
      marked := live;
      ghost var was, goal := log, Marked(live, known);
      KnownLogStarts(was, goal);
      for i := 0 to |live|
        invariant Valid() && Extends(old(log), log)
        invariant log == KnownLog(old(log), goal[..i])
        invariant AcceptedFiles(log) == AcceptedFiles(old(log))
        invariant |marked| == |live|
        invariant forall k :: 0 <= k < i ==> marked[k] == goal[k]
        invariant forall k :: i <= k < |live| ==> marked[k] == live[k]
      {
        KnownLogStep(was, goal, i);
        if marked[i].url in known {
          marked := marked[i := marked[i].(known := true)];
          Fold(marked[i].eps, false);
          LogKnown(marked[i].eps);
        }
      }
      assert goal[..|live|] == goal;
    }

    method SelectRepo(outs: seq<Outcome>) returns (rep: Repo)
      requires Valid() && OutcomesDistinct(outs)
      modifies this`union, this`novelEndpoints, this`countScratch, this`log, this`errors
      ensures Valid() && Extends(old(log), log)
      ensures RepoLog(old(log), log, census, known, minNovel, acceptPerRepo, outs)
      ensures AcceptedFiles(log) == AcceptedFiles(old(log)) + rep.accepted
      ensures rep.probed == Attempts(outs) && rep.live == |LiveOf(outs)|
      ensures errors == old(errors) + |set i: nat | i < |outs| && outs[i].attempted && outs[i].err|
      ensures RepoIsRight(outs, census, known, minNovel, acceptPerRepo, old(union), union, rep)
    {
      hide RepoIsRight;
      ghost var was := log;
      FailuresArePlain(outs);
      var tried, live := LiveCandidates(outs);
      LiveAreDistinct(outs);
      rep := Repo([], tried, |live|);
      if |live| == 0 {
        assert AcceptedFiles(log) + [] == AcceptedFiles(log);
        RepoLogIsRight(was, log, census, known, minNovel, acceptPerRepo, outs, rep);
        return;
      }
      LiveAreUnmarked(outs);
      live := FoldKnown(live);
      ghost var folded := log;
      var files, order := Pick(live);
      RepoLogHolds(old(log), folded, log, census, known, minNovel, acceptPerRepo, outs, order);
      ExtendsFurther(old(log), folded, log);
      rep := rep.(accepted := files);
      RepoLogIsRight(was, log, census, known, minNovel, acceptPerRepo, outs, rep);
    }

    /** The whole selection: what is reported is exactly what was newly accepted. */
    method SelectFiles(admitted: seq<seq<Outcome>>) returns (ghost unions: seq<set<Hash>>)
      requires Valid() && repos == [] && log == [] && accepted == 0
      requires forall i :: 0 <= i < |admitted| ==> OutcomesDistinct(admitted[i])
      modifies this
      ensures Valid() && |repos| == |admitted|
      ensures PassLog(log, census, known, minNovel, acceptPerRepo, admitted)
      ensures FilesOf(repos) == AcceptedFiles(log) && accepted == |FilesOf(repos)|
      ensures novelEndpoints == TotalNovel(FilesOf(repos)) == |CountedEndpoints(log, census)|
      ensures forall k :: 0 <= k < |FilesOf(repos)| ==>
                FilesOf(repos)[k].novel >= minNovel && FilesOf(repos)[k].url !in known
      ensures union == Folded(log) - census
      ensures |unions| == |admitted| + 1 && unions[0] == {} && unions[|admitted|] == union
      ensures forall i :: 0 <= i < |admitted| ==>
                RepoIsRight(admitted[i], census, known, minNovel, acceptPerRepo, unions[i], unions[i + 1], repos[i])
    {
      hide RepoIsRight, RepoLog, Honest, OutcomesDistinct, Elements;
      unions := [union];
      for i := 0 to |admitted|
        invariant Valid() && |repos| == i
        invariant PassLog(log, census, known, minNovel, acceptPerRepo, admitted[..i])
        invariant FilesOf(repos) == AcceptedFiles(log) && accepted == |AcceptedFiles(log)|
        invariant |unions| == i + 1 && unions[0] == {} && unions[i] == union
        invariant forall k :: 0 <= k < i ==>
                    RepoIsRight(admitted[k], census, known, minNovel, acceptPerRepo, unions[k], unions[k + 1], repos[k])
      {
        ghost var before := log;
        var rep := SelectRepo(admitted[i]);
        assert admitted[..i + 1][..i] == admitted[..i];
        assert log[..|before|] == before;
        probed := probed + rep.probed;
        liveFiles := liveFiles + rep.live;
        accepted := accepted + |rep.accepted|;
        assert (repos + [rep])[..|repos|] == repos;
        repos := repos + [rep];
        unions := unions + [union];
      }
      assert admitted[..|admitted|] == admitted;
      NovelCountsAreDistinct(log, census, known, minNovel);
      AcceptedAreNovelEnough(log, census, known, minNovel);
    }
  }

  /** In a sorted scratch an element is new exactly when it differs from the one before it. */
  lemma NewOrRepeated(sorted: seq<Hash>, i: nat)
    requires Sorting.SortedBy(sorted, NatLeq) && i < |sorted|
    ensures |Elements(sorted[..i + 1])| == |Elements(sorted[..i])| + if i > 0 && sorted[i] == sorted[i - 1] then 0 else 1
  {
    assert Elements(sorted[..i + 1]) == Elements(sorted[..i]) + {sorted[i]};
    if i > 0 && sorted[i] == sorted[i - 1] {
      assert sorted[..i][i - 1] == sorted[i];
      assert Elements(sorted[..i + 1]) == Elements(sorted[..i]);
    } else {
      forall k | 0 <= k < i ensures sorted[k] != sorted[i] {
        assert NatLeq(sorted[i - 1], sorted[i]);
        assert k < i - 1 ==> NatLeq(sorted[k], sorted[i - 1]);
      }
      assert sorted[i] !in Elements(sorted[..i]);
    }
  }

  lemma RepoLogHolds(was: seq<FoldEvent>, folded: seq<FoldEvent>, now: seq<FoldEvent>, census: set<Hash>, known: set<string>,
                     minNovel: int, accept: int, outs: seq<Outcome>, order: seq<nat>)
    requires LiveOf(outs) != [] && folded == KnownLog(was, Marked(LiveOf(outs), known))
    requires CoverOrder(Marked(LiveOf(outs), known), accept, order) && Picks(Marked(LiveOf(outs), known), order)
    requires now == PickLog(folded, census, minNovel, Marked(LiveOf(outs), known), order)
    ensures RepoLog(was, now, census, known, minNovel, accept, outs)
  {
  }

  lemma {:induction false} LiveAreUnmarked(outs: seq<Outcome>)
    ensures forall i :: 0 <= i < |LiveOf(outs)| ==> !LiveOf(outs)[i].known
  {
    if outs != [] {
      LiveAreUnmarked(outs[..|outs| - 1]);
    }
  }

  ghost predicate Extends(was: seq<FoldEvent>, now: seq<FoldEvent>)
  {
    |was| <= |now| && now[..|was|] == was
  }

  lemma {:induction false} AcceptedAreNovelEnough(log: seq<FoldEvent>, census: set<Hash>, known: set<string>, minNovel: int)
    requires Honest(log, census, known, minNovel)
    ensures forall k :: 0 <= k < |AcceptedFiles(log)| ==>
              AcceptedFiles(log)[k].novel >= minNovel && AcceptedFiles(log)[k].url !in known
  {
    if log != [] {
      AcceptedAreNovelEnough(log[..|log| - 1], census, known, minNovel);
    }
  }
}
