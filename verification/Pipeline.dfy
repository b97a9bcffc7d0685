/** internal/preprocess/processor.go and filters.go, internal/filter/filter.go: the per-node pipeline. */
module Pipeline {
  import opened Basics

  type Code = string

  const MAX_SUBSCRIPTION_NODES := 50000

  datatype AsnAnswer = AsnError | AsnIs(name: string, country: Code)

  /** What a server string is, apart from a name: not a literal, an IPv4 one, or one of another family. */
  datatype Literal = NoLiteral | V4(addr: Ipv4) | OtherFamily

  /** What the filters and the resolver answer while node `k` of a body is processed. */
  datatype World = World(
    blocked: string -> bool,
    literal: string -> Literal,
    resolve: (nat, string) -> Option<seq<Ipv4>>,
    country: Ipv4 -> Code,
    asn: (nat, Ipv4) -> AsnAnswer,
    listed: (nat, Ipv4) -> bool)

  /** The request's country policy: an allow-list unless every country is allowed, and a deny-list. */
  datatype Policy = Policy(all: bool, allowed: set<Code>, denied: set<Code>)

  predicate Permits(p: Policy, c: Code)
  {
    (p.all || c in p.allowed) && c !in p.denied
  }

  datatype Filter = GeofeedFilter | AsnFilter(hasResolver: bool, nameDenied: string -> bool) | CidrFilter

  datatype Tally = Tally(total: nat, kept: nat, dns: nat, geo: nat, asn: nat, cidr: nat, geoBlock: nat, ipv6: nat)

  const NOTHING_YET := Tally(0, 0, 0, 0, 0, 0, 0, 0)

  /** Every node counted is kept or dropped for exactly one counted reason. */
  predicate Balanced(t: Tally)
  {
    t.total == t.kept + t.dns + t.geo + t.asn + t.cidr + t.geoBlock + t.ipv6
  }

  // ----- the filters, address by address -----

  predicate NameRefused(f: Filter, w: World, k: nat, a: Ipv4)
    requires f.AsnFilter?
  {
    f.hasResolver && w.asn(k, a).AsnIs? && w.asn(k, a).name != "" && f.nameDenied(w.asn(k, a).name)
  }

  predicate Passes(f: Filter, w: World, p: Policy, k: nat, a: Ipv4)
  {
    match f
    case GeofeedFilter => Permits(p, w.country(a))
    case AsnFilter(hasResolver, _) =>
      !hasResolver || w.asn(k, a).AsnError? || (!NameRefused(f, w, k, a) && Permits(p, w.asn(k, a).country))
    case CidrFilter => w.listed(k, a)
  }

  predicate PassesAll(chain: seq<Filter>, w: World, p: Policy, k: nat, a: Ipv4)
  {
    forall i :: 0 <= i < |chain| ==> Passes(chain[i], w, p, k, a)
  }

  function Filtered(ips: seq<Ipv4>, f: Filter, w: World, p: Policy, k: nat): (out: seq<Ipv4>)
    ensures |out| <= |ips|
  {
    if ips == [] then []
    else
      var a := ips[|ips| - 1];
      Filtered(ips[..|ips| - 1], f, w, p, k) + if Passes(f, w, p, k, a) then [a] else []
  }

  datatype Reason = Dns | Geo | Asn | Cidr | GeoBlock | Ipv6

  /** The reason booked for a node a filter leaves no address of. */
  function ReasonOf(f: Filter, w: World, k: nat, ips: seq<Ipv4>): Reason
  {
    match f
    case GeofeedFilter => Geo
    case AsnFilter(_, _) => if exists i :: 0 <= i < |ips| && NameRefused(f, w, k, ips[i]) then Asn else Geo
    case CidrFilter => Cidr
  }

  datatype Verdict = Kept(addr: Ipv4) | Dropped(reason: Reason)

  function Through(chain: seq<Filter>, w: World, p: Policy, k: nat, ips: seq<Ipv4>): Verdict
    requires ips != []
  {
    if chain == [] then Kept(ips[0])
    else
      var left := Filtered(ips, chain[0], w, p, k);
      if left == [] then Dropped(ReasonOf(chain[0], w, k, ips)) else Through(chain[1..], w, p, k, left)
  }

  function Count(t: Tally, v: Verdict): Tally
  {
    var t := t.(total := t.total + 1);
    match v
    case Kept(_) => t.(kept := t.kept + 1)
    case Dropped(Dns) => t.(dns := t.dns + 1)
    case Dropped(Geo) => t.(geo := t.geo + 1)
    case Dropped(Asn) => t.(asn := t.asn + 1)
    case Dropped(Cidr) => t.(cidr := t.cidr + 1)
    case Dropped(GeoBlock) => t.(geoBlock := t.geoBlock + 1)
    case Dropped(Ipv6) => t.(ipv6 := t.ipv6 + 1)
  }

  // ----- a whole body, on values -----

  type Memo = map<string, seq<Ipv4>>

  function Answer(w: World, k: nat, server: string): seq<Ipv4>
  {
    if w.resolve(k, server).Some? then w.resolve(k, server).value else []
  }

  /** The addresses of a server, or nothing for another family; names are asked for once. */
  function Addresses(memo: Memo, w: World, k: nat, server: string): Option<seq<Ipv4>>
  {
    if server in memo then Some(memo[server])
    else
      match w.literal(server)
      case V4(a) => Some([a])
      case OtherFamily => None
      case NoLiteral => Some(Answer(w, k, server))
  }

  function Remember(memo: Memo, w: World, k: nat, server: string): Memo
  {
    if server in memo || w.blocked(server) || !w.literal(server).NoLiteral? then memo else memo[server := Answer(w, k, server)]
  }

  function VerdictOf(memo: Memo, chain: seq<Filter>, w: World, p: Policy, k: nat, server: string): Verdict
  {
    if w.blocked(server) then Dropped(GeoBlock)
    else
      match Addresses(memo, w, k, server)
      case None => Dropped(Ipv6)
      case Some(ips) => if ips == [] then Dropped(Dns) else Through(chain, w, p, k, ips)
  }

  /** A body line: a node, URI-shaped but refused by the parser, or anything else. */
  datatype Line = Node(server: string) | Refused | Other

  /** The servers of the parsed nodes, in order. */
  function Servers(body: seq<Line>): (nodes: seq<string>)
    ensures |nodes| <= |body|
  {
    if body == [] then []
    else (if body[0].Node? then [body[0].server] else []) + Servers(body[1..])
  }

  /** The refused lines ahead of the node after the first `live`, or all of them. */
  function RefusedAhead(body: seq<Line>, live: nat): nat
  {
    if body == [] then 0
    else
      match body[0]
      case Node(_) => if live == 0 then 0 else RefusedAhead(body[1..], live - 1)
      case Refused => 1 + RefusedAhead(body[1..], live)
      case Other => RefusedAhead(body[1..], live)
  }

  datatype Progress = Progress(memo: Memo, tally: Tally, out: seq<(nat, Ipv4)>)

  const AT_START := Progress(map[], NOTHING_YET, [])

  function After(s: Progress, chain: seq<Filter>, w: World, p: Policy, k: nat, server: string): Progress
  {
    var v := VerdictOf(s.memo, chain, w, p, k, server);
    Progress(Remember(s.memo, w, k, server), Count(s.tally, v), s.out + if v.Kept? then [(k, v.addr)] else [])
  }

  /** The progress after the first `n` nodes of a body. */
  function Processed(nodes: seq<string>, chain: seq<Filter>, w: World, p: Policy, n: nat): Progress
    requires n <= |nodes|
  {
    if n == 0 then AT_START else After(Processed(nodes, chain, w, p, n - 1), chain, w, p, n - 1, nodes[n - 1])
  }

  // ----- what that means -----

  lemma {:induction false} FilteredMembers(ips: seq<Ipv4>, f: Filter, w: World, p: Policy, k: nat, a: Ipv4)
    ensures a in Filtered(ips, f, w, p, k) <==> a in ips && Passes(f, w, p, k, a)
  {
    if ips != [] {
      FilteredMembers(ips[..|ips| - 1], f, w, p, k, a);
      assert ips == ips[..|ips| - 1] + [ips[|ips| - 1]];
    }
  }

  /** `a` is the first of the addresses that passes the whole chain. */
  ghost predicate FirstThrough(chain: seq<Filter>, w: World, p: Policy, k: nat, ips: seq<Ipv4>, a: Ipv4)
  {
    exists i :: 0 <= i < |ips| && ips[i] == a && PassesAll(chain, w, p, k, a)
                && forall j :: 0 <= j < i ==> !PassesAll(chain, w, p, k, ips[j])
  }

  /** Where a filter put a kept address, and that it kept everything before it that passes. */
  lemma {:induction false} FilteredPlace(ips: seq<Ipv4>, f: Filter, w: World, p: Policy, k: nat, m: nat) returns (i: nat)
    requires m < |Filtered(ips, f, w, p, k)|
    ensures i < |ips| && ips[i] == Filtered(ips, f, w, p, k)[m] && Passes(f, w, p, k, ips[i])
    ensures forall j :: 0 <= j < i && Passes(f, w, p, k, ips[j]) ==> ips[j] in Filtered(ips, f, w, p, k)[..m]
  {
    var front := ips[..|ips| - 1];
    var kept := Filtered(front, f, w, p, k);
    if m < |kept| {
      i := FilteredPlace(front, f, w, p, k, m);
      assert Filtered(ips, f, w, p, k)[..m] == kept[..m];
    } else {
      i := |ips| - 1;
      assert Filtered(ips, f, w, p, k)[..m] == kept;
      forall j | 0 <= j < i && Passes(f, w, p, k, ips[j]) ensures ips[j] in kept {
        FilteredMembers(front, f, w, p, k, ips[j]);
        assert front[j] == ips[j];
      }
    }
  }

  lemma PassesTail(chain: seq<Filter>, w: World, p: Policy, k: nat, a: Ipv4)
    requires chain != []
    ensures PassesAll(chain, w, p, k, a) <==> Passes(chain[0], w, p, k, a) && PassesAll(chain[1..], w, p, k, a)
  {
    assert forall i :: 1 <= i < |chain| ==> chain[i] == chain[1..][i - 1];
  }

  /** The chain keeps a node exactly when one of its addresses passes every filter, and then at the
      first such address, though each filter only ever compacts what the one before it left. */
  lemma {:induction false} KeptIsFirstThrough(chain: seq<Filter>, w: World, p: Policy, k: nat, ips: seq<Ipv4>)
    requires ips != []
    ensures Through(chain, w, p, k, ips).Kept? ==> FirstThrough(chain, w, p, k, ips, Through(chain, w, p, k, ips).addr)
    ensures Through(chain, w, p, k, ips).Dropped? ==> forall a :: a in ips ==> !PassesAll(chain, w, p, k, a)
  {
    if chain != [] {
      var left := Filtered(ips, chain[0], w, p, k);
      forall a | a in ips && PassesAll(chain, w, p, k, a) ensures a in left && PassesAll(chain[1..], w, p, k, a) {
        PassesTail(chain, w, p, k, a);
        FilteredMembers(ips, chain[0], w, p, k, a);
      }
      if left != [] {
        KeptIsFirstThrough(chain[1..], w, p, k, left);
        if Through(chain[1..], w, p, k, left).Kept? {
          FirstOfLeft(chain, w, p, k, ips, Through(chain[1..], w, p, k, left).addr);
        }
      }
    }
  }

  lemma FirstOfLeft(chain: seq<Filter>, w: World, p: Policy, k: nat, ips: seq<Ipv4>, a: Ipv4)
    requires chain != [] && FirstThrough(chain[1..], w, p, k, Filtered(ips, chain[0], w, p, k), a)
    ensures FirstThrough(chain, w, p, k, ips, a)
  {
    var left := Filtered(ips, chain[0], w, p, k);
    var m :| 0 <= m < |left| && left[m] == a && PassesAll(chain[1..], w, p, k, a)
             && forall j :: 0 <= j < m ==> !PassesAll(chain[1..], w, p, k, left[j]);
    var i := FilteredPlace(ips, chain[0], w, p, k, m);
    PassesTail(chain, w, p, k, a);
    forall j | 0 <= j < i ensures !PassesAll(chain, w, p, k, ips[j]) {
      PassesTail(chain, w, p, k, ips[j]);
      if Passes(chain[0], w, p, k, ips[j]) {
        var n :| 0 <= n < m && left[..m][n] == ips[j];
      }
    }
  }

  /** Totals balance after every node. */
  lemma {:induction false} TotalsBalance(nodes: seq<string>, chain: seq<Filter>, w: World, p: Policy, n: nat)
    requires n <= |nodes|
    ensures var s := Processed(nodes, chain, w, p, n);
            Balanced(s.tally) && s.tally.total == n && s.tally.kept == |s.out|
  {
    if n > 0 {
      hide VerdictOf, Remember, Count, Balanced;
      TotalsBalance(nodes, chain, w, p, n - 1);
      var s := Processed(nodes, chain, w, p, n - 1);
      CountBalances(s.tally, VerdictOf(s.memo, chain, w, p, n - 1, nodes[n - 1]));
    }
  }

  lemma CountBalances(t: Tally, v: Verdict)
    requires Balanced(t)
    ensures Balanced(Count(t, v)) && Count(t, v).total == t.total + 1
    ensures Count(t, v).kept == t.kept + if v.Kept? then 1 else 0
  {
  }

  /** The first node that asked the resolver for a server. */
  ghost predicate FirstAsk(nodes: seq<string>, w: World, server: string, k: nat)
  {
    && k < |nodes| && nodes[k] == server && !w.blocked(server) && w.literal(server).NoLiteral?
    && forall j :: 0 <= j < k ==> nodes[j] != server
  }

  /** A server's memoised addresses are, for the whole body, what the resolver answered its first node. */
  lemma {:induction false} MemoIsFirstAnswer(nodes: seq<string>, chain: seq<Filter>, w: World, p: Policy, n: nat, server: string)
    requires n <= |nodes|
    ensures var memo := Processed(nodes, chain, w, p, n).memo;
            (server in memo <==> exists k :: 0 <= k < n && FirstAsk(nodes, w, server, k))
            && (server in memo ==> exists k :: 0 <= k < n && FirstAsk(nodes, w, server, k) && memo[server] == Answer(w, k, server))
  {
    if n > 0 {
      MemoIsFirstAnswer(nodes, chain, w, p, n - 1, server);
      var before := Processed(nodes, chain, w, p, n - 1).memo;
      if server !in before && nodes[n - 1] == server && !w.blocked(server) && w.literal(server).NoLiteral? {
        forall j | 0 <= j < n - 1 ensures nodes[j] != server {
          if nodes[j] == server {
            var first := FirstOf(nodes, server, j);
            assert FirstAsk(nodes, w, server, first);
          }
        }
        assert FirstAsk(nodes, w, server, n - 1);
      }
    }
  }

  lemma {:induction false} FirstOf(nodes: seq<string>, server: string, j: nat) returns (k: nat)
    requires j < |nodes| && nodes[j] == server
    ensures k <= j && nodes[k] == server && forall i :: 0 <= i < k ==> nodes[i] != server
  {
    if exists i :: 0 <= i < j && nodes[i] == server {
      var i :| 0 <= i < j && nodes[i] == server;
      k := FirstOf(nodes, server, i);
    } else {
      k := j;
    }
  }

  /** What a kept node owes its place to: an unblocked server whose own addresses include the one kept,
      which is the first of them to pass every filter. */
  ghost predicate KeptRightly(nodes: seq<string>, chain: seq<Filter>, w: World, p: Policy, entry: (nat, Ipv4))
  {
    var (k, a) := entry;
    && k < |nodes| && !w.blocked(nodes[k])
    && if w.literal(nodes[k]).V4? then w.literal(nodes[k]).addr == a && PassesAll(chain, w, p, k, a)
       else exists j :: 0 <= j <= k && FirstAsk(nodes, w, nodes[k], j) && FirstThrough(chain, w, p, k, Answer(w, j, nodes[k]), a)
  }

  lemma {:induction false} OutputIsRight(nodes: seq<string>, chain: seq<Filter>, w: World, p: Policy, n: nat)
    requires n <= |nodes|
    ensures forall e :: e in Processed(nodes, chain, w, p, n).out ==> KeptRightly(nodes, chain, w, p, e)
  {
    if n > 0 {
      OutputIsRight(nodes, chain, w, p, n - 1);
      LastIsRight(nodes, chain, w, p, n);
    }
  }

  lemma LastIsRight(nodes: seq<string>, chain: seq<Filter>, w: World, p: Policy, n: nat)
    requires 0 < n <= |nodes|
    ensures var v := VerdictOf(Processed(nodes, chain, w, p, n - 1).memo, chain, w, p, n - 1, nodes[n - 1]);
            v.Kept? ==> KeptRightly(nodes, chain, w, p, (n - 1, v.addr))
  {
    var server, memo := nodes[n - 1], Processed(nodes, chain, w, p, n - 1).memo;
    MemoIsFirstAnswer(nodes, chain, w, p, n - 1, server);
    MemoIsFirstAnswer(nodes, chain, w, p, n, server);
    var v := VerdictOf(memo, chain, w, p, n - 1, server);
    if v.Kept? {
      var ips := Addresses(memo, w, n - 1, server).value;
      KeptIsFirstThrough(chain, w, p, n - 1, ips);
    }
  }

  /** Nothing usable is dropped: a dropped node is blocked, of another family, or has no address that
      passes every filter. */
  lemma DroppedRightly(nodes: seq<string>, chain: seq<Filter>, w: World, p: Policy, n: nat)
    requires n < |nodes|
    ensures var s := Processed(nodes, chain, w, p, n);
            var ips := Addresses(s.memo, w, n, nodes[n]);
            VerdictOf(s.memo, chain, w, p, n, nodes[n]).Dropped? <==>
            w.blocked(nodes[n]) || ips.None? || forall a :: a in ips.value ==> !PassesAll(chain, w, p, n, a)
  {
    var memo := Processed(nodes, chain, w, p, n).memo;
    var ips := Addresses(memo, w, n, nodes[n]);
    if !w.blocked(nodes[n]) && ips.Some? && ips.value != [] {
      KeptIsFirstThrough(chain, w, p, n, ips.value);
    }
  }

  // ----- the code -----

  class PipelineContext {
    var scratch: array<Ipv4>
    const addrScratch: array<Ipv4>
    var resolved: map<string, array<Ipv4>>
    var stats: Tally
    var unsupported: nat
    var sink: seq<(nat, Ipv4)>
    const policy: Policy
    const world: World

    constructor (policy: Policy, world: World)
      ensures Valid() && State() == AT_START && fresh(scratch) && fresh(addrScratch)
      ensures this.policy == policy && this.world == world && unsupported == 0
    {
      this.policy, this.world := policy, world;
      scratch := new Ipv4[0];
      addrScratch := new Ipv4[1];
      resolved, stats, unsupported, sink := map[], NOTHING_YET, 0, [];
    }

    /** The scratch buffers are nobody's memoised addresses. */
    ghost predicate Valid()
      reads this
    {
      && scratch != addrScratch && addrScratch.Length == 1
      && forall s :: s in resolved ==> resolved[s] != scratch && resolved[s] != addrScratch
    }

    ghost function Arrays(): set<array<Ipv4>>
      reads `resolved
    {
      set s | s in resolved :: resolved[s]
    }

    ghost function MemoNow(): Memo
      reads `resolved, Arrays()
    {
      map s | s in resolved :: resolved[s][..]
    }

    ghost function State(): Progress
      reads this, Arrays()
    {
      Progress(MemoNow(), stats, sink)
    }

    /** Compacts the addresses the policy permits to the front, in order. */
    method Permitted(k: nat, n: nat) returns (m: nat)
      requires Valid() && n <= scratch.Length
      modifies scratch
      ensures m <= n && scratch[..m] == Filtered(old(scratch[..n]), GeofeedFilter, world, policy, k)
    {
      ghost var before := scratch[..n];
      m := 0;
      for i := 0 to n
        invariant m <= i && scratch[..m] == Filtered(before[..i], GeofeedFilter, world, policy, k)
        invariant forall j :: i <= j < n ==> scratch[j] == before[j]
      {
        var ip := scratch[i];
        var country := world.country(ip);
        FilteredStep(before, GeofeedFilter, world, policy, k, i);
        if (policy.all || country in policy.allowed) && country !in policy.denied {
          scratch[m] := ip;
          m := m + 1;
        }
      }
      assert before[..n] == before;
    }

    method ProcessGeofeed(k: nat, n: nat) returns (m: nat)
      requires Valid() && 0 < n <= scratch.Length
      modifies `stats, scratch
      ensures m <= n && scratch[..m] == Filtered(old(scratch[..n]), GeofeedFilter, world, policy, k)
      ensures stats == if m > 0 then old(stats) else Book(old(stats), Geo)
    {
      if policy.all && policy.denied == {} {
        AllPass(scratch[..n], GeofeedFilter, world, policy, k);
        return n;
      }
      m := Permitted(k, n);
      if m == 0 {
        stats := stats.(geo := stats.geo + 1);
      }
    }

    /** The loop of the ASN filter: what is left, and why anything went. */
    method CompactAsn(f: Filter, k: nat, n: nat) returns (m: nat, asnDrop: bool, geoDrop: bool)
      requires Valid() && n <= scratch.Length && f.AsnFilter? && f.hasResolver
      modifies scratch
      ensures m <= n && scratch[..m] == Filtered(old(scratch[..n]), f, world, policy, k)
      ensures var before := old(scratch[..n]); asnDrop <==> exists j :: 0 <= j < n && NameRefused(f, world, k, before[j])
      ensures m < n ==> asnDrop || geoDrop
    {
      hide Filtered, Permits;
      ghost var before := scratch[..n];
      NothingFiltered(f, world, policy, k);
      m, asnDrop, geoDrop := 0, false, false;
      for i := 0 to n
        invariant m <= i && scratch[..m] == Filtered(before[..i], f, world, policy, k)
        invariant forall j :: i <= j < n ==> scratch[j] == before[j]
        invariant asnDrop <==> exists j :: 0 <= j < i && NameRefused(f, world, k, before[j])
        invariant m < i ==> asnDrop || geoDrop
      {
        var ip := scratch[i];
        var answer := world.asn(k, ip);
        FilteredStep(before, f, world, policy, k, i);
        if answer.AsnError? {
          scratch[m] := ip;
          m := m + 1;
          continue;
        }
        if answer.name != "" && f.nameDenied(answer.name) {
          asnDrop := true;
          continue;
        }
        if !Permits(policy, answer.country) {
          geoDrop := true;
          continue;
        }
        scratch[m] := ip;
        m := m + 1;
      }
      assert before[..n] == before;
    }

    method ProcessAsn(f: Filter, k: nat, n: nat) returns (m: nat)
      requires Valid() && 0 < n <= scratch.Length && f.AsnFilter?
      modifies `stats, scratch
      ensures m <= n && scratch[..m] == Filtered(old(scratch[..n]), f, world, policy, k)
      ensures stats == if m > 0 then old(stats) else Book(old(stats), ReasonOf(f, world, k, old(scratch[..n])))
    {
      if !f.hasResolver {
        AllPass(scratch[..n], f, world, policy, k);
        return n;
      }
      var asnDrop, geoDrop;
      m, asnDrop, geoDrop := CompactAsn(f, k, n);
      if m == 0 {
        if asnDrop {
          stats := stats.(asn := stats.asn + 1);
        } else if geoDrop {
          stats := stats.(geo := stats.geo + 1);
        }
      }
    }

    method ProcessCidr(k: nat, n: nat) returns (m: nat)
      requires Valid() && 0 < n <= scratch.Length
      modifies `stats, scratch
      ensures m <= n && scratch[..m] == Filtered(old(scratch[..n]), CidrFilter, world, policy, k)
      ensures stats == if m > 0 then old(stats) else Book(old(stats), Cidr)
    {
      ghost var before := scratch[..n];
      m := 0;
      for i := 0 to n
        invariant m <= i && scratch[..m] == Filtered(before[..i], CidrFilter, world, policy, k)
        invariant (forall j :: i <= j < n ==> scratch[j] == before[j]) && stats == old(stats)
      {
        FilteredStep(before, CidrFilter, world, policy, k, i);
        if world.listed(k, scratch[i]) {
          scratch[m] := scratch[i];
          m := m + 1;
        }
      }
      assert before[..n] == before;
      if m == 0 {
        stats := stats.(cidr := stats.cidr + 1);
      }
    }

    method Process(f: Filter, k: nat, n: nat) returns (m: nat)
      requires Valid() && 0 < n <= scratch.Length
      modifies `stats, scratch
      ensures m <= n && scratch[..m] == Filtered(old(scratch[..n]), f, world, policy, k)
      ensures stats == if m > 0 then old(stats) else Book(old(stats), ReasonOf(f, world, k, old(scratch[..n])))
    {
      match f
      case GeofeedFilter => m := ProcessGeofeed(k, n);
      case AsnFilter(_, _) => m := ProcessAsn(f, k, n);
      case CidrFilter => m := ProcessCidr(k, n);
    }

    /** The addresses of a node's server, borrowed: the memo's own array, or the literal's cell. */
    method ResolveNode(server: string, k: nat) returns (ips: array<Ipv4>, n: nat, supported: bool)
      requires Valid()
      modifies `resolved, addrScratch
      ensures Valid() && n <= ips.Length && ips != scratch
      ensures !world.blocked(server) ==> MemoNow() == Remember(old(MemoNow()), world, k, server)
      ensures var a := Addresses(old(MemoNow()), world, k, server);
              (supported <==> a.Some?) && (supported ==> ips[..n] == a.value)
      ensures forall s :: s in old(resolved) ==> s in resolved && resolved[s] == old(resolved[s])
      ensures forall s :: s in resolved && s !in old(resolved) ==> fresh(resolved[s])
    {
      if server in resolved {
        return resolved[server], resolved[server].Length, true;
      }
      match world.literal(server) {
        case OtherFamily => return addrScratch, 0, false;
        case V4(addr) =>
          addrScratch[0] := addr;
          return addrScratch, 1, true;
        case NoLiteral =>
      }
      var answer := world.resolve(k, server);
      if answer.None? || |answer.value| == 0 {
        var nothing := new Ipv4[0];
        assert nothing[..] == Answer(world, k, server);
        resolved := resolved[server := nothing];
        return nothing, 0, true;
      }
      var copy := new Ipv4[|answer.value|](i requires 0 <= i < |answer.value| => answer.value[i]);
      assert copy[..] == answer.value;
      resolved := resolved[server := copy];
      return copy, copy.Length, true;
    }

    /** One node: blocked, refused, unresolved, filtered out or emitted. */
    method ProcessNode(server: string, k: nat, chain: seq<Filter>)
      requires Valid()
      modifies `stats, `resolved, `scratch, `sink, scratch, addrScratch
      ensures Valid() && (scratch == old(scratch) || fresh(scratch))
      ensures State() == After(old(State()), chain, world, policy, k, server)
      ensures forall s :: s in old(resolved) ==> s in resolved && resolved[s] == old(resolved[s])
      ensures forall s :: s in resolved && s !in old(resolved) ==> fresh(resolved[s])
    {
      hide Through, After, Remember, VerdictOf, Addresses, Count, Book;
      ghost var s := State();
      CountFacts(stats);
      stats := stats.(total := stats.total + 1);
      if world.blocked(server) {
        stats := stats.(geoBlock := stats.geoBlock + 1);
        BlockedAfter(s, chain, world, policy, k, server);
        return;
      }
      assert MemoNow() == s.memo;
      var cached, n, supported := ResolveNode(server, k);
      UnblockedAfter(s, chain, world, policy, k, server);
      if !supported {
        stats := stats.(ipv6 := stats.ipv6 + 1);
        return;
      }
      if n == 0 {
        assert cached[..n] == [];
        stats := stats.(dns := stats.dns + 1);
        return;
      }
      var left := FilterNode(cached, n, chain, k);
      if left > 0 {
        sink := sink + [(k, scratch[0])];
        stats := stats.(kept := stats.kept + 1);
      }
    }

    /** Hands the filters a scratch copy of the addresses; the memo stays as it is. */
    method FilterNode(cached: array<Ipv4>, n: nat, chain: seq<Filter>, k: nat) returns (left: nat)
      requires Valid() && 0 < n <= cached.Length && cached != scratch
      modifies `stats, `scratch, scratch
      ensures Valid() && (scratch == old(scratch) || fresh(scratch)) && MemoNow() == old(MemoNow())
      ensures var v := Through(chain, world, policy, k, old(cached[..n]));
              && (left > 0 <==> v.Kept?) && left <= scratch.Length
              && (left > 0 ==> scratch[0] == v.addr && stats == old(stats))
              && (left == 0 ==> stats == Book(old(stats), v.reason))
    {
      hide Through, Book;
      CopyToScratch(cached, n);
      left := RunChain(chain, k, n);
    }

    /** append(Scratch[:0], cached...): the filters get a copy, never the memo's array. */
    method CopyToScratch(cached: array<Ipv4>, n: nat)
      requires Valid() && n <= cached.Length && cached != scratch
      modifies `scratch, scratch
      ensures Valid() && (scratch == old(scratch) || fresh(scratch))
      ensures n <= scratch.Length && scratch[..n] == old(cached[..n])
    {
      if scratch.Length < n {
        scratch := new Ipv4[n];
      }
      var copy := scratch;
      for i := 0 to n
        invariant scratch == copy && copy[..i] == cached[..i] && cached[..n] == old(cached[..n])
      {
        copy[i] := cached[i];
      }
    }

    /** The chain over the scratch copy; a drop is booked where it happens. */
    method RunChain(chain: seq<Filter>, k: nat, n: nat) returns (left: nat)
      requires Valid() && 0 < n <= scratch.Length
      modifies `stats, scratch
      ensures var v := Through(chain, world, policy, k, old(scratch[..n]));
              && (left > 0 <==> v.Kept?) && left <= n
              && (left > 0 ==> scratch[0] == v.addr && stats == old(stats))
              && (left == 0 ==> stats == Book(old(stats), v.reason))
    {
      left := n;
      for i := 0 to |chain|
        invariant 0 < left <= n && stats == old(stats)
        invariant Through(chain[i..], world, policy, k, scratch[..left]) == Through(chain, world, policy, k, old(scratch[..n]))
      {
        assert chain[i..][1..] == chain[i + 1..];
        left := Process(chain[i], k, left);
        if left == 0 {
          return;
        }
      }
    }

    /** A whole body: refused above the node ceiling before any lookup, otherwise node by node until the
        context ends, which it does before its check number `live`, the last one after the last node.
        Refused lines are counted apart. */
    method ProcessBody(body: seq<Line>, live: nat, chain: seq<Filter>) returns (result: BodyResult)
      requires Valid() && State() == AT_START && resolved == map[]
      modifies this, scratch, addrScratch
      ensures Valid()
      ensures result == ResultOf(|Servers(body)|, live)
      ensures State() == Processed(Servers(body), chain, world, policy, Reached(|Servers(body)|, live))
      ensures unsupported == old(unsupported) + if result.TooManyNodes? then 0 else RefusedAhead(body, live)
    {
      if |body| > MAX_SUBSCRIPTION_NODES {
        var count := CountNodes(body, MAX_SUBSCRIPTION_NODES);
        if count > MAX_SUBSCRIPTION_NODES {
          return TooManyNodes;
        }
      }
      hide After, Processed, Servers, RefusedAhead;
      var reached, rejected := ParseBody(body, live, chain);
      ghost var before := State();
      unsupported := unsupported + rejected;
      assert State() == before;
      result := if reached >= live then Cancelled else Done;
    }

    /** The parser hands the nodes over one by one until it is told to stop, and counts what it refused. */
    method ParseBody(body: seq<Line>, live: nat, chain: seq<Filter>) returns (reached: nat, rejected: nat)
      requires Valid() && State() == AT_START && resolved == map[]
      modifies `stats, `resolved, `scratch, `sink, scratch, addrScratch
      ensures Valid() && rejected == RefusedAhead(body, live)
      ensures reached == if live < |Servers(body)| then live else |Servers(body)|
      ensures State() == Processed(Servers(body), chain, world, policy, reached)
    {
      hide After, Processed, Servers, RefusedAhead, Valid, Walked;
      ghost var nodes := Servers(body);
      var j := 0;
      reached, rejected := 0, 0;
      WalkStarts(body, live);
      NothingProcessed(nodes, chain, world, policy);
      while j < |body|
        invariant j <= |body| && Walked(body, live, j, reached, rejected) && reached <= |nodes|
        invariant Valid() && (scratch == old(scratch) || fresh(scratch))
        invariant State() == Processed(nodes, chain, world, policy, reached)
      {
        WalkLine(body, live, j, reached, rejected);
        if body[j].Refused? {
          rejected := rejected + 1;
        } else if body[j].Node? {
          if reached >= live {
            break;
          }
          ProcessNode(body[j].server, reached, chain);
          OneMoreNode(nodes, chain, world, policy, reached);
          reached := reached + 1;
        }
        j := j + 1;
      }
      WalkEnds(body, live, j, reached, rejected);
    }
  }

  /** Up to line `j`: `i` nodes were processed and `rejected` lines refused. */
  ghost predicate Walked(body: seq<Line>, live: nat, j: nat, i: nat, rejected: nat)
  {
    && j <= |body| && i <= |Servers(body)| && i <= live
    && Servers(body)[i..] == Servers(body[j..])
    && rejected + RefusedAhead(body[j..], live - i) == RefusedAhead(body, live)
  }

  lemma WalkStarts(body: seq<Line>, live: nat)
    ensures Walked(body, live, 0, 0, 0)
  {
    assert body[0..] == body && Servers(body)[0..] == Servers(body);
  }

  lemma NothingProcessed(nodes: seq<string>, chain: seq<Filter>, w: World, p: Policy)
    ensures Processed(nodes, chain, w, p, 0) == AT_START
  {
  }

  lemma WalkLine(body: seq<Line>, live: nat, j: nat, i: nat, rejected: nat)
    requires j < |body| && Walked(body, live, j, i, rejected)
    ensures match body[j]
            case Other => Walked(body, live, j + 1, i, rejected)
            case Refused => Walked(body, live, j + 1, i, rejected + 1)
            case Node(server) =>
              && i < |Servers(body)| && Servers(body)[i] == server
              && (i < live ==> Walked(body, live, j + 1, i + 1, rejected))
              && (i >= live ==> rejected == RefusedAhead(body, live))
  {
    hide Servers, RefusedAhead;
    NextLine(body, j, live - i);
    if body[j].Node? {
      assert Servers(body)[i..][0] == Servers(body)[i] && Servers(body)[i..][1..] == Servers(body)[i + 1..];
    }
  }

  /** The walk ends after the last line, or at the node the context ended before. */
  lemma WalkEnds(body: seq<Line>, live: nat, j: nat, i: nat, rejected: nat)
    requires Walked(body, live, j, i, rejected) && (j < |body| ==> body[j].Node? && i >= live)
    ensures rejected == RefusedAhead(body, live) && i <= |Servers(body)|
    ensures i == if live < |Servers(body)| then live else |Servers(body)|
  {
    if j < |body| {
      WalkLine(body, live, j, i, rejected);
    }
  }

  /** Parses no further than one node past the limit. */
  method CountNodes(body: seq<Line>, limit: nat) returns (count: nat)
    ensures count > limit <==> |Servers(body)| > limit
  {
    count := 0;
    for j := 0 to |body|
      invariant count + |Servers(body[j..])| == |Servers(body)| && count <= limit
    {
      NextLine(body, j, 0);
      if body[j].Node? {
        count := count + 1;
        if count > limit {
          return;
        }
      }
    }
  }

  lemma NextLine(body: seq<Line>, j: nat, live: nat)
    requires j < |body|
    ensures Servers(body[j..]) == (if body[j].Node? then [body[j].server] else []) + Servers(body[j + 1..])
    ensures RefusedAhead(body[j..], live) ==
            match body[j]
            case Node(_) => if live == 0 then 0 else RefusedAhead(body[j + 1..], live - 1)
            case Refused => 1 + RefusedAhead(body[j + 1..], live)
            case Other => RefusedAhead(body[j + 1..], live)
  {
    assert body[j..][1..] == body[j + 1..];
  }

  lemma OneMoreNode(nodes: seq<string>, chain: seq<Filter>, w: World, p: Policy, i: nat)
    requires i < |nodes|
    ensures Processed(nodes, chain, w, p, i + 1) == After(Processed(nodes, chain, w, p, i), chain, w, p, i, nodes[i])
  {
  }

  datatype BodyResult = Done | Cancelled | TooManyNodes

  function ResultOf(nodes: nat, live: nat): BodyResult
  {
    if nodes > MAX_SUBSCRIPTION_NODES then TooManyNodes else if live <= nodes then Cancelled else Done
  }

  /** How many of the nodes are processed. */
  function Reached(nodes: nat, live: nat): nat
  {
    if nodes > MAX_SUBSCRIPTION_NODES then 0 else if live < nodes then live else nodes
  }

  datatype Filtering = NoCountries | BodyFailed(result: BodyResult) | NoNodes | Survivors(out: seq<(nat, Ipv4)>)

  /** What a request comes to, whatever its body, chain and lookups: the totals balance over the nodes
      reached, refused lines stay out of them, every survivor is kept rightly, and a body cut short or
      without a node yields an error and no survivor. */
  method FilterNodes(body: seq<Line>, live: nat, chain: seq<Filter>, w: World, p: Policy)
    returns (result: Filtering, tally: Tally, unsupported: nat)
    ensures Balanced(tally) && (result.Survivors? ==> tally.kept == |result.out|)
    ensures var n := NodesBefore(body, |body|);
            if !p.all && p.allowed == {} then result == NoCountries && tally.total == 0 && unsupported == 0
            else if n > 50000 then result == BodyFailed(TooManyNodes) && tally.total == 0 && unsupported == 0
            else
              && tally.total == (if live < n then live else n)
              && unsupported == |set j: nat | j < |body| && body[j].Refused? && NodesBefore(body, j) <= live|
              && (if live <= n then result == BodyFailed(Cancelled)
                  else if n == 0 then result == NoNodes else result.Survivors?)
    ensures |Servers(body)| == NodesBefore(body, |body|)
            && forall j: nat :: j < |body| && body[j].Node? ==>
                 NodesBefore(body, j) < |Servers(body)| && Servers(body)[NodesBefore(body, j)] == body[j].server
    ensures result.Survivors? ==> forall e :: e in result.out ==> KeptRightly(Servers(body), chain, w, p, e)
    ensures result.Survivors? ==> Emitted(Servers(body), chain, w, p, |Servers(body)|, result.out)
    ensures tally.total <= |Servers(body)|
            && forall r :: Counter(tally, r) == |DroppedFor(Servers(body), chain, w, p, tally.total, r)|
  {
    hide Emitted, Drops, Counter;
    hide Processed, KeptRightly, Servers, RefusedAhead, Balanced, NodesBefore;
    NothingBalances();
    LinesAreServers(body, live);
    if !p.all && p.allowed == {} {
      forall r ensures Counter(NOTHING_YET, r) == |DroppedFor(Servers(body), chain, w, p, 0, r)| { NothingCounted(r); }
      return NoCountries, NOTHING_YET, 0;
    }
    var ctx := new PipelineContext(p, w);
    var ended := ctx.ProcessBody(body, live, chain);
    tally, unsupported := ctx.stats, ctx.unsupported;
    ghost var nodes := Servers(body);
    TotalsBalance(nodes, chain, w, p, Reached(|nodes|, live));
    OutputIsRight(nodes, chain, w, p, Reached(|nodes|, live));
    OutIsEmitted(nodes, chain, w, p, Reached(|nodes|, live));
    forall r ensures Counter(tally, r) == |DroppedFor(nodes, chain, w, p, Reached(|nodes|, live), r)| {
      TallyCounts(nodes, chain, w, p, Reached(|nodes|, live), r);
    }
    result := if ended != Done then BodyFailed(ended) else if tally.total == 0 then NoNodes else Survivors(ctx.sink);
  }

  lemma NothingBalances()
    ensures Balanced(NOTHING_YET)
  {
  }

  function Book(t: Tally, r: Reason): Tally
  {
    Count(t.(total := 0), Dropped(r)).(total := t.total)
  }

  lemma NothingFiltered(f: Filter, w: World, p: Policy, k: nat)
    ensures Filtered([], f, w, p, k) == []
  {
  }

  lemma CountFacts(t: Tally)
    ensures var one := t.(total := t.total + 1);
            && Count(t, Dropped(GeoBlock)) == one.(geoBlock := one.geoBlock + 1)
            && Count(t, Dropped(Ipv6)) == one.(ipv6 := one.ipv6 + 1)
            && Count(t, Dropped(Dns)) == one.(dns := one.dns + 1)
            && (forall a :: Count(t, Kept(a)) == one.(kept := one.kept + 1))
            && (forall r :: Count(t, Dropped(r)) == Book(one, r))
  {
  }

  lemma BlockedAfter(s: Progress, chain: seq<Filter>, w: World, p: Policy, k: nat, server: string)
    requires w.blocked(server)
    ensures After(s, chain, w, p, k, server) == s.(tally := Count(s.tally, Dropped(GeoBlock)))
  {
  }

  lemma UnblockedAfter(s: Progress, chain: seq<Filter>, w: World, p: Policy, k: nat, server: string)
    requires !w.blocked(server)
    ensures var a, memo := Addresses(s.memo, w, k, server), Remember(s.memo, w, k, server);
            After(s, chain, w, p, k, server) ==
              if a.None? then Progress(memo, Count(s.tally, Dropped(Ipv6)), s.out)
              else if a.value == [] then Progress(memo, Count(s.tally, Dropped(Dns)), s.out)
              else
                var v := Through(chain, w, p, k, a.value);
                Progress(memo, Count(s.tally, v), s.out + if v.Kept? then [(k, v.addr)] else [])
  {
  }

  lemma FilteredStep(before: seq<Ipv4>, f: Filter, w: World, p: Policy, k: nat, i: nat)
    requires i < |before|
    ensures Filtered(before[..i + 1], f, w, p, k) ==
            Filtered(before[..i], f, w, p, k) + if Passes(f, w, p, k, before[i]) then [before[i]] else []
  {
    assert before[..i + 1][..i] == before[..i];
  }

  lemma {:induction false} AllPass(ips: seq<Ipv4>, f: Filter, w: World, p: Policy, k: nat)
    requires forall a :: Passes(f, w, p, k, a)
    ensures Filtered(ips, f, w, p, k) == ips
  {
    if ips != [] {
      AllPass(ips[..|ips| - 1], f, w, p, k);
    }
  }

  // ----- the lines of a body, counted -----

  /** How many of the lines before line `j` are nodes. */
  ghost function NodesBefore(body: seq<Line>, j: nat): nat
    requires j <= |body|
  {
    |set m: nat | m < j && body[m].Node?|
  }

  lemma NodesStep(body: seq<Line>, j: nat)
    requires j < |body|
    ensures NodesBefore(body, j + 1) == NodesBefore(body, j) + if body[j].Node? then 1 else 0
  {
    var before := set m: nat | m < j && body[m].Node?;
    assert (set m: nat | m < j + 1 && body[m].Node?) == before + if body[j].Node? then {j} else {};
  }

  lemma {:induction false} OneMoreLine(body: seq<Line>, line: Line, live: nat)
    ensures Servers(body + [line]) == Servers(body) + if line.Node? then [line.server] else []
    ensures RefusedAhead(body + [line], live) ==
            RefusedAhead(body, live) + if line.Refused? && |Servers(body)| <= live then 1 else 0
  {
    if body != [] {
      assert (body + [line])[1..] == body[1..] + [line];
      OneMoreLine(body[1..], line, live);
      if body[0].Node? && live > 0 {
        OneMoreLine(body[1..], line, live - 1);
      }
    }
  }

  /** The refused lines up to line `n` with at most `live` nodes ahead of them. */
  ghost function RefusedLines(body: seq<Line>, live: nat, n: nat): set<nat>
    requires n <= |body|
  {
    set j: nat | j < n && body[j].Refused? && NodesBefore(body, j) <= live
  }

  /** The servers are the node lines', in order, and the refused lines those that come before the context ends. */
  lemma {:induction false} LinesUpTo(body: seq<Line>, live: nat, n: nat)
    requires n <= |body|
    ensures |Servers(body[..n])| == NodesBefore(body, n) && RefusedAhead(body[..n], live) == |RefusedLines(body, live, n)|
    ensures forall j: nat :: j < n && body[j].Node? ==>
              NodesBefore(body, j) < |Servers(body[..n])| && Servers(body[..n])[NodesBefore(body, j)] == body[j].server
  {
    hide Servers, RefusedAhead, NodesBefore, RefusedLines;
    if n == 0 {
      NothingCountedYet(body, live);
    } else {
      LinesUpTo(body, live, n - 1);
      NodesStep(body, n - 1);
      OneMoreLine(body[..n - 1], body[n - 1], live);
      assert body[..n] == body[..n - 1] + [body[n - 1]];
      RefusedStep(body, live, n - 1);
    }
  }

  lemma NothingCountedYet(body: seq<Line>, live: nat)
    ensures NodesBefore(body, 0) == 0 && |RefusedLines(body, live, 0)| == 0 && body[..0] == []
    ensures Servers([]) == [] && RefusedAhead([], live) == 0
  {
    assert RefusedLines(body, live, 0) == {};
  }

  lemma RefusedStep(body: seq<Line>, live: nat, n: nat)
    requires n < |body|
    ensures |RefusedLines(body, live, n + 1)| ==
            |RefusedLines(body, live, n)| + if body[n].Refused? && NodesBefore(body, n) <= live then 1 else 0
  {
    hide NodesBefore;
    assert RefusedLines(body, live, n + 1) ==
           RefusedLines(body, live, n) + if body[n].Refused? && NodesBefore(body, n) <= live then {n} else {};
  }

  lemma LinesAreServers(body: seq<Line>, live: nat)
    ensures |Servers(body)| == NodesBefore(body, |body|)
    ensures RefusedAhead(body, live) == |set j: nat | j < |body| && body[j].Refused? && NodesBefore(body, j) <= live|
    ensures forall j: nat :: j < |body| && body[j].Node? ==>
              NodesBefore(body, j) < |Servers(body)| && Servers(body)[NodesBefore(body, j)] == body[j].server
  {
    hide Servers, RefusedAhead, NodesBefore;
    LinesUpTo(body, live, |body|);
    assert body[..|body|] == body;
  }

  // ----- what happens to a node, in terms of what was answered for it -----

  /** The filter lets the address through: by its country, by its network's name and country, or by the
      allow-list. */
  ghost predicate MayPass(f: Filter, w: World, p: Policy, k: nat, a: Ipv4)
  {
    match f
    case GeofeedFilter => (p.all || w.country(a) in p.allowed) && w.country(a) !in p.denied
    case AsnFilter(hasResolver, nameDenied) =>
      hasResolver && w.asn(k, a).AsnIs? ==>
        && !(w.asn(k, a).name != "" && nameDenied(w.asn(k, a).name))
        && (p.all || w.asn(k, a).country in p.allowed) && w.asn(k, a).country !in p.denied
    case CidrFilter => w.listed(k, a)
  }

  lemma PassesIsMayPass(f: Filter, w: World, p: Policy, k: nat, a: Ipv4)
    ensures Passes(f, w, p, k, a) <==> MayPass(f, w, p, k, a)
  {
  }

  /** The first `i` filters let the address through. */
  ghost predicate Survives(chain: seq<Filter>, w: World, p: Policy, k: nat, a: Ipv4, i: nat)
    requires i <= |chain|
  {
    forall m :: 0 <= m < i ==> MayPass(chain[m], w, p, k, a)
  }

  /** Filter `i` is the one that leaves nothing. */
  ghost predicate DroppedBy(chain: seq<Filter>, w: World, p: Policy, k: nat, ips: seq<Ipv4>, i: nat)
  {
    && i < |chain| && (exists a :: a in ips && Survives(chain, w, p, k, a, i))
    && forall a :: a in ips && Survives(chain, w, p, k, a, i) ==> !MayPass(chain[i], w, p, k, a)
  }

  /** The address's network has a name that is denied. */
  ghost predicate BadName(f: Filter, w: World, k: nat, a: Ipv4)
  {
    f.AsnFilter? && f.hasResolver && w.asn(k, a).AsnIs? && w.asn(k, a).name != "" && f.nameDenied(w.asn(k, a).name)
  }

  /** What filter `i` books for it: its own kind, and for the network filter the name before the country. */
  ghost predicate ReasonIs(chain: seq<Filter>, w: World, p: Policy, k: nat, ips: seq<Ipv4>, i: nat, r: Reason)
  {
    && i < |chain|
    && match chain[i]
       case GeofeedFilter => r == Geo
       case CidrFilter => r == Cidr
       case AsnFilter(_, _) =>
         r == if exists a :: a in ips && Survives(chain, w, p, k, a, i) && BadName(chain[i], w, k, a) then Asn else Geo
  }

  ghost predicate DropsAt(chain: seq<Filter>, w: World, p: Policy, k: nat, ips: seq<Ipv4>, i: nat, r: Reason)
  {
    DroppedBy(chain, w, p, k, ips, i) && ReasonIs(chain, w, p, k, ips, i, r)
  }

  ghost predicate IsFirstOf(nodes: seq<string>, j: nat, k: nat)
    requires k < |nodes|
  {
    j <= k && nodes[j] == nodes[k] && forall i :: 0 <= i < j ==> nodes[i] != nodes[k]
  }

  /** The addresses of node `k`: its literal, or what the first node of its server was answered. */
  ghost predicate AddressesAre(nodes: seq<string>, w: World, k: nat, ips: Option<seq<Ipv4>>)
    requires k < |nodes|
  {
    match w.literal(nodes[k])
    case V4(a) => ips == Some([a])
    case OtherFamily => ips == None
    case NoLiteral =>
      exists j :: IsFirstOf(nodes, j, k)
                  && ips == Some(if w.resolve(j, nodes[k]).Some? then w.resolve(j, nodes[k]).value else [])
  }

  /** Node `k` is dropped, for this reason. */
  ghost predicate Drops(nodes: seq<string>, chain: seq<Filter>, w: World, p: Policy, k: nat, r: Reason)
    requires k < |nodes|
  {
    if w.blocked(nodes[k]) then r == GeoBlock
    else exists ips :: AddressesAre(nodes, w, k, ips) && DropsWith(chain, w, p, k, ips, r)
  }

  ghost predicate DropsWith(chain: seq<Filter>, w: World, p: Policy, k: nat, ips: Option<seq<Ipv4>>, r: Reason)
  {
    match ips
    case None => r == Ipv6
    case Some(s) => if s == [] then r == Dns else exists i: nat :: DropsAt(chain, w, p, k, s, i, r)
  }

  /** Node `k` is kept at `a`: the first of its addresses that every filter lets through. */
  ghost predicate KeptAt(nodes: seq<string>, chain: seq<Filter>, w: World, p: Policy, k: nat, a: Ipv4)
  {
    && k < |nodes| && !w.blocked(nodes[k])
    && exists ips :: AddressesAre(nodes, w, k, Some(ips)) && IsFirstThrough(chain, w, p, k, ips, a)
  }

  ghost predicate IsFirstThrough(chain: seq<Filter>, w: World, p: Policy, k: nat, ips: seq<Ipv4>, a: Ipv4)
  {
    exists i :: 0 <= i < |ips| && ips[i] == a && Survives(chain, w, p, k, a, |chain|)
                && forall j :: 0 <= j < i ==> !Survives(chain, w, p, k, ips[j], |chain|)
  }

  function Counter(t: Tally, r: Reason): nat
  {
    match r
    case Dns => t.dns
    case Geo => t.geo
    case Asn => t.asn
    case Cidr => t.cidr
    case GeoBlock => t.geoBlock
    case Ipv6 => t.ipv6
  }

  lemma SurvivesTail(chain: seq<Filter>, w: World, p: Policy, k: nat, a: Ipv4, i: nat)
    requires chain != [] && i <= |chain| - 1
    ensures Survives(chain, w, p, k, a, i + 1) <==> MayPass(chain[0], w, p, k, a) && Survives(chain[1..], w, p, k, a, i)
  {
    hide MayPass;
    assert forall m :: 1 <= m < |chain| ==> chain[m] == chain[1..][m - 1];
  }

  lemma LeftIsSurviving(chain: seq<Filter>, w: World, p: Policy, k: nat, ips: seq<Ipv4>, a: Ipv4)
    requires chain != []
    ensures a in Filtered(ips, chain[0], w, p, k) <==> a in ips && MayPass(chain[0], w, p, k, a)
  {
    FilteredMembers(ips, chain[0], w, p, k, a);
    PassesIsMayPass(chain[0], w, p, k, a);
  }

  /** A filter further on sees what the first one left. */
  lemma DroppedFurther(chain: seq<Filter>, w: World, p: Policy, k: nat, ips: seq<Ipv4>, i: nat, r: Reason)
    requires chain != []
    ensures var left := Filtered(ips, chain[0], w, p, k);
            && (DroppedBy(chain[1..], w, p, k, left, i) <==> DroppedBy(chain, w, p, k, ips, i + 1))
            && (DropsAt(chain[1..], w, p, k, left, i, r) <==> DropsAt(chain, w, p, k, ips, i + 1, r))
  {
    hide MayPass, Filtered, Survives, BadName;
    var left := Filtered(ips, chain[0], w, p, k);
    if i < |chain| - 1 {
      assert chain[1..][i] == chain[i + 1];
      forall a
        ensures a in left <==> a in ips && MayPass(chain[0], w, p, k, a)
        ensures Survives(chain, w, p, k, a, i + 1) <==> MayPass(chain[0], w, p, k, a) && Survives(chain[1..], w, p, k, a, i)
      {
        LeftIsSurviving(chain, w, p, k, ips, a);
        SurvivesTail(chain, w, p, k, a, i);
      }
    }
  }

  lemma AllSurviveNone(chain: seq<Filter>, w: World, p: Policy, k: nat, a: Ipv4)
    ensures Survives(chain, w, p, k, a, 0)
  {
  }

  lemma DroppedByFirst(chain: seq<Filter>, w: World, p: Policy, k: nat, ips: seq<Ipv4>)
    requires chain != [] && ips != []
    ensures DroppedBy(chain, w, p, k, ips, 0) <==> Filtered(ips, chain[0], w, p, k) == []
    ensures ReasonIs(chain, w, p, k, ips, 0, ReasonOf(chain[0], w, k, ips)) || !ReasonFits(chain[0])
  {
    hide MayPass, Filtered, Survives;
    var left := Filtered(ips, chain[0], w, p, k);
    assert ips[0] in ips;
    forall a ensures a in left <==> a in ips && MayPass(chain[0], w, p, k, a)
             ensures Survives(chain, w, p, k, a, 0)
    {
      LeftIsSurviving(chain, w, p, k, ips, a);
      AllSurviveNone(chain, w, p, k, a);
    }
    if left != [] {
      assert left[0] in left;
    }
    ReasonOfIs(chain[0], w, k, ips);
  }

  /** The network filter without a resolver drops nothing, so it books nothing. */
  predicate ReasonFits(f: Filter)
  {
    f.AsnFilter? ==> f.hasResolver
  }

  lemma ReasonOfIs(f: Filter, w: World, k: nat, ips: seq<Ipv4>)
    ensures f.GeofeedFilter? ==> ReasonOf(f, w, k, ips) == Geo
    ensures f.CidrFilter? ==> ReasonOf(f, w, k, ips) == Cidr
    ensures f.AsnFilter? ==> ReasonOf(f, w, k, ips) == if exists a :: a in ips && BadName(f, w, k, a) then Asn else Geo
  {
    if f.AsnFilter? {
      if a :| a in ips && BadName(f, w, k, a) {
        var i :| 0 <= i < |ips| && ips[i] == a;
        assert NameRefused(f, w, k, ips[i]);
      }
      if i :| 0 <= i < |ips| && NameRefused(f, w, k, ips[i]) {
        assert BadName(f, w, k, ips[i]);
      }
    }
  }

  /** A dropped node is dropped by some filter, for that filter's reason; a kept one by none. */
  lemma {:induction false} ThroughDrops(chain: seq<Filter>, w: World, p: Policy, k: nat, ips: seq<Ipv4>)
    requires ips != []
    ensures var v := Through(chain, w, p, k, ips);
            && (v.Dropped? ==> exists i: nat :: DropsAt(chain, w, p, k, ips, i, v.reason))
            && (v.Kept? ==> forall i: nat, r :: !DropsAt(chain, w, p, k, ips, i, r))
  {
    hide DropsAt, Filtered, ReasonOf;
    if chain == [] {
      forall i: nat, r ensures !DropsAt(chain, w, p, k, ips, i, r) { NoneDrops(chain, w, p, k, ips, i, r); }
    } else {
      var left := Filtered(ips, chain[0], w, p, k);
      DropsFirst(chain, w, p, k, ips);
      if left != [] {
        ThroughDrops(chain[1..], w, p, k, left);
        forall i: nat, r ensures DropsAt(chain[1..], w, p, k, left, i, r) <==> DropsAt(chain, w, p, k, ips, i + 1, r) {
          DroppedFurther(chain, w, p, k, ips, i, r);
        }
        match Through(chain[1..], w, p, k, left)
        case Dropped(r) =>
          var i: nat :| DropsAt(chain[1..], w, p, k, left, i, r);
          assert DropsAt(chain, w, p, k, ips, i + 1, r);
        case Kept(_) =>
          forall i: nat, r ensures !DropsAt(chain, w, p, k, ips, i, r) {
            if i > 0 {
              assert !DropsAt(chain[1..], w, p, k, left, i - 1, r);
            }
          }
      } else {
        var r := ReasonOf(chain[0], w, k, ips);
        assert Through(chain, w, p, k, ips) == Dropped(r) && DropsAt(chain, w, p, k, ips, 0, r);
      }
    }
  }

  lemma NoneDrops(chain: seq<Filter>, w: World, p: Policy, k: nat, ips: seq<Ipv4>, i: nat, r: Reason)
    requires chain == []
    ensures !DropsAt(chain, w, p, k, ips, i, r)
  {
  }

  lemma DropsFirst(chain: seq<Filter>, w: World, p: Policy, k: nat, ips: seq<Ipv4>)
    requires chain != [] && ips != []
    ensures if Filtered(ips, chain[0], w, p, k) == [] then DropsAt(chain, w, p, k, ips, 0, ReasonOf(chain[0], w, k, ips))
            else forall r :: !DropsAt(chain, w, p, k, ips, 0, r)
  {
    hide DroppedBy, ReasonIs, Filtered, ReasonOf;
    DroppedByFirst(chain, w, p, k, ips);
    if Filtered(ips, chain[0], w, p, k) == [] {
      NoResolverKeeps(chain[0], w, p, k, ips);
    }
  }

  lemma NoResolverKeeps(f: Filter, w: World, p: Policy, k: nat, ips: seq<Ipv4>)
    requires ips != [] && Filtered(ips, f, w, p, k) == []
    ensures ReasonFits(f)
  {
    FilteredMembers(ips, f, w, p, k, ips[0]);
  }

  /** A filter that sees an address has had it let through by those before. */
  lemma NotAlsoEarlier(chain: seq<Filter>, w: World, p: Policy, k: nat, ips: seq<Ipv4>, i: nat, j: nat)
    requires i < j && DroppedBy(chain, w, p, k, ips, j)
    ensures !DroppedBy(chain, w, p, k, ips, i)
  {
    hide MayPass;
    var a :| a in ips && Survives(chain, w, p, k, a, j);
    assert Survives(chain, w, p, k, a, i) && MayPass(chain[i], w, p, k, a);
  }

  /** One filter drops a node, for one reason. */
  lemma DropsOnce(chain: seq<Filter>, w: World, p: Policy, k: nat, ips: seq<Ipv4>, i: nat, j: nat, r: Reason, q: Reason)
    requires DropsAt(chain, w, p, k, ips, i, r)
    ensures DropsAt(chain, w, p, k, ips, j, q) ==> r == q
  {
    hide DroppedBy, Survives, BadName;
    if i < j && DroppedBy(chain, w, p, k, ips, j) {
      NotAlsoEarlier(chain, w, p, k, ips, i, j);
    } else if j < i {
      NotAlsoEarlier(chain, w, p, k, ips, j, i);
    }
  }

  /** What the pipeline resolves a node to are its addresses. */
  lemma AddressesAreThose(nodes: seq<string>, chain: seq<Filter>, w: World, p: Policy, k: nat, ips: Option<seq<Ipv4>>)
    requires k < |nodes| && !w.blocked(nodes[k])
    ensures AddressesAre(nodes, w, k, ips) <==> ips == Addresses(Processed(nodes, chain, w, p, k).memo, w, k, nodes[k])
  {
    hide Processed;
    var server := nodes[k];
    MemoIsFirstAnswer(nodes, chain, w, p, k, server);
    LiteralIsNotAsked(nodes, chain, w, p, k);
    var j := FirstOf(nodes, server, k);
    assert IsFirstOf(nodes, j, k);
    if w.literal(server).NoLiteral? && j < k {
      assert FirstAsk(nodes, w, server, j);
    }
  }

  lemma LiteralIsNotAsked(nodes: seq<string>, chain: seq<Filter>, w: World, p: Policy, k: nat)
    requires k < |nodes|
    ensures !w.literal(nodes[k]).NoLiteral? ==> nodes[k] !in Processed(nodes, chain, w, p, k).memo
  {
    MemoIsFirstAnswer(nodes, chain, w, p, k, nodes[k]);
  }

  ghost function VerdictAt(nodes: seq<string>, chain: seq<Filter>, w: World, p: Policy, k: nat): Verdict
    requires k < |nodes|
  {
    VerdictOf(Processed(nodes, chain, w, p, k).memo, chain, w, p, k, nodes[k])
  }

  /** A node's verdict is a drop exactly when it drops, for that reason. */
  lemma VerdictIsDrops(nodes: seq<string>, chain: seq<Filter>, w: World, p: Policy, k: nat, r: Reason)
    requires k < |nodes|
    ensures VerdictAt(nodes, chain, w, p, k) == Dropped(r) <==> Drops(nodes, chain, w, p, k, r)
  {
    hide Processed, DropsWith, AddressesAre, Addresses, Through;
    if !w.blocked(nodes[k]) {
      var ips := Addresses(Processed(nodes, chain, w, p, k).memo, w, k, nodes[k]);
      NoAddressesDropWith(chain, w, p, k, r);
      forall o ensures AddressesAre(nodes, w, k, o) <==> o == ips { AddressesAreThose(nodes, chain, w, p, k, o); }
      assert Drops(nodes, chain, w, p, k, r) <==> DropsWith(chain, w, p, k, ips, r);
      if ips.Some? && ips.value != [] {
        ThroughIsDropsWith(chain, w, p, k, ips.value, r);
      }
    }
  }

  lemma NoAddressesDropWith(chain: seq<Filter>, w: World, p: Policy, k: nat, r: Reason)
    ensures DropsWith(chain, w, p, k, None, r) <==> r == Ipv6
    ensures DropsWith(chain, w, p, k, Some([]), r) <==> r == Dns
  {
  }

  lemma ThroughIsDropsWith(chain: seq<Filter>, w: World, p: Policy, k: nat, ips: seq<Ipv4>, r: Reason)
    requires ips != []
    ensures Through(chain, w, p, k, ips) == Dropped(r) <==> DropsWith(chain, w, p, k, Some(ips), r)
  {
    hide DropsAt, Through;
    ThroughDrops(chain, w, p, k, ips);
    match Through(chain, w, p, k, ips)
    case Kept(_) =>
    case Dropped(q) =>
      var j: nat :| DropsAt(chain, w, p, k, ips, j, q);
      forall i: nat ensures DropsAt(chain, w, p, k, ips, i, r) ==> r == q {
        DropsOnce(chain, w, p, k, ips, j, i, q, r);
      }
  }

  /** The first `n` nodes' drops for one reason. */
  ghost function DroppedFor(nodes: seq<string>, chain: seq<Filter>, w: World, p: Policy, n: nat, r: Reason): set<nat>
    requires n <= |nodes|
  {
    set k: nat | k < n && Drops(nodes, chain, w, p, k, r)
  }

  /** Each counter is the number of nodes dropped for its reason. */
  lemma {:induction false} TallyCounts(nodes: seq<string>, chain: seq<Filter>, w: World, p: Policy, n: nat, r: Reason)
    requires n <= |nodes|
    ensures Counter(Processed(nodes, chain, w, p, n).tally, r) == |DroppedFor(nodes, chain, w, p, n, r)|
  {
    hide Drops, VerdictOf, Remember, Counter;
    NothingCounted(r);
    if n > 0 {
      var k := n - 1;
      TallyCounts(nodes, chain, w, p, k, r);
      VerdictIsDrops(nodes, chain, w, p, k, r);
      CountsItsReason(Processed(nodes, chain, w, p, k).tally, VerdictAt(nodes, chain, w, p, k), r);
      var before := DroppedFor(nodes, chain, w, p, k, r);
      assert DroppedFor(nodes, chain, w, p, n, r) == before + if Drops(nodes, chain, w, p, k, r) then {k} else {};
    }
  }

  lemma NothingCounted(r: Reason)
    ensures Counter(NOTHING_YET, r) == 0 && NOTHING_YET.total == 0
  {
  }

  lemma CountsItsReason(t: Tally, v: Verdict, r: Reason)
    ensures Counter(Count(t, v), r) == Counter(t, r) + if v == Dropped(r) then 1 else 0
  {
  }

  /** A kept node is kept at the first of its addresses that passes. */
  lemma VerdictIsKeptAt(nodes: seq<string>, chain: seq<Filter>, w: World, p: Policy, k: nat)
    requires k < |nodes| && VerdictAt(nodes, chain, w, p, k).Kept?
    ensures KeptAt(nodes, chain, w, p, k, VerdictAt(nodes, chain, w, p, k).addr)
  {
    hide Processed, AddressesAre, Through, FirstThrough;
    var ips := Addresses(Processed(nodes, chain, w, p, k).memo, w, k, nodes[k]);
    AddressesAreThose(nodes, chain, w, p, k, ips);
    KeptIsFirstThrough(chain, w, p, k, ips.value);
    FirstThroughIs(chain, w, p, k, ips.value, VerdictAt(nodes, chain, w, p, k).addr);
  }

  lemma FirstThroughIs(chain: seq<Filter>, w: World, p: Policy, k: nat, ips: seq<Ipv4>, a: Ipv4)
    requires FirstThrough(chain, w, p, k, ips, a)
    ensures IsFirstThrough(chain, w, p, k, ips, a)
  {
    forall b ensures PassesAll(chain, w, p, k, b) <==> Survives(chain, w, p, k, b, |chain|) {
      forall m | 0 <= m < |chain| ensures Passes(chain[m], w, p, k, b) <==> MayPass(chain[m], w, p, k, b) {
        PassesIsMayPass(chain[m], w, p, k, b);
      }
    }
  }

  ghost predicate Dropping(nodes: seq<string>, chain: seq<Filter>, w: World, p: Policy, k: nat)
    requires k < |nodes|
  {
    exists r :: Drops(nodes, chain, w, p, k, r)
  }

  ghost predicate Survivor(out: seq<(nat, Ipv4)>, k: nat)
  {
    exists e :: e in out && e.0 == k
  }

  /** The survivors are the nodes not dropped, in order, each with the address it is kept at. */
  ghost predicate Emitted(nodes: seq<string>, chain: seq<Filter>, w: World, p: Policy, n: nat, out: seq<(nat, Ipv4)>)
    requires n <= |nodes|
  {
    && (forall e :: e in out ==> e.0 < n && KeptAt(nodes, chain, w, p, e.0, e.1))
    && (forall i, j :: 0 <= i < j < |out| ==> out[i].0 < out[j].0)
    && (forall k: nat :: k < n ==> (Survivor(out, k) <==> !Dropping(nodes, chain, w, p, k)))
  }

  lemma DroppingIsVerdict(nodes: seq<string>, chain: seq<Filter>, w: World, p: Policy, k: nat)
    requires k < |nodes|
    ensures Dropping(nodes, chain, w, p, k) <==> VerdictAt(nodes, chain, w, p, k).Dropped?
  {
    hide VerdictAt, Drops;
    forall r ensures VerdictAt(nodes, chain, w, p, k) == Dropped(r) <==> Drops(nodes, chain, w, p, k, r) {
      VerdictIsDrops(nodes, chain, w, p, k, r);
    }
    var v := VerdictAt(nodes, chain, w, p, k);
    if v.Dropped? {
      assert Drops(nodes, chain, w, p, k, v.reason);
    }
  }

  lemma {:induction false} OutIsEmitted(nodes: seq<string>, chain: seq<Filter>, w: World, p: Policy, n: nat)
    requires n <= |nodes|
    ensures Emitted(nodes, chain, w, p, n, Processed(nodes, chain, w, p, n).out)
  {
    hide KeptAt, Dropping, Processed, VerdictAt;
    if n == 0 {
      NothingEmitted(nodes, chain, w, p);
    } else {
      var k := n - 1;
      OutIsEmitted(nodes, chain, w, p, k);
      OutGrows(nodes, chain, w, p, k);
      DroppingIsVerdict(nodes, chain, w, p, k);
      var v, before := VerdictAt(nodes, chain, w, p, k), Processed(nodes, chain, w, p, k).out;
      if v.Kept? {
        VerdictIsKeptAt(nodes, chain, w, p, k);
      }
      EmittedGrows(nodes, chain, w, p, k, before, v);
    }
  }

  lemma NothingEmitted(nodes: seq<string>, chain: seq<Filter>, w: World, p: Policy)
    ensures Emitted(nodes, chain, w, p, 0, Processed(nodes, chain, w, p, 0).out)
  {
  }

  lemma OutGrows(nodes: seq<string>, chain: seq<Filter>, w: World, p: Policy, k: nat)
    requires k < |nodes|
    ensures var v := VerdictAt(nodes, chain, w, p, k);
            Processed(nodes, chain, w, p, k + 1).out == Processed(nodes, chain, w, p, k).out + if v.Kept? then [(k, v.addr)] else []
  {
    hide VerdictOf, Remember, Count;
  }

  lemma EmittedGrows(nodes: seq<string>, chain: seq<Filter>, w: World, p: Policy, k: nat, before: seq<(nat, Ipv4)>, v: Verdict)
    requires k < |nodes| && Emitted(nodes, chain, w, p, k, before)
    requires if v.Kept? then KeptAt(nodes, chain, w, p, k, v.addr) && !Dropping(nodes, chain, w, p, k)
             else Dropping(nodes, chain, w, p, k)
    ensures Emitted(nodes, chain, w, p, k + 1, before + if v.Kept? then [(k, v.addr)] else [])
  {
    hide KeptAt, Dropping;
    if v.Kept? {
      var out := before + [(k, v.addr)];
      assert forall e :: e in out <==> e in before || e == (k, v.addr);
      assert (k, v.addr) in out;
      forall m: nat | m < k ensures Survivor(out, m) <==> Survivor(before, m) {}
    } else {
      assert before + [] == before;
    }
  }
}
