/** internal/stable/merge.go: the first-wins merge of all sources, its key arena and its growth. */
module Merge {
  import opened Basics
  import opened Labels
  import Decimals

  const KEY_ARENA_BLOCK := 1024
  const MERGE_RESERVE_BUDGET := 4096

  // ----- inputs -----

  datatype Scheme = Vmess | Ssr | Fragmented

  /** A parsed node line; `fragment` is where its URI fragment starts, if it has one. */
  datatype Node = Node(raw: string, server: string, port: string, scheme: Scheme, fragment: int)

  datatype NodeResult = NodeResult(raw: string, ip: Ipv4)

  datatype SourceBody = SourceBody(name: string, nodes: seq<NodeResult>)

  /** The subscription package: parsing, placeholder detection and the payload rewriters; and
      strings.ToLower for servers outside ASCII. */
  datatype Ops = Ops(
    parse: string -> Option<Node>,
    placeholder: (string, string) -> bool,
    rewriteVmess: (string, string) -> Option<string>,
    rewriteVmessAead: (string, string) -> Option<string>,
    rewriteSsr: (string, string) -> Option<string>,
    toLower: string -> string)

  predicate Ascii(s: string) { forall i :: 0 <= i < |s| ==> s[i] as int < 128 }

  function LowerChar(c: char): char
  {
    if 'A' <= c <= 'Z' then (c as int + 32) as char else c
  }

  function LowerAscii(s: string): (r: string)
    ensures |r| == |s|
  {
    seq(|s|, i requires 0 <= i < |s| => LowerChar(s[i]))
  }

  /** The dedupe key: the lowercased `server:port`. */
  function KeyOf(ops: Ops, server: string, port: string): string
  {
    (if Ascii(server) then LowerAscii(server) else ops.toLower(server)) + ":" + port
  }

  /** `t` is the server in lower case: letter by letter when it is all ASCII, and otherwise as
      strings.ToLower has it. */
  ghost predicate FoldsTo(ops: Ops, server: string, t: string)
  {
    if forall i :: 0 <= i < |server| ==> server[i] as int < 128 then
      && |t| == |server|
      && forall i :: 0 <= i < |server| ==>
           t[i] == if 'A' <= server[i] <= 'Z' then server[i] - 'A' + 'a' else server[i]
    else t == ops.toLower(server)
  }

  lemma KeyFolds(ops: Ops, server: string, port: string) returns (t: string)
    ensures FoldsTo(ops, server, t) && KeyOf(ops, server, port) == t + ":" + port
    ensures forall u :: FoldsTo(ops, server, u) ==> u == t
  {
    t := if Ascii(server) then LowerAscii(server) else ops.toLower(server);
    forall u | FoldsTo(ops, server, u) ensures u == t {
    }
  }

  method LowerServerPort(ops: Ops, server: string, port: string) returns (dst: string, ghost folded: string)
    ensures dst == KeyOf(ops, server, port)
    ensures FoldsTo(ops, server, folded) && dst == folded + ":" + port
  {
    folded := KeyFolds(ops, server, port);
    dst := "";
    var i := 0;
    while i < |server|
      invariant i <= |server| && Ascii(server[..i]) && dst == LowerAscii(server[..i])
    {
      var c := server[i];
      if c as int >= 128 {
        dst := ops.toLower(server);
        break;
      }
      if 'A' <= c <= 'Z' {
        c := (c as int + 32) as char;
      }
      assert server[..i + 1] == server[..i] + [server[i]];
      assert LowerAscii(server[..i + 1]) == LowerAscii(server[..i]) + [LowerChar(server[i])];
      dst := dst + [c];
      i := i + 1;
    }
    assert i == |server| ==> server[..i] == server;
    dst := dst + ":" + port;
  }

  function Bare(n: Node): string
  {
    if 0 <= n.fragment <= |n.raw| then n.raw[..n.fragment] else n.raw
  }

  /** The relabelled line, if the node's scheme can carry the label. */
  function Relabelled(ops: Ops, n: Node, tag: string): Option<string>
  {
    match n.scheme
    case Vmess =>
      if ops.rewriteVmess(n.raw, tag).Some? then ops.rewriteVmess(n.raw, tag) else ops.rewriteVmessAead(n.raw, tag)
    case Ssr => ops.rewriteSsr(n.raw, tag)
    case Fragmented => Some(Bare(n) + "#" + tag)
  }

  // ----- the merge, on values -----

  /** One node of the flattened input: which source holds it, and what it is. */
  datatype Item = Item(source: nat, name: string, raw: string, ip: Ipv4)

  /** One kept node: which item it was, and what is published for it. */
  datatype Row = Row(index: nat, source: nat, tag: string, raw: string, addr: string, ip: Ipv4)

  function ItemsOf(body: SourceBody, s: nat): (items: seq<Item>)
    ensures |items| == |body.nodes|
  {
    seq(|body.nodes|, i requires 0 <= i < |body.nodes| => Item(s, body.name, body.nodes[i].raw, body.nodes[i].ip))
  }

  function Flatten(bodies: seq<SourceBody>): seq<Item>
  {
    if bodies == [] then []
    else Flatten(bodies[..|bodies| - 1]) + ItemsOf(bodies[|bodies| - 1], |bodies| - 1)
  }

  /** How many rows a source has. */
  function CountOf(rows: seq<Row>, s: nat): nat
  {
    if rows == [] then 0
    else CountOf(rows[..|rows| - 1], s) + if rows[|rows| - 1].source == s then 1 else 0
  }

  function Addrs(rows: seq<Row>): set<string>
  {
    set r | r in rows :: r.addr
  }

  predicate Usable(ops: Ops, item: Item)
  {
    ops.parse(item.raw).Some? && !ops.placeholder(ops.parse(item.raw).value.raw, ops.parse(item.raw).value.server)
  }

  function ItemKey(ops: Ops, item: Item): string
    requires Usable(ops, item)
  {
    KeyOf(ops, ops.parse(item.raw).value.server, ops.parse(item.raw).value.port)
  }

  /** One more node: kept if it is usable, new, and can carry the source's next label. */
  function Take(ops: Ops, rows: seq<Row>, item: Item, index: nat): seq<Row>
  {
    if !Usable(ops, item) || ItemKey(ops, item) in Addrs(rows) then rows
    else
      var tag := Label(item.name, CountOf(rows, item.source) + 1);
      var raw := Relabelled(ops, ops.parse(item.raw).value, tag);
      if raw.None? then rows
      else rows + [Row(index, item.source, tag, raw.value, ItemKey(ops, item), item.ip)]
  }

  function Rows(ops: Ops, items: seq<Item>, n: nat): seq<Row>
    requires n <= |items|
  {
    if n == 0 then [] else Take(ops, Rows(ops, items, n - 1), items[n - 1], n - 1)
  }

  // ----- what that means -----

  /** A rewriter's success does not depend on the label it is handed. */
  ghost predicate LabelBlind(ops: Ops)
  {
    forall n, a, b {:trigger Relabelled(ops, n, a), Relabelled(ops, n, b)} ::
      Relabelled(ops, n, a).Some? <==> Relabelled(ops, n, b).Some?
  }

  /** The nodes the merge is about: they parse, are no placeholder, and can be relabelled. */
  predicate Eligible(ops: Ops, item: Item)
  {
    Usable(ops, item) && Relabelled(ops, ops.parse(item.raw).value, "").Some?
  }

  /** The first eligible node with its key. */
  ghost predicate Wins(ops: Ops, items: seq<Item>, i: nat)
  {
    && i < |items| && Eligible(ops, items[i])
    && forall j :: 0 <= j < i && Eligible(ops, items[j]) ==> ItemKey(ops, items[j]) != ItemKey(ops, items[i])
  }

  /** The winners of one source among the first `n` items. */
  ghost function WinnersOf(ops: Ops, items: seq<Item>, n: nat, s: nat): set<nat>
    requires n <= |items|
  {
    set i: nat | i < n && Wins(ops, items, i) && items[i].source == s
  }

  /** What the naive merge publishes for a winner: its source's name with the count of the source's
      winners so far, its line under that label, and its key. */
  ghost predicate IsRowOf(ops: Ops, items: seq<Item>, r: Row)
  {
    && r.index < |items| && Wins(ops, items, r.index) && r.source == items[r.index].source
    && r.tag == Label(items[r.index].name, |WinnersOf(ops, items, r.index, r.source)| + 1)
    && Relabelled(ops, ops.parse(items[r.index].raw).value, r.tag) == Some(r.raw)
    && r.addr == ItemKey(ops, items[r.index]) && r.ip == items[r.index].ip
  }

  ghost predicate HasRow(rows: seq<Row>, i: nat)
  {
    exists m :: 0 <= m < |rows| && rows[m].index == i
  }

  /** The rows are the winners' rows, in input order, each once. */
  ghost predicate IsMerge(ops: Ops, items: seq<Item>, rows: seq<Row>, n: nat)
    requires n <= |items|
  {
    && (forall m :: 0 <= m < |rows| ==> IsRowOf(ops, items, rows[m]) && rows[m].index < n)
    && (forall m, k :: 0 <= m < k < |rows| ==> rows[m].index < rows[k].index)
    && (forall i: nat :: i < n && Wins(ops, items, i) ==> HasRow(rows, i))
  }

  /** The keys already taken are exactly the keys of the eligible nodes seen. */
  lemma TakenKeys(ops: Ops, items: seq<Item>, rows: seq<Row>, n: nat)
    requires n < |items| && IsMerge(ops, items, rows, n) && Eligible(ops, items[n])
    ensures ItemKey(ops, items[n]) !in Addrs(rows) <==> Wins(ops, items, n)
  {
    if !Wins(ops, items, n) {
      var j: nat :| j < n && Eligible(ops, items[j]) && ItemKey(ops, items[j]) == ItemKey(ops, items[n]);
      var w := FirstWith(ops, items, j);
      assert HasRow(rows, w);
      var m :| 0 <= m < |rows| && rows[m].index == w;
      assert rows[m] in rows && IsRowOf(ops, items, rows[m]);
    }
    if ItemKey(ops, items[n]) in Addrs(rows) {
      var r :| r in rows && r.addr == ItemKey(ops, items[n]);
      var m :| 0 <= m < |rows| && rows[m] == r;
      assert IsRowOf(ops, items, rows[m]);
    }
  }

  lemma {:induction false} FirstWith(ops: Ops, items: seq<Item>, j: nat) returns (w: nat)
    requires j < |items| && Eligible(ops, items[j])
    ensures w <= j && Wins(ops, items, w) && ItemKey(ops, items[w]) == ItemKey(ops, items[j])
  {
    if Wins(ops, items, j) {
      w := j;
    } else {
      var i: nat :| i < j && Eligible(ops, items[i]) && ItemKey(ops, items[i]) == ItemKey(ops, items[j]);
      w := FirstWith(ops, items, i);
    }
  }

  lemma {:induction false} CountIsWinners(ops: Ops, items: seq<Item>, rows: seq<Row>, n: nat, s: nat)
    requires n <= |items| && IsMerge(ops, items, rows, n)
    ensures CountOf(rows, s) == |WinnersOf(ops, items, n, s)|
    decreases |rows|
  {
    forall i: nat | i in WinnersOf(ops, items, n, s) ensures HasRow(rows, i) {
    }
    if rows == [] {
      assert WinnersOf(ops, items, n, s) == {};
    } else {
      var last, front := rows[|rows| - 1], rows[..|rows| - 1];
      FrontIsMerge(ops, items, rows, n);
      CountIsWinners(ops, items, front, last.index, s);
      WinnersUpTo(ops, items, rows, n, s);
    }
  }

  lemma RowWins(ops: Ops, items: seq<Item>, r: Row)
    requires IsRowOf(ops, items, r)
    ensures r.index < |items| && Wins(ops, items, r.index) && r.source == items[r.index].source
  {
  }

  /** Past the last row's item there is no further winner. */
  lemma WinnersUpTo(ops: Ops, items: seq<Item>, rows: seq<Row>, n: nat, s: nat)
    requires n <= |items| && rows != [] && IsMerge(ops, items, rows, n)
    ensures var last := rows[|rows| - 1];
            last.index < n && last.index !in WinnersOf(ops, items, last.index, s)
            && WinnersOf(ops, items, n, s) == WinnersOf(ops, items, last.index, s) + if last.source == s then {last.index} else {}
  {
    hide Wins, IsRowOf;
    var last := rows[|rows| - 1];
    RowWins(ops, items, last);
    forall i: nat ensures i in WinnersOf(ops, items, n, s) <==>
      i in WinnersOf(ops, items, last.index, s) || (i == last.index && last.source == s)
    {
      if i in WinnersOf(ops, items, n, s) {
        assert HasRow(rows, i);
        var m :| 0 <= m < |rows| && rows[m].index == i;
      }
    }
  }

  lemma FrontIsMerge(ops: Ops, items: seq<Item>, rows: seq<Row>, n: nat)
    requires n <= |items| && rows != [] && IsMerge(ops, items, rows, n)
    ensures rows[|rows| - 1].index <= |items|
    ensures IsMerge(ops, items, rows[..|rows| - 1], rows[|rows| - 1].index)
  {
    hide Wins, IsRowOf;
    var k, front := rows[|rows| - 1].index, rows[..|rows| - 1];
    forall i: nat | i < k && Wins(ops, items, i) ensures HasRow(front, i) {
      assert HasRow(rows, i);
      var m :| 0 <= m < |rows| && rows[m].index == i;
      assert front[m].index == i;
    }
  }

  lemma EligibleWith(ops: Ops, item: Item, tag: string)
    requires LabelBlind(ops)
    ensures Eligible(ops, item) <==> Usable(ops, item) && Relabelled(ops, ops.parse(item.raw).value, tag).Some?
  {
  }

  lemma LosesUnlessEligible(ops: Ops, items: seq<Item>, n: nat)
    requires n < |items| && !Eligible(ops, items[n])
    ensures !Wins(ops, items, n)
  {
  }

  lemma RejectKeepsMerge(ops: Ops, items: seq<Item>, rows: seq<Row>, n: nat)
    requires n < |items| && IsMerge(ops, items, rows, n) && !Wins(ops, items, n)
    ensures IsMerge(ops, items, rows, n + 1)
  {
    hide Wins, IsRowOf, HasRow;
  }

  lemma AcceptKeepsMerge(ops: Ops, items: seq<Item>, rows: seq<Row>, n: nat, r: Row)
    requires n < |items| && IsMerge(ops, items, rows, n) && IsRowOf(ops, items, r) && r.index == n
    ensures IsMerge(ops, items, rows + [r], n + 1)
  {
    hide Wins, IsRowOf;
    forall i: nat | i <= n && Wins(ops, items, i) ensures HasRow(rows + [r], i) {
      if i < n {
        assert HasRow(rows, i);
        var m :| 0 <= m < |rows| && rows[m].index == i;
        assert (rows + [r])[m].index == i;
      } else {
        assert (rows + [r])[|rows|].index == i;
      }
    }
  }

  lemma TakeKeepsMerge(ops: Ops, items: seq<Item>, rows: seq<Row>, n: nat)
    requires n < |items| && IsMerge(ops, items, rows, n) && LabelBlind(ops)
    ensures IsMerge(ops, items, Take(ops, rows, items[n], n), n + 1)
  {
    hide IsMerge, Wins, CountOf, WinnersOf, Eligible;
    var item := items[n];
    CountIsWinners(ops, items, rows, n, item.source);
    EligibleWith(ops, item, Label(item.name, CountOf(rows, item.source) + 1));
    if !Eligible(ops, item) {
      LosesUnlessEligible(ops, items, n);
      RejectKeepsMerge(ops, items, rows, n);
    } else {
      TakenKeys(ops, items, rows, n);
      if Wins(ops, items, n) {
        AcceptKeepsMerge(ops, items, rows, n, Take(ops, rows, item, n)[|rows|]);
      } else {
        RejectKeepsMerge(ops, items, rows, n);
      }
    }
  }

  /** The merge is the naive first-wins dedupe: over the nodes that parse, are no placeholder and can be
      relabelled, the first with each key is kept, under the next number of its source. */
  lemma {:induction false} MergeIsFirstWins(ops: Ops, items: seq<Item>, n: nat)
    requires n <= |items| && LabelBlind(ops)
    ensures IsMerge(ops, items, Rows(ops, items, n), n)
  {
    hide Take, LabelBlind, Wins;
    if n > 0 {
      MergeIsFirstWins(ops, items, n - 1);
      hide IsMerge;
      TakeKeepsMerge(ops, items, Rows(ops, items, n - 1), n - 1);
    }
  }

  // ----- the merge in terms of the nodes -----

  /** The same port, and the same server once the case is folded. */
  ghost predicate SameEndpoint(ops: Ops, a: Node, b: Node)
  {
    a.port == b.port && exists t :: FoldsTo(ops, a.server, t) && FoldsTo(ops, b.server, t)
  }

  /** The two spellings of one letter, or the same character. */
  predicate SameLetter(c: char, d: char)
  {
    c == d || ('A' <= c <= 'Z' && d == c - 'A' + 'a') || ('A' <= d <= 'Z' && c == d - 'A' + 'a')
  }

  lemma ColonSlices(a: string, p: string)
    ensures var x := a + ":" + p;
            |x| == |a| + 1 + |p| && x[..|a|] == a && x[|a|] == ':' && x[|a| + 1..] == p
  {
  }

  lemma LastIs(x: string, n: nat)
    requires n < |x| && x[n] == ':' && ':' !in x[n + 1..]
    ensures LastIndex(x, ':') == n
  {
    hide LastIndex;
    forall j | n < j < |x| ensures x[j] != ':' {
      assert x[j] == x[n + 1..][j - n - 1];
    }
  }

  lemma ColonAt(a: string, p: string)
    requires ':' !in p
    ensures var x := a + ":" + p;
            LastIndex(x, ':') == |a| && |x| == |a| + 1 + |p| && x[..|a|] == a && x[|a| + 1..] == p
  {
    hide LastIndex;
    ColonSlices(a, p);
    LastIs(a + ":" + p, |a|);
  }

  lemma LastColon(a: string, p: string, b: string, q: string)
    requires a + ":" + p == b + ":" + q && ':' !in p && ':' !in q
    ensures a == b && p == q
  {
    ColonAt(a, p);
    ColonAt(b, q);
  }

  /** Two nodes share a key exactly when they are one endpoint. */
  lemma KeysMeetAtEndpoints(ops: Ops, a: Node, b: Node)
    requires ':' !in a.port && ':' !in b.port
    ensures KeyOf(ops, a.server, a.port) == KeyOf(ops, b.server, b.port) <==> SameEndpoint(ops, a, b)
  {
    hide KeyOf, FoldsTo;
    var t := KeyFolds(ops, a.server, a.port);
    var u := KeyFolds(ops, b.server, b.port);
    if t + ":" + a.port == u + ":" + b.port {
      LastColon(t, a.port, u, b.port);
    }
  }

  /** ASCII servers are one server exactly when they agree letter by letter but for case. */
  lemma AsciiServersMeet(ops: Ops, a: string, b: string)
    requires forall i :: 0 <= i < |a| ==> a[i] as int < 128
    requires forall i :: 0 <= i < |b| ==> b[i] as int < 128
    ensures (exists t :: FoldsTo(ops, a, t) && FoldsTo(ops, b, t)) <==>
            |a| == |b| && forall i :: 0 <= i < |a| ==> SameLetter(a[i], b[i])
  {
    var t := KeyFolds(ops, a, "");
    var u := KeyFolds(ops, b, "");
    if |a| == |b| && forall i :: 0 <= i < |a| ==> SameLetter(a[i], b[i]) {
      assert t == u;
    }
    if t == u {
      forall i | 0 <= i < |a| ensures SameLetter(a[i], b[i]) {
        assert t[i] == u[i];
      }
    }
  }

  /** The node can be published: it parses, is no placeholder, and its scheme can carry a label. */
  ghost predicate Publishable(ops: Ops, item: Item)
  {
    && ops.parse(item.raw).Some?
    && var n := ops.parse(item.raw).value;
       && !ops.placeholder(n.raw, n.server)
       && match n.scheme
          case Vmess => ops.rewriteVmess(n.raw, "").Some? || ops.rewriteVmessAead(n.raw, "").Some?
          case Ssr => ops.rewriteSsr(n.raw, "").Some?
          case Fragmented => true
  }

  lemma PublishableIsEligible(ops: Ops, item: Item)
    ensures Eligible(ops, item) <==> Publishable(ops, item)
  {
  }

  /** `raw` is the node's line under the label: rewritten by its scheme, or cut at its fragment and given
      the label for one. */
  ghost predicate LineOf(ops: Ops, n: Node, tag: string, raw: string)
  {
    match n.scheme
    case Vmess => if ops.rewriteVmess(n.raw, tag).Some? then raw == ops.rewriteVmess(n.raw, tag).value
                  else ops.rewriteVmessAead(n.raw, tag) == Some(raw)
    case Ssr => ops.rewriteSsr(n.raw, tag) == Some(raw)
    case Fragmented =>
      if 0 <= n.fragment <= |n.raw| then raw == n.raw[..n.fragment] + "#" + tag else raw == n.raw + "#" + tag
  }

  /** The label: the source's name, a dash, and the ordinal in three digits or more. */
  ghost predicate LabelOf(name: string, ordinal: nat, tag: string)
  {
    exists d :: tag == name + "-" + d && |d| >= 3 && Digits(d) && Decimals.Spelled(d) == ordinal
  }

  ghost predicate Digits(d: string)
  {
    forall i :: 0 <= i < |d| ==> '0' <= d[i] <= '9'
  }

  /** Row `m` publishes its node: under the next number of its source, at its endpoint. */
  ghost predicate RowIsRight(ops: Ops, items: seq<Item>, rows: seq<Row>, m: nat)
    requires m < |rows|
  {
    var row := rows[m];
    && row.index < |items| && Publishable(ops, items[row.index])
    && var item := items[row.index];
       var n := ops.parse(item.raw).value;
       && row.source == item.source && row.ip == item.ip && LineOf(ops, n, row.tag, row.raw)
       && LabelOf(item.name, |set k: nat | k < m && rows[k].source == row.source| + 1, row.tag)
       && exists t :: FoldsTo(ops, n.server, t) && row.addr == t + ":" + n.port
  }

  /** Whose node a row publishes is the first publishable one at its endpoint, and every endpoint that has
      one is published. */
  ghost predicate FirstWins(ops: Ops, items: seq<Item>, rows: seq<Row>)
  {
    && (forall m :: 0 <= m < |rows| ==> RowIsRight(ops, items, rows, m))
    && (forall m, k :: 0 <= m < k < |rows| ==> rows[m].index < rows[k].index)
    && (forall i: nat :: i < |items| && Publishable(ops, items[i]) ==>
          (HasRow(rows, i) <==> forall j :: 0 <= j < i && Publishable(ops, items[j]) ==> !Meet(ops, items[j], items[i])))
  }

  ghost predicate Meet(ops: Ops, a: Item, b: Item)
    requires Publishable(ops, a) && Publishable(ops, b)
  {
    SameEndpoint(ops, ops.parse(a.raw).value, ops.parse(b.raw).value)
  }

  ghost predicate PortsArePlain(ops: Ops, items: seq<Item>)
  {
    forall i :: 0 <= i < |items| && ops.parse(items[i].raw).Some? ==> ':' !in ops.parse(items[i].raw).value.port
  }

  lemma {:induction false} CountIsSet(rows: seq<Row>, s: nat)
    ensures CountOf(rows, s) == |set k: nat | k < |rows| && rows[k].source == s|
  {
    if rows != [] {
      var n := |rows| - 1;
      CountIsSet(rows[..n], s);
      var front := set k: nat | k < n && rows[..n][k].source == s;
      var all := set k: nat | k < |rows| && rows[k].source == s;
      assert all == front + if rows[n].source == s then {n} else {};
    }
  }

  lemma LabelIsSpelled(name: string, ordinal: nat)
    ensures LabelOf(name, ordinal, Label(name, ordinal))
  {
    Pad3IsDigits(ordinal);
    var d := Pad3(ordinal);
    assert Label(name, ordinal) == name + "-" + d && Digits(d);
  }

  lemma LineIsRelabelled(ops: Ops, n: Node, tag: string, raw: string)
    requires Relabelled(ops, n, tag) == Some(raw)
    ensures LineOf(ops, n, tag, raw)
  {
  }

  lemma RowLabel(items: seq<Item>, rows: seq<Row>, m: nat)
    requires m < |rows| && Numbered(items, rows, m)
    ensures var row := rows[m];
            row.index < |items| && LabelOf(items[row.index].name, |set k: nat | k < m && rows[k].source == row.source| + 1, row.tag)
  {
    hide LabelOf;
    var row := rows[m];
    CountIsSet(rows[..m], row.source);
    assert (set k: nat | k < m && rows[k].source == row.source) == set k: nat | k < m && rows[..m][k].source == row.source;
    LabelIsSpelled(items[row.index].name, CountOf(rows[..m], row.source) + 1);
  }

  lemma RowAddr(ops: Ops, item: Item, addr: string)
    requires Usable(ops, item) && addr == ItemKey(ops, item)
    ensures exists t :: FoldsTo(ops, ops.parse(item.raw).value.server, t) && addr == t + ":" + ops.parse(item.raw).value.port
  {
    hide KeyOf, FoldsTo;
    var n := ops.parse(item.raw).value;
    var t := KeyFolds(ops, n.server, n.port);
  }

  lemma RowsAreRight(ops: Ops, items: seq<Item>, rows: seq<Row>, m: nat)
    requires IsMerge(ops, items, rows, |items|) && rows == Rows(ops, items, |items|) && m < |rows|
    ensures RowIsRight(ops, items, rows, m)
  {
    RowsAreNumbered(ops, items, |items|);
    hide Rows, Wins, IsMerge, FoldsTo, KeyOf, LabelOf, Numbered, LineOf, Relabelled, Publishable;
    var row := rows[m];
    RowMeans(ops, items, rows, m);
    var item := items[row.index];
    PublishableIsEligible(ops, item);
    RowLabel(items, rows, m);
    LineIsRelabelled(ops, ops.parse(item.raw).value, row.tag, row.raw);
    RowAddr(ops, item, row.addr);
    assert ops.parse(item.raw).Some?;
  }

  lemma RowMeans(ops: Ops, items: seq<Item>, rows: seq<Row>, m: nat)
    requires IsMerge(ops, items, rows, |items|) && m < |rows|
    ensures var row := rows[m];
            && row.index < |items| && Eligible(ops, items[row.index])
            && row.source == items[row.index].source && row.ip == items[row.index].ip
            && Relabelled(ops, ops.parse(items[row.index].raw).value, row.tag) == Some(row.raw)
            && row.addr == ItemKey(ops, items[row.index])
  {
    assert IsRowOf(ops, items, rows[m]);
  }

  lemma WinsIffFirst(ops: Ops, items: seq<Item>, i: nat)
    requires PortsArePlain(ops, items) && i < |items| && Publishable(ops, items[i])
    ensures Wins(ops, items, i) <==> forall j :: 0 <= j < i && Publishable(ops, items[j]) ==> !Meet(ops, items[j], items[i])
  {
    hide KeyOf, SameEndpoint;
    PublishableIsEligible(ops, items[i]);
    forall j | 0 <= j < i
      ensures Publishable(ops, items[j]) <==> Eligible(ops, items[j])
      ensures Publishable(ops, items[j]) ==> (Meet(ops, items[j], items[i]) <==> ItemKey(ops, items[j]) == ItemKey(ops, items[i]))
    {
      PublishableIsEligible(ops, items[j]);
      if Publishable(ops, items[j]) {
        KeysMeetAtEndpoints(ops, ops.parse(items[j].raw).value, ops.parse(items[i].raw).value);
      }
    }
  }

  lemma RowsAreFirstWins(ops: Ops, items: seq<Item>)
    requires LabelBlind(ops) && PortsArePlain(ops, items)
    ensures FirstWins(ops, items, Rows(ops, items, |items|))
  {
    MergeIsFirstWins(ops, items, |items|);
    var rows := Rows(ops, items, |items|);
    hide Rows, Wins, RowIsRight, Publishable, LabelBlind, PortsArePlain, Meet;
    forall m | 0 <= m < |rows| ensures RowIsRight(ops, items, rows, m) {
      RowsAreRight(ops, items, rows, m);
    }
    forall i: nat | i < |items| && Publishable(ops, items[i])
      ensures HasRow(rows, i) <==> forall j :: 0 <= j < i && Publishable(ops, items[j]) ==> !Meet(ops, items[j], items[i])
    {
      WinsIffFirst(ops, items, i);
      RowIffWins(ops, items, rows, i);
    }
  }

  lemma RowIffWins(ops: Ops, items: seq<Item>, rows: seq<Row>, i: nat)
    requires IsMerge(ops, items, rows, |items|) && i < |items|
    ensures HasRow(rows, i) <==> Wins(ops, items, i)
  {
    hide Wins;
    if HasRow(rows, i) {
      var m :| 0 <= m < |rows| && rows[m].index == i;
      assert IsRowOf(ops, items, rows[m]);
    }
  }

  // ----- labels and keys of a merge -----

  /** Every published key is published once. */
  lemma {:induction false} KeysAreDistinct(ops: Ops, items: seq<Item>, n: nat)
    requires n <= |items|
    ensures forall m, k :: 0 <= m < k < |Rows(ops, items, n)| ==> Rows(ops, items, n)[m].addr != Rows(ops, items, n)[k].addr
  {
    if n > 0 {
      KeysAreDistinct(ops, items, n - 1);
      var before := Rows(ops, items, n - 1);
      assert forall m :: 0 <= m < |before| ==> before[m] in before;
    }
  }

  /** What a row's label is made of, whoever the rewriters are. */
  ghost predicate Numbered(items: seq<Item>, rows: seq<Row>, m: nat)
    requires m < |rows|
  {
    && rows[m].index < |items| && rows[m].source == items[rows[m].index].source
    && rows[m].tag == Label(items[rows[m].index].name, CountOf(rows[..m], rows[m].source) + 1)
  }

  /** A row taken on top of `rows` is numbered after them. */
  lemma TakeNumbers(ops: Ops, items: seq<Item>, rows: seq<Row>, index: nat)
    requires index < |items|
    ensures var after := Take(ops, rows, items[index], index);
            rows <= after && |after| <= |rows| + 1 && (|after| > |rows| ==> Numbered(items, after, |rows|))
  {
    hide CountOf, Usable, ItemKey, Addrs, Relabelled;
  }

  lemma {:induction false} RowsAreNumbered(ops: Ops, items: seq<Item>, n: nat)
    requires n <= |items|
    ensures forall m :: 0 <= m < |Rows(ops, items, n)| ==> Numbered(items, Rows(ops, items, n), m)
  {
    if n > 0 {
      RowsAreNumbered(ops, items, n - 1);
      var before, after := Rows(ops, items, n - 1), Rows(ops, items, n);
      TakeNumbers(ops, items, before, n - 1);
      forall m | 0 <= m < |before| && before <= after ensures Numbered(items, after, m) {
        assert Numbered(items, before, m);
        assert after[..m] == before[..m];
      }
    }
  }

  lemma {:induction false} CountGrows(rows: seq<Row>, m: nat, k: nat, s: nat)
    requires m < k <= |rows| && rows[m].source == s
    ensures CountOf(rows[..m], s) < CountOf(rows[..k], s)
  {
    assert rows[..k][..k - 1] == rows[..k - 1];
    if m < k - 1 {
      CountGrows(rows, m, k - 1, s);
    }
  }

  /** Distinct source names, one per source. */
  ghost predicate NamesDistinct(items: seq<Item>)
  {
    forall i, j :: 0 <= i < |items| && 0 <= j < |items| && items[i].name == items[j].name ==> items[i].source == items[j].source
  }

  /** With distinct source names every label is given once, so a probe's result names one entry. */
  lemma LabelsAreDistinct(ops: Ops, items: seq<Item>, n: nat, m: nat, k: nat)
    requires n <= |items| && NamesDistinct(items) && m < k < |Rows(ops, items, n)|
    ensures Rows(ops, items, n)[m].tag != Rows(ops, items, n)[k].tag
  {
    var rows := Rows(ops, items, n);
    RowsAreNumbered(ops, items, n);
    assert Numbered(items, rows, m) && Numbered(items, rows, k);
    if rows[m].tag == rows[k].tag {
      LabelIsInjective(items[rows[m].index].name, CountOf(rows[..m], rows[m].source) + 1,
                       items[rows[k].index].name, CountOf(rows[..k], rows[k].source) + 1);
      CountGrows(rows, m, k, rows[m].source);
    }
  }

  /** A published label leads back to the name of the source whose node it is. */
  lemma LabelsNameTheirSource(ops: Ops, items: seq<Item>, n: nat, m: nat)
    requires n <= |items| && m < |Rows(ops, items, n)|
    ensures var r := Rows(ops, items, n)[m];
            r.index < |items| && (items[r.index].name != "" ==> SourceOf(r.tag) == items[r.index].name)
  {
    var rows := Rows(ops, items, n);
    RowsAreNumbered(ops, items, n);
    assert Numbered(items, rows, m);
    SourceOfItsLabel(items[rows[m].index].name, CountOf(rows[..m], rows[m].source) + 1);
  }

  // ----- the key arena -----

  /** A string cut from a block: a view, which must never change under its holder. */
  datatype View = View(data: array<char>, start: nat, end: nat)

  datatype Handed = Handed(view: View, text: string)

  class KeyArena {
    var buf: array<char>
    var len: nat
    /** Every view handed out, with the text it was asked for. */
    ghost var handed: seq<Handed>

    constructor ()
      ensures Valid() && handed == [] && fresh(buf)
    {
      buf := new char[0];
      len, handed := 0, [];
    }

    ghost function Blocks(): set<array<char>>
      reads this
    {
      {buf} + set h | h in handed :: h.view.data
    }

    /** Every view still reads as what was asked for, and the block's free part is nobody's. */
    ghost predicate Valid()
      reads this, Blocks()
    {
      && len <= buf.Length
      && forall h :: h in handed ==>
           && h.view.start <= h.view.end <= h.view.data.Length
           && h.view.data[h.view.start..h.view.end] == h.text
           && (h.view.data == buf ==> h.view.end <= len)
    }

    /** A key that does not fit retires the block; nothing already handed out moves or changes. */
    method Intern(key: string) returns (v: View)
      requires Valid()
      modifies this, buf
      ensures Valid() && handed == old(handed) + [Handed(v, key)]
      ensures buf == old(buf) || fresh(buf)
    {
      if |key| > buf.Length - len {
        buf := new char[if |key| > KEY_ARENA_BLOCK then |key| else KEY_ARENA_BLOCK];
        len := 0;
      }
      v := Cut(key);
    }

    /** Appends to the block and cuts the view of what was appended. */
    method Cut(key: string) returns (v: View)
      requires Valid() && |key| <= buf.Length - len
      modifies `len, `handed, buf
      ensures Valid() && handed == old(handed) + [Handed(v, key)]
    {
      var start := len;
      ghost var taken := buf[..start];
      forall h | h in handed && h.view.data == buf ensures taken[h.view.start..h.view.end] == h.text {
        SliceOfSlice(buf[..], start, h.view.start, h.view.end);
      }
      for i := 0 to |key|
        invariant len == start && handed == old(handed)
        invariant buf[start..start + i] == key[..i] && buf[..start] == taken
      {
        buf[start + i] := key[i];
        assert buf[start..start + i + 1] == buf[start..start + i] + [key[i]];
      }
      forall h | h in handed ensures h.view.data[h.view.start..h.view.end] == h.text {
        if h.view.data == buf {
          SliceOfSlice(buf[..], start, h.view.start, h.view.end);
        }
      }
      len := start + |key|;
      v := View(buf, start, len);
      handed := handed + [Handed(v, key)];
    }
  }

  lemma SliceOfSlice(s: string, n: nat, lo: nat, hi: nat)
    requires lo <= hi <= n <= |s|
    ensures s[..n][lo..hi] == s[lo..hi]
  {
  }

  // ----- the code -----

  /** A label is the line's own tail on the fragment path, an arena view on the payload path. */
  datatype Text = Owned(text: string) | Viewed(view: View)

  datatype Entry = Entry(tag: Text, raw: string, addr: View, ip: Ipv4)

  ghost predicate ViewReads(v: View, text: string)
    reads v.data
  {
    v.start <= v.end <= v.data.Length && v.data[v.start..v.end] == text
  }

  ghost predicate TextReads(x: Text, text: string)
    reads if x.Viewed? then {x.view.data} else {}
  {
    match x
    case Owned(s) => s == text
    case Viewed(v) => ViewReads(v, text)
  }

  /** The entry reads as the row. */
  ghost predicate Shows(e: Entry, r: Row)
    reads e.addr.data, if e.tag.Viewed? then {e.tag.view.data} else {}
  {
    TextReads(e.tag, r.tag) && e.raw == r.raw && ViewReads(e.addr, r.addr) && e.ip == r.ip
  }

  /** The entry's strings were handed out for the row's. */
  ghost predicate WasCut(handed: seq<Handed>, e: Entry, r: Row)
  {
    && e.raw == r.raw && e.ip == r.ip && Handed(e.addr, r.addr) in handed
    && (if e.tag.Owned? then e.tag.text == r.tag else Handed(e.tag.view, r.tag) in handed)
  }

  method RelabelNode(ops: Ops, n: Node, tag: string, keys: KeyArena) returns (raw: Option<string>, text: Text)
    requires keys.Valid()
    modifies keys, keys.buf
    ensures keys.Valid() && (keys.buf == old(keys.buf) || fresh(keys.buf))
    ensures old(keys.handed) <= keys.handed
    ensures raw == Relabelled(ops, n, tag)
    ensures if text.Owned? then text.text == tag else Handed(text.view, tag) in keys.handed
  {
    match n.scheme
    case Vmess =>
      var view := keys.Intern(tag);
      text := Viewed(view);
      raw := ops.rewriteVmess(n.raw, tag);
      if raw.None? {
        raw := ops.rewriteVmessAead(n.raw, tag);
      }
    case Ssr =>
      var view := keys.Intern(tag);
      text := Viewed(view);
      raw := ops.rewriteSsr(n.raw, tag);
    case Fragmented =>
      var uri := n.raw;
      if 0 <= n.fragment <= |n.raw| {
        uri := uri[..n.fragment];
      }
      raw, text := Some(uri + "#" + tag), Owned(tag);
  }

  /** One node: parsed, tested for a placeholder and a duplicate, relabelled, and its key cut. */
  method TakeNode(ops: Ops, name: string, node: NodeResult, kept: nat, seen: set<string>, keys: KeyArena,
                  ghost rows: seq<Row>, ghost item: Item, ghost index: nat)
    returns (e: Option<Entry>, key: string)
    requires keys.Valid() && item.name == name && item.raw == node.raw && item.ip == node.ip
    requires seen == Addrs(rows) && kept == CountOf(rows, item.source)
    modifies keys, keys.buf
    ensures keys.Valid() && (keys.buf == old(keys.buf) || fresh(keys.buf))
    ensures old(keys.handed) <= keys.handed
    ensures e.None? ==> Take(ops, rows, item, index) == rows
    ensures e.Some? ==> var after := Take(ops, rows, item, index);
              |after| == |rows| + 1 && after[..|rows|] == rows && after[|rows|].addr == key
              && after[|rows|].source == item.source && WasCut(keys.handed, e.value, after[|rows|])
  {
    var parsed := ops.parse(node.raw);
    if parsed.None? {
      return None, "";
    }
    var n := parsed.value;
    if ops.placeholder(n.raw, n.server) {
      return None, "";
    }
    ghost var folded;
    key, folded := LowerServerPort(ops, n.server, n.port);
    if key in seen {
      return None, "";
    }
    var tag := AppendPad3(name + "-", kept + 1);
    var raw, text := RelabelNode(ops, n, tag, keys);
    if raw.None? {
      return None, "";
    }
    var view := keys.Intern(key);
    e := Some(Entry(text, raw.value, view, node.ip));
  }

  /** The capacity to grow to, or 0 to leave growth to append: a guess at what is still to come. */
  function MergeGrowTarget(length: nat, cap: nat, total: nat, processed: nat, novel: nat, prevNodes: nat, srcNodes: nat): nat
  {
    if length != cap || length >= total then 0
    else
      var want := length + srcNodes;
      var projected := if prevNodes > 0 && processed > prevNodes && total >= processed
                       then length + (total - processed) * novel / prevNodes else want;
      var most := if want > projected then want else projected;
      if most < total then most else total
  }

  /** A slice of entries: the first `len` of an array, its length the capacity. */
  class EntryList {
    var data: array<Entry>
    var len: nat
    const zero: Entry

    constructor (cap: nat, zero: Entry)
      ensures Valid() && fresh(data) && Contents() == [] && data.Length == cap
    {
      data, len, this.zero := new Entry[cap](_ => zero), 0, zero;
    }

    predicate Valid()
      reads this
    {
      len <= data.Length
    }

    function Contents(): seq<Entry>
      requires Valid()
      reads this, data
    {
      data[..len]
    }

    /** slices.Grow: room for `more` entries without another allocation, and the same entries. */
    method Grow(more: nat)
      requires Valid()
      modifies this
      ensures Valid() && Contents() == old(Contents()) && (data == old(data) || fresh(data))
      ensures data.Length >= len + more && len == old(len)
    {
      if data.Length - len >= more {
        return;
      }
      var was := data;
      var bigger := new Entry[len + more](_ => zero);
      for i := 0 to len
        invariant data == was && len == old(len) && bigger[..i] == was[..i]
      {
        bigger[i] := was[i];
      }
      data := bigger;
    }

    /** append, which moves to an array about twice as big when there is no room. */
    method Append(e: Entry)
      requires Valid()
      modifies this, data
      ensures Valid() && Contents() == old(Contents()) + [e] && (data == old(data) || fresh(data))
      ensures len == old(len) + 1
    {
      ghost var before := Contents();
      if len == data.Length {
        Grow(len + 1);
      }
      assert Contents() == before;
      data[len] := e;
      len := len + 1;
      assert Contents() == before + [e];
    }
  }

  /** Growth moves the entries to an array with room for `want` and rebuilds the key set at that size:
      it changes neither the entries nor the keys. */
  method GrowForMerge(entries: EntryList, seen: set<string>, seenHint: nat, want: nat)
    returns (seen': set<string>, seenHint': nat)
    requires entries.Valid()
    modifies entries
    ensures entries.Valid() && entries.Contents() == old(entries.Contents())
    ensures entries.data == old(entries.data) || fresh(entries.data)
    ensures want > entries.len ==> entries.data.Length >= want && seenHint' >= want
    ensures want <= entries.len ==> entries.data == old(entries.data) && seenHint' == seenHint
    ensures seen' == seen && seenHint' >= seenHint
  {
    seen', seenHint' := seen, seenHint;
    if want <= entries.len {
      return;
    }
    entries.Grow(want - entries.len);
    if want > seenHint {
      var grown: set<string>, todo := {}, seen;
      while todo != {}
        invariant grown + todo == seen
        decreases todo
      {
        var k :| k in todo;
        grown, todo := grown + {k}, todo - {k};
      }
      seen', seenHint' := grown, want;
    }
  }

  /** A kept node: grow if the projection says so, then add the key and the entry. */
  method KeepNode(entries: EntryList, seen: set<string>, seenHint: nat, e: Entry, key: string, want: nat)
    returns (seen': set<string>, seenHint': nat)
    requires entries.Valid()
    modifies entries, entries.data
    ensures entries.Valid() && entries.Contents() == old(entries.Contents()) + [e]
    ensures entries.data == old(entries.data) || fresh(entries.data)
    ensures entries.len == old(entries.len) + 1
    ensures seen' == seen + {key}
  {
    seen', seenHint' := seen, seenHint;
    if want > 0 {
      seen', seenHint' := GrowForMerge(entries, seen, seenHint, want);
    }
    seen' := seen' + {key};
    entries.Append(e);
  }

  ghost predicate AllCut(handed: seq<Handed>, entries: seq<Entry>, rows: seq<Row>)
  {
    |entries| == |rows| && forall m :: 0 <= m < |rows| ==> WasCut(handed, entries[m], rows[m])
  }

  /** One source's nodes, in order. */
  method MergeSource(ops: Ops, bodies: seq<SourceBody>, s: nat, list: EntryList, keys: KeyArena, seen: set<string>, seenHint: nat,
                     total: nat, processed: nat, novel: nat, prevNodes: nat, ghost items: seq<Item>)
    returns (seen': set<string>, seenHint': nat)
    requires s < |bodies| && items == Flatten(bodies) && processed == |Flatten(bodies[..s])| <= |items|
    requires keys.Valid() && list.Valid() && Holds(ops, items, processed, keys.handed, list.Contents(), seen)
    modifies keys, keys.buf, list, list.data
    ensures keys.Valid() && (keys.buf == old(keys.buf) || fresh(keys.buf))
    ensures list.Valid() && (list.data == old(list.data) || fresh(list.data)) && old(list.len) <= list.len
    ensures processed + |bodies[s].nodes| <= |items|
    ensures Holds(ops, items, processed + |bodies[s].nodes|, keys.handed, list.Contents(), seen')
  {
    hide Rows, Take, CountOf, Addrs, AllCut, MergeGrowTarget, Holds, Flatten, KeyArena.Valid, EntryList.Contents;
    seen', seenHint' := seen, seenHint;
    var kept := 0;
    SourceStartsEmpty(ops, bodies, s);
    FlattenLength(bodies, s);
    for i := 0 to |bodies[s].nodes|
      invariant keys.Valid() && (keys.buf == old(keys.buf) || fresh(keys.buf))
      invariant list.Valid() && (list.data == old(list.data) || fresh(list.data)) && old(list.len) <= list.len
      invariant Holds(ops, items, processed + i, keys.handed, list.Contents(), seen')
      invariant kept == CountOf(Rows(ops, items, processed + i), s)
    {
      FlattenAt(bodies, s, i);
      ghost var n, was, entries := processed + i, keys.handed, list.Contents();
      HoldsMeans(ops, items, n, was, entries, seen');
      var e, key := TakeNode(ops, bodies[s].name, bodies[s].nodes[i], kept, seen', keys, Rows(ops, items, n), items[n], n);
      assert list.Contents() == entries;
      if e.None? {
        NodePassed(ops, items, n, was, keys.handed, entries, seen');
        continue;
      }
      NodeKept(ops, items, n, was, keys.handed, entries, seen', e.value, key, s);
      var want := MergeGrowTarget(list.len, list.data.Length, total, processed, novel, prevNodes, |bodies[s].nodes|);
      assert forall b :: b in keys.Blocks() ==> b as object != list.data as object;
      seen', seenHint' := KeepNode(list, seen', seenHint', e.value, key, want);
      kept := kept + 1;
    }
  }

  /** The merge: whatever its growth path does, it publishes exactly the rows, and every string an
      entry views still reads as it was cut. */
  method Merge(ops: Ops, bodies: seq<SourceBody>) returns (entries: seq<Entry>)
    ensures var rows := Rows(ops, Flatten(bodies), |Flatten(bodies)|);
            |entries| == |rows| && forall m :: 0 <= m < |rows| ==> Shows(entries[m], rows[m])
    ensures LabelBlind(ops) && PortsArePlain(ops, Flatten(bodies)) ==>
              FirstWins(ops, Flatten(bodies), Rows(ops, Flatten(bodies), |Flatten(bodies)|))
  {
    hide FirstWins, LabelBlind, PortsArePlain;
    if LabelBlind(ops) && PortsArePlain(ops, Flatten(bodies)) {
      RowsAreFirstWins(ops, Flatten(bodies));
    }
    hide Rows, Take, CountOf, Addrs, Shows, AllCut, MergeGrowTarget;
    ghost var items := Flatten(bodies);
    var total: nat, largest: nat := 0, 0;
    for s := 0 to |bodies| {
      total := total + |bodies[s].nodes|;
      largest := if |bodies[s].nodes| > largest then |bodies[s].nodes| else largest;
    }
    var hint: nat := if total <= MERGE_RESERVE_BUDGET then total else largest;
    var seen: set<string>, seenHint := {}, hint;
    var nothing := new char[0];
    var list := new EntryList(hint, Entry(Owned(""), "", View(nothing, 0, 0), 0));
    var keys := new KeyArena();
    var processed: nat, novel: nat, prevNodes: nat := 0, 0, 0;
    NothingHeld(ops, items, keys.handed);
    for s := 0 to |bodies|
      invariant keys.Valid() && fresh(keys) && fresh(keys.buf)
      invariant list.Valid() && fresh(list) && fresh(list.data)
      invariant processed == |Flatten(bodies[..s])| <= |items|
      invariant Holds(ops, items, processed, keys.handed, list.Contents(), seen)
    {
      hide Holds, Flatten, KeyArena.Valid, EntryList.Contents;
      var before := list.len;
      FlattenLength(bodies, s);
      seen, seenHint := MergeSource(ops, bodies, s, list, keys, seen, seenHint, total, processed, novel, prevNodes, items);
      processed := processed + |bodies[s].nodes|;
      novel, prevNodes := list.len - before, |bodies[s].nodes|;
    }
    assert bodies[..|bodies|] == bodies;
    entries := list.Contents();
    HoldsMeans(ops, items, |items|, keys.handed, entries, seen);
    CutShows(keys, entries, Rows(ops, items, |items|));
  }

  /** After the first `n` items: the entries are the rows', and the taken keys are theirs. */
  ghost predicate Holds(ops: Ops, items: seq<Item>, n: nat, handed: seq<Handed>, entries: seq<Entry>, seen: set<string>)
    requires n <= |items|
  {
    AllCut(handed, entries, Rows(ops, items, n)) && seen == Addrs(Rows(ops, items, n))
  }

  lemma NothingHeld(ops: Ops, items: seq<Item>, handed: seq<Handed>)
    ensures Holds(ops, items, 0, handed, [], {})
  {
  }

  lemma HoldsMeans(ops: Ops, items: seq<Item>, n: nat, handed: seq<Handed>, entries: seq<Entry>, seen: set<string>)
    requires n <= |items| && Holds(ops, items, n, handed, entries, seen)
    ensures AllCut(handed, entries, Rows(ops, items, n)) && seen == Addrs(Rows(ops, items, n))
  {
  }

  lemma NodePassed(ops: Ops, items: seq<Item>, n: nat, was: seq<Handed>, now: seq<Handed>, entries: seq<Entry>, seen: set<string>)
    requires n < |items| && Holds(ops, items, n, was, entries, seen) && was <= now
    requires Take(ops, Rows(ops, items, n), items[n], n) == Rows(ops, items, n)
    ensures Rows(ops, items, n + 1) == Rows(ops, items, n) && Holds(ops, items, n + 1, now, entries, seen)
  {
    hide Take, WasCut;
    MoreHanded(was, now, entries, Rows(ops, items, n));
  }

  lemma NodeKept(ops: Ops, items: seq<Item>, n: nat, was: seq<Handed>, now: seq<Handed>, entries: seq<Entry>,
                 seen: set<string>, e: Entry, key: string, s: nat)
    requires n < |items| && Holds(ops, items, n, was, entries, seen) && was <= now
    requires var rows, after := Rows(ops, items, n), Take(ops, Rows(ops, items, n), items[n], n);
             |after| == |rows| + 1 && after[..|rows|] == rows && after[|rows|].addr == key
             && after[|rows|].source == s && WasCut(now, e, after[|rows|])
    ensures Holds(ops, items, n + 1, now, entries + [e], seen + {key})
    ensures CountOf(Rows(ops, items, n + 1), s) == CountOf(Rows(ops, items, n), s) + 1
  {
    hide Take, WasCut;
    MoreHanded(was, now, entries, Rows(ops, items, n));
    OneMoreRow(Rows(ops, items, n), Rows(ops, items, n + 1), s);
    var rows, after := Rows(ops, items, n), Rows(ops, items, n + 1);
    assert forall m :: 0 <= m < |rows| ==> after[m] == rows[m];
  }

  lemma MoreHanded(was: seq<Handed>, now: seq<Handed>, entries: seq<Entry>, rows: seq<Row>)
    requires was <= now && AllCut(was, entries, rows)
    ensures AllCut(now, entries, rows)
  {
    forall m | 0 <= m < |rows| ensures WasCut(now, entries[m], rows[m]) {
      assert WasCut(was, entries[m], rows[m]);
      assert forall h :: h in was ==> h in now;
    }
  }

  lemma OneMoreRow(rows: seq<Row>, after: seq<Row>, s: nat)
    requires |after| == |rows| + 1 && after[..|rows|] == rows && after[|rows|].source == s
    ensures Addrs(after) == Addrs(rows) + {after[|rows|].addr} && CountOf(after, s) == CountOf(rows, s) + 1
  {
    assert after == rows + [after[|rows|]];
  }

  lemma CutShows(keys: KeyArena, entries: seq<Entry>, rows: seq<Row>)
    requires keys.Valid() && AllCut(keys.handed, entries, rows)
    ensures forall m :: 0 <= m < |rows| ==> Shows(entries[m], rows[m])
  {
    forall m | 0 <= m < |rows| ensures Shows(entries[m], rows[m]) {
      assert WasCut(keys.handed, entries[m], rows[m]);
    }
  }

  lemma {:induction false} FlattenLength(bodies: seq<SourceBody>, s: nat)
    requires s < |bodies|
    ensures |Flatten(bodies[..s + 1])| == |Flatten(bodies[..s])| + |bodies[s].nodes| <= |Flatten(bodies)|
    decreases |bodies|
  {
    assert bodies[..s + 1][..s] == bodies[..s];
    var front := bodies[..|bodies| - 1];
    if s < |bodies| - 1 {
      FlattenLength(front, s);
      assert front[..s + 1] == bodies[..s + 1] && front[..s] == bodies[..s];
    } else {
      assert bodies[..s + 1] == bodies;
    }
  }

  lemma {:induction false} FlattenAt(bodies: seq<SourceBody>, s: nat, i: nat)
    requires s < |bodies| && i < |bodies[s].nodes|
    ensures var k := |Flatten(bodies[..s])| + i;
            k < |Flatten(bodies)|
            && Flatten(bodies)[k] == Item(s, bodies[s].name, bodies[s].nodes[i].raw, bodies[s].nodes[i].ip)
    decreases |bodies|
  {
    var front := bodies[..|bodies| - 1];
    if s < |bodies| - 1 {
      FlattenAt(front, s, i);
      assert front[..s] == bodies[..s];
    } else {
      assert bodies[..s] == front;
    }
  }

  lemma {:induction false} FlattenSources(bodies: seq<SourceBody>, s: nat, k: nat)
    requires s <= |bodies| && k < |Flatten(bodies[..s])|
    ensures k < |Flatten(bodies)| && Flatten(bodies)[k].source < s
    decreases |bodies|
  {
    if s == |bodies| {
      assert bodies[..s] == bodies;
      if k < |Flatten(bodies[..s - 1])| {
        assert bodies[..s - 1][..s - 1] == bodies[..s - 1];
        FlattenSources(bodies[..s - 1], s - 1, k);
      }
    } else {
      var front := bodies[..|bodies| - 1];
      assert front[..s] == bodies[..s];
      FlattenSources(front, s, k);
    }
  }

  lemma {:induction false} NoneCounted(rows: seq<Row>, s: nat)
    requires forall m :: 0 <= m < |rows| ==> rows[m].source != s
    ensures CountOf(rows, s) == 0
  {
    if rows != [] {
      NoneCounted(rows[..|rows| - 1], s);
    }
  }

  lemma {:induction false} RowsPrefix(ops: Ops, items: seq<Item>, n: nat)
    requires n <= |items|
    ensures forall r :: r in Rows(ops, items, n) ==> r.index < n && r.source == items[r.index].source
  {
    if n > 0 {
      RowsPrefix(ops, items, n - 1);
    }
  }

  /** No row of a source exists before its first node. */
  lemma SourceStartsEmpty(ops: Ops, bodies: seq<SourceBody>, s: nat)
    requires s < |bodies|
    ensures |Flatten(bodies[..s])| <= |Flatten(bodies)|
    ensures CountOf(Rows(ops, Flatten(bodies), |Flatten(bodies[..s])|), s) == 0
  {
    FlattenLength(bodies, s);
    var items, n := Flatten(bodies), |Flatten(bodies[..s])|;
    RowsPrefix(ops, items, n);
    var rows := Rows(ops, items, n);
    forall m | 0 <= m < |rows| ensures rows[m].source != s {
      assert rows[m] in rows;
      FlattenSources(bodies, s, rows[m].index);
    }
    NoneCounted(rows, s);
  }
}
