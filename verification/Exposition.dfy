/** internal/metrics/metrics.go: the render buffer and the per-source families of the text format.
    What has reached the writer and what is still buffered make up one text, wherever it flushes. */
module Exposition {

  const FLUSH_AT := 32 * 1024
  const INVALID_LABEL_VALUE := "invalid_utf8"

  const TOTAL_FAMILY := "stable_source_nodes_total"
  const VALID_FAMILY := "stable_source_valid_nodes"
  const TESTED_FAMILY := "stable_source_tested_nodes"
  const PUBLISHED_FAMILY := "stable_source_published_nodes"
  const DROPPED_FAMILY := "stable_source_dropped_nodes"

  const DROP_REASONS: seq<string> := ["dns", "geo", "cidr", "asn", "geoblock", "ipv6", "unsupported"]

  /** One source's report; `drops` follows DROP_REASONS. */
  datatype SourceReport = SourceReport(name: string, feed: string, managed: bool,
                                       total: nat, valid: nat, tested: nat, published: nat, drops: seq<nat>)

  /** What the renderer takes from the libraries and its own prose: UTF-8 validity, the shortest float
      format of a count, and the families' help texts. */
  datatype Format = Format(utf8: string -> bool, number: nat -> string, help: string -> string)

  // ----- the text, on values -----

  function EscapeChar(c: char): string
  {
    if c == '\\' then "\\\\" else if c == '"' then "\\\"" else if c == '\n' then "\\n" else [c]
  }

  /** The three escapes the text format reserves, and no other. */
  function Escape(s: string): string
  {
    if s == [] then [] else EscapeChar(s[0]) + Escape(s[1..])
  }

  /** What a label value reads as: itself, or the stand-in for what is not UTF-8. */
  function Shown(fm: Format, s: string): string
  {
    if fm.utf8(s) then s else INVALID_LABEL_VALUE
  }

  function LabelText(key: string, value: string): string
  {
    key + "=\"" + value + "\""
  }

  function EscapedLabel(fm: Format, key: string, value: string): string
  {
    LabelText(key, Escape(Shown(fm, value)))
  }

  function FeedOf(s: SourceReport): string
  {
    if s.feed != "" then s.feed else s.name
  }

  function OwnerOf(s: SourceReport): string
  {
    if s.managed then "crawler" else "curated"
  }

  /** The label set of a source: feed, owner, source. */
  function LabelSet(fm: Format, s: SourceReport): string
  {
    EscapedLabel(fm, "feed", FeedOf(s)) + "," + LabelText("owner", OwnerOf(s)) + "," + EscapedLabel(fm, "source", s.name)
  }

  function DropLabels(fm: Format, s: SourceReport, reason: string): string
  {
    LabelText("reason", reason) + "," + EscapedLabel(fm, "source", s.name)
  }

  function HelpText(fm: Format, family: string): string
  {
    "# HELP " + family + " " + fm.help(family) + "\n# TYPE " + family + " " + "gauge" + "\n"
  }

  function SampleLine(fm: Format, family: string, labels: string, n: nat): string
  {
    family + (if |labels| > 0 then "{" + labels + "}" else "") + " " + fm.number(n)
  }

  /** Which count a family carries. */
  function CountOf(family: string, s: SourceReport): nat
  {
    if family == TOTAL_FAMILY then s.total
    else if family == VALID_FAMILY then s.valid
    else if family == TESTED_FAMILY then s.tested
    else s.published
  }

  function FamilySamples(fm: Format, family: string, sources: seq<SourceReport>): string
  {
    if sources == [] then ""
    else
      var s := sources[|sources| - 1];
      FamilySamples(fm, family, sources[..|sources| - 1]) + SampleLine(fm, family, LabelSet(fm, s), CountOf(family, s)) + "\n"
  }

  function FamilyText(fm: Format, family: string, sources: seq<SourceReport>): string
  {
    HelpText(fm, family) + FamilySamples(fm, family, sources)
  }

  /** The drop samples of one source, up to the `n`-th reason. */
  function SourceDrops(fm: Format, s: SourceReport, n: nat): string
    requires n <= |DROP_REASONS| == |s.drops|
  {
    if n == 0 then ""
    else SourceDrops(fm, s, n - 1) + SampleLine(fm, DROPPED_FAMILY, DropLabels(fm, s, DROP_REASONS[n - 1]), s.drops[n - 1]) + "\n"
  }

  predicate Complete(sources: seq<SourceReport>)
  {
    forall s :: s in sources ==> |s.drops| == |DROP_REASONS|
  }

  function DropSamples(fm: Format, sources: seq<SourceReport>): string
    requires Complete(sources)
  {
    if sources == [] then ""
    else DropSamples(fm, sources[..|sources| - 1]) + SourceDrops(fm, sources[|sources| - 1], |DROP_REASONS|)
  }

  function DropText(fm: Format, sources: seq<SourceReport>): string
    requires Complete(sources)
  {
    HelpText(fm, DROPPED_FAMILY) + DropSamples(fm, sources)
  }

  function SourcesText(fm: Format, sources: seq<SourceReport>): string
    requires Complete(sources)
  {
    FamilyText(fm, TOTAL_FAMILY, sources) + FamilyText(fm, VALID_FAMILY, sources) + FamilyText(fm, TESTED_FAMILY, sources)
    + FamilyText(fm, PUBLISHED_FAMILY, sources) + DropText(fm, sources)
  }

  /** A label value between quotes: escaped, or the stand-in. */
  ghost function Quoted(fm: Format, value: string): string
  {
    "=\"" + Escape(if fm.utf8(value) then value else "invalid_utf8") + "\""
  }

  lemma QuotedLabel(fm: Format, key: string, value: string)
    ensures EscapedLabel(fm, key, value) == key + Quoted(fm, value)
  {
    hide Escape;
    var shown := Escape(if fm.utf8(value) then value else "invalid_utf8");
    assert key + "=\"" + shown + "\"" == key + ("=\"" + shown + "\"");
  }

  /** The labels of a source, spelled out. */
  ghost function Labels(fm: Format, s: SourceReport): string
  {
    "feed" + Quoted(fm, if s.feed != "" then s.feed else s.name) + ","
    + (if s.managed then "owner=\"crawler\"" else "owner=\"curated\"") + ","
    + ("source" + Quoted(fm, s.name))
  }

  lemma LabelsSpelledOut(fm: Format, s: SourceReport)
    ensures LabelSet(fm, s) == Labels(fm, s) && LabelSet(fm, s) != ""
  {
    hide Escape, EscapedLabel, Quoted;
    QuotedLabel(fm, "feed", FeedOf(s));
    QuotedLabel(fm, "source", s.name);
    assert LabelText("owner", "crawler") == "owner=\"crawler\"" && LabelText("owner", "curated") == "owner=\"curated\"";
  }

  /** One source's lines, spelled out: which count each family carries. */
  lemma LinesSpelledOut(fm: Format, s: SourceReport)
    ensures SampleLine(fm, TOTAL_FAMILY, LabelSet(fm, s), CountOf(TOTAL_FAMILY, s))
         == "stable_source_nodes_total" + ("{" + Labels(fm, s) + "}") + " " + fm.number(s.total)
    ensures SampleLine(fm, VALID_FAMILY, LabelSet(fm, s), CountOf(VALID_FAMILY, s))
         == "stable_source_valid_nodes" + ("{" + Labels(fm, s) + "}") + " " + fm.number(s.valid)
    ensures SampleLine(fm, TESTED_FAMILY, LabelSet(fm, s), CountOf(TESTED_FAMILY, s))
         == "stable_source_tested_nodes" + ("{" + Labels(fm, s) + "}") + " " + fm.number(s.tested)
    ensures SampleLine(fm, PUBLISHED_FAMILY, LabelSet(fm, s), CountOf(PUBLISHED_FAMILY, s))
         == "stable_source_published_nodes" + ("{" + Labels(fm, s) + "}") + " " + fm.number(s.published)
  {
    hide Labels, LabelSet;
    LabelsSpelledOut(fm, s);
  }

  /** A drop line, spelled out: its reason's count under its reason. */
  lemma DropsSpelledOut(fm: Format, s: SourceReport, n: nat)
    requires n < |s.drops| == 7
    ensures var reason := if n == 0 then "dns" else if n == 1 then "geo" else if n == 2 then "cidr" else if n == 3 then "asn"
                          else if n == 4 then "geoblock" else if n == 5 then "ipv6" else "unsupported";
            SourceDrops(fm, s, n + 1) == SourceDrops(fm, s, n)
              + ("stable_source_dropped_nodes" + ("{" + ("reason" + "=\"" + reason + "\"" + "," + ("source" + Quoted(fm, s.name))) + "}")
                 + " " + fm.number(s.drops[n])) + "\n"
  {
    hide Escape, EscapedLabel, Quoted;
    QuotedLabel(fm, "source", s.name);
    ReasonSpelledOut(n);
  }

  lemma ReasonSpelledOut(n: nat)
    requires n < 7
    ensures |DROP_REASONS| == 7
    ensures DROP_REASONS[n] == if n == 0 then "dns" else if n == 1 then "geo" else if n == 2 then "cidr" else if n == 3 then "asn"
                               else if n == 4 then "geoblock" else if n == 5 then "ipv6" else "unsupported"
  {
  }

  // ----- the code -----

  /** The writer below an exposition: what has reached it. */
  class Sink {
    var written: string

    constructor ()
      ensures written == ""
    {
      written := "";
    }
  }

  class Exposition {
    const w: Sink
    const fm: Format
    var b: string

    constructor (w: Sink, fm: Format)
      ensures this.w == w && this.fm == fm && b == ""
    {
      this.w, this.fm, b := w, fm, "";
    }

    /** Everything rendered so far, wherever the flushes fell. */
    ghost function Text(): string
      reads this, w
    {
      w.written + b
    }

    method Append(s: string)
      modifies `b
      ensures b == old(b) + s && Text() == old(Text()) + s
    {
      b := b + s;
      assert w.written + (old(b) + s) == w.written + old(b) + s;
    }

    method EndLine()
      modifies `b, w
      ensures Text() == old(Text()) + "\n" && |b| < FLUSH_AT
    {
      b := b + "\n";
      if |b| >= FLUSH_AT {
        Flush();
      }
    }

    method Flush()
      modifies `b, w
      ensures Text() == old(Text()) && b == ""
    {
      if |b| == 0 {
        return;
      }
      w.written := w.written + b;
      b := "";
    }

    method Help(family: string)
      modifies `b, w
      ensures Text() == old(Text()) + HelpText(fm, family)
    {
      hide HelpText;
      ghost var z := Text();
      Append("# HELP ");
      Append(family);
      Append(" ");
      Append(fm.help(family));
      Append("\n# TYPE ");
      ghost var head := "# HELP " + family + " " + fm.help(family) + "\n# TYPE ";
      Rejoin(z, "# HELP ", family, " ", fm.help(family), "\n# TYPE ");
      Append(family);
      Append(" ");
      Append("gauge");
      EndLine();
      Rejoin(z, head, family, " ", "gauge", "\n");
      HelpIs(fm, family);
    }

    method Sample(family: string, labels: string, v: nat)
      modifies `b, w
      ensures Text() == old(Text()) + SampleLine(fm, family, labels, v) + "\n"
    {
      JoinSample(Text(), family, labels, fm.number(v));
      Append(family);
      if |labels| > 0 {
        Append("{");
        Append(labels);
        Append("}");
      }
      Append(" ");
      Append(fm.number(v));
      EndLine();
    }
  }

  lemma JoinSample(z: string, family: string, labels: string, number: string)
    ensures z + family + "{" + labels + "}" + " " + number + "\n" == z + (family + ("{" + labels + "}") + " " + number) + "\n"
    ensures z + family + " " + number + "\n" == z + (family + "" + " " + number) + "\n"
  {
    Rejoin(z, family, "{", labels, "}", " ");
  }

  lemma HelpIs(fm: Format, family: string)
    ensures HelpText(fm, family) == "# HELP " + family + " " + fm.help(family) + "\n# TYPE " + family + " " + "gauge" + "\n"
  {
  }

  method AppendLabelValue(fm: Format, dst: string, s: string) returns (r: string)
    ensures r == dst + Escape(Shown(fm, s))
  {
    if !fm.utf8(s) {
      PlainIsUnescaped(INVALID_LABEL_VALUE);
      return dst + INVALID_LABEL_VALUE;
    }
    if '\\' !in s && '"' !in s && '\n' !in s {
      PlainIsUnescaped(s);
      return dst + s;
    }
    r := dst;
    hide Escape;
    for i := 0 to |s|
      invariant r + Escape(s[i..]) == dst + Escape(s)
    {
      EscapeStep(s, i);
      Associate(r, EscapeChar(s[i]), Escape(s[i + 1..]), "");
      match s[i] {
        case '\\' => r := r + "\\\\";
        case '"' => r := r + "\\\"";
        case '\n' => r := r + "\\n";
        case c => r := r + [c];
      }
    }
    EscapeEnd(s);
    assert r + "" == r;
  }

  lemma EscapeStep(s: string, i: nat)
    requires i < |s|
    ensures Escape(s[i..]) == EscapeChar(s[i]) + Escape(s[i + 1..])
    ensures Escape(s[0..]) == Escape(s)
  {
    assert s[i..][1..] == s[i + 1..] && s[0..] == s;
  }

  lemma EscapeEnd(s: string)
    ensures Escape(s[|s|..]) == "" && s[0..] == s
  {
  }

  lemma {:induction false} PlainIsUnescaped(s: string)
    requires '\\' !in s && '"' !in s && '\n' !in s
    ensures Escape(s) == s
  {
    if s != [] {
      PlainIsUnescaped(s[1..]);
    }
  }

  method AppendLabel(dst: string, key: string, value: string) returns (r: string)
    ensures r == dst + LabelText(key, value)
  {
    r := dst + key + "=\"" + value + "\"";
    assert dst + key + "=\"" + value + "\"" == dst + (key + "=\"" + value + "\"");
  }

  method AppendLabelEsc(fm: Format, dst: string, key: string, value: string) returns (r: string)
    ensures r == dst + EscapedLabel(fm, key, value)
  {
    hide Escape, Shown;
    r := dst + key + "=\"";
    r := AppendLabelValue(fm, r, value);
    r := r + "\"";
    Rejoin(dst, key, "=\"", Escape(Shown(fm, value)), "\"", "");
    DropEmpty(key + "=\"" + Escape(Shown(fm, value)) + "\"", r);
  }

  /** Every source's label set, back to back in one arena, with where each ends. */
  method RenderLabels(fm: Format, sources: seq<SourceReport>) returns (arena: string, ends: seq<nat>)
    ensures |ends| == |sources|
    ensures forall i :: 0 <= i < |sources| ==> HoldsLabels(fm, sources, arena, ends, i)
  {
    hide HoldsLabels, EscapedLabel, LabelText, FeedOf, OwnerOf;
    arena, ends := "", [];
    for i := 0 to |sources|
      invariant |ends| == i && (i > 0 ==> ends[i - 1] == |arena|) && (i == 0 ==> arena == "")
      invariant forall k :: 0 <= k < i ==> HoldsLabels(fm, sources, arena, ends, k)
    {
      var s := sources[i];
      ghost var before, wasEnds := arena, ends;
      arena := AppendLabelEsc(fm, arena, "feed", FeedOf(s));
      arena := arena + ",";
      arena := AppendLabel(arena, "owner", OwnerOf(s));
      arena := arena + ",";
      arena := AppendLabelEsc(fm, arena, "source", s.name);
      Rejoin(before, EscapedLabel(fm, "feed", FeedOf(s)), ",", LabelText("owner", OwnerOf(s)), ",", EscapedLabel(fm, "source", s.name));
      ends := ends + [|arena|];
      StillHeld(fm, sources, before, wasEnds, arena, ends, i);
    }
  }

  /** Slice `i` of the arena is the label set of source `i`. */
  ghost predicate HoldsLabels(fm: Format, sources: seq<SourceReport>, arena: string, ends: seq<nat>, i: nat)
    requires i < |sources|
  {
    && i < |ends| && (if i == 0 then 0 else ends[i - 1]) <= ends[i] <= |arena|
    && arena[if i == 0 then 0 else ends[i - 1]..ends[i]] == LabelSet(fm, sources[i])
  }

  lemma StillHeld(fm: Format, sources: seq<SourceReport>, before: string, wasEnds: seq<nat>, arena: string, ends: seq<nat>, i: nat)
    requires i < |sources| && |wasEnds| == i && (i > 0 ==> wasEnds[i - 1] == |before|) && (i == 0 ==> before == "")
    requires forall k :: 0 <= k < i ==> HoldsLabels(fm, sources, before, wasEnds, k)
    requires arena == before + LabelSet(fm, sources[i]) && ends == wasEnds + [|arena|]
    ensures forall k :: 0 <= k <= i ==> HoldsLabels(fm, sources, arena, ends, k)
  {
    hide LabelSet;
    var last := LabelSet(fm, sources[i]);
    forall k: nat | k < i ensures HoldsLabels(fm, sources, arena, ends, k) {
      assert HoldsLabels(fm, sources, before, wasEnds, k);
      SliceOfPrefix(before, last, if k == 0 then 0 else wasEnds[k - 1], wasEnds[k]);
    }
    SliceOfRest(before, last);
  }

  lemma SliceOfPrefix(a: string, b: string, lo: nat, hi: nat)
    requires lo <= hi <= |a|
    ensures (a + b)[lo..hi] == a[lo..hi]
  {
  }

  lemma SliceOfRest(a: string, b: string)
    ensures (a + b)[|a|..|a + b|] == b
  {
  }

  lemma DropFirst(a: string)
    ensures "" + a == a
  {
  }

  lemma DropEmpty(a: string, b: string)
    ensures a + "" == a && b + "" == b
  {
  }

  lemma Rejoin(z: string, a: string, b: string, c: string, d: string, e: string)
    ensures z + a + b + c + d + e == z + (a + b + c + d + e)
  {
  }

  /** The slice of one source out of the label arena. */
  function SourceLabels(arena: string, ends: seq<nat>, i: nat): string
    requires i < |ends| && (if i == 0 then 0 else ends[i - 1]) <= ends[i] <= |arena|
  {
    arena[if i == 0 then 0 else ends[i - 1]..ends[i]]
  }

  method WriteFamily(w: Exposition, family: string, sources: seq<SourceReport>, arena: string, ends: seq<nat>)
    requires |ends| == |sources| && forall i :: 0 <= i < |sources| ==> HoldsLabels(w.fm, sources, arena, ends, i)
    modifies w`b, w.w
    ensures w.Text() == old(w.Text()) + FamilyText(w.fm, family, sources)
  {
    hide FamilySamples, FamilyText, SampleLine, LabelSet, HelpText, CountOf;
    w.Help(family);
    ghost var head := w.Text();
    FamilyStart(w.fm, family, sources, old(w.Text()), head);
    for i := 0 to |sources|
      invariant w.Text() == head + FamilySamples(w.fm, family, sources[..i])
    {
      assert HoldsLabels(w.fm, sources, arena, ends, i);
      w.Sample(family, SourceLabels(arena, ends, i), CountOf(family, sources[i]));
      FamilyStep(w.fm, family, sources, i, head);
    }
    assert sources[..|sources|] == sources;
  }

  lemma Associate(a: string, b: string, c: string, d: string)
    ensures a + b + c + d == a + (b + c + d) && a + b + c == a + (b + c)
  {
  }

  lemma FamilyStart(fm: Format, family: string, sources: seq<SourceReport>, z: string, head: string)
    requires head == z + HelpText(fm, family)
    ensures FamilySamples(fm, family, sources[..0]) == "" && head + "" == head
    ensures head + FamilySamples(fm, family, sources) == z + FamilyText(fm, family, sources)
  {
    hide HelpText;
    Associate(z, HelpText(fm, family), FamilySamples(fm, family, sources), "");
  }

  lemma FamilyStep(fm: Format, family: string, sources: seq<SourceReport>, i: nat, head: string)
    requires i < |sources|
    ensures var line := SampleLine(fm, family, LabelSet(fm, sources[i]), CountOf(family, sources[i])) + "\n";
            head + FamilySamples(fm, family, sources[..i + 1]) == head + FamilySamples(fm, family, sources[..i]) + line
            && forall z: string :: z + line == z + SampleLine(fm, family, LabelSet(fm, sources[i]), CountOf(family, sources[i])) + "\n"
  {
    hide SampleLine, LabelSet, CountOf;
    assert sources[..i + 1][..i] == sources[..i];
    var line := SampleLine(fm, family, LabelSet(fm, sources[i]), CountOf(family, sources[i]));
    Associate(head, FamilySamples(fm, family, sources[..i]), line, "\n");
    forall z: string ensures z + (line + "\n") == z + line + "\n" {
      Associate(z, line, "\n", "");
    }
    Associate(FamilySamples(fm, family, sources[..i]), line, "\n", "");
    Associate(head + FamilySamples(fm, family, sources[..i]), line, "\n", "");
  }

  method WriteDrops(w: Exposition, sources: seq<SourceReport>)
    requires Complete(sources)
    modifies w`b, w.w
    ensures w.Text() == old(w.Text()) + DropText(w.fm, sources)
  {
    w.Help(DROPPED_FAMILY);
    ghost var head := w.Text();
    for i := 0 to |sources|
      invariant Complete(sources[..i]) && w.Text() == head + DropSamples(w.fm, sources[..i])
    {
      assert sources[..i + 1][..i] == sources[..i] && sources[i] in sources;
      var src := AppendLabelEsc(w.fm, "", "source", sources[i].name);
      WriteSourceDrops(w, sources[i], src);
      Associate(head, DropSamples(w.fm, sources[..i]), SourceDrops(w.fm, sources[i], |DROP_REASONS|), "");
    }
    assert sources[..|sources|] == sources;
    Associate(old(w.Text()), HelpText(w.fm, DROPPED_FAMILY), DropSamples(w.fm, sources), "");
  }

  method WriteSourceDrops(w: Exposition, s: SourceReport, src: string)
    requires |s.drops| == |DROP_REASONS| && src == EscapedLabel(w.fm, "source", s.name)
    modifies w`b, w.w
    ensures w.Text() == old(w.Text()) + SourceDrops(w.fm, s, |DROP_REASONS|)
  {
    hide SampleLine, EscapedLabel, LabelText;
    ghost var head := w.Text();
    DropEmpty(head, head);
    for i := 0 to |DROP_REASONS|
      invariant w.Text() == head + SourceDrops(w.fm, s, i)
    {
      var tag := AppendLabel("", "reason", DROP_REASONS[i]);
      DropFirst(LabelText("reason", DROP_REASONS[i]));
      tag := tag + "," + src;
      w.Sample(DROPPED_FAMILY, tag, s.drops[i]);
      Associate(head, SourceDrops(w.fm, s, i), SampleLine(w.fm, DROPPED_FAMILY, tag, s.drops[i]), "\n");
    }
  }

  method WriteSources(w: Exposition, sources: seq<SourceReport>)
    requires Complete(sources)
    modifies w`b, w.w
    ensures w.Text() == old(w.Text()) + SourcesText(w.fm, sources)
  {
    var arena, ends := RenderLabels(w.fm, sources);
    ghost var start := w.Text();
    WriteFamily(w, TOTAL_FAMILY, sources, arena, ends);
    WriteFamily(w, VALID_FAMILY, sources, arena, ends);
    WriteFamily(w, TESTED_FAMILY, sources, arena, ends);
    WriteFamily(w, PUBLISHED_FAMILY, sources, arena, ends);
    WriteDrops(w, sources);
    Rejoin(start, FamilyText(w.fm, TOTAL_FAMILY, sources), FamilyText(w.fm, VALID_FAMILY, sources),
           FamilyText(w.fm, TESTED_FAMILY, sources), FamilyText(w.fm, PUBLISHED_FAMILY, sources), DropText(w.fm, sources));
  }

  /** A scrape: rendered, flushed wherever the buffer fills, and flushed once more at the end. */
  method Scrape(fm: Format, sources: seq<SourceReport>) returns (body: string)
    requires Complete(sources)
    ensures body == SourcesText(fm, sources)
  {
    hide SourcesText;
    var sink := new Sink();
    var w := new Exposition(sink, fm);
    assert w.Text() == "";
    WriteSources(w, sources);
    DropFirst(SourcesText(fm, sources));
    w.Flush();
    body := sink.written;
    DropEmpty(body, body);
  }
}
