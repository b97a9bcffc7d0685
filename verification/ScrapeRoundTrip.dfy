/** internal/metrics/metrics.go against internal/crawl/outcomes.go: what one writes, the other reads back. */
module ScrapeRoundTrip {
  import opened Basics
  import Decimals
  import opened Exposition
  import opened Outcomes

  /** float64 holds every count below this exactly. */
  const EXACT_COUNTS := 9007199254740992

  /** A formatted count is one token on one line, and an exact one parses back to itself. */
  ghost predicate Lawful(fm: Format, parse: FloatParser)
  {
    && fm.utf8(INVALID_LABEL_VALUE)
    && (forall n :: IsToken(fm.number(n)))
    && (forall n :: 0 <= n < EXACT_COUNTS ==> parse(fm.number(n)) == Some(Number(n as real)))
    && (forall family :: '\n' !in fm.help(family))
  }

  predicate IsToken(s: string)
  {
    s != "" && ' ' !in s && '\t' !in s && '\n' !in s && '\r' !in s
  }

  // ----- one label value -----

  predicate Special(c: char) { c == '\\' || c == '"' || c == '\n' }

  predicate HasSpecial(s: string) { exists i :: 0 <= i < |s| && Special(s[i]) }

  lemma {:induction false} UnescapeUndoesEscape(s: string)
    ensures Unescape(Escape(s)) == s
  {
    if s != [] {
      assert Escape(s) == EscapeChar(s[0]) + Escape(s[1..]);
      hide Escape, Unescape, EscapeChar;
      UnescapeUndoesEscape(s[1..]);
      UnescapeChar(s[0], Escape(s[1..]));
      assert s == [s[0]] + s[1..];
    }
  }

  lemma UnescapeChar(c: char, rest: string)
    ensures Unescape(EscapeChar(c) + rest) == [c] + Unescape(rest)
  {
    var raw := EscapeChar(c) + rest;
    if Special(c) {
      assert raw[2..] == rest;
    } else {
      assert raw[1..] == rest;
    }
  }

  /** The scan for the closing quote stops at the one the writer put there. */
  lemma {:induction false} ValueEndsAtQuote(s: string, post: string)
    ensures ValueEnd(Escape(s) + "\"" + post) == (|Escape(s)|, HasSpecial(s))
  {
    hide HasSpecial, Escape;
    if s == [] {
      EscapeOfNothing(post);
    } else {
      ValueEndsAtQuote(s[1..], post);
      var rest := Escape(s[1..]) + "\"" + post;
      EscapeFront(s, post);
      SpecialFirst(s);
      FrontScanned(s[0], rest);
    }
  }

  lemma EscapeOfNothing(post: string)
    ensures Escape("") + "\"" + post == "\"" + post && Escape("") == "" && !HasSpecial("")
    ensures ("\"" + post)[0] == '"'
  {
  }

  lemma EscapeFront(s: string, post: string)
    requires s != []
    ensures Escape(s) == EscapeChar(s[0]) + Escape(s[1..])
    ensures Escape(s) + "\"" + post == EscapeChar(s[0]) + (Escape(s[1..]) + "\"" + post)
  {
  }

  /** The scan past one escaped character. */
  lemma FrontScanned(c: char, rest: string)
    requires ValueEnd(rest).0 >= 0
    ensures var (e, x) := ValueEnd(rest);
            ValueEnd(EscapeChar(c) + rest) == (|EscapeChar(c)| + e, Special(c) || x)
  {
    var t := EscapeChar(c) + rest;
    assert t[|EscapeChar(c)|..] == rest && t[0] == EscapeChar(c)[0];
    if Special(c) {
      assert |EscapeChar(c)| == 2 && t[0] == '\\';
    } else {
      assert EscapeChar(c) == [c] && t[0] == c;
    }
  }

  lemma SpecialFirst(s: string)
    requires s != []
    ensures HasSpecial(s) <==> Special(s[0]) || HasSpecial(s[1..])
  {
    if HasSpecial(s) {
      var i :| 0 <= i < |s| && Special(s[i]);
      assert i > 0 ==> s[1..][i - 1] == s[i];
    }
    if HasSpecial(s[1..]) {
      var i :| 0 <= i < |s[1..]| && Special(s[1..][i]);
      assert s[i + 1] == s[1..][i];
    }
  }

  lemma {:induction false} NoNewlineEscaped(s: string)
    ensures '\n' !in Escape(s)
  {
    if s != [] {
      NoNewlineEscaped(s[1..]);
    }
  }

  // ----- one label, one label set -----

  lemma {:induction false} IndexIs(t: string, c: char, k: nat)
    requires k < |t| && t[k] == c && forall j :: 0 <= j < k ==> t[j] != c
    ensures IndexOf(t, c) == k
  {
    if k > 0 {
      IndexIs(t[1..], c, k - 1);
    }
  }

  lemma KeyEnds(key: string, rest: string)
    requires '=' !in key
    ensures IndexOf(key + "=" + rest, '=') == |key|
  {
    IndexIs(key + "=" + rest, '=', |key|);
  }

  /** What the walk makes of one label the writer wrote. */
  lemma LabelWalked(key: string, value: string, tail: string, name: string)
    requires '=' !in key && tail != ""
    ensures var seen := if key == SOURCE_LABEL then value else name;
            Split(LabelText(key, Escape(value)) + tail, name) ==
              if tail[0] == '}' then if seen != "" then Some((seen, tail[1..])) else None
              else if tail[0] != ',' then None
              else Split(tail[1..], seen)
  {
    hide Unescape, ValueEnd, IndexOf, Escape, LabelText, HasSpecial;
    var e := Escape(value);
    PartsOfLabel(key, e, tail);
    ValueEndsAtQuote(value, tail);
    UnescapeUndoesEscape(value);
    UnspecialIsPlain(value);
  }

  lemma UnspecialIsPlain(s: string)
    ensures !HasSpecial(s) ==> Escape(s) == s
  {
    if !HasSpecial(s) {
      PlainIsUnescaped(s);
    }
  }

  lemma PartsOfLabel(key: string, e: string, tail: string)
    requires '=' !in key
    ensures var t := LabelText(key, e) + tail;
            && IndexOf(t, '=') == |key| && |key| + 1 < |t| && t[|key| + 1] == '"' && t[..|key|] == key
            && t[|key| + 2..] == e + "\"" + tail
            && (e + "\"" + tail)[..|e|] == e && (e + "\"" + tail)[|e| + 1..] == tail
  {
    assert LabelText(key, e) + tail == key + "=" + ("\"" + e + "\"" + tail);
    KeyEnds(key, "\"" + e + "\"" + tail);
  }

  lemma OwnerIsPlain(s: SourceReport)
    ensures Escape(OwnerOf(s)) == OwnerOf(s)
  {
    PlainIsUnescaped(OwnerOf(s));
  }

  /** The walk over a source's label set finds the source's name, whatever the name and feed hold. */
  lemma LabelSetWalked(fm: Format, s: SourceReport, value: string)
    ensures var shown := Shown(fm, s.name);
            Split(LabelSet(fm, s) + "}" + value, "") == if shown != "" then Some((shown, value)) else None
  {
    hide Split, Escape, Shown;
    var feed, owner, source := EscapedLabel(fm, "feed", FeedOf(s)), LabelText("owner", OwnerOf(s)), EscapedLabel(fm, "source", s.name);
    var last := "}" + value;
    var third := source + last;
    var second := owner + ("," + third);
    OwnerIsPlain(s);
    assert LabelSet(fm, s) + "}" + value == feed + ("," + second) by { Regroup(feed, owner, source, value); }
    LabelWalked("feed", Shown(fm, FeedOf(s)), "," + second, "");
    assert ("," + second)[1..] == second;
    LabelWalked("owner", OwnerOf(s), "," + third, "");
    assert ("," + third)[1..] == third;
    LabelWalked("source", Shown(fm, s.name), last, "");
    assert last[1..] == value;
  }

  lemma Regroup(a: string, b: string, c: string, v: string)
    ensures (a + "," + b + "," + c) + "}" + v == a + ("," + (b + ("," + (c + ("}" + v)))))
  {
  }

  // ----- one line -----

  lemma {:induction false} TokenIsWhole(s: string)
    requires ' ' !in s && '\t' !in s
    ensures Token(s) == s
  {
    if s != [] {
      TokenIsWhole(s[1..]);
      assert s == [s[0]] + s[1..];
    }
  }

  lemma CountParses(fm: Format, parse: FloatParser, n: nat)
    requires Lawful(fm, parse) && n < EXACT_COUNTS
    ensures ParseBelow(parse, " " + fm.number(n), COUNT_CEIL) == Some(n)
  {
    var num := fm.number(n);
    assert IsToken(num);
    assert (" " + num)[1..] == num;
    assert TrimLeft(num) == num;
    TokenIsWhole(num);
  }

  /** A line of one of the two families, past its prefix. */
  lemma SampleRest(fm: Format, family: string, tag: string, n: nat)
    requires tag != ""
    ensures var line, prefix := SampleLine(fm, family, tag, n), family + "{";
            prefix <= line && line[|prefix|..] == tag + "}" + (" " + fm.number(n))
  {
    var line := SampleLine(fm, family, tag, n);
    assert line == (family + "{") + (tag + "}" + (" " + fm.number(n)));
  }

  lemma LabelSetNotEmpty(fm: Format, s: SourceReport)
    ensures LabelSet(fm, s) != ""
  {
  }

  /** What a source's sample in a family the reader wants does to a reading. */
  function SampleRead(fm: Format, r: Reading, s: SourceReport, tested: bool): Option<Reading>
  {
    var shown := Shown(fm, s.name);
    if shown == "" then None
    else Some(r.(sources := Update(r.sources, shown, if tested then s.tested else s.valid, tested)))
  }

  lemma PrefixesDiffer(line: string)
    ensures TESTED_PREFIX <= line ==> !(CLOCK_PREFIX <= line) && !(VALID_PREFIX <= line)
    ensures VALID_PREFIX <= line ==> !(CLOCK_PREFIX <= line) && !(TESTED_PREFIX <= line)
  {
    assert TESTED_PREFIX[7] == 's' && VALID_PREFIX[7] == 's' && CLOCK_PREFIX[7] == 'l';
    assert TESTED_PREFIX[14] == 't' && VALID_PREFIX[14] == 'v';
  }

  lemma WantedLine(fm: Format, parse: FloatParser, r: Reading, s: SourceReport, tested: bool)
    requires Lawful(fm, parse) && s.tested < EXACT_COUNTS && s.valid < EXACT_COUNTS
    ensures var family := if tested then TESTED_FAMILY else VALID_FAMILY;
            LineFolded(parse, r, SampleLine(fm, family, LabelSet(fm, s), CountOf(family, s))) == SampleRead(fm, r, s, tested)
  {
    hide Split, LabelSet, SampleLine, ParseBelow, Shown;
    var family := if tested then TESTED_FAMILY else VALID_FAMILY;
    var n := if tested then s.tested else s.valid;
    FamilyCounts(s);
    var line := SampleLine(fm, family, LabelSet(fm, s), n);
    LabelSetNotEmpty(fm, s);
    SampleRest(fm, family, LabelSet(fm, s), n);
    PrefixIsFamily();
    PrefixesDiffer(line);
    LabelSetWalked(fm, s, " " + fm.number(n));
    CountParses(fm, parse, n);
  }

  lemma PrefixIsFamily()
    ensures TESTED_PREFIX == TESTED_FAMILY + "{" && VALID_PREFIX == VALID_FAMILY + "{"
  {
  }

  lemma FamilyCounts(s: SourceReport)
    ensures CountOf(TESTED_FAMILY, s) == s.tested && CountOf(VALID_FAMILY, s) == s.valid
  {
    assert TESTED_FAMILY[14] == 't' && VALID_FAMILY[14] == 'v' && TOTAL_FAMILY[14] == 'n';
  }

  /** The families the reader does not want. */
  predicate Foreign(family: string)
  {
    family == TOTAL_FAMILY || family == PUBLISHED_FAMILY || family == DROPPED_FAMILY
  }

  lemma ForeignLine(fm: Format, parse: FloatParser, p: Progress, family: string, tag: string, n: nat)
    requires Foreign(family)
    ensures LineRead(parse, p, SampleLine(fm, family, tag, n)) == p
  {
    var line := SampleLine(fm, family, tag, n);
    assert |family| > 14 && family[7] == 's' && family[14] != 't' && family[14] != 'v' && family[0] == 's';
    assert line[7] == family[7] && line[14] == family[14] && line[0] == family[0];
    assert TESTED_PREFIX[14] == 't' && VALID_PREFIX[14] == 'v' && CLOCK_PREFIX[7] == 'l';
  }

  // ----- lines of text -----

  /** Text that ends where a line does. */
  predicate Whole(text: string)
  {
    text == "" || text[|text| - 1] == '\n'
  }

  /** Reading whole lines and then more is reading them one after the other. */
  lemma {:induction false} TextAppends(parse: FloatParser, p: Progress, a: string, b: string)
    requires Whole(a)
    ensures TextRead(parse, p, a + b) == TextRead(parse, TextRead(parse, p, a), b)
    decreases |a|
  {
    hide LineRead, DropCR, IndexOf, Whole, TextRead;
    if a == "" {
      NothingRead(parse, p);
      assert a + b == b;
    } else {
      var k := IndexOf(a, '\n');
      FirstLine(a, b, k);
      TextStep(parse, p, a, k);
      TextStep(parse, p, a + b, k);
      TextAppends(parse, LineRead(parse, p, DropCR(a[..k])), a[k + 1..], b);
    }
  }

  lemma TextStep(parse: FloatParser, p: Progress, text: string, k: nat)
    requires k < |text| && IndexOf(text, '\n') == k
    ensures TextRead(parse, p, text) == TextRead(parse, LineRead(parse, p, DropCR(text[..k])), text[k + 1..])
  {
  }

  lemma FirstLine(a: string, b: string, k: int)
    requires Whole(a) && a != "" && k == IndexOf(a, '\n')
    ensures 0 <= k < |a| && IndexOf(a + b, '\n') == k && Whole(a[k + 1..])
    ensures (a + b)[..k] == a[..k] && (a + b)[k + 1..] == a[k + 1..] + b
  {
    assert a[|a| - 1] in a;
    IndexIs(a + b, '\n', k);
  }

  /** One rendered line is read as one line. */
  lemma LineAlone(parse: FloatParser, p: Progress, line: string)
    requires '\n' !in line && (line == "" || line[|line| - 1] != '\r')
    ensures TextRead(parse, p, line + "\n") == LineRead(parse, p, line)
  {
    hide TextRead, LineRead;
    var t := line + "\n";
    IndexIs(t, '\n', |line|);
    assert t[..|line|] == line && t[|line| + 1..] == "";
    TextStep(parse, p, t, |line|);
    NothingRead(parse, LineRead(parse, p, line));
  }

  /** No rendered sample line holds a newline, or ends in a carriage return. */
  lemma SampleIsOneLine(fm: Format, parse: FloatParser, family: string, tag: string, n: nat)
    requires Lawful(fm, parse) && '\n' !in family && '\n' !in tag
    ensures var line := SampleLine(fm, family, tag, n);
            '\n' !in line && line != "" && line[|line| - 1] != '\r'
  {
    var num := fm.number(n);
    assert IsToken(num);
    assert SampleLine(fm, family, tag, n)[|SampleLine(fm, family, tag, n)| - 1] == num[|num| - 1];
    assert num[|num| - 1] in num;
  }

  lemma LabelsAreOneLine(fm: Format, s: SourceReport, reason: string)
    requires '\n' !in reason
    ensures '\n' !in LabelSet(fm, s) && '\n' !in DropLabels(fm, s, reason)
  {
    hide Escape, Shown;
    NoNewlineEscaped(Shown(fm, FeedOf(s)));
    NoNewlineEscaped(Shown(fm, s.name));
  }

  /** A family's header adds nothing. */
  lemma HelpRead(fm: Format, parse: FloatParser, p: Progress, family: string)
    requires Lawful(fm, parse) && '\n' !in family
    ensures Whole(HelpText(fm, family)) && TextRead(parse, p, HelpText(fm, family)) == p
  {
    var one, two := "# HELP " + family + " " + fm.help(family), "# TYPE " + family + " " + "gauge";
    HelpLines(fm, family, one, two);
    CommentRead(parse, p, one);
    CommentRead(parse, p, two);
    TextAppends(parse, p, one + "\n", two + "\n");
  }

  lemma HelpLines(fm: Format, family: string, one: string, two: string)
    requires one == "# HELP " + family + " " + fm.help(family) && two == "# TYPE " + family + " " + "gauge"
    requires '\n' !in family && '\n' !in fm.help(family)
    ensures HelpText(fm, family) == (one + "\n") + (two + "\n")
    ensures '\n' !in one && '\n' !in two && one[0] == two[0] == '#'
  {
  }

  lemma CommentRead(parse: FloatParser, p: Progress, line: string)
    requires '\n' !in line && line != "" && line[0] == '#'
    ensures TextRead(parse, p, line + "\n") == p
  {
    hide LineFolded;
    var t := line + "\n";
    IndexIs(t, '\n', |line|);
    assert t[..|line|] == line && t[|line| + 1..] == "";
  }

  // ----- families -----

  predicate Exact(sources: seq<SourceReport>)
  {
    forall s :: s in sources ==> s.tested < EXACT_COUNTS && s.valid < EXACT_COUNTS
  }

  /** What the samples of a wanted family do to a reading: each source's in turn. */
  function FamilyRead(fm: Format, p: Progress, sources: seq<SourceReport>, tested: bool): Progress
  {
    if sources == [] then p
    else
      var before := FamilyRead(fm, p, sources[..|sources| - 1], tested);
      var r := SampleRead(fm, before.reading, sources[|sources| - 1], tested);
      if r.Some? then Progress(r.value, true) else before
  }

  lemma {:induction false} WantedSamplesRead(fm: Format, parse: FloatParser, p: Progress, sources: seq<SourceReport>, tested: bool)
    requires Lawful(fm, parse) && Exact(sources)
    ensures var family := if tested then TESTED_FAMILY else VALID_FAMILY;
            Whole(FamilySamples(fm, family, sources))
            && TextRead(parse, p, FamilySamples(fm, family, sources)) == FamilyRead(fm, p, sources, tested)
  {
    hide SampleLine, LabelSet, CountOf, TextRead, SampleRead, Lawful;
    var family := if tested then TESTED_FAMILY else VALID_FAMILY;
    if sources == [] {
      NothingRead(parse, p);
    } else {
      var front, s := sources[..|sources| - 1], sources[|sources| - 1];
      assert forall x :: x in front ==> x in sources;
      WantedSamplesRead(fm, parse, p, front, tested);
      var before := FamilyRead(fm, p, front, tested);
      var line := SampleLine(fm, family, LabelSet(fm, s), CountOf(family, s));
      OneWantedLine(fm, parse, before, s, tested);
      assert FamilySamples(fm, family, sources) == FamilySamples(fm, family, front) + (line + "\n");
      TextAppends(parse, p, FamilySamples(fm, family, front), line + "\n");
    }
  }

  lemma NothingRead(parse: FloatParser, p: Progress)
    ensures TextRead(parse, p, "") == p
  {
  }

  lemma OneWantedLine(fm: Format, parse: FloatParser, p: Progress, s: SourceReport, tested: bool)
    requires Lawful(fm, parse) && s.tested < EXACT_COUNTS && s.valid < EXACT_COUNTS
    ensures var family := if tested then TESTED_FAMILY else VALID_FAMILY;
            var r := SampleRead(fm, p.reading, s, tested);
            TextRead(parse, p, SampleLine(fm, family, LabelSet(fm, s), CountOf(family, s)) + "\n")
              == if r.Some? then Progress(r.value, true) else p
  {
    hide SampleLine, LabelSet, CountOf, TextRead, SampleRead, LineFolded, Lawful;
    var family := if tested then TESTED_FAMILY else VALID_FAMILY;
    FamiliesAreOneLine();
    LabelsAreOneLine(fm, s, "");
    SampleIsOneLine(fm, parse, family, LabelSet(fm, s), CountOf(family, s));
    LineAlone(parse, p, SampleLine(fm, family, LabelSet(fm, s), CountOf(family, s)));
    WantedLine(fm, parse, p.reading, s, tested);
    SampleStarts(fm, family, LabelSet(fm, s), CountOf(family, s));
  }

  lemma FamiliesAreOneLine()
    ensures '\n' !in TOTAL_FAMILY && '\n' !in VALID_FAMILY && '\n' !in TESTED_FAMILY && '\n' !in PUBLISHED_FAMILY && '\n' !in DROPPED_FAMILY
    ensures TESTED_FAMILY != "" && TESTED_FAMILY[0] == 's' && VALID_FAMILY != "" && VALID_FAMILY[0] == 's'
  {
  }

  lemma SampleStarts(fm: Format, family: string, tag: string, n: nat)
    requires family != ""
    ensures SampleLine(fm, family, tag, n) != "" && SampleLine(fm, family, tag, n)[0] == family[0]
  {
  }

  lemma {:induction false} ForeignSamplesRead(fm: Format, parse: FloatParser, p: Progress, family: string, sources: seq<SourceReport>)
    requires Lawful(fm, parse) && Foreign(family)
    ensures Whole(FamilySamples(fm, family, sources)) && TextRead(parse, p, FamilySamples(fm, family, sources)) == p
  {
    hide SampleLine, LabelSet, CountOf, TextRead, Lawful;
    if sources == [] {
      NothingRead(parse, p);
    } else {
      var front, s := sources[..|sources| - 1], sources[|sources| - 1];
      ForeignSamplesRead(fm, parse, p, family, front);
      LabelsAreOneLine(fm, s, "");
      OneForeignLine(fm, parse, p, family, LabelSet(fm, s), CountOf(family, s));
      var line := SampleLine(fm, family, LabelSet(fm, s), CountOf(family, s));
      assert FamilySamples(fm, family, sources) == FamilySamples(fm, family, front) + (line + "\n");
      TextAppends(parse, p, FamilySamples(fm, family, front), line + "\n");
    }
  }

  lemma OneForeignLine(fm: Format, parse: FloatParser, p: Progress, family: string, tag: string, n: nat)
    requires Lawful(fm, parse) && Foreign(family) && '\n' !in tag
    ensures TextRead(parse, p, SampleLine(fm, family, tag, n) + "\n") == p
  {
    hide SampleLine, TextRead, LineRead, Lawful;
    FamiliesAreOneLine();
    SampleIsOneLine(fm, parse, family, tag, n);
    LineAlone(parse, p, SampleLine(fm, family, tag, n));
    ForeignLine(fm, parse, p, family, tag, n);
  }

  lemma {:induction false} SourceDropsRead(fm: Format, parse: FloatParser, p: Progress, s: SourceReport, n: nat)
    requires Lawful(fm, parse) && n <= |DROP_REASONS| == |s.drops|
    ensures Whole(SourceDrops(fm, s, n)) && TextRead(parse, p, SourceDrops(fm, s, n)) == p
  {
    hide SampleLine, DropLabels, TextRead, Lawful, SourceDrops;
    if n == 0 {
      NoDrops(fm, s);
      NothingRead(parse, p);
    } else {
      SourceDropsRead(fm, parse, p, s, n - 1);
      ReasonsAreOneLine(n - 1);
      LabelsAreOneLine(fm, s, DROP_REASONS[n - 1]);
      OneForeignLine(fm, parse, p, DROPPED_FAMILY, DropLabels(fm, s, DROP_REASONS[n - 1]), s.drops[n - 1]);
      var line := SampleLine(fm, DROPPED_FAMILY, DropLabels(fm, s, DROP_REASONS[n - 1]), s.drops[n - 1]);
      OneMoreDrop(fm, s, n);
      TextAppends(parse, p, SourceDrops(fm, s, n - 1), line + "\n");
    }
  }

  lemma NoDrops(fm: Format, s: SourceReport)
    requires |s.drops| == |DROP_REASONS|
    ensures SourceDrops(fm, s, 0) == ""
  {
  }

  lemma OneMoreDrop(fm: Format, s: SourceReport, n: nat)
    requires 0 < n <= |DROP_REASONS| == |s.drops|
    ensures var line := SampleLine(fm, DROPPED_FAMILY, DropLabels(fm, s, DROP_REASONS[n - 1]), s.drops[n - 1]);
            SourceDrops(fm, s, n) == SourceDrops(fm, s, n - 1) + (line + "\n") && Whole(line + "\n")
  {
    hide SampleLine, DropLabels;
  }

  lemma ReasonsAreOneLine(i: nat)
    requires i < |DROP_REASONS|
    ensures '\n' !in DROP_REASONS[i]
  {
    assert DROP_REASONS[i] in {"dns", "geo", "cidr", "asn", "geoblock", "ipv6", "unsupported"};
  }

  lemma {:induction false} DropsRead(fm: Format, parse: FloatParser, p: Progress, sources: seq<SourceReport>)
    requires Lawful(fm, parse) && Complete(sources)
    ensures Whole(DropSamples(fm, sources)) && TextRead(parse, p, DropSamples(fm, sources)) == p
  {
    hide SourceDrops, TextRead, Lawful;
    if sources == [] {
      NothingRead(parse, p);
    } else {
      var front, s := sources[..|sources| - 1], sources[|sources| - 1];
      DropsRead(fm, parse, p, front);
      SourceDropsRead(fm, parse, p, s, |DROP_REASONS|);
      TextAppends(parse, p, DropSamples(fm, front), SourceDrops(fm, s, |DROP_REASONS|));
    }
  }

  // ----- the whole scrape -----

  /** What a scrape of these sources is read back as. */
  function SourcesRead(fm: Format, sources: seq<SourceReport>): Progress
  {
    FamilyRead(fm, FamilyRead(fm, Progress(EMPTY_READING, false), sources, false), sources, true)
  }

  lemma TwoParts(parse: FloatParser, p: Progress, a: string, b: string, q: Progress, r: Progress)
    requires Whole(a) && Whole(b) && TextRead(parse, p, a) == q && TextRead(parse, q, b) == r
    ensures Whole(a + b) && TextRead(parse, p, a + b) == r
  {
    TextAppends(parse, p, a, b);
  }

  lemma FamilyTextRead(fm: Format, parse: FloatParser, p: Progress, family: string, sources: seq<SourceReport>)
    requires Lawful(fm, parse) && Exact(sources)
    requires Foreign(family) || family == TESTED_FAMILY || family == VALID_FAMILY
    ensures Whole(FamilyText(fm, family, sources))
    ensures Foreign(family) ==> TextRead(parse, p, FamilyText(fm, family, sources)) == p
    ensures family == TESTED_FAMILY ==> TextRead(parse, p, FamilyText(fm, family, sources)) == FamilyRead(fm, p, sources, true)
    ensures family == VALID_FAMILY ==> TextRead(parse, p, FamilyText(fm, family, sources)) == FamilyRead(fm, p, sources, false)
  {
    hide HelpText, FamilySamples, TextRead, Lawful, FamilyRead, Exact;
    FamiliesAreOneLine();
    HelpRead(fm, parse, p, family);
    if family == TESTED_FAMILY {
      WantedSamplesRead(fm, parse, p, sources, true);
    } else if family == VALID_FAMILY {
      WantedSamplesRead(fm, parse, p, sources, false);
    } else {
      ForeignSamplesRead(fm, parse, p, family, sources);
    }
    TwoParts(parse, p, HelpText(fm, family), FamilySamples(fm, family, sources), p,
             TextRead(parse, p, FamilySamples(fm, family, sources)));
  }

  lemma ScrapeReadsBack(fm: Format, parse: FloatParser, sources: seq<SourceReport>)
    requires Lawful(fm, parse) && Complete(sources) && Exact(sources)
    ensures TextRead(parse, Progress(EMPTY_READING, false), SourcesText(fm, sources)) == SourcesRead(fm, sources)
  {
    SourcesTextRead(fm, parse, Progress(EMPTY_READING, false), sources);
  }

  /** The same on top of whatever was read before. */
  lemma SourcesTextRead(fm: Format, parse: FloatParser, start: Progress, sources: seq<SourceReport>)
    requires Lawful(fm, parse) && Complete(sources) && Exact(sources)
    ensures TextRead(parse, start, SourcesText(fm, sources)) == FamilyRead(fm, FamilyRead(fm, start, sources, false), sources, true)
  {
    hide FamilyText, DropSamples, HelpText, TextRead, Lawful, FamilyRead, Whole, Complete, Exact;
    var mid := FamilyRead(fm, start, sources, false);
    var end := FamilyRead(fm, mid, sources, true);
    var a, b, c, d, e := FamilyText(fm, TOTAL_FAMILY, sources), FamilyText(fm, VALID_FAMILY, sources),
                         FamilyText(fm, TESTED_FAMILY, sources), FamilyText(fm, PUBLISHED_FAMILY, sources), DropText(fm, sources);
    FamilyTextRead(fm, parse, start, TOTAL_FAMILY, sources);
    FamilyTextRead(fm, parse, start, VALID_FAMILY, sources);
    FamilyTextRead(fm, parse, mid, TESTED_FAMILY, sources);
    FamilyTextRead(fm, parse, end, PUBLISHED_FAMILY, sources);
    FamiliesAreOneLine();
    HelpRead(fm, parse, end, DROPPED_FAMILY);
    DropsRead(fm, parse, end, sources);
    TwoParts(parse, end, HelpText(fm, DROPPED_FAMILY), DropSamples(fm, sources), end, end);
    TwoParts(parse, start, a, b, start, mid);
    TwoParts(parse, start, a + b, c, mid, end);
    TwoParts(parse, start, a + b + c, d, end, end);
    TwoParts(parse, start, a + b + c + d, e, end, end);
  }

  // ----- what the reading is -----

  /** The last source read under a name, or -1. */
  function LastNamed(fm: Format, sources: seq<SourceReport>, name: string): (i: int)
    ensures -1 <= i < |sources|
    ensures i >= 0 ==> Shown(fm, sources[i].name) == name
    ensures forall j :: i < j < |sources| ==> Shown(fm, sources[j].name) != name
  {
    hide Shown;
    if sources == [] then -1
    else if Shown(fm, sources[|sources| - 1].name) == name then |sources| - 1
    else LastNamed(fm, sources[..|sources| - 1], name)
  }

  /** After one family: a name holds the count of the last source read under it, or what it held before. */
  lemma {:induction false} FamilyReadIs(fm: Format, p: Progress, sources: seq<SourceReport>, tested: bool, name: string)
    ensures var m, before, last := FamilyRead(fm, p, sources, tested).reading.sources, p.reading.sources, LastNamed(fm, sources, name);
            if name == "" || last < 0 then (name in m <==> name in before) && (name in m ==> m[name] == before[name])
            else name in m
                 && m[name] == Counted(Get(before, name), if tested then sources[last].tested else sources[last].valid, tested)
    ensures FamilyRead(fm, p, sources, tested).reading.published == p.reading.published
    ensures FamilyRead(fm, p, sources, tested).found <==> p.found || exists s :: s in sources && Shown(fm, s.name) != ""
  {
    if sources != [] {
      var n := |sources| - 1;
      hide Shown;
      FamilyReadIs(fm, p, sources[..n], tested, name);
      SomeShown(fm, sources);
    }
  }

  lemma SomeShown(fm: Format, sources: seq<SourceReport>)
    requires sources != []
    ensures var n := |sources| - 1;
            (exists s :: s in sources && Shown(fm, s.name) != "") <==>
            Shown(fm, sources[n].name) != "" || exists s :: s in sources[..n] && Shown(fm, s.name) != ""
  {
    assert forall s :: s in sources <==> s in sources[..|sources| - 1] || s == sources[|sources| - 1];
  }

  /** What the reading holds for a name: the counts of the last source read under it, and nothing for a
      name nobody is read under, or for the empty one. */
  lemma ReadingHolds(fm: Format, sources: seq<SourceReport>, name: string)
    ensures var m, last := SourcesRead(fm, sources).reading.sources, LastNamed(fm, sources, name);
            && (name in m <==> name != "" && last >= 0)
            && (name in m ==> m[name] == Outcome(sources[last].tested, sources[last].valid))
    ensures SourcesRead(fm, sources).found <==> exists s :: s in sources && Shown(fm, s.name) != ""
    ensures SourcesRead(fm, sources).reading.published == 0
  {
    hide LastNamed, Shown, FamilyRead;
    var start := Progress(EMPTY_READING, false);
    var mid := FamilyRead(fm, start, sources, false);
    FamilyReadIs(fm, start, sources, false, name);
    FamilyReadIs(fm, mid, sources, true, name);
  }

  /** Every source's own counts are read back under its own name. */
  ghost predicate AllRecovered(fm: Format, sources: seq<SourceReport>)
  {
    var m := SourcesRead(fm, sources).reading.sources;
    forall k :: 0 <= k < |sources| ==>
      sources[k].name in m && m[sources[k].name] == Outcome(sources[k].tested, sources[k].valid)
  }

  /** The names that can be read back: UTF-8, not empty, and shared only by sources with equal counts. */
  ghost predicate Readable(fm: Format, sources: seq<SourceReport>)
  {
    && (forall k :: 0 <= k < |sources| ==> sources[k].name != "" && fm.utf8(sources[k].name))
    && (forall j, k :: 0 <= j < |sources| && 0 <= k < |sources| && sources[j].name == sources[k].name ==>
          sources[j].tested == sources[k].tested && sources[j].valid == sources[k].valid)
  }

  lemma ReadableIsRecovered(fm: Format, sources: seq<SourceReport>, k: nat)
    requires Readable(fm, sources) && k < |sources|
    ensures var m, name := SourcesRead(fm, sources).reading.sources, sources[k].name;
            name in m && m[name] == Outcome(sources[k].tested, sources[k].valid)
  {
    hide SourcesRead;
    ReadingHolds(fm, sources, sources[k].name);
    var last := LastNamed(fm, sources, sources[k].name);
    assert Shown(fm, sources[k].name) == sources[k].name && last >= k;
    assert Shown(fm, sources[last].name) == sources[last].name;
  }

  lemma RecoveredIsReadable(fm: Format, sources: seq<SourceReport>, k: nat)
    requires AllRecovered(fm, sources) && k < |sources| && fm.utf8(INVALID_LABEL_VALUE)
    ensures sources[k].name != "" && fm.utf8(sources[k].name)
  {
    hide SourcesRead;
    ReadingHolds(fm, sources, sources[k].name);
    var last := LastNamed(fm, sources, sources[k].name);
    assert Shown(fm, sources[last].name) == sources[k].name;
  }

  /** The round trip: every source is read back with its own counts exactly when the names are readable. */
  lemma RoundTripIffReadable(fm: Format, parse: FloatParser, sources: seq<SourceReport>)
    requires Lawful(fm, parse)
    ensures AllRecovered(fm, sources) <==> Readable(fm, sources)
  {
    LawfulStandIn(fm, parse);
    hide SourcesRead, Lawful;
    if AllRecovered(fm, sources) {
      forall k | 0 <= k < |sources| ensures sources[k].name != "" && fm.utf8(sources[k].name) {
        RecoveredIsReadable(fm, sources, k);
      }
    }
    if Readable(fm, sources) {
      forall k | 0 <= k < |sources|
        ensures var m := SourcesRead(fm, sources).reading.sources;
                sources[k].name in m && m[sources[k].name] == Outcome(sources[k].tested, sources[k].valid)
      {
        ReadableIsRecovered(fm, sources, k);
      }
    }
  }

  /** What is assumed of the number format and its parser can be met: decimal digits do. */
  lemma LawfulIsPossible() returns (fm: Format, parse: FloatParser)
    ensures Lawful(fm, parse)
  {
    fm := Format(s => true, (n: nat) => Decimals.Decimal(n), family => "");
    parse := s => Some(Number(Decimals.Spelled(s) as real));
    forall n: nat ensures IsToken(fm.number(n)) && parse(fm.number(n)) == Some(Number(n as real)) {
      DigitsAreToken(Decimals.Decimal(n));
      Decimals.SpelledDecimal(n);
    }
  }

  lemma DigitsAreToken(s: string)
    requires s != "" && forall i :: 0 <= i < |s| ==> Decimals.IsDigit(s[i])
    ensures IsToken(s)
  {
  }

  /** The alphabet the configuration allows a source name. */
  predicate ConfigName(name: string)
  {
    name != "" && forall i :: 0 <= i < |name| ==> 'a' <= name[i] <= 'z' || '0' <= name[i] <= '9' || name[i] == '-'
  }

  /** Every list the configuration admits is read back whole: its names are distinct and plain. */
  lemma ConfiguredNamesRoundTrip(fm: Format, parse: FloatParser, sources: seq<SourceReport>)
    requires Lawful(fm, parse) && forall name :: ConfigName(name) ==> fm.utf8(name)
    requires forall k :: 0 <= k < |sources| ==> ConfigName(sources[k].name)
    requires forall j, k :: 0 <= j < k < |sources| ==> sources[j].name != sources[k].name
    ensures AllRecovered(fm, sources)
  {
    hide Lawful, AllRecovered;
    RoundTripIffReadable(fm, parse, sources);
  }

  const NO_DROPS: seq<nat> := [0, 0, 0, 0, 0, 0, 0]
  const NAMELESS := SourceReport("", "", false, 1, 1, 1, 1, NO_DROPS)
  const TWIN := SourceReport("twin", "", false, 1, 1, 1, 1, NO_DROPS)
  const OTHER_TWIN := TWIN.(tested := 0)

  /** Nothing in the printer or the parser ensures that much: a nameless source is lost, and of two
      sources of one name with different counts one is. */
  lemma UnreadableLists(fm: Format, parse: FloatParser)
    requires Lawful(fm, parse)
    ensures Complete([NAMELESS]) && Exact([NAMELESS]) && !AllRecovered(fm, [NAMELESS])
    ensures Complete([TWIN, OTHER_TWIN]) && Exact([TWIN, OTHER_TWIN]) && !AllRecovered(fm, [TWIN, OTHER_TWIN])
  {
    hide Lawful, AllRecovered;
    RoundTripIffReadable(fm, parse, [NAMELESS]);
    RoundTripIffReadable(fm, parse, [TWIN, OTHER_TWIN]);
    assert [NAMELESS][0].name == "";
    assert [TWIN, OTHER_TWIN][0].name == [TWIN, OTHER_TWIN][1].name;
  }

  lemma LawfulStandIn(fm: Format, parse: FloatParser)
    requires Lawful(fm, parse)
    ensures fm.utf8(INVALID_LABEL_VALUE)
  {
  }

  // ----- the whole way, in terms of the reports -----

  const CLOCK_LINE := "stable_last_success_timestamp_seconds "

  /** The reports are those of a configured service: distinct plain names, every drop reason, exact counts. */
  ghost predicate Configured(fm: Format, sources: seq<SourceReport>)
  {
    && Complete(sources) && Exact(sources)
    && (forall name :: ConfigName(name) ==> fm.utf8(name))
    && (forall k :: 0 <= k < |sources| ==> ConfigName(sources[k].name))
    && (forall j, k :: 0 <= j < k < |sources| ==> sources[j].name != sources[k].name)
  }

  /** The reading holds each source's own two counts under its own name, nothing else, and that clock. */
  ghost predicate HoldsReports(r: Reading, sources: seq<SourceReport>, published: nat)
  {
    && r.published == published
    && (forall k :: 0 <= k < |sources| ==>
          sources[k].name in r.sources
          && r.sources[sources[k].name].survivors == sources[k].tested && r.sources[sources[k].name].valid == sources[k].valid)
    && (forall name :: name in r.sources ==> exists k :: 0 <= k < |sources| && sources[k].name == name)
  }

  /** What the probation rests on: a scrape of the service, its clock and its sources, is fetched as exactly
      its publish time and each source's survivors and valid nodes. */
  lemma ServiceIsRead(fm: Format, parse: FloatParser, sources: seq<SourceReport>, published: nat)
    requires Lawful(fm, parse) && Configured(fm, sources) && published < EXACT_COUNTS
    requires var body := CLOCK_LINE + fm.number(published) + "\n" + SourcesText(fm, sources);
             |body| <= 8388608 && !HasLongStretch(body)
    ensures var out := Fetch(parse, Reply(200, CLOCK_LINE + fm.number(published) + "\n" + SourcesText(fm, sources), true));
            out.Ok? && HoldsReports(out.reading, sources, published)
  {
    hide SourcesText, TextRead, TooLong, Lawful, FamilyRead, HasLongStretch, Configured, HoldsReports;
    var line := CLOCK_LINE + fm.number(published);
    ConfiguredMeans(fm, sources);
    var body := line + "\n" + SourcesText(fm, sources);
    TooLongIsLongStretch(body);
    var start := Progress(EMPTY_READING, false);
    var clocked := Progress(Reading(published, map[]), true);
    ClockRead(fm, parse, published);
    TextAppends(parse, start, line + "\n", SourcesText(fm, sources));
    SourcesTextRead(fm, parse, clocked, sources);
    ReadingIsReports(fm, parse, sources, published, true);
  }

  lemma ConfiguredMeans(fm: Format, sources: seq<SourceReport>)
    requires Configured(fm, sources)
    ensures Complete(sources) && Exact(sources)
  {
  }

  lemma ClockRead(fm: Format, parse: FloatParser, published: nat)
    requires Lawful(fm, parse) && published < EXACT_COUNTS
    ensures var line := CLOCK_LINE + fm.number(published);
            Whole(line + "\n")
            && TextRead(parse, Progress(EMPTY_READING, false), line + "\n") == Progress(Reading(published, map[]), true)
  {
    hide TextRead, LineFolded;
    var num := fm.number(published);
    var line := CLOCK_LINE + num;
    assert IsToken(num);
    NumberIsItself(fm, parse, published);
    ClockLine(parse, EMPTY_READING, num);
    assert '\n' !in line;
    assert line[|line| - 1] == num[|num| - 1] && num[|num| - 1] in num;
    LineAlone(parse, Progress(EMPTY_READING, false), line);
  }

  lemma NumberIsItself(fm: Format, parse: FloatParser, n: nat)
    requires Lawful(fm, parse) && n < EXACT_COUNTS
    ensures parse(fm.number(n)) == Some(Number(n as real)) && (n as real).Floor == n
    ensures 0.0 <= n as real < 18446744073709551616.0
  {
  }

  lemma ReadingIsReports(fm: Format, parse: FloatParser, sources: seq<SourceReport>, published: nat, found: bool)
    requires Lawful(fm, parse) && Configured(fm, sources)
    ensures var p := FamilyRead(fm, FamilyRead(fm, Progress(Reading(published, map[]), found), sources, false), sources, true);
            (p.found <==> found || sources != []) && HoldsReports(p.reading, sources, published)
  {
    hide FamilyRead, Lawful;
    var start := Progress(Reading(published, map[]), found);
    var mid := FamilyRead(fm, start, sources, false);
    var end := FamilyRead(fm, mid, sources, true);
    forall name
      ensures (name in end.reading.sources ==> exists k :: 0 <= k < |sources| && sources[k].name == name)
      ensures forall k :: 0 <= k < |sources| && sources[k].name == name ==>
                name in end.reading.sources && end.reading.sources[name] == Outcome(sources[k].tested, sources[k].valid)
    {
      FamilyReadIs(fm, start, sources, false, name);
      FamilyReadIs(fm, mid, sources, true, name);
      LastOfConfigured(fm, sources, name);
    }
    FamilyReadIs(fm, start, sources, false, "");
    FamilyReadIs(fm, mid, sources, true, "");
    if sources != [] {
      LastOfConfigured(fm, sources, sources[0].name);
      assert sources[0] in sources && Shown(fm, sources[0].name) == sources[0].name;
    }
  }

  lemma ConfiguredIsRead(fm: Format, parse: FloatParser, sources: seq<SourceReport>)
    requires Lawful(fm, parse) && Configured(fm, sources) && sources != []
    ensures HoldsReports(SourcesRead(fm, sources).reading, sources, 0)
    ensures exists s :: s in sources && Shown(fm, s.name) != ""
  {
    hide Configured, HoldsReports, FamilyRead, Lawful, Shown;
    ReadingIsReports(fm, parse, sources, 0, false);
    LastOfConfigured(fm, sources, "");
    assert sources[0] in sources;
  }

  /** In a configured list a name's last bearer is its only one. */
  lemma LastOfConfigured(fm: Format, sources: seq<SourceReport>, name: string)
    requires Configured(fm, sources)
    ensures var last := LastNamed(fm, sources, name);
            && (last >= 0 ==> sources[last].name == name != "")
            && (forall k :: 0 <= k < |sources| && sources[k].name == name ==> last == k)
    ensures forall k :: 0 <= k < |sources| ==> Shown(fm, sources[k].name) == sources[k].name != ""
  {
    hide LastNamed;
    forall k | 0 <= k < |sources| ensures Shown(fm, sources[k].name) == sources[k].name && sources[k].name != "" {
      assert ConfigName(sources[k].name);
    }
  }

  /** A scrape rendered by one side and fetched by the other. */
  method ScrapeAndFetch(fm: Format, parse: FloatParser, sources: seq<SourceReport>) returns (body: string, out: Fetched)
    requires Lawful(fm, parse) && Complete(sources) && Exact(sources)
    ensures out == if |body| > 8388608 || TooLong(body) then Unreadable
                   else if exists s :: s in sources && Shown(fm, s.name) != "" then Ok(SourcesRead(fm, sources).reading)
                   else NotService
    ensures Configured(fm, sources) && sources != [] && |body| <= 8388608 && !HasLongStretch(body) ==>
              out.Ok? && HoldsReports(out.reading, sources, 0)
  {
    hide *;
    if Configured(fm, sources) && sources != [] {
      ConfiguredIsRead(fm, parse, sources);
    }
    body := Scrape(fm, sources);
    out := FetchOutcomes(parse, Reply(200, body, true));
    WholeReply(fm, parse, sources, body);
    TooLongIsLongStretch(body);
  }

  lemma WholeReply(fm: Format, parse: FloatParser, sources: seq<SourceReport>, body: string)
    requires Lawful(fm, parse) && Complete(sources) && Exact(sources) && body == SourcesText(fm, sources)
    ensures Fetch(parse, Reply(200, body, true)) ==
            if |body| > 8388608 || TooLong(body) then Unreadable
            else if exists s :: s in sources && Shown(fm, s.name) != "" then Ok(SourcesRead(fm, sources).reading)
            else NotService
  {
    hide SourcesText, TextRead, TooLong, SourcesRead, Lawful;
    ScrapeReadsBack(fm, parse, sources);
    ReadingHolds(fm, sources, "");
  }
}
