/** internal/crawl/outcomes.go: reading the per-source families back out of an exposition. */
module Outcomes {
  import opened Basics

  const OUTCOMES_MAX_BODY := 8 * 1024 * 1024
  const OUTCOMES_MAX_LINE := 1024 * 1024
  const COUNT_CEIL: real := 9223372036854775808.0
  const CLOCK_CEIL: real := 18446744073709551616.0

  const CLOCK_PREFIX := "stable_last_success_timestamp_seconds "
  const TESTED_PREFIX := "stable_source_tested_nodes{"
  const VALID_PREFIX := "stable_source_valid_nodes{"
  const SOURCE_LABEL := "source"

  datatype Float = NaN | Infinite | Number(v: real)

  /** strconv.ParseFloat. */
  type FloatParser = string -> Option<Float>

  datatype Outcome = Outcome(survivors: nat, valid: nat)

  datatype Reading = Reading(published: nat, sources: map<string, Outcome>)

  const EMPTY_READING := Reading(0, map[])

  // ----- the parser, on values -----

  /** bytes.IndexByte. */
  function IndexOf(s: string, c: char): (i: int)
    ensures -1 <= i < |s|
    ensures i >= 0 ==> s[i] == c && c !in s[..i]
    ensures i < 0 ==> c !in s
  {
    if s == [] then -1
    else if s[0] == c then 0
    else
      var i := IndexOf(s[1..], c);
      if i < 0 then -1 else i + 1
  }

  /** Where the label value at the front of `t` ends, and whether it held an escape; -1 if it does not end. */
  function ValueEnd(t: string): (r: (int, bool))
    ensures -1 <= r.0 < |t| && (r.0 >= 0 ==> t[r.0] == '"')
  {
    if t == [] then (-1, false)
    else if t[0] == '"' then (0, false)
    else if t[0] == '\\' then
      if |t| < 2 then (-1, false)
      else
        var (e, x) := ValueEnd(t[2..]);
        if e < 0 then (-1, false) else (e + 2, true)
    else
      var (e, x) := ValueEnd(t[1..]);
      if e < 0 then (-1, false) else (e + 1, x)
  }

  /** What one backslash pair stands for; an unknown one stands for itself. */
  function Unpair(c: char): string
  {
    if c == '\\' then "\\" else if c == '"' then "\"" else if c == 'n' then "\n" else ['\\', c]
  }

  function Unescape(raw: string): string
  {
    if raw == [] then []
    else if raw[0] != '\\' || |raw| < 2 then [raw[0]] + Unescape(raw[1..])
    else Unpair(raw[1]) + Unescape(raw[2..])
  }

  /** The labels from the front of `t`: the source name seen last, and what follows the closing brace. */
  function Split(t: string, name: string): Option<(string, string)>
    decreases |t|
  {
    var eq := IndexOf(t, '=');
    if eq < 0 || eq + 1 >= |t| || t[eq + 1] != '"' then None
    else
      var v := t[eq + 2..];
      var (end, escaped) := ValueEnd(v);
      if end < 0 then None
      else
        var seen := if t[..eq] != SOURCE_LABEL then name else if escaped then Unescape(v[..end]) else v[..end];
        var rest := v[end + 1..];
        if rest == [] then None
        else if rest[0] == '}' then if seen != "" then Some((seen, rest[1..])) else None
        else if rest[0] != ',' then None
        else Split(rest[1..], seen)
  }

  predicate Blank(c: char) { c == ' ' || c == '\t' }

  function TrimLeft(s: string): string
  {
    if s != [] && Blank(s[0]) then TrimLeft(s[1..]) else s
  }

  function Token(s: string): string
  {
    if s == [] || Blank(s[0]) then [] else [s[0]] + Token(s[1..])
  }

  function ParseBelow(parse: FloatParser, rest: string, ceil: real): Option<nat>
  {
    var trimmed := TrimLeft(rest);
    if trimmed == [] then None
    else
      match parse(Token(trimmed))
      case Some(Number(v)) => if v < 0.0 || v >= ceil then None else Some(v.Floor)
      case _ => None
  }

  function Counted(o: Outcome, n: nat, tested: bool): Outcome
  {
    if tested then o.(survivors := n) else o.(valid := n)
  }

  function Get(m: map<string, Outcome>, name: string): Outcome
  {
    if name in m then m[name] else Outcome(0, 0)
  }

  function Update(m: map<string, Outcome>, name: string, n: nat, tested: bool): map<string, Outcome>
  {
    m[name := Counted(Get(m, name), n, tested)]
  }

  function SampleFolded(parse: FloatParser, r: Reading, rest: string, tested: bool): Option<Reading>
  {
    match Split(rest, "")
    case None => None
    case Some((name, value)) =>
      match ParseBelow(parse, value, COUNT_CEIL)
      case None => None
      case Some(n) => Some(r.(sources := Update(r.sources, name, n, tested)))
  }

  /** What a line adds to a reading, if it belongs to one of the three families and parses. */
  function LineFolded(parse: FloatParser, r: Reading, line: string): Option<Reading>
  {
    if CLOCK_PREFIX <= line then
      match ParseBelow(parse, line[|CLOCK_PREFIX|..], CLOCK_CEIL)
      case None => None
      case Some(v) => Some(r.(published := v))
    else if TESTED_PREFIX <= line then SampleFolded(parse, r, line[|TESTED_PREFIX|..], true)
    else if VALID_PREFIX <= line then SampleFolded(parse, r, line[|VALID_PREFIX|..], false)
    else None
  }

  /** A reading so far, and whether any line has contributed. */
  datatype Progress = Progress(reading: Reading, found: bool)

  function LineRead(parse: FloatParser, p: Progress, line: string): Progress
  {
    if line == [] || line[0] == '#' then p
    else
      match LineFolded(parse, p.reading, line)
      case None => p
      case Some(r) => Progress(r, true)
  }

  /** bufio.ScanLines drops one carriage return before the newline. */
  function DropCR(line: string): string
  {
    if line != [] && line[|line| - 1] == '\r' then line[..|line| - 1] else line
  }

  function TextRead(parse: FloatParser, p: Progress, text: string): Progress
    decreases |text|
  {
    if text == [] then p
    else
      var k := IndexOf(text, '\n');
      if k < 0 then LineRead(parse, p, DropCR(text))
      else TextRead(parse, LineRead(parse, p, DropCR(text[..k])), text[k + 1..])
  }

  /** Whether the scanner meets a line it has no room for. */
  predicate TooLong(text: string)
    decreases |text|
  {
    var k := IndexOf(text, '\n');
    if k < 0 then |text| >= OUTCOMES_MAX_LINE
    else k >= OUTCOMES_MAX_LINE || TooLong(text[k + 1..])
  }

  /** What the endpoint answered: nothing, or a status and a body that came whole or broke off. */
  datatype Reply = NoReply | Reply(status: int, body: string, whole: bool)

  datatype Fetched = Ok(reading: Reading) | Failed | BadStatus | Unreadable | NotService

  function Fetch(parse: FloatParser, reply: Reply): Fetched
  {
    if reply.NoReply? then Failed
    else if reply.status < 200 || reply.status >= 300 then BadStatus
    else if !reply.whole then Unreadable
    else Read(parse, reply.body)
  }

  function Read(parse: FloatParser, body: string): Fetched
  {
    if |body| > OUTCOMES_MAX_BODY || TooLong(body) then Unreadable
    else
      var p := TextRead(parse, Progress(EMPTY_READING, false), body);
      if p.found then Ok(p.reading) else NotService
  }

  // ----- what that means -----

  /** A value token holds neither of the blanks that end one. */
  ghost predicate Unbroken(t: string)
  {
    t != "" && ' ' !in t && '\t' !in t
  }

  lemma {:induction false} UnbrokenToken(t: string)
    requires ' ' !in t && '\t' !in t
    ensures Token(t) == t && TrimLeft(t) == t
  {
    if t != "" {
      UnbrokenToken(t[1..]);
      assert t == [t[0]] + t[1..];
    }
  }

  /** The clock: its line sets the publish time to the whole part of a number below 2^64, and one that
      carries anything else is skipped. No count is touched either way. */
  lemma ClockLine(parse: FloatParser, r: Reading, t: string)
    requires Unbroken(t)
    ensures var line := "stable_last_success_timestamp_seconds " + t;
            match parse(t)
            case Some(Number(v)) =>
              if 0.0 <= v < 18446744073709551616.0 then LineFolded(parse, r, line) == Some(Reading(v.Floor, r.sources))
              else LineFolded(parse, r, line) == None
            case _ => LineFolded(parse, r, line) == None
  {
    hide SampleFolded;
    var line := CLOCK_PREFIX + t;
    assert line[|CLOCK_PREFIX|..] == t;
    UnbrokenToken(t);
  }

  /** A count: its line sets that one count of the source it names to the whole part of a number below
      2^63, and one that carries anything else is skipped. The clock and every other source stand. */
  lemma CountLine(parse: FloatParser, r: Reading, tested: bool, labels: string, name: string, t: string)
    requires Unbroken(t) && Split(labels + " " + t, "") == Some((name, " " + t))
    ensures var line := (if tested then "stable_source_tested_nodes{" else "stable_source_valid_nodes{") + (labels + " " + t);
            var was := if name in r.sources then r.sources[name] else Outcome(0, 0);
            match parse(t)
            case Some(Number(v)) =>
              if 0.0 <= v < 9223372036854775808.0 then
                LineFolded(parse, r, line) == Some(Reading(r.published, r.sources[name :=
                  if tested then Outcome(v.Floor, was.valid) else Outcome(was.survivors, v.Floor)]))
              else LineFolded(parse, r, line) == None
            case _ => LineFolded(parse, r, line) == None
  {
    hide Split;
    var rest := labels + " " + t;
    assert (TESTED_PREFIX + rest)[|TESTED_PREFIX|..] == rest && (VALID_PREFIX + rest)[|VALID_PREFIX|..] == rest;
    UnbrokenToken(t);
    AfterBlank(t);
    PrefixesApart(rest);
  }

  lemma AfterBlank(t: string)
    requires Unbroken(t)
    ensures TrimLeft(" " + t) == t
  {
    UnbrokenToken(t);
    assert (" " + t)[1..] == t;
  }

  lemma PrefixesApart(rest: string)
    ensures !(CLOCK_PREFIX <= TESTED_PREFIX + rest) && !(CLOCK_PREFIX <= VALID_PREFIX + rest)
    ensures !(TESTED_PREFIX <= VALID_PREFIX + rest)
  {
    assert CLOCK_PREFIX[7] != (TESTED_PREFIX + rest)[7] && CLOCK_PREFIX[7] != (VALID_PREFIX + rest)[7];
    assert TESTED_PREFIX[14] != (VALID_PREFIX + rest)[14];
  }

  /** A pair that is no escape is left as it is, as is a backslash at the end. */
  lemma {:induction false} OtherPairsStay(raw: string)
    requires forall i :: 0 <= i < |raw| - 1 && raw[i] == '\\' ==> raw[i + 1] !in "\\\"n"
    ensures Unescape(raw) == raw
  {
    if raw != [] {
      if raw[0] != '\\' || |raw| < 2 {
        OtherPairsStay(raw[1..]);
        assert raw == [raw[0]] + raw[1..];
      } else {
        OtherPairsStay(raw[2..]);
        assert raw == ['\\', raw[1]] + raw[2..];
      }
    }
  }

  /** A line of another family adds nothing. */
  lemma OtherLine(parse: FloatParser, r: Reading, line: string)
    requires !("stable_last_success_timestamp_seconds " <= line)
    requires !("stable_source_tested_nodes{" <= line) && !("stable_source_valid_nodes{" <= line)
    ensures LineFolded(parse, r, line) == None
  {
  }

  /** 1 MiB of text without a newline in it. */
  ghost predicate LongStretch(text: string, i: nat)
  {
    i + 1048576 <= |text| && forall j :: i <= j < i + 1048576 ==> text[j] != '\n'
  }

  ghost predicate HasLongStretch(text: string)
  {
    exists i: nat :: LongStretch(text, i)
  }

  /** The scanner has no room for a line exactly when 1 MiB goes by without a newline. */
  lemma {:induction false} TooLongIsLongStretch(text: string)
    ensures TooLong(text) <==> HasLongStretch(text)
    decreases |text|
  {
    hide IndexOf, HasLongStretch, LongStretch;
    var k := IndexOf(text, '\n');
    if k < 0 {
      NoNewline(text);
    } else {
      TooLongIsLongStretch(text[k + 1..]);
      PastNewline(text, k);
    }
  }

  lemma NoNewline(text: string)
    requires '\n' !in text
    ensures HasLongStretch(text) <==> |text| >= 1048576
  {
    if |text| >= 1048576 {
      assert LongStretch(text, 0);
    }
  }

  /** A stretch of a text lies before its first newline or after it. */
  lemma PastNewline(text: string, k: nat)
    requires k < |text| && text[k] == '\n' && '\n' !in text[..k]
    ensures HasLongStretch(text) <==> k >= 1048576 || HasLongStretch(text[k + 1..])
  {
    var rest := text[k + 1..];
    if k >= 1048576 {
      assert forall j :: 0 <= j < k ==> text[j] == text[..k][j];
      assert LongStretch(text, 0);
    }
    if i: nat :| LongStretch(text, i) {
      if i > k {
        assert LongStretch(rest, i - k - 1);
      }
    }
    if i: nat :| LongStretch(rest, i) {
      assert forall j :: k + 1 <= j < |text| ==> text[j] == rest[j - k - 1];
      assert LongStretch(text, k + 1 + i);
    }
  }

  // ----- the code -----

  method LabelValueEnd(line: string, start: nat) returns (end: int, escaped: bool)
    requires start <= |line|
    ensures end >= 0 <==> ValueEnd(line[start..]).0 >= 0
    ensures end >= 0 ==> (end - start, escaped) == ValueEnd(line[start..])
  {
    hide ValueEnd;
    escaped := false;
    var i := start;
    while i < |line|
      invariant start <= i
      invariant i <= |line| ==>
                  var (e, x) := ValueEnd(line[i..]);
                  if e < 0 then ValueEnd(line[start..]).0 < 0 else ValueEnd(line[start..]) == (i - start + e, escaped || x)
      invariant i > |line| ==> ValueEnd(line[start..]).0 < 0
    {
      ValueEndAt(line, i);
      if line[i] == '\\' {
        escaped := true;
        i := i + 1;
      } else if line[i] == '"' {
        return i, escaped;
      }
      i := i + 1;
    }
    if i == |line| {
      ValueEndAt(line, i);
    }
    end := -1;
  }

  /** The scan, one character or escaped pair at a time. */
  lemma ValueEndAt(line: string, i: nat)
    requires i <= |line|
    ensures var (e, x) := ValueEnd(line[i..]);
            if i == |line| then e < 0
            else if line[i] == '"' then e == 0 && !x
            else if line[i] == '\\' then
              if i + 2 > |line| || ValueEnd(line[i + 2..]).0 < 0 then e < 0 else e == 2 + ValueEnd(line[i + 2..]).0 && x
            else if ValueEnd(line[i + 1..]).0 < 0 then e < 0 else (e, x) == (1 + ValueEnd(line[i + 1..]).0, ValueEnd(line[i + 1..]).1)
  {
    if i < |line| {
      assert line[i..][1..] == line[i + 1..];
      if i + 2 <= |line| {
        assert line[i..][2..] == line[i + 2..];
      }
    }
  }

  method UnescapeLabel(raw: string) returns (b: string)
    ensures b == Unescape(raw)
  {
    b := "";
    var i := 0;
    while i < |raw|
      invariant i <= |raw| && b + Unescape(raw[i..]) == Unescape(raw)
    {
      UnescapeStep(raw, i, b);
      if raw[i] != '\\' || i + 1 >= |raw| {
        b := b + [raw[i]];
        i := i + 1;
        continue;
      }
      match raw[i + 1] {
        case '\\' => b := b + "\\";
        case '"' => b := b + "\"";
        case 'n' => b := b + "\n";
        case c => b := b + [raw[i], c];
      }
      i := i + 2;
    }
    assert raw[i..] == "";
  }

  lemma UnescapeStep(raw: string, i: nat, b: string)
    requires i < |raw|
    ensures b + Unescape(raw[i..]) ==
            if raw[i] != '\\' || i + 1 >= |raw| then b + [raw[i]] + Unescape(raw[i + 1..])
            else b + Unpair(raw[i + 1]) + Unescape(raw[i + 2..])
  {
    assert raw[i..][1..] == raw[i + 1..];
    if i + 1 < |raw| {
      assert raw[i..][2..] == raw[i + 2..];
    }
  }

  method SplitSourceSample(line: string) returns (name: string, value: string, ok: bool)
    ensures ok <==> Split(line, "").Some?
    ensures ok ==> Split(line, "") == Some((name, value))
  {
    hide Split, ValueEnd, Unescape, IndexOf;
    name := "";
    var i := 0;
    assert line[0..] == line;
    while true
      invariant i <= |line| && Split(line[i..], name) == Split(line, "")
      decreases |line| - i
    {
      SplitStops(line, i, name);
      var rel := IndexOf(line[i..], '=');
      if rel < 0 {
        return "", "", false;
      }
      var eq := i + rel;
      var open := eq + 1;
      if open >= |line| || line[open] != '"' {
        return "", "", false;
      }
      var start := open + 1;
      var end, escaped := LabelValueEnd(line, start);
      if end < 0 {
        return "", "", false;
      }
      SplitStep(line, i, rel, end, escaped, name);
      if line[i..eq] == SOURCE_LABEL {
        var raw := line[start..end];
        if escaped {
          name := UnescapeLabel(raw);
        } else {
          name := raw;
        }
      }
      i := end + 1;
      if i >= |line| {
        return "", "", false;
      }
      if line[i] == '}' {
        return name, line[i + 1..], name != "";
      }
      if line[i] != ',' {
        return "", "", false;
      }
      i := i + 1;
    }
  }

  /** Where the walk gives up on a label. */
  lemma SplitStops(line: string, i: nat, name: string)
    requires i <= |line|
    ensures var rel := IndexOf(line[i..], '=');
            && (rel < 0 || i + rel + 1 >= |line| || line[i + rel + 1] != '"' ==> Split(line[i..], name).None?)
            && (rel >= 0 && i + rel + 1 < |line| && line[i + rel + 1] == '"' && ValueEnd(line[i + rel + 2..]).0 < 0 ==>
                  Split(line[i..], name).None?)
  {
    hide ValueEnd, Unescape, IndexOf;
    var rel := IndexOf(line[i..], '=');
    if rel >= 0 && i + rel + 1 < |line| {
      assert line[i..][rel + 2..] == line[i + rel + 2..];
    }
  }

  /** One label of the walk, in the line's own indices. */
  lemma SplitStep(line: string, i: nat, rel: nat, end: nat, escaped: bool, name: string)
    requires i <= |line| && IndexOf(line[i..], '=') == rel && i + rel + 1 < |line| && line[i + rel + 1] == '"'
    requires var start := i + rel + 2; ValueEnd(line[start..]) == (end - start, escaped) && end >= start
    ensures end < |line|
    ensures var seen := if line[i..i + rel] != SOURCE_LABEL then name
                        else if escaped then Unescape(line[i + rel + 2..end]) else line[i + rel + 2..end];
            Split(line[i..], name) ==
              if end + 1 == |line| then None
              else if line[end + 1] == '}' then if seen != "" then Some((seen, line[end + 2..])) else None
              else if line[end + 1] != ',' then None
              else Split(line[end + 2..], seen)
  {
    hide ValueEnd, Unescape, IndexOf;
    var t, start := line[i..], i + rel + 2;
    var v := t[rel + 2..];
    assert v == line[start..] && t[..rel] == line[i..i + rel];
    assert v[..end - start] == line[start..end];
    var rest := v[end - start + 1..];
    assert rest == line[end + 1..];
    if rest != [] {
      assert rest[1..] == line[end + 2..];
    }
  }

  method ParseFloatValue(parse: FloatParser, rest: string) returns (f: Option<Float>)
    ensures f == if TrimLeft(rest) == [] then None else parse(Token(TrimLeft(rest)))
  {
    var i := 0;
    assert rest[0..] == rest;
    while i < |rest| && Blank(rest[i])
      invariant i <= |rest| && TrimLeft(rest[i..]) == TrimLeft(rest)
    {
      assert rest[i..][1..] == rest[i + 1..];
      i := i + 1;
    }
    var trimmed := rest[i..];
    assert TrimLeft(trimmed) == trimmed;
    if |trimmed| == 0 {
      return None;
    }
    var j := 0;
    assert trimmed[0..] == trimmed && trimmed[..0] + Token(trimmed) == Token(trimmed);
    while j < |trimmed| && !Blank(trimmed[j])
      invariant j <= |trimmed| && trimmed[..j] + Token(trimmed[j..]) == Token(trimmed)
    {
      assert trimmed[j..][1..] == trimmed[j + 1..];
      assert trimmed[..j + 1] == trimmed[..j] + [trimmed[j]];
      j := j + 1;
    }
    assert Token(trimmed[j..]) == "" && trimmed[..j] + "" == trimmed[..j];
    f := parse(trimmed[..j]);
  }

  method ParseCount(parse: FloatParser, rest: string, ceil: real) returns (n: Option<nat>)
    ensures n == ParseBelow(parse, rest, ceil)
  {
    var f := ParseFloatValue(parse, rest);
    match f
    case Some(Number(v)) => n := if v < 0.0 || v >= ceil then None else Some(v.Floor);
    case _ => n := None;
  }

  class OutcomeReading {
    var published: nat
    var sources: map<string, Outcome>

    constructor ()
      ensures State() == EMPTY_READING
    {
      published, sources := 0, map[];
    }

    function State(): Reading
      reads this
    {
      Reading(published, sources)
    }

    method FoldSample(parse: FloatParser, rest: string, tested: bool) returns (contributed: bool)
      modifies this
      ensures var r := SampleFolded(parse, old(State()), rest, tested);
              (contributed <==> r.Some?) && State() == if r.Some? then r.value else old(State())
    {
      var name, value, ok := SplitSourceSample(rest);
      if !ok {
        return false;
      }
      var n := ParseCount(parse, value, COUNT_CEIL);
      if n.None? {
        return false;
      }
      var o := if name in sources then sources[name] else Outcome(0, 0);
      if tested {
        o := o.(survivors := n.value);
      } else {
        o := o.(valid := n.value);
      }
      sources := sources[name := o];
      contributed := true;
    }

    method FoldLine(parse: FloatParser, line: string) returns (contributed: bool)
      modifies this
      ensures var r := LineFolded(parse, old(State()), line);
              (contributed <==> r.Some?) && State() == if r.Some? then r.value else old(State())
    {
      if CLOCK_PREFIX <= line {
        var v := ParseCount(parse, line[|CLOCK_PREFIX|..], CLOCK_CEIL);
        if v.None? {
          return false;
        }
        published := v.value;
        return true;
      }
      if TESTED_PREFIX <= line {
        contributed := FoldSample(parse, line[|TESTED_PREFIX|..], true);
        return;
      }
      if VALID_PREFIX <= line {
        contributed := FoldSample(parse, line[|VALID_PREFIX|..], false);
        return;
      }
      contributed := false;
    }
  }

  method FetchOutcomes(parse: FloatParser, reply: Reply) returns (out: Fetched)
    ensures out == Fetch(parse, reply)
    ensures out.Ok? ==> reply.Reply? && 200 <= reply.status <= 299 && reply.whole && |reply.body| <= 8388608
                        && !HasLongStretch(reply.body)
  {
    if reply.Reply? {
      TooLongIsLongStretch(reply.body);
    }
    hide HasLongStretch, TooLong, TextRead;
    if reply.NoReply? {
      return Failed;
    }
    if reply.status < 200 || reply.status >= 300 {
      return BadStatus;
    }
    if !reply.whole {
      return Unreadable;
    }
    out := ReadOutcomes(parse, reply.body);
  }

  method ReadOutcomes(parse: FloatParser, body: string) returns (out: Fetched)
    ensures out == Read(parse, body)
  {
    if |body| > OUTCOMES_MAX_BODY {
      return Unreadable;
    }
    var reading := new OutcomeReading();
    var found := false;
    var rest := body;
    while |rest| > 0
      invariant TextRead(parse, Progress(reading.State(), found), rest) == TextRead(parse, Progress(EMPTY_READING, false), body)
      invariant TooLong(rest) <==> TooLong(body)
      invariant fresh(reading)
      decreases |rest|
    {
      hide LineFolded, IndexOf, TextRead, TooLong;
      TextStep(parse, Progress(reading.State(), found), rest);
      var k := IndexOf(rest, '\n');
      var length := if k < 0 then |rest| else k;
      if length >= OUTCOMES_MAX_LINE {
        return Unreadable;
      }
      var line := DropCR(rest[..length]);
      rest := if k < 0 then "" else rest[k + 1..];
      if |line| > 0 && line[0] != '#' {
        var contributed := reading.FoldLine(parse, line);
        if contributed {
          found := true;
        }
      }
    }
    out := if found then Ok(reading.State()) else NotService;
  }

  lemma TextStep(parse: FloatParser, p: Progress, text: string)
    requires text != ""
    ensures var k := IndexOf(text, '\n');
            var length := if k < 0 then |text| else k;
            var rest := if k < 0 then "" else text[k + 1..];
            && TextRead(parse, p, text) == TextRead(parse, LineRead(parse, p, DropCR(text[..length])), rest)
            && (TooLong(text) <==> length >= OUTCOMES_MAX_LINE || TooLong(rest))
  {
    hide LineRead, DropCR;
    assert text[..|text|] == text;
  }
}
