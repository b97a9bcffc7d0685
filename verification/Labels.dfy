/** internal/stable/label.go and merge.go: the `<source>-NNN` labels, and the way back from them. */
module Labels {
  import opened Decimals

  const LABEL_PAD_WIDTH := 3

  function Zeros(n: nat): (z: string)
    ensures |z| == n && forall i :: 0 <= i < n ==> z[i] == '0'
  {
    seq(n, _ => '0')
  }

  /** A decimal, zero-padded to three digits. */
  function Pad3(v: nat): string
  {
    var d := Decimal(v);
    Zeros(if |d| < LABEL_PAD_WIDTH then LABEL_PAD_WIDTH - |d| else 0) + d
  }

  function Label(source: string, ordinal: nat): string
  {
    source + "-" + Pad3(ordinal)
  }

  lemma {:induction false} DecimalLength(v: nat)
    ensures |Decimal(v)| == if v < 10 then 1 else 1 + |Decimal(v / 10)|
  {
  }

  /** appendPad3: the digits are counted before any is written. */
  method AppendPad3(b: string, v: nat) returns (r: string)
    ensures r == b + Pad3(v)
  {
    r := b;
    var digits, n := 1, v;
    while n >= 10
      invariant digits + |Decimal(n)| - 1 == |Decimal(v)|
      invariant n < 10 ==> |Decimal(n)| == 1
    {
      DecimalLength(n);
      n := n / 10;
      DecimalLength(n);
      digits := digits + 1;
    }
    ghost var width := digits;
    while digits < LABEL_PAD_WIDTH
      invariant width <= digits && (width < LABEL_PAD_WIDTH ==> digits <= LABEL_PAD_WIDTH) && (width >= LABEL_PAD_WIDTH ==> digits == width)
      invariant r == b + Zeros(digits - width)
    {
      ghost var done := digits - width;
      assert Zeros(done) + "0" == Zeros(done + 1);
      assert b + Zeros(done) + "0" == b + (Zeros(done) + "0");
      r := r + "0";
      digits := digits + 1;
    }
    assert r + Decimal(v) == b + (Zeros(digits - width) + Decimal(v));
    r := r + Decimal(v);
  }

  lemma {:induction false} SpelledPadded(zeros: nat, s: string)
    ensures Spelled(Zeros(zeros) + s) == Spelled(s)
  {
    var all := Zeros(zeros) + s;
    if s != [] {
      assert all[..|all| - 1] == Zeros(zeros) + s[..|s| - 1];
      SpelledPadded(zeros, s[..|s| - 1]);
    } else if zeros > 0 {
      assert all[..|all| - 1] == Zeros(zeros - 1) + s;
      SpelledPadded(zeros - 1, s);
    }
  }

  lemma {:induction false} DecimalStarts(v: nat)
    ensures v > 0 ==> Decimal(v)[0] != '0'
    ensures v < 10 ==> |Decimal(v)| == 1
  {
    if v >= 10 {
      DecimalStarts(v / 10);
    }
  }

  lemma Pad3IsDigits(v: nat)
    ensures |Pad3(v)| >= 3 && forall i :: 0 <= i < |Pad3(v)| ==> IsDigit(Pad3(v)[i])
    ensures Spelled(Pad3(v)) == v && (|Pad3(v)| > 3 ==> Pad3(v)[0] != '0')
  {
    DecimalStarts(v);
    var d := Decimal(v);
    SpelledDecimal(v);
    SpelledPadded(if |d| < LABEL_PAD_WIDTH then LABEL_PAD_WIDTH - |d| else 0, d);
  }

  // ----- the way back -----

  /** strings.LastIndexByte. */
  function LastIndex(s: string, c: char): (i: int)
    ensures -1 <= i < |s|
    ensures i >= 0 ==> s[i] == c
    ensures forall j :: i < j < |s| ==> s[j] != c
  {
    if s == [] then -1
    else if s[|s| - 1] == c then |s| - 1
    else LastIndex(s[..|s| - 1], c)
  }

  /** The source half of a label: everything before the last '-' when digits alone follow it. */
  function SourceOf(tag: string): string
  {
    var i := LastIndex(tag, '-');
    if i <= 0 || i == |tag| - 1 || exists j :: i < j < |tag| && !IsDigit(tag[j]) then tag
    else tag[..i]
  }

  method SourceOfLabel(tag: string) returns (source: string)
    ensures source == SourceOf(tag)
  {
    var i := LastIndex(tag, '-');
    if i <= 0 || i == |tag| - 1 {
      return tag;
    }
    for j := i + 1 to |tag|
      invariant forall m :: i < m < j ==> IsDigit(tag[m])
    {
      if tag[j] < '0' || tag[j] > '9' {
        return tag;
      }
    }
    source := tag[..i];
  }

  /** `tag` is `source`, a dash, and nothing but digits. */
  ghost predicate IsNumbered(tag: string, source: string)
  {
    && source != "" && |source| + 1 < |tag| && tag[..|source|] == source && tag[|source|] == '-'
    && forall j :: |source| < j < |tag| ==> '0' <= tag[j] <= '9'
  }

  /** A label that is a numbered name gives that name, and anything else itself. */
  lemma SourceIsNumbered(tag: string, source: string)
    ensures IsNumbered(tag, source) ==> SourceOf(tag) == source
    ensures SourceOf(tag) != tag ==> IsNumbered(tag, SourceOf(tag))
  {
    if IsNumbered(tag, source) {
      assert LastIndex(tag, '-') == |source|;
    }
  }

  lemma LastDash(source: string, ordinal: nat)
    ensures LastIndex(Label(source, ordinal), '-') == |source|
  {
    var tag := Label(source, ordinal);
    Pad3IsDigits(ordinal);
    forall j | |source| < j < |tag| ensures tag[j] != '-' {
      assert tag[j] == Pad3(ordinal)[j - |source| - 1];
    }
    assert tag[|source|] == '-';
  }

  /** A label gives its source back, whatever the name holds, exactly when the name is not empty. */
  lemma SourceOfItsLabel(source: string, ordinal: nat)
    ensures SourceOf(Label(source, ordinal)) == source <==> source != ""
  {
    var tag := Label(source, ordinal);
    Pad3IsDigits(ordinal);
    LastDash(source, ordinal);
    forall j | |source| < j < |tag| ensures IsDigit(tag[j]) {
      assert tag[j] == Pad3(ordinal)[j - |source| - 1];
    }
    assert tag[..|source|] == source;
  }

  /** Labels are injective: the name and the ordinal can both be read off one. */
  lemma LabelIsInjective(a: string, m: nat, b: string, n: nat)
    requires Label(a, m) == Label(b, n)
    ensures a == b && m == n
  {
    LastDash(a, m);
    LastDash(b, n);
    var tag := Label(a, m);
    assert tag[..|a|] == a && tag[..|b|] == b;
    assert tag[|a| + 1..] == Pad3(m) && tag[|b| + 1..] == Pad3(n);
    Pad3IsDigits(m);
    Pad3IsDigits(n);
  }

  // ----- mieru proxy names -----

  /** A mieru link expands into proxies named `<label>:<port>/<protocol>`; this folds one back. */
  function FoldMieruName(name: string, mieru: bool): string
  {
    if !mieru then name
    else
      var i := LastIndex(name, ':');
      if i <= 0 then name else name[..i]
  }

  /** Folding undoes the expansion: for every label of ours, and every port and protocol without a colon. */
  lemma FoldUndoesExpansion(source: string, ordinal: nat, suffix: string)
    requires ':' !in suffix
    ensures FoldMieruName(source, false) == source
    ensures FoldMieruName(Label(source, ordinal) + ":" + suffix, true) == Label(source, ordinal)
  {
    var tag := Label(source, ordinal);
    var name := tag + ":" + suffix;
    forall j | |tag| < j < |name| ensures name[j] != ':' {
      assert name[j] == suffix[j - |tag| - 1];
    }
    assert name[|tag|] == ':' && name[..|tag|] == tag;
  }
}
