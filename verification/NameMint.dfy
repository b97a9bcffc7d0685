/** internal/crawl/crawl.go: the name a managed source is minted under. */
module NameMint {
  import opened Decimals

  const MAX_SLUG := 24

  /** Where a URL was seen: a channel's raw slug and post id, or a ready-made stem with its own feed. */
  datatype Origin = Origin(slug: string, post: nat, stem: string, feed: string)

  const UNKNOWN_ORIGIN := Origin("", 0, "", "")

  // ----- channel slugs -----

  predicate AsciiUpper(c: char) { 'A' <= c <= 'Z' }

  predicate SlugChar(c: char) { 'a' <= c <= 'z' || IsDigit(c) }

  predicate Usable(c: char) { AsciiUpper(c) || SlugChar(c) }

  /** One character of a channel name joins the slug lowercased, as a single dash, or not at all. */
  function SlugStep(slug: string, c: char): string
  {
    if AsciiUpper(c) then slug + [c - 'A' + 'a']
    else if SlugChar(c) then slug + [c]
    else if (c == '_' || c == '-') && slug != "" && slug[|slug| - 1] != '-' then slug + "-"
    else slug
  }

  /** The slug gathered from a whole channel name, before its trailing dashes go. */
  function Gathered(ch: string): (slug: string)
    ensures |slug| <= MAX_SLUG
  {
    if ch == "" then ""
    else
      var slug := Gathered(ch[..|ch| - 1]);
      if |slug| < MAX_SLUG then SlugStep(slug, ch[|ch| - 1]) else slug
  }

  function TrimDashes(slug: string): string
  {
    if slug != "" && slug[|slug| - 1] == '-' then TrimDashes(slug[..|slug| - 1]) else slug
  }

  function Slug(ch: string): string
  {
    TrimDashes(Gathered(ch))
  }

  method ChannelSlug(ch: string) returns (slug: string)
    ensures slug == Slug(ch)
  {
    slug := "";
    var i := 0;
    while i < |ch| && |slug| < MAX_SLUG
      invariant 0 <= i <= |ch| && slug == Gathered(ch[..i])
    {
      assert ch[..i + 1][..i] == ch[..i];
      slug := SlugStep(slug, ch[i]);
      i := i + 1;
    }
    FullStays(ch, i);
    while |slug| > 0 && slug[|slug| - 1] == '-'
      invariant TrimDashes(slug) == Slug(ch)
    {
      slug := slug[..|slug| - 1];
    }
  }

  lemma {:induction false} FullStays(ch: string, i: nat)
    requires i <= |ch| && (i == |ch| || |Gathered(ch[..i])| >= MAX_SLUG)
    ensures Gathered(ch) == Gathered(ch[..i])
  {
    if i < |ch| {
      var front := ch[..|ch| - 1];
      assert front[..i] == ch[..i];
      FullStays(front, i);
    } else {
      assert ch[..i] == ch;
    }
  }

  /** What a slug may look like inside: name characters, no leading dash, no two dashes together. */
  ghost predicate Inner(s: string)
  {
    && (forall i :: 0 <= i < |s| ==> SlugChar(s[i]) || s[i] == '-')
    && (s != "" ==> s[0] != '-')
    && (forall i :: 0 < i < |s| ==> s[i - 1] != '-' || s[i] != '-')
  }

  /** A finished slug: also at most 24 long, and not ending in a dash. */
  ghost predicate WellFormedSlug(s: string)
  {
    Inner(s) && |s| <= 24 && (s != "" ==> s[|s| - 1] != '-')
  }

  lemma {:induction false} GatheredIsInner(ch: string)
    ensures Inner(Gathered(ch))
    ensures Gathered(ch) == "" <==> forall i :: 0 <= i < |ch| ==> !Usable(ch[i])
  {
    if ch != "" {
      var front := ch[..|ch| - 1];
      GatheredIsInner(front);
      assert forall i :: 0 <= i < |front| ==> front[i] == ch[i];
    }
  }

  lemma {:induction false} TrimKeepsInner(s: string)
    requires Inner(s)
    ensures Inner(TrimDashes(s)) && |TrimDashes(s)| <= |s|
    ensures TrimDashes(s) != "" ==> TrimDashes(s)[|TrimDashes(s)| - 1] != '-'
    ensures TrimDashes(s) == "" <==> s == ""
  {
    if s != "" && s[|s| - 1] == '-' {
      TrimKeepsInner(s[..|s| - 1]);
    }
  }

  /** Every slug is well formed, and is empty exactly when the channel name has no usable character. */
  lemma SlugIsWellFormed(ch: string)
    ensures WellFormedSlug(Slug(ch))
    ensures Slug(ch) == "" <==> forall i :: 0 <= i < |ch| ==> !Usable(ch[i])
  {
    GatheredIsInner(ch);
    TrimKeepsInner(Gathered(ch));
  }

  lemma {:induction false} InnerGathersItself(s: string)
    requires Inner(s) && |s| <= MAX_SLUG
    ensures Gathered(s) == s
  {
    if s != "" {
      InnerGathersItself(s[..|s| - 1]);
      assert s == s[..|s| - 1] + [s[|s| - 1]];
    }
  }

  /** Slugs are exactly the strings normalising leaves alone. */
  lemma SlugIsFixed(s: string)
    ensures Slug(s) == s <==> WellFormedSlug(s)
    ensures Slug(Slug(s)) == Slug(s)
  {
    SlugIsWellFormed(s);
    if WellFormedSlug(s) {
      InnerGathersItself(s);
    }
    InnerGathersItself(Slug(s));
  }

  /** The rest of a channel name, gathered onto a slug. */
  ghost function GatheredOnto(slug: string, rest: string): string
    decreases |rest|
  {
    if rest == "" then slug
    else GatheredOnto(if |slug| < MAX_SLUG then SlugStep(slug, rest[0]) else slug, rest[1..])
  }

  lemma {:induction false} GatherParts(a: string, b: string)
    ensures Gathered(a + b) == GatheredOnto(Gathered(a), b)
    decreases |b|
  {
    if b == "" {
      assert a + b == a;
    } else {
      GatherParts(a + [b[0]], b[1..]);
      assert a + [b[0]] + b[1..] == a + b && (a + [b[0]])[..|a|] == a;
    }
  }

  lemma GatherMiddle(a: string, c: char, b: string)
    ensures Gathered(a + ([c] + b)) == GatheredOnto(if |Gathered(a)| < MAX_SLUG then SlugStep(Gathered(a), c) else Gathered(a), b)
  {
    GatherParts(a, [c] + b);
    assert ([c] + b)[1..] == b;
  }

  /** Wherever it stands in a channel name: a capital counts as its small letter, an underscore as a
      dash, two dashes as one, and any other character as nothing. */
  lemma SlugNormalises(a: string, c: char, b: string)
    ensures 'A' <= c <= 'Z' ==> Slug(a + ([c] + b)) == Slug(a + ([(c as int + 32) as char] + b))
    ensures Slug(a + ("_" + b)) == Slug(a + ("-" + b)) == Slug(a + ("-" + ("-" + b)))
    ensures !('A' <= c <= 'Z' || 'a' <= c <= 'z' || '0' <= c <= '9' || c == '_' || c == '-') ==> Slug(a + ([c] + b)) == Slug(a + b)
  {
    hide Gathered;
    GatherMiddle(a, c, b);
    GatherParts(a, b);
    GatherMiddle(a, '_', b);
    GatherMiddle(a, '-', b);
    GatherMiddle(a, '-', "-" + b);
    assert ("-" + b)[1..] == b;
    if 'A' <= c <= 'Z' {
      GatherMiddle(a, (c as int + 32) as char, b);
    }
  }

  /** The feed a mint writes for an origin. */
  function FeedOf(o: Origin): string
  {
    if o.feed != "" then o.feed else Slug(o.slug)
  }

  // ----- names -----

  /** A name made of a URL's hash alone: ten lowercase hex digits. */
  predicate IsHashName(s: string)
  {
    |s| == 10 && forall i :: 0 <= i < |s| ==> IsDigit(s[i]) || 'a' <= s[i] <= 'f'
  }

  /** The GitHub phase's stems open with "gh", so none reads as a hash. */
  predicate ValidOrigin(o: Origin)
  {
    o.stem != [] ==> |o.stem| >= 2 && o.stem[0] == 'g'
  }

  function Sibling(stem: string, ordinal: nat): string
  {
    stem + "-" + Decimal(ordinal)
  }

  lemma SiblingIsInjective(stem: string, a: nat, b: nat)
    requires Sibling(stem, a) == Sibling(stem, b)
    ensures a == b
  {
    var n := |stem| + 1;
    assert Sibling(stem, a)[n..] == Decimal(a) && Sibling(stem, b)[n..] == Decimal(b);
    DecimalIsInjective(a, b);
  }

  ghost predicate TakenRun(stem: string, start: nat, n: nat, used: set<string>)
  {
    forall k: nat :: start <= k < start + n ==> Sibling(stem, k) in used
  }

  /** Pigeonhole: `n` ordinals in a row can all be taken only if `used` holds that many names besides the stem. */
  lemma {:induction false} TakenRunFits(stem: string, start: nat, n: nat, used: set<string>)
    requires TakenRun(stem, start, n, used)
    ensures n <= |used - {stem}|
  {
    if n > 0 {
      var last := Sibling(stem, start + n - 1);
      assert |last| > |stem|;
      var fewer := used - {last};
      forall k: nat | start <= k < start + (n - 1) ensures Sibling(stem, k) in fewer {
        if Sibling(stem, k) == last { SiblingIsInjective(stem, k, start + n - 1); }
      }
      TakenRunFits(stem, start, n - 1, fewer);
      assert used - {stem} == (fewer - {stem}) + {last};
    }
  }

  /** The first sibling from `start` that nobody holds, found at or before ordinal |used| + 1. */
  ghost predicate IsFirstFree(name: string, stem: string, start: nat, used: set<string>)
  {
    exists k: nat :: start <= k <= |used| + 1 && name == Sibling(stem, k) && name !in used && TakenRun(stem, start, k - start, used)
  }

  method FirstFree(stem: string, start: nat, used: set<string>) returns (name: string)
    requires start == 1 || (start == 2 && stem in used)
    ensures IsFirstFree(name, stem, start, used)
  {
    var ordinal := start;
    name := Sibling(stem, ordinal);
    while name in used
      invariant start <= ordinal && name == Sibling(stem, ordinal)
      invariant TakenRun(stem, start, ordinal - start, used)
      decreases |used| - (ordinal - start)
    {
      TakenRunFits(stem, start, ordinal + 1 - start, used);
      NoMoreThan(used, stem);
      ordinal := ordinal + 1;
      name := Sibling(stem, ordinal);
    }
    TakenRunFits(stem, start, ordinal - start, used);
    NoMoreThan(used, stem);
  }

  lemma NoMoreThan(used: set<string>, stem: string)
    ensures |used - {stem}| == if stem in used then |used| - 1 else |used|
  {
    if stem in used {
      assert used == (used - {stem}) + {stem};
    } else {
      assert used - {stem} == used;
    }
  }

  /** The stem itself when it is free, else its first free sibling from 2. */
  ghost predicate IsUnique(name: string, stem: string, used: set<string>)
  {
    if stem !in used then name == stem else IsFirstFree(name, stem, 2, used)
  }

  method UniqueName(stem: string, used: set<string>) returns (name: string)
    ensures IsUnique(name, stem, used)
  {
    if stem !in used {
      return stem;
    }
    name := FirstFree(stem, 2, used);
  }

  /** An existing name is kept unless it is a bare hash whose origin is now known. */
  predicate KeepsName(existing: string, o: Origin)
  {
    existing != "" && (!IsHashName(existing) || (o.stem == "" && Slug(o.slug) == ""))
  }

  /** Neither a name nor a usable origin: only the URL's hash is left. */
  predicate Unattributed(existing: string, o: Origin)
  {
    existing == "" && o.stem == "" && Slug(o.slug) == ""
  }

  ghost predicate IsSourceName(name: string, hash: string, existing: string, o: Origin, used: set<string>)
  {
    if KeepsName(existing, o) then name == existing
    else if Unattributed(existing, o) then name == hash
    else if o.stem != "" then IsUnique(name, o.stem, used)
    else if o.post == 0 then IsFirstFree(name, Slug(o.slug), 1, used)
    else IsUnique(name, Sibling(Slug(o.slug), o.post), used)
  }

  method SourceName(hash: string, existing: string, o: Origin, used: set<string>) returns (name: string)
    ensures IsSourceName(name, hash, existing, o, used)
  {
    hide Slug;
    if existing != "" && !IsHashName(existing) {
      return existing;
    }
    if o.stem != "" {
      name := UniqueName(o.stem, used);
      return;
    }
    var slug := ChannelSlug(o.slug);
    if slug != "" {
      if o.post != 0 {
        name := Sibling(slug, o.post);
        if name !in used {
          return;
        }
        name := FirstFree(name, 2, used);
        return;
      }
      name := FirstFree(slug, 1, used);
      return;
    }
    if existing != "" {
      return existing;
    }
    return hash;
  }

  /** A name that is created from an origin is one nobody held. */
  lemma CreatedNameIsFree(name: string, hash: string, existing: string, o: Origin, used: set<string>)
    requires IsSourceName(name, hash, existing, o, used)
    requires !KeepsName(existing, o) && !Unattributed(existing, o)
    ensures name !in used
  {
  }

  /** A name created from an origin never has the bare-hash form. */
  lemma CreatedNameIsNoHash(name: string, hash: string, existing: string, o: Origin, used: set<string>)
    requires IsSourceName(name, hash, existing, o, used) && ValidOrigin(o)
    requires !KeepsName(existing, o) && !Unattributed(existing, o)
    ensures !IsHashName(name)
  {
    if o.stem != "" {
      assert name[0] == 'g';
    } else {
      assert name[|Slug(o.slug)|] == '-';
    }
  }

  lemma CreatedNameIsNotEmpty(name: string, hash: string, existing: string, o: Origin, used: set<string>)
    requires IsSourceName(name, hash, existing, o, used)
    requires !KeepsName(existing, o) && !Unattributed(existing, o)
    ensures name != ""
  {
  }

  /** The description fixes the name. */
  lemma NameIsUnique(a: string, b: string, hash: string, existing: string, o: Origin, used: set<string>)
    requires IsSourceName(a, hash, existing, o, used) && IsSourceName(b, hash, existing, o, used)
    ensures a == b
  {
    hide Slug;
    if !KeepsName(existing, o) && !Unattributed(existing, o) {
      if o.stem != "" {
        UniqueAgree(a, b, o.stem, used);
      } else if o.post == 0 {
        FirstFreeAgree(a, b, Slug(o.slug), 1, used);
      } else {
        UniqueAgree(a, b, Sibling(Slug(o.slug), o.post), used);
      }
    }
  }

  lemma UniqueAgree(a: string, b: string, stem: string, used: set<string>)
    requires IsUnique(a, stem, used) && IsUnique(b, stem, used)
    ensures a == b
  {
    if stem in used {
      FirstFreeAgree(a, b, stem, 2, used);
    }
  }

  lemma FirstFreeAgree(a: string, b: string, stem: string, start: nat, used: set<string>)
    requires IsFirstFree(a, stem, start, used) && IsFirstFree(b, stem, start, used)
    ensures a == b
  {
    var j: nat :| start <= j <= |used| + 1 && a == Sibling(stem, j) && a !in used && TakenRun(stem, start, j - start, used);
    var k: nat :| start <= k <= |used| + 1 && b == Sibling(stem, k) && b !in used && TakenRun(stem, start, k - start, used);
    assert j < k ==> Sibling(stem, j) in used;
    assert k < j ==> Sibling(stem, k) in used;
  }
}
