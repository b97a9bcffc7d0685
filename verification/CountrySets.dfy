/** internal/filter/filter.go: a set of two-letter country codes as 676 bits of eleven words. */
module CountrySets {
  import opened Bits

  const ALPHABET_SIZE := 26
  const BITS := 64
  const WORDS := 11
  const CODE_COUNT := 676
  const TO_UPPER_OFFSET := 32

  // ----- one word -----

  predicate Bit(w: nat, k: nat)
  {
    if k == 0 then w % 2 == 1 else Bit(w / 2, k - 1)
  }

  lemma {:induction false} AndOneBit(w: nat, k: nat)
    ensures And(w, Pow2(k)) != 0 <==> Bit(w, k)
  {
    if w == 0 {
      ZeroHasNoBit(k);
    } else if k == 0 {
      assert And(w / 2, 0) == 0;
    } else {
      AndOneBit(w / 2, k - 1);
      Halve(Pow2(k - 1));
    }
  }

  lemma Halve(p: nat)
    ensures (2 * p) / 2 == p && (2 * p) % 2 == 0 && (2 * p + 1) / 2 == p && (2 * p + 1) % 2 == 1
  {
  }

  lemma {:induction false} ZeroHasNoBit(k: nat)
    ensures !Bit(0, k)
  {
    if k > 0 {
      ZeroHasNoBit(k - 1);
    }
  }

  lemma {:induction false} PowerHasOneBit(k: nat, j: nat)
    ensures Bit(Pow2(k), j) <==> j == k
  {
    if k == 0 {
      if j > 0 {
        ZeroHasNoBit(j - 1);
      }
    } else {
      Halve(Pow2(k - 1));
      if j > 0 {
        PowerHasOneBit(k - 1, j - 1);
      }
    }
  }

  lemma {:induction false} OrOneBit(w: nat, k: nat, j: nat)
    ensures Bit(Or(w, Pow2(k)), j) <==> Bit(w, j) || j == k
  {
    if w == 0 {
      ZeroHasNoBit(j);
      PowerHasOneBit(k, j);
    } else if k == 0 {
      assert Or(w / 2, 0) == w / 2;
      Halve(w / 2);
    } else {
      Halve(Pow2(k - 1));
      Halve(Or(w / 2, Pow2(k - 1)));
      if j > 0 {
        OrOneBit(w / 2, k - 1, j - 1);
      }
    }
  }

  lemma {:induction false} OrStaysInWord(x: nat, y: nat, n: nat)
    requires x < Pow2(n) && y < Pow2(n)
    ensures Or(x, y) < Pow2(n)
  {
    if x != 0 && y != 0 {
      assert n > 0;
      OrStaysInWord(x / 2, y / 2, n - 1);
    }
  }

  ghost predicate AllBits(w: nat, n: nat)
  {
    forall j :: 0 <= j < n ==> Bit(w, j)
  }

  ghost predicate NoBits(w: nat, n: nat)
  {
    forall j :: 0 <= j < n ==> !Bit(w, j)
  }

  lemma BitsShift(w: nat, n: nat)
    requires n > 0
    ensures AllBits(w, n) <==> w % 2 == 1 && AllBits(w / 2, n - 1)
    ensures NoBits(w, n) <==> w % 2 == 0 && NoBits(w / 2, n - 1)
  {
    assert forall j: nat :: Bit(w, j + 1) == Bit(w / 2, j);
    assert Bit(w, 0) <==> w % 2 == 1;
    forall j | 0 < j < n ensures Bit(w, j) == Bit(w / 2, j - 1) {
    }
  }

  /** A word with its low `n` bits set and no other is the all-ones word. */
  lemma {:induction false} FullWord(w: nat, n: nat)
    requires w < Pow2(n)
    ensures w == Ones(n) <==> AllBits(w, n)
  {
    hide AllBits, Bit;
    if n == 0 {
      NoneToHave(w);
    } else {
      BitsShift(w, n);
      FullWord(w / 2, n - 1);
      assert w == 2 * (w / 2) + w % 2;
    }
  }

  lemma {:induction false} EmptyWord(w: nat, n: nat)
    requires w < Pow2(n)
    ensures w == 0 <==> NoBits(w, n)
  {
    hide NoBits, Bit;
    if n == 0 {
      NoneToHave(w);
    } else {
      BitsShift(w, n);
      EmptyWord(w / 2, n - 1);
      assert w == 2 * (w / 2) + w % 2;
    }
  }

  lemma NoneToHave(w: nat)
    ensures AllBits(w, 0) && NoBits(w, 0)
  {
  }

  // ----- the set, on values -----

  /** Eleven words, with nothing above the last code. */
  ghost predicate WellFormed(s: seq<nat>)
  {
    && |s| == WORDS
    && (forall i :: 0 <= i < 10 ==> s[i] < Pow2(64))
    && s[10] < Pow2(36)
  }

  predicate HasBit(s: seq<nat>, i: nat)
    requires |s| == WORDS && i < CODE_COUNT
  {
    Bit(s[i / BITS], i % BITS)
  }

  predicate Upper(c: char) { 'A' <= c <= 'Z' }

  predicate IsCode(c: string)
  {
    |c| == 2 && Upper(c[0]) && Upper(c[1])
  }

  /** The number of a code: AA is 0, ZZ is 675. */
  function Index(c: string): (i: nat)
    requires IsCode(c)
    ensures i < CODE_COUNT
  {
    (c[0] as int - 'A' as int) * ALPHABET_SIZE + (c[1] as int - 'A' as int)
  }

  lemma IndexIsInjective(a: string, b: string)
    requires IsCode(a) && IsCode(b) && Index(a) == Index(b)
    ensures a == b
  {
    assert a[0] as int - b[0] as int == 0;
    assert a == [a[0], a[1]] && b == [b[0], b[1]];
  }

  ghost predicate Member(s: seq<nat>, code: string)
    requires |s| == WORDS
  {
    IsCode(code) && HasBit(s, Index(code))
  }

  predicate Space(c: char) { c == ' ' || c == '\t' || c == '\n' || c == '\r' }

  function TrimFront(s: string): string
  {
    if s != [] && Space(s[0]) then TrimFront(s[1..]) else s
  }

  function TrimBack(s: string): string
  {
    if s != [] && Space(s[|s| - 1]) then TrimBack(s[..|s| - 1]) else s
  }

  function ToUpper(c: char): char
  {
    if 'a' <= c <= 'z' then (c as int - TO_UPPER_OFFSET) as char else c
  }

  /** The code a part spells, once trimmed and upper-cased; not a code otherwise. */
  function Spelled(part: string): string
  {
    var t := TrimBack(TrimFront(part));
    if |t| == 2 then [ToUpper(t[0]), ToUpper(t[1])] else ""
  }

  /** The bits of all codes, word by word. */
  lemma BitsOfCodes(s: seq<nat>)
    requires |s| == WORDS
    ensures (forall i :: 0 <= i < CODE_COUNT ==> HasBit(s, i)) <==>
            (forall i :: 0 <= i < 10 ==> AllBits(s[i], 64)) && AllBits(s[10], 36)
    ensures (forall i :: 0 <= i < CODE_COUNT ==> !HasBit(s, i)) <==>
            (forall i :: 0 <= i < 10 ==> NoBits(s[i], 64)) && NoBits(s[10], 36)
  {
    hide Bit;
    forall i, j | 0 <= i < 10 && 0 <= j < 64 ensures Bit(s[i], j) == HasBit(s, i * 64 + j) {
      Place(i, j);
    }
    forall j | 0 <= j < 36 ensures Bit(s[10], j) == HasBit(s, 640 + j) {
      Place(10, j);
    }
    forall i | 0 <= i < CODE_COUNT
      ensures HasBit(s, i) == Bit(s[i / 64], i % 64) && (i / 64 == 10 ==> i % 64 < 36)
      ensures AllBits(s[i / 64], if i / 64 == 10 then 36 else 64) ==> HasBit(s, i)
      ensures NoBits(s[i / 64], if i / 64 == 10 then 36 else 64) ==> !HasBit(s, i)
    {
    }
  }

  lemma FullIff(s: seq<nat>)
    requires WellFormed(s)
    ensures s == AllWords() <==> forall i :: 0 <= i < CODE_COUNT ==> HasBit(s, i)
  {
    hide HasBit, Pow2, Ones, AllBits;
    BitsOfCodes(s);
    forall i | 0 <= i < 10 ensures s[i] == Ones(64) <==> AllBits(s[i], 64) {
      FullWord(s[i], 64);
    }
    FullWord(s[10], 36);
  }

  lemma EmptyIff(s: seq<nat>)
    requires WellFormed(s)
    ensures (forall i :: 0 <= i < WORDS ==> s[i] == 0) <==> forall i :: 0 <= i < CODE_COUNT ==> !HasBit(s, i)
  {
    hide HasBit, Pow2, NoBits;
    BitsOfCodes(s);
    forall i | 0 <= i < 10 ensures s[i] == 0 <==> NoBits(s[i], 64) {
      EmptyWord(s[i], 64);
    }
    EmptyWord(s[10], 36);
  }

  lemma Place(i: nat, j: nat)
    requires j < 64
    ensures (i * 64 + j) / 64 == i && (i * 64 + j) % 64 == j
  {
  }

  function AllWords(): seq<nat>
  {
    seq(10, _ => Ones(64)) + [Ones(36)]
  }

  // ----- the code -----

  class CountrySet {
    const words: array<nat>

    constructor ()
      ensures fresh(words) && words.Length == WORDS && WellFormed(words[..])
      ensures forall code :: !Member(words[..], code)
    {
      words := new nat[WORDS](_ => 0);
      new;
      forall code: string ensures !Member(words[..], code) {
        if IsCode(code) {
          ZeroHasNoBit(Index(code) % BITS);
        }
      }
    }

    method Has(country: string) returns (has: bool)
      requires words.Length == WORDS && |country| == 2
      ensures has <==> Member(words[..], country)
    {
      var c1, c2 := country[0], country[1];
      if c1 < 'A' || c1 > 'Z' || c2 < 'A' || c2 > 'Z' {
        return false;
      }
      var idx := (c1 as int - 'A' as int) * ALPHABET_SIZE + (c2 as int - 'A' as int);
      AndOneBit(words[idx / BITS], idx % BITS);
      OneShifted(idx % BITS);
      has := And(words[idx / BITS], Shl(BITS, 1, idx % BITS)) != 0;
    }

    /** Adds the code a part spells, and nothing else; a part that spells none changes nothing. */
    method Add(part: string) returns (added: bool)
      requires words.Length == WORDS && WellFormed(words[..])
      modifies words
      ensures WellFormed(words[..])
      ensures added <==> IsCode(Spelled(part))
      ensures forall code :: Member(words[..], code) <==> Member(old(words[..]), code) || (added && code == Spelled(part))
    {
      hide Or, Shl, Pow2, HasBit, Member;
      var trimmed := Trimmed(part);
      if |trimmed| != 2 {
        return false;
      }
      var c1, c2 := trimmed[0], trimmed[1];
      if 'a' <= c1 <= 'z' {
        c1 := (c1 as int - TO_UPPER_OFFSET) as char;
      }
      if 'a' <= c2 <= 'z' {
        c2 := (c2 as int - TO_UPPER_OFFSET) as char;
      }
      if c1 < 'A' || c1 > 'Z' || c2 < 'A' || c2 > 'Z' {
        return false;
      }
      var i := (c1 as int - 'A' as int) * ALPHABET_SIZE + (c2 as int - 'A' as int);
      ghost var before := words[..];
      assert IsCode([c1, c2]) && i == Index([c1, c2]);
      hide Index;
      OneShifted(i % BITS);
      words[i / BITS] := Or(words[i / BITS], Shl(BITS, 1, i % BITS));
      SetOne(before, words[..], [c1, c2]);
      added := true;
    }
  }

  lemma OnesIsPowLessOne(w: nat)
    ensures Ones(w) == Pow2(w) - 1
  {
  }

  lemma AllIsWellFormed()
    ensures WellFormed(AllWords())
    ensures forall code :: Member(AllWords(), code) <==> IsCode(code)
  {
    hide Pow2;
    FullIff(AllWords());
  }

  lemma OneShifted(k: nat)
    requires k < 64
    ensures Shl(64, 1, k) == Pow2(k)
  {
    PowMonotone(k, 64);
    SmallMod(Pow2(k), Pow2(64));
  }

  lemma SmallMod(a: nat, m: nat)
    requires a < m
    ensures (1 * a) % m == a
  {
  }

  /** Setting the bit of one code adds that code alone. */
  lemma SetOne(before: seq<nat>, after: seq<nat>, code: string)
    requires WellFormed(before) && IsCode(code) && |after| == WORDS
    requires var i := Index(code); after == before[i / BITS := Or(before[i / BITS], Pow2(i % BITS))]
    ensures WellFormed(after)
    ensures forall c :: Member(after, c) <==> Member(before, c) || c == code
  {
    hide Or, Bit;
    var i := Index(code);
    InWord(before[i / BITS], i);
    forall c: string | IsCode(c) ensures Member(after, c) <==> Member(before, c) || c == code {
      var j := Index(c);
      if j / BITS == i / BITS {
        OrOneBit(before[i / BITS], i % BITS, j % BITS);
        if j % BITS == i % BITS {
          assert j == i;
          IndexIsInjective(c, code);
        }
      }
    }
  }

  lemma InWord(w: nat, i: nat)
    requires i < CODE_COUNT && w < Pow2(if i / BITS == 10 then 36 else 64)
    ensures Or(w, Pow2(i % BITS)) < Pow2(if i / BITS == 10 then 36 else 64)
  {
    hide Or;
    var n := if i / BITS == 10 then 36 else 64;
    assert i % BITS < n;
    PowMonotone(i % BITS, n);
    OrStaysInWord(w, Pow2(i % BITS), n);
  }

  method Trimmed(part: string) returns (t: string)
    ensures t == TrimBack(TrimFront(part))
  {
    var start := 0;
    assert part[0..] == part;
    while start < |part| && Space(part[start])
      invariant start <= |part| && TrimFront(part[start..]) == TrimFront(part)
    {
      assert part[start..][1..] == part[start + 1..];
      start := start + 1;
    }
    var end := |part|;
    ghost var front := part[start..];
    assert TrimFront(front) == front && part[start..end] == front;
    while end > start && Space(part[end - 1])
      invariant start <= end <= |part| && TrimBack(part[start..end]) == TrimBack(front)
    {
      assert part[start..end][..end - start - 1] == part[start..end - 1];
      end := end - 1;
    }
    t := part[start..end];
  }

  /** Every code, and no bit above the last. */
  method All() returns (s: seq<nat>)
    ensures s == AllWords() && WellFormed(s)
    ensures forall code :: Member(s, code) <==> IsCode(code)
  {
    hide Pow2, HasBit, WellFormed, Member, Shl, Ones;
    var whole := CODE_COUNT / BITS;
    s := seq(WORDS, _ => 0);
    for i := 0 to whole
      invariant |s| == WORDS && (forall j :: 0 <= j < i ==> s[j] == Ones(64)) && forall j :: i <= j < WORDS ==> s[j] == 0
    {
      s := s[i := Not(BITS, 0)];
    }
    OneShifted(36);
    OnesIsPowLessOne(36);
    AllIsWellFormed();
    s := s[whole := Shl(BITS, 1, CODE_COUNT % BITS) - 1];
    assert s == AllWords();
  }

  predicate IsFull(s: seq<nat>)
  {
    s == AllWords()
  }

  method IsEmpty(s: seq<nat>) returns (empty: bool)
    requires WellFormed(s)
    ensures empty <==> forall code :: !Member(s, code)
  {
    EmptyIff(s);
    empty := true;
    for i := 0 to WORDS
      invariant empty && forall j :: 0 <= j < i ==> s[j] == 0
    {
      if s[i] != 0 {
        var k: nat :| k < CODE_COUNT && HasBit(s, k);
        assert Member(s, CodeOf(k)) by { CodeIndexed(k); }
        return false;
      }
    }
  }

  /** The code with a given number. */
  function CodeOf(k: nat): string
    requires k < CODE_COUNT
  {
    [('A' as int + k / ALPHABET_SIZE) as char, ('A' as int + k % ALPHABET_SIZE) as char]
  }

  lemma CodeIndexed(k: nat)
    requires k < CODE_COUNT
    ensures IsCode(CodeOf(k)) && Index(CodeOf(k)) == k
  {
  }

  /** A full set holds every code, and only a full one does. */
  lemma FullHoldsAll(s: seq<nat>)
    requires WellFormed(s)
    ensures IsFull(s) <==> forall code :: IsCode(code) ==> Member(s, code)
  {
    FullIff(s);
    if forall code :: IsCode(code) ==> Member(s, code) {
      forall i | 0 <= i < CODE_COUNT ensures HasBit(s, i) {
        CodeIndexed(i);
        assert Member(s, CodeOf(i));
      }
    }
  }

  /** The country policy of two sets: an allow-list unless it is full, and a deny-list matched positively,
      so an unknown country passes only where no allow-list was asked for. */
  method Permits(allowed: CountrySet, denied: CountrySet, country: string) returns (ok: bool)
    requires allowed.words.Length == WORDS && denied.words.Length == WORDS && |country| == 2
    requires WellFormed(allowed.words[..]) && WellFormed(denied.words[..])
    ensures ok <==> ((forall code :: IsCode(code) ==> Member(allowed.words[..], code)) || Member(allowed.words[..], country))
                    && !Member(denied.words[..], country)
  {
    FullHoldsAll(allowed.words[..]);
    if !IsFull(allowed.words[..]) {
      var has := allowed.Has(country);
      if !has {
        return false;
      }
    }
    var refused := denied.Has(country);
    ok := !refused;
  }
}
