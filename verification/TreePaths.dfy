/** internal/ghfind/filter.go: what a tree entry's path says about it: refused, or worth so many points. */
module TreePaths {
  import opened Basics

  const EXT_TXT := 3
  const EXT_PLAIN := 2
  const EXT_JSON := 1
  const SCORE_TOKEN := 2

  const REFUSED_DIRS: seq<string> := [
    ".github", ".git", "docs", "test", "tests", "vendor", "node_modules", "src", "assets", "img", "images",
    ".idea", ".vscode", "example", "examples", "script", "scripts", "bin", "build", "dist"]

  const BAD_STEMS: seq<string> := ["readme", "license", "requirements", "dockerfile", "go"]

  const PACKAGE_PREFIX := "package"

  const KEYWORDS: seq<string> := [
    "v2ray", "vless", "vmess", "trojan", "hysteria", "hy2", "ssr", "sub", "config", "proxy", "node", "free"]

  // ----- the path, on values -----

  function LowerAscii(c: char): char
  {
    if 'A' <= c <= 'Z' then c - 'A' + 'a' else c
  }

  function Folded(path: string): (fold: string)
    ensures |fold| == |path| && forall i :: 0 <= i < |path| ==> fold[i] == LowerAscii(path[i])
  {
    seq(|path|, i requires 0 <= i < |path| => LowerAscii(path[i]))
  }

  /** bytes.LastIndexByte. */
  function LastIndex(s: string, c: char): (i: int)
    ensures -1 <= i < |s| && (i >= 0 ==> s[i] == c)
    ensures forall j :: i < j < |s| ==> s[j] != c
  {
    if s == [] then -1
    else if s[|s| - 1] == c then |s| - 1
    else LastIndex(s[..|s| - 1], c)
  }

  /** `d[i..j]` is one whole name between slashes. */
  predicate IsSegment(d: string, i: int, j: int)
  {
    && 0 <= i <= j <= |d| && (i == 0 || d[i - 1] == '/') && (j == |d| || d[j] == '/')
    && forall k :: i <= k < j ==> d[k] != '/'
  }

  /** Some directory on the path is one that marks build, documentation, vendored or tooling files. */
  ghost predicate DirRefused(dirs: string)
  {
    exists i, j :: IsSegment(dirs, i, j) && dirs[i..j] in REFUSED_DIRS
  }

  predicate StemRefused(stem: string)
  {
    stem in BAD_STEMS || PACKAGE_PREFIX <= stem
  }

  function ExtScore(ext: string): int
  {
    if ext == "" then EXT_PLAIN
    else if ext == "txt" then EXT_TXT
    else if ext == "json" then EXT_JSON
    else if ext in ["conf", "list", "sub", "base64"] then EXT_PLAIN
    else -1
  }

  predicate OccursAt(s: string, word: string, i: int)
  {
    0 <= i <= |s| - |word| && s[i..i + |word|] == word
  }

  /** bytes.Contains. */
  predicate Contains(s: string, word: string)
  {
    exists i :: 0 <= i <= |s| && OccursAt(s, word, i)
  }

  ghost function KeywordsIn(s: string, among: seq<string>): set<string>
  {
    set word | word in among && Contains(s, word)
  }

  function Name(fold: string): string
  {
    fold[LastIndex(fold, '/') + 1..]
  }

  function Dirs(fold: string): string
  {
    fold[..LastIndex(fold, '/') + 1]
  }

  function Stem(name: string): string
  {
    var dot := LastIndex(name, '.');
    if dot < 0 then name else name[..dot]
  }

  function Ext(name: string): string
  {
    var dot := LastIndex(name, '.');
    if dot < 0 then "" else name[dot + 1..]
  }

  ghost predicate Acceptable(path: string)
  {
    var fold := Folded(path);
    && Name(fold) != "" && Name(fold)[0] != '.' && !DirRefused(Dirs(fold))
    && ExtScore(Ext(Name(fold))) >= 0 && !StemRefused(Stem(Name(fold)))
  }

  /** An acceptable path's points: its extension's, and two for each different keyword on it. */
  ghost function PathPoints(path: string): Option<int>
  {
    if !Acceptable(path) then None
    else
      var fold := Folded(path);
      Some(ExtScore(Ext(Name(fold))) + SCORE_TOKEN * |KeywordsIn(fold, KEYWORDS)|)
  }

  /** The case of ASCII letters never matters. */
  lemma CaseIsFolded(a: string, b: string)
    requires |a| == |b| && forall i :: 0 <= i < |a| ==> LowerAscii(a[i]) == LowerAscii(b[i])
    ensures PathPoints(a) == PathPoints(b)
  {
    hide KeywordsIn, DirRefused, StemRefused, ExtScore, LastIndex;
    assert Folded(a) == Folded(b);
  }

  // ----- the code -----

  method AsciiFold(s: string) returns (dst: string)
    ensures dst == Folded(s)
  {
    dst := "";
    for i := 0 to |s|
      invariant |dst| == i && forall k :: 0 <= k < i ==> dst[k] == LowerAscii(s[k])
    {
      var c := s[i];
      if 'A' <= c <= 'Z' {
        c := c - 'A' + 'a';
      }
      dst := dst + [c];
    }
  }

  method DirsRefused(dirs: string) returns (refused: bool)
    ensures refused <==> DirRefused(dirs)
  {
    var start := 0;
    for i := 0 to |dirs| + 1
      invariant 0 <= start <= i <= |dirs| + 1
      invariant start == 0 || start == |dirs| + 1 || dirs[start - 1] == '/'
      invariant forall k :: start <= k < i && k < |dirs| ==> dirs[k] != '/'
      invariant forall a, b :: IsSegment(dirs, a, b) && b < i ==> dirs[a..b] !in REFUSED_DIRS
    {
      if i < |dirs| && dirs[i] != '/' {
        continue;
      }
      forall a | IsSegment(dirs, a, i) ensures a == start {
        SegmentStart(dirs, start, a, i);
      }
      if dirs[start..i] in REFUSED_DIRS {
        assert IsSegment(dirs, start, i);
        return true;
      }
      start := i + 1;
    }
    refused := false;
  }

  lemma SegmentStart(dirs: string, a: nat, b: int, end: nat)
    requires IsSegment(dirs, a, end) && IsSegment(dirs, b, end)
    ensures a == b
  {
    var beforeA, beforeB := if a > 0 then dirs[a - 1] else '/', if b > 0 then dirs[b - 1] else '/';
    assert beforeA == beforeB == '/';
  }

  method NameRefused(stem: string) returns (refused: bool)
    ensures refused <==> StemRefused(stem)
  {
    for i := 0 to |BAD_STEMS|
      invariant stem !in BAD_STEMS[..i]
    {
      if stem == BAD_STEMS[i] {
        return true;
      }
    }
    refused := PACKAGE_PREFIX <= stem;
  }

  /** Each keyword counts once however often the path repeats it. */
  method KeywordHits(fold: string) returns (hits: nat)
    ensures hits == |KeywordsIn(fold, KEYWORDS)|
  {
    hits := 0;
    for i := 0 to |KEYWORDS|
      invariant hits == |KeywordsIn(fold, KEYWORDS[..i])|
    {
      OneMoreKeyword(fold, i);
      if Contains(fold, KEYWORDS[i]) {
        hits := hits + 1;
      }
    }
    assert KEYWORDS[..|KEYWORDS|] == KEYWORDS;
  }

  lemma OneMoreKeyword(fold: string, i: nat)
    requires i < |KEYWORDS|
    ensures |KeywordsIn(fold, KEYWORDS[..i + 1])| == |KeywordsIn(fold, KEYWORDS[..i])| + if Contains(fold, KEYWORDS[i]) then 1 else 0
  {
    var done, word := KEYWORDS[..i], KEYWORDS[i];
    KeywordsDiffer(i);
    assert KEYWORDS[..i + 1] == done + [word];
    if Contains(fold, word) {
      assert KeywordsIn(fold, done + [word]) == KeywordsIn(fold, done) + {word};
    } else {
      assert KeywordsIn(fold, done + [word]) == KeywordsIn(fold, done);
    }
  }

  lemma KeywordsDiffer(i: nat)
    requires i < |KEYWORDS|
    ensures KEYWORDS[i] !in KEYWORDS[..i]
  {
    forall k | 0 <= k < i ensures KEYWORDS[k] != KEYWORDS[i] {
      var a, b := KEYWORDS[k], KEYWORDS[i];
      assert |a| != |b| || a[0] != b[0] || a[1] != b[1];
    }
  }

  /** The verdict on a path, as the selection takes it. */
  method JudgePath(path: string) returns (points: Option<int>)
    ensures points == PathPoints(path)
  {
    hide KeywordsIn, DirRefused, StemRefused, ExtScore, LastIndex, Folded;
    var fold := AsciiFold(path);
    var cut := LastIndex(fold, '/') + 1;
    var name := fold[cut..];
    if |name| == 0 || name[0] == '.' {
      return None;
    }
    var dirsRefused := DirsRefused(fold[..cut]);
    if dirsRefused {
      return None;
    }
    var stem, ext := Stem(name), Ext(name);
    var nameRefused := NameRefused(stem);
    if ExtScore(ext) < 0 || nameRefused {
      return None;
    }
    var hits := KeywordHits(fold);
    points := Some(ExtScore(ext) + SCORE_TOKEN * hits);
  }

  /** The points in numbers. */
  lemma PointsInNumbers(path: string)
    ensures PathPoints(path).Some? ==>
              var fold := Folded(path);
              var ext, words := Ext(Name(fold)), |KeywordsIn(fold, KEYWORDS)|;
              && (ext == "txt" ==> PathPoints(path).value == 3 + 2 * words)
              && (ext == "json" ==> PathPoints(path).value == 1 + 2 * words)
              && (ext in ["", "conf", "list", "sub", "base64"] ==> PathPoints(path).value == 2 + 2 * words)
              && ext in ["txt", "json", "", "conf", "list", "sub", "base64"]
  {
    hide KeywordsIn, DirRefused, StemRefused, LastIndex, Folded;
  }
}
