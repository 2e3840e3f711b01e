/**
  Which files are protected, stated over the folders, the stem and the kind of a path instead of the list
  of globs, the list of parts and the suffix.
 */
module ProtectedNames {
  import opened Wrappers
  import opened PyText
  import opened ConfigProtection

  // ---------------------------------------------------------------- folders

  /** `p[i..j]` is the name of a folder: it stands between slashes, or at the beginning with a slash behind it. */
  predicate Folder(p: string, i: nat, j: nat) {
    i <= j < |p| && p[j] == '/' && (i == 0 || p[i - 1] == '/') && '/' !in p[i..j]
  }

  predicate EndsWith(s: string, end: string) {
    |end| <= |s| && s[|s| - |end|..] == end
  }

  /** Some folder's name ends in this. */
  ghost predicate FolderEnds(p: string, end: string) {
    exists i: nat, j: nat :: Folder(p, i, j) && EndsWith(p[i..j], end)
  }

  /** Some folder that is not the first part of the path has this name. */
  ghost predicate FolderNamed(p: string, name: string) {
    exists i: nat, j: nat :: Folder(p, i, j) && i > 0 && p[i..j] == name
  }

  lemma {:induction false} FolderStart(p: string, j: nat, k: nat) returns (i: nat)
    requires k <= j < |p| && p[j] == '/' && '/' !in p[k..j]
    ensures i <= k && Folder(p, i, j)
    decreases k
  {
    if k == 0 || p[k - 1] == '/' {
      i := k;
    } else {
      assert p[k - 1..j] == [p[k - 1]] + p[k..j];
      i := FolderStart(p, j, k - 1);
    }
  }

  lemma PartAt(p: string, k: nat, part: string)
    requires k <= |p|
    ensures StartsWith(p[k..], part) <==> k + |part| <= |p| && p[k..k + |part|] == part
  {
    if k + |part| <= |p| {
      assert p[k..][..|part|] == p[k..k + |part|];
    }
  }

  lemma PartLeadsToFolder(p: string, end: string, k: nat)
    requires '/' !in end && k <= |p| && StartsWith(p[k..], end + "/")
    ensures FolderEnds(p, end)
  {
    PartAt(p, k, end + "/");
    var j := k + |end|;
    assert p[k..j + 1][..|end|] == p[k..j] && (end + "/")[..|end|] == end && p[k..j + 1][|end|] == p[j];
    var i := FolderStart(p, j, k);
    assert p[i..j][k - i..] == p[k..j];
  }

  lemma FolderHoldsPart(p: string, end: string, i: nat, j: nat)
    requires Folder(p, i, j) && EndsWith(p[i..j], end)
    ensures Contains(p, end + "/")
  {
    var k := j - |end|;
    assert p[i..j][k - i..] == p[k..j] && p[k..j + 1] == p[k..j] + [p[j]];
    PartAt(p, k, end + "/");
  }

  lemma FolderEndsIff(p: string, end: string)
    requires '/' !in end
    ensures Contains(p, end + "/") <==> FolderEnds(p, end)
  {
    if k :| 0 <= k <= |p| && StartsWith(p[k..], end + "/") {
      PartLeadsToFolder(p, end, k);
    }
    if i: nat, j: nat :| Folder(p, i, j) && EndsWith(p[i..j], end) {
      FolderHoldsPart(p, end, i, j);
    }
  }

  lemma FolderNamedIff(p: string, name: string)
    requires '/' !in name
    ensures Contains(p, "/" + name + "/") <==> FolderNamed(p, name)
  {
    if k :| 0 <= k <= |p| && StartsWith(p[k..], "/" + name + "/") {
      PartIsFolder(p, name, k);
    }
    if i: nat, j: nat :| Folder(p, i, j) && i > 0 && p[i..j] == name {
      FolderIsPart(p, i, j);
    }
  }

  lemma FolderIsPart(p: string, i: nat, j: nat)
    requires Folder(p, i, j) && i > 0
    ensures Contains(p, "/" + p[i..j] + "/")
  {
    assert p[i - 1..j + 1] == [p[i - 1]] + p[i..j] + [p[j]];
    PartAt(p, i - 1, "/" + p[i..j] + "/");
  }

  lemma PartIsFolder(p: string, name: string, k: nat)
    requires '/' !in name && k <= |p| && StartsWith(p[k..], "/" + name + "/")
    ensures FolderNamed(p, name)
  {
    var part, j := "/" + name + "/", k + 1 + |name|;
    PartAt(p, k, part);
    assert forall m | k <= m <= j :: p[m] == p[k..j + 1][m - k] == part[m - k];
    assert p[k + 1..j] == name;
    assert Folder(p, k + 1, j);
  }

  /** The folders that belong to the game or the tools. */
  ghost predicate InForeignFolder(p: string) {
    || FolderEnds(p, "steamapps") || FolderEnds(p, "workshop") || FolderEnds(p, "logs") || FolderEnds(p, ".msm-uploads")
    || FolderNamed(p, "content") || FolderNamed(p, "saved") || FolderNamed(p, "data") || FolderNamed(p, "maps")
    || FolderNamed(p, "shaders") || FolderNamed(p, "textures") || FolderNamed(p, "binaries")
    || FolderNamed(p, "thirdparty") || FolderNamed(p, "core")
  }

  lemma FourEnds(p: string)
    ensures Contains(p, EXCLUDED_PARTS[0]) <==> FolderEnds(p, "steamapps")
    ensures Contains(p, EXCLUDED_PARTS[1]) <==> FolderEnds(p, "workshop")
    ensures Contains(p, EXCLUDED_PARTS[2]) <==> FolderEnds(p, "logs")
    ensures Contains(p, EXCLUDED_PARTS[3]) <==> FolderEnds(p, ".msm-uploads")
  {
    FolderEndsIff(p, "steamapps");
    FolderEndsIff(p, "workshop");
    FolderEndsIff(p, "logs");
    FolderEndsIff(p, ".msm-uploads");
    assert EXCLUDED_PARTS[0] == "steamapps" + "/" && EXCLUDED_PARTS[1] == "workshop" + "/";
    assert EXCLUDED_PARTS[2] == "logs" + "/" && EXCLUDED_PARTS[3] == ".msm-uploads" + "/";
  }

  lemma FirstNames(p: string)
    ensures Contains(p, EXCLUDED_PARTS[4]) <==> FolderNamed(p, "content")
    ensures Contains(p, EXCLUDED_PARTS[5]) <==> FolderNamed(p, "saved")
    ensures Contains(p, EXCLUDED_PARTS[6]) <==> FolderNamed(p, "data")
    ensures Contains(p, EXCLUDED_PARTS[7]) <==> FolderNamed(p, "maps")
  {
    FolderNamedIff(p, "content");
    FolderNamedIff(p, "saved");
    FolderNamedIff(p, "data");
    FolderNamedIff(p, "maps");
    assert EXCLUDED_PARTS[4] == "/" + "content" + "/" && EXCLUDED_PARTS[5] == "/" + "saved" + "/";
    assert EXCLUDED_PARTS[6] == "/" + "data" + "/" && EXCLUDED_PARTS[7] == "/" + "maps" + "/";
  }

  lemma LastNames(p: string)
    ensures Contains(p, EXCLUDED_PARTS[8]) <==> FolderNamed(p, "shaders")
    ensures Contains(p, EXCLUDED_PARTS[9]) <==> FolderNamed(p, "textures")
    ensures Contains(p, EXCLUDED_PARTS[10]) <==> FolderNamed(p, "binaries")
    ensures Contains(p, EXCLUDED_PARTS[11]) <==> FolderNamed(p, "thirdparty")
    ensures Contains(p, EXCLUDED_PARTS[12]) <==> FolderNamed(p, "core")
  {
    FolderNamedIff(p, "shaders");
    FolderNamedIff(p, "textures");
    FolderNamedIff(p, "binaries");
    FolderNamedIff(p, "thirdparty");
    FolderNamedIff(p, "core");
    assert EXCLUDED_PARTS[8] == "/" + "shaders" + "/" && EXCLUDED_PARTS[9] == "/" + "textures" + "/";
    assert EXCLUDED_PARTS[10] == "/" + "binaries" + "/" && EXCLUDED_PARTS[11] == "/" + "thirdparty" + "/";
    assert EXCLUDED_PARTS[12] == "/" + "core" + "/";
  }

  /** A path is excluded exactly when it leads through one of those folders. */
  lemma ExcludedIff(p: string)
    ensures Excluded(p) <==> InForeignFolder(p)
  {
    FourEnds(p);
    FirstNames(p);
    LastNames(p);
    assert |EXCLUDED_PARTS| == 13;
  }

  // ---------------------------------------------------------------- kinds

  /** A name with a kind: what stands behind its last dot. */
  predicate Kinded(stem: string, kind: string) {
    kind != "" && '.' !in kind && '/' !in kind && '/' !in stem
  }

  predicate AlwaysKind(kind: string) {
    || kind == "cfg" || kind == "ini" || kind == "xml" || kind == "conf" || kind == "config" || kind == "toml"
    || kind == "yaml" || kind == "yml"
  }

  predicate BroadKind(kind: string) {
    kind == "json" || kind == "txt"
  }

  predicate BinaryKind(kind: string) {
    || kind == "exe" || kind == "so" || kind == "dll" || kind == "pak" || kind == "ucas" || kind == "utoc"
    || kind == "vpk" || kind == "png" || kind == "jpg" || kind == "jpeg" || kind == "wav" || kind == "mp3"
  }

  lemma StarIff(stem: string, kind: string, prefix: string, end: string)
    requires Kinded(stem, kind) && '.' !in end
    ensures Matches(stem + "." + kind, Star(prefix, "." + end)) <==>
            kind == end && |prefix| <= |stem| && stem[..|prefix|] == prefix
  {
    var name, suffix := stem + "." + kind, "." + end;
    if |name| >= |suffix| && name[|name| - |suffix|..] == suffix {
      var k := |name| - |suffix|;
      assert name[k] == '.' && forall m | k < m < |name| :: name[m] == end[m - k - 1];
      assert name[|stem|] == '.' && forall m | |stem| < m < |name| :: name[m] == kind[m - |stem| - 1];
      assert k == |stem|;
      assert name[|stem| + 1..] == kind && suffix[1..] == end && name[k..][1..] == name[k + 1..];
    }
    if kind == end {
      assert name[|stem|..] == suffix;
    }
    if |prefix| <= |stem| {
      assert name[..|prefix|] == stem[..|prefix|];
    }
  }

  ghost predicate MatchesAt(stem: string, kind: string, k: nat)
    requires k < |PATTERNS|
  {
    Matches(stem + "." + kind, PATTERNS[k])
  }

  lemma PatternOfKind(stem: string, kind: string, k: nat, end: string)
    requires Kinded(stem, kind) && '.' !in end && k < |PATTERNS| && PATTERNS[k] == Star("", "." + end)
    ensures MatchesAt(stem, kind, k) <==> kind == end
  {
    StarIff(stem, kind, "", end);
    assert stem[..0] == "";
  }

  lemma AlwaysPatterns(stem: string, kind: string)
    requires Kinded(stem, kind)
    ensures MatchesAt(stem, kind, 0) <==> kind == "cfg"
    ensures MatchesAt(stem, kind, 1) <==> kind == "ini"
    ensures MatchesAt(stem, kind, 2) <==> kind == "xml"
    ensures MatchesAt(stem, kind, 3) <==> kind == "conf"
    ensures MatchesAt(stem, kind, 4) <==> kind == "config"
    ensures MatchesAt(stem, kind, 5) <==> kind == "toml"
    ensures MatchesAt(stem, kind, 6) <==> kind == "yaml"
    ensures MatchesAt(stem, kind, 7) <==> kind == "yml"
  {
    FirstPatterns();
    PatternOfKind(stem, kind, 0, "cfg");
    PatternOfKind(stem, kind, 1, "ini");
    PatternOfKind(stem, kind, 2, "xml");
    PatternOfKind(stem, kind, 3, "conf");
    PatternOfKind(stem, kind, 4, "config");
    PatternOfKind(stem, kind, 5, "toml");
    PatternOfKind(stem, kind, 6, "yaml");
    PatternOfKind(stem, kind, 7, "yml");
  }

  lemma FirstPatterns()
    ensures PATTERNS[0] == Star("", "." + "cfg") && PATTERNS[1] == Star("", "." + "ini")
    ensures PATTERNS[2] == Star("", "." + "xml") && PATTERNS[3] == Star("", "." + "conf")
    ensures PATTERNS[4] == Star("", "." + "config") && PATTERNS[5] == Star("", "." + "toml")
    ensures PATTERNS[6] == Star("", "." + "yaml") && PATTERNS[7] == Star("", "." + "yml")
  {
  }

  lemma LastPatterns()
    ensures |PATTERNS| == 15
    ensures PATTERNS[8] == Star("server", "." + "properties") && PATTERNS[9] == Name("GameUserSettings" + "." + "ini")
    ensures PATTERNS[10] == Star("", "." + "json") && PATTERNS[11] == Star("", "." + "txt")
    ensures PATTERNS[12] == Star("Game", "." + "ini") && PATTERNS[13] == Star("Engine", "." + "ini")
    ensures PATTERNS[14] == Star("server", "." + "cfg")
  {
  }

  /** The further patterns: two kinds that are always looked at, one kind with a prefix, and four that add nothing. */
  lemma OtherPatterns(stem: string, kind: string)
    requires Kinded(stem, kind)
    ensures MatchesAt(stem, kind, 8) <==> kind == "properties" && StartsWith(stem, "server")
    ensures MatchesAt(stem, kind, 10) <==> kind == "json"
    ensures MatchesAt(stem, kind, 11) <==> kind == "txt"
    ensures forall k | k == 9 || 12 <= k < 15 :: MatchesAt(stem, kind, k) ==> AlwaysKind(kind)
  {
    LastPatterns();
    StarIff(stem, kind, "server", "properties");
    StarIff(stem, kind, "", "json");
    StarIff(stem, kind, "", "txt");
    StarIff(stem, kind, "Game", "ini");
    StarIff(stem, kind, "Engine", "ini");
    StarIff(stem, kind, "server", "cfg");
    assert stem[..0] == "";
    if MatchesAt(stem, kind, 9) {
      OneDot(stem, kind, "GameUserSettings", "ini");
    }
  }

  lemma OneDot(stem: string, kind: string, other: string, end: string)
    requires '.' !in kind && '.' !in end && stem + "." + kind == other + "." + end
    ensures kind == end
  {
    var name, again := stem + "." + kind, other + "." + end;
    assert name[|stem|] == '.' && forall m | |stem| < m < |name| :: name[m] == kind[m - |stem| - 1];
    assert again[|other|] == '.' && forall m | |other| < m < |again| :: again[m] == end[m - |other| - 1];
    assert |stem| == |other|;
    assert name[|stem| + 1..] == kind && again[|other| + 1..] == end;
  }

  predicate LookedFor(stem: string, kind: string) {
    AlwaysKind(kind) || BroadKind(kind) || (kind == "properties" && StartsWith(stem, "server"))
  }

  lemma MatchedIsLookedFor(stem: string, kind: string, k: nat)
    requires Kinded(stem, kind) && k < |PATTERNS| && MatchesAt(stem, kind, k)
    ensures LookedFor(stem, kind)
  {
    LastPatterns();
    if k < 8 {
      AlwaysPatterns(stem, kind);
    } else {
      OtherPatterns(stem, kind);
    }
  }

  lemma LookedForIsMatched(stem: string, kind: string) returns (k: nat)
    requires Kinded(stem, kind) && LookedFor(stem, kind)
    ensures k < |PATTERNS| && MatchesAt(stem, kind, k)
  {
    LastPatterns();
    if AlwaysKind(kind) {
      AlwaysPatterns(stem, kind);
      k := if kind == "cfg" then 0 else if kind == "ini" then 1 else if kind == "xml" then 2
           else if kind == "conf" then 3 else if kind == "config" then 4 else if kind == "toml" then 5
           else if kind == "yaml" then 6 else 7;
    } else {
      OtherPatterns(stem, kind);
      k := if kind == "json" then 10 else if kind == "txt" then 11 else 8;
    }
  }

  lemma MatchesSomeIff(stem: string, kind: string)
    requires Kinded(stem, kind)
    ensures MatchesSome(stem + "." + kind) <==> LookedFor(stem, kind)
  {
    if MatchesSome(stem + "." + kind) {
      var k :| 0 <= k < |PATTERNS| && Matches(stem + "." + kind, PATTERNS[k]);
      MatchedIsLookedFor(stem, kind, k);
    }
    if LookedFor(stem, kind) {
      var k := LookedForIsMatched(stem, kind);
    }
  }

  lemma PatternEnds(name: string, k: nat)
    requires k < |PATTERNS| && Matches(name, PATTERNS[k])
    ensures name != "" && name[|name| - 1] != '.' && '.' in name
  {
    if k < 8 {
      FirstPatterns();
    } else {
      LastPatterns();
    }
    match PATTERNS[k]
    case Name(n) => assert name[16] == '.';
    case Star(prefix, suffix) =>
      assert name[|name| - |suffix|..][0] == '.';
      assert name[|name| - |suffix|..][|suffix| - 1] == name[|name| - 1];
  }

  /** A name without a kind is looked for by no pattern. */
  lemma WithoutKind(name: string)
    requires name == "" || '.' !in name || name[|name| - 1] == '.'
    ensures !MatchesSome(name)
  {
    if k :| 0 <= k < |PATTERNS| && Matches(name, PATTERNS[k]) {
      PatternEnds(name, k);
    }
  }

  // ---------------------------------------------------------------- the decision

  const TWO_MEBIBYTES := 2097152

  /** The kind plays a part only when there is something in front of the dot. */
  predicate PreservedKind(stem: string, kind: string, size: nat) {
    stem == "" || (!BinaryKind(kind) && (BroadKind(kind) ==> size <= TWO_MEBIBYTES))
  }

  lemma KeptKindIff(kind: string, size: nat)
    ensures KeptKind("." + kind, size) <==> !BinaryKind(kind) && (BroadKind(kind) ==> size <= TWO_MEBIBYTES)
  {
    assert ("." + kind)[1..] == kind && (kind in EXCLUDED_KINDS <==> BinaryKind(kind));
    assert ".json"[1..] == "json" && ".txt"[1..] == "txt";
  }

  lemma SuffixIs(stem: string, kind: string)
    requires Kinded(stem, kind)
    ensures Lower(Suffix(stem + "." + kind)) == if stem == "" then "" else "." + Lower(kind)
  {
    if stem == "" {
      LastIndexBehind("", kind, '.');
      assert "" + ['.'] + kind == stem + "." + kind;
    } else {
      SuffixOf(stem, kind);
      LowerConcat(".", kind);
      assert Lower(".") == ".";
    }
  }

  /** `should_preserve_file` for any folder, stem and kind; capital letters make no difference. */
  lemma ShouldPreserveIff(folder: string, stem: string, kind: string, size: nat)
    requires Kinded(stem, kind)
    ensures var path := folder + "/" + (stem + "." + kind);
            ShouldPreserve(path, size) <==>
            !InForeignFolder(Lower(path)) && PreservedKind(stem, Lower(kind), size)
  {
    var name := stem + "." + kind;
    ExcludedIff(Lower(folder + "/" + name));
    assert '/' !in name;
    FileNameOf(folder, name);
    SuffixIs(stem, kind);
    KeptKindIff(Lower(kind), size);
  }

  lemma KindsAreLower(kind: string)
    requires AlwaysKind(kind) || BroadKind(kind) || kind == "properties"
    ensures Lower(kind) == kind && !BinaryKind(kind)
  {
    LowerSame(kind);
  }

  lemma NameBelow(parent: string, name: string)
    requires '/' !in name && (parent == "" || parent[|parent| - 1] == '/')
    ensures FileName(parent + name) == name
  {
    if parent == "" {
      NoIndex(name, '/');
      assert parent + name == name && name[0..] == name;
    } else {
      var folder := parent[..|parent| - 1];
      assert folder + "/" + name == parent + name;
      FileNameOf(folder, name);
    }
  }

  /**
    A file below the install directory is protected exactly when its path leads through none of the foreign
    folders, and it is of one of eight kinds, or a `server*.properties` file, or a JSON or text file of at
    most two mebibytes. A JSON or text file with nothing in front of its dot may have any size.
   */
  lemma ProtectedIff(dir: string, parent: string, stem: string, kind: string, content: string)
    requires Kinded(stem, kind) && (parent == "" || parent[|parent| - 1] == '/')
    ensures var path := parent + (stem + "." + kind);
            Protected(dir, path, content) <==>
            && !InForeignFolder(Lower(dir + "/" + path))
            && (|| AlwaysKind(kind)
                || (kind == "properties" && StartsWith(stem, "server"))
                || (BroadKind(kind) && (stem == "" || |content| <= TWO_MEBIBYTES)))
  {
    var name := stem + "." + kind;
    var path := parent + name;
    assert '/' !in name;
    NameBelow(parent, name);
    MatchesSomeIff(stem, kind);
    var folder := if parent == "" then dir else dir + "/" + parent[..|parent| - 1];
    assert folder + "/" + name == dir + "/" + path;
    ShouldPreserveIff(folder, stem, kind, |content|);
    if LookedFor(stem, kind) {
      KindsAreLower(kind);
    }
  }

  /** A file whose name has no kind is not protected. */
  lemma NoKindNotProtected(dir: string, parent: string, name: string, content: string)
    requires '/' !in name && (parent == "" || parent[|parent| - 1] == '/')
    requires name == "" || '.' !in name || name[|name| - 1] == '.'
    ensures !Protected(dir, parent + name, content)
  {
    NameBelow(parent, name);
    WithoutKind(name);
  }

  lemma LettersAreLowered()
    ensures Lower("ABCDEFGHIJKLMNOPQRSTUVWXYZ") == "abcdefghijklmnopqrstuvwxyz"
    ensures forall c: char | !('A' <= c <= 'Z') :: LowerChar(c) == c
  {
    assert 'A' as int == 65 && 'a' as int == 97;
  }

  /**
    So a configuration file outside the foreign folders keeps its content over any sequence of runs in which
    caching and restoring succeed, whatever the operations do.
   */
  lemma ConfigurationSurvives(dir: string, start: Tree, none: bool, runs: seq<(Operation, Outcomes)>,
                              records: seq<Record>, parent: string, stem: string, kind: string)
    requires History(Collector(dir), start, none, runs, records)
    requires forall i | 0 <= i < |runs| :: runs[i].1.cache == Saved && runs[i].1.restore == Restored
    requires Kinded(stem, kind) && AlwaysKind(kind) && (parent == "" || parent[|parent| - 1] == '/')
    requires var path := parent + (stem + "." + kind);
             path in start && !InForeignFolder(Lower(dir + "/" + path))
    ensures var path := parent + (stem + "." + kind);
            path in EndOf(start, records) && EndOf(start, records)[path] == start[path]
  {
    var path := parent + (stem + "." + kind);
    ProtectedIff(dir, parent, stem, kind, start[path]);
    ProtectedFileSurvives(dir, start, none, runs, records, path);
  }
}
