/**
  Protection of manual configuration files around an install operation: cache, operate, restore,
  clear, each step with its own ways to fail.

  An install directory is a map from relative file paths to contents; sizes are content lengths.
 */
module ConfigProtection {
  import opened Wrappers
  import opened PyText

  type Tree = map<string, string>

  // ---------------------------------------------------------------- which files are protected

  /** A glob of the list: a fixed name, or everything between a prefix and a suffix. */
  datatype Pattern = Name(name: string) | Star(prefix: string, suffix: string)

  const PATTERNS: seq<Pattern> := [
    Star("", ".cfg"), Star("", ".ini"), Star("", ".xml"), Star("", ".conf"), Star("", ".config"), Star("", ".toml"),
    Star("", ".yaml"), Star("", ".yml"), Star("server", ".properties"), Name("GameUserSettings.ini"),
    Star("", ".json"), Star("", ".txt"), Star("Game", ".ini"), Star("Engine", ".ini"), Star("server", ".cfg")
  ]

  const EXCLUDED_PARTS: seq<string> := [
    "steamapps/", "workshop/", "logs/", ".msm-uploads/", "/content/", "/saved/", "/data/", "/maps/", "/shaders/",
    "/textures/", "/binaries/", "/thirdparty/", "/core/"
  ]

  /** The excluded suffixes without their dot. */
  const EXCLUDED_KINDS: set<string> := {
    "exe", "so", "dll", "pak", "ucas", "utoc", "vpk", "png", "jpg", "jpeg", "wav", "mp3"
  }

  const MAX_BROAD_SIZE := 2 * 1024 * 1024

  predicate Matches(name: string, pattern: Pattern) {
    match pattern
    case Name(n) => name == n
    case Star(prefix, suffix) =>
      && |name| >= |prefix| + |suffix|
      && name[..|prefix|] == prefix && name[|name| - |suffix|..] == suffix
  }

  function LowerChar(c: char): char {
    if 'A' <= c <= 'Z' then (c as int + 32) as char else c
  }

  /** `str.lower()` on ASCII letters. */
  function Lower(s: string): (r: string)
    ensures |r| == |s| && forall k | 0 <= k < |s| :: r[k] == LowerChar(s[k])
  {
    seq(|s|, k requires 0 <= k < |s| => LowerChar(s[k]))
  }

  /** Index of the last `c`, or -1. */
  function LastIndex(s: string, c: char): (r: int)
    ensures -1 <= r < |s| && (r >= 0 ==> s[r] == c)
  {
    if s == "" then -1 else if s[|s| - 1] == c then |s| - 1 else LastIndex(s[..|s| - 1], c)
  }

  function FileName(path: string): string {
    path[LastIndex(path, '/') + 1..]
  }

  /** `Path.suffix`: from the last dot on, unless the name starts or ends with it. */
  function Suffix(name: string): string {
    var i := LastIndex(name, '.');
    if 0 < i < |name| - 1 then name[i..] else ""
  }

  /** One of the excluded parts occurs in the path, wherever that is. */
  predicate Excluded(path: string) {
    exists k | 0 <= k < |EXCLUDED_PARTS| :: Contains(path, EXCLUDED_PARTS[k])
  }

  predicate KeptKind(suffix: string, size: nat) {
    && !(suffix != "" && suffix[1..] in EXCLUDED_KINDS)
    && !((suffix == ".json" || suffix == ".txt") && size > MAX_BROAD_SIZE)
  }

  /** `should_preserve_file` for the absolute path. */
  predicate ShouldPreserve(path: string, size: nat) {
    !Excluded(Lower(path)) && KeptKind(Lower(Suffix(FileName(path))), size)
  }

  predicate MatchesSome(name: string) {
    exists k | 0 <= k < |PATTERNS| :: Matches(name, PATTERNS[k])
  }

  predicate Protected(dir: string, path: string, content: string) {
    && MatchesSome(FileName(path))
    && ShouldPreserve(dir + "/" + path, |content|)
  }

  function Kept(guard: (string, string) -> bool, tree: Tree): Tree {
    map path | path in tree && guard(path, tree[path]) :: tree[path]
  }

  /** The protection of files below an install directory. */
  function Guard(dir: string): (string, string) -> bool {
    (path: string, content: string) => Protected(dir, path, content)
  }

  /** The files `cache_manual_configs` collects. */
  function ProtectedFiles(dir: string, tree: Tree): Tree {
    Kept(Guard(dir), tree)
  }

  // ---------------------------------------------------------------- the four steps

  /** How caching ends: done, broken off after some files, or without touching the old archive. */
  datatype CacheOutcome = Saved | Partial(files: set<string>) | Untouched

  /** How restoring ends: done, or broken off after some files. */
  datatype RestoreOutcome = Restored | Broken(files: set<string>)

  datatype Outcomes = Outcomes(cache: CacheOutcome, restore: RestoreOutcome, cleared: bool)

  /** The archive after caching; without protected files nothing is written, and an old archive stays. */
  function Archived(archive: Option<Tree>, files: Tree, outcome: CacheOutcome): Option<Tree> {
    if files == map[] then archive
    else
      match outcome
      case Saved => Some(files)
      case Partial(done) => Some(map path | path in files && path in done :: files[path])
      case Untouched => archive
  }

  /** The files restoring writes. */
  function Unpacked(archive: Option<Tree>, outcome: RestoreOutcome): Tree {
    match archive
    case None => map[]
    case Some(files) =>
      match outcome
      case Restored => files
      case Broken(done) => map path | path in files && path in done :: files[path]
  }

  /** The install operation: the tree it leaves behind, and whether it raised. */
  type Operation = Tree -> (Tree, bool)

  /** One run: the tree it started from, what it saved, what the operation left and what was brought back. */
  datatype Record = Record(before: Tree, saved: Tree, left: Tree, restored: Tree) {
    function End(): Tree {
      left + restored
    }
  }

  /** What `cache_manual_configs` collects below an install directory. */
  function Collector(dir: string): Tree -> Tree {
    (tree: Tree) => ProtectedFiles(dir, tree)
  }

  class Server {
    const collect: Tree -> Tree
    var tree: Tree
    var archive: Option<Tree>

    constructor (dir: string, tree: Tree)
      ensures collect == Collector(dir) && this.tree == tree && archive == None
    {
      this.collect, this.tree, archive := Collector(dir), tree, None;
    }

    /** `cache_manual_configs` */
    method Cache(outcome: CacheOutcome) returns (files: Tree)
      modifies this`archive
      ensures files == collect(tree) && archive == Archived(old(archive), files, outcome)
    {
      files := collect(tree);
      if files == map[] {
        return;
      }
      match outcome
      case Saved => archive := Some(files);
      case Partial(done) => archive := Some(map path | path in files && path in done :: files[path]);
      case Untouched =>
    }

    /** `restore_manual_configs` */
    method Restore(outcome: RestoreOutcome) returns (files: Tree)
      modifies this`tree
      ensures files == Unpacked(archive, outcome) && tree == old(tree) + files
    {
      files := Unpacked(archive, outcome);
      tree := tree + files;
    }

    /** `clear_manual_config_cache`; failures to delete are ignored. */
    method Clear(works: bool)
      modifies this`archive
      ensures archive == if works then None else old(archive)
    {
      if works {
        archive := None;
      }
    }

    /** `_protect_manual_configs_and_run`: restoring and clearing happen whether or not the operation raised. */
    method Run(operation: Operation, outcomes: Outcomes) returns (ok: bool, record: Record)
      modifies this`tree, this`archive
      ensures ok == !operation(old(tree)).1
      ensures var saved := collect(old(tree));
              var kept := Archived(old(archive), saved, outcomes.cache);
              && record == Record(old(tree), saved, operation(old(tree)).0, Unpacked(kept, outcomes.restore))
              && tree == record.End()
              && archive == if outcomes.cleared then None else kept
    {
      var before := tree;
      var saved := Cache(outcomes.cache);
      var (after, raised) := operation(tree);
      tree := after;
      ok := !raised;
      var restored := Restore(outcomes.restore);
      Clear(outcomes.cleared);
      record := Record(before, saved, after, restored);
    }

    /** Any sequence of runs, with any operations and outcomes. */
    method RunAll(runs: seq<(Operation, Outcomes)>) returns (records: seq<Record>)
      modifies this`tree, this`archive
      ensures History(collect, old(tree), old(archive) == None, runs, records)
      ensures tree == EndOf(old(tree), records)
    {
      records := [];
      for i := 0 to |runs|
        invariant History(collect, old(tree), old(archive) == None, runs[..i], records)
        invariant tree == EndOf(old(tree), records)
        invariant NoArchive(old(archive) == None, runs[..i]) ==> archive == None
      {
        ghost var at := archive;
        var ok, record := Run(runs[i].0, runs[i].1);
        OwnFilesOnly(at, record.saved, runs[i].1);
        TakeSnoc(runs, i);
        EndGrows(old(tree), old(archive) == None, runs[..i], records, runs[i], record);
        HistoryGrows(collect, old(tree), old(archive) == None, runs[..i], records, runs[i], record);
        records := records + [record];
      }
      assert runs[..|runs|] == runs;
    }
  }

  /** The tree at the end of a sequence of runs. */
  function EndOf(start: Tree, records: seq<Record>): Tree {
    if records == [] then start else records[|records| - 1].End()
  }

  /** No archive is left after these runs: the last one has cleared it. */
  predicate NoArchive(none: bool, runs: seq<(Operation, Outcomes)>) {
    if runs == [] then none else runs[|runs| - 1].1.cleared
  }

  /**
    One run from `before`. When no archive was left, or the run writes its own, it brings back only
    what it saved itself, and all of it when caching and restoring succeed.
   */
  predicate RunOf(collect: Tree -> Tree, before: Tree, none: bool, run: (Operation, Outcomes), record: Record) {
    && record.before == before && record.saved == collect(before) && record.left == run.0(before).0
    && (none || (record.saved != map[] && !run.1.cache.Untouched?) ==>
          && Submap(record.restored, record.saved)
          && (run.1.cache == Saved && run.1.restore == Restored ==> record.restored == record.saved))
  }

  /** Each run starts from what the one before has left. */
  ghost predicate History(collect: Tree -> Tree, start: Tree, none: bool, runs: seq<(Operation, Outcomes)>,
      records: seq<Record>)
    decreases |runs|
  {
    && |records| == |runs|
    && (runs == [] ||
        var n := |runs| - 1;
        && History(collect, start, none, runs[..n], records[..n])
        && RunOf(collect, EndOf(start, records[..n]), NoArchive(none, runs[..n]), runs[n], records[n]))
  }

  lemma TakeSnoc<T>(s: seq<T>, n: nat)
    requires n < |s|
    ensures s[..n + 1] == s[..n] + [s[n]]
  {
  }

  lemma EndGrows(start: Tree, none: bool, runs: seq<(Operation, Outcomes)>, records: seq<Record>,
                 run: (Operation, Outcomes), record: Record)
    ensures EndOf(start, records + [record]) == record.End() && NoArchive(none, runs + [run]) == run.1.cleared
  {
  }

  lemma HistoryGrows(collect: Tree -> Tree, start: Tree, none: bool, runs: seq<(Operation, Outcomes)>,
      records: seq<Record>,
                     run: (Operation, Outcomes), record: Record)
    requires History(collect, start, none, runs, records)
    requires RunOf(collect, EndOf(start, records), NoArchive(none, runs), run, record)
    ensures History(collect, start, none, runs + [run], records + [record])
  {
    assert (runs + [run])[..|runs|] == runs && (records + [record])[..|runs|] == records;
  }

  predicate Submap(a: Tree, b: Tree) {
    forall path | path in a :: path in b && a[path] == b[path]
  }

  // ---------------------------------------------------------------- what the run guarantees

  /** A run that starts without an old archive, or writes its own, uses only files it has saved itself. */
  lemma OwnFilesOnly(archive: Option<Tree>, saved: Tree, outcomes: Outcomes)
    ensures archive.None? || (saved != map[] && !outcomes.cache.Untouched?) ==>
              var used := Unpacked(Archived(archive, saved, outcomes.cache), outcomes.restore);
              && Submap(used, saved)
              && (outcomes.cache == Saved && outcomes.restore == Restored ==> used == saved)
  {
  }

  /**
    What a run brings back when it saves something: of what it saved, that which both steps got to. When it
    saves nothing, or caching leaves the archive alone, the old archive comes back.
   */
  lemma BroughtBackIff(archive: Option<Tree>, saved: Tree, cache: CacheOutcome, restore: RestoreOutcome, path: string)
    ensures var used := Unpacked(Archived(archive, saved, cache), restore);
            && (saved != map[] && !cache.Untouched? ==>
                  (path in used <==>
                   && path in saved && (cache.Partial? ==> path in cache.files)
                   && (restore.Broken? ==> path in restore.files))
                  && (path in used ==> used[path] == saved[path]))
            && (saved == map[] || cache.Untouched? ==>
                  (path in used <==>
                   archive.Some? && path in archive.value && (restore.Broken? ==> path in restore.files))
                  && (path in used ==> used[path] == archive.value[path]))
  {
  }

  /** Run number `i` of a history, by itself. */
  lemma {:induction false} RunAt(collect: Tree -> Tree, start: Tree, none: bool, runs: seq<(Operation, Outcomes)>,
                                 records: seq<Record>, i: nat)
    requires History(collect, start, none, runs, records) && i < |runs|
    ensures |records| == |runs|
    ensures RunOf(collect, EndOf(start, records[..i]), NoArchive(none, runs[..i]), runs[i], records[i])
    decreases |runs|
  {
    var n := |runs| - 1;
    if i < n {
      RunAt(collect, start, none, runs[..n], records[..n], i);
      assert runs[..n][..i] == runs[..i] && records[..n][..i] == records[..i];
    }
  }

  lemma EndOfAll(start: Tree, records: seq<Record>)
    ensures EndOf(start, records[..|records|]) == EndOf(start, records)
  {
  }

  lemma EndAt(start: Tree, records: seq<Record>, i: nat)
    requires i < |records|
    ensures EndOf(start, records[..i + 1]) == records[i].End()
  {
  }

  /** What the tree holds at `path` once everything `saved` lies over what the operation left. */
  lemma SavedOverLeft(dir: string, before: Tree, left: Tree, path: string)
    ensures var end := left + ProtectedFiles(dir, before);
            if path in before && Protected(dir, path, before[path]) then path in end && end[path] == before[path]
            else (path in end <==> path in left) && (path in end ==> end[path] == left[path])
  {
    var saved := ProtectedFiles(dir, before);
    assert path in saved <==> path in before && Protected(dir, path, before[path]);
  }

  /**
    In any history, whatever the operations do: a run in which caching and restoring succeed, and
    that finds no archive left or saves something, gives every protected file its old content again and
    leaves every other path as its operation left it.
   */
  lemma RunPreserves(dir: string, start: Tree, none: bool, runs: seq<(Operation, Outcomes)>, records: seq<Record>,
                     i: nat, path: string)
    requires History(Collector(dir), start, none, runs, records) && i < |runs|
    requires runs[i].1.cache == Saved && runs[i].1.restore == Restored
    requires NoArchive(none, runs[..i]) || ProtectedFiles(dir, EndOf(start, records[..i])) != map[]
    ensures |records| == |runs|
    ensures var before, end := EndOf(start, records[..i]), EndOf(start, records[..i + 1]);
            var left := runs[i].0(before).0;
            if path in before && Protected(dir, path, before[path]) then path in end && end[path] == before[path]
            else (path in end <==> path in left) && (path in end ==> end[path] == left[path])
  {
    RunAt(Collector(dir), start, none, runs, records, i);
    EndAt(start, records, i);
    SavedOverLeft(dir, records[i].before, records[i].left, path);
  }

  /** `collect` takes exactly the files that `guard` names, with their contents. */
  ghost predicate Collects(collect: Tree -> Tree, guard: (string, string) -> bool) {
    forall tree: Tree, path: string ::
      && (path in collect(tree) <==> path in tree && guard(path, tree[path]))
      && (path in collect(tree) ==> collect(tree)[path] == tree[path])
  }

  lemma FileSurvivesRun(collect: Tree -> Tree, guard: (string, string) -> bool, before: Tree, none: bool,
                        run: (Operation, Outcomes), record: Record, path: string)
    requires Collects(collect, guard) && RunOf(collect, before, none, run, record)
    requires run.1.cache == Saved && run.1.restore == Restored
    requires path in before && guard(path, before[path])
    ensures path in record.End() && record.End()[path] == before[path]
  {
    assert path in record.saved;
  }

  /**
    Over any sequence of runs in which caching and restoring succeed, a protected file keeps its
    content, whatever the operations do and whether or not archives are cleared.
   */
  lemma {:induction false} FileSurvives(collect: Tree -> Tree, guard: (string, string) -> bool, start: Tree, none: bool,
                                        runs: seq<(Operation, Outcomes)>, records: seq<Record>, path: string, n: nat)
    requires Collects(collect, guard) && History(collect, start, none, runs, records)
    requires forall i | 0 <= i < |runs| :: runs[i].1.cache == Saved && runs[i].1.restore == Restored
    requires path in start && guard(path, start[path])
    requires n <= |runs|
    ensures |records| == |runs| && path in EndOf(start, records[..n]) && EndOf(start, records[..n])[path] == start[path]
    decreases n
  {
    if n > 0 {
      var i := n - 1;
      FileSurvives(collect, guard, start, none, runs, records, path, i);
      RunAt(collect, start, none, runs, records, i);
      var before := EndOf(start, records[..i]);
      FileSurvivesRun(collect, guard, before, NoArchive(none, runs[..i]), runs[i], records[i], path);
      EndAt(start, records, i);
    }
  }

  /** At the end of all the runs. */
  lemma FileSurvivesAll(collect: Tree -> Tree, guard: (string, string) -> bool, start: Tree, none: bool,
                        runs: seq<(Operation, Outcomes)>, records: seq<Record>, path: string)
    requires Collects(collect, guard) && History(collect, start, none, runs, records)
    requires forall i | 0 <= i < |runs| :: runs[i].1.cache == Saved && runs[i].1.restore == Restored
    requires path in start && guard(path, start[path])
    ensures path in EndOf(start, records) && EndOf(start, records)[path] == start[path]
  {
    FileSurvives(collect, guard, start, none, runs, records, path, |runs|);
    EndOfAll(start, records);
  }

  lemma CollectorCollects(dir: string)
    ensures Collects(Collector(dir), Guard(dir))
  {
  }

  /** The same for the files the panel protects below an install directory. */
  lemma ProtectedFileSurvives(dir: string, start: Tree, none: bool, runs: seq<(Operation, Outcomes)>,
      records: seq<Record>,
                              path: string)
    requires History(Collector(dir), start, none, runs, records)
    requires forall i | 0 <= i < |runs| :: runs[i].1.cache == Saved && runs[i].1.restore == Restored
    requires path in start && Protected(dir, path, start[path])
    ensures path in EndOf(start, records) && EndOf(start, records)[path] == start[path]
  {
    CollectorCollects(dir);
    FileSurvivesAll(Collector(dir), Guard(dir), start, none, runs, records, path);
  }

  /**
    Clearing matters: when it fails once, the next run that finds nothing to protect brings the old
    archive back, over whatever the operation has installed.
   */
  lemma StaleArchiveComesBack(dir: string, before: Tree, after: Tree, stale: Tree, outcome: CacheOutcome, path: string)
    requires ProtectedFiles(dir, before) == map[] && path in stale
    ensures var end := after + Unpacked(Archived(Some(stale), ProtectedFiles(dir, before), outcome), Restored);
            path in end && end[path] == stale[path]
  {
  }

  /** The guarantee holds for all operations exactly when there is no stale archive to bring back. */
  lemma PreservesIff(archive: Option<Tree>, saved: Tree)
    ensures (forall after: Tree :: after + Unpacked(Archived(archive, saved, Saved), Restored) == after + saved) <==>
            archive.None? || archive.value == map[] || saved != map[]
  {
    if archive.Some? && archive.value != map[] && saved == map[] {
      var nothing: Tree := map[];
      var used := Unpacked(Archived(archive, saved, Saved), Restored);
      assert nothing + used == archive.value && nothing + saved == nothing;
    }
  }

  lemma LowerConcat(a: string, b: string)
    ensures Lower(a + b) == Lower(a) + Lower(b)
  {
  }

  lemma ContainsPrefix(a: string, b: string, part: string)
    requires Contains(a, part)
    ensures Contains(a + b, part)
  {
    var i :| 0 <= i <= |a| && StartsWith(a[i..], part);
    assert (a + b)[i..][..|part|] == a[i..][..|part|];
  }

  lemma {:induction false} LastIndexBehind(s: string, t: string, c: char)
    requires c !in t
    ensures LastIndex(s + [c] + t, c) == |s|
    decreases |t|
  {
    var all := s + [c] + t;
    if t != "" {
      var n := |t| - 1;
      LastIndexBehind(s, t[..n], c);
      assert all[..|all| - 1] == s + [c] + t[..n];
      assert all[|all| - 1] == t[n];
    }
  }

  /** A part that ends in a slash cannot reach into a file name. */
  lemma PartStaysInFront(a: string, name: string, part: string)
    requires part != "" && part[|part| - 1] == '/' && '/' !in name && Contains(a + name, part)
    ensures Contains(a, part)
  {
    var i :| 0 <= i <= |a + name| && StartsWith((a + name)[i..], part);
    var end := i + |part|;
    assert (a + name)[i..][..|part|][|part| - 1] == (a + name)[end - 1];
    assert end <= |a|;
    assert a[i..][..|part|] == (a + name)[i..][..|part|];
  }

  lemma {:induction false} NoIndex(s: string, c: char)
    requires c !in s
    ensures LastIndex(s, c) == -1
  {
    if s != "" {
      NoIndex(s[..|s| - 1], c);
    }
  }

  lemma FileNameOf(dir: string, name: string)
    requires '/' !in name
    ensures FileName(dir + "/" + name) == name && FileName(name) == name
  {
    LastIndexBehind(dir, name, '/');
    NoIndex(name, '/');
    var path := dir + ['/'] + name;
    assert path[|dir| + 1..] == name;
    assert name[0..] == name;
  }

  lemma SuffixOf(stem: string, kind: string)
    requires stem != "" && kind != "" && '.' !in kind
    ensures Suffix(stem + "." + kind) == "." + kind
  {
    LastIndexBehind(stem, kind, '.');
    var name := stem + ['.'] + kind;
    assert name[|stem|..] == "." + kind;
  }

  lemma LowerSame(s: string)
    requires forall k | 0 <= k < |s| :: !('A' <= s[k] <= 'Z')
    ensures Lower(s) == s
  {
  }

  lemma PartsEndInSlash(k: nat)
    requires k < |EXCLUDED_PARTS|
    ensures EXCLUDED_PARTS[k] != "" && EXCLUDED_PARTS[k][|EXCLUDED_PARTS[k]| - 1] == '/'
  {
  }

  /** The name of a file makes no difference to the exclusion. */
  lemma NameIsNotExcluded(dir: string, name: string)
    requires '/' !in name && '/' !in Lower(name) && !Excluded(Lower(dir + "/"))
    ensures !Excluded(Lower(dir + "/" + name))
  {
    LowerConcat(dir + "/", name);
    forall k | 0 <= k < |EXCLUDED_PARTS| ensures !Contains(Lower(dir + "/") + Lower(name), EXCLUDED_PARTS[k]) {
      PartsEndInSlash(k);
      if Contains(Lower(dir + "/") + Lower(name), EXCLUDED_PARTS[k]) {
        PartStaysInFront(Lower(dir + "/"), Lower(name), EXCLUDED_PARTS[k]);
      }
    }
  }

  lemma MatchesCfg(stem: string)
    ensures MatchesSome(stem + ".cfg")
  {
    var name := stem + ".cfg";
    assert name[..0] == "" && name[|stem|..] == ".cfg";
    assert Matches(name, PATTERNS[0]);
  }

  lemma CfgIsKept(size: nat)
    ensures KeptKind(".cfg", size)
  {
    assert ".cfg"[1..] == "cfg" && "cfg" !in EXCLUDED_KINDS;
  }

  lemma PreserveFrom(path: string, size: nat, name: string, kind: string)
    requires FileName(path) == name && Suffix(name) == kind && Lower(kind) == kind
    requires !Excluded(Lower(path)) && KeptKind(kind, size)
    ensures ShouldPreserve(path, size)
  {
  }

  lemma ProtectedFrom(dir: string, path: string, content: string)
    requires MatchesSome(FileName(path)) && ShouldPreserve(dir + "/" + path, |content|)
    ensures Protected(dir, path, content)
  {
  }

  /** Outside the excluded directories every `.cfg` file is protected. */
  lemma CfgIsProtected(dir: string, stem: string, name: string, content: string)
    requires stem != "" && '/' !in stem && name == stem + ".cfg" && !Excluded(Lower(dir + "/"))
    ensures Protected(dir, name, content)
  {
    FileNameOf(dir, name);
    CfgSuffix(stem);
    LowerHasNoSlash(name);
    NameIsNotExcluded(dir, name);
    CfgIsKept(|content|);
    PreserveFrom(dir + "/" + name, |content|, name, ".cfg");
    MatchesCfg(stem);
    ProtectedFrom(dir, name, content);
  }

  lemma CfgSuffix(stem: string)
    requires stem != ""
    ensures Suffix(stem + ".cfg") == ".cfg" && Lower(".cfg") == ".cfg"
  {
    SuffixOf(stem, "cfg");
    assert stem + "." + "cfg" == stem + ".cfg";
    LowerSame(".cfg");
  }

  lemma LowerHasNoSlash(s: string)
    requires '/' !in s
    ensures '/' !in Lower(s)
  {
  }

  /**
    The exclusions are looked for in the absolute path: an install directory has no protected files,
    whatever is in it, exactly when its own path holds one of them.
   */
  lemma ExcludedDirectoryProtectsNothing(dir: string)
    ensures (forall tree :: ProtectedFiles(dir, tree) == map[]) <==> Excluded(Lower(dir + "/"))
  {
    if Excluded(Lower(dir + "/")) {
      var k :| 0 <= k < |EXCLUDED_PARTS| && Contains(Lower(dir + "/"), EXCLUDED_PARTS[k]);
      forall tree ensures ProtectedFiles(dir, tree) == map[] {
        ExcludedProtectsNothing(dir, tree, k);
      }
    } else {
      OneIsProtected(dir, "a", "a.cfg");
    }
  }

  lemma OneIsProtected(dir: string, stem: string, name: string)
    requires stem != "" && '/' !in stem && name == stem + ".cfg" && !Excluded(Lower(dir + "/"))
    ensures exists tree :: ProtectedFiles(dir, tree) != map[]
  {
    CfgIsProtected(dir, stem, name, "");
    GuardHolds(dir, name, "");
    OneIsKept(Guard(dir), name, "");
    SomeProtected(dir);
  }

  lemma GuardHolds(dir: string, path: string, content: string)
    requires Protected(dir, path, content)
    ensures Guard(dir)(path, content)
  {
  }

  lemma SomeProtected(dir: string)
    requires exists tree :: Kept(Guard(dir), tree) != map[]
    ensures exists tree :: ProtectedFiles(dir, tree) != map[]
  {
    var tree :| Kept(Guard(dir), tree) != map[];
    assert ProtectedFiles(dir, tree) != map[];
  }

  lemma OneIsKept(guard: (string, string) -> bool, path: string, content: string)
    requires guard(path, content)
    ensures exists tree :: Kept(guard, tree) != map[]
  {
    var tree: Tree := map[path := content];
    assert path in Kept(guard, tree);
  }

  lemma ExcludedProtectsNothing(dir: string, tree: Tree, k: nat)
    requires k < |EXCLUDED_PARTS| && Contains(Lower(dir + "/"), EXCLUDED_PARTS[k])
    ensures ProtectedFiles(dir, tree) == map[]
  {
    forall path | path in tree ensures !Protected(dir, path, tree[path]) {
      LowerConcat(dir + "/", path);
      ContainsPrefix(Lower(dir + "/"), Lower(path), EXCLUDED_PARTS[k]);
    }
  }
}
