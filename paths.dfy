/** Discovery of the directories and files the engine works on: the JetBrains configuration
    directory and its identifier and database files, the VSCode-family storage directories with
    the variant each belongs to, the per-directory storage and database files, and the checks
    `validate_path` and `ensure_long_path_support`. `PathManager` caches the JetBrains directory
    and the VSCode listing in fields, as the original class does. */
module Paths {
  import opened Common
  import opened Fs
  import opened Settings

  // ----- JetBrains -----

  /** The entries `get_jetbrains_config_dir` tries, in order: config, data, home. */
  function JetBrainsBases(pp: PlatformPaths): seq<Base> {
    [pp.config, pp.data, At(pp.home)]
  }

  /** A base that is set and holds a `JetBrains` directory. */
  predicate HoldsJetBrains(t: Tree, b: Base) {
    b.At? && IsDir(t, b.path + [JetBrainsDirName])
  }

  /** The index of the first base that holds a `JetBrains` directory. */
  function FirstJetBrainsBase(t: Tree, bases: seq<Base>): (r: Option<nat>)
    ensures r.Some? ==> r.value < |bases| && HoldsJetBrains(t, bases[r.value])
    ensures r.Some? ==> forall j :: 0 <= j < r.value ==> !HoldsJetBrains(t, bases[j])
    ensures r.None? <==> forall j :: 0 <= j < |bases| ==> !HoldsJetBrains(t, bases[j])
  {
    if bases == [] then None
    else if HoldsJetBrains(t, bases[0]) then Some(0)
    else
      match FirstJetBrainsBase(t, bases[1..])
      case None => None
      case Some(i) => Some(i + 1)
  }

  /** The directory a fresh lookup finds. */
  function JetBrainsLookup(t: Tree, pp: PlatformPaths): Option<Path> {
    var bases := JetBrainsBases(pp);
    match FirstJetBrainsBase(t, bases)
    case None => None
    case Some(i) => Some(bases[i].path + [JetBrainsDirName])
  }

  /** What `get_jetbrains_config_dir` answers given the cache field. */
  function JetBrainsConfigDir(cache: Option<Path>, t: Tree, pp: PlatformPaths): (r: Option<Path>)
    ensures cache.Some? ==> r == cache
    ensures cache.None? && r.Some? ==> Name(r.value) == JetBrainsDirName && IsDir(t, r.value)
  {
    if cache.Some? then cache else JetBrainsLookup(t, pp)
  }

  /** The found directory is an existing `JetBrains` directory under the first base that has
      one; config is preferred to data and data to home. */
  lemma JetBrainsLookupFirst(t: Tree, pp: PlatformPaths)
    ensures JetBrainsLookup(t, pp).Some? ==> IsDir(t, JetBrainsLookup(t, pp).value)
    ensures HoldsJetBrains(t, pp.config) ==> JetBrainsLookup(t, pp) == Some(pp.config.path + [JetBrainsDirName])
    ensures !HoldsJetBrains(t, pp.config) && HoldsJetBrains(t, pp.data) ==>
      JetBrainsLookup(t, pp) == Some(pp.data.path + [JetBrainsDirName])
    ensures JetBrainsLookup(t, pp).None? <==>
      !HoldsJetBrains(t, pp.config) && !HoldsJetBrains(t, pp.data) && !IsDir(t, pp.home + [JetBrainsDirName])
  {
    var bases := JetBrainsBases(pp);
    var r := FirstJetBrainsBase(t, bases);
    if r.Some? {
      assert r.value == 0 || !HoldsJetBrains(t, bases[0]);
      assert r.value <= 1 || !HoldsJetBrains(t, bases[1]);
    }
    if r.None? {
      assert !HoldsJetBrains(t, bases[0]) && !HoldsJetBrains(t, bases[1]) && !HoldsJetBrains(t, bases[2]);
    }
  }

  /** The identifier files of a JetBrains directory, one per configured name, in order. */
  function IdFilePaths(dir: Path): (r: seq<Path>)
    ensures |r| == |IdFiles| && forall i :: 0 <= i < |r| ==> r[i] == dir + [IdFiles[i]]
  {
    seq(|IdFiles|, i requires 0 <= i < |IdFiles| => dir + [IdFiles[i]])
  }

  /** What `rglob(pattern)` yields below `d`: every reachable entry whose name matches. */
  function RGlob(t: Tree, d: Path, pattern: string): set<Path> {
    set p | p in t && Reachable(t, d, p) && FnMatch(Name(p), pattern)
  }

  /** The name of a database file: one of the configured patterns matches it. */
  predicate IsDatabaseName(name: string) {
    exists i :: 0 <= i < |DatabasePatterns| && FnMatch(name, DatabasePatterns[i])
  }

  /** The configured patterns select exactly the names ending in `.db`, `.sqlite` or
      `.sqlite3`. */
  lemma DatabaseNameSuffix(name: string)
    ensures IsDatabaseName(name) <==>
      EndsWith(name, ".db") || EndsWith(name, ".sqlite") || EndsWith(name, ".sqlite3")
  {
    assert DatabasePatterns[0] == "*" + ".db";
    assert DatabasePatterns[1] == "*" + ".sqlite";
    assert DatabasePatterns[2] == "*" + ".sqlite3";
    FnMatchSuffix(name, ".db");
    FnMatchSuffix(name, ".sqlite");
    FnMatchSuffix(name, ".sqlite3");
  }

  /** A name matches at most one database pattern. */
  lemma DatabasePatternsApart(name: string, k: int, l: int)
    requires 0 <= k < l < |DatabasePatterns| && FnMatch(name, DatabasePatterns[k])
    ensures !FnMatch(name, DatabasePatterns[l])
  {
    assert DatabasePatterns[0] == "*" + ".db";
    assert DatabasePatterns[1] == "*" + ".sqlite";
    assert DatabasePatterns[2] == "*" + ".sqlite3";
    FnMatchSuffix(name, DatabasePatterns[k][1..]);
    FnMatchSuffix(name, DatabasePatterns[l][1..]);
    var x, y := DatabasePatterns[k][1..], DatabasePatterns[l][1..];
    EndsWithLast(name, x);
    EndsWithLast(name, y);
  }

  /** A non-empty suffix fixes the last element. */
  lemma EndsWithLast(s: string, x: string)
    requires |x| > 0
    ensures EndsWith(s, x) ==> |s| > 0 && s[|s| - 1] == x[|x| - 1]
  {
    if EndsWith(s, x) {
      assert s[|s| - |x|..][|x| - 1] == x[|x| - 1];
    }
  }

  /** No path is listed twice. */
  predicate NoRepeats(s: seq<Path>) {
    forall i, j :: 0 <= i < j < |s| ==> s[i] != s[j]
  }

  /** No listed path lies at or below another one. */
  predicate Unnested(files: seq<Path>) {
    forall i, j :: 0 <= i < |files| && 0 <= j < |files| && i != j ==> !StartsWith(files[i], files[j])
  }

  /** Different regular files reached below `d` never lie one below the other: every proper
      prefix of a reached path below `d` is a directory. */
  lemma ReachableFilesApart(t: Tree, d: Path, files: seq<Path>)
    requires forall p :: p in files ==> IsFile(t, p) && Reachable(t, d, p)
    requires NoRepeats(files)
    ensures Unnested(files)
  {
    forall i, j | 0 <= i < |files| && 0 <= j < |files| && i != j
      ensures !StartsWith(files[i], files[j])
    {
      var p, q := files[i], files[j];
      assert p in files && q in files;
      if |q| < |p| {
        assert IsDir(t, p[..|q|]);
        assert p[..|q|] != q;
      } else if |q| == |p| {
        assert i < j || j < i;
        assert p != q;
      }
    }
  }

  /** Lists the members of `s` after `acc`, in an order the model leaves open (directory
      listings come back in the filesystem's order). */
  method AppendListing(acc: seq<Path>, s: set<Path>) returns (r: seq<Path>)
    ensures |r| == |acc| + |s| && r[..|acc|] == acc
    ensures forall p :: p in r <==> p in acc || p in s
    ensures forall i :: |acc| <= i < |r| ==> r[i] in s
    ensures NoRepeats(acc) && (forall p :: p in s ==> p !in acc) ==> NoRepeats(r)
  {
    r := acc;
    var rest := s;
    while rest != {}
      invariant rest <= s && |r| == |acc| + |s| - |rest| && r[..|acc|] == acc
      invariant forall p :: p in r <==> p in acc || p in s - rest
      invariant forall i :: |acc| <= i < |r| ==> r[i] in s - rest
      invariant NoRepeats(acc) && (forall p :: p in s ==> p !in acc) ==> NoRepeats(r)
      decreases |rest|
    {
      var p :| p in rest;
      r := r + [p];
      rest := rest - {p};
    }
  }

  /** The regular files of a listing, in its order: the `is_file()` filter over `rglob`. */
  method KeepFiles(t: Tree, found: seq<Path>) returns (files: seq<Path>)
    ensures forall p :: p in files <==> p in found && IsFile(t, p)
    ensures NoRepeats(found) ==> NoRepeats(files)
  {
    files := [];
    var j := 0;
    while j < |found|
      invariant 0 <= j <= |found|
      invariant forall p :: p in files <==> p in found[..j] && IsFile(t, p)
      invariant NoRepeats(found) ==> NoRepeats(files)
    {
      assert found[..j + 1] == found[..j] + [found[j]];
      if found[j] in t && t[found[j]].entry.File? {
        assert NoRepeats(found) ==> found[j] !in found[..j];
        files := files + [found[j]];
      }
      j := j + 1;
    }
    assert found[..|found|] == found;
  }

  // ----- VSCode storage discovery -----

  /** `base/pattern` for each pattern that names an existing directory, in pattern order. */
  function ExistingDirs(t: Tree, base: Path, pats: seq<Path>): (r: seq<Path>)
    ensures forall p :: p in r ==> IsDir(t, p)
    ensures forall i :: 0 <= i < |pats| && IsDir(t, base + pats[i]) ==> base + pats[i] in r
    ensures forall p :: p in r ==> exists i :: 0 <= i < |pats| && p == base + pats[i]
    decreases |pats|
  {
    if pats == [] then []
    else
      var init := pats[..|pats| - 1];
      var last := base + pats[|pats| - 1];
      var r := ExistingDirs(t, base, init) + (if IsDir(t, last) then [last] else []);
      assert forall i :: 0 <= i < |init| ==> pats[i] == init[i];
      r
  }

  /** The subdirectories `iterdir` lists in a workspace storage directory; an unreadable one
      raises, and the engine moves on with nothing from it. */
  function WorkspaceChildren(t: Tree, w: Path): set<Path> {
    if IsDir(t, w) && t[w].readable then set c | c in Children(t, w) && IsDir(t, c) else {}
  }

  function WorkspaceDirs(t: Tree, base: Path, pats: seq<Path>): set<Path>
    decreases |pats|
  {
    if pats == [] then {}
    else WorkspaceDirs(t, base, pats[..|pats| - 1]) + WorkspaceChildren(t, base + pats[|pats| - 1])
  }

  /** `base/pattern/machineId` for each pattern where that entry exists, in pattern order. */
  function MachineIdFiles(t: Tree, base: Path, pats: seq<Path>): (r: seq<Path>)
    ensures forall p :: p in r ==> p in t && Name(p) == "machineId"
    decreases |pats|
  {
    if pats == [] then []
    else
      var last := base + pats[|pats| - 1] + ["machineId"];
      MachineIdFiles(t, base, pats[..|pats| - 1]) + (if last in t then [last] else [])
  }

  /** Everything `_find_vscode_storage_dirs` reports for one installation. */
  function StorageSet(t: Tree, base: Path): set<Path> {
    (set p | p in ExistingDirs(t, base, GlobalPatterns)) + WorkspaceDirs(t, base, WorkspacePatterns) +
    (set p | p in MachineIdFiles(t, base, MachineIdPatterns))
  }

  /** Everything found under the installations named by `variants` that exist below `base`. */
  function VariantStorage(t: Tree, base: Path, variants: seq<string>): set<Path>
    decreases |variants|
  {
    if variants == [] then {}
    else
      var v := variants[|variants| - 1];
      VariantStorage(t, base, variants[..|variants| - 1]) +
      (if IsDir(t, base + [v]) then StorageSet(t, base + [v]) else {})
  }
  /** One more variant adds its storage directories when it is installed. */
  lemma VariantStorageSnoc(t: Tree, base: Path, variants: seq<string>, i: nat)
    requires i < |variants|
    ensures VariantStorage(t, base, variants[..i + 1]) == VariantStorage(t, base, variants[..i]) +
      (if IsDir(t, base + [variants[i]]) then StorageSet(t, base + [variants[i]]) else {})
  {
    assert variants[..i + 1][..i] == variants[..i];
  }

  /** The variant `get_vscode_directories` records for the string form `s`: the last of
      `variants` installed under `base` whose storage holds a path printing as `s`, since
      each variant overwrites what the ones before it recorded. */
  ghost function VariantOf(t: Tree, base: Path, variants: seq<string>, s: string): (r: Option<string>)
    ensures r.Some? ==> r.value in variants && IsDir(t, base + [r.value]) && StoresStr(t, base + [r.value], s)
    decreases |variants|
  {
    if variants == [] then None
    else
      var v := variants[|variants| - 1];
      if IsDir(t, base + [v]) && StoresStr(t, base + [v], s) then Some(v)
      else VariantOf(t, base, variants[..|variants| - 1], s)
  }

  /** One more variant is consulted first: it wins when it stores `s`. */
  lemma VariantOfSnoc(t: Tree, base: Path, variants: seq<string>, i: nat, s: string)
    requires i < |variants|
    ensures VariantOf(t, base, variants[..i + 1], s) ==
      if IsDir(t, base + [variants[i]]) && StoresStr(t, base + [variants[i]], s) then Some(variants[i])
      else VariantOf(t, base, variants[..i], s)
  {
    assert variants[..i + 1][..i] == variants[..i];
  }

  /** The loop of `get_vscode_directories` after the variants `vs`: `all` holds exactly
      their storage paths, each recorded in `m` under the variant `VariantOf` gives. */
  ghost predicate Collected(t: Tree, base: Path, vs: seq<string>, all: seq<Path>, m: map<string, string>) {
    (forall p :: p in all <==> p in VariantStorage(t, base, vs)) &&
    (forall p :: p in all ==> PathStr(p) in m && VariantOf(t, base, vs, PathStr(p)) == Some(m[PathStr(p)]))
  }

  /** After the installed variant `variants[i]` records its storage paths, every path seen so
      far carries the variant `VariantOf` gives once `variants[i]` is consulted too. */
  lemma VariantRecorded(t: Tree, base: Path, variants: seq<string>, i: nat, all: seq<Path>, storage: seq<Path>,
                        m0: map<string, string>, m1: map<string, string>)
    requires i < |variants| && IsDir(t, base + [variants[i]])
    requires forall p :: p in storage <==> p in StorageSet(t, base + [variants[i]])
    requires Collected(t, base, variants[..i], all, m0)
    requires m1.Keys == m0.Keys + set p | p in storage :: PathStr(p)
    requires forall p :: p in storage ==> m1[PathStr(p)] == variants[i]
    requires forall k :: k in m0 && (forall p :: p in storage ==> PathStr(p) != k) ==> m1[k] == m0[k]
    ensures Collected(t, base, variants[..i + 1], all + storage, m1)
  {
    StorageCollected(t, base, variants, i, all, storage);
    forall p | p in all + storage
      ensures PathStr(p) in m1 && VariantOf(t, base, variants[..i + 1], PathStr(p)) == Some(m1[PathStr(p)])
    {
      VariantRecordedAt(t, base, variants, i, all, storage, m0, m1, p);
    }
  }

  /** The paths half of `VariantRecorded`: `all + storage` lists the storage of `variants[..i + 1]`. */
  lemma StorageCollected(t: Tree, base: Path, variants: seq<string>, i: nat, all: seq<Path>, storage: seq<Path>)
    requires i < |variants| && IsDir(t, base + [variants[i]])
    requires forall p :: p in storage <==> p in StorageSet(t, base + [variants[i]])
    requires forall p :: p in all <==> p in VariantStorage(t, base, variants[..i])
    ensures forall p :: p in all + storage <==> p in VariantStorage(t, base, variants[..i + 1])
  {
    VariantStorageSnoc(t, base, variants, i);
  }

  /** The step of `VariantRecorded` for one path `p`. */
  lemma VariantRecordedAt(t: Tree, base: Path, variants: seq<string>, i: nat, all: seq<Path>, storage: seq<Path>,
                          m0: map<string, string>, m1: map<string, string>, p: Path)
    requires i < |variants| && IsDir(t, base + [variants[i]])
    requires forall p :: p in storage <==> p in StorageSet(t, base + [variants[i]])
    requires forall p :: p in all ==> PathStr(p) in m0 && VariantOf(t, base, variants[..i], PathStr(p)) == Some(m0[PathStr(p)])
    requires m1.Keys == m0.Keys + set p | p in storage :: PathStr(p)
    requires forall p :: p in storage ==> m1[PathStr(p)] == variants[i]
    requires forall k :: k in m0 && (forall p :: p in storage ==> PathStr(p) != k) ==> m1[k] == m0[k]
    requires p in all + storage
    ensures PathStr(p) in m1 && VariantOf(t, base, variants[..i + 1], PathStr(p)) == Some(m1[PathStr(p)])
  {
    var d := base + [variants[i]];
    VariantOfSnoc(t, base, variants, i, PathStr(p));
    if q :| q in storage && PathStr(q) == PathStr(p) {
      assert q in StorageSet(t, d);
      assert StoresStr(t, d, PathStr(p));
      assert PathStr(p) in m1;
    } else {
      assert p in all;
      assert !StoresStr(t, d, PathStr(p));
      assert PathStr(p) in m0;
    }
  }

  /** A variant that is not installed changes neither the paths nor any path's variant. */
  lemma VariantSkipped(t: Tree, base: Path, variants: seq<string>, i: nat, all: seq<Path>, m: map<string, string>)
    requires i < |variants| && !IsDir(t, base + [variants[i]])
    requires Collected(t, base, variants[..i], all, m)
    ensures Collected(t, base, variants[..i + 1], all, m)
  {
    VariantStorageSnoc(t, base, variants, i);
    forall p | p in all
      ensures VariantOf(t, base, variants[..i + 1], PathStr(p)) == Some(m[PathStr(p)])
    {
      VariantOfSnoc(t, base, variants, i, PathStr(p));
    }
  }

  /** Every listed path's string is recorded in `m` under the variant `VariantOf` gives. */
  ghost predicate VariantsRecorded(t: Tree, base: Path, dirs: seq<Path>, m: map<string, string>) {
    forall p :: p in dirs ==> PathStr(p) in m && VariantOf(t, base, VscodeVariants, PathStr(p)) == Some(m[PathStr(p)])
  }

  /** What `get_vscode_directories` finds without a cached listing: nothing when the
      configuration base is missing; otherwise only storage paths of installed variants, at
      least one per string form found, strictly sorted by string form, each with its variant
      recorded in `m`. */
  ghost predicate Discovered(t: Tree, base: Path, dirs: seq<Path>, m: map<string, string>) {
    if base !in t then dirs == []
    else
      var found := VariantStorage(t, base, VscodeVariants);
      (forall p :: p in dirs ==> p in found) &&
      (forall p :: p in found ==> exists q :: q in dirs && PathStr(q) == PathStr(p)) &&
      (forall i, j :: 0 <= i < j < |dirs| ==> StrLt(PathStr(dirs[i]), PathStr(dirs[j]))) &&
      VariantsRecorded(t, base, dirs, m)
  }

  /** The storage of the installation at `d` holds a path printing as `s`. */
  ghost predicate StoresStr(t: Tree, d: Path, s: string) {
    exists p :: p in StorageSet(t, d) && PathStr(p) == s
  }

  // ----- ordering by string form -----

  predicate SortedByStr(s: seq<Path>) {
    forall i, j :: 0 <= i < j < |s| ==> StrLe(PathStr(s[i]), PathStr(s[j]))
  }

  /** No two entries print the same. */
  predicate DistinctStrs(s: seq<Path>) {
    forall i, j :: 0 <= i < j < |s| ==> PathStr(s[i]) != PathStr(s[j])
  }

  lemma StrLeTransitive(a: string, b: string, c: string)
    requires StrLe(a, b) && StrLe(b, c)
    ensures StrLe(a, c)
  {
    if StrLt(a, b) && StrLt(b, c) {
      StrLtTransitive(a, b, c);
    }
  }

  function InsertByStr(x: Path, s: seq<Path>): (r: seq<Path>)
    ensures multiset(r) == multiset(s) + multiset{x}
  {
    if s == [] then [x]
    else if StrLe(PathStr(x), PathStr(s[0])) then [x] + s
    else
      assert s == [s[0]] + s[1..];
      [s[0]] + InsertByStr(x, s[1..])
  }

  /** Inserting into a sorted listing keeps it sorted. */
  lemma {:induction false} InsertSorted(x: Path, s: seq<Path>)
    requires SortedByStr(s)
    ensures SortedByStr(InsertByStr(x, s))
    decreases |s|
  {
    if s == [] {
    } else if StrLe(PathStr(x), PathStr(s[0])) {
      forall k | 0 <= k < |s| ensures StrLe(PathStr(x), PathStr(s[k])) {
        if k > 0 {
          StrLeTransitive(PathStr(x), PathStr(s[0]), PathStr(s[k]));
        }
      }
      ConsSorted(x, s);
    } else {
      StrLtTotal(PathStr(x), PathStr(s[0]));
      var tail := s[1..];
      SortedTail(s);
      InsertSorted(x, tail);
      InsertAbove(s[0], x, s);
      ConsSorted(s[0], InsertByStr(x, tail));
    }
  }

  /** A sorted listing stays sorted without its first entry. */
  lemma SortedTail(s: seq<Path>)
    requires SortedByStr(s) && s != []
    ensures SortedByStr(s[1..])
  {
    var tail := s[1..];
    forall i, j | 0 <= i < j < |tail| ensures StrLe(PathStr(tail[i]), PathStr(tail[j])) {
      assert tail[i] == s[i + 1] && tail[j] == s[j + 1];
    }
  }

  /** An entry no greater than every entry of a sorted listing can go in front of it. */
  lemma ConsSorted(a: Path, rest: seq<Path>)
    requires SortedByStr(rest)
    requires forall k :: 0 <= k < |rest| ==> StrLe(PathStr(a), PathStr(rest[k]))
    ensures SortedByStr([a] + rest)
  {
    var r := [a] + rest;
    forall i, j | 0 <= i < j < |r| ensures StrLe(PathStr(r[i]), PathStr(r[j])) {
      if i == 0 {
        assert r[j] == rest[j - 1];
      } else {
        assert r[i] == rest[i - 1] && r[j] == rest[j - 1];
      }
    }
  }

  /** The first entry of a sorted listing is no greater than anything `x` inserted after it
      produces, when it is below `x`. */
  lemma InsertAbove(a: Path, x: Path, s: seq<Path>)
    requires SortedByStr(s) && s != [] && a == s[0] && StrLt(PathStr(a), PathStr(x))
    ensures forall k :: 0 <= k < |InsertByStr(x, s[1..])| ==> StrLe(PathStr(a), PathStr(InsertByStr(x, s[1..])[k]))
  {
    var tail := s[1..];
    var rest := InsertByStr(x, tail);
    forall k | 0 <= k < |rest| ensures StrLe(PathStr(a), PathStr(rest[k])) {
      assert rest[k] in multiset(rest);
      if rest[k] != x {
        assert rest[k] in multiset(tail);
        var m :| 0 <= m < |tail| && tail[m] == rest[k];
        assert tail[m] == s[m + 1];
      }
    }
  }

  /** `sorted(paths, key=str)`. */
  function SortByStr(s: seq<Path>): (r: seq<Path>)
    ensures SortedByStr(r) && multiset(r) == multiset(s)
  {
    if s == [] then []
    else
      assert s == [s[0]] + s[1..];
      var rest := SortByStr(s[1..]);
      InsertSorted(s[0], rest);
      InsertByStr(s[0], rest)
  }

  /** A sequence without repeated string forms holds each path at most once. */
  lemma {:induction false} DistinctOnce(s: seq<Path>, x: Path)
    requires DistinctStrs(s)
    ensures multiset(s)[x] <= 1
    decreases |s|
  {
    if s != [] {
      assert s == [s[0]] + s[1..];
      assert DistinctStrs(s[1..]) by {
        forall i, j | 0 <= i < j < |s[1..]| ensures PathStr(s[1..][i]) != PathStr(s[1..][j]) {
          assert s[1..][i] == s[i + 1] && s[1..][j] == s[j + 1];
        }
      }
      DistinctOnce(s[1..], x);
      if x == s[0] {
        assert x !in s[1..] by {
          forall k | 0 <= k < |s[1..]| ensures s[1..][k] != x {
            assert s[1..][k] == s[k + 1];
          }
        }
      }
    }
  }

  lemma DistinctAt(u: seq<Path>, a: int, b: int)
    requires DistinctStrs(u) && 0 <= a < |u| && 0 <= b < |u| && a != b
    ensures PathStr(u[a]) != PathStr(u[b])
  {
    if b < a {
      assert PathStr(u[b]) != PathStr(u[a]);
    }
  }

  /** Sorting a listing without repeated string forms orders it strictly. */
  lemma SortedDistinct(u: seq<Path>, r: seq<Path>)
    requires DistinctStrs(u) && SortedByStr(r) && multiset(r) == multiset(u)
    ensures forall i, j :: 0 <= i < j < |r| ==> StrLt(PathStr(r[i]), PathStr(r[j]))
  {
    forall i, j | 0 <= i < j < |r| ensures StrLt(PathStr(r[i]), PathStr(r[j])) {
      DistinctOnce(u, r[i]);
      assert r == r[..j] + r[j..];
      assert r[i] == r[..j][i];
      assert r[j] == r[j..][0];
      assert multiset(r)[r[i]] == multiset(r[..j])[r[i]] + multiset(r[j..])[r[i]];
      assert r[i] !in multiset(r[j..]);
      assert r[i] != r[j];
      assert r[i] in multiset(u) && r[j] in multiset(u);
      var a :| 0 <= a < |u| && u[a] == r[i];
      var b :| 0 <= b < |u| && u[b] == r[j];
      DistinctAt(u, a, b);
    }
  }

  /** The de-duplication loop of `get_vscode_directories`: the first path of each string
      form, in listing order. */
  method DedupeByStr(all: seq<Path>) returns (unique: seq<Path>)
    ensures DistinctStrs(unique)
    ensures forall q :: q in unique ==> q in all
    ensures forall p :: p in all ==> exists q :: q in unique && PathStr(q) == PathStr(p)
  {
    var seen: set<string> := {};
    unique := [];
    var j := 0;
    while j < |all|
      invariant 0 <= j <= |all|
      invariant seen == set q | q in unique :: PathStr(q)
      invariant DistinctStrs(unique)
      invariant forall q :: q in unique ==> q in all
      invariant forall k :: 0 <= k < j ==> PathStr(all[k]) in seen
    {
      var s := PathStr(all[j]);
      if s !in seen {
        seen := seen + {s};
        unique := unique + [all[j]];
      }
      j := j + 1;
    }
  }

  // ----- the path manager -----

  class PathManager {
    const platformPaths: PlatformPaths
    /** The working directory `Path("")` stands for when a Windows variable is unset. */
    const cwd: Path
    /** `_jetbrains_dirs`: the JetBrains directory once found. */
    var jetbrainsDir: Option<Path>
    /** `_vscode_dirs`: the VSCode listing once computed. */
    var vscodeDirs: Option<seq<Path>>
    /** `_vscode_variant_map`: the variant each reported storage path was found under. */
    var variantMap: map<string, string>

    /** The configuration base the VSCode variants are looked for under. */
    function ConfigBase(): Path {
      Resolve(platformPaths.config, cwd)
    }

    /** Every recorded variant is a configured one. */
    predicate Valid()
      reads this
    {
      forall k :: k in variantMap ==> variantMap[k] in VscodeVariants
    }

    constructor(platform: Platform, env: map<string, Path>, home: Path, cwd: Path)
      ensures platformPaths == GetPlatformPaths(platform, env, home) && this.cwd == cwd
      ensures jetbrainsDir == None && vscodeDirs == None && variantMap == map[] && Valid()
    {
      platformPaths := GetPlatformPaths(platform, env, home);
      this.cwd := cwd;
      jetbrainsDir := None;
      vscodeDirs := None;
      variantMap := map[];
    }

    /** `get_jetbrains_config_dir()`: a cached directory is returned as it is; otherwise the
        bases are tried in order and a found directory is cached (a miss is not). */
    method GetJetBrainsConfigDir(t: Tree) returns (r: Option<Path>)
      modifies this`jetbrainsDir
      ensures r == JetBrainsConfigDir(old(jetbrainsDir), t, platformPaths)
      ensures jetbrainsDir == r
    {
      if jetbrainsDir.Some? {
        return jetbrainsDir;
      }
      var bases := JetBrainsBases(platformPaths);
      var i := 0;
      while i < |bases|
        invariant 0 <= i <= |bases| && jetbrainsDir == None
        invariant forall j :: 0 <= j < i ==> !HoldsJetBrains(t, bases[j])
      {
        var b := bases[i];
        if b.At? {
          var p := b.path + [JetBrainsDirName];
          if p in t && t[p].entry.Dir? {
            assert FirstJetBrainsBase(t, bases) == Some(i);
            jetbrainsDir := Some(p);
            return Some(p);
          }
        }
        i := i + 1;
      }
      return None;
    }

    /** `get_jetbrains_id_files()`: no files without a JetBrains directory, otherwise one path
        per configured name whether or not it exists. */
    method GetJetBrainsIdFiles(t: Tree) returns (files: seq<Path>)
      modifies this`jetbrainsDir
      ensures var dir := JetBrainsConfigDir(old(jetbrainsDir), t, platformPaths);
        files == if dir.None? then [] else IdFilePaths(dir.value)
      ensures jetbrainsDir == JetBrainsConfigDir(old(jetbrainsDir), t, platformPaths)
    {
      var dir := GetJetBrainsConfigDir(t);
      if dir.None? {
        return [];
      }
      files := [];
      var i := 0;
      while i < |IdFiles|
        invariant 0 <= i <= |IdFiles| && |files| == i
        invariant forall k :: 0 <= k < i ==> files[k] == dir.value + [IdFiles[k]]
      {
        files := files + [dir.value + [IdFiles[i]]];
        i := i + 1;
      }
    }

    /** `get_jetbrains_database_files()`: every regular file below the JetBrains directory,
        reached by the recursive glob, whose name matches a database pattern. */
    method GetJetBrainsDatabaseFiles(t: Tree) returns (files: seq<Path>)
      modifies this`jetbrainsDir
      ensures var dir := JetBrainsConfigDir(old(jetbrainsDir), t, platformPaths);
        forall p :: p in files <==>
          dir.Some? && dir.value in t && IsFile(t, p) && Reachable(t, dir.value, p) && IsDatabaseName(Name(p))
      ensures NoRepeats(files) && Unnested(files)
      ensures jetbrainsDir == JetBrainsConfigDir(old(jetbrainsDir), t, platformPaths)
    {
      files := [];
      var dir := GetJetBrainsConfigDir(t);
      if dir.Some? && dir.value in t {
        var found: seq<Path> := [];
        var i := 0;
        while i < |DatabasePatterns|
          invariant 0 <= i <= |DatabasePatterns|
          invariant jetbrainsDir == dir
          invariant forall p :: p in found <==>
            p in t && Reachable(t, dir.value, p) &&
            exists k :: 0 <= k < i && FnMatch(Name(p), DatabasePatterns[k])
          invariant NoRepeats(found)
        {
          var s := RGlob(t, dir.value, DatabasePatterns[i]);
          forall p | p in s
            ensures p !in found
          {
            if p in found {
              var k :| 0 <= k < i && FnMatch(Name(p), DatabasePatterns[k]);
              DatabasePatternsApart(Name(p), k, i);
            }
          }
          found := AppendListing(found, s);
          i := i + 1;
        }
        files := KeepFiles(t, found);
        ReachableFilesApart(t, dir.value, files);
      }
    }

    /** `_find_vscode_storage_dirs(base)`: the existing global storage directories in pattern
        order, then the subdirectories of each listable workspace storage directory, then the
        existing `machineId` entries in pattern order. */
    method FindVscodeStorageDirs(t: Tree, base: Path) returns (dirs: seq<Path>)
      ensures forall p :: p in dirs <==> p in StorageSet(t, base)
      ensures var g := ExistingDirs(t, base, GlobalPatterns);
        |g| <= |dirs| && dirs[..|g|] == g
      ensures var m := MachineIdFiles(t, base, MachineIdPatterns);
        |m| <= |dirs| && dirs[|dirs| - |m|..] == m
    {
      var g := CollectGlobalDirs(t, base);
      var w := CollectWorkspaceDirs(t, base, g);
      var m := MachineIdFiles(t, base, MachineIdPatterns);
      dirs := CollectMachineIdFiles(t, base, w);
      assert dirs[..|g|] == w[..|g|];
      assert dirs[|dirs| - |m|..] == m;
    }

    /** The loop over the global storage patterns. */
    method CollectGlobalDirs(t: Tree, base: Path) returns (dirs: seq<Path>)
      ensures dirs == ExistingDirs(t, base, GlobalPatterns)
    {
      dirs := [];
      var i := 0;
      while i < |GlobalPatterns|
        invariant 0 <= i <= |GlobalPatterns|
        invariant dirs == ExistingDirs(t, base, GlobalPatterns[..i])
      {
        assert GlobalPatterns[..i + 1][..i] == GlobalPatterns[..i];
        var p := base + GlobalPatterns[i];
        if p in t && t[p].entry.Dir? {
          dirs := dirs + [p];
        }
        i := i + 1;
      }
      assert GlobalPatterns[..i] == GlobalPatterns;
    }

    /** The loop over the workspace storage patterns, appending after `acc`. */
    method CollectWorkspaceDirs(t: Tree, base: Path, acc: seq<Path>) returns (dirs: seq<Path>)
      ensures |acc| <= |dirs| && dirs[..|acc|] == acc
      ensures forall p :: p in dirs <==> p in acc || p in WorkspaceDirs(t, base, WorkspacePatterns)
    {
      dirs := acc;
      var i := 0;
      while i < |WorkspacePatterns|
        invariant 0 <= i <= |WorkspacePatterns|
        invariant |acc| <= |dirs| && dirs[..|acc|] == acc
        invariant forall p :: p in dirs <==> p in acc || p in WorkspaceDirs(t, base, WorkspacePatterns[..i])
      {
        assert WorkspacePatterns[..i + 1][..i] == WorkspacePatterns[..i];
        var w := base + WorkspacePatterns[i];
        if w in t && t[w].entry.Dir? && t[w].readable {
          var before := dirs;
          dirs := AppendListing(dirs, set c | c in Children(t, w) && IsDir(t, c));
          assert dirs[..|acc|] == before[..|before|][..|acc|];
        }
        i := i + 1;
      }
      assert WorkspacePatterns[..i] == WorkspacePatterns;
    }

    /** The loop over the machine-id patterns, appending after `acc`. */
    method CollectMachineIdFiles(t: Tree, base: Path, acc: seq<Path>) returns (dirs: seq<Path>)
      ensures dirs == acc + MachineIdFiles(t, base, MachineIdPatterns)
    {
      dirs := acc;
      var i := 0;
      while i < |MachineIdPatterns|
        invariant 0 <= i <= |MachineIdPatterns|
        invariant dirs == acc + MachineIdFiles(t, base, MachineIdPatterns[..i])
      {
        assert MachineIdPatterns[..i + 1][..i] == MachineIdPatterns[..i];
        var f := base + MachineIdPatterns[i] + ["machineId"];
        if f in t {
          dirs := dirs + [f];
        }
        i := i + 1;
      }
      assert MachineIdPatterns[..i] == MachineIdPatterns;
    }

    /** `get_vscode_directories()`: the cached listing if there is one; an empty listing,
        cached, when the config base is missing; otherwise the storage paths of every variant
        installed under the base, one per string form, sorted by string form, with the variant
        of each recorded. */
    method GetVscodeDirectories(t: Tree) returns (dirs: seq<Path>)
      requires Valid()
      modifies this`vscodeDirs, this`variantMap
      ensures Valid()
      ensures old(vscodeDirs).Some? ==> dirs == old(vscodeDirs).value && unchanged(this)
      ensures old(vscodeDirs).None? ==> vscodeDirs == Some(dirs) && Discovered(t, ConfigBase(), dirs, variantMap)
    {
      if vscodeDirs.Some? {
        return vscodeDirs.value;
      }
      var base := ConfigBase();
      if base !in t {
        vscodeDirs := Some([]);
        return [];
      }
      var all := CollectVariantStorage(t, base, VscodeVariants);
      var unique := DedupeByStr(all);
      dirs := SortByStr(unique);
      SortedDistinct(unique, dirs);
      vscodeDirs := Some(dirs);
      forall p | p in dirs
        ensures p in VariantStorage(t, base, VscodeVariants) && PathStr(p) in variantMap &&
          VariantOf(t, base, VscodeVariants, PathStr(p)) == Some(variantMap[PathStr(p)])
      {
        assert p in multiset(dirs);
        assert p in unique;
        assert p in all;
      }
      forall p | p in VariantStorage(t, base, VscodeVariants)
        ensures exists q :: q in dirs && PathStr(q) == PathStr(p)
      {
        var q :| q in unique && PathStr(q) == PathStr(p);
        assert q in multiset(unique);
      }
    }

    /** The inner loop of `get_vscode_directories`: each storage path of an installation is
        recorded under its variant, later records replacing earlier ones. */
    method RecordVariant(storage: seq<Path>, variant: string)
      requires Valid() && variant in VscodeVariants
      modifies this`variantMap
      ensures Valid()
      ensures variantMap.Keys == old(variantMap).Keys + set p | p in storage :: PathStr(p)
      ensures forall p :: p in storage ==> variantMap[PathStr(p)] == variant
      ensures forall k :: k in old(variantMap) && (forall p :: p in storage ==> PathStr(p) != k) ==>
        variantMap[k] == old(variantMap)[k]
    {
      var k := 0;
      while k < |storage|
        invariant 0 <= k <= |storage| && Valid()
        invariant variantMap.Keys == old(variantMap).Keys + set p | p in storage[..k] :: PathStr(p)
        invariant forall p :: p in storage[..k] ==> variantMap[PathStr(p)] == variant
        invariant forall k' :: k' in old(variantMap) && (forall p :: p in storage ==> PathStr(p) != k') ==>
          variantMap[k'] == old(variantMap)[k']
      {
        assert storage[..k + 1] == storage[..k] + [storage[k]];
        variantMap := variantMap[PathStr(storage[k]) := variant];
        k := k + 1;
      }
      assert storage[..k] == storage;
    }

    /** The loop of `get_vscode_directories` over the configured variants: the storage paths
        of each installed variant, in variant order, each recorded with its variant. */
    method CollectVariantStorage(t: Tree, base: Path, variants: seq<string>) returns (all: seq<Path>)
      requires Valid() && forall v :: v in variants ==> v in VscodeVariants
      modifies this`variantMap
      ensures Valid()
      ensures forall p :: p in all <==> p in VariantStorage(t, base, variants)
      ensures forall p :: p in all ==> PathStr(p) in variantMap
      ensures forall p :: p in all ==> VariantOf(t, base, variants, PathStr(p)) == Some(variantMap[PathStr(p)])
    {
      all := [];
      var i := 0;
      while i < |variants|
        invariant 0 <= i <= |variants| && Valid()
        invariant Collected(t, base, variants[..i], all, variantMap)
      {
        all := CollectVariant(t, base, variants, i, all);
        i := i + 1;
      }
      assert variants[..i] == variants;
    }

    /** One turn of `CollectVariantStorage`: the variant `variants[i]`, when installed, adds
        its storage paths and records them with its name. */
    method CollectVariant(t: Tree, base: Path, variants: seq<string>, i: nat, all: seq<Path>)
      returns (all': seq<Path>)
      requires Valid() && i < |variants| && variants[i] in VscodeVariants
      requires Collected(t, base, variants[..i], all, variantMap)
      modifies this`variantMap
      ensures Valid()
      ensures Collected(t, base, variants[..i + 1], all', variantMap)
    {
      var variant := variants[i];
      var variantPath := base + [variant];
      if variantPath in t && t[variantPath].entry.Dir? {
        var storage := FindVscodeStorageDirs(t, variantPath);
        ghost var m0 := variantMap;
        RecordVariant(storage, variant);
        VariantRecorded(t, base, variants, i, all, storage, m0, variantMap);
        all' := all + storage;
      } else {
        VariantSkipped(t, base, variants, i, all, variantMap);
        all' := all;
      }
    }

    /** `get_vscode_variant_name(d)`: the recorded variant, or "Unknown". */
    function GetVscodeVariantName(d: Path): (r: string)
      requires Valid()
      reads this
      ensures r == "Unknown" || r in VscodeVariants
      ensures r == "Unknown" <==> PathStr(d) !in variantMap
    {
      if PathStr(d) in variantMap then variantMap[PathStr(d)] else "Unknown"
    }
  }

  // ----- per-directory files and path checks -----

  /** `get_vscode_storage_file(d)`: a file (a `machineId` entry) is its own storage file,
      otherwise `d/storage.json` if it exists. */
  function GetVscodeStorageFile(t: Tree, d: Path): (r: Option<Path>)
    ensures r.Some? ==> r.value in t && (r.value == d || r.value == d + ["storage.json"])
    ensures r.None? <==> !IsFile(t, d) && d + ["storage.json"] !in t
    ensures IsFile(t, d) ==> r == Some(d)
  {
    if IsFile(t, d) then Some(d)
    else if d + ["storage.json"] in t then Some(d + ["storage.json"])
    else None
  }

  /** The first of `names` that exists inside `d`. */
  function FirstExisting(t: Tree, d: Path, names: seq<string>): (r: Option<nat>)
    ensures r.Some? ==> r.value < |names| && d + [names[r.value]] in t
    ensures r.Some? ==> forall k :: 0 <= k < r.value ==> d + [names[k]] !in t
    ensures r.None? <==> forall k :: 0 <= k < |names| ==> d + [names[k]] !in t
  {
    if names == [] then None
    else if d + [names[0]] in t then Some(0)
    else
      match FirstExisting(t, d, names[1..])
      case None => None
      case Some(i) => Some(i + 1)
  }

  /** `get_vscode_database_file(d)`: nothing for a file, otherwise the first configured
      database name present in `d`. */
  function GetVscodeDatabaseFile(t: Tree, d: Path): (r: Option<Path>)
    ensures r.Some? ==> r.value in t && Parent(r.value) == d && Name(r.value) in VscodeDatabaseFiles
    ensures r.None? && !IsFile(t, d) ==> forall f :: f in VscodeDatabaseFiles ==> d + [f] !in t
  {
    if IsFile(t, d) then None
    else
      match FirstExisting(t, d, VscodeDatabaseFiles)
      case None => None
      case Some(i) => Some(d + [VscodeDatabaseFiles[i]])
  }

  /** The primary database wins over its backup copy; the backup is used only when the
      primary is missing. */
  lemma DatabaseFilePreference(t: Tree, d: Path)
    ensures IsFile(t, d) ==> GetVscodeDatabaseFile(t, d).None?
    ensures !IsFile(t, d) && d + ["state.vscdb"] in t ==>
      GetVscodeDatabaseFile(t, d) == Some(d + ["state.vscdb"])
    ensures !IsFile(t, d) && d + ["state.vscdb"] !in t && d + ["state.vscdb.backup"] in t ==>
      GetVscodeDatabaseFile(t, d) == Some(d + ["state.vscdb.backup"])
    ensures !IsFile(t, d) && d + ["state.vscdb"] !in t && d + ["state.vscdb.backup"] !in t ==>
      GetVscodeDatabaseFile(t, d).None?
  {
    var r := FirstExisting(t, d, VscodeDatabaseFiles);
    if r.Some? {
      assert r.value == 0 || d + [VscodeDatabaseFiles[0]] !in t;
    } else {
      assert d + [VscodeDatabaseFiles[0]] !in t && d + [VscodeDatabaseFiles[1]] !in t;
    }
  }

  /** The prefix Windows uses to lift the 260-character path limit. */
  const LongPathPrefix := "\\\\?\\"

  /** `ensure_long_path_support(path)`: `path` is the path's string and `resolved` the string
      of its resolved form. Only on Windows is the resolved form used, and it is prefixed only
      when it is longer than 260 characters and not yet prefixed. */
  function EnsureLongPathSupport(platform: Platform, path: string, resolved: string): (r: string)
    ensures platform != Win32 ==> r == path
    ensures platform == Win32 ==> r == resolved || r == LongPathPrefix + resolved
    ensures platform == Win32 && r != resolved ==> |resolved| > 260 && !StartsWith(resolved, LongPathPrefix)
  {
    if platform == Win32 then
      if |resolved| > 260 && !StartsWith(resolved, LongPathPrefix) then LongPathPrefix + resolved
      else resolved
    else path
  }

  /** On Windows the result is short enough or carries the prefix, and applying the function
      to its own result (already absolute) changes nothing. */
  lemma LongPathIdempotent(path: string, resolved: string)
    ensures var r := EnsureLongPathSupport(Win32, path, resolved);
      (|r| <= 260 || StartsWith(r, LongPathPrefix)) && EnsureLongPathSupport(Win32, r, r) == r
  {
    var r := EnsureLongPathSupport(Win32, path, resolved);
    if r != resolved {
      assert r[..|LongPathPrefix|] == LongPathPrefix;
    }
  }

  /** The bases `validate_path` accepts paths under; `Path("")` resolves to the working
      directory. */
  function SafeBases(pp: PlatformPaths, cwd: Path): seq<Path> {
    [Resolve(pp.config, cwd), Resolve(pp.data, cwd), pp.home]
  }

  /** `validate_path(p)` for the resolved path `p`. */
  function ValidatePath(t: Tree, pp: PlatformPaths, cwd: Path, p: Path): (ok: bool)
    ensures ok <==> (p in t &&
      (IsUnder(p, Resolve(pp.config, cwd)) || IsUnder(p, Resolve(pp.data, cwd)) || IsUnder(p, pp.home)))
  {
    var bases := SafeBases(pp, cwd);
    assert bases[0] == Resolve(pp.config, cwd) && bases[1] == Resolve(pp.data, cwd) && bases[2] == pp.home;
    p in t && exists i :: 0 <= i < |bases| && IsUnder(p, bases[i])
  }

  lemma IsUnderTransitive(p: Path, q: Path, r: Path)
    requires IsUnder(p, q) && IsUnder(q, r)
    ensures IsUnder(p, r)
  {
    assert p[..|r|] == p[..|q|][..|r|];
  }

  /** Off Windows the config and data bases lie inside the home directory, so a path is safe
      exactly when it exists inside home. */
  lemma ValidatePathHome(t: Tree, platform: Platform, env: map<string, Path>, home: Path, cwd: Path, p: Path)
    requires platform != Win32
    ensures ValidatePath(t, GetPlatformPaths(platform, env, home), cwd, p) <==> p in t && IsUnder(p, home)
  {
    var pp := GetPlatformPaths(platform, env, home);
    if IsUnder(p, pp.config.path) {
      IsUnderTransitive(p, pp.config.path, home);
    }
    if IsUnder(p, pp.data.path) {
      IsUnderTransitive(p, pp.data.path, home);
    }
  }
}
