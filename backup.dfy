/** Backups of the artifacts the engine rewrites: copies named `<label>_<timestamp>.bak`,
    zip archives of directories, restoring a copy, finding the newest backup and the path it
    came from, and trimming the backup directory to its newest entries. */
module Backup {
  import opened Common
  import opened Fs
  import opened Settings
  import Paths

  // ----- names -----

  /** What goes before the timestamp: the label, or the file's own name when the label is
      absent or empty (`if backup_name:` treats both alike). */
  function Prefix(custom: string, name: string): (r: string)
    ensures custom != "" ==> r == custom
    ensures custom == "" ==> r == name
  {
    if custom != "" then custom else name
  }

  /** `f"{prefix}_{timestamp}{extension}"`. */
  function BackupName(prefix: string, ts: string, ext: string): (name: string)
    ensures |name| == |prefix| + 1 + |ts| + |ext|
    ensures StartsWith(name, prefix) && name[|prefix|] == '_' && EndsWith(name, ext)
    ensures name[|prefix| + 1..|name| - |ext|] == ts
  {
    prefix + "_" + ts + ext
  }

  /** Every backup name carries the `_` before its timestamp, so it fills a backup slot. */
  lemma BackupNameSlot(prefix: string, ts: string, ext: string)
    ensures '_' in BackupName(prefix, ts, ext)
  {
    assert BackupName(prefix, ts, ext)[|prefix|] == '_';
  }

  /** An extension pathlib recognises as the whole suffix: a dot and at least one more
      character, none of them a dot. */
  predicate IsExtension(ext: string) {
    |ext| >= 2 && ext[0] == '.' && forall i :: 1 <= i < |ext| ==> ext[i] != '.'
  }

  lemma {:induction false} LastDotSkip(name: string, upto: nat, k: nat)
    requires k < upto <= |name| && name[k] == '.'
    requires forall j :: k < j < upto ==> name[j] != '.'
    ensures LastDot(name, upto) == Some(k)
    decreases upto - k
  {
    if upto - 1 != k {
      LastDotSkip(name, upto - 1, k);
    }
  }

  /** `Path.stem` of a name built with an extension gives back what came before it. */
  lemma StemOfExtension(x: string, ext: string)
    requires x != [] && IsExtension(ext)
    ensures Stem(x + ext) == x
  {
    var name := x + ext;
    forall j | |x| < j < |name| ensures name[j] != '.' {
      assert name[j] == ext[j - |x|];
    }
    LastDotSkip(name, |name|, |x|);
    assert name[..|x|] == x;
  }

  /** `re.sub(r'_\d{8}_\d{6}$', '', s)`: a trailing underscore and timestamp is removed, and
      nothing else. */
  function StripTimestamp(s: string): (r: string)
    ensures StartsWith(s, r)
    ensures r == s || (|s| == |r| + 16 && s[|r|] == '_' && IsTimestamp(s[|r| + 1..]))
  {
    if |s| >= 16 && s[|s| - 16] == '_' && IsTimestamp(s[|s| - 15..]) then s[..|s| - 16] else s
  }

  /** The stem of every backup name, with its timestamp stripped, is the prefix it was made
      from. */
  lemma BackupNameRoundTrip(prefix: string, dt: DateTime, ext: string)
    requires dt.Valid() && IsExtension(ext)
    ensures StripTimestamp(Stem(BackupName(prefix, Timestamp(dt), ext))) == prefix
  {
    var ts := Timestamp(dt);
    var x := prefix + "_" + ts;
    assert BackupName(prefix, ts, ext) == x + ext;
    StemOfExtension(x, ext);
    assert x[|x| - 16] == '_' && x[|x| - 15..] == ts && x[..|x| - 16] == prefix;
  }

  const JetBrainsPrefix := "jetbrains_"

  /** `_get_original_path_from_backup`: names whose stripped stem starts with `jetbrains_` go
      back to `<config>/JetBrains/<stem without any jetbrains_>`; every other name (VSCode
      storage and machine-id backups included) has no known original. */
  function OriginalPath(backup: Path, pp: PlatformPaths, cwd: Path): (r: Option<Path>)
    ensures var original := StripTimestamp(Stem(Name(backup)));
      r.Some? <==> StartsWith(original, JetBrainsPrefix)
    ensures r.Some? ==> IsUnder(r.value, Resolve(pp.config, cwd) + [JetBrainsDirName])
    ensures r.Some? ==> |r.value| <= |Resolve(pp.config, cwd)| + 2
  {
    var original := StripTimestamp(Stem(Name(backup)));
    if StartsWith(original, JetBrainsPrefix) then
      var dir := Resolve(pp.config, cwd) + [JetBrainsDirName];
      var fileName := ReplaceAll(original, JetBrainsPrefix, "");
      // `dir / ""` is `dir` itself
      Some(if fileName == "" then dir else dir + [fileName])
    else None
  }

  /** Removing `jetbrains_` from a label made of it and a name without a `j` leaves the name. */
  lemma StripJetBrainsLabel(f: string)
    requires forall i :: 0 <= i < |f| ==> f[i] != 'j'
    ensures ReplaceAll(JetBrainsPrefix + f, JetBrainsPrefix, "") == f
  {
    var s := JetBrainsPrefix + f;
    assert s[..|JetBrainsPrefix|] == JetBrainsPrefix;
    assert s[|JetBrainsPrefix|..] == f;
    ReplaceAllAbsent(f, JetBrainsPrefix, "");
  }

  /** A backup labelled `jetbrains_<f>`, for a non-empty `f` without a `j`, is traced back to
      `<config>/JetBrains/<f>`. */
  lemma {:induction false} JetBrainsLabelOriginal(f: string, dir: Path, dt: DateTime, pp: PlatformPaths, cwd: Path)
    requires dt.Valid() && f != [] && forall i :: 0 <= i < |f| ==> f[i] != 'j'
    ensures var name := BackupName(JetBrainsPrefix + f, Timestamp(dt), BackupExtension);
      OriginalPath(dir + [name], pp, cwd) == Some(Resolve(pp.config, cwd) + [JetBrainsDirName, f])
  {
    var given := JetBrainsPrefix + f;
    var name := BackupName(given, Timestamp(dt), BackupExtension);
    assert Name(dir + [name]) == name;
    BackupNameRoundTrip(given, dt, BackupExtension);
    assert StartsWith(given, JetBrainsPrefix) by {
      assert given[..|JetBrainsPrefix|] == JetBrainsPrefix;
    }
    StripJetBrainsLabel(f);
    var base := Resolve(pp.config, cwd);
    assert StripTimestamp(Stem(Name(dir + [name]))) == given;
    assert (base + [JetBrainsDirName]) + [f] == base + [JetBrainsDirName, f];
  }

  /** An identifier file backed up by the JetBrains handler, under the label
      `jetbrains_<file name>`, is traced back to that name in `<config>/JetBrains`. */
  lemma IdFileBackupOriginal(i: nat, dir: Path, dt: DateTime, pp: PlatformPaths, cwd: Path)
    requires i < |IdFiles| && dt.Valid()
    ensures var name := BackupName(JetBrainsPrefix + IdFiles[i], Timestamp(dt), BackupExtension);
      OriginalPath(dir + [name], pp, cwd) == Some(Resolve(pp.config, cwd) + [JetBrainsDirName, IdFiles[i]])
  {
    var f := IdFiles[i];
    if i == 0 {
      assert f == "PermanentDeviceId";
    } else {
      assert f == "PermanentUserId";
    }
    forall k | 0 <= k < |f| ensures f[k] != 'j' {}
    JetBrainsLabelOriginal(f, dir, dt, pp, cwd);
  }

  /** A JetBrains database backup, labelled `jetbrains_db_<file name>`, is traced back to
      `<config>/JetBrains/db_<file name>`: the label's `db_` survives, so the target is not
      the database that was backed up. */
  lemma DatabaseBackupOriginal(f: string, dir: Path, dt: DateTime, pp: PlatformPaths, cwd: Path)
    requires dt.Valid() && forall i :: 0 <= i < |f| ==> f[i] != 'j'
    ensures var name := BackupName(JetBrainsPrefix + ("db_" + f), Timestamp(dt), BackupExtension);
      OriginalPath(dir + [name], pp, cwd) == Some(Resolve(pp.config, cwd) + [JetBrainsDirName, "db_" + f])
  {
    var g := "db_" + f;
    forall k | 0 <= k < |g| ensures g[k] != 'j' {
      if k >= 3 {
        assert g[k] == f[k - 3];
      }
    }
    JetBrainsLabelOriginal(g, dir, dt, pp, cwd);
  }

  // ----- listing -----

  /** `st_mtime` of a listed path. */
  function Mtime(t: Tree, q: Path): int {
    if q in t then t[q].mtime else 0
  }

  /** Newest modification time first, as `sort(key=st_mtime, reverse=True)` leaves a list. */
  predicate NewestFirst(t: Tree, s: seq<Path>) {
    forall i, j :: 0 <= i < j < |s| ==> Mtime(t, s[j]) <= Mtime(t, s[i])
  }

  function InsertByMtime(t: Tree, x: Path, s: seq<Path>): (r: seq<Path>)
    ensures multiset(r) == multiset(s) + multiset{x}
  {
    if s == [] then [x]
    else if Mtime(t, s[0]) <= Mtime(t, x) then [x] + s
    else
      assert s == [s[0]] + s[1..];
      [s[0]] + InsertByMtime(t, x, s[1..])
  }

  /** Dropping the first entry of a newest-first listing keeps it newest first. */
  lemma NewestFirstTail(t: Tree, s: seq<Path>)
    requires NewestFirst(t, s) && s != []
    ensures NewestFirst(t, s[1..])
  {
    var tail := s[1..];
    forall i, j | 0 <= i < j < |tail| ensures Mtime(t, tail[j]) <= Mtime(t, tail[i]) {
      assert tail[i] == s[i + 1] && tail[j] == s[j + 1];
    }
  }

  /** A newest-first listing stays so with an entry at least as new as its head in front. */
  lemma NewestFirstCons(t: Tree, x: Path, s: seq<Path>)
    requires NewestFirst(t, s)
    requires forall k :: 0 <= k < |s| ==> Mtime(t, s[k]) <= Mtime(t, x)
    ensures NewestFirst(t, [x] + s)
  {
    var r := [x] + s;
    forall i, j | 0 <= i < j < |r| ensures Mtime(t, r[j]) <= Mtime(t, r[i]) {
      if i == 0 {
        assert r[j] == s[j - 1];
      } else {
        assert r[i] == s[i - 1] && r[j] == s[j - 1];
      }
    }
  }

  lemma {:induction false} InsertNewestFirst(t: Tree, x: Path, s: seq<Path>)
    requires NewestFirst(t, s)
    ensures NewestFirst(t, InsertByMtime(t, x, s))
    decreases |s|
  {
    if s == [] {
    } else if Mtime(t, s[0]) <= Mtime(t, x) {
      NewestFirstCons(t, x, s);
    } else {
      var tail := s[1..];
      NewestFirstTail(t, s);
      InsertNewestFirst(t, x, tail);
      var rest := InsertByMtime(t, x, tail);
      forall k | 0 <= k < |rest| ensures Mtime(t, rest[k]) <= Mtime(t, s[0]) {
        assert rest[k] in multiset(rest);
        if rest[k] != x {
          assert rest[k] in multiset(tail);
          var m :| 0 <= m < |tail| && tail[m] == rest[k];
          assert tail[m] == s[m + 1];
        }
      }
      NewestFirstCons(t, s[0], rest);
    }
  }

  /** `backups.sort(key=lambda x: x.stat().st_mtime, reverse=True)`. */
  function SortNewestFirst(t: Tree, s: seq<Path>): (r: seq<Path>)
    ensures NewestFirst(t, r) && multiset(r) == multiset(s)
  {
    if s == [] then []
    else
      assert s == [s[0]] + s[1..];
      var rest := SortNewestFirst(t, s[1..]);
      InsertNewestFirst(t, s[0], rest);
      InsertByMtime(t, s[0], rest)
  }

  /** The glob `list_backups` uses: `*pattern*`, or `*` when the pattern is absent or empty. */
  function ListGlob(pattern: string): string {
    if pattern != "" then "*" + pattern + "*" else "*"
  }

  /** The regular files directly in `dir` whose names the glob matches; a directory that is
      missing or cannot be listed yields none. */
  function BackupFiles(t: Tree, dir: Path, pattern: string): (r: set<Path>)
    ensures forall q :: q in r ==> IsFile(t, q) && Parent(q) == dir
  {
    if IsDir(t, dir) && t[dir].readable then
      set q | q in Children(t, dir) && IsFile(t, q) && FnMatch(Name(q), ListGlob(pattern))
    else {}
  }

  lemma FnMatchStar(name: string)
    ensures FnMatch(name, "*")
    decreases |name|
  {
    assert "*"[1..] == [];
  }

  /** `x*` matches exactly the names that start with `x`. */
  lemma {:induction false} FnMatchPrefix(name: string, x: string)
    requires NoGlobChars(x)
    ensures FnMatch(name, x + "*") <==> StartsWith(name, x)
    decreases |x|
  {
    if x == [] {
      assert x + "*" == "*";
      FnMatchStar(name);
    } else {
      assert (x + "*")[0] == x[0] && (x + "*")[1..] == x[1..] + "*";
      FnMatchPrefix(if name == [] then [] else name[1..], x[1..]);
      if name != [] {
        if StartsWith(name, x) {
          assert name[1..][..|x| - 1] == name[..|x|][1..];
        }
        if name[0] == x[0] && StartsWith(name[1..], x[1..]) {
          assert name[..|x|] == [name[0]] + name[1..][..|x| - 1];
        }
      }
    }
  }

  /** For a pattern without wildcards, `*pattern*` selects exactly the names containing it. */
  lemma {:induction false} ListGlobContains(name: string, pattern: string)
    requires pattern != "" && NoGlobChars(pattern)
    ensures FnMatch(name, ListGlob(pattern)) <==> Contains(name, pattern)
    decreases |name|
  {
    var g := ListGlob(pattern);
    assert g[0] == '*' && g[1..] == pattern + "*";
    FnMatchPrefix(name, pattern);
    if name != [] {
      ListGlobContains(name[1..], pattern);
    }
  }

  /** Lists a set in an order the model leaves open. */
  method ListSet(s: set<Path>) returns (r: seq<Path>)
    ensures multiset(r) == multiset(s)
  {
    r := [];
    var rest := s;
    while rest != {}
      invariant rest <= s && multiset(r) + multiset(rest) == multiset(s)
      decreases |rest|
    {
      var q :| q in rest;
      assert multiset(rest) == multiset(rest - {q}) + multiset{q};
      r := r + [q];
      rest := rest - {q};
    }
  }

  /** A listing of a set holds every member once. */
  lemma ListingDistinct(r: seq<Path>, s: set<Path>, i: int, j: int)
    requires multiset(r) == multiset(s) && 0 <= i < j < |r|
    ensures r[i] != r[j]
  {
    assert r == r[..j] + r[j..];
    assert r[i] == r[..j][i] && r[j] == r[j..][0];
    assert multiset(r)[r[i]] == multiset(r[..j])[r[i]] + multiset(r[j..])[r[i]];
    assert r[i] in multiset(r[..j]);
    assert multiset(r)[r[i]] <= 1;
    assert r[i] !in multiset(r[j..]);
  }

  /** The members of a listing that the running process may unlink. */
  function Unlinkable(t: Tree, s: set<Path>): (r: set<Path>)
    ensures r <= s && forall q :: q in r ==> IsFile(t, q)
  {
    set q | q in s && CanUnlink(t, q)
  }

  /** Unlinking files never changes whether another file can be unlinked. */
  lemma UnlinkOthers(t: Tree, done: set<Path>, q: Path)
    requires forall p :: p in done ==> IsFile(t, p)
    ensures CanUnlink(t - done, q) <==> CanUnlink(t, q) && q !in done
  {
    if CanUnlink(t, q) {
      assert Parent(q) !in done;
    }
  }

  /** The paths a list holds. */
  function Listed(s: seq<Path>): (r: set<Path>)
    ensures forall q :: q in r <==> q in s
  {
    set q | q in s
  }

  /** One more `unlink` of a listed path: it goes exactly when it can, and counts once. */
  lemma UnlinkStep(t: Tree, before: seq<Path>, q: Path)
    ensures var done := Unlinkable(t, Listed(before));
      var next := Unlinkable(t, Listed(before + [q]));
      (CanUnlink(t - done, q) ==> q !in done && next == done + {q} && (t - done) - {q} == t - next) &&
      (!CanUnlink(t - done, q) ==> next == done)
  {
    var done := Unlinkable(t, Listed(before));
    assert Listed(before + [q]) == Listed(before) + {q};
    UnlinkOthers(t, done, q);
  }

  /** `unlink` each path in turn, counting the ones that went. */
  method UnlinkEach(disk: Disk, paths: seq<Path>) returns (deleted: nat)
    modifies disk
    ensures disk.tree == old(disk.tree) - Unlinkable(old(disk.tree), Listed(paths))
    ensures deleted == |Unlinkable(old(disk.tree), Listed(paths))|
  {
    deleted := 0;
    ghost var t0 := disk.tree;
    var i := 0;
    while i < |paths|
      invariant 0 <= i <= |paths|
      invariant disk.tree == t0 - Unlinkable(t0, Listed(paths[..i]))
      invariant deleted == |Unlinkable(t0, Listed(paths[..i]))|
    {
      assert paths[..i + 1] == paths[..i] + [paths[i]];
      UnlinkStep(t0, paths[..i], paths[i]);
      var ok := disk.Remove(paths[i]);
      if ok {
        deleted := deleted + 1;
      }
      i := i + 1;
    }
    assert paths[..i] == paths;
  }

  /** Where Python's `s[k:]` starts in a list of length `n` (a negative `k` counts from the
      end). */
  function SliceStart(k: int, n: nat): (r: nat)
    ensures r <= n
    ensures 0 <= k ==> r == if k <= n then k else n
    ensures k < 0 ==> r == if n + k >= 0 then n + k else 0
  {
    if k >= 0 then (if k <= n then k else n) else if n + k >= 0 then n + k else 0
  }

  /** The limit `cleanup_old_backups` applies: the configured default when none is given. */
  function Limit(maxBackups: Option<int>): (r: int)
    ensures maxBackups.None? ==> r == MaxBackups
  {
    if maxBackups.Some? then maxBackups.value else MaxBackups
  }

  // ----- directory archives -----

  /** The regular files a recursive glob from `d` reaches. */
  function ArchivableFiles(t: Tree, d: Path): (r: set<Path>)
    ensures forall q :: q in r ==> IsFile(t, q) && IsUnder(q, d)
  {
    set q | q in Paths.RGlob(t, d, "*") && IsFile(t, q)
  }

  /** The member a file below `d` becomes: its path relative to `d`, and its content. */
  function MemberOf(t: Tree, d: Path, q: Path): Member
    requires IsFile(t, q) && IsUnder(q, d)
  {
    Member(JoinComponents(q[|d|..]), t[q].entry.content)
  }

  /** The members written for the files in `order`, in that order: the readable ones. */
  function Archived(t: Tree, d: Path, order: seq<Path>): seq<Member>
    requires forall q :: q in order ==> IsFile(t, q) && IsUnder(q, d)
  {
    if order == [] then []
    else
      var q := order[|order| - 1];
      assert q in order && IsFile(t, q);
      Archived(t, d, order[..|order| - 1]) + (if t[q].readable then [MemberOf(t, d, q)] else [])
  }

  /** The failure entries (`str(file_path)`) for the files in `order` that cannot be read. */
  function Unarchived(t: Tree, order: seq<Path>): seq<string>
    requires forall q :: q in order ==> q in t
  {
    if order == [] then []
    else
      var q := order[|order| - 1];
      Unarchived(t, order[..|order| - 1]) + (if t[q].readable then [] else [PathStr(q)])
  }

  /** Each file in `order` gives exactly one member or one failure entry, and the readable
      ones are all in the archive. */
  lemma {:induction false} ArchivedAccounts(t: Tree, d: Path, order: seq<Path>)
    requires forall q :: q in order ==> IsFile(t, q) && IsUnder(q, d)
    ensures |Archived(t, d, order)| + |Unarchived(t, order)| == |order|
    ensures forall q :: q in order && t[q].readable ==> MemberOf(t, d, q) in Archived(t, d, order)
    ensures forall q :: q in order && !t[q].readable ==> PathStr(q) in Unarchived(t, order)
    decreases |order|
  {
    if order != [] {
      var init := order[..|order| - 1];
      assert order == init + [order[|order| - 1]];
      ArchivedAccounts(t, d, init);
    }
  }

  /** `members` and `failed` come from walking the archivable files of `d` in some order. */
  ghost predicate ArchiveOf(t: Tree, d: Path, members: seq<Member>, failed: seq<string>) {
    exists order: seq<Path> ::
      multiset(order) == multiset(ArchivableFiles(t, d)) &&
      (forall q :: q in order ==> q in ArchivableFiles(t, d)) &&
      members == Archived(t, d, order) && failed == Unarchived(t, order)
  }

  /** Nothing is lost: every archivable file is a member or a failure entry, and the two lists
      together are as long as there are files. */
  lemma ArchiveComplete(t: Tree, d: Path, members: seq<Member>, failed: seq<string>)
    requires ArchiveOf(t, d, members, failed)
    ensures |members| + |failed| == |ArchivableFiles(t, d)|
    ensures forall q :: q in ArchivableFiles(t, d) && t[q].readable ==> MemberOf(t, d, q) in members
    ensures forall q :: q in ArchivableFiles(t, d) && !t[q].readable ==> PathStr(q) in failed
  {
    var order: seq<Path> :| multiset(order) == multiset(ArchivableFiles(t, d)) &&
      (forall q :: q in order ==> q in ArchivableFiles(t, d)) &&
      members == Archived(t, d, order) && failed == Unarchived(t, order);
    ArchivedAccounts(t, d, order);
    assert |multiset(order)| == |order|;
    forall q | q in ArchivableFiles(t, d) ensures q in order {
      assert q in multiset(order);
    }
  }

  /** The walk of `zipfile` over `rglob('*')`: each file is added, or recorded as failed when
      it cannot be read. */
  method ArchiveFiles(t: Tree, d: Path) returns (members: seq<Member>, failed: seq<string>)
    ensures ArchiveOf(t, d, members, failed)
  {
    var files := ArchivableFiles(t, d);
    members := [];
    failed := [];
    ghost var order: seq<Path> := [];
    var rest := files;
    while rest != {}
      invariant rest <= files && multiset(order) + multiset(rest) == multiset(files)
      invariant forall q :: q in order ==> q in files
      invariant members == Archived(t, d, order) && failed == Unarchived(t, order)
      decreases |rest|
    {
      var q :| q in rest;
      assert multiset(rest) == multiset(rest - {q}) + multiset{q};
      if t[q].readable {
        members := members + [MemberOf(t, d, q)];
      } else {
        failed := failed + [PathStr(q)];
      }
      assert (order + [q])[..|order|] == order;
      order := order + [q];
      rest := rest - {q};
    }
  }

  /** The failure list sits beside the archive, as `<prefix>_<timestamp>.failed.json`. */
  lemma FailureLogName(prefix: string, ts: string)
    ensures WithSuffix(BackupName(prefix, ts, ".zip"), ".failed.json") == BackupName(prefix, ts, ".failed.json")
  {
    var x := prefix + "_" + ts;
    assert BackupName(prefix, ts, ".zip") == x + ".zip";
    StemOfExtension(x, ".zip");
  }

  // ----- restoring -----

  /** What `restore_file_backup(backup, target)` does to the tree and answers: a missing
      backup is refused; otherwise the target's directories are made and the backup copied
      over the target. */
  function Restore(t: Tree, backup: Path, target: Path, now: int): (r: (bool, Tree))
    ensures r.0 ==> backup in t && IsFile(r.1, target) && r.1[target].entry == t[backup].entry
    ensures backup !in t ==> r == (false, t)
    ensures forall q :: q in t && q != target ==> q in r.1 && r.1[q] == t[q]
  {
    if backup !in t then (false, t)
    else match Mkdirs(t, Parent(target), now)
      case None => (false, t)
      case Some(t1) => if CanCopy(t1, backup, target) then (true, Copy2(t1, backup, target)) else (false, t1)
  }

  /** Restoring a fresh backup of a readable file over that file gives its content back. */
  lemma BackupThenRestore(t: Tree, src: Path, dst: Path, now: int)
    requires CanCopy(t, src, dst) && src != dst && t[src].entry.File?
    requires CanWrite(Copy2(t, src, dst), src)
    ensures var r := Restore(Copy2(t, src, dst), dst, src, now);
      r.0 && r.1[src].entry == t[src].entry
  {
    var t1 := Copy2(t, src, dst);
    assert IsDir(t1, Parent(src));
  }

  // ----- the manager -----

  datatype Restored = Restored(backup: Path, target: Path)

  /** The dictionary `auto_restore_backup` returns. */
  datatype RestoreReport = RestoreReport(success: bool, restored: seq<Restored>, failed: seq<Restored>, error: Option<string>)

  function NoBackupsMessage(pattern: string): string {
    "No backups found matching pattern: " + pattern
  }

  function UnknownOriginalMessage(name: string): string {
    "Cannot determine original path for backup: " + name
  }

  /** The directory a default manager probes: it can be made, a test file written into it,
      and that file removed again. */
  predicate ProbeSucceeds(t: Tree, d: Path, now: int) {
    match Mkdirs(t, d, now)
    case None => false
    case Some(t1) =>
      CanWrite(t1, d + [ProbeName]) && CanUnlink(Write(t1, d + [ProbeName], Text("test"), now), d + [ProbeName])
  }

  /** The tree the write probe of `d` leaves: the directory made, the test file written and
      removed, each step only when the one before it succeeded. */
  ghost function ProbeTree(t: Tree, d: Path, now: int): Tree {
    match Mkdirs(t, d, now)
    case None => t
    case Some(t1) =>
      if !CanWrite(t1, d + [ProbeName]) then t1
      else
        var t2 := Write(t1, d + [ProbeName], Text("test"), now);
        if CanUnlink(t2, d + [ProbeName]) then t2 - {d + [ProbeName]} else t2
  }

  /** The directory a manager settles on before creating it. */
  function ChosenDir(t: Tree, given: Option<Path>, home: Path, projectRoot: Path, now: int): Path {
    if given.Some? then given.value
    else if ProbeSucceeds(t, home + [HomeBackupDir], now) then home + [HomeBackupDir]
    else projectRoot + ["backups"]
  }

  const ProbeName := "test_write.tmp"
  const HomeBackupDir := ".augment_cleaner_backups"

  class BackupManager {
    const backupDir: Path

    constructor(backupDir: Path)
      ensures this.backupDir == backupDir
    {
      this.backupDir := backupDir;
    }

    /** `create_file_backup(src, name)`: a missing source gives None; otherwise the file is
        copied (content, mode and time) to `<backup dir>/<prefix>_<timestamp>.bak`, and a copy
        the system refuses gives None as well. */
    method CreateFileBackup(disk: Disk, src: Path, custom: string) returns (r: Option<Path>)
      requires disk.clock.Valid()
      modifies disk
      ensures src !in old(disk.tree) ==> r.None?
      ensures var dst := backupDir + [BackupName(Prefix(custom, Name(src)), Timestamp(disk.clock), BackupExtension)];
        (r.Some? <==> CanCopy(old(disk.tree), src, dst)) &&
        (r.Some? ==> r.value == dst && disk.tree == Copy2(old(disk.tree), src, dst)) &&
        (r.None? ==> disk.tree == old(disk.tree))
      ensures Confined(old(disk.tree), disk.tree, {}, backupDir)
    {
      if src !in disk.tree {
        return None;
      }
      var name := BackupName(Prefix(custom, Name(src)), Timestamp(disk.clock), BackupExtension);
      var dst := backupDir + [name];
      ghost var t0 := disk.tree;
      var ok := disk.CopyFile(src, dst);
      if ok {
        BackupNameSlot(Prefix(custom, Name(src)), Timestamp(disk.clock), BackupExtension);
        CopyConfined(t0, src, backupDir, name);
      }
      r := if ok then Some(dst) else None;
    }

    /** The writes of a directory backup, the archive twice and then its failure list, touch
      nothing but their backup slots. */
  lemma ArchiveWritesConfined(t0: Tree, b: Path, prefix: string, ts: string, members: seq<Member>, failed: seq<string>,
                              now: int)
    requires CanWrite(t0, b + [BackupName(prefix, ts, ".zip")])
    ensures var zip := b + [BackupName(prefix, ts, ".zip")];
      var log := b + [BackupName(prefix, ts, ".failed.json")];
      var t1 := Write(t0, zip, Archive([]), now);
      var t2 := Write(t1, zip, Archive(members), now);
      Confined(t0, t2, {}, b) && (CanWrite(t2, log) ==> Confined(t0, Write(t2, log, FailureLog(failed), now), {}, b))
  {
    var zip := b + [BackupName(prefix, ts, ".zip")];
    var log := b + [BackupName(prefix, ts, ".failed.json")];
    var t1 := Write(t0, zip, Archive([]), now);
    var t2 := Write(t1, zip, Archive(members), now);
    BackupNameSlot(prefix, ts, ".zip");
    BackupNameSlot(prefix, ts, ".failed.json");
    InDirChild(b, BackupName(prefix, ts, ".zip"));
    InDirChild(b, BackupName(prefix, ts, ".failed.json"));
    WriteSlotConfined(t0, b, zip, Archive([]), now);
    SlotWriteExtends(t0, t1, b, zip, Archive(members), now);
    if CanWrite(t2, log) {
      SlotWriteExtends(t0, t2, b, log, FailureLog(failed), now);
    }
  }

  /** `create_directory_backup(dir, name)`: anything but a directory gives None. Otherwise
        `<prefix>_<timestamp>.zip` is created, every file the recursive walk finds is added
        under its path relative to `dir`, and files that cannot be read are listed in a
        `.failed.json` beside the archive instead. A failure to create either file gives
        None (the archive stays if only the list failed). */
    method CreateDirectoryBackup(disk: Disk, dir: Path, custom: string)
      returns (r: Option<Path>, ghost members: seq<Member>, ghost failed: seq<string>)
      requires disk.clock.Valid()
      modifies disk
      ensures !IsDir(old(disk.tree), dir) ==> r.None? && disk.tree == old(disk.tree)
      ensures var prefix := Prefix(custom, Name(dir));
        var ts := Timestamp(disk.clock);
        var zip := backupDir + [BackupName(prefix, ts, ".zip")];
        var log := backupDir + [BackupName(prefix, ts, ".failed.json")];
        IsDir(old(disk.tree), dir) ==>
          if !CanWrite(old(disk.tree), zip) then r.None? && disk.tree == old(disk.tree)
          else
            var t1 := Write(old(disk.tree), zip, Archive([]), disk.now);
            var t2 := Write(t1, zip, Archive(members), disk.now);
            ArchiveOf(t1, dir, members, failed) &&
            if failed == [] then r == Some(zip) && disk.tree == t2
            else if CanWrite(t2, log) then r == Some(zip) && disk.tree == Write(t2, log, FailureLog(failed), disk.now)
            else r.None? && disk.tree == t2
      ensures Confined(old(disk.tree), disk.tree, {}, backupDir)
    {
      members, failed := [], [];
      if !IsDir(disk.tree, dir) {
        return None, members, failed;
      }
      var prefix := Prefix(custom, Name(dir));
      var ts := Timestamp(disk.clock);
      var zip := backupDir + [BackupName(prefix, ts, ".zip")];
      FailureLogName(prefix, ts);
      var created := disk.WriteFile(zip, Archive([]));
      if !created {
        return None, members, failed;
      }
      var found, missed := ArchiveFiles(disk.tree, dir);
      members, failed := found, missed;
      ArchiveWritesConfined(old(disk.tree), backupDir, prefix, ts, found, missed, disk.now);
      var closed := disk.WriteFile(zip, Archive(found));
      assert closed;
      if missed != [] {
        var log := backupDir + [WithSuffix(BackupName(prefix, ts, ".zip"), ".failed.json")];
        var logged := disk.WriteFile(log, FailureLog(missed));
        if !logged {
          return None, members, failed;
        }
      }
      r := Some(zip);
    }

    /** `restore_file_backup(backup, target)`. */
    method RestoreFileBackup(disk: Disk, backup: Path, target: Path) returns (ok: bool)
      modifies disk
      ensures (ok, disk.tree) == Restore(old(disk.tree), backup, target, disk.now)
    {
      if backup !in disk.tree {
        return false;
      }
      var made := disk.MakeDirs(Parent(target));
      if !made {
        return false;
      }
      ok := disk.CopyFile(backup, target);
    }

    /** `list_backups(pattern)`: the matching regular files of the backup directory, newest
        first. */
    method ListBackups(disk: Disk, pattern: string) returns (r: seq<Path>)
      ensures multiset(r) == multiset(BackupFiles(disk.tree, backupDir, pattern))
      ensures NewestFirst(disk.tree, r)
    {
      var found := ListSet(BackupFiles(disk.tree, backupDir, pattern));
      r := SortNewestFirst(disk.tree, found);
    }

    /** `cleanup_old_backups(max_backups)`: when there are more backups than the limit, the
        ones past the limit in the newest-first listing (`doomed`) are unlinked, and the
        answer counts those actually removed. The kept ones are never older than a doomed
        one. */
    method CleanupOldBackups(disk: Disk, maxBackups: Option<int>) returns (deleted: nat, ghost doomed: set<Path>)
      modifies disk
      ensures var all := BackupFiles(old(disk.tree), backupDir, "");
        var limit := Limit(maxBackups);
        doomed <= all &&
        (|all| <= limit ==> doomed == {}) &&
        (limit < |all| ==> |all - doomed| == SliceStart(limit, |all|)) &&
        (forall k, q :: k in all - doomed && q in doomed ==> Mtime(old(disk.tree), q) <= Mtime(old(disk.tree), k))
      ensures disk.tree == old(disk.tree) - Unlinkable(old(disk.tree), doomed)
      ensures deleted == |Unlinkable(old(disk.tree), doomed)|
    {
      ghost var t0 := disk.tree;
      var limit := Limit(maxBackups);
      var backups := ListBackups(disk, "");
      ghost var all := BackupFiles(t0, backupDir, "");
      assert |multiset(backups)| == |backups|;
      if |backups| <= limit {
        doomed := {};
        return 0, doomed;
      }
      var start := SliceStart(limit, |backups|);
      var kept, gone := backups[..start], backups[start..];
      assert backups == kept + gone;
      doomed := Listed(gone);
      forall q | q in doomed ensures q in all {
        assert q in multiset(backups);
      }
      KeptAndDoomed(t0, all, backups, start);
      deleted := UnlinkEach(disk, gone);
    }

    /** `auto_restore_backup(pattern)`: only the newest matching backup (`latest`) is tried,
        restored to the path its name leads back to. */
    method AutoRestoreBackup(disk: Disk, pattern: string, pp: PlatformPaths, cwd: Path)
      returns (rep: RestoreReport, ghost latest: Option<Path>)
      modifies disk
      ensures var all := BackupFiles(old(disk.tree), backupDir, pattern);
        (all == {} <==> latest.None?) &&
        (latest.Some? ==>
          latest.value in all && forall b :: b in all ==> Mtime(old(disk.tree), b) <= Mtime(old(disk.tree), latest.value))
      ensures latest.None? ==>
        rep == RestoreReport(false, [], [], Some(NoBackupsMessage(pattern))) && disk.tree == old(disk.tree)
      ensures latest.Some? && OriginalPath(latest.value, pp, cwd).None? ==>
        rep == RestoreReport(false, [], [], Some(UnknownOriginalMessage(Name(latest.value)))) &&
        disk.tree == old(disk.tree)
      ensures latest.Some? && OriginalPath(latest.value, pp, cwd).Some? ==>
        var pair := Restored(latest.value, OriginalPath(latest.value, pp, cwd).value);
        var outcome := Restore(old(disk.tree), pair.backup, pair.target, disk.now);
        disk.tree == outcome.1 &&
        rep == if outcome.0 then RestoreReport(true, [pair], [], None) else RestoreReport(false, [], [pair], None)
    {
      ghost var t0 := disk.tree;
      var matching := ListBackups(disk, pattern);
      if matching == [] {
        assert |multiset(matching)| == 0;
        return RestoreReport(false, [], [], Some(NoBackupsMessage(pattern))), None;
      }
      var newest := matching[0];
      latest := Some(newest);
      assert newest in multiset(matching);
      forall b | b in BackupFiles(t0, backupDir, pattern) ensures Mtime(t0, b) <= Mtime(t0, newest) {
        assert b in multiset(matching);
        var k :| 0 <= k < |matching| && matching[k] == b;
      }
      var original := OriginalPath(newest, pp, cwd);
      if original.None? {
        return RestoreReport(false, [], [], Some(UnknownOriginalMessage(Name(newest)))), latest;
      }
      var pair := Restored(newest, original.value);
      var ok := RestoreFileBackup(disk, newest, original.value);
      if ok {
        rep := RestoreReport(true, [pair], [], None);
      } else {
        rep := RestoreReport(false, [], [pair], None);
      }
    }
  }

  /** Splitting a newest-first listing of a set at `start`: the tail's paths are the set
      minus `start` kept ones, and each kept one is at least as new as each dropped one. */
  lemma KeptAndDoomed(t: Tree, all: set<Path>, backups: seq<Path>, start: nat)
    requires multiset(backups) == multiset(all) && NewestFirst(t, backups) && start <= |backups|
    ensures Listed(backups[start..]) <= all
    ensures |all - Listed(backups[start..])| == start
    ensures forall k, q :: k in all - Listed(backups[start..]) && q in Listed(backups[start..]) ==> Mtime(t, q) <= Mtime(t, k)
  {
    var gone := Listed(backups[start..]);
    var kept := Listed(backups[..start]);
    forall q | q in all ensures q in backups {
      assert q in multiset(backups);
    }
    forall q | q in backups ensures q in all {
      assert q in multiset(backups);
    }
    assert backups == backups[..start] + backups[start..];
    forall q | q in kept ensures q !in gone {
      var i :| 0 <= i < start && backups[i] == q;
      forall j | start <= j < |backups| ensures backups[j] != q {
        ListingDistinct(backups, all, i, j);
      }
    }
    assert all - gone == kept;
    DistinctListed(backups[..start], all, backups);
    forall k, q | k in all - gone && q in gone ensures Mtime(t, q) <= Mtime(t, k) {
      var i :| 0 <= i < start && backups[i] == k;
      var j :| start <= j < |backups| && backups[j] == q;
    }
  }

  /** A prefix of a listing of a set holds as many paths as entries. */
  lemma DistinctListed(prefix: seq<Path>, all: set<Path>, backups: seq<Path>)
    requires multiset(backups) == multiset(all) && StartsWith(backups, prefix)
    ensures |Listed(prefix)| == |prefix|
    decreases |prefix|
  {
    if prefix != [] {
      var init := prefix[..|prefix| - 1];
      var last := prefix[|prefix| - 1];
      assert StartsWith(backups, init) by {
        assert backups[..|init|] == prefix[..|init|];
      }
      DistinctListed(init, all, backups);
      assert prefix == init + [last];
      assert Listed(prefix) == Listed(init) + {last};
      forall i | 0 <= i < |init| ensures init[i] != last {
        assert init[i] == backups[i] && last == backups[|prefix| - 1];
        ListingDistinct(backups, all, i, |prefix| - 1);
      }
    }
  }

  /** The write probe of utils/backup.py: make `d`, write the test file into it and remove
      it again; `probed` is whether all three steps succeeded. */
  method ProbeDirectory(disk: Disk, d: Path) returns (probed: bool)
    modifies disk
    ensures probed == ProbeSucceeds(old(disk.tree), d, disk.now)
    ensures disk.tree == ProbeTree(old(disk.tree), d, disk.now)
    ensures forall q :: q in old(disk.tree) && q != d + [ProbeName] ==>
      q in disk.tree && disk.tree[q] == old(disk.tree)[q]
    ensures forall q :: q in disk.tree && q !in old(disk.tree) ==> StartsWith(d, q) || q == d + [ProbeName]
  {
    probed := false;
    var made := disk.MakeDirs(d);
    if made {
      var wrote := disk.WriteFile(d + [ProbeName], Text("test"));
      if wrote {
        probed := disk.Remove(d + [ProbeName]);
      }
    }
  }

  /** `BackupManager(backup_dir)`: a given directory is used as it is; otherwise the home
      directory's backup folder when the write probe succeeds there, else the project's
      `backups` folder. The chosen directory is then created; when that fails the
      constructor raises, which is `null` here. */
  method OpenBackupManager(disk: Disk, given: Option<Path>, home: Path, projectRoot: Path)
    returns (m: BackupManager?)
    modifies disk
    ensures m != null ==> fresh(m) && IsDir(disk.tree, m.backupDir)
    ensures m != null && given.Some? ==> m.backupDir == given.value
    ensures m != null && given.None? && ProbeSucceeds(old(disk.tree), home + [HomeBackupDir], disk.now) ==>
      m.backupDir == home + [HomeBackupDir]
    ensures m != null && given.None? && !ProbeSucceeds(old(disk.tree), home + [HomeBackupDir], disk.now) ==>
      m.backupDir == projectRoot + ["backups"]
    ensures var dir := ChosenDir(old(disk.tree), given, home, projectRoot, disk.now);
      var probed := if given.Some? then old(disk.tree) else ProbeTree(old(disk.tree), home + [HomeBackupDir], disk.now);
      (m != null <==> Mkdirs(probed, dir, disk.now).Some?) &&
      disk.tree == (if m != null then Mkdirs(probed, dir, disk.now).value else probed)
    ensures forall q :: q in old(disk.tree) && (given.Some? || q != home + [HomeBackupDir, ProbeName]) ==>
      q in disk.tree && disk.tree[q] == old(disk.tree)[q]
    ensures forall q :: q in disk.tree && q !in old(disk.tree) ==>
      StartsWith(ChosenDir(old(disk.tree), given, home, projectRoot, disk.now), q) ||
      (given.None? && (StartsWith(home + [HomeBackupDir], q) || q == home + [HomeBackupDir, ProbeName]))
  {
    var dir: Path;
    if given.Some? {
      dir := given.value;
    } else {
      dir := home + [HomeBackupDir];
      var probed := ProbeDirectory(disk, dir);
      if !probed {
        dir := projectRoot + ["backups"];
      }
    }
    var ok := disk.MakeDirs(dir);
    if !ok {
      return null;
    }
    m := new BackupManager(dir);
  }
}
