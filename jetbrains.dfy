/** The JetBrains handler (`core/jetbrains_handler.py`): it gives the identifier files of the
    JetBrains configuration directory fresh UUIDs, backing each up, unlocking it for the
    write and locking it again, and it deletes AugmentCode rows from the SQLite databases
    below that directory. */
module JetBrains {
  import opened Common
  import opened Fs
  import opened Sqlite
  import opened Settings
  import opened IdGenerator
  import opened FileLocker
  import opened Paths
  import opened Backup
  import opened DbCleaner

  // ----- messages -----

  const NoConfigDirMessage := "JetBrains configuration directory not found"
  const UnsafeFilePath := "Invalid or unsafe file path"
  const UnsafeDatabasePath := "Invalid or unsafe database path"
  /** `f"File operation failed: {e}"`; the exception's own text is not modelled. */
  const FileOperationFailed := "File operation failed"

  /** `f"{file.name}: {error}"`, how a file's error enters the overall report. */
  function FileError(p: Path, error: string): string {
    Name(p) + ": " + error
  }

  // ----- one database -----

  /** The declared column types `_clean_sqlite_database` cleans (no `BLOB`, unlike the
      database cleaner). */
  const JetBrainsTextTypes: seq<string> := ["TEXT", "VARCHAR", "CHAR"]

  /** The suffixes, lower-cased, of the files cleaned as SQLite databases. */
  const SqliteSuffixes: seq<string> := [".db", ".sqlite", ".sqlite3"]

  /** `db_path.suffix.lower() in ['.db', '.sqlite', '.sqlite3']`. */
  predicate IsSqliteSuffix(name: string) {
    Lower(Suffix(name)) in SqliteSuffixes
  }

  /** The dot `k` characters before the end of `name` starts its `Path.suffix` when no later
      character is a dot and it is not the first character. */
  lemma SuffixAt(name: string, k: nat)
    requires 2 <= k < |name| && name[|name| - k] == '.'
    requires forall j :: |name| - k < j < |name| ==> name[j] != '.'
    ensures Suffix(name) == name[|name| - k..]
  {
    var i := LastDot(name, |name|);
    assert i.Some? && i.value == |name| - k;
  }

  lemma SqliteSuffixesLower()
    ensures forall x :: x in SqliteSuffixes ==> Lower(x) == x
  {
    assert Lower(".db") == ".db";
    assert Lower(".sqlite") == ".sqlite";
    assert Lower(".sqlite3") == ".sqlite3";
  }

  /** A longer name ending in one of the suffixes has it as its `Path.suffix`. */
  lemma EndingCleaned(name: string, x: string)
    requires x in SqliteSuffixes && EndsWith(name, x) && |name| > |x|
    ensures IsSqliteSuffix(name)
  {
    assert x[0] == '.' && forall j :: 0 < j < |x| ==> x[j] != '.';
    assert name[|name| - |x|..] == x;
    SuffixAt(name, |x|);
    SqliteSuffixesLower();
  }

  /** A name that is one of the suffixes has no `Path.suffix` at all. */
  lemma WholeNameNoSuffix(name: string)
    requires name in SqliteSuffixes
    ensures !IsSqliteSuffix(name)
  {
    assert name[0] == '.' && forall j :: 0 < j < |name| ==> name[j] != '.';
    var i := LastDot(name, |name|);
    assert i == Some(0);
  }

  /** A file the recursive database search finds is cleaned as SQLite, except one named
      exactly `.db`, `.sqlite` or `.sqlite3`: pathlib gives such a name no suffix, so the
      file is skipped and reported with 0 records. */
  lemma DatabaseNameCleaned(name: string)
    requires IsDatabaseName(name)
    ensures IsSqliteSuffix(name) <==> name !in SqliteSuffixes
  {
    DatabaseNameSuffix(name);
    if name in SqliteSuffixes {
      WholeNameNoSuffix(name);
    } else if EndsWith(name, ".db") {
      EndingCleaned(name, ".db");
    } else if EndsWith(name, ".sqlite") {
      EndingCleaned(name, ".sqlite");
    } else {
      EndingCleaned(name, ".sqlite3");
    }
  }

  /** What `_clean_sqlite_database` removes from the file `p` of `t`, and the database it
      leaves there. */
  function JetBrainsRowsRemoved(t: Tree, p: Path): int
    requires IsFile(t, p)
  {
    RowsRemoved(t, p, JetBrainsTextTypes, JetBrainsAugmentPatterns)
  }

  function JetBrainsCleaned(db: Database): Database {
    CleanedDatabase(db, JetBrainsTextTypes, JetBrainsAugmentPatterns)
  }

  /** After a pass no row keeps a text-typed cell matching a pattern, every kept row was there,
      and a second pass over the rewritten file removes nothing. */
  lemma JetBrainsCleanedSpec(t: Tree, p: Path, now: int)
    requires IsValidSqliteDatabase(t, p) && CanModify(t, p)
    ensures var db := t[p].entry.content.db;
      forall i, r :: 0 <= i < |db.tables| && r in JetBrainsCleaned(db).tables[i].rows ==>
        r in db.tables[i].rows &&
        forall c, x :: c in TextColumns(db.tables[i].columns, JetBrainsTextTypes) && x in JetBrainsAugmentPatterns ==>
          !Like(Cell(r, c), x)
    ensures var t1 := Write(t, p, Db(JetBrainsCleaned(t[p].entry.content.db)), now);
      IsValidSqliteDatabase(t1, p) && JetBrainsRowsRemoved(t1, p) == 0
  {
    var db := t[p].entry.content.db;
    forall i, r | 0 <= i < |db.tables| && r in JetBrainsCleaned(db).tables[i].rows
      ensures r in db.tables[i].rows &&
        forall c, x :: c in TextColumns(db.tables[i].columns, JetBrainsTextTypes) && x in JetBrainsAugmentPatterns ==>
          !Like(Cell(r, c), x)
    {
      CleanedDatabaseSpec(db, JetBrainsTextTypes, JetBrainsAugmentPatterns, i, r);
    }
    if db.tables != [] {
      CleanedDatabaseSpec(db, JetBrainsTextTypes, JetBrainsAugmentPatterns, 0, Row(0, map[]));
    }
    var once := JetBrainsCleaned(db);
    assert JetBrainsCleaned(once) == once;
  }

  /** `_clean_sqlite_database(p)`: a file failing the header check, or one SQLite cannot
      read, gives 0; otherwise every table is cleaned over its text-typed columns with the
      JetBrains patterns and the deletions are committed. Nothing else (no `.backup`
      sibling) is touched. */
  method CleanSqliteDatabase(disk: Disk, p: Path) returns (n: nat)
    modifies disk
    ensures !IsValidSqliteDatabase(old(disk.tree), p) ==> n == 0 && disk.tree == old(disk.tree)
    ensures IsValidSqliteDatabase(old(disk.tree), p) ==> n == JetBrainsRowsRemoved(old(disk.tree), p)
    ensures n > 0 ==> (IsValidSqliteDatabase(old(disk.tree), p) && CanModify(old(disk.tree), p) &&
      disk.tree == Write(old(disk.tree), p, Db(JetBrainsCleaned(old(disk.tree)[p].entry.content.db)), disk.now))
    ensures n == 0 ==> disk.tree == old(disk.tree)
    ensures IsValidSqliteDatabase(old(disk.tree), p) && CanModify(old(disk.tree), p) ==>
      IsFile(disk.tree, p) && disk.tree[p].entry.content == Db(JetBrainsCleaned(old(disk.tree)[p].entry.content.db))
  {
    if !HeaderCheck(disk.tree, p) || !disk.tree[p].entry.content.Db? {
      return 0;
    }
    var db := disk.tree[p].entry.content.db;
    var canModify := CanModify(disk.tree, p);
    var cleaned, total := CleanTables(db, JetBrainsTextTypes, JetBrainsAugmentPatterns, canModify);
    if total > 0 {
      var _ := disk.WriteFile(p, Db(cleaned));
    } else if canModify {
      NoneRemovedTables(db.tables, JetBrainsTextTypes, JetBrainsAugmentPatterns);
    }
    n := total;
  }

  // ----- reports -----

  /** What `_process_jetbrains_id_file` reports. */
  datatype IdFileOutcome = IdFileOutcome(success: bool, backupPath: Option<Path>, oldId: Option<string>,
                                         newId: Option<string>, error: Option<string>)

  /** What `_process_jetbrains_database_file` reports. */
  datatype DbFileOutcome = DbFileOutcome(success: bool, backupPath: Option<Path>, recordsCleaned: nat, error: Option<string>)

  /** What `process_jetbrains_ides` reports. */
  datatype JetBrainsResult = JetBrainsResult(success: bool, found: bool, filesProcessed: seq<Path>,
                                             databasesProcessed: seq<Path>, filesFailed: seq<Path>,
                                             databasesFailed: seq<Path>, backups: seq<Path>,
                                             oldIds: map<string, string>, newIds: map<string, string>,
                                             recordsCleaned: nat, errors: seq<string>)

  const NotFound := JetBrainsResult(false, false, [], [], [], [], [], map[], map[], 0, [NoConfigDirMessage])

  /** The old identifier `read_text().strip()` gives, when the file can be read as text. */
  function OldIdOf(t: Tree, p: Path): (r: Option<string>)
    ensures r.Some? <==> ReadText(t, p).Some?
    ensures r.Some? ==> |r.value| <= |ReadText(t, p).value| && (r.value != [] ==> !IsPySpace(r.value[0]) && !IsPySpace(r.value[|r.value| - 1]))
  {
    match ReadText(t, p)
    case None => None
    case Some(s) => Some(Strip(s))
  }

  /** The identifier file `p` can be written once it has been unlocked: its directory
      exists, and an existing file is writable or owned by the process (so `unlock_file` can
      restore its write bit), while a new one needs a writable directory. */
  predicate IdFileWritable(t: Tree, p: Path) {
    p != [] && IsDir(t, Parent(p)) &&
    if p in t then t[p].entry.File? && (Writable(t[p].mode) || t[p].owned) else Writable(t[Parent(p)].mode)
  }

  /** The tree `unlock_file` leaves when `p` is locked. */
  function Unlocked(t: Tree, p: Path): Tree {
    if p in t && IsFileLocked(t, p) && t[p].owned then Chmod(t, p, UnlockedMode(t[p].mode)) else t
  }

  /** After the unlock step the write succeeds exactly on an identifier file that
      `IdFileWritable` admits. */
  lemma UnlockedWritable(t: Tree, p: Path)
    ensures CanWrite(Unlocked(t, p), p) <==> IdFileWritable(t, p)
  {
    if p != [] {
      assert Parent(p) != p;
    }
  }

  /** How `process_jetbrains_ides` folds one identifier file in: a success adds the file, its
      backup and, under the file's name, its non-empty old and new identifiers; a failure adds
      the file and its error. */
  function AbsorbIdFile(acc: JetBrainsResult, p: Path, r: IdFileOutcome): JetBrainsResult {
    if r.success then
      acc.(filesProcessed := acc.filesProcessed + [p],
           backups := acc.backups + (if r.backupPath.Some? then [r.backupPath.value] else []),
           oldIds := if r.oldId.Some? && r.oldId.value != "" then acc.oldIds[Name(p) := r.oldId.value] else acc.oldIds,
           newIds := if r.newId.Some? && r.newId.value != "" then acc.newIds[Name(p) := r.newId.value] else acc.newIds)
    else
      acc.(filesFailed := acc.filesFailed + [p],
           errors := acc.errors + (if r.error.Some? then [FileError(p, r.error.value)] else []))
  }

  /** How `process_jetbrains_ides` folds one database in. */
  function AbsorbDbFile(acc: JetBrainsResult, p: Path, r: DbFileOutcome): JetBrainsResult {
    if r.success then
      acc.(databasesProcessed := acc.databasesProcessed + [p],
           backups := acc.backups + (if r.backupPath.Some? then [r.backupPath.value] else []),
           recordsCleaned := acc.recordsCleaned + r.recordsCleaned)
    else
      acc.(databasesFailed := acc.databasesFailed + [p],
           errors := acc.errors + (if r.error.Some? then [FileError(p, r.error.value)] else []))
  }

  /** Folding in databases leaves the identifier-file part of a report alone. */
  predicate SameIdPart(a: JetBrainsResult, b: JetBrainsResult) {
    a.found == b.found && a.success == b.success && a.filesProcessed == b.filesProcessed &&
    a.filesFailed == b.filesFailed && a.oldIds == b.oldIds && a.newIds == b.newIds
  }

  /** Folding in a database counts it once, adds an error exactly for a failure that has
      one, a backup only for a success, and adds the records of a success. */
  lemma AbsorbDbFileStep(acc: JetBrainsResult, p: Path, r: DbFileOutcome)
    requires r.success <==> r.error.None?
    ensures var n := AbsorbDbFile(acc, p, r);
      SameIdPart(n, acc) &&
      |n.databasesProcessed| + |n.databasesFailed| == |acc.databasesProcessed| + |acc.databasesFailed| + 1 &&
      (forall q :: q in n.databasesProcessed || q in n.databasesFailed <==>
        q in acc.databasesProcessed || q in acc.databasesFailed || q == p) &&
      |n.errors| - |acc.errors| == |n.databasesFailed| - |acc.databasesFailed| &&
      |n.backups| - |acc.backups| <= |n.databasesProcessed| - |acc.databasesProcessed| &&
      n.recordsCleaned == acc.recordsCleaned + (if r.success then r.recordsCleaned else 0)
  {
  }

  /** The identifier-file part of a report once the files `seen` were folded in, each once:
      every one processed or failed, a UUID keyed by the name of each processed file, one
      error per failure and no database work yet. */
  ghost predicate IdTally(res: JetBrainsResult, seen: seq<Path>) {
    |res.filesProcessed| + |res.filesFailed| == |seen| &&
    (forall p :: p in seen <==> p in res.filesProcessed || p in res.filesFailed) &&
    (forall p :: !(p in res.filesProcessed && p in res.filesFailed)) &&
    res.newIds.Keys == (set p | p in res.filesProcessed :: Name(p)) && res.oldIds.Keys <= res.newIds.Keys &&
    (forall k :: k in res.newIds ==> IsUuid4(res.newIds[k])) &&
    |res.errors| == |res.filesFailed| && |res.backups| <= |res.filesProcessed| &&
    res.found && !res.success && res.databasesProcessed == [] && res.databasesFailed == [] && res.recordsCleaned == 0
  }

  /** Folding in one more identifier file, whose success brings a fresh UUID, keeps the tally. */
  lemma AbsorbIdFileStep(acc: JetBrainsResult, seen: seq<Path>, p: Path, r: IdFileOutcome)
    requires IdTally(acc, seen) && p !in seen
    requires (r.success <==> r.error.None?) && (r.success ==> r.newId.Some? && IsUuid4(r.newId.value))
    ensures IdTally(AbsorbIdFile(acc, p, r), seen + [p])
  {
    if r.success {
      AbsorbProcessedIdFile(acc, seen, p, r);
    } else {
      AbsorbFailedIdFile(acc, seen, p, r);
    }
  }

  lemma AbsorbProcessedIdFile(acc: JetBrainsResult, seen: seq<Path>, p: Path, r: IdFileOutcome)
    requires IdTally(acc, seen) && p !in seen
    requires r.success && r.newId.Some? && IsUuid4(r.newId.value)
    ensures IdTally(AbsorbIdFile(acc, p, r), seen + [p])
  {
    var n := AbsorbIdFile(acc, p, r);
    assert n.filesProcessed == acc.filesProcessed + [p] && n.filesFailed == acc.filesFailed;
    forall q ensures q in seen + [p] <==> q in n.filesProcessed || q in n.filesFailed {
    }
    assert r.newId.value != "";
    assert n.newIds.Keys == acc.newIds.Keys + {Name(p)};
    assert (set q | q in n.filesProcessed :: Name(q)) == (set q | q in acc.filesProcessed :: Name(q)) + {Name(p)};
  }

  lemma AbsorbFailedIdFile(acc: JetBrainsResult, seen: seq<Path>, p: Path, r: IdFileOutcome)
    requires IdTally(acc, seen) && p !in seen
    requires !r.success && r.error.Some?
    ensures IdTally(AbsorbIdFile(acc, p, r), seen + [p])
  {
    var n := AbsorbIdFile(acc, p, r);
    assert n.filesFailed == acc.filesFailed + [p] && n.filesProcessed == acc.filesProcessed;
    forall q ensures q in seen + [p] <==> q in n.filesProcessed || q in n.filesFailed {
    }
  }

  /** The database part of a report folded onto `acc` once the databases `seen` were folded
      in, each once; the identifier part is untouched. */
  ghost predicate DbTally(res: JetBrainsResult, acc: JetBrainsResult, seen: seq<Path>) {
    SameIdPart(res, acc) &&
    |res.databasesProcessed| + |res.databasesFailed| == |acc.databasesProcessed| + |acc.databasesFailed| + |seen| &&
    (forall p :: p in res.databasesProcessed || p in res.databasesFailed <==>
      p in acc.databasesProcessed || p in acc.databasesFailed || p in seen) &&
    |res.errors| - |acc.errors| == |res.databasesFailed| - |acc.databasesFailed| &&
    |res.backups| - |acc.backups| <= |res.databasesProcessed| - |acc.databasesProcessed| &&
    res.recordsCleaned >= acc.recordsCleaned
  }

  lemma DbTallyStep(res: JetBrainsResult, acc: JetBrainsResult, seen: seq<Path>, p: Path, r: DbFileOutcome)
    requires DbTally(res, acc, seen) && (r.success <==> r.error.None?)
    ensures DbTally(AbsorbDbFile(res, p, r), acc, seen + [p])
  {
    AbsorbDbFileStep(res, p, r);
    var n := AbsorbDbFile(res, p, r);
    forall q ensures q in n.databasesProcessed || q in n.databasesFailed <==>
      q in acc.databasesProcessed || q in acc.databasesFailed || q in seen + [p]
    {
    }
  }

  /** The configured identifier file names differ, so each keys its own entry. */
  lemma IdFileNamesDistinct(dir: Path)
    ensures forall i, j :: 0 <= i < j < |IdFilePaths(dir)| ==> Name(IdFilePaths(dir)[i]) != Name(IdFilePaths(dir)[j])
  {
    assert |IdFiles[0]| != |IdFiles[1]|;
  }

  /** The identifier files of `dir` sit side by side under distinct names free of `_`. */
  lemma IdFilesSiblings(dir: Path, i: nat)
    requires i < |IdFiles|
    ensures var p := dir + [IdFiles[i]];
      InDir(dir, p) && Name(p) == IdFiles[i] && '_' !in IdFiles[i] &&
      (forall q :: q in Zones(IdFilePaths(dir)[..i]) ==> InDir(dir, q) && q != p && Name(q) != Name(p))
  {
    var p := dir + [IdFiles[i]];
    InDirChild(dir, IdFiles[i]);
    assert '_' !in IdFiles[0] && '_' !in IdFiles[1];
    forall q | q in Zones(IdFilePaths(dir)[..i]) ensures InDir(dir, q) && q != p && Name(q) != Name(p) {
      var k :| 0 <= k < i && q == IdFilePaths(dir)[k];
      InDirChild(dir, IdFiles[k]);
      assert Name(q) == IdFiles[k] && IdFiles[k] != IdFiles[i];
    }
  }

  /** The identifier files of `dir` worked through so far, from `t0` to `t`: exactly those of
      `files` that were safe and writable were processed, each holds the new identifier the
      report keys by its name, and the report keeps its non-empty old identifier. */
  ghost predicate IdFilesWritten(t0: Tree, t: Tree, safe: bool, files: seq<Path>, res: JetBrainsResult) {
    (forall p :: p in res.filesProcessed <==> p in files && safe && IdFileWritable(t0, p)) &&
    (forall p :: p in res.filesProcessed ==>
      Name(p) in res.newIds && IsFile(t, p) && t[p].entry.content == Content.Text(res.newIds[Name(p)])) &&
    (forall p :: p in res.filesProcessed ==>
      (Name(p) in res.oldIds <==> OldIdOf(t0, p).Some? && OldIdOf(t0, p).value != "") &&
      (Name(p) in res.oldIds ==> OldIdOf(t0, p) == Some(res.oldIds[Name(p)])))
  }

  /** The files before the `i`-th leave it, and its directory, as they were. */
  lemma IdFileUntouched(t0: Tree, t1: Tree, dir: Path, i: nat, b: Path)
    requires i < |IdFiles| && Confined(t0, t1, Zones(IdFilePaths(dir)[..i]), b)
    ensures var p := dir + [IdFiles[i]];
      (p in t1 <==> p in t0) && (p in t0 ==> t1[p] == t0[p]) && (IsDir(t1, dir) <==> IsDir(t0, dir)) &&
      (IsDir(t0, dir) ==> t1[dir] == t0[dir]) &&
      IdFileWritable(t1, p) == IdFileWritable(t0, p) && OldIdOf(t1, p) == OldIdOf(t0, p)
  {
    var p := dir + [IdFiles[i]];
    var zones := Zones(IdFilePaths(dir)[..i]);
    IdFilesSiblings(dir, i);
    SiblingsApart(dir, zones, p);
    ConfinedKeeps(t0, t1, zones, b, p);
    assert Parent(p) == dir;
  }

  /** The `i`-th file leaves the files before it as they were. */
  lemma IdFilesKeptAfter(t1: Tree, t2: Tree, dir: Path, i: nat, b: Path, q: Path)
    requires i < |IdFiles| && Confined(t1, t2, {dir + [IdFiles[i]]}, b)
    requires q in Zones(IdFilePaths(dir)[..i])
    ensures (q in t2 <==> q in t1) && (q in t1 ==> t2[q] == t1[q])
  {
    var p := dir + [IdFiles[i]];
    IdFilesSiblings(dir, i);
    var k :| 0 <= k < i && q == IdFilePaths(dir)[k];
    IdFilesSiblings(dir, k);
    SiblingsApart(dir, {p}, q);
    ConfinedKeeps(t1, t2, {p}, b, q);
  }

  /** Folding in the `i`-th identifier file keeps `IdFilesWritten`. */
  lemma IdFilesWrittenStep(t0: Tree, t1: Tree, t2: Tree, safe: bool, safe1: bool, dir: Path, i: nat,
                           acc: JetBrainsResult, r: IdFileOutcome, b: Path)
    requires i < |IdFiles|
    requires IdFilesWritten(t0, t1, safe, IdFilePaths(dir)[..i], acc)
    requires acc.oldIds.Keys <= acc.newIds.Keys && acc.newIds.Keys == (set q | q in acc.filesProcessed :: Name(q))
    requires Confined(t0, t1, Zones(IdFilePaths(dir)[..i]), b) && Confined(t1, t2, {dir + [IdFiles[i]]}, b)
    requires IsDir(t0, dir) ==> safe1 == safe
    requires var p := dir + [IdFiles[i]];
      (r.success <==> safe1 && IdFileWritable(t1, p)) &&
      (safe1 ==> r.oldId == OldIdOf(t1, p)) &&
      (r.success ==> r.newId.Some? && r.newId.value != "" && IsFile(t2, p) && t2[p].entry.content == Content.Text(r.newId.value))
    ensures IdFilesWritten(t0, t2, safe, IdFilePaths(dir)[..i + 1], AbsorbIdFile(acc, dir + [IdFiles[i]], r))
  {
    var p := dir + [IdFiles[i]];
    var files := IdFilePaths(dir);
    var res := AbsorbIdFile(acc, p, r);
    assert files[..i + 1] == files[..i] + [p];
    IdFileUntouched(t0, t1, dir, i, b);
    IdFilesSiblings(dir, i);
    assert Parent(p) == dir;
    assert r.success <==> safe && IdFileWritable(t0, p);
    IdFilesWrittenKept(t0, t1, t2, safe, dir, i, acc, b);
    if r.success {
      IdFileWrittenAdded(t0, t2, safe, files[..i], acc, p, r);
    } else {
      IdFileWrittenFailed(t0, t1, t2, safe, files[..i], acc, p, r);
    }
  }

  /** A failed identifier file leaves the report's written files as they were. */
  lemma IdFileWrittenFailed(t0: Tree, t1: Tree, t2: Tree, safe: bool, seen: seq<Path>, acc: JetBrainsResult, p: Path,
                            r: IdFileOutcome)
    requires IdFilesWritten(t0, t1, safe, seen, acc)
    requires forall q :: q in acc.filesProcessed ==> IsFile(t2, q) && t2[q] == t1[q]
    requires !r.success && !(safe && IdFileWritable(t0, p))
    ensures IdFilesWritten(t0, t2, safe, seen + [p], AbsorbIdFile(acc, p, r))
  {
    var res := AbsorbIdFile(acc, p, r);
    assert res.filesProcessed == acc.filesProcessed && res.newIds == acc.newIds && res.oldIds == acc.oldIds;
  }

  /** One turn of the identifier-file loop, from the tree `t1` before the `i`-th file to the
      tree `t2` after it, keeps the loop's tallies; `safe` and `safe1` are `validate_path` of
      the directory at the loop's start and before the file. */
  lemma IdFileTurn(t0: Tree, t1: Tree, t2: Tree, dir: Path, i: nat, acc: JetBrainsResult, r: IdFileOutcome,
                   safe: bool, safe1: bool, b: Path)
    requires i < |IdFiles|
    requires IdTally(acc, IdFilePaths(dir)[..i])
    requires IdFilesWritten(t0, t1, safe, IdFilePaths(dir)[..i], acc)
    requires Confined(t0, t1, Zones(IdFilePaths(dir)[..i]), b)
    requires dir in t0 && dir in t1 && t1[dir] == t0[dir] ==> safe1 == safe
    requires var p := dir + [IdFiles[i]];
      (!safe1 ==> !r.success && r.error.Some?) &&
      (safe1 ==>
        r.oldId == OldIdOf(t1, p) && r.newId.Some? && IsUuid4(r.newId.value) && (r.success <==> IdFileWritable(t1, p))) &&
      (r.success <==> r.error.None?) &&
      (r.success ==> IsFile(t2, p) && t2[p].entry.content == Content.Text(r.newId.value)) &&
      Confined(t1, t2, {p}, b)
    ensures var p := dir + [IdFiles[i]];
      IdTally(AbsorbIdFile(acc, p, r), IdFilePaths(dir)[..i + 1]) &&
      IdFilesWritten(t0, t2, safe, IdFilePaths(dir)[..i + 1], AbsorbIdFile(acc, p, r)) &&
      Confined(t0, t2, Zones(IdFilePaths(dir)[..i + 1]), b)
  {
    var p := dir + [IdFiles[i]];
    var files := IdFilePaths(dir);
    assert files[i] == p;
    IdFilesSiblings(dir, i);
    assert p !in files[..i] by {
      assert forall q :: q in files[..i] ==> q in Zones(files[..i]);
    }
    IdFileUntouched(t0, t1, dir, i, b);
    assert files[..i + 1] == files[..i] + [p];
    AbsorbIdFileStep(acc, files[..i], p, r);
    assert r.success ==> r.newId.value != "";
    IdFilesWrittenStep(t0, t1, t2, safe, safe1, dir, i, acc, r, b);
    ConfinedTrans(t0, t1, t2, Zones(files[..i]), {p}, b);
    ZonesSnoc(files[..i], p);
  }

  /** The files written before the `i`-th keep what they hold. */
  lemma IdFilesWrittenKept(t0: Tree, t1: Tree, t2: Tree, safe: bool, dir: Path, i: nat, acc: JetBrainsResult, b: Path)
    requires i < |IdFiles|
    requires IdFilesWritten(t0, t1, safe, IdFilePaths(dir)[..i], acc)
    requires Confined(t1, t2, {dir + [IdFiles[i]]}, b)
    ensures forall q :: q in acc.filesProcessed ==>
      Name(q) != Name(dir + [IdFiles[i]]) && q != dir + [IdFiles[i]] && IsFile(t2, q) && t2[q] == t1[q]
  {
    IdFilesSiblings(dir, i);
    forall q | q in acc.filesProcessed
      ensures Name(q) != Name(dir + [IdFiles[i]]) && q != dir + [IdFiles[i]] && IsFile(t2, q) && t2[q] == t1[q]
    {
      assert q in Zones(IdFilePaths(dir)[..i]);
      IdFilesKeptAfter(t1, t2, dir, i, b, q);
    }
  }

  /** A processed identifier file joins those written before it. */
  lemma IdFileWrittenAdded(t0: Tree, t2: Tree, safe: bool, seen: seq<Path>, acc: JetBrainsResult, p: Path, r: IdFileOutcome)
    requires forall q :: q in acc.filesProcessed <==> q in seen && safe && IdFileWritable(t0, q)
    requires forall q :: q in acc.filesProcessed ==>
      Name(q) != Name(p) && q != p && Name(q) in acc.newIds && IsFile(t2, q) && t2[q].entry.content == Content.Text(acc.newIds[Name(q)])
    requires forall q :: q in acc.filesProcessed ==>
      (Name(q) in acc.oldIds <==> OldIdOf(t0, q).Some? && OldIdOf(t0, q).value != "") &&
      (Name(q) in acc.oldIds ==> OldIdOf(t0, q) == Some(acc.oldIds[Name(q)]))
    requires acc.oldIds.Keys <= acc.newIds.Keys && acc.newIds.Keys == (set q | q in acc.filesProcessed :: Name(q))
    requires r.success && safe && IdFileWritable(t0, p) && r.oldId == OldIdOf(t0, p)
    requires r.newId.Some? && r.newId.value != "" && IsFile(t2, p) && t2[p].entry.content == Content.Text(r.newId.value)
    ensures IdFilesWritten(t0, t2, safe, seen + [p], AbsorbIdFile(acc, p, r))
  {
    var res := AbsorbIdFile(acc, p, r);
    var keep := r.oldId.Some? && r.oldId.value != "";
    assert res.filesProcessed == acc.filesProcessed + [p];
    assert res.newIds == acc.newIds[Name(p) := r.newId.value];
    assert res.oldIds == if keep then acc.oldIds[Name(p) := r.oldId.value] else acc.oldIds;
    forall q | q in res.filesProcessed
      ensures Name(q) in res.newIds && IsFile(t2, q) && t2[q].entry.content == Content.Text(res.newIds[Name(q)])
      ensures Name(q) in res.oldIds <==> OldIdOf(t0, q).Some? && OldIdOf(t0, q).value != ""
      ensures Name(q) in res.oldIds ==> OldIdOf(t0, q) == Some(res.oldIds[Name(q)])
    {
      if q != p {
        assert q in acc.filesProcessed && Name(q) != Name(p);
        assert (Name(q) in res.oldIds <==> Name(q) in acc.oldIds);
        assert Name(q) in res.oldIds ==> res.oldIds[Name(q)] == acc.oldIds[Name(q)];
      } else if keep {
        assert res.oldIds[Name(p)] == r.oldId.value;
      } else {
        assert Name(p) !in acc.oldIds;
      }
    }
  }

  /** What `verify_jetbrains_installation` reports. */
  datatype Installation = Installation(installed: bool, configDir: Option<Path>, idFiles: seq<Path>,
                                       existing: seq<Path>, missing: seq<Path>)

  /** The files of `files` that exist in `t`, in order. */
  function Existing(t: Tree, files: seq<Path>): (r: seq<Path>)
  {
    if files == [] then [] else (if files[0] in t then [files[0]] else []) + Existing(t, files[1..])
  }

  /** The files of `files` that do not exist in `t`, in order. */
  function Missing(t: Tree, files: seq<Path>): (r: seq<Path>)
  {
    if files == [] then [] else (if files[0] !in t then [files[0]] else []) + Missing(t, files[1..])
  }

  /** Existing and missing files split the listing: nothing is lost, nothing is in both, and
      each side is exactly what its name says. */
  lemma {:induction false} ExistingMissingPartition(t: Tree, files: seq<Path>)
    ensures |Existing(t, files)| + |Missing(t, files)| == |files|
    ensures forall p :: p in Existing(t, files) <==> p in files && p in t
    ensures forall p :: p in Missing(t, files) <==> p in files && p !in t
  {
    if files != [] {
      ExistingMissingPartition(t, files[1..]);
      assert forall p :: p in files <==> p == files[0] || p in files[1..];
    }
  }

  /** The listing grows one file at a time. */
  lemma {:induction false} ExistingMissingSnoc(t: Tree, files: seq<Path>, x: Path)
    ensures Existing(t, files + [x]) == Existing(t, files) + (if x in t then [x] else [])
    ensures Missing(t, files + [x]) == Missing(t, files) + (if x !in t then [x] else [])
    decreases |files|
  {
    if files == [] {
      assert [] + [x] == [x];
    } else {
      assert (files + [x])[1..] == files[1..] + [x];
      ExistingMissingSnoc(t, files[1..], x);
    }
  }

  /** The prefix a JetBrains database backup gets. */
  const JetBrainsDbPrefix := "jetbrains_db_"

  /** Backing a file up leaves its node, whether it is a valid database and whether SQLite
      may modify it as they were. */
  lemma CopyKeepsCleaning(t: Tree, p: Path, dst: Path)
    requires CanCopy(t, p, dst)
    ensures Copy2(t, p, dst)[p] == t[p]
    ensures IsValidSqliteDatabase(Copy2(t, p, dst), p) == IsValidSqliteDatabase(t, p)
    ensures CanModify(Copy2(t, p, dst), p) == CanModify(t, p)
  {
    CopyKeepsSource(t, p, dst);
    if p != [] {
      assert Parent(p) != p;
    }
  }

  /** A confined step that leaves `p` outside its zones and outside the backup slots keeps its
      node, whether it is a valid database and whether SQLite may modify it: a zone above its
      directory would be a zone above `p`. */
  lemma CleaningKept(t0: Tree, t1: Tree, zones: set<Path>, b: Path, p: Path)
    requires Confined(t0, t1, zones, b) && !Within(zones, p) && !BackupSlot(b, p)
    ensures (p in t1 <==> p in t0) && (p in t0 ==> t1[p] == t0[p])
    ensures IsValidSqliteDatabase(t1, p) == IsValidSqliteDatabase(t0, p)
    ensures CanModify(t1, p) == CanModify(t0, p)
  {
    ConfinedKeeps(t0, t1, zones, b, p);
    if p != [] {
      forall z | z in zones
        ensures !StartsWith(Parent(p), z)
      {
        if |z| <= |Parent(p)| {
          assert p[..|z|] == Parent(p)[..|z|];
        }
      }
    }
  }

  /** The paths of a listing, as a set of zones. */
  function Zones(files: seq<Path>): set<Path> {
    set p | p in files
  }

  lemma ZonesSnoc(files: seq<Path>, p: Path)
    ensures Zones(files + [p]) == Zones(files) + {p}
  {
  }

  // ----- the handler -----

  class JetBrainsHandler {
    const paths: PathManager
    const backups: BackupManager
    /** The random source behind `generate_uuid`. */
    const entropy: Entropy

    constructor(paths: PathManager, backups: BackupManager, entropy: Entropy)
      ensures this.paths == paths && this.backups == backups && this.entropy == entropy
    {
      this.paths := paths;
      this.backups := backups;
      this.entropy := entropy;
    }

    /** `validate_path` with this handler's path manager. */
    predicate Safe(t: Tree, p: Path)
      reads paths
    {
      ValidatePath(t, paths.platformPaths, paths.cwd, p)
    }

    /** The steps of `_process_jetbrains_id_file` after the new identifier is drawn:
        `mkdir(parents=True, exist_ok=True)` on the directory, `unlock_file` when the file is
        locked, the write, and `lock_file` when asked for (its answer only logged). */
    method RewriteIdFile(disk: Disk, p: Path, id: string, lockFiles: bool) returns (ok: bool)
      requires Parent(p) in disk.tree
      modifies disk
      ensures ok <==> IdFileWritable(old(disk.tree), p)
      ensures ok ==> (IsFile(disk.tree, p) && disk.tree[p].entry.content == Content.Text(id) &&
        (IsFileLocked(disk.tree, p) <==> lockFiles && disk.tree[p].owned))
      ensures Confined(old(disk.tree), disk.tree, {p}, backups.backupDir)
    {
      ghost var t0 := disk.tree;
      var made := disk.MakeDirs(Parent(p));
      if !made {
        ConfinedWiden(t0, disk.tree, {}, {p}, backups.backupDir);
        return false;
      }
      if p in disk.tree && IsFileLocked(disk.tree, p) {
        var _ := UnlockFile(disk, p);
      }
      ghost var t1 := disk.tree;
      UnlockedWritable(t0, p);
      InPlaceConfined(t0, t1, p, backups.backupDir);
      ok := WriteAndLock(disk, p, id, lockFiles);
      ConfinedTrans(t0, t1, disk.tree, {p}, {p}, backups.backupDir);
      assert {p} + {p} == {p};
    }

    /** The write of the new identifier and the optional `lock_file`. */
    method WriteAndLock(disk: Disk, p: Path, id: string, lockFiles: bool) returns (ok: bool)
      modifies disk
      ensures ok == CanWrite(old(disk.tree), p)
      ensures !ok ==> disk.tree == old(disk.tree)
      ensures ok ==> (IsFile(disk.tree, p) && disk.tree[p].entry.content == Content.Text(id) &&
        (IsFileLocked(disk.tree, p) <==> lockFiles && disk.tree[p].owned))
      ensures Confined(old(disk.tree), disk.tree, {p}, backups.backupDir)
    {
      ok := disk.WriteFile(p, Content.Text(id));
      if !ok {
        ConfinedWiden(disk.tree, disk.tree, {}, {p}, backups.backupDir);
        return;
      }
      ghost var t1 := disk.tree;
      WriteFileConfined(old(disk.tree), p, Content.Text(id), disk.now, backups.backupDir);
      if lockFiles {
        var _ := LockFile(disk, p);
        InPlaceConfined(t1, disk.tree, p, backups.backupDir);
        ConfinedTrans(old(disk.tree), t1, disk.tree, {p}, {p}, backups.backupDir);
        assert {p} + {p} == {p};
      }
    }

    /** The backup step of `_process_jetbrains_id_file`: an existing file is copied as
        `jetbrains_<name>` when asked for. The file and its directory keep their nodes. */
    method BackUpIdFile(disk: Disk, p: Path, createBackups: bool) returns (backup: Option<Path>)
      requires disk.clock.Valid() && Parent(p) in disk.tree
      modifies disk
      ensures backup.Some? ==> (createBackups && IsFile(old(disk.tree), p) &&
        backup.value == backups.backupDir + [BackupName(JetBrainsPrefix + Name(p), Timestamp(disk.clock), BackupExtension)])
      ensures (p in disk.tree <==> p in old(disk.tree)) && (p in old(disk.tree) ==> disk.tree[p] == old(disk.tree)[p])
      ensures Parent(p) in disk.tree && (IsDir(old(disk.tree), Parent(p)) ==> disk.tree[Parent(p)] == old(disk.tree)[Parent(p)])
      ensures Confined(old(disk.tree), disk.tree, {}, backups.backupDir)
    {
      backup := None;
      if createBackups && p in disk.tree {
        backup := backups.CreateFileBackup(disk, p, JetBrainsPrefix + Name(p));
        if backup.Some? {
          CopyKeepsSource(old(disk.tree), p, backup.value);
        }
      }
    }

    /** `_process_jetbrains_id_file(p)`: a file whose directory `validate_path` rejects is
        refused untouched; otherwise the old identifier is read (best effort), an existing
        file is backed up as `jetbrains_<name>` when asked for, a fresh UUID is drawn, and the
        file is rewritten with it. */
    method ProcessIdFile(disk: Disk, p: Path, createBackups: bool, lockFiles: bool) returns (res: IdFileOutcome)
      requires disk.clock.Valid()
      modifies disk, entropy
      ensures !Safe(old(disk.tree), Parent(p)) ==>
        res == IdFileOutcome(false, None, None, None, Some(UnsafeFilePath)) && disk.tree == old(disk.tree)
      ensures Safe(old(disk.tree), Parent(p)) ==>
        res.oldId == OldIdOf(old(disk.tree), p) && res.newId.Some? && IsUuid4(res.newId.value) &&
        (res.success <==> IdFileWritable(old(disk.tree), p)) &&
        (!res.success ==> res.error == Some(FileOperationFailed))
      ensures res.success <==> res.error.None?
      ensures res.backupPath.Some? ==> (createBackups && IsFile(old(disk.tree), p) &&
        res.backupPath.value == backups.backupDir + [BackupName(JetBrainsPrefix + Name(p), Timestamp(disk.clock), BackupExtension)])
      ensures res.success ==> (IsFile(disk.tree, p) && disk.tree[p].entry.content == Content.Text(res.newId.value) &&
        (IsFileLocked(disk.tree, p) <==> lockFiles && disk.tree[p].owned))
      ensures Confined(old(disk.tree), disk.tree, {p}, backups.backupDir)
    {
      if !Safe(disk.tree, Parent(p)) {
        ConfinedWiden(disk.tree, disk.tree, {}, {p}, backups.backupDir);
        return IdFileOutcome(false, None, None, None, Some(UnsafeFilePath));
      }
      ghost var t0 := disk.tree;
      var oldId := OldIdOf(disk.tree, p);
      var backup := BackUpIdFile(disk, p, createBackups);
      ghost var t1 := disk.tree;
      assert IdFileWritable(t1, p) == IdFileWritable(t0, p);
      var id := GenerateUuid(entropy);
      var ok := RewriteIdFile(disk, p, id, lockFiles);
      ConfinedTrans(t0, t1, disk.tree, {}, {p}, backups.backupDir);
      assert {} + {p} == {p};
      res := IdFileOutcome(ok, backup, oldId, Some(id), if ok then None else Some(FileOperationFailed));
    }

    /** `_process_jetbrains_database_file(p)`: a path `validate_path` rejects is refused
        untouched (it also rejects a missing file); otherwise the file is backed up as
        `jetbrains_db_<name>` when asked for, and cleaned when its suffix names SQLite. */
    method ProcessDatabaseFile(disk: Disk, p: Path, createBackups: bool) returns (res: DbFileOutcome)
      requires disk.clock.Valid()
      modifies disk
      ensures !Safe(old(disk.tree), p) ==>
        res == DbFileOutcome(false, None, 0, Some(UnsafeDatabasePath)) && disk.tree == old(disk.tree)
      ensures res.success <==> Safe(old(disk.tree), p)
      ensures res.success <==> res.error.None?
      ensures res.backupPath.Some? ==> (createBackups &&
        res.backupPath.value == backups.backupDir + [BackupName(JetBrainsDbPrefix + Name(p), Timestamp(disk.clock), BackupExtension)])
      ensures var cleans := Safe(old(disk.tree), p) && IsSqliteSuffix(Name(p)) && IsValidSqliteDatabase(old(disk.tree), p);
        res.recordsCleaned == (if cleans then JetBrainsRowsRemoved(old(disk.tree), p) else 0) &&
        (cleans && CanModify(old(disk.tree), p) ==>
          IsFile(disk.tree, p) && disk.tree[p].entry.content == Db(JetBrainsCleaned(old(disk.tree)[p].entry.content.db)))
      ensures res.recordsCleaned == 0 && p in old(disk.tree) ==> p in disk.tree && disk.tree[p] == old(disk.tree)[p]
      ensures Confined(old(disk.tree), disk.tree, {p}, backups.backupDir)
    {
      if !Safe(disk.tree, p) {
        ConfinedWiden(disk.tree, disk.tree, {}, {p}, backups.backupDir);
        return DbFileOutcome(false, None, 0, Some(UnsafeDatabasePath));
      }
      ghost var t0 := disk.tree;
      var backup := BackUpDatabase(disk, p, createBackups);
      ghost var t1 := disk.tree;
      var n := CleanDatabaseFile(disk, p);
      ConfinedTrans(t0, t1, disk.tree, {}, {p}, backups.backupDir);
      assert {} + {p} == {p};
      res := DbFileOutcome(true, backup, n, None);
    }

    /** The backup step of `_process_jetbrains_database_file`: the file is copied as
        `jetbrains_db_<name>` when asked for, and the database itself is left as it was. */
    method BackUpDatabase(disk: Disk, p: Path, createBackups: bool) returns (backup: Option<Path>)
      requires disk.clock.Valid()
      modifies disk
      ensures backup.Some? ==> (createBackups &&
        backup.value == backups.backupDir + [BackupName(JetBrainsDbPrefix + Name(p), Timestamp(disk.clock), BackupExtension)])
      ensures (p in disk.tree <==> p in old(disk.tree)) && (p in old(disk.tree) ==> disk.tree[p] == old(disk.tree)[p])
      ensures IsValidSqliteDatabase(disk.tree, p) == IsValidSqliteDatabase(old(disk.tree), p)
      ensures CanModify(disk.tree, p) == CanModify(old(disk.tree), p)
      ensures Confined(old(disk.tree), disk.tree, {}, backups.backupDir)
    {
      backup := None;
      if createBackups {
        backup := backups.CreateFileBackup(disk, p, JetBrainsDbPrefix + Name(p));
        if backup.Some? {
          CopyKeepsCleaning(old(disk.tree), p, backup.value);
        }
      }
    }

    /** The cleaning step of `_process_jetbrains_database_file`: only a file whose suffix is
        `.db`, `.sqlite` or `.sqlite3` is cleaned. */
    method CleanDatabaseFile(disk: Disk, p: Path) returns (n: nat)
      modifies disk
      ensures var cleans := IsSqliteSuffix(Name(p)) && IsValidSqliteDatabase(old(disk.tree), p);
        n == (if cleans then JetBrainsRowsRemoved(old(disk.tree), p) else 0) &&
        (cleans && CanModify(old(disk.tree), p) ==>
          IsFile(disk.tree, p) && disk.tree[p].entry.content == Db(JetBrainsCleaned(old(disk.tree)[p].entry.content.db)))
      ensures n == 0 ==> disk.tree == old(disk.tree)
      ensures Confined(old(disk.tree), disk.tree, {p}, backups.backupDir)
    {
      n := 0;
      if IsSqliteSuffix(Name(p)) {
        n := CleanSqliteDatabase(disk, p);
      }
      if n > 0 {
        WriteFileConfined(old(disk.tree), p, Db(JetBrainsCleaned(old(disk.tree)[p].entry.content.db)), disk.now, backups.backupDir);
      } else {
        ConfinedWiden(disk.tree, disk.tree, {}, {p}, backups.backupDir);
      }
    }

    /** One turn of the identifier-file loop: the `i`-th file of `dir` is processed and its
        outcome folded in. `t0` is the tree the loop started from. */
    method TallyIdFile(disk: Disk, acc: JetBrainsResult, dir: Path, i: nat, createBackups: bool, lockFiles: bool,
                       ghost t0: Tree)
      returns (res: JetBrainsResult)
      requires disk.clock.Valid() && i < |IdFiles|
      requires IdTally(acc, IdFilePaths(dir)[..i])
      requires IdFilesWritten(t0, disk.tree, Safe(t0, dir), IdFilePaths(dir)[..i], acc)
      requires Confined(t0, disk.tree, Zones(IdFilePaths(dir)[..i]), backups.backupDir)
      modifies disk, entropy
      ensures IdTally(res, IdFilePaths(dir)[..i + 1])
      ensures IdFilesWritten(t0, disk.tree, Safe(t0, dir), IdFilePaths(dir)[..i + 1], res)
      ensures Confined(t0, disk.tree, Zones(IdFilePaths(dir)[..i + 1]), backups.backupDir)
    {
      var p := dir + [IdFiles[i]];
      var r := ProcessIdFile(disk, p, createBackups, lockFiles);
      IdFileTurn(t0, old(disk.tree), disk.tree, dir, i, acc, r, Safe(t0, dir), Safe(old(disk.tree), dir), backups.backupDir);
      res := AbsorbIdFile(acc, p, r);
    }

    /** The records `_process_jetbrains_database_file` reports for `p` when it finds the tree
        `t`: those cleaning removes from a SQLite database that `validate_path` accepts, and
        none otherwise. */
    ghost function FileRows(t: Tree, p: Path): int
      reads paths
    {
      if Safe(t, p) && IsSqliteSuffix(Name(p)) && IsValidSqliteDatabase(t, p) then JetBrainsRowsRemoved(t, p) else 0
    }

    /** The records of the listed `files`, each as it stands in `t`. */
    ghost function ListedRows(t: Tree, files: seq<Path>): int
      reads paths
      decreases |files|
    {
      if files == [] then 0 else ListedRows(t, files[..|files| - 1]) + FileRows(t, files[|files| - 1])
    }

    /** No listed file is a slot a backup could be written to. */
    predicate OutsideSlots(files: seq<Path>) {
      forall p :: p in files ==> !BackupSlot(backups.backupDir, p)
    }

    /** The `i`-th listed file reports the records it held before the loop: the earlier turns
        did not reach it. */
    lemma DbFileRowsKept(t0: Tree, t1: Tree, files: seq<Path>, i: nat)
      requires Unnested(files) && i < |files| && !BackupSlot(backups.backupDir, files[i])
      requires Confined(t0, t1, Zones(files[..i]), backups.backupDir)
      ensures FileRows(t1, files[i]) == FileRows(t0, files[i])
      ensures ListedRows(t0, files[..i + 1]) == ListedRows(t0, files[..i]) + FileRows(t0, files[i])
    {
      var p := files[i];
      forall z | z in Zones(files[..i])
        ensures !StartsWith(p, z)
      {
        var k :| 0 <= k < i && files[k] == z;
      }
      CleaningKept(t0, t1, Zones(files[..i]), backups.backupDir, p);
      assert Safe(t1, p) == Safe(t0, p);
      assert files[..i + 1][..i] == files[..i];
    }

    /** What the database loop leaves for the listed file `p`, from `t0` to `t`: it counts as
        processed exactly when `validate_path` accepts it (or `before` already held it), a
        SQLite database it could modify holds the cleaned rows, and a file it did not clean
        keeps its node. */
    ghost predicate DbFileCleaned(t0: Tree, t: Tree, p: Path, before: seq<Path>, res: JetBrainsResult)
      reads paths
    {
      (p in res.databasesProcessed <==> p in before || Safe(t0, p)) &&
      (Safe(t0, p) && IsSqliteSuffix(Name(p)) && IsValidSqliteDatabase(t0, p) && CanModify(t0, p) ==>
        IsFile(t, p) && t[p].entry.content == Db(JetBrainsCleaned(t0[p].entry.content.db))) &&
      (!(Safe(t0, p) && IsSqliteSuffix(Name(p)) && IsValidSqliteDatabase(t0, p)) && p in t0 ==>
        p in t && t[p] == t0[p])
    }

    /** `DbFileCleaned` for every listed file outside the backup slots. */
    ghost predicate DbFilesCleaned(t0: Tree, t: Tree, files: seq<Path>, before: seq<Path>, res: JetBrainsResult)
      reads paths
    {
      forall p :: p in files && !BackupSlot(backups.backupDir, p) ==> DbFileCleaned(t0, t, p, before, res)
    }

    /** The files worked through before the `i`-th keep what they hold while it is processed. */
    lemma DbFilesCleanedKept(t0: Tree, t1: Tree, t2: Tree, files: seq<Path>, i: nat, before: seq<Path>,
                             res: JetBrainsResult, res2: JetBrainsResult)
      requires Unnested(files) && i < |files|
      requires DbFilesCleaned(t0, t1, files[..i], before, res)
      requires Confined(t1, t2, {files[i]}, backups.backupDir)
      requires forall q :: q != files[i] ==> (q in res2.databasesProcessed <==> q in res.databasesProcessed)
      ensures DbFilesCleaned(t0, t2, files[..i], before, res2)
    {
      forall q | q in files[..i] && !BackupSlot(backups.backupDir, q)
        ensures DbFileCleaned(t0, t2, q, before, res2)
      {
        var k :| 0 <= k < i && files[k] == q;
        assert !StartsWith(q, files[i]);
        assert !Within({files[i]}, q);
        ConfinedKeeps(t1, t2, {files[i]}, backups.backupDir, q);
      }
    }

    /** The `i`-th file, processed from `t1` to `t2` with outcome `r`, is cleaned as it stood
        in `t0`, the tree before the loop: the earlier turns did not reach it. */
    lemma DbFileCleanedNew(t0: Tree, t1: Tree, t2: Tree, files: seq<Path>, i: nat, before: seq<Path>,
                           res: JetBrainsResult, r: DbFileOutcome)
      requires Unnested(files) && i < |files| && !BackupSlot(backups.backupDir, files[i])
      requires Confined(t0, t1, Zones(files[..i]), backups.backupDir)
      requires files[i] in res.databasesProcessed <==> files[i] in before
      requires r.success <==> Safe(t1, files[i])
      requires var p := files[i];
        var cleans := Safe(t1, p) && IsSqliteSuffix(Name(p)) && IsValidSqliteDatabase(t1, p);
        r.recordsCleaned == (if cleans then JetBrainsRowsRemoved(t1, p) else 0) &&
        (cleans && CanModify(t1, p) ==> IsFile(t2, p) && t2[p].entry.content == Db(JetBrainsCleaned(t1[p].entry.content.db)))
      requires r.recordsCleaned == 0 && files[i] in t1 ==> files[i] in t2 && t2[files[i]] == t1[files[i]]
      ensures DbFileCleaned(t0, t2, files[i], before, AbsorbDbFile(res, files[i], r))
    {
      var p := files[i];
      forall z | z in Zones(files[..i])
        ensures !StartsWith(p, z)
      {
        var k :| 0 <= k < i && files[k] == z;
      }
      CleaningKept(t0, t1, Zones(files[..i]), backups.backupDir, p);
      assert Safe(t1, p) == Safe(t0, p);
    }

    /** One turn of the database loop: the `i`-th file is processed and its outcome folded
        in. `t0` is the tree the loop started from. */
    method TallyDatabaseFile(disk: Disk, res0: JetBrainsResult, acc: JetBrainsResult, files: seq<Path>, i: nat,
                             createBackups: bool, ghost t0: Tree) returns (res: JetBrainsResult)
      requires disk.clock.Valid() && i < |files| && DbTally(res0, acc, files[..i])
      requires Confined(t0, disk.tree, Zones(files[..i]), backups.backupDir)
      requires Unnested(files) ==> DbFilesCleaned(t0, disk.tree, files[..i], acc.databasesProcessed, res0)
      requires forall q :: q !in files[..i] ==> (q in res0.databasesProcessed <==> q in acc.databasesProcessed)
      requires Unnested(files) && OutsideSlots(files) ==>
        res0.recordsCleaned == acc.recordsCleaned + ListedRows(t0, files[..i])
      modifies disk
      ensures DbTally(res, acc, files[..i + 1])
      ensures Unnested(files) && OutsideSlots(files) ==>
        res.recordsCleaned == acc.recordsCleaned + ListedRows(t0, files[..i + 1])
      ensures Confined(t0, disk.tree, Zones(files[..i + 1]), backups.backupDir)
      ensures Unnested(files) ==> DbFilesCleaned(t0, disk.tree, files[..i + 1], acc.databasesProcessed, res)
      ensures forall q :: q !in files[..i + 1] ==> (q in res.databasesProcessed <==> q in acc.databasesProcessed)
    {
      var p := files[i];
      assert files[..i + 1] == files[..i] + [p];
      var r := ProcessDatabaseFile(disk, p, createBackups);
      DbTallyStep(res0, acc, files[..i], p, r);
      res := AbsorbDbFile(res0, p, r);
      ConfinedTrans(t0, old(disk.tree), disk.tree, Zones(files[..i]), {p}, backups.backupDir);
      assert Zones(files[..i]) + {p} == Zones(files[..i + 1]);
      if Unnested(files) {
        DbFileTurn(t0, old(disk.tree), disk.tree, files, i, acc.databasesProcessed, res0, r);
        if OutsideSlots(files) {
          DbFileRowsKept(t0, old(disk.tree), files, i);
        }
      }
    }

    /** The database loop's promise survives the `i`-th file's turn from `t1` to `t2`. */
    lemma DbFileTurn(t0: Tree, t1: Tree, t2: Tree, files: seq<Path>, i: nat, before: seq<Path>,
                     res: JetBrainsResult, r: DbFileOutcome)
      requires Unnested(files) && i < |files|
      requires Confined(t0, t1, Zones(files[..i]), backups.backupDir) && Confined(t1, t2, {files[i]}, backups.backupDir)
      requires DbFilesCleaned(t0, t1, files[..i], before, res)
      requires forall q :: q !in files[..i] ==> (q in res.databasesProcessed <==> q in before)
      requires r.success <==> Safe(t1, files[i])
      requires var p := files[i];
        var cleans := Safe(t1, p) && IsSqliteSuffix(Name(p)) && IsValidSqliteDatabase(t1, p);
        r.recordsCleaned == (if cleans then JetBrainsRowsRemoved(t1, p) else 0) &&
        (cleans && CanModify(t1, p) ==> IsFile(t2, p) && t2[p].entry.content == Db(JetBrainsCleaned(t1[p].entry.content.db)))
      requires r.recordsCleaned == 0 && files[i] in t1 ==> files[i] in t2 && t2[files[i]] == t1[files[i]]
      ensures DbFilesCleaned(t0, t2, files[..i + 1], before, AbsorbDbFile(res, files[i], r))
    {
      var p := files[i];
      var res2 := AbsorbDbFile(res, p, r);
      assert files[..i + 1] == files[..i] + [p];
      DbFilesCleanedKept(t0, t1, t2, files, i, before, res, res2);
      if !BackupSlot(backups.backupDir, p) {
        assert p !in files[..i] by {
          forall k | 0 <= k < i ensures files[k] != p {
            assert !StartsWith(p, files[k]);
          }
        }
        DbFileCleanedNew(t0, t1, t2, files, i, before, res, r);
      }
    }

    /** The loop of `process_jetbrains_ides` over the identifier files `files`. */
    method ProcessIdFiles(disk: Disk, dir: Path, createBackups: bool, lockFiles: bool) returns (res: JetBrainsResult)
      requires disk.clock.Valid()
      modifies disk, entropy
      ensures var files := IdFilePaths(dir);
        |res.filesProcessed| + |res.filesFailed| == |files| &&
        (forall p :: p in files <==> p in res.filesProcessed || p in res.filesFailed) &&
        (forall p :: !(p in res.filesProcessed && p in res.filesFailed))
      ensures IdFilesWritten(old(disk.tree), disk.tree, Safe(old(disk.tree), dir), IdFilePaths(dir), res)
      ensures res.newIds.Keys == (set p | p in res.filesProcessed :: Name(p)) && res.oldIds.Keys <= res.newIds.Keys
      ensures forall k :: k in res.newIds ==> IsUuid4(res.newIds[k])
      ensures |res.errors| == |res.filesFailed| && |res.backups| <= |res.filesProcessed|
      ensures res.found && !res.success && res.databasesProcessed == [] && res.databasesFailed == [] && res.recordsCleaned == 0
      ensures Confined(old(disk.tree), disk.tree, Zones(IdFilePaths(dir)), backups.backupDir)
    {
      var files := IdFilePaths(dir);
      res := JetBrainsResult(false, true, [], [], [], [], [], map[], map[], 0, []);
      var i := 0;
      while i < |files|
        invariant 0 <= i <= |files|
        invariant IdTally(res, files[..i])
        invariant IdFilesWritten(old(disk.tree), disk.tree, Safe(old(disk.tree), dir), files[..i], res)
        invariant Confined(old(disk.tree), disk.tree, Zones(files[..i]), backups.backupDir)
      {
        res := TallyIdFile(disk, res, dir, i, createBackups, lockFiles, old(disk.tree));
        i := i + 1;
      }
      assert files[..i] == files;
    }

    /** The loop of `process_jetbrains_ides` over the databases found, folded into `acc`. */
    method ProcessDatabaseFiles(disk: Disk, files: seq<Path>, acc: JetBrainsResult, createBackups: bool)
      returns (res: JetBrainsResult)
      requires disk.clock.Valid()
      modifies disk
      ensures SameIdPart(res, acc)
      ensures |res.databasesProcessed| + |res.databasesFailed| == |acc.databasesProcessed| + |acc.databasesFailed| + |files|
      ensures forall p :: p in res.databasesProcessed || p in res.databasesFailed <==>
        p in acc.databasesProcessed || p in acc.databasesFailed || p in files
      ensures |res.errors| - |acc.errors| == |res.databasesFailed| - |acc.databasesFailed|
      ensures |res.backups| - |acc.backups| <= |res.databasesProcessed| - |acc.databasesProcessed|
      ensures res.recordsCleaned >= acc.recordsCleaned
      ensures Unnested(files) && OutsideSlots(files) ==>
        res.recordsCleaned == acc.recordsCleaned + ListedRows(old(disk.tree), files)
      ensures Unnested(files) ==> DbFilesCleaned(old(disk.tree), disk.tree, files, acc.databasesProcessed, res)
      ensures forall q :: q !in files ==> (q in res.databasesProcessed <==> q in acc.databasesProcessed)
      ensures Confined(old(disk.tree), disk.tree, Zones(files), backups.backupDir)
    {
      res := acc;
      var i := 0;
      while i < |files|
        invariant 0 <= i <= |files|
        invariant DbTally(res, acc, files[..i])
        invariant Confined(old(disk.tree), disk.tree, Zones(files[..i]), backups.backupDir)
        invariant Unnested(files) ==> DbFilesCleaned(old(disk.tree), disk.tree, files[..i], acc.databasesProcessed, res)
        invariant forall q :: q !in files[..i] ==> (q in res.databasesProcessed <==> q in acc.databasesProcessed)
        invariant Unnested(files) && OutsideSlots(files) ==>
          res.recordsCleaned == acc.recordsCleaned + ListedRows(old(disk.tree), files[..i])
      {
        res := TallyDatabaseFile(disk, res, acc, files, i, createBackups, old(disk.tree));
        i := i + 1;
      }
      assert files[..i] == files;
    }

    /** The database half of `process_jetbrains_ides`: the databases below the cached
        configuration directory are listed, then each is processed and folded into `acc`. */
    method CleanListedDatabases(disk: Disk, acc: JetBrainsResult, createBackups: bool)
      returns (res: JetBrainsResult, ghost dbFiles: seq<Path>)
      requires disk.clock.Valid() && paths.jetbrainsDir.Some?
      modifies disk, paths`jetbrainsDir
      ensures paths.jetbrainsDir == old(paths.jetbrainsDir)
      ensures var dir := paths.jetbrainsDir.value;
        forall q :: q in dbFiles <==>
          (dir in old(disk.tree) && IsFile(old(disk.tree), q) && Reachable(old(disk.tree), dir, q) && IsDatabaseName(Name(q)))
      ensures Unnested(dbFiles)
      ensures DbFilesCleaned(old(disk.tree), disk.tree, dbFiles, acc.databasesProcessed, res)
      ensures SameIdPart(res, acc)
      ensures |res.databasesProcessed| + |res.databasesFailed| == |acc.databasesProcessed| + |acc.databasesFailed| + |dbFiles|
      ensures forall p :: p in res.databasesProcessed || p in res.databasesFailed <==>
        p in acc.databasesProcessed || p in acc.databasesFailed || p in dbFiles
      ensures |res.errors| - |acc.errors| == |res.databasesFailed| - |acc.databasesFailed|
      ensures OutsideSlots(dbFiles) ==> res.recordsCleaned == acc.recordsCleaned + ListedRows(old(disk.tree), dbFiles)
      ensures Confined(old(disk.tree), disk.tree, Zones(dbFiles), backups.backupDir)
    {
      var found := paths.GetJetBrainsDatabaseFiles(disk.tree);
      dbFiles := found;
      res := ProcessDatabaseFiles(disk, found, acc, createBackups);
    }

    /** `process_jetbrains_ides`: no configuration directory is an error and touches nothing;
        otherwise every identifier file is rewritten, then, when asked for, every database
        below the directory is cleaned, and the run succeeds when any file or database was
        processed. `idFiles` and `dbFiles` are the listings the run worked through and `mid`
        the tree between the two passes, which the database listing reads. */
    method ProcessJetbrainsIdes(disk: Disk, createBackups: bool, lockFiles: bool, cleanDatabases: bool)
      returns (res: JetBrainsResult, ghost idFiles: seq<Path>, ghost dbFiles: seq<Path>, ghost mid: Tree)
      requires disk.clock.Valid()
      modifies disk, entropy, paths`jetbrainsDir
      ensures var dir := JetBrainsConfigDir(old(paths.jetbrainsDir), old(disk.tree), paths.platformPaths);
        dir.None? ==> res == NotFound && disk.tree == old(disk.tree) && idFiles == [] && dbFiles == []
      ensures var dir := JetBrainsConfigDir(old(paths.jetbrainsDir), old(disk.tree), paths.platformPaths);
        dir.Some? ==> (res.found && idFiles == IdFilePaths(dir.value) &&
          |res.errors| == |res.filesFailed| + |res.databasesFailed| &&
          IdFilesWritten(old(disk.tree), mid, Safe(old(disk.tree), dir.value), idFiles, res) &&
          forall q :: q in dbFiles ==> IsDatabaseName(Name(q)) && |dir.value| < |q| && StartsWith(q, dir.value))
      ensures var dir := JetBrainsConfigDir(old(paths.jetbrainsDir), old(disk.tree), paths.platformPaths);
        dir.Some? && cleanDatabases ==>
          (forall q :: q in dbFiles <==>
            (dir.value in mid && IsFile(mid, q) && Reachable(mid, dir.value, q) && IsDatabaseName(Name(q)))) &&
          DbFilesCleaned(mid, disk.tree, dbFiles, [], res)
      ensures cleanDatabases && OutsideSlots(dbFiles) ==> res.recordsCleaned == ListedRows(mid, dbFiles)
      ensures !cleanDatabases ==>
        dbFiles == [] && res.databasesProcessed == [] && res.recordsCleaned == 0 && disk.tree == mid
      ensures res.success <==> res.filesProcessed != [] || res.databasesProcessed != []
      ensures |res.filesProcessed| + |res.filesFailed| == |idFiles| &&
        forall p :: p in idFiles <==> p in res.filesProcessed || p in res.filesFailed
      ensures |res.databasesProcessed| + |res.databasesFailed| == |dbFiles| &&
        forall p :: p in dbFiles <==> p in res.databasesProcessed || p in res.databasesFailed
      ensures res.newIds.Keys == (set p | p in res.filesProcessed :: Name(p)) && res.oldIds.Keys <= res.newIds.Keys
      ensures forall k :: k in res.newIds ==> IsUuid4(res.newIds[k])
      ensures Confined(old(disk.tree), mid, Zones(idFiles), backups.backupDir)
      ensures Confined(mid, disk.tree, Zones(dbFiles), backups.backupDir)
      ensures Confined(old(disk.tree), disk.tree, Zones(idFiles) + Zones(dbFiles), backups.backupDir)
    {
      var dir := paths.GetJetBrainsConfigDir(disk.tree);
      idFiles, dbFiles, mid := [], [], disk.tree;
      if dir.None? {
        ConfinedWiden(disk.tree, disk.tree, {}, {}, backups.backupDir);
        return NotFound, idFiles, dbFiles, mid;
      }
      var listed := paths.GetJetBrainsIdFiles(disk.tree);
      idFiles := listed;
      res, dbFiles, mid := RunPasses(disk, dir.value, createBackups, lockFiles, cleanDatabases);
    }

    /** The two passes of `process_jetbrains_ides` over the configuration directory `dir`,
        which the path manager has cached: the identifier files, then, when asked for, the
        databases the listing finds in `mid`, the tree the first pass leaves. */
    method RunPasses(disk: Disk, dir: Path, createBackups: bool, lockFiles: bool, cleanDatabases: bool)
      returns (res: JetBrainsResult, ghost dbFiles: seq<Path>, ghost mid: Tree)
      requires disk.clock.Valid() && paths.jetbrainsDir == Some(dir)
      modifies disk, entropy, paths`jetbrainsDir
      ensures paths.jetbrainsDir == Some(dir)
      ensures res.found && |res.errors| == |res.filesFailed| + |res.databasesFailed|
      ensures IdFilesWritten(old(disk.tree), mid, Safe(old(disk.tree), dir), IdFilePaths(dir), res)
      ensures forall q :: q in dbFiles ==> IsDatabaseName(Name(q)) && |dir| < |q| && StartsWith(q, dir)
      ensures cleanDatabases ==>
        (forall q :: q in dbFiles <==> (dir in mid && IsFile(mid, q) && Reachable(mid, dir, q) && IsDatabaseName(Name(q)))) &&
        DbFilesCleaned(mid, disk.tree, dbFiles, [], res)
      ensures cleanDatabases && OutsideSlots(dbFiles) ==> res.recordsCleaned == ListedRows(mid, dbFiles)
      ensures !cleanDatabases ==>
        dbFiles == [] && res.databasesProcessed == [] && res.recordsCleaned == 0 && disk.tree == mid
      ensures res.success <==> res.filesProcessed != [] || res.databasesProcessed != []
      ensures |res.filesProcessed| + |res.filesFailed| == |IdFilePaths(dir)| &&
        forall p :: p in IdFilePaths(dir) <==> p in res.filesProcessed || p in res.filesFailed
      ensures |res.databasesProcessed| + |res.databasesFailed| == |dbFiles| &&
        forall p :: p in dbFiles <==> p in res.databasesProcessed || p in res.databasesFailed
      ensures res.newIds.Keys == (set p | p in res.filesProcessed :: Name(p)) && res.oldIds.Keys <= res.newIds.Keys
      ensures forall k :: k in res.newIds ==> IsUuid4(res.newIds[k])
      ensures Confined(old(disk.tree), mid, Zones(IdFilePaths(dir)), backups.backupDir)
      ensures Confined(mid, disk.tree, Zones(dbFiles), backups.backupDir)
      ensures Confined(old(disk.tree), disk.tree, Zones(IdFilePaths(dir)) + Zones(dbFiles), backups.backupDir)
    {
      var idRes := ProcessIdFiles(disk, dir, createBackups, lockFiles);
      mid := disk.tree;
      res, dbFiles := DatabasePass(disk, idRes, createBackups, cleanDatabases);
      ConfinedTrans(old(disk.tree), mid, disk.tree, Zones(IdFilePaths(dir)), Zones(dbFiles), backups.backupDir);
    }

    /** The second pass of `process_jetbrains_ides` over the report `acc` of the first, which
        holds no database yet, and the run's verdict. */
    method DatabasePass(disk: Disk, acc: JetBrainsResult, createBackups: bool, cleanDatabases: bool)
      returns (res: JetBrainsResult, ghost dbFiles: seq<Path>)
      requires disk.clock.Valid() && paths.jetbrainsDir.Some?
      requires acc.databasesProcessed == [] && acc.databasesFailed == [] && acc.recordsCleaned == 0
      modifies disk, paths`jetbrainsDir
      ensures paths.jetbrainsDir == old(paths.jetbrainsDir)
      ensures res.found == acc.found && res.filesProcessed == acc.filesProcessed && res.filesFailed == acc.filesFailed
      ensures res.newIds == acc.newIds && res.oldIds == acc.oldIds
      ensures |res.errors| == |acc.errors| + |res.databasesFailed|
      ensures var dir := paths.jetbrainsDir.value;
        cleanDatabases ==>
          (forall q :: q in dbFiles <==>
            (dir in old(disk.tree) && IsFile(old(disk.tree), q) && Reachable(old(disk.tree), dir, q) && IsDatabaseName(Name(q)))) &&
          DbFilesCleaned(old(disk.tree), disk.tree, dbFiles, [], res)
      ensures cleanDatabases && OutsideSlots(dbFiles) ==> res.recordsCleaned == ListedRows(old(disk.tree), dbFiles)
      ensures !cleanDatabases ==>
        dbFiles == [] && res.databasesProcessed == [] && res.recordsCleaned == 0 && disk.tree == old(disk.tree)
      ensures res.success <==> res.filesProcessed != [] || res.databasesProcessed != []
      ensures |res.databasesProcessed| + |res.databasesFailed| == |dbFiles| &&
        forall p :: p in dbFiles <==> p in res.databasesProcessed || p in res.databasesFailed
      ensures Confined(old(disk.tree), disk.tree, Zones(dbFiles), backups.backupDir)
    {
      res, dbFiles := acc, [];
      if cleanDatabases {
        res, dbFiles := CleanListedDatabases(disk, acc, createBackups);
      } else {
        ConfinedWiden(disk.tree, disk.tree, {}, Zones(dbFiles), backups.backupDir);
      }
      res := res.(success := res.filesProcessed != [] || res.databasesProcessed != []);
    }

    /** `verify_jetbrains_installation`: whether a configuration directory exists, its
        identifier files, and which of them exist and which are missing, in order. */
    method VerifyJetbrainsInstallation(t: Tree) returns (info: Installation)
      modifies paths`jetbrainsDir
      ensures var dir := JetBrainsConfigDir(old(paths.jetbrainsDir), t, paths.platformPaths);
        info.installed == dir.Some? && info.configDir == dir &&
        info.idFiles == (if dir.None? then [] else IdFilePaths(dir.value)) &&
        info.existing == Existing(t, info.idFiles) && info.missing == Missing(t, info.idFiles)
    {
      var dir := paths.GetJetBrainsConfigDir(t);
      info := Installation(false, None, [], [], []);
      if dir.None? {
        return;
      }
      var files := paths.GetJetBrainsIdFiles(t);
      info := Installation(true, dir, files, [], []);
      var i := 0;
      while i < |files|
        invariant 0 <= i <= |files| && info.installed && info.configDir == dir && info.idFiles == files
        invariant info.existing == Existing(t, files[..i]) && info.missing == Missing(t, files[..i])
      {
        ExistingMissingSnoc(t, files[..i], files[i]);
        assert files[..i + 1] == files[..i] + [files[i]];
        if files[i] in t {
          info := info.(existing := info.existing + [files[i]]);
        } else {
          info := info.(missing := info.missing + [files[i]]);
        }
        i := i + 1;
      }
      assert files[..i] == files;
    }
  }
}
