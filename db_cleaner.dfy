/** The database cleaner: every SQLite database the discovery finds is backed up and purged
    of rows whose text-typed columns match the cleaning patterns, a `.backup` sibling is purged
    the same way, and the per-database outcomes are tallied. */
module DbCleaner {
  import opened Common
  import opened Fs
  import opened Sqlite
  import opened Settings
  import opened Paths
  import opened Backup

  /** The patterns used when the JetBrains ones are not asked for. */
  const DefaultPatterns: seq<string> := ["%augment%", "%Augment%", "%AUGMENT%", "%device%", "%machine%", "%telemetry%"]

  /** The declared column types (upper-cased) whose columns are searched. */
  const TextTypes: seq<string> := ["TEXT", "VARCHAR", "CHAR", "BLOB"]

  function CleaningPatterns(jetbrains: bool): (r: seq<string>)
    ensures jetbrains ==> r == JetBrainsAugmentPatterns
    ensures !jetbrains ==> r == DefaultPatterns
  {
    if jetbrains then JetBrainsAugmentPatterns else DefaultPatterns
  }

  /** Every cleaning pattern is a `%x%` substring pattern, so LIKE with it is an ASCII
      case-insensitive containment test. */
  lemma PatternsAreContains(jetbrains: bool, i: nat)
    requires i < |CleaningPatterns(jetbrains)|
    ensures IsContainsPattern(CleaningPatterns(jetbrains)[i])
  {
    var p := CleaningPatterns(jetbrains)[i];
    var inner := p[1..|p| - 1];
    forall k | 0 <= k < |inner| ensures inner[k] != '%' && inner[k] != '_' {
      assert inner[k] == p[k + 1];
    }
  }

  // ----- the header test -----

  const SqliteHeader: string := "SQLite format 3\0"

  /** `f.read(16).startswith(b'SQLite format 3\x00')` for the content of a file. */
  predicate HasSqliteHeader(c: Content) {
    match c
    case Db(_) => true
    case Bytes(bs) => |bs| >= 16 && forall i :: 0 <= i < 16 ==> bs[i] == SqliteHeader[i] as int
    case Text(s) => StartsWith(s, SqliteHeader)
    case _ => false
  }

  /** The header check alone: a readable file whose first 16 bytes are the SQLite header. */
  predicate HeaderCheck(t: Tree, p: Path): (ok: bool)
    ensures ok ==> IsFile(t, p) && t[p].readable
    ensures ok && t[p].entry.content.Bytes? ==> |t[p].entry.content.bytes| >= 16
    ensures IsFile(t, p) && t[p].readable && t[p].entry.content.Db? ==> ok
  {
    IsFile(t, p) && t[p].readable && HasSqliteHeader(t[p].entry.content)
  }

  /** `_is_valid_sqlite_database`: the header check, and SQLite then opens it and lists its
      tables without error. */
  predicate IsValidSqliteDatabase(t: Tree, p: Path): (valid: bool)
    ensures valid <==> IsFile(t, p) && t[p].readable && t[p].entry.content.Db?
  {
    HeaderCheck(t, p) && t[p].entry.content.Db?
  }

  /** A file SQLite can delete rows from: a writable file in an existing directory. On any
      other file every DELETE fails, is logged and skipped, and nothing is counted. */
  predicate CanModify(t: Tree, p: Path) {
    CanWrite(t, p)
  }

  // ----- one table -----

  /** No row selected means no row deleted. */
  lemma {:induction false} NoHitsKeepsAll(rows: seq<Row>, clauses: seq<Clause>)
    requires CountHits(rows, clauses) == 0
    ensures Survivors(rows, clauses) == rows
  {
    if rows != [] {
      NoHitsKeepsAll(rows[1..], clauses);
    }
  }

  /** Deleting by `a` and then by `b` is deleting by `a + b`. */
  lemma {:induction false} SurvivorsCompose(rows: seq<Row>, a: seq<Clause>, b: seq<Clause>)
    ensures Survivors(Survivors(rows, a), b) == Survivors(rows, a + b)
    decreases |b|
  {
    if b == [] {
      assert a + b == a;
      SurvivorsAll(Survivors(rows, a), b);
    } else {
      var init := b[..|b| - 1];
      var c := b[|b| - 1];
      assert b == init + [c];
      assert a + b == (a + init) + [c];
      SurvivorsCompose(rows, a, init);
      SurvivorsStep(Survivors(rows, a), init, c);
      SurvivorsStep(rows, a + init, c);
    }
  }

  /** The inner loop of `_clean_table_records` for one column: each pattern in turn counts
      the matching rows and, when there are any, deletes them. */
  method CleanColumn(rows: seq<Row>, column: string, patterns: seq<string>)
    returns (kept: seq<Row>, deleted: nat)
    ensures kept == Survivors(rows, ColumnClauses(column, patterns))
    ensures deleted + |kept| == |rows|
  {
    kept := rows;
    deleted := 0;
    SurvivorsAll(rows, []);
    var j := 0;
    while j < |patterns|
      invariant 0 <= j <= |patterns|
      invariant kept == Survivors(rows, ColumnClauses(column, patterns[..j]))
      invariant deleted + |kept| == |rows|
    {
      var clause := (column, patterns[j]);
      ColumnClausesSnoc(column, patterns, j);
      var count := CountHits(kept, [clause]);
      SurvivorsStep(rows, ColumnClauses(column, patterns[..j]), clause);
      if count > 0 {
        CountPlusSurvivors(kept, [clause]);
        kept := Survivors(kept, [clause]);
        deleted := deleted + count;
      } else {
        NoHitsKeepsAll(kept, [clause]);
      }
      j := j + 1;
    }
    assert patterns[..j] == patterns;
  }

  /** `_clean_table_records`: for each text-typed column and each pattern in turn, count the
      matching rows and, when there are any, delete them; the answer sums the counts. When the
      database is read-only every DELETE fails and is skipped, so nothing goes. */
  method CleanTableRecords(t: Table, types: seq<string>, patterns: seq<string>, canModify: bool) returns (cleaned: Table, deleted: nat)
    ensures cleaned == if canModify then CleanedTable(t, types, patterns) else t
    ensures deleted == |t.rows| - |cleaned.rows|
  {
    if !canModify {
      return t, 0;
    }
    var columns := TextColumns(t.columns, types);
    var rows := t.rows;
    deleted := 0;
    SurvivorsAll(t.rows, []);
    var i := 0;
    while i < |columns|
      invariant 0 <= i <= |columns|
      invariant rows == Survivors(t.rows, Clauses(columns[..i], patterns))
      invariant deleted + |rows| == |t.rows|
    {
      var kept, n := CleanColumn(rows, columns[i], patterns);
      SurvivorsCompose(t.rows, Clauses(columns[..i], patterns), ColumnClauses(columns[i], patterns));
      ClausesSnoc(columns, i, patterns);
      rows, deleted := kept, deleted + n;
      i := i + 1;
    }
    assert columns[..i] == columns;
    cleaned := t.(rows := rows);
  }

  // ----- one database -----

  function CleanedTables(tables: seq<Table>, types: seq<string>, patterns: seq<string>): (r: seq<Table>)
    ensures |r| == |tables| && forall i :: 0 <= i < |r| ==> r[i] == CleanedTable(tables[i], types, patterns)
  {
    seq(|tables|, i requires 0 <= i < |tables| => CleanedTable(tables[i], types, patterns))
  }

  lemma CleanedTablesSnoc(tables: seq<Table>, t: Table, types: seq<string>, patterns: seq<string>)
    ensures CleanedTables(tables + [t], types, patterns) == CleanedTables(tables, types, patterns) + [CleanedTable(t, types, patterns)]
  {
  }

  /** What `_execute_database_cleaning` leaves in a writable database: every table cleaned. */
  function CleanedDatabase(db: Database, types: seq<string>, patterns: seq<string>): Database {
    Database(CleanedTables(db.tables, types, patterns))
  }

  lemma {:induction false} TotalRowsSnoc(tables: seq<Table>, t: Table)
    ensures TotalRows(tables + [t]) == TotalRows(tables) + |t.rows|
    decreases |tables|
  {
    if tables == [] {
      assert [] + [t] == [t];
    } else {
      assert (tables + [t])[1..] == tables[1..] + [t];
      TotalRowsSnoc(tables[1..], t);
    }
  }

  /** After cleaning, no row of any table has a text-typed column matching a pattern, every
      kept row was there before, and cleaning again changes nothing. */
  lemma CleanedDatabaseSpec(db: Database, types: seq<string>, patterns: seq<string>, i: nat, r: Row)
    requires i < |db.tables|
    ensures var t := db.tables[i];
      r in CleanedDatabase(db, types, patterns).tables[i].rows <==>
      r in t.rows && forall c, p :: c in TextColumns(t.columns, types) && p in patterns ==> !Like(Cell(r, c), p)
    ensures CleanedDatabase(CleanedDatabase(db, types, patterns), types, patterns) == CleanedDatabase(db, types, patterns)
  {
    CleanedTableSpec(db.tables[i], types, patterns, r);
    var once := CleanedDatabase(db, types, patterns);
    forall k | 0 <= k < |db.tables|
      ensures CleanedTable(once.tables[k], types, patterns) == once.tables[k]
    {
      CleanedTableSpec(db.tables[k], types, patterns, r);
    }
  }

  /** The loop of `_execute_database_cleaning` over the tables `sqlite_master` lists: each is
      cleaned and the deletions are summed. */
  method CleanTables(db: Database, types: seq<string>, patterns: seq<string>, canModify: bool) returns (cleaned: Database, total: nat)
    ensures cleaned == if canModify then CleanedDatabase(db, types, patterns) else db
    ensures total == TotalRows(db.tables) - TotalRows(cleaned.tables)
  {
    var tables: seq<Table> := [];
    total := 0;
    var i := 0;
    while i < |db.tables|
      invariant 0 <= i <= |db.tables|
      invariant tables == if canModify then CleanedTables(db.tables[..i], types, patterns) else db.tables[..i]
      invariant total + TotalRows(tables) == TotalRows(db.tables[..i])
    {
      var t, n := CleanTableRecords(db.tables[i], types, patterns, canModify);
      TakeSnoc(db.tables, i);
      CleanedTablesSnoc(db.tables[..i], db.tables[i], types, patterns);
      TotalRowsSnoc(db.tables[..i], db.tables[i]);
      TotalRowsSnoc(tables, t);
      tables := tables + [t];
      total := total + n;
      i := i + 1;
    }
    assert db.tables[..i] == db.tables;
    cleaned := Database(tables);
  }

  /** Deleting never adds rows. */
  lemma {:induction false} CleanedTablesShrink(tables: seq<Table>, types: seq<string>, patterns: seq<string>)
    ensures TotalRows(CleanedTables(tables, types, patterns)) <= TotalRows(tables)
    decreases |tables|
  {
    if tables != [] {
      var c := CleanedTables(tables, types, patterns);
      assert c[1..] == CleanedTables(tables[1..], types, patterns);
      CleanedTablesShrink(tables[1..], types, patterns);
    }
  }

  /** A row list the clauses leave at full length is left as it was. */
  lemma {:induction false} SurvivorsFull(rows: seq<Row>, clauses: seq<Clause>)
    requires |Survivors(rows, clauses)| == |rows|
    ensures Survivors(rows, clauses) == rows
  {
    if rows != [] {
      assert |Survivors(rows[1..], clauses)| <= |rows| - 1;
      assert !Hits(rows[0], clauses);
      SurvivorsFull(rows[1..], clauses);
    }
  }

  /** A cleaning pass that removes no row leaves every table as it was. */
  lemma {:induction false} NoneRemovedTables(tables: seq<Table>, types: seq<string>, patterns: seq<string>)
    requires TotalRows(CleanedTables(tables, types, patterns)) == TotalRows(tables)
    ensures CleanedTables(tables, types, patterns) == tables
    decreases |tables|
  {
    if tables != [] {
      var c := CleanedTables(tables, types, patterns);
      assert c[1..] == CleanedTables(tables[1..], types, patterns);
      CleanedTablesShrink(tables[1..], types, patterns);
      var clauses := Clauses(TextColumns(tables[0].columns, types), patterns);
      assert c[0].rows == Survivors(tables[0].rows, clauses);
      assert |c[0].rows| == |tables[0].rows|;
      SurvivorsFull(tables[0].rows, clauses);
      NoneRemovedTables(tables[1..], types, patterns);
      assert c == [c[0]] + c[1..];
    }
  }

  // ----- one file and its `.backup` sibling -----

  /** An empty file, which SQLite opens as a database without tables. */
  predicate IsEmptyFile(c: Content) {
    c == Content.Text("") || c == Content.Bytes([])
  }

  /** `sqlite3.connect(p)` and the `sqlite_master` query succeed: a readable file holding a
      database, or an empty one. */
  predicate Opens(t: Tree, p: Path) {
    IsFile(t, p) && t[p].readable && (t[p].entry.content.Db? || IsEmptyFile(t[p].entry.content))
  }

  /** The database a file that opens holds. */
  function Stored(c: Content): (db: Database)
    ensures c.Db? ==> db == c.db
    ensures !c.Db? ==> db.tables == []
  {
    if c.Db? then c.db else Database([])
  }

  /** The rows a pass removes from the database in `p`: none when it cannot be modified. */
  function RowsRemoved(t: Tree, p: Path, types: seq<string>, patterns: seq<string>): (n: int)
    requires IsFile(t, p)
  {
    var db := Stored(t[p].entry.content);
    if CanModify(t, p) then TotalRows(db.tables) - TotalRows(CleanedDatabase(db, types, patterns).tables) else 0
  }

  /** `db_file.with_suffix(db_file.suffix + ".backup")`. */
  function BackupSibling(p: Path): (s: Path)
    requires Name(p) != ""
    ensures s == Parent(p) + [Name(p) + ".backup"]
  {
    StemSuffix(Name(p));
    assert Stem(Name(p)) + (Suffix(Name(p)) + ".backup") == (Stem(Name(p)) + Suffix(Name(p))) + ".backup";
    Parent(p) + [WithSuffix(Name(p), Suffix(Name(p)) + ".backup")]
  }

  /** `q` is a later member of the `.backup` chain that starts at `p`: a file of the same
      directory whose name extends `p`'s. */
  predicate Below(p: Path, q: Path) {
    Parent(q) == Parent(p) && |Name(p)| < |Name(q)| && StartsWith(Name(q), Name(p))
  }

  lemma BelowSibling(p: Path, q: Path)
    requires Name(p) != "" && Below(BackupSibling(p), q)
    ensures Below(p, q)
  {
    var s := Name(BackupSibling(p));
    assert Name(q)[..|Name(p)|] == Name(q)[..|s|][..|Name(p)|];
  }

  /** The chain members present in `t`: they shrink along the chain, which is why the
      recursion of `_execute_database_cleaning` stops. */
  function Chain(t: Tree, p: Path): set<Path> {
    set q | q in t && Below(p, q)
  }

  /** The `.backup` sibling of a present `p` has fewer chain members present than `p`. */
  lemma ChainShrinks(t: Tree, p: Path)
    requires Name(p) != "" && BackupSibling(p) in t
    ensures Chain(t, BackupSibling(p)) < Chain(t, p)
  {
    var sibling := BackupSibling(p);
    forall q | q in Chain(t, sibling) ensures q in Chain(t, p) {
      BelowSibling(p, q);
    }
    assert sibling in Chain(t, p) && sibling !in Chain(t, sibling);
  }

  /** `q` is a `.backup` file after `p` in its chain, as its name shows. */
  predicate BackupOf(p: Path, q: Path) {
    Below(p, q) && EndsWith(Name(q), ".backup")
  }

  /** The members of the `.backup` chain from `p` that `_execute_database_cleaning` opens
      and cleans: `p` when SQLite opens it, then, when its sibling exists, those from the
      sibling on. */
  ghost function Reached(t: Tree, p: Path): set<Path>
    decreases Chain(t, p)
  {
    if !Opens(t, p) then {}
    else if Name(p) == "" || BackupSibling(p) !in t then {p}
    else (ChainShrinks(t, p); {p} + Reached(t, BackupSibling(p)))
  }

  /** No step of the recursion from `p` raises: every member reached opens and has a name
      `with_suffix` accepts. */
  ghost predicate ChainOpens(t: Tree, p: Path)
    decreases Chain(t, p)
  {
    Opens(t, p) && Name(p) != "" &&
    (BackupSibling(p) in t ==> (ChainShrinks(t, p); ChainOpens(t, BackupSibling(p))))
  }

  /** What one pass leaves in the chain member `q`: still a file, as it was when SQLite may
      not modify it, and holding its cleaned database when it may. */
  ghost predicate ChainMemberCleaned(t0: Tree, t: Tree, q: Path, patterns: seq<string>) {
    q in t0 && IsFile(t, q) &&
    (!CanModify(t0, q) ==> t[q] == t0[q]) &&
    (CanModify(t0, q) && t0[q].entry.content.Db? ==>
      t[q].entry.content == Db(CleanedDatabase(t0[q].entry.content.db, TextTypes, patterns)))
  }

  /** Every member reached is `p` itself or one of its `.backup` files, and opens. */
  lemma {:induction false} ReachedBackups(t: Tree, p: Path)
    ensures forall q :: q in Reached(t, p) ==> Opens(t, q) && (q == p || BackupOf(p, q))
    decreases Chain(t, p)
  {
    if Opens(t, p) && Name(p) != "" && BackupSibling(p) in t {
      var s := BackupSibling(p);
      ChainShrinks(t, p);
      ReachedBackups(t, s);
      assert Below(p, s);
      forall q | q in Reached(t, s) ensures BackupOf(p, q) {
        if q != s {
          BelowSibling(p, q);
        }
      }
    }
  }

  /** Two trees that agree on `s` and everything below it reach the same members from `s`,
      and agree on whether the whole chain opens. */
  lemma {:induction false} ReachedSame(t0: Tree, t1: Tree, s: Path)
    requires forall q :: q == s || BackupOf(s, q) ==> (q in t1 <==> q in t0) && (q in t0 ==> t1[q] == t0[q])
    ensures Reached(t1, s) == Reached(t0, s) && ChainOpens(t1, s) == ChainOpens(t0, s)
    decreases Chain(t0, s)
  {
    assert Opens(t1, s) == Opens(t0, s);
    if Opens(t0, s) && Name(s) != "" {
      var s2 := BackupSibling(s);
      assert BackupOf(s, s2);
      if s2 in t0 {
        ChainShrinks(t0, s);
        ChainShrinks(t1, s);
        forall q | q == s2 || BackupOf(s2, q)
          ensures (q in t1 <==> q in t0) && (q in t0 ==> t1[q] == t0[q])
        {
          if q != s2 {
            BackupOfSibling(s, q);
          }
        }
        ReachedSame(t0, t1, s2);
        assert Reached(t1, s) == {s} + Reached(t1, s2);
        assert Reached(t0, s) == {s} + Reached(t0, s2);
      }
    }
  }

  /** A `.backup` file after the sibling is one after `p` too. */
  lemma BackupOfSibling(p: Path, q: Path)
    requires Name(p) != "" && BackupOf(BackupSibling(p), q)
    ensures BackupOf(p, q)
  {
    BelowSibling(p, q);
  }

  /** Cleaning `p` and then its sibling's chain cleans the chain from `p`: the first pass
      touched only `p`, which the second does not reach. */
  lemma SiblingStep(t0: Tree, t1: Tree, t2: Tree, p: Path, patterns: seq<string>)
    requires Opens(t0, p) && Name(p) != "" && BackupSibling(p) in t0
    requires t1.Keys == t0.Keys && forall q :: q in t0 && q != p ==> t1[q] == t0[q]
    requires ChainMemberCleaned(t0, t1, p, patterns)
    requires t2.Keys == t1.Keys
    requires forall q :: q in t1 && q !in Reached(t1, BackupSibling(p)) ==> t2[q] == t1[q]
    requires forall q :: q in Reached(t1, BackupSibling(p)) ==> ChainMemberCleaned(t1, t2, q, patterns)
    ensures ChainOpens(t0, p) == ChainOpens(t1, BackupSibling(p))
    ensures forall q :: q in t0 && q !in Reached(t0, p) ==> t2[q] == t0[q]
    ensures forall q :: q in Reached(t0, p) ==> ChainMemberCleaned(t0, t2, q, patterns)
  {
    var s := BackupSibling(p);
    SiblingChain(t0, t1, p);
    SiblingMembersCleaned(t0, t1, t2, p, Reached(t0, s), patterns);
  }

  /** The chain from `p` is `p` and then its sibling's chain, which a pass that touched
      only `p` leaves as it was. */
  lemma SiblingChain(t0: Tree, t1: Tree, p: Path)
    requires Opens(t0, p) && Name(p) != "" && BackupSibling(p) in t0
    requires t1.Keys == t0.Keys && forall q :: q in t0 && q != p ==> t1[q] == t0[q]
    ensures var s := BackupSibling(p);
      Reached(t1, s) == Reached(t0, s) && ChainOpens(t0, p) == ChainOpens(t1, s) &&
      Reached(t0, p) == {p} + Reached(t0, s) && Parent(p) != p &&
      forall q :: q in Reached(t0, s) ==> q in t0 && q != p && Parent(q) == Parent(p)
  {
    var s := BackupSibling(p);
    assert Below(p, s);
    forall q | q == s || BackupOf(s, q) ensures (q in t1 <==> q in t0) && (q in t0 ==> t1[q] == t0[q]) {
      assert q != p;
    }
    ReachedSame(t0, t1, s);
    ReachedBackups(t0, s);
    ChainShrinks(t0, p);
    assert Reached(t0, p) == {p} + Reached(t0, s);
    assert Parent(p) != p;
    forall q | q in Reached(t0, s) ensures q != p && Parent(q) == Parent(p) {
    }
  }

  /** The members `r` of the sibling's chain, which share `p`'s directory but are not `p`,
      are cleaned against `t0` as they were against `t1`. */
  lemma SiblingMembersCleaned(t0: Tree, t1: Tree, t2: Tree, p: Path, r: set<Path>, patterns: seq<string>)
    requires Parent(p) != p
    requires t1.Keys == t0.Keys && forall q :: q in t0 && q != p ==> t1[q] == t0[q]
    requires forall q :: q in r ==> q in t0 && q != p && Parent(q) == Parent(p)
    requires forall q :: q in r ==> ChainMemberCleaned(t1, t2, q, patterns)
    ensures forall q :: q in r ==> ChainMemberCleaned(t0, t2, q, patterns)
  {
    forall q | q in r ensures ChainMemberCleaned(t0, t2, q, patterns) {
      assert CanModify(t1, q) == CanModify(t0, q);
    }
  }

  /** What cleaning the sibling may touch lies below `p`, so nothing else moves. */
  lemma SiblingFrame(t1: Tree, t2: Tree, p: Path)
    requires Name(p) != "" && t2.Keys == t1.Keys
    requires forall q :: q in t1 && q != BackupSibling(p) && !Below(BackupSibling(p), q) ==> t2[q] == t1[q]
    ensures forall q :: q in t1 && !Below(p, q) ==> t2[q] == t1[q]
  {
    var sibling := BackupSibling(p);
    assert Below(p, sibling);
    forall q | q in t1 && !Below(p, q) ensures t2[q] == t1[q] {
      if Below(sibling, q) {
        BelowSibling(p, q);
      }
    }
  }

  /** The first half of `_execute_database_cleaning(p)` on a file SQLite opens: every
      table is cleaned, and the changes are committed when rows were deleted. */
  method CleanAndCommit(disk: Disk, p: Path, patterns: seq<string>) returns (total: nat)
    requires Opens(disk.tree, p)
    modifies disk
    ensures disk.tree.Keys == old(disk.tree).Keys
    ensures forall q :: q in old(disk.tree) && q != p ==> disk.tree[q] == old(disk.tree)[q]
    ensures total == RowsRemoved(old(disk.tree), p, TextTypes, patterns)
    ensures !CanModify(old(disk.tree), p) ==> disk.tree[p] == old(disk.tree)[p]
    ensures CanModify(old(disk.tree), p) && old(disk.tree)[p].entry.content.Db? ==>
      IsFile(disk.tree, p) && disk.tree[p].entry.content == Db(CleanedDatabase(old(disk.tree)[p].entry.content.db, TextTypes, patterns))
    ensures ChainMemberCleaned(old(disk.tree), disk.tree, p, patterns)
  {
    var db := Stored(disk.tree[p].entry.content);
    var canModify := CanModify(disk.tree, p);
    var cleaned: Database;
    cleaned, total := CleanTables(db, TextTypes, patterns, canModify);
    if total > 0 {
      var _ := disk.WriteFile(p, Db(cleaned));
    } else if canModify {
      NoneRemovedTables(db.tables, TextTypes, patterns);
    }
  }

  /** `_execute_database_cleaning(p)`: every table is cleaned and the deletions are summed;
      the changes are committed, and then the `.backup` sibling, when it exists, is cleaned
      the same way without its deletions being counted. A file SQLite cannot open, a failure
      on the sibling, or a name `with_suffix` refuses raises (None); what was already
      committed stays. */
  method ExecuteDatabaseCleaning(disk: Disk, p: Path, patterns: seq<string>) returns (r: Option<nat>)
    requires p in disk.tree
    modifies disk
    decreases Chain(disk.tree, p)
    ensures disk.tree.Keys == old(disk.tree).Keys
    ensures forall q :: q in old(disk.tree) && q != p && !Below(p, q) ==> disk.tree[q] == old(disk.tree)[q]
    ensures r.Some? ==> Opens(old(disk.tree), p) && r.value == RowsRemoved(old(disk.tree), p, TextTypes, patterns)
    ensures Opens(old(disk.tree), p) && Name(p) != "" && BackupSibling(p) !in old(disk.tree) ==> r.Some?
    ensures !Opens(old(disk.tree), p) ==> r.None? && disk.tree == old(disk.tree)
    ensures Opens(old(disk.tree), p) && !CanModify(old(disk.tree), p) ==> disk.tree[p] == old(disk.tree)[p]
    ensures Opens(old(disk.tree), p) && CanModify(old(disk.tree), p) && old(disk.tree)[p].entry.content.Db? ==>
      IsFile(disk.tree, p) && disk.tree[p].entry.content == Db(CleanedDatabase(old(disk.tree)[p].entry.content.db, TextTypes, patterns))
    ensures r.Some? <==> ChainOpens(old(disk.tree), p)
    ensures forall q :: q in old(disk.tree) && q !in Reached(old(disk.tree), p) ==> disk.tree[q] == old(disk.tree)[q]
    ensures forall q :: q in Reached(old(disk.tree), p) ==> ChainMemberCleaned(old(disk.tree), disk.tree, q, patterns)
  {
    if !Opens(disk.tree, p) {
      return None;
    }
    ghost var t0 := disk.tree;
    var total := CleanAndCommit(disk, p, patterns);
    if Name(p) == "" {
      return None;
    }
    var sibling := BackupSibling(p);
    assert Below(p, sibling);
    if sibling in disk.tree {
      ghost var t1 := disk.tree;
      ChainShrinks(t1, p);
      var backupDeleted := ExecuteDatabaseCleaning(disk, sibling, patterns);
      SiblingFrame(t1, disk.tree, p);
      SiblingStep(t0, t1, disk.tree, p, patterns);
      if backupDeleted.None? {
        return None;
      }
    }
    r := Some(total);
  }

  // ----- one database file -----

  /** What `_clean_database_file` reports: `error` is set exactly when it failed. */
  datatype FileResult = FileResult(success: bool, backupPath: Option<Path>, recordsDeleted: nat, error: Option<string>)

  const CleaningFailed := "Database cleaning failed"

  /** The backup of a database never lands on its `.backup` sibling: one name ends in `k`,
      the other in `p`. */
  lemma BackupIsNotSibling(p: Path, dir: Path, prefix: string, ts: string)
    requires Name(p) != ""
    ensures dir + [BackupName(prefix, ts, BackupExtension)] != BackupSibling(p)
  {
    var b := BackupName(prefix, ts, BackupExtension);
    var s := Name(p) + ".backup";
    assert b[|b| - 1] == 'k';
    assert s[|s| - 1] == 'p';
    var x := dir + [b];
    var y := BackupSibling(p);
    assert x[|x| - 1] == b && y[|y| - 1] == s;
    assert b != s;
  }

  /** The `.backup` files of `p` that `t` holds. */
  ghost function BackupsIn(t: Tree, p: Path): set<Path> {
    set q | q in t && BackupOf(p, q)
  }

  /** The backup of a database is neither the database, whose name is shorter, nor one of
      its `.backup` files: one name ends in `k`, the other in `p`. */
  lemma BackupMissesChain(p: Path, dir: Path, ts: string, q: Path)
    requires q == p || BackupOf(p, q)
    ensures dir + [BackupName(Name(p), ts, BackupExtension)] != q
  {
    var b := BackupName(Name(p), ts, BackupExtension);
    assert Name(dir + [b]) == b;
    assert b[|b| - 1] == 'k';
    if q != p {
      EndsWithLast(Name(q), ".backup");
    }
  }

  /** Backing `p` up to a path off its chain leaves what the cleaning reaches from `p`, and
      each member it reaches, as they were. */
  lemma BackupKeepsChain(t0: Tree, tb: Tree, p: Path, dst: Path)
    requires tb == t0 || (CanCopy(t0, p, dst) && tb == Copy2(t0, p, dst))
    requires tb != t0 ==> forall q :: q == p || BackupOf(p, q) ==> q != dst
    ensures Reached(tb, p) == Reached(t0, p) && ChainOpens(tb, p) == ChainOpens(t0, p)
    ensures forall q :: q in Reached(t0, p) ==> q in t0 && q in tb && tb[q] == t0[q] && CanModify(tb, q) == CanModify(t0, q)
  {
    ReachedSame(t0, tb, p);
    ReachedBackups(t0, p);
    forall q | q in Reached(t0, p) ensures q in t0 && q in tb && tb[q] == t0[q] && CanModify(tb, q) == CanModify(t0, q) {
      if tb != t0 && q != [] && Parent(q) != dst {
        assert Parent(q) in tb <==> Parent(q) in t0;
      }
    }
  }

  /** A pass that changes only the files it reaches, and leaves them files, stays within any
      zones that hold them. */
  lemma PassConfined(t1: Tree, t2: Tree, reached: set<Path>, zones: set<Path>, b: Path)
    requires t2.Keys == t1.Keys
    requires forall q :: q in t1 && q !in reached ==> t2[q] == t1[q]
    requires forall q :: q in reached ==> q in zones && IsFile(t1, q) && IsFile(t2, q)
    ensures Confined(t1, t2, zones, b)
  {
    forall q | q in reached ensures Within(zones, q) {
      assert StartsWith(q, q);
    }
  }

  /** The cleaning pass run after the backup, read against the tree before the backup: the
      chain from `p` is cleaned as it stood, the backup keeps the entry it copied, and only
      `p`, its `.backup` files and the backup slot changed. */
  lemma CleanedAfterBackup(t0: Tree, tb: Tree, t2: Tree, p: Path, b: Path, backup: Option<Path>, patterns: seq<string>)
    requires Confined(t0, tb, {}, b)
    requires backup.None? ==> tb == t0
    requires backup.Some? ==> CanCopy(t0, p, backup.value) && tb == Copy2(t0, p, backup.value)
    requires backup.Some? ==> p != backup.value && forall q :: BackupOf(p, q) ==> q != backup.value
    requires t2.Keys == tb.Keys
    requires forall q :: q in tb && q !in Reached(tb, p) ==> t2[q] == tb[q]
    requires forall q :: q in Reached(tb, p) ==> ChainMemberCleaned(tb, t2, q, patterns)
    ensures ChainOpens(tb, p) == ChainOpens(t0, p)
    ensures forall q :: q in Reached(t0, p) ==> ChainMemberCleaned(t0, t2, q, patterns)
    ensures Confined(t0, t2, {p} + BackupsIn(t0, p), b)
    ensures forall q :: q in t2 && q !in t0 ==> backup == Some(q)
    ensures backup.Some? ==> IsFile(t2, backup.value) && t2[backup.value].entry == t0[p].entry
  {
    ChainAfterBackup(t0, tb, t2, p, b, if backup.Some? then backup.value else [], patterns);
    if backup.Some? {
      BackupSurvives(t0, tb, t2, p, backup.value);
    }
  }

  /** The chain half of `CleanedAfterBackup`. */
  lemma ChainAfterBackup(t0: Tree, tb: Tree, t2: Tree, p: Path, b: Path, dst: Path, patterns: seq<string>)
    requires Confined(t0, tb, {}, b)
    requires tb == t0 || (CanCopy(t0, p, dst) && tb == Copy2(t0, p, dst))
    requires tb != t0 ==> forall q :: q == p || BackupOf(p, q) ==> q != dst
    requires t2.Keys == tb.Keys
    requires forall q :: q in tb && q !in Reached(tb, p) ==> t2[q] == tb[q]
    requires forall q :: q in Reached(tb, p) ==> ChainMemberCleaned(tb, t2, q, patterns)
    ensures ChainOpens(tb, p) == ChainOpens(t0, p)
    ensures forall q :: q in Reached(t0, p) ==> ChainMemberCleaned(t0, t2, q, patterns)
    ensures Confined(t0, t2, {p} + BackupsIn(t0, p), b)
  {
    BackupKeepsChain(t0, tb, p, dst);
    ReachedBackups(t0, p);
    var zones := {p} + BackupsIn(t0, p);
    forall q | q in Reached(tb, p) ensures q in zones && IsFile(tb, q) && IsFile(t2, q) {
    }
    PassConfined(tb, t2, Reached(tb, p), zones, b);
    ConfinedTrans(t0, tb, t2, {}, zones, b);
    assert {} + zones == zones;
  }

  /** The copy a backup made lies outside the chain the cleaning pass changes, so it keeps
      the database's old entry. */
  lemma BackupSurvives(t0: Tree, tb: Tree, t2: Tree, p: Path, dst: Path)
    requires CanCopy(t0, p, dst) && tb == Copy2(t0, p, dst)
    requires p != dst && forall q :: BackupOf(p, q) ==> q != dst
    requires t2.Keys == tb.Keys
    requires forall q :: q in tb && q !in Reached(tb, p) ==> t2[q] == tb[q]
    ensures IsFile(t2, dst) && t2[dst].entry == t0[p].entry
  {
    ReachedBackups(tb, p);
    forall q | q in Reached(tb, p) ensures q != dst {
      assert q == p || BackupOf(p, q);
    }
    assert t2[dst] == tb[dst];
  }

  /** Backing a valid database up leaves its node, its validity and what a cleaning pass
      removes from it as they were, wherever the copy lands. */
  lemma CopyKeepsDatabase(t: Tree, p: Path, dst: Path, patterns: seq<string>)
    requires IsValidSqliteDatabase(t, p) && CanCopy(t, p, dst)
    ensures Copy2(t, p, dst)[p] == t[p]
    ensures CanModify(Copy2(t, p, dst), p) == CanModify(t, p)
    ensures RowsRemoved(Copy2(t, p, dst), p, TextTypes, patterns) == RowsRemoved(t, p, TextTypes, patterns)
  {
    var c := Copy2(t, p, dst);
    if p != [] && Parent(p) != dst {
      assert Parent(p) in c <==> Parent(p) in t;
    }
  }

  // ----- the sweeps -----

  /** The counts `clean_vscode_databases` and `clean_jetbrains_databases` return. */
  datatype Summary = Summary(success: bool, found: nat, cleaned: nat, failed: nat, recordsDeleted: nat,
                             backups: seq<Path>, errors: seq<string>)

  const NoVscodeMessage := "No VSCode installations found"
  const NoJetBrainsMessage := "No JetBrains database files found"

  /** A sweep that found nothing to look at. */
  function NothingFound(message: string): (s: Summary)
    ensures !s.success && s.found == 0 && s.errors == [message]
  {
    Summary(false, 0, 0, 0, 0, [], [message])
  }

  /** The counts a sweep keeps while it runs: each database found is either cleaned or
      failed, each failure leaves one error, and a backup comes only with a cleaned
      database. */
  predicate Counted(s: Summary) {
    s.found == s.cleaned + s.failed && |s.errors| == s.failed && |s.backups| <= s.cleaned
  }

  /** The bookkeeping every finished sweep keeps: its counts, and success exactly when
      something was cleaned. */
  predicate Tallied(s: Summary) {
    Counted(s) && s.success == (s.cleaned > 0)
  }

  /** `results` after one more database: the loop body of both sweeps. */
  function Record(s: Summary, p: Path, res: FileResult): (r: Summary)
    requires res.success <==> res.error.None?
    ensures Counted(s) ==> r.found == s.found + 1 && r.cleaned + r.failed == s.cleaned + s.failed + 1
    ensures res.success ==> r.cleaned == s.cleaned + 1 && r.recordsDeleted == s.recordsDeleted + res.recordsDeleted
    ensures !res.success ==> r.failed == s.failed + 1 && r.errors == s.errors + [Name(p) + ": " + res.error.value]
  {
    if res.success then
      s.(found := s.found + 1, cleaned := s.cleaned + 1, recordsDeleted := s.recordsDeleted + res.recordsDeleted,
         backups := s.backups + (if res.backupPath.Some? then [res.backupPath.value] else []))
    else
      s.(found := s.found + 1, failed := s.failed + 1, errors := s.errors + [Name(p) + ": " + res.error.value])
  }

  /** Recording a database keeps the bookkeeping, success aside, which the sweep sets at
      the end. */
  lemma RecordTallies(s: Summary, p: Path, res: FileResult)
    requires res.success <==> res.error.None?
    requires Counted(s)
    ensures var r := Record(s, p, res); Counted(r)
  {
  }

  /** What one call of `_clean_database_file` on `p` does to the tree, as its contract
      states: an invalid file leaves the tree as it was; for a valid one the chain from `p`
      is cleaned, and only `p`, its `.backup` files and backup slots change. */
  ghost predicate DatabaseTurn(t0: Tree, t1: Tree, p: Path, patterns: seq<string>, b: Path) {
    (!IsValidSqliteDatabase(t0, p) ==> t1 == t0) &&
    (IsValidSqliteDatabase(t0, p) && CanModify(t0, p) ==>
      IsFile(t1, p) && t1[p].entry.content == Db(CleanedDatabase(t0[p].entry.content.db, TextTypes, patterns))) &&
    (IsValidSqliteDatabase(t0, p) ==> forall q :: q in Reached(t0, p) ==> ChainMemberCleaned(t0, t1, q, patterns)) &&
    Confined(t0, t1, {p} + BackupsIn(t0, p), b)
  }

  /** The databases a sweep found in its first `n` turns, each with the `.backup` files the
      tree of its turn held. */
  ghost function FoundZones(runs: seq<Tree>, dbs: seq<Option<Path>>, n: nat): set<Path>
    requires n <= |dbs| && n <= |runs|
  {
    if n == 0 then {}
    else FoundZones(runs, dbs, n - 1) + (if dbs[n - 1].Some? then {dbs[n - 1].value} + BackupsIn(runs[n - 1], dbs[n - 1].value) else {})
  }

  lemma {:induction false} FoundZonesPrefix(runs: seq<Tree>, dbs: seq<Option<Path>>, runs': seq<Tree>, dbs': seq<Option<Path>>, n: nat)
    requires n <= |dbs| && n <= |runs| && n <= |dbs'| && n <= |runs'|
    requires runs[..n] == runs'[..n] && dbs[..n] == dbs'[..n]
    ensures FoundZones(runs, dbs, n) == FoundZones(runs', dbs', n)
  {
    if n > 0 {
      assert runs[n - 1] == runs[..n][n - 1] && runs'[n - 1] == runs'[..n][n - 1];
      assert dbs[n - 1] == dbs[..n][n - 1] && dbs'[n - 1] == dbs'[..n][n - 1];
      assert runs[..n - 1] == runs[..n][..n - 1] && runs'[..n - 1] == runs'[..n][..n - 1];
      assert dbs[..n - 1] == dbs[..n][..n - 1] && dbs'[..n - 1] == dbs'[..n][..n - 1];
      FoundZonesPrefix(runs, dbs, runs', dbs', n - 1);
    }
  }

  /** A list of databases as turns that each found one. */
  function Found(files: seq<Path>): (r: seq<Option<Path>>)
    ensures |r| == |files| && forall k :: 0 <= k < |files| ==> r[k] == Some(files[k])
  {
    seq(|files|, k requires 0 <= k < |files| => Some(files[k]))
  }

  /** How many turns found a database. */
  function CountFound(dbs: seq<Option<Path>>): (n: nat)
    ensures n <= |dbs|
    ensures n == 0 <==> forall k :: 0 <= k < |dbs| ==> dbs[k].None?
  {
    if dbs == [] then 0
    else CountFound(dbs[..|dbs| - 1]) + (if dbs[|dbs| - 1].Some? then 1 else 0)
  }

  /** The rows one call of `_clean_database_file` on `p` reports deleted from the tree `t`:
      those its cleaning removes from `p` when `p` is a valid database whose `.backup` chain
      opens, and 0 when it is skipped or the cleaning fails. */
  ghost function Deleted(t: Tree, p: Path, patterns: seq<string>): int {
    if IsValidSqliteDatabase(t, p) && ChainOpens(t, p) then RowsRemoved(t, p, TextTypes, patterns) else 0
  }

  /** The rows the first `n` turns of a sweep report deleted, turn `k` working on the tree
      `runs[k]`: `total_records_deleted` after those turns. */
  ghost function TurnsDeleted(runs: seq<Tree>, dbs: seq<Option<Path>>, n: nat, patterns: seq<string>): int
    requires n <= |dbs| && n <= |runs|
  {
    if n == 0 then 0
    else TurnsDeleted(runs, dbs, n - 1, patterns) + (if dbs[n - 1].Some? then Deleted(runs[n - 1], dbs[n - 1].value, patterns) else 0)
  }

  lemma {:induction false} TurnsDeletedPrefix(runs: seq<Tree>, dbs: seq<Option<Path>>, runs': seq<Tree>, dbs': seq<Option<Path>>,
                                              n: nat, patterns: seq<string>)
    requires n <= |dbs| && n <= |runs| && n <= |dbs'| && n <= |runs'|
    requires runs[..n] == runs'[..n] && dbs[..n] == dbs'[..n]
    ensures TurnsDeleted(runs, dbs, n, patterns) == TurnsDeleted(runs', dbs', n, patterns)
  {
    if n > 0 {
      assert runs[n - 1] == runs[..n][n - 1] && runs'[n - 1] == runs'[..n][n - 1];
      assert dbs[n - 1] == dbs[..n][n - 1] && dbs'[n - 1] == dbs'[..n][n - 1];
      assert runs[..n - 1] == runs[..n][..n - 1] && runs'[..n - 1] == runs'[..n][..n - 1];
      assert dbs[..n - 1] == dbs[..n][..n - 1] && dbs'[..n - 1] == dbs'[..n][..n - 1];
      TurnsDeletedPrefix(runs, dbs, runs', dbs', n - 1, patterns);
    }
  }

  /** Whether one call of `_clean_database_file` on `p` in the tree `t` reports success: a
      file that is not a valid database is skipped as a success, a valid one succeeds when
      its `.backup` chain opens. */
  ghost predicate TurnCleaned(t: Tree, p: Path) {
    !IsValidSqliteDatabase(t, p) || ChainOpens(t, p)
  }

  /** The turns among the first `n` that found a database and report it cleaned:
      `databases_cleaned` after those turns. */
  ghost function TurnsCleaned(runs: seq<Tree>, dbs: seq<Option<Path>>, n: nat): nat
    requires n <= |dbs| && n <= |runs|
  {
    if n == 0 then 0
    else TurnsCleaned(runs, dbs, n - 1) + (if dbs[n - 1].Some? && TurnCleaned(runs[n - 1], dbs[n - 1].value) then 1 else 0)
  }

  lemma {:induction false} TurnsCleanedPrefix(runs: seq<Tree>, dbs: seq<Option<Path>>, runs': seq<Tree>, dbs': seq<Option<Path>>, n: nat)
    requires n <= |dbs| && n <= |runs| && n <= |dbs'| && n <= |runs'|
    requires runs[..n] == runs'[..n] && dbs[..n] == dbs'[..n]
    ensures TurnsCleaned(runs, dbs, n) == TurnsCleaned(runs', dbs', n)
  {
    if n > 0 {
      assert runs[n - 1] == runs[..n][n - 1] && runs'[n - 1] == runs'[..n][n - 1];
      assert dbs[n - 1] == dbs[..n][n - 1] && dbs'[n - 1] == dbs'[..n][n - 1];
      assert runs[..n - 1] == runs[..n][..n - 1] && runs'[..n - 1] == runs'[..n][..n - 1];
      assert dbs[..n - 1] == dbs[..n][..n - 1] && dbs'[..n - 1] == dbs'[..n][..n - 1];
      TurnsCleanedPrefix(runs, dbs, runs', dbs', n - 1);
    }
  }

  /** The rows a turn that found `db` in the tree `t` reports deleted. */
  ghost function DeletedBy(t: Tree, db: Option<Path>, patterns: seq<string>): int {
    if db.Some? then Deleted(t, db.value, patterns) else 0
  }

  /** 1 when a turn that found `db` in the tree `t` reports it cleaned, 0 otherwise. */
  ghost function CleanedBy(t: Tree, db: Option<Path>): int {
    if db.Some? && TurnCleaned(t, db.value) then 1 else 0
  }

  /** The sum of `xs`. */
  function Total(xs: seq<int>): int {
    if xs == [] then 0 else Total(xs[..|xs| - 1]) + xs[|xs| - 1]
  }

  /** Turn `k` of a sweep contributed `deleted[k]` rows and `cleaned[k]` cleaned databases. */
  ghost predicate CountedTurn(runs: seq<Tree>, dbs: seq<Option<Path>>, deleted: seq<int>, cleaned: seq<int>,
                              patterns: seq<string>, k: nat) {
    k < |dbs| == |deleted| == |cleaned| < |runs| &&
    deleted[k] == DeletedBy(runs[k], dbs[k], patterns) && cleaned[k] == CleanedBy(runs[k], dbs[k])
  }

  /** The per-turn contributions of the first `|dbs|` turns of a sweep. */
  ghost predicate CountedTurns(runs: seq<Tree>, dbs: seq<Option<Path>>, deleted: seq<int>, cleaned: seq<int>,
                               patterns: seq<string>) {
    |dbs| == |deleted| == |cleaned| < |runs| &&
    forall k: nat :: k < |dbs| ==> CountedTurn(runs, dbs, deleted, cleaned, patterns, k)
  }

  /** The contributions of one more turn, which found `db` in the tree `runs[|dbs|]`. */
  lemma {:induction false} CountedTurnsExtend(runs: seq<Tree>, dbs: seq<Option<Path>>, deleted: seq<int>, cleaned: seq<int>,
                           patterns: seq<string>, t: Tree, db: Option<Path>)
    requires CountedTurns(runs, dbs, deleted, cleaned, patterns) && |runs| == |dbs| + 1
    ensures CountedTurns(runs + [t], dbs + [db], deleted + [DeletedBy(runs[|dbs|], db, patterns)],
                         cleaned + [CleanedBy(runs[|dbs|], db)], patterns)
    ensures Total(deleted + [DeletedBy(runs[|dbs|], db, patterns)]) == Total(deleted) + DeletedBy(runs[|dbs|], db, patterns)
    ensures Total(cleaned + [CleanedBy(runs[|dbs|], db)]) == Total(cleaned) + CleanedBy(runs[|dbs|], db)
  {
    var d, c := DeletedBy(runs[|dbs|], db, patterns), CleanedBy(runs[|dbs|], db);
    var runs', dbs', deleted', cleaned' := runs + [t], dbs + [db], deleted + [d], cleaned + [c];
    forall k: nat | k < |dbs'| ensures CountedTurn(runs', dbs', deleted', cleaned', patterns, k) {
      if k < |dbs| {
        assert CountedTurn(runs, dbs, deleted, cleaned, patterns, k);
        assert runs'[k] == runs[k] && dbs'[k] == dbs[k] && deleted'[k] == deleted[k] && cleaned'[k] == cleaned[k];
      }
    }
    assert deleted'[..|deleted|] == deleted && cleaned'[..|cleaned|] == cleaned;
  }

  /** The per-turn contributions of a sweep add up to its totals. */
  lemma {:induction false} CountedTotals(runs: seq<Tree>, dbs: seq<Option<Path>>, deleted: seq<int>, cleaned: seq<int>,
                                         patterns: seq<string>, n: nat)
    requires CountedTurns(runs, dbs, deleted, cleaned, patterns) && n <= |dbs|
    ensures Total(deleted[..n]) == TurnsDeleted(runs, dbs, n, patterns)
    ensures Total(cleaned[..n]) == TurnsCleaned(runs, dbs, n)
  {
    if n > 0 {
      CountedTotals(runs, dbs, deleted, cleaned, patterns, n - 1);
      assert CountedTurn(runs, dbs, deleted, cleaned, patterns, n - 1);
      assert deleted[..n][..n - 1] == deleted[..n - 1] && cleaned[..n][..n - 1] == cleaned[..n - 1];
    }
  }

  /** Turn `k` of the VSCode sweep over `dirs`: it looks for the database file of
      `dirs[k]` in the tree `t0` the earlier turns left, and cleans it if there is one,
      leaving `t1`. */
  ghost predicate VscodeTurn(t0: Tree, t1: Tree, db: Option<Path>, d: Path, b: Path) {
    db == GetVscodeDatabaseFile(t0, d) &&
    (db.None? ==> t1 == t0) &&
    (db.Some? ==> DatabaseTurn(t0, t1, db.value, CleaningPatterns(false), b))
  }

  /** Turn `k` of the first `|dbs|` turns of the VSCode sweep over `dirs`. */
  ghost predicate VscodeTurnOf(runs: seq<Tree>, dbs: seq<Option<Path>>, dirs: seq<Path>, b: Path, k: nat) {
    k < |dbs| <= |dirs| && |runs| == |dbs| + 1 && VscodeTurn(runs[k], runs[k + 1], dbs[k], dirs[k], b)
  }

  /** The first `|dbs|` turns of the VSCode sweep over `dirs`, turn `k` taking `runs[k]`
      to `runs[k + 1]`. */
  ghost predicate VscodeTurns(runs: seq<Tree>, dbs: seq<Option<Path>>, dirs: seq<Path>, b: Path) {
    |dbs| <= |dirs| && |runs| == |dbs| + 1 && forall k: nat :: k < |dbs| ==> VscodeTurnOf(runs, dbs, dirs, b, k)
  }

  /** Every turn `k` of a VSCode sweep is a `VscodeTurn` from `runs[k]` to `runs[k + 1]`. */
  lemma {:induction false} VscodeTurnAt(runs: seq<Tree>, dbs: seq<Option<Path>>, dirs: seq<Path>, b: Path, k: nat)
    requires VscodeTurns(runs, dbs, dirs, b) && k < |dbs|
    ensures VscodeTurn(runs[k], runs[k + 1], dbs[k], dirs[k], b)
  {
    assert VscodeTurnOf(runs, dbs, dirs, b, k);
  }

  /** A turn of a VSCode sweep stays a turn when the sweep goes on. */
  lemma {:induction false} VscodeTurnKept(runs: seq<Tree>, dbs: seq<Option<Path>>, dirs: seq<Path>, b: Path, k: nat,
                                          t: Tree, db: Option<Path>)
    requires VscodeTurnOf(runs, dbs, dirs, b, k) && |dbs| < |dirs|
    ensures VscodeTurnOf(runs + [t], dbs + [db], dirs, b, k)
  {
    var runs', dbs' := runs + [t], dbs + [db];
    assert runs'[k] == runs[k] && runs'[k + 1] == runs[k + 1] && dbs'[k] == dbs[k];
  }

  lemma {:induction false} VscodeTurnsExtend(runs: seq<Tree>, dbs: seq<Option<Path>>, dirs: seq<Path>, b: Path, t: Tree, db: Option<Path>)
    requires VscodeTurns(runs, dbs, dirs, b) && |dbs| < |dirs|
    requires VscodeTurn(runs[|dbs|], t, db, dirs[|dbs|], b)
    ensures VscodeTurns(runs + [t], dbs + [db], dirs, b)
  {
    var runs', dbs' := runs + [t], dbs + [db];
    assert runs'[|dbs|] == runs[|dbs|] && runs'[|dbs'|] == t && dbs'[|dbs|] == db;
    forall k: nat | k < |dbs'| ensures VscodeTurnOf(runs', dbs', dirs, b, k) {
      if k < |dbs| {
        assert VscodeTurnOf(runs, dbs, dirs, b, k);
        VscodeTurnKept(runs, dbs, dirs, b, k, t, db);
      }
    }
  }

  /** The databases found and their zones after one more VSCode turn, which found `db`. */
  lemma {:induction false} VscodeCountsExtend(runs: seq<Tree>, dbs: seq<Option<Path>>, t: Tree, db: Option<Path>)
    requires |runs| == |dbs| + 1
    ensures CountFound(dbs + [db]) == CountFound(dbs) + (if db.Some? then 1 else 0)
    ensures FoundZones(runs + [t], dbs + [db], |dbs| + 1) ==
      FoundZones(runs, dbs, |dbs|) + (if db.Some? then {db.value} + BackupsIn(runs[|dbs|], db.value) else {})
  {
    var runs', dbs' := runs + [t], dbs + [db];
    assert runs'[..|dbs'|] == runs && dbs'[..|dbs'| - 1] == dbs;
    assert runs'[|dbs|] == runs[|dbs|] && dbs'[|dbs|] == db;
    assert CountFound(dbs') == CountFound(dbs) + (if db.Some? then 1 else 0);
    FoundZonesPrefix(runs, dbs, runs', dbs', |dbs|);
  }

  /** Where the VSCode sweep stands after `|dbs|` turns that took `t0` to `t`. */
  ghost predicate VscodeSweep(t0: Tree, t: Tree, runs: seq<Tree>, dbs: seq<Option<Path>>, dirs: seq<Path>, b: Path) {
    VscodeTurns(runs, dbs, dirs, b) && runs[0] == t0 && runs[|dbs|] == t &&
    Confined(t0, t, FoundZones(runs, dbs, |dbs|), b)
  }

  lemma {:induction false} VscodeSweepExtend(t0: Tree, t: Tree, runs: seq<Tree>, dbs: seq<Option<Path>>, dirs: seq<Path>, b: Path, t1: Tree, db: Option<Path>)
    requires VscodeSweep(t0, t, runs, dbs, dirs, b) && |dbs| < |dirs|
    requires VscodeTurn(t, t1, db, dirs[|dbs|], b)
    ensures VscodeSweep(t0, t1, runs + [t1], dbs + [db], dirs, b)
    ensures CountFound(dbs + [db]) == CountFound(dbs) + (if db.Some? then 1 else 0)
  {
    TurnConfined(t0, t, t1, FoundZones(runs, dbs, |dbs|), db, b);
    VscodeTurnsExtend(runs, dbs, dirs, b, t1, db);
    VscodeCountsExtend(runs, dbs, t1, db);
    assert (runs + [t1])[0] == t0 && (runs + [t1])[|dbs| + 1] == t1;
  }

  /** The counts of a VSCode sweep after one more turn, which found `db` in the tree `t`
      and left `t1`, recording it in `s` to give `r`. */
  lemma {:induction false} VscodeDirStep(t0: Tree, t: Tree, t1: Tree, runs: seq<Tree>, dbs: seq<Option<Path>>, dirs: seq<Path>, b: Path,
                      db: Option<Path>, deleted: seq<int>, cleaned: seq<int>, s: Summary, r: Summary)
    requires |dbs| < |dirs| && |runs| == |dbs| + 1 && VscodeSweep(t0, t, runs, dbs, dirs, b)
    requires VscodeTurn(t, t1, db, dirs[|dbs|], b)
    requires CountedTurns(runs, dbs, deleted, cleaned, CleaningPatterns(false))
    requires s.found == CountFound(dbs) && s.recordsDeleted == Total(deleted) && s.cleaned == Total(cleaned)
    requires db.None? ==> r == s
    requires db.Some? ==> r.found == s.found + 1
    requires db.Some? ==> r.recordsDeleted == s.recordsDeleted + Deleted(t, db.value, CleaningPatterns(false))
    requires db.Some? ==> r.cleaned == s.cleaned + (if TurnCleaned(t, db.value) then 1 else 0)
    ensures VscodeSweep(t0, t1, runs + [t1], dbs + [db], dirs, b)
    ensures CountedTurns(runs + [t1], dbs + [db], deleted + [DeletedBy(t, db, CleaningPatterns(false))],
                         cleaned + [CleanedBy(t, db)], CleaningPatterns(false))
    ensures r.found == CountFound(dbs + [db])
    ensures r.recordsDeleted == Total(deleted + [DeletedBy(t, db, CleaningPatterns(false))])
    ensures r.cleaned == Total(cleaned + [CleanedBy(t, db)])
  {
    VscodeSweepExtend(t0, t, runs, dbs, dirs, b, t1, db);
    CountedTurnsExtend(runs, dbs, deleted, cleaned, CleaningPatterns(false), t1, db);
  }

  /** A turn that cleans the database it found, if any, adds that database's zone to the
      sweep's frame. */
  lemma {:induction false} TurnConfined(t0: Tree, t: Tree, t1: Tree, zones: set<Path>, db: Option<Path>, b: Path)
    requires Confined(t0, t, zones, b)
    requires db.None? ==> t1 == t
    requires db.Some? ==> DatabaseTurn(t, t1, db.value, CleaningPatterns(false), b)
    ensures Confined(t0, t1, zones + (if db.Some? then {db.value} + BackupsIn(t, db.value) else {}), b)
  {
    if db.None? {
      ConfinedWiden(t, t, {}, {}, b);
      ConfinedTrans(t0, t, t1, zones, {}, b);
    } else {
      ConfinedTrans(t0, t, t1, zones, {db.value} + BackupsIn(t, db.value), b);
    }
  }

  /** Turn `k` of the first `n` turns of the JetBrains sweep over `dbs`. */
  ghost predicate JetbrainsTurnOf(runs: seq<Tree>, dbs: seq<Path>, n: nat, b: Path, k: nat) {
    k < n <= |dbs| && |runs| == n + 1 && DatabaseTurn(runs[k], runs[k + 1], dbs[k], CleaningPatterns(true), b)
  }

  /** The first `n` turns of the JetBrains sweep over `dbs`, turn `k` cleaning `dbs[k]` in
      the tree `runs[k]` the earlier turns left. */
  ghost predicate JetbrainsTurns(runs: seq<Tree>, dbs: seq<Path>, n: nat, b: Path) {
    n <= |dbs| && |runs| == n + 1 && forall k: nat :: k < n ==> JetbrainsTurnOf(runs, dbs, n, b, k)
  }

  /** Every turn `k` of a JetBrains sweep cleans `dbs[k]`, taking `runs[k]` to `runs[k + 1]`. */
  lemma {:induction false} JetbrainsTurnAt(runs: seq<Tree>, dbs: seq<Path>, n: nat, b: Path, k: nat)
    requires JetbrainsTurns(runs, dbs, n, b) && k < n
    ensures DatabaseTurn(runs[k], runs[k + 1], dbs[k], CleaningPatterns(true), b)
  {
    assert JetbrainsTurnOf(runs, dbs, n, b, k);
  }

  lemma {:induction false} JetbrainsTurnsExtend(runs: seq<Tree>, dbs: seq<Path>, n: nat, b: Path, t: Tree)
    requires JetbrainsTurns(runs, dbs, n, b) && n < |dbs|
    requires DatabaseTurn(runs[n], t, dbs[n], CleaningPatterns(true), b)
    ensures JetbrainsTurns(runs + [t], dbs, n + 1, b)
  {
    var runs' := runs + [t];
    assert runs'[n] == runs[n] && runs'[n + 1] == t;
    var m := n + 1;
    forall k: nat | k < m ensures JetbrainsTurnOf(runs', dbs, m, b, k) {
      if k < n {
        assert JetbrainsTurnOf(runs, dbs, n, b, k);
        JetbrainsTurnKept(runs, dbs, n, b, k, t);
      }
    }
  }

  /** A turn of a JetBrains sweep stays a turn when the sweep goes on. */
  lemma {:induction false} JetbrainsTurnKept(runs: seq<Tree>, dbs: seq<Path>, n: nat, b: Path, k: nat, t: Tree)
    requires JetbrainsTurnOf(runs, dbs, n, b, k) && n < |dbs|
    ensures JetbrainsTurnOf(runs + [t], dbs, n + 1, b, k)
  {
    var runs' := runs + [t];
    assert runs'[k] == runs[k] && runs'[k + 1] == runs[k + 1];
  }

  /** The zones and counts of the JetBrains sweep after one more turn, which left `t`. */
  lemma {:induction false} JetbrainsCountsExtend(runs: seq<Tree>, dbs: seq<Path>, n: nat, t: Tree)
    requires n < |dbs| && |runs| == n + 1
    ensures FoundZones(runs + [t], Found(dbs), n + 1) == FoundZones(runs, Found(dbs), n) + ({dbs[n]} + BackupsIn(runs[n], dbs[n]))
    ensures TurnsDeleted(runs + [t], Found(dbs), n + 1, CleaningPatterns(true)) ==
      TurnsDeleted(runs, Found(dbs), n, CleaningPatterns(true)) + Deleted(runs[n], dbs[n], CleaningPatterns(true))
    ensures TurnsCleaned(runs + [t], Found(dbs), n + 1) ==
      TurnsCleaned(runs, Found(dbs), n) + (if TurnCleaned(runs[n], dbs[n]) then 1 else 0)
  {
    var runs' := runs + [t];
    assert runs'[..n + 1] == runs;
    assert runs'[n] == runs[n];
    FoundZonesPrefix(runs, Found(dbs), runs', Found(dbs), n);
    TurnsDeletedPrefix(runs, Found(dbs), runs', Found(dbs), n, CleaningPatterns(true));
    TurnsCleanedPrefix(runs, Found(dbs), runs', Found(dbs), n);
  }

  /** Where the JetBrains sweep stands after `n` turns that took `t0` to `t`. */
  ghost predicate JetbrainsSweep(t0: Tree, t: Tree, runs: seq<Tree>, dbs: seq<Path>, n: nat, b: Path) {
    JetbrainsTurns(runs, dbs, n, b) && runs[0] == t0 && runs[n] == t &&
    Confined(t0, t, FoundZones(runs, Found(dbs), n), b)
  }

  lemma {:induction false} JetbrainsSweepExtend(t0: Tree, t: Tree, runs: seq<Tree>, dbs: seq<Path>, n: nat, b: Path, t1: Tree)
    requires JetbrainsSweep(t0, t, runs, dbs, n, b) && n < |dbs|
    requires DatabaseTurn(t, t1, dbs[n], CleaningPatterns(true), b)
    ensures JetbrainsSweep(t0, t1, runs + [t1], dbs, n + 1, b)
    ensures TurnsDeleted(runs + [t1], Found(dbs), n + 1, CleaningPatterns(true)) ==
      TurnsDeleted(runs, Found(dbs), n, CleaningPatterns(true)) + Deleted(t, dbs[n], CleaningPatterns(true))
    ensures TurnsCleaned(runs + [t1], Found(dbs), n + 1) ==
      TurnsCleaned(runs, Found(dbs), n) + (if TurnCleaned(t, dbs[n]) then 1 else 0)
  {
    ConfinedTrans(t0, t, t1, FoundZones(runs, Found(dbs), n), {dbs[n]} + BackupsIn(t, dbs[n]), b);
    JetbrainsTurnsExtend(runs, dbs, n, b, t1);
    JetbrainsCountsExtend(runs, dbs, n, t1);
    assert (runs + [t1])[0] == t0 && (runs + [t1])[n + 1] == t1;
  }

  /** What `get_database_info` reports for one database; sizes are not modelled. */
  datatype DbInfo = DbInfo(path: Path, variant: Option<string>, present: bool, accessible: bool)

  function CountAccessible(infos: seq<DbInfo>): (n: nat)
    ensures n <= |infos|
  {
    if infos == [] then 0 else (if infos[|infos| - 1].accessible then 1 else 0) + CountAccessible(infos[..|infos| - 1])
  }

  datatype DatabaseInfo = DatabaseInfo(vscode: seq<DbInfo>, jetbrains: seq<DbInfo>, total: nat, accessible: nat)

  /** The description of one database path as the disk stands. */
  function Describe(t: Tree, p: Path, variant: Option<string>): (i: DbInfo)
    ensures i.path == p && i.variant == variant
    ensures i.present <==> p in t
    ensures i.accessible <==> IsValidSqliteDatabase(t, p)
  {
    DbInfo(p, variant, p in t, p in t && IsValidSqliteDatabase(t, p))
  }

  /** The entry `get_database_info` reports for the VSCode directory `d`: its database
      file, if it has one, with the variant named after the directory above `d`. */
  function VscodeEntry(t: Tree, d: Path): seq<DbInfo> {
    match GetVscodeDatabaseFile(t, d)
    case None => []
    case Some(p) => [Describe(t, p, Some(Name(Parent(d))))]
  }

  /** The VSCode entries for `dirs`, in order. */
  function VscodeInfos(t: Tree, dirs: seq<Path>): seq<DbInfo> {
    if dirs == [] then [] else VscodeInfos(t, dirs[..|dirs| - 1]) + VscodeEntry(t, dirs[|dirs| - 1])
  }

  /** The entries of one more directory follow those of the directories before it. */
  lemma {:induction false} VscodeInfosStep(t: Tree, dirs: seq<Path>, i: nat)
    requires i < |dirs|
    ensures VscodeInfos(t, dirs[..i + 1]) == VscodeInfos(t, dirs[..i]) + VscodeEntry(t, dirs[i])
  {
    assert dirs[..i + 1][..i] == dirs[..i];
  }

  /** Whether each directory has a database file. */
  function FoundIn(t: Tree, dirs: seq<Path>): (r: seq<Option<Path>>)
    ensures |r| == |dirs| && forall k :: 0 <= k < |dirs| ==> r[k] == GetVscodeDatabaseFile(t, dirs[k])
  {
    seq(|dirs|, k requires 0 <= k < |dirs| => GetVscodeDatabaseFile(t, dirs[k]))
  }

  /** There is one VSCode entry per directory that has a database file. */
  lemma {:induction false} VscodeInfosCount(t: Tree, dirs: seq<Path>)
    ensures |VscodeInfos(t, dirs)| == CountFound(FoundIn(t, dirs))
  {
    if dirs != [] {
      var n := |dirs| - 1;
      VscodeInfosCount(t, dirs[..n]);
      assert FoundIn(t, dirs)[..n] == FoundIn(t, dirs[..n]);
    }
  }

  /** Every directory with a database file has its entry, with the directory's variant. */
  lemma {:induction false} VscodeInfosComplete(t: Tree, dirs: seq<Path>, k: nat)
    requires k < |dirs| && GetVscodeDatabaseFile(t, dirs[k]).Some?
    ensures Describe(t, GetVscodeDatabaseFile(t, dirs[k]).value, Some(Name(Parent(dirs[k])))) in VscodeInfos(t, dirs)
  {
    var n := |dirs| - 1;
    var e := Describe(t, GetVscodeDatabaseFile(t, dirs[k]).value, Some(Name(Parent(dirs[k]))));
    if k < n {
      assert dirs[..n][k] == dirs[k];
      VscodeInfosComplete(t, dirs[..n], k);
      assert e in VscodeInfos(t, dirs[..n]);
    } else {
      VscodeEntryOf(t, dirs[n]);
    }
    assert VscodeInfos(t, dirs) == VscodeInfos(t, dirs[..n]) + VscodeEntry(t, dirs[n]);
  }

  lemma VscodeEntryOf(t: Tree, d: Path)
    requires GetVscodeDatabaseFile(t, d).Some?
    ensures VscodeEntry(t, d) == [Describe(t, GetVscodeDatabaseFile(t, d).value, Some(Name(Parent(d))))]
  {
  }

  /** Every VSCode entry is the database file of one of the directories, with that
      directory's variant. */
  lemma {:induction false} VscodeInfosSound(t: Tree, dirs: seq<Path>, e: DbInfo)
    requires e in VscodeInfos(t, dirs)
    ensures exists k :: (0 <= k < |dirs| && GetVscodeDatabaseFile(t, dirs[k]) == Some(e.path) &&
      e == Describe(t, e.path, Some(Name(Parent(dirs[k])))))
  {
    var n := |dirs| - 1;
    assert VscodeInfos(t, dirs) == VscodeInfos(t, dirs[..n]) + VscodeEntry(t, dirs[n]);
    if e in VscodeInfos(t, dirs[..n]) {
      VscodeInfosSound(t, dirs[..n], e);
      var k :| 0 <= k < n && GetVscodeDatabaseFile(t, dirs[..n][k]) == Some(e.path) &&
        e == Describe(t, e.path, Some(Name(Parent(dirs[..n][k]))));
      assert dirs[..n][k] == dirs[k];
    } else {
      assert GetVscodeDatabaseFile(t, dirs[n]) == Some(e.path);
    }
  }

  /** The VSCode half of `get_database_info`: each directory with a database file gives
      one entry, named after the directory holding it; the accessible ones are counted. */
  method DescribeVscode(t: Tree, dirs: seq<Path>) returns (infos: seq<DbInfo>, accessible: nat)
    ensures infos == VscodeInfos(t, dirs) && accessible == CountAccessible(infos)
  {
    infos, accessible := [], 0;
    var i := 0;
    while i < |dirs|
      invariant 0 <= i <= |dirs| && infos == VscodeInfos(t, dirs[..i]) && accessible == CountAccessible(infos)
    {
      VscodeInfosStep(t, dirs, i);
      var db := GetVscodeDatabaseFile(t, dirs[i]);
      if db.Some? {
        var d := Describe(t, db.value, Some(Name(Parent(dirs[i]))));
        assert VscodeEntry(t, dirs[i]) == [d];
        assert (infos + [d])[..|infos|] == infos;
        if d.accessible {
          accessible := accessible + 1;
        }
        infos := infos + [d];
      }
      i := i + 1;
    }
    assert dirs[..i] == dirs;
  }

  /** The JetBrains half of `get_database_info`: one entry per database file, in order. */
  method DescribeJetbrains(t: Tree, dbs: seq<Path>) returns (infos: seq<DbInfo>, accessible: nat)
    ensures |infos| == |dbs| && accessible == CountAccessible(infos)
    ensures forall k :: 0 <= k < |infos| ==> infos[k] == Describe(t, dbs[k], None)
  {
    infos, accessible := [], 0;
    var i := 0;
    while i < |dbs|
      invariant 0 <= i <= |dbs| && |infos| == i && accessible == CountAccessible(infos)
      invariant forall k :: 0 <= k < i ==> infos[k] == Describe(t, dbs[k], None)
    {
      var d := Describe(t, dbs[i], None);
      assert (infos + [d])[..i] == infos;
      if d.accessible {
        accessible := accessible + 1;
      }
      infos := infos + [d];
      i := i + 1;
    }
  }

  class DatabaseCleaner {
    const paths: PathManager
    const backups: BackupManager

    constructor(paths: PathManager, backups: BackupManager)
      ensures this.paths == paths && this.backups == backups
    {
      this.paths := paths;
      this.backups := backups;
    }

    /** `_clean_database_file(p)`: a file that is not a valid SQLite database is skipped as
        a success; otherwise a backup is made when asked for and the cleaning runs, and a
        failure of the cleaning keeps the backup path and records the error. */
    method CleanDatabaseFile(disk: Disk, p: Path, createBackups: bool, jetbrains: bool) returns (res: FileResult)
      requires disk.clock.Valid()
      modifies disk
      ensures res.success <==> res.error.None?
      ensures res.error.Some? ==> res.error.value == CleaningFailed
      ensures !IsValidSqliteDatabase(old(disk.tree), p) ==>
        res == FileResult(true, None, 0, None) && disk.tree == old(disk.tree)
      ensures res.backupPath.Some? ==> createBackups && IsValidSqliteDatabase(old(disk.tree), p) && res.backupPath.value in disk.tree
      ensures res.recordsDeleted == Deleted(old(disk.tree), p, CleaningPatterns(jetbrains))
      ensures IsValidSqliteDatabase(old(disk.tree), p) && Name(p) != "" && BackupSibling(p) !in old(disk.tree) ==> res.success
      ensures IsValidSqliteDatabase(old(disk.tree), p) && CanModify(old(disk.tree), p) ==>
        IsFile(disk.tree, p) && disk.tree[p].entry.content == Db(CleanedDatabase(old(disk.tree)[p].entry.content.db, TextTypes, CleaningPatterns(jetbrains)))
      ensures IsValidSqliteDatabase(old(disk.tree), p) ==> (res.success <==> ChainOpens(old(disk.tree), p))
      ensures IsValidSqliteDatabase(old(disk.tree), p) ==>
        forall q :: q in Reached(old(disk.tree), p) ==> ChainMemberCleaned(old(disk.tree), disk.tree, q, CleaningPatterns(jetbrains))
      ensures var dst := backups.backupDir + [BackupName(Name(p), Timestamp(disk.clock), BackupExtension)];
        (createBackups && IsValidSqliteDatabase(old(disk.tree), p) && CanCopy(old(disk.tree), p, dst) ==> res.backupPath == Some(dst)) &&
        (res.backupPath.Some? ==> res.backupPath.value == dst && IsFile(disk.tree, dst) && disk.tree[dst].entry == old(disk.tree)[p].entry)
      ensures forall q :: q in disk.tree && q !in old(disk.tree) ==> res.backupPath == Some(q)
      ensures Confined(old(disk.tree), disk.tree, {p} + BackupsIn(old(disk.tree), p), backups.backupDir)
    {
      if !IsValidSqliteDatabase(disk.tree, p) {
        ConfinedWiden(disk.tree, disk.tree, {}, {p} + BackupsIn(disk.tree, p), backups.backupDir);
        return FileResult(true, None, 0, None);
      }
      ghost var t0 := disk.tree;
      var backupPath: Option<Path> := None;
      if createBackups {
        backupPath := backups.CreateFileBackup(disk, p, "");
        if backupPath.Some? {
          CopyKeepsDatabase(t0, p, backupPath.value, CleaningPatterns(jetbrains));
          if Name(p) != "" {
            BackupIsNotSibling(p, backups.backupDir, Prefix("", Name(p)), Timestamp(disk.clock));
          }
        }
      }
      ghost var tb := disk.tree;
      if backupPath.Some? {
        BackupMissesChain(p, backups.backupDir, Timestamp(disk.clock), p);
        forall q | BackupOf(p, q) ensures q != backupPath.value {
          BackupMissesChain(p, backups.backupDir, Timestamp(disk.clock), q);
        }
      }
      var deleted := ExecuteDatabaseCleaning(disk, p, CleaningPatterns(jetbrains));
      CleanedAfterBackup(t0, tb, disk.tree, p, backups.backupDir, backupPath, CleaningPatterns(jetbrains));
      if deleted.None? {
        return FileResult(false, backupPath, 0, Some(CleaningFailed));
      }
      res := FileResult(true, backupPath, deleted.value, None);
    }

    /** `clean_vscode_databases`: every VSCode directory with a database file has it cleaned,
        and the outcomes are tallied; no directory at all is an error. */
    method CleanVscodeDatabases(disk: Disk, createBackups: bool)
      returns (s: Summary, ghost dirs: seq<Path>, ghost dbs: seq<Option<Path>>, ghost runs: seq<Tree>)
      requires disk.clock.Valid() && paths.Valid()
      modifies disk, paths`vscodeDirs, paths`variantMap
      ensures paths.Valid()
      ensures old(paths.vscodeDirs).Some? ==> dirs == old(paths.vscodeDirs).value
      ensures old(paths.vscodeDirs).None? ==>
        paths.vscodeDirs == Some(dirs) && Discovered(old(disk.tree), paths.ConfigBase(), dirs, paths.variantMap)
      ensures dirs == [] ==> s == NothingFound(NoVscodeMessage)
      ensures VscodeSweep(old(disk.tree), disk.tree, runs, dbs, dirs, backups.backupDir) && |dbs| == |dirs|
      ensures dirs != [] ==> Tallied(s) && s.found == CountFound(dbs)
      ensures s.recordsDeleted == TurnsDeleted(runs, dbs, |dbs|, CleaningPatterns(false))
      ensures s.cleaned == TurnsCleaned(runs, dbs, |dbs|)
    {
      var found := paths.GetVscodeDirectories(disk.tree);
      dirs, dbs, runs := found, [], [disk.tree];
      ConfinedWiden(disk.tree, disk.tree, {}, {}, backups.backupDir);
      if found == [] {
        return NothingFound(NoVscodeMessage), dirs, dbs, runs;
      }
      s, dbs, runs := SweepVscode(disk, found, createBackups);
    }

    /** The loop of `clean_vscode_databases` over the directories `dirs`, each turn against
        the tree the earlier turns left. */
    method SweepVscode(disk: Disk, dirs: seq<Path>, createBackups: bool)
      returns (s: Summary, ghost dbs: seq<Option<Path>>, ghost runs: seq<Tree>)
      requires disk.clock.Valid()
      modifies disk
      ensures VscodeSweep(old(disk.tree), disk.tree, runs, dbs, dirs, backups.backupDir) && |dbs| == |dirs|
      ensures Tallied(s) && s.found == CountFound(dbs)
      ensures s.recordsDeleted == TurnsDeleted(runs, dbs, |dbs|, CleaningPatterns(false))
      ensures s.cleaned == TurnsCleaned(runs, dbs, |dbs|)
    {
      var swept;
      ghost var deleted, cleaned;
      ConfinedWiden(disk.tree, disk.tree, {}, {}, backups.backupDir);
      swept, dbs, runs, deleted, cleaned :=
        VscodeTurnsLoop(disk, dirs, createBackups, 0, Summary(false, 0, 0, 0, 0, [], []), disk.tree, [], [disk.tree], [], []);
      CountedTotals(runs, dbs, deleted, cleaned, CleaningPatterns(false), |dbs|);
      assert deleted[..|dbs|] == deleted && cleaned[..|dbs|] == cleaned;
      s := swept.(success := swept.cleaned > 0);
    }

    /** The remaining turns of the VSCode sweep over `dirs`, from the state the turns of
        `dbs0` left, before the overall success is set. */
    method VscodeTurnsLoop(disk: Disk, dirs: seq<Path>, createBackups: bool, from: nat, s0: Summary, ghost t0: Tree,
                           ghost dbs0: seq<Option<Path>>, ghost runs0: seq<Tree>,
                           ghost deleted0: seq<int>, ghost cleaned0: seq<int>)
      returns (s: Summary, ghost dbs: seq<Option<Path>>, ghost runs: seq<Tree>,
               ghost deleted: seq<int>, ghost cleaned: seq<int>)
      requires disk.clock.Valid() && from == |dbs0| <= |dirs| && |runs0| == |dbs0| + 1
      requires VscodeSweep(t0, disk.tree, runs0, dbs0, dirs, backups.backupDir)
      requires Counted(s0) && s0.found == CountFound(dbs0)
      requires CountedTurns(runs0, dbs0, deleted0, cleaned0, CleaningPatterns(false))
      requires s0.recordsDeleted == Total(deleted0) && s0.cleaned == Total(cleaned0)
      modifies disk
      ensures |dbs| == |dirs| && |runs| == |dirs| + 1
      ensures VscodeSweep(t0, disk.tree, runs, dbs, dirs, backups.backupDir)
      ensures Counted(s) && s.found == CountFound(dbs)
      ensures CountedTurns(runs, dbs, deleted, cleaned, CleaningPatterns(false))
      ensures s.recordsDeleted == Total(deleted) && s.cleaned == Total(cleaned)
    {
      s, dbs, runs, deleted, cleaned := s0, dbs0, runs0, deleted0, cleaned0;
      var i := from;
      while i < |dirs|
        invariant i <= |dirs| && |dbs| == i && |runs| == i + 1
        invariant VscodeSweep(t0, disk.tree, runs, dbs, dirs, backups.backupDir)
        invariant Counted(s) && s.found == CountFound(dbs)
        invariant CountedTurns(runs, dbs, deleted, cleaned, CleaningPatterns(false))
        invariant s.recordsDeleted == Total(deleted) && s.cleaned == Total(cleaned)
      {
        s, dbs, runs, deleted, cleaned :=
          VscodeDirTurn(disk, dirs, i, createBackups, s, t0, dbs, runs, deleted, cleaned);
        i := i + 1;
      }
    }

    /** One turn of the VSCode sweep: the database file of the next directory, if it has
        one, cleaned and recorded in `s`. */
    method VscodeDirTurn(disk: Disk, dirs: seq<Path>, i: nat, createBackups: bool, s: Summary,
                         ghost t0: Tree, ghost dbs: seq<Option<Path>>, ghost runs: seq<Tree>,
                         ghost deleted: seq<int>, ghost cleaned: seq<int>)
      returns (r: Summary, ghost dbs': seq<Option<Path>>, ghost runs': seq<Tree>,
               ghost deleted': seq<int>, ghost cleaned': seq<int>)
      requires disk.clock.Valid() && Counted(s) && s.found == CountFound(dbs)
      requires i == |dbs| < |dirs| && |runs| == i + 1
      requires VscodeSweep(t0, disk.tree, runs, dbs, dirs, backups.backupDir)
      requires CountedTurns(runs, dbs, deleted, cleaned, CleaningPatterns(false))
      requires s.recordsDeleted == Total(deleted) && s.cleaned == Total(cleaned)
      modifies disk
      ensures |dbs'| == i + 1 && |runs'| == i + 2
      ensures dbs' == dbs + [dbs'[i]] && runs' == runs + [disk.tree]
      ensures deleted' == deleted + [DeletedBy(old(disk.tree), dbs'[i], CleaningPatterns(false))]
      ensures cleaned' == cleaned + [CleanedBy(old(disk.tree), dbs'[i])]
      ensures Counted(r) && r.found == CountFound(dbs')
      ensures VscodeSweep(t0, disk.tree, runs', dbs', dirs, backups.backupDir)
      ensures CountedTurns(runs', dbs', deleted', cleaned', CleaningPatterns(false))
      ensures r.recordsDeleted == Total(deleted') && r.cleaned == Total(cleaned')
    {
      ghost var t := disk.tree;
      var db := GetVscodeDatabaseFile(disk.tree, dirs[i]);
      r := s;
      if db.Some? {
        r := CleanTurn(disk, db.value, createBackups, false, s);
      }
      VscodeDirStep(t0, t, disk.tree, runs, dbs, dirs, backups.backupDir, db, deleted, cleaned, s, r);
      dbs', runs' := dbs + [db], runs + [disk.tree];
      deleted', cleaned' := deleted + [DeletedBy(t, db, CleaningPatterns(false))], cleaned + [CleanedBy(t, db)];
    }

    /** One turn of either sweep: `_clean_database_file` on `p`, recorded in `s`. */
    method CleanTurn(disk: Disk, p: Path, createBackups: bool, jetbrains: bool, s: Summary) returns (r: Summary)
      requires disk.clock.Valid() && Counted(s)
      modifies disk
      ensures Counted(r) && r.found == s.found + 1
      ensures r.recordsDeleted == s.recordsDeleted + Deleted(old(disk.tree), p, CleaningPatterns(jetbrains))
      ensures r.cleaned == s.cleaned + if TurnCleaned(old(disk.tree), p) then 1 else 0
      ensures DatabaseTurn(old(disk.tree), disk.tree, p, CleaningPatterns(jetbrains), backups.backupDir)
    {
      var res := CleanDatabaseFile(disk, p, createBackups, jetbrains);
      RecordTallies(s, p, res);
      r := Record(s, p, res);
    }

    /** `clean_jetbrains_databases`: every database file under the JetBrains directory is
        cleaned with the JetBrains patterns, each against the tree the earlier turns left,
        and the outcomes are tallied; no file at all is an error. */
    method CleanJetbrainsDatabases(disk: Disk, createBackups: bool) returns (s: Summary, ghost dbs: seq<Path>, ghost runs: seq<Tree>)
      requires disk.clock.Valid()
      modifies disk, paths`jetbrainsDir
      ensures var dir := JetBrainsConfigDir(old(paths.jetbrainsDir), old(disk.tree), paths.platformPaths);
        forall p :: p in dbs <==>
          dir.Some? && dir.value in old(disk.tree) && IsFile(old(disk.tree), p) &&
          Reachable(old(disk.tree), dir.value, p) && IsDatabaseName(Name(p))
      ensures dbs == [] ==> s == NothingFound(NoJetBrainsMessage)
      ensures dbs != [] ==> Tallied(s) && s.found == |dbs|
      ensures JetbrainsSweep(old(disk.tree), disk.tree, runs, dbs, |dbs|, backups.backupDir)
      ensures s.recordsDeleted == TurnsDeleted(runs, Found(dbs), |dbs|, CleaningPatterns(true))
      ensures s.cleaned == TurnsCleaned(runs, Found(dbs), |dbs|)
    {
      var files := paths.GetJetBrainsDatabaseFiles(disk.tree);
      dbs, runs := files, [disk.tree];
      ConfinedWiden(disk.tree, disk.tree, {}, {}, backups.backupDir);
      if files == [] {
        return NothingFound(NoJetBrainsMessage), dbs, runs;
      }
      s := Summary(false, 0, 0, 0, 0, [], []);
      var i := 0;
      while i < |files|
        invariant 0 <= i <= |files| && |runs| == i + 1
        invariant JetbrainsSweep(old(disk.tree), disk.tree, runs, files, i, backups.backupDir)
        invariant Counted(s) && s.found == i
        invariant s.recordsDeleted == TurnsDeleted(runs, Found(files), i, CleaningPatterns(true))
        invariant s.cleaned == TurnsCleaned(runs, Found(files), i)
      {
        s, runs := JetbrainsTurn(disk, files, i, createBackups, s, old(disk.tree), runs);
        i := i + 1;
      }
      s := s.(success := s.cleaned > 0);
    }

    /** One turn of the JetBrains sweep: the next database file of `files` cleaned and
        recorded in `s`. */
    method JetbrainsTurn(disk: Disk, files: seq<Path>, i: nat, createBackups: bool, s: Summary,
                         ghost t0: Tree, ghost runs: seq<Tree>)
      returns (r: Summary, ghost runs': seq<Tree>)
      requires disk.clock.Valid() && i < |files| && |runs| == i + 1
      requires JetbrainsSweep(t0, disk.tree, runs, files, i, backups.backupDir)
      requires Counted(s) && s.found == i
      requires s.recordsDeleted == TurnsDeleted(runs, Found(files), i, CleaningPatterns(true))
      requires s.cleaned == TurnsCleaned(runs, Found(files), i)
      modifies disk
      ensures |runs'| == i + 2
      ensures JetbrainsSweep(t0, disk.tree, runs', files, i + 1, backups.backupDir)
      ensures Counted(r) && r.found == i + 1
      ensures r.recordsDeleted == TurnsDeleted(runs', Found(files), i + 1, CleaningPatterns(true))
      ensures r.cleaned == TurnsCleaned(runs', Found(files), i + 1)
    {
      ghost var t := disk.tree;
      r := CleanTurn(disk, files[i], createBackups, true, s);
      JetbrainsSweepExtend(t0, t, runs, files, i, backups.backupDir, disk.tree);
      runs' := runs + [disk.tree];
    }

    /** `get_database_info`: each VSCode database file (with the variant its directory is
        named after) and each JetBrains database file, whether it exists and whether it is a
        valid SQLite database; nothing on disk changes. */
    method GetDatabaseInfo(disk: Disk) returns (info: DatabaseInfo, ghost dirs: seq<Path>, ghost dbs: seq<Path>)
      requires paths.Valid()
      modifies paths`vscodeDirs, paths`variantMap, paths`jetbrainsDir
      ensures paths.Valid()
      ensures old(paths.vscodeDirs).Some? ==> dirs == old(paths.vscodeDirs).value
      ensures old(paths.vscodeDirs).None? ==>
        paths.vscodeDirs == Some(dirs) && Discovered(disk.tree, paths.ConfigBase(), dirs, paths.variantMap)
      ensures var dir := JetBrainsConfigDir(old(paths.jetbrainsDir), disk.tree, paths.platformPaths);
        forall p :: p in dbs <==>
          dir.Some? && dir.value in disk.tree && IsFile(disk.tree, p) &&
          Reachable(disk.tree, dir.value, p) && IsDatabaseName(Name(p))
      ensures info.vscode == VscodeInfos(disk.tree, dirs)
      ensures |info.jetbrains| == |dbs| && forall k :: 0 <= k < |dbs| ==> info.jetbrains[k] == Describe(disk.tree, dbs[k], None)
      ensures info.total == |info.vscode| + |info.jetbrains|
      ensures info.accessible == CountAccessible(info.vscode) + CountAccessible(info.jetbrains)
    {
      var found := paths.GetVscodeDirectories(disk.tree);
      dirs := found;
      var vscode, a := DescribeVscode(disk.tree, found);
      var files := paths.GetJetBrainsDatabaseFiles(disk.tree);
      dbs := files;
      var jetbrains, b := DescribeJetbrains(disk.tree, files);
      info := DatabaseInfo(vscode, jetbrains, |vscode| + |jetbrains|, a + b);
    }
  }
}
