/** The part of an SQLite database the cleaners see: tables listed by `sqlite_master`, their
    declared column types (`PRAGMA table_info`), rows addressed by rowid, and the `LIKE`
    operator with its default ASCII case folding. */
module Sqlite {
  import opened Common

  datatype Value = Null | Integer(i: int) | Text(s: string)

  datatype Column = Column(name: string, declType: string)

  /** A row: its rowid and the value of each named column (a column it lacks reads as NULL). */
  datatype Row = Row(rowid: int, cells: map<string, Value>)

  datatype Table = Table(name: string, columns: seq<Column>, rows: seq<Row>)

  /** The tables `sqlite_master` lists with type 'table', in its order. */
  datatype Database = Database(tables: seq<Table>)

  function Cell(r: Row, col: string): Value {
    if col in r.cells then r.cells[col] else Null
  }

  /** The text LIKE compares: an integer is rendered in decimal, NULL yields no text. */
  function LikeText(v: Value): Option<string> {
    match v
    case Null => None
    case Integer(i) => Some(IntToString(i))
    case Text(s) => Some(s)
  }

  /** Python's `str(value)` for a value read back from SQLite. */
  function PyStr(v: Value): string {
    match v
    case Null => "None"
    case Integer(i) => IntToString(i)
    case Text(s) => s
  }

  predicate NoWildcards(x: string) {
    forall i :: 0 <= i < |x| ==> x[i] != '%' && x[i] != '_'
  }

  /** `s LIKE p` without an ESCAPE clause: `%` matches any run of characters, `_` exactly one,
      and ASCII letters compare without regard to case. */
  predicate LikeMatch(s: string, p: string): (m: bool)
    ensures m && '%' !in p ==> |s| == |p|
    decreases |p|, |s|
  {
    if p == [] then s == []
    else if p[0] == '%' then LikeMatch(s, p[1..]) || (s != [] && LikeMatch(s[1..], p))
    else s != [] && (p[0] == '_' || LowerChar(s[0]) == LowerChar(p[0])) && LikeMatch(s[1..], p[1..])
  }

  /** `v LIKE p`; NULL is never matched. */
  predicate Like(v: Value, p: string) {
    LikeText(v).Some? && LikeMatch(LikeText(v).value, p)
  }

  /** A pattern of the shape `%x%` with no wildcard inside. */
  predicate IsContainsPattern(p: string) {
    2 <= |p| && p[0] == '%' && p[|p| - 1] == '%' && NoWildcards(p[1..|p| - 1])
  }

  function Inner(p: string): string
    requires IsContainsPattern(p)
  {
    p[1..|p| - 1]
  }

  lemma {:induction false} PercentMatchesAll(s: string)
    ensures LikeMatch(s, "%")
    decreases |s|
  {
    if s != [] {
      PercentMatchesAll(s[1..]);
    }
  }

  lemma LowerTail(s: string)
    requires s != []
    ensures Lower(s)[1..] == Lower(s[1..])
  {
  }

  /** `s LIKE 'x%'` is a case-insensitive prefix test when `x` has no wildcard. */
  lemma {:induction false} LikePrefix(s: string, x: string)
    requires NoWildcards(x)
    ensures LikeMatch(s, x + "%") <==> StartsWith(Lower(s), Lower(x))
    decreases |x|
  {
    if x == [] {
      assert x + "%" == "%";
      PercentMatchesAll(s);
    } else {
      assert (x + "%")[1..] == x[1..] + "%";
      if s != [] {
        LikePrefix(s[1..], x[1..]) by {
          assert NoWildcards(x[1..]) by {
            forall i | 0 <= i < |x[1..]| ensures x[1..][i] != '%' && x[1..][i] != '_' {
              assert x[1..][i] == x[i + 1];
            }
          }
        }
        LowerTail(s);
        LowerTail(x);
        if StartsWith(Lower(s), Lower(x)) {
          assert Lower(s)[0] == Lower(x)[0];
          assert Lower(s[1..])[..|x| - 1] == Lower(s)[..|x|][1..];
        }
        if LowerChar(s[0]) == LowerChar(x[0]) && StartsWith(Lower(s[1..]), Lower(x[1..])) {
          assert Lower(s)[..|x|] == [Lower(s)[0]] + Lower(s[1..])[..|x| - 1];
          assert Lower(x) == [Lower(x)[0]] + Lower(x[1..]);
        }
      }
    }
  }

  /** `s LIKE '%x%'` is SQLite's default case-insensitive substring test when `x` has no
      wildcard: ASCII letters are folded, every other character compares exactly. */
  lemma {:induction false} LikeContains(s: string, x: string)
    requires NoWildcards(x)
    ensures LikeMatch(s, "%" + x + "%") <==> ContainsIgnoreCase(s, x)
    decreases |s|
  {
    var p := "%" + x + "%";
    assert p[1..] == x + "%";
    LikePrefix(s, x);
    if s != [] {
      LikeContains(s[1..], x);
      LowerTail(s);
    }
  }

  /** The same fact for a pattern of the shape `%x%`. */
  lemma LikeContainsPattern(v: Value, p: string)
    requires IsContainsPattern(p)
    ensures Like(v, p) <==> LikeText(v).Some? && ContainsIgnoreCase(LikeText(v).value, Inner(p))
  {
    assert p == "%" + Inner(p) + "%";
    if LikeText(v).Some? {
      LikeContains(LikeText(v).value, Inner(p));
    }
  }

  /** A case-sensitive occurrence is also a case-insensitive one. */
  lemma ContainsImpliesIgnoreCase(s: string, x: string)
    requires Contains(s, x)
    ensures ContainsIgnoreCase(s, x)
  {
    ContainsAt(s, x);
    var k :| OccursAt(s, x, k);
    assert Lower(s)[k..k + |x|] == Lower(x);
    assert OccursAt(Lower(s), Lower(x), k);
    ContainsAt(Lower(s), Lower(x));
  }

  /** The names of the columns whose declared type, upper-cased, is one of `types`, in
      declaration order. */
  function TextColumns(columns: seq<Column>, types: seq<string>): (r: seq<string>)
    ensures forall i :: 0 <= i < |columns| && Upper(columns[i].declType) in types ==> columns[i].name in r
    ensures forall n :: n in r ==>
      exists i :: 0 <= i < |columns| && columns[i].name == n && Upper(columns[i].declType) in types
  {
    if columns == [] then []
    else
      var rest := TextColumns(columns[1..], types);
      assert forall i :: 1 <= i < |columns| ==> columns[i] == columns[1..][i - 1];
      if Upper(columns[0].declType) in types then [columns[0].name] + rest else rest
  }

  /** A (column, pattern) pair: one `WHERE column LIKE pattern` clause. */
  type Clause = (string, string)

  /** `r` is selected by at least one of the clauses. */
  predicate Hits(r: Row, clauses: seq<Clause>) {
    exists k :: 0 <= k < |clauses| && Like(Cell(r, clauses[k].0), clauses[k].1)
  }

  /** The rows left after `DELETE ... WHERE` each clause in turn, in their original order. */
  function Survivors(rows: seq<Row>, clauses: seq<Clause>): (r: seq<Row>)
    ensures |r| <= |rows|
  {
    if rows == [] then []
    else (if Hits(rows[0], clauses) then [] else [rows[0]]) + Survivors(rows[1..], clauses)
  }

  /** `SELECT COUNT(*) ... WHERE` any of the clauses. */
  function CountHits(rows: seq<Row>, clauses: seq<Clause>): nat {
    if rows == [] then 0
    else (if Hits(rows[0], clauses) then 1 else 0) + CountHits(rows[1..], clauses)
  }

  /** Every row is either counted or survives, never both. */
  lemma {:induction false} CountPlusSurvivors(rows: seq<Row>, clauses: seq<Clause>)
    ensures CountHits(rows, clauses) + |Survivors(rows, clauses)| == |rows|
  {
    if rows != [] {
      CountPlusSurvivors(rows[1..], clauses);
    }
  }

  /** A row survives exactly when it was there and no clause selects it. */
  lemma {:induction false} SurvivorsMembership(rows: seq<Row>, clauses: seq<Clause>, r: Row)
    ensures r in Survivors(rows, clauses) <==> r in rows && !Hits(r, clauses)
  {
    if rows != [] {
      SurvivorsMembership(rows[1..], clauses, r);
      assert rows == [rows[0]] + rows[1..];
    }
  }

  /** Nothing is deleted when no row is selected. */
  lemma {:induction false} SurvivorsAll(rows: seq<Row>, clauses: seq<Clause>)
    requires forall i :: 0 <= i < |rows| ==> !Hits(rows[i], clauses)
    ensures Survivors(rows, clauses) == rows
    ensures CountHits(rows, clauses) == 0
  {
    if rows != [] {
      SurvivorsAll(rows[1..], clauses);
    }
  }

  lemma HitsAppend(r: Row, clauses: seq<Clause>, c: Clause)
    ensures Hits(r, clauses + [c]) <==> Hits(r, clauses) || Like(Cell(r, c.0), c.1)
  {
    var all := clauses + [c];
    assert all[|clauses|] == c;
    if Hits(r, all) {
      var k :| 0 <= k < |all| && Like(Cell(r, all[k].0), all[k].1);
      if k < |clauses| {
        assert all[k] == clauses[k];
      }
    }
    if Hits(r, clauses) {
      var k :| 0 <= k < |clauses| && Like(Cell(r, clauses[k].0), clauses[k].1);
      assert all[k] == clauses[k];
    }
  }

  /** Deleting by one more clause after the others is deleting by all of them at once. */
  lemma {:induction false} SurvivorsStep(rows: seq<Row>, clauses: seq<Clause>, c: Clause)
    ensures Survivors(Survivors(rows, clauses), [c]) == Survivors(rows, clauses + [c])
  {
    if rows != [] {
      SurvivorsStep(rows[1..], clauses, c);
      HitsAppend(rows[0], clauses, c);
      HitsAppend(rows[0], [], c);
      assert [] + [c] == [c];
      var head := if Hits(rows[0], clauses) then [] else [rows[0]];
      assert Survivors(rows, clauses) == head + Survivors(rows[1..], clauses);
      SurvivorsConcat(head, Survivors(rows[1..], clauses), [c]);
    }
  }

  lemma {:induction false} SurvivorsConcat(a: seq<Row>, b: seq<Row>, clauses: seq<Clause>)
    ensures Survivors(a + b, clauses) == Survivors(a, clauses) + Survivors(b, clauses)
  {
    if a != [] {
      assert (a + b)[1..] == a[1..] + b;
      SurvivorsConcat(a[1..], b, clauses);
    } else {
      assert a + b == b;
    }
  }

  /** Deleting again by the same clauses removes nothing more. */
  lemma SurvivorsIdempotent(rows: seq<Row>, clauses: seq<Clause>)
    ensures Survivors(Survivors(rows, clauses), clauses) == Survivors(rows, clauses)
    ensures CountHits(Survivors(rows, clauses), clauses) == 0
  {
    var s := Survivors(rows, clauses);
    forall i | 0 <= i < |s| ensures !Hits(s[i], clauses) {
      SurvivorsMembership(rows, clauses, s[i]);
    }
    SurvivorsAll(s, clauses);
  }

  /** The clauses `for column in columns: for pattern in patterns`, in that loop order. */
  function Clauses(columns: seq<string>, patterns: seq<string>): (r: seq<Clause>)
    ensures |r| == |columns| * |patterns|
  {
    if columns == [] then []
    else Clauses(columns[..|columns| - 1], patterns) + ColumnClauses(columns[|columns| - 1], patterns)
  }

  function ColumnClauses(column: string, patterns: seq<string>): (r: seq<Clause>)
    ensures |r| == |patterns| && forall j :: 0 <= j < |patterns| ==> r[j] == (column, patterns[j])
  {
    seq(|patterns|, j requires 0 <= j < |patterns| => (column, patterns[j]))
  }

  /** A row is selected by the clause list exactly when some column matches some pattern. */
  lemma {:induction false} HitsClauses(r: Row, columns: seq<string>, patterns: seq<string>)
    ensures Hits(r, Clauses(columns, patterns)) <==>
      exists i, j :: 0 <= i < |columns| && 0 <= j < |patterns| && Like(Cell(r, columns[i]), patterns[j])
    decreases |columns|
  {
    if columns != [] {
      var init := columns[..|columns| - 1];
      var last := columns[|columns| - 1];
      HitsClauses(r, init, patterns);
      HitsConcat(r, Clauses(init, patterns), ColumnClauses(last, patterns));
      HitsSnocColumn(r, columns, patterns);
    }
  }

  /** A row hits a concatenation of clause lists when it hits one of the two. */
  lemma HitsConcat(r: Row, a: seq<Clause>, b: seq<Clause>)
    ensures Hits(r, a + b) <==> Hits(r, a) || Hits(r, b)
  {
    var all := a + b;
    if Hits(r, all) {
      var k :| 0 <= k < |all| && Like(Cell(r, all[k].0), all[k].1);
      if k < |a| {
        assert all[k] == a[k];
      } else {
        assert all[k] == b[k - |a|];
      }
    }
    if Hits(r, a) {
      var k :| 0 <= k < |a| && Like(Cell(r, a[k].0), a[k].1);
      assert all[k] == a[k];
    }
    if Hits(r, b) {
      var k :| 0 <= k < |b| && Like(Cell(r, b[k].0), b[k].1);
      assert all[|a| + k] == b[k];
    }
  }

  /** Splitting a column match into one on the leading columns or one on the last column,
      whose clauses are its own. */
  lemma HitsSnocColumn(r: Row, columns: seq<string>, patterns: seq<string>)
    requires columns != []
    ensures var init, last := columns[..|columns| - 1], columns[|columns| - 1];
      (exists i, j :: 0 <= i < |columns| && 0 <= j < |patterns| && Like(Cell(r, columns[i]), patterns[j])) <==>
      (exists i, j :: 0 <= i < |init| && 0 <= j < |patterns| && Like(Cell(r, init[i]), patterns[j])) ||
      Hits(r, ColumnClauses(last, patterns))
  {
    var init, last := columns[..|columns| - 1], columns[|columns| - 1];
    var b := ColumnClauses(last, patterns);
    if exists i, j :: 0 <= i < |columns| && 0 <= j < |patterns| && Like(Cell(r, columns[i]), patterns[j]) {
      var i, j :| 0 <= i < |columns| && 0 <= j < |patterns| && Like(Cell(r, columns[i]), patterns[j]);
      if i < |init| {
        assert init[i] == columns[i];
      } else {
        assert b[j] == (last, patterns[j]);
      }
    }
    if exists i, j :: 0 <= i < |init| && 0 <= j < |patterns| && Like(Cell(r, init[i]), patterns[j]) {
      var i, j :| 0 <= i < |init| && 0 <= j < |patterns| && Like(Cell(r, init[i]), patterns[j]);
      assert columns[i] == init[i];
    }
    if Hits(r, b) {
      var k :| 0 <= k < |b| && Like(Cell(r, b[k].0), b[k].1);
      assert columns[|columns| - 1] == last;
    }
  }

  /** Extending the column list by one column appends that column's clauses. */
  lemma ClausesSnoc(columns: seq<string>, i: nat, patterns: seq<string>)
    requires i < |columns|
    ensures Clauses(columns[..i + 1], patterns) == Clauses(columns[..i], patterns) + ColumnClauses(columns[i], patterns)
  {
    assert columns[..i + 1][..i] == columns[..i];
  }

  lemma ColumnClausesSnoc(column: string, patterns: seq<string>, j: nat)
    requires j < |patterns|
    ensures ColumnClauses(column, patterns[..j + 1]) == ColumnClauses(column, patterns[..j]) + [(column, patterns[j])]
  {
  }

  /** What `_clean_table_records` leaves in a table: every row with no text-typed column
      matching any pattern. */
  function CleanedTable(t: Table, types: seq<string>, patterns: seq<string>): Table {
    t.(rows := Survivors(t.rows, Clauses(TextColumns(t.columns, types), patterns)))
  }

  /** A row is kept exactly when it was in the table and none of its text-typed columns matches
      any pattern; cleaning again keeps everything. */
  lemma CleanedTableSpec(t: Table, types: seq<string>, patterns: seq<string>, r: Row)
    ensures r in CleanedTable(t, types, patterns).rows <==>
      r in t.rows && forall c, p :: c in TextColumns(t.columns, types) && p in patterns ==> !Like(Cell(r, c), p)
    ensures CleanedTable(CleanedTable(t, types, patterns), types, patterns) == CleanedTable(t, types, patterns)
  {
    var cols := TextColumns(t.columns, types);
    var cl := Clauses(cols, patterns);
    SurvivorsMembership(t.rows, cl, r);
    HitsClauses(r, cols, patterns);
    if exists c, p :: c in cols && p in patterns && Like(Cell(r, c), p) {
      var c, p :| c in cols && p in patterns && Like(Cell(r, c), p);
      var i :| 0 <= i < |cols| && cols[i] == c;
      var j :| 0 <= j < |patterns| && patterns[j] == p;
      assert Like(Cell(r, cols[i]), patterns[j]);
    }
    if Hits(r, cl) {
      var i, j :| 0 <= i < |cols| && 0 <= j < |patterns| && Like(Cell(r, cols[i]), patterns[j]);
      assert cols[i] in cols && patterns[j] in patterns;
    }
    SurvivorsIdempotent(t.rows, cl);
  }

  /** The table with the given name, if the database has one. */
  function FindTable(db: Database, name: string): (r: Option<nat>)
    ensures r.Some? ==> r.value < |db.tables| && db.tables[r.value].name == name
    ensures r.None? ==> forall i :: 0 <= i < |db.tables| ==> db.tables[i].name != name
  {
    FindTableFrom(db.tables, name, 0)
  }

  function FindTableFrom(tables: seq<Table>, name: string, from: nat): (r: Option<nat>)
    requires from <= |tables|
    ensures r.Some? ==> from <= r.value < |tables| && tables[r.value].name == name
    ensures r.None? ==> forall i :: from <= i < |tables| ==> tables[i].name != name
    decreases |tables| - from
  {
    if from == |tables| then None
    else if tables[from].name == name then Some(from)
    else FindTableFrom(tables, name, from + 1)
  }

  predicate HasColumn(t: Table, name: string) {
    exists i :: 0 <= i < |t.columns| && t.columns[i].name == name
  }

  function TotalRows(tables: seq<Table>): nat {
    if tables == [] then 0 else |tables[0].rows| + TotalRows(tables[1..])
  }
}
