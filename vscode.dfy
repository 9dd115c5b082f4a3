/** The VSCode-family handler: in every storage directory the discovery finds, the telemetry
    identifiers in `storage.json` and in the `state.vscdb` database are replaced by fresh
    UUIDs; AugmentCode traces can be removed from workspace storage and the cache directories
    cleared. */
module VsCode {
  import opened Common
  import opened Fs
  import opened Sqlite
  import opened Codec
  import opened Settings
  import opened IdGenerator
  import opened FileLocker
  import opened Paths
  import opened Backup
  import opened DbCleaner

  // ----- variant labels -----

  /** Whatever contains `a` contains every prefix of `a`. */
  lemma ContainsPrefix(s: string, a: string, b: string)
    requires Contains(s, a) && StartsWith(a, b)
    ensures Contains(s, b)
  {
    ContainsAt(s, a);
    var k :| OccursAt(s, a, k);
    assert s[k..k + |b|] == a[..|b|];
    assert OccursAt(s, b, k);
    ContainsAt(s, b);
  }

  /** `_get_variant_name_from_path(path)`: the first of the name tests the path's text
      passes, in the order Cursor, Insiders, VSCode, VSCodium. */
  function VariantNameFromPath(s: string): (r: string)
    ensures r in {"Cursor", "VSCode Insiders", "VSCode", "VSCodium", "Unknown VSCode Variant"}
    ensures r == "Cursor" <==> Contains(s, "Cursor")
    ensures r == "Unknown VSCode Variant" <==>
      !Contains(s, "Cursor") && !Contains(s, "Code") && !Contains(s, "VSCodium")
  {
    if Contains(s, "Cursor") then "Cursor"
    else if Contains(s, "Code - Insiders") then
      ContainsPrefix(s, "Code - Insiders", "Code");
      "VSCode Insiders"
    else if Contains(s, "Code") then "VSCode"
    else if Contains(s, "VSCodium") then "VSCodium"
    else "Unknown VSCode Variant"
  }

  lemma LabelOfCode()
    ensures VariantNameFromPath("Code") == "VSCode"
  {
    NotContainsWithout("Code", "Cursor", 1);
    NotContainsWithout("Code", "Code - Insiders", 7);
    assert StartsWith("Code", "Code");
  }

  lemma LabelOfInsiders()
    ensures VariantNameFromPath("Code - Insiders") == "VSCode Insiders"
  {
    NotContainsWithout("Code - Insiders", "Cursor", 1);
    assert StartsWith("Code - Insiders", "Code - Insiders");
  }

  lemma LabelOfCodium()
    ensures VariantNameFromPath("VSCodium") == "VSCodium"
  {
    NotContainsWithout("VSCodium", "Cursor", 2);
    ShorterNotContains("VSCodium", "Code - Insiders");
    NotContainsWithout("VSCodium", "Code", 3);
    assert StartsWith("VSCodium", "VSCodium");
  }

  lemma LabelOfCodeServer(s: string)
    requires s == "code-server"
    ensures VariantNameFromPath(s) == "Unknown VSCode Variant"
  {
    NotContainsWithout(s, "Cursor", 0);
    NotContainsWithout(s, "Code", 0);
    assert s == ['c', 'o', 'd', 'e', '-', 's', 'e', 'r', 'v', 'e', 'r'];
    NotContainsWithout(s, "VSCodium", 0);
  }

  /** The directory name of each configured variant gets its own label, except the lower-case
      `code-server`, which none of the tests recognises. */
  lemma VariantLabelsOfConfiguredNames()
    ensures VariantNameFromPath("Code") == "VSCode"
    ensures VariantNameFromPath("Code - Insiders") == "VSCode Insiders"
    ensures VariantNameFromPath("VSCodium") == "VSCodium"
    ensures VariantNameFromPath("Cursor") == "Cursor"
    ensures VariantNameFromPath("code-server") == "Unknown VSCode Variant"
  {
    LabelOfCode();
    LabelOfInsiders();
    LabelOfCodium();
    assert StartsWith("Cursor", "Cursor");
    LabelOfCodeServer("code-server");
  }

  // ----- storage.json -----

  /** The telemetry keys are four distinct strings (their lengths differ). */
  lemma TelemetryKeysDistinct()
    ensures forall a, b :: 0 <= a < b < |TelemetryKeys| ==> TelemetryKeys[a] != TelemetryKeys[b]
  {
    assert |TelemetryKeys[0]| == 19 && |TelemetryKeys[1]| == 21;
    assert |TelemetryKeys[2]| == 22 && |TelemetryKeys[3]| == 15;
  }

  /** The loop of `_process_storage_json` over the telemetry keys (any list of
      keys): each key the document holds gets a fresh device id, and its old and new values
      are recorded under the key. */
  method RewriteKeys(e: Entropy, data: map<string, string>, keys: seq<string>)
    returns (updated: map<string, string>, oldIds: map<string, Value>, newIds: map<string, string>)
    modifies e
    ensures forall k :: k in oldIds <==> k in data && k in keys
    ensures forall k :: k in oldIds ==> oldIds[k] == Value.Text(data[k])
    ensures newIds.Keys == oldIds.Keys && forall k :: k in newIds ==> IsUuid4(newIds[k])
    ensures updated.Keys == data.Keys
    ensures forall k :: k in data ==> updated[k] == if k in newIds then newIds[k] else data[k]
  {
    updated, oldIds, newIds := data, map[], map[];
    ghost var seen: set<string> := {};
    var i := 0;
    while i < |keys|
      invariant 0 <= i <= |keys|
      invariant forall j :: 0 <= j < i ==> keys[j] in seen
      invariant forall k :: k in seen ==> k in keys
      invariant forall k :: k in oldIds <==> k in data && k in seen
      invariant forall k :: k in oldIds ==> oldIds[k] == Value.Text(data[k])
      invariant newIds.Keys == oldIds.Keys && forall k :: k in newIds ==> IsUuid4(newIds[k])
      invariant updated.Keys == data.Keys
      invariant forall k :: k in data ==> updated[k] == if k in newIds then newIds[k] else data[k]
    {
      var key := keys[i];
      if key in data {
        var id := GenerateUuid(e);
        oldIds := oldIds[key := Value.Text(data[key])];
        newIds := newIds[key := id];
        updated := updated[key := id];
      }
      forall j | 0 <= j < i + 1 ensures keys[j] in seen + {key} {
        if j < i {
          assert keys[j] in seen;
        }
      }
      seen := seen + {key};
      i := i + 1;
    }
  }

  /** What one storage file's processing reports: whether it succeeded, the backup made, the
      identifiers replaced (old and new values under the same keys) and the error texts. */
  datatype Outcome = Outcome(success: bool, backupPath: Option<Path>, oldIds: map<string, Value>,
                             newIds: map<string, string>, errors: seq<string>)

  const StorageJsonFailed := "Failed to process storage.json"
  const StateDbFailed := "Failed to process state database"

  /** `json.load` succeeds: a readable file holding a JSON document. */
  predicate JsonReadable(t: Tree, p: Path) {
    IsFile(t, p) && t[p].readable &&
    var c := t[p].entry.content;
    c.Json? || c.JsonList? || c.JsonString? || c.JsonScalar?
  }

  /** `key in data` on an array or a string: an element equal to the key, or a substring. */
  predicate FindsKey(c: Content, key: string)
    requires c.JsonList? || c.JsonString?
  {
    if c.JsonList? then key in c.items else Contains(c.s, key)
  }

  /** The key loop of `_process_storage_json` raises on a document that is not an object:
      on a number, `true`, `false` or `null` at its first `in` test, and on an array or a
      string at the first telemetry key `in` finds, since `data[key]` then needs an integer
      index. */
  predicate KeyLoopRaises(c: Content) {
    c.JsonScalar? ||
    ((c.JsonList? || c.JsonString?) && exists j :: 0 <= j < |TelemetryKeys| && FindsKey(c, TelemetryKeys[j]))
  }

  /** When `_process_storage_json` succeeds on `f`: the document loads and the key loop does
      not raise, and an object holding a telemetry key can be written back (the file is ours
      and its directory exists). */
  predicate StorageJsonSucceeds(t: Tree, f: Path) {
    JsonReadable(t, f) && !KeyLoopRaises(t[f].entry.content) &&
    (t[f].entry.content.Json? ==>
      (forall k :: k in t[f].entry.content.fields ==> k !in TelemetryKeys) ||
      (t[f].owned && f != [] && IsDir(t, Parent(f))))
  }

  /** What `_process_storage_json` leaves in `f`: when it rewrites the object, every telemetry
      key holds a fresh UUID and every other key its old value; otherwise the file's content
      is as it was. */
  ghost predicate JsonCleaned(t0: Tree, t1: Tree, f: Path) {
    (f in t1 <==> f in t0) &&
    if StorageJsonSucceeds(t0, f) && t0[f].entry.content.Json? then
      var was := t0[f].entry.content.fields;
      IsFile(t1, f) && t1[f].entry.content.Json? && t1[f].entry.content.fields.Keys == was.Keys &&
      forall k :: k in was ==>
        if k in TelemetryKeys then IsUuid4(t1[f].entry.content.fields[k]) else t1[f].entry.content.fields[k] == was[k]
    else f in t0 ==> t1[f].entry == t0[f].entry
  }

  /** `for key in telemetry_keys: if key in data` on a document that is not an object, up to
      the first test that raises. */
  method ScanDocument(c: Content) returns (raises: bool)
    requires c.JsonList? || c.JsonString? || c.JsonScalar?
    ensures raises <==> KeyLoopRaises(c)
  {
    var i := 0;
    while i < |TelemetryKeys|
      invariant 0 <= i <= |TelemetryKeys|
      invariant c.JsonScalar? ==> i == 0
      invariant forall j :: 0 <= j < i ==> !FindsKey(c, TelemetryKeys[j])
    {
      if c.JsonScalar? || FindsKey(c, TelemetryKeys[i]) {
        return true;
      }
      i := i + 1;
    }
    return false;
  }

  /** Between `t0` and `t1` nothing but `p` and the backup `b` changed, and no entry but the
      backup appeared. */
  ghost predicate OnlyTouches(t0: Tree, t1: Tree, p: Path, b: Option<Path>) {
    t1.Keys == t0.Keys + (if b.Some? then {b.value} else {}) &&
    forall q :: q in t0 && q != p && (b.None? || q != b.value) ==> t1[q] == t0[q]
  }

  /** The mode `chmod(S_IWRITE | S_IREAD)` leaves is writable; `chmod(S_IREAD)` locks. */
  lemma ModesAfterChmod(m: Mode)
    ensures Writable(SetPermissions(m, S_IWUSR | S_IRUSR))
    ensures !Writable(SetPermissions(m, S_IRUSR))
  {
  }

  // ----- state.vscdb -----

  /** The declared types `_process_state_database` treats as text. */
  const StateTextTypes: seq<string> := ["TEXT", "VARCHAR", "CHAR"]

  /** A value of the column survives both tests of the update loop: it is LIKE `%key%`, and
      `key in str(value)`. */
  predicate Selected(v: Value, key: string) {
    Like(v, "%" + key + "%") && Contains(PyStr(v), key)
  }

  lemma TelemetryKeyShape(key: string)
    requires key in TelemetryKeys
    ensures key != [] && key[0] == 't' && NoWildcards(key)
  {
    var i :| 0 <= i < |TelemetryKeys| && TelemetryKeys[i] == key;
    assert i == 0 || i == 1 || i == 2 || i == 3;
  }

  /** For a telemetry key the two tests amount to one: the value is text holding the key. A
      number's decimal text never holds a key, and NULL is never LIKE anything. */
  lemma SelectedText(v: Value, key: string)
    requires key in TelemetryKeys
    ensures Selected(v, key) <==> v.Text? && Contains(v.s, key)
  {
    TelemetryKeyShape(key);
    match v
    case Null =>
    case Integer(i) =>
      var s := IntToString(i);
      forall k | 0 <= k < |s|
        ensures s[k] != key[0]
      {
        if i < 0 {
          assert s == "-" + NatToString(-i);
          if k > 0 {
            assert s[k] == NatToString(-i)[k - 1];
          }
        }
      }
      NotContainsWithout(s, key, 0);
    case Text(s) =>
      if Contains(s, key) {
        ContainsImpliesIgnoreCase(s, key);
        LikeContains(s, key);
      }
  }

  /** A fresh UUID holds no telemetry key: it is made of hex digits and dashes, and every key
      starts with 't'. */
  lemma UuidHoldsNoKey(u: string, key: string)
    requires IsUuid4(u) && key in TelemetryKeys
    ensures !Selected(Value.Text(u), key)
  {
    TelemetryKeyShape(key);
    forall k | 0 <= k < |u|
      ensures u[k] != key[0]
    {
    }
    NotContainsWithout(u, key, 0);
    SelectedText(Value.Text(u), key);
  }

  /** `str(value).replace(str(value), new_id)` is just `new_id`. */
  lemma ReplaceWhole(s: string, x: string)
    requires s != []
    ensures ReplaceAll(s, s, x) == x
  {
    assert StartsWith(s, s);
    assert s[|s|..] == [];
    assert !StartsWith([], s);
    assert ReplaceAll([], s, x) == [];
  }

  predicate IsUuidText(v: Value) {
    v.Text? && IsUuid4(v.s)
  }

  /** `v` holds one of `keys`, as the update loop finds it. */
  predicate HoldsKey(v: Value, keys: seq<string>) {
    v.Text? && exists j :: 0 <= j < |keys| && Contains(v.s, keys[j])
  }

  /** The cell `now` is `was` once `keys` have been looked for in it: a fresh UUID when it held
      one of them, untouched otherwise. */
  predicate Rewritten(was: Value, now: Value, keys: seq<string>) {
    if HoldsKey(was, keys) then IsUuidText(now) else now == was
  }

  /** One `SELECT … LIKE '%key%'` / `UPDATE … WHERE rowid = ?` pass of column `col` over a row. */
  predicate StepRow(was: Row, now: Row, col: string, key: string) {
    now.rowid == was.rowid && now.cells.Keys == was.cells.Keys &&
    forall c :: c in was.cells ==>
      if c == col && Selected(was.cells[c], key) then IsUuidText(now.cells[c]) else now.cells[c] == was.cells[c]
  }

  /** A pass that selects nothing in a row leaves the row as it was. */
  lemma StepRowIdle(was: Row, now: Row, col: string, key: string)
    requires StepRow(was, now, col, key) && !Selected(Cell(was, col), key)
    ensures now == was
  {
    assert now.cells == was.cells;
  }

  /** One row of the update loop: a row whose cell in `col` holds the key gets a fresh UUID
      there; the value replaced and its replacement are reported. */
  method RewriteRow(e: Entropy, row: Row, col: string, key: string)
    returns (now: Row, replaced: Option<(Value, string)>)
    requires key in TelemetryKeys
    modifies e
    ensures StepRow(row, now, col, key)
    ensures replaced.None? <==> !Selected(Cell(row, col), key)
    ensures replaced.Some? ==> IsUuid4(replaced.value.1)
  {
    var v := Cell(row, col);
    if Selected(v, key) {
      SelectedText(v, key);
      TelemetryKeyShape(key);
      var id := GenerateUuid(e);
      ReplaceWhole(PyStr(v), id);
      var newValue := ReplaceAll(PyStr(v), PyStr(v), id);
      now := row.(cells := row.cells[col := Value.Text(newValue)]);
      replaced := Some((v, newValue));
    } else {
      now := row;
      replaced := None;
    }
  }

  /** The update loop for one text column and one key: every row holding the key gets a fresh
      UUID in that column; the last value replaced and its replacement are reported. */
  method RewriteColumn(e: Entropy, rows: seq<Row>, col: string, key: string)
    returns (now: seq<Row>, last: Option<(Value, string)>)
    requires key in TelemetryKeys
    modifies e
    ensures |now| == |rows|
    ensures forall r :: 0 <= r < |rows| ==> StepRow(rows[r], now[r], col, key)
    ensures last.Some? ==> IsUuid4(last.value.1)
    ensures last.None? <==> forall r :: 0 <= r < |rows| ==> !Selected(Cell(rows[r], col), key)
  {
    now := [];
    last := None;
    var r := 0;
    while r < |rows|
      invariant 0 <= r <= |rows| && |now| == r
      invariant forall k :: 0 <= k < r ==> StepRow(rows[k], now[k], col, key)
      invariant last.Some? ==> IsUuid4(last.value.1)
      invariant last.None? <==> forall k :: 0 <= k < r ==> !Selected(Cell(rows[k], col), key)
    {
      var row, replaced := RewriteRow(e, rows[r], col, key);
      if replaced.Some? {
        last := replaced;
      }
      now := now + [row];
      r := r + 1;
    }
  }

  /** The keys looked for in column `c` once columns `cols[..i]` are done and column `cols[i]`
      has been searched for the first `j` telemetry keys. */
  function KeysSoFar(c: string, cols: seq<string>, i: nat, j: nat): seq<string>
    requires i <= |cols| && j <= |TelemetryKeys|
  {
    if c in cols[..i] then TelemetryKeys
    else if i < |cols| && c == cols[i] then TelemetryKeys[..j]
    else []
  }

  ghost predicate RowPartial(was: Row, now: Row, cols: seq<string>, i: nat, j: nat)
    requires i <= |cols| && j <= |TelemetryKeys|
  {
    now.rowid == was.rowid && now.cells.Keys == was.cells.Keys &&
    forall c :: c in was.cells ==> Rewritten(was.cells[c], now.cells[c], KeysSoFar(c, cols, i, j))
  }

  /** The row `now` is `was` after the whole update loop over the text columns `cols`: every
      cell of those columns holding a telemetry key is a fresh UUID, every other cell is as it
      was, and the row keeps its rowid. */
  ghost predicate RowRewritten(was: Row, now: Row, cols: seq<string>) {
    now.rowid == was.rowid && now.cells.Keys == was.cells.Keys &&
    forall c :: c in was.cells ==>
      Rewritten(was.cells[c], now.cells[c], if c in cols then TelemetryKeys else [])
  }

  /** Looking for one more key in a cell. */
  lemma CellStep(was: Value, cur: Value, next: Value, keys: seq<string>, key: string)
    requires key in TelemetryKeys && Rewritten(was, cur, keys)
    requires if Selected(cur, key) then IsUuidText(next) else next == cur
    ensures Rewritten(was, next, keys + [key])
  {
    var ks := keys + [key];
    if HoldsKey(was, keys) {
      UuidHoldsNoKey(cur.s, key);
      var j :| 0 <= j < |keys| && Contains(was.s, keys[j]);
      assert ks[j] == keys[j];
    } else {
      SelectedText(was, key);
      if Selected(was, key) {
        assert ks[|keys|] == key;
      } else {
        forall j | 0 <= j < |ks|
          ensures !(was.Text? && Contains(was.s, ks[j]))
        {
          if j < |keys| {
            assert ks[j] == keys[j];
          }
        }
      }
    }
  }

  /** Looking again for a key in a cell already searched for all of them changes nothing. */
  lemma CellStable(was: Value, cur: Value, next: Value, key: string)
    requires key in TelemetryKeys && Rewritten(was, cur, TelemetryKeys)
    requires if Selected(cur, key) then IsUuidText(next) else next == cur
    ensures Rewritten(was, next, TelemetryKeys)
  {
    if HoldsKey(was, TelemetryKeys) {
      UuidHoldsNoKey(cur.s, key);
    } else {
      SelectedText(was, key);
      var j :| 0 <= j < |TelemetryKeys| && TelemetryKeys[j] == key;
    }
  }

  lemma RowStep(was: Row, cur: Row, next: Row, cols: seq<string>, i: nat, j: nat)
    requires i < |cols| && j < |TelemetryKeys|
    requires RowPartial(was, cur, cols, i, j)
    requires StepRow(cur, next, cols[i], TelemetryKeys[j])
    ensures RowPartial(was, next, cols, i, j + 1)
  {
    forall c | c in was.cells
      ensures Rewritten(was.cells[c], next.cells[c], KeysSoFar(c, cols, i, j + 1))
    {
      if c == cols[i] {
        if c in cols[..i] {
          CellStable(was.cells[c], cur.cells[c], next.cells[c], TelemetryKeys[j]);
        } else {
          TakeSnoc(TelemetryKeys, j);
          CellStep(was.cells[c], cur.cells[c], next.cells[c], TelemetryKeys[..j], TelemetryKeys[j]);
        }
      }
    }
  }

  lemma RowNextColumn(was: Row, now: Row, cols: seq<string>, i: nat)
    requires i < |cols| && RowPartial(was, now, cols, i, |TelemetryKeys|)
    ensures RowPartial(was, now, cols, i + 1, 0)
  {
    assert cols[..i + 1] == cols[..i] + [cols[i]];
    assert TelemetryKeys[..|TelemetryKeys|] == TelemetryKeys;
    forall c | c in was.cells
      ensures KeysSoFar(c, cols, i + 1, 0) == KeysSoFar(c, cols, i, |TelemetryKeys|)
    {
    }
  }

  lemma RowPartialDone(was: Row, now: Row, cols: seq<string>)
    requires RowPartial(was, now, cols, |cols|, 0)
    ensures RowRewritten(was, now, cols)
  {
    assert cols[..|cols|] == cols;
  }

  /** The key loop for the text column `cols[i]` of a table whose rows were `orig`: the last
      value replaced in the column, under any key, and its replacement are reported. */
  method RewriteColumnKeys(e: Entropy, orig: seq<Row>, rows: seq<Row>, cols: seq<string>, i: nat)
    returns (now: seq<Row>, last: Option<(Value, string)>)
    requires i < |cols| && |rows| == |orig|
    requires forall r :: 0 <= r < |orig| ==> RowPartial(orig[r], rows[r], cols, i, 0)
    modifies e
    ensures |now| == |orig|
    ensures forall r :: 0 <= r < |orig| ==> RowPartial(orig[r], now[r], cols, i + 1, 0)
    ensures last.Some? ==> IsUuid4(last.value.1)
    ensures last.None? ==> now == rows
  {
    now := rows;
    last := None;
    var j := 0;
    while j < |TelemetryKeys|
      invariant 0 <= j <= |TelemetryKeys| && |now| == |orig|
      invariant forall r :: 0 <= r < |orig| ==> RowPartial(orig[r], now[r], cols, i, j)
      invariant last.Some? ==> IsUuid4(last.value.1)
      invariant last.None? ==> now == rows
    {
      var next, l := RewriteColumn(e, now, cols[i], TelemetryKeys[j]);
      forall r | 0 <= r < |orig|
        ensures RowPartial(orig[r], next[r], cols, i, j + 1)
      {
        RowStep(orig[r], now[r], next[r], cols, i, j);
      }
      if l.Some? {
        last := l;
      } else {
        forall r | 0 <= r < |now|
          ensures next[r] == now[r]
        {
          StepRowIdle(now[r], next[r], cols[i], TelemetryKeys[j]);
        }
      }
      now := next;
      j := j + 1;
    }
    forall r | 0 <= r < |orig|
      ensures RowPartial(orig[r], now[r], cols, i + 1, 0)
    {
      RowNextColumn(orig[r], now[r], cols, i);
    }
  }

  /** Table `u` is `t` after the update loop: same name, columns and number of rows, each row
      rewritten over the table's text columns. */
  ghost predicate TableRewritten(t: Table, u: Table) {
    u.name == t.name && u.columns == t.columns && |u.rows| == |t.rows| &&
    forall r :: 0 <= r < |t.rows| ==> RowRewritten(t.rows[r], u.rows[r], TextColumns(t.columns, StateTextTypes))
  }

  /** The loops of `_process_state_database` over one table's text columns and the telemetry
      keys. The replaced values are reported under `table.column`, the last one winning. */
  method RewriteTable(e: Entropy, t: Table)
    returns (u: Table, oldIds: map<string, Value>, newIds: map<string, string>)
    modifies e
    ensures TableRewritten(t, u)
    ensures oldIds.Keys == newIds.Keys && forall k :: k in newIds ==> IsUuid4(newIds[k])
    ensures newIds == map[] ==> u == t
  {
    var cols := TextColumns(t.columns, StateTextTypes);
    var rows := t.rows;
    oldIds, newIds := map[], map[];
    forall r | 0 <= r < |t.rows|
      ensures RowPartial(t.rows[r], rows[r], cols, 0, 0)
    {
    }
    var i := 0;
    while i < |cols|
      invariant 0 <= i <= |cols| && |rows| == |t.rows|
      invariant forall r :: 0 <= r < |t.rows| ==> RowPartial(t.rows[r], rows[r], cols, i, 0)
      invariant oldIds.Keys == newIds.Keys && forall k :: k in newIds ==> IsUuid4(newIds[k])
      invariant newIds == map[] ==> rows == t.rows
    {
      var next, last := RewriteColumnKeys(e, t.rows, rows, cols, i);
      if last.Some? {
        var name := t.name + "." + cols[i];
        oldIds := oldIds[name := last.value.0];
        newIds := newIds[name := last.value.1];
        assert name in newIds;
      }
      rows := next;
      i := i + 1;
    }
    forall r | 0 <= r < |t.rows|
      ensures RowRewritten(t.rows[r], rows[r], cols)
    {
      RowPartialDone(t.rows[r], rows[r], cols);
    }
    u := t.(rows := rows);
  }

  /** The database `v` is `db` after the update loop over every table. */
  ghost predicate DatabaseRewritten(db: Database, v: Database) {
    |v.tables| == |db.tables| && forall i :: 0 <= i < |db.tables| ==> TableRewritten(db.tables[i], v.tables[i])
  }

  /** The loop of `_process_state_database` over the tables of `sqlite_master`. */
  method RewriteDatabase(e: Entropy, db: Database)
    returns (v: Database, oldIds: map<string, Value>, newIds: map<string, string>)
    modifies e
    ensures DatabaseRewritten(db, v)
    ensures oldIds.Keys == newIds.Keys && forall k :: k in newIds ==> IsUuid4(newIds[k])
    ensures newIds == map[] ==> v == db
  {
    var tables: seq<Table> := [];
    oldIds, newIds := map[], map[];
    var i := 0;
    while i < |db.tables|
      invariant 0 <= i <= |db.tables| && |tables| == i
      invariant forall k :: 0 <= k < i ==> TableRewritten(db.tables[k], tables[k])
      invariant oldIds.Keys == newIds.Keys && forall k :: k in newIds ==> IsUuid4(newIds[k])
      invariant newIds == map[] ==> tables == db.tables[..i]
    {
      var u, olds, news := RewriteTable(e, db.tables[i]);
      tables := tables + [u];
      oldIds, newIds := oldIds + olds, newIds + news;
      i := i + 1;
    }
    assert db.tables[..i] == db.tables;
    v := Database(tables);
  }

  /** After the rewrite no cell of a text column holds a telemetry key any more. */
  lemma RewrittenHoldsNoKey(was: Row, now: Row, cols: seq<string>, c: string)
    requires RowRewritten(was, now, cols) && c in cols && c in now.cells
    ensures !HoldsKey(now.cells[c], TelemetryKeys)
  {
    if HoldsKey(was.cells[c], TelemetryKeys) {
      forall j | 0 <= j < |TelemetryKeys|
        ensures !Contains(now.cells[c].s, TelemetryKeys[j])
      {
        UuidHoldsNoKey(now.cells[c].s, TelemetryKeys[j]);
        SelectedText(now.cells[c], TelemetryKeys[j]);
      }
    }
  }

  /** Running the rewrite a second time changes nothing: the first pass left no key to find. */
  lemma RewriteIdempotent(was: Row, now: Row, again: Row, cols: seq<string>)
    requires RowRewritten(was, now, cols) && RowRewritten(now, again, cols)
    ensures again == now
  {
    forall c | c in now.cells
      ensures again.cells[c] == now.cells[c]
    {
      if c in cols {
        RewrittenHoldsNoKey(was, now, cols, c);
      }
    }
    assert again.cells == now.cells;
  }

  /** What `_process_state_database` leaves in `p`: when the file opens, is ours and its
      directory exists, the database rewritten (written back only when something changed);
      otherwise the file's content as it was. */
  ghost predicate StateDbCleaned(t0: Tree, t1: Tree, p: Path) {
    (p in t1 <==> p in t0) &&
    if Opens(t0, p) && t0[p].owned && p != [] && IsDir(t0, Parent(p)) then
      IsFile(t1, p) && DatabaseRewritten(Stored(t0[p].entry.content), Stored(t1[p].entry.content)) &&
      (t1[p].entry.content.Db? || t1[p].entry == t0[p].entry)
    else p in t0 ==> t1[p].entry == t0[p].entry
  }

  lemma JsonCleanedPersist(t0: Tree, t1: Tree, t2: Tree, f: Path, zones: set<Path>, b: Path)
    requires JsonCleaned(t0, t1, f) && Confined(t1, t2, zones, b) && !Within(zones, f) && !BackupSlot(b, f)
    ensures JsonCleaned(t0, t2, f)
  {
    ConfinedKeeps(t1, t2, zones, b, f);
  }

  lemma StateDbCleanedPersist(t0: Tree, t1: Tree, t2: Tree, p: Path, zones: set<Path>, b: Path)
    requires StateDbCleaned(t0, t1, p) && Confined(t1, t2, zones, b) && !Within(zones, p) && !BackupSlot(b, p)
    ensures StateDbCleaned(t0, t2, p)
  {
    ConfinedKeeps(t1, t2, zones, b, p);
  }

  /** The database step, seen from before a step that left the database and its directory
      alone. */
  lemma StateDbCleanedRebase(t0: Tree, t1: Tree, t2: Tree, p: Path)
    requires (p in t1 <==> p in t0) && (p in t0 ==> t1[p] == t0[p])
    requires p != [] && (IsDir(t1, Parent(p)) <==> IsDir(t0, Parent(p)))
    requires StateDbCleaned(t1, t2, p)
    ensures StateDbCleaned(t0, t2, p)
  {
  }

  /** What `_process_storage_files` leaves in the directory `d`: both storage files
      processed. */
  ghost predicate StorageCleaned(t0: Tree, t1: Tree, d: Path) {
    JsonCleaned(t0, t1, d + [StorageJsonName]) && StateDbCleaned(t0, t1, d + [StateDbName])
  }

  // ----- workspace storage and caches -----

  /** The `LIKE` patterns `_clean_project_database` deletes `ItemTable` rows by, in order. */
  const ProjectPatterns: seq<string> := ["%augment%", "%Augment%", "%AUGMENT%", "%cursor.com%", "%workos%",
                                         "%oauth%", "%auth%", "%session%", "%token%", "%login%"]

  /** The words those patterns look for. */
  const ProjectWords: seq<string> := ["augment", "Augment", "AUGMENT", "cursor.com", "workos",
                                      "oauth", "auth", "session", "token", "login"]

  lemma ProjectPatternShape(j: nat)
    requires j < |ProjectPatterns|
    ensures |ProjectWords| == |ProjectPatterns|
    ensures ProjectPatterns[j] == "%" + ProjectWords[j] + "%" && NoWildcards(ProjectWords[j])
  {
  }

  /** The `key` of `r`, as the text LIKE compares, contains `x` up to ASCII case. */
  predicate KeyMentions(r: Row, x: string) {
    LikeText(Cell(r, "key")).Some? && ContainsIgnoreCase(LikeText(Cell(r, "key")).value, x)
  }

  /** A project row survives the ten DELETEs exactly when its key mentions none of the
      words, in any letter case. */
  lemma ProjectRowKept(rows: seq<Row>, r: Row)
    ensures r in Survivors(rows, ColumnClauses("key", ProjectPatterns)) <==>
      r in rows && forall j :: 0 <= j < |ProjectWords| ==> !KeyMentions(r, ProjectWords[j])
  {
    var clauses := ColumnClauses("key", ProjectPatterns);
    SurvivorsMembership(rows, clauses, r);
    forall j | 0 <= j < |ProjectWords|
      ensures Like(Cell(r, "key"), ProjectPatterns[j]) <==> KeyMentions(r, ProjectWords[j])
    {
      ProjectPatternShape(j);
      if LikeText(Cell(r, "key")).Some? {
        LikeContains(LikeText(Cell(r, "key")).value, ProjectWords[j]);
      }
    }
    if Hits(r, clauses) {
      var k :| 0 <= k < |clauses| && Like(Cell(r, clauses[k].0), clauses[k].1);
      assert KeyMentions(r, ProjectWords[k]);
    }
    if exists j :: 0 <= j < |ProjectWords| && KeyMentions(r, ProjectWords[j]) {
      var j :| 0 <= j < |ProjectWords| && KeyMentions(r, ProjectWords[j]);
      assert Like(Cell(r, clauses[j].0), clauses[j].1);
    }
  }

  /** LIKE folds ASCII case, so `%Augment%` and `%AUGMENT%` select exactly what `%augment%`
      selects. */
  lemma AugmentCaseAlike(v: Value)
    ensures Like(v, "%Augment%") <==> Like(v, "%augment%")
    ensures Like(v, "%AUGMENT%") <==> Like(v, "%augment%")
  {
    AugmentPattern("%augment%");
    AugmentPattern("%Augment%");
    AugmentPattern("%AUGMENT%");
    LikeContainsPattern(v, "%augment%");
    LikeContainsPattern(v, "%Augment%");
    LikeContainsPattern(v, "%AUGMENT%");
  }

  /** Each spelling of `%augment%` is a contains-pattern whose inside lowers to `augment`. */
  lemma AugmentPattern(p: string)
    requires p == "%augment%" || p == "%Augment%" || p == "%AUGMENT%"
    ensures IsContainsPattern(p) && Lower(Inner(p)) == "augment"
  {
    assert IsContainsPattern(p);
    var w := p[1..8];
    assert Inner(p) == w && |w| == 7;
    forall k | 0 <= k < 7 ensures LowerChar(w[k]) == "augment"[k] {
      assert w[k] == p[k + 1];
    }
    assert Lower(w) == "augment";
  }

  /** Hence, once `%augment%` has been deleted, the COUNT for the next two patterns is
      always 0 and they delete nothing. */
  lemma CaseVariantsDeleteNothing(rows: seq<Row>)
    ensures var after := Survivors(rows, [("key", "%augment%")]);
      CountHits(after, [("key", "%Augment%")]) == 0 && CountHits(after, [("key", "%AUGMENT%")]) == 0
  {
    var after := Survivors(rows, [("key", "%augment%")]);
    forall i | 0 <= i < |after|
      ensures !Hits(after[i], [("key", "%Augment%")]) && !Hits(after[i], [("key", "%AUGMENT%")])
    {
      SurvivorsMembership(rows, [("key", "%augment%")], after[i]);
      AugmentCaseAlike(Cell(after[i], "key"));
      var first: seq<Clause> := [("key", "%augment%")];
      assert !Hits(after[i], first);
      assert first[0] == ("key", "%augment%");
      assert !Like(Cell(after[i], "key"), "%augment%");
    }
    SurvivorsAll(after, [("key", "%Augment%")]);
    SurvivorsAll(after, [("key", "%AUGMENT%")]);
  }

  /** The index of `ItemTable` in the project database at `p` when `_clean_project_database`
      gets as far as counting rows in it: the header check passes, SQLite reads the file, the
      table exists and has a `key` column (without one the first COUNT fails and nothing is
      deleted). */
  function ItemTableOf(t: Tree, p: Path): (r: Option<nat>)
    ensures r.Some? ==> IsFile(t, p) && t[p].entry.content.Db? && r.value < |t[p].entry.content.db.tables|
  {
    if !HeaderCheck(t, p) || !t[p].entry.content.Db? then None
    else
      var i := FindTable(t[p].entry.content.db, "ItemTable");
      if i.Some? && HasColumn(t[p].entry.content.db.tables[i.value], "key") then i else None
  }

  /** The project database once the matching `ItemTable` rows are gone. */
  function CleanedItemTable(db: Database, i: nat): Database
    requires i < |db.tables|
  {
    Database(db.tables[i := db.tables[i].(rows := Survivors(db.tables[i].rows, ColumnClauses("key", ProjectPatterns)))])
  }

  /** What a project folder may contain that `_clean_workspace_storage` removes. */
  const AugmentDirNames: seq<string> := ["augmentcode.augment", "augmentcode", "augment"]
  const AugmentFileNames: seq<string> := ["augment.json", "augmentcode.json", ".augment"]
  /** The storage files of an installation directory (the second also names a project
      folder's database). */
  const StorageJsonName := "storage.json"
  const StateDbName := "state.vscdb"

  const ProjectEntryNames: seq<string> := AugmentDirNames + AugmentFileNames + [StateDbName]

  /** The entries of a project folder its cleaning may change. */
  function ProjectZones(proj: Path): set<Path> {
    set n | n in ProjectEntryNames :: proj + [n]
  }

  /** The entries cleaning the project folders `projects` may change. */
  function WorkspaceZones(projects: set<Path>): set<Path> {
    set y, z | y in projects && z in ProjectZones(y) :: z
  }

  lemma WorkspaceZonesAdd(projects: set<Path>, y: Path)
    ensures WorkspaceZones(projects + {y}) == WorkspaceZones(projects) + ProjectZones(y)
  {
  }

  /** No entry of the workspace folder itself lies in a zone of its project folders. */
  lemma WorkspaceZonesBelow(w: Path, projects: set<Path>, y: Path)
    requires forall p :: p in projects ==> |p| == |w| + 1
    requires |y| == |w| + 1
    ensures !Within(WorkspaceZones(projects), y)
  {
    forall z | z in WorkspaceZones(projects) ensures |z| == |w| + 2 {
      var p :| p in projects && z in ProjectZones(p);
    }
  }

  /** No name of a removal list could be a backup's: none holds the `_` every backup name
      has. */
  predicate NoBackupNames(names: seq<string>) {
    forall k :: 0 <= k < |names| ==> '_' !in names[k]
  }

  /** Distinct names give distinct entries of `parent`. */
  lemma EntryNamesDiffer(parent: Path, a: string, b: string)
    requires a != b
    ensures parent + [a] != parent + [b]
  {
    assert (parent + [a])[|parent|] == a;
  }

  /** After the first `i` names of a list: `picked` holds exactly the entries
      `parent/<name>` among them that `keep` selects. */
  ghost predicate Picked(parent: Path, names: seq<string>, i: nat, picked: set<Path>, keep: Path -> bool)
    requires i <= |names|
  {
    (forall z :: z in picked ==> InDir(parent, z) && exists k :: 0 <= k < i && z == parent + [names[k]]) &&
    (forall k :: 0 <= k < i ==> (parent + [names[k]] in picked <==> keep(parent + [names[k]])))
  }

  /** The same for the names themselves, collected in order. */
  ghost predicate Listed(parent: Path, names: seq<string>, i: nat, listed: seq<string>, keep: Path -> bool)
    requires i <= |names|
  {
    (forall x :: x in listed ==> x in names[..i]) &&
    (forall k :: 0 <= k < i ==> (names[k] in listed <==> keep(parent + [names[k]])))
  }

  lemma PickedStep(parent: Path, names: seq<string>, i: nat, picked: set<Path>, keep: Path -> bool, take: bool)
    requires i < |names| && Picked(parent, names, i, picked, keep)
    requires forall a, c :: 0 <= a < c < |names| ==> names[a] != names[c]
    requires take <==> keep(parent + [names[i]])
    ensures parent + [names[i]] !in picked
    ensures Picked(parent, names, i + 1, if take then picked + {parent + [names[i]]} else picked, keep)
  {
    var d := parent + [names[i]];
    InDirChild(parent, names[i]);
    forall k | 0 <= k < i ensures parent + [names[k]] != d {
      EntryNamesDiffer(parent, names[k], names[i]);
    }
  }

  /** Taking one element out of a set that holds it makes it one smaller. */
  lemma SetDropOne<T>(s: set<T>, x: T)
    ensures |s - {x}| == if x in s then |s| - 1 else |s|
  {
    if x in s {
      assert s == (s - {x}) + {x};
    } else {
      assert s - {x} == s;
    }
  }

  /** Leaving out the last name leaves out its entry and nothing else. */
  lemma PickedDrop(parent: Path, names: seq<string>, n: nat, picked: set<Path>, keep: Path -> bool)
    requires 0 < n <= |names| && Picked(parent, names, n, picked, keep)
    requires forall a, c :: 0 <= a < c < |names| ==> names[a] != names[c]
    ensures parent + [names[n - 1]] in picked <==> keep(parent + [names[n - 1]])
    ensures Picked(parent, names, n - 1, picked - {parent + [names[n - 1]]}, keep)
  {
    var x := parent + [names[n - 1]];
    var g := picked - {x};
    forall z | z in g ensures exists k :: 0 <= k < n - 1 && z == parent + [names[k]] {
      var k :| 0 <= k < n && z == parent + [names[k]];
      assert k != n - 1;
    }
    forall k | 0 <= k < n - 1 ensures parent + [names[k]] != x {
      EntryNamesDiffer(parent, names[k], names[n - 1]);
    }
  }

  lemma ListedStep(parent: Path, names: seq<string>, i: nat, listed: seq<string>, keep: Path -> bool, take: bool)
    requires i < |names| && Listed(parent, names, i, listed, keep)
    requires forall a, c :: 0 <= a < c < |names| ==> names[a] != names[c]
    requires take <==> keep(parent + [names[i]])
    ensures Listed(parent, names, i + 1, if take then listed + [names[i]] else listed, keep)
  {
    assert names[..i + 1] == names[..i] + [names[i]];
    assert names[i] !in names[..i];
  }

  /** After the first `i` names of a removal list: `gone` holds the directories removed,
      exactly those `rmtree` could remove, and `failures` the names whose removal failed,
      exactly the other directories. */
  ghost predicate Swept(t0: Tree, parent: Path, names: seq<string>, i: nat, gone: set<Path>, failures: seq<string>)
    requires i <= |names|
  {
    |gone| + |failures| <= i &&
    Picked(parent, names, i, gone, p => CanRmtree(t0, p)) &&
    Listed(parent, names, i, failures, p => IsDir(t0, p) && !CanRmtree(t0, p))
  }

  lemma SweptStep(t0: Tree, parent: Path, names: seq<string>, i: nat, gone: set<Path>, failures: seq<string>,
                  removed: bool, failed: bool, step: set<Path>)
    requires i < |names| && Swept(t0, parent, names, i, gone, failures)
    requires forall a, b :: 0 <= a < b < |names| ==> names[a] != names[b]
    requires removed <==> CanRmtree(t0, parent + [names[i]])
    requires failed <==> IsDir(t0, parent + [names[i]]) && !CanRmtree(t0, parent + [names[i]])
    requires step == if removed then {parent + [names[i]]} else {}
    ensures Swept(t0, parent, names, i + 1, gone + step, if failed then failures + [names[i]] else failures)
    ensures |gone + step| == |gone| + if removed then 1 else 0
  {
    PickedStep(parent, names, i, gone, p => CanRmtree(t0, p), removed);
    ListedStep(parent, names, i, failures, p => IsDir(t0, p) && !CanRmtree(t0, p), failed);
    assert gone + step == if removed then gone + {parent + [names[i]]} else gone;
  }

  /** A finished sweep, spelt out. */
  lemma SweptExplicit(t0: Tree, parent: Path, names: seq<string>, gone: set<Path>, failures: seq<string>)
    requires Swept(t0, parent, names, |names|, gone, failures)
    ensures forall d :: d in gone ==> exists k :: 0 <= k < |names| && d == parent + [names[k]]
    ensures forall k :: 0 <= k < |names| ==> (parent + [names[k]] in gone <==> CanRmtree(t0, parent + [names[k]]))
    ensures Listed(parent, names, |names|, failures, p => IsDir(t0, p) && !CanRmtree(t0, p))
  {
  }

  /** What removing the directories `parent/<name>` of `names` leaves: each is gone exactly
      when `rmtree` could remove it from `t0`. */
  ghost predicate DirsRemoved(t0: Tree, t1: Tree, parent: Path, names: seq<string>) {
    forall k :: 0 <= k < |names| ==>
      (parent + [names[k]] in t1 <==> parent + [names[k]] in t0 && !CanRmtree(t0, parent + [names[k]]))
  }

  /** A finished sweep, confined to the directories removed, leaves exactly those gone. */
  lemma SweptRemoved(t0: Tree, t1: Tree, parent: Path, names: seq<string>, gone: set<Path>, failures: seq<string>, b: Path)
    requires Swept(t0, parent, names, |names|, gone, failures) && NoBackupNames(names)
    requires Confined(t0, t1, gone, b) && forall d :: d in gone ==> d !in t1
    ensures DirsRemoved(t0, t1, parent, names)
  {
    forall k | 0 <= k < |names| && parent + [names[k]] !in gone
      ensures parent + [names[k]] in t1 <==> parent + [names[k]] in t0
    {
      var q := parent + [names[k]];
      InDirChild(parent, names[k]);
      SiblingsApart(parent, gone, q);
      ConfinedKeeps(t0, t1, gone, b, q);
    }
  }

  /** After the first `i` names of a file list: `gone` holds the files removed, exactly those
      `unlink` could remove. */
  ghost predicate Unlinked(t0: Tree, parent: Path, names: seq<string>, i: nat, gone: set<Path>)
    requires i <= |names|
  {
    Picked(parent, names, i, gone, p => CanUnlink(t0, p))
  }

  /** Entries removed by earlier turns of a sweep stay removed by a turn confined to the
      next name. */
  lemma StillGone(t1: Tree, t2: Tree, parent: Path, names: seq<string>, i: nat, gone: set<Path>, step: set<Path>, b: Path)
    requires i < |names| && NoBackupNames(names)
    requires forall a, c :: 0 <= a < c < |names| ==> names[a] != names[c]
    requires forall z :: z in gone ==> exists k :: 0 <= k < i && z == parent + [names[k]]
    requires forall z :: z in gone ==> z !in t1
    requires step <= {parent + [names[i]]} && Confined(t1, t2, step, b)
    ensures forall z :: z in gone ==> z !in t2
  {
    forall z | z in gone ensures z !in t2 {
      var k :| 0 <= k < i && z == parent + [names[k]];
      EntryNamesDiffer(parent, names[k], names[i]);
      InDirChild(parent, names[k]);
      InDirChild(parent, names[i]);
      SiblingsApart(parent, {parent + [names[i]]}, z);
      assert !Within(step, z);
      assert Name(z) == names[k];
      assert !BackupSlot(b, z);
    }
  }

  lemma UnlinkedStep(t0: Tree, parent: Path, names: seq<string>, i: nat, gone: set<Path>, ok: bool)
    requires i < |names| && Unlinked(t0, parent, names, i, gone)
    requires forall a, c :: 0 <= a < c < |names| ==> names[a] != names[c]
    requires ok <==> CanUnlink(t0, parent + [names[i]])
    ensures Unlinked(t0, parent, names, i + 1, if ok then gone + {parent + [names[i]]} else gone)
  {
    PickedStep(parent, names, i, gone, p => CanUnlink(t0, p), ok);
  }

  /** The files a sweep removed are as many as `unlink` could remove. */
  lemma {:induction false} UnlinkedCount(t0: Tree, parent: Path, names: seq<string>, n: nat, gone: set<Path>)
    requires n <= |names| && Unlinked(t0, parent, names, n, gone)
    requires forall a, c :: 0 <= a < c < |names| ==> names[a] != names[c]
    ensures |gone| == UnlinkableAmong(t0, parent, names, n)
  {
    if n > 0 {
      var x := parent + [names[n - 1]];
      PickedDrop(parent, names, n, gone, p => CanUnlink(t0, p));
      var g := gone - {x};
      UnlinkedCount(t0, parent, names, n - 1, g);
      assert UnlinkableAmong(t0, parent, names, n) ==
        UnlinkableAmong(t0, parent, names, n - 1) + if CanUnlink(t0, x) then 1 else 0;
      SetDropOne(gone, x);
    }
  }

  /** What removing the files `parent/<name>` of `names` leaves: each is gone exactly when
      `unlink` could remove it from `t0`. */
  ghost predicate FilesRemoved(t0: Tree, t1: Tree, parent: Path, names: seq<string>) {
    forall k :: 0 <= k < |names| ==>
      (parent + [names[k]] in t1 <==> parent + [names[k]] in t0 && !CanUnlink(t0, parent + [names[k]]))
  }

  lemma UnlinkedRemoved(t0: Tree, t1: Tree, parent: Path, names: seq<string>, gone: set<Path>, b: Path)
    requires Unlinked(t0, parent, names, |names|, gone) && NoBackupNames(names)
    requires Confined(t0, t1, gone, b) && forall f :: f in gone ==> f !in t1
    ensures FilesRemoved(t0, t1, parent, names)
  {
    forall k | 0 <= k < |names| && parent + [names[k]] !in gone
      ensures parent + [names[k]] in t1 <==> parent + [names[k]] in t0
    {
      var q := parent + [names[k]];
      InDirChild(parent, names[k]);
      SiblingsApart(parent, gone, q);
      ConfinedKeeps(t0, t1, gone, b, q);
    }
  }

  /** Deleting no rows leaves the project database as it was. */
  lemma NothingDeletedKeepsDatabase(db: Database, i: nat)
    requires i < |db.tables|
    requires |Survivors(db.tables[i].rows, ColumnClauses("key", ProjectPatterns))| == |db.tables[i].rows|
    ensures CleanedItemTable(db, i) == db
  {
    var rows := db.tables[i].rows;
    CountPlusSurvivors(rows, ColumnClauses("key", ProjectPatterns));
    NoHitsKeepsAll(rows, ColumnClauses("key", ProjectPatterns));
    assert db.tables[i := db.tables[i].(rows := rows)] == db.tables;
  }

  /** What `_clean_project_database` leaves in the database `db`: when it gets as far as
      deleting, `ItemTable` without the rows whose key matches a pattern; otherwise the file
      as it was. */
  ghost predicate DbItemsCleaned(t0: Tree, t1: Tree, db: Path) {
    (db in t1 <==> db in t0) &&
    var i := ItemTableOf(t0, db);
    if i.Some? && CanModify(t0, db) then
      IsFile(t1, db) && t1[db].entry.content == Content.Db(CleanedItemTable(t0[db].entry.content.db, i.value))
    else db in t0 ==> t1[db] == t0[db]
  }

  /** What cleaning the project folder `y` leaves: its database cleaned, and each AugmentCode
      directory and file gone exactly when it could be removed. */
  ghost predicate ProjectCleaned(t0: Tree, t1: Tree, y: Path) {
    DbItemsCleaned(t0, t1, y + [StateDbName]) &&
    DirsRemoved(t0, t1, y, AugmentDirNames) && FilesRemoved(t0, t1, y, AugmentFileNames)
  }

  /** The rows `_clean_project_database` deletes from the database `db` of `t`: those of
      `ItemTable` whose key matches a pattern, when it gets as far as deleting. */
  ghost function ItemRowsRemoved(t: Tree, db: Path): int {
    var i := ItemTableOf(t, db);
    if i.Some? && CanModify(t, db) then
      var rows := t[db].entry.content.db.tables[i.value].rows;
      |rows| - |Survivors(rows, ColumnClauses("key", ProjectPatterns))|
    else 0
  }

  /** How many of the directories `parent/<name>` for the first `n` of `names` `rmtree`
      can remove from `t`. */
  ghost function RemovableAmong(t: Tree, parent: Path, names: seq<string>, n: nat): nat
    requires n <= |names|
  {
    if n == 0 then 0
    else RemovableAmong(t, parent, names, n - 1) + if CanRmtree(t, parent + [names[n - 1]]) then 1 else 0
  }

  /** How many of the files `parent/<name>` for the first `n` of `names` `unlink` can
      remove from `t`. */
  ghost function UnlinkableAmong(t: Tree, parent: Path, names: seq<string>, n: nat): nat
    requires n <= |names|
  {
    if n == 0 then 0
    else UnlinkableAmong(t, parent, names, n - 1) + if CanUnlink(t, parent + [names[n - 1]]) then 1 else 0
  }

  ghost function RemovableCount(t: Tree, parent: Path, names: seq<string>): nat {
    RemovableAmong(t, parent, names, |names|)
  }

  ghost function UnlinkableCount(t: Tree, parent: Path, names: seq<string>): nat {
    UnlinkableAmong(t, parent, names, |names|)
  }

  /** Whether `_clean_workspace_storage` counts the project folder `y` of `t` as cleaned:
      rows were deleted from its database, or an AugmentCode directory or file of it could
      be removed. */
  ghost predicate Touched(t: Tree, y: Path) {
    ItemRowsRemoved(t, y + [StateDbName]) > 0 ||
    RemovableCount(t, y, AugmentDirNames) > 0 || UnlinkableCount(t, y, AugmentFileNames) > 0
  }

  /** The project folders among `ys` that count as cleaned. */
  ghost function TouchedAmong(t: Tree, ys: set<Path>): set<Path> {
    set y | y in ys && Touched(t, y)
  }

  /** The rows deleted from the databases of the project folders `ys`, summed. */
  ghost function ProjectRows(t: Tree, ys: set<Path>): int
    decreases ys
  {
    if ys == {} then 0
    else
      var y :| y in ys;
      ItemRowsRemoved(t, y + [StateDbName]) + ProjectRows(t, ys - {y})
  }

  lemma {:induction false} ProjectRowsRemove(t: Tree, ys: set<Path>, y: Path)
    requires y in ys
    ensures ProjectRows(t, ys) == ItemRowsRemoved(t, y + [StateDbName]) + ProjectRows(t, ys - {y})
    decreases |ys|
  {
    var x :| x in ys && ProjectRows(t, ys) == ItemRowsRemoved(t, x + [StateDbName]) + ProjectRows(t, ys - {x});
    if x != y {
      ProjectRowsRemove(t, ys - {x}, y);
      ProjectRowsRemove(t, ys - {y}, x);
      assert ys - {x} - {y} == ys - {y} - {x};
    }
  }

  /** The counts `_clean_workspace_storage` reports once the project folders `projects` of
      `t` were cleaned: one per folder processed, one per folder that counts as cleaned,
      and the rows deleted. */
  ghost predicate ProjectTotals(t: Tree, projects: set<Path>, cleaned: nat, processed: nat, records: nat) {
    processed == |projects| && cleaned <= processed &&
    cleaned == |TouchedAmong(t, projects)| && records == ProjectRows(t, projects)
  }

  /** Counting one more entry `y` of the workspace folder, a project folder or not. */
  lemma ProjectTally(t: Tree, projects: set<Path>, y: Path, isProject: bool, c: bool, n: nat,
                     cleaned: nat, processed: nat, records: nat)
    requires y !in projects && ProjectTotals(t, projects, cleaned, processed, records)
    requires isProject ==> n == ItemRowsRemoved(t, y + [StateDbName]) && (c <==> Touched(t, y))
    ensures ProjectTotals(t, if isProject then projects + {y} else projects,
                          if isProject && c then cleaned + 1 else cleaned,
                          if isProject then processed + 1 else processed,
                          if isProject then records + n else records)
  {
    if isProject {
      ProjectCountsAdd(t, projects, y);
    }
  }

  /** One more project folder adds its rows and, when it counts as cleaned, one to the count. */
  lemma ProjectCountsAdd(t: Tree, ys: set<Path>, y: Path)
    requires y !in ys
    ensures ProjectRows(t, ys + {y}) == ProjectRows(t, ys) + ItemRowsRemoved(t, y + [StateDbName])
    ensures |TouchedAmong(t, ys + {y})| == |TouchedAmong(t, ys)| + if Touched(t, y) then 1 else 0
  {
    ProjectRowsRemove(t, ys + {y}, y);
    assert (ys + {y}) - {y} == ys;
    TouchedAmongAdd(t, ys, y);
  }

  lemma TouchedAmongAdd(t: Tree, ys: set<Path>, y: Path)
    requires y !in ys
    ensures TouchedAmong(t, ys + {y}) == TouchedAmong(t, ys) + if Touched(t, y) then {y} else {}
    ensures y !in TouchedAmong(t, ys)
  {
  }

  /** No zone holds or lies above an entry `parent/<name>`, or holds `parent`. */
  ghost predicate Clear(zones: set<Path>, parent: Path, names: seq<string>) {
    forall n, z :: n in names && z in zones ==> Apart(z, parent + [n]) && !StartsWith(parent, z)
  }

  /** Entries of `parent` with other names are clear of `names`. */
  lemma SiblingsClear(parent: Path, zones: set<Path>, names: seq<string>)
    requires forall z :: z in zones ==> InDir(parent, z) && Name(z) !in names
    ensures Clear(zones, parent, names)
  {
    forall n, z | n in names && z in zones ensures Apart(z, parent + [n]) && !StartsWith(parent, z) {
      InDirChild(parent, n);
      assert Name(parent + [n]) == n;
      SiblingsApart(parent, {z}, parent + [n]);
    }
  }

  /** The zones of other project folders are clear of a project's entries. */
  lemma CousinsClear(w: Path, projects: set<Path>, y: Path)
    requires forall p :: p in projects ==> |p| == |w| + 1
    requires |y| == |w| + 1 && y !in projects
    ensures Clear(WorkspaceZones(projects), y, ProjectEntryNames)
  {
    var zones := WorkspaceZones(projects);
    forall z | z in zones
      ensures forall n :: n in ProjectEntryNames ==> Apart(z, y + [n]) && !StartsWith(y, z)
    {
      var p, m :| p in projects && m in ProjectEntryNames && z == p + [m];
      forall n | n in ProjectEntryNames ensures Apart(z, y + [n]) && !StartsWith(y, z) {
        CousinApart(p, y, m, n);
      }
    }
    ClearOf(zones, y, ProjectEntryNames);
  }

  lemma ClearOf(zones: set<Path>, parent: Path, names: seq<string>)
    requires forall z :: z in zones ==> forall n :: n in names ==> Apart(z, parent + [n]) && !StartsWith(parent, z)
    ensures Clear(zones, parent, names)
  {
  }

  /** Entries of two different folders at the same depth lie apart, and neither lies above
      the other folder. */
  lemma CousinApart(p: Path, y: Path, m: string, n: string)
    requires |p| == |y| && p != y
    ensures Apart(p + [m], y + [n]) && !StartsWith(y, p + [m])
  {
    assert (p + [m])[..|p|] == p;
    assert (y + [n])[..|y|] == y;
  }

  lemma ClearSub(zones: set<Path>, parent: Path, names: seq<string>, sub: seq<string>)
    requires Clear(zones, parent, names) && forall n :: n in sub ==> n in names
    ensures Clear(zones, parent, sub)
  {
  }

  lemma ApartNotWithin(zones: set<Path>, parent: Path, names: seq<string>, n: string)
    requires Clear(zones, parent, names) && n in names
    ensures !Within(zones, parent + [n]) && !Within(zones, parent)
  {
  }

  lemma DbItemsRebase(t0: Tree, t1: Tree, t2: Tree, db: Path, zones: set<Path>, b: Path)
    requires db != [] && Confined(t0, t1, zones, b) && DbItemsCleaned(t1, t2, db)
    requires !Within(zones, db) && !Within(zones, Parent(db)) && !BackupSlot(b, db)
    ensures DbItemsCleaned(t0, t2, db)
  {
    ConfinedKeeps(t0, t1, zones, b, db);
    CanWriteKept(t0, t1, zones, b, db);
  }

  lemma DbItemsPersist(t0: Tree, t1: Tree, t2: Tree, db: Path, zones: set<Path>, b: Path)
    requires DbItemsCleaned(t0, t1, db) && Confined(t1, t2, zones, b)
    requires !Within(zones, db) && !BackupSlot(b, db)
    ensures DbItemsCleaned(t0, t2, db)
  {
    ConfinedKeeps(t1, t2, zones, b, db);
  }

  lemma DirsRemovedRebase(t0: Tree, t1: Tree, t2: Tree, parent: Path, names: seq<string>, zones: set<Path>, b: Path)
    requires Confined(t0, t1, zones, b) && DirsRemoved(t1, t2, parent, names)
    requires Clear(zones, parent, names) && NoBackupNames(names)
    ensures DirsRemoved(t0, t2, parent, names)
  {
    forall k | 0 <= k < |names|
      ensures parent + [names[k]] in t2 <==> parent + [names[k]] in t0 && !CanRmtree(t0, parent + [names[k]])
    {
      var d := parent + [names[k]];
      assert Parent(d) == parent && Name(d) == names[k];
      ApartNotWithin(zones, parent, names, names[k]);
      ConfinedKeeps(t0, t1, zones, b, d);
      CanRmtreeKept(t0, t1, zones, b, d);
    }
  }

  lemma DirsRemovedPersist(t0: Tree, t1: Tree, t2: Tree, parent: Path, names: seq<string>, zones: set<Path>, b: Path)
    requires DirsRemoved(t0, t1, parent, names) && Confined(t1, t2, zones, b)
    requires Clear(zones, parent, names) && NoBackupNames(names)
    ensures DirsRemoved(t0, t2, parent, names)
  {
    forall k | 0 <= k < |names| ensures parent + [names[k]] in t2 <==> parent + [names[k]] in t1 {
      var d := parent + [names[k]];
      assert Name(d) == names[k];
      ApartNotWithin(zones, parent, names, names[k]);
      ConfinedKeeps(t1, t2, zones, b, d);
    }
  }

  lemma FilesRemovedRebase(t0: Tree, t1: Tree, t2: Tree, parent: Path, names: seq<string>, zones: set<Path>, b: Path)
    requires Confined(t0, t1, zones, b) && FilesRemoved(t1, t2, parent, names)
    requires Clear(zones, parent, names) && NoBackupNames(names)
    ensures FilesRemoved(t0, t2, parent, names)
  {
    forall k | 0 <= k < |names|
      ensures parent + [names[k]] in t2 <==> parent + [names[k]] in t0 && !CanUnlink(t0, parent + [names[k]])
    {
      var f := parent + [names[k]];
      assert Parent(f) == parent && Name(f) == names[k];
      ApartNotWithin(zones, parent, names, names[k]);
      ConfinedKeeps(t0, t1, zones, b, f);
      CanUnlinkKept(t0, t1, zones, b, f);
    }
  }

  lemma FilesRemovedPersist(t0: Tree, t1: Tree, t2: Tree, parent: Path, names: seq<string>, zones: set<Path>, b: Path)
    requires FilesRemoved(t0, t1, parent, names) && Confined(t1, t2, zones, b)
    requires Clear(zones, parent, names) && NoBackupNames(names)
    ensures FilesRemoved(t0, t2, parent, names)
  {
    forall k | 0 <= k < |names| ensures parent + [names[k]] in t2 <==> parent + [names[k]] in t1 {
      var f := parent + [names[k]];
      assert Name(f) == names[k];
      ApartNotWithin(zones, parent, names, names[k]);
      ConfinedKeeps(t1, t2, zones, b, f);
    }
  }

  /** Neither storage file's name holds a `_`. */
  lemma StorageNamesPlain()
    ensures '_' !in StateDbName && '_' !in StorageJsonName
  {
  }

  /** No name of a project folder's entries holds a `_`. */
  lemma ProjectNamesPlain()
    ensures NoBackupNames(AugmentDirNames) && NoBackupNames(AugmentFileNames) && NoBackupNames([StateDbName])
    ensures NoBackupNames(ProjectEntryNames)
  {
  }

  /** A project's cleaning, seen from before earlier changes clear of it. */
  lemma ProjectCleanedRebase(t0: Tree, t1: Tree, t2: Tree, y: Path, zones: set<Path>, b: Path)
    requires Confined(t0, t1, zones, b) && ProjectCleaned(t1, t2, y)
    requires Clear(zones, y, ProjectEntryNames)
    ensures ProjectCleaned(t0, t2, y)
  {
    ProjectNamesPlain();
    ClearSub(zones, y, ProjectEntryNames, AugmentDirNames);
    ClearSub(zones, y, ProjectEntryNames, AugmentFileNames);
    ApartNotWithin(zones, y, ProjectEntryNames, StateDbName);
    var db := y + [StateDbName];
    assert Parent(db) == y && Name(db) == StateDbName;
    DbItemsRebase(t0, t1, t2, db, zones, b);
    DirsRemovedRebase(t0, t1, t2, y, AugmentDirNames, zones, b);
    FilesRemovedRebase(t0, t1, t2, y, AugmentFileNames, zones, b);
  }

  lemma ItemRowsKept(t0: Tree, t1: Tree, db: Path, zones: set<Path>, b: Path)
    requires db != [] && Confined(t0, t1, zones, b)
    requires !Within(zones, db) && !Within(zones, Parent(db)) && !BackupSlot(b, db)
    ensures ItemRowsRemoved(t1, db) == ItemRowsRemoved(t0, db)
  {
    ConfinedKeeps(t0, t1, zones, b, db);
    CanWriteKept(t0, t1, zones, b, db);
  }

  lemma {:induction false} RemovableAmongKept(t0: Tree, t1: Tree, parent: Path, names: seq<string>, n: nat,
                                              zones: set<Path>, b: Path)
    requires n <= |names| && Confined(t0, t1, zones, b) && Clear(zones, parent, names)
    ensures RemovableAmong(t1, parent, names, n) == RemovableAmong(t0, parent, names, n)
  {
    if n > 0 {
      RemovableAmongKept(t0, t1, parent, names, n - 1, zones, b);
      var d := parent + [names[n - 1]];
      assert Parent(d) == parent;
      CanRmtreeKept(t0, t1, zones, b, d);
    }
  }

  lemma {:induction false} UnlinkableAmongKept(t0: Tree, t1: Tree, parent: Path, names: seq<string>, n: nat,
                                               zones: set<Path>, b: Path)
    requires n <= |names| && Confined(t0, t1, zones, b) && Clear(zones, parent, names) && NoBackupNames(names)
    ensures UnlinkableAmong(t1, parent, names, n) == UnlinkableAmong(t0, parent, names, n)
  {
    if n > 0 {
      UnlinkableAmongKept(t0, t1, parent, names, n - 1, zones, b);
      var f := parent + [names[n - 1]];
      assert Parent(f) == parent && Name(f) == names[n - 1];
      ApartNotWithin(zones, parent, names, names[n - 1]);
      CanUnlinkKept(t0, t1, zones, b, f);
    }
  }

  /** What a project folder counts for, seen from before earlier changes clear of it. */
  lemma ProjectCountsKept(t0: Tree, t1: Tree, y: Path, zones: set<Path>, b: Path)
    requires Confined(t0, t1, zones, b) && Clear(zones, y, ProjectEntryNames)
    ensures ItemRowsRemoved(t1, y + [StateDbName]) == ItemRowsRemoved(t0, y + [StateDbName])
    ensures Touched(t1, y) <==> Touched(t0, y)
  {
    ProjectNamesPlain();
    ClearSub(zones, y, ProjectEntryNames, AugmentDirNames);
    ClearSub(zones, y, ProjectEntryNames, AugmentFileNames);
    ApartNotWithin(zones, y, ProjectEntryNames, StateDbName);
    var db := y + [StateDbName];
    assert Parent(db) == y && Name(db) == StateDbName;
    ItemRowsKept(t0, t1, db, zones, b);
    RemovableAmongKept(t0, t1, y, AugmentDirNames, |AugmentDirNames|, zones, b);
    UnlinkableAmongKept(t0, t1, y, AugmentFileNames, |AugmentFileNames|, zones, b);
  }

  /** A project's cleaning survives later changes clear of it. */
  lemma ProjectCleanedPersist(t0: Tree, t1: Tree, t2: Tree, y: Path, zones: set<Path>, b: Path)
    requires ProjectCleaned(t0, t1, y) && Confined(t1, t2, zones, b)
    requires Clear(zones, y, ProjectEntryNames)
    ensures ProjectCleaned(t0, t2, y)
  {
    ProjectNamesPlain();
    ClearSub(zones, y, ProjectEntryNames, AugmentDirNames);
    ClearSub(zones, y, ProjectEntryNames, AugmentFileNames);
    ApartNotWithin(zones, y, ProjectEntryNames, StateDbName);
    var db := y + [StateDbName];
    assert Name(db) == StateDbName;
    DbItemsPersist(t0, t1, t2, db, zones, b);
    DirsRemovedPersist(t0, t1, t2, y, AugmentDirNames, zones, b);
    FilesRemovedPersist(t0, t1, t2, y, AugmentFileNames, zones, b);
  }

  /** Cleaning one more project folder `y` keeps what cleaning the others did. */
  lemma ProjectsPersist(t0: Tree, t1: Tree, t2: Tree, w: Path, projects: set<Path>, y: Path, b: Path)
    requires forall p :: p in projects ==> |p| == |w| + 1 && ProjectCleaned(t0, t1, p)
    requires |y| == |w| + 1 && y !in projects
    requires Confined(t1, t2, ProjectZones(y), b)
    ensures forall p :: p in projects ==> ProjectCleaned(t0, t2, p)
  {
    WorkspaceZonesAdd({}, y);
    assert WorkspaceZones({y}) == ProjectZones(y);
    forall p | p in projects ensures ProjectCleaned(t0, t2, p) {
      CousinsClear(w, {y}, p);
      ProjectCleanedPersist(t0, t1, t2, p, ProjectZones(y), b);
    }
  }

  /** A project folder cleaned after the others: every project so far is cleaned, and
      only their zones changed. */
  lemma ProjectVisited(t0: Tree, t1: Tree, t2: Tree, w: Path, projects: set<Path>, y: Path, b: Path)
    requires forall p :: p in projects ==> |p| == |w| + 1 && ProjectCleaned(t0, t1, p)
    requires |y| == |w| + 1 && y !in projects
    requires Confined(t0, t1, WorkspaceZones(projects), b)
    requires ProjectCleaned(t1, t2, y) && Confined(t1, t2, ProjectZones(y), b)
    ensures Confined(t0, t2, WorkspaceZones(projects + {y}), b)
    ensures forall p :: p in projects + {y} ==> ProjectCleaned(t0, t2, p)
  {
    CousinsClear(w, projects, y);
    ProjectCleanedRebase(t0, t1, t2, y, WorkspaceZones(projects), b);
    ProjectsPersist(t0, t1, t2, w, projects, y, b);
    ConfinedTrans(t0, t1, t2, WorkspaceZones(projects), ProjectZones(y), b);
    WorkspaceZonesAdd(projects, y);
  }

  lemma OneMoreProject(projects: set<Path>, y: Path)
    requires y !in projects
    ensures |projects + {y}| == |projects| + 1
  {
  }

  /** The workspace loop's bookkeeping: once `y` is taken from the entries still to visit,
      the projects are still exactly the directories among the entries visited. */
  lemma ProjectSetStep(t: Tree, kids: set<Path>, todo: set<Path>, projects: set<Path>, y: Path, next: set<Path>)
    requires y in kids && y !in todo && y !in projects
    requires forall p :: p in projects ==> p in kids && p !in todo && p != y
    requires forall p :: p in kids && p !in todo && p != y ==> (p in projects <==> IsDir(t, p))
    requires next == if IsDir(t, y) then projects + {y} else projects
    ensures forall p :: p in next ==> p in kids && p !in todo
    ensures forall p :: p in kids && p !in todo ==> (p in next <==> IsDir(t, p))
  {
  }

  lemma ProjectSetDone(t: Tree, kids: set<Path>, projects: set<Path>)
    requires forall p :: p in projects ==> p in kids
    requires forall p :: p in kids ==> (p in projects <==> IsDir(t, p))
    ensures projects == set p | p in kids && IsDir(t, p)
  {
  }

  /** The AugmentCode directory names, the file names and the database name are three
      disjoint lists (their lengths differ). */
  lemma ProjectNamesDisjoint()
    ensures forall n :: n in AugmentDirNames ==> n !in AugmentFileNames && n != StateDbName
    ensures forall n :: n in AugmentFileNames ==> n != StateDbName
  {
  }

  /** Entries `parent/<names[k]>` named from one list are clear of another list. */
  lemma NamedClear(parent: Path, zones: set<Path>, names: seq<string>, others: seq<string>)
    requires forall z :: z in zones ==> exists k :: 0 <= k < |names| && z == parent + [names[k]]
    requires forall n :: n in names ==> n !in others
    ensures Clear(zones, parent, others)
  {
    forall z | z in zones ensures InDir(parent, z) && Name(z) !in others {
      var k :| 0 <= k < |names| && z == parent + [names[k]];
      InDirChild(parent, names[k]);
    }
    SiblingsClear(parent, zones, others);
  }

  /** The three steps of a project's cleaning compose: the database step, then the
      directories, then the files. */
  lemma ProjectStepsCompose(t0: Tree, t1: Tree, t2: Tree, t3: Tree, y: Path,
                            zones: set<Path>, dirs: set<Path>, files: set<Path>, b: Path)
    requires zones <= {y + [StateDbName]}
    requires Confined(t0, t1, zones, b) && DbItemsCleaned(t0, t1, y + [StateDbName])
    requires Confined(t1, t2, dirs, b) && DirsRemoved(t1, t2, y, AugmentDirNames)
    requires forall z :: z in dirs ==> exists k :: 0 <= k < |AugmentDirNames| && z == y + [AugmentDirNames[k]]
    requires Confined(t2, t3, files, b) && FilesRemoved(t2, t3, y, AugmentFileNames)
    requires forall z :: z in files ==> exists k :: 0 <= k < |AugmentFileNames| && z == y + [AugmentFileNames[k]]
    ensures ProjectCleaned(t0, t3, y)
  {
    var db := y + [StateDbName];
    ProjectNamesDisjoint();
    ProjectNamesPlain();
    StorageNamesPlain();
    assert Name(db) == StateDbName;
    forall z | z in zones ensures z == y + [[StateDbName][0]] { }
    NamedClear(y, zones, [StateDbName], AugmentDirNames);
    NamedClear(y, zones, [StateDbName], AugmentFileNames);
    NamedClear(y, dirs, AugmentDirNames, [StateDbName]);
    NamedClear(y, dirs, AugmentDirNames, AugmentFileNames);
    NamedClear(y, files, AugmentFileNames, [StateDbName]);
    NamedClear(y, files, AugmentFileNames, AugmentDirNames);
    ApartNotWithin(dirs, y, [StateDbName], StateDbName);
    ApartNotWithin(files, y, [StateDbName], StateDbName);
    DbItemsPersist(t0, t1, t2, db, dirs, b);
    DbItemsPersist(t0, t2, t3, db, files, b);
    DirsRemovedRebase(t0, t1, t2, y, AugmentDirNames, zones, b);
    DirsRemovedPersist(t0, t2, t3, y, AugmentDirNames, files, b);
    ConfinedTrans(t0, t1, t2, zones, dirs, b);
    assert Clear(zones + dirs, y, AugmentFileNames);
    FilesRemovedRebase(t0, t2, t3, y, AugmentFileNames, zones + dirs, b);
  }

  /** The directory and file steps of a project's cleaning remove what could be removed
      before its database step. */
  lemma ProjectStepsCounts(t0: Tree, t1: Tree, t2: Tree, y: Path, zones: set<Path>, dirs: set<Path>, b: Path)
    requires zones <= {y + [StateDbName]}
    requires Confined(t0, t1, zones, b) && Confined(t1, t2, dirs, b)
    requires forall z :: z in dirs ==> exists k :: 0 <= k < |AugmentDirNames| && z == y + [AugmentDirNames[k]]
    ensures RemovableCount(t1, y, AugmentDirNames) == RemovableCount(t0, y, AugmentDirNames)
    ensures UnlinkableCount(t2, y, AugmentFileNames) == UnlinkableCount(t0, y, AugmentFileNames)
  {
    ProjectNamesDisjoint();
    ProjectNamesPlain();
    forall z | z in zones ensures z == y + [[StateDbName][0]] { }
    NamedClear(y, zones, [StateDbName], AugmentDirNames);
    NamedClear(y, zones, [StateDbName], AugmentFileNames);
    NamedClear(y, dirs, AugmentDirNames, AugmentFileNames);
    RemovableAmongKept(t0, t1, y, AugmentDirNames, |AugmentDirNames|, zones, b);
    ConfinedTrans(t0, t1, t2, zones, dirs, b);
    assert Clear(zones + dirs, y, AugmentFileNames);
    UnlinkableAmongKept(t0, t2, y, AugmentFileNames, |AugmentFileNames|, zones + dirs, b);
  }

  lemma AugmentNamesDistinct()
    ensures forall i, j :: 0 <= i < j < |AugmentDirNames| ==> AugmentDirNames[i] != AugmentDirNames[j]
    ensures forall i, j :: 0 <= i < j < |AugmentFileNames| ==> AugmentFileNames[i] != AugmentFileNames[j]
  {
    forall i, j | 0 <= i < j < |AugmentDirNames| ensures AugmentDirNames[i] != AugmentDirNames[j] {
      assert |AugmentDirNames[i]| != |AugmentDirNames[j]|;
    }
    forall i, j | 0 <= i < j < |AugmentFileNames| ensures AugmentFileNames[i] != AugmentFileNames[j] {
      assert |AugmentFileNames[i]| != |AugmentFileNames[j]|;
    }
  }

  lemma InProjectZones(proj: Path, n: string)
    requires n in ProjectEntryNames
    ensures proj + [n] in ProjectZones(proj)
  {
  }

  lemma ProjectZonesCover(proj: Path, zones: set<Path>, dirs: set<Path>, files: set<Path>)
    requires zones <= {proj + [StateDbName]}
    requires forall d :: d in dirs ==> exists k :: 0 <= k < |AugmentDirNames| && d == proj + [AugmentDirNames[k]]
    requires forall f :: f in files ==> exists k :: 0 <= k < |AugmentFileNames| && f == proj + [AugmentFileNames[k]]
    ensures zones + dirs + files <= ProjectZones(proj)
  {
    forall z | z in zones + dirs + files ensures z in ProjectZones(proj) {
      if z in dirs {
        var k :| 0 <= k < |AugmentDirNames| && z == proj + [AugmentDirNames[k]];
        InProjectZones(proj, AugmentDirNames[k]);
      } else if z in files {
        var k :| 0 <= k < |AugmentFileNames| && z == proj + [AugmentFileNames[k]];
        InProjectZones(proj, AugmentFileNames[k]);
      } else {
        InProjectZones(proj, StateDbName);
      }
    }
  }

  /** What `_clean_workspace_storage` reports. */
  datatype WorkspaceResult = WorkspaceResult(success: bool, cleanedCount: nat, projectsProcessed: nat,
                                             recordsDeleted: nat, errors: seq<string>)

  const WorkspaceFailed := "Workspace cleaning failed"

  /** `vscode_dir.parent / "workspaceStorage"`. */
  function WorkspaceDir(vscodeDir: Path): Path {
    Parent(vscodeDir) + ["workspaceStorage"]
  }

  /** The cache directories `_clean_cache_directories` empties, in order. */
  const CacheNames: seq<string> := ["CachedExtensions", "CachedData", "logs", "GPUCache", "Service Worker"]

  lemma CacheNamesDistinct()
    ensures forall i, j :: 0 <= i < j < |CacheNames| ==> CacheNames[i] != CacheNames[j]
  {
    forall i, j | 0 <= i < j < |CacheNames| ensures CacheNames[i] != CacheNames[j] {
      assert |CacheNames[i]| != |CacheNames[j]|;
    }
  }

  /** What `_clean_cache_directories` reports. */
  datatype CacheResult = CacheResult(success: bool, cleanedCount: nat, errors: seq<string>)

  /** The exception text of a failed `rmtree` is not modelled. */
  const RemovalFailed := "could not be removed"

  function CacheError(name: string): string {
    "Cache " + name + ": " + RemovalFailed
  }

  /** The error texts of the caches named in `failures`, in order. */
  function CacheErrors(failures: seq<string>): (r: seq<string>)
    ensures |r| == |failures| && forall i :: 0 <= i < |failures| ==> r[i] == CacheError(failures[i])
  {
    if failures == [] then [] else [CacheError(failures[0])] + CacheErrors(failures[1..])
  }

  /** Different names give different error texts. */
  lemma CacheErrorInjective(a: string, b: string)
    requires CacheError(a) == CacheError(b)
    ensures a == b
  {
    var n := |"Cache "|;
    assert |a| == |b|;
    assert a == CacheError(a)[n..n + |a|] == CacheError(b)[n..n + |b|] == b;
  }

  /** The errors of `_clean_cache_directories`: one per cache directory whose removal
      failed. */
  lemma CacheErrorsListed(root: Path, failures: seq<string>, errors: seq<string>, t0: Tree)
    requires Listed(root, CacheNames, |CacheNames|, failures, p => IsDir(t0, p) && !CanRmtree(t0, p))
    requires |errors| == |failures| && forall i :: 0 <= i < |failures| ==> errors[i] == CacheError(failures[i])
    ensures forall e :: e in errors ==> exists k :: 0 <= k < |CacheNames| && e == CacheError(CacheNames[k])
    ensures forall k :: 0 <= k < |CacheNames| ==>
      (CacheError(CacheNames[k]) in errors <==> IsDir(t0, root + [CacheNames[k]]) && !CanRmtree(t0, root + [CacheNames[k]]))
  {
    assert CacheNames[..|CacheNames|] == CacheNames;
    forall e | e in errors ensures exists k :: 0 <= k < |CacheNames| && e == CacheError(CacheNames[k]) {
      var i :| 0 <= i < |errors| && errors[i] == e;
      assert failures[i] in failures;
      var k :| 0 <= k < |CacheNames| && CacheNames[k] == failures[i];
    }
    forall k | 0 <= k < |CacheNames|
      ensures CacheError(CacheNames[k]) in errors <==> CacheNames[k] in failures
    {
      if CacheNames[k] in failures {
        var j :| 0 <= j < |failures| && failures[j] == CacheNames[k];
        assert errors[j] == CacheError(CacheNames[k]);
      }
      if CacheError(CacheNames[k]) in errors {
        var i :| 0 <= i < |errors| && errors[i] == CacheError(CacheNames[k]);
        CacheErrorInjective(failures[i], CacheNames[k]);
        assert failures[i] in failures;
      }
    }
  }

  // ----- storage files and installations -----

  /** A file backup `<prefix>_<timestamp>.bak` is never one of the storage files (its name
      ends in `k`, theirs in `n` and `b`). */
  lemma BackupIsNoStorageFile(b: Path, prefix: string, ts: string, d: Path)
    ensures b + [BackupName(prefix, ts, BackupExtension)] != d + [StorageJsonName]
    ensures b + [BackupName(prefix, ts, BackupExtension)] != d + [StateDbName]
  {
    var n := BackupName(prefix, ts, BackupExtension);
    assert n[|n| - 1] == 'k';
    var x, y, z := b + [n], d + [StorageJsonName], d + [StateDbName];
    assert x[|x| - 1] == n && y[|y| - 1] == StorageJsonName && z[|z| - 1] == StateDbName;
  }

  /** What `_process_storage_files` reports. */
  datatype StorageResult = StorageResult(success: bool, processed: seq<Path>, failed: seq<Path>, backups: seq<Path>,
                                         oldIds: map<string, Value>, newIds: map<string, string>, errors: seq<string>)

  /** How `_process_storage_files` folds one file's outcome into its result: a success adds
      the file, its ids (a later key overwrites, as `dict.update` does) and its backup; a
      failure adds the file and its errors. */
  function Absorb(acc: StorageResult, f: Path, r: Outcome): StorageResult {
    if r.success then
      acc.(processed := acc.processed + [f], oldIds := acc.oldIds + r.oldIds, newIds := acc.newIds + r.newIds,
           backups := acc.backups + if r.backupPath.Some? then [r.backupPath.value] else [])
    else acc.(failed := acc.failed + [f], errors := acc.errors + r.errors)
  }

  /** Replaced ids come in pairs under the same keys, and every new value is a UUID. */
  predicate IdsPaired(oldIds: map<string, Value>, newIds: map<string, string>) {
    oldIds.Keys == newIds.Keys && forall k :: k in newIds ==> IsUuid4(newIds[k])
  }

  /** Merging paired id maps keeps them paired. */
  lemma IdsPairedMerge(o1: map<string, Value>, n1: map<string, string>, o2: map<string, Value>, n2: map<string, string>)
    requires IdsPaired(o1, n1) && IdsPaired(o2, n2)
    ensures IdsPaired(o1 + o2, n1 + n2)
  {
  }

  /** What `_process_storage_files` reports for the directory `d` of the tree `t`: each
      storage file that exists is processed or failed, never both, and the errors name the
      failed ones; `storage.json` is processed exactly when `_process_storage_json` succeeds
      on it, `state.vscdb` only when it opens and is ours, and then always when `d` is a
      directory; the ids are paired; the directory succeeds when some file was processed. */
  ghost predicate StorageReported(t: Tree, d: Path, s: StorageResult) {
    var sj, db := d + [StorageJsonName], d + [StateDbName];
    (s.success <==> s.processed != []) &&
    (forall f :: f in s.processed || f in s.failed ==> f == sj || f == db) &&
    (sj in s.processed || sj in s.failed <==> sj in t) &&
    (db in s.processed || db in s.failed <==> db in t) &&
    !(sj in s.processed && sj in s.failed) && !(db in s.processed && db in s.failed) &&
    s.errors == (if sj in s.failed then [StorageJsonFailed] else []) + (if db in s.failed then [StateDbFailed] else []) &&
    (sj in s.processed <==> StorageJsonSucceeds(t, sj)) &&
    (db in s.processed ==> Opens(t, db) && t[db].owned) &&
    (Opens(t, db) && t[db].owned && IsDir(t, d) ==> db in s.processed) &&
    IdsPaired(s.oldIds, s.newIds) && |s.backups| <= |s.processed|
  }

  /** Whether the storage files of `d` count as processed: its `storage.json` is, or its
      `state.vscdb` opens and is ours. */
  ghost predicate StorageOk(t: Tree, d: Path) {
    StorageJsonSucceeds(t, d + [StorageJsonName]) || (Opens(t, d + [StateDbName]) && t[d + [StateDbName]].owned)
  }

  /** A directory's storage result succeeds exactly when its files count as processed; only
      a `state.vscdb` whose directory is missing from the tree is left open. */
  lemma StorageOutcome(t: Tree, d: Path, s: StorageResult)
    requires StorageReported(t, d, s)
    ensures s.success ==> StorageOk(t, d)
    ensures IsDir(t, d) ==> (s.success <==> StorageOk(t, d))
    ensures StorageJsonSucceeds(t, d + [StorageJsonName]) ==> s.success
  {
    var sj, db := d + [StorageJsonName], d + [StateDbName];
    if s.success {
      var f := s.processed[0];
      assert f in s.processed;
    }
  }

  /** Which files the two halves of `_process_storage_files` put on which list: the
      `storage.json` half lists at most that file, the `state.vscdb` half appends at most
      the database to one list. */
  lemma StorageListsJoin(d: Path, first: StorageResult, last: StorageResult)
    requires var sj := d + [StorageJsonName];
      (first.processed == [] || first.processed == [sj]) && (first.failed == [] || first.failed == [sj]) &&
      first.errors == (if sj in first.failed then [StorageJsonFailed] else [])
    requires var db := d + [StateDbName];
      (last.processed == first.processed || last.processed == first.processed + [db]) &&
      (last.failed == first.failed || last.failed == first.failed + [db]) &&
      last.errors == first.errors + (if last.failed == first.failed + [db] then [StateDbFailed] else [])
    ensures var sj, db := d + [StorageJsonName], d + [StateDbName];
      (sj in last.processed <==> sj in first.processed) && (sj in last.failed <==> sj in first.failed) &&
      (db in last.processed <==> last.processed == first.processed + [db]) &&
      (db in last.failed <==> last.failed == first.failed + [db]) &&
      (forall f :: f in last.processed || f in last.failed ==> f == sj || f == db) &&
      last.errors == (if sj in last.failed then [StorageJsonFailed] else []) + (if db in last.failed then [StateDbFailed] else [])
  {
    var sj, db := d + [StorageJsonName], d + [StateDbName];
    assert sj[|sj| - 1] != db[|db| - 1];
    assert db !in first.processed && db !in first.failed;
  }

  /** The report of `_process_storage_files` put together from its `storage.json` half,
      read against `t0`, and its `state.vscdb` half, read against the tree `t1` the first
      half left, where the database entry and the directory are as they were in `t0`. */
  lemma StorageHalvesJoin(t0: Tree, t1: Tree, d: Path, first: StorageResult, last: StorageResult)
    requires var sj := d + [StorageJsonName];
      (first.processed == [] || first.processed == [sj]) && (first.failed == [] || first.failed == [sj]) &&
      (sj in first.processed || sj in first.failed <==> sj in t0) && !(sj in first.processed && sj in first.failed) &&
      first.errors == (if sj in first.failed then [StorageJsonFailed] else []) &&
      (sj in first.processed <==> StorageJsonSucceeds(t0, sj))
    requires var db := d + [StateDbName];
      (db in t1 <==> db in t0) && (db in t0 ==> t1[db] == t0[db]) && (IsDir(t0, d) ==> IsDir(t1, d))
    requires var db := d + [StateDbName];
      (last.processed == first.processed || last.processed == first.processed + [db]) &&
      (last.failed == first.failed || last.failed == first.failed + [db]) &&
      (last.processed == first.processed + [db] || last.failed == first.failed + [db] <==> db in t1) &&
      !(last.processed == first.processed + [db] && last.failed == first.failed + [db]) &&
      last.errors == first.errors + (if last.failed == first.failed + [db] then [StateDbFailed] else []) &&
      (last.processed == first.processed + [db] ==> Opens(t1, db) && t1[db].owned) &&
      (Opens(t1, db) && t1[db].owned && IsDir(t1, d) ==> last.processed == first.processed + [db])
    requires IdsPaired(last.oldIds, last.newIds) && |last.backups| <= |last.processed|
    ensures StorageReported(t0, d, last.(success := last.processed != []))
  {
    var db := d + [StateDbName];
    StorageListsJoin(d, first, last);
    assert db in t0 ==> (Opens(t1, db) <==> Opens(t0, db));
  }

  /** What processing the installation directory `d` may change: its two storage files, the
      AugmentCode entries of the project folders in its `workspaceStorage`, and the cache
      directories beside it. */
  predicate InstallationZone(d: Path, z: Path) {
    z == d + [StorageJsonName] || z == d + [StateDbName] ||
    (|z| == |WorkspaceDir(d)| + 2 && StartsWith(z, WorkspaceDir(d)) && z[|z| - 1] in ProjectEntryNames) ||
    (InDir(Parent(d), z) && z[|z| - 1] in CacheNames)
  }

  lemma WorkspaceZonesOfInstallation(d: Path, projects: set<Path>, z: Path)
    requires forall y :: y in projects ==> InDir(WorkspaceDir(d), y)
    requires z in WorkspaceZones(projects)
    ensures InstallationZone(d, z)
  {
    var y :| y in projects && z in ProjectZones(y);
    var n :| n in ProjectEntryNames && z == y + [n];
    var w := WorkspaceDir(d);
    assert z[..|w|] == y[..|w|] == w;
  }

  /** No zone of processing `d` other than its storage files and `d` itself holds either
      storage file. */
  lemma StorageFilesApart(d: Path, z: Path, n: string)
    requires InstallationZone(d, z) && z != d && z != d + [StorageJsonName] && z != d + [StateDbName]
    requires n == StorageJsonName || n == StateDbName
    ensures !StartsWith(d + [n], z)
  {
  }

  /** A cache directory beside the installation directory `d` is one of its zones, holds
      neither storage file, and is `d` itself only when `d` is named like a cache. */
  lemma CacheZone(d: Path, k: int)
    requires 0 <= k < |CacheNames|
    ensures var z := Parent(d) + [CacheNames[k]];
      InstallationZone(d, z) && z != d + [StorageJsonName] && z != d + [StateDbName] &&
      (Name(d) !in CacheNames ==> z != d)
  {
    var z := Parent(d) + [CacheNames[k]];
    InDirChild(Parent(d), CacheNames[k]);
    assert Name(z) == CacheNames[k];
    assert StorageJsonName !in CacheNames && StateDbName !in CacheNames;
  }

  /** Storage files a later step of the same directory leaves alone stay as processed. */
  lemma StorageCleanedPersist(t0: Tree, t1: Tree, t2: Tree, d: Path, zones: set<Path>, b: Path)
    requires StorageCleaned(t0, t1, d) && Confined(t1, t2, zones, b)
    requires forall z :: z in zones ==>
      InstallationZone(d, z) && z != d && z != d + [StorageJsonName] && z != d + [StateDbName]
    ensures StorageCleaned(t0, t2, d)
  {
    var sj, db := d + [StorageJsonName], d + [StateDbName];
    forall z | z in zones ensures !StartsWith(sj, z) && !StartsWith(db, z) {
      StorageFilesApart(d, z, StorageJsonName);
      StorageFilesApart(d, z, StateDbName);
    }
    StorageNamesPlain();
    assert Name(sj) == StorageJsonName && Name(db) == StateDbName;
    JsonCleanedPersist(t0, t1, t2, sj, zones, b);
    StateDbCleanedPersist(t0, t1, t2, db, zones, b);
  }

  /** What `_clean_workspace_storage` leaves for the installation directory `d`: when its
      `workspaceStorage` folder can be listed every project folder in it is cleaned, and
      otherwise nothing changes. */
  ghost predicate WorkspaceCleaned(t0: Tree, t1: Tree, d: Path) {
    var w := WorkspaceDir(d);
    if IsDir(t0, w) && t0[w].readable then
      forall y :: y in Children(t0, w) && IsDir(t0, y) ==> ProjectCleaned(t0, t1, y)
    else
      t1 == t0
  }

  /** The trees one installation directory passes through: before it, after its storage
      files, after its workspace storage, and after its caches; what its storage files
      reported; and the projects and cache directories it counted as cleaned. */
  datatype DirectoryRun = DirectoryRun(before: Tree, afterStorage: Tree, afterWorkspace: Tree, after: Tree,
                                       storage: StorageResult, cleaned: nat, caches: nat)

  /** What processing the installation directory `d` did, step by step: its storage files,
      then its workspace storage when asked for, then the caches beside it when asked for. */
  ghost predicate DirectoryProcessed(run: DirectoryRun, d: Path, cleanWorkspace: bool, cleanCache: bool) {
    StorageReported(run.before, d, run.storage) &&
    StorageCleaned(run.before, run.afterStorage, d) &&
    (if cleanWorkspace then WorkspaceCleaned(run.afterStorage, run.afterWorkspace, d)
     else run.afterWorkspace == run.afterStorage) &&
    (if cleanCache then DirsRemoved(run.afterWorkspace, run.after, Parent(d), CacheNames)
     else run.after == run.afterWorkspace) &&
    (!(cleanCache && Name(d) in CacheNames) ==> StorageCleaned(run.before, run.after, d)) &&
    run.cleaned == (if cleanWorkspace then WorkspaceCount(run.afterStorage, d) else 0) &&
    run.caches == (if cleanCache then RemovableCount(run.afterWorkspace, Parent(d), CacheNames) else 0)
  }

  /** The projects `_clean_workspace_storage` counts as cleaned for the installation
      directory `d`: those of its workspace folder that it touches, none when that folder
      cannot be listed. */
  ghost function WorkspaceCount(t: Tree, d: Path): nat {
    var w := WorkspaceDir(d);
    if IsDir(t, w) && t[w].readable then |TouchedAmong(t, set y | y in Children(t, w) && IsDir(t, y))| else 0
  }

  /** The sums of the counts of the first `n` runs. */
  ghost function WorkspaceTotal(runs: seq<DirectoryRun>, n: nat): nat
    requires n <= |runs|
  {
    if n == 0 then 0 else WorkspaceTotal(runs, n - 1) + runs[n - 1].cleaned
  }

  ghost function CacheTotal(runs: seq<DirectoryRun>, n: nat): nat
    requires n <= |runs|
  {
    if n == 0 then 0 else CacheTotal(runs, n - 1) + runs[n - 1].caches
  }

  /** The report over `total` directories with the storage results of the first `n` runs
      folded in, in order, and the variants, cleaning counts and overall success blank. */
  ghost function StoredTotal(total: nat, runs: seq<DirectoryRun>, n: nat): InstallResult
    requires n <= |runs|
  {
    if n == 0 then InstallResult(false, true, [], total, 0, 0, [], [], [], map[], map[], 0, 0, [])
    else StoreOutcome(StoredTotal(total, runs, n - 1), runs[n - 1].storage)
  }

  /** The runs among the first `n` whose storage files were processed. */
  ghost function ProcessedCount(runs: seq<DirectoryRun>, n: nat): nat
    requires n <= |runs|
  {
    if n == 0 then 0 else ProcessedCount(runs, n - 1) + if runs[n - 1].storage.success then 1 else 0
  }

  /** `directories_processed` counts the runs whose storage succeeded, and
      `directories_failed` the others. */
  lemma {:induction false} StoredCounts(total: nat, runs: seq<DirectoryRun>, n: nat)
    requires n <= |runs|
    ensures StoredTotal(total, runs, n).processed == ProcessedCount(runs, n)
    ensures StoredTotal(total, runs, n).failed == n - ProcessedCount(runs, n)
  {
    if n > 0 {
      StoredCounts(total, runs, n - 1);
    }
  }

  /** One more run adds its own counts to the sums and leaves those of the runs before it
      as they were. */
  lemma {:induction false} TotalsExtend(runs: seq<DirectoryRun>, run: DirectoryRun, n: nat)
    requires n <= |runs|
    ensures WorkspaceTotal(runs + [run], n) == WorkspaceTotal(runs, n)
    ensures CacheTotal(runs + [run], n) == CacheTotal(runs, n)
    ensures n == |runs| ==> WorkspaceTotal(runs + [run], n + 1) == WorkspaceTotal(runs, n) + run.cleaned
    ensures n == |runs| ==> CacheTotal(runs + [run], n + 1) == CacheTotal(runs, n) + run.caches
    ensures forall total: nat :: StoredTotal(total, runs + [run], n) == StoredTotal(total, runs, n)
    ensures n == |runs| ==> forall total: nat ::
      StoredTotal(total, runs + [run], n + 1) == StoreOutcome(StoredTotal(total, runs, n), run.storage)
  {
    if n > 0 {
      TotalsExtend(runs, run, n - 1);
      assert (runs + [run])[n - 1] == runs[n - 1];
    }
    assert (runs + [run])[|runs|] == run;
  }

  /** Each directory's run starts from the tree the previous one left. */
  ghost predicate Chained(runs: seq<DirectoryRun>) {
    forall k :: 0 <= k < |runs| - 1 ==> runs[k].after == runs[k + 1].before
  }

  lemma ChainedExtend(runs: seq<DirectoryRun>, run: DirectoryRun)
    requires Chained(runs) && (runs != [] ==> runs[|runs| - 1].after == run.before)
    ensures Chained(runs + [run])
  {
    var r := runs + [run];
    forall k | 0 <= k < |r| - 1 ensures r[k].after == r[k + 1].before {
      if k < |runs| - 1 {
        assert r[k] == runs[k] && r[k + 1] == runs[k + 1];
      }
    }
  }

  /** After the first `i` directories of `listing`: their runs lead from `t0` to `t`, and
      only their zones changed. */
  ghost predicate InstallationsSoFar(t0: Tree, t: Tree, listing: seq<Path>, i: nat, runs: seq<DirectoryRun>,
                                     zones: set<Path>, b: Path, cleanWorkspace: bool, cleanCache: bool) {
    i == |runs| <= |listing| && (i == 0 ==> t == t0) &&
    (i > 0 ==> runs[0].before == t0 && runs[i - 1].after == t) && Chained(runs) &&
    (forall k :: 0 <= k < i ==> DirectoryProcessed(runs[k], listing[k], cleanWorkspace, cleanCache)) &&
    (forall z :: z in zones ==> exists k :: 0 <= k < i && InstallationZone(listing[k], z)) &&
    Confined(t0, t, zones, b)
  }

  lemma InstallationsStep(t0: Tree, t: Tree, t': Tree, listing: seq<Path>, i: nat, runs: seq<DirectoryRun>,
                          zones: set<Path>, b: Path, cleanWorkspace: bool, cleanCache: bool,
                          run: DirectoryRun, here: set<Path>)
    requires InstallationsSoFar(t0, t, listing, i, runs, zones, b, cleanWorkspace, cleanCache) && i < |listing|
    requires run.before == t && run.after == t' && DirectoryProcessed(run, listing[i], cleanWorkspace, cleanCache)
    requires (forall z :: z in here ==> InstallationZone(listing[i], z)) && Confined(t, t', here, b)
    ensures InstallationsSoFar(t0, t', listing, i + 1, runs + [run], zones + here, b, cleanWorkspace, cleanCache)
  {
    ChainedExtend(runs, run);
    ConfinedTrans(t0, t, t', zones, here, b);
    var r := runs + [run];
    assert forall k :: 0 <= k < i ==> r[k] == runs[k];
  }

  /** What `process_vscode_installations` reports. */
  datatype InstallResult = InstallResult(success: bool, found: bool, variants: seq<string>, total: nat,
                                         processed: nat, failed: nat, filesProcessed: seq<Path>, filesFailed: seq<Path>,
                                         backups: seq<Path>, oldIds: map<string, Value>, newIds: map<string, string>,
                                         workspaceCleaned: nat, cacheCleaned: nat, errors: seq<string>)

  /** The report when no installation directory is found. */
  const NoInstallations := InstallResult(false, false, [], 0, 0, 0, [], [], [], map[], map[], 0, 0, [NoVscodeMessage])

  /** How `process_vscode_installations` folds one directory into its report: the variant
      once, then either the storage successes or the storage failures and errors (a
      directory that succeeded on one file drops the other file's failure), then the
      cleaning counts. */
  function Tally(acc: InstallResult, variant: string, s: StorageResult, cleaned: nat, caches: nat): InstallResult {
    var seen := if variant in acc.variants then acc else acc.(variants := acc.variants + [variant]);
    var stored := StoreOutcome(seen, s);
    stored.(workspaceCleaned := stored.workspaceCleaned + cleaned, cacheCleaned := stored.cacheCleaned + caches)
  }

  /** The storage part of folding in a directory: its processed files, backups and ids, or
      its failed files and errors. */
  function StoreOutcome(acc: InstallResult, s: StorageResult): InstallResult {
    if s.success then
      acc.(processed := acc.processed + 1, filesProcessed := acc.filesProcessed + s.processed,
           backups := acc.backups + s.backups, oldIds := acc.oldIds + s.oldIds, newIds := acc.newIds + s.newIds)
    else acc.(failed := acc.failed + 1, filesFailed := acc.filesFailed + s.failed, errors := acc.errors + s.errors)
  }

  /** A report with the variants, cleaning counts and overall success blank. */
  function Blanked(r: InstallResult): InstallResult {
    r.(success := false, variants := [], workspaceCleaned := 0, cacheCleaned := 0)
  }

  /** Setting the overall success leaves the storage part of a report as it was, and that
      part counts the runs whose storage files were processed. */
  lemma SettledStored(r: InstallResult, total: nat, runs: seq<DirectoryRun>, n: nat)
    requires n <= |runs| && Blanked(r) == StoredTotal(total, runs, n)
    ensures Blanked(r.(success := r.processed > 0)) == StoredTotal(total, runs, n)
    ensures r.processed == ProcessedCount(runs, n)
  {
    StoredCounts(total, runs, n);
    assert r.processed == Blanked(r).processed;
  }

  /** Past its variants and cleaning counts, folding in a directory is its storage outcome. */
  lemma BlankedTally(acc: InstallResult, variant: string, s: StorageResult, cleaned: nat, caches: nat)
    ensures Blanked(Tally(acc, variant, s, cleaned, caches)) == StoreOutcome(Blanked(acc), s)
    ensures Tally(acc, variant, s, cleaned, caches).workspaceCleaned == acc.workspaceCleaned + cleaned
    ensures Tally(acc, variant, s, cleaned, caches).cacheCleaned == acc.cacheCleaned + caches
  {
  }

  /** Folding in a directory counts it once, keeps the variants distinct and the ids
      paired, and leaves the outcome open. */
  lemma TallyKeeps(acc: InstallResult, variant: string, s: StorageResult, cleaned: nat, caches: nat)
    requires IdsPaired(acc.oldIds, acc.newIds) && (s.success ==> IdsPaired(s.oldIds, s.newIds))
    ensures var r := Tally(acc, variant, s, cleaned, caches);
      r.processed + r.failed == acc.processed + acc.failed + 1 &&
      (r.processed > acc.processed <==> s.success) && r.processed >= acc.processed &&
      variant in r.variants && (forall v :: v in r.variants <==> v in acc.variants || v == variant) &&
      ((forall i, j :: 0 <= i < j < |acc.variants| ==> acc.variants[i] != acc.variants[j]) ==>
        forall i, j :: 0 <= i < j < |r.variants| ==> r.variants[i] != r.variants[j]) &&
      IdsPaired(r.oldIds, r.newIds) &&
      (r.success, r.found, r.total) == (acc.success, acc.found, acc.total)
  {
    if s.success {
      IdsPairedMerge(acc.oldIds, acc.newIds, s.oldIds, s.newIds);
    }
  }

  // ----- the handler -----

  class VSCodeHandler {
    const paths: PathManager
    const backups: BackupManager
    /** The random source behind `generate_device_id`. */
    const entropy: Entropy

    constructor(paths: PathManager, backups: BackupManager, entropy: Entropy)
      ensures this.paths == paths && this.backups == backups && this.entropy == entropy
    {
      this.paths := paths;
      this.backups := backups;
      this.entropy := entropy;
    }

    /** The backup step both storage files begin with: `create_file_backup(p)` when asked
        for. Only the backup's own entry can change; every directory stays one. */
    method BackUp(disk: Disk, p: Path, createBackups: bool) returns (backup: Option<Path>)
      requires disk.clock.Valid()
      modifies disk
      ensures backup.Some? ==> (createBackups &&
        backup.value == backups.backupDir + [BackupName(Name(p), Timestamp(disk.clock), BackupExtension)])
      ensures OnlyTouches(old(disk.tree), disk.tree, p, backup)
      ensures p in old(disk.tree) ==> disk.tree[p] == old(disk.tree)[p]
      ensures forall q :: IsDir(old(disk.tree), q) ==> IsDir(disk.tree, q)
      ensures Confined(old(disk.tree), disk.tree, {}, backups.backupDir)
    {
      backup := None;
      if createBackups {
        backup := backups.CreateFileBackup(disk, p, "");
        if backup.Some? {
          CopyKeepsSource(old(disk.tree), p, backup.value);
        }
      }
    }

    /** The write-back of `_process_storage_json`: the write bit is restored, the document
        written, and the file locked when asked for. */
    method CommitJson(disk: Disk, f: Path, fields: map<string, string>, lockFiles: bool) returns (ok: bool)
      requires IsFile(disk.tree, f)
      modifies disk
      ensures ok == (old(disk.tree)[f].owned && f != [] && IsDir(old(disk.tree), Parent(f)))
      ensures disk.tree.Keys == old(disk.tree).Keys
      ensures forall q :: q in old(disk.tree) && q != f ==> disk.tree[q] == old(disk.tree)[q]
      ensures !ok ==> disk.tree[f].entry == old(disk.tree)[f].entry
      ensures ok ==> (IsFile(disk.tree, f) && disk.tree[f].entry.content == Content.Json(fields) &&
        (lockFiles <==> IsFileLocked(disk.tree, f)))
    {
      ModesAfterChmod(disk.tree[f].mode);
      ok := disk.ChangeMode(f, S_IWUSR | S_IRUSR);
      if !ok {
        return;
      }
      ok := disk.WriteFile(f, Content.Json(fields));
      if ok && lockFiles {
        ModesAfterChmod(disk.tree[f].mode);
        var _ := disk.ChangeMode(f, S_IRUSR);
      }
    }

    /** `_process_storage_json(f)`: the file is backed up when asked for and loaded as JSON,
        and every telemetry key an object holds gets a fresh device id. Only when something
        changed is the write bit restored, the document written back, and the file locked
        (when asked for). A document that is not an object fails when the key loop raises
        and otherwise succeeds unchanged. Any failure on the way fails the file. */
    method ProcessStorageJson(disk: Disk, f: Path, createBackups: bool, lockFiles: bool) returns (res: Outcome)
      requires disk.clock.Valid()
      modifies disk, entropy
      ensures res.success <==> res.errors == []
      ensures !res.success ==> res.errors == [StorageJsonFailed] && res.oldIds == map[] && res.newIds == map[]
      ensures res.backupPath.Some? ==> (createBackups &&
        res.backupPath.value == backups.backupDir + [BackupName(Name(f), Timestamp(disk.clock), BackupExtension)])
      ensures OnlyTouches(old(disk.tree), disk.tree, f, res.backupPath)
      ensures Confined(old(disk.tree), disk.tree, {f}, backups.backupDir)
      ensures res.success <==> StorageJsonSucceeds(old(disk.tree), f)
      ensures JsonCleaned(old(disk.tree), disk.tree, f)
      ensures (!JsonReadable(old(disk.tree), f) || KeyLoopRaises(old(disk.tree)[f].entry.content)) ==>
        f in old(disk.tree) ==> disk.tree[f] == old(disk.tree)[f]
      ensures res.success ==> IsFile(disk.tree, f)
      ensures res.success ==> (
        var c := old(disk.tree)[f].entry.content;
        if c.Json? then
          (forall k :: k in res.oldIds <==> k in c.fields && k in TelemetryKeys) &&
          (forall k :: k in res.oldIds ==> res.oldIds[k] == Value.Text(c.fields[k])) &&
          res.newIds.Keys == res.oldIds.Keys && (forall k :: k in res.newIds ==> IsUuid4(res.newIds[k]))
        else res.oldIds == map[] && res.newIds == map[])
      ensures res.success && res.newIds == map[] ==> disk.tree[f] == old(disk.tree)[f]
      ensures res.success && res.newIds != map[] ==> (
        var c := disk.tree[f].entry.content;
        c.Json? && (lockFiles <==> IsFileLocked(disk.tree, f)) &&
        forall k :: k in c.fields ==> c.fields[k] == if k in res.newIds then res.newIds[k] else old(disk.tree)[f].entry.content.fields[k])
    {
      var backup := BackUp(disk, f, createBackups);
      if !JsonReadable(disk.tree, f) {
        return Outcome(false, backup, map[], map[], [StorageJsonFailed]);
      }
      if !disk.tree[f].entry.content.Json? {
        var raises := ScanDocument(disk.tree[f].entry.content);
        return if raises then Outcome(false, backup, map[], map[], [StorageJsonFailed])
          else Outcome(true, backup, map[], map[], []);
      }
      var data := disk.tree[f].entry.content.fields;
      TelemetryKeysDistinct();
      var updated, olds, news := RewriteKeys(entropy, data, TelemetryKeys);
      if news == map[] {
        return Outcome(true, backup, olds, news, []);
      }
      ghost var t1 := disk.tree;
      var ok := CommitJson(disk, f, updated, lockFiles);
      InPlaceConfined(t1, disk.tree, f, backups.backupDir);
      ConfinedTrans(old(disk.tree), t1, disk.tree, {}, {f}, backups.backupDir);
      res := if ok then Outcome(true, backup, olds, news, []) else Outcome(false, backup, map[], map[], [StorageJsonFailed]);
    }

    /** The commit and lock of `_process_state_database`, on a file already made writable:
        the database is written back only if it changed, and the file locked when asked
        for. */
    method CommitDatabase(disk: Disk, p: Path, v: Database, changed: bool, lockFiles: bool) returns (ok: bool)
      requires IsFile(disk.tree, p) && disk.tree[p].owned && Writable(disk.tree[p].mode)
      modifies disk
      ensures ok == (!changed || (p != [] && IsDir(old(disk.tree), Parent(p))))
      ensures disk.tree.Keys == old(disk.tree).Keys
      ensures forall q :: q in old(disk.tree) && q != p ==> disk.tree[q] == old(disk.tree)[q]
      ensures !ok ==> disk.tree[p].entry == old(disk.tree)[p].entry
      ensures ok ==> IsFile(disk.tree, p) && (lockFiles <==> IsFileLocked(disk.tree, p))
      ensures ok && changed ==> disk.tree[p].entry.content == Content.Db(v)
      ensures ok && !changed ==> disk.tree[p].entry == old(disk.tree)[p].entry
    {
      ok := true;
      if changed {
        ok := disk.WriteFile(p, Content.Db(v));
      }
      if ok && lockFiles {
        ModesAfterChmod(disk.tree[p].mode);
        var _ := disk.ChangeMode(p, S_IRUSR);
      }
    }

    /** The backup and `chmod(S_IWRITE | S_IREAD)` that open `_process_state_database`:
        only the mode of `p` changes, and only when the file is ours. */
    method MakeWritable(disk: Disk, p: Path, createBackups: bool) returns (backup: Option<Path>, ok: bool)
      requires disk.clock.Valid() && p in disk.tree
      modifies disk
      ensures backup.Some? ==> (createBackups &&
        backup.value == backups.backupDir + [BackupName(Name(p), Timestamp(disk.clock), BackupExtension)])
      ensures OnlyTouches(old(disk.tree), disk.tree, p, backup)
      ensures Confined(old(disk.tree), disk.tree, {p}, backups.backupDir)
      ensures forall q :: IsDir(old(disk.tree), q) ==> IsDir(disk.tree, q)
      ensures ok == old(disk.tree)[p].owned
      ensures ok ==> disk.tree[p] == old(disk.tree)[p].(mode := disk.tree[p].mode) && Writable(disk.tree[p].mode)
      ensures !ok ==> disk.tree[p] == old(disk.tree)[p]
    {
      backup := BackUp(disk, p, createBackups);
      ghost var t1 := disk.tree;
      ModesAfterChmod(disk.tree[p].mode);
      ok := disk.ChangeMode(p, S_IWUSR | S_IRUSR);
      InPlaceConfined(t1, disk.tree, p, backups.backupDir);
      ConfinedTrans(old(disk.tree), t1, disk.tree, {}, {p}, backups.backupDir);
      assert {} + {p} == {p};
    }

    /** The rewrite, commit and lock of `_process_state_database`, on a file already made
        writable: the identifiers found become fresh UUIDs, and the file is written back
        only if one did. */
    method RewriteStateDatabase(disk: Disk, p: Path, lockFiles: bool)
      returns (ok: bool, olds: map<string, Value>, news: map<string, string>, v: Database)
      requires Opens(disk.tree, p) && disk.tree[p].owned && Writable(disk.tree[p].mode)
      modifies disk, entropy
      ensures ok == (news == map[] || (p != [] && IsDir(old(disk.tree), Parent(p))))
      ensures DatabaseRewritten(Stored(old(disk.tree)[p].entry.content), v)
      ensures olds.Keys == news.Keys && (forall k :: k in news ==> IsUuid4(news[k]))
      ensures disk.tree.Keys == old(disk.tree).Keys
      ensures forall q :: q in old(disk.tree) && q != p ==> disk.tree[q] == old(disk.tree)[q]
      ensures Confined(old(disk.tree), disk.tree, {p}, backups.backupDir)
      ensures !ok ==> disk.tree[p].entry == old(disk.tree)[p].entry
      ensures ok ==> IsFile(disk.tree, p) && (lockFiles <==> IsFileLocked(disk.tree, p))
      ensures ok && news == map[] ==>
        v == Stored(old(disk.tree)[p].entry.content) && disk.tree[p].entry == old(disk.tree)[p].entry
      ensures ok && news != map[] ==> disk.tree[p].entry.content == Content.Db(v)
    {
      var db := Stored(disk.tree[p].entry.content);
      v, olds, news := RewriteDatabase(entropy, db);
      ok := CommitDatabase(disk, p, v, news != map[], lockFiles);
      InPlaceConfined(old(disk.tree), disk.tree, p, backups.backupDir);
    }

    /** `_process_state_database(p)`: the file is backed up when asked for and made
        writable, then every cell of a TEXT, VARCHAR or CHAR column holding a telemetry key
        becomes a fresh UUID, committed once and only if something changed; the file is
        locked afterwards when asked for. */
    method ProcessStateDatabase(disk: Disk, p: Path, createBackups: bool, lockFiles: bool)
      returns (res: Outcome, ghost rewritten: Database)
      requires disk.clock.Valid() && p in disk.tree
      modifies disk, entropy
      ensures res.success <==> res.errors == []
      ensures !res.success ==> res.errors == [StateDbFailed] && res.oldIds == map[] && res.newIds == map[]
      ensures res.backupPath.Some? ==> (createBackups &&
        res.backupPath.value == backups.backupDir + [BackupName(Name(p), Timestamp(disk.clock), BackupExtension)])
      ensures OnlyTouches(old(disk.tree), disk.tree, p, res.backupPath)
      ensures Confined(old(disk.tree), disk.tree, {p}, backups.backupDir)
      ensures !(Opens(old(disk.tree), p) && old(disk.tree)[p].owned) ==>
        !res.success && disk.tree[p].entry == old(disk.tree)[p].entry
      ensures Opens(old(disk.tree), p) && old(disk.tree)[p].owned && p != [] && IsDir(old(disk.tree), Parent(p)) ==>
        res.success
      ensures res.success ==> Opens(old(disk.tree), p) && old(disk.tree)[p].owned && IsFile(disk.tree, p)
      ensures res.success ==> DatabaseRewritten(Stored(old(disk.tree)[p].entry.content), rewritten)
      ensures res.success ==>
        res.oldIds.Keys == res.newIds.Keys && (forall k :: k in res.newIds ==> IsUuid4(res.newIds[k]))
      ensures res.success && res.newIds == map[] ==>
        rewritten == Stored(old(disk.tree)[p].entry.content) && disk.tree[p].entry == old(disk.tree)[p].entry
      ensures res.success && res.newIds != map[] ==> disk.tree[p].entry.content == Content.Db(rewritten)
      ensures res.success ==> (lockFiles <==> IsFileLocked(disk.tree, p))
      ensures StateDbCleaned(old(disk.tree), disk.tree, p)
    {
      rewritten := Database([]);
      var backup, ok := MakeWritable(disk, p, createBackups);
      if !ok || !Opens(disk.tree, p) {
        return Outcome(false, backup, map[], map[], [StateDbFailed]), rewritten;
      }
      ghost var t2 := disk.tree;
      var olds, news, v;
      ok, olds, news, v := RewriteStateDatabase(disk, p, lockFiles);
      rewritten := v;
      ConfinedTrans(old(disk.tree), t2, disk.tree, {p}, {p}, backups.backupDir);
      res := if ok then Outcome(true, backup, olds, news, []) else Outcome(false, backup, map[], map[], [StateDbFailed]);
    }

    /** `_clean_project_database(p)`: only a file passing the header check whose `ItemTable`
        has a `key` column is touched. Each pattern in turn counts the rows whose key matches
        and deletes them; the answer is the number of rows gone, committed only when
        positive. On a read-only file the first DELETE fails and the answer is 0. */
    method CleanProjectDatabase(disk: Disk, p: Path) returns (n: nat)
      modifies disk
      ensures var i := ItemTableOf(old(disk.tree), p);
        if i.None? || !CanModify(old(disk.tree), p) then n == 0 && disk.tree == old(disk.tree)
        else
          var db := old(disk.tree)[p].entry.content.db;
          var rows := db.tables[i.value].rows;
          n == |rows| - |Survivors(rows, ColumnClauses("key", ProjectPatterns))| &&
          disk.tree == if n == 0 then old(disk.tree)
            else Write(old(disk.tree), p, Content.Db(CleanedItemTable(db, i.value)), disk.now)
      ensures n == ItemRowsRemoved(old(disk.tree), p)
      ensures Confined(old(disk.tree), disk.tree, if n == 0 then {} else {p}, backups.backupDir)
      ensures DbItemsCleaned(old(disk.tree), disk.tree, p)
    {
      var i := ItemTableOf(disk.tree, p);
      if i.None? || !CanModify(disk.tree, p) {
        return 0;
      }
      var db := disk.tree[p].entry.content.db;
      var kept, deleted := CleanColumn(db.tables[i.value].rows, "key", ProjectPatterns);
      n := deleted;
      if n == 0 {
        NothingDeletedKeepsDatabase(db, i.value);
      } else {
        ghost var t0 := disk.tree;
        var ok := disk.WriteFile(p, Content.Db(CleanedItemTable(db, i.value)));
        InPlaceConfined(t0, disk.tree, p, backups.backupDir);
      }
    }

    /** One directory of a removal list: archived when asked for and removed if it is a
        directory. It is removed exactly when `rmtree` can remove it, and then nothing at or
        below it remains; a directory it cannot remove is reported as failed. */
    method RemoveDirectory(disk: Disk, d: Path, createBackups: bool) returns (removed: bool, failed: bool)
      requires disk.clock.Valid()
      modifies disk
      ensures removed <==> CanRmtree(old(disk.tree), d)
      ensures failed <==> IsDir(old(disk.tree), d) && !CanRmtree(old(disk.tree), d)
      ensures removed ==> d !in disk.tree && forall q :: q in disk.tree ==> !StartsWith(q, d)
      ensures Confined(old(disk.tree), disk.tree, if removed then {d} else {}, backups.backupDir)
      ensures !createBackups ==> disk.tree.Keys <= old(disk.tree).Keys
    {
      removed, failed := false, false;
      if !IsDir(disk.tree, d) {
        return;
      }
      if createBackups {
        var archive: Option<Path>;
        ghost var members, missed;
        archive, members, missed := backups.CreateDirectoryBackup(disk, d, "");
      }
      ghost var t1 := disk.tree;
      CanRmtreeKept(old(disk.tree), t1, {}, backups.backupDir, d);
      removed := disk.RemoveTree(d);
      failed := !removed;
      if removed {
        RmtreeConfined(t1, d, backups.backupDir);
        ConfinedTrans(old(disk.tree), t1, disk.tree, {}, {d}, backups.backupDir);
        assert {} + {d} == {d};
        assert StartsWith(d, d);
      }
    }

    /** The directories `parent/<name>` of `names`: each one that is a directory is archived
        when asked for and removed; a removal that fails is skipped and its name reported.
        `gone` holds the directories removed: exactly those `rmtree` could remove, none of
        which exists afterwards. */
    method RemoveDirectories(disk: Disk, parent: Path, names: seq<string>, createBackups: bool)
      returns (removed: nat, failures: seq<string>, ghost gone: set<Path>)
      requires disk.clock.Valid()
      requires forall i, j :: 0 <= i < j < |names| ==> names[i] != names[j]
      requires NoBackupNames(names)
      modifies disk
      ensures removed == |gone| && Swept(old(disk.tree), parent, names, |names|, gone, failures)
      ensures removed == RemovableCount(old(disk.tree), parent, names)
      ensures DirsRemoved(old(disk.tree), disk.tree, parent, names)
      ensures forall d :: d in gone ==> d !in disk.tree
      ensures Confined(old(disk.tree), disk.tree, gone, backups.backupDir)
      ensures !createBackups ==> disk.tree.Keys <= old(disk.tree).Keys
    {
      removed, failures, gone := 0, [], {};
      var i := 0;
      while i < |names|
        invariant 0 <= i <= |names|
        invariant removed == |gone| && removed == RemovableAmong(old(disk.tree), parent, names, i)
        invariant Swept(old(disk.tree), parent, names, i, gone, failures)
        invariant Confined(old(disk.tree), disk.tree, gone, backups.backupDir)
        invariant forall d :: d in gone ==> d !in disk.tree
        invariant !createBackups ==> disk.tree.Keys <= old(disk.tree).Keys
      {
        removed, failures, gone := SweepDirectory(disk, old(disk.tree), parent, names, i, createBackups, removed, failures, gone);
        i := i + 1;
      }
      SweptRemoved(old(disk.tree), disk.tree, parent, names, gone, failures, backups.backupDir);
    }

    /** One turn of the loop of `RemoveDirectories`: `parent/<names[i]>` is removed or
        skipped, and the tally kept. */
    method SweepDirectory(disk: Disk, ghost t0: Tree, parent: Path, names: seq<string>, i: nat, createBackups: bool,
                          removed0: nat, failures0: seq<string>, ghost gone0: set<Path>)
      returns (removed: nat, failures: seq<string>, ghost gone: set<Path>)
      requires disk.clock.Valid() && i < |names|
      requires forall i, j :: 0 <= i < j < |names| ==> names[i] != names[j]
      requires NoBackupNames(names)
      requires removed0 == |gone0| && Swept(t0, parent, names, i, gone0, failures0)
      requires Confined(t0, disk.tree, gone0, backups.backupDir)
      requires forall d :: d in gone0 ==> d !in disk.tree
      requires !createBackups ==> disk.tree.Keys <= t0.Keys
      modifies disk
      ensures removed == |gone| && Swept(t0, parent, names, i + 1, gone, failures)
      ensures removed0 == RemovableAmong(t0, parent, names, i) ==> removed == RemovableAmong(t0, parent, names, i + 1)
      ensures Confined(t0, disk.tree, gone, backups.backupDir)
      ensures forall d :: d in gone ==> d !in disk.tree
      ensures !createBackups ==> disk.tree.Keys <= t0.Keys
    {
      var d := parent + [names[i]];
      InDirChild(parent, names[i]);
      forall z | z in gone0 ensures z != d {
        var k :| 0 <= k < i && z == parent + [names[k]];
        EntryNamesDiffer(parent, names[k], names[i]);
      }
      SiblingsApart(parent, gone0, d);
      ghost var t1 := disk.tree;
      CanRmtreeKept(t0, t1, gone0, backups.backupDir, d);
      ConfinedKeeps(t0, t1, gone0, backups.backupDir, d);
      var ok, failed := RemoveDirectory(disk, d, createBackups);
      ghost var step: set<Path> := if ok then {d} else {};
      ConfinedTrans(t0, t1, disk.tree, gone0, step, backups.backupDir);
      StillGone(t1, disk.tree, parent, names, i, gone0, step, backups.backupDir);
      SweptStep(t0, parent, names, i, gone0, failures0, ok, failed, step);
      gone := gone0 + step;
      removed := if ok then removed0 + 1 else removed0;
      failures := if failed then failures0 + [names[i]] else failures0;
    }

    /** The files `parent/<name>` of `names`: each one that exists is backed up when asked
        for and unlinked; an unlink that fails is skipped. `gone` holds the files removed:
        exactly those `unlink` could remove, none of which exists afterwards. */
    method RemoveFiles(disk: Disk, parent: Path, names: seq<string>, createBackups: bool)
      returns (removed: bool, ghost gone: set<Path>)
      requires disk.clock.Valid()
      requires forall i, j :: 0 <= i < j < |names| ==> names[i] != names[j]
      requires NoBackupNames(names)
      modifies disk
      ensures removed <==> gone != {}
      ensures Unlinked(old(disk.tree), parent, names, |names|, gone)
      ensures removed <==> UnlinkableCount(old(disk.tree), parent, names) > 0
      ensures FilesRemoved(old(disk.tree), disk.tree, parent, names)
      ensures forall f :: f in gone ==> f !in disk.tree
      ensures Confined(old(disk.tree), disk.tree, gone, backups.backupDir)
      ensures !createBackups ==> disk.tree.Keys <= old(disk.tree).Keys
    {
      removed, gone := false, {};
      var i := 0;
      while i < |names|
        invariant 0 <= i <= |names|
        invariant removed <==> gone != {}
        invariant Unlinked(old(disk.tree), parent, names, i, gone)
        invariant Confined(old(disk.tree), disk.tree, gone, backups.backupDir)
        invariant forall f :: f in gone ==> f !in disk.tree
        invariant !createBackups ==> disk.tree.Keys <= old(disk.tree).Keys
      {
        var ok;
        ok, gone := SweepFile(disk, old(disk.tree), parent, names, i, createBackups, gone);
        removed := removed || ok;
        i := i + 1;
      }
      UnlinkedRemoved(old(disk.tree), disk.tree, parent, names, gone, backups.backupDir);
      UnlinkedCount(old(disk.tree), parent, names, |names|, gone);
    }

    /** One file of a removal list: backed up when asked for and unlinked if it exists. It
        is removed exactly when `unlink` can remove it. */
    method UnlinkFile(disk: Disk, f: Path, createBackups: bool) returns (ok: bool)
      requires disk.clock.Valid()
      requires !BackupSlot(backups.backupDir, f)
      modifies disk
      ensures ok <==> CanUnlink(old(disk.tree), f)
      ensures ok ==> f !in disk.tree
      ensures Confined(old(disk.tree), disk.tree, if ok then {f} else {}, backups.backupDir)
      ensures !createBackups ==> disk.tree.Keys <= old(disk.tree).Keys
    {
      ok := false;
      if f !in disk.tree {
        ConfinedWiden(disk.tree, disk.tree, {}, {}, backups.backupDir);
        return;
      }
      if createBackups {
        var _ := backups.CreateFileBackup(disk, f, "");
      } else {
        ConfinedWiden(disk.tree, disk.tree, {}, {}, backups.backupDir);
      }
      ghost var t1 := disk.tree;
      CanUnlinkKept(old(disk.tree), t1, {}, backups.backupDir, f);
      ok := disk.Remove(f);
      if ok {
        UnlinkConfined(t1, f, backups.backupDir);
      }
      ConfinedTrans(old(disk.tree), t1, disk.tree, {}, if ok then {f} else {}, backups.backupDir);
      assert {} + {f} == {f};
    }

    /** One turn of the loop of `RemoveFiles`: `parent/<names[i]>` is backed up and unlinked
        when it exists. */
    method SweepFile(disk: Disk, ghost t0: Tree, parent: Path, names: seq<string>, i: nat, createBackups: bool,
                     ghost gone0: set<Path>) returns (ok: bool, ghost gone: set<Path>)
      requires disk.clock.Valid() && i < |names|
      requires forall i, j :: 0 <= i < j < |names| ==> names[i] != names[j]
      requires NoBackupNames(names)
      requires Unlinked(t0, parent, names, i, gone0)
      requires Confined(t0, disk.tree, gone0, backups.backupDir)
      requires forall f :: f in gone0 ==> f !in disk.tree
      requires !createBackups ==> disk.tree.Keys <= t0.Keys
      modifies disk
      ensures ok <==> CanUnlink(t0, parent + [names[i]])
      ensures gone == if ok then gone0 + {parent + [names[i]]} else gone0
      ensures Unlinked(t0, parent, names, i + 1, gone)
      ensures Confined(t0, disk.tree, gone, backups.backupDir)
      ensures forall f :: f in gone ==> f !in disk.tree
      ensures !createBackups ==> disk.tree.Keys <= t0.Keys
    {
      var f := parent + [names[i]];
      InDirChild(parent, names[i]);
      forall z | z in gone0 ensures z != f {
        var k :| 0 <= k < i && z == parent + [names[k]];
        EntryNamesDiffer(parent, names[k], names[i]);
      }
      SiblingsApart(parent, gone0, f);
      ghost var t1 := disk.tree;
      CanUnlinkKept(t0, t1, gone0, backups.backupDir, f);
      ok := UnlinkFile(disk, f, createBackups);
      ConfinedTrans(t0, t1, disk.tree, gone0, if ok then {f} else {}, backups.backupDir);
      gone := if ok then gone0 + {f} else gone0;
      StillGone(t1, disk.tree, parent, names, i, gone0, if ok then {f} else {}, backups.backupDir);
      UnlinkedStep(t0, parent, names, i, gone0, ok);
    }

    /** One project folder of `workspaceStorage`: its `state.vscdb`, when present, is backed
        up as `workspace_<folder>` when asked for and cleaned, then the AugmentCode
        directories and files are removed. The folder counts as cleaned when rows were
        deleted or anything was removed; when it does not, only backups were written. */
    method CleanProject(disk: Disk, proj: Path, createBackups: bool) returns (cleaned: bool, records: nat)
      requires disk.clock.Valid()
      modifies disk
      ensures records == ItemRowsRemoved(old(disk.tree), proj + [StateDbName])
      ensures cleaned <==> Touched(old(disk.tree), proj)
      ensures ProjectCleaned(old(disk.tree), disk.tree, proj)
      ensures Confined(old(disk.tree), disk.tree, ProjectZones(proj), backups.backupDir)
      ensures !cleaned ==> Confined(old(disk.tree), disk.tree, {}, backups.backupDir)
      ensures !createBackups ==> disk.tree.Keys <= old(disk.tree).Keys
    {
      ghost var zones: set<Path>;
      records, zones := CleanProjectDbStep(disk, proj, createBackups);
      AugmentNamesDistinct();
      ProjectNamesPlain();
      ghost var t2 := disk.tree;
      var dirsRemoved, _, goneDirs := RemoveDirectories(disk, proj, AugmentDirNames, createBackups);
      ConfinedTrans(old(disk.tree), t2, disk.tree, zones, goneDirs, backups.backupDir);
      ghost var t3 := disk.tree;
      var filesRemoved, goneFiles := RemoveFiles(disk, proj, AugmentFileNames, createBackups);
      ConfinedTrans(old(disk.tree), t3, disk.tree, zones + goneDirs, goneFiles, backups.backupDir);
      ProjectStepsCompose(old(disk.tree), t2, t3, disk.tree, proj, zones, goneDirs, goneFiles, backups.backupDir);
      ProjectStepsCounts(old(disk.tree), t2, t3, proj, zones, goneDirs, backups.backupDir);
      cleaned := records > 0 || dirsRemoved > 0 || filesRemoved;
      assert cleaned <==> Touched(old(disk.tree), proj);
      if !cleaned {
        assert zones + goneDirs + goneFiles == {};
      }
      ProjectZonesCover(proj, zones, goneDirs, goneFiles);
      ConfinedWiden(old(disk.tree), disk.tree, zones + goneDirs + goneFiles, ProjectZones(proj), backups.backupDir);
    }

    /** The backup of a project's `state.vscdb` as `workspace_<folder>`, when asked for: only
        a backup entry can appear. */
    method BackUpProjectDatabase(disk: Disk, proj: Path, createBackups: bool)
      requires disk.clock.Valid()
      modifies disk
      ensures Confined(old(disk.tree), disk.tree, {}, backups.backupDir)
      ensures !createBackups ==> disk.tree == old(disk.tree)
    {
      if createBackups {
        var _ := backups.CreateFileBackup(disk, proj + [StateDbName], "workspace_" + Name(proj));
      } else {
        ConfinedWiden(disk.tree, disk.tree, {}, {}, backups.backupDir);
      }
    }

    /** The first step of a project: `state.vscdb`, when present, is backed up as
        `workspace_<folder>` when asked for and cleaned. */
    method CleanProjectDbStep(disk: Disk, proj: Path, createBackups: bool) returns (records: nat, ghost zones: set<Path>)
      requires disk.clock.Valid()
      modifies disk
      ensures records == ItemRowsRemoved(old(disk.tree), proj + [StateDbName])
      ensures zones == if records == 0 then {} else {proj + [StateDbName]}
      ensures Confined(old(disk.tree), disk.tree, zones, backups.backupDir)
      ensures DbItemsCleaned(old(disk.tree), disk.tree, proj + [StateDbName])
      ensures !createBackups ==> disk.tree.Keys <= old(disk.tree).Keys
    {
      var db := proj + [StateDbName];
      records, zones := 0, {};
      if db in disk.tree {
        BackUpProjectDatabase(disk, proj, createBackups);
        ghost var t1 := disk.tree;
        records := CleanProjectDatabase(disk, db);
        zones := if records == 0 then {} else {db};
        ConfinedTrans(old(disk.tree), t1, disk.tree, {}, zones, backups.backupDir);
        assert {} + zones == zones;
        StorageNamesPlain();
        assert Parent(db) == proj && Name(db) == StateDbName;
        DbItemsRebase(old(disk.tree), t1, disk.tree, db, {}, backups.backupDir);
        ItemRowsKept(old(disk.tree), t1, db, {}, backups.backupDir);
      } else {
        assert !HeaderCheck(old(disk.tree), db);
      }
    }

    /** `_clean_workspace_storage(vscode_dir)`: a missing `workspaceStorage` is a success with
        nothing done, one that cannot be listed a failure; otherwise every project folder in
        it is cleaned. `projects` are the folders processed: exactly its subdirectories. Only
        their AugmentCode entries and the backup directory change. */
    method CleanWorkspaceStorage(disk: Disk, vscodeDir: Path, createBackups: bool)
      returns (res: WorkspaceResult, ghost projects: set<Path>)
      requires disk.clock.Valid()
      modifies disk
      ensures var w := WorkspaceDir(vscodeDir);
        w !in old(disk.tree) ==> res == WorkspaceResult(true, 0, 0, 0, []) && disk.tree == old(disk.tree)
      ensures var w := WorkspaceDir(vscodeDir);
        w in old(disk.tree) && !(IsDir(old(disk.tree), w) && old(disk.tree)[w].readable) ==>
          res == WorkspaceResult(false, 0, 0, 0, [WorkspaceFailed]) && disk.tree == old(disk.tree)
      ensures var w := WorkspaceDir(vscodeDir);
        IsDir(old(disk.tree), w) && old(disk.tree)[w].readable ==> (
          res.success && res.errors == [] &&
          projects == (set y | y in Children(old(disk.tree), w) && IsDir(old(disk.tree), y)) &&
          res.projectsProcessed == |projects| && res.cleanedCount <= res.projectsProcessed)
      ensures res.cleanedCount == |TouchedAmong(old(disk.tree), projects)|
      ensures res.cleanedCount == WorkspaceCount(old(disk.tree), vscodeDir)
      ensures res.recordsDeleted == ProjectRows(old(disk.tree), projects)
      ensures forall y :: y in projects ==> InDir(WorkspaceDir(vscodeDir), y) && ProjectCleaned(old(disk.tree), disk.tree, y)
      ensures Confined(old(disk.tree), disk.tree, WorkspaceZones(projects), backups.backupDir)
      ensures !createBackups ==> disk.tree.Keys <= old(disk.tree).Keys
    {
      var w := WorkspaceDir(vscodeDir);
      projects := {};
      if w !in disk.tree {
        return WorkspaceResult(true, 0, 0, 0, []), projects;
      }
      if !(IsDir(disk.tree, w) && disk.tree[w].readable) {
        return WorkspaceResult(false, 0, 0, 0, [WorkspaceFailed]), projects;
      }
      var cleaned, processed, records;
      cleaned, processed, records, projects := CleanProjects(disk, w, createBackups);
      res := WorkspaceResult(true, cleaned, processed, records, []);
    }

    /** The loop of `_clean_workspace_storage` over the entries of the workspace folder `w`,
        in the order listing yields them (left open): each subdirectory is a project. */
    method CleanProjects(disk: Disk, w: Path, createBackups: bool)
      returns (cleaned: nat, processed: nat, records: nat, ghost projects: set<Path>)
      requires disk.clock.Valid()
      modifies disk
      ensures projects == set y | y in Children(old(disk.tree), w) && IsDir(old(disk.tree), y)
      ensures processed == |projects| && cleaned <= processed
      ensures cleaned == |TouchedAmong(old(disk.tree), projects)| && records == ProjectRows(old(disk.tree), projects)
      ensures forall p :: p in projects ==> ProjectCleaned(old(disk.tree), disk.tree, p)
      ensures Confined(old(disk.tree), disk.tree, WorkspaceZones(projects), backups.backupDir)
      ensures !createBackups ==> disk.tree.Keys <= old(disk.tree).Keys
    {
      var todo := Children(disk.tree, w);
      ghost var kids := todo;
      assert forall p :: p in kids ==> |p| == |w| + 1;
      cleaned, processed, records, projects := 0, 0, 0, {};
      while todo != {}
        invariant todo <= kids
        invariant forall y :: y in projects ==> y in kids && y !in todo
        invariant forall y :: y in kids && y !in todo ==> (y in projects <==> IsDir(old(disk.tree), y))
        invariant ProjectTotals(old(disk.tree), projects, cleaned, processed, records)
        invariant Confined(old(disk.tree), disk.tree, WorkspaceZones(projects), backups.backupDir)
        invariant forall p :: p in projects ==> ProjectCleaned(old(disk.tree), disk.tree, p)
        invariant !createBackups ==> disk.tree.Keys <= old(disk.tree).Keys
        decreases |todo|
      {
        var y :| y in todo;
        todo := todo - {y};
        assert y !in projects;
        ghost var projects0 := projects;
        cleaned, processed, records, projects :=
          ProjectTurn(disk, w, y, createBackups, old(disk.tree), projects, cleaned, processed, records);
        ProjectSetStep(old(disk.tree), kids, todo, projects0, y, projects);
      }
      ProjectSetDone(old(disk.tree), kids, projects);
    }

    /** One turn of the loop of `_clean_workspace_storage`: the entry `y` visited and, when
        it is a project folder, counted. */
    method ProjectTurn(disk: Disk, w: Path, y: Path, createBackups: bool, ghost t0: Tree, ghost projects: set<Path>,
                       cleaned0: nat, processed0: nat, records0: nat)
      returns (cleaned: nat, processed: nat, records: nat, ghost next: set<Path>)
      requires disk.clock.Valid() && |y| == |w| + 1
      requires forall p :: p in projects ==> |p| == |w| + 1
      requires y !in projects
      requires Confined(t0, disk.tree, WorkspaceZones(projects), backups.backupDir)
      requires forall p :: p in projects ==> ProjectCleaned(t0, disk.tree, p)
      requires !createBackups ==> disk.tree.Keys <= t0.Keys
      requires ProjectTotals(t0, projects, cleaned0, processed0, records0)
      modifies disk
      ensures next == if IsDir(t0, y) then projects + {y} else projects
      ensures ProjectTotals(t0, next, cleaned, processed, records)
      ensures Confined(t0, disk.tree, WorkspaceZones(next), backups.backupDir)
      ensures forall p :: p in next ==> ProjectCleaned(t0, disk.tree, p)
      ensures !createBackups ==> disk.tree.Keys <= t0.Keys
    {
      var isProject, c, n;
      isProject, c, n, next := VisitProject(disk, w, y, createBackups, t0, projects);
      ProjectTally(t0, projects, y, isProject, c, n, cleaned0, processed0, records0);
      cleaned, processed, records := cleaned0, processed0, records0;
      if isProject {
        processed := processed + 1;
        if c {
          cleaned := cleaned + 1;
        }
        records := records + n;
      }
    }

    /** One entry `y` of the workspace folder `w` in the loop of `_clean_workspace_storage`:
        cleaned as a project when it is a directory. Earlier projects never turn a sibling
        into or out of a directory, so that test answers as it would have at the start. */
    method VisitProject(disk: Disk, w: Path, y: Path, createBackups: bool, ghost t0: Tree, ghost projects: set<Path>)
      returns (isProject: bool, cleaned: bool, records: nat, ghost next: set<Path>)
      requires disk.clock.Valid() && |y| == |w| + 1
      requires forall p :: p in projects ==> |p| == |w| + 1
      requires y !in projects
      requires Confined(t0, disk.tree, WorkspaceZones(projects), backups.backupDir)
      requires forall p :: p in projects ==> ProjectCleaned(t0, disk.tree, p)
      requires !createBackups ==> disk.tree.Keys <= t0.Keys
      modifies disk
      ensures isProject <==> IsDir(t0, y)
      ensures isProject ==> records == ItemRowsRemoved(t0, y + [StateDbName]) && (cleaned <==> Touched(t0, y))
      ensures next == if isProject then projects + {y} else projects
      ensures |next| == |projects| + if isProject then 1 else 0
      ensures Confined(t0, disk.tree, WorkspaceZones(next), backups.backupDir)
      ensures forall p :: p in next ==> ProjectCleaned(t0, disk.tree, p)
      ensures !createBackups ==> disk.tree.Keys <= t0.Keys
    {
      WorkspaceZonesBelow(w, projects, y);
      isProject, cleaned, records, next := IsDir(disk.tree, y), false, 0, projects;
      if isProject {
        ghost var t1 := disk.tree;
        cleaned, records := CleanProject(disk, y, createBackups);
        CousinsClear(w, projects, y);
        ProjectCountsKept(t0, t1, y, WorkspaceZones(projects), backups.backupDir);
        ProjectVisited(t0, t1, disk.tree, w, projects, y, backups.backupDir);
        OneMoreProject(projects, y);
        next := projects + {y};
      }
    }

    /** `_clean_cache_directories(root)`: each cache directory of `root` is archived when
        asked for and removed, and one whose removal fails is reported by name. An entry that
        is not a directory is left alone (its archive attempt changes nothing). It always
        succeeds. */
    method CleanCacheDirectories(disk: Disk, root: Path, createBackups: bool)
      returns (res: CacheResult, ghost gone: set<Path>)
      requires disk.clock.Valid()
      modifies disk
      ensures res.success && res.cleanedCount == |gone| && res.cleanedCount + |res.errors| <= |CacheNames|
      ensures res.cleanedCount == RemovableCount(old(disk.tree), root, CacheNames)
      ensures forall d :: d in gone ==> exists k :: 0 <= k < |CacheNames| && d == root + [CacheNames[k]]
      ensures forall k :: 0 <= k < |CacheNames| ==>
        (root + [CacheNames[k]] in gone <==> CanRmtree(old(disk.tree), root + [CacheNames[k]]))
      ensures forall e :: e in res.errors ==> exists k :: 0 <= k < |CacheNames| && e == CacheError(CacheNames[k])
      ensures forall k :: 0 <= k < |CacheNames| ==>
        (CacheError(CacheNames[k]) in res.errors <==>
          IsDir(old(disk.tree), root + [CacheNames[k]]) && !CanRmtree(old(disk.tree), root + [CacheNames[k]]))
      ensures DirsRemoved(old(disk.tree), disk.tree, root, CacheNames)
      ensures forall d :: d in gone ==> d !in disk.tree
      ensures Confined(old(disk.tree), disk.tree, gone, backups.backupDir)
      ensures !createBackups ==> disk.tree.Keys <= old(disk.tree).Keys
    {
      CacheNamesDistinct();
      var removed, failures;
      removed, failures, gone := RemoveDirectories(disk, root, CacheNames, createBackups);
      SweptExplicit(old(disk.tree), root, CacheNames, gone, failures);
      var errors := CacheErrors(failures);
      CacheErrorsListed(root, failures, errors, old(disk.tree));
      res := CacheResult(true, removed, errors);
    }

    /** `_process_storage_files(dir)`: `storage.json`, then `state.vscdb`, each processed
        when it exists; the directory succeeds when at least one file did. */
    method ProcessStorageFiles(disk: Disk, dir: Path, createBackups: bool, lockFiles: bool) returns (res: StorageResult)
      requires disk.clock.Valid()
      modifies disk, entropy
      ensures StorageReported(old(disk.tree), dir, res)
      ensures StorageCleaned(old(disk.tree), disk.tree, dir)
      ensures Confined(old(disk.tree), disk.tree, {dir + [StorageJsonName], dir + [StateDbName]}, backups.backupDir)
      ensures !createBackups ==> disk.tree.Keys == old(disk.tree).Keys
    {
      var sj, db := dir + [StorageJsonName], dir + [StateDbName];
      assert sj[|sj| - 1] != db[|db| - 1];
      var first := StorageJsonStep(disk, dir, createBackups, lockFiles);
      ghost var t1 := disk.tree;
      res := StateDbStep(disk, dir, first, createBackups, lockFiles);
      StorageHalvesJoin(old(disk.tree), t1, dir, first, res);
      StorageNamesPlain();
      assert Name(sj) == StorageJsonName && Parent(db) == dir;
      JsonCleanedPersist(old(disk.tree), t1, disk.tree, sj, {db}, backups.backupDir);
      StateDbCleanedRebase(old(disk.tree), t1, disk.tree, db);
      ConfinedTrans(old(disk.tree), t1, disk.tree, {sj}, {db}, backups.backupDir);
      assert {sj} + {db} == {sj, db};
      res := res.(success := res.processed != []);
    }

    /** `_process_storage_json` on the `storage.json` of `dir`, seen from its directory: the
        outcome, and that the database entry beside it is left alone. */
    method RunStorageJson(disk: Disk, dir: Path, createBackups: bool, lockFiles: bool) returns (r: Outcome)
      requires disk.clock.Valid()
      modifies disk, entropy
      ensures var sj := dir + [StorageJsonName];
        (r.success <==> r.errors == []) && (!r.success ==> r.errors == [StorageJsonFailed]) &&
        (r.success <==> StorageJsonSucceeds(old(disk.tree), sj)) && JsonCleaned(old(disk.tree), disk.tree, sj)
      ensures IdsPaired(r.oldIds, r.newIds)
      ensures var db := dir + [StateDbName];
        (db in disk.tree <==> db in old(disk.tree)) && (db in old(disk.tree) ==> disk.tree[db] == old(disk.tree)[db])
      ensures IsDir(old(disk.tree), dir) ==> IsDir(disk.tree, dir)
      ensures Confined(old(disk.tree), disk.tree, {dir + [StorageJsonName]}, backups.backupDir)
      ensures !createBackups ==> disk.tree.Keys == old(disk.tree).Keys
    {
      var sj, db := dir + [StorageJsonName], dir + [StateDbName];
      assert Parent(sj) == dir;
      assert sj[|sj| - 1] != db[|db| - 1];
      r := ProcessStorageJson(disk, sj, createBackups, lockFiles);
      if r.backupPath.Some? {
        BackupIsNoStorageFile(backups.backupDir, Name(sj), Timestamp(disk.clock), dir);
      }
    }

    /** The `storage.json` half of `_process_storage_files`; the database entry and the
        directory are left as they were. */
    method StorageJsonStep(disk: Disk, dir: Path, createBackups: bool, lockFiles: bool) returns (res: StorageResult)
      requires disk.clock.Valid()
      modifies disk, entropy
      ensures var sj := dir + [StorageJsonName];
        (res.processed == [] || res.processed == [sj]) && (res.failed == [] || res.failed == [sj]) &&
        (sj in res.processed || sj in res.failed <==> sj in old(disk.tree)) && !(sj in res.processed && sj in res.failed) &&
        res.errors == (if sj in res.failed then [StorageJsonFailed] else []) &&
        (sj in res.processed <==> StorageJsonSucceeds(old(disk.tree), sj)) && JsonCleaned(old(disk.tree), disk.tree, sj)
      ensures IdsPaired(res.oldIds, res.newIds) && |res.backups| <= |res.processed|
      ensures var db := dir + [StateDbName];
        (db in disk.tree <==> db in old(disk.tree)) && (db in old(disk.tree) ==> disk.tree[db] == old(disk.tree)[db])
      ensures IsDir(old(disk.tree), dir) ==> IsDir(disk.tree, dir)
      ensures Confined(old(disk.tree), disk.tree, {dir + [StorageJsonName]}, backups.backupDir)
      ensures !createBackups ==> disk.tree.Keys == old(disk.tree).Keys
    {
      var sj, db := dir + [StorageJsonName], dir + [StateDbName];
      assert Parent(sj) == dir;
      assert sj[|sj| - 1] != db[|db| - 1];
      res := StorageResult(false, [], [], [], map[], map[], []);
      if sj in disk.tree {
        var r := RunStorageJson(disk, dir, createBackups, lockFiles);
        res := Absorb(res, sj, r);
      } else {
        ConfinedWiden(old(disk.tree), disk.tree, {}, {sj}, backups.backupDir);
      }
    }

    /** The `state.vscdb` half of `_process_storage_files`, folded into `acc`. */
    method StateDbStep(disk: Disk, dir: Path, acc: StorageResult, createBackups: bool, lockFiles: bool)
      returns (res: StorageResult)
      requires disk.clock.Valid()
      requires IdsPaired(acc.oldIds, acc.newIds) && |acc.backups| <= |acc.processed|
      modifies disk, entropy
      ensures var db := dir + [StateDbName];
        (res.processed == acc.processed || res.processed == acc.processed + [db]) &&
        (res.failed == acc.failed || res.failed == acc.failed + [db]) &&
        (res.processed == acc.processed + [db] || res.failed == acc.failed + [db] <==> db in old(disk.tree)) &&
        !(res.processed == acc.processed + [db] && res.failed == acc.failed + [db]) &&
        res.errors == acc.errors + (if res.failed == acc.failed + [db] then [StateDbFailed] else []) &&
        (res.processed == acc.processed + [db] ==> Opens(old(disk.tree), db) && old(disk.tree)[db].owned) &&
        (Opens(old(disk.tree), db) && old(disk.tree)[db].owned && IsDir(old(disk.tree), dir) ==>
          res.processed == acc.processed + [db])
      ensures StateDbCleaned(old(disk.tree), disk.tree, dir + [StateDbName])
      ensures IdsPaired(res.oldIds, res.newIds) && |res.backups| <= |res.processed|
      ensures Confined(old(disk.tree), disk.tree, {dir + [StateDbName]}, backups.backupDir)
      ensures !createBackups ==> disk.tree.Keys == old(disk.tree).Keys
    {
      var db := dir + [StateDbName];
      assert Parent(db) == dir;
      res := acc;
      if db in disk.tree {
        var r;
        ghost var rewritten;
        r, rewritten := ProcessStateDatabase(disk, db, createBackups, lockFiles);
        if r.success {
          IdsPairedMerge(acc.oldIds, acc.newIds, r.oldIds, r.newIds);
        }
        res := Absorb(res, db, r);
      } else {
        ConfinedWiden(old(disk.tree), disk.tree, {}, {db}, backups.backupDir);
      }
    }

    /** One installation directory in `process_vscode_installations`: its storage files,
        then its workspace storage and the caches beside it when asked for. `zones` are the
        places that may have changed. */
    method ProcessDirectory(disk: Disk, d: Path, createBackups: bool, lockFiles: bool, cleanWorkspace: bool, cleanCache: bool)
      returns (s: StorageResult, cleaned: nat, caches: nat, ghost zones: set<Path>, ghost run: DirectoryRun)
      requires disk.clock.Valid()
      modifies disk, entropy
      ensures d + [StorageJsonName] in s.processed <==> StorageJsonSucceeds(old(disk.tree), d + [StorageJsonName])
      ensures run.before == old(disk.tree) && run.after == disk.tree && DirectoryProcessed(run, d, cleanWorkspace, cleanCache)
      ensures IdsPaired(s.oldIds, s.newIds)
      ensures forall z :: z in zones ==> InstallationZone(d, z)
      ensures Confined(old(disk.tree), disk.tree, zones, backups.backupDir)
      ensures cleaned == run.cleaned && caches == run.caches && s == run.storage
    {
      s := ProcessStorageFiles(disk, d, createBackups, lockFiles);
      ghost var t1 := disk.tree;
      ghost var here, t2;
      cleaned, caches, here, t2 := CleanBeside(disk, d, createBackups, cleanWorkspace, cleanCache, old(disk.tree));
      zones := {d + [StorageJsonName], d + [StateDbName]} + here;
      ConfinedTrans(old(disk.tree), t1, disk.tree, {d + [StorageJsonName], d + [StateDbName]}, here, backups.backupDir);
      run := DirectoryRun(old(disk.tree), t1, t2, disk.tree, s, cleaned, caches);
      assert DirectoryProcessed(run, d, cleanWorkspace, cleanCache);
    }

    /** The cleaning that follows the storage files of the installation directory `d`:
        its workspace storage, then the caches beside it, each when asked for. `mid` is the
        tree between the two; the storage files cleaned from `t0` stay cleaned unless `d`
        is itself a cache directory that was removed. */
    method CleanBeside(disk: Disk, d: Path, createBackups: bool, cleanWorkspace: bool, cleanCache: bool, ghost t0: Tree)
      returns (cleaned: nat, caches: nat, ghost zones: set<Path>, ghost mid: Tree)
      requires disk.clock.Valid() && StorageCleaned(t0, disk.tree, d)
      modifies disk
      ensures if cleanWorkspace then WorkspaceCleaned(old(disk.tree), mid, d) else mid == old(disk.tree)
      ensures if cleanCache then DirsRemoved(mid, disk.tree, Parent(d), CacheNames) else disk.tree == mid
      ensures StorageCleaned(t0, mid, d)
      ensures !(cleanCache && Name(d) in CacheNames) ==> StorageCleaned(t0, disk.tree, d)
      ensures cleaned == if cleanWorkspace then WorkspaceCount(old(disk.tree), d) else 0
      ensures caches == if cleanCache then RemovableCount(mid, Parent(d), CacheNames) else 0
      ensures forall z :: z in zones ==> InstallationZone(d, z) && z != d + [StorageJsonName] && z != d + [StateDbName]
      ensures Confined(old(disk.tree), disk.tree, zones, backups.backupDir)
    {
      ghost var here;
      cleaned, here := WorkspaceStep(disk, d, createBackups, cleanWorkspace);
      mid := disk.tree;
      StorageCleanedPersist(t0, old(disk.tree), mid, d, here, backups.backupDir);
      zones := here;
      caches, here := CacheStep(disk, d, createBackups, cleanCache);
      if !(cleanCache && Name(d) in CacheNames) {
        StorageCleanedPersist(t0, mid, disk.tree, d, here, backups.backupDir);
      }
      ConfinedTrans(old(disk.tree), mid, disk.tree, zones, here, backups.backupDir);
      zones := zones + here;
    }

    /** The workspace part of one installation directory: `_clean_workspace_storage` when
        asked for. `zones` are the AugmentCode entries of its project folders. */
    method WorkspaceStep(disk: Disk, d: Path, createBackups: bool, cleanWorkspace: bool)
      returns (cleaned: nat, ghost zones: set<Path>)
      requires disk.clock.Valid()
      modifies disk
      ensures if cleanWorkspace then WorkspaceCleaned(old(disk.tree), disk.tree, d) else disk.tree == old(disk.tree) && cleaned == 0
      ensures cleaned == if cleanWorkspace then WorkspaceCount(old(disk.tree), d) else 0
      ensures forall z :: z in zones ==>
        InstallationZone(d, z) && z != d && z != d + [StorageJsonName] && z != d + [StateDbName]
      ensures Confined(old(disk.tree), disk.tree, zones, backups.backupDir)
    {
      cleaned, zones := 0, {};
      if cleanWorkspace {
        var w;
        ghost var projects;
        w, projects := CleanWorkspaceStorage(disk, d, createBackups);
        cleaned, zones := w.cleanedCount, WorkspaceZones(projects);
        forall z | z in zones ensures InstallationZone(d, z) && |z| > |d| + 1 {
          WorkspaceZonesOfInstallation(d, projects, z);
        }
      }
    }

    /** The cache part of one installation directory: `_clean_cache_directories` on its
        parent when asked for. `zones` are the cache directories removed; one of them holds
        the storage files only when `d` is itself a cache directory. */
    method CacheStep(disk: Disk, d: Path, createBackups: bool, cleanCache: bool)
      returns (caches: nat, ghost zones: set<Path>)
      requires disk.clock.Valid()
      modifies disk
      ensures if cleanCache then DirsRemoved(old(disk.tree), disk.tree, Parent(d), CacheNames)
        else disk.tree == old(disk.tree) && caches == 0 && zones == {}
      ensures caches == if cleanCache then RemovableCount(old(disk.tree), Parent(d), CacheNames) else 0
      ensures forall z :: z in zones ==>
        InstallationZone(d, z) && z != d + [StorageJsonName] && z != d + [StateDbName] &&
        (Name(d) !in CacheNames ==> z != d)
      ensures Confined(old(disk.tree), disk.tree, zones, backups.backupDir)
    {
      caches, zones := 0, {};
      if cleanCache {
        var c;
        c, zones := CleanCacheDirectories(disk, Parent(d), createBackups);
        caches := c.cleanedCount;
        forall z | z in zones ensures InstallationZone(d, z) && z != d + [StorageJsonName] && z != d + [StateDbName] &&
          (Name(d) !in CacheNames ==> z != d)
        {
          var k :| 0 <= k < |CacheNames| && z == Parent(d) + [CacheNames[k]];
          CacheZone(d, k);
        }
      }
    }

    /** `process_vscode_installations`: every installation directory the path manager lists,
        in its order; the run succeeds when the storage files of at least one directory
        were processed. `dirs` is that listing and `zones` the places that may have changed. */
    method ProcessVscodeInstallations(disk: Disk, createBackups: bool, lockFiles: bool, cleanWorkspace: bool, cleanCache: bool)
      returns (res: InstallResult, ghost dirs: seq<Path>, ghost zones: set<Path>, ghost runs: seq<DirectoryRun>)
      requires paths.Valid() && disk.clock.Valid()
      modifies disk, entropy, paths`vscodeDirs, paths`variantMap
      ensures |runs| == |dirs| && (dirs != [] ==> runs[0].before == old(disk.tree) && runs[|runs| - 1].after == disk.tree)
      ensures Chained(runs)
      ensures forall k :: 0 <= k < |runs| ==> DirectoryProcessed(runs[k], dirs[k], cleanWorkspace, cleanCache)
      ensures res.workspaceCleaned == WorkspaceTotal(runs, |dirs|)
      ensures res.cacheCleaned == CacheTotal(runs, |dirs|)
      ensures paths.Valid()
      ensures old(paths.vscodeDirs).Some? ==> dirs == old(paths.vscodeDirs).value
      ensures old(paths.vscodeDirs).None? ==>
        paths.vscodeDirs == Some(dirs) && Discovered(old(disk.tree), paths.ConfigBase(), dirs, paths.variantMap)
      ensures dirs == [] ==> res == NoInstallations && disk.tree == old(disk.tree)
      ensures dirs != [] ==> (res.found && res.total == |dirs| && res.processed + res.failed == |dirs| &&
        (res.success <==> res.processed > 0))
      ensures dirs != [] ==> Blanked(res) == StoredTotal(|dirs|, runs, |dirs|) && res.processed == ProcessedCount(runs, |dirs|)
      ensures forall i, j :: 0 <= i < j < |res.variants| ==> res.variants[i] != res.variants[j]
      ensures forall v :: v in res.variants <==> exists k :: 0 <= k < |dirs| && v == paths.GetVscodeVariantName(dirs[k])
      ensures forall v :: v in res.variants ==> v == "Unknown" || v in VscodeVariants
      ensures IdsPaired(res.oldIds, res.newIds)
      ensures forall z :: z in zones ==> exists k :: 0 <= k < |dirs| && InstallationZone(dirs[k], z)
      ensures Confined(old(disk.tree), disk.tree, zones, backups.backupDir)
      ensures !cleanWorkspace ==> res.workspaceCleaned == 0
      ensures !cleanCache ==> res.cacheCleaned == 0
    {
      var listing := paths.GetVscodeDirectories(disk.tree);
      dirs, zones, runs := listing, {}, [];
      if listing == [] {
        return NoInstallations, dirs, zones, runs;
      }
      res, zones, runs := ProcessDirectories(disk, listing, createBackups, lockFiles, cleanWorkspace, cleanCache);
    }

    /** The loop of `process_vscode_installations` over a nonempty listing. */
    method ProcessDirectories(disk: Disk, listing: seq<Path>, createBackups: bool, lockFiles: bool,
                              cleanWorkspace: bool, cleanCache: bool)
      returns (res: InstallResult, ghost zones: set<Path>, ghost runs: seq<DirectoryRun>)
      requires paths.Valid() && disk.clock.Valid() && listing != []
      modifies disk, entropy
      ensures |runs| == |listing| && runs[0].before == old(disk.tree) && runs[|runs| - 1].after == disk.tree
      ensures Chained(runs)
      ensures forall k :: 0 <= k < |runs| ==> DirectoryProcessed(runs[k], listing[k], cleanWorkspace, cleanCache)
      ensures res.workspaceCleaned == WorkspaceTotal(runs, |listing|)
      ensures res.cacheCleaned == CacheTotal(runs, |listing|)
      ensures res.found && res.total == |listing| && res.processed + res.failed == |listing|
      ensures res.success <==> res.processed > 0
      ensures Blanked(res) == StoredTotal(|listing|, runs, |listing|) && res.processed == ProcessedCount(runs, |listing|)
      ensures forall i, j :: 0 <= i < j < |res.variants| ==> res.variants[i] != res.variants[j]
      ensures forall v :: v in res.variants <==> exists k :: 0 <= k < |listing| && v == paths.GetVscodeVariantName(listing[k])
      ensures IdsPaired(res.oldIds, res.newIds)
      ensures forall z :: z in zones ==> exists k :: 0 <= k < |listing| && InstallationZone(listing[k], z)
      ensures Confined(old(disk.tree), disk.tree, zones, backups.backupDir)
      ensures !cleanWorkspace ==> res.workspaceCleaned == 0
      ensures !cleanCache ==> res.cacheCleaned == 0
    {
      var folded;
      folded, zones, runs := FoldDirectories(disk, listing, createBackups, lockFiles, cleanWorkspace, cleanCache);
      SettledStored(folded, |listing|, runs, |listing|);
      res := folded.(success := folded.processed > 0);
      assert res.variants == folded.variants && res.oldIds == folded.oldIds && res.newIds == folded.newIds;
    }

    /** Every directory of `listing` processed in turn and folded into the report, whose
        overall success is still open. */
    method FoldDirectories(disk: Disk, listing: seq<Path>, createBackups: bool, lockFiles: bool,
                           cleanWorkspace: bool, cleanCache: bool)
      returns (res: InstallResult, ghost zones: set<Path>, ghost runs: seq<DirectoryRun>)
      requires paths.Valid() && disk.clock.Valid()
      modifies disk, entropy
      ensures |runs| == |listing|
      ensures InstallationsSoFar(old(disk.tree), disk.tree, listing, |listing|, runs, zones, backups.backupDir,
                                 cleanWorkspace, cleanCache)
      ensures Tallied(res, listing, |listing|, runs, cleanWorkspace, cleanCache)
    {
      res := InstallResult(false, true, [], |listing|, 0, 0, [], [], [], map[], map[], 0, 0, []);
      zones, runs := {}, [];
      var i := 0;
      assert Tallied(res, listing, 0, runs, cleanWorkspace, cleanCache);
      while i < |listing|
        invariant 0 <= i <= |listing| && |runs| == i
        invariant InstallationsSoFar(old(disk.tree), disk.tree, listing, i, runs, zones, backups.backupDir, cleanWorkspace, cleanCache)
        invariant Tallied(res, listing, i, runs, cleanWorkspace, cleanCache)
      {
        res, runs, zones := VisitInstallation(disk, listing, i, createBackups, lockFiles, cleanWorkspace, cleanCache,
                                              res, old(disk.tree), runs, zones);
        i := i + 1;
      }
    }

    /** The report of the loop of `process_vscode_installations` after the first `n`
        directories of `listing`, whose runs are `runs`: every directory counted once as
        processed or failed, each variant met listed once, and the totals those runs give. */
    ghost predicate Tallied(r: InstallResult, listing: seq<Path>, n: nat, runs: seq<DirectoryRun>,
                            cleanWorkspace: bool, cleanCache: bool)
      reads paths
    {
      paths.Valid() && n <= |listing| && n == |runs| &&
      r.found && !r.success && r.total == |listing| && r.processed + r.failed == n &&
      (forall a, b :: 0 <= a < b < |r.variants| ==> r.variants[a] != r.variants[b]) &&
      (forall v :: v in r.variants <==> exists k :: 0 <= k < n && v == paths.GetVscodeVariantName(listing[k])) &&
      IdsPaired(r.oldIds, r.newIds) &&
      (!cleanWorkspace ==> r.workspaceCleaned == 0) && (!cleanCache ==> r.cacheCleaned == 0) &&
      r.workspaceCleaned == WorkspaceTotal(runs, n) && r.cacheCleaned == CacheTotal(runs, n) &&
      Blanked(r) == StoredTotal(|listing|, runs, n)
    }

    /** Folding in the `i`-th directory of `listing` keeps the report of the loop of
        `process_vscode_installations` true of the first `i + 1` directories. */
    lemma TallyStep(acc: InstallResult, s: StorageResult, cleaned: nat, caches: nat, listing: seq<Path>, i: nat,
                    cleanWorkspace: bool, cleanCache: bool, runs: seq<DirectoryRun>, run: DirectoryRun)
      requires Tallied(acc, listing, i, runs, cleanWorkspace, cleanCache) && i < |listing|
      requires cleaned == run.cleaned && caches == run.caches && s == run.storage && IdsPaired(s.oldIds, s.newIds)
      requires (!cleanWorkspace ==> cleaned == 0) && (!cleanCache ==> caches == 0)
      ensures Tallied(Tally(acc, paths.GetVscodeVariantName(listing[i]), s, cleaned, caches), listing, i + 1, runs + [run],
                      cleanWorkspace, cleanCache)
    {
      TotalsExtend(runs, run, i);
      var variant := paths.GetVscodeVariantName(listing[i]);
      TallyKeeps(acc, variant, s, cleaned, caches);
      var res := Tally(acc, variant, s, cleaned, caches);
      VariantsStep(acc.variants, res.variants, listing, i);
      BlankedTally(acc, variant, s, cleaned, caches);
      assert Blanked(res) == StoreOutcome(StoredTotal(|listing|, runs, i), s);
      assert Blanked(res) == StoredTotal(|listing|, runs + [run], i + 1);
    }

    /** The variants met in the first `i + 1` directories are those of the first `i` and
        the `i`-th directory's own. */
    lemma VariantsStep(before: seq<string>, after: seq<string>, listing: seq<Path>, i: nat)
      requires paths.Valid() && i < |listing|
      requires forall v :: v in before <==> exists k :: 0 <= k < i && v == paths.GetVscodeVariantName(listing[k])
      requires forall v :: v in after <==> v in before || v == paths.GetVscodeVariantName(listing[i])
      ensures forall v :: v in after <==> exists k :: 0 <= k < i + 1 && v == paths.GetVscodeVariantName(listing[k])
    {
      forall v ensures v in after <==> exists k :: 0 <= k < i + 1 && v == paths.GetVscodeVariantName(listing[k]) {
        if exists k :: 0 <= k < i + 1 && v == paths.GetVscodeVariantName(listing[k]) {
          var k :| 0 <= k < i + 1 && v == paths.GetVscodeVariantName(listing[k]);
          assert k < i || v == paths.GetVscodeVariantName(listing[i]);
        }
      }
    }

    /** One turn of the loop of `process_vscode_installations`: the `i`-th directory of
        `listing` processed, its run and zones added to those before it. */
    method VisitInstallation(disk: Disk, listing: seq<Path>, i: nat, createBackups: bool, lockFiles: bool,
                             cleanWorkspace: bool, cleanCache: bool, acc: InstallResult,
                             ghost t0: Tree, ghost runs: seq<DirectoryRun>, ghost zones: set<Path>)
      returns (res: InstallResult, ghost runs': seq<DirectoryRun>, ghost zones': set<Path>)
      requires paths.Valid() && disk.clock.Valid() && i < |listing| && i == |runs|
      requires InstallationsSoFar(t0, disk.tree, listing, i, runs, zones, backups.backupDir, cleanWorkspace, cleanCache)
      requires Tallied(acc, listing, i, runs, cleanWorkspace, cleanCache)
      modifies disk, entropy
      ensures |runs'| == i + 1
      ensures InstallationsSoFar(t0, disk.tree, listing, i + 1, runs', zones', backups.backupDir, cleanWorkspace, cleanCache)
      ensures Tallied(res, listing, i + 1, runs', cleanWorkspace, cleanCache)
    {
      var variant := paths.GetVscodeVariantName(listing[i]);
      var s, cleaned, caches;
      ghost var here, run;
      s, cleaned, caches, here, run := ProcessDirectory(disk, listing[i], createBackups, lockFiles, cleanWorkspace, cleanCache);
      InstallationsStep(t0, old(disk.tree), disk.tree, listing, i, runs, zones, backups.backupDir, cleanWorkspace, cleanCache, run, here);
      runs', zones' := runs + [run], zones + here;
      TallyStep(acc, s, cleaned, caches, listing, i, cleanWorkspace, cleanCache, runs, run);
      res := Tally(acc, variant, s, cleaned, caches);
    }
  }
}
