/** The filesystem the engine discovers and mutates: a map from absolute paths to nodes, the
    pathlib string functions (`name`, `parent`, `stem`, `suffix`, `with_suffix`), the glob
    matcher, and the primitive effects (`write`, `chmod`, `shutil.copy2`, `unlink`,
    `shutil.rmtree`, `mkdir(parents=True, exist_ok=True)`) with the conditions under which the
    operating system refuses them. */
module Fs {
  import opened Common
  import Sqlite

  /** An absolute path as its components below the root. */
  type Path = seq<string>

  /** `st_mode`: file-type bits (S_IFMT) over permission bits. */
  type Mode = bv16

  const S_IFMT: Mode := 0xF000
  const PermissionBits: Mode := 0x0FFF
  const S_IRUSR: Mode := 0x100  // 0o400, also stat.S_IREAD
  const S_IWUSR: Mode := 0x080  // 0o200, also stat.S_IWRITE
  const S_IWGRP: Mode := 0x010  // 0o020
  const S_IWOTH: Mode := 0x002  // 0o002
  /** What a newly created regular file gets (0o100644). */
  const NewFileMode: Mode := 0x81A4
  /** What a newly created directory gets (0o40755). */
  const NewDirMode: Mode := 0x41ED

  /** What a file holds, at the level of detail the engine reads it. */
  datatype Content =
    | Text(text: string)
    | Bytes(bytes: seq<byte>)
    | Json(fields: map<string, string>)
    /** A JSON document that is not an object: an array (its string elements), a string, or
        any other value (a number, `true`, `false` or `null`). */
    | JsonList(items: seq<string>)
    | JsonString(s: string)
    | JsonScalar
    | Db(db: Sqlite.Database)
    | Archive(members: seq<Member>)
    | FailureLog(files: seq<string>)

  /** A zip archive member: its name relative to the archived directory, and the file's content. */
  datatype Member = Member(name: string, content: Content)

  datatype Entry = File(content: Content) | Dir

  /** A filesystem object. `readable` says whether this process may open or list it, and
      `owned` whether it may change its mode (the process owns it). */
  datatype Node = Node(entry: Entry, mode: Mode, mtime: int, readable: bool, owned: bool)

  type Tree = map<Path, Node>

  // ----- path strings -----

  function Name(p: Path): string {
    if p == [] then "" else p[|p| - 1]
  }

  function Parent(p: Path): Path {
    if p == [] then [] else p[..|p| - 1]
  }

  function JoinComponents(p: Path): string {
    if p == [] then "" else if |p| == 1 then p[0] else p[0] + "/" + JoinComponents(p[1..])
  }

  /** `str(path)`. */
  function PathStr(p: Path): string {
    "/" + JoinComponents(p)
  }

  /** `path.relative_to(base)` succeeds. */
  predicate IsUnder(p: Path, base: Path) {
    StartsWith(p, base)
  }

  /** The index of the dot that starts `Path.suffix`, as pathlib finds it with `rfind('.')`:
      neither the first nor the last character of the name. */
  function SuffixDot(name: string): (r: Option<nat>)
    ensures r.Some? ==> 0 < r.value < |name| - 1 && name[r.value] == '.'
    ensures r.Some? ==> forall k :: r.value < k < |name| ==> name[k] != '.'
  {
    var i := LastDot(name, |name|);
    if i.Some? && 0 < i.value < |name| - 1 then i else None
  }

  function LastDot(name: string, upto: nat): (r: Option<nat>)
    requires upto <= |name|
    ensures r.Some? ==> r.value < upto && name[r.value] == '.'
    ensures r.Some? ==> forall k :: r.value < k < upto ==> name[k] != '.'
    ensures r.None? ==> forall k :: 0 <= k < upto ==> name[k] != '.'
  {
    if upto == 0 then None
    else if name[upto - 1] == '.' then Some(upto - 1)
    else LastDot(name, upto - 1)
  }

  /** `Path.suffix`. */
  function Suffix(name: string): string {
    match SuffixDot(name)
    case None => ""
    case Some(i) => name[i..]
  }

  /** `Path.stem`. */
  function Stem(name: string): string {
    match SuffixDot(name)
    case None => name
    case Some(i) => name[..i]
  }

  lemma StemSuffix(name: string)
    ensures Stem(name) + Suffix(name) == name
  {
  }

  /** The name `Path.with_suffix(s)` gives. */
  function WithSuffix(name: string, s: string): (r: string)
    ensures StartsWith(r, Stem(name)) && EndsWith(r, s)
    ensures s == Suffix(name) ==> r == name
  {
    StemSuffix(name);
    Stem(name) + s
  }

  /** `fnmatch` with `*` (any run) and `?` (any one character); every other character,
      `[` included, is literal and compared exactly. */
  predicate FnMatch(name: string, pat: string): (m: bool)
    ensures m && '*' !in pat ==> |name| == |pat|
    decreases |pat|, |name|
  {
    if pat == [] then name == []
    else if pat[0] == '*' then FnMatch(name, pat[1..]) || (name != [] && FnMatch(name[1..], pat))
    else name != [] && (pat[0] == '?' || pat[0] == name[0]) && FnMatch(name[1..], pat[1..])
  }

  /** No `*`, `?` or `[`: the text is literal to `fnmatch`, which reads `[` as the start of a
      character class. */
  predicate NoGlobChars(x: string) {
    forall i :: 0 <= i < |x| ==> x[i] != '*' && x[i] != '?' && x[i] != '['
  }

  /** `*x` matches exactly the names that end with `x`. */
  lemma {:induction false} FnMatchSuffix(name: string, x: string)
    requires NoGlobChars(x)
    ensures FnMatch(name, "*" + x) <==> EndsWith(name, x)
    decreases |name|
  {
    assert ("*" + x)[1..] == x;
    FnMatchLiteral(name, x);
    if name != [] {
      FnMatchSuffix(name[1..], x);
      if EndsWith(name, x) && name != x {
        assert name[1..][|name[1..]| - |x|..] == name[|name| - |x|..];
      }
      if EndsWith(name[1..], x) {
        assert name[1..][|name[1..]| - |x|..] == name[|name| - |x|..];
      }
    }
  }

  /** A pattern with no wildcard matches only itself. */
  lemma {:induction false} FnMatchLiteral(name: string, x: string)
    requires NoGlobChars(x)
    ensures FnMatch(name, x) <==> name == x
    decreases |x|
  {
    if x != [] && name != [] {
      FnMatchLiteral(name[1..], x[1..]);
      assert name == [name[0]] + name[1..];
      assert x == [x[0]] + x[1..];
    }
  }

  // ----- queries -----

  predicate IsFile(t: Tree, p: Path) {
    p in t && t[p].entry.File?
  }

  predicate IsDir(t: Tree, p: Path) {
    p in t && t[p].entry.Dir?
  }

  /** The owner-write bit (S_IWUSR) is set. */
  predicate Writable(m: Mode) {
    m & S_IWUSR != 0
  }

  /** The immediate children of `d`, as `iterdir` lists them. */
  function Children(t: Tree, d: Path): set<Path> {
    set p | p in t && |p| == |d| + 1 && StartsWith(p, d)
  }

  /** `q` lies strictly below `d` and every directory from `d` down to `q`'s parent can be
      listed, so a recursive glob from `d` reaches it (pathlib skips directories it may not
      list). */
  predicate Reachable(t: Tree, d: Path, q: Path) {
    |d| < |q| && StartsWith(q, d) &&
    forall k :: |d| <= k < |q| ==> IsDir(t, q[..k]) && t[q[..k]].readable
  }

  /** The text of a file opened in text mode; files holding JSON documents, databases or
      archives are not read as text by the engine. */
  function ReadText(t: Tree, p: Path): (r: Option<string>)
    ensures r.Some? <==> IsFile(t, p) && t[p].readable && t[p].entry.content.Text?
    ensures r.Some? ==> t[p].entry == File(Text(r.value))
  {
    if IsFile(t, p) && t[p].readable && t[p].entry.content.Text? then Some(t[p].entry.content.text)
    else None
  }

  // ----- effects -----

  /** `open(p, 'w')` succeeds: the parent is a directory, and either the file exists and has
      its owner-write bit, or it is new and the directory has its owner-write bit. */
  predicate CanWrite(t: Tree, p: Path) {
    p != [] && IsDir(t, Parent(p)) &&
    if p in t then t[p].entry.File? && Writable(t[p].mode) else Writable(t[Parent(p)].mode)
  }

  function Write(t: Tree, p: Path, c: Content, now: int): (r: Tree)
    requires CanWrite(t, p)
    ensures IsFile(r, p) && r[p].entry.content == c
    ensures r.Keys == t.Keys + {p}
    ensures forall q :: q in t && q != p ==> r[q] == t[q]
    ensures CanWrite(r, p)
  {
    assert Parent(p) != p;
    if p in t then t[p := t[p].(entry := File(c), mtime := now)]
    else t[p := Node(File(c), NewFileMode, now, true, true)]
  }

  /** `os.chmod(p, perm)`: the permission bits become `perm`, the file-type bits stay. */
  function SetPermissions(m: Mode, perm: Mode): Mode {
    (m & S_IFMT) | (perm & PermissionBits)
  }

  function Chmod(t: Tree, p: Path, perm: Mode): (r: Tree)
    requires p in t
    ensures r.Keys == t.Keys && r[p].mode == SetPermissions(t[p].mode, perm)
    ensures r[p].entry == t[p].entry
    ensures forall q :: q in t && q != p ==> r[q] == t[q]
  {
    t[p := t[p].(mode := SetPermissions(t[p].mode, perm))]
  }

  /** `shutil.copy2(src, dst)` succeeds: the source is a readable file and the target can be
      opened for writing. */
  predicate CanCopy(t: Tree, src: Path, dst: Path) {
    IsFile(t, src) && t[src].readable && CanWrite(t, dst)
  }

  /** `shutil.copy2`: content, permission bits and modification time follow the source. */
  function Copy2(t: Tree, src: Path, dst: Path): (r: Tree)
    requires CanCopy(t, src, dst)
    ensures r.Keys == t.Keys + {dst}
    ensures r[dst].entry == t[src].entry && r[dst].mode == t[src].mode && r[dst].mtime == t[src].mtime
    ensures forall q :: q in t && q != dst ==> r[q] == t[q]
  {
    t[dst := Node(t[src].entry, t[src].mode, t[src].mtime, true, if dst in t then t[dst].owned else true)]
  }

  /** A copy never changes its source, not even a copy onto itself. */
  lemma CopyKeepsSource(t: Tree, src: Path, dst: Path)
    requires CanCopy(t, src, dst)
    ensures Copy2(t, src, dst)[src] == t[src]
  {
  }

  /** `q` is an entry directly inside the directory `d`. */
  predicate InDir(d: Path, q: Path) {
    |q| == |d| + 1 && StartsWith(q, d)
  }

  lemma InDirChild(d: Path, n: string)
    ensures InDir(d, d + [n])
  {
    assert (d + [n])[..|d|] == d;
  }

  /** `q` is one of the `zones` or lies beneath one. */
  ghost predicate Within(zones: set<Path>, q: Path) {
    exists z :: z in zones && StartsWith(q, z)
  }

  /** An entry directly inside the backup directory `b` whose name holds the `_` that every
      name the backup manager writes carries (`<prefix>_<timestamp><ext>` and its
      `.failed.json` log). */
  predicate BackupSlot(b: Path, q: Path) {
    InDir(b, q) && '_' in Name(q)
  }

  /** From `t0` to `t1` an entry changed or vanished only within the `zones` or in a backup
      slot of the directory `b`, entries appeared only there too, no directory appeared, and
      every directory outside the zones kept its node. */
  ghost predicate Confined(t0: Tree, t1: Tree, zones: set<Path>, b: Path) {
    (forall q :: q in t0 && !Within(zones, q) && !BackupSlot(b, q) ==> q in t1 && t1[q] == t0[q]) &&
    (forall q :: q in t1 && q !in t0 ==> Within(zones, q) || BackupSlot(b, q)) &&
    (forall q :: IsDir(t1, q) ==> IsDir(t0, q)) &&
    (forall q :: IsDir(t0, q) && !Within(zones, q) ==> q in t1 && t1[q] == t0[q])
  }

  /** Two confined steps make one, confined to both steps' zones. */
  lemma ConfinedTrans(t0: Tree, t1: Tree, t2: Tree, z1: set<Path>, z2: set<Path>, b: Path)
    requires Confined(t0, t1, z1, b) && Confined(t1, t2, z2, b)
    ensures Confined(t0, t2, z1 + z2, b)
  {
    forall q | q in t0 && !Within(z1 + z2, q) && !BackupSlot(b, q) ensures q in t2 && t2[q] == t0[q] {
      assert !Within(z1, q) && !Within(z2, q);
    }
    forall q | IsDir(t0, q) && !Within(z1 + z2, q) ensures q in t2 && t2[q] == t0[q] {
      assert !Within(z1, q) && !Within(z2, q);
    }
  }

  /** Zones may always be widened. */
  lemma ConfinedWiden(t0: Tree, t1: Tree, z1: set<Path>, z2: set<Path>, b: Path)
    requires Confined(t0, t1, z1, b) && z1 <= z2
    ensures Confined(t0, t1, z2, b)
  {
    forall q | !Within(z2, q) ensures !Within(z1, q) { }
  }

  /** A write into a backup slot is confined to nothing else. */
  lemma WriteSlotConfined(t: Tree, b: Path, q: Path, c: Content, now: int)
    requires CanWrite(t, q) && BackupSlot(b, q)
    ensures Confined(t, Write(t, q, c, now), {}, b)
  {
  }

  /** A confined run followed by a write into a backup slot is still confined. */
  lemma SlotWriteExtends(t0: Tree, t1: Tree, b: Path, q: Path, c: Content, now: int)
    requires Confined(t0, t1, {}, b) && CanWrite(t1, q) && BackupSlot(b, q)
    ensures Confined(t0, Write(t1, q, c, now), {}, b)
  {
    WriteSlotConfined(t1, b, q, c, now);
    ConfinedTrans(t0, t1, Write(t1, q, c, now), {}, {}, b);
  }

  lemma CopyConfined(t: Tree, src: Path, b: Path, n: string)
    requires CanCopy(t, src, b + [n]) && '_' in n
    ensures Confined(t, Copy2(t, src, b + [n]), {}, b)
  {
    InDirChild(b, n);
  }

  /** A step that rewrites or re-permissions `p` in place, leaving it a file whenever its
      entry changed, is confined to `p`. */
  lemma InPlaceConfined(t0: Tree, t1: Tree, p: Path, b: Path)
    requires t1.Keys == t0.Keys
    requires forall q :: q in t0 && q != p ==> t1[q] == t0[q]
    requires p in t0 ==> t1[p].entry == t0[p].entry || IsFile(t1, p)
    ensures Confined(t0, t1, {p}, b)
  {
    assert StartsWith(p, p);
  }

  /** Writing a file, new or existing, is confined to that file. */
  lemma WriteFileConfined(t: Tree, p: Path, c: Content, now: int, b: Path)
    requires CanWrite(t, p)
    ensures Confined(t, Write(t, p, c, now), {p}, b)
  {
    assert StartsWith(p, p);
  }

  /** Unlinking a file is confined to that file, removing a tree to its root. */
  lemma UnlinkConfined(t: Tree, p: Path, b: Path)
    requires p in t
    ensures Confined(t, t - {p}, {p}, b)
  {
    assert StartsWith(p, p);
  }

  lemma RmtreeConfined(t: Tree, d: Path, b: Path)
    ensures Confined(t, Rmtree(t, d), {d}, b)
  {
    forall q | q in t && !Within({d}, q) ensures q in Rmtree(t, d) { }
  }

  /** Neither path lies at or below the other. */
  predicate Apart(p: Path, q: Path) {
    !StartsWith(p, q) && !StartsWith(q, p)
  }

  /** A path below two others puts one of them below the other. */
  lemma PrefixesNested(q: Path, a: Path, b: Path)
    requires StartsWith(q, a) && StartsWith(q, b)
    ensures StartsWith(a, b) || StartsWith(b, a)
  {
    if |a| <= |b| {
      assert b[..|a|] == q[..|b|][..|a|];
    } else {
      assert a[..|b|] == q[..|a|][..|b|];
    }
  }

  /** Outside the zones and the backup slots an entry is where it was, with the same node. */
  lemma ConfinedKeeps(t0: Tree, t1: Tree, zones: set<Path>, b: Path, q: Path)
    requires Confined(t0, t1, zones, b) && !Within(zones, q) && !BackupSlot(b, q)
    ensures (q in t1 <==> q in t0) && (q in t0 ==> t1[q] == t0[q])
  {
  }

  /** A confined step whose zones lie apart from `d` and above neither `d` nor its parent
      leaves whether `rmtree(d)` succeeds unchanged. */
  lemma CanRmtreeKept(t0: Tree, t1: Tree, zones: set<Path>, b: Path, d: Path)
    requires Confined(t0, t1, zones, b)
    requires forall z :: z in zones ==> Apart(z, d) && !StartsWith(Parent(d), z)
    ensures CanRmtree(t1, d) <==> CanRmtree(t0, d)
  {
    forall q | StartsWith(q, d) ensures !Within(zones, q) {
      forall z | z in zones ensures !StartsWith(q, z) {
        if StartsWith(q, z) {
          PrefixesNested(q, d, z);
        }
      }
    }
    assert StartsWith(d, d);
    assert !Within(zones, Parent(d));
    if CanRmtree(t0, d) {
      forall q | q in t1 && StartsWith(q, d) && t1[q].entry.Dir? ensures t1[q].readable && Writable(t1[q].mode) {
        assert IsDir(t1, q);
      }
    }
    if CanRmtree(t1, d) {
      assert IsDir(t1, d) && IsDir(t1, Parent(d));
      forall q | q in t0 && StartsWith(q, d) && t0[q].entry.Dir? ensures t0[q].readable && Writable(t0[q].mode) {
        assert IsDir(t0, q);
      }
    }
  }

  /** The same for `unlink(p)`, when `p` is no backup slot. */
  lemma CanUnlinkKept(t0: Tree, t1: Tree, zones: set<Path>, b: Path, p: Path)
    requires Confined(t0, t1, zones, b) && !Within(zones, p) && !BackupSlot(b, p) && !Within(zones, Parent(p))
    ensures CanUnlink(t1, p) <==> CanUnlink(t0, p)
  {
  }

  /** The same for opening `p` for writing. */
  lemma CanWriteKept(t0: Tree, t1: Tree, zones: set<Path>, b: Path, p: Path)
    requires Confined(t0, t1, zones, b) && !Within(zones, p) && !BackupSlot(b, p) && !Within(zones, Parent(p))
    ensures CanWrite(t1, p) <==> CanWrite(t0, p)
  {
  }

  /** Zones that are all entries of `parent` lie apart from any other entry of it, and above
      neither that entry nor `parent`. */
  lemma SiblingsApart(parent: Path, zones: set<Path>, q: Path)
    requires InDir(parent, q) && q !in zones
    requires forall z :: z in zones ==> InDir(parent, z)
    ensures !Within(zones, q) && !Within(zones, parent)
    ensures forall z :: z in zones ==> Apart(z, q) && !StartsWith(parent, z)
  {
    forall z | z in zones ensures Apart(z, q) && !StartsWith(parent, z) && !StartsWith(q, z) {
      assert |z| == |q| && q[..|q|] == q && z[..|z|] == z;
    }
  }

  /** `Path.unlink()` succeeds: a file whose directory has its owner-write bit. */
  predicate CanUnlink(t: Tree, p: Path) {
    IsFile(t, p) && p != [] && IsDir(t, Parent(p)) && Writable(t[Parent(p)].mode)
  }

  /** `shutil.rmtree(d)` succeeds: every directory of the subtree can be listed and emptied,
      and so can the directory holding `d`. */
  predicate CanRmtree(t: Tree, d: Path) {
    IsDir(t, d) && d != [] && IsDir(t, Parent(d)) && Writable(t[Parent(d)].mode) &&
    forall q :: q in t && StartsWith(q, d) && t[q].entry.Dir? ==> t[q].readable && Writable(t[q].mode)
  }

  function Rmtree(t: Tree, d: Path): (r: Tree)
    ensures forall q :: q in r <==> q in t && !StartsWith(q, d)
    ensures forall q :: q in r ==> r[q] == t[q]
  {
    map q | q in t && !StartsWith(q, d) :: t[q]
  }

  /** `d.mkdir(parents=True, exist_ok=True)`: every missing ancestor is created, an existing
      non-directory on the way is an error, and creating needs a writable parent. */
  function Mkdirs(t: Tree, d: Path, now: int): (r: Option<Tree>)
    ensures r.Some? ==> IsDir(r.value, d)
    ensures r.Some? ==> forall q :: q in t ==> q in r.value && r.value[q] == t[q]
    ensures r.Some? ==> forall q :: q in r.value && q !in t ==> StartsWith(d, q) && IsDir(r.value, q)
    ensures IsDir(t, d) ==> r == Some(t)
    decreases |d|
  {
    if d in t then (if t[d].entry.Dir? then Some(t) else None)
    else if d == [] then None
    else
      match Mkdirs(t, Parent(d), now)
      case None => None
      case Some(t1) =>
        if Writable(t1[Parent(d)].mode) then
          assert forall q :: q in t1 && q !in t ==> StartsWith(d, q) by {
            forall q | q in t1 && q !in t ensures StartsWith(d, q) {
              assert StartsWith(Parent(d), q);
              assert d[..|q|] == Parent(d)[..|q|];
            }
          }
          Some(t1[d := Node(Dir, NewDirMode, now, true, true)])
        else None
  }

  /** The mutable filesystem, with the process's clocks and working directory. */
  class Disk {
    var tree: Tree
    /** `time.time()` during the run: the modification time of everything written. */
    const now: int
    /** The local time `time.strftime` renders during the run. */
    const clock: DateTime
    /** The working directory a relative path (`Path("")`) resolves against. */
    const cwd: Path

    constructor(tree: Tree, now: int, clock: DateTime, cwd: Path)
      ensures this.tree == tree && this.now == now && this.clock == clock && this.cwd == cwd
    {
      this.tree := tree;
      this.now := now;
      this.clock := clock;
      this.cwd := cwd;
    }

    method WriteFile(p: Path, c: Content) returns (ok: bool)
      modifies this
      ensures ok == CanWrite(old(tree), p)
      ensures tree == if ok then Write(old(tree), p, c, now) else old(tree)
    {
      ok := CanWrite(tree, p);
      if ok {
        tree := Write(tree, p, c, now);
      }
    }

    /** `os.chmod`: refused (PermissionError) when the process does not own the file, and
        FileNotFoundError when it is missing. */
    method ChangeMode(p: Path, perm: Mode) returns (ok: bool)
      modifies this
      ensures ok == (p in old(tree) && old(tree)[p].owned)
      ensures tree == if ok then Chmod(old(tree), p, perm) else old(tree)
    {
      ok := p in tree && tree[p].owned;
      if ok {
        tree := Chmod(tree, p, perm);
      }
    }

    method CopyFile(src: Path, dst: Path) returns (ok: bool)
      modifies this
      ensures ok == CanCopy(old(tree), src, dst)
      ensures tree == if ok then Copy2(old(tree), src, dst) else old(tree)
    {
      ok := CanCopy(tree, src, dst);
      if ok {
        tree := Copy2(tree, src, dst);
      }
    }

    method Remove(p: Path) returns (ok: bool)
      modifies this
      ensures ok == CanUnlink(old(tree), p)
      ensures tree == if ok then old(tree) - {p} else old(tree)
    {
      ok := CanUnlink(tree, p);
      if ok {
        tree := tree - {p};
      }
    }

    method RemoveTree(d: Path) returns (ok: bool)
      modifies this
      ensures ok == CanRmtree(old(tree), d)
      ensures tree == if ok then Rmtree(old(tree), d) else old(tree)
    {
      ok := CanRmtree(tree, d);
      if ok {
        tree := Rmtree(tree, d);
      }
    }

    method MakeDirs(d: Path) returns (ok: bool)
      modifies this
      ensures ok == Mkdirs(old(tree), d, now).Some?
      ensures tree == if ok then Mkdirs(old(tree), d, now).value else old(tree)
    {
      var r := Mkdirs(tree, d, now);
      ok := r.Some?;
      if ok {
        tree := r.value;
      }
    }
  }
}
