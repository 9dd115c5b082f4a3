/** Write protection of the files the engine rewrites: `lock_file` clears the write bits of a
    file's mode, `unlock_file` sets the owner-write bit again, `is_file_locked` reads that bit,
    and `lock_multiple_files` locks a list of files. */
module FileLocker {
  import opened Fs

  /** The owner, group and other write bits (S_IWUSR | S_IWGRP | S_IWOTH). */
  const WriteBits: Mode := S_IWUSR | S_IWGRP | S_IWOTH

  /** The mode `lock_file` asks for: the current mode without its write bits. */
  function LockedMode(m: Mode): (r: Mode)
    ensures r & WriteBits == 0
    ensures r | (m & WriteBits) == m
    ensures !Writable(r)
  {
    m & !S_IWUSR & !S_IWGRP & !S_IWOTH
  }

  /** The mode `unlock_file` asks for: the current mode with the owner-write bit. */
  function UnlockedMode(m: Mode): (r: Mode)
    ensures Writable(r)
    ensures r & !S_IWUSR == m & !S_IWUSR
  {
    m | S_IWUSR
  }

  /** `chmod` keeps the file-type bits, so asking for either mode sets exactly that mode. */
  lemma ChmodModes(m: Mode)
    ensures SetPermissions(m, LockedMode(m)) == LockedMode(m)
    ensures SetPermissions(m, UnlockedMode(m)) == UnlockedMode(m)
  {
  }

  /** Locking twice leaves the same mode as locking once; unlocking undoes a lock of a file
      that was writable only by its owner. */
  lemma LockIdempotent(m: Mode)
    ensures LockedMode(LockedMode(m)) == LockedMode(m)
    ensures m & (S_IWGRP | S_IWOTH) == 0 ==> UnlockedMode(LockedMode(m)) == UnlockedMode(m)
  {
  }

  /** `is_file_locked(p)`: an existing file whose owner-write bit is clear. */
  predicate IsFileLocked(t: Tree, p: Path): (locked: bool)
    ensures p !in t ==> !locked
    ensures locked ==> !CanWrite(t, p)
  {
    p in t && !Writable(t[p].mode)
  }

  /** `lock_file(p)`: false for a missing file; otherwise the write bits are cleared (when the
      process may change the mode) and the answer is true even if that failed. */
  method LockFile(disk: Disk, p: Path) returns (ok: bool)
    modifies disk
    ensures ok == (p in old(disk.tree))
    ensures disk.tree == if ok && old(disk.tree)[p].owned
      then Chmod(old(disk.tree), p, LockedMode(old(disk.tree)[p].mode)) else old(disk.tree)
  {
    if p !in disk.tree {
      return false;
    }
    var perms := disk.tree[p].mode;
    var _ := disk.ChangeMode(p, LockedMode(perms));
    return true;
  }

  /** `unlock_file(p)`: false for a missing file; otherwise the owner-write bit is set (when
      the process may change the mode) and the answer is true. */
  method UnlockFile(disk: Disk, p: Path) returns (ok: bool)
    modifies disk
    ensures ok == (p in old(disk.tree))
    ensures disk.tree == if ok && old(disk.tree)[p].owned
      then Chmod(old(disk.tree), p, UnlockedMode(old(disk.tree)[p].mode)) else old(disk.tree)
  {
    if p !in disk.tree {
      return false;
    }
    var perms := disk.tree[p].mode;
    var _ := disk.ChangeMode(p, UnlockedMode(perms));
    return true;
  }

  /** A file the process owns reads as locked after `lock_file` and as unlocked after
      `unlock_file`; every other entry keeps its node. */
  lemma LockThenCheck(t: Tree, p: Path)
    requires p in t && t[p].owned
    ensures IsFileLocked(Chmod(t, p, LockedMode(t[p].mode)), p)
    ensures !IsFileLocked(Chmod(t, p, UnlockedMode(t[p].mode)), p)
  {
    ChmodModes(t[p].mode);
  }

  /** The tree after locking every path of `ps` once (the order does not matter). */
  function LockedTree(t: Tree, ps: set<Path>): (r: Tree)
    ensures r.Keys == t.Keys
  {
    map q | q in t :: if q in ps && t[q].owned then t[q].(mode := LockedMode(t[q].mode)) else t[q]
  }

  /** Locking a node, whether or not it was locked already, leaves it locked once. */
  lemma LockNodeAgain(n: Node, locked: bool)
    ensures var u := if locked then n.(mode := LockedMode(n.mode)) else n;
      u.(mode := SetPermissions(u.mode, LockedMode(u.mode))) == n.(mode := LockedMode(n.mode))
  {
    var u := if locked then n.(mode := LockedMode(n.mode)) else n;
    ChmodModes(u.mode);
    if locked {
      LockIdempotent(n.mode);
    }
  }

  /** Locking one more path of a tree whose paths `ps` are locked. */
  lemma LockedTreeStep(t: Tree, ps: set<Path>, p: Path)
    ensures var u := LockedTree(t, ps);
      (p in u && u[p].owned ==> Chmod(u, p, LockedMode(u[p].mode)) == LockedTree(t, ps + {p})) &&
      (!(p in u && u[p].owned) ==> u == LockedTree(t, ps + {p}))
  {
    var u := LockedTree(t, ps);
    var v := LockedTree(t, ps + {p});
    if p in u && u[p].owned {
      var c := Chmod(u, p, LockedMode(u[p].mode));
      assert c[p] == v[p] by {
        LockNodeAgain(t[p], p in ps);
      }
      forall q | q in c && q != p ensures c[q] == v[q] {
        assert c[q] == u[q];
      }
      assert c == v;
    } else {
      forall q | q in u ensures u[q] == v[q] {
      }
      assert u == v;
    }
  }

  /** `lock_multiple_files(paths)`: every listed path is locked in turn and reported with its
      own `lock_file` answer. */
  method LockMultipleFiles(disk: Disk, paths: seq<Path>) returns (results: map<Path, bool>)
    modifies disk
    ensures results.Keys == set p | p in paths
    ensures forall p :: p in results ==> results[p] == (p in old(disk.tree))
    ensures disk.tree == LockedTree(old(disk.tree), set p | p in paths)
  {
    results := map[];
    ghost var t0 := disk.tree;
    assert disk.tree == LockedTree(t0, {});
    var i := 0;
    while i < |paths|
      invariant 0 <= i <= |paths|
      invariant results.Keys == set p | p in paths[..i]
      invariant forall p :: p in results ==> results[p] == (p in t0)
      invariant disk.tree == LockedTree(t0, set p | p in paths[..i])
    {
      assert paths[..i + 1] == paths[..i] + [paths[i]];
      ghost var done := set p | p in paths[..i];
      ghost var longer := paths[..i + 1];
      ghost var next := set p | p in longer;
      assert next == done + {paths[i]};
      LockedTreeStep(t0, done, paths[i]);
      var ok := LockFile(disk, paths[i]);
      results := results[paths[i] := ok];
      i := i + 1;
    }
    assert paths[..i] == paths;
  }
}
