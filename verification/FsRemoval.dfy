/** What removing a node, moving about and reusing a slot come to, for every name and every outcome. */
module FsRemoval {
  import opened Errno
  import opened FsModel
  import opened FsInvariant
  import opened FsTree

  /** Node i, and nothing else, has stopped being live. */
  ghost predicate OnlyRemoved(s: Fs, r: Fs, i: int) {
    && |r.nodes| == |s.nodes| && r.fds == s.fds && r.cwd == s.cwd
    && (forall j :: 0 <= j < |s.nodes| ==> r.nodes[j] == if j == i then s.nodes[j].(inUse := false) else s.nodes[j])
  }

  /** The node i that the name stands for may be removed: a file, or a directory without children. */
  ghost predicate Removable(s: Fs, i: int, name: string) {
    Named(s, i, name) && (s.nodes[i].kind.Dir? ==> !HasChild(s, i))
  }

  /** fs_delete removes exactly the named node, and refuses exactly a missing name and a non-empty directory. */
  lemma DeleteOutcome(s: Fs, name: string)
    requires Inv(s)
    ensures var r := Delete(s, name);
            && (r.rc == 0 <==> exists i :: Removable(s, i, name))
            && (r.rc == -ENOENT <==> forall i :: !Named(s, i, name))
            && (r.rc == -ENOTEMPTY <==> exists i :: Named(s, i, name) && s.nodes[i].kind.Dir? && HasChild(s, i))
            && (r.rc != 0 ==> r.fs == s)
            && (r.rc == 0 ==> OnlyRemoved(s, r.fs, FindNode(s, name)) && FindNode(r.fs, name) == -1)
  {
    var idx := FindNode(s, name);
    Lookups(s, name);
    if Delete(s, name).rc == 0 {
      assert Removable(s, idx, name);
      GoneAfter(s, idx, name);
    }
  }

  /** Only FindNode(s, name) carries the name here. */
  lemma Lookups(s: Fs, name: string)
    requires Inv(s)
    ensures forall i :: Named(s, i, name) <==> i >= 0 && i == FindNode(s, name)
  {
    forall i ensures Named(s, i, name) <==> i >= 0 && i == FindNode(s, name) { LookupIsUnique(s, i, name); }
  }

  lemma GoneAfter(s: Fs, idx: int, name: string)
    requires Inv(s) && Named(s, idx, name) && idx >= 1
    ensures FindNode(Discard(s, idx), name) == -1
  {
    var t := Discard(s, idx);
    Lookups(s, name);
    assert idx == FindNode(s, name);
    assert forall j :: Named(t, j, name) <==> j != idx && Named(s, j, name);
  }

  /** fs_delete is fs_unlink on files and fs_rmdir on directories; each of the two refuses what the other takes. */
  lemma DeleteIsUnlinkOrRmdir(s: Fs, name: string)
    requires Inv(s)
    ensures var idx := FindNode(s, name);
            && (idx < 0 ==> Delete(s, name) == Unlink(s, name) == Rmdir(s, name))
            && (idx >= 0 && s.nodes[idx].kind.File? ==> Delete(s, name) == Unlink(s, name) && Rmdir(s, name) == Ret(s, -ENOTDIR))
            && (idx >= 0 && !s.nodes[idx].kind.File? ==> Delete(s, name) == Rmdir(s, name) && Unlink(s, name) == Ret(s, -EISDIR))
  {
    var idx := FindNode(s, name);
    if idx >= 0 {
      var depth :| TreeOk(s, depth);
      assert Live(s, idx) && Placed(s, depth, idx);
    }
  }

  /** Deleting what was just created restores every lookup, every live node and every descriptor. */
  lemma CreateThenDelete(s: Fs, name: string, kind: Kind, now: nat)
    requires Inv(s) && '\0' !in name && kind != Untyped && Create(s, name, kind, now).rc == 0
    ensures var r := Delete(Create(s, name, kind, now).fs, name);
            && r.rc == 0 && r.fs.fds == s.fds && r.fs.cwd == s.cwd && |r.fs.nodes| == |s.nodes|
            && (forall i :: Live(r.fs, i) <==> Live(s, i))
            && (forall i :: Live(s, i) ==> r.fs.nodes[i] == s.nodes[i])
  {
    var c := Create(s, name, kind, now).fs;
    CreatedIsFound(s, name, kind, now);
    CreateKeeps(s, name, kind, now);
    var idx := FindNode(c, name);
    NewHasNoChild(s, c, idx);
    DeleteOutcome(c, name);
    assert Removable(c, idx, name);
  }

  lemma NewHasNoChild(s: Fs, c: Fs, idx: int)
    requires Inv(s) && 1 <= idx < FS_MAX_FILES && !Live(s, idx) && |c.nodes| == |s.nodes|
    requires c.nodes == s.nodes[idx := c.nodes[idx]] && c.nodes[idx].parent == s.cwd
    ensures !HasChild(c, idx)
  {
    var depth :| TreeOk(s, depth);
    forall i | 0 <= i < |c.nodes| ensures !ChildOf(c, i, idx) {
      if i != idx && i > 0 && Live(s, i) { assert Placed(s, depth, i); }
    }
  }

  /** fs_cd moves to the parent, the root or a child directory and changes nothing else; otherwise it fails. */
  lemma CdOutcome(s: Fs, name: string)
    requires Inv(s)
    ensures var r := Cd(s, name); var idx := FindNode(s, name);
            && r.fs == s.(cwd := r.fs.cwd)
            && (r.rc == 0 <==> name in {"..", "/"} || exists i :: Named(s, i, name) && s.nodes[i].kind.Dir?)
            && (r.rc == -ENOENT <==> name !in {"..", "/"} && forall i :: !Named(s, i, name))
            && (r.rc != 0 ==> r.fs == s)
            && (name == ".." && s.cwd != 0 ==> ChildOf(s, s.cwd, r.fs.cwd))
            && (name == "/" || (name == ".." && s.cwd == 0) ==> r.fs.cwd == 0)
            && (name !in {"..", "/"} && r.rc == 0 ==> Named(s, r.fs.cwd, name))
  {
    Lookups(s, name);
    var depth :| TreeOk(s, depth);
    assert Live(s, s.cwd);
    if s.cwd != 0 { assert Placed(s, depth, s.cwd); }
  }

  // ---- Descriptors that outlive their file ----

  /** Unlinking a file that is open takes nothing from its descriptors: they read on as before. */
  lemma UnlinkedStillReads(s: Fs, name: string, fd: int, n: nat)
    requires Inv(s)
    ensures var t := Unlink(s, name).fs;
            ReadFd(t, fd, true, n).rc == ReadFd(s, fd, true, n).rc && ReadFd(t, fd, true, n).bytes == ReadFd(s, fd, true, n).bytes
  {
    SameBytes(s, Unlink(s, name).fs, fd, n);
  }

  lemma SameBytes(s: Fs, t: Fs, fd: int, n: nat)
    requires Storage(s) && Storage(t) && t.fds == s.fds
    requires forall i :: 0 <= i < FS_MAX_FILES ==> t.nodes[i].data == s.nodes[i].data && t.nodes[i].size == s.nodes[i].size
    ensures ReadFd(t, fd, true, n).rc == ReadFd(s, fd, true, n).rc && ReadFd(t, fd, true, n).bytes == ReadFd(s, fd, true, n).bytes
  {
    if OpenFd(s, fd) { assert FdOk(s.fds[fd]); }
  }

  /**
   A descriptor whose file has been removed (fs_unlink here; fs_delete does the same to a file) leads
   to whatever node takes the slot next. The next creation, of a file or of a directory, takes it
   exactly when the slot is the lowest free one, and then the descriptor is on that new node.
   */
  lemma DescriptorRedirected(s: Fs, name: string, other: string, kind: Kind, fd: int, now: nat)
    requires Inv(s) && OpenFd(s, fd) && Unlink(s, name).rc == 0 && s.fds[fd].nodeIdx == FindNode(s, name)
    requires '\0' !in other && kind != Untyped && Create(Unlink(s, name).fs, other, kind, now).rc == 0
    ensures Delete(s, name) == Unlink(s, name)
    ensures var r := Create(Unlink(s, name).fs, other, kind, now).fs; var i := r.fds[fd].nodeIdx;
            && OpenFd(r, fd) && i == s.fds[fd].nodeIdx
            && (Live(r, i) <==> forall j :: 1 <= j < FindNode(s, name) ==> Live(s, j))
            && (Live(r, i) ==> Named(r, i, other) && r.nodes[i].kind == kind && r.nodes[i].size == 0)
  {
    var i := FindNode(s, name);
    var t := Discard(s, i);
    DeleteIsUnlinkOrRmdir(s, name);
    assert Unlink(s, name).fs == t && t.fds == s.fds;
    LowestTakes(s, t, i);
    CreatedThere(t, other, kind, now);
    SlotReused(t, Create(t, other, kind, now).fs, i, FreeNode(t));
  }

  /** A node m that a creation adds makes slot i live only if it is slot i. */
  lemma SlotReused(t: Fs, r: Fs, i: int, m: int)
    requires |t.nodes| == FS_MAX_FILES && 1 <= i < FS_MAX_FILES && 1 <= m < FS_MAX_FILES && !Live(t, i)
    requires |r.nodes| == |t.nodes| && r.nodes == t.nodes[m := r.nodes[m]] && Live(r, m)
    ensures Live(r, i) <==> m == i
  {
  }

  /** The slot given up is the next one taken exactly when all below it are live. */
  lemma LowestTakes(s: Fs, t: Fs, i: int)
    requires Storage(s) && Storage(t) && 1 <= i < FS_MAX_FILES && t == Discard(s, i)
    ensures 1 <= FreeNode(t) <= i && !Live(t, i)
    ensures FreeNode(t) == i <==> forall j :: 1 <= j < i ==> Live(s, j)
  {
    assert !Live(t, i);
    assert forall j :: j != i ==> (Live(t, j) <==> Live(s, j));
  }

  lemma CreatedThere(t: Fs, name: string, kind: Kind, now: nat)
    requires Storage(t) && '\0' !in name && Create(t, name, kind, now).rc == 0
    ensures var r := Create(t, name, kind, now).fs; var m := FreeNode(t);
            && r.fds == t.fds && r.cwd == t.cwd && 1 <= m < FS_MAX_FILES
            && r.nodes == t.nodes[m := r.nodes[m]] && Named(r, m, name)
            && r.nodes[m].kind == kind && r.nodes[m].size == 0
  {
    NewNodeOk(t, FreeNode(t), name, kind, now);
  }
}
