/** What the invariant gives a caller: bounded depth, moving about, unique names, creation. */
module FsTree {
  import opened CString
  import opened Errno
  import opened Search
  import opened FsModel
  import opened FsInvariant

  /** i, its parent, and so on up to the root. */
  function Chain(s: Fs, depth: seq<nat>, i: int): (c: seq<int>)
    requires Storage(s) && TreeOk(s, depth) && Live(s, i)
    ensures |c| == depth[i] + 1 && c[0] == i && c[depth[i]] == 0
    ensures forall k :: 0 <= k < |c| ==> Live(s, c[k]) && depth[c[k]] == depth[i] - k
    ensures forall k :: 0 <= k < |c| - 1 ==> ChildOf(s, c[k], c[k + 1])
    decreases depth[i]
  {
    if i == 0 then [0]
    else
      assert Placed(s, depth, i);
      [i] + Chain(s, depth, s.nodes[i].parent)
  }

  /** No parent chain is longer than the number of non-root slots. */
  lemma DepthBound(s: Fs, depth: seq<nat>, i: int)
    requires Storage(s) && TreeOk(s, depth) && Live(s, i)
    ensures depth[i] < FS_MAX_FILES
  {
    var c := Chain(s, depth, i);
    DistinctBelow(c, FS_MAX_FILES);
  }

  function Ups(k: nat): seq<Op> { if k == 0 then [] else [OpCd("..")] + Ups(k - 1) }

  lemma ClimbStep(s: Fs, depth: seq<nat>)
    requires Storage(s) && TreeOk(s, depth)
    ensures var t := Cd(s, "..").fs;
            TreeOk(t, depth) && t == s.(cwd := t.cwd) && depth[t.cwd] == (if s.cwd == 0 then 0 else depth[s.cwd] - 1)
  {
    CdTarget(s, depth, "..");
    if s.cwd > 0 { assert Live(s, s.cwd) && Placed(s, depth, s.cwd); }
    var t := Cd(s, "..").fs;
    forall i | 1 <= i < FS_MAX_FILES && Live(t, i)
      ensures Placed(t, depth, i)
    {
      assert Live(s, i) && Placed(s, depth, i);
    }
  }

  lemma {:induction false} ClimbFrom(s: Fs, depth: seq<nat>, k: nat)
    requires Storage(s) && TreeOk(s, depth) && k >= depth[s.cwd]
    ensures Run(s, Ups(k)) == s.(cwd := 0)
    decreases k
  {
    if k > 0 {
      var t := Exec(s, OpCd("..")).fs;
      assert Ups(k)[0] == OpCd("..") && Ups(k)[1..] == Ups(k - 1);
      if s.cwd > 0 {
        assert Live(s, s.cwd) && Placed(s, depth, s.cwd);
      }
      ClimbStep(s, depth);
      ClimbFrom(t, depth, k - 1);
    }
  }

  /** From anywhere, 63 times `cd ..` is enough to be in the root, and nothing else changes. */
  lemma CdUpReachesRoot(s: Fs, k: nat)
    requires Inv(s) && k >= 63
    ensures Run(s, Ups(k)) == s.(cwd := 0)
  {
    var depth :| TreeOk(s, depth);
    assert Live(s, s.cwd);
    DepthBound(s, depth, s.cwd);
    ClimbFrom(s, depth, k);
  }

  /**
   `cd child` enters a directory that exists under the current one exactly when it is not called
   `..` or `/`; whenever it enters it, `cd ..` comes back.
   */
  lemma CdChildAndBack(s: Fs, name: string)
    requires Inv(s) && FindNode(s, name) >= 0 && s.nodes[FindNode(s, name)].kind.Dir?
    ensures Cd(s, name).fs.cwd == FindNode(s, name) <==> name !in {"..", "/"}
    ensures name !in {"..", "/"} ==> Cd(Cd(s, name).fs, "..").fs == s
  {
    var idx := FindNode(s, name);
    var depth :| TreeOk(s, depth);
    assert Named(s, idx, name) && Placed(s, depth, idx);
    if s.cwd > 0 {
      assert Live(s, s.cwd) && Placed(s, depth, s.cwd);
    }
  }

  /** A name under a directory belongs to one node: the lookup finds it, and never the root. */
  lemma LookupIsUnique(s: Fs, i: int, name: string)
    requires Inv(s)
    ensures Named(s, i, name) <==> i >= 0 && FindNode(s, name) == i
    ensures !Named(s, 0, name)
  {
    if Named(s, i, name) {
      var j := FindNode(s, name);
      assert j != -1;
      assert Named(s, j, name);
    }
  }

  /** The new node is the one the lookup finds; nothing else is touched. */
  lemma CreatedIsFound(s: Fs, name: string, kind: Kind, now: nat)
    requires Inv(s) && '\0' !in name && kind != Untyped
    requires Create(s, name, kind, now).rc == 0
    ensures var t := Create(s, name, kind, now).fs;
            var idx := FindNode(t, name);
            && idx >= 1 && !Live(s, idx)
            && t.nodes[idx].kind == kind && t.nodes[idx].size == 0 && t.nodes[idx].createdTick == now
            && t.nodes == s.nodes[idx := t.nodes[idx]] && t.fds == s.fds && t.cwd == s.cwd
  {
    var idx := NewSlot(s, name);
    var t := Create(s, name, kind, now).fs;
    NewNodeOk(s, idx, name, kind, now);
    CreateKeeps(s, name, kind, now);
    FoundHere(t, idx, name);
  }

  lemma FoundHere(s: Fs, i: int, name: string)
    requires Inv(s) && Named(s, i, name)
    ensures FindNode(s, name) == i
  {
    LookupIsUnique(s, i, name);
  }

  /** When a creation fails, and how, for every name. */
  lemma CreateOutcome(s: Fs, name: string, kind: Kind, now: nat)
    requires Inv(s)
    ensures var r := Create(s, name, kind, now);
            && (r.rc == -EINVAL <==> name == "")
            && (r.rc == -ENAMETOOLONG <==> |name| > 31)
            && (r.rc == -EEXIST <==> 0 < |name| <= 31 && exists i :: Named(s, i, name))
            && (r.rc == -ENOSPC <==> 0 < |name| <= 31 && (forall i :: !Named(s, i, name))
                                     && forall i :: 1 <= i <= 63 ==> Live(s, i))
            && (r.rc < 0 ==> r.fs == s)
            && (r.rc >= 0 ==> r.rc == 0)
  {
    if FindNode(s, name) >= 0 {
      assert Named(s, FindNode(s, name), name);
    } else {
      forall i ensures !Named(s, i, name) { LookupIsUnique(s, i, name); }
    }
    if FreeNode(s) >= 0 { assert !Live(s, FreeNode(s)); }
  }

  /** A descriptor just opened onto node i: at the start, or with O_APPEND at the end. */
  function NewFd(s: Fs, i: int, flags: bv32): Fd
    requires 0 <= i < |s.nodes|
  {
    Fd(i, if flags & 0x400 != 0 then s.nodes[i].size else 0, flags, true)
  }

  /** A successful open hands out the lowest free descriptor, onto a live file of that name. */
  lemma OpenSuccess(s: Fs, name: string, flags: bv32, now: nat)
    requires Inv(s) && '\0' !in name
    ensures var r := Open(s, name, flags, now);
            && r.rc != -EIO
            && (r.rc >= 0 ==>
                  && r.rc < FS_MAX_FDS && !s.fds[r.rc].inUse
                  && (forall d :: 0 <= d < r.rc ==> s.fds[d].inUse)
                  && Named(r.fs, r.fs.fds[r.rc].nodeIdx, name)
                  && r.fs.nodes[r.fs.fds[r.rc].nodeIdx].kind.File?
                  && r.fs.fds[r.rc] == NewFd(r.fs, r.fs.fds[r.rc].nodeIdx, flags))
  {
    var idx := FindNode(s, name);
    if name != "" && idx < 0 && Has(flags, O_CREAT) {
      var c := Create(s, name, File, now);
      if c.rc >= 0 {
        CreatedIsFound(s, name, File, now);
        OpenAtOutcome(c.fs, FindNode(c.fs, name), name, flags);
      }
    } else if idx >= 0 {
      OpenAtOutcome(s, idx, name, flags);
    }
  }

  lemma OpenAtOutcome(s: Fs, idx: int, name: string, flags: bv32)
    requires Storage(s) && 1 <= idx < FS_MAX_FILES && Named(s, idx, name)
    ensures var r := OpenAt(s, idx, flags);
            && r.rc != -EIO
            && (r.rc >= 0 ==>
                  && r.rc < FS_MAX_FDS && !s.fds[r.rc].inUse
                  && (forall d :: 0 <= d < r.rc ==> s.fds[d].inUse)
                  && r.fs.fds[r.rc].nodeIdx == idx && Named(r.fs, idx, name) && r.fs.nodes[idx].kind.File?
                  && r.fs.fds[r.rc] == NewFd(r.fs, idx, flags))
  {
  }

  // What decides an open, before the call.

  predicate AllFdsOpen(s: Fs) { forall d :: 0 <= d < |s.fds| ==> s.fds[d].inUse }

  /** The name stands for a file. */
  predicate OnFile(s: Fs, name: string)
    requires Storage(s)
  {
    FindNode(s, name) >= 0 && s.nodes[FindNode(s, name)].kind.File?
  }

  /** The name stands for nothing, and O_CREAT can make it. */
  predicate Makes(s: Fs, name: string, flags: bv32)
    requires Storage(s)
  {
    FindNode(s, name) < 0 && 0 < |name| < FS_MAX_NAME && flags & 0x40 != 0 && FreeNode(s) >= 0
  }

  /** Every outcome of an open, for every name and flags, by the state before the call. */
  lemma OpenErrors(s: Fs, name: string, flags: bv32, now: nat)
    requires Inv(s) && '\0' !in name
    ensures var rc := Open(s, name, flags, now).rc;
            var missing := name != "" && FindNode(s, name) < 0;
            && (rc >= 0 <==> !AllFdsOpen(s) && (OnFile(s, name) || Makes(s, name, flags)))
            && (rc == -EMFILE <==> AllFdsOpen(s) && (OnFile(s, name) || Makes(s, name, flags)))
            && (rc == -EINVAL <==> name == "")
            && (rc == -ENOENT <==> missing && !Has(flags, O_CREAT))
            && (rc == -ENAMETOOLONG <==> missing && Has(flags, O_CREAT) && |name| >= FS_MAX_NAME)
            && (rc == -ENOSPC <==> missing && Has(flags, O_CREAT) && |name| < FS_MAX_NAME && FreeNode(s) < 0)
            && (rc == -EISDIR <==> FindNode(s, name) >= 0 && !OnFile(s, name))
  {
    var idx := FindNode(s, name);
    if idx >= 0 {
      LookupIsUnique(s, idx, name);
      assert Text(s.nodes[idx].name) == name;
      OpenAtErrors(s, idx, flags);
    } else if Makes(s, name, flags) {
      CreatedIsFound(s, name, File, now);
      var c := Create(s, name, File, now).fs;
      OpenAtErrors(c, FindNode(c, name), flags);
    }
  }

  lemma OpenAtErrors(s: Fs, idx: int, flags: bv32)
    requires Storage(s) && 1 <= idx < FS_MAX_FILES
    ensures var r := OpenAt(s, idx, flags);
            && (r.rc >= 0 <==> s.nodes[idx].kind.File? && !AllFdsOpen(s))
            && (r.rc < 0 ==> r.rc == if s.nodes[idx].kind.File? then -EMFILE else -EISDIR)
            && (r.rc == -EISDIR ==> r.fs == s)
  {
  }

  /** The error of an open that fails. */
  function OpenError(s: Fs, name: string, flags: bv32): int
    requires Storage(s)
  {
    if name == "" then -EINVAL
    else if OnFile(s, name) || Makes(s, name, flags) then -EMFILE
    else if FindNode(s, name) >= 0 then -EISDIR
    else if !Has(flags, O_CREAT) then -ENOENT
    else if |name| >= FS_MAX_NAME then -ENAMETOOLONG
    else -ENOSPC
  }

  /** Success and every failure of an open by the state before the call, and what success gives. */
  lemma OpenOutcome(s: Fs, name: string, flags: bv32, now: nat)
    requires Inv(s) && '\0' !in name
    ensures var r := Open(s, name, flags, now);
            && (r.rc >= 0 <==> !AllFdsOpen(s) && (OnFile(s, name) || Makes(s, name, flags)))
            && (r.rc < 0 ==> r.rc == OpenError(s, name, flags))
            && (r.rc >= 0 ==>
                  && r.rc < FS_MAX_FDS && !s.fds[r.rc].inUse
                  && (forall d :: 0 <= d < r.rc ==> s.fds[d].inUse)
                  && Named(r.fs, r.fs.fds[r.rc].nodeIdx, name)
                  && r.fs.nodes[r.fs.fds[r.rc].nodeIdx].kind.File?
                  && r.fs.fds[r.rc] == NewFd(r.fs, r.fs.fds[r.rc].nodeIdx, flags))
  {
    OpenSuccess(s, name, flags, now);
    OpenErrors(s, name, flags, now);
  }

  /**
   A failed open leaves its work behind exactly when all 16 descriptors are taken and there was work
   to do: a missing file has been created, or a non-empty file has been emptied. Every other failed
   open changes nothing.
   */
  lemma FailedOpenChangesState(s: Fs, name: string, flags: bv32, now: nat)
    requires Inv(s) && '\0' !in name && Open(s, name, flags, now).rc < 0
    ensures Open(s, name, flags, now).fs == s <==>
              !(AllFdsOpen(s) && (Makes(s, name, flags)
                                  || (OnFile(s, name) && Has(flags, O_TRUNC) && s.nodes[FindNode(s, name)].size != 0)))
  {
    OpenErrors(s, name, flags, now);
    if Makes(s, name, flags) {
      MadeAnyway(s, name, flags, now);
    } else if OnFile(s, name) {
      EmptiedAnyway(s, FindNode(s, name), flags);
    }
  }

  lemma MadeAnyway(s: Fs, name: string, flags: bv32, now: nat)
    requires Inv(s) && '\0' !in name && Makes(s, name, flags) && Open(s, name, flags, now).rc < 0
    ensures Open(s, name, flags, now).fs != s
  {
    CreatedIsFound(s, name, File, now);
    var c := Create(s, name, File, now).fs;
    var made := FindNode(c, name);
    assert Named(c, made, name);
    assert Open(s, name, flags, now) == OpenAt(c, made, flags);
    assert Live(OpenAt(c, made, flags).fs, made) && !Live(s, made);
  }

  lemma EmptiedAnyway(s: Fs, idx: int, flags: bv32)
    requires Storage(s) && Live(s, idx) && idx >= 1 && s.nodes[idx].kind.File? && OpenAt(s, idx, flags).rc < 0
    ensures OpenAt(s, idx, flags).fs == s <==> !(Has(flags, O_TRUNC) && s.nodes[idx].size != 0)
  {
    assert NodeOk(s.nodes[idx]);
    if Has(flags, O_TRUNC) {
      var t := OpenAt(s, idx, flags).fs;
      if s.nodes[idx].size == 0 {
        assert s.nodes[idx].data[0 := '\0'] == s.nodes[idx].data;
        assert t.nodes == s.nodes;
      } else {
        assert t.nodes[idx].size != s.nodes[idx].size;
      }
    }
  }
}
