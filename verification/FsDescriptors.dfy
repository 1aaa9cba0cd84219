/**
 When an open descriptor leads to a live file. No call looks at the descriptor table before it removes
 a node, so the property fails; it fails exactly when a call removes the file of an open descriptor.
 */
module FsDescriptors {
  import opened FsModel
  import opened FsInvariant
  import opened FsTree
  import opened FsRemoval
  import opened FsFiles

  ghost predicate LiveFile(s: Fs, i: int) { Live(s, i) && s.nodes[i].kind.File? }

  /** Every open descriptor leads to a live file. */
  ghost predicate OnFiles(s: Fs) {
    forall d :: OpenFd(s, d) ==> LiveFile(s, s.fds[d].nodeIdx)
  }

  /** The call removes file i. */
  predicate Removes(s: Fs, op: Op, i: int)
    requires Storage(s)
  {
    (op.OpDelete? || op.OpUnlink?) && FindNode(s, op.name) == i
  }

  /** The call removes the file of an open descriptor. */
  ghost predicate Strands(s: Fs, op: Op)
    requires Storage(s)
  {
    exists d :: OpenFd(s, d) && Removes(s, op, s.fds[d].nodeIdx)
  }

  /** Node i is the same entry of the tree in both states. */
  ghost predicate SameEntry(s: Fs, r: Fs, i: int) {
    && 0 <= i < |s.nodes| && |r.nodes| == |s.nodes|
    && r.nodes[i].name == s.nodes[i].name && r.nodes[i].kind == s.nodes[i].kind && r.nodes[i].parent == s.nodes[i].parent
  }

  /** What a call does to a live file: it stays the entry it is, and stays live unless it is the one removed. */
  lemma NodeFate(s: Fs, op: Op, i: int)
    requires Inv(s) && ProperOp(op) && LiveFile(s, i)
    ensures SameEntry(s, Exec(s, op).fs, i)
    ensures Live(Exec(s, op).fs, i) <==> !Removes(s, op, i)
  {
    if op.OpDelete? || op.OpUnlink? || op.OpRmdir? {
      RemovingFate(s, op, i);
    } else if op.OpOpen? {
      OpenFate(s, op.name, op.flags, op.now, i);
    } else if op.OpMkdir? || op.OpCreate? || op.OpCd? {
      TreeFate(s, op, i);
    } else {
      BytesFate(s, op, i);
    }
  }

  lemma RemovingFate(s: Fs, op: Op, i: int)
    requires Inv(s) && LiveFile(s, i) && (op.OpDelete? || op.OpUnlink? || op.OpRmdir?)
    ensures SameEntry(s, Exec(s, op).fs, i) && (Live(Exec(s, op).fs, i) <==> !Removes(s, op, i))
  {
    match op
    case OpDelete(name) => DeleteFate(s, name, i);
    case OpUnlink(name) => UnlinkFate(s, name, i);
    case OpRmdir(name) => RmdirFate(s, name, i);
  }

  lemma TreeFate(s: Fs, op: Op, i: int)
    requires Storage(s) && LiveFile(s, i) && (op.OpMkdir? || op.OpCreate? || op.OpCd?)
    ensures SameEntry(s, Exec(s, op).fs, i) && Live(Exec(s, op).fs, i)
  {
    match op
    case OpMkdir(name, now) => CreateFate(s, name, Dir, now, i);
    case OpCreate(name, now) => CreateFate(s, name, File, now, i);
    case OpCd(name) => CdNodes(s, name);
  }

  lemma CreateFate(s: Fs, name: string, kind: Kind, now: nat, i: int)
    requires Storage(s) && LiveFile(s, i)
    ensures var r := Create(s, name, kind, now).fs; SameEntry(s, r, i) && Live(r, i)
  {
    CreateSpares(s, name, kind, now, i);
  }

  lemma CdNodes(s: Fs, name: string)
    requires Storage(s)
    ensures Cd(s, name).fs.nodes == s.nodes
  {
  }

  lemma OpenFate(s: Fs, name: string, flags: bv32, now: nat, i: int)
    requires Storage(s) && LiveFile(s, i)
    ensures var r := Open(s, name, flags, now).fs; SameEntry(s, r, i) && Live(r, i)
  {
    CreateSpares(s, name, File, now, i);
    var c := Create(s, name, File, now).fs;
    if FindNode(s, name) >= 0 { OpenAtBytes(s, FindNode(s, name), flags); }
    if FindNode(c, name) >= 0 { OpenAtBytes(c, FindNode(c, name), flags); }
  }

  lemma DeleteFate(s: Fs, name: string, i: int)
    requires Inv(s) && LiveFile(s, i)
    ensures SameEntry(s, Delete(s, name).fs, i) && (Live(Delete(s, name).fs, i) <==> FindNode(s, name) != i)
  {
    DeleteOutcome(s, name);
    if FindNode(s, name) == i { assert Removable(s, i, name); }
  }

  lemma UnlinkFate(s: Fs, name: string, i: int)
    requires Inv(s) && LiveFile(s, i)
    ensures SameEntry(s, Unlink(s, name).fs, i) && (Live(Unlink(s, name).fs, i) <==> FindNode(s, name) != i)
  {
    var t := Unlink(s, name).fs;
    assert t == s || t == Discard(s, FindNode(s, name));
  }

  lemma RmdirFate(s: Fs, name: string, i: int)
    requires Inv(s) && LiveFile(s, i)
    ensures SameEntry(s, Rmdir(s, name).fs, i) && Live(Rmdir(s, name).fs, i)
  {
    var t := Rmdir(s, name).fs;
    assert t == s || (t == Discard(s, FindNode(s, name)) && i != FindNode(s, name));
  }

  lemma BytesFate(s: Fs, op: Op, i: int)
    requires Storage(s) && LiveFile(s, i) && (op.OpClose? || op.OpRead? || op.OpSeek? || op.OpWrite? || op.OpWriteFile?)
    ensures SameEntry(s, Exec(s, op).fs, i) && Live(Exec(s, op).fs, i)
  {
    BytesOnly(s, op);
  }

  /** What a call does to a descriptor: only close gives it up, and only open takes one, onto a live file. */
  lemma FdFate(s: Fs, op: Op, d: int)
    requires Inv(s) && ProperOp(op)
    ensures var r := Exec(s, op).fs;
            && (OpenFd(s, d) && op != OpClose(d) ==> OpenFd(r, d) && r.fds[d].nodeIdx == s.fds[d].nodeIdx)
            && (OpenFd(r, d) && !OpenFd(s, d) ==> LiveFile(r, r.fds[d].nodeIdx))
            && (OpenFd(r, d) && OpenFd(s, d) ==> r.fds[d].nodeIdx == s.fds[d].nodeIdx)
  {
    if op.OpOpen? {
      OpenTakes(s, op.name, op.flags, op.now, d);
    } else if !op.OpClose? {
      KeepsFds(s, op);
    }
  }

  lemma KeepsFds(s: Fs, op: Op)
    requires Storage(s) && !op.OpOpen? && !op.OpClose?
    ensures SameFds(s, Exec(s, op).fs)
  {
    match op
    case OpRead(fd, hasBuf, n) => ReadFds(s, fd, hasBuf, n);
    case OpWrite(fd, buf) => WriteFds(s, fd, buf);
    case OpSeek(fd, offset, whence) => SeekFds(s, fd, offset, whence);
    case _ =>
  }

  lemma SeekFds(s: Fs, fd: int, offset: int32, whence: int)
    requires Storage(s)
    ensures SameFds(s, Lseek(s, fd, offset, whence).fs)
  {
  }

  lemma ReadFds(s: Fs, fd: int, hasBuf: bool, n: nat)
    requires Storage(s)
    ensures SameFds(s, ReadFd(s, fd, hasBuf, n).fs)
  {
  }

  lemma WriteFds(s: Fs, fd: int, buf: CData)
    requires Storage(s)
    ensures SameFds(s, WriteFd(s, fd, buf).fs)
  {
  }

  /** The same descriptors are open, onto the same nodes. */
  ghost predicate SameFds(s: Fs, r: Fs) {
    |r.fds| == |s.fds| && forall d :: 0 <= d < |s.fds| ==>
      r.fds[d].inUse == s.fds[d].inUse && r.fds[d].nodeIdx == s.fds[d].nodeIdx
  }

  lemma OpenTakes(s: Fs, name: string, flags: bv32, now: nat, d: int)
    requires Inv(s) && '\0' !in name
    ensures var r := Open(s, name, flags, now).fs;
            && (OpenFd(s, d) ==> OpenFd(r, d) && r.fds[d] == s.fds[d])
            && (OpenFd(r, d) && !OpenFd(s, d) ==> LiveFile(r, r.fds[d].nodeIdx))
  {
    OpenSuccess(s, name, flags, now);
    OpenFds(s, name, flags, now);
  }

  lemma OpenFds(s: Fs, name: string, flags: bv32, now: nat)
    requires Storage(s)
    ensures var r := Open(s, name, flags, now);
            if r.rc >= 0 then r.rc < FS_MAX_FDS && !s.fds[r.rc].inUse && r.fs.fds == s.fds[r.rc := r.fs.fds[r.rc]] else r.fs.fds == s.fds
  {
    var idx := FindNode(s, name);
    var c := Create(s, name, File, now).fs;
    if idx >= 0 { OpenAtFds(s, idx, flags); }
    if FindNode(c, name) >= 0 { OpenAtFds(c, FindNode(c, name), flags); }
  }

  lemma OpenAtFds(s: Fs, idx: int, flags: bv32)
    requires Storage(s) && 1 <= idx < FS_MAX_FILES
    ensures var r := OpenAt(s, idx, flags);
            if r.rc >= 0 then r.rc < FS_MAX_FDS && !s.fds[r.rc].inUse && r.fs.fds == s.fds[r.rc := r.fs.fds[r.rc]] else r.fs.fds == s.fds
  {
  }

  /** Open descriptors stay on live files exactly when the call does not remove the file of one of them. */
  lemma StepOnFiles(s: Fs, op: Op)
    requires Inv(s) && ProperOp(op) && OnFiles(s)
    ensures OnFiles(Exec(s, op).fs) <==> !Strands(s, op)
  {
    var r := Exec(s, op).fs;
    forall d | OpenFd(s, d)
      ensures op != OpClose(d) ==> OpenFd(r, d) && r.fds[d].nodeIdx == s.fds[d].nodeIdx
      ensures LiveFile(r, s.fds[d].nodeIdx) <==> !Removes(s, op, s.fds[d].nodeIdx)
    {
      FdFate(s, op, d);
      NodeFate(s, op, s.fds[d].nodeIdx);
    }
    forall d | OpenFd(r, d)
      ensures if OpenFd(s, d) then r.fds[d].nodeIdx == s.fds[d].nodeIdx else LiveFile(r, r.fds[d].nodeIdx)
    {
      FdFate(s, op, d);
    }
  }

  // ---- Runs ----

  /** In every state of the run. */
  ghost predicate AlwaysOnFiles(s: Fs, ops: seq<Op>)
    requires Storage(s)
    decreases |ops|, s
  {
    OnFiles(s) && (ops != [] ==> AlwaysOnFiles(Exec(s, ops[0]).fs, ops[1..]))
  }

  ghost predicate AnyStrands(s: Fs, ops: seq<Op>)
    requires Storage(s)
    decreases |ops|, s
  {
    ops != [] && (Strands(s, ops[0]) || AnyStrands(Exec(s, ops[0]).fs, ops[1..]))
  }

  /** Over every run: descriptors are always on live files exactly when no call removes the file of an open one. */
  lemma {:induction false} RunOnFiles(s: Fs, ops: seq<Op>)
    requires Inv(s) && OnFiles(s) && forall op <- ops :: ProperOp(op)
    ensures AlwaysOnFiles(s, ops) <==> !AnyStrands(s, ops)
    decreases |ops|
  {
    if ops != [] {
      StepOnFiles(s, ops[0]);
      StepKeeps(s, ops[0]);
      var t := Exec(s, ops[0]).fs;
      if OnFiles(t) { RunOnFiles(t, ops[1..]); }
    }
  }

  predicate OpensNone(ops: seq<Op>) { forall op <- ops :: op.OpMkdir? || op.OpCreate? || op.OpWriteFile? }

  lemma {:induction false} NoneOpened(s: Fs, ops: seq<Op>)
    requires Storage(s) && OpensNone(ops)
    ensures Run(s, ops).fds == s.fds
    decreases |ops|
  {
    if ops != [] {
      assert Exec(s, ops[0]).fs.fds == s.fds;
      NoneOpened(Exec(s, ops[0]).fs, ops[1..]);
    }
  }

  /** fs_init opens nothing, so the above holds of every run from boot. */
  lemma EveryRunOnFiles(now: nat, ops: seq<Op>)
    requires forall op <- ops :: ProperOp(op)
    ensures AlwaysOnFiles(Booted(now), ops) <==> !AnyStrands(Booted(now), ops)
  {
    BootOk(now);
    BootedNoneOpen(now);
    RunOnFiles(Booted(now), ops);
  }

  lemma BootedNoneOpen(now: nat)
    ensures OnFiles(Booted(now))
  {
    BootOpensNone(now);
    NoneOpened(Blank(), BootCalls(now));
    assert forall d :: !OpenFd(Blank(), d);
  }

  lemma BootOpensNone(now: nat)
    ensures OpensNone(BootCalls(now))
  {
  }

  /** No call of the run removes file i or closes descriptor d. */
  ghost predicate Spares(s: Fs, ops: seq<Op>, d: int, i: int)
    requires Storage(s)
    decreases |ops|, s
  {
    ops != [] ==> !Removes(s, ops[0], i) && ops[0] != OpClose(d) && Spares(Exec(s, ops[0]).fs, ops[1..], d, i)
  }

  /** Until its file is removed a descriptor stays on that very file: same slot, name, parent and kind. */
  lemma {:induction false} DescriptorFollows(s: Fs, ops: seq<Op>, d: int)
    requires Inv(s) && (forall op <- ops :: ProperOp(op))
    requires OpenFd(s, d) && LiveFile(s, s.fds[d].nodeIdx) && Spares(s, ops, d, s.fds[d].nodeIdx)
    ensures var r := Run(s, ops);
            OpenFd(r, d) && r.fds[d].nodeIdx == s.fds[d].nodeIdx && SameEntry(s, r, s.fds[d].nodeIdx) && LiveFile(r, s.fds[d].nodeIdx)
    decreases |ops|
  {
    if ops != [] {
      StepKeeps(s, ops[0]);
      FdFate(s, ops[0], d);
      NodeFate(s, ops[0], s.fds[d].nodeIdx);
      DescriptorFollows(Exec(s, ops[0]).fs, ops[1..], d);
    }
  }
}
