/**
 What every call on contents and descriptors does to the whole state, by the state before it: its
 result, its errors, where the offset goes, which bytes change, and that nothing else does.
 */
module FsCalls {
  import opened Errno
  import opened FsModel
  import opened FsInvariant
  import opened FsTree
  import opened FsFiles

  /** Bytes b written over c from position at <= 4095 on; behind the end of c the gap shows `stale`. */
  function Overwritten(c: seq<char>, at: nat, b: seq<char>, stale: seq<char>): seq<char>
    requires |c| <= |stale| && at <= |stale|
  {
    if at + |b| <= |c| then c[..at] + b + c[at + |b|..]
    else if at <= |c| then c[..at] + b
    else c + stale[|c|..at] + b
  }

  /** Only node i and descriptor fd differ: the node in its bytes and size, the descriptor in its offset. */
  ghost predicate OnlyBytes(s: Fs, r: Fs, fd: int, i: int, to: nat) {
    && 0 <= fd < |s.fds| && 0 <= i < |s.nodes| && |r.nodes| == |s.nodes|
    && r.fds == s.fds[fd := s.fds[fd].(offset := to)] && r.cwd == s.cwd
    && r.nodes == s.nodes[i := s.nodes[i].(size := r.nodes[i].size, data := r.nodes[i].data)]
  }

  // ---- Writing ----

  /** Without O_APPEND a write starts at the descriptor's offset, overwrites there and moves the offset behind it. */
  lemma WriteOverwrites(s: Fs, fd: int, bytes: seq<char>)
    requires Storage(s) && WriteFd(s, fd, Data(bytes)).rc >= 0 && s.fds[fd].flags & 0x400 == 0
    ensures var f := s.fds[fd]; var n := s.nodes[f.nodeIdx]; var w := WriteFd(s, fd, Data(bytes));
            && f.offset < 4095 && w.rc == Min(|bytes|, 4095 - f.offset)
            && OnlyBytes(s, w.fs, fd, f.nodeIdx, f.offset + w.rc)
            && w.fs.nodes[f.nodeIdx].size < 4096
            && Contents(w.fs.nodes[f.nodeIdx]) == Overwritten(Contents(n), f.offset, bytes[..w.rc], n.data)
  {
    var f := s.fds[fd];
    assert FdOk(f) && NodeOk(s.nodes[f.nodeIdx]);
    StoredContents(s.nodes[f.nodeIdx], f.offset, bytes[..Min(|bytes|, MAX_SIZE - f.offset)]);
  }

  /** With O_APPEND it starts at the end, whatever the offset was. */
  lemma WriteAppends(s: Fs, fd: int, bytes: seq<char>)
    requires Storage(s) && WriteFd(s, fd, Data(bytes)).rc >= 0 && s.fds[fd].flags & 0x400 != 0
    ensures var f := s.fds[fd]; var n := s.nodes[f.nodeIdx]; var w := WriteFd(s, fd, Data(bytes));
            && n.size < 4095 && w.rc == Min(|bytes|, 4095 - n.size)
            && OnlyBytes(s, w.fs, fd, f.nodeIdx, n.size + w.rc)
            && w.fs.nodes[f.nodeIdx].size < 4096
            && Contents(w.fs.nodes[f.nodeIdx]) == Contents(n) + bytes[..w.rc]
  {
    var f := s.fds[fd];
    var n := s.nodes[f.nodeIdx];
    assert FdOk(f) && NodeOk(n);
    StoredContents(n, n.size, bytes[..Min(|bytes|, MAX_SIZE - n.size)]);
    assert Contents(n)[n.size..] == [];
  }

  // ---- Reading and seeking ----

  /** Every outcome of a read; a read moves its own offset and changes nothing else. */
  lemma ReadOutcome(s: Fs, fd: int, hasBuf: bool, n: nat)
    requires Storage(s)
    ensures var r := ReadFd(s, fd, hasBuf, n);
            && (r.rc == -EBADF <==> !OpenFd(s, fd))
            && (r.rc == -EFAULT <==> OpenFd(s, fd) && !hasBuf)
            && (r.rc == -EACCES <==> OpenFd(s, fd) && hasBuf && s.fds[fd].flags & 3 == 1)
            && (r.rc < 0 ==> r.rc in {-EBADF, -EFAULT, -EACCES} && r.fs == s)
            && (r.rc >= 0 ==>
                  var f := s.fds[fd]; var c := Contents(s.nodes[f.nodeIdx]);
                  && r.rc == (if f.offset >= |c| then 0 else Min(n, |c| - f.offset))
                  && (f.offset < |c| ==> r.bytes == c[f.offset..f.offset + r.rc])
                  && r.fs == s.(fds := s.fds[fd := f.(offset := f.offset + r.rc)]))
  {
    if OpenFd(s, fd) {
      var f := s.fds[fd];
      assert FdOk(f) && NodeOk(s.nodes[f.nodeIdx]);
      assert s.fds[fd := f.(offset := f.offset + 0)] == s.fds;
    }
  }

  /** Every outcome of a seek, by the exact sum; a seek moves its own offset and changes nothing else. */
  lemma SeekOutcome(s: Fs, fd: int, offset: int32, whence: int)
    requires Storage(s)
    ensures var r := Lseek(s, fd, offset, whence);
            && (r.rc == -EBADF <==> !OpenFd(s, fd))
            && (OpenFd(s, fd) ==>
                  var f := s.fds[fd];
                  var to := offset + (if whence == 0 then 0 else if whence == 1 then f.offset else s.nodes[f.nodeIdx].size);
                  if whence in {0, 1, 2} && 0 <= to <= 4095
                  then r.rc == to && r.fs == s.(fds := s.fds[fd := f.(offset := to)])
                  else r == Ret(s, -EINVAL))
  {
    if OpenFd(s, fd) && whence in {0, 1, 2} {
      SeekExact(s, fd, offset, whence);
      SeekKeepsDir(s, fd, offset, whence);
    }
  }

  lemma SeekKeepsDir(s: Fs, fd: int, offset: int32, whence: int)
    requires Storage(s)
    ensures Lseek(s, fd, offset, whence).fs.cwd == s.cwd
  {
  }

  // ---- Closing ----

  /** Every outcome of a close: exactly an open descriptor is given up, and nothing else changes. */
  lemma CloseOutcome(s: Fs, fd: int)
    requires Storage(s)
    ensures var r := Close(s, fd);
            && (r.rc == 0 <==> OpenFd(s, fd))
            && (r.rc != 0 ==> r == Ret(s, -EBADF))
            && (r.rc == 0 ==>
                  && r.fs.nodes == s.nodes && r.fs.cwd == s.cwd && |r.fs.fds| == |s.fds|
                  && !OpenFd(r.fs, fd) && r.fs.fds[fd].nodeIdx == -1
                  && forall d :: 0 <= d < |s.fds| && d != fd ==> r.fs.fds[d] == s.fds[d])
  {
  }

  /** A closed descriptor is refused by every call, and the next open that succeeds is given it or a lower one. */
  lemma AfterClose(s: Fs, fd: int, hasBuf: bool, n: nat, buf: CData, offset: int32, whence: int)
    requires Storage(s) && OpenFd(s, fd)
    ensures var r := Close(s, fd).fs;
            && ReadFd(r, fd, hasBuf, n) == ReadRet(r, -EBADF, []) && WriteFd(r, fd, buf) == Ret(r, -EBADF)
            && Lseek(r, fd, offset, whence) == Ret(r, -EBADF) && Close(r, fd) == Ret(r, -EBADF)
  {
    CloseOutcome(s, fd);
  }

  lemma OpenReusesClosed(s: Fs, fd: int, name: string, flags: bv32, now: nat)
    requires Inv(s) && OpenFd(s, fd) && '\0' !in name
    ensures var r := Close(s, fd).fs;
            && Inv(r)
            && (Open(r, name, flags, now).rc >= 0 <==> OnFile(r, name) || Makes(r, name, flags))
            && (Open(r, name, flags, now).rc >= 0 ==> Open(r, name, flags, now).rc <= fd)
  {
    var r := Close(s, fd).fs;
    StepKeeps(s, OpClose(fd));
    assert Exec(s, OpClose(fd)).fs == r;
    CloseOutcome(s, fd);
    assert !r.fds[fd].inUse;
    OpenOutcome(r, name, flags, now);
  }

  // ---- Opening ----

  /**
   What an open that succeeds leaves: the file as it was, emptied with O_TRUNC, or new and empty; and
   the descriptor at the start, or with O_APPEND at the end. Nothing else changes.
   */
  lemma OpenLeaves(s: Fs, name: string, flags: bv32, now: nat)
    requires Inv(s) && '\0' !in name && Open(s, name, flags, now).rc >= 0
    ensures var r := Open(s, name, flags, now); var i := FindNode(r.fs, name);
            && 1 <= i < FS_MAX_FILES && r.fs.nodes[i].kind.File? && r.rc < 16 && r.fs.cwd == s.cwd
            && r.fs.fds == s.fds[r.rc := Fd(i, if flags & 0x400 != 0 then r.fs.nodes[i].size else 0, flags, true)]
            && (FindNode(s, name) >= 0 ==> i == FindNode(s, name))
            && (FindNode(s, name) >= 0 && flags & 0x200 == 0 ==> r.fs.nodes == s.nodes)
            && (FindNode(s, name) < 0 || flags & 0x200 != 0 ==> r.fs.nodes[i].size == 0)
            && (FindNode(s, name) < 0 ==> !Live(s, i))
            && (forall j :: 0 <= j < FS_MAX_FILES && j != i ==> r.fs.nodes[j] == s.nodes[j])
  {
    var idx := FindNode(s, name);
    OpenOutcome(s, name, flags, now);
    if idx >= 0 {
      FoundAfterOpen(s, idx, name, flags);
    } else {
      CreatedIsFound(s, name, File, now);
      CreateKeeps(s, name, File, now);
      var c := Create(s, name, File, now).fs;
      FoundAfterOpen(c, FindNode(c, name), name, flags);
    }
  }

  lemma FoundAfterOpen(s: Fs, idx: int, name: string, flags: bv32)
    requires Inv(s) && 1 <= idx && FindNode(s, name) == idx && OpenAt(s, idx, flags).rc >= 0
    ensures var r := OpenAt(s, idx, flags);
            && FindNode(r.fs, name) == idx && r.fs.nodes[idx].kind.File? && r.rc < 16 && r.fs.cwd == s.cwd
            && r.fs.fds == s.fds[r.rc := Fd(idx, if flags & 0x400 != 0 then r.fs.nodes[idx].size else 0, flags, true)]
            && (flags & 0x200 == 0 ==> r.fs.nodes == s.nodes)
            && (flags & 0x200 != 0 || s.nodes[idx].size == 0 ==> r.fs.nodes[idx].size == 0)
            && (forall j :: 0 <= j < FS_MAX_FILES && j != idx ==> r.fs.nodes[j] == s.nodes[j])
  {
    OpenAtBytes(s, idx, flags);
    OpenAtKeeps(s, idx, flags);
    FoundHere(OpenAt(s, idx, flags).fs, idx, name);
  }

  /** Open for writing without O_APPEND, then write: the bytes replace the first ones of the file. */
  lemma OpenThenWrite(s: Fs, name: string, flags: bv32, now: nat, bytes: seq<char>)
    requires Inv(s) && '\0' !in name && flags & 0x400 == 0 && flags & 3 != 0 && Open(s, name, flags, now).rc >= 0
    ensures var o := Open(s, name, flags, now); var i := FindNode(o.fs, name);
            var w := WriteFd(o.fs, o.rc, Data(bytes));
            && i >= 0 && w.rc == Min(|bytes|, 4095)
            && var c := Contents(o.fs.nodes[i]);
               Contents(w.fs.nodes[i]) == bytes[..w.rc] + (if w.rc <= |c| then c[w.rc..] else [])
  {
    OpenLeaves(s, name, flags, now);
    var o := Open(s, name, flags, now);
    assert FdOk(o.fs.fds[o.rc]);
    FailedWrite(o.fs, o.rc, Data(bytes));
    WriteOverwrites(o.fs, o.rc, bytes);
    assert Contents(o.fs.nodes[FindNode(o.fs, name)])[..0] == [];
  }

  /** Open with O_APPEND, then ask where the descriptor stands: at the end. */
  lemma OpenAppendTells(s: Fs, name: string, flags: bv32, now: nat)
    requires Inv(s) && '\0' !in name && flags & 0x400 != 0 && Open(s, name, flags, now).rc >= 0
    ensures var o := Open(s, name, flags, now); var i := FindNode(o.fs, name);
            i >= 0 && Lseek(o.fs, o.rc, 0, 1).rc == o.fs.nodes[i].size
  {
    OpenLeaves(s, name, flags, now);
    var o := Open(s, name, flags, now);
    assert NodeOk(o.fs.nodes[FindNode(o.fs, name)]);
    SeekOutcome(o.fs, o.rc, 0, 1);
  }

  /** Open with O_APPEND, then write: the bytes follow the contents. */
  lemma OpenThenAppend(s: Fs, name: string, flags: bv32, now: nat, bytes: seq<char>)
    requires Inv(s) && '\0' !in name && flags & 0x400 != 0 && Open(s, name, flags, now).rc >= 0
    requires WriteFd(Open(s, name, flags, now).fs, Open(s, name, flags, now).rc, Data(bytes)).rc >= 0
    ensures var o := Open(s, name, flags, now); var i := FindNode(o.fs, name);
            var w := WriteFd(o.fs, o.rc, Data(bytes));
            i >= 0 && NodeOk(o.fs.nodes[i]) && NodeOk(w.fs.nodes[i])
            && Contents(w.fs.nodes[i]) == Contents(o.fs.nodes[i]) + bytes[..Min(|bytes|, 4095 - o.fs.nodes[i].size)]
  {
    OpenLeaves(s, name, flags, now);
    var o := Open(s, name, flags, now);
    WriteAppends(o.fs, o.rc, bytes);
  }

  // ---- Files by name ----

  /** Every outcome of fs_write_file: it replaces the contents of every file, and refuses directories and missing names. */
  lemma WriteFileOutcome(s: Fs, name: string, data: seq<char>)
    requires Storage(s)
    ensures var r := WriteFile(s, name, data); var i := FindNode(s, name);
            && (r.rc == -ENOENT <==> forall j :: !Named(s, j, name))
            && (r.rc == -EISDIR <==> i >= 0 && !s.nodes[i].kind.File?)
            && (r.rc < 0 ==> r.rc in {-ENOENT, -EISDIR} && r.fs == s)
            && (r.rc >= 0 ==>
                  && r.rc == Min(|data|, 4095) && r.fs.fds == s.fds && r.fs.cwd == s.cwd && |r.fs.nodes| == |s.nodes|
                  && r.fs.nodes == s.nodes[i := s.nodes[i].(size := r.rc, data := r.fs.nodes[i].data)]
                  && NodeOk(r.fs.nodes[i]) && Contents(r.fs.nodes[i]) == data[..r.rc])
  {
    var i := FindNode(s, name);
    if i >= 0 {
      assert Named(s, i, name);
    } else {
      forall j ensures !Named(s, j, name) {}
    }
  }

  /** Every outcome of fs_read_file: the contents, cut to one byte less than the buffer. */
  lemma ReadFileOutcome(s: Fs, name: string, maxLen: nat)
    requires Storage(s) && 0 < maxLen
    ensures var r := ReadFile(s, name, maxLen); var i := FindNode(s, name);
            && r.fs == s
            && (r.rc == -ENOENT <==> forall j :: !Named(s, j, name))
            && (r.rc == -EISDIR <==> i >= 0 && !s.nodes[i].kind.File?)
            && (r.rc < 0 ==> r.rc in {-ENOENT, -EISDIR})
            && (r.rc >= 0 ==>
                  && NodeOk(s.nodes[i]) && r.rc == Min(s.nodes[i].size, maxLen - 1)
                  && r.bytes == Contents(s.nodes[i])[..r.rc])
  {
    var i := FindNode(s, name);
    if i >= 0 {
      assert Named(s, i, name) && NodeOk(s.nodes[i]);
    } else {
      forall j ensures !Named(s, j, name) {}
    }
  }
}
