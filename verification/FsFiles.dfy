/** A file seen through its descriptors is a byte sequence of at most 4095 bytes. */
module FsFiles {
  import opened Errno
  import opened CString
  import opened FsModel

  const MAX_SIZE := FS_MAX_DATA - 1

  function Min(a: int, b: int): int { if a < b then a else b }

  function Contents(n: Node): seq<char>
    requires n.size <= |n.data|
  {
    n.data[..n.size]
  }

  function Cap(b: seq<char>): seq<char> { if |b| > MAX_SIZE then b[..MAX_SIZE] else b }

  predicate Writable(s: Fs, fd: int) { OpenFd(s, fd) && Access(s.fds[fd].flags) != O_RDONLY }

  predicate Readable(s: Fs, fd: int) { OpenFd(s, fd) && Access(s.fds[fd].flags) != O_WRONLY }

  // ---- Writing ----

  /**
   Storing buf at `at` overwrites the bytes there and keeps all others; only a gap between the old
   end and `at` shows whatever the buffer held before.
   */
  lemma StoredContents(n: Node, at: nat, buf: seq<char>)
    requires NodeOk(n) && at + |buf| <= MAX_SIZE
    ensures var c := Contents(n); var d := Contents(Stored(n, at, buf));
            && (at + |buf| <= |c| ==> d == c[..at] + buf + c[at + |buf|..])
            && (at <= |c| < at + |buf| ==> d == c[..at] + buf)
            && (|c| < at ==> d == c + n.data[|c|..at] + buf)
  {
    var c := Contents(n);
    var d := Contents(Stored(n, at, buf));
    if at + |buf| <= |c| {
      assert d == c[..at] + buf + c[at + |buf|..];
    } else if at <= |c| {
      assert d == c[..at] + buf;
    } else {
      assert d == c + n.data[|c|..at] + buf;
    }
  }

  /** A store past the end, even of no bytes at all, moves the end; any other empty store does not. */
  lemma EmptyStore(n: Node, at: nat)
    requires NodeOk(n) && at <= MAX_SIZE
    ensures Contents(Stored(n, at, [])) == Contents(n) <==> at <= n.size
  {
    StoredContents(n, at, []);
    var c := Contents(n);
    if at <= n.size { assert c[..at] + [] + c[at..] == c; }
  }

  /**
   A write of no bytes that is accepted returns 0 and leaves the file as it was exactly when the
   descriptor appends or stands no further than the end; past the end it moves the end there.
   */
  lemma EmptyWrite(s: Fs, fd: int)
    requires Storage(s) && WriteFd(s, fd, Data([])).rc >= 0
    ensures var f := s.fds[fd]; var n := s.nodes[f.nodeIdx];
            var r := WriteFd(s, fd, Data([])); var m := r.fs.nodes[f.nodeIdx];
            && r.rc == 0
            && (Contents(m) == Contents(n) <==> f.flags & 0x400 != 0 || f.offset <= n.size)
            && (Contents(m) != Contents(n) ==> m.size == f.offset > n.size)
  {
    var f := s.fds[fd];
    var n := s.nodes[f.nodeIdx];
    assert FdOk(f) && NodeOk(n);
    WriteIs(s, fd, [], WriteStart(f, n), 0);
    EmptyStore(n, WriteStart(f, n));
  }

  lemma StoreTwice(n: Node, at: nat, a: seq<char>, b: seq<char>)
    requires NodeOk(n) && at + |a| + |b| <= MAX_SIZE
    ensures Stored(Stored(n, at, a), at + |a|, b) == Stored(n, at, a + b)
  {
    StoreTwiceSize(n, at, a, b);
    StoreTwiceData(n, at, a, b);
  }

  lemma StoreTwiceSize(n: Node, at: nat, a: seq<char>, b: seq<char>)
    requires NodeOk(n) && at + |a| + |b| <= MAX_SIZE
    ensures Stored(Stored(n, at, a), at + |a|, b).size == Stored(n, at, a + b).size
  {
  }

  /** The byte at k after a store: the terminator, a written byte, or the old one. */
  lemma StoredByte(n: Node, at: nat, buf: seq<char>, k: nat)
    requires NodeOk(n) && at + |buf| <= MAX_SIZE && k < FS_MAX_DATA
    ensures var m := Stored(n, at, buf);
            m.data[k] == if k == m.size then '\0' else if at <= k < at + |buf| then buf[k - at] else n.data[k]
  {
    var d := Splice(n.data, at, buf);
    if at <= k < at + |buf| { assert d[at..at + |buf|][k - at] == d[k]; }
  }

  lemma StoreTwiceByte(n: Node, at: nat, a: seq<char>, b: seq<char>, k: nat)
    requires NodeOk(n) && at + |a| + |b| <= MAX_SIZE && k < FS_MAX_DATA && NodeOk(Stored(n, at, a))
    ensures Stored(Stored(n, at, a), at + |a|, b).data[k] == Stored(n, at, a + b).data[k]
  {
    StoreTwiceSize(n, at, a, b);
    StoredByte(n, at, a, k);
    StoredByte(Stored(n, at, a), at + |a|, b, k);
    StoredByte(n, at, a + b, k);
  }

  lemma StoreTwiceData(n: Node, at: nat, a: seq<char>, b: seq<char>)
    requires NodeOk(n) && at + |a| + |b| <= MAX_SIZE
    ensures Stored(Stored(n, at, a), at + |a|, b).data == Stored(n, at, a + b).data
  {
    forall k | 0 <= k < FS_MAX_DATA
      ensures Stored(Stored(n, at, a), at + |a|, b).data[k] == Stored(n, at, a + b).data[k]
    {
      StoreTwiceByte(n, at, a, b, k);
    }
  }

  /** Writing a and then b is writing a + b, up to and beyond the size limit. */
  lemma WriteTwice(s: Fs, fd: int, a: seq<char>, b: seq<char>)
    requires Storage(s)
    ensures var w1 := WriteFd(s, fd, Data(a));
            var w2 := WriteFd(w1.fs, fd, Data(b));
            var w := WriteFd(s, fd, Data(a + b));
            && w2.fs == w.fs
            && (w1.rc < 0 ==> w2.rc == w.rc == w1.rc)
            && (w1.rc >= 0 ==> w.rc == w1.rc + (if w2.rc < 0 then 0 else w2.rc))
  {
    if Writable(s, fd) {
      assert FdOk(s.fds[fd]) && NodeOk(s.nodes[s.fds[fd].nodeIdx]);
      if WriteStart(s.fds[fd], s.nodes[s.fds[fd].nodeIdx]) < MAX_SIZE {
        WriteTwiceStored(s, fd, a, b);
      }
    }
  }

  /** Descriptor fd moved to `to`, and its node replaced by n. */
  function Put(s: Fs, fd: int, n: Node, to: nat): Fs
    requires 0 <= fd < |s.fds| && 0 <= s.fds[fd].nodeIdx < |s.nodes|
  {
    s.(nodes := s.nodes[s.fds[fd].nodeIdx := n], fds := s.fds[fd := s.fds[fd].(offset := to)])
  }

  lemma PutTwice(s: Fs, fd: int, n: Node, to: nat, m: Node, up: nat)
    requires 0 <= fd < |s.fds| && 0 <= s.fds[fd].nodeIdx < |s.nodes|
    ensures Put(Put(s, fd, n, to), fd, m, up) == Put(s, fd, m, up)
  {
  }

  /** A write that is not refused, spelled out. */
  lemma WriteIs(s: Fs, fd: int, bytes: seq<char>, at: nat, k: nat)
    requires Storage(s) && Writable(s, fd) && at == WriteStart(s.fds[fd], s.nodes[s.fds[fd].nodeIdx]) < MAX_SIZE
    requires k == Min(|bytes|, MAX_SIZE - at)
    ensures WriteFd(s, fd, Data(bytes)) == Ret(Put(s, fd, Stored(s.nodes[s.fds[fd].nodeIdx], at, bytes[..k]), at + k), k)
  {
    assert FdOk(s.fds[fd]) && NodeOk(s.nodes[s.fds[fd].nodeIdx]);
  }

  lemma WriteTwiceStored(s: Fs, fd: int, a: seq<char>, b: seq<char>)
    requires Storage(s) && Writable(s, fd) && WriteStart(s.fds[fd], s.nodes[s.fds[fd].nodeIdx]) < MAX_SIZE
    ensures var w1 := WriteFd(s, fd, Data(a));
            var w2 := WriteFd(w1.fs, fd, Data(b));
            var w := WriteFd(s, fd, Data(a + b));
            w1.rc >= 0 && w2.fs == w.fs && w.rc == w1.rc + (if w2.rc < 0 then 0 else w2.rc)
  {
    var n := s.nodes[s.fds[fd].nodeIdx];
    assert FdOk(s.fds[fd]) && NodeOk(n);
    var at := WriteStart(s.fds[fd], n);
    var k1 := Min(|a|, MAX_SIZE - at);
    var k2 := Min(|b|, MAX_SIZE - at - k1);
    WriteIs(s, fd, a, at, k1);
    WriteIs(s, fd, a + b, at, k1 + k2);
    assert (a + b)[..k1 + k2] == a[..k1] + b[..k2];
    WriteBehind(s, fd, a[..k1], b, at, k2);
  }

  /** The state after storing x, and what a second write of b does to it. */
  lemma WriteBehind(s: Fs, fd: int, x: seq<char>, b: seq<char>, at: nat, k: nat)
    requires Storage(s) && Writable(s, fd) && at == WriteStart(s.fds[fd], s.nodes[s.fds[fd].nodeIdx])
    requires at + |x| <= MAX_SIZE && k == Min(|b|, MAX_SIZE - at - |x|)
    requires Storage(Put(s, fd, Stored(s.nodes[s.fds[fd].nodeIdx], at, x), at + |x|))
    ensures var n := s.nodes[s.fds[fd].nodeIdx];
            var w := WriteFd(Put(s, fd, Stored(n, at, x), at + |x|), fd, Data(b));
            && w.fs == Put(s, fd, Stored(n, at, x + b[..k]), at + |x| + k)
            && (if w.rc < 0 then k == 0 else w.rc == k)
  {
    var n := s.nodes[s.fds[fd].nodeIdx];
    assert FdOk(s.fds[fd]) && NodeOk(n);
    var n1 := Stored(n, at, x);
    StoreTwice(n, at, x, b[..k]);
    SecondWrite(Put(s, fd, n1, at + |x|), fd, b, at + |x|, k);
    PutTwice(s, fd, n1, at + |x|, Stored(n1, at + |x|, b[..k]), at + |x| + k);
  }

  /** A write that starts at the offset `at`, which may be the limit. */
  lemma SecondWrite(s: Fs, fd: int, b: seq<char>, at: nat, k: nat)
    requires Storage(s) && Writable(s, fd) && k == Min(|b|, MAX_SIZE - at)
    requires at == WriteStart(s.fds[fd], s.nodes[s.fds[fd].nodeIdx]) == s.fds[fd].offset <= s.nodes[s.fds[fd].nodeIdx].size
    requires var n := s.nodes[s.fds[fd].nodeIdx]; n.data[n.size] == '\0'
    ensures var w := WriteFd(s, fd, Data(b)); var n := s.nodes[s.fds[fd].nodeIdx];
            && at <= MAX_SIZE
            && w.fs == Put(s, fd, Stored(n, at, b[..k]), at + k)
            && (if w.rc < 0 then k == 0 else w.rc == k)
  {
    var n := s.nodes[s.fds[fd].nodeIdx];
    assert FdOk(s.fds[fd]) && NodeOk(n);
    if at < MAX_SIZE {
      WriteIs(s, fd, b, at, k);
    } else {
      AtLimit(n);
      assert b[..k] == [];
      assert Put(s, fd, n, at) == s;
    }
  }

  lemma AtLimit(n: Node)
    requires NodeOk(n) && n.size == MAX_SIZE && n.data[MAX_SIZE] == '\0'
    ensures Stored(n, MAX_SIZE, []) == n
  {
    assert Splice(n.data, MAX_SIZE, []) == n.data;
  }

  /** A write through fd would start at the limit: at the offset, or with O_APPEND at the end of the file. */
  predicate FullAt(s: Fs, fd: int)
    requires Storage(s) && OpenFd(s, fd)
  {
    if s.fds[fd].flags & 0x400 != 0 then s.nodes[s.fds[fd].nodeIdx].size == 4095 else s.fds[fd].offset == 4095
  }

  /**
   When a write fails, and how. A failed write changes no file; it changes the state at all exactly
   when it is an append to a full file whose descriptor stood elsewhere, which it moves to the end.
   */
  lemma FailedWrite(s: Fs, fd: int, buf: CData)
    requires Storage(s)
    ensures var r := WriteFd(s, fd, buf);
            && (r.rc == -EBADF <==> !OpenFd(s, fd))
            && (r.rc == -EFAULT <==> OpenFd(s, fd) && buf.NoData?)
            && (r.rc == -EACCES <==> OpenFd(s, fd) && buf.Data? && s.fds[fd].flags & 3 == 0)
            && (r.rc == -ENOSPC <==> Writable(s, fd) && buf.Data? && FullAt(s, fd))
            && (r.rc < 0 ==> r.rc in {-EBADF, -EFAULT, -EACCES, -ENOSPC} && r.fs.nodes == s.nodes && r.fs.cwd == s.cwd)
            && (r.rc < 0 ==> (r.fs == s <==> !(r.rc == -ENOSPC && s.fds[fd].offset != 4095)))
            && (r.rc == -ENOSPC ==> r.fs.fds == s.fds[fd := s.fds[fd].(offset := 4095)])
  {
    if OpenFd(s, fd) {
      var f := s.fds[fd];
      assert FdOk(f) && NodeOk(s.nodes[f.nodeIdx]);
      var at := WriteStart(f, s.nodes[f.nodeIdx]);
      assert f.offset == at ==> s.fds[fd := f.(offset := at)] == s.fds;
      assert s.fds[fd := f.(offset := at)][fd].offset == at;
    }
  }

  /** Write, seek back to where the write began, read: the accepted bytes come back. */
  lemma WriteSeekRead(s: Fs, fd: int, bytes: seq<char>)
    requires Storage(s) && Readable(s, fd) && WriteFd(s, fd, Data(bytes)).rc >= 0
    ensures var f := s.fds[fd]; var start := if f.flags & 0x400 != 0 then s.nodes[f.nodeIdx].size else f.offset;
            var w := WriteFd(s, fd, Data(bytes));
            var back := Lseek(w.fs, fd, start, SEEK_SET);
            var r := ReadFd(back.fs, fd, true, w.rc);
            && w.rc == Min(|bytes|, 4095 - start)
            && back.rc == start
            && r.rc == w.rc && r.bytes == bytes[..w.rc]
            && r.fs == w.fs
  {
    var f := s.fds[fd];
    var w := WriteFd(s, fd, Data(bytes));
    var start := WriteStart(f, s.nodes[f.nodeIdx]);
    WriteAccepted(s, fd, bytes);
    SeekReadBack(w.fs, fd, start, w.rc);
  }

  /** Seeking k bytes before the offset and reading k bytes leaves the offset where it was. */
  lemma SeekReadBack(s: Fs, fd: int, start: nat, k: nat)
    requires Storage(s) && Readable(s, fd) && start < MAX_SIZE
    requires s.fds[fd].offset == start + k <= s.nodes[s.fds[fd].nodeIdx].size <= MAX_SIZE
    ensures var back := Lseek(s, fd, start, SEEK_SET);
            var r := ReadFd(back.fs, fd, true, k);
            && back.rc == start && r.rc == k && r.fs == s
            && r.bytes == s.nodes[s.fds[fd].nodeIdx].data[start..start + k]
  {
    assert FdOk(s.fds[fd]) && NodeOk(s.nodes[s.fds[fd].nodeIdx]);
    var r := ReadFd(Lseek(s, fd, start, SEEK_SET).fs, fd, true, k);
    assert r.fs.fds == s.fds;
  }

  lemma WriteAccepted(s: Fs, fd: int, bytes: seq<char>)
    requires Storage(s) && WriteFd(s, fd, Data(bytes)).rc >= 0
    ensures var f := s.fds[fd];
            var start := if f.flags & 0x400 != 0 then s.nodes[f.nodeIdx].size else f.offset;
            var w := WriteFd(s, fd, Data(bytes));
            var n := w.fs.nodes[f.nodeIdx];
            && start < 4095 && w.rc == Min(|bytes|, 4095 - start)
            && w.fs.fds == s.fds[fd := f.(offset := start + w.rc)]
            && start + w.rc <= n.size <= MAX_SIZE && n.data[start..start + w.rc] == bytes[..w.rc]
  {
    var f := s.fds[fd];
    assert FdOk(f) && NodeOk(s.nodes[f.nodeIdx]);
  }

  /** The name-based pair: what fs_write_file stores, fs_read_file returns, cut to both limits. */
  lemma WriteFileReadFile(s: Fs, name: string, data: seq<char>, maxLen: nat)
    requires Storage(s) && 0 < maxLen && WriteFile(s, name, data).rc >= 0
    ensures var w := WriteFile(s, name, data);
            var r := ReadFile(w.fs, name, maxLen);
            && w.rc == |Cap(data)|
            && r.rc == Min(w.rc, maxLen - 1) && r.bytes == Cap(data)[..r.rc]
  {
    var idx := FindNode(s, name);
    var t := WriteFile(s, name, data).fs;
    SameLookup(s, idx, t.nodes[idx], name);
    WriteFileContents(s, name, data);
  }

  lemma WriteFileContents(s: Fs, name: string, data: seq<char>)
    requires Storage(s) && WriteFile(s, name, data).rc >= 0
    ensures var w := WriteFile(s, name, data); var n := w.fs.nodes[FindNode(s, name)];
            w.fs == SetNode(s, FindNode(s, name), n) && n.size == |Cap(data)| == w.rc && Contents(n) == Cap(data)
  {
  }

  /** A change of bytes and size does not change what a name finds. */
  lemma SameLookup(s: Fs, i: int, n: Node, name: string)
    requires Storage(s) && 0 <= i < FS_MAX_FILES && Storage(SetNode(s, i, n))
    requires n.name == s.nodes[i].name && n.parent == s.nodes[i].parent && n.inUse == s.nodes[i].inUse
    ensures FindNode(SetNode(s, i, n), name) == FindNode(s, name)
  {
    var t := SetNode(s, i, n);
    assert forall j :: 0 <= j < FS_MAX_FILES ==> (Named(t, j, name) <==> Named(s, j, name));
    if FindNode(t, name) >= 0 { assert Named(s, FindNode(t, name), name); }
    if FindNode(s, name) >= 0 { assert Named(t, FindNode(s, name), name); }
  }

  // ---- Seeking ----

  /** The 32-bit sum of fs_lseek never decides differently from the exact one. */
  lemma SeekExact(s: Fs, fd: int, offset: int32, whence: int)
    requires Storage(s) && OpenFd(s, fd) && whence in {SEEK_SET, SEEK_CUR, SEEK_END}
    ensures var f := s.fds[fd];
            var to := offset + (if whence == SEEK_SET then 0
                                else if whence == SEEK_CUR then f.offset else s.nodes[f.nodeIdx].size);
            var r := Lseek(s, fd, offset, whence);
            && (0 <= to <= MAX_SIZE ==> r.rc == to && r.fs.fds == s.fds[fd := f.(offset := to)] && r.fs.nodes == s.nodes)
            && (!(0 <= to <= MAX_SIZE) ==> r == Ret(s, -EINVAL))
  {
    assert FdOk(s.fds[fd]) && NodeOk(s.nodes[s.fds[fd].nodeIdx]);
    SumFits(offset + (if whence == SEEK_SET then 0
                      else if whence == SEEK_CUR then s.fds[fd].offset else s.nodes[s.fds[fd].nodeIdx].size));
  }

  lemma SumFits(x: int)
    requires -0x8000_0000 <= x <= 0x7FFF_FFFF + MAX_SIZE
    ensures if 0 <= x <= MAX_SIZE then ToInt32(x) == x else ToInt32(x) < 0 || ToInt32(x) > MAX_SIZE
  {
  }

  // ---- Reading ----

  function Sum(sizes: seq<nat>): nat { if sizes == [] then 0 else sizes[0] + Sum(sizes[1..]) }

  /** A read loop: one call per requested size, keeping what each hands over. */
  function ReadMany(s: Fs, fd: int, sizes: seq<nat>): (r: ReadRet)
    requires Storage(s)
    ensures Storage(r.fs)
    decreases |sizes|, s
  {
    if sizes == [] then ReadRet(s, 0, [])
    else
      var first := ReadFd(s, fd, true, sizes[0]);
      var rest := ReadMany(first.fs, fd, sizes[1..]);
      ReadRet(rest.fs, |first.bytes| + rest.rc, first.bytes + rest.bytes)
  }

  /** The bytes from the offset to the end. */
  function Remaining(s: Fs, fd: int): seq<char>
    requires Storage(s) && OpenFd(s, fd)
  {
    var c := Contents(s.nodes[s.fds[fd].nodeIdx]);
    if s.fds[fd].offset > |c| then [] else c[s.fds[fd].offset..]
  }

  lemma ReadOnce(s: Fs, fd: int, n: nat)
    requires Storage(s) && Readable(s, fd)
    ensures var r := ReadFd(s, fd, true, n);
            var k := Min(n, |Remaining(s, fd)|);
            && r.rc == k && r.bytes == Remaining(s, fd)[..k]
            && Readable(r.fs, fd) && Remaining(r.fs, fd) == Remaining(s, fd)[k..]
            && r.fs.nodes == s.nodes
  {
    assert FdOk(s.fds[fd]) && NodeOk(s.nodes[s.fds[fd].nodeIdx]);
  }

  /** Reads in any sizes hand over the remaining bytes in order, without loss or repetition. */
  lemma {:induction false} ReadLoop(s: Fs, fd: int, sizes: seq<nat>)
    requires Storage(s) && Readable(s, fd)
    ensures var r := ReadMany(s, fd, sizes);
            var k := Min(Sum(sizes), |Remaining(s, fd)|);
            && r.bytes == Remaining(s, fd)[..k]
            && Readable(r.fs, fd) && Remaining(r.fs, fd) == Remaining(s, fd)[k..]
            && r.fs.nodes == s.nodes
    decreases |sizes|
  {
    if sizes != [] {
      ReadOnce(s, fd, sizes[0]);
      var first := ReadFd(s, fd, true, sizes[0]);
      ReadLoop(first.fs, fd, sizes[1..]);
      TakeTwice(Remaining(s, fd), sizes[0], Sum(sizes[1..]));
    }
  }

  lemma TakeTwice(r: seq<char>, n: nat, m: nat)
    ensures var k := Min(n, |r|); var l := Min(m, |r[k..]|);
            r[..k] + r[k..][..l] == r[..Min(n + m, |r|)] && r[k..][l..] == r[Min(n + m, |r|)..]
  {
  }

  lemma {:induction false} PositiveSum(sizes: seq<nat>)
    requires forall j :: 0 <= j < |sizes| ==> sizes[j] > 0
    ensures Sum(sizes) >= |sizes|
  {
    if sizes != [] { PositiveSum(sizes[1..]); }
  }

  /** With positive sizes the loop is done after at most as many calls as there are bytes left. */
  lemma ReadLoopFinishes(s: Fs, fd: int, sizes: seq<nat>, n: nat)
    requires Storage(s) && Readable(s, fd) && (forall j :: 0 <= j < |sizes| ==> sizes[j] > 0)
    requires |sizes| >= |Remaining(s, fd)|
    ensures ReadMany(s, fd, sizes).bytes == Remaining(s, fd)
    ensures ReadFd(ReadMany(s, fd, sizes).fs, fd, true, n).rc == 0
  {
    ReadLoop(s, fd, sizes);
    PositiveSum(sizes);
    ReadOnce(ReadMany(s, fd, sizes).fs, fd, n);
  }

  // ---- Appending ----

  /** op leaves node i alone, except that it may write through a descriptor opened with O_APPEND. */
  predicate OnlyAppends(s: Fs, op: Op, i: int)
    requires Storage(s)
  {
    match op
    case OpWrite(fd, _) => OpenFd(s, fd) && s.fds[fd].nodeIdx == i ==> Has(s.fds[fd].flags, O_APPEND)
    case OpWriteFile(name, _) => FindNode(s, name) != i
    case OpDelete(name) => FindNode(s, name) != i
    case OpUnlink(name) => FindNode(s, name) != i
    case OpRmdir(name) => FindNode(s, name) != i
    case OpOpen(name, flags, _) => Has(flags, O_TRUNC) ==> FindNode(s, name) != i
    case _ => true
  }

  /** What op offers to be appended to node i; a descriptor opened for reading only offers nothing. */
  function Offered(s: Fs, op: Op, i: int): seq<char>
    requires Storage(s)
  {
    if op.OpWrite? && Writable(s, op.fd) && s.fds[op.fd].nodeIdx == i && op.buf.Data? then op.buf.bytes else []
  }

  predicate RunOnlyAppends(s: Fs, ops: seq<Op>, i: int)
    requires Storage(s)
    decreases |ops|, s
  {
    ops != [] ==> OnlyAppends(s, ops[0], i) && RunOnlyAppends(Exec(s, ops[0]).fs, ops[1..], i)
  }

  /** The buffers of the append calls of a run, in call order. */
  function AllOffered(s: Fs, ops: seq<Op>, i: int): seq<char>
    requires Storage(s)
    decreases |ops|, s
  {
    if ops == [] then [] else Offered(s, ops[0], i) + AllOffered(Exec(s, ops[0]).fs, ops[1..], i)
  }

  lemma AppendWrite(s: Fs, fd: int, buf: CData, i: int)
    requires Storage(s) && Live(s, i) && OnlyAppends(s, OpWrite(fd, buf), i)
    ensures var t := WriteFd(s, fd, buf).fs;
            Live(t, i) && Contents(t.nodes[i]) == Cap(Contents(s.nodes[i]) + Offered(s, OpWrite(fd, buf), i))
  {
    var n := s.nodes[i];
    var c := Contents(n);
    assert NodeOk(n);
    assert Cap(c + []) == c;
    if Writable(s, fd) && buf.Data? && s.fds[fd].nodeIdx == i && n.size < MAX_SIZE {
      var k := Min(|buf.bytes|, MAX_SIZE - n.size);
      StoredContents(n, n.size, buf.bytes[..k]);
      assert c[..n.size] == c && c[n.size..] == [];
      assert Cap(c + buf.bytes) == c + buf.bytes[..k];
    } else if n.size == MAX_SIZE && buf.Data? {
      assert Cap(c + buf.bytes) == c;
    }
  }

  lemma AppendStep(s: Fs, op: Op, i: int)
    requires Storage(s) && Live(s, i) && OnlyAppends(s, op, i)
    ensures var t := Exec(s, op).fs;
            Live(t, i) && Contents(t.nodes[i]) == Cap(Contents(s.nodes[i]) + Offered(s, op, i))
  {
    var t := Exec(s, op).fs;
    assert NodeOk(s.nodes[i]);
    if op.OpWrite? {
      AppendWrite(s, op.fd, op.buf, i);
    } else {
      assert Contents(s.nodes[i]) + [] == Contents(s.nodes[i]);
      Untouched(s, op, i);
    }
  }

  lemma Untouched(s: Fs, op: Op, i: int)
    requires Storage(s) && Live(s, i) && OnlyAppends(s, op, i) && !op.OpWrite?
    ensures Exec(s, op).fs.nodes[i] == s.nodes[i]
  {
    match op
    case OpOpen(name, flags, now) => OpenSpares(s, name, flags, now, i);
    case OpMkdir(name, now) => CreateSpares(s, name, Dir, now, i);
    case OpCreate(name, now) => CreateSpares(s, name, File, now, i);
    case OpRead(fd, hasBuf, n) => assert ReadFd(s, fd, hasBuf, n).fs.nodes == s.nodes;
    case _ =>
  }

  lemma CreateSpares(s: Fs, name: string, kind: Kind, now: nat, i: int)
    requires Storage(s) && Live(s, i)
    ensures var c := Create(s, name, kind, now).fs;
            c.nodes[i] == s.nodes[i] && c.cwd == s.cwd
  {
  }

  lemma OpenSpares(s: Fs, name: string, flags: bv32, now: nat, i: int)
    requires Storage(s) && Live(s, i) && (Has(flags, O_TRUNC) ==> FindNode(s, name) != i)
    ensures Open(s, name, flags, now).fs.nodes[i] == s.nodes[i]
  {
    CreateSpares(s, name, File, now, i);
    var c := Create(s, name, File, now).fs;
    assert Named(c, i, name) == Named(s, i, name);
  }

  lemma CapTwice(c: seq<char>, a: seq<char>, b: seq<char>)
    ensures Cap(Cap(c + a) + b) == Cap(c + (a + b))
  {
    assert c + (a + b) == (c + a) + b;
    if |c + a| > MAX_SIZE {
      assert (c + (a + b))[..MAX_SIZE] == (c + a)[..MAX_SIZE];
      assert (Cap(c + a) + b)[..MAX_SIZE] == (c + a)[..MAX_SIZE];
    }
  }

  /**
   Interleaved appends lose and reorder nothing: through any number of descriptors, with any other
   calls in between that do not rewrite or remove the file, it ends as what it was followed by the
   buffers in call order, cut to the first 4095 bytes.
   */
  lemma {:induction false} AppendsInOrder(s: Fs, ops: seq<Op>, i: int)
    requires Storage(s) && Live(s, i) && RunOnlyAppends(s, ops, i)
    ensures Live(Run(s, ops), i)
    ensures Contents(Run(s, ops).nodes[i]) == Cap(Contents(s.nodes[i]) + AllOffered(s, ops, i))
    decreases |ops|
  {
    var c := Contents(s.nodes[i]);
    assert NodeOk(s.nodes[i]);
    if ops == [] {
      assert c + [] == c;
    } else {
      AppendStep(s, ops[0], i);
      var t := Exec(s, ops[0]).fs;
      AppendsInOrder(t, ops[1..], i);
      var a := Offered(s, ops[0], i);
      var b := AllOffered(t, ops[1..], i);
      CapTwice(c, a, b);
    }
  }
}
