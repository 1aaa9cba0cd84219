/**
 The state of the ramdisk (src/fs.c) as a value, and what each call does to it. The class in
 FileSystem.dfy is proved to compute these functions; the other Fs modules prove what they promise.
 */
module FsModel {
  import opened Errno
  import opened CString
  import opened Search

  const FS_MAX_FILES := 64
  const FS_MAX_NAME := 32
  const FS_MAX_DATA := 4096
  const FS_MAX_FDS := 16

  const O_RDONLY: bv32 := 0x0000
  const O_WRONLY: bv32 := 0x0001
  const O_CREAT: bv32 := 0x0040
  const O_TRUNC: bv32 := 0x0200
  const O_APPEND: bv32 := 0x0400

  const SEEK_SET := 0
  const SEEK_CUR := 1
  const SEEK_END := 2

  type int32 = x: int | -0x8000_0000 <= x < 0x8000_0000

  /** The value a 32-bit signed register keeps of x. */
  function ToInt32(x: int): int32 {
    var low := x % 0x1_0000_0000;
    if low < 0x8000_0000 then low else low - 0x1_0000_0000
  }

  /** Kind of a node; Untyped is the zero a fresh table holds. */
  datatype Kind = Untyped | File | Dir

  datatype Node = Node(
    name: seq<char>,
    kind: Kind,
    size: nat,
    data: seq<char>,
    parent: int,
    inUse: bool,
    createdTick: nat
  )

  datatype Fd = Fd(nodeIdx: int, offset: nat, flags: bv32, inUse: bool)

  datatype Fs = Fs(nodes: seq<Node>, fds: seq<Fd>, cwd: int)

  /** The state a call leaves and the number it returns. */
  datatype Ret = Ret(fs: Fs, rc: int)

  /** The same with the bytes a read hands over. */
  datatype ReadRet = ReadRet(fs: Fs, rc: int, bytes: seq<char>)

  predicate Has(flags: bv32, bit: bv32) { flags & bit != 0 }

  function Access(flags: bv32): bv32 { flags & 0x3 }

  /** Storage bounds of one node: fixed buffers, capped size, a NUL behind a live file's bytes. */
  ghost predicate NodeOk(n: Node) {
    && |n.name| == FS_MAX_NAME
    && n.name[FS_MAX_NAME - 1] == '\0'
    && |n.data| == FS_MAX_DATA
    && n.size < FS_MAX_DATA
    && -1 <= n.parent < FS_MAX_FILES
    && (n.inUse && n.kind.File? ==> n.data[n.size] == '\0')
  }

  ghost predicate FdOk(f: Fd) {
    f.inUse ==> 1 <= f.nodeIdx < FS_MAX_FILES && f.offset < FS_MAX_DATA
  }

  ghost predicate Storage(s: Fs) {
    && |s.nodes| == FS_MAX_FILES
    && |s.fds| == FS_MAX_FDS
    && 0 <= s.cwd < FS_MAX_FILES
    && s.nodes[0].parent == -1
    && (forall i :: 0 <= i < FS_MAX_FILES ==> NodeOk(s.nodes[i]))
    && (forall d :: 0 <= d < FS_MAX_FDS ==> FdOk(s.fds[d]))
  }

  // ---- Searches ----

  predicate Live(s: Fs, i: int) { 0 <= i < |s.nodes| && s.nodes[i].inUse }

  predicate ChildOf(s: Fs, i: int, dir: int) { Live(s, i) && s.nodes[i].parent == dir }

  predicate Named(s: Fs, i: int, name: string) { ChildOf(s, i, s.cwd) && Text(s.nodes[i].name) == name }

  function FreeNode(s: Fs): (r: int)
    requires Storage(s)
    ensures r == -1 || 1 <= r < FS_MAX_FILES
    ensures r != -1 ==> !Live(s, r)
    ensures forall j :: 1 <= j < (if r == -1 then FS_MAX_FILES else r) ==> Live(s, j)
  {
    First(s.nodes, (n: Node) => !n.inUse, 1)
  }

  function FindNode(s: Fs, name: string): (r: int)
    requires Storage(s)
    ensures r == -1 || 1 <= r < FS_MAX_FILES
    ensures r != -1 ==> Named(s, r, name)
    ensures forall j :: 0 <= j < (if r == -1 then FS_MAX_FILES else r) ==> !Named(s, j, name)
  {
    First(s.nodes, (n: Node) => n.inUse && n.parent == s.cwd && Text(n.name) == name, 0)
  }

  function FreeFd(s: Fs): (r: int)
    requires Storage(s)
    ensures r == -1 || 0 <= r < FS_MAX_FDS
    ensures r != -1 ==> !s.fds[r].inUse
    ensures forall j :: 0 <= j < (if r == -1 then FS_MAX_FDS else r) ==> s.fds[j].inUse
  {
    First(s.fds, (f: Fd) => !f.inUse, 0)
  }

  predicate HasChild(s: Fs, dir: int) { exists i :: 0 <= i < |s.nodes| && ChildOf(s, i, dir) }

  predicate OpenFd(s: Fs, fd: int) { 0 <= fd < |s.fds| && s.fds[fd].inUse }

  // ---- Node calls ----

  /** What strncpy and the explicit terminator leave in the name buffer. */
  function NameBuf(name: string): (b: seq<char>)
    requires |name| < FS_MAX_NAME
    ensures |b| == FS_MAX_NAME && b[FS_MAX_NAME - 1] == '\0'
    ensures '\0' !in name ==> Text(b) == name
  {
    var b := name + seq(FS_MAX_NAME - |name|, _ => '\0');
    assert '\0' !in name ==> Text(b) == name by {
      if '\0' !in name {
        assert b[..|name|] == name;
        TextIs(b, |name|);
      }
    }
    b
  }

  function NewNode(prev: Node, name: string, kind: Kind, dir: int, now: nat): Node
    requires |name| < FS_MAX_NAME && |prev.data| == FS_MAX_DATA
  {
    Node(NameBuf(name), kind, 0, if kind.File? then prev.data[0 := '\0'] else prev.data, dir, true, now)
  }

  /** The checks that fs_mkdir and fs_create_file begin with: the slot to use, or a negative error. */
  function NewSlot(s: Fs, name: string): (r: int)
    requires Storage(s)
    ensures r < 0 || (1 <= r < FS_MAX_FILES && !Live(s, r) && name != "" && |name| < FS_MAX_NAME)
  {
    if name == "" then -EINVAL
    else if |name| >= FS_MAX_NAME then -ENAMETOOLONG
    else if FindNode(s, name) >= 0 then -EEXIST
    else if FreeNode(s) < 0 then -ENOSPC
    else FreeNode(s)
  }

  /** fs_mkdir (kind Dir) and fs_create_file (kind File). */
  function Create(s: Fs, name: string, kind: Kind, now: nat): (r: Ret)
    requires Storage(s)
    ensures Storage(r.fs)
  {
    var idx := NewSlot(s, name);
    if idx < 0 then Ret(s, idx)
    else Ret(SetNode(s, idx, NewNode(s.nodes[idx], name, kind, s.cwd, now)), 0)
  }

  function SetNode(s: Fs, i: int, n: Node): Fs
    requires 0 <= i < |s.nodes|
  {
    s.(nodes := s.nodes[i := n])
  }

  function Discard(s: Fs, i: int): (r: Fs)
    requires Storage(s) && 0 <= i < FS_MAX_FILES
    ensures Storage(r)
  {
    SetNode(s, i, s.nodes[i].(inUse := false))
  }

  function Delete(s: Fs, name: string): (r: Ret)
    requires Storage(s)
    ensures Storage(r.fs)
  {
    var idx := FindNode(s, name);
    if idx < 0 || idx == 0 then Ret(s, -ENOENT)
    else if s.nodes[idx].kind.Dir? && HasChild(s, idx) then Ret(s, -ENOTEMPTY)
    else Ret(Discard(s, idx), 0)
  }

  function Unlink(s: Fs, name: string): (r: Ret)
    requires Storage(s)
    ensures Storage(r.fs)
  {
    var idx := FindNode(s, name);
    if idx < 0 || idx == 0 then Ret(s, -ENOENT)
    else if !s.nodes[idx].kind.File? then Ret(s, -EISDIR)
    else Ret(Discard(s, idx), 0)
  }

  function Rmdir(s: Fs, name: string): (r: Ret)
    requires Storage(s)
    ensures Storage(r.fs)
  {
    var idx := FindNode(s, name);
    if idx < 0 || idx == 0 then Ret(s, -ENOENT)
    else if !s.nodes[idx].kind.Dir? then Ret(s, -ENOTDIR)
    else if HasChild(s, idx) then Ret(s, -ENOTEMPTY)
    else Ret(Discard(s, idx), 0)
  }

  function Cd(s: Fs, name: string): (r: Ret)
    requires Storage(s)
    ensures Storage(r.fs)
  {
    if name == ".." then
      Ret(if s.nodes[s.cwd].parent >= 0 then s.(cwd := s.nodes[s.cwd].parent) else s, 0)
    else if name == "/" then Ret(s.(cwd := 0), 0)
    else
      var idx := FindNode(s, name);
      if idx < 0 then Ret(s, -ENOENT)
      else if !s.nodes[idx].kind.Dir? then Ret(s, -ENOTDIR)
      else Ret(s.(cwd := idx), 0)
  }

  function WriteFile(s: Fs, name: string, data: seq<char>): (r: Ret)
    requires Storage(s)
    ensures Storage(r.fs)
  {
    var idx := FindNode(s, name);
    if idx < 0 then Ret(s, -ENOENT)
    else if !s.nodes[idx].kind.File? then Ret(s, -EISDIR)
    else
      var n := if |data| >= FS_MAX_DATA then FS_MAX_DATA - 1 else |data|;
      var d := Splice(s.nodes[idx].data, 0, data[..n])[n := '\0'];
      Ret(SetNode(s, idx, s.nodes[idx].(data := d, size := n)), n)
  }

  /** The bytes fs_read_file hands over before its terminating NUL, for a buffer of maxLen bytes. */
  function ReadFile(s: Fs, name: string, maxLen: nat): (r: ReadRet)
    requires Storage(s) && 0 < maxLen
  {
    var idx := FindNode(s, name);
    if idx < 0 then ReadRet(s, -ENOENT, [])
    else if !s.nodes[idx].kind.File? then ReadRet(s, -EISDIR, [])
    else
      var n := if s.nodes[idx].size >= maxLen then maxLen - 1 else s.nodes[idx].size;
      ReadRet(s, n, s.nodes[idx].data[..n])
  }

  // ---- Descriptor calls ----

  function Truncated(n: Node): Node
    requires |n.data| == FS_MAX_DATA
  {
    n.(size := 0, data := n.data[0 := '\0'])
  }

  /** The part of fs_open that follows the lookup. */
  function OpenAt(s: Fs, idx: int, flags: bv32): (r: Ret)
    requires Storage(s) && 1 <= idx < FS_MAX_FILES
    ensures Storage(r.fs)
  {
    if !s.nodes[idx].kind.File? then Ret(s, -EISDIR)
    else
      var t := if Has(flags, O_TRUNC) then SetNode(s, idx, Truncated(s.nodes[idx])) else s;
      var fd := FreeFd(t);
      if fd < 0 then Ret(t, -EMFILE)
      else
        var f := Fd(idx, if Has(flags, O_APPEND) then t.nodes[idx].size else 0, flags, true);
        Ret(t.(fds := t.fds[fd := f]), fd)
  }

  function Open(s: Fs, name: string, flags: bv32, now: nat): (r: Ret)
    requires Storage(s)
    ensures Storage(r.fs)
  {
    if name == "" then Ret(s, -EINVAL)
    else
      var idx := FindNode(s, name);
      if idx >= 0 then OpenAt(s, idx, flags)
      else if !Has(flags, O_CREAT) then Ret(s, -ENOENT)
      else
        var c := Create(s, name, File, now);
        if c.rc < 0 then c
        else
          var made := FindNode(c.fs, name);
          if made < 0 then Ret(c.fs, -EIO) else OpenAt(c.fs, made, flags)
  }

  function Close(s: Fs, fd: int): (r: Ret)
    requires Storage(s)
    ensures Storage(r.fs)
  {
    if !OpenFd(s, fd) then Ret(s, -EBADF)
    else Ret(s.(fds := s.fds[fd := s.fds[fd].(inUse := false, nodeIdx := -1)]), 0)
  }

  /** fs_read_fd; hasBuf is false for a null buffer. */
  function ReadFd(s: Fs, fd: int, hasBuf: bool, n: nat): (r: ReadRet)
    requires Storage(s)
    ensures Storage(r.fs)
    ensures r.rc >= 0 ==> r.rc == |r.bytes| <= n
  {
    if !OpenFd(s, fd) then ReadRet(s, -EBADF, [])
    else if !hasBuf then ReadRet(s, -EFAULT, [])
    else
      var f := s.fds[fd];
      var node := s.nodes[f.nodeIdx];
      if Access(f.flags) == O_WRONLY then ReadRet(s, -EACCES, [])
      else if f.offset >= node.size then ReadRet(s, 0, [])
      else
        var avail := node.size - f.offset;
        var k := if n < avail then n else avail;
        ReadRet(s.(fds := s.fds[fd := f.(offset := f.offset + k)]), k, node.data[f.offset..f.offset + k])
  }

  /** Where a write through f starts. */
  function WriteStart(f: Fd, node: Node): nat {
    if Has(f.flags, O_APPEND) then node.size else f.offset
  }

  /** The node after buf has been stored from position at on. */
  function Stored(node: Node, at: nat, buf: seq<char>): (r: Node)
    requires |node.data| == FS_MAX_DATA && at + |buf| < FS_MAX_DATA && node.size < FS_MAX_DATA
    ensures NodeOk(node) ==> NodeOk(r)
  {
    var size := if at + |buf| > node.size then at + |buf| else node.size;
    node.(size := size, data := Splice(node.data, at, buf)[size := '\0'])
  }

  /** fs_write_fd; data is NoData for a null buffer. */
  function WriteFd(s: Fs, fd: int, data: CData): (r: Ret)
    requires Storage(s)
    ensures Storage(r.fs)
  {
    if !OpenFd(s, fd) then Ret(s, -EBADF)
    else if data.NoData? then Ret(s, -EFAULT)
    else
      var f := s.fds[fd];
      var node := s.nodes[f.nodeIdx];
      if Access(f.flags) == O_RDONLY then Ret(s, -EACCES)
      else
        var at := WriteStart(f, node);
        if at >= FS_MAX_DATA - 1 then Ret(s.(fds := s.fds[fd := f.(offset := at)]), -ENOSPC)
        else
          var space := FS_MAX_DATA - 1 - at;
          var k := if |data.bytes| < space then |data.bytes| else space;
          Ret(s.(nodes := s.nodes[f.nodeIdx := Stored(node, at, data.bytes[..k])],
                 fds := s.fds[fd := f.(offset := at + k)]), k)
  }

  /** The bytes a caller offers; NoData is a null pointer. */
  datatype CData = NoData | Data(bytes: seq<char>)

  /** fs_lseek, with the 32-bit sum of the C code. */
  function Lseek(s: Fs, fd: int, offset: int32, whence: int): (r: Ret)
    requires Storage(s)
    ensures Storage(r.fs)
  {
    if !OpenFd(s, fd) then Ret(s, -EBADF)
    else if whence !in {SEEK_SET, SEEK_CUR, SEEK_END} then Ret(s, -EINVAL)
    else
      var f := s.fds[fd];
      var base := if whence == SEEK_SET then 0 else if whence == SEEK_CUR then f.offset else s.nodes[f.nodeIdx].size;
      var to := ToInt32(base + offset);
      if to < 0 || to > FS_MAX_DATA - 1 then Ret(s, -EINVAL)
      else Ret(s.(fds := s.fds[fd := f.(offset := to)]), to)
  }

  // ---- Runs ----

  /** One call, with the tick at which it happens where the call records it. */
  datatype Op =
    | OpMkdir(name: string, now: nat)
    | OpCreate(name: string, now: nat)
    | OpWriteFile(name: string, data: seq<char>)
    | OpDelete(name: string)
    | OpUnlink(name: string)
    | OpRmdir(name: string)
    | OpCd(name: string)
    | OpOpen(name: string, flags: bv32, now: nat)
    | OpClose(fd: int)
    | OpRead(fd: int, hasBuf: bool, n: nat)
    | OpWrite(fd: int, buf: CData)
    | OpSeek(fd: int, offset: int32, whence: int)

  function Exec(s: Fs, op: Op): (r: Ret)
    requires Storage(s)
    ensures Storage(r.fs)
  {
    match op
    case OpMkdir(name, now) => Create(s, name, Dir, now)
    case OpCreate(name, now) => Create(s, name, File, now)
    case OpWriteFile(name, data) => WriteFile(s, name, data)
    case OpDelete(name) => Delete(s, name)
    case OpUnlink(name) => Unlink(s, name)
    case OpRmdir(name) => Rmdir(s, name)
    case OpCd(name) => Cd(s, name)
    case OpOpen(name, flags, now) => Open(s, name, flags, now)
    case OpClose(fd) => Close(s, fd)
    case OpRead(fd, hasBuf, n) => var r := ReadFd(s, fd, hasBuf, n); Ret(r.fs, r.rc)
    case OpWrite(fd, buf) => WriteFd(s, fd, buf)
    case OpSeek(fd, offset, whence) => Lseek(s, fd, offset, whence)
  }

  function Run(s: Fs, ops: seq<Op>): (r: Fs)
    requires Storage(s)
    ensures Storage(r)
    decreases |ops|, s
  {
    if ops == [] then s else Run(Exec(s, ops[0]).fs, ops[1..])
  }
}
