/**
 What every run of the filesystem keeps: the live nodes form a tree of directories rooted at
 slot 0, the current directory is a live directory, and siblings have different names.
 The table stores parents only; depth is the witness that parent chains are acyclic.
 */
module FsInvariant {
  import opened CString
  import opened FsModel

  ghost predicate LiveDir(s: Fs, i: int) { Live(s, i) && s.nodes[i].kind.Dir? }

  /** Node i hangs below a live directory, one level deeper. */
  ghost predicate Placed(s: Fs, depth: seq<nat>, i: int)
    requires |depth| == |s.nodes| && 0 <= i < |depth|
  {
    var p := s.nodes[i].parent;
    LiveDir(s, p) && depth[i] == depth[p] + 1 && !s.nodes[i].kind.Untyped?
  }

  ghost predicate TreeOk(s: Fs, depth: seq<nat>)
    requires Storage(s)
  {
    && |depth| == FS_MAX_FILES
    && depth[0] == 0
    && LiveDir(s, 0)
    && Text(s.nodes[0].name) == "/"
    && LiveDir(s, s.cwd)
    && (forall i :: 1 <= i < FS_MAX_FILES && Live(s, i) ==> Placed(s, depth, i))
  }

  ghost predicate NamesOk(s: Fs)
    requires Storage(s)
  {
    && (forall i :: Live(s, i) ==> Text(s.nodes[i].name) != "")
    && (forall i, j :: Live(s, i) && Live(s, j) && i != j && s.nodes[i].parent == s.nodes[j].parent
          ==> Text(s.nodes[i].name) != Text(s.nodes[j].name))
  }

  ghost predicate Inv(s: Fs) {
    Storage(s) && NamesOk(s) && exists depth :: TreeOk(s, depth)
  }

  /** Names reach the calls as texts of C strings. */
  ghost predicate ProperOp(op: Op) {
    match op
    case OpMkdir(name, _) => '\0' !in name
    case OpCreate(name, _) => '\0' !in name
    case OpOpen(name, _, _) => '\0' !in name
    case _ => true
  }

  /** The two states hold the same tree; bytes, sizes and descriptors may differ. */
  ghost predicate SameTree(s: Fs, t: Fs) {
    && |s.nodes| == |t.nodes|
    && s.cwd == t.cwd
    && (forall i :: 0 <= i < |s.nodes| ==>
          && s.nodes[i].name == t.nodes[i].name
          && s.nodes[i].kind == t.nodes[i].kind
          && s.nodes[i].parent == t.nodes[i].parent
          && s.nodes[i].inUse == t.nodes[i].inUse)
  }

  lemma SameTreeKeeps(s: Fs, t: Fs)
    requires Inv(s) && Storage(t) && SameTree(s, t)
    ensures Inv(t)
  {
    var depth :| TreeOk(s, depth);
    forall i | 1 <= i < FS_MAX_FILES && Live(t, i)
      ensures Placed(t, depth, i)
    {
      assert Live(s, i) && Placed(s, depth, i);
    }
    assert TreeOk(t, depth);
    assert forall i :: Live(t, i) ==> Live(s, i);
  }

  lemma CreateTree(s: Fs, depth: seq<nat>, n: Node, idx: int)
    requires Storage(s) && TreeOk(s, depth) && 1 <= idx < FS_MAX_FILES && !Live(s, idx)
    requires NodeOk(n) && n.parent == s.cwd && !n.kind.Untyped?
    ensures TreeOk(SetNode(s, idx, n), depth[idx := depth[s.cwd] + 1])
  {
    var t := SetNode(s, idx, n);
    forall i | 1 <= i < FS_MAX_FILES && Live(t, i)
      ensures Placed(t, depth[idx := depth[s.cwd] + 1], i)
    {
      if i != idx { assert Live(s, i) && Placed(s, depth, i); }
    }
  }

  lemma CreateNames(s: Fs, n: Node, idx: int)
    requires Storage(s) && NamesOk(s) && 1 <= idx < FS_MAX_FILES && NodeOk(n)
    requires n.parent == s.cwd && Text(n.name) != ""
    requires forall j :: 0 <= j < FS_MAX_FILES ==> !Named(s, j, Text(n.name))
    ensures NamesOk(SetNode(s, idx, n))
  {
    var t := SetNode(s, idx, n);
    forall i | Live(t, i)
      ensures Text(t.nodes[i].name) != ""
    {
      if i != idx { assert Live(s, i); }
    }
    forall i, j | Live(t, i) && Live(t, j) && i != j && t.nodes[i].parent == t.nodes[j].parent
      ensures Text(t.nodes[i].name) != Text(t.nodes[j].name)
    {
      assert i != idx ==> Live(s, i) && !Named(s, i, Text(n.name));
      assert j != idx ==> Live(s, j) && !Named(s, j, Text(n.name));
    }
  }

  lemma CreateKeeps(s: Fs, name: string, kind: Kind, now: nat)
    requires Inv(s) && '\0' !in name && kind != Untyped
    ensures Inv(Create(s, name, kind, now).fs)
  {
    var idx := NewSlot(s, name);
    if idx >= 0 {
      var n := NewNode(s.nodes[idx], name, kind, s.cwd, now);
      NewNodeOk(s, idx, name, kind, now);
      var depth :| TreeOk(s, depth);
      CreateTree(s, depth, n, idx);
      CreateNames(s, n, idx);
    }
  }

  lemma NewNodeOk(s: Fs, idx: int, name: string, kind: Kind, now: nat)
    requires Storage(s) && 0 <= idx < FS_MAX_FILES && '\0' !in name && 0 < |name| < FS_MAX_NAME
    ensures var n := NewNode(s.nodes[idx], name, kind, s.cwd, now);
            NodeOk(n) && n.parent == s.cwd && Text(n.name) == name && n.kind == kind
  {
    assert NodeOk(s.nodes[idx]);
  }

  lemma DiscardTree(s: Fs, depth: seq<nat>, idx: int)
    requires Storage(s) && TreeOk(s, depth)
    requires 1 <= idx < FS_MAX_FILES && idx != s.cwd && !HasChild(s, idx)
    ensures TreeOk(Discard(s, idx), depth)
  {
    var t := Discard(s, idx);
    forall i | 1 <= i < FS_MAX_FILES && Live(t, i)
      ensures Placed(t, depth, i)
    {
      assert Live(s, i) && Placed(s, depth, i);
      assert !ChildOf(s, i, idx);
    }
  }

  /** Clearing a node that is neither the root, nor the current directory, nor a parent. */
  lemma DiscardKeeps(s: Fs, idx: int)
    requires Inv(s) && 1 <= idx < FS_MAX_FILES && idx != s.cwd && !HasChild(s, idx)
    ensures Inv(Discard(s, idx))
  {
    var depth :| TreeOk(s, depth);
    DiscardTree(s, depth, idx);
    DiscardNames(s, idx);
  }

  lemma DiscardNames(s: Fs, idx: int)
    requires Storage(s) && NamesOk(s) && 0 <= idx < FS_MAX_FILES
    ensures NamesOk(Discard(s, idx))
  {
    var t := Discard(s, idx);
    assert forall i :: Live(t, i) ==> Live(s, i) && t.nodes[i] == s.nodes[i];
  }

  /** A node found under the current directory is not that directory, and a file has no children. */
  lemma FoundIsBelow(s: Fs, name: string)
    requires Inv(s) && FindNode(s, name) >= 0
    ensures FindNode(s, name) != s.cwd
    ensures s.nodes[FindNode(s, name)].kind.File? ==> !HasChild(s, FindNode(s, name))
  {
    var idx := FindNode(s, name);
    var depth :| TreeOk(s, depth);
    assert Named(s, idx, name) && Placed(s, depth, idx);
    if s.nodes[idx].kind.File? {
      forall i | 0 <= i < |s.nodes|
        ensures !ChildOf(s, i, idx)
      {
        if i > 0 && Live(s, i) { assert Placed(s, depth, i); }
      }
    }
  }

  lemma RemovalKeeps(s: Fs, name: string)
    requires Inv(s)
    ensures Inv(Delete(s, name).fs) && Inv(Unlink(s, name).fs) && Inv(Rmdir(s, name).fs)
  {
    var idx := FindNode(s, name);
    if idx >= 0 {
      FoundIsBelow(s, name);
      if !HasChild(s, idx) {
        DiscardKeeps(s, idx);
      }
      var depth :| TreeOk(s, depth);
      assert Live(s, idx) && Placed(s, depth, idx);
    }
  }

  lemma CdTarget(s: Fs, depth: seq<nat>, name: string)
    requires Storage(s) && TreeOk(s, depth)
    ensures var t := Cd(s, name).fs;
            t == s.(cwd := t.cwd) && LiveDir(s, t.cwd)
  {
    var t := Cd(s, name).fs;
    if name == ".." && s.cwd > 0 {
      assert Live(s, s.cwd) && Placed(s, depth, s.cwd);
    } else if t.cwd == FindNode(s, name) {
      assert Named(s, t.cwd, name);
    }
  }

  lemma MoveKeeps(s: Fs, depth: seq<nat>, dir: int)
    requires Storage(s) && TreeOk(s, depth) && NamesOk(s) && LiveDir(s, dir)
    ensures Storage(s.(cwd := dir)) && TreeOk(s.(cwd := dir), depth) && NamesOk(s.(cwd := dir))
  {
    var t := s.(cwd := dir);
    forall i | 1 <= i < FS_MAX_FILES && Live(t, i)
      ensures Placed(t, depth, i)
    {
      assert Live(s, i) && Placed(s, depth, i);
    }
    assert forall i :: Live(t, i) ==> Live(s, i);
  }

  lemma CdKeeps(s: Fs, name: string)
    requires Inv(s)
    ensures Inv(Cd(s, name).fs)
  {
    var depth :| TreeOk(s, depth);
    CdTarget(s, depth, name);
    MoveKeeps(s, depth, Cd(s, name).fs.cwd);
  }

  lemma OpenAtKeeps(s: Fs, idx: int, flags: bv32)
    requires Inv(s) && 1 <= idx < FS_MAX_FILES
    ensures Inv(OpenAt(s, idx, flags).fs)
  {
    OpenAtBytes(s, idx, flags);
    SameTreeKeeps(s, OpenAt(s, idx, flags).fs);
  }

  lemma OpenAtBytes(s: Fs, idx: int, flags: bv32)
    requires Storage(s) && 1 <= idx < FS_MAX_FILES
    ensures SameTree(s, OpenAt(s, idx, flags).fs)
  {
  }

  lemma OpenKeeps(s: Fs, name: string, flags: bv32, now: nat)
    requires Inv(s) && '\0' !in name
    ensures Inv(Open(s, name, flags, now).fs)
  {
    CreateKeeps(s, name, File, now);
    var c := Create(s, name, File, now).fs;
    if FindNode(s, name) >= 0 {
      OpenAtKeeps(s, FindNode(s, name), flags);
    } else if FindNode(c, name) >= 0 {
      OpenAtKeeps(c, FindNode(c, name), flags);
    }
  }

  /** Calls on descriptors move offsets and bytes only. */
  lemma OffsetsOnly(s: Fs, op: Op)
    requires Storage(s) && (op.OpClose? || op.OpRead? || op.OpSeek?)
    ensures Exec(s, op).fs.nodes == s.nodes && Exec(s, op).fs.cwd == s.cwd
  {
    match op
    case OpClose(fd) => assert Close(s, fd).fs.nodes == s.nodes;
    case OpRead(fd, hasBuf, n) => assert ReadFd(s, fd, hasBuf, n).fs.nodes == s.nodes;
    case OpSeek(fd, offset, whence) => assert Lseek(s, fd, offset, whence).fs.nodes == s.nodes;
  }

  lemma WriteFdBytes(s: Fs, fd: int, buf: CData)
    requires Storage(s)
    ensures SameTree(s, WriteFd(s, fd, buf).fs)
  {
  }

  lemma WriteFileBytes(s: Fs, name: string, data: seq<char>)
    requires Storage(s)
    ensures SameTree(s, WriteFile(s, name, data).fs)
  {
  }

  lemma BytesOnly(s: Fs, op: Op)
    requires Storage(s) && (op.OpClose? || op.OpRead? || op.OpSeek? || op.OpWrite? || op.OpWriteFile?)
    ensures SameTree(s, Exec(s, op).fs)
  {
    match op
    case OpWriteFile(name, data) => WriteFileBytes(s, name, data);
    case OpWrite(fd, buf) => WriteFdBytes(s, fd, buf);
    case _ => OffsetsOnly(s, op);
  }

  /** Every call keeps the invariant. */
  lemma StepKeeps(s: Fs, op: Op)
    requires Inv(s) && ProperOp(op)
    ensures Inv(Exec(s, op).fs)
  {
    match op
    case OpMkdir(name, now) => CreateKeeps(s, name, Dir, now);
    case OpCreate(name, now) => CreateKeeps(s, name, File, now);
    case OpDelete(name) => RemovalKeeps(s, name);
    case OpUnlink(name) => RemovalKeeps(s, name);
    case OpRmdir(name) => RemovalKeeps(s, name);
    case OpCd(name) => CdKeeps(s, name);
    case OpOpen(name, flags, now) => OpenKeeps(s, name, flags, now);
    case _ =>
      BytesOnly(s, op);
      SameTreeKeeps(s, Exec(s, op).fs);
  }

  // ---- Boot and whole runs ----

  function ZeroNode(): Node {
    Node(seq(FS_MAX_NAME, _ => '\0'), Untyped, 0, seq(FS_MAX_DATA, _ => '\0'), 0, false, 0)
  }

  /** The tables after fs_init has zeroed them and set up the root. */
  function Blank(): (s: Fs)
    ensures Storage(s)
  {
    var root := ZeroNode().(name := NameBuf("/"), kind := Dir, parent := -1, inUse := true);
    Fs(seq(FS_MAX_FILES, i => if i == 0 then root else ZeroNode()),
       seq(FS_MAX_FDS, _ => Fd(-1, 0, 0, false)), 0)
  }

  const WELCOME := "Welcome to MyMisu OS!\nThis is a simple ramdisk filesystem.\nType 'help' for commands.\n"
  const VERSION := "MyMisu OS v2.0.6"

  function FileCalls(name: string, text: string, now: nat): seq<Op> {
    [OpCreate(name, now)] + [OpWriteFile(name, text)]
  }

  function DirCalls(now: nat): seq<Op> {
    [OpMkdir("home", now)] + [OpMkdir("bin", now)] + [OpMkdir("etc", now)] + [OpMkdir("tmp", now)]
  }

  /** The calls fs_init then makes on itself. */
  function BootCalls(now: nat): seq<Op> {
    DirCalls(now) + FileCalls("readme.txt", WELCOME, now) + FileCalls("hostname", "misu-pc", now)
    + FileCalls("version", VERSION, now)
  }

  function Booted(now: nat): (s: Fs)
    ensures Storage(s)
  {
    Run(Blank(), BootCalls(now))
  }

  lemma {:induction false} RunAppend(s: Fs, a: seq<Op>, b: seq<Op>)
    requires Storage(s)
    ensures Run(s, a + b) == Run(Run(s, a), b)
    decreases |a|
  {
    if a == [] {
      assert a + b == b;
    } else {
      assert (a + b)[0] == a[0] && (a + b)[1..] == a[1..] + b;
      RunAppend(Exec(s, a[0]).fs, a[1..], b);
    }
  }

  lemma RunOne(s: Fs, op: Op)
    requires Storage(s)
    ensures Run(s, [op]) == Exec(s, op).fs
  {
    assert [op][1..] == [];
    assert Run(Exec(s, op).fs, []) == Exec(s, op).fs;
  }

  lemma BlankOk()
    ensures Inv(Blank())
  {
    var depth := seq(FS_MAX_FILES, _ => 0);
    assert forall i :: Live(Blank(), i) ==> i == 0;
    assert TreeOk(Blank(), depth);
  }

  lemma {:induction false} RunKeeps(s: Fs, ops: seq<Op>)
    requires Inv(s) && forall op <- ops :: ProperOp(op)
    ensures Inv(Run(s, ops))
    decreases |ops|
  {
    if ops != [] {
      StepKeeps(s, ops[0]);
      RunKeeps(Exec(s, ops[0]).fs, ops[1..]);
    }
  }

  lemma BootCallsProper(now: nat)
    ensures forall op <- BootCalls(now) :: ProperOp(op)
  {
    assert '\0' !in "home" && '\0' !in "bin" && '\0' !in "etc" && '\0' !in "tmp";
    assert '\0' !in "readme.txt" && '\0' !in "hostname" && '\0' !in "version";
  }

  lemma BootOk(now: nat)
    ensures Inv(Booted(now))
  {
    BlankOk();
    BootCallsProper(now);
    RunKeeps(Blank(), BootCalls(now));
  }

  /** After fs_init and any sequence of calls, in any order and with any outcome. */
  lemma EveryRun(now: nat, ops: seq<Op>)
    requires forall op <- ops :: ProperOp(op)
    ensures Inv(Run(Booted(now), ops))
    ensures |Run(Booted(now), ops).nodes| == 64 && |Run(Booted(now), ops).fds| == 16
  {
    BootOk(now);
    RunKeeps(Booted(now), ops);
  }
}
