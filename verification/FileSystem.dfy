/** src/fs.c: the static tables and the calls that update them in place. */
module FileSystem {
  import opened Errno
  import opened CString
  import opened FsModel
  import opened FsInvariant
  import opened Listing

  /** The buffer a string literal denotes. */
  function Lit(text: string): (b: seq<char>)
    requires '\0' !in text
    ensures IsCString(b) && Text(b) == text
  {
    var b := text + "\0";
    assert b[|text|] == '\0' && b[..|text|] == text;
    TextIs(b, |text|);
    b
  }

  /** Creating fills the free slot and touches nothing else. */
  lemma CreateFills(s: Fs, nodes: seq<Node>, idx: int, name: string, kind: Kind, now: nat)
    requires Storage(s) && idx == NewSlot(s, name) && 0 <= idx
    requires nodes == s.nodes[idx := NewNode(s.nodes[idx], name, kind, s.cwd, now)]
    ensures Ret(Fs(nodes, s.fds, s.cwd), 0) == Create(s, name, kind, now)
  {
  }

  class Ramdisk {
    const nodes: array<Node>
    const fds: array<Fd>
    var cwd: int

    ghost function State(): Fs
      reads this, nodes, fds
    {
      Fs(nodes[..], fds[..], cwd)
    }

    /** The storage bounds: all that the array accesses below need. The tree is FsInvariant's subject. */
    ghost predicate Valid()
      reads this, nodes, fds
    {
      Storage(State())
    }

    /** fs_init at tick `now`: zeroed tables, the root, and ten calls that populate it. */
    constructor (now: nat)
      ensures Valid() && fresh(nodes) && fresh(fds)
      ensures State() == Booted(now)
    {
      nodes := new Node[FS_MAX_FILES](_ => ZeroNode());
      fds := new Fd[FS_MAX_FDS](_ => Fd(-1, 0, 0, false));
      cwd := 0;
      new;
      nodes[0] := nodes[0].(name := NameBuf("/"), kind := Dir, parent := -1, inUse := true);
      assert nodes[..] == Blank().nodes && fds[..] == Blank().fds;
      Populate(now);
    }

    method Populate(now: nat)
      requires Valid()
      modifies nodes
      ensures State() == Run(old(State()), BootCalls(now))
    {
      ghost var s := State();
      PopulateDirs(now);
      PopulateFile("readme.txt", WELCOME, now);
      RunAppend(s, DirCalls(now), FileCalls("readme.txt", WELCOME, now));
      PopulateFile("hostname", "misu-pc", now);
      RunAppend(s, DirCalls(now) + FileCalls("readme.txt", WELCOME, now), FileCalls("hostname", "misu-pc", now));
      PopulateFile("version", VERSION, now);
      RunAppend(s, DirCalls(now) + FileCalls("readme.txt", WELCOME, now) + FileCalls("hostname", "misu-pc", now),
                FileCalls("version", VERSION, now));
    }

    method PopulateDirs(now: nat)
      requires Valid()
      modifies nodes
      ensures State() == Run(old(State()), DirCalls(now))
    {
      ghost var s := State();
      var home, bin, etc, tmp := OpMkdir("home", now), OpMkdir("bin", now), OpMkdir("etc", now), OpMkdir("tmp", now);
      PopulateDir("home", now);
      PopulateDir("bin", now);
      RunAppend(s, [home], [bin]);
      PopulateDir("etc", now);
      RunAppend(s, [home] + [bin], [etc]);
      PopulateDir("tmp", now);
      RunAppend(s, [home] + [bin] + [etc], [tmp]);
    }

    method PopulateDir(name: string, now: nat)
      requires Valid() && '\0' !in name
      modifies nodes
      ensures State() == Run(old(State()), [OpMkdir(name, now)])
    {
      RunOne(State(), OpMkdir(name, now));
      var rc := Mkdir(At(Lit(name)), now);
    }

    method PopulateFile(name: string, text: string, now: nat)
      requires Valid() && '\0' !in name
      modifies nodes
      ensures State() == Run(old(State()), FileCalls(name, text, now))
    {
      ghost var s := State();
      var rc := CreateFile(At(Lit(name)), now);
      RunOne(s, OpCreate(name, now));
      RunOne(State(), OpWriteFile(name, text));
      RunAppend(s, [OpCreate(name, now)], [OpWriteFile(name, text)]);
      rc := WriteFile(Lit(name), text, |text|);
      assert text[..|text|] == text;
    }

    method FindFreeNode() returns (r: int)
      requires Valid()
      ensures r == FreeNode(State())
    {
      for i := 1 to FS_MAX_FILES
        invariant forall j :: 1 <= j < i ==> Live(State(), j)
      {
        assert Live(State(), i) == nodes[i].inUse;
        if !nodes[i].inUse { return i; }
      }
      return -1;
    }

    method FindNodeByName(name: seq<char>) returns (r: int)
      requires Valid() && IsCString(name)
      ensures r == FindNode(State(), Text(name))
    {
      for i := 0 to FS_MAX_FILES
        invariant forall j :: 0 <= j < i ==> !Named(State(), j, Text(name))
      {
        assert NodeOk(State().nodes[i]);
        if nodes[i].inUse {
          var c := Strcmp(nodes[i].name, name);
          assert Named(State(), i, Text(name)) == (c == 0 && nodes[i].parent == cwd);
          if c == 0 && nodes[i].parent == cwd { return i; }
        }
      }
      return -1;
    }

    method FindFreeFd() returns (r: int)
      requires Valid()
      ensures r == FreeFd(State())
    {
      for i := 0 to FS_MAX_FDS
        invariant forall j :: 0 <= j < i ==> State().fds[j].inUse
      {
        if !fds[i].inUse { return i; }
      }
      return -1;
    }

    method DirHasChild(dir: int) returns (r: bool)
      requires Valid()
      ensures r == HasChild(State(), dir)
    {
      for i := 0 to FS_MAX_FILES
        invariant forall j :: 0 <= j < i ==> !ChildOf(State(), j, dir)
      {
        if nodes[i].inUse && nodes[i].parent == dir {
          assert ChildOf(State(), i, dir);
          return true;
        }
      }
      return false;
    }

    /** The name field after strncpy and the explicit terminator. */
    method StoreName(prev: seq<char>, name: seq<char>) returns (b: seq<char>)
      requires |prev| == FS_MAX_NAME && IsCString(name) && |Text(name)| < FS_MAX_NAME
      ensures b == NameBuf(Text(name))
    {
      b := Strncpy(prev, name, FS_MAX_NAME - 1);
      b := b[FS_MAX_NAME - 1 := '\0'];
    }

    /** The checks that fs_mkdir and fs_create_file begin with: the free slot, or a negative error. */
    method CheckNew(name: CPtr) returns (idx: int)
      requires Valid() && NullOrCString(name)
      ensures idx == NewSlot(State(), PtrText(name)) && (idx >= 0 ==> name.At?)
    {
      if name.Null? || name.buf[0] == '\0' { return -EINVAL; }
      var len := Strlen(name.buf);
      if len >= FS_MAX_NAME { return -ENAMETOOLONG; }
      var found := FindNodeByName(name.buf);
      if found >= 0 { return -EEXIST; }
      idx := FindFreeNode();
      if idx < 0 { return -ENOSPC; }
    }

    method Mkdir(name: CPtr, now: nat) returns (rc: int)
      requires Valid() && NullOrCString(name)
      modifies nodes
      ensures Ret(State(), rc) == Create(old(State()), PtrText(name), Dir, now)
    {
      ghost var s := State();
      var idx := CheckNew(name);
      if idx < 0 { return idx; }
      assert NodeOk(s.nodes[idx]);
      var n := nodes[idx];
      var stored := StoreName(n.name, name.buf);
      n := n.(name := stored);
      n := n.(kind := Dir);
      n := n.(size := 0);
      n := n.(parent := cwd);
      n := n.(inUse := true);
      n := n.(createdTick := now);
      nodes[idx] := n;
      CreateFills(s, nodes[..], idx, Text(name.buf), Dir, now);
      return 0;
    }

    method CreateFile(name: CPtr, now: nat) returns (rc: int)
      requires Valid() && NullOrCString(name)
      modifies nodes
      ensures Ret(State(), rc) == Create(old(State()), PtrText(name), File, now)
    {
      ghost var s := State();
      var idx := CheckNew(name);
      if idx < 0 { return idx; }
      assert NodeOk(s.nodes[idx]);
      var n := nodes[idx];
      var stored := StoreName(n.name, name.buf);
      n := n.(name := stored);
      n := n.(kind := File);
      n := n.(size := 0);
      n := n.(data := n.data[0 := '\0']);
      n := n.(parent := cwd);
      n := n.(inUse := true);
      n := n.(createdTick := now);
      nodes[idx] := n;
      CreateFills(s, nodes[..], idx, Text(name.buf), File, now);
      return 0;
    }

    method WriteFile(name: seq<char>, data: seq<char>, len: nat) returns (rc: int)
      requires Valid() && IsCString(name) && len <= |data|
      modifies nodes
      ensures Ret(State(), rc) == FsModel.WriteFile(old(State()), Text(name), data[..len])
    {
      ghost var s := State();
      var idx := FindNodeByName(name);
      if idx < 0 { return -ENOENT; }
      if !nodes[idx].kind.File? { return -EISDIR; }
      var n := len;
      if n >= FS_MAX_DATA { n := FS_MAX_DATA - 1; }
      assert NodeOk(s.nodes[idx]);
      assert data[..len][..n] == data[..n];
      var d := Memcpy(nodes[idx].data, 0, data, n);
      nodes[idx] := nodes[idx].(data := d[n := '\0']);
      nodes[idx] := nodes[idx].(size := n);
      assert nodes[..] == s.nodes[idx := s.nodes[idx].(data := d[n := '\0'], size := n)];
      return n;
    }

    /** The copy is followed by a NUL, so the buffer needs room for at least that. */
    method ReadFile(name: seq<char>, buf: array<char>, maxLen: nat) returns (rc: int)
      requires Valid() && IsCString(name) && 0 < maxLen <= buf.Length
      modifies buf
      ensures State() == old(State())
      ensures var r := FsModel.ReadFile(old(State()), Text(name), maxLen);
              && rc == r.rc
              && (rc >= 0 ==> buf[..rc] == r.bytes && buf[rc] == '\0' && buf[rc + 1..] == old(buf[rc + 1..]))
              && (rc < 0 ==> buf[..] == old(buf[..]))
    {
      ghost var s := State();
      var idx := FindNodeByName(name);
      if idx < 0 { return -ENOENT; }
      if !nodes[idx].kind.File? { return -EISDIR; }
      assert NodeOk(s.nodes[idx]);
      var n := nodes[idx].size;
      if n >= maxLen { n := maxLen - 1; }
      MemcpyOut(buf, 0, nodes[idx].data, 0, n);
      buf[n] := '\0';
      return n;
    }

    method Delete(name: seq<char>) returns (rc: int)
      requires Valid() && IsCString(name)
      modifies nodes
      ensures Ret(State(), rc) == FsModel.Delete(old(State()), Text(name))
    {
      ghost var s := State();
      var idx := FindNodeByName(name);
      if idx < 0 || idx == 0 { return -ENOENT; }
      if nodes[idx].kind.Dir? {
        var busy := DirHasChild(idx);
        if busy { return -ENOTEMPTY; }
      }
      nodes[idx] := nodes[idx].(inUse := false);
      assert State() == Discard(s, idx);
      return 0;
    }

    method Unlink(name: seq<char>) returns (rc: int)
      requires Valid() && IsCString(name)
      modifies nodes
      ensures Ret(State(), rc) == FsModel.Unlink(old(State()), Text(name))
    {
      ghost var s := State();
      var idx := FindNodeByName(name);
      if idx < 0 || idx == 0 { return -ENOENT; }
      if !nodes[idx].kind.File? { return -EISDIR; }
      nodes[idx] := nodes[idx].(inUse := false);
      assert State() == Discard(s, idx);
      return 0;
    }

    method Rmdir(name: seq<char>) returns (rc: int)
      requires Valid() && IsCString(name)
      modifies nodes
      ensures Ret(State(), rc) == FsModel.Rmdir(old(State()), Text(name))
    {
      ghost var s := State();
      var idx := FindNodeByName(name);
      if idx < 0 || idx == 0 { return -ENOENT; }
      if !nodes[idx].kind.Dir? { return -ENOTDIR; }
      var busy := DirHasChild(idx);
      if busy { return -ENOTEMPTY; }
      nodes[idx] := nodes[idx].(inUse := false);
      assert State() == Discard(s, idx);
      return 0;
    }

    method Cd(name: seq<char>) returns (rc: int)
      requires Valid() && IsCString(name)
      modifies this
      ensures Ret(State(), rc) == FsModel.Cd(old(State()), Text(name))
    {
      ghost var s := State();
      var up := Strcmp(name, Lit(".."));
      if up == 0 {
        if nodes[cwd].parent >= 0 { cwd := nodes[cwd].parent; }
        return 0;
      }
      var root := Strcmp(name, Lit("/"));
      if root == 0 {
        cwd := 0;
        return 0;
      }
      var idx := FindNodeByName(name);
      if idx < 0 { return -ENOENT; }
      if !nodes[idx].kind.Dir? { return -ENOTDIR; }
      cwd := idx;
      return 0;
    }

    method Open(name: CPtr, flags: bv32, now: nat) returns (rc: int)
      requires Valid() && NullOrCString(name)
      modifies nodes, fds
      ensures Ret(State(), rc) == FsModel.Open(old(State()), PtrText(name), flags, now)
    {
      if name.Null? || name.buf[0] == '\0' { return -EINVAL; }
      ghost var s := State();
      var idx := FindNodeByName(name.buf);
      if idx < 0 {
        if !Has(flags, O_CREAT) { return -ENOENT; }
        var c := CreateFile(name, now);
        if c < 0 { return c; }
        idx := FindNodeByName(name.buf);
        if idx < 0 { return -EIO; }
      }
      rc := OpenNode(idx, flags);
    }

    /** The tail of fs_open. */
    method OpenNode(idx: int, flags: bv32) returns (rc: int)
      requires Valid() && 1 <= idx < FS_MAX_FILES
      modifies nodes, fds
      ensures Ret(State(), rc) == OpenAt(old(State()), idx, flags)
    {
      ghost var s := State();
      assert NodeOk(s.nodes[idx]);
      if !nodes[idx].kind.File? { return -EISDIR; }
      if Has(flags, O_TRUNC) {
        nodes[idx] := nodes[idx].(size := 0);
        nodes[idx] := nodes[idx].(data := nodes[idx].data[0 := '\0']);
      }
      ghost var t := if Has(flags, O_TRUNC) then SetNode(s, idx, Truncated(s.nodes[idx])) else s;
      assert State() == t;
      var fd := FindFreeFd();
      if fd < 0 { return -EMFILE; }
      fds[fd] := fds[fd].(nodeIdx := idx);
      fds[fd] := fds[fd].(offset := if Has(flags, O_APPEND) then nodes[idx].size else 0);
      fds[fd] := fds[fd].(flags := flags);
      fds[fd] := fds[fd].(inUse := true);
      assert State() == OpenAt(s, idx, flags).fs;
      return fd;
    }

    method Close(fd: int) returns (rc: int)
      requires Valid()
      modifies fds
      ensures Ret(State(), rc) == FsModel.Close(old(State()), fd)
    {
      ghost var s := State();
      if fd < 0 || fd >= FS_MAX_FDS { return -EBADF; }
      if !fds[fd].inUse { return -EBADF; }
      fds[fd] := fds[fd].(inUse := false);
      fds[fd] := fds[fd].(nodeIdx := -1);
      assert State() == FsModel.Close(s, fd).fs;
      return 0;
    }

    method ReadFd(fd: int, buf: array?<char>, n: nat) returns (rc: int)
      requires Valid() && (buf != null ==> n <= buf.Length)
      modifies fds, buf
      ensures var r := FsModel.ReadFd(old(State()), fd, buf != null, n);
              && State() == r.fs && rc == r.rc
              && (buf != null ==> if rc > 0 then buf[..rc] == r.bytes && buf[rc..] == old(buf[rc..]) else buf[..] == old(buf[..]))
    {
      ghost var s := State();
      if fd < 0 || fd >= FS_MAX_FDS || !fds[fd].inUse { return -EBADF; }
      if buf == null { return -EFAULT; }
      var f := fds[fd];
      if Access(f.flags) == O_WRONLY { return -EACCES; }
      assert FdOk(s.fds[fd]) && NodeOk(s.nodes[f.nodeIdx]);
      var node := nodes[f.nodeIdx];
      if f.offset >= node.size { return 0; }
      var avail := node.size - f.offset;
      var k := if n < avail then n else avail;
      MemcpyOut(buf, 0, node.data, f.offset, k);
      fds[fd] := fds[fd].(offset := f.offset + k);
      assert State() == FsModel.ReadFd(s, fd, true, n).fs;
      return k;
    }

    method WriteFd(fd: int, buf: CPtr, n: nat) returns (rc: int)
      requires Valid() && (buf.At? ==> n <= |buf.buf|)
      modifies nodes, fds
      ensures Ret(State(), rc) == FsModel.WriteFd(old(State()), fd, if buf.Null? then NoData else Data(buf.buf[..n]))
    {
      ghost var s := State();
      ghost var data := if buf.Null? then NoData else Data(buf.buf[..n]);
      if fd < 0 || fd >= FS_MAX_FDS || !fds[fd].inUse { return -EBADF; }
      if buf.Null? { return -EFAULT; }
      if Access(fds[fd].flags) == O_RDONLY { return -EACCES; }
      var idx := fds[fd].nodeIdx;
      assert FdOk(s.fds[fd]) && NodeOk(s.nodes[idx]);
      if Has(fds[fd].flags, O_APPEND) { fds[fd] := fds[fd].(offset := nodes[idx].size); }
      var at := fds[fd].offset;
      if at >= FS_MAX_DATA - 1 {
        assert fds[..] == s.fds[fd := s.fds[fd].(offset := at)];
        return -ENOSPC;
      }
      var space := FS_MAX_DATA - 1 - at;
      var k := if n < space then n else space;
      PutBytes(idx, at, buf.buf, k);
      fds[fd] := fds[fd].(offset := at + k);
      assert buf.buf[..n][..k] == buf.buf[..k];
      assert fds[..] == s.fds[fd := s.fds[fd].(offset := at + k)];
      return k;
    }

    /** The copy of fs_write_fd, the new size when the write ends past the old one, and the NUL. */
    method PutBytes(idx: int, at: nat, src: seq<char>, k: nat)
      requires Valid() && 0 <= idx < FS_MAX_FILES && k <= |src| && at + k < FS_MAX_DATA
      modifies nodes
      ensures NodeOk(old(nodes[idx]))
      ensures nodes[..] == old(nodes[..])[idx := Stored(old(nodes[idx]), at, src[..k])]
    {
      ghost var was := nodes[..];
      assert NodeOk(State().nodes[idx]);
      var d := Memcpy(nodes[idx].data, at, src, k);
      nodes[idx] := nodes[idx].(data := d);
      if at + k > nodes[idx].size { nodes[idx] := nodes[idx].(size := at + k); }
      nodes[idx] := nodes[idx].(data := nodes[idx].data[nodes[idx].size := '\0']);
      assert nodes[idx] == Stored(was[idx], at, src[..k]);
    }

    method Lseek(fd: int, offset: int32, whence: int) returns (rc: int)
      requires Valid()
      modifies fds
      ensures Ret(State(), rc) == FsModel.Lseek(old(State()), fd, offset, whence)
    {
      ghost var s := State();
      if fd < 0 || fd >= FS_MAX_FDS || !fds[fd].inUse { return -EBADF; }
      assert FdOk(s.fds[fd]);
      var f := fds[fd];
      var to: int32;
      if whence == SEEK_SET {
        to := offset;
      } else if whence == SEEK_CUR {
        to := ToInt32(f.offset + offset);
      } else if whence == SEEK_END {
        to := ToInt32(nodes[f.nodeIdx].size + offset);
      } else {
        return -EINVAL;
      }
      if to < 0 { return -EINVAL; }
      if to > FS_MAX_DATA - 1 { return -EINVAL; }
      fds[fd] := fds[fd].(offset := to);
      assert State() == FsModel.Lseek(s, fd, offset, whence).fs;
      return to;
    }

    /** fs_list: the emitted entries and a NUL, and nothing beyond. */
    method List(buf: array<char>, maxLen: nat) returns (count: nat)
      requires Valid() && 0 < maxLen <= buf.Length
      modifies buf
      ensures State() == old(State())
      ensures var e := Emitted(State(), maxLen);
              && count == |e| && |Render(e)| < maxLen
              && buf[..] == Render(e) + ("\0" + old(buf[..])[|Render(e)| + 1..])
    {
      var offset;
      ghost var done, b0 := [], buf[..];
      ListingComplete(State(), maxLen);
      count, offset, done := ListEntries(buf, maxLen);
      ghost var b1 := buf[..];
      WrittenAll(State(), maxLen, offset, done, b0, b1);
      buf[offset] := '\0';
      assert buf[..] == b1[offset := '\0'];
    }

    /** The loop of fs_list. */
    method ListEntries(buf: array<char>, maxLen: nat) returns (count: nat, offset: nat, ghost done: seq<Node>)
      requires Valid() && 0 < maxLen <= buf.Length
      modifies buf
      ensures count == |done| && offset < maxLen
      ensures Written(State(), maxLen, FS_MAX_FILES, offset, done, old(buf[..]), buf[..])
    {
      count, offset, done := 0, 0, [];
      ghost var s, b0 := State(), buf[..];
      WrittenStart(s, maxLen, b0);
      for i := 0 to FS_MAX_FILES
        invariant offset < maxLen && count == |done|
        invariant Written(s, maxLen, i, offset, done, b0, buf[..])
      {
        ghost var b := buf[..];
        var size := ListSlot(buf, i, offset, maxLen);
        if size > 0 {
          WrittenEmit(s, maxLen, i, offset, done, b0, b);
          done, offset, count := done + [s.nodes[i]], offset + size, count + 1;
        } else {
          WrittenSkip(s, maxLen, i, offset, done, b0, b);
        }
      }
    }

    /** The body of the loop of fs_list: emits slot i if it is listed and fits, and says how much it wrote. */
    method ListSlot(buf: array<char>, i: nat, offset: nat, maxLen: nat) returns (size: nat)
      requires Valid() && i < FS_MAX_FILES && offset < maxLen <= buf.Length
      modifies buf
      ensures var n := nodes[i];
              if ChildOf(State(), i, cwd) && offset + EntrySize(n) < maxLen
              then size == EntrySize(n) && buf[..] == Splice(old(buf[..]), offset, Entry(n))
              else size == 0 && buf[..] == old(buf[..])
    {
      size := 0;
      if nodes[i].inUse && nodes[i].parent == cwd {
        assert NodeOk(State().nodes[i]);
        var n := nodes[i];
        var nameLen := Strlen(n.name);
        if offset + 6 + nameLen + 1 < maxLen {
          EmitEntry(buf, offset, n, nameLen);
          size := 6 + nameLen + 1;
        }
      }
    }

    /** The body of fs_list for one entry. */
    method EmitEntry(buf: array<char>, offset: nat, n: Node, nameLen: nat)
      requires nameLen == |Text(n.name)| && offset + EntrySize(n) <= buf.Length
      modifies buf
      ensures buf[..] == Splice(old(buf[..]), offset, Entry(n))
    {
      ghost var b := buf[..];
      MemcpyOut(buf, offset, KindText(n), 0, 4);
      assert KindText(n)[0..4] == KindText(n);
      buf[offset + 4] := ' ';
      buf[offset + 5] := ' ';
      assert buf[..] == Splice(b, offset, KindText(n))[offset + 4 := ' '][offset + 5 := ' '];
      MemcpyOut(buf, offset + 6, n.name, 0, nameLen);
      buf[offset + 6 + nameLen] := '\n';
      assert n.name[0..nameLen] == Text(n.name);
      EntrySpliced(b, offset, n);
    }

    /** The start of cmd_filebrowser: list the current directory into 2048 bytes and parse that. */
    method Browse() returns (p: Parsed)
      requires Valid()
      ensures var shown := Firsts(Emitted(State(), 2048), 32);
              NoNewline(shown) <==> p == Items(ItemsOf(shown))
    {
      var listing := new char[2048];
      var count := List(listing, listing.Length);
      ghost var e := Emitted(State(), 2048);
      ghost var rest := listing[|Render(e)| + 1..];
      assert listing[..] == Render(e) + ("\0" + rest);
      p := ParseListing(listing[..], MAX_ITEMS);
      EmittedNames(State(), 0, 0, 2048);
      ParseInvertsListing(e, rest);
    }
  }

  /** Before slot i: `done` is emitted, the buffer holds its text and is otherwise as it was. */
  ghost predicate Written(s: Fs, maxLen: nat, i: nat, offset: nat, done: seq<Node>, b0: seq<char>, b: seq<char>) {
    && Sized(s) && i <= FS_MAX_FILES
    && offset == |Render(done)| <= |b0|
    && Emitted(s, maxLen) == done + EmittedFrom(s, i, offset, maxLen)
    && b == Render(done) + b0[offset..]
  }

  lemma WrittenStart(s: Fs, maxLen: nat, b0: seq<char>)
    requires Sized(s)
    ensures Written(s, maxLen, 0, 0, [], b0, b0)
  {
    var all := EmittedFrom(s, 0, 0, maxLen);
    assert [] + all == all;
    assert Render([]) + b0[0..] == b0;
  }

  lemma WrittenAll(s: Fs, maxLen: nat, offset: nat, done: seq<Node>, b0: seq<char>, b: seq<char>)
    requires Written(s, maxLen, FS_MAX_FILES, offset, done, b0, b) && offset < |b0|
    ensures done == Emitted(s, maxLen)
    ensures |b| == |b0| && offset == |Render(done)| && b[offset := '\0'] == Render(done) + ("\0" + b0[offset + 1..])
  {
    assert done + [] == done;
    assert b0[offset..][0 := '\0'] == "\0" + b0[offset + 1..];
  }

  lemma WrittenEmit(s: Fs, maxLen: nat, i: nat, offset: nat, done: seq<Node>, b0: seq<char>, b: seq<char>)
    requires Written(s, maxLen, i, offset, done, b0, b) && i < FS_MAX_FILES && maxLen <= |b0|
    requires ChildOf(s, i, s.cwd) && offset + EntrySize(s.nodes[i]) < maxLen
    ensures var n := s.nodes[i];
            Written(s, maxLen, i + 1, offset + EntrySize(n), done + [n], b0, Splice(b, offset, Entry(n)))
  {
    var n := s.nodes[i];
    ListStep(done, n, b0, offset);
    var rest := EmittedFrom(s, i + 1, offset + EntrySize(n), maxLen);
    assert done + ([n] + rest) == done + [n] + rest;
  }

  lemma WrittenSkip(s: Fs, maxLen: nat, i: nat, offset: nat, done: seq<Node>, b0: seq<char>, b: seq<char>)
    requires Written(s, maxLen, i, offset, done, b0, b) && i < FS_MAX_FILES
    requires !(ChildOf(s, i, s.cwd) && offset + EntrySize(s.nodes[i]) < maxLen)
    ensures Written(s, maxLen, i + 1, offset, done, b0, b)
  {
  }

  /** The four stores that make up an entry amount to one. */
  lemma EntrySpliced(b: seq<char>, offset: nat, n: Node)
    requires offset + EntrySize(n) <= |b|
    ensures var t := Text(n.name);
            var c := Splice(b, offset, KindText(n))[offset + 4 := ' '][offset + 5 := ' '];
            var d := Splice(c, offset + 6, t)[offset + 6 + |t| := '\n'];
            d == Splice(b, offset, Entry(n))
  {
    var t := Text(n.name);
    var c := Splice(b, offset, KindText(n))[offset + 4 := ' '][offset + 5 := ' '];
    var d := Splice(c, offset + 6, t)[offset + 6 + |t| := '\n'];
    assert d[offset..offset + 4] == KindText(n);
    assert d[offset + 4..offset + 6] == "  ";
    assert d[offset + 6..offset + 6 + |t|] == t;
    assert d[offset..offset + EntrySize(n)] == Entry(n);
    assert d == Splice(b, offset, Entry(n));
  }

  lemma ListStep(done: seq<Node>, n: Node, b0: seq<char>, offset: nat)
    requires offset == |Render(done)| && offset + EntrySize(n) <= |b0|
    ensures Splice(Render(done) + b0[offset..], offset, Entry(n)) == Render(done + [n]) + b0[offset + EntrySize(n)..]
    ensures |Render(done + [n])| == offset + EntrySize(n)
  {
    RenderSnoc(done, n);
  }

  lemma {:induction false} EmittedNames(s: Fs, i: nat, offset: nat, maxLen: nat)
    requires Storage(s) && i <= FS_MAX_FILES
    ensures ShortNames(EmittedFrom(s, i, offset, maxLen))
    decreases FS_MAX_FILES - i
  {
    if i < FS_MAX_FILES {
      assert NodeOk(s.nodes[i]);
      if ChildOf(s, i, s.cwd) && offset + EntrySize(s.nodes[i]) < maxLen {
        EmittedNames(s, i + 1, offset + EntrySize(s.nodes[i]), maxLen);
      } else {
        EmittedNames(s, i + 1, offset, maxLen);
      }
    }
  }
}
