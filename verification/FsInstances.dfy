/**
 Concrete runs from a fresh ramdisk in which the filesystem does something unexpected. The exact
 conditions are proved elsewhere; these runs show that they do occur.
 */
module FsInstances {
  import opened Errno
  import opened CString
  import opened FsModel
  import opened FsInvariant
  import opened FsTree
  import opened FsRemoval
  import opened FsFiles
  import opened FsDescriptors
  import opened Listing

  /** Exactly the first k descriptors are in use. */
  ghost predicate FdsUsed(s: Fs, k: nat) {
    |s.fds| == FS_MAX_FDS && forall d :: 0 <= d < FS_MAX_FDS ==> (s.fds[d].inUse <==> d < k)
  }

  /** Nothing but the root, and no descriptor open. */
  ghost predicate Fresh(s: Fs) {
    Inv(s) && s.cwd == 0 && (forall i :: Live(s, i) <==> i == 0) && FdsUsed(s, 0)
  }

  lemma BlankIsFresh()
    ensures Fresh(Blank())
  {
    BlankOk();
    assert forall i :: Live(Blank(), i) <==> i == 0;
  }

  /** The one node below the root. */
  ghost predicate OneNode(s: Fs, name: string, kind: Kind) {
    && Inv(s) && s.cwd == 0 && FindNode(s, name) == 1 && s.nodes[1].kind == kind && s.nodes[1].size == 0
    && (forall i :: Live(s, i) <==> i in {0, 1}) && FdsUsed(s, 0)
  }

  lemma FirstCreated(s: Fs, name: string, kind: Kind, now: nat)
    requires Fresh(s) && '\0' !in name && 0 < |name| < FS_MAX_NAME && kind != Untyped
    ensures OneNode(Create(s, name, kind, now).fs, name, kind)
  {
    EmptyAccepts(s, name, kind, now);
    CreatedIsFound(s, name, kind, now);
    CreateKeeps(s, name, kind, now);
    var c := Create(s, name, kind, now).fs;
    var idx := FindNode(c, name);
    FoundAtFree(s, name, kind, now);
    assert Named(c, idx, name);
    assert forall i :: Live(c, i) <==> Live(s, i) || i == idx;
    assert !Live(s, 1);
  }

  lemma EmptyAccepts(s: Fs, name: string, kind: Kind, now: nat)
    requires Inv(s) && (forall i :: Live(s, i) <==> i == 0) && 0 < |name| < FS_MAX_NAME
    ensures Create(s, name, kind, now).rc == 0
  {
    LookupIsUnique(s, 0, name);
    assert !Live(s, 1);
    assert FindNode(s, name) == -1;
  }

  lemma FoundAtFree(s: Fs, name: string, kind: Kind, now: nat)
    requires Inv(s) && '\0' !in name && kind != Untyped && Create(s, name, kind, now).rc == 0
    ensures FindNode(Create(s, name, kind, now).fs, name) == FreeNode(s)
  {
    NewNodeOk(s, FreeNode(s), name, kind, now);
    CreateKeeps(s, name, kind, now);
    FoundHere(Create(s, name, kind, now).fs, FreeNode(s), name);
  }

  /** `mkdir ..` makes a directory that `cd ..` does not enter. */
  lemma DotDotIsNotEntered(s: Fs, now: nat)
    requires Fresh(s)
    ensures var c := Create(s, "..", Dir, now).fs;
            FindNode(c, "..") >= 1 && c.nodes[FindNode(c, "..")].kind.Dir? && Cd(c, "..").fs == c
  {
    FirstCreated(s, "..", Dir, now);
  }

  // ---- All descriptors in use ----

  function Repeat(op: Op, k: nat): seq<Op> { if k == 0 then [] else [op] + Repeat(op, k - 1) }

  lemma OpenOnce(s: Fs, name: string, now: nat, j: nat)
    requires Inv(s) && '\0' !in name && OnFile(s, name) && FdsUsed(s, j) && j < FS_MAX_FDS
    ensures var r := Open(s, name, 0, now);
            r.rc == j && Inv(r.fs) && r.fs.nodes == s.nodes && r.fs.cwd == s.cwd && FdsUsed(r.fs, j + 1)
            && r.fs.fds[j] == Fd(FindNode(s, name), 0, 0, true) && OnFile(r.fs, name) && FindNode(r.fs, name) == FindNode(s, name)
  {
    LookupIsUnique(s, FindNode(s, name), name);
    assert !s.fds[j].inUse;
    OpenErrors(s, name, 0, now);
    OpenSuccess(s, name, 0, now);
    OpenKeeps(s, name, 0, now);
    var r := Open(s, name, 0, now).fs;
    assert r.nodes == s.nodes && r.cwd == s.cwd;
    assert forall i :: Named(r, i, name) <==> Named(s, i, name);
    LookupIsUnique(r, FindNode(s, name), name);
  }

  lemma RepeatStep(s: Fs, op: Op, k: nat)
    requires Storage(s) && k > 0
    ensures Run(s, Repeat(op, k)) == Run(Exec(s, op).fs, Repeat(op, k - 1))
  {
    var ops := Repeat(op, k);
    assert ops[0] == op && ops[1..] == Repeat(op, k - 1);
  }

  /** The same nodes as s, with the first j descriptors in use. */
  ghost predicate OpenedFrom(s: Fs, t: Fs, name: string, j: nat) {
    Inv(t) && OnFile(t, name) && t.nodes == s.nodes && t.cwd == s.cwd && FdsUsed(t, j)
  }

  lemma {:induction false} OpenRepeatedly(s: Fs, t: Fs, name: string, now: nat, j: nat, k: nat, n: nat)
    requires OpenedFrom(s, t, name, j) && '\0' !in name && j + k == n <= FS_MAX_FDS
    ensures OpenedFrom(s, Run(t, Repeat(OpOpen(name, 0, now), k)), name, n)
    decreases k
  {
    var op := OpOpen(name, 0, now);
    if k > 0 {
      OpenedOnce(s, t, name, now, j);
      RepeatStep(t, op, k);
      OpenRepeatedly(s, Exec(t, op).fs, name, now, j + 1, k - 1, n);
    } else {
      RepeatNone(t, op, k);
    }
  }

  lemma OpenedOnce(s: Fs, t: Fs, name: string, now: nat, j: nat)
    requires OpenedFrom(s, t, name, j) && '\0' !in name && j < FS_MAX_FDS
    ensures OpenedFrom(s, Exec(t, OpOpen(name, 0, now)).fs, name, j + 1)
  {
    OpenOnce(t, name, now, j);
  }

  lemma RepeatNone(s: Fs, op: Op, k: nat)
    requires Storage(s) && k == 0
    ensures Run(s, Repeat(op, k)) == s
  {
  }

  /** After 16 opens of one file, opening another with O_CREAT is refused, and the new file is there. */
  lemma RefusedOpenCreates(s: Fs, now: nat)
    requires Fresh(s)
    ensures var full := Run(Create(s, "a", File, now).fs, Repeat(OpOpen("a", 0, now), FS_MAX_FDS));
            var r := Open(full, "b", O_CREAT, now);
            r.rc == -EMFILE && FindNode(full, "b") < 0 && FindNode(r.fs, "b") >= 0
  {
    FirstCreated(s, "a", File, now);
    var c := Create(s, "a", File, now).fs;
    OpenRepeatedly(c, c, "a", now, 0, FS_MAX_FDS, FS_MAX_FDS);
    RefusedOnFull(c, Run(c, Repeat(OpOpen("a", 0, now), FS_MAX_FDS)), "a", "b", now);
  }

  lemma RefusedOnFull(c: Fs, full: Fs, name: string, other: string, now: nat)
    requires OneNode(c, name, File) && Inv(full) && full.nodes == c.nodes && full.cwd == c.cwd && FdsUsed(full, FS_MAX_FDS)
    requires '\0' !in other && 0 < |other| < FS_MAX_NAME && other != name
    ensures var r := Open(full, other, O_CREAT, now);
            r.rc == -EMFILE && FindNode(full, other) < 0 && FindNode(r.fs, other) >= 0
  {
    LookupIsUnique(c, 1, name);
    assert Text(full.nodes[1].name) == name;
    LookupIsUnique(full, 0, other);
    var i := FindNode(full, other);
    assert i < 0 by {
      if i >= 0 { assert Live(c, i); }
    }
    assert !Live(full, 2) by { assert !Live(c, 2); }
    assert FreeNode(full) >= 0;
    assert Has(O_CREAT, O_CREAT);
    OpenErrors(full, other, O_CREAT, now);
    CreatedIsFound(full, other, File, now);
    CreateKeeps(full, other, File, now);
    var made := Create(full, other, File, now).fs;
    OpenAtLookup(made, FindNode(made, other), O_CREAT, other);
  }

  lemma OpenAtLookup(s: Fs, idx: int, flags: bv32, name: string)
    requires Inv(s) && 1 <= idx < FS_MAX_FILES && Named(s, idx, name)
    ensures FindNode(OpenAt(s, idx, flags).fs, name) == idx
  {
    OpenAtBytes(s, idx, flags);
    OpenAtKeeps(s, idx, flags);
    FoundHere(OpenAt(s, idx, flags).fs, idx, name);
  }

  // ---- Descriptors that outlive their file ----

  /** Open, unlink, mkdir: the descriptor leads to the directory. */
  lemma DescriptorOnDirectory(s: Fs, now: nat)
    requires Fresh(s)
    ensures var o := Open(Create(s, "a", File, now).fs, "a", 0, now);
            var u := Unlink(o.fs, "a").fs;
            var r := Create(u, "d", Dir, now).fs;
            && o.rc == 0 && OnFiles(o.fs) && !OnFiles(u)
            && OpenFd(r, 0) && Live(r, r.fds[0].nodeIdx) && r.nodes[r.fds[0].nodeIdx].kind.Dir?
  {
    FirstCreated(s, "a", File, now);
    var c := Create(s, "a", File, now).fs;
    OpenOnce(c, "a", now, 0);
    var o := Open(c, "a", 0, now).fs;
    assert OpenFd(o, 0) && o.fds[0].nodeIdx == 1;
    assert forall i :: Live(o, i) <==> Live(c, i);
    assert forall d :: OpenFd(o, d) <==> d == 0;
    StepOnFiles(o, OpUnlink("a"));
    assert Strands(o, OpUnlink("a"));
    MkdirAfterUnlink(o, now);
  }

  lemma MkdirAfterUnlink(o: Fs, now: nat)
    requires Inv(o) && OnFile(o, "a") && FindNode(o, "a") == 1 && OpenFd(o, 0) && o.fds[0].nodeIdx == 1
    requires o.cwd == 0 && forall i :: Live(o, i) <==> i in {0, 1}
    ensures var r := Create(Unlink(o, "a").fs, "d", Dir, now).fs;
            OpenFd(r, 0) && Live(r, r.fds[0].nodeIdx) && r.nodes[r.fds[0].nodeIdx].kind.Dir?
  {
    var u := Unlink(o, "a").fs;
    RemovalKeeps(o, "a");
    OnlyRootLeft(o, u);
    EmptyAccepts(u, "d", Dir, now);
    DescriptorRedirected(o, "a", "d", Dir, 0, now);
  }

  lemma OnlyRootLeft(o: Fs, u: Fs)
    requires Storage(o) && (forall i :: Live(o, i) <==> i in {0, 1}) && u == Discard(o, 1)
    ensures forall i :: Live(u, i) <==> i == 0
  {
    assert forall i :: Live(u, i) <==> Live(o, i) && i != 1;
  }

  // ---- Writes ----

  /** Descriptor 0 is open for writing onto the empty file in slot 1. */
  ghost predicate EmptyFileOpen(s: Fs, flags: bv32) {
    Storage(s) && s.nodes[1].size == 0 && s.fds[0] == Fd(1, 0, flags, true)
  }

  lemma OpenForWriting(s: Fs, flags: bv32, now: nat)
    requires Fresh(s) && !Has(flags, O_TRUNC)
    ensures EmptyFileOpen(Open(Create(s, "a", File, now).fs, "a", flags, now).fs, flags)
  {
    FirstCreated(s, "a", File, now);
    var c := Create(s, "a", File, now).fs;
    assert Open(c, "a", flags, now) == OpenAt(c, 1, flags);
    assert FreeFd(c) == 0;
  }

  /** Seek to 5 in an empty file and write nothing: the file now has 5 bytes. */
  lemma EmptyWriteGrows(s: Fs)
    requires EmptyFileOpen(s, O_WRONLY)
    ensures var k := Lseek(s, 0, 5, SEEK_SET); var w := WriteFd(k.fs, 0, Data([]));
            k.rc == 5 && w.rc == 0 && w.fs.nodes[1].size == 5
  {
    SeekExact(s, 0, 5, SEEK_SET);
    var k := Lseek(s, 0, 5, SEEK_SET).fs;
    EmptyWrite(k, 0);
  }

  /** An append to a full file is refused, and moves the offset from 0 to the end. */
  lemma RefusedAppendMoves(s: Fs, bytes: seq<char>)
    requires EmptyFileOpen(s, O_WRONLY | O_APPEND) && |bytes| == MAX_SIZE
    ensures var k := Lseek(WriteFd(s, 0, Data(bytes)).fs, 0, 0, SEEK_SET).fs; var w := WriteFd(k, 0, Data("x"));
            k.fds[0].offset == 0 && w.rc == -ENOSPC && w.fs.fds[0].offset == MAX_SIZE
  {
    var f := s.fds[0];
    assert Has(f.flags, O_APPEND) && Access(f.flags) == O_WRONLY;
    WriteIs(s, 0, bytes, 0, MAX_SIZE);
    assert bytes[..MAX_SIZE] == bytes;
    var t := WriteFd(s, 0, Data(bytes)).fs;
    assert t.nodes[1].size == MAX_SIZE;
    SeekExact(t, 0, 0, SEEK_SET);
    FailedWrite(Lseek(t, 0, 0, SEEK_SET).fs, 0, Data("x"));
  }

  // ---- Listings ----

  lemma {:induction false} NoMoreEmitted(s: Fs, i: nat, offset: nat, maxLen: nat)
    requires Sized(s) && i <= FS_MAX_FILES && forall j :: i <= j < FS_MAX_FILES ==> !Live(s, j)
    ensures EmittedFrom(s, i, offset, maxLen) == []
    decreases FS_MAX_FILES - i
  {
    if i < FS_MAX_FILES { NoMoreEmitted(s, i + 1, offset, maxLen); }
  }

  /** The file browser does not recover a file whose name holds a newline. */
  lemma NewlineMisread(s: Fs, now: nat)
    requires Fresh(s)
    ensures var c := Create(s, "a\nb", File, now).fs;
            !NoNewline(Firsts(Emitted(c, 2048), MAX_ITEMS))
  {
    FirstCreated(s, "a\nb", File, now);
    var c := Create(s, "a\nb", File, now).fs;
    assert Named(c, 1, "a\nb");
    NoMoreEmitted(c, 2, EntrySize(c.nodes[1]), 2048);
    var e := Emitted(c, 2048);
    assert !ChildOf(c, 0, 0) by { assert Storage(c); }
    assert e == EmittedFrom(c, 1, 0, 2048);
    assert e == [c.nodes[1]] + EmittedFrom(c, 2, EntrySize(c.nodes[1]), 2048);
    NotOneLine(e, c.nodes[1]);
  }

  lemma NotOneLine(e: seq<Node>, n: Node)
    requires e == [n] && '\n' in Text(n.name)
    ensures !NoNewline(Firsts(e, MAX_ITEMS))
  {
    FirstsIsPrefix(e, MAX_ITEMS);
    NoNewlineMeaning(e);
    assert n in e;
  }

  // ---- A directory that does not fit ----

  /** A name of 31 equal characters, a different one for every k. */
  function Wide(k: nat): (name: string)
    requires k < FS_MAX_FILES
    ensures |name| == 31 && '\0' !in name && name[0] == 'A' + k as char
  {
    seq(31, _ => 'A' + k as char)
  }

  function Creates(k: nat, now: nat): seq<Op>
    requires k < FS_MAX_FILES
  {
    if k == 0 then [] else Creates(k - 1, now) + [OpCreate(Wide(k - 1), now)]
  }

  /** Slots 1 to k hold the first k of these files, below the root. */
  ghost predicate Crowded(s: Fs, k: nat) {
    && Inv(s) && s.cwd == 0 && k < FS_MAX_FILES
    && (forall i :: Live(s, i) <==> 0 <= i <= k)
    && (forall i :: 1 <= i <= k ==> s.nodes[i].parent == 0 && Text(s.nodes[i].name) == Wide(i - 1))
  }

  lemma CrowdAccepts(s: Fs, k: nat, now: nat)
    requires Crowded(s, k) && k + 1 < FS_MAX_FILES
    ensures FreeNode(s) == k + 1 && Create(s, Wide(k), File, now).rc == 0
  {
    assert !Live(s, k + 1) && forall i :: 1 <= i <= k ==> Live(s, i);
    LookupIsUnique(s, 0, Wide(k));
    var i := FindNode(s, Wide(k));
    if i >= 1 { DifferentNames(i - 1, k); }
    assert i == -1;
  }

  lemma OneMore(s: Fs, k: nat, now: nat)
    requires Crowded(s, k) && k + 1 < FS_MAX_FILES
    ensures Crowded(Create(s, Wide(k), File, now).fs, k + 1)
  {
    var name := Wide(k);
    CrowdAccepts(s, k, now);
    CreatedIsFound(s, name, File, now);
    CreateKeeps(s, name, File, now);
    FoundAtFree(s, name, File, now);
    var c := Create(s, name, File, now).fs;
    assert forall i :: Live(c, i) <==> Live(s, i) || i == k + 1;
    assert Named(c, k + 1, name);
  }

  lemma DifferentNames(i: nat, k: nat)
    requires i < k < FS_MAX_FILES
    ensures Wide(i) != Wide(k)
  {
    assert Wide(i)[0] != Wide(k)[0];
  }

  lemma {:induction false} Crowd(s: Fs, k: nat, now: nat)
    requires Fresh(s) && k < FS_MAX_FILES
    ensures Crowded(Run(s, Creates(k, now)), k)
    decreases k
  {
    if k > 0 {
      Crowd(s, k - 1, now);
      var op := OpCreate(Wide(k - 1), now);
      RunAppend(s, Creates(k - 1, now), [op]);
      RunOne(Run(s, Creates(k - 1, now)), op);
      OneMore(Run(s, Creates(k - 1, now)), k - 1, now);
    }
  }

  lemma {:induction false} CrowdRoom(s: Fs, i: nat, k: nat)
    requires Crowded(s, k) && 1 <= i <= FS_MAX_FILES
    ensures Room(ChildrenFrom(s, i)) == if i <= k then 38 * (k + 1 - i) else 0
    decreases FS_MAX_FILES - i
  {
    if i < FS_MAX_FILES {
      CrowdRoom(s, i + 1, k);
      if i <= k {
        assert ChildOf(s, i, 0);
        assert ([s.nodes[i]] + ChildrenFrom(s, i + 1))[1..] == ChildrenFrom(s, i + 1);
      }
    }
  }

  /** With 54 such files the listing in the file browser's 2048 bytes leaves some of them out. */
  lemma CrowdDoesNotFit(s: Fs, k: nat, now: nat)
    requires Fresh(s) && 54 <= k < FS_MAX_FILES
    ensures var c := Run(s, Creates(k, now)); |Emitted(c, 2048)| != |ChildrenFrom(c, 0)|
  {
    Crowd(s, k, now);
    var c := Run(s, Creates(k, now));
    CrowdRoom(c, 1, k);
    assert ChildrenFrom(c, 0) == ChildrenFrom(c, 1);
    RenderSize(ChildrenFrom(c, 0));
    ListingComplete(c, 2048);
  }
}
