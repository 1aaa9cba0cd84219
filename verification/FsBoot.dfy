/** What fs_init leaves: four directories and three files with their contents, and nothing else. */
module FsBoot {
  import opened CString
  import opened FsModel
  import opened FsInvariant
  import opened FsTree
  import opened FsFiles
  import opened FsCalls

  datatype Entry = Entry(name: string, kind: Kind, bytes: seq<char>)

  ghost predicate EntryAt(s: Fs, i: int, x: Entry) {
    && 0 <= i < |s.nodes| && NodeOk(s.nodes[i]) && s.nodes[i].inUse && s.nodes[i].parent == 0
    && Text(s.nodes[i].name) == x.name && s.nodes[i].kind == x.kind && Contents(s.nodes[i]) == x.bytes
  }

  /** The root holds exactly these entries, in slots 1, 2 and so on. */
  ghost predicate Filled(s: Fs, xs: seq<Entry>) {
    && Inv(s) && s.cwd == 0 && |xs| < FS_MAX_FILES
    && (forall i :: Live(s, i) <==> 0 <= i <= |xs|)
    && (forall k :: 0 <= k < |xs| ==> EntryAt(s, k + 1, xs[k]))
  }

  predicate NewName(xs: seq<Entry>, name: string) {
    '\0' !in name && 0 < |name| <= 31 && forall k :: 0 <= k < |xs| ==> xs[k].name != name
  }

  lemma NotThere(s: Fs, xs: seq<Entry>, name: string)
    requires Filled(s, xs) && NewName(xs, name) && |xs| + 1 < FS_MAX_FILES
    ensures FindNode(s, name) == -1 && FreeNode(s) == |xs| + 1
  {
    forall i | 1 <= i <= |xs| ensures Text(s.nodes[i].name) != name { assert EntryAt(s, i - 1 + 1, xs[i - 1]); }
    OtherNames(s, |xs|, name);
    assert !Live(s, |xs| + 1) && forall j :: 1 <= j <= |xs| ==> Live(s, j);
  }

  lemma OtherNames(s: Fs, n: nat, name: string)
    requires Storage(s) && n < FS_MAX_FILES && forall i :: Live(s, i) ==> i <= n
    requires forall i :: 1 <= i <= n ==> Text(s.nodes[i].name) != name
    ensures FindNode(s, name) == -1
  {
  }

  lemma Added(s: Fs, xs: seq<Entry>, name: string, kind: Kind, now: nat)
    requires Filled(s, xs) && NewName(xs, name) && |xs| + 1 < FS_MAX_FILES && kind != Untyped
    ensures Filled(Create(s, name, kind, now).fs, xs + [Entry(name, kind, [])])
  {
    NotThere(s, xs, name);
    var i := |xs| + 1;
    var c := Create(s, name, kind, now).fs;
    CreateKeeps(s, name, kind, now);
    NewNodeOk(s, i, name, kind, now);
    assert c == SetNode(s, i, NewNode(s.nodes[i], name, kind, s.cwd, now));
    FillsSlot(s, c, xs, Entry(name, kind, []));
  }

  /** One slot more is filled, the others are as before. */
  lemma FillsSlot(s: Fs, c: Fs, xs: seq<Entry>, x: Entry)
    requires Filled(s, xs) && Inv(c) && c.cwd == 0 && |xs| + 1 < FS_MAX_FILES && |c.nodes| == |s.nodes|
    requires forall j :: 0 <= j < FS_MAX_FILES && j != |xs| + 1 ==> c.nodes[j] == s.nodes[j]
    requires EntryAt(c, |xs| + 1, x)
    ensures Filled(c, xs + [x])
  {
    OneMoreLive(s, c, |xs| + 1);
    forall k | 0 <= k < |xs| + 1 ensures EntryAt(c, k + 1, (xs + [x])[k]) {
      if k < |xs| { SameEntryAt(s, c, k + 1, xs[k]); }
    }
  }

  lemma OneMoreLive(s: Fs, c: Fs, n: int)
    requires |s.nodes| == |c.nodes| == FS_MAX_FILES && 0 <= n < FS_MAX_FILES && c.nodes[n].inUse
    requires forall j :: 0 <= j < FS_MAX_FILES && j != n ==> c.nodes[j] == s.nodes[j]
    ensures forall i :: Live(c, i) <==> Live(s, i) || i == n
  {
  }

  lemma SameEntryAt(s: Fs, c: Fs, i: int, x: Entry)
    requires EntryAt(s, i, x) && i < |c.nodes| && c.nodes[i] == s.nodes[i]
    ensures EntryAt(c, i, x)
  {
  }

  lemma Written(s: Fs, xs: seq<Entry>, name: string, text: string)
    requires Filled(s, xs + [Entry(name, File, [])]) && |text| <= 4095
    ensures Filled(WriteFile(s, name, text).fs, xs + [Entry(name, File, text)])
  {
    var ys := xs + [Entry(name, File, [])];
    var i := |xs| + 1;
    assert EntryAt(s, |xs| + 1, ys[|xs|]);
    FoundHere(s, i, name);
    WriteFileOutcome(s, name, text);
    WriteFileBytes(s, name, text);
    var r := WriteFile(s, name, text).fs;
    SameTreeKeeps(s, r);
    assert text[..|text|] == text;
    assert forall j :: Live(r, j) <==> Live(s, j);
    forall k | 0 <= k < |ys| ensures EntryAt(r, k + 1, (xs + [Entry(name, File, text)])[k]) {
      assert EntryAt(s, k + 1, ys[k]);
    }
  }

  /** The calls fs_init makes for one entry, and for all entries of a list. */
  function CallsOf(x: Entry, now: nat): seq<Op> {
    if x.kind.Dir? then [OpMkdir(x.name, now)] else FileCalls(x.name, x.bytes, now)
  }

  function Calls(xs: seq<Entry>, now: nat): seq<Op>
    decreases |xs|, now
  {
    if |xs| == 0 then [] else Calls(xs[..|xs| - 1], now) + CallsOf(xs[|xs| - 1], now)
  }

  ghost predicate Proper(xs: seq<Entry>) {
    && |xs| < FS_MAX_FILES
    && (forall k :: 0 <= k < |xs| ==>
          && '\0' !in xs[k].name && 0 < |xs[k].name| <= 31 && |xs[k].bytes| <= 4095
          && (xs[k].kind.File? || (xs[k].kind.Dir? && xs[k].bytes == [])))
    && (forall j, k :: 0 <= j < k < |xs| ==> xs[j].name != xs[k].name)
  }

  lemma EntryAdded(s: Fs, xs: seq<Entry>, x: Entry, now: nat)
    requires Filled(s, xs) && NewName(xs, x.name) && |xs| + 1 < FS_MAX_FILES && |x.bytes| <= 4095
    requires x.kind.File? || (x.kind.Dir? && x.bytes == [])
    ensures Filled(Run(s, CallsOf(x, now)), xs + [x])
  {
    Added(s, xs, x.name, x.kind, now);
    if x.kind.Dir? {
      RunOne(s, OpMkdir(x.name, now));
    } else {
      var c := Create(s, x.name, File, now).fs;
      Written(c, xs, x.name, x.bytes);
      RunAppend(s, [OpCreate(x.name, now)], [OpWriteFile(x.name, x.bytes)]);
      RunOne(s, OpCreate(x.name, now));
      RunOne(c, OpWriteFile(x.name, x.bytes));
    }
  }

  lemma ProperPrefix(xs: seq<Entry>)
    requires Proper(xs) && xs != []
    ensures Proper(xs[..|xs| - 1]) && NewName(xs[..|xs| - 1], xs[|xs| - 1].name)
  {
  }

  /** Any list of entries with different names is what its calls leave. */
  lemma {:induction false} CallsFill(s: Fs, none: seq<Entry>, xs: seq<Entry>, now: nat)
    requires Filled(s, none) && none == [] && Proper(xs)
    ensures Filled(Run(s, Calls(xs, now)), xs)
    decreases |xs|
  {
    if |xs| == 0 {
      assert xs == none;
    } else {
      var ys, x := xs[..|xs| - 1], xs[|xs| - 1];
      ProperPrefix(xs);
      CallsFill(s, none, ys, now);
      RunAppend(s, Calls(ys, now), CallsOf(x, now));
      EntryAdded(Run(s, Calls(ys, now)), ys, x, now);
      assert xs == ys + [x];
    }
  }

  lemma CallsSnoc(xs: seq<Entry>, x: Entry, now: nat)
    ensures Calls(xs + [x], now) == Calls(xs, now) + CallsOf(x, now)
  {
    assert (xs + [x])[..|xs|] == xs;
  }

  const HOME := Entry("home", Dir, [])
  const BIN := Entry("bin", Dir, [])
  const ETC := Entry("etc", Dir, [])
  const TMP := Entry("tmp", Dir, [])
  const README := Entry("readme.txt", File, "Welcome to MyMisu OS!\nThis is a simple ramdisk filesystem.\nType 'help' for commands.\n")
  const HOSTNAME := Entry("hostname", File, "misu-pc")
  const RELEASE := Entry("version", File, "MyMisu OS v2.0.6")

  /** What fs_init puts below the root, in slot order. */
  function BootEntries(none: seq<Entry>): seq<Entry> {
    none + [HOME] + [BIN] + [ETC] + [TMP] + [README] + [HOSTNAME] + [RELEASE]
  }

  lemma BootCallsAre(none: seq<Entry>, now: nat)
    requires none == []
    ensures Calls(BootEntries(none), now) == BootCalls(now)
  {
    CallsSnoc(none, HOME, now);
    CallsSnoc(none + [HOME], BIN, now);
    CallsSnoc(none + [HOME] + [BIN], ETC, now);
    CallsSnoc(none + [HOME] + [BIN] + [ETC], TMP, now);
    CallsSnoc(none + [HOME] + [BIN] + [ETC] + [TMP], README, now);
    CallsSnoc(none + [HOME] + [BIN] + [ETC] + [TMP] + [README], HOSTNAME, now);
    CallsSnoc(none + [HOME] + [BIN] + [ETC] + [TMP] + [README] + [HOSTNAME], RELEASE, now);
    assert Calls(none, now) == [];
    assert [] + CallsOf(HOME, now) == [OpMkdir("home", now)];
  }

  /** The shape of one boot entry: length and first character tell the names apart. */
  ghost predicate Shape(x: Entry, len: nat, first: char) {
    && |x.name| == len && 0 < len <= 31 && x.name[0] == first && '\0' !in x.name && |x.bytes| <= 4095
    && (x.kind.File? || (x.kind.Dir? && x.bytes == []))
  }

  lemma BootShapes()
    ensures Shape(HOME, 4, 'h') && Shape(BIN, 3, 'b') && Shape(ETC, 3, 'e') && Shape(TMP, 3, 't')
    ensures Shape(README, 10, 'r') && Shape(HOSTNAME, 8, 'h') && Shape(RELEASE, 7, 'v')
  {
  }

  lemma BootProper(none: seq<Entry>)
    requires none == []
    ensures Proper(BootEntries(none))
  {
    BootShapes();
    AllProper(BootEntries(none), HOME, BIN, ETC, TMP, README, HOSTNAME, RELEASE);
  }

  lemma AllProper(xs: seq<Entry>, a: Entry, b: Entry, c: Entry, d: Entry, e: Entry, f: Entry, g: Entry)
    requires |xs| == 7 && xs[0] == a && xs[1] == b && xs[2] == c && xs[3] == d && xs[4] == e && xs[5] == f && xs[6] == g
    requires Shape(a, 4, 'h') && Shape(b, 3, 'b') && Shape(c, 3, 'e') && Shape(d, 3, 't')
    requires Shape(e, 10, 'r') && Shape(f, 8, 'h') && Shape(g, 7, 'v')
    ensures Proper(xs)
  {
  }

  lemma BlankFilled(none: seq<Entry>)
    requires none == []
    ensures Filled(Blank(), none)
  {
    BlankOk();
    assert forall i :: Live(Blank(), i) <==> i == 0;
  }

  /** After fs_init the root holds exactly these seven entries. */
  lemma BootedHolds(none: seq<Entry>, now: nat)
    requires none == []
    ensures Filled(Booted(now), BootEntries(none))
  {
    BlankFilled(none);
    BootProper(none);
    CallsFill(Blank(), none, BootEntries(none), now);
    BootCallsAre(none, now);
  }
}
