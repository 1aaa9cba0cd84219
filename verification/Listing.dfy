/**
 The text format of fs_list (src/fs.c) and the parser the file browser (src/shell.c) applies to it:
 what is emitted, and exactly when parsing gives back what was listed.
 */
module Listing {
  import opened CString
  import opened FsModel

  /** Room taken by an entry besides its name: kind, two spaces, newline. */
  const ENTRY_OVERHEAD := 7
  const HEAD := 6
  const MAX_ITEMS := 32
  const MAX_ITEM_NAME := 39

  predicate Sized(s: Fs) { |s.nodes| == FS_MAX_FILES }

  function KindText(n: Node): string { if n.kind.Dir? then "DIR " else "FILE" }

  function EntrySize(n: Node): nat { |Text(n.name)| + ENTRY_OVERHEAD }

  function Entry(n: Node): (e: seq<char>)
    ensures |e| == EntrySize(n)
  {
    KindText(n) + "  " + Text(n.name) + "\n"
  }

  /** The line of an entry as it appears in the listing. */
  lemma EntryText(n: Node)
    ensures Entry(n) == (if n.kind.Dir? then "DIR   " else "FILE  ") + Text(n.name) + "\n"
  {
    assert "DIR " + "  " == "DIR   " && "FILE" + "  " == "FILE  ";
  }

  function Render(nodes: seq<Node>): seq<char> {
    if nodes == [] then [] else Entry(nodes[0]) + Render(nodes[1..])
  }

  /** Room that the entries take. */
  function Room(nodes: seq<Node>): nat {
    if nodes == [] then 0 else EntrySize(nodes[0]) + Room(nodes[1..])
  }

  lemma {:induction false} RenderSize(nodes: seq<Node>)
    ensures |Render(nodes)| == Room(nodes)
  {
    if nodes != [] { RenderSize(nodes[1..]); }
  }

  lemma RenderOne(none: seq<Node>, n: Node)
    requires none == []
    ensures Render(none + [n]) == Render(none) + Entry(n)
  {
    assert (none + [n])[1..] == none;
  }

  lemma {:induction false} RenderSnoc(nodes: seq<Node>, n: Node)
    ensures Render(nodes + [n]) == Render(nodes) + Entry(n)
  {
    if |nodes| == 0 {
      RenderOne(nodes, n);
    } else {
      RenderSnoc(nodes[1..], n);
      assert (nodes + [n])[1..] == nodes[1..] + [n];
    }
  }

  /** The nodes fs_list emits from slot i on when `offset` bytes are already written. */
  function EmittedFrom(s: Fs, i: nat, offset: nat, maxLen: nat): seq<Node>
    requires Sized(s) && i <= FS_MAX_FILES
    decreases |s.nodes| - i
  {
    if i == FS_MAX_FILES then []
    else if ChildOf(s, i, s.cwd) && offset + EntrySize(s.nodes[i]) < maxLen then
      [s.nodes[i]] + EmittedFrom(s, i + 1, offset + EntrySize(s.nodes[i]), maxLen)
    else EmittedFrom(s, i + 1, offset, maxLen)
  }

  function Emitted(s: Fs, maxLen: nat): seq<Node>
    requires Sized(s)
  {
    EmittedFrom(s, 0, 0, maxLen)
  }

  /** The live children of the current directory, in slot order. */
  function ChildrenFrom(s: Fs, i: nat): seq<Node>
    requires Sized(s) && i <= FS_MAX_FILES
    decreases |s.nodes| - i
  {
    if i == FS_MAX_FILES then []
    else if ChildOf(s, i, s.cwd) then [s.nodes[i]] + ChildrenFrom(s, i + 1)
    else ChildrenFrom(s, i + 1)
  }

  lemma {:induction false} ChildrenExact(s: Fs, i: nat)
    requires Sized(s) && i <= FS_MAX_FILES
    ensures forall n :: n in ChildrenFrom(s, i) <==> exists j :: i <= j < FS_MAX_FILES && ChildOf(s, j, s.cwd) && s.nodes[j] == n
    decreases FS_MAX_FILES - i
  {
    if i < FS_MAX_FILES { ChildrenExact(s, i + 1); }
  }

  /** The emitted text always leaves room for the terminating NUL. */
  lemma {:induction false} EmittedFits(s: Fs, i: nat, offset: nat, maxLen: nat)
    requires Sized(s) && i <= FS_MAX_FILES && offset < maxLen
    ensures offset + Room(EmittedFrom(s, i, offset, maxLen)) < maxLen
    decreases FS_MAX_FILES - i
  {
    if i < FS_MAX_FILES {
      if ChildOf(s, i, s.cwd) && offset + EntrySize(s.nodes[i]) < maxLen {
        EmittedFits(s, i + 1, offset + EntrySize(s.nodes[i]), maxLen);
      } else {
        EmittedFits(s, i + 1, offset, maxLen);
      }
    }
  }

  lemma {:induction false} EmittedAmongChildren(s: Fs, i: nat, offset: nat, maxLen: nat)
    requires Sized(s) && i <= FS_MAX_FILES
    ensures var e := EmittedFrom(s, i, offset, maxLen); var c := ChildrenFrom(s, i);
            |e| <= |c| && (|e| == |c| ==> e == c)
    decreases FS_MAX_FILES - i
  {
    if i < FS_MAX_FILES {
      if ChildOf(s, i, s.cwd) && offset + EntrySize(s.nodes[i]) < maxLen {
        EmittedAmongChildren(s, i + 1, offset + EntrySize(s.nodes[i]), maxLen);
      } else {
        EmittedAmongChildren(s, i + 1, offset, maxLen);
      }
    }
  }

  lemma {:induction false} AllFit(s: Fs, i: nat, offset: nat, maxLen: nat)
    requires Sized(s) && i <= FS_MAX_FILES && offset + Room(ChildrenFrom(s, i)) < maxLen
    ensures EmittedFrom(s, i, offset, maxLen) == ChildrenFrom(s, i)
    decreases FS_MAX_FILES - i
  {
    if i < FS_MAX_FILES {
      if ChildOf(s, i, s.cwd) {
        assert ([s.nodes[i]] + ChildrenFrom(s, i + 1))[1..] == ChildrenFrom(s, i + 1);
        AllFit(s, i + 1, offset + EntrySize(s.nodes[i]), maxLen);
      } else {
        AllFit(s, i + 1, offset, maxLen);
      }
    }
  }

  /** The count is the number of children exactly when all of them fit below the buffer size. */
  lemma ListingComplete(s: Fs, maxLen: nat)
    requires Sized(s) && 0 < maxLen
    ensures |Render(Emitted(s, maxLen))| < maxLen
    ensures |Emitted(s, maxLen)| == |ChildrenFrom(s, 0)| <==> |Render(ChildrenFrom(s, 0))| < maxLen
    ensures |Render(ChildrenFrom(s, 0))| < maxLen ==> Emitted(s, maxLen) == ChildrenFrom(s, 0)
  {
    EmittedFits(s, 0, 0, maxLen);
    RenderSize(Emitted(s, maxLen));
    RenderSize(ChildrenFrom(s, 0));
    EmittedAmongChildren(s, 0, 0, maxLen);
    if |Render(ChildrenFrom(s, 0))| < maxLen {
      AllFit(s, 0, 0, maxLen);
    }
  }

  // ---- The parser ----

  datatype Item = Item(kind: char, name: seq<char>)

  /** Overrun: the parser would read past the end of its buffer. */
  datatype Parsed = Overrun | Items(items: seq<Item>)

  /** Where a name that is read from position k of r on ends: at a newline, a NUL, the limit or the end. */
  function NameEnd(r: seq<char>, k: nat): (e: nat)
    requires k <= |r| && k <= MAX_ITEM_NAME
    ensures k <= e <= |r| && e <= MAX_ITEM_NAME
    decreases |r| - k
  {
    if k == |r| || r[k] == '\0' || r[k] == '\n' || k == MAX_ITEM_NAME then k else NameEnd(r, k + 1)
  }

  /** A name ends at the first newline, NUL or end of the buffer, and after 39 characters at the latest. */
  lemma {:induction false} NameEnds(r: seq<char>, k: nat)
    requires k <= |r| && k <= 39
    ensures var e := NameEnd(r, k);
            && (e == |r| || r[e] in {'\0', '\n'} || e == 39)
            && forall q :: k <= q < e ==> r[q] !in {'\0', '\n'}
    decreases |r| - k
  {
    if !(k == |r| || r[k] in {'\0', '\n'} || k == 39) { NameEnds(r, k + 1); }
  }

  function Push(x: Item, p: Parsed): Parsed {
    if p.Overrun? then Overrun else Items([x] + p.items)
  }

  /** What is left once a name of k characters, and the newline behind it if there is one, are taken. */
  function AfterName(r: seq<char>, k: nat): seq<char>
    requires k < |r|
  {
    if r[k] == '\n' then r[k + 1..] else r[k..]
  }

  /** The items in the rest r of the buffer, at most `room` of them. */
  function ParseFrom(r: seq<char>, room: nat): Parsed
    decreases |r|, room
  {
    if r == [] then Overrun
    else if r[0] == '\0' || room == 0 then Items([])
    else if |r| <= HEAD then Overrun
    else
      var k := NameEnd(r[HEAD..], 0);
      if k == |r| - HEAD then Overrun
      else Push(Item(if r[0] == 'D' then 'D' else 'F', r[HEAD..][..k]), ParseFrom(AfterName(r[HEAD..], k), room - 1))
  }

  /** What cmd_filebrowser reads from its buffer. */
  function Parse(b: seq<char>): Parsed { ParseFrom(b, MAX_ITEMS) }

  function ItemOf(n: Node): Item { Item(if n.kind.Dir? then 'D' else 'F', Text(n.name)) }

  function ItemsOf(nodes: seq<Node>): (r: seq<Item>)
    ensures |r| == |nodes| && forall k :: 0 <= k < |r| ==> r[k] == ItemOf(nodes[k])
  {
    if nodes == [] then [] else [ItemOf(nodes[0])] + ItemsOf(nodes[1..])
  }

  function Firsts(nodes: seq<Node>, n: nat): seq<Node>
    decreases |nodes|
  {
    if nodes == [] || n == 0 then [] else [nodes[0]] + Firsts(nodes[1..], n - 1)
  }

  lemma {:induction false} FirstsIsPrefix(nodes: seq<Node>, n: nat)
    ensures Firsts(nodes, n) == if |nodes| > n then nodes[..n] else nodes
  {
    if nodes != [] && n > 0 { FirstsIsPrefix(nodes[1..], n - 1); }
  }

  predicate OneLine(t: string) { t == [] || (t[0] != '\n' && OneLine(t[1..])) }

  lemma {:induction false} OneLineMeaning(t: string)
    ensures OneLine(t) <==> '\n' !in t
  {
    if t != [] {
      OneLineMeaning(t[1..]);
      assert forall c :: c in t <==> c == t[0] || c in t[1..];
    }
  }

  predicate NoNewline(nodes: seq<Node>) {
    nodes == [] || (OneLine(Text(nodes[0].name)) && NoNewline(nodes[1..]))
  }

  lemma {:induction false} NoNewlineMeaning(nodes: seq<Node>)
    ensures NoNewline(nodes) <==> forall n <- nodes :: '\n' !in Text(n.name)
  {
    if nodes != [] {
      NoNewlineMeaning(nodes[1..]);
      OneLineMeaning(Text(nodes[0].name));
      assert forall n :: n in nodes <==> n == nodes[0] || n in nodes[1..];
    }
  }

  ghost predicate ShortNames(nodes: seq<Node>) {
    forall n <- nodes :: |Text(n.name)| < FS_MAX_NAME
  }

  /** Reading stops at the newline behind the name t, or at the first newline inside it. */
  lemma {:induction false} NameRead(t: string, rest: seq<char>, k: nat)
    requires '\0' !in t && k <= |t| < MAX_ITEM_NAME
    requires forall q :: 0 <= q < k ==> t[q] != '\n'
    ensures var e := NameEnd(t + "\n" + rest, k);
            if '\n' in t then e < |t| else e == |t|
    decreases |t| - k
  {
    if k < |t| && t[k] != '\n' { NameRead(t, rest, k + 1); }
  }

  lemma EntryShape(n: Node, tail: seq<char>)
    ensures var r := Entry(n) + tail; var t := Text(n.name);
            && r[0] != '\0' && (r[0] == 'D' <==> n.kind.Dir?)
            && r[HEAD..] == t + "\n" + tail
  {
    var head := if n.kind.Dir? then "DIR   " else "FILE  ";
    assert KindText(n) + "  " == head && |head| == HEAD;
    assert Entry(n) + tail == head + (Text(n.name) + "\n" + tail);
  }

  /** One round of the parser on a whole entry. */
  lemma ParseOne(node: Node, tail: seq<char>, room: nat)
    requires room > 0 && |Text(node.name)| < FS_MAX_NAME
    ensures OneLine(Text(node.name)) ==>
              ParseFrom(Entry(node) + tail, room) == Push(ItemOf(node), ParseFrom(tail, room - 1))
    ensures !OneLine(Text(node.name)) ==>
              var p := ParseFrom(Entry(node) + tail, room);
              p.Overrun? || (p.items != [] && p.items[0] != ItemOf(node))
  {
    var r := Entry(node) + tail;
    var t := Text(node.name);
    EntryShape(node, tail);
    NameRead(t, tail, 0);
    OneLineMeaning(t);
    var k := NameEnd(r[HEAD..], 0);
    if OneLine(t) {
      assert r[HEAD..][..k] == t;
      assert AfterName(r[HEAD..], k) == tail;
    }
  }

  /** The facts one round of the proofs below needs. */
  lemma ParseRound(nodes: seq<Node>, tail: seq<char>, room: nat)
    requires ShortNames(nodes) && nodes != [] && room > 0
    ensures ShortNames(nodes[1..])
    ensures var now := ParseFrom(Render(nodes) + tail, room);
            var later := ParseFrom(Render(nodes[1..]) + tail, room - 1);
            && (OneLine(Text(nodes[0].name)) ==> now == Push(ItemOf(nodes[0]), later))
            && (!OneLine(Text(nodes[0].name)) ==> now.Overrun? || (now.items != [] && now.items[0] != ItemOf(nodes[0])))
  {
    assert Render(nodes) + tail == Entry(nodes[0]) + (Render(nodes[1..]) + tail);
    ParseOne(nodes[0], Render(nodes[1..]) + tail, room);
  }

  lemma FirstsRound(nodes: seq<Node>, m: nat)
    requires nodes != [] && m > 0
    ensures var f := Firsts(nodes, m); var g := Firsts(nodes[1..], m - 1);
            && ItemsOf(f) == [ItemOf(nodes[0])] + ItemsOf(g)
            && (NoNewline(f) <==> OneLine(Text(nodes[0].name)) && NoNewline(g))
  {
    var g := Firsts(nodes[1..], m - 1);
    assert ([nodes[0]] + g)[1..] == g;
  }

  lemma SameTail(x: Item, now: Parsed, later: Parsed, items: seq<Item>, clean: bool)
    requires clean ==> now == Push(x, later)
    requires !clean ==> now.Overrun? || (now.items != [] && now.items[0] != x)
    ensures now == Items([x] + items) <==> clean && later == Items(items)
  {
    if clean && now == Items([x] + items) {
      assert later.items == ([x] + later.items)[1..];
      assert items == ([x] + items)[1..];
    }
  }

  predicate Recovered(nodes: seq<Node>, tail: seq<char>, room: nat) {
    ParseFrom(Render(nodes) + tail, room) == Items(ItemsOf(Firsts(nodes, room)))
  }

  lemma RecoveredRound(nodes: seq<Node>, tail: seq<char>, room: nat)
    requires ShortNames(nodes) && nodes != [] && room > 0
    ensures Recovered(nodes, tail, room) <==> OneLine(Text(nodes[0].name)) && Recovered(nodes[1..], tail, room - 1)
  {
    var now := ParseFrom(Render(nodes) + tail, room);
    var later := ParseFrom(Render(nodes[1..]) + tail, room - 1);
    FirstsRound(nodes, room);
    ParseRound(nodes, tail, room);
    SameTail(ItemOf(nodes[0]), now, later, ItemsOf(Firsts(nodes[1..], room - 1)), OneLine(Text(nodes[0].name)));
  }

  /** The parser recovers the first entries exactly when their names hold no newline. */
  predicate Inverted(nodes: seq<Node>, tail: seq<char>, room: nat) {
    Recovered(nodes, tail, room) <==> NoNewline(Firsts(nodes, room))
  }

  lemma InvertedRound(nodes: seq<Node>, rest: seq<Node>, tail: seq<char>, room: nat)
    requires ShortNames(nodes) && nodes != [] && rest == nodes[1..] && room > 0 && Inverted(rest, tail, room - 1)
    ensures Inverted(nodes, tail, room)
  {
    FirstsRound(nodes, room);
    RecoveredRound(nodes, tail, room);
  }

  lemma InvertedEnd(nodes: seq<Node>, tail: seq<char>, room: nat)
    requires tail != [] && tail[0] == '\0' && (nodes == [] || room == 0)
    ensures Inverted(nodes, tail, room)
  {
    ParseEnd(nodes, tail, room);
  }

  lemma {:induction false} ParseRendered(nodes: seq<Node>, tail: seq<char>, room: nat)
    requires ShortNames(nodes) && tail != [] && tail[0] == '\0'
    ensures Inverted(nodes, tail, room)
    decreases |nodes|, 1
  {
    if |nodes| == 0 || room == 0 {
      InvertedEnd(nodes, tail, room);
    } else {
      assert ShortNames(nodes[1..]);
      ParseNext(nodes, nodes[1..], tail, room);
    }
  }

  lemma {:induction false} ParseNext(nodes: seq<Node>, rest: seq<Node>, tail: seq<char>, room: nat)
    requires ShortNames(nodes) && ShortNames(rest) && nodes != [] && rest == nodes[1..] && tail != [] && tail[0] == '\0' && room > 0
    ensures Inverted(nodes, tail, room)
    decreases |nodes|, 0
  {
    ParseRendered(rest, tail, room - 1);
    InvertedRound(nodes, rest, tail, room);
  }

  lemma ParseEnd(nodes: seq<Node>, tail: seq<char>, room: nat)
    requires tail != [] && (if nodes == [] then tail[0] == '\0' else room == 0)
    ensures ParseFrom(Render(nodes) + tail, room) == Items([])
  {
    var r := Render(nodes) + tail;
    assert nodes == [] ==> r == tail;
  }

  /**
   The parser recovers kind and name of the first 32 listed entries, whatever follows the NUL,
   exactly when none of those names contains a newline.
   */
  lemma ParseInvertsListing(nodes: seq<Node>, rest: seq<char>)
    requires ShortNames(nodes)
    ensures NoNewline(Firsts(nodes, MAX_ITEMS)) <==>
              Parse(Render(nodes) + ("\0" + rest)) == Items(ItemsOf(Firsts(nodes, MAX_ITEMS)))
  {
    ParseRendered(nodes, "\0" + rest, MAX_ITEMS);
  }

  /** The parser loop of cmd_filebrowser; its arrays hold `limit` items. */
  method ParseListing(b: seq<char>, limit: nat) returns (r: Parsed)
    ensures r == ParseFrom(b, limit)
  {
    var items: seq<Item> := [];
    var i := 0;
    ghost var room, rest := limit, ParseFrom(b, limit);
    assert b[0..] == b;
    while i < |b| && b[i] != '\0' && |items| < limit
      invariant i <= |b| && |items| <= limit && room == limit - |items|
      invariant rest == ParseFrom(b[i..], room)
      invariant ParseFrom(b, limit) == Prepend(items, rest)
      decreases |b| - i
    {
      var item, next := ParseEntry(b, i, room);
      if next > |b| { return Overrun; }
      ghost var more := ParseFrom(b[next..], room - 1);
      PrependPush(ParseFrom(b, limit), items, rest, item, more);
      rest, room := more, room - 1;
      items := items + [item];
      i := next;
    }
    ParseStop(b, i, room);
    if i >= |b| { return Overrun; }
    PrependNothing(items, rest);
    return Items(items);
  }

  lemma PrependNothing(items: seq<Item>, rest: Parsed)
    requires rest == Items([])
    ensures Prepend(items, rest) == Items(items)
  {
  }

  /** One round: the item that starts at i and where the next one starts, unless the buffer ends first. */
  method ParseEntry(b: seq<char>, i: nat, ghost room: nat) returns (item: Item, next: nat)
    requires i < |b| && b[i] != '\0' && room > 0
    ensures i < next <= |b| + 1
    ensures next <= |b| ==> ParseFrom(b[i..], room) == Push(item, ParseFrom(b[next..], room - 1))
    ensures next > |b| ==> ParseFrom(b[i..], room) == Overrun
  {
    item, next := Item('F', "?"), |b| + 1;
    if i + HEAD < |b| {
      var k := ReadName(b, i + HEAD);
      var e := i + HEAD + k;
      if e < |b| {
        ParseWhole(b, i, room, e);
        item, next := ItemAt(b, i, e), Skip(b, e);
      } else {
        ParseCut(b, i, room);
      }
    } else {
      ParseCut(b, i, room);
    }
  }

  lemma ParseStop(b: seq<char>, i: nat, room: nat)
    requires i <= |b| && (i < |b| && b[i] != '\0' ==> room == 0)
    ensures ParseFrom(b[i..], room) == if i == |b| then Overrun else Items([])
  {
  }

  /** ParseFrom at position i of the whole buffer when the entry there ends inside the buffer. */
  lemma ParseWhole(b: seq<char>, i: nat, room: nat, e: nat)
    requires i + HEAD < |b| && b[i] != '\0' && room > 0
    requires e == i + HEAD + NameEnd(b[i + HEAD..], 0) && e < |b|
    ensures ParseFrom(b[i..], room) == Push(ItemAt(b, i, e), ParseFrom(b[Skip(b, e)..], room - 1))
  {
    var r := b[i + HEAD..];
    assert b[i..][HEAD..] == r;
    var k := NameEnd(r, 0);
    assert r[..k] == b[i + HEAD..e];
    assert AfterName(r, k) == b[Skip(b, e)..];
  }

  lemma ParseCut(b: seq<char>, i: nat, room: nat)
    requires i < |b| && b[i] != '\0' && room > 0
    requires i + HEAD >= |b| || i + HEAD + NameEnd(b[i + HEAD..], 0) == |b|
    ensures ParseFrom(b[i..], room) == Overrun
  {
    if i + HEAD < |b| {
      assert b[i..][HEAD..] == b[i + HEAD..];
    }
  }

  /** The entry whose name ends at e, and where the next one starts. */
  function ItemAt(b: seq<char>, i: nat, e: nat): Item
    requires i < |b| && i + HEAD <= e <= |b|
  {
    Item(if b[i] == 'D' then 'D' else 'F', b[i + HEAD..e])
  }

  function Skip(b: seq<char>, e: nat): nat
    requires e < |b|
  {
    if b[e] == '\n' then e + 1 else e
  }

  function Prepend(items: seq<Item>, p: Parsed): Parsed {
    if p.Overrun? then Overrun else Items(items + p.items)
  }

  lemma PrependPush(whole: Parsed, items: seq<Item>, rest: Parsed, x: Item, p: Parsed)
    requires whole == Prepend(items, rest) && rest == Push(x, p)
    ensures whole == Prepend(items + [x], p)
  {
    if p.Items? { assert items + ([x] + p.items) == (items + [x]) + p.items; }
  }

  /** Its inner loop: the length of the name that starts at `from`. */
  method ReadName(b: seq<char>, from: nat) returns (k: nat)
    requires from <= |b|
    ensures k == NameEnd(b[from..], 0)
  {
    k := 0;
    while from + k < |b| && b[from + k] != '\0' && b[from + k] != '\n' && k < MAX_ITEM_NAME
      invariant from + k <= |b| && k <= MAX_ITEM_NAME
      invariant NameEnd(b[from..], 0) == NameEnd(b[from..], k)
    {
      k := k + 1;
    }
  }
}
