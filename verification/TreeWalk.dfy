/** tree_print_recurse (src/shell.c): the recursive listing of the whole tree. */
module TreeWalk {
  import opened FsModel
  import opened FsInvariant
  import opened FsTree

  /** One printed line: which node, and how far it is indented. */
  datatype Line = Line(node: int, depth: nat)

  ghost predicate Ready(s: Fs, depth: seq<nat>) {
    && Storage(s) && TreeOk(s, depth)
    && (forall i :: 0 <= i < FS_MAX_FILES && Live(s, i) ==> depth[i] < FS_MAX_FILES)
  }

  /** Every state a run reaches is ready to be walked. */
  lemma InvReady(s: Fs) returns (depth: seq<nat>)
    requires Inv(s)
    ensures Ready(s, depth)
  {
    depth :| TreeOk(s, depth);
    forall i | 0 <= i < FS_MAX_FILES && Live(s, i)
      ensures depth[i] < FS_MAX_FILES
    {
      DepthBound(s, depth, i);
    }
  }

  predicate Printed(s: Fs, i: int, dir: int) { i != 0 && ChildOf(s, i, dir) }

  /** The lines for the children of dir that stand in slot i or later, each followed by what is below it. */
  ghost function Walk(s: Fs, depth: seq<nat>, dir: int, i: nat): seq<Line>
    requires Ready(s, depth) && Live(s, dir) && i <= FS_MAX_FILES
    decreases FS_MAX_FILES - depth[dir], FS_MAX_FILES - i, depth
  {
    if i == FS_MAX_FILES then []
    else if Printed(s, i, dir) then
      assert Placed(s, depth, i);
      [Line(i, depth[dir] + 1)]
      + (if s.nodes[i].kind.Dir? then Walk(s, depth, i, 0) else [])
      + Walk(s, depth, dir, i + 1)
    else Walk(s, depth, dir, i + 1)
  }

  /** The method prints exactly these lines; it stops because depth grows and is bounded. */
  method TreePrint(s: Fs, dir: int, indent: nat, ghost depth: seq<nat>) returns (out: seq<Line>)
    requires Ready(s, depth) && Live(s, dir) && indent == depth[dir] + 1
    ensures out == Walk(s, depth, dir, 0)
    decreases FS_MAX_FILES - depth[dir]
  {
    out := [];
    for i := 0 to FS_MAX_FILES
      invariant Walk(s, depth, dir, 0) == out + Walk(s, depth, dir, i)
    {
      if s.nodes[i].inUse && s.nodes[i].parent == dir && i != 0 {
        assert Placed(s, depth, i) && Printed(s, i, dir);
        ghost var rest := Walk(s, depth, dir, i + 1);
        var below := [];
        if s.nodes[i].kind.Dir? {
          below := TreePrint(s, i, indent + 1, depth);
        }
        assert out + ([Line(i, indent)] + below + rest) == (out + [Line(i, indent)] + below) + rest;
        out := out + [Line(i, indent)] + below;
      }
    }
    assert out + [] == out;
  }

  /** cmd_tree: the walk from the root. */
  method CmdTree(s: Fs, ghost depth: seq<nat>) returns (out: seq<Line>)
    requires Ready(s, depth)
    ensures out == Walk(s, depth, 0, 0)
  {
    out := TreePrint(s, 0, 1, depth);
  }

  // ---- What is printed ----

  /** The ancestor of j at depth t (j itself at its own depth). */
  ghost function Ancestor(s: Fs, depth: seq<nat>, j: int, t: nat): (a: int)
    requires Ready(s, depth) && Live(s, j) && t <= depth[j]
    ensures Live(s, a) && depth[a] == t
    decreases depth[j]
  {
    if t == depth[j] then j
    else
      assert Placed(s, depth, j);
      Ancestor(s, depth, s.nodes[j].parent, t)
  }

  ghost predicate Below(s: Fs, depth: seq<nat>, j: int, dir: int)
    requires Ready(s, depth) && Live(s, j) && Live(s, dir)
  {
    depth[dir] < depth[j] && Ancestor(s, depth, j, depth[dir]) == dir
  }

  /** The ancestor one level further down is a child of the ancestor. */
  lemma AncestorChild(s: Fs, depth: seq<nat>, j: int, t: nat)
    requires Ready(s, depth) && Live(s, j) && t < depth[j]
    ensures var a := Ancestor(s, depth, j, t + 1);
            a != 0 && Placed(s, depth, a) && s.nodes[a].parent == Ancestor(s, depth, j, t)
    decreases depth[j]
  {
    assert j != 0 && Placed(s, depth, j);
    if t + 1 < depth[j] {
      AncestorChild(s, depth, s.nodes[j].parent, t);
    }
  }

  function Count(out: seq<Line>, l: Line): nat {
    if out == [] then 0 else (if out[0] == l then 1 else 0) + Count(out[1..], l)
  }

  lemma {:induction false} CountAppend(a: seq<Line>, b: seq<Line>, l: Line)
    ensures Count(a + b, l) == Count(a, l) + Count(b, l)
  {
    if a == [] {
      assert a + b == b;
    } else {
      assert (a + b)[1..] == a[1..] + b;
      CountAppend(a[1..], b, l);
    }
  }

  /** How often the line of j is printed below dir from slot i on: once or never. */
  ghost function Expected(s: Fs, depth: seq<nat>, dir: int, i: nat, j: int): nat
    requires Ready(s, depth) && Live(s, dir) && Live(s, j)
  {
    if Below(s, depth, j, dir) && Ancestor(s, depth, j, depth[dir] + 1) >= i then 1 else 0
  }

  lemma {:induction false} WalkCounts(s: Fs, depth: seq<nat>, dir: int, i: nat, j: int)
    requires Ready(s, depth) && LiveDir(s, dir) && i <= FS_MAX_FILES && Live(s, j)
    ensures Count(Walk(s, depth, dir, i), Line(j, depth[j])) == Expected(s, depth, dir, i, j)
    decreases FS_MAX_FILES - depth[dir], FS_MAX_FILES - i
  {
    if i < FS_MAX_FILES {
      WalkCounts(s, depth, dir, i + 1, j);
      if Below(s, depth, j, dir) { AncestorChild(s, depth, j, depth[dir]); }
      if Printed(s, i, dir) {
        assert Placed(s, depth, i);
        var l := Line(j, depth[j]);
        var head := [Line(i, depth[dir] + 1)];
        var below := if s.nodes[i].kind.Dir? then Walk(s, depth, i, 0) else [];
        CountAppend(head + below, Walk(s, depth, dir, i + 1), l);
        CountAppend(head, below, l);
        assert head[1..] == [];
        NothingBelowFile(s, depth, i, j);
        if s.nodes[i].kind.Dir? { WalkCounts(s, depth, i, 0, j); }
        SplitAtChild(s, depth, dir, i, j);
      }
    }
  }

  /** A node that is not a directory has nothing below it. */
  lemma NothingBelowFile(s: Fs, depth: seq<nat>, i: int, j: int)
    requires Ready(s, depth) && Live(s, i) && Live(s, j)
    ensures Below(s, depth, j, i) ==> s.nodes[i].kind.Dir?
  {
    if Below(s, depth, j, i) { AncestorChild(s, depth, j, depth[i]); }
  }

  /** Below dir through child i means being i or being below i. */
  lemma SplitAtChild(s: Fs, depth: seq<nat>, dir: int, i: int, j: int)
    requires Ready(s, depth) && Live(s, dir) && Live(s, j) && Printed(s, i, dir) && Live(s, i)
    ensures (Below(s, depth, j, dir) && Ancestor(s, depth, j, depth[dir] + 1) == i) <==> (j == i || Below(s, depth, j, i))
    ensures !Below(s, depth, i, i)
    ensures depth[i] == depth[dir] + 1
  {
    assert Placed(s, depth, i);
    if depth[dir] < depth[j] { AncestorChild(s, depth, j, depth[dir]); }
  }

  /** Every line says where its node is in the tree. */
  ghost predicate TrueLines(s: Fs, depth: seq<nat>, out: seq<Line>)
    requires |depth| == FS_MAX_FILES
  {
    forall k :: 0 <= k < |out| ==> 1 <= out[k].node < FS_MAX_FILES && Live(s, out[k].node) && out[k].depth == depth[out[k].node]
  }

  /** Every line's parent is top or has been printed earlier. */
  ghost predicate ParentsFirst(s: Fs, out: seq<Line>, top: int)
    requires |s.nodes| == FS_MAX_FILES
  {
    forall k :: 0 <= k < |out| && 0 <= out[k].node < FS_MAX_FILES ==>
                  var p := s.nodes[out[k].node].parent;
                  p == top || exists m :: 0 <= m < k && out[m].node == p
  }

  lemma ParentsFirstAppend(s: Fs, a: seq<Line>, b: seq<Line>, top: int)
    requires |s.nodes| == FS_MAX_FILES && ParentsFirst(s, a, top) && ParentsFirst(s, b, top)
    ensures ParentsFirst(s, a + b, top)
  {
    var out := a + b;
    forall k | 0 <= k < |out| && 0 <= out[k].node < FS_MAX_FILES
      ensures var p := s.nodes[out[k].node].parent;
              p == top || exists m :: 0 <= m < k && out[m].node == p
    {
      var p := s.nodes[out[k].node].parent;
      if k < |a| {
        if p != top {
          var m :| 0 <= m < k && a[m].node == p;
          assert out[m].node == p;
        }
      } else if p != top {
        var m :| 0 <= m < k - |a| && b[m].node == p;
        assert out[|a| + m].node == p;
      }
    }
  }

  lemma ParentsFirstNest(s: Fs, l: Line, below: seq<Line>, top: int)
    requires |s.nodes| == FS_MAX_FILES && 0 <= l.node < FS_MAX_FILES && s.nodes[l.node].parent == top
    requires ParentsFirst(s, below, l.node)
    ensures ParentsFirst(s, [l] + below, top)
  {
    var out := [l] + below;
    forall k | 0 <= k < |out| && 0 <= out[k].node < FS_MAX_FILES
      ensures var p := s.nodes[out[k].node].parent;
              p == top || exists m :: 0 <= m < k && out[m].node == p
    {
      var p := s.nodes[out[k].node].parent;
      if k > 0 && p != l.node {
        var m :| 0 <= m < k - 1 && below[m].node == p;
        assert out[m + 1].node == p;
      } else if k > 0 {
        assert out[0].node == p;
      }
    }
  }

  lemma {:induction false} WalkShape(s: Fs, depth: seq<nat>, dir: int, i: nat)
    requires Ready(s, depth) && Live(s, dir) && i <= FS_MAX_FILES
    ensures TrueLines(s, depth, Walk(s, depth, dir, i))
    ensures ParentsFirst(s, Walk(s, depth, dir, i), dir)
    decreases FS_MAX_FILES - depth[dir], FS_MAX_FILES - i
  {
    if i < FS_MAX_FILES {
      WalkShape(s, depth, dir, i + 1);
      if Printed(s, i, dir) {
        assert Placed(s, depth, i);
        var l := Line(i, depth[dir] + 1);
        var below := if s.nodes[i].kind.Dir? then Walk(s, depth, i, 0) else [];
        if s.nodes[i].kind.Dir? { WalkShape(s, depth, i, 0); }
        ParentsFirstNest(s, l, below, dir);
        ParentsFirstAppend(s, [l] + below, Walk(s, depth, dir, i + 1), dir);
      }
    }
  }

  // ---- Where lines stand ----

  /** Line m is that of the parent of line k, and all lines between are indented at least as far as k. */
  ghost predicate Heads(s: Fs, out: seq<Line>, m: int, k: int)
    requires 0 <= m < k < |out| && TableLines(s, out)
  {
    && out[m].node == s.nodes[out[k].node].parent && out[m].depth + 1 == out[k].depth
    && forall j :: m < j < k ==> out[j].depth >= out[k].depth
  }

  ghost predicate TableLines(s: Fs, out: seq<Line>) {
    |s.nodes| == FS_MAX_FILES && forall k :: 0 <= k < |out| ==> 1 <= out[k].node < FS_MAX_FILES
  }

  ghost predicate HasHead(s: Fs, out: seq<Line>, k: int)
    requires 0 <= k < |out| && TableLines(s, out)
  {
    exists m :: 0 <= m < k && Heads(s, out, m, k)
  }

  /** A line one deeper than `base` belongs to dir; a deeper one stands in the block behind its parent's. */
  ghost predicate InBlock(s: Fs, out: seq<Line>, k: int, dir: int, base: nat)
    requires 0 <= k < |out| && TableLines(s, out)
  {
    && out[k].depth > base
    && (if out[k].depth == base + 1 then s.nodes[out[k].node].parent == dir else HasHead(s, out, k))
  }

  ghost predicate Nested(s: Fs, out: seq<Line>, dir: int, base: nat) {
    TableLines(s, out) && forall k :: 0 <= k < |out| ==> InBlock(s, out, k, dir, base)
  }

  lemma HeadsAhead(s: Fs, a: seq<Line>, b: seq<Line>, k: int)
    requires TableLines(s, a + b) && TableLines(s, a) && 0 <= k < |a| && HasHead(s, a, k)
    ensures HasHead(s, a + b, k)
  {
    var m :| 0 <= m < k && Heads(s, a, m, k);
    assert Heads(s, a + b, m, k);
  }

  lemma HeadsShift(s: Fs, a: seq<Line>, b: seq<Line>, k: int)
    requires TableLines(s, a + b) && TableLines(s, b) && 0 <= k < |b| && HasHead(s, b, k)
    ensures HasHead(s, a + b, |a| + k)
  {
    var m :| 0 <= m < k && Heads(s, b, m, k);
    var out := a + b;
    forall j | |a| + m < j < |a| + k ensures out[j].depth >= out[|a| + k].depth {
      assert out[j] == b[j - |a|];
    }
    assert Heads(s, out, |a| + m, |a| + k);
  }

  lemma NestedAppend(s: Fs, a: seq<Line>, b: seq<Line>, dir: int, base: nat)
    requires Nested(s, a, dir, base) && Nested(s, b, dir, base)
    ensures Nested(s, a + b, dir, base)
  {
    var out := a + b;
    assert TableLines(s, out);
    forall k | 0 <= k < |out|
      ensures InBlock(s, out, k, dir, base)
    {
      if k < |a| {
        assert out[k] == a[k] && InBlock(s, a, k, dir, base);
        if out[k].depth > base + 1 { HeadsAhead(s, a, b, k); }
      } else {
        assert out[k] == b[k - |a|] && InBlock(s, b, k - |a|, dir, base);
        if out[k].depth > base + 1 { HeadsShift(s, a, b, k - |a|); }
      }
    }
  }

  /** The line l heads every line one deeper in the block behind it. */
  lemma HeadedByFirst(s: Fs, l: Line, below: seq<Line>, base: nat, k: int)
    requires TableLines(s, [l] + below) && TableLines(s, below) && 0 <= k < |below| && below[k].depth == base + 2 && l.depth == base + 1
    requires s.nodes[below[k].node].parent == l.node && forall j :: 0 <= j < |below| ==> below[j].depth >= base + 2
    ensures HasHead(s, [l] + below, k + 1)
  {
    var out := [l] + below;
    forall j | 0 < j < k + 1 ensures out[j].depth >= out[k + 1].depth { assert out[j] == below[j - 1]; }
    assert Heads(s, out, 0, k + 1);
  }

  /** A directory's line with its block behind it. */
  lemma NestedUnder(s: Fs, l: Line, below: seq<Line>, dir: int, base: nat)
    requires Nested(s, below, l.node, base + 1) && 1 <= l.node < FS_MAX_FILES
    requires s.nodes[l.node].parent == dir && l.depth == base + 1
    ensures Nested(s, [l] + below, dir, base)
  {
    var out := [l] + below;
    assert TableLines(s, out);
    forall j | 0 <= j < |below| ensures below[j].depth >= base + 2 { assert InBlock(s, below, j, l.node, base + 1); }
    forall k | 0 < k < |out|
      ensures InBlock(s, out, k, dir, base)
    {
      assert out[k] == below[k - 1] && InBlock(s, below, k - 1, l.node, base + 1);
      if out[k].depth == base + 2 {
        HeadedByFirst(s, l, below, base, k - 1);
      } else {
        HeadsShift(s, [l], below, k - 1);
      }
    }
  }

  lemma {:induction false} WalkNested(s: Fs, depth: seq<nat>, dir: int, i: nat)
    requires Ready(s, depth) && Live(s, dir) && i <= FS_MAX_FILES
    ensures Nested(s, Walk(s, depth, dir, i), dir, depth[dir])
    decreases FS_MAX_FILES - depth[dir], FS_MAX_FILES - i
  {
    if i < FS_MAX_FILES {
      WalkNested(s, depth, dir, i + 1);
      if Printed(s, i, dir) {
        assert Placed(s, depth, i);
        var below := if s.nodes[i].kind.Dir? then Walk(s, depth, i, 0) else [];
        if s.nodes[i].kind.Dir? { WalkNested(s, depth, i, 0); }
        NestedStep(s, Line(i, depth[dir] + 1), below, Walk(s, depth, dir, i + 1), dir, depth[dir]);
      }
    }
  }

  lemma NestedStep(s: Fs, l: Line, below: seq<Line>, rest: seq<Line>, dir: int, base: nat)
    requires Nested(s, below, l.node, base + 1) && 1 <= l.node < FS_MAX_FILES
    requires s.nodes[l.node].parent == dir && l.depth == base + 1 && Nested(s, rest, dir, base)
    ensures Nested(s, [l] + below + rest, dir, base)
  {
    NestedUnder(s, l, below, dir, base);
    NestedAppend(s, [l] + below, rest, dir, base);
  }

  lemma {:induction false} CountOf(out: seq<Line>, k: nat)
    requires k < |out|
    ensures Count(out, out[k]) > 0
  {
    if k > 0 { CountOf(out[1..], k - 1); }
  }

  /** Every line printed below dir from slot i on is of a node that hangs below such a child. */
  lemma LineIsBelow(s: Fs, depth: seq<nat>, dir: int, i: nat, k: nat)
    requires Ready(s, depth) && LiveDir(s, dir) && i <= FS_MAX_FILES && k < |Walk(s, depth, dir, i)|
    ensures var j := Walk(s, depth, dir, i)[k].node;
            0 <= j < FS_MAX_FILES && Live(s, j) && Below(s, depth, j, dir) && Ancestor(s, depth, j, depth[dir] + 1) >= i
  {
    var out := Walk(s, depth, dir, i);
    WalkShape(s, depth, dir, i);
    CountOf(out, k);
    WalkCounts(s, depth, dir, i, out[k].node);
  }

  /** Lines of nodes with the same parent come in slot order. */
  ghost predicate Ascending(s: Fs, out: seq<Line>) {
    && TableLines(s, out)
    && forall k, l :: 0 <= k < l < |out| && s.nodes[out[k].node].parent == s.nodes[out[l].node].parent ==> out[k].node < out[l].node
  }

  /** No node of the first list has the same parent as a later sibling of the second. */
  ghost predicate AllBefore(s: Fs, a: seq<Line>, b: seq<Line>)
    requires TableLines(s, a) && TableLines(s, b)
  {
    forall k, l :: 0 <= k < |a| && 0 <= l < |b| && s.nodes[a[k].node].parent == s.nodes[b[l].node].parent ==> a[k].node < b[l].node
  }

  lemma AscendingAppend(s: Fs, a: seq<Line>, b: seq<Line>)
    requires Ascending(s, a) && Ascending(s, b) && AllBefore(s, a, b)
    ensures Ascending(s, a + b)
  {
  }

  /** Nodes below different children of dir have different parents. */
  lemma DifferentParents(s: Fs, depth: seq<nat>, dir: int, i: int, j: int, k: int)
    requires Ready(s, depth) && Live(s, dir) && Printed(s, i, dir) && Live(s, i) && Live(s, j) && Live(s, k)
    requires depth[i] == depth[dir] + 1 && Below(s, depth, j, i)
    requires Below(s, depth, k, dir) && Ancestor(s, depth, k, depth[dir] + 1) > i
    ensures s.nodes[j].parent != s.nodes[k].parent
  {
    assert Placed(s, depth, j) && Placed(s, depth, k);
  }

  lemma {:induction false} WalkAscending(s: Fs, depth: seq<nat>, dir: int, i: nat)
    requires Ready(s, depth) && LiveDir(s, dir) && i <= FS_MAX_FILES
    ensures Ascending(s, Walk(s, depth, dir, i))
    decreases FS_MAX_FILES - depth[dir], FS_MAX_FILES - i
  {
    if i < FS_MAX_FILES {
      WalkAscending(s, depth, dir, i + 1);
      if Printed(s, i, dir) {
        assert Placed(s, depth, i);
        var below := if s.nodes[i].kind.Dir? then Walk(s, depth, i, 0) else [];
        if s.nodes[i].kind.Dir? { WalkAscending(s, depth, i, 0); }
        AscendingStep(s, depth, dir, i, below, Walk(s, depth, dir, i + 1));
      }
    }
  }

  lemma AscendingStep(s: Fs, depth: seq<nat>, dir: int, i: nat, below: seq<Line>, rest: seq<Line>)
    requires Ready(s, depth) && LiveDir(s, dir) && i < FS_MAX_FILES && Printed(s, i, dir)
    requires below == if s.nodes[i].kind.Dir? then Walk(s, depth, i, 0) else []
    requires rest == Walk(s, depth, dir, i + 1) && Ascending(s, below) && Ascending(s, rest)
    ensures Ascending(s, [Line(i, depth[dir] + 1)] + below + rest)
  {
    var head := [Line(i, depth[dir] + 1)];
    assert Placed(s, depth, i);
    BlockBelow(s, depth, dir, i, below);
    AscendingAppend(s, head, below);
    BlockBeforeRest(s, depth, dir, i, below, rest);
    AscendingAppend(s, head + below, rest);
  }

  /** What stands in the block of child i hangs below i, so it is no child of dir itself. */
  lemma BlockBelow(s: Fs, depth: seq<nat>, dir: int, i: nat, below: seq<Line>)
    requires Ready(s, depth) && LiveDir(s, dir) && i < FS_MAX_FILES && Printed(s, i, dir)
    requires below == if s.nodes[i].kind.Dir? then Walk(s, depth, i, 0) else []
    ensures TableLines(s, below) && forall k :: 0 <= k < |below| ==>
              Live(s, below[k].node) && Below(s, depth, below[k].node, i) && s.nodes[below[k].node].parent != dir
  {
    assert Placed(s, depth, i);
    forall k | 0 <= k < |below|
      ensures 1 <= below[k].node < FS_MAX_FILES && Live(s, below[k].node) && Below(s, depth, below[k].node, i)
      ensures s.nodes[below[k].node].parent != dir
    {
      LineIsBelow(s, depth, i, 0, k);
      assert Placed(s, depth, below[k].node);
    }
  }

  lemma BlockBeforeRest(s: Fs, depth: seq<nat>, dir: int, i: nat, below: seq<Line>, rest: seq<Line>)
    requires Ready(s, depth) && LiveDir(s, dir) && i < FS_MAX_FILES && Printed(s, i, dir)
    requires below == if s.nodes[i].kind.Dir? then Walk(s, depth, i, 0) else []
    requires rest == Walk(s, depth, dir, i + 1) && TableLines(s, rest) && TableLines(s, [Line(i, depth[dir] + 1)] + below)
    ensures AllBefore(s, [Line(i, depth[dir] + 1)] + below, rest)
  {
    var front := [Line(i, depth[dir] + 1)] + below;
    BlockBelow(s, depth, dir, i, below);
    forall k, l | 0 <= k < |front| && 0 <= l < |rest| && s.nodes[front[k].node].parent == s.nodes[rest[l].node].parent
      ensures front[k].node < rest[l].node
    {
      RestIsLater(s, depth, dir, i, l);
      if k > 0 {
        assert front[k] == below[k - 1];
        assert Placed(s, depth, i);
        DifferentParents(s, depth, dir, i, below[k - 1].node, rest[l].node);
      }
    }
  }

  /** A later line is of a later child, or hangs below one. */
  lemma RestIsLater(s: Fs, depth: seq<nat>, dir: int, i: nat, l: nat)
    requires Ready(s, depth) && LiveDir(s, dir) && i < FS_MAX_FILES && l < |Walk(s, depth, dir, i + 1)|
    ensures var j := Walk(s, depth, dir, i + 1)[l].node;
            && 0 <= j < FS_MAX_FILES && Live(s, j) && Below(s, depth, j, dir) && Ancestor(s, depth, j, depth[dir] + 1) > i
            && (s.nodes[j].parent == dir ==> j > i)
  {
    LineIsBelow(s, depth, dir, i + 1, l);
    assert Placed(s, depth, Walk(s, depth, dir, i + 1)[l].node);
  }

  /**
   From the root: every live node but the root is printed exactly once, indented by the length of
   its parent chain; and nothing else is printed. Every directory's block follows its own line
   directly, and siblings come in slot order: for k beyond depth 1, the last line before k that is
   indented one less is that of k's parent.
   */
  lemma TreePrintsAll(s: Fs, depth: seq<nat>)
    requires Ready(s, depth)
    ensures var out := Walk(s, depth, 0, 0);
            && (forall j :: 1 <= j < FS_MAX_FILES && Live(s, j) ==> Count(out, Line(j, depth[j])) == 1)
            && (forall k :: 0 <= k < |out| ==>
                  && 1 <= out[k].node < FS_MAX_FILES && Live(s, out[k].node)
                  && out[k].depth == depth[out[k].node] == |Chain(s, depth, out[k].node)| - 1)
            && ParentsFirst(s, out, 0) && Nested(s, out, 0, 0) && Ascending(s, out)
  {
    var out := Walk(s, depth, 0, 0);
    WalkShape(s, depth, 0, 0);
    WalkNested(s, depth, 0, 0);
    WalkAscending(s, depth, 0, 0);
    forall j | 1 <= j < FS_MAX_FILES && Live(s, j)
      ensures Count(out, Line(j, depth[j])) == 1
    {
      WalkCounts(s, depth, 0, 0, j);
      AncestorIsRoot(s, depth, j);
    }
  }

  lemma {:induction false} AncestorIsRoot(s: Fs, depth: seq<nat>, j: int)
    requires Ready(s, depth) && Live(s, j)
    ensures Ancestor(s, depth, j, 0) == 0
    ensures j > 0 ==> depth[j] > 0
    decreases depth[j]
  {
    if j > 0 {
      assert Placed(s, depth, j);
      AncestorIsRoot(s, depth, s.nodes[j].parent);
    }
  }
}
