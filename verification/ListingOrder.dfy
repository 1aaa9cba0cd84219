/** Which entries fs_list (src/fs.c) lists when not all of them fit into the buffer. */
module ListingOrder {
  import opened FsModel
  import opened Listing

  function NodesAt(s: Fs, slots: seq<int>): seq<Node>
    requires forall k :: 0 <= k < |slots| ==> 0 <= slots[k] < |s.nodes|
  {
    if slots == [] then [] else [s.nodes[slots[0]]] + NodesAt(s, slots[1..])
  }

  /** The slots of the list that stand before slot j. */
  function SlotsBefore(slots: seq<int>, j: int): seq<int> {
    if slots == [] || slots[0] >= j then [] else [slots[0]] + SlotsBefore(slots[1..], j)
  }

  ghost predicate Rising(slots: seq<int>, from: int, to: int) {
    && (forall k :: 0 <= k < |slots| ==> from <= slots[k] < to)
    && (forall k, l :: 0 <= k < l < |slots| ==> slots[k] < slots[l])
  }

  /** Child j is in the list exactly when its entry still fits behind the listed ones before it. */
  ghost predicate Decided(s: Fs, slots: seq<int>, j: int, offset: nat, maxLen: nat)
    requires 0 <= j < |s.nodes| && forall k :: 0 <= k < |slots| ==> 0 <= slots[k] < |s.nodes|
  {
    BeforeInRange(slots, j, |s.nodes|);
    j in slots <==> ChildOf(s, j, s.cwd) && offset + Room(NodesAt(s, SlotsBefore(slots, j))) + EntrySize(s.nodes[j]) < maxLen
  }

  lemma {:induction false} BeforeInRange(slots: seq<int>, j: int, n: nat)
    requires forall k :: 0 <= k < |slots| ==> 0 <= slots[k] < n
    ensures forall k :: 0 <= k < |SlotsBefore(slots, j)| ==> 0 <= SlotsBefore(slots, j)[k] < n
  {
    if slots != [] { BeforeInRange(slots[1..], j, n); }
  }

  lemma {:induction false} ListedFrom(s: Fs, i: nat, offset: nat, maxLen: nat) returns (slots: seq<int>)
    requires Sized(s) && i <= FS_MAX_FILES
    ensures Rising(slots, i, FS_MAX_FILES) && NodesAt(s, slots) == EmittedFrom(s, i, offset, maxLen)
    ensures forall j :: i <= j < FS_MAX_FILES ==> Decided(s, slots, j, offset, maxLen)
    decreases FS_MAX_FILES - i
  {
    if i == FS_MAX_FILES {
      slots := [];
    } else if ChildOf(s, i, s.cwd) && offset + EntrySize(s.nodes[i]) < maxLen {
      var rest := ListedFrom(s, i + 1, offset + EntrySize(s.nodes[i]), maxLen);
      slots := [i as int] + rest;
      assert slots[1..] == rest;
      forall j | i <= j < FS_MAX_FILES ensures Decided(s, slots, j, offset, maxLen) {
        if j > i {
          assert Decided(s, rest, j, offset + EntrySize(s.nodes[i]), maxLen);
          TakenFirst(s, rest, i, j);
        }
      }
    } else {
      slots := ListedFrom(s, i + 1, offset, maxLen);
      forall j | i <= j < FS_MAX_FILES ensures Decided(s, slots, j, offset, maxLen) {
        if j == i { NoneBefore(slots, i); }
      }
    }
  }

  lemma NoneBefore(slots: seq<int>, i: int)
    requires Rising(slots, i + 1, FS_MAX_FILES)
    ensures SlotsBefore(slots, i) == [] && i !in slots
  {
  }

  /** Slot i in front of the list adds its entry to what stands before a later slot. */
  lemma TakenFirst(s: Fs, rest: seq<int>, i: nat, j: int)
    requires Sized(s) && i < j < FS_MAX_FILES && Rising(rest, i + 1, FS_MAX_FILES)
    ensures forall k :: 0 <= k < |SlotsBefore(rest, j)| ==> 0 <= SlotsBefore(rest, j)[k] < FS_MAX_FILES
    ensures SlotsBefore([i as int] + rest, j) == [i as int] + SlotsBefore(rest, j)
    ensures Room(NodesAt(s, [i as int] + SlotsBefore(rest, j))) == EntrySize(s.nodes[i]) + Room(NodesAt(s, SlotsBefore(rest, j)))
    ensures j in [i as int] + rest <==> j in rest
  {
    BeforeInRange(rest, j, FS_MAX_FILES);
    assert ([i as int] + rest)[1..] == rest;
    var before := SlotsBefore(rest, j);
    assert ([i as int] + before)[1..] == before;
    assert ([s.nodes[i]] + NodesAt(s, before))[1..] == NodesAt(s, before);
  }

  /**
   Which children are listed, for every buffer size: in slot order, each one exactly when its entry
   and a NUL fit behind those listed before it. A later, shorter entry is still listed.
   */
  lemma ListedSlots(s: Fs, maxLen: nat) returns (slots: seq<int>)
    requires Sized(s)
    ensures Rising(slots, 0, FS_MAX_FILES) && NodesAt(s, slots) == Emitted(s, maxLen)
    ensures forall j :: 0 <= j < FS_MAX_FILES ==> Decided(s, slots, j, 0, maxLen)
  {
    slots := ListedFrom(s, 0, 0, maxLen);
  }
}
