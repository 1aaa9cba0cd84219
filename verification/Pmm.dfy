/** src/pmm.c: the bitmap, one bit per 4 KB page, and its two counters. */
module Pmm {
  import opened PmmModel

  const BITMAP_SIZE := MAX_PAGES / 8

  /** 1 << k for a bit position. */
  function Mask(k: nat): bv8
    requires k < 8
  {
    if k == 0 then 1 else Mask(k - 1) << 1
  }

  lemma MaskTable(k: nat)
    requires k < 8
    ensures Mask(k) == if k == 0 then 0x01 else if k == 1 then 0x02 else if k == 2 then 0x04 else if k == 3 then 0x08
                       else if k == 4 then 0x10 else if k == 5 then 0x20 else if k == 6 then 0x40 else 0x80
  {
    assert Mask(0) == 0x01 && Mask(1) == 0x02 && Mask(2) == 0x04 && Mask(3) == 0x08;
    assert Mask(4) == 0x10 && Mask(5) == 0x20 && Mask(6) == 0x40 && Mask(7) == 0x80;
  }

  predicate Bit(b: bv8, k: nat)
    requires k < 8
  {
    b & Mask(k) != 0
  }

  lemma MaskBits(b: bv8, k: nat, j: nat)
    requires k < 8 && j < 8
    ensures Bit(b | Mask(k), j) <==> j == k || Bit(b, j)
  {
    MasksDistinct(k, j);
    ByteLogic(b, Mask(k), Mask(j));
  }

  lemma UnmaskBits(b: bv8, k: nat, j: nat)
    requires k < 8 && j < 8
    ensures Bit(b & !Mask(k), j) <==> j != k && Bit(b, j)
  {
    if k == j { UnmaskOwn(b, k); } else { UnmaskOther(b, k, j); }
  }

  lemma UnmaskOwn(b: bv8, k: nat)
    requires k < 8
    ensures !Bit(b & !Mask(k), k)
  {
    EqualMasks(b, Mask(k));
  }

  lemma EqualMasks(b: bv8, m: bv8)
    ensures (b & !m) & m == 0
  {
  }

  lemma UnmaskOther(b: bv8, k: nat, j: nat)
    requires k < 8 && j < 8 && k != j
    ensures Bit(b & !Mask(k), j) <==> Bit(b, j)
  {
    MasksDistinct(k, j);
    DisjointMasks(b, Mask(k), Mask(j));
  }

  lemma DisjointMasks(b: bv8, m: bv8, n: bv8)
    requires m & n == 0
    ensures (b & !m) & n == b & n
  {
  }

  lemma MasksDistinct(k: nat, j: nat)
    requires k < 8 && j < 8
    ensures Mask(k) != 0
    ensures if k == j then Mask(k) == Mask(j) else Mask(k) & Mask(j) == 0
  {
    MaskTable(k);
    MaskTable(j);
  }

  lemma ByteLogic(b: bv8, m: bv8, n: bv8)
    ensures m & n == 0 ==> (b | m) & n == b & n
    ensures (b | m) & m == m
  {
  }

  lemma FullByte(b: bv8)
    ensures b == 0xFF <==> forall k :: 0 <= k < 8 ==> Bit(b, k)
  {
    assert Mask(0) == 0x01 && Mask(1) == 0x02 && Mask(2) == 0x04 && Mask(3) == 0x08;
    assert Mask(4) == 0x10 && Mask(5) == 0x20 && Mask(6) == 0x40 && Mask(7) == 0x80;
    if b == 0xFF {
      forall k | 0 <= k < 8 ensures Bit(b, k) { MaskTable(k); }
    }
    if forall k :: 0 <= k < 8 ==> Bit(b, k) {
      assert Bit(b, 0) && Bit(b, 1) && Bit(b, 2) && Bit(b, 3);
      assert Bit(b, 4) && Bit(b, 5) && Bit(b, 6) && Bit(b, 7);
    }
  }

  /** A byte is its eight bits. */
  lemma SameBits(a: bv8, b: bv8)
    requires forall k :: 0 <= k < 8 ==> Bit(a, k) == Bit(b, k)
    ensures a == b
  {
    assert Mask(0) == 0x01 && Mask(1) == 0x02 && Mask(2) == 0x04 && Mask(3) == 0x08;
    assert Mask(4) == 0x10 && Mask(5) == 0x20 && Mask(6) == 0x40 && Mask(7) == 0x80;
    assert Bit(a, 0) == Bit(b, 0) && Bit(a, 1) == Bit(b, 1) && Bit(a, 2) == Bit(b, 2) && Bit(a, 3) == Bit(b, 3);
    assert Bit(a, 4) == Bit(b, 4) && Bit(a, 5) == Bit(b, 5) && Bit(a, 6) == Bit(b, 6) && Bit(a, 7) == Bit(b, 7);
  }

  predicate Test(bm: seq<bv8>, p: int) { 0 <= p < 8 * |bm| && Bit(bm[p / 8], p % 8) }

  /** The set of pages a bitmap stands for. */
  function UsedSet(bm: seq<bv8>): (s: set<int>)
    ensures forall p :: p in s <==> Test(bm, p)
  {
    set p: int | 0 <= p < 8 * |bm| && Test(bm, p)
  }

  /** The set loses nothing: equal sets come from equal bitmaps. */
  lemma SameSet(a: seq<bv8>, b: seq<bv8>)
    requires |a| == |b| && UsedSet(a) == UsedSet(b)
    ensures a == b
  {
    forall i | 0 <= i < |a|
      ensures a[i] == b[i]
    {
      forall k | 0 <= k < 8
        ensures Bit(a[i], k) == Bit(b[i], k)
      {
        var p := 8 * i + k;
        assert p / 8 == i && p % 8 == k;
        assert Test(a, p) == (p in UsedSet(a)) == (p in UsedSet(b)) == Test(b, p);
      }
      SameBits(a[i], b[i]);
    }
  }

  function WithBit(bm: seq<bv8>, p: nat): seq<bv8>
    requires p < 8 * |bm|
  {
    bm[p / 8 := bm[p / 8] | Mask(p % 8)]
  }

  function WithoutBit(bm: seq<bv8>, p: nat): seq<bv8>
    requires p < 8 * |bm|
  {
    bm[p / 8 := bm[p / 8] & !Mask(p % 8)]
  }

  lemma BitSetAt(bm: seq<bv8>, p: nat, q: nat)
    requires p < 8 * |bm| && q < 8 * |bm|
    ensures Test(WithBit(bm, p), q) <==> q == p || Test(bm, q)
  {
    if q / 8 == p / 8 {
      MaskBits(bm[p / 8], p % 8, q % 8);
      assert q == 8 * (q / 8) + q % 8 && p == 8 * (p / 8) + p % 8;
    }
  }

  lemma BitClearedAt(bm: seq<bv8>, p: nat, q: nat)
    requires p < 8 * |bm| && q < 8 * |bm|
    ensures Test(WithoutBit(bm, p), q) <==> q != p && Test(bm, q)
  {
    if q / 8 == p / 8 {
      UnmaskBits(bm[p / 8], p % 8, q % 8);
      assert q == 8 * (q / 8) + q % 8 && p == 8 * (p / 8) + p % 8;
    }
  }

  lemma BitChange(bm: seq<bv8>, p: nat)
    requires p < 8 * |bm|
    ensures UsedSet(WithBit(bm, p)) == UsedSet(bm) + {p}
    ensures UsedSet(WithoutBit(bm, p)) == UsedSet(bm) - {p}
  {
    forall q | 0 <= q < 8 * |bm|
      ensures Test(WithBit(bm, p), q) <==> q == p || Test(bm, q)
      ensures Test(WithoutBit(bm, p), q) <==> q != p && Test(bm, q)
    {
      BitSetAt(bm, p, q);
      BitClearedAt(bm, p, q);
    }
  }

  class Allocator {
    const bitmap: array<bv8>
    var totalPages: nat
    var usedPages: nat

    ghost predicate Valid()
      reads this, bitmap
    {
      bitmap.Length == BITMAP_SIZE && usedPages < WORD && totalPages <= MAX_PAGES
    }

    ghost function State(): (s: Pages)
      requires Valid()
      reads this, bitmap
      ensures PagesOk(s)
    {
      Pages(UsedSet(bitmap[..]), usedPages, totalPages)
    }

    /** The static tables before pmm_init. */
    constructor ()
      ensures Valid() && fresh(bitmap)
    {
      bitmap := new bv8[BITMAP_SIZE](_ => 0);
      totalPages, usedPages := 0, 0;
    }

    method SetBit(page: nat)
      requires Valid() && page < MAX_PAGES
      modifies bitmap
      ensures UsedSet(bitmap[..]) == old(UsedSet(bitmap[..])) + {page}
    {
      BitChange(bitmap[..], page);
      ghost var was := bitmap[..];
      bitmap[page / 8] := bitmap[page / 8] | Mask(page % 8);
      assert bitmap[..] == WithBit(was, page);
    }

    method ClearBit(page: nat)
      requires Valid() && page < MAX_PAGES
      modifies bitmap
      ensures UsedSet(bitmap[..]) == old(UsedSet(bitmap[..])) - {page}
    {
      BitChange(bitmap[..], page);
      ghost var was := bitmap[..];
      bitmap[page / 8] := bitmap[page / 8] & !Mask(page % 8);
      assert bitmap[..] == WithoutBit(was, page);
    }

    method TestBit(page: nat) returns (r: bool)
      requires Valid() && page < MAX_PAGES
      ensures r == (page in UsedSet(bitmap[..]))
    {
      assert page in UsedSet(bitmap[..]) <==> Test(bitmap[..], page);
      return bitmap[page / 8] & Mask(page % 8) != 0;
    }

    method AllocPage() returns (addr: nat)
      requires Valid()
      modifies this, bitmap
      ensures Valid() && AllocRet(State(), addr) == Alloc(old(State()))
    {
      ghost var used := UsedSet(bitmap[..]);
      for i := 0 to MAX_PAGES / 8
        invariant Valid() && State() == old(State())
        invariant forall q :: 0 <= q < 8 * i ==> q in used
      {
        if bitmap[i] != 0xFF {
          var bit := ClearBitOf(i);
          if bit < 8 {
            var page := i * 8 + bit;
            SetBit(page);
            usedPages := Wrap(usedPages + 1);
            return page * PAGE_SIZE;
          }
        } else {
          ByteUsed(bitmap[..], i);
        }
      }
      return 0;
    }

    /** The inner scan of pmm_alloc_page: the lowest clear bit of byte i, or 8. */
    method ClearBitOf(i: nat) returns (bit: nat)
      requires Valid() && i < BITMAP_SIZE
      ensures bit <= 8 && (bit < 8 ==> 8 * i + bit !in UsedSet(bitmap[..]))
      ensures forall q :: 8 * i <= q < 8 * i + bit ==> q in UsedSet(bitmap[..])
    {
      bit := 0;
      while bit < 8
        invariant bit <= 8
        invariant forall q :: 8 * i <= q < 8 * i + bit ==> q in UsedSet(bitmap[..])
      {
        ghost var page := 8 * i + bit;
        assert page / 8 == i && page % 8 == bit;
        assert page in UsedSet(bitmap[..]) <==> Test(bitmap[..], page);
        if bitmap[i] & Mask(bit) == 0 { return; }
        bit := bit + 1;
      }
    }

    method FreePage(addr: nat)
      requires Valid()
      modifies this, bitmap
      ensures Valid() && State() == Free(old(State()), addr)
    {
      var page := addr / PAGE_SIZE;
      if page < MAX_PAGES {
        var used := TestBit(page);
        if used {
          ClearBit(page);
          usedPages := Wrap(usedPages - 1);
        }
      }
    }

    method GetFreePages() returns (n: nat)
      requires Valid()
      ensures n == FreePages(State())
    {
      n := if totalPages > usedPages then totalPages - usedPages else 0;
    }

    /** pmm_init; kernelEnd is the address of the linker symbol behind the kernel image. */
    method Init(b: BootInfo, kernelEnd: nat)
      requires Valid() && kernelEnd < WORD
      modifies this, bitmap
      ensures Valid() && State() == Started(b, kernelEnd)
    {
      ClearAvailable(b);
      ghost var u0, n0 := UsedSet(bitmap[..]), usedPages;
      ReserveAll(kernelEnd);
      StartedIs(b, kernelEnd, u0, n0, UsedSet(bitmap[..]), usedPages);
    }

    /** Everything marked used, the total computed, the available regions cleared. */
    method ClearAvailable(b: BootInfo)
      requires Valid()
      modifies this, bitmap
      ensures Valid() && totalPages == TotalPages(b)
      ensures UsedSet(bitmap[..]) == Remaining(MapOf(b), |MapOf(b)|)
      ensures usedPages == Wrap(MAX_PAGES - Clears(MapOf(b), |MapOf(b)|))
    {
      FillBitmap();
      usedPages := MAX_PAGES;
      var totalKb := (b.memLower + b.memUpper + 1024) % WORD;
      totalPages := totalKb / 4;
      if totalPages > MAX_PAGES { totalPages := MAX_PAGES; }
      if b.flags & HAS_MMAP != 0 {
        WalkMap(b.mmap);
      } else {
        WalkedNone(MapOf(b), UsedSet(bitmap[..]), usedPages);
      }
    }

    /** The walk over the memory map. */
    method WalkMap(rs: seq<Region>)
      requires Valid() && UsedSet(bitmap[..]) == AllPages() && usedPages == MAX_PAGES
      modifies this, bitmap
      ensures Valid() && totalPages == old(totalPages)
      ensures Walked(rs, |rs|, UsedSet(bitmap[..]), usedPages)
    {
      WalkedNone(rs, UsedSet(bitmap[..]), usedPages);
      for k := 0 to |rs|
        invariant Valid() && totalPages == old(totalPages)
        invariant Walked(rs, k, UsedSet(bitmap[..]), usedPages)
      {
        ghost var u, n := UsedSet(bitmap[..]), usedPages;
        ClearRegion(rs[k]);
        WalkedOne(rs, k, u, n, UsedSet(bitmap[..]), usedPages);
      }
    }

    /** The two loops that take back the first megabyte and the kernel. */
    method ReserveAll(kernelEnd: nat)
      requires Valid() && UsedSet(bitmap[..]) <= AllPages()
      modifies this, bitmap
      ensures Valid() && totalPages == old(totalPages)
      ensures forall p :: p in UsedSet(bitmap[..]) <==> p in old(UsedSet(bitmap[..])) || IsReserved(p, kernelEnd)
      ensures usedPages == Wrap(old(usedPages) + (|UsedSet(bitmap[..])| - |old(UsedSet(bitmap[..]))|))
    {
      ghost var u0, n0 := UsedSet(bitmap[..]), usedPages;
      var kernelEndPage := kernelEnd / PAGE_SIZE + 1;
      Reserve(0, LOW_PAGES);
      ghost var u1 := UsedSet(bitmap[..]);
      var limit := if kernelEndPage + 1 < MAX_PAGES then kernelEndPage + 1 else MAX_PAGES;
      if LOW_PAGES < limit { Reserve(LOW_PAGES, limit); }
      WrapSum(n0 + |u1| - |u0|, |UsedSet(bitmap[..])| - |u1|);
    }

    /** memset(bitmap, 0xFF). */
    method FillBitmap()
      requires Valid()
      modifies bitmap
      ensures UsedSet(bitmap[..]) == AllPages()
    {
      for i := 0 to BITMAP_SIZE
        invariant forall j :: 0 <= j < i ==> bitmap[j] == 0xFF
      {
        bitmap[i] := 0xFF;
      }
      forall p | 0 <= p < MAX_PAGES
        ensures Test(bitmap[..], p)
      {
        FullByte(bitmap[p / 8]);
      }
    }

    /** The loop over the pages of one entry, if that is available memory. */
    method ClearRegion(r: Region)
      requires Valid()
      modifies this, bitmap
      ensures Valid() && totalPages == old(totalPages)
      ensures UsedSet(bitmap[..]) == Without(old(UsedSet(bitmap[..])), r)
      ensures usedPages == Wrap(old(usedPages) - |PagesOf(r)|)
    {
      PagesBelowAll(r);
      MinusIsWithout(UsedSet(bitmap[..]), r);
      if r.kind != 1 { return; }
      var base := r.addr % WORD;
      var length := r.len % WORD;
      var start := (base + PAGE_SIZE - 1) % WORD / PAGE_SIZE * PAGE_SIZE;
      var end := (base + length) % WORD / PAGE_SIZE * PAGE_SIZE;
      var addr := start;
      while addr < end
        invariant Valid() && totalPages == old(totalPages)
        invariant addr % PAGE_SIZE == 0 && start <= addr && (addr <= end || addr == start)
        invariant UsedSet(bitmap[..]) == old(UsedSet(bitmap[..])) - PagesBelow(r, addr / PAGE_SIZE)
        invariant usedPages == Wrap(old(usedPages) - |PagesBelow(r, addr / PAGE_SIZE)|)
        decreases end - addr
      {
        ClearPage(r, addr / PAGE_SIZE, old(UsedSet(bitmap[..])), old(usedPages));
        addr := addr + PAGE_SIZE;
      }
    }

    /** The body of that loop for page n of region r; u0 and n0 are what the loop started with. */
    method ClearPage(r: Region, page: nat, ghost u0: set<int>, ghost n0: nat)
      requires Valid() && r.kind == 1 && StartPage(r) <= page < EndPage(r)
      requires UsedSet(bitmap[..]) == u0 - PagesBelow(r, page) && usedPages == Wrap(n0 - |PagesBelow(r, page)|)
      modifies this, bitmap
      ensures Valid() && totalPages == old(totalPages)
      ensures UsedSet(bitmap[..]) == u0 - PagesBelow(r, page + 1) && usedPages == Wrap(n0 - |PagesBelow(r, page + 1)|)
    {
      PagesBelowStep(r, page);
      if page < MAX_PAGES && page > 0 {
        WrapSum(n0 - |PagesBelow(r, page)|, -1);
        ClearBit(page);
        usedPages := Wrap(usedPages - 1);
      }
    }

    /** One of the two loops that take pages back: from page lo up to, not including, page hi. */
    method Reserve(lo: nat, hi: nat)
      requires Valid() && lo <= hi <= MAX_PAGES
      modifies this, bitmap
      ensures Valid() && totalPages == old(totalPages)
      ensures forall p :: p in UsedSet(bitmap[..]) <==> p in old(UsedSet(bitmap[..])) || lo <= p < hi
      ensures usedPages == Wrap(old(usedPages) + (|UsedSet(bitmap[..])| - |old(UsedSet(bitmap[..]))|))
    {
      ghost var was := UsedSet(bitmap[..]);
      for i := lo to hi
        invariant Valid() && totalPages == old(totalPages)
        invariant forall p :: p in UsedSet(bitmap[..]) <==> p in was || lo <= p < i
        invariant usedPages == Wrap(old(usedPages) + |UsedSet(bitmap[..])| - |was|)
      {
        ghost var before := UsedSet(bitmap[..]);
        ReserveOne(i);
        WrapSum(old(usedPages) + |before| - |was|, |UsedSet(bitmap[..])| - |before|);
      }
    }

    method ReserveOne(i: nat)
      requires Valid() && i < MAX_PAGES
      modifies this, bitmap
      ensures Valid() && totalPages == old(totalPages)
      ensures UsedSet(bitmap[..]) == old(UsedSet(bitmap[..])) + {i}
      ensures usedPages == Wrap(old(usedPages) + (|UsedSet(bitmap[..])| - |old(UsedSet(bitmap[..]))|))
    {
      var used := TestBit(i);
      ghost var before := UsedSet(bitmap[..]);
      if !used {
        SetBit(i);
        usedPages := Wrap(usedPages + 1);
        assert |before + {i}| == |before| + 1;
      } else {
        assert before + {i} == before;
      }
    }
  }

  /** What the walk has done to the used pages and the counter after k regions. */
  ghost predicate Walked(rs: seq<Region>, k: nat, u: set<int>, n: nat)
    requires k <= |rs|
  {
    u == Remaining(rs, k) && n == Wrap(MAX_PAGES - Clears(rs, k))
  }

  lemma WalkedNone(rs: seq<Region>, u: set<int>, n: nat)
    requires u == AllPages() && n == MAX_PAGES
    ensures Walked(rs, 0, u, n)
  {
  }

  lemma WalkedOne(rs: seq<Region>, k: nat, u: set<int>, n: nat, v: set<int>, m: nat)
    requires k < |rs| && Walked(rs, k, u, n)
    requires v == Without(u, rs[k]) && m == Wrap(n - |PagesOf(rs[k])|)
    ensures Walked(rs, k + 1, v, m)
  {
    WrapSum(MAX_PAGES - Clears(rs, k), -|PagesOf(rs[k])|);
  }

  lemma StartedIs(b: BootInfo, kernelEnd: nat, u0: set<int>, n0: nat, u: set<int>, n: nat)
    requires u0 == Remaining(MapOf(b), |MapOf(b)|) && n0 == Wrap(MAX_PAGES - Clears(MapOf(b), |MapOf(b)|))
    requires forall p :: p in u <==> p in u0 || IsReserved(p, kernelEnd)
    requires n == Wrap(n0 + (|u| - |u0|))
    ensures Pages(u, n, TotalPages(b)) == Started(b, kernelEnd)
  {
    StartedSet(b, kernelEnd, u0, u);
    CounterAfter(Clears(MapOf(b), |MapOf(b)|), |Freed(b)|, |u0|, |u|);
  }

  lemma StartedSet(b: BootInfo, kernelEnd: nat, u0: set<int>, u: set<int>)
    requires u0 == Remaining(MapOf(b), |MapOf(b)|)
    requires forall p :: p in u <==> p in u0 || IsReserved(p, kernelEnd)
    ensures u == StartedUsed(b, kernelEnd)
    ensures |u0| == MAX_PAGES - |Freed(b)|
  {
    RemainingIs(MapOf(b), |MapOf(b)|);
    FreedSize(b);
    assert forall p :: p in u <==> p in StartedUsed(b, kernelEnd);
  }

  lemma CounterAfter(clears: int, freed: int, before: int, after: int)
    requires before == MAX_PAGES - freed
    ensures Wrap(Wrap(MAX_PAGES - clears) + (after - before)) == Wrap(after - (clears - freed))
  {
    WrapSum(MAX_PAGES - clears, after - before);
  }

  /** The pages of r below n. */
  ghost function PagesBelow(r: Region, n: nat): set<int> {
    set p | p in PagesOf(r) && p < n
  }

  lemma PagesBelowAll(r: Region)
    ensures r.kind != 1 ==> PagesOf(r) == {}
    ensures PagesBelow(r, StartPage(r)) == {}
    ensures forall n :: n >= StartPage(r) && n >= EndPage(r) ==> PagesBelow(r, n) == PagesOf(r)
  {
  }

  lemma MinusIsWithout(u: set<int>, r: Region)
    ensures u - PagesOf(r) == Without(u, r)
  {
  }

  lemma PagesBelowStep(r: Region, n: nat)
    ensures Covers(r, n) ==> PagesBelow(r, n + 1) == PagesBelow(r, n) + {n} && |PagesBelow(r, n + 1)| == |PagesBelow(r, n)| + 1
    ensures !Covers(r, n) ==> PagesBelow(r, n + 1) == PagesBelow(r, n)
  {
    if Covers(r, n) {
      assert PagesBelow(r, n + 1) == PagesBelow(r, n) + {n};
    } else {
      assert PagesBelow(r, n + 1) == PagesBelow(r, n);
    }
  }

  lemma ByteUsed(bm: seq<bv8>, i: nat)
    requires i < |bm| && bm[i] == 0xFF
    ensures forall q :: 8 * i <= q < 8 * i + 8 ==> q in UsedSet(bm)
  {
    FullByte(bm[i]);
    forall q | 8 * i <= q < 8 * i + 8 ensures Test(bm, q) {
      assert q / 8 == i && q % 8 == q - 8 * i;
    }
  }
}
