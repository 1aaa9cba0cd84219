/**
 The page allocator of src/pmm.c as a set of used pages and a 32-bit counter, what its calls and
 its start-up do to them, and what every run keeps.
 */
module PmmModel {
  import opened Search

  const PAGE_SIZE := 4096
  const MAX_PAGES := 32768
  const WORD := 0x1_0000_0000
  /** The first page after the first megabyte. */
  const LOW_PAGES := 256

  /** What a 32-bit unsigned counter keeps of x. */
  function Wrap(x: int): (r: nat)
    ensures r < WORD
    ensures 0 <= x < WORD ==> r == x
    decreases x < 0, if x < 0 then -x else x
  {
    if x < 0 then Wrap(x + WORD) else if x >= WORD then Wrap(x - WORD) else x
  }

  lemma {:induction false} WrapMod(x: int)
    ensures Wrap(x) == x % WORD
    decreases x < 0, if x < 0 then -x else x
  {
    if x < 0 {
      WrapMod(x + WORD);
      ModWord(x);
    } else if x >= WORD {
      WrapMod(x - WORD);
      ModWord(x - WORD);
    }
  }

  lemma ModWord(x: int)
    ensures (x + WORD) % WORD == x % WORD
  {
  }

  lemma WrapShift(x: int)
    ensures Wrap(x + WORD) == Wrap(x)
  {
    if x >= 0 { assert Wrap(x + WORD) == Wrap(x + WORD - WORD); }
  }

  /** Counting on from a wrapped counter is wrapping the exact count. */
  lemma {:induction false} WrapSum(x: int, y: int)
    ensures Wrap(Wrap(x) + y) == Wrap(x + y)
    decreases x < 0, if x < 0 then -x else x
  {
    if x < 0 {
      WrapSum(x + WORD, y);
      WrapShift(x + y);
    } else if x >= WORD {
      WrapSum(x - WORD, y);
      WrapShift(x + y - WORD);
    }
  }

  datatype Pages = Pages(used: set<int>, counter: nat, total: nat)

  ghost predicate PagesOk(s: Pages) {
    (forall p <- s.used :: 0 <= p < MAX_PAGES) && s.counter < WORD && s.total <= MAX_PAGES
  }

  /** The lowest page from p on that is not used, or MAX_PAGES. */
  function LowestFree(used: set<int>, p: nat): (r: nat)
    requires p <= MAX_PAGES
    ensures p <= r <= MAX_PAGES
    ensures r < MAX_PAGES ==> r !in used
    ensures forall q :: p <= q < r ==> q in used
    decreases MAX_PAGES - p, used
  {
    if p == MAX_PAGES || p !in used then p else LowestFree(used, p + 1)
  }

  /** The state a call leaves and the address it returns. */
  datatype AllocRet = AllocRet(pages: Pages, addr: nat)

  function Alloc(s: Pages): AllocRet {
    var p := LowestFree(s.used, 0);
    if p == MAX_PAGES then AllocRet(s, 0)
    else AllocRet(s.(used := s.used + {p}, counter := Wrap(s.counter + 1)), p * PAGE_SIZE)
  }

  function Free(s: Pages, addr: nat): Pages {
    var p := addr / PAGE_SIZE;
    if p < MAX_PAGES && p in s.used
    then s.(used := s.used - {p}, counter := Wrap(s.counter - 1))
    else s
  }

  function FreePages(s: Pages): nat {
    if s.total > s.counter then s.total - s.counter else 0
  }

  // ---- What every run keeps ----

  /** A page of the bitmap. */
  predicate IsPage(p: int) { 0 <= p < MAX_PAGES }

  function AllPages(): (s: set<int>)
    ensures forall p :: p in s <==> IsPage(p)
    ensures |s| == MAX_PAGES
  {
    var s := set p: int | 0 <= p < MAX_PAGES && IsPage(p);
    SizeBelow(s, MAX_PAGES);
    s
  }

  lemma SizeBelow(s: set<int>, n: nat)
    requires forall p :: p in s <==> 0 <= p < n
    ensures |s| == n
  {
    assert s == Below(n);
    BelowSize(n);
  }

  /** The counter is the number of used pages, and the first megabyte is used. */
  ghost predicate Counted(s: Pages) {
    && PagesOk(s)
    && s.counter == |s.used|
    && (forall p :: 0 <= p < LOW_PAGES ==> p in s.used)
  }

  datatype PageOp = OpAlloc | OpFree(addr: nat)

  function PageStep(s: Pages, op: PageOp): Pages {
    match op
    case OpAlloc => Alloc(s).pages
    case OpFree(addr) => Free(s, addr)
  }

  function PageRun(s: Pages, ops: seq<PageOp>): Pages
    decreases |ops|, s
  {
    if ops == [] then s else PageRun(PageStep(s, ops[0]), ops[1..])
  }

  ghost predicate HighFrees(ops: seq<PageOp>) {
    forall k :: 0 <= k < |ops| && ops[k].OpFree? ==> ops[k].addr >= LOW_PAGES * PAGE_SIZE
  }

  lemma UsedBound(s: Pages)
    requires PagesOk(s)
    ensures |s.used| <= MAX_PAGES
    ensures |s.used| == MAX_PAGES <==> forall p :: 0 <= p < MAX_PAGES ==> p in s.used
  {
    SubsetSize(s.used, AllPages());
    if forall p :: 0 <= p < MAX_PAGES ==> p in s.used {
      assert s.used == AllPages();
    }
  }

  /** Under the invariant, alloc hands out the lowest free page above 1 MB, or 0 exactly when nothing is free. */
  lemma AllocCounted(s: Pages)
    requires Counted(s)
    ensures var r := Alloc(s);
            && Counted(r.pages)
            && (r.addr == 0 <==> |s.used| == 32768)
            && (r.addr == 0 ==> r.pages == s)
            && (r.addr != 0 ==>
                  var p := r.addr / 4096;
                  && r.addr == p * 4096 && 256 <= p < 32768 && p !in s.used
                  && (forall q :: 0 <= q < p ==> q in s.used)
                  && r.pages.used == s.used + {p} && r.pages.counter == s.counter + 1)
  {
    UsedBound(s);
    var p := LowestFree(s.used, 0);
    if p < MAX_PAGES {
      assert p >= LOW_PAGES;
      UsedBound(Alloc(s).pages.(counter := 0));
    }
  }

  lemma FreeCounted(s: Pages, addr: nat)
    requires Counted(s) && addr >= LOW_PAGES * PAGE_SIZE
    ensures Counted(Free(s, addr))
    ensures Free(Free(s, addr), addr) == Free(s, addr)
    ensures Free(s, addr).used == s.used - {addr / PAGE_SIZE}
  {
    UsedBound(s);
    assert addr / PAGE_SIZE >= LOW_PAGES;
    if addr / PAGE_SIZE !in s.used { assert s.used - {addr / PAGE_SIZE} == s.used; }
    if addr / PAGE_SIZE in s.used { assert |s.used - {addr / PAGE_SIZE}| == |s.used| - 1; }
  }

  /** Any sequence of calls that frees nothing in the first megabyte keeps counter and set in step. */
  lemma {:induction false} RunCounted(s: Pages, ops: seq<PageOp>)
    requires Counted(s) && HighFrees(ops)
    ensures Counted(PageRun(s, ops)) && PageRun(s, ops).total == s.total
    decreases |ops|
  {
    if ops != [] {
      match ops[0] {
        case OpAlloc => AllocCounted(s);
        case OpFree(addr) => FreeCounted(s, addr);
      }
      RunCounted(PageStep(s, ops[0]), ops[1..]);
    }
  }

  /** Freeing what was just allocated puts everything back. */
  lemma AllocThenFree(s: Pages)
    requires PagesOk(s) && Alloc(s).addr != 0
    ensures Free(Alloc(s).pages, Alloc(s).addr) == s
  {
    var p := LowestFree(s.used, 0);
    assert p * PAGE_SIZE / PAGE_SIZE == p;
    assert s.used + {p} - {p} == s.used;
  }

  /** The return value 0 means "nothing free" exactly as long as page 0 itself is not free. */
  lemma ZeroMeansFull(s: Pages)
    requires PagesOk(s)
    ensures (Alloc(s).addr == 0 <==> |s.used| == MAX_PAGES) <==> 0 in s.used
  {
    UsedBound(s);
  }

  /** Once page 0 has been freed, the next alloc hands it out, and the caller reads that as a failure. */
  lemma PageZeroLost(s: Pages)
    requires Counted(s)
    ensures var t := Free(s, 0);
            0 !in t.used && Alloc(t).addr == 0 && Alloc(t).pages.used == t.used + {0}
  {
  }

  /** The reported number of free pages never exceeds the clear bits, and reaches them only in these cases. */
  lemma FreePagesBound(s: Pages)
    requires Counted(s)
    ensures FreePages(s) <= 32768 - |s.used|
    ensures FreePages(s) == 32768 - |s.used| <==> s.total == 32768 || |s.used| == 32768
    ensures var short := 32768 - s.total; var clear := 32768 - |s.used|;
            FreePages(s) == if clear > short then clear - short else 0
  {
    UsedBound(s);
  }

  // ---- Start-up ----

  /** An entry of the boot loader's memory map; kind 1 is available memory. */
  datatype Region = Region(addr: nat, len: nat, kind: nat)

  datatype BootInfo = BootInfo(flags: bv32, memLower: nat, memUpper: nat, mmap: seq<Region>)

  const HAS_MMAP: bv32 := 0x40

  /** The two bounds as the 32-bit code computes them, in pages. */
  function StartPage(r: Region): nat { (r.addr % WORD + PAGE_SIZE - 1) % WORD / PAGE_SIZE }

  function EndPage(r: Region): nat { (r.addr % WORD + r.len % WORD) % WORD / PAGE_SIZE }

  /** Start-up clears page p on account of r. */
  predicate Covers(r: Region, p: int) { r.kind == 1 && StartPage(r) <= p < EndPage(r) && 0 < p < MAX_PAGES }

  function PagesOf(r: Region): (s: set<int>)
    ensures forall p :: p in s <==> Covers(r, p)
  {
    set p: int | 0 <= p < MAX_PAGES && Covers(r, p)
  }

  /** All pages that start-up clears on account of the first n regions. */
  function Available(rs: seq<Region>, n: nat): set<int>
    requires n <= |rs|
    decreases n, rs
  {
    if n == 0 then {} else Available(rs, n - 1) + PagesOf(rs[n - 1])
  }

  lemma {:induction false} AvailableMeaning(rs: seq<Region>, n: nat, p: int)
    requires n <= |rs|
    ensures p in Available(rs, n) <==> exists k :: 0 <= k < n && Covers(rs[k], p)
    decreases n
  {
    if n > 0 { AvailableMeaning(rs, n - 1, p); }
  }

  /** The pages of u that r does not cover. */
  function Without(u: set<int>, r: Region): set<int> { set p | p in u && !Covers(r, p) }

  /** The pages still used after the first n regions have been cleared. */
  function Remaining(rs: seq<Region>, n: nat): set<int>
    requires n <= |rs|
    decreases n, rs
  {
    if n == 0 then AllPages() else Without(Remaining(rs, n - 1), rs[n - 1])
  }

  lemma {:induction false} RemainingIs(rs: seq<Region>, n: nat)
    requires n <= |rs|
    ensures Remaining(rs, n) == AllPages() - Available(rs, n)
    decreases n
  {
    if n > 0 {
      RemainingIs(rs, n - 1);
      assert forall p :: p in Remaining(rs, n) <==> p in AllPages() && p !in Available(rs, n);
    }
  }

  /** How many times start-up clears a bit, a page in two regions counting twice. */
  function Clears(rs: seq<Region>, n: nat): nat
    requires n <= |rs|
    decreases n, rs
  {
    if n == 0 then 0 else Clears(rs, n - 1) + |PagesOf(rs[n - 1])|
  }

  function MapOf(b: BootInfo): seq<Region> { if b.flags & HAS_MMAP != 0 then b.mmap else b.mmap[..0] }

  /** The first megabyte and the kernel image. */
  predicate IsReserved(p: int, kernelEnd: nat) { IsPage(p) && (p < LOW_PAGES || p <= kernelEnd / PAGE_SIZE + 1) }

  function TotalPages(b: BootInfo): nat {
    var t := (b.memLower + b.memUpper + 1024) % WORD / 4;
    if t > MAX_PAGES then MAX_PAGES else t
  }

  function Freed(b: BootInfo): set<int> { Available(MapOf(b), |MapOf(b)|) }

  function Repeats(b: BootInfo): int { Clears(MapOf(b), |MapOf(b)|) - |Freed(b)| }

  /** The pages that are not freed, and those that are taken back. */
  ghost function StartedUsed(b: BootInfo, kernelEnd: nat): (u: set<int>)
    ensures forall p :: p in u <==> IsPage(p) && (p in Freed(b) ==> IsReserved(p, kernelEnd))
  {
    set p | p in AllPages() && (p in Freed(b) ==> IsReserved(p, kernelEnd))
  }

  /** The state pmm_init leaves: the counter falls short of the used pages by the repeated clears. */
  ghost function Started(b: BootInfo, kernelEnd: nat): Pages {
    var u := StartedUsed(b, kernelEnd);
    Pages(u, Wrap(|u| - Repeats(b)), TotalPages(b))
  }

  /** The first n regions share no page. */
  ghost predicate DisjointPages(rs: seq<Region>, n: nat)
    requires n <= |rs|
  {
    forall i, j :: 0 <= i < j < n ==> PagesOf(rs[i]) !! PagesOf(rs[j])
  }

  lemma UnionSize(a: set<int>, b: set<int>)
    ensures |a + b| == |a| + |b| - |a * b|
  {
    assert a + b == (a - b) + b;
    assert a == (a - b) + (a * b);
  }

  /** No page is cleared twice exactly when no two regions share a page. */
  lemma {:induction false} ClearsExact(rs: seq<Region>, n: nat)
    requires n <= |rs|
    ensures |Available(rs, n)| <= Clears(rs, n)
    ensures Clears(rs, n) == |Available(rs, n)| <==> DisjointPages(rs, n)
    decreases n
  {
    if n > 0 {
      ClearsExact(rs, n - 1);
      UnionSize(Available(rs, n - 1), PagesOf(rs[n - 1]));
      LastDisjoint(rs, n);
    }
  }

  lemma LastDisjoint(rs: seq<Region>, n: nat)
    requires 0 < n <= |rs|
    ensures DisjointPages(rs, n) <==> DisjointPages(rs, n - 1) && Available(rs, n - 1) * PagesOf(rs[n - 1]) == {}
  {
    var last := PagesOf(rs[n - 1]);
    var both := Available(rs, n - 1) * last;
    if DisjointPages(rs, n) {
      forall p | p in Available(rs, n - 1) ensures p !in last {
        AvailableMeaning(rs, n - 1, p);
        var k :| 0 <= k < n - 1 && Covers(rs[k], p);
        assert p in PagesOf(rs[k]) && PagesOf(rs[k]) !! last;
      }
      assert both == {};
    }
    if both == {} {
      forall i | 0 <= i < n - 1 ensures PagesOf(rs[i]) !! last {
        forall p | p in PagesOf(rs[i]) ensures p !in last {
          AvailableMeaning(rs, n - 1, p);
          assert p !in both;
        }
      }
    }
  }

  lemma FreedIsPages(b: BootInfo)
    ensures Freed(b) <= AllPages() && |Freed(b)| <= MAX_PAGES
  {
    forall p | p in Freed(b) ensures IsPage(p) { AvailableMeaning(MapOf(b), |MapOf(b)|, p); }
    SubsetSize(Freed(b), AllPages());
  }

  lemma SubsetSplit(all: set<int>, a: set<int>)
    requires a <= all
    ensures |all - a| == |all| - |a|
  {
    assert all == (all - a) + a;
  }

  lemma FreedSize(b: BootInfo)
    ensures |AllPages() - Freed(b)| == MAX_PAGES - |Freed(b)|
  {
    FreedIsPages(b);
    SubsetSplit(AllPages(), Freed(b));
  }

  /** The number of entries from which on the repeated clears could add up to 2^32. */
  const MANY_ENTRIES := WORD / MAX_PAGES

  /**
   After start-up a page is free exactly when some available region (in 32-bit arithmetic) covers
   it and it is not reserved. The counter is right exactly when the number of repeated clears is a
   multiple of 2^32: for maps of fewer than 131072 entries, exactly when no two regions share a page.
   */
  lemma StartedExact(b: BootInfo, kernelEnd: nat)
    ensures var s := Started(b, kernelEnd);
            && PagesOk(s)
            && (forall p :: IsPage(p) ==>
                  (p !in s.used <==> !IsReserved(p, kernelEnd) && exists k :: 0 <= k < |MapOf(b)| && Covers(MapOf(b)[k], p)))
            && (s.counter == |s.used| <==> Repeats(b) % WORD == 0)
            && (DisjointPages(MapOf(b), |MapOf(b)|) ==> Counted(s))
            && (|MapOf(b)| < MANY_ENTRIES ==> (s.counter == |s.used| <==> DisjointPages(MapOf(b), |MapOf(b)|)))
  {
    StartedFree(b, kernelEnd);
    StartedCounter(b, kernelEnd);
    CounterExact(b, kernelEnd);
    LowPagesUsed(b, kernelEnd);
  }

  lemma CounterExact(b: BootInfo, kernelEnd: nat)
    ensures var s := Started(b, kernelEnd);
            && (DisjointPages(MapOf(b), |MapOf(b)|) ==> s.counter == |s.used|)
            && (|MapOf(b)| < MANY_ENTRIES ==> (s.counter == |s.used| <==> DisjointPages(MapOf(b), |MapOf(b)|)))
  {
    StartedCounter(b, kernelEnd);
    RepeatsExact(b);
  }

  lemma LowPagesUsed(b: BootInfo, kernelEnd: nat)
    ensures forall p :: 0 <= p < LOW_PAGES ==> p in Started(b, kernelEnd).used
  {
    assert forall p :: 0 <= p < LOW_PAGES ==> IsReserved(p, kernelEnd);
  }

  /** No page is cleared twice exactly when no two regions share a page; short maps cannot wrap the count. */
  lemma RepeatsExact(b: BootInfo)
    ensures DisjointPages(MapOf(b), |MapOf(b)|) <==> Repeats(b) == 0
    ensures |MapOf(b)| < MANY_ENTRIES ==> (Repeats(b) == 0 <==> Repeats(b) % WORD == 0)
  {
    ClearsExact(MapOf(b), |MapOf(b)|);
    ClearsBound(MapOf(b), |MapOf(b)|);
  }

  lemma {:induction false} ClearsBound(rs: seq<Region>, n: nat)
    requires n <= |rs|
    ensures Clears(rs, n) <= n * MAX_PAGES
    decreases n
  {
    if n > 0 {
      ClearsBound(rs, n - 1);
      PagesOfSize(rs[n - 1]);
    }
  }

  lemma PagesOfSize(r: Region)
    ensures |PagesOf(r)| <= MAX_PAGES
  {
    SubsetSize(PagesOf(r), AllPages());
  }

  lemma StartedFree(b: BootInfo, kernelEnd: nat)
    ensures var s := Started(b, kernelEnd);
            && PagesOk(s)
            && (forall p :: IsPage(p) ==>
                  (p !in s.used <==> !IsReserved(p, kernelEnd) && exists k :: 0 <= k < |MapOf(b)| && Covers(MapOf(b)[k], p)))
  {
    forall p | IsPage(p)
      ensures p in Freed(b) <==> exists k :: 0 <= k < |MapOf(b)| && Covers(MapOf(b)[k], p)
    {
      AvailableMeaning(MapOf(b), |MapOf(b)|, p);
    }
  }

  lemma StartedCounter(b: BootInfo, kernelEnd: nat)
    ensures var s := Started(b, kernelEnd);
            s.counter == |s.used| <==> Repeats(b) % WORD == 0
  {
    var s := Started(b, kernelEnd);
    ClearsExact(MapOf(b), |MapOf(b)|);
    StartedFree(b, kernelEnd);
    UsedBound(s);
    WrapMod(|s.used| - Repeats(b));
    ModShift(|s.used|, Repeats(b));
  }

  lemma ModShift(x: nat, d: nat)
    requires x < WORD
    ensures (x - d) % WORD == x <==> d % WORD == 0
  {
    var q := d / WORD;
    var m := d % WORD;
    assert d == q * WORD + m;
    if m <= x {
      assert x - d == -q * WORD + (x - m);
      ModOf(-q, x - m);
    } else {
      assert x - d == (-q - 1) * WORD + (x - m + WORD);
      ModOf(-q - 1, x - m + WORD);
    }
  }

  lemma ModOf(q: int, m: nat)
    requires m < WORD
    ensures (q * WORD + m) % WORD == m
  {
  }

  /** The region lies below 4 GB with room to round up: no 32-bit sum in the code wraps. */
  ghost predicate NoWrap(r: Region) { r.addr + PAGE_SIZE - 1 < WORD && r.addr + r.len < WORD }

  predicate Inside(r: Region, p: int) { r.addr <= p * PAGE_SIZE && (p + 1) * PAGE_SIZE <= r.addr + r.len }

  /** Without wrap, a cleared page is one that lies wholly in the region (page 0 excepted). */
  lemma WhollyInside(r: Region, p: int)
    requires r.kind == 1 ==> NoWrap(r)
    ensures Covers(r, p) <==> r.kind == 1 && 0 < p < MAX_PAGES && Inside(r, p)
  {
    if r.kind == 1 {
      assert StartPage(r) == (r.addr + PAGE_SIZE - 1) / PAGE_SIZE;
      assert EndPage(r) == (r.addr + r.len) / PAGE_SIZE;
    }
  }

  ghost predicate DisjointBytes(rs: seq<Region>) {
    forall i, j :: 0 <= i < j < |rs| && rs[i].kind == 1 && rs[j].kind == 1 ==>
      rs[i].addr + rs[i].len <= rs[j].addr || rs[j].addr + rs[j].len <= rs[i].addr
  }

  /**
   The exact result for a sane memory map: a page is free exactly when it lies wholly in an
   available region and above both the first megabyte and the kernel, and the counter is right.
   */
  lemma SaneMapExact(b: BootInfo, kernelEnd: nat)
    requires b.flags & HAS_MMAP != 0
    requires forall k :: 0 <= k < |b.mmap| && b.mmap[k].kind == 1 ==> NoWrap(b.mmap[k])
    requires DisjointBytes(b.mmap)
    ensures var s := Started(b, kernelEnd);
            && Counted(s)
            && (forall p :: IsPage(p) ==>
                  (p !in s.used <==>
                     && p >= 256 && p > kernelEnd / 4096 + 1
                     && exists k :: 0 <= k < |b.mmap| && b.mmap[k].kind == 1 && Inside(b.mmap[k], p)))
  {
    var rs := b.mmap;
    forall i, j | 0 <= i < j < |rs| ensures PagesOf(rs[i]) !! PagesOf(rs[j]) {
      forall p | p in PagesOf(rs[i]) ensures p !in PagesOf(rs[j]) {
        WhollyInside(rs[i], p);
        WhollyInside(rs[j], p);
      }
    }
    StartedExact(b, kernelEnd);
    forall k, p | 0 <= k < |rs| && 0 < p < MAX_PAGES ensures Covers(rs[k], p) <==> rs[k].kind == 1 && Inside(rs[k], p) {
      WhollyInside(rs[k], p);
    }
  }

  // ---- Regions beyond 4 GB ----

  /** The region starts low enough for the 32-bit code to see its true start. */
  predicate StartsLow(r: Region) { r.addr + PAGE_SIZE - 1 < WORD }

  /**
   A cleared page lies wholly in its region exactly when the region starts low, whatever its length:
   a length or a sum that is cut to 32 bits only leaves pages out, a cut address names other pages.
   */
  lemma ClearedInside(r: Region, p: int)
    requires Covers(r, p)
    ensures Inside(r, p) <==> StartsLow(r)
  {
    if StartsLow(r) {
      LowStart(r.addr, r.len, p);
    } else {
      assert p * PAGE_SIZE < MAX_PAGES * PAGE_SIZE < r.addr;
    }
  }

  lemma LowStart(addr: nat, len: nat, p: int)
    requires addr + PAGE_SIZE - 1 < WORD
    requires (addr + PAGE_SIZE - 1) / PAGE_SIZE <= p < (addr + len % WORD) % WORD / PAGE_SIZE
    ensures addr <= p * PAGE_SIZE && (p + 1) * PAGE_SIZE <= addr + len
  {
    var end := (addr + len % WORD) % WORD;
    assert (p + 1) * PAGE_SIZE <= end <= addr + len % WORD;
    CutIsLess(len);
  }

  lemma CutIsLess(x: nat)
    ensures x % WORD <= x
  {
  }

  /** Every page that start-up clears lies in the region it is cleared for exactly when no region that covers a page starts high. */
  lemma ClearsRightly(rs: seq<Region>)
    ensures (forall k, p :: 0 <= k < |rs| && Covers(rs[k], p) ==> Inside(rs[k], p))
            <==> forall k :: 0 <= k < |rs| ==> StartsLow(rs[k]) || PagesOf(rs[k]) == {}
  {
    forall k, p | 0 <= k < |rs| && Covers(rs[k], p)
      ensures Inside(rs[k], p) <==> StartsLow(rs[k])
    {
      ClearedInside(rs[k], p);
    }
    forall k | 0 <= k < |rs| && !StartsLow(rs[k]) && PagesOf(rs[k]) != {}
      ensures exists p :: Covers(rs[k], p) && !Inside(rs[k], p)
    {
      var p :| p in PagesOf(rs[k]);
      assert Covers(rs[k], p);
    }
  }

  /** Page p lies wholly in some available region. */
  predicate InMemory(rs: seq<Region>, p: int) { exists k :: 0 <= k < |rs| && rs[k].kind == 1 && Inside(rs[k], p) }

  /**
   Every free page is memory exactly when the pages that high regions free by mistake happen to be
   memory of other regions; in particular when no available region starts within a page of 4 GB or above.
   */
  lemma FreeIsMemory(b: BootInfo, kernelEnd: nat)
    ensures (forall p :: IsPage(p) && p !in Started(b, kernelEnd).used ==> InMemory(MapOf(b), p))
            <==> forall k, p :: 0 <= k < |MapOf(b)| && !StartsLow(MapOf(b)[k]) && Covers(MapOf(b)[k], p) && !IsReserved(p, kernelEnd)
                   ==> InMemory(MapOf(b), p)
  {
    var rs := MapOf(b);
    StartedFree(b, kernelEnd);
    forall k, p | 0 <= k < |rs| && StartsLow(rs[k]) && Covers(rs[k], p)
      ensures InMemory(rs, p)
    {
      ClearedInside(rs[k], p);
    }
  }

  /** Memory at 4 GB frees the pages of the low 256 MB, whether they are memory or not. */
  lemma HighRegionFreesLowPages(b: BootInfo, kernelEnd: nat)
    requires kernelEnd < 0x10_0000 && MapOf(b) == [Region(0x1_0000_0000, 0x1000_0000, 1)]
    ensures 300 !in Started(b, kernelEnd).used && !InMemory(MapOf(b), 300)
  {
    StartedFree(b, kernelEnd);
    assert Covers(MapOf(b)[0], 300);
  }

  /** A machine with 64 MB: fewer free pages are reported than are clear. */
  lemma SmallMachineUnderreports(b: BootInfo, kernelEnd: nat)
    requires MapOf(b) == [Region(0x10_0000, 0x3F0_0000, 1)] && b.memLower == 640 && b.memUpper == 64512 && kernelEnd < 0x100_0000
    ensures FreePages(Started(b, kernelEnd)) < MAX_PAGES - |Started(b, kernelEnd).used|
  {
    SmallTotal(b);
    OneRegionCounted(b, kernelEnd, 10000);
    FreePagesBound(Started(b, kernelEnd));
  }

  /** A map of one region leaves a right counter, and page p free when the region covers it above the kernel. */
  lemma OneRegionCounted(b: BootInfo, kernelEnd: nat, p: int)
    requires |MapOf(b)| == 1 && Covers(MapOf(b)[0], p) && !IsReserved(p, kernelEnd)
    ensures Counted(Started(b, kernelEnd)) && |Started(b, kernelEnd).used| < MAX_PAGES
  {
    StartedExact(b, kernelEnd);
    UsedBound(Started(b, kernelEnd));
  }

  lemma SmallTotal(b: BootInfo)
    requires b.memLower == 640 && b.memUpper == 64512
    ensures TotalPages(b) == 16544
  {
  }

  /** Two regions that overlap in the megabyte at 2 MB: the counter is wrong. */
  lemma OverlapMiscounts(b: BootInfo, kernelEnd: nat)
    requires MapOf(b) == [Region(0x10_0000, 0x20_0000, 1), Region(0x20_0000, 0x20_0000, 1)]
    ensures Started(b, kernelEnd).counter != |Started(b, kernelEnd).used|
  {
    ShareAPage(MapOf(b), 600);
    CounterExact(b, kernelEnd);
  }

  lemma ShareAPage(rs: seq<Region>, p: int)
    requires |rs| == 2 && Covers(rs[0], p) && Covers(rs[1], p)
    ensures !DisjointPages(rs, |rs|)
  {
    assert p in PagesOf(rs[0]) && p in PagesOf(rs[1]);
  }
}
