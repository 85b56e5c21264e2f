/** The memory setup at the start of kmain in src/kernel/main.c: the page allocator with its
    one region, the page tables, and the heap, as far as they can be reached. */
module Boot {
  import opened Options
  import opened Paging
  import opened Reach
  import opened Vmm
  import opened Words
  import opened HeapSpec
  import Buddy
  import HeapPages
  import Kheap
  import Pmm

  const MEGABYTE: nat := 0x10_0000
  const FIRST_PAGE: nat := 0x500
  const LAST_PAGE: nat := 0x8000

  /** What vmm_init makes of the fresh region: a directory, then the three loops. */
  ghost function VmmInit(s: Buddy.State, own: iset<int>, fb: nat, n: nat): Option<Use> {
    var (t, h) := Buddy.Alloc(s, 0);
    if h > 0 && h in own then InitLoops(Use(t, {}), own, fb, n) else None
  }

  /** The slots of the directory that vmm_init needs tables for. */
  ghost function InitSlots(fb: nat, n: nat): set<nat> {
    Slots(0, Pages(EIGHT_MB)) + Slots(HIGHER_HALF / 4096, Pages(EIGHT_MB)) + Slots(fb, n)
  }

  ghost function LowPages(): iset<int> {
    iset f | IsLow(f)
  }

  lemma ThreeSets(a: set<nat>, b: set<nat>, c: set<nat>)
    ensures a - {} == a && {} + a == a
    ensures |a| + |b - a| + |c - (a + b)| == |a + b + c|
  {
    assert a + b + c == a + (b - a) + (c - (a + b));
  }

  lemma InitCount(u: Use, own: iset<int>, fb: nat, n: nat)
    requires Ordered(u.s) && Windowed(own, u.s) && u.slots == {}
    ensures InitLoops(u, own, fb, n).Some? <==> |InitSlots(fb, n)| <= |LowFree(u.s)|
    ensures InitLoops(u, own, fb, n).Some? ==>
      var w := InitLoops(u, own, fb, n).value;
      && Ordered(w.s) && Windowed(own, w.s) && w.slots == InitSlots(fb, n)
      && w.s.lo == u.s.lo && w.s.hi == u.s.hi
      && |LowFree(w.s)| == |LowFree(u.s)| - |InitSlots(fb, n)|
      && |Buddy.FreePages(w.s)| == |Buddy.FreePages(u.s)| - |InitSlots(fb, n)|
  {
    hide Ordered, Windowed, LowFree, Buddy.FreePages, Slots, MapLoop, Pages;
    var a, b, c := Slots(0, Pages(EIGHT_MB)), Slots(HIGHER_HALF / 4096, Pages(EIGHT_MB)), Slots(fb, n);
    MapLoopCount(u, own, 0, Pages(EIGHT_MB));
    ThreeSets(a, b, c);
    if MapLoop(u, own, 0, Pages(EIGHT_MB)).Some? {
      var w := MapLoop(u, own, 0, Pages(EIGHT_MB)).value;
      MapLoopCount(w, own, HIGHER_HALF / 4096, Pages(EIGHT_MB));
      if MapLoop(w, own, HIGHER_HALF / 4096, Pages(EIGHT_MB)).Some? {
        var x := MapLoop(w, own, HIGHER_HALF / 4096, Pages(EIGHT_MB)).value;
        MapLoopCount(x, own, fb, n);
      }
    }
  }

  /** So many pages are left, so many of them below 8 MB. */
  ghost predicate Left(u: Use, low: int, free: int) {
    && Ordered(u.s) && Windowed(LowPages(), u.s) && u.s.lo == FIRST_PAGE && u.s.hi == LAST_PAGE
    && |LowFree(u.s)| == low && |Buddy.FreePages(u.s)| == free
  }

  /** The page handed out first, and what is left behind it. */
  lemma AtStart()
    ensures var (t, h) := Buddy.Alloc(Buddy.Region(FIRST_PAGE, LAST_PAGE), 0);
      0 < h < WINDOW && h in LowPages() && Left(Use(t, {}), 767, 0x7AFF)
  {
    hide Buddy.Region, Ordered, LowFree, Buddy.FreePages, Buddy.Alloc, Buddy.Range;
    var s := Buddy.Region(FIRST_PAGE, LAST_PAGE);
    RegionOrdered(FIRST_PAGE, LAST_PAGE);
    NextPage(s);
    EmptyIsNone(LowFree(s));
  }

  /** On the region of kmain, vmm_init reaches all its tables exactly if it needs at most 767:
      768 pages lie between the start of the region and 8 MB, and the directory takes one. */
  lemma InitReach(fb: nat, n: nat)
    ensures var r, need := VmmInit(Buddy.Region(FIRST_PAGE, LAST_PAGE), LowPages(), fb, n), |InitSlots(fb, n)|;
      && (r.Some? <==> need <= 767)
      && (r.Some? ==> r.value.slots == InitSlots(fb, n) && Left(r.value, 767 - need, 0x7AFF - need))
  {
    hide Buddy.Region, Ordered, LowFree, Buddy.FreePages, Buddy.Alloc, InitLoops, InitSlots, Buddy.Range, LowPages, Windowed;
    AtStart();
    var t := Use(Buddy.Alloc(Buddy.Region(FIRST_PAGE, LAST_PAGE), 0).0, {});
    InitCount(t, LowPages(), fb, n);
  }

  lemma {:induction false} AllSlots(n: nat, k: nat)
    requires n + 1023 >= 1024 * k
    ensures Buddy.Range(0, k) <= Slots(0, n)
    decreases n
  {
    if n > 0 {
      var k' := if n - 1 + 1023 >= 1024 * k then k else k - 1;
      AllSlots(n - 1, k');
      assert k' < k ==> (n - 1) / 1024 == k - 1;
    }
  }

  /** The largest height and pitch: vmm_init would need 1024 tables. */
  lemma TooManySlots()
    ensures VmmInit(Buddy.Region(FIRST_PAGE, LAST_PAGE), LowPages(), 0, Pages(0xFFFF * 0xFFFF)).None?
  {
    hide Buddy.Region, Buddy.Range, VmmInit, LowPages, Slots;
    var n := Pages(0xFFFF * 0xFFFF);
    InitReach(0, n);
    AllSlots(n, ENTRIES);
    Sizes(Buddy.Range(0, ENTRIES), InitSlots(0, n));
  }

  lemma {:induction false} SlotsWithin(v: nat, n: nat)
    ensures forall slot :: slot in Slots(v, n) ==> v / 1024 <= slot <= (v + n - 1) / 1024
  {
    if n > 0 {
      SlotsWithin(v, n - 1);
    }
  }

  lemma FewSlots(v: nat, n: nat)
    requires n > 0
    ensures |Slots(v, n)| <= (v + n - 1) / 1024 - v / 1024 + 1
  {
    hide Slots;
    SlotsWithin(v, n);
    Sizes(Slots(v, n), Buddy.Range(v / 1024, (v + n - 1) / 1024 + 1));
  }

  lemma UnionSize(a: set<nat>, b: set<nat>, c: set<nat>)
    ensures |a + b + c| <= |a| + |b| + |c|
  {
    ThreeSets(a, b, c);
    Sizes(b - a, b);
    Sizes(c - (a + b), c);
  }

  /** With a frame buffer of less than 2^31 bytes vmm_init needs at most 517 tables, and has
      them. Height and pitch have 16 bits each; their product is computed as a signed int. */
  lemma EnoughTables(fb: nat, size: nat)
    requires size < 0x8000_0000
    ensures |InitSlots(fb, Pages(size))| <= 517
    ensures VmmInit(Buddy.Region(FIRST_PAGE, LAST_PAGE), LowPages(), fb, Pages(size)).Some?
  {
    hide Buddy.Region, Buddy.Range, VmmInit, LowPages, Slots;
    var n := Pages(size);
    FewSlots(0, Pages(EIGHT_MB));
    FewSlots(HIGHER_HALF / 4096, Pages(EIGHT_MB));
    if n > 0 { FewSlots(fb, n); } else { NoSlots(fb, {}); }
    UnionSize(Slots(0, Pages(EIGHT_MB)), Slots(HIGHER_HALF / 4096, Pages(EIGHT_MB)), Slots(fb, n));
    InitReach(fb, n);
  }

  /** kmain up to the page tables. vmm_init ends exactly if there are at most 767 slots to
      serve, see InitReach. */
  method SetUp(memory: seq<seq<nat>>, fbStart: nat, fbSize: nat) returns (pager: Pager)
    requires Ram(memory) && |memory| == LAST_PAGE
    requires fbSize <= LIMIT - PAGE_SIZE && fbStart / 4096 + Pages(fbSize) <= PAGES
    requires |InitSlots(fbStart / 4096, Pages(fbSize))| <= 767
    ensures pager.Valid() && pager.switched && KernelMap(pager.flat, fbStart / 4096, Pages(fbSize))
    ensures |pager.mem| == LAST_PAGE && fresh(pager) && fresh(pager.pmm) && fresh(pager.pmm.pages) && fresh(pager.pmm.freeLists)
    ensures Some(pager.Used()) == VmmInit(Buddy.Region(FIRST_PAGE, LAST_PAGE), LowPages(), fbStart / 4096, Pages(fbSize))
  {
    hide Buddy.Region, Buddy.Range, Buddy.FreePages, Buddy.Alloc, Paged, KernelMap, Ram, InitLoops, InitSlots, Left, Pages;
    var pmm := new Pmm.Allocator(128 * MEGABYTE);
    pmm.AddRegion(0x50_0000, (128 - 5) * MEGABYTE);
    AtStart();
    InitReach(fbStart / 4096, Pages(fbSize));
    pager := new Pager(pmm, memory);
    assert pager.Own() == LowPages() && pager.tables.Keys == {};
    pager.MapKernel(fbStart, fbSize);
  }

  // ---------------------------------------------------------------- the heap

  /** Neither the heap's first 4 MB nor the next have a table from vmm_init. */
  ghost predicate HeapApart(fb: nat, n: nat) {
    832 !in InitSlots(fb, n) && 833 !in InitSlots(fb, n)
  }

  /** Of the pages of memory, those below 8 MB are the ones mapped to themselves. */
  ghost predicate LowMapped(own: iset<int>) {
    forall x :: FIRST_PAGE <= x < LAST_PAGE ==> (x in own <==> x < WINDOW)
  }

  /** The pages in use when vmm_init is done. */
  ghost function AfterInit(fb: nat, n: nat): Use
    requires |InitSlots(fb, n)| <= 767
  {
    InitReach(fb, n);
    VmmInit(Buddy.Region(FIRST_PAGE, LAST_PAGE), LowPages(), fb, n).value
  }

  /** With the frame buffer behind the memory, this is what vmm_init leaves. */
  lemma KernelOwn(flat: map<nat, Mapping>, fb: nat, n: nat)
    requires KernelMap(flat, fb, n) && (LAST_PAGE <= fb || n == 0)
    ensures LowMapped(OwnPages(true, flat, LAST_PAGE))
  {
  }

  /** Behind vmm_init, the heap can have any number of pages up to 1024, its first 4 MB, and
      not one more. It has none if vmm_init needed more than 765 tables. */
  lemma HeapFromBoot(fb: nat, n: nat, own: iset<int>, k: nat)
    requires |InitSlots(fb, n)| <= 767 && HeapApart(fb, n) && LowMapped(own)
    ensures HeapLoop(AfterInit(fb, n), own, HeapPages.FIRST, k).Some?
      <==> k == 0 || (|InitSlots(fb, n)| <= 765 && k <= 1024)
  {
    hide Buddy.Region, Ordered, LowFree, Buddy.FreePages, VmmInit, InitSlots, LowPages, HeapLoop;
    InitReach(fb, n);
    HeapReach(AfterInit(fb, n), own, HeapPages.FIRST, k);
  }

  /** A heap of m pages can grow by k pages exactly up to 1024. */
  lemma GrowthLimit(fb: nat, n: nat, own: iset<int>, m: nat, k: nat)
    requires |InitSlots(fb, n)| <= 765 && HeapApart(fb, n) && LowMapped(own) && m <= 1024
    ensures HeapLoop(AfterInit(fb, n), own, HeapPages.FIRST, m).Some?
    ensures HeapLoop(HeapLoop(AfterInit(fb, n), own, HeapPages.FIRST, m).value, own, HeapPages.FIRST + m, k).Some?
      <==> m + k <= 1024
  {
    hide AfterInit, InitSlots, HeapApart, LowMapped, HeapLoop;
    HeapFromBoot(fb, n, own, m);
    HeapLoopOn(AfterInit(fb, n), own, HeapPages.FIRST, m, k);
    HeapFromBoot(fb, n, own, m + k);
  }

  /** In the heap as kheap_init leaves it, a request fits at once, or needs so many pages, and
      then they are enough. */
  lemma FirstRequest(size: nat, align: bool)
    ensures var hs, end := Initial().chunks, Initial().end;
      && ((Scan(hs, 0, size, align) < 1 || 256 + Growth(size, align) / 4096 <= 1024)
          <==> size + (if align then PAGE_SIZE else 0) + H <= 0x30_0000)
      && !Stuck(hs, align) && (Scan(hs, 0, size, align) < 1 ==> Clears(hs[0], align))
      && (size + (if align then PAGE_SIZE else 0) + H <= 0x30_0000 ==> GrownEnd(hs, end, size, align) < LIMIT)
  {
    assert Scan(Initial().chunks, 1, size, align) == 1;
    assert Padding(Initial().chunks[0], true) == PAGE_SIZE - H;
  }

  /** A stuck heap, see HeapSpec.StuckReached, gets 384 more times the two pages asked for by
      kmalloc_a(1); the next mapping fails, at 0xD040_0000. */
  lemma StuckUntil(fb: nat, n: nat, own: iset<int>, k: nat)
    requires |InitSlots(fb, n)| <= 765 && HeapApart(fb, n) && LowMapped(own)
    ensures Growth(1, true) == 2 * PAGE_SIZE
    ensures HeapLoop(AfterInit(fb, n), own, HeapPages.FIRST, 256 + 2 * k).Some? <==> k <= 384
    ensures 4096 * (HeapPages.FIRST + 256 + 2 * 384) == 0xD040_0000
  {
    hide AfterInit, InitSlots, HeapApart, LowMapped, HeapLoop;
    HeapFromBoot(fb, n, own, 256 + 2 * k);
  }

  /** kmain up to the heap, with the frame buffer behind the memory and away from the heap.
      Its first request is served exactly if it needs no more than 3 MB, header and the page
      for alignment included. */
  method SetUpHeap(memory: seq<seq<nat>>, fbStart: nat, fbSize: nat) returns (heap: Kheap.Heap)
    requires Ram(memory) && |memory| == LAST_PAGE
    requires fbSize <= LIMIT - PAGE_SIZE && fbStart / 4096 + Pages(fbSize) <= PAGES
    requires LAST_PAGE <= fbStart / 4096 && HeapApart(fbStart / 4096, Pages(fbSize))
    requires |InitSlots(fbStart / 4096, Pages(fbSize))| <= 765
    ensures heap.Valid() && heap.chunks == Initial().chunks && heap.heapEnd == Initial().end
    ensures forall k: nat :: heap.backing.Adding(k).Some? <==> 256 + k <= 1024
    ensures forall size: nat, align ::
      heap.CanServe(size, align) <==> size + (if align then PAGE_SIZE else 0) + H <= 0x30_0000
  {
    hide Buddy.Region, Buddy.Range, VmmInit, InitSlots, LowPages, Pages, KernelMap, Ram, HeapApart, LowMapped, HeapLoop,
      Scan, Growth, GrownEnd, Stuck, Clears, Pager.Valid, HeapPages.Backing.Valid, Kheap.Heap.OnPages, Inv, Kheap.Represents;
    var pager := SetUp(memory, fbStart, fbSize);
    ghost var fb, n, own := fbStart / 4096, Pages(fbSize), pager.Own();
    KernelOwn(pager.flat, fb, n);
    HeapFromBoot(fb, n, own, 256);
    heap := new Kheap.Heap(pager);
    forall k: nat ensures heap.backing.Adding(k).Some? <==> 256 + k <= 1024 {
      GrowthLimit(fb, n, own, 256, k);
    }
    forall size: nat, align
      ensures heap.CanServe(size, align) <==> size + (if align then PAGE_SIZE else 0) + H <= 0x30_0000
    {
      FirstRequest(size, align);
    }
  }
}
