/** Which pages pmm_alloc_pages(0) hands out in which order, and what that means for
    vmm_map_page of src/kernel/mm/vmm.c, which reaches a page table at its physical address:
    only tables in pages that are mapped to themselves can be written. */
module Reach {
  import opened Options
  import opened Bits
  import opened Buddy

  /** The pages below 8 MB: the boot code and then vmm_init map them to themselves. */
  const WINDOW: nat := 0x800

  predicate IsLow(page: int) {
    0 <= page < WINDOW
  }

  /** The allocator, and the slots of the page directory that have a table. */
  datatype Use = Use(s: State, slots: set<nat>)

  // ---------------------------------------------------------------- the kernel's use of pages

  /** vmm_map_page of page v; own are the pages mapped to themselves. None if the new table
      is out of reach, where the C code faults and halts, or if there is no page left. */
  ghost function MapOne(u: Use, own: iset<int>, v: nat): Option<Use> {
    if v / 1024 in u.slots then Some(u)
    else
      var (t, h) := Alloc(u.s, 0);
      if h > 0 && h in own then Some(Use(t, u.slots + {v / 1024})) else None
  }

  /** A mapping loop of vmm_init over n pages from v on. */
  ghost function MapLoop(u: Use, own: iset<int>, v: nat, n: nat): Option<Use> {
    if n == 0 then Some(u)
    else
      match MapLoop(u, own, v, n - 1)
      case None => None
      case Some(w) => MapOne(w, own, v + n - 1)
  }

  /** One page more for the heap, at page v: pmm_alloc_pages(0), then vmm_map_page. */
  ghost function HeapOne(u: Use, own: iset<int>, v: nat): Option<Use> {
    var (t, d) := Alloc(u.s, 0);
    if d > 0 then MapOne(Use(t, u.slots), own, v) else None
  }

  /** The mapping loop of expand_heap and kheap_init. */
  ghost function HeapLoop(u: Use, own: iset<int>, v: nat, n: nat): Option<Use> {
    if n == 0 then Some(u)
    else
      match HeapLoop(u, own, v, n - 1)
      case None => None
      case Some(w) => HeapOne(w, own, v + n - 1)
  }

  /** The slots of n pages from v on. */
  ghost function Slots(v: nat, n: nat): set<nat> {
    if n == 0 then {} else Slots(v, n - 1) + {(v + n - 1) / 1024}
  }

  lemma {:induction false} MapLoopPrefix(u: Use, own: iset<int>, v: nat, k: nat, n: nat)
    requires k <= n && MapLoop(u, own, v, n).Some?
    ensures MapLoop(u, own, v, k).Some?
  {
    if k < n {
      MapLoopPrefix(u, own, v, k, n - 1);
    }
  }

  lemma {:induction false} HeapLoopPrefix(u: Use, own: iset<int>, v: nat, k: nat, n: nat)
    requires k <= n && HeapLoop(u, own, v, n).Some?
    ensures HeapLoop(u, own, v, k).Some?
  {
    if k < n {
      HeapLoopPrefix(u, own, v, k, n - 1);
    }
  }

  lemma LoopStep(u: Use, own: iset<int>, v: nat, n: nat, p: nat)
    requires n > 0 && p == v + n - 1
    ensures HeapLoop(u, own, v, n) ==
      if HeapLoop(u, own, v, n - 1).None? then None else HeapOne(HeapLoop(u, own, v, n - 1).value, own, p)
  {
  }

  /** Two loops in a row are one. */
  lemma {:induction false} HeapLoopOn(u: Use, own: iset<int>, v: nat, m: nat, n: nat)
    requires HeapLoop(u, own, v, m).Some?
    ensures HeapLoop(u, own, v, m + n) == HeapLoop(HeapLoop(u, own, v, m).value, own, v + m, n)
  {
    hide HeapOne;
    if n > 0 {
      HeapLoopOn(u, own, v, m, n - 1);
      LoopStep(u, own, v, m + n, v + (m + n - 1));
      LoopStep(HeapLoop(u, own, v, m).value, own, v + m, n, v + (m + n - 1));
    }
  }

  // ---------------------------------------------------------------- single pages

  lemma SinglePage(x: nat)
    ensures Block(x, 0).Pages() == {x} && Aligned(x, 0)
  {
  }

  lemma PageIsNat(s: State, x: int)
    requires x in FreePages(s)
    ensures 0 <= s.lo <= x < s.hi
  {
  }

  /** pmm_alloc_pages(0) with a page left: a free page, now a live block of its own. */
  lemma OnePage(s: State)
    requires Inv(s) && FreePages(s) != {}
    ensures var (t, h) := Alloc(s, 0);
      && h > 0 && Inv(t) && h !in s.used && t.used == s.used[h := 0] && t.lo == s.lo <= h < s.hi == t.hi
      && h in FreePages(s) && FreePages(t) == FreePages(s) - {h}
  {
    var x: int :| x in FreePages(s);
    hide Inv, Alloc, FreePages;
    PageIsNat(s, x);
    var r := Block(x, 0);
    SinglePage(x);
    OutOfMemoryIffNoFreeRun(s, 0);
    assert r.order == 0 && Aligned(r.head, 0) && r.Pages() <= FreePages(s);
    AllocTakesFreePages(s, 0);
    AllocKeeps(s, 0);
    SinglePage(Alloc(s, 0).1);
    PageIsNat(s, Alloc(s, 0).1);
  }

  /** Without a page left it fails and changes nothing. */
  lemma NoPage(s: State)
    requires Inv(s) && FreePages(s) == {}
    ensures Alloc(s, 0) == (s, 0)
  {
    hide Inv, Alloc, FreePages;
    AllocKeeps(s, 0);
    if Alloc(s, 0).1 != 0 {
      AllocTakesFreePages(s, 0);
      SinglePage(Alloc(s, 0).1);
    }
  }

  // ---------------------------------------------------------------- low pages go first

  ghost function LowFree(s: State): set<int> {
    set x | x in FreePages(s) && x < WINDOW
  }

  /** Free blocks smaller than the largest order lie below 8 MB. */
  ghost predicate LowFirst(s: State) {
    forall b :: IsFree(s, b) && b.order + 1 < MAX_ORDER ==> b.head + Pow2(b.order) <= WINDOW
  }

  /** The low pages are handed out before all others, as far as there are any left. */
  ghost predicate Ordered(s: State) {
    Inv(s) && (LowFirst(s) || LowFree(s) == {})
  }

  lemma {:induction false} CarveFrees(s: State, h: nat, i: nat, k: nat, b: Block)
    requires i <= |s.lists| && IsFree(Carve(s, h, i, k), b)
    ensures IsFree(s, b) || (h <= b.head && b.head + Pow2(b.order) <= h + Pow2(i) && b.order < i)
    decreases i
  {
    if i > k {
      var t := Halve(s, h, i - 1);
      CarveFrees(t, h, i - 1, k, b);
      assert Pow2(i) == 2 * Pow2(i - 1);
      if IsFree(t, b) && !IsFree(s, b) {
        assert b == Block(h + Pow2(i - 1), i - 1);
      }
    }
  }

  lemma OwnRemainder(x: nat)
    ensures x % 0x800 == x <==> x < 0x800
  {
  }

  lemma EightMegabytes()
    ensures Pow2(11) == 0x800
  {
    assert Pow2(5) == 32;
    assert Pow2(11) == 64 * Pow2(5);
  }

  /** An aligned block of the largest order above page 0 starts at 8 MB or later. */
  lemma LargestIsHigh(b: Block)
    requires b.order + 1 == MAX_ORDER && Aligned(b.head, b.order) && b.head > 0
    ensures b.head >= WINDOW
  {
    assert Pow2(11) == WINDOW by { EightMegabytes(); }
    BaseIsFloor(b.head, 11);
    OwnRemainder(b.head);
  }

  lemma Lists(s: State)
    requires Inv(s)
    ensures |s.lists| == MAX_ORDER && s.lo > 0
  {
  }

  lemma LowFirstKept(s: State, i: nat, h: nat)
    requires |s.lists| == MAX_ORDER && LowFirst(s) && i + 1 < MAX_ORDER && s.lists[i] != [] && h == s.lists[i][0]
    ensures LowFirst(Carve(Take(s, i), h, i, 0))
  {
    hide Pow2;
    var t := Take(s, i);
    assert IsFree(s, Block(h, i));
    forall b | IsFree(Carve(t, h, i, 0), b) && b.order + 1 < MAX_ORDER ensures b.head + Pow2(b.order) <= WINDOW {
      CarveFrees(t, h, i, 0, b);
      assert IsFree(t, b) ==> IsFree(s, b);
    }
  }

  /** With a page below 8 MB free, the page handed out is such a page. */
  lemma LowPageFirst(s: State)
    requires Inv(s) && LowFirst(s) && LowFree(s) != {}
    ensures 0 < Alloc(s, 0).1 < WINDOW && LowFirst(Alloc(s, 0).0)
  {
    hide Inv, Aligned;
    var x :| x in LowFree(s);
    var b := FreePageHasBlock(s, x);
    LivePlaced(s, b);
    Lists(s);
    if b.order + 1 == MAX_ORDER { LargestIsHigh(b); }
    var i := FirstFit(s.lists, 0);
    assert i <= b.order;
    var h := s.lists[i][0];
    assert IsFree(s, Block(h, i));
    LivePlaced(s, Block(h, i));
    LowFirstKept(s, i, h);
  }

  function Less(n: nat, k: nat): nat {
    if k < n then n - k else 0
  }

  lemma LowIsFree(s: State)
    ensures LowFree(s) <= FreePages(s) && (FreePages(s) == {} ==> LowFree(s) == {})
    ensures forall x :: x in LowFree(s) <==> x in FreePages(s) && x < WINDOW
  {
  }

  /** One page is handed out: it lies below 8 MB exactly if such a page was free. */
  lemma NextPage(s: State)
    requires Ordered(s)
    ensures var (t, h) := Alloc(s, 0);
      && Ordered(t) && t.lo == s.lo && t.hi == s.hi
      && (0 < h < WINDOW <==> LowFree(s) != {})
      && (h > 0 <==> FreePages(s) != {}) && (h > 0 ==> s.lo <= h < s.hi)
      && |LowFree(t)| == Less(|LowFree(s)|, 1) && |FreePages(t)| == Less(|FreePages(s)|, 1)
  {
    hide Inv, Alloc, FreePages, LowFirst;
    LowIsFree(s);
    if FreePages(s) == {} {
      NoPage(s);
    } else {
      OnePage(s);
      var (t, h) := Alloc(s, 0);
      if LowFree(s) != {} { LowPageFirst(s); }
      assert LowFree(t) == LowFree(s) - {h};
    }
  }

  /** Of the managed pages, those mapped to themselves are the ones below 8 MB. */
  ghost predicate Windowed(own: iset<int>, s: State) {
    forall x :: s.lo <= x < s.hi ==> (x in own <==> x < WINDOW)
  }

  lemma EmptyIsNone<T>(a: set<T>)
    ensures a == {} <==> |a| == 0
  {
  }

  lemma MapOneCount(u: Use, own: iset<int>, v: nat)
    requires Ordered(u.s) && Windowed(own, u.s)
    ensures MapOne(u, own, v).Some? <==> v / 1024 in u.slots || LowFree(u.s) != {}
    ensures MapOne(u, own, v).Some? ==>
      var w := MapOne(u, own, v).value;
      && Ordered(w.s) && Windowed(own, w.s) && w.slots == u.slots + {v / 1024}
      && w.s.lo == u.s.lo && w.s.hi == u.s.hi
      && |LowFree(w.s)| == |LowFree(u.s)| - (if v / 1024 in u.slots then 0 else 1)
      && |FreePages(w.s)| == |FreePages(u.s)| - (if v / 1024 in u.slots then 0 else 1)
  {
    hide Ordered, Alloc, LowFree, FreePages;
    NextPage(u.s);
    EmptyIsNone(LowFree(u.s));
    LowIsFree(u.s);
    EmptyIsNone(FreePages(u.s));
    if v / 1024 in u.slots {
      assert u.slots + {v / 1024} == u.slots;
    }
  }

  lemma NoSlots(v: nat, slots: set<nat>)
    ensures Slots(v, 0) == {} && Slots(v, 0) - slots == {} && slots + Slots(v, 0) == slots
  {
  }

  lemma SlotsGrow(v: nat, n: nat)
    requires n > 0
    ensures Slots(v, n) == Slots(v, n - 1) + {(v + n - 1) / 1024}
  {
  }

  lemma OneSlotMore(a: set<nat>, slots: set<nat>, slot: nat)
    ensures |(a + {slot}) - slots| == |a - slots| + (if slot in slots + a then 0 else 1)
    ensures slots + (a + {slot}) == slots + a + {slot}
  {
    if slot in slots + a {
      assert (a + {slot}) - slots == a - slots;
    } else {
      assert (a + {slot}) - slots == (a - slots) + {slot};
    }
  }

  /** A mapping loop succeeds exactly if there is a free page below 8 MB for every slot that
      needs a table. */
  lemma {:induction false} MapLoopCount(u: Use, own: iset<int>, v: nat, n: nat)
    requires Ordered(u.s) && Windowed(own, u.s)
    ensures MapLoop(u, own, v, n).Some? <==> |Slots(v, n) - u.slots| <= |LowFree(u.s)|
    ensures MapLoop(u, own, v, n).Some? ==>
      var w := MapLoop(u, own, v, n).value;
      && Ordered(w.s) && Windowed(own, w.s) && w.slots == u.slots + Slots(v, n)
      && w.s.lo == u.s.lo && w.s.hi == u.s.hi
      && |LowFree(w.s)| == |LowFree(u.s)| - |Slots(v, n) - u.slots|
      && |FreePages(w.s)| == |FreePages(u.s)| - |Slots(v, n) - u.slots|
  {
    hide Ordered, Windowed, MapOne, LowFree, FreePages, Slots;
    if n == 0 {
      NoSlots(v, u.slots);
    } else {
      MapLoopCount(u, own, v, n - 1);
      var p: nat := v + n - 1;
      SlotsGrow(v, n);
      OneSlotMore(Slots(v, n - 1), u.slots, p / 1024);
      if MapLoop(u, own, v, n - 1).Some? {
        var w := MapLoop(u, own, v, n - 1).value;
        MapOneCount(w, own, p);
        EmptyIsNone(LowFree(w.s));
      }
    }
  }

  // ---------------------------------------------------------------- the region of kmain

  lemma FloorOf(x: nat)
    ensures x / 0x800 * 0x800 == x - x % 0x800
  {
  }

  /** The run of 2^11 pages around an aligned block of a smaller order. */
  lemma Around(b: Block)
    requires Aligned(b.head, b.order) && b.order + 1 < MAX_ORDER
    ensures var c := b.head / 0x800 * 0x800;
      && c <= b.Parent().head && b.Parent().head + Pow2(b.order + 1) <= c + 0x800
      && c <= b.head && b.head + Pow2(b.order) <= c + 0x800
  {
    var c := Block(Base(b.head, 11), 11);
    EightMegabytes();
    BaseIsFloor(b.head, 11);
    Halves(b);
    BaseAligned(b.head, 11);
    InRun(b.head, c.head, 11);
    hide Base, Pow2, Aligned;
    Laminar(b.Parent(), c, b.head);
    FloorOf(b.head);
  }

  lemma FreeIsListed(s: State, b: Block)
    requires IsFree(s, b)
    ensures b in FreeBlocks(s)
  {
  }

  lemma ParentOutside(f: set<int>, b: Block)
    requires b in MaximalRuns(f) && b.order + 1 < MAX_ORDER
    ensures !(Range(b.Parent().head, b.Parent().head + Pow2(b.order + 1)) <= f)
  {
  }

  lemma RangeWithin(a: int, b: int, lo: int, end: int)
    ensures lo <= a && b <= end ==> Range(a, b) <= Range(lo, end)
  {
  }

  lemma InWholeRuns(x: nat, lo: nat, end: nat)
    requires lo < 0x800 && x < end && end % 0x800 == 0
    ensures x / 0x800 * 0x800 + 0x800 <= end
    ensures x / 0x800 * 0x800 == 0 || lo <= x / 0x800 * 0x800
  {
  }

  /** Of the maximal runs of such a region, those that could be larger end below 8 MB. */
  lemma SmallIsLow(lo: nat, end: nat, b: Block)
    requires 0 < lo < WINDOW <= end && end % 0x800 == 0
    requires Placed(lo, end, b) && b.order + 1 < MAX_ORDER && b in MaximalRuns(Range(lo, end))
    ensures b.head + Pow2(b.order) <= WINDOW
  {
    hide Pow2, Aligned, Block.Parent, MaximalRuns, Range;
    Around(b);
    ParentOutside(Range(lo, end), b);
    InWholeRuns(b.head, lo, end);
    RangeWithin(b.Parent().head, b.Parent().head + Pow2(b.order + 1), lo, end);
  }

  lemma RegionLowFirst(s: State, lo: nat, end: nat)
    requires 0 < lo < WINDOW <= end && end % 0x800 == 0
    requires Inv(s) && s.lo == lo && s.hi == end && FreePages(s) == Range(lo, end)
    ensures LowFirst(s)
  {
    hide Inv, FreePages, Pow2, Aligned, MaximalRuns, FreeBlocks;
    CanonicalFreeBlocks(s);
    forall b | IsFree(s, b) && b.order + 1 < MAX_ORDER ensures b.head + Pow2(b.order) <= WINDOW {
      LivePlaced(s, b);
      FreeIsListed(s, b);
      SmallIsLow(lo, end, b);
    }
  }

  /** In a fresh region that ends at a multiple of 8 MB, all smaller blocks lie below 8 MB. */
  lemma RegionOrdered(lo: nat, end: nat)
    requires 0 < lo < WINDOW <= end && end % 0x800 == 0
    ensures Ordered(Region(lo, end)) && LowFree(Region(lo, end)) == Range(lo, WINDOW)
    ensures FreePages(Region(lo, end)) == Range(lo, end)
    ensures Region(lo, end).lo == lo && Region(lo, end).hi == end
  {
    hide Inv, Region, FreePages, LowFirst, LowFree;
    var s := Region(lo, end);
    RegionInv(lo, end);
    RegionLowFirst(s, lo, end);
    LowIsFree(s);
    assert LowFree(s) == Range(lo, WINDOW);
  }

  // ---------------------------------------------------------------- the heap

  /** While the tables exist, the heap can take any free page. */
  lemma {:induction false} HeapInTables(u: Use, own: iset<int>, v: nat, n: nat)
    requires Ordered(u.s) && Windowed(own, u.s) && Slots(v, n) <= u.slots && n <= |FreePages(u.s)|
    ensures HeapLoop(u, own, v, n).Some?
    ensures var w := HeapLoop(u, own, v, n).value;
      && Ordered(w.s) && Windowed(own, w.s) && w.slots == u.slots
      && |LowFree(w.s)| == Less(|LowFree(u.s)|, n) && |FreePages(w.s)| == |FreePages(u.s)| - n
  {
    hide Ordered, Alloc, LowFree, FreePages;
    if n > 0 {
      HeapInTables(u, own, v, n - 1);
      var w := HeapLoop(u, own, v, n - 1).value;
      NextPage(w.s);
      EmptyIsNone(FreePages(w.s));
      assert (v + n - 1) / 1024 in Slots(v, n);
    }
  }

  lemma Sizes(a: set<int>, b: set<int>)
    requires a <= b
    ensures |a| <= |b| && (a == {} <==> |a| == 0) && (b == {} <==> |b| == 0)
  {
    assert b == a + (b - a);
  }

  /** A page in a new slot needs two pages, the second one below 8 MB. */
  lemma HeapNewSlot(u: Use, own: iset<int>, v: nat)
    requires Ordered(u.s) && Windowed(own, u.s) && v / 1024 !in u.slots
    ensures HeapOne(u, own, v).Some? <==> |LowFree(u.s)| >= 2
    ensures HeapOne(u, own, v).Some? ==>
      var w := HeapOne(u, own, v).value;
      && Ordered(w.s) && Windowed(own, w.s) && w.slots == u.slots + {v / 1024}
      && |LowFree(w.s)| == |LowFree(u.s)| - 2 && |FreePages(w.s)| == |FreePages(u.s)| - 2
  {
    hide Ordered, Alloc, LowFree, FreePages;
    var t := Use(Alloc(u.s, 0).0, u.slots);
    NextPage(u.s);
    LowIsFree(u.s);
    LowIsFree(t.s);
    Sizes(LowFree(u.s), FreePages(u.s));
    Sizes(LowFree(t.s), FreePages(t.s));
    MapOneCount(t, own, v);
  }

  lemma FirstHeapPage(u: Use, own: iset<int>, v: nat)
    ensures HeapLoop(u, own, v, 1) == HeapOne(u, own, v)
  {
    assert HeapLoop(u, own, v, 0) == Some(u);
  }

  lemma {:induction false} OneSlot(v: nat, n: nat, slot: nat)
    requires forall k :: v <= k < v + n ==> k / 1024 == slot
    ensures Slots(v, n) <= {slot}
  {
    if n > 0 {
      OneSlot(v, n - 1, slot);
      assert (v + n - 1) / 1024 == slot;
    }
  }

  /** 1024 pages fit, and the next one does not. */
  lemma FourMegabytes(u: Use, own: iset<int>, v: nat)
    requires Ordered(u.s) && Windowed(own, u.s) && v % 1024 == 0
    requires v / 1024 !in u.slots && v / 1024 + 1 !in u.slots
    requires 2 <= |LowFree(u.s)| <= 1026 && |FreePages(u.s)| >= 1026
    ensures HeapLoop(u, own, v, 1024).Some? && HeapLoop(u, own, v, 1025).None?
  {
    hide Ordered, Windowed, LowFree, FreePages, HeapOne;
    FirstHeapPage(u, own, v);
    HeapNewSlot(u, own, v);
    var w := HeapOne(u, own, v).value;
    OneSlot(v + 1, 1023, v / 1024);
    HeapInTables(w, own, v + 1, 1023);
    HeapLoopOn(u, own, v, 1, 1023);
    var x := HeapLoop(u, own, v, 1024).value;
    HeapNewSlot(x, own, v + 1024);
    assert HeapLoop(u, own, v, 1025) == HeapOne(x, own, v + 1024);
  }

  /** Page v starts a slot without a table; the slot behind it has none either. The heap from
      there on can have any number of pages up to 1024, 4 MB, and not one more: it needs a
      table below 8 MB for the first page, and by the next one all pages there are gone. */
  lemma HeapReach(u: Use, own: iset<int>, v: nat, n: nat)
    requires Ordered(u.s) && Windowed(own, u.s) && v % 1024 == 0
    requires v / 1024 !in u.slots && v / 1024 + 1 !in u.slots
    requires |LowFree(u.s)| <= 1026 && |FreePages(u.s)| >= 1026
    ensures HeapLoop(u, own, v, n).Some? <==> n == 0 || (|LowFree(u.s)| >= 2 && n <= 1024)
  {
    hide Ordered, Windowed, LowFree, FreePages, HeapOne;
    if n > 0 {
      FirstHeapPage(u, own, v);
      HeapNewSlot(u, own, v);
      if |LowFree(u.s)| < 2 {
        if HeapLoop(u, own, v, n).Some? { HeapLoopPrefix(u, own, v, 1, n); }
      } else {
        FourMegabytes(u, own, v);
        if n <= 1024 {
          HeapLoopPrefix(u, own, v, n, 1024);
        } else if HeapLoop(u, own, v, n).Some? {
          HeapLoopPrefix(u, own, v, 1025, n);
        }
      }
    }
  }
}
