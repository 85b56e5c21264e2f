/** src/kernel/mm/vmm.c: page tables in frames that the page allocator hands out. */
module Vmm {
  import opened Options
  import opened Paging
  import opened Words
  import opened Reach
  import Bits
  import Buddy
  import Pmm

  const PAGE_PRESENT: nat := 1
  const PAGE_RW: nat := 2
  const EIGHT_MB: nat := 0x80_0000
  const HIGHER_HALF: nat := 0xC000_0000

  /** Or-ing flags, and then the present bit they contain, into a page address. */
  lemma EntryBits(frame: nat, flags: nat)
    requires frame < PAGES && flags < 4096 && flags % 2 == 1
    ensures var entry := Bits.Or(frame * 4096, flags);
      && entry == Bits.Or(entry, PAGE_PRESENT) && entry < LIMIT
      && Present(entry) && FrameOf(entry) == frame && entry % 4096 == flags
  {
    hide Bits.Or;
    Bits.OrPage(frame, flags);
    var entry := frame * 4096 + flags;
    assert entry % 2 == 1 && entry / 4096 == frame && entry % 4096 == flags;
    Bits.OrOdd(entry);
  }

  /** The frames of the directory and the tables are live blocks of one page each, and they
      are mapped to themselves, so that the kernel can write them. */
  ghost predicate Owned(s: Buddy.State, own: iset<int>, dir: nat, tables: map<nat, nat>) {
    && Buddy.IsUsed(s, Buddy.Block(dir, 0)) && dir in own
    && forall i :: i in tables ==> Buddy.IsUsed(s, Buddy.Block(tables[i], 0)) && tables[i] in own
  }

  /** The pages of memory that are mapped to themselves: with the boot code's tables those
      below 8 MB, later those for which the own tables say so. */
  ghost function OwnPages(switched: bool, flat: map<nat, Mapping>, total: nat): iset<int> {
    if switched then iset f: nat | f < total && f in flat && flat[f].frame == f
    else iset f | IsLow(f)
  }

  /** The frame is the directory or a table. */
  predicate IsTable(dir: nat, tables: map<nat, nat>, f: int) {
    f == dir || f in tables.Values
  }

  /** Mapping page v as m leaves the directory and the tables mapped to themselves. */
  lemma OwnKept(switched: bool, flat: map<nat, Mapping>, total: nat, v: nat, m: Mapping, dir: nat, tables: map<nat, nat>)
    requires switched && v in OwnPages(switched, flat, total) ==> m.frame == v || !IsTable(dir, tables, v)
    ensures forall f :: f in OwnPages(switched, flat, total) && IsTable(dir, tables, f) ==>
      f in OwnPages(switched, flat[v := m], total)
    ensures !switched || v >= total ==> OwnPages(switched, flat, total) == OwnPages(switched, flat[v := m], total)
  {
  }

  /** At most a table for this slot came along, in this frame. */
  ghost predicate TablesGrow(before: map<nat, nat>, tables: map<nat, nat>, slot: nat, frame: nat) {
    && tables.Keys == before.Keys + {slot}
    && (forall i :: i in before ==> tables[i] == before[i])
    && (slot !in before ==> tables[slot] == frame)
  }

  lemma NoTable(dir: nat, tables: map<nat, nat>, tables': map<nat, nat>, slot: nat, frame: nat, v: nat)
    requires TablesGrow(tables, tables', slot, frame) && !IsTable(dir, tables, v) && (slot !in tables ==> v != frame)
    ensures !IsTable(dir, tables', v)
  {
    forall i | i in tables' ensures tables'[i] != v {
      assert i in tables || i == slot;
      assert i in tables ==> tables[i] in tables.Values;
    }
  }

  /** The pages that a loop over size bytes in steps of 4096 visits. */
  function Pages(size: nat): nat {
    (size + 4095) / 4096
  }

  /** n pages from v on go to the frames from p on, writable. */
  function WithRange(flat: map<nat, Mapping>, v: nat, p: nat, n: nat): map<nat, Mapping> {
    if n == 0 then flat else WithRange(flat, v, p, n - 1)[v + n - 1 := Mapping(p + n - 1, 3)]
  }

  lemma RangeGrows(flat: map<nat, Mapping>, v: nat, p: nat, k: nat)
    ensures WithRange(flat, v, p, 0) == flat
    ensures WithRange(flat, v, p, k + 1) == WithRange(flat, v, p, k)[v + k := Mapping(p + k, 3)]
  {
  }

  lemma {:induction false} RangeAt(flat: map<nat, Mapping>, v: nat, p: nat, n: nat)
    ensures var r := WithRange(flat, v, p, n);
      && (forall u :: u in r <==> u in flat || v <= u < v + n)
      && (forall u :: u in r ==> r[u] == if v <= u < v + n then Mapping(p + u - v, 3) else flat[u])
  {
    if n > 0 {
      RangeAt(flat, v, p, n - 1);
    }
  }

  /** What vmm_init maps, writable: n pages from fb on to themselves, the rest of the first
      8 MB to themselves, and 8 MB from 3 GB on to the first 8 MB. */
  ghost predicate KernelMap(flat: map<nat, Mapping>, fb: nat, n: nat) {
    && (forall u :: u in flat <==> 0 <= u < 0x800 || 0xC0000 <= u < 0xC0800 || fb <= u < fb + n)
    && (forall u :: u in flat ==>
        flat[u] == Mapping(if !(fb <= u < fb + n) && 0xC0000 <= u < 0xC0800 then u - 0xC0000 else u, 3))
  }

  lemma KernelWindow(flat: map<nat, Mapping>, fb: nat, n: nat)
    requires KernelMap(flat, fb, n)
    ensures forall f :: 0 <= f < WINDOW ==> f in flat && flat[f].frame == f
  {
  }

  /** The three loops of vmm_init. */
  ghost function InitLoops(u: Use, own: iset<int>, fb: nat, n: nat): Option<Use> {
    match MapLoop(u, own, 0, Pages(EIGHT_MB))
    case None => None
    case Some(w) => (
      match MapLoop(w, own, HIGHER_HALF / 4096, Pages(EIGHT_MB))
      case None => None
      case Some(x) => MapLoop(x, own, fb, n)
    )
  }

  lemma KernelRanges(fb: nat, n: nat, k: nat, high: nat)
    requires k == 0x800 && high == 0xC0000
    ensures KernelMap(WithRange(WithRange(WithRange(map[], 0, 0, k), high, 0, k), fb, fb, n), fb, n)
  {
    hide WithRange;
    var low := WithRange(map[], 0, 0, k);
    var both := WithRange(low, high, 0, k);
    RangeAt(map[], 0, 0, k);
    RangeAt(low, high, 0, k);
    RangeAt(both, fb, fb, n);
  }

  lemma Steps(k: nat, size: nat)
    ensures 4096 * k < size <==> k < Pages(size)
  {
  }

  lemma AddressParts(a: nat)
    requires a < LIMIT
    ensures a / 4096 < PAGES && a / 0x40_0000 == a / 4096 / 1024 < ENTRIES && a / 0x1000 % 0x400 == a / 4096 % 1024
  {
  }

  lemma PageOf(address: nat, k: nat)
    ensures (address + 4096 * k) / 4096 == address / 4096 + k
    ensures address / 4096 + k < PAGES ==> address + 4096 * k < LIMIT
  {
  }

  /** The pager's whole state fits together: the tables in mem translate as flat says, and
      the directory and the tables are in pages of their own, within reach. */
  ghost predicate Paged(mem: seq<seq<nat>>, dir: nat, tables: map<nat, nat>, flat: map<nat, Mapping>,
                        s: Buddy.State, own: iset<int>) {
    && |mem| <= PAGES && Tables(mem, dir, tables) && Refines(mem, dir, flat) && Owned(s, own, dir, tables)
  }

  lemma PagedRam(mem: seq<seq<nat>>, dir: nat, tables: map<nat, nat>, flat: map<nat, Mapping>,
                 s: Buddy.State, own: iset<int>)
    requires Paged(mem, dir, tables, flat, s, own)
    ensures Ram(mem)
  {
  }

  /** What vmm_map_page reads from the directory. */
  lemma SlotEntry(mem: seq<seq<nat>>, dir: nat, tables: map<nat, nat>, flat: map<nat, Mapping>,
                  s: Buddy.State, own: iset<int>, slot: nat)
    requires Paged(mem, dir, tables, flat, s, own) && slot < ENTRIES
    ensures dir < |mem| && slot < |mem[dir]|
    ensures Present(mem[dir][slot]) <==> slot in tables
    ensures slot in tables ==> mem[dir][slot] / 4096 == tables[slot] && tables == tables[slot := mem[dir][slot] / 4096]
  {
  }

  ghost predicate NewPage(s: Buddy.State, dir: nat, tables: map<nat, nat>, f: nat) {
    && Buddy.IsUsed(s, Buddy.Block(f, 0)) && f != dir && forall i :: i in tables ==> tables[i] != f
  }

  /** A page the allocator hands out is neither the directory nor a table. */
  lemma StillOwned(s: Buddy.State, own: iset<int>, dir: nat, tables: map<nat, nat>)
    requires Buddy.Inv(s) && Buddy.Alloc(s, 0).1 > 0 && Owned(s, own, dir, tables)
    ensures var (t, f) := Buddy.Alloc(s, 0);
      && Buddy.IsUsed(t, Buddy.Block(f, 0)) && Owned(t, own, dir, tables) && NewPage(t, dir, tables, f)
  {
    hide Buddy.Inv, Buddy.Alloc;
    Buddy.AllocKeeps(s, 0);
  }

  /** Only frame f differs. */
  ghost predicate Cleared(mem: seq<seq<nat>>, r: seq<seq<nat>>, f: nat) {
    && Ram(r) && |r| == |mem| && f < |mem|
    && (forall i :: 0 <= i < ENTRIES ==> r[f][i] == 0)
    && (forall g :: 0 <= g < |mem| && g != f ==> r[g] == mem[g])
  }

  lemma FirstDirectory(mem: seq<seq<nat>>, r: seq<seq<nat>>, dir: nat, s: Buddy.State, own: iset<int>)
    requires Cleared(mem, r, dir) && |mem| <= PAGES && Buddy.IsUsed(s, Buddy.Block(dir, 0)) && dir in own
    ensures Paged(r, dir, map[], map[], s, own)
  {
    hide Tables, Refines;
    EmptyDirectory(r, dir);
  }

  /** Frames that are neither the directory nor a table have their old contents. */
  ghost predicate OthersKept(mem: seq<seq<nat>>, r: seq<seq<nat>>, dir: nat, tables: map<nat, nat>) {
    && |r| == |mem|
    && forall g :: 0 <= g < |mem| && g != dir && (forall i :: i in tables ==> tables[i] != g) ==> r[g] == mem[g]
  }

  lemma TableEntered(mem: seq<seq<nat>>, r: seq<seq<nat>>, dir: nat, tables: map<nat, nat>, flat: map<nat, Mapping>,
                     s: Buddy.State, own: iset<int>, slot: nat, f: nat, flags: nat, pde: nat)
    requires Paged(mem, dir, tables, flat, s, own) && slot < ENTRIES && slot !in tables && NewPage(s, dir, tables, f)
    requires Cleared(mem, r, f) && flags < 4096 && flags % 2 == 1 && f in own
    requires pde == Bits.Or(Bits.Or(f * 4096, flags), PAGE_PRESENT)
    ensures dir < |r| && |r[dir]| == ENTRIES && pde < LIMIT
    ensures Paged(Put(r, dir, slot, pde), dir, tables[slot := f], flat, s, own)
    ensures OthersKept(mem, Put(r, dir, slot, pde), dir, tables[slot := f])
  {
    hide Tables, Refines, Bits.Or;
    ClearFrame(mem, r, dir, tables, flat, f);
    EntryBits(f, flags);
    AddTable(r, dir, tables, flat, slot, f, pde);
    assert f == tables[slot := f][slot];
  }

  lemma EntrySet(mem: seq<seq<nat>>, dir: nat, tables: map<nat, nat>, flat: map<nat, Mapping>,
                 s: Buddy.State, own: iset<int>, own': iset<int>, v: nat, frame: nat, flags: nat, entry: nat)
    requires Paged(mem, dir, tables, flat, s, own) && v < PAGES && v / 1024 in tables
    requires forall f :: f in own && IsTable(dir, tables, f) ==> f in own'
    requires frame < PAGES && flags < 4096 && flags % 2 == 1 && entry == Bits.Or(frame * 4096, flags)
    ensures tables[v / 1024] < |mem| && |mem[tables[v / 1024]]| == ENTRIES && entry < LIMIT
    ensures Paged(Put(mem, tables[v / 1024], v % 1024, entry), dir, tables, flat[v := Mapping(frame, flags)], s, own')
    ensures OthersKept(mem, Put(mem, tables[v / 1024], v % 1024, entry), dir, tables)
  {
    hide Tables, Refines, Bits.Or;
    EntryBits(frame, flags);
    SetEntry(mem, dir, tables, flat, v, entry);
  }

  lemma KeptTwice(mem: seq<seq<nat>>, q: seq<seq<nat>>, r: seq<seq<nat>>, dir: nat, tables: map<nat, nat>)
    requires OthersKept(mem, q, dir, tables) && OthersKept(q, r, dir, tables)
    ensures OthersKept(mem, r, dir, tables)
  {
  }

  lemma ClearedLength(mem: seq<seq<nat>>, r: seq<seq<nat>>, f: nat)
    requires Cleared(mem, r, f)
    ensures |r| == |mem|
  {
  }

  lemma PageInRam(pmm: Pmm.Allocator, f: nat)
    requires pmm.Valid() && Buddy.IsUsed(pmm.state, Buddy.Block(f, 0))
    ensures f < pmm.totalPages
  {
    Pmm.BlockFits(pmm.pages[..], pmm.state, NIL, Buddy.Block(f, 0));
  }

  class Pager {
    const pmm: Pmm.Allocator
    var mem: seq<seq<nat>>
    var directory: nat
    /** cr3 holds the directory; until then the boot code's tables are in force. */
    ghost var switched: bool
    ghost var tables: map<nat, nat>
    ghost var flat: map<nat, Mapping>

    ghost predicate Valid()
      reads this, pmm, pmm.pages, pmm.freeLists
    {
      && pmm.Valid() && directory % 4096 == 0 && |mem| == pmm.totalPages
      && Paged(mem, directory / 4096, tables, flat, pmm.state, Own())
    }

    /** The pages that the kernel reaches at their physical addresses. */
    ghost function Own(): iset<int>
      reads this
    {
      OwnPages(switched, flat, |mem|)
    }

    ghost function Used(): Use
      reads this, pmm
    {
      Use(pmm.state, tables.Keys)
    }

    /** The first lines of vmm_init: an empty directory. The pages hold anything. */
    constructor (allocator: Pmm.Allocator, memory: seq<seq<nat>>)
      requires allocator.Valid() && 0 < Buddy.Alloc(allocator.state, 0).1 < WINDOW
      requires Ram(memory) && |memory| == allocator.totalPages <= PAGES
      modifies allocator`state, allocator.pages, allocator.freeLists
      ensures Valid() && pmm == allocator && tables == map[] && flat == map[] && !switched
      ensures pmm.state == Buddy.Alloc(old(allocator.state), 0).0
    {
      pmm, mem, directory, switched, tables, flat := allocator, memory, 0, false, map[], map[];
      new;
      hide Pmm.Allocator.Valid, Paged, Ram, Buddy.Alloc;
      InitDirectory();
    }

    /** Allocate and clear the directory. */
    method InitDirectory()
      requires pmm.Valid() && 0 < Buddy.Alloc(pmm.state, 0).1 < WINDOW && tables == map[] && flat == map[] && !switched
      requires Ram(mem) && |mem| == pmm.totalPages <= PAGES
      modifies this, pmm`state, pmm.pages, pmm.freeLists
      ensures Valid() && tables == map[] && flat == map[] && !switched
      ensures pmm.state == Buddy.Alloc(old(pmm.state), 0).0
    {
      hide Buddy.Inv, Pmm.Meta, Pmm.AllLinked, Buddy.Alloc, Paged, Ram, Cleared;
      ghost var s, m := pmm.state, mem;
      Buddy.AllocKeeps(s, 0);
      directory := pmm.AllocPages(0);
      PageInRam(pmm, Buddy.Alloc(s, 0).1);
      ClearPage(directory);
      FirstDirectory(m, mem, directory / 4096, pmm.state, Own());
    }

    /** memset of one page to 0. */
    method ClearPage(address: nat)
      requires Ram(mem) && address / 4096 < |mem|
      modifies this`mem
      ensures Cleared(old(mem), mem, address / 4096)
    {
      var f := address / 4096;
      var i := 0;
      while i < ENTRIES
        invariant 0 <= i <= ENTRIES && Ram(mem) && |mem| == |old(mem)|
        invariant forall j :: 0 <= j < i ==> mem[f][j] == 0
        invariant forall g :: 0 <= g < |mem| && g != f ==> mem[g] == old(mem)[g]
      {
        PutRam(mem, f, i, 0);
        mem := Put(mem, f, i, 0);
        i := i + 1;
      }
    }

    /** vmm_map_page: afterwards virtual's page, and no other, translates differently. If
        virtual's slot has no table yet, the page handed out for it must be within reach, and
        the call must not take a table, or the directory, out of reach. */
    method MapPage(virtual: nat, physical: nat, flags: nat)
      requires Valid() && virtual < LIMIT && physical < LIMIT
      requires flags < 4096 && flags % 2 == 1
      requires MapOne(Used(), Own(), virtual / 4096).Some?
      requires switched && virtual / 4096 in Own() && physical / 4096 != virtual / 4096 ==>
        && !IsTable(directory / 4096, tables, virtual / 4096)
        && (virtual / 0x40_0000 !in tables ==> virtual / 4096 != Buddy.Alloc(pmm.state, 0).1)
      modifies this, pmm`state, pmm.pages, pmm.freeLists
      ensures Valid() && directory == old(directory) && switched == old(switched)
      ensures flat == old(flat)[virtual / 4096 := Mapping(physical / 4096, flags)]
      ensures Used() == MapOne(old(Used()), old(Own()), virtual / 4096).value
      ensures TablesGrow(old(tables), tables, virtual / 0x40_0000, Buddy.Alloc(old(pmm.state), 0).1)
      ensures old(!switched || virtual / 4096 >= |mem|) ==> Own() == old(Own())
      ensures OthersKept(old(mem), mem, directory / 4096, tables)
    {
      hide Pmm.Allocator.Valid, Paged, Bits.Or, OwnPages, Buddy.Alloc, OthersKept;
      var pdIndex := virtual / 0x40_0000;
      var ptIndex := virtual / 0x1000 % 0x400;
      AddressParts(virtual);
      AddressParts(physical);
      ghost var m, ts := mem, tables;
      var pt := FindTable(pdIndex, flags, virtual / 4096);
      ghost var q, own := mem, Own();
      var entry := Bits.Or(Bits.Base(physical, 12), flags);
      Bits.ClearLow12(physical);
      if !IsTable(directory / 4096, ts, virtual / 4096) && (pdIndex !in ts ==> virtual / 4096 != Buddy.Alloc(old(pmm.state), 0).1) {
        NoTable(directory / 4096, ts, tables, pdIndex, Buddy.Alloc(old(pmm.state), 0).1, virtual / 4096);
      }
      OwnKept(switched, flat, |mem|, virtual / 4096, Mapping(physical / 4096, flags), directory / 4096, tables);
      EntrySet(mem, directory / 4096, tables, flat, pmm.state, own,
               OwnPages(switched, flat[virtual / 4096 := Mapping(physical / 4096, flags)], |mem|),
               virtual / 4096, physical / 4096, flags, entry);
      mem := Put(mem, pt / 4096, ptIndex, entry);
      flat := flat[virtual / 4096 := Mapping(physical / 4096, flags)];
      KeptTwice(m, q, mem, directory / 4096, tables);
    }

    /** The table for page v's slot of the directory, made if there is none. */
    method FindTable(pdIndex: nat, flags: nat, ghost v: nat) returns (pt: nat)
      requires Valid() && pdIndex == v / 1024 < ENTRIES && flags < 4096 && flags % 2 == 1
      requires MapOne(Used(), Own(), v).Some?
      modifies this, pmm`state, pmm.pages, pmm.freeLists
      ensures Valid() && directory == old(directory) && flat == old(flat) && switched == old(switched)
      ensures |mem| == |old(mem)| && tables == old(tables)[pdIndex := pt / 4096]
      ensures Used() == MapOne(old(Used()), old(Own()), v).value
      ensures TablesGrow(old(tables), tables, pdIndex, Buddy.Alloc(old(pmm.state), 0).1)
      ensures OthersKept(old(mem), mem, directory / 4096, tables)
    {
      hide Pmm.Allocator.Valid, Paged, OwnPages, Buddy.Alloc;
      SlotEntry(mem, directory / 4096, tables, flat, pmm.state, Own(), pdIndex);
      if !Present(mem[directory / 4096][pdIndex]) {
        pt := NewTable(pdIndex, flags);
        assert tables.Keys == old(tables).Keys + {pdIndex};
      } else {
        pt := Bits.Base(mem[directory / 4096][pdIndex], 12);
        Bits.ClearLow12(mem[directory / 4096][pdIndex]);
      }
    }

    /** The branch of vmm_map_page that allocates a table. */
    method NewTable(slot: nat, flags: nat) returns (pt: nat)
      requires Valid() && slot < ENTRIES && slot !in tables && flags < 4096 && flags % 2 == 1
      requires Buddy.Alloc(pmm.state, 0).1 > 0 && Buddy.Alloc(pmm.state, 0).1 in Own()
      modifies this, pmm`state, pmm.pages, pmm.freeLists
      ensures Valid() && directory == old(directory) && flat == old(flat) && switched == old(switched)
      ensures |mem| == |old(mem)| && tables == old(tables)[slot := pt / 4096] && pt % 4096 == 0
      ensures pmm.state == Buddy.Alloc(old(pmm.state), 0).0 && pt / 4096 == Buddy.Alloc(old(pmm.state), 0).1
      ensures OthersKept(old(mem), mem, directory / 4096, tables)
    {
      hide Pmm.Allocator.Valid, Paged, NewPage, Bits.Or, Cleared, OwnPages, Buddy.Alloc, OthersKept;
      pt := TakePage();
      PagedRam(mem, directory / 4096, tables, flat, pmm.state, Own());
      ghost var m, own := mem, Own();
      ClearPage(pt);
      var pde := Bits.Or(Bits.Or(pt, flags), PAGE_PRESENT);
      TableEntered(m, mem, directory / 4096, tables, flat, pmm.state, own, slot, pt / 4096, flags, pde);
      ClearedLength(m, mem, pt / 4096);
      mem := Put(mem, directory / 4096, slot, pde);
      tables := tables[slot := pt / 4096];
    }

    /** A page for a table. */
    method TakePage() returns (pt: nat)
      requires Valid() && Buddy.Alloc(pmm.state, 0).1 > 0
      modifies pmm`state, pmm.pages, pmm.freeLists
      ensures Valid() && pt % 4096 == 0 && pt / 4096 < |mem|
      ensures NewPage(pmm.state, directory / 4096, tables, pt / 4096)
      ensures pmm.state == Buddy.Alloc(old(pmm.state), 0).0 && pt / 4096 == Buddy.Alloc(old(pmm.state), 0).1
    {
      hide Buddy.Inv, Pmm.Meta, Pmm.AllLinked, Buddy.Alloc, Tables, Refines, Owned, NewPage, OwnPages;
      ghost var s := pmm.state;
      StillOwned(s, Own(), directory / 4096, tables);
      pt := pmm.AllocPages(0);
      PageInRam(pmm, Buddy.Alloc(s, 0).1);
    }

    /** vmm_switch_page_directory: from now on the own tables are in force. They must map
        themselves to themselves. */
    ghost method Switch()
      requires Valid() && forall f :: 0 <= f < WINDOW ==> f in flat && flat[f].frame == f
      requires WINDOW <= |mem| && !switched
      modifies this`switched
      ensures Valid() && switched
    {
      hide Pmm.Allocator.Valid, Tables, Refines;
      switched := true;
      assert forall f :: f in OwnPages(false, flat, |mem|) ==> f in OwnPages(true, flat, |mem|);
    }

    /** A mapping loop of vmm_init, over pages of the address space. Its counter has 32 bits. */
    method MapRange(virtual: nat, physical: nat, size: nat)
      requires Valid() && size <= LIMIT - PAGE_SIZE && !switched
      requires virtual / 4096 + Pages(size) <= PAGES && physical / 4096 + Pages(size) <= PAGES
      requires MapLoop(Used(), Own(), virtual / 4096, Pages(size)).Some?
      modifies this, pmm`state, pmm.pages, pmm.freeLists
      ensures Valid() && directory == old(directory) && !switched && |mem| == |old(mem)|
      ensures Used() == MapLoop(old(Used()), old(Own()), virtual / 4096, Pages(size)).value
      ensures flat == WithRange(old(flat), virtual / 4096, physical / 4096, Pages(size))
    {
      hide Pmm.Allocator.Valid, Paged, WithRange, Pages, MapOne;
      var i := 0;
      ghost var k, u, own := 0, Used(), Own();
      RangeGrows(flat, virtual / 4096, physical / 4096, 0);
      Steps(0, size);
      while i < size
        invariant Valid() && directory == old(directory) && !switched && |mem| == |old(mem)|
        invariant i == 4096 * k && k <= Pages(size) && (i < size <==> k < Pages(size))
        invariant flat == WithRange(old(flat), virtual / 4096, physical / 4096, k)
        invariant MapLoop(u, own, virtual / 4096, k) == Some(Used())
      {
        PageOf(virtual, k);
        PageOf(physical, k);
        RangeGrows(old(flat), virtual / 4096, physical / 4096, k);
        MapLoopPrefix(u, own, virtual / 4096, k + 1, Pages(size));
        MapPage(virtual + i, physical + i, PAGE_PRESENT + PAGE_RW);
        i := i + 4096;
        k := k + 1;
        Steps(k, size);
      }
    }

    /** The loops of vmm_init, the first 8 MB as they are and at 3 GB, then the frame buffer,
        and the switch to the new tables. The model takes the frame buffer's address and its
        size in bytes as parameters. */
    method MapKernel(fbStart: nat, fbSize: nat)
      requires Valid() && tables == map[] && flat == map[] && !switched
      requires fbSize <= LIMIT - PAGE_SIZE && fbStart / 4096 + Pages(fbSize) <= PAGES
      requires InitLoops(Used(), Own(), fbStart / 4096, Pages(fbSize)).Some? && WINDOW <= |mem|
      modifies this, pmm`state, pmm.pages, pmm.freeLists
      ensures Valid() && directory == old(directory) && switched && |mem| == |old(mem)|
      ensures Used() == InitLoops(old(Used()), old(Own()), fbStart / 4096, Pages(fbSize)).value
      ensures KernelMap(flat, fbStart / 4096, Pages(fbSize))
    {
      hide Pmm.Allocator.Valid, Paged, WithRange, KernelMap, MapLoop;
      MapRange(0, 0, EIGHT_MB);
      MapRange(HIGHER_HALF, 0, EIGHT_MB);
      MapRange(fbStart, fbStart, fbSize);
      KernelRanges(fbStart / 4096, Pages(fbSize), Pages(EIGHT_MB), 0xC0000);
      KernelWindow(flat, fbStart / 4096, Pages(fbSize));
      Switch();
    }
  }

  // ---------------------------------------------------------------- what vmm_init amounts to

  /** Addresses of the first 8 MB, of the 8 MB at 3 GB and of the mapped frame buffer pages
      translate as intended, and no others translate at all, if the frame buffer keeps clear
      of the two. */
  lemma KernelTranslation(mem: seq<seq<nat>>, dir: nat, flat: map<nat, Mapping>, fb: nat, n: nat, a: nat)
    requires Ram(mem) && Refines(mem, dir, flat) && KernelMap(flat, fb, n) && a < LIMIT
    requires (0x800 <= fb && fb + n <= 0xC0000) || 0xC0800 <= fb
    ensures Translate(mem, dir, a) ==
      if a < EIGHT_MB || fb <= a / 4096 < fb + n then Some(a)
      else if HIGHER_HALF <= a < HIGHER_HALF + EIGHT_MB then Some(a - HIGHER_HALF)
      else None
  {
    hide Lookup;
    var v := a / 4096;
    assert v < PAGES && a == v * 4096 + a % 4096;
    assert a < 0x80_0000 <==> v < 0x800;
    assert 0xC000_0000 <= a < 0xC080_0000 <==> 0xC0000 <= v < 0xC0800;
  }

  /** The loop steps through the frame buffer from its first byte on, so it reaches the page
      of every byte exactly when the part of a page in front of that byte fits into the last
      step; always, if the frame buffer starts at a page. */
  lemma FrameBufferCovered(start: nat, size: nat)
    requires size > 0
    ensures (forall a :: start <= a < start + size ==> start / 4096 <= a / 4096 < start / 4096 + Pages(size))
      <==> start % 4096 + size <= Pages(size) * 4096
    ensures start % 4096 == 0 ==> start % 4096 + size <= Pages(size) * 4096
  {
    var last := start + size - 1;
    if start % 4096 + size > Pages(size) * 4096 {
      assert last / 4096 >= start / 4096 + Pages(size);
      assert start <= last < start + size;
    }
  }

  /** A page of frame buffer that begins in the middle of a page: the page of its last byte
      is not mapped. */
  lemma LastPageMissed(mem: seq<seq<nat>>, dir: nat, flat: map<nat, Mapping>)
    requires Ram(mem) && Refines(mem, dir, flat) && KernelMap(flat, 0xFD00_0800 / 4096, Pages(4096))
    ensures Translate(mem, dir, 0xFD00_0800) == Some(0xFD00_0800)
    ensures Translate(mem, dir, 0xFD00_0800 + 4096 - 1) == None
  {
    hide Lookup, Tables;
    KernelTranslation(mem, dir, flat, 0xFD000, 1, 0xFD00_0800);
    KernelTranslation(mem, dir, flat, 0xFD000, 1, 0xFD00_17FF);
  }
}
