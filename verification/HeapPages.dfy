/** The pages behind the kernel heap: kheap_init and expand_heap of src/kernel/mm/kheap.c take
    each from the page allocator and map it behind the last one. */
module HeapPages {
  import opened Options
  import opened Paging
  import opened Reach
  import opened Vmm
  import opened Words
  import Buddy
  import Pmm

  const FIRST: nat := 0xD0000       // the page of KHEAP_START

  predicate Maps(flat: map<nat, Mapping>, v: nat, f: nat) {
    v in flat && flat[v] == Mapping(f, 3)
  }

  /** Heap page j is in frame frames[j]: a live block of one page, neither the directory nor
      a table, and no other heap page's frame. */
  ghost predicate Backed(frames: seq<nat>, flat: map<nat, Mapping>, s: Buddy.State, dir: nat, tables: map<nat, nat>) {
    && (forall j :: 0 <= j < |frames| ==> Maps(flat, FIRST + j, frames[j]))
    && (forall j :: 0 <= j < |frames| ==> NewPage(s, dir, tables, frames[j]))
    && (forall i, j :: 0 <= i < j < |frames| ==> frames[i] != frames[j])
  }

  /** A page just handed out is no heap page yet. */
  lemma FreshFrame(frames: seq<nat>, flat: map<nat, Mapping>, s: Buddy.State, dir: nat, tables: map<nat, nat>)
    requires Buddy.Inv(s) && Buddy.Alloc(s, 0).1 > 0 && Backed(frames, flat, s, dir, tables)
    ensures var (t, f) := Buddy.Alloc(s, 0);
      Backed(frames, flat, t, dir, tables) && f !in frames && Buddy.IsUsed(t, Buddy.Block(f, 0))
  {
    hide Buddy.Inv, Buddy.Alloc;
    Buddy.AllocKeeps(s, 0);
    var (t, f) := Buddy.Alloc(s, 0);
    forall j | 0 <= j < |frames| ensures frames[j] != f && NewPage(t, dir, tables, frames[j]) {
      assert NewPage(s, dir, tables, frames[j]);
    }
  }

  /** So is a page just handed out for a table. */
  lemma TableApart(u: Use, own: iset<int>, v: nat, frames: seq<nat>, flat: map<nat, Mapping>, dir: nat,
                   tables: map<nat, nat>, w: Use, ts: map<nat, nat>)
    requires Buddy.Inv(u.s) && MapOne(u, own, v) == Some(w) && Backed(frames, flat, u.s, dir, tables)
    requires u.slots == tables.Keys && w.slots == ts.Keys
    requires forall i :: i in tables ==> i in ts && ts[i] == tables[i]
    requires v / 1024 !in tables ==> v / 1024 in ts && ts[v / 1024] == Buddy.Alloc(u.s, 0).1
    ensures Backed(frames, flat, w.s, dir, ts)
  {
    hide Buddy.Inv, Buddy.Alloc;
    if v / 1024 !in tables {
      FreshFrame(frames, flat, u.s, dir, tables);
      assert forall i :: i in ts ==> i in tables || i == v / 1024;
    } else {
      assert forall i :: i in ts ==> i in tables;
    }
  }

  lemma NotTables(frames: seq<nat>, flat: map<nat, Mapping>, s: Buddy.State, dir: nat, tables: map<nat, nat>)
    requires Backed(frames, flat, s, dir, tables)
    ensures forall g :: g in frames ==> g != dir && forall i :: i in tables ==> tables[i] != g
  {
    forall g | g in frames ensures NewPage(s, dir, tables, g) {
      var j :| 0 <= j < |frames| && frames[j] == g;
    }
  }

  /** One more heap page. */
  lemma OneMore(frames: seq<nat>, flat: map<nat, Mapping>, s: Buddy.State, dir: nat, tables: map<nat, nat>, f: nat)
    requires Backed(frames, flat, s, dir, tables) && f !in frames && NewPage(s, dir, tables, f)
    ensures Backed(frames + [f], flat[FIRST + |frames| := Mapping(f, 3)], s, dir, tables)
  {
  }

  /** What mapping frame f behind the heap's pages does to them. */
  lemma Added(frames: seq<nat>, f: nat, flat: map<nat, Mapping>, dir: nat, s: Buddy.State, s': Buddy.State,
              tables: map<nat, nat>, tables': map<nat, nat>, u: Use, own: iset<int>, w: Use,
              m: seq<seq<nat>>, r: seq<seq<nat>>)
    requires Buddy.Inv(s) && Backed(frames, flat, s, dir, tables) && f !in frames && NewPage(s, dir, tables, f)
    requires u == Use(s, tables.Keys) && w == Use(s', tables'.Keys) && MapOne(u, own, FIRST + |frames|) == Some(w)
    requires TablesGrow(tables, tables', (FIRST + |frames|) / 1024, Buddy.Alloc(s, 0).1)
    requires OthersKept(m, r, dir, tables')
    ensures Backed(frames + [f], flat[FIRST + |frames| := Mapping(f, 3)], s', dir, tables')
    ensures forall g :: g in frames + [f] && g < |m| ==> r[g] == m[g]
  {
    hide Buddy.Inv, Buddy.Alloc, Backed, MapOne;
    OneMore(frames, flat, s, dir, tables, f);
    var all := frames + [f];
    TableApart(u, own, FIRST + |frames|, all, flat[FIRST + |frames| := Mapping(f, 3)], dir, tables, w, tables');
    NotTables(all, flat[FIRST + |frames| := Mapping(f, 3)], s', dir, tables');
  }

  lemma BeyondMemory(flat: map<nat, Mapping>, total: nat, v: nat)
    requires v >= total
    ensures v !in OwnPages(true, flat, total)
  {
  }

  class Backing {
    const pager: Pager
    ghost var frames: seq<nat>

    ghost predicate Valid()
      reads this, pager, pager.pmm, pager.pmm.pages, pager.pmm.freeLists
    {
      && pager.Valid() && pager.switched && |pager.mem| <= FIRST
      && Backed(frames, pager.flat, pager.pmm.state, pager.directory / 4096, pager.tables)
    }

    /** The use of pages once the heap has n more. */
    ghost function Adding(n: nat): Option<Use>
      reads this, pager, pager.pmm
    {
      HeapLoop(pager.Used(), pager.Own(), FIRST + |frames|, n)
    }

    constructor (p: Pager)
      requires p.Valid() && p.switched && |p.mem| <= FIRST
      ensures Valid() && pager == p && frames == []
    {
      pager, frames := p, [];
    }

    /** One round of the mapping loops: a page for the heap at address virtual. The frames
        behind the heap keep their contents, and what a new one holds is not known. */
    method AddPage(virtual: nat)
      requires Valid() && virtual == 4096 * (FIRST + |frames|) && virtual + 4096 <= LIMIT
      requires HeapOne(pager.Used(), pager.Own(), FIRST + |frames|).Some?
      modifies this, pager, pager.pmm`state, pager.pmm.pages, pager.pmm.freeLists
      ensures Valid() && |frames| == |old(frames)| + 1 && old(frames) <= frames
      ensures pager.Used() == HeapOne(old(pager.Used()), old(pager.Own()), FIRST + |old(frames)|).value
      ensures pager.Own() == old(pager.Own()) && |pager.mem| == |old(pager.mem)|
      ensures forall f :: f in frames ==> f < |pager.mem| && pager.mem[f] == old(pager.mem)[f]
    {
      hide Pmm.Allocator.Valid, Buddy.Inv, Buddy.Alloc, Paged, Owned, OwnPages, OthersKept, TablesGrow, Backed, MapOne;
      ghost var s, dir := pager.pmm.state, pager.directory / 4096;
      var phys := TakePage();
      ghost var t, ts, m, f := pager.pmm.state, pager.tables, pager.mem, phys / 4096;
      ghost var u, own := pager.Used(), pager.Own();
      BeyondMemory(pager.flat, |pager.mem|, virtual / 4096);
      pager.MapPage(virtual, phys, PAGE_PRESENT + PAGE_RW);
      frames := frames + [f];
      Added(old(frames), f, old(pager.flat), dir, t, pager.pmm.state, ts, pager.tables, u, own, pager.Used(), m, pager.mem);
    }

    /** A page for the heap itself. */
    method TakePage() returns (phys: nat)
      requires Valid() && Buddy.Alloc(pager.pmm.state, 0).1 > 0
      modifies pager.pmm`state, pager.pmm.pages, pager.pmm.freeLists
      ensures Valid() && phys % 4096 == 0 && phys / 4096 < |pager.mem|
      ensures pager.pmm.state == Buddy.Alloc(old(pager.pmm.state), 0).0 && phys / 4096 == Buddy.Alloc(old(pager.pmm.state), 0).1
      ensures Buddy.Inv(pager.pmm.state) && forall f :: f in frames ==> f < |pager.mem|
      ensures phys / 4096 !in frames && NewPage(pager.pmm.state, pager.directory / 4096, pager.tables, phys / 4096)
    {
      hide Buddy.Alloc, Owned, OwnPages, Backed, Tables, Refines, NewPage, Buddy.Inv, Pmm.Meta, Pmm.AllLinked;
      ghost var s := pager.pmm.state;
      StillOwned(s, pager.Own(), pager.directory / 4096, pager.tables);
      FreshFrame(frames, pager.flat, s, pager.directory / 4096, pager.tables);
      phys := pager.pmm.AllocPages(0);
      PageInRam(pager.pmm, Buddy.Alloc(s, 0).1);
      FramesInRam();
    }

    lemma FramesInRam()
      requires Valid()
      ensures forall f :: f in frames ==> f < |pager.mem|
    {
      hide Owned, OwnPages, Tables, Refines, Buddy.Inv, Pmm.Meta, Pmm.AllLinked;
      forall f | f in frames ensures f < |pager.mem| {
        var j :| 0 <= j < |frames| && frames[j] == f;
        PageInRam(pager.pmm, f);
      }
    }
  }
}
